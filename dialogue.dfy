/**
  `make_dialogue_block`: a character cue followed by parentheticals, lyrics
  and dialogue. Consecutive lyric lines merge into one lyric, consecutive
  dialogue lines into one dialogue, each joined with line feeds; a cue ending
  in `^` wraps the block as the second half of a dual dialogue.
 */
module Dialogue {
  import opened Strings
  import opened Wrappers
  import opened Types
  import opened Patterns
  import Hunks

  /** The cue: the first line trimmed, without trailing `^`, trimmed again. */
  function CueName(raw: String): String {
    Trim(TrimEndMatches(Trim(raw), {'^'}))
  }

  /** A line's text once its notes are gone. */
  function LineText(line: String): (r: String)
    ensures |r| <= |line|
  {
    if HasNote(line) then RemoveNotes(line) else line
  }

  /** The attributes a line brings along: its notes, if it has any. */
  function LineAttributes(line: String): Attributes {
    BlankAttributes.(notes := NotesOf(line))
  }

  /** A lyric line trimmed, without its leading `~`, trimmed again. */
  function LyricText(text: String): String {
    Trim(TrimStartMatches(Trim(text), {'~'}))
  }

  /** Where one line after the cue goes, given the elements so far. */
  function Place(elems: seq<Element>, line: String): (r: seq<Element>)
    requires elems != []
    ensures |elems| <= |r| <= |elems| + 1
    ensures forall k :: 0 <= k < |elems| - 1 ==> r[k] == elems[k]
  {
    var text := LineText(line);
    var attrs := LineAttributes(line);
    var last := elems[|elems| - 1];
    var init := elems[..|elems| - 1];
    if IsParenthetical(text) then
      elems + [Parenthetical(Plain(text), attrs)]
    else if IsLyric(text) then
      if last.Lyric? && last.text.Plain? then
        init + [Lyric(Plain(last.text.text + "\n" + LyricText(text)), last.attributes)]
      else
        elems + [Lyric(Plain(LyricText(text)), attrs)]
    else if last.Dialogue? && last.text.Plain? then
      init + [Dialogue(Plain(last.text.text + "\n" + text), last.attributes)]
    else
      elems + [Dialogue(Plain(text), attrs)]
  }

  /** The elements of the block built from `hunk`, line by line. */
  function Children(hunk: seq<String>): (r: seq<Element>)
    requires hunk != []
    ensures r != []
    decreases |hunk|
  {
    if |hunk| == 1 then [Character(Plain(CueName(hunk[0])), BlankAttributes)]
    else Place(Children(hunk[..|hunk| - 1]), hunk[|hunk| - 1])
  }

  /** The block, wrapped as one half of a dual dialogue when the cue ends in `^`. */
  function DialogueBlockOf(hunk: seq<String>): Element
    requires hunk != []
  {
    var children := Children(hunk);
    if IsDualDialogue(hunk[0]) then DualDialogueBlock([DialogueBlock(children)]) else DialogueBlock(children)
  }

  /** The body of the loop in `make_dialogue_block`: push a new element, or
      extend the last one in place. */
  method PlaceLine(elements: seq<Element>, line: String) returns (r: seq<Element>)
    requires elements != []
    ensures r == Place(elements, line)
  {
    var processed := line;
    var attributes := BlankAttributes;
    if HasNote(line) {
      attributes := attributes.(notes := Some(RetrieveNotes(line)));
      processed := RemoveNotes(line);
    }
    var n := |elements| - 1;
    r := elements;
    if IsParenthetical(processed) {
      r := r + [Parenthetical(Plain(processed), attributes)];
    } else if IsLyric(processed) {
      var stripped := Trim(TrimStartMatches(Trim(processed), {'~'}));
      if r[n].Lyric? && r[n].text.Plain? {
        var merged := Lyric(Plain(r[n].text.text + "\n" + stripped), r[n].attributes);
        r := r[n := merged];
        Hunks.UpdateLast(elements, merged);
      } else {
        r := r + [Lyric(Plain(stripped), attributes)];
      }
    } else if r[n].Dialogue? && r[n].text.Plain? {
      var merged := Dialogue(Plain(r[n].text.text + "\n" + processed), r[n].attributes);
      r := r[n := merged];
      Hunks.UpdateLast(elements, merged);
    } else {
      r := r + [Dialogue(Plain(processed), attributes)];
    }
  }

  /** `make_dialogue_block`. */
  method MakeDialogueBlock(hunk: seq<String>) returns (e: Element)
    requires hunk != []
    ensures e == DialogueBlockOf(hunk)
  {
    var rawName := hunk[0];
    var elements := [Character(Plain(Trim(TrimEndMatches(Trim(rawName), {'^'}))), BlankAttributes)];
    for i := 1 to |hunk|
      invariant elements == Children(hunk[..i])
    {
      elements := PlaceLine(elements, hunk[i]);
      assert hunk[..i + 1][..i] == hunk[..i];
    }
    assert hunk[..|hunk|] == hunk;
    if IsDualDialogue(rawName) {
      e := DualDialogueBlock([DialogueBlock(elements)]);
    } else {
      e := DialogueBlock(elements);
    }
  }

  /** An element that may follow the cue: plain text, of one of three kinds. */
  predicate Speech(e: Element) {
    (e.Parenthetical? || e.Lyric? || e.Dialogue?) && e.text.Plain?
  }

  /** A cue first, only speech after it, and never two lyrics or two
      dialogues side by side. */
  predicate Shaped(r: seq<Element>) {
    && r != [] && r[0].Character?
    && (forall k :: 1 <= k < |r| ==> Speech(r[k]))
    && (forall k :: 1 <= k < |r| - 1 ==> !(r[k].Lyric? && r[k + 1].Lyric?) && !(r[k].Dialogue? && r[k + 1].Dialogue?))
  }

  /** Appending speech that does not repeat the kind of a lyric or dialogue before it keeps the shape. */
  lemma ShapedPush(elems: seq<Element>, x: Element)
    requires Shaped(elems) && Speech(x)
    requires x.Lyric? ==> !elems[|elems| - 1].Lyric?
    requires x.Dialogue? ==> !elems[|elems| - 1].Dialogue?
    ensures Shaped(elems + [x]) && (elems + [x])[0] == elems[0]
  {
  }

  /** Replacing the last speech by speech of the same kind keeps the shape. */
  lemma ShapedReplaceLast(elems: seq<Element>, x: Element)
    requires Shaped(elems) && |elems| >= 2 && Speech(x)
    requires x.Lyric? == elems[|elems| - 1].Lyric? && x.Dialogue? == elems[|elems| - 1].Dialogue?
    ensures Shaped(elems[..|elems| - 1] + [x]) && (elems[..|elems| - 1] + [x])[0] == elems[0]
  {
  }

  /** Placing a line keeps the shape and the cue. */
  lemma PlaceShaped(elems: seq<Element>, line: String)
    requires Shaped(elems)
    ensures Shaped(Place(elems, line)) && Place(elems, line)[0] == elems[0]
  {
    var text := LineText(line);
    var attrs := LineAttributes(line);
    var last := elems[|elems| - 1];
    var init := elems[..|elems| - 1];
    if IsParenthetical(text) {
      ShapedPush(elems, Parenthetical(Plain(text), attrs));
    } else if IsLyric(text) {
      if last.Lyric? && last.text.Plain? {
        ShapedReplaceLast(elems, Lyric(Plain(last.text.text + "\n" + LyricText(text)), last.attributes));
      } else {
        ShapedPush(elems, Lyric(Plain(LyricText(text)), attrs));
      }
    } else if last.Dialogue? && last.text.Plain? {
      ShapedReplaceLast(elems, Dialogue(Plain(last.text.text + "\n" + text), last.attributes));
    } else {
      ShapedPush(elems, Dialogue(Plain(text), attrs));
    }
  }

  /** The block opens with the cleaned cue, holds only speech after it, has
      at most one element per line, and never leaves two lyrics or two
      dialogues side by side. */
  lemma {:induction false} ChildrenShape(hunk: seq<String>)
    requires hunk != []
    ensures Shaped(Children(hunk))
    ensures Children(hunk)[0] == Character(Plain(CueName(hunk[0])), BlankAttributes)
    ensures |Children(hunk)| <= |hunk|
    decreases |hunk|
  {
    if |hunk| > 1 {
      var init := hunk[..|hunk| - 1];
      ChildrenShape(init);
      assert init[0] == hunk[0];
      PlaceShaped(Children(init), hunk[|hunk| - 1]);
    }
  }

  /** A line that is neither a parenthetical nor a lyric once its notes are gone. */
  predicate Spoken(line: String) {
    !IsParenthetical(LineText(line)) && !IsLyric(LineText(line))
  }

  /** The first spoken line after the cue opens a dialogue. */
  lemma PlaceFirstDialogue(c: Element, line: String)
    requires Spoken(line) && c.Character?
    ensures Place([c], line) == [c, Dialogue(Plain(LineText(line)), LineAttributes(line))]
  {
  }

  /** A later spoken line joins the dialogue. */
  lemma PlaceNextDialogue(c: Element, d: Element, line: String)
    requires Spoken(line) && d.Dialogue? && d.text.Plain?
    ensures Place([c, d], line) == [c, Dialogue(Plain(d.text.text + "\n" + LineText(line)), d.attributes)]
  {
    assert [c, d][..1] == [c];
  }

  /** Lines that are neither parentheticals nor lyrics all join into one
      dialogue, which keeps the notes of its first line. */
  lemma {:induction false} DialogueLinesMerge(hunk: seq<String>)
    requires |hunk| >= 2
    requires forall k :: 1 <= k < |hunk| ==> Spoken(hunk[k])
    ensures Children(hunk) == [
      Character(Plain(CueName(hunk[0])), BlankAttributes),
      Dialogue(Plain(Join("\n", LineTexts(hunk[1..]))), LineAttributes(hunk[1]))]
    decreases |hunk|
  {
    if |hunk| == 2 {
      OneSpokenLine(hunk);
    } else {
      var init := hunk[..|hunk| - 1];
      Unsnoc(hunk);
      assert forall k :: 1 <= k < |init| ==> Spoken(init[k]);
      DialogueLinesMerge(init);
      SpokenLineJoins(init, hunk[|hunk| - 1]);
    }
  }

  /** One more spoken line joins the dialogue after the cue. */
  lemma SpokenLineJoins(init: seq<String>, line: String)
    requires |init| >= 2 && Spoken(line)
    requires Children(init) == [
      Character(Plain(CueName(init[0])), BlankAttributes),
      Dialogue(Plain(Join("\n", LineTexts(init[1..]))), LineAttributes(init[1]))]
    ensures var hunk := init + [line];
      Children(hunk) == [
        Character(Plain(CueName(hunk[0])), BlankAttributes),
        Dialogue(Plain(Join("\n", LineTexts(hunk[1..]))), LineAttributes(hunk[1]))]
  {
    var hunk := init + [line];
    var cue := Character(Plain(CueName(init[0])), BlankAttributes);
    Snoc(init, line);
    assert Children(hunk) == Place(Children(init), line);
    var texts := LineTexts(init[1..]);
    var d := Dialogue(Plain(Join("\n", texts)), LineAttributes(init[1]));
    PlaceNextDialogue(cue, d, line);
    assert LineTexts(hunk[1..]) == texts + [LineText(line)];
    JoinSnoc("\n", texts, LineText(line));
  }

  lemma Unsnoc<T>(a: seq<T>)
    requires a != []
    ensures a == a[..|a| - 1] + [a[|a| - 1]]
    ensures forall k :: 0 <= k < |a| - 1 ==> a[..|a| - 1][k] == a[k]
  {
  }

  lemma Snoc<T>(a: seq<T>, x: T)
    requires |a| >= 2
    ensures (a + [x])[..|a|] == a && (a + [x])[0] == a[0] && (a + [x])[1] == a[1]
    ensures (a + [x])[1..] == a[1..] + [x] && (a[1..] + [x])[..|a| - 1] == a[1..]
  {
  }

  /** A cue and one spoken line: the cue, then the line as a dialogue. */
  lemma OneSpokenLine(hunk: seq<String>)
    requires |hunk| == 2 && Spoken(hunk[1])
    ensures Children(hunk) == [
      Character(Plain(CueName(hunk[0])), BlankAttributes),
      Dialogue(Plain(Join("\n", LineTexts(hunk[1..]))), LineAttributes(hunk[1]))]
  {
    var line := hunk[1];
    var cue := Character(Plain(CueName(hunk[0])), BlankAttributes);
    assert hunk[..1] == [hunk[0]];
    assert Children(hunk[..1]) == [cue];
    PlaceFirstDialogue(cue, line);
    assert hunk[1..] == [line];
    assert LineTexts([line]) == LineTexts([]) + [LineText(line)];
  }

  /** The text of each line once its notes are gone. */
  function LineTexts(lines: seq<String>): (r: seq<String>)
    ensures |r| == |lines|
  {
    if lines == [] then [] else LineTexts(lines[..|lines| - 1]) + [LineText(lines[|lines| - 1])]
  }

  /** A cue written `NAME ^` opens the second half of a dual dialogue under `NAME`. */
  lemma DualCue(name: String)
    requires name != [] && !IsWhitespace(name[0]) && !IsWhitespace(name[|name| - 1])
    requires name[|name| - 1] != '^'
    ensures IsDualDialogue(name + " ^")
    ensures CueName(name + " ^") == name
  {
    var raw := name + " ^";
    assert TrimStart(raw) == raw;
    assert Trim(raw) == raw;
    assert TrimEndMatches(raw, {'^'}) == name + " " by {
      TrimEndMatchesSuffix(name + " ", "^", {'^'});
      assert name + " " + "^" == raw;
    }
    assert TrimStart(name + " ") == name + " ";
    assert TrimEnd(name + " ") == name by {
      assert (name + " ")[..|name|] == name;
    }
  }
}
