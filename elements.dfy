/**
  Turning one hunk into one element: the forced markers of the first
  character (`make_forced`), sections and synopses, the single-line
  classifier (`make_single_line_element`) and the multi-line classifier
  (`make_multi_line_element`).
 */
module Elements {
  import opened Strings
  import opened Wrappers
  import opened Types
  import opened Patterns
  import opened Dialogue

  /** The characters that force an element type and are stripped from forced text. */
  const ForcedMarks: set<char> := {'!', '@', '~', '.', '>', '='}

  /** The element constructor `make_forced` hands back. */
  datatype Forced =
    | ForcedAction | ForcedCharacter | ForcedLyric | ForcedSceneHeading
    | ForcedTransition | ForcedSection | ForcedPageBreak | ForcedSynopsis

  /** `make_forced`: the first character forces a type, except for a leading
      ellipsis and for centred text, which open with `.` and `>`. */
  function MakeForced(line: String): (r: Option<Forced>)
    ensures r.Some? <==> line != [] && (line[0] in ForcedMarks || line[0] == '#')
                         && !StartsWith(line, "..") && !(line[0] == '>' && EndsWith(line, "<"))
    ensures r == Some(ForcedPageBreak) <==> line != [] && line[0] == '=' && StartsWith(Trim(line), "===")
    ensures r == Some(ForcedSceneHeading) <==> line != [] && line[0] == '.' && !StartsWith(line, "..")
  {
    if line == [] then None
    else match line[0]
      case '!' => Some(ForcedAction)
      case '@' => Some(ForcedCharacter)
      case '~' => Some(ForcedLyric)
      case '.' => if StartsWith(line, "..") then None else Some(ForcedSceneHeading)
      case '>' => if EndsWith(line, "<") then None else Some(ForcedTransition)
      case '#' => Some(ForcedSection)
      case '=' => if StartsWith(Trim(line), "===") then Some(ForcedPageBreak) else Some(ForcedSynopsis)
      case _ => None
  }

  /** What is left of a section line once it is trimmed and its `#` are gone. */
  function SectionText(txt: String): String {
    TrimStartMatches(Trim(txt), {'#'})
  }

  /** The level `make_section` computes: the bytes the trimming removed. */
  function SectionLevel(txt: String): (n: int)
    ensures n >= 0
  {
    SectionTextShorter(txt);
    Utf8Len(txt) - Utf8Len(SectionText(txt))
  }

  /** The section text is a slice of the line, so it has no more bytes. */
  lemma SectionTextShorter(txt: String)
    ensures Utf8Len(SectionText(txt)) <= Utf8Len(txt)
  {
    var i, j := TrimIsSlice(txt);
    var t := Trim(txt);
    var u := SectionText(txt);
    assert u == t[|t| - |u|..] by {
      TrimStartMatchesSlice(t, {'#'});
    }
    Utf8LenSlice(t, |t| - |u|, |t|);
    assert t[|t| - |u|..|t|] == u;
    Utf8LenSlice(txt, i, j);
  }

  /** `make_section`; the level must fit in a byte, or the conversion panics. */
  function MakeSection(txt: String): (e: Element)
    requires SectionLevel(txt) < 256
    ensures e.Section? && e.attributes == BlankAttributes
    ensures e.level as int == SectionLevel(txt)
  {
    Section(Plain(Trim(SectionText(txt))), BlankAttributes, SectionLevel(txt) as uint8)
  }

  /** `make_synopsis`: the trimmed text after the leading `=`. */
  function MakeSynopsis(txt: String): (e: Element)
    ensures e.Synopsis? && e.text.Plain?
  {
    Synopsis(Plain(Trim(TrimStartMatches(Trim(txt), {'='}))))
  }

  /** Calling the constructor `make_forced` returned. */
  function Build(f: Forced, text: String, attrs: Attributes): Element
    requires f == ForcedSection ==> SectionLevel(text) < 256
  {
    match f
    case ForcedAction => Action(Plain(text), attrs)
    case ForcedCharacter => Character(Plain(text), attrs)
    case ForcedLyric => Lyric(Plain(text), attrs)
    case ForcedSceneHeading => SceneHeading(Plain(text), attrs)
    case ForcedTransition => Transition(Plain(text), attrs)
    case ForcedSection => MakeSection(text)
    case ForcedPageBreak => PageBreak
    case ForcedSynopsis => MakeSynopsis(text)
  }

  /** Cut the first scene number out of `s`: the text without it and without
      notes, and the attributes carrying the number. */
  function WithSceneNumber(s: String, attrs: Attributes): (String, Attributes) {
    match SceneNumberSpan(s)
    case Some((i, m)) => (RemoveNotes(s[..i] + s[m..]), attrs.(sceneNumber := Some(SceneNumberText(s, i, m))))
    case None => (RemoveNotes(s), attrs)
  }

  /** A forced line without its marks and leading whitespace. */
  function Stripped(line: String): String {
    TrimStart(TrimStartMatches(line, ForcedMarks))
  }

  /** The single-line classifier panics only on a section deeper than 255. */
  predicate SingleFits(line: String) {
    MakeForced(line) == Some(ForcedSection) ==> SectionLevel(RemoveNotes(Stripped(line))) < 256
  }

  /** `make_single_line_element`. */
  function MakeSingleLineElement(line: String): Element
    requires SingleFits(line)
  {
    var attributes := BlankAttributes.(notes := NotesOf(line));
    match MakeForced(line)
    case Some(f) =>
      if line[0] == '.' then
        var (text, attrs) := WithSceneNumber(Stripped(line), attributes);
        Build(f, text, attrs)
      else
        Build(f, RemoveNotes(Stripped(line)), attributes)
    case None =>
      if IsScene(line) then
        var (text, attrs) := WithSceneNumber(line, attributes);
        SceneHeading(Plain(text), attrs)
      else if IsTransition(line) then
        Transition(Plain(RemoveNotes(line)), attributes)
      else if IsCentered(line) then
        var text := RemoveNotes(TrimCenteredMarks(line));
        var centered := attributes.(centered := true);
        if IsEndAct(text) then EndOfAct(Plain(text), centered)
        else if IsNewAct(text) then NewAct(Plain(text), centered)
        else Action(Plain(text), centered)
      else
        Action(Plain(RemoveNotes(line)), attributes)
  }

  /** An unforced scene line: a heading, its scene number cut out. */
  lemma SingleScene(line: String)
    requires MakeForced(line).None? && IsScene(line)
    ensures SingleFits(line)
    ensures var (text, attrs) := WithSceneNumber(line, BlankAttributes.(notes := NotesOf(line)));
      MakeSingleLineElement(line) == SceneHeading(Plain(text), attrs)
  {
  }

  /** A forced scene line: a heading without its marks, its scene number cut out. */
  lemma SingleForcedScene(line: String)
    requires MakeForced(line) == Some(ForcedSceneHeading)
    ensures SingleFits(line)
    ensures var (text, attrs) := WithSceneNumber(Stripped(line), BlankAttributes.(notes := NotesOf(line)));
      MakeSingleLineElement(line) == SceneHeading(Plain(text), attrs)
  {
  }

  /** An unforced line that is neither scene, transition nor centred text is action. */
  lemma SingleAction(line: String)
    requires MakeForced(line).None? && !IsScene(line) && !IsTransition(line) && !IsCentered(line)
    ensures SingleFits(line)
    ensures MakeSingleLineElement(line) == Action(Plain(RemoveNotes(line)), BlankAttributes.(notes := NotesOf(line)))
  {
  }

  /** An unforced centred line that opens an act, but does not end one. */
  lemma SingleNewAct(line: String)
    requires MakeForced(line).None? && !IsScene(line) && !IsTransition(line) && IsCentered(line)
    requires var text := RemoveNotes(TrimCenteredMarks(line)); IsNewAct(text) && !IsEndAct(text)
    ensures SingleFits(line)
    ensures MakeSingleLineElement(line) ==
      NewAct(Plain(RemoveNotes(TrimCenteredMarks(line))), BlankAttributes.(notes := NotesOf(line), centered := true))
  {
  }

  /** Each line with the given characters trimmed from its start. */
  function StripEach(lines: seq<String>, cs: set<char>): (r: seq<String>)
    ensures |r| == |lines|
  {
    if lines == [] then [] else [TrimStartMatches(lines[0], cs)] + StripEach(lines[1..], cs)
  }

  /** Each line with its centring marks trimmed. */
  function CenterEach(lines: seq<String>): (r: seq<String>)
    ensures |r| == |lines|
  {
    if lines == [] then [] else [TrimCenteredMarks(lines[0])] + CenterEach(lines[1..])
  }

  /** The text of a forced multi-line hunk: marks stripped, lines joined, notes removed. */
  function ForcedText(hunk: seq<String>): String {
    RemoveNotes(Join("\n", StripEach(hunk, ForcedMarks)))
  }

  /** The multi-line classifier panics on a hunk without lines and on a section deeper than 255. */
  predicate MultiFits(hunk: seq<String>) {
    hunk != [] && (MakeForced(hunk[0]) == Some(ForcedSection) ==> SectionLevel(ForcedText(hunk)) < 256)
  }

  /** `make_multi_line_element`. */
  function MakeMultiLineElement(hunk: seq<String>): Element
    requires MultiFits(hunk)
  {
    var joined := Join("\n", hunk);
    var attributes := BlankAttributes.(notes := NotesOf(joined));
    var top := hunk[0];
    match MakeForced(top)
    case Some(f) =>
      if StartsWith(Trim(top), "@") then DialogueBlockOf(StripEach(hunk, {'@'}))
      else Build(f, ForcedText(hunk), attributes)
    case None =>
      if exists k :: 0 <= k < |hunk| && IsCentered(hunk[k]) then
        Action(Plain(RemoveNotes(Join("\n", CenterEach(hunk)))), attributes.(centered := true))
      else if IsCharacter(top) then DialogueBlockOf(hunk)
      else Action(Plain(RemoveNotes(joined)), attributes)
  }

  /** The marks and the trailing whitespace go; the text stays. */
  lemma SectionTextOf(hs: String, rest: String, ws: String)
    requires hs != [] && forall k :: 0 <= k < |hs| ==> hs[k] == '#'
    requires rest != [] && rest[0] != '#' && !IsWhitespace(rest[0]) && !IsWhitespace(rest[|rest| - 1])
    requires forall k :: 0 <= k < |ws| ==> IsWhitespace(ws[k])
    ensures SectionText(hs + (rest + ws)) == rest
  {
    var txt := hs + (rest + ws);
    assert TrimStart(txt) == txt by {
      assert txt[0] == '#';
    }
    assert Trim(txt) == hs + rest by {
      assert txt == (hs + rest) + ws;
      TrimEndSuffix(hs + rest, ws);
    }
    TrimStartMatchesPrefix(hs, rest, {'#'});
  }

  /** A section line `###text` followed by trailing whitespace: the text is
      what follows the marks, and the level counts the marks and also every
      byte of trailing whitespace, because the length is taken before trimming. */
  lemma SectionOf(hs: String, rest: String, ws: String)
    requires hs != [] && forall k :: 0 <= k < |hs| ==> hs[k] == '#'
    requires rest != [] && rest[0] != '#' && !IsWhitespace(rest[0]) && !IsWhitespace(rest[|rest| - 1])
    requires forall k :: 0 <= k < |ws| ==> IsWhitespace(ws[k])
    ensures SectionLevel(hs + (rest + ws)) == |hs| + Utf8Len(ws)
    ensures Trim(SectionText(hs + (rest + ws))) == rest
  {
    SectionTextOf(hs, rest, ws);
    Trimmed(rest);
    Utf8LenAppend(rest, ws);
    Utf8LenAppend(hs, rest + ws);
    AsciiUtf8Len(hs);
  }

  /** A synopsis `=` marks, optional whitespace, then text: the text alone. */
  lemma SynopsisOf(eqs: String, ws: String, t: String)
    requires eqs != [] && forall k :: 0 <= k < |eqs| ==> eqs[k] == '='
    requires forall k :: 0 <= k < |ws| ==> IsWhitespace(ws[k])
    requires t != [] && t[0] != '=' && !IsWhitespace(t[0]) && !IsWhitespace(t[|t| - 1])
    ensures MakeSynopsis(eqs + (ws + t)) == Synopsis(Plain(t))
  {
    var txt := eqs + (ws + t);
    assert Trim(txt) == txt by {
      assert txt[0] == '=' && txt[|txt| - 1] == t[|t| - 1];
    }
    assert TrimStartMatches(txt, {'='}) == ws + t by {
      assert (ws + t)[0] != '=';
      TrimStartMatchesPrefix(eqs, ws + t, {'='});
    }
    TrimStartPrefix(ws, t);
    Trimmed(t);
  }

  /** Among single lines, exactly the forced `===` lines are page breaks; a
      single line is never a dialogue block. */
  lemma SingleLinePageBreak(line: String)
    requires SingleFits(line)
    ensures MakeSingleLineElement(line).PageBreak? <==> MakeForced(line) == Some(ForcedPageBreak)
    ensures !MakeSingleLineElement(line).DialogueBlock? && !MakeSingleLineElement(line).DualDialogueBlock?
  {
    var attributes := BlankAttributes.(notes := NotesOf(line));
    var e := MakeSingleLineElement(line);
    match MakeForced(line)
    case Some(f) =>
      if line[0] == '.' {
        var (text, attrs) := WithSceneNumber(Stripped(line), attributes);
        assert f == ForcedSceneHeading;
        assert e == SceneHeading(Plain(text), attrs);
      } else {
        BuildKind(f, RemoveNotes(Stripped(line)), attributes);
      }
    case None =>
      if IsScene(line) {
        var (text, attrs) := WithSceneNumber(line, attributes);
        assert e == SceneHeading(Plain(text), attrs);
      }
  }

  /** Only the forced page break builds a page break, and nothing builds a block. */
  lemma BuildKind(f: Forced, text: String, attrs: Attributes)
    requires f == ForcedSection ==> SectionLevel(text) < 256
    ensures Build(f, text, attrs).PageBreak? <==> f == ForcedPageBreak
    ensures !Build(f, text, attrs).DialogueBlock? && !Build(f, text, attrs).DualDialogueBlock?
  {
  }

  /** The attributes of a single-line element: the notes of the raw line, no
      page mark yet, a scene number only on a scene heading, and centring only
      for an unforced centred line. */
  lemma SingleLineAttributes(line: String)
    requires SingleFits(line)
    ensures var e := MakeSingleLineElement(line);
      CarriesAttributes(e) ==>
        && e.attributes.notes == NotesOf(line)
        && !e.attributes.startsNewPage
        && (e.attributes.sceneNumber.Some? ==> e.SceneHeading?)
        && (e.attributes.centered <==> MakeForced(line).None? && !IsScene(line) && !IsTransition(line) && IsCentered(line))
  {
    var attributes := BlankAttributes.(notes := NotesOf(line));
    var e := MakeSingleLineElement(line);
    match MakeForced(line)
    case Some(f) =>
      if line[0] == '.' {
        var (text, attrs) := WithSceneNumber(Stripped(line), attributes);
        SceneNumberAttributes(Stripped(line), attributes);
        assert f == ForcedSceneHeading;
        assert e == SceneHeading(Plain(text), attrs);
        assert !attrs.centered && !attrs.startsNewPage && attrs.notes == NotesOf(line);
      } else {
        assert f != ForcedSceneHeading;
        BuildAttributes(f, RemoveNotes(Stripped(line)), attributes);
        assert CarriesAttributes(e) ==> e.attributes == attributes;
      }
    case None =>
      if IsScene(line) {
        var (text, attrs) := WithSceneNumber(line, attributes);
        SceneNumberAttributes(line, attributes);
        assert e == SceneHeading(Plain(text), attrs);
        assert !attrs.centered && !attrs.startsNewPage && attrs.notes == NotesOf(line);
      } else if IsTransition(line) {
        assert e.attributes == attributes;
      } else if IsCentered(line) {
        assert e.attributes == attributes.(centered := true);
      } else {
        assert e.attributes == attributes;
      }
  }

  /** Cutting the scene number out sets the scene number and nothing else. */
  lemma SceneNumberAttributes(s: String, attrs: Attributes)
    ensures WithSceneNumber(s, attrs).1 == attrs.(sceneNumber := WithSceneNumber(s, attrs).1.sceneNumber)
  {
  }

  /** The forced constructors that carry attributes carry the ones given. */
  lemma BuildAttributes(f: Forced, text: String, attrs: Attributes)
    requires f == ForcedSection ==> SectionLevel(text) < 256
    ensures CarriesAttributes(Build(f, text, attrs)) ==> Build(f, text, attrs).attributes == attrs
  {
  }

  /** A hunk of a blank-line marker and a line of speech reads as dialogue
      under an empty cue, since an empty line counts as upper case. */
  lemma EmptyCue(b: String)
    requires Spoken(b) && !IsCentered(b)
    ensures MakeMultiLineElement(["", b]) == DialogueBlock([
      Character(Plain(""), BlankAttributes),
      Dialogue(Plain(LineText(b)), LineAttributes(b))])
  {
    var hunk := ["", b];
    assert MakeForced("") == None;
    assert !IsCentered("");
    assert forall k :: 0 <= k < |hunk| ==> !IsCentered(hunk[k]);
    assert IsCharacter("");
    DialogueLinesMerge(hunk);
    assert hunk[1..] == [b];
    assert LineTexts([b]) == LineTexts([]) + [LineText(b)];
    assert Join("\n", [LineText(b)]) == LineText(b);
    assert CueName("") == "";
    assert !IsDualDialogue("");
  }

  /** A forced page break that heads a hunk of several lines swallows the
      lines after it. */
  lemma PageBreakSwallowsLines(x: String)
    ensures MultiFits(["===", x])
    ensures MakeMultiLineElement(["===", x]) == PageBreak
  {
    assert Trim("===") == "===";
    assert MakeForced("===") == Some(ForcedPageBreak);
    assert !StartsWith(Trim("==="), "@");
  }

  /** Without a forcing mark on its first line, a hunk of several lines is a
      dialogue block exactly when none of its lines is centred and its first
      line is a character cue, and a dual one exactly when that cue also ends
      in `^`. Otherwise it is an action carrying the notes of the whole hunk,
      centred exactly when one of its lines is. */
  lemma MultiLineKinds(hunk: seq<String>)
    requires MultiFits(hunk) && MakeForced(hunk[0]) == None
    ensures var e := MakeMultiLineElement(hunk);
      && ((e.DialogueBlock? || e.DualDialogueBlock?)
        <==> (forall k :: 0 <= k < |hunk| ==> !IsCentered(hunk[k])) && IsCharacter(hunk[0]))
      && (e.DualDialogueBlock?
        <==> (forall k :: 0 <= k < |hunk| ==> !IsCentered(hunk[k])) && IsCharacter(hunk[0]) && IsDualDialogue(hunk[0]))
    ensures var e := MakeMultiLineElement(hunk);
      !(e.DialogueBlock? || e.DualDialogueBlock?) ==>
        && e.Action? && e.text.Plain?
        && e.attributes.notes == NotesOf(Join("\n", hunk))
        && (e.attributes.centered <==> exists k :: 0 <= k < |hunk| && IsCentered(hunk[k]))
        && !e.attributes.startsNewPage && e.attributes.sceneNumber == None
  {
  }
}
