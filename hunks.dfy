/**
  Splitting the normalised document into lines (`str::lines`) and grouping the
  lines into hunks (`lines_to_hunks`): a blank line closes the current hunk,
  a section line (`#`) always opens its own hunk, a whitespace-only line of
  exactly two bytes is kept as an intentional blank, and a blank line that
  finds a later hunk still empty records an empty-string marker.
 */
module Hunks {
  import opened Strings

  type Hunk = seq<String>

  /** Drop one carriage return that ends a line. */
  function StripCr(l: String): (r: String)
    ensures r == l || (l == r + ['\r'])
  {
    if l != [] && l[|l| - 1] == '\r' then l[..|l| - 1] else l
  }

  /** `str::lines`: split at each line feed, drop a carriage return before it,
      and produce no final empty line. */
  function Lines(s: String): (ls: seq<String>)
    decreases |s|
  {
    if s == [] then []
    else
      var k := IndexFrom(s, 0, '\n');
      if k == |s| then [s] else [StripCr(s[..k])] + Lines(s[k + 1..])
  }

  /** No line holds a line feed. */
  lemma {:induction false} LinesHaveNoLineFeed(s: String)
    ensures forall j, c :: 0 <= j < |Lines(s)| && 0 <= c < |Lines(s)[j]| ==> Lines(s)[j][c] != '\n'
    decreases |s|
  {
    if s != [] {
      var k := IndexFrom(s, 0, '\n');
      if k < |s| {
        LinesHaveNoLineFeed(s[k + 1..]);
      }
    }
  }

  /** Without carriage returns and without a final line feed, joining the lines
      with line feeds gives back the document. */
  lemma {:induction false} LinesJoin(s: String)
    requires forall c :: 0 <= c < |s| ==> s[c] != '\r'
    requires s == [] || s[|s| - 1] != '\n'
    ensures Join("\n", Lines(s)) == s
    decreases |s|
  {
    if s != [] {
      var k := IndexFrom(s, 0, '\n');
      if k < |s| {
        var rest := s[k + 1..];
        assert rest != [];
        LinesJoin(rest);
        assert StripCr(s[..k]) == s[..k];
        assert Lines(s) == [s[..k]] + Lines(rest);
        assert s == s[..k] + "\n" + rest;
        assert Lines(rest) != [];
        assert Join("\n", Lines(s)) == s[..k] + "\n" + Join("\n", Lines(rest));
      }
    }
  }

  /** Whitespace-only lines count as blank. */
  predicate IsBlank(l: String) {
    Trim(l) == []
  }

  /** A blank line of exactly two bytes is kept verbatim in its hunk. */
  predicate IsIntentionalBlank(l: String) {
    IsBlank(l) && Utf8Len(l) == 2
  }

  /** A line that is kept by the segmenter: not blank, or an intentional blank. */
  predicate Visible(l: String) {
    !IsBlank(l) || Utf8Len(l) == 2
  }

  /** A line whose trimmed text starts with `#`. */
  predicate IsSectionLine(l: String) {
    Trim(l) != [] && Trim(l)[0] == '#'
  }

  /** A line ending in a character that is not whitespace is not blank. */
  lemma NotBlankByLastChar(l: String)
    requires l != [] && !IsWhitespace(l[|l| - 1])
    ensures !IsBlank(l)
  {
    TrimStartRemovesWhitespace(l);
    var t := TrimStart(l);
    TrimStartSlice(l);
    assert t != [] && t[|t| - 1] == l[|l| - 1];
  }

  /** The last line of a document whose last character is not whitespace is not blank. */
  lemma {:induction false} LastLineNotBlank(s: String)
    requires s != [] && !IsWhitespace(s[|s| - 1])
    ensures Lines(s) != [] && !IsBlank(Lines(s)[|Lines(s)| - 1])
    decreases |s|
  {
    var k := IndexFrom(s, 0, '\n');
    if k == |s| {
      NotBlankByLastChar(s);
    } else {
      var rest := s[k + 1..];
      assert rest != [] && rest[|rest| - 1] == s[|s| - 1];
      LastLineNotBlank(rest);
    }
  }

  /** One step of the fold: where `line` goes, given the hunks so far. */
  function Step(acc: seq<Hunk>, line: String): (r: seq<Hunk>)
    requires acc != []
    ensures r != []
  {
    var last := acc[|acc| - 1];
    var init := acc[..|acc| - 1];
    if IsBlank(line) then
      if Utf8Len(line) == 2 then init + [last + [line]]
      else if last == [] && |acc| == 1 then acc
      else if last == [] then init + [[""]]
      else acc + [[]]
    else if IsSectionLine(line) then
      if last == [] then init + [[line]] else acc + [[line]]
    else if last != [] && StartsWith(last[0], "#") then acc + [[line]]
    else init + [last + [line]]
  }

  /** The fold over the lines, from one empty hunk. */
  function Fold(lines: seq<String>): (r: seq<Hunk>)
    ensures r != []
    decreases |lines|
  {
    if lines == [] then [[]] else Step(Fold(lines[..|lines| - 1]), lines[|lines| - 1])
  }

  /** `lines_to_hunks`: the fold, with no lines at all giving one hunk holding an empty line. */
  function HunksOf(lines: seq<String>): (r: seq<Hunk>)
  {
    var h := Fold(lines);
    if |h| == 1 && h[0] == [] then [[""]] else h
  }

  /** Replacing the last element is cutting it off and appending the new one. */
  lemma UpdateLast<T>(xs: seq<T>, v: T)
    requires xs != []
    ensures xs[|xs| - 1 := v] == xs[..|xs| - 1] + [v]
  {
  }

  /** The closure of the fold in `lines_to_hunks`: place one line, pushing
      onto the last hunk or opening a new one. */
  method AddLine(acc: seq<Hunk>, line: String) returns (hunks: seq<Hunk>)
    requires acc != []
    ensures hunks == Step(acc, line)
  {
    hunks := acc;
    var n := |hunks| - 1;
    var trimmed := Trim(line);
    if trimmed == [] {
      if Utf8Len(line) == 2 {
        hunks := hunks[n := hunks[n] + [line]];
        UpdateLast(acc, acc[n] + [line]);
        assert hunks == Step(acc, line);
      } else if hunks[n] == [] && |hunks| == 1 {
        assert hunks == Step(acc, line);
      } else if hunks[n] == [] {
        hunks := hunks[n := [""]];
        UpdateLast(acc, [""]);
        assert hunks == Step(acc, line);
      } else {
        hunks := hunks + [[]];
        assert hunks == Step(acc, line);
      }
    } else if trimmed[0] == '#' {
      if hunks[n] == [] {
        hunks := hunks[n := [line]];
        UpdateLast(acc, [line]);
        assert hunks == Step(acc, line);
      } else {
        hunks := hunks + [[line]];
        assert hunks == Step(acc, line);
      }
    } else {
      if hunks[n] != [] && StartsWith(hunks[n][0], "#") {
        hunks := hunks + [[]];
      }
      var m := |hunks| - 1;
      hunks := hunks[m := hunks[m] + [line]];
      if m == n {
        UpdateLast(acc, acc[n] + [line]);
        assert hunks == Step(acc, line);
      } else {
        assert [] + [line] == [line];
        assert hunks == acc + [[line]];
        assert hunks == Step(acc, line);
      }
    }
  }

  /** `lines_to_hunks`: fold the lines into hunks, then turn a lone empty hunk into one empty line. */
  method LinesToHunks(lines: seq<String>) returns (hunks: seq<Hunk>)
    ensures hunks == HunksOf(lines)
  {
    hunks := [[]];
    for i := 0 to |lines|
      invariant hunks == Fold(lines[..i])
    {
      hunks := AddLine(hunks, lines[i]);
      assert lines[..i + 1][..i] == lines[..i];
    }
    assert lines[..|lines|] == lines;
    if |hunks| == 1 && hunks[0] == [] {
      hunks := [[""]];
    }
  }

  function Flatten(hs: seq<Hunk>): seq<String> {
    if hs == [] then [] else hs[0] + Flatten(hs[1..])
  }

  lemma {:induction false} FlattenSnoc(hs: seq<Hunk>, h: Hunk)
    ensures Flatten(hs + [h]) == Flatten(hs) + h
  {
    if hs == [] {
      assert [] + [h] == [h];
    } else {
      assert (hs + [h])[0] == hs[0] && (hs + [h])[1..] == hs[1..] + [h];
      FlattenSnoc(hs[1..], h);
    }
  }

  /** The lines a reader would see: blank lines are dropped unless intentional. */
  function Kept(ls: seq<String>): (r: seq<String>)
    ensures |r| <= |ls|
  {
    if ls == [] then []
    else Kept(ls[..|ls| - 1]) + (if Visible(ls[|ls| - 1]) then [ls[|ls| - 1]] else [])
  }

  lemma {:induction false} KeptAppend(a: seq<String>, b: seq<String>)
    ensures Kept(a + b) == Kept(a) + Kept(b)
    decreases |b|
  {
    if b == [] {
      assert a + b == a;
    } else {
      assert (a + b)[..|a + b| - 1] == a + b[..|b| - 1];
      KeptAppend(a, b[..|b| - 1]);
    }
  }

  lemma FlattenReplaceLast(init: seq<Hunk>, last: Hunk, extra: seq<String>)
    ensures Flatten(init + [last + extra]) == Flatten(init + [last]) + extra
  {
    FlattenSnoc(init, last + extra);
    FlattenSnoc(init, last);
    assert Flatten(init) + (last + extra) == (Flatten(init) + last) + extra;
  }

  lemma KeptLine(line: String)
    ensures Kept([line]) == if Visible(line) then [line] else []
  {
    assert [line][..0] == [];
  }

  /** What one step adds to the flattened hunks: the line when it is visible,
      an empty marker when a blank line finds a later hunk empty, or nothing. */
  function StepAdds(acc: seq<Hunk>, line: String): seq<String>
    requires acc != []
  {
    if Visible(line) then [line]
    else if acc[|acc| - 1] == [] && |acc| > 1 then [""]
    else []
  }

  lemma StepFlattenExact(acc: seq<Hunk>, line: String)
    requires acc != []
    ensures Flatten(Step(acc, line)) == Flatten(acc) + StepAdds(acc, line)
  {
    var last := acc[|acc| - 1];
    var init := acc[..|acc| - 1];
    assert acc == init + [last];
    if IsBlank(line) {
      if Utf8Len(line) == 2 {
        FlattenReplaceLast(init, last, [line]);
      } else if last == [] && |acc| == 1 {
        assert Flatten(acc) + [] == Flatten(acc);
      } else if last == [] {
        assert last + [""] == [""];
        FlattenReplaceLast(init, last, [""]);
      } else {
        FlattenSnoc(acc, []);
        assert Flatten(acc) + [] == Flatten(acc);
      }
    } else if IsSectionLine(line) {
      if last == [] {
        assert last + [line] == [line];
        FlattenReplaceLast(init, last, [line]);
      } else {
        FlattenSnoc(acc, [line]);
      }
    } else if last != [] && StartsWith(last[0], "#") {
      FlattenSnoc(acc, [line]);
    } else {
      FlattenReplaceLast(init, last, [line]);
    }
  }

  lemma KeptMarker()
    ensures Kept([""]) == []
  {
    assert [""][..0] == [];
    assert Trim("") == [];
  }

  /** A step adds the line to what a reader sees exactly when the line is visible. */
  lemma StepFlatten(acc: seq<Hunk>, line: String)
    requires acc != []
    ensures Kept(Flatten(Step(acc, line))) == Kept(Flatten(acc)) + Kept([line])
  {
    StepFlattenExact(acc, line);
    var adds := StepAdds(acc, line);
    KeptAppend(Flatten(acc), adds);
    assert Kept(adds) == Kept([line]) by {
      KeptLine(line);
      KeptMarker();
      if !Visible(line) && adds == [] {
        assert Kept(adds) == [];
      }
    }
  }

  /** No visible line is lost, duplicated or reordered by the segmenter. */
  lemma {:induction false} FoldKeepsVisibleLines(lines: seq<String>)
    ensures Kept(Flatten(Fold(lines))) == Kept(lines)
    decreases |lines|
  {
    if lines == [] {
      assert Flatten([[]]) == [] + Flatten([]);
    } else {
      var init, x := lines[..|lines| - 1], lines[|lines| - 1];
      var f := Fold(init);
      assert Kept(Flatten(f)) == Kept(init) by {
        FoldKeepsVisibleLines(init);
      }
      assert Kept(Flatten(Fold(lines))) == Kept(Flatten(f)) + Kept([x]) by {
        assert Fold(lines) == Step(f, x);
        StepFlatten(f, x);
      }
      assert Kept(lines) == Kept(init) + Kept([x]) by {
        assert lines == init + [x];
        KeptAppend(init, [x]);
      }
    }
  }

  lemma HunksKeepVisibleLines(lines: seq<String>)
    ensures Kept(Flatten(HunksOf(lines))) == Kept(lines)
  {
    FoldKeepsVisibleLines(lines);
    var h := Fold(lines);
    if |h| == 1 && h[0] == [] {
      assert Flatten(h) == [] + Flatten([]);
      assert Flatten([[""]]) == [""] + Flatten([]);
      KeptMarker();
    }
  }

  /** A hunk in which a section line can only come first, and a hunk opened
      by `#` holds nothing after its first line but intentional blanks. */
  predicate GoodHunk(h: Hunk) {
    forall k :: 0 < k < |h| ==> !IsSectionLine(h[k]) && (StartsWith(h[0], "#") ==> IsIntentionalBlank(h[k]))
  }

  /** Shape of the hunks: every hunk but the last has a line, and every hunk is good. */
  predicate WellFormed(hs: seq<Hunk>) {
    hs != []
    && (forall j :: 0 <= j < |hs| - 1 ==> hs[j] != [])
    && (forall j :: 0 <= j < |hs| ==> GoodHunk(hs[j]))
  }

  lemma SectionLineStart(l: String)
    requires StartsWith(l, "#")
    ensures IsSectionLine(l)
  {
    assert l[0] == '#';
    assert !IsWhitespace('#');
    var t := TrimStart(l);
    assert t == l;
    TrimEndRemovesWhitespace(t);
    TrimEndSlice(t);
  }

  lemma GoodSnoc(h: Hunk, x: String)
    requires GoodHunk(h) && h != []
    requires !IsSectionLine(x)
    requires StartsWith(h[0], "#") ==> IsIntentionalBlank(x)
    ensures GoodHunk(h + [x])
  {
    assert (h + [x])[0] == h[0];
  }

  lemma WellFormedReplaceLast(acc: seq<Hunk>, h: Hunk)
    requires WellFormed(acc) && GoodHunk(h)
    ensures WellFormed(acc[..|acc| - 1] + [h])
  {
  }

  lemma WellFormedPush(acc: seq<Hunk>, h: Hunk)
    requires WellFormed(acc) && GoodHunk(h) && acc[|acc| - 1] != []
    ensures WellFormed(acc + [h])
  {
  }

  lemma StepWellFormed(acc: seq<Hunk>, line: String)
    requires WellFormed(acc)
    ensures WellFormed(Step(acc, line))
  {
    var last := acc[|acc| - 1];
    var init := acc[..|acc| - 1];
    assert GoodHunk([line]) && GoodHunk([]) && GoodHunk([""]);
    if IsBlank(line) {
      assert !IsSectionLine(line);
      if Utf8Len(line) == 2 {
        if last == [] {
          assert last + [line] == [line];
        } else {
          GoodSnoc(last, line);
        }
        WellFormedReplaceLast(acc, last + [line]);
      } else if last == [] && |acc| == 1 {
      } else if last == [] {
        WellFormedReplaceLast(acc, [""]);
      } else {
        WellFormedPush(acc, []);
      }
    } else if IsSectionLine(line) {
      if last == [] {
        WellFormedReplaceLast(acc, [line]);
      } else {
        WellFormedPush(acc, [line]);
      }
    } else if last != [] && StartsWith(last[0], "#") {
      WellFormedPush(acc, [line]);
    } else {
      if last == [] {
        assert last + [line] == [line];
      } else {
        GoodSnoc(last, line);
      }
      WellFormedReplaceLast(acc, last + [line]);
    }
  }

  lemma {:induction false} FoldWellFormed(lines: seq<String>)
    ensures WellFormed(Fold(lines))
    decreases |lines|
  {
    if lines != [] {
      FoldWellFormed(lines[..|lines| - 1]);
      StepWellFormed(Fold(lines[..|lines| - 1]), lines[|lines| - 1]);
    }
  }

  /** The last hunk is empty only when the last line is a blank that is not intentional. */
  lemma {:induction false} FoldLastEmpty(lines: seq<String>)
    requires |Fold(lines)| > 1 && Fold(lines)[|Fold(lines)| - 1] == []
    ensures lines != [] && !Visible(lines[|lines| - 1])
  {
    if lines == [] {
    } else {
      var acc := Fold(lines[..|lines| - 1]);
      var line := lines[|lines| - 1];
      assert Fold(lines) == Step(acc, line);
    }
  }

  /** When the lines end in a visible line, or there are none, every hunk has a line. */
  lemma HunksNonEmpty(lines: seq<String>)
    requires lines == [] || Visible(lines[|lines| - 1])
    ensures forall j :: 0 <= j < |HunksOf(lines)| ==> HunksOf(lines)[j] != []
  {
    FoldWellFormed(lines);
    var h := Fold(lines);
    if |h| > 1 && h[|h| - 1] == [] {
      FoldLastEmpty(lines);
    }
  }

  /** Hunks of `lines_to_hunks` keep their shape. */
  lemma HunksWellFormed(lines: seq<String>)
    ensures WellFormed(HunksOf(lines))
  {
    FoldWellFormed(lines);
  }
}
