/**
  The line tests of the classifier: scene locators, transitions, the act
  patterns, centred text, character cues, parentheticals, lyrics and the dual
  dialogue caret, and the two spans the classifier cuts out of a line, the
  note `[[...]]` and the scene number (whitespace, then `#...#`).
  Each regular expression of the parser is a hand-written recogniser here,
  next to a predicate stating what the expression matches.
 */
module Patterns {
  import opened Strings
  import opened Wrappers

  /** The sixteen scene-heading openers, in upper case. */
  const SceneLocators: seq<String> := [
    "INT ", "INT.", "EXT ", "EXT.", "EST.", "EST ",
    "INT./EXT.", "INT./EXT ", "INT/EXT.", "INT/EXT ", "I/E.", "I/E ",
    "EXT./INT.", "EXT./INT ", "EXT/INT.", "EXT/INT "
  ]

  /** `is_scene`: the upper-cased line starts with one of the locators. */
  predicate IsScene(line: String) {
    exists k :: 0 <= k < |SceneLocators| && StartsWith(Upper(line), SceneLocators[k])
  }

  /** Every locator opens with `INT`, `EXT`, `EST` or `I/E` and is four to nine characters long. */
  lemma SceneLocatorShape(k: nat)
    requires k < |SceneLocators|
    ensures 4 <= |SceneLocators[k]| <= 9
    ensures var p := SceneLocators[k][..3]; p == "INT" || p == "EXT" || p == "EST" || p == "I/E"
    ensures var l := SceneLocators[k]; l[1] == '/' || l[3] == ' ' || l[3] == '.' || l[3] == '/'
  {
  }

  /** A scene heading starts, in any case, with `INT`, `EXT`, `EST` or `I/E`. */
  lemma SceneOpeners(line: String)
    requires IsScene(line)
    ensures |line| >= 4
    ensures var p := Upper(line)[..3]; p == "INT" || p == "EXT" || p == "EST" || p == "I/E"
  {
    var k :| 0 <= k < |SceneLocators| && StartsWith(Upper(line), SceneLocators[k]);
    SceneLocatorShape(k);
    assert Upper(line)[..3] == SceneLocators[k][..3];
  }

  /** Upper-casing after lower-casing is upper-casing. */
  lemma UpperLower(s: String)
    ensures Upper(Lower(s)) == Upper(s)
  {
  }

  /** The scene test does not look at case. */
  lemma SceneIgnoresCase(line: String)
    ensures IsScene(Lower(line)) == IsScene(line)
  {
    UpperLower(line);
  }

  /** `is_transition`: the trimmed, upper-cased line ends with `TO:`. */
  predicate IsTransition(line: String) {
    EndsWith(Upper(Trim(line)), "TO:")
  }

  /** `\d`, read as an ASCII digit. */
  predicate IsDigit(c: char) {
    '0' <= c <= '9'
  }

  const NumberWords: seq<String> := ["one", "two", "three", "four", "five", "six", "seven", "eight", "nine", "ten"]

  /** One of `act (\d|one|...|ten)`, `cold open` or `teaser` starts at `s[i]`. */
  predicate ActAt(s: String, i: nat)
    requires i <= |s|
  {
    var t := s[i..];
    (StartsWith(t, "act ")
      && ((|t| > 4 && IsDigit(t[4])) || exists k :: 0 <= k < |NumberWords| && StartsWith(t[4..], NumberWords[k])))
    || StartsWith(t, "cold open") || StartsWith(t, "teaser")
  }

  /** `(of )*` followed by an act alternative starts at `s[j]`. */
  predicate OfsThenAct(s: String, j: nat)
    decreases |s| - j
  {
    j <= |s| && (ActAt(s, j) || (StartsWith(s[j..], "of ") && OfsThenAct(s, j + 3)))
  }

  /** `end (of )*` followed by an act alternative starts at `s[i]`. */
  predicate EndActAt(s: String, i: nat)
    requires i <= |s|
  {
    StartsWith(s[i..], "end ") && OfsThenAct(s, i + 4)
  }

  /** `is_new_act`: the new-act expression matches somewhere in the lower-cased line. */
  predicate IsNewAct(line: String) {
    var l := Lower(line);
    exists i :: 0 <= i <= |l| && ActAt(l, i)
  }

  /** `is_end_act`: the end-of-act expression matches somewhere in the lower-cased line. */
  predicate IsEndAct(line: String) {
    var l := Lower(line);
    exists i :: 0 <= i <= |l| && EndActAt(l, i)
  }

  /** After any number of `of `, an act alternative follows further on. */
  lemma {:induction false} OfsThenActFindsAct(s: String, j: nat)
    requires OfsThenAct(s, j)
    ensures exists i :: j <= i <= |s| && ActAt(s, i)
    decreases |s| - j
  {
    if !ActAt(s, j) {
      OfsThenActFindsAct(s, j + 3);
    }
  }

  /** Whatever the end-of-act expression matches, the new-act expression matches as
      well; so the classifier has to test for the end of an act first. */
  lemma EndActIsNewAct(line: String)
    requires IsEndAct(line)
    ensures IsNewAct(line)
  {
    var l := Lower(line);
    var i :| 0 <= i <= |l| && EndActAt(l, i);
    OfsThenActFindsAct(l, i + 4);
  }

  /** `"END OF ACT ONE"` ends an act. */
  lemma EndOfActExample(e: String)
    requires e == "END OF ACT ONE"
    ensures IsEndAct(e) && IsNewAct(e)
  {
    var le := Lower(e);
    assert le == "end of act one";
    assert ActAt(le, 7) by {
      assert le[7..][4..] == "one";
      assert StartsWith(le[7..][4..], NumberWords[0]);
    }
    assert OfsThenAct(le, 4) by {
      assert StartsWith(le[4..], "of ");
      assert OfsThenAct(le, 7);
    }
    assert EndActAt(le, 0);
    EndActIsNewAct(e);
  }

  /** `"ACT ONE"` opens an act and does not end one. */
  lemma NewActExample(n: String)
    requires n == "ACT ONE"
    ensures IsNewAct(n) && !IsEndAct(n)
  {
    var ln := Lower(n);
    assert ln == "act one";
    assert ActAt(ln, 0) by {
      assert ln[4..] == "one";
      assert StartsWith(ln[4..], NumberWords[0]);
    }
    forall i | 0 <= i <= |ln|
      ensures !EndActAt(ln, i)
    {
      assert !StartsWith(ln[i..], "end ");
    }
  }

  /** The note expression `\[\[([^\]]+)\]\]` matches `s[..n]`. */
  predicate IsNote(s: String, n: nat) {
    5 <= n <= |s| && s[0] == '[' && s[1] == '[' && s[n - 2] == ']' && s[n - 1] == ']'
    && forall j :: 2 <= j < n - 2 ==> s[j] != ']'
  }

  /** Length of the note at the start of `s`, if there is one; there is at most one. */
  function NoteLen(s: String): (r: Option<nat>)
    ensures r.Some? ==> IsNote(s, r.value)
    ensures forall n: nat :: IsNote(s, n) ==> r == Some(n)
  {
    if 2 <= |s| && s[0] == '[' && s[1] == '[' then
      var k := IndexFrom(s, 2, ']');
      if 2 < k && k + 1 < |s| && s[k + 1] == ']' then Some(k + 2) else None
    else None
  }

  /** What a note may hold: at least one character, and no `]`. */
  predicate NoteBody(x: String) {
    x != [] && forall j :: 0 <= j < |x| ==> x[j] != ']'
  }

  /** `remove_notes`: delete the leftmost non-overlapping notes. */
  function RemoveNotes(s: String): (r: String)
    ensures |r| <= |s|
    decreases |s|
  {
    if s == [] then []
    else match NoteLen(s)
      case Some(n) => RemoveNotes(s[n..])
      case None => [s[0]] + RemoveNotes(s[1..])
  }

  /** The notes of `retrieve_notes`, in order: the text between the brackets of each note. */
  function RetrieveNotes(s: String): (r: seq<String>)
    ensures forall x :: x in r ==> NoteBody(x)
    decreases |s|
  {
    if s == [] then []
    else match NoteLen(s)
      case Some(n) => [s[2..n - 2]] + RetrieveNotes(s[n..])
      case None => RetrieveNotes(s[1..])
  }

  /** `has_note`: the line holds `[[`. */
  predicate HasNote(s: String) {
    exists i :: 0 <= i < |s| - 1 && s[i] == '[' && s[i + 1] == '['
  }

  /** The notes an element carries: none without `[[`, else the list, which may be empty. */
  function NotesOf(s: String): (r: Option<seq<String>>)
    ensures r.Some? <==> HasNote(s)
  {
    if HasNote(s) then Some(RetrieveNotes(s)) else None
  }

  /** Characters taken by the notes: each note's text and its four brackets. */
  function NotesSize(ns: seq<String>): nat {
    if ns == [] then 0 else |ns[0]| + 4 + NotesSize(ns[1..])
  }

  /** Every character is either kept in the text or taken by exactly one note. */
  lemma {:induction false} NotesAccount(s: String)
    ensures |RemoveNotes(s)| + NotesSize(RetrieveNotes(s)) == |s|
    decreases |s|
  {
    if s != [] {
      match NoteLen(s) {
        case Some(n) =>
          NotesAccount(s[n..]);
          var ns := RetrieveNotes(s[n..]);
          assert ([s[2..n - 2]] + ns)[1..] == ns;
        case None =>
          NotesAccount(s[1..]);
      }
    }
  }

  /** Without `[[` nothing is removed and nothing is retrieved. */
  lemma {:induction false} NoNotes(s: String)
    requires !HasNote(s)
    ensures RemoveNotes(s) == s && RetrieveNotes(s) == []
    decreases |s|
  {
    if s != [] {
      assert NoteLen(s) == None by {
        if |s| >= 2 && s[0] == '[' {
          assert s[1] != '[';
        }
      }
      assert !HasNote(s[1..]) by {
        forall i | 0 <= i < |s[1..]| - 1
          ensures !(s[1..][i] == '[' && s[1..][i + 1] == '[')
        {
          assert s[1..][i] == s[i + 1] && s[1..][i + 1] == s[i + 2];
        }
      }
      NoNotes(s[1..]);
      assert s == [s[0]] + s[1..];
    }
  }

  /** A retrieved note means the text held `[[`. */
  lemma {:induction false} NotesNeedBrackets(s: String)
    requires RetrieveNotes(s) != []
    ensures HasNote(s)
    decreases |s|
  {
    match NoteLen(s) {
      case Some(n) =>
        assert s[0] == '[' && s[1] == '[';
      case None =>
        NotesNeedBrackets(s[1..]);
        var i :| 0 <= i < |s[1..]| - 1 && s[1..][i] == '[' && s[1..][i + 1] == '[';
        assert s[i + 1] == '[' && s[i + 2] == '[';
    }
  }

  /** Text without `[` before the rest is kept and holds no note. */
  lemma {:induction false} NotesPlain(x: String, y: String)
    requires forall k :: 0 <= k < |x| ==> x[k] != '['
    ensures RemoveNotes(x + y) == x + RemoveNotes(y)
    ensures RetrieveNotes(x + y) == RetrieveNotes(y)
  {
    if x == [] {
      assert x + y == y;
    } else {
      assert (x + y)[0] == x[0] && (x + y)[1..] == x[1..] + y;
      NotesPlain(x[1..], y);
      calc {
        RemoveNotes(x + y);
        [x[0]] + RemoveNotes(x[1..] + y);
        [x[0]] + (x[1..] + RemoveNotes(y));
        { assert x == [x[0]] + x[1..]; }
        x + RemoveNotes(y);
      }
    }
  }

  /** A note at the front is removed and retrieved. */
  lemma NoteFront(x: String, y: String)
    requires NoteBody(x)
    ensures RemoveNotes("[[" + (x + ("]]" + y))) == RemoveNotes(y)
    ensures RetrieveNotes("[[" + (x + ("]]" + y))) == [x] + RetrieveNotes(y)
  {
    var s := "[[" + (x + ("]]" + y));
    var n := |x| + 4;
    assert IsNote(s, n);
    assert s[n..] == y;
    assert s[2..n - 2] == x;
  }

  /** Text, a note, text and a note: the texts stay, the notes are retrieved in order. */
  lemma NotesBetween(a: String, x: String, b: String, z: String)
    requires forall k :: 0 <= k < |a| ==> a[k] != '['
    requires forall k :: 0 <= k < |b| ==> b[k] != '['
    requires NoteBody(x) && NoteBody(z)
    ensures RemoveNotes(a + ("[[" + (x + ("]]" + (b + ("[[" + (z + "]]"))))))) == a + b
    ensures RetrieveNotes(a + ("[[" + (x + ("]]" + (b + ("[[" + (z + "]]"))))))) == [x, z]
  {
    var mid := b + ("[[" + (z + "]]"));
    TextThenNote(b, z);
    var front := "[[" + (x + ("]]" + mid));
    assert RemoveNotes(front) == b && RetrieveNotes(front) == [x, z] by {
      NoteFront(x, mid);
    }
    NotesPlain(a, front);
  }

  /** Text, then a note that ends the line. */
  lemma TextThenNote(b: String, z: String)
    requires forall k :: 0 <= k < |b| ==> b[k] != '['
    requires NoteBody(z)
    ensures RemoveNotes(b + ("[[" + (z + "]]"))) == b && RetrieveNotes(b + ("[[" + (z + "]]"))) == [z]
  {
    NoteAlone(z);
    NotesPlain(b, "[[" + (z + "]]"));
    assert b + [] == b;
  }

  /** A note that is the whole text. */
  lemma NoteAlone(z: String)
    requires NoteBody(z)
    ensures RemoveNotes("[[" + (z + "]]")) == [] && RetrieveNotes("[[" + (z + "]]")) == [z]
  {
    var empty: String := [];
    assert "[[" + (z + "]]") == "[[" + (z + ("]]" + empty));
    NoteFront(z, empty);
  }

  /** The interspersed-notes example: two notes leave the text around them. */
  lemma NotesExample(s: String)
    requires s == "Jack smells the liquor. " + ("[[" + ("Or should he taste it?" + ("]]" + (" Not good. " + ("[[" + ("Or bad?" + "]]"))))))
    ensures RemoveNotes(s) == "Jack smells the liquor.  Not good. "
    ensures RetrieveNotes(s) == ["Or should he taste it?", "Or bad?"]
  {
    NotesBetween("Jack smells the liquor. ", "Or should he taste it?", " Not good. ", "Or bad?");
  }

  /** `is_centered`: the trimmed line opens with `>` and closes with `<`. */
  predicate IsCentered(line: String) {
    var t := Trim(line);
    StartsWith(t, ">") && EndsWith(t, "<")
  }

  const CenterMarks: set<char> := {'>', '<'}

  /** `trim_centered_marks`: strip `>` and `<` from both ends, then whitespace. */
  function TrimCenteredMarks(line: String): (r: String)
    ensures |r| <= |line|
  {
    Trim(TrimMatches(line, CenterMarks))
  }

  /** Marks around text whose ends are neither marks nor whitespace leave the text. */
  lemma CenteredText(pre: String, t: String, post: String)
    requires forall k :: 0 <= k < |pre| ==> pre[k] in CenterMarks
    requires forall k :: 0 <= k < |post| ==> post[k] in CenterMarks
    requires t != [] && t[0] !in CenterMarks && t[|t| - 1] !in CenterMarks
    requires !IsWhitespace(t[0]) && !IsWhitespace(t[|t| - 1])
    ensures TrimCenteredMarks(pre + (t + post)) == t
  {
    assert TrimStartMatches(pre + (t + post), CenterMarks) == t + post by {
      TrimStartMatchesPrefix(pre, t + post, CenterMarks);
    }
    assert TrimEndMatches(t + post, CenterMarks) == t by {
      TrimEndMatchesSuffix(t, post, CenterMarks);
    }
    assert TrimStart(t) == t;
  }

  /** `is_character`: the line equals its upper-cased self. */
  predicate IsCharacter(line: String) {
    line == Upper(line)
  }

  /** A line is a character cue exactly when it has no lower-case letter. */
  lemma CharacterIff(line: String)
    ensures IsCharacter(line) <==> forall i :: 0 <= i < |line| ==> !('a' <= line[i] <= 'z')
  {
    if IsCharacter(line) {
      forall i | 0 <= i < |line|
        ensures !('a' <= line[i] <= 'z')
      {
        assert Upper(line)[i] == UpperChar(line[i]);
      }
    }
  }

  /** `is_parenthetical`: the trimmed line is wrapped in parentheses. */
  predicate IsParenthetical(line: String) {
    StartsWith(Trim(line), "(") && EndsWith(Trim(line), ")")
  }

  /** `is_lyric`: the trimmed line opens with `~`. */
  predicate IsLyric(line: String) {
    StartsWith(Trim(line), "~")
  }

  /** `is_dual_dialogue`: the trimmed line ends with `^`. */
  predicate IsDualDialogue(line: String) {
    EndsWith(Trim(line), "^")
  }

  /** The first index at or after `i` that is not whitespace, or `|s|`. */
  function RunEnd(s: String, i: nat): (r: nat)
    requires i <= |s|
    ensures i <= r <= |s|
    ensures forall k :: i <= k < r ==> IsWhitespace(s[k])
    ensures r < |s| ==> !IsWhitespace(s[r])
    decreases |s| - i
  {
    if i < |s| && IsWhitespace(s[i]) then RunEnd(s, i + 1) else i
  }

  /** The last index in `[lo, hi)` holding `c`, if any. */
  function LastIndexIn(s: String, lo: nat, hi: nat, c: char): (r: Option<nat>)
    requires lo <= hi <= |s|
    ensures r.Some? ==> lo <= r.value < hi && s[r.value] == c && forall k :: r.value < k < hi ==> s[k] != c
    ensures r.None? ==> forall k :: lo <= k < hi ==> s[k] != c
    decreases hi - lo
  {
    if lo == hi then None else if s[hi - 1] == c then Some(hi - 1) else LastIndexIn(s, lo, hi - 1, c)
  }

  /** The scene-number expression `\s+#(.*)#` matches `s[i..m]` with the `#` that
      opens the number at `j`. */
  predicate SceneNumberSplit(s: String, i: nat, j: nat, m: nat) {
    i < j && j + 1 < m <= |s|
    && (forall k :: i <= k < j ==> IsWhitespace(s[k]))
    && s[j] == '#' && s[m - 1] == '#'
    && forall k :: j < k < m - 1 ==> s[k] != '\n'
  }

  ghost predicate SceneNumberAt(s: String, i: nat, m: nat) {
    exists j :: SceneNumberSplit(s, i, j, m)
  }

  /** The whitespace of a match runs right up to the `#`. */
  lemma SplitAtRunEnd(s: String, i: nat, j: nat, m: nat)
    requires SceneNumberSplit(s, i, j, m)
    ensures j == RunEnd(s, i)
  {
    var e := RunEnd(s, i);
    assert !IsWhitespace(s[j]);
    assert e < |s| ==> !IsWhitespace(s[e]);
  }

  /** Whether a match starts at `i` and, if so, where the longest one ends. */
  function SceneNumberEnd(s: String, i: nat): (r: Option<nat>)
    requires i < |s|
    ensures r.Some? ==> SceneNumberAt(s, i, r.value)
    ensures forall m: nat :: SceneNumberAt(s, i, m) ==> r.Some? && m <= r.value
  {
    var j := RunEnd(s, i);
    if i < j < |s| && s[j] == '#' then
      var nl := IndexFrom(s, j + 1, '\n');
      match LastIndexIn(s, j + 1, nl, '#')
      case Some(k) =>
        assert SceneNumberSplit(s, i, j, k + 1);
        ScenesEndBefore(s, i, j, nl, k);
        Some(k + 1)
      case None =>
        NoSceneAt(s, i, j, nl);
        None
    else
      SceneNeedsHash(s, i, j);
      None
  }

  lemma ScenesEndBefore(s: String, i: nat, j: nat, nl: nat, k: nat)
    requires i < |s| && j == RunEnd(s, i) && j < nl <= |s| && j < k < nl
    requires forall x :: j + 1 <= x < nl ==> s[x] != '\n'
    requires nl < |s| ==> s[nl] == '\n'
    requires forall x :: k < x < nl ==> s[x] != '#'
    ensures forall m: nat :: SceneNumberAt(s, i, m) ==> m <= k + 1
  {
    forall m: nat | SceneNumberAt(s, i, m)
      ensures m <= k + 1
    {
      var j': nat :| SceneNumberSplit(s, i, j', m);
      SplitAtRunEnd(s, i, j', m);
      assert s[m - 1] == '#';
      assert m - 1 < nl;
    }
  }

  lemma NoSceneAt(s: String, i: nat, j: nat, nl: nat)
    requires i < |s| && j == RunEnd(s, i) && j < nl <= |s|
    requires nl < |s| ==> s[nl] == '\n'
    requires forall x :: j + 1 <= x < nl ==> s[x] != '#'
    ensures forall m: nat :: !SceneNumberAt(s, i, m)
  {
    forall m: nat | SceneNumberAt(s, i, m)
      ensures j + 1 <= m - 1 < nl && s[m - 1] == '#'
    {
      var j': nat :| SceneNumberSplit(s, i, j', m);
      SplitAtRunEnd(s, i, j', m);
    }
  }

  /** A match needs a `#` right after the whitespace run. */
  lemma SceneNeedsHash(s: String, i: nat, j: nat)
    requires i < |s| && j == RunEnd(s, i)
    ensures forall m: nat :: SceneNumberAt(s, i, m) ==> i < j < |s| && s[j] == '#'
  {
    forall m: nat | SceneNumberAt(s, i, m)
      ensures i < j < |s| && s[j] == '#'
    {
      var j': nat :| SceneNumberSplit(s, i, j', m);
      SplitAtRunEnd(s, i, j', m);
    }
  }

  /** The leftmost match at or after `from`, taken as long as it goes, as the
      leftmost-first search with greedy repetition picks it. */
  function FindSceneNumber(s: String, from: nat): (r: Option<(nat, nat)>)
    requires from <= |s|
    ensures r.Some? ==> from <= r.value.0 && SceneNumberAt(s, r.value.0, r.value.1)
    ensures r.Some? ==> forall i: nat, m: nat :: from <= i && SceneNumberAt(s, i, m) ==> r.value.0 <= i && (i == r.value.0 ==> m <= r.value.1)
    ensures r.None? ==> forall i: nat, m: nat :: from <= i ==> !SceneNumberAt(s, i, m)
    decreases |s| - from
  {
    if from == |s| then
      None
    else match SceneNumberEnd(s, from)
      case Some(m) => Some((from, m))
      case None => FindSceneNumber(s, from + 1)
  }

  /** `SCENE_NUMBER_REGEX.find`: the span of the scene number, if any. */
  function SceneNumberSpan(s: String): (r: Option<(nat, nat)>)
    ensures r.Some? ==> r.value.0 < r.value.1 <= |s|
  {
    FindSceneNumber(s, 0)
  }

  /** The matched span with spaces and `#` trimmed from both ends. */
  function SceneNumberText(s: String, i: nat, m: nat): String
    requires i <= m <= |s|
  {
    TrimMatches(s[i..m], {' ', '#'})
  }

  /** A heading with no `#` and no whitespace at its end, then a space, `#`, a
      number without line break, and `#`: the match is the whole tail, even when
      the number holds `#` itself. */
  lemma SceneNumberTail(a: String, t: String)
    requires forall k :: 0 <= k < |a| ==> a[k] != '#'
    requires a != [] && !IsWhitespace(a[|a| - 1])
    requires forall k :: 0 <= k < |t| ==> t[k] != '\n'
    ensures SceneNumberSpan(a + (" #" + (t + "#"))) == Some((|a|, |a + (" #" + (t + "#"))|))
  {
    var s := a + (" #" + (t + "#"));
    var n := |s|;
    assert SceneNumberSplit(s, |a|, |a| + 1, n);
    assert SceneNumberAt(s, |a|, n);
    forall i: nat, m: nat | SceneNumberAt(s, i, m)
      ensures |a| <= i && m <= n
    {
      var j: nat :| SceneNumberSplit(s, i, j, m);
      assert forall k :: 0 <= k < |a| ==> s[k] == a[k];
      assert s[|a|] == ' ';
      assert j > |a|;
      assert !IsWhitespace(s[|a| - 1]);
    }
  }

  /** The test heading `INT. HOUSE - DAY #1A#`: the heading text and the number `1A`. */
  lemma SceneNumberExample(s: String)
    requires s == "INT. HOUSE - DAY" + (" #" + ("1A" + "#"))
    ensures SceneNumberSpan(s) == Some((16, 21))
    ensures s[..16] + s[21..] == "INT. HOUSE - DAY"
    ensures SceneNumberText(s, 16, 21) == "1A"
  {
    SceneNumberTail("INT. HOUSE - DAY", "1A");
    assert s[..16] + s[21..] == "INT. HOUSE - DAY" by {
      assert s[..16] == "INT. HOUSE - DAY" && s[21..] == [];
    }
    assert SceneNumberText(s, 16, 21) == "1A" by {
      assert s[16..21] == " #" + ("1A" + "#");
      TrimStartMatchesPrefix(" #", "1A" + "#", {' ', '#'});
      TrimEndMatchesSuffix("1A", "#", {' ', '#'});
    }
  }

  /** The match is greedy: two numbers on one heading become one number with the
      marks between them kept. */
  lemma SceneNumberGreedy(s: String)
    requires s == "INT. HOUSE" + (" #" + ("1# #2" + "#"))
    ensures SceneNumberSpan(s) == Some((10, 18))
    ensures SceneNumberText(s, 10, 18) == "1# #2"
  {
    SceneNumberTail("INT. HOUSE", "1# #2");
    assert SceneNumberText(s, 10, 18) == "1# #2" by {
      assert s[10..18] == " #" + ("1# #2" + "#");
      TrimStartMatchesPrefix(" #", "1# #2" + "#", {' ', '#'});
      TrimEndMatchesSuffix("1# #2", "#", {' ', '#'});
    }
  }
}
