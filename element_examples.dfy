/**
  Single lines from the parser's own tests, classified: numbered scene
  headings (plain and forced), a leading ellipsis, a word that merely starts
  with `INT`, and a centred act opener.
 */
module ElementExamples {
  import opened Strings
  import opened Wrappers
  import opened Types
  import opened Patterns
  import opened Elements

  /** No `[` at all, so no note. */
  lemma NoBracket(s: String)
    requires forall k :: 0 <= k < |s| ==> s[k] != '['
    ensures !HasNote(s) && RemoveNotes(s) == s && NotesOf(s) == None
  {
    NoNotes(s);
  }

  /** Cutting a well-formed number `" #t#"` off the end of a heading `a`. */
  lemma SceneNumberCut(a: String, t: String, attrs: Attributes)
    requires a != [] && !IsWhitespace(a[|a| - 1])
    requires forall k :: 0 <= k < |a| ==> a[k] != '#' && a[k] != '['
    requires t != [] && t[0] !in {' ', '#'} && t[|t| - 1] !in {' ', '#'}
    requires forall k :: 0 <= k < |t| ==> t[k] != '\n'
    ensures WithSceneNumber(a + (" #" + (t + "#")), attrs) == (a, attrs.(sceneNumber := Some(t)))
  {
    var line := a + (" #" + (t + "#"));
    SceneNumberTail(a, t);
    assert line[..|a|] + line[|line|..] == a;
    NoBracket(a);
    assert line[|a|..|line|] == " #" + (t + "#");
    TrimStartMatchesPrefix(" #", t + "#", {' ', '#'});
    TrimEndMatchesSuffix(t, "#", {' ', '#'});
  }

  /** An unforced scene line `a #t#` is the heading `a` numbered `t`. */
  lemma NumberedSceneHeading(a: String, t: String)
    requires IsScene(a) && a[0] !in ForcedMarks && a[0] != '#' && !IsWhitespace(a[|a| - 1])
    requires forall k :: 0 <= k < |a| ==> a[k] != '#' && a[k] != '['
    requires t != [] && t[0] !in {' ', '#'} && t[|t| - 1] !in {' ', '#'}
    requires forall k :: 0 <= k < |t| ==> t[k] != '\n' && t[k] != '['
    ensures SingleFits(a + (" #" + (t + "#")))
    ensures MakeSingleLineElement(a + (" #" + (t + "#"))) == SceneHeading(Plain(a), BlankAttributes.(sceneNumber := Some(t)))
  {
    var line := a + (" #" + (t + "#"));
    assert line[0] == a[0];
    assert MakeForced(line) == None;
    assert IsScene(line) by {
      var k :| 0 <= k < |SceneLocators| && StartsWith(Upper(a), SceneLocators[k]);
      assert Upper(line)[..|SceneLocators[k]|] == Upper(a)[..|SceneLocators[k]|];
    }
    NoBracket(line);
    SingleScene(line);
    SceneNumberCut(a, t, BlankAttributes);
  }

  /** A forced scene line `.a #t#` is the heading `a` numbered `t`. */
  lemma ForcedSceneHeading(a: String, t: String)
    requires a != [] && a[0] !in ForcedMarks && !IsWhitespace(a[0]) && !IsWhitespace(a[|a| - 1])
    requires forall k :: 0 <= k < |a| ==> a[k] != '#' && a[k] != '['
    requires t != [] && t[0] !in {' ', '#'} && t[|t| - 1] !in {' ', '#'}
    requires forall k :: 0 <= k < |t| ==> t[k] != '\n' && t[k] != '['
    ensures SingleFits("." + (a + (" #" + (t + "#"))))
    ensures MakeSingleLineElement("." + (a + (" #" + (t + "#")))) == SceneHeading(Plain(a), BlankAttributes.(sceneNumber := Some(t)))
  {
    var rest := a + (" #" + (t + "#"));
    var line := "." + rest;
    assert line[0] == '.' && line[1] == a[0];
    assert MakeForced(line) == Some(Elements.ForcedSceneHeading);
    assert Stripped(line) == rest by {
      TrimStartMatchesPrefix(".", rest, ForcedMarks);
      assert TrimStart(rest) == rest;
    }
    NoBracket(line);
    SingleForcedScene(line);
    SceneNumberCut(a, t, BlankAttributes);
  }

  /** `INT. HOUSE - DAY #1A#` is a scene heading numbered `1A`. */
  lemma NumberedHeadingExample(line: String)
    requires line == "INT. HOUSE - DAY" + (" #" + ("1A" + "#"))
    ensures MakeSingleLineElement(line) == SceneHeading(Plain("INT. HOUSE - DAY"), BlankAttributes.(sceneNumber := Some("1A")))
  {
    var a := "INT. HOUSE - DAY";
    assert IsScene(a) by {
      assert Upper(a)[..4] == "INT.";
      assert StartsWith(Upper(a), SceneLocators[1]);
    }
    NumberedSceneHeading(a, "1A");
  }

  /** `.INSIDE THE BUS #12#` is a forced scene heading numbered `12`. */
  lemma ForcedHeadingExample(line: String)
    requires line == "." + ("INSIDE THE BUS" + (" #" + ("12" + "#")))
    ensures MakeSingleLineElement(line) == SceneHeading(Plain("INSIDE THE BUS"), BlankAttributes.(sceneNumber := Some("12")))
  {
    ForcedSceneHeading("INSIDE THE BUS", "12");
  }

  /** A line opening with an ellipsis and ending in neither `:` nor
      whitespace is action, not a forced scene heading. */
  lemma Ellipsis(t: String)
    requires t != [] && t[|t| - 1] != ':' && !IsWhitespace(t[|t| - 1])
    requires forall k :: 0 <= k < |t| ==> t[k] != '['
    ensures SingleFits("..." + t)
    ensures MakeSingleLineElement("..." + t) == Action(Plain("..." + t), BlankAttributes)
  {
    var line := "..." + t;
    NoBracket(line);
    assert line[0] == '.' && line[1] == '.' && line[|line| - 1] == t[|t| - 1];
    assert MakeForced(line) == None by {
      assert StartsWith(line, "..");
    }
    NoLocator(line);
    Trimmed(line);
    assert !IsTransition(line) by {
      assert Upper(line)[|line| - 1] != ':';
    }
    SingleAction(line);
  }

  /** The test line `...and lowers his guns.`. */
  lemma EllipsisExample(line: String)
    requires line == "..." + "and lowers his guns."
    ensures MakeSingleLineElement(line) == Action(Plain(line), BlankAttributes)
  {
    Ellipsis("and lowers his guns.");
  }

  /** The scene, transition and centring tests on `INTERCUT HOUSE / BARN`. */
  lemma IntercutTests(line: String)
    requires line == "INTERCUT HOUSE / BARN"
    ensures MakeForced(line) == None && !IsScene(line) && !IsTransition(line) && !IsCentered(line)
  {
    assert line[0] == 'I';
    forall k | 0 <= k < |SceneLocators|
      ensures !StartsWith(Upper(line), SceneLocators[k])
    {
      SceneLocatorShape(k);
      assert Upper(line)[1] == 'N' && Upper(line)[3] == 'E';
    }
    Trimmed(line);
    assert Upper(line)[|line| - 1] == 'N';
  }

  /** `INTERCUT HOUSE / BARN` starts with `INT` but is action: every locator
      has `/` second or a space, `.` or `/` fourth. */
  lemma NotALocator(line: String)
    requires line == "INTERCUT HOUSE / BARN"
    ensures MakeSingleLineElement(line) == Action(Plain(line), BlankAttributes)
  {
    NoBracket(line);
    IntercutTests(line);
    SingleAction(line);
  }

  /** A line whose first character is neither `I` nor `E` in any case names no scene locator. */
  lemma NoLocator(line: String)
    requires line != [] && UpperChar(line[0]) != 'I' && UpperChar(line[0]) != 'E'
    ensures !IsScene(line)
  {
    forall k | 0 <= k < |SceneLocators|
      ensures !StartsWith(Upper(line), SceneLocators[k])
    {
      SceneLocatorShape(k);
      assert Upper(line)[0] == UpperChar(line[0]);
    }
  }

  /** `> t <` loses its marks and the spaces inside them. */
  lemma CenteredMarksOf(t: String)
    requires t != [] && t[0] !in CenterMarks && t[|t| - 1] !in CenterMarks
    requires !IsWhitespace(t[0]) && !IsWhitespace(t[|t| - 1])
    ensures TrimCenteredMarks("> " + (t + " <")) == t
  {
    var inner := " " + (t + " ");
    assert "> " + (t + " <") == ">" + (inner + "<");
    TrimStartMatchesPrefix(">", inner + "<", CenterMarks);
    TrimEndMatchesSuffix(inner, "<", CenterMarks);
    TrimStartPrefix(" ", t + " ");
    TrimEndSuffix(t, " ");
  }

  /** `> t <` is unforced, no scene and no transition, but centred. */
  lemma CenteredLine(t: String)
    ensures var line := "> " + (t + " <");
      MakeForced(line) == None && !IsScene(line) && !IsTransition(line) && IsCentered(line)
  {
    var line := "> " + (t + " <");
    assert line[0] == '>' && line[|line| - 1] == '<';
    assert EndsWith(line, "<");
    NoLocator(line);
    Trimmed(line);
    assert Upper(line)[|line| - 1] == '<';
    assert StartsWith(line, ">");
  }

  /** `> t <` around an act opener is that act, centred. */
  lemma CenteredAct(t: String)
    requires IsNewAct(t) && !IsEndAct(t)
    requires t != [] && t[0] !in CenterMarks && t[|t| - 1] !in CenterMarks
    requires !IsWhitespace(t[0]) && !IsWhitespace(t[|t| - 1])
    requires forall k :: 0 <= k < |t| ==> t[k] != '['
    ensures SingleFits("> " + (t + " <"))
    ensures MakeSingleLineElement("> " + (t + " <")) == NewAct(Plain(t), BlankAttributes.(centered := true))
  {
    var line := "> " + (t + " <");
    NoBracket(line);
    NoBracket(t);
    CenteredLine(t);
    CenteredMarksOf(t);
    SingleNewAct(line);
  }

  /** `> ACT ONE <` opens an act, centred. */
  lemma CenteredActExample(line: String)
    requires line == "> " + ("ACT ONE" + " <")
    ensures MakeSingleLineElement(line) == NewAct(Plain("ACT ONE"), BlankAttributes.(centered := true))
  {
    NewActExample("ACT ONE");
    CenteredAct("ACT ONE");
  }
}
