/**
  The segmenter on the line lists of its unit tests, and on the one input
  where an even run of blank lines leaves an empty-string line in front of
  the next hunk.
 */
module HunkExamples {
  import opened Strings
  import opened Hunks

  /** An ordinary line: no whitespace at either end and no `#` in front. */
  predicate Plain(l: String) {
    l != [] && !IsWhitespace(l[0]) && !IsWhitespace(l[|l| - 1]) && l[0] != '#'
  }

  /** A section line: `#` in front and no whitespace at the end. */
  predicate Heading(l: String) {
    l != [] && l[0] == '#' && !IsWhitespace(l[|l| - 1])
  }

  lemma TrimUntouched(l: String)
    requires l != [] && !IsWhitespace(l[0]) && !IsWhitespace(l[|l| - 1])
    ensures Trim(l) == l
  {
    assert TrimStart(l) == l;
  }

  lemma PlainLine(l: String)
    requires Plain(l)
    ensures !IsBlank(l) && !IsSectionLine(l) && !StartsWith(l, "#")
  {
    TrimUntouched(l);
  }

  lemma HeadingLine(l: String)
    requires Heading(l)
    ensures !IsBlank(l) && IsSectionLine(l) && StartsWith(l, "#")
  {
    assert !IsWhitespace('#');
    TrimUntouched(l);
  }

  lemma EmptyLine()
    ensures IsBlank("") && Utf8Len("") == 0
  {
  }

  lemma TwoSpaces()
    ensures IsBlank("  ") && Utf8Len("  ") == 2
  {
    assert TrimStart("  ") == [];
  }

  lemma Two<T>(a: T, b: T)
    ensures [a] + [b] == [a, b]
  {
  }

  lemma Three<T>(a: T, b: T, c: T)
    ensures [a] + [b] + [c] == [a, b, c]
  {
  }

  lemma Four<T>(a: T, b: T, c: T, d: T)
    ensures [a] + [b] + [c] + [d] == [a, b, c, d]
  {
  }

  lemma Five<T>(a: T, b: T, c: T, d: T, e: T)
    ensures [a] + [b] + [c] + [d] + [e] == [a, b, c, d, e]
  {
  }

  lemma FoldSnoc(lines: seq<String>, x: String)
    ensures Fold(lines + [x]) == Step(Fold(lines), x)
  {
    var l := lines + [x];
    assert l[..|l| - 1] == lines;
    assert l[|l| - 1] == x;
  }

  /** An ordinary line opens the empty last hunk. */
  lemma StepOpen(init: seq<Hunk>, l: String)
    requires Plain(l)
    ensures Step(init + [[]], l) == init + [[l]]
  {
    PlainLine(l);
    assert (init + [[]])[..|init|] == init;
    assert [] + [l] == [l];
  }

  /** An ordinary line joins a last hunk that a section line did not open. */
  lemma StepJoin(init: seq<Hunk>, last: Hunk, l: String)
    requires Plain(l) && last != [] && !StartsWith(last[0], "#")
    ensures Step(init + [last], l) == init + [last + [l]]
  {
    PlainLine(l);
    assert (init + [last])[..|init|] == init;
  }

  /** An ordinary line after a section line opens a hunk of its own. */
  lemma StepAfterHeading(acc: seq<Hunk>, l: String)
    requires Plain(l) && acc != [] && acc[|acc| - 1] != [] && StartsWith(acc[|acc| - 1][0], "#")
    ensures Step(acc, l) == acc + [[l]]
  {
    PlainLine(l);
  }

  /** A section line opens its own hunk, reusing an empty last hunk. */
  lemma StepHeading(acc: seq<Hunk>, l: String)
    requires Heading(l) && acc != []
    ensures acc[|acc| - 1] == [] ==> Step(acc, l) == acc[..|acc| - 1] + [[l]]
    ensures acc[|acc| - 1] != [] ==> Step(acc, l) == acc + [[l]]
  {
    HeadingLine(l);
  }

  /** An empty line after text closes the hunk. */
  lemma StepClose(acc: seq<Hunk>)
    requires acc != [] && acc[|acc| - 1] != []
    ensures Step(acc, "") == acc + [[]]
  {
    EmptyLine();
  }

  /** An empty line that finds a later hunk empty records an empty line. */
  lemma StepMarker(init: seq<Hunk>)
    requires init != []
    ensures Step(init + [[]], "") == init + [[""]]
  {
    EmptyLine();
    assert (init + [[]])[..|init|] == init;
  }

  /** Two spaces join the last hunk. */
  lemma StepTwoSpaces(init: seq<Hunk>, last: Hunk)
    ensures Step(init + [last], "  ") == init + [last + ["  "]]
  {
    TwoSpaces();
    assert (init + [last])[..|init|] == init;
  }

  /** A blank line separates two hunks. */
  lemma SimpleSpacing(a: String, c: String, d: String)
    requires Plain(a) && Plain(c) && Plain(d)
    ensures HunksOf([a, "", c, d]) == [[a], [c, d]]
  {
    var none: seq<Hunk> := [];
    var h1 := [[a]];
    assert Fold([a]) == h1 by {
      FoldSnoc([], a);
      StepOpen(none, a);
    }
    assert Fold([a] + [""]) == h1 + [[]] by {
      FoldSnoc([a], "");
      StepClose(h1);
    }
    assert Fold([a] + [""] + [c]) == h1 + [[c]] by {
      FoldSnoc([a] + [""], c);
      StepOpen(h1, c);
    }
    assert Fold([a] + [""] + [c] + [d]) == h1 + [[c] + [d]] by {
      FoldSnoc([a] + [""] + [c], d);
      PlainLine(c);
      StepJoin(h1, [c], d);
    }
    Four(a, "", c, d);
    Two(c, d);
    Two([a], [c, d]);
  }

  /** No lines at all give one hunk holding one empty line. */
  lemma NoLines()
    ensures HunksOf([]) == [[""]]
  {
  }

  /** A section line stands alone, and so does the line after it. */
  lemma SectionsAlone(s: String, c: String, d: String)
    requires Heading(s) && Plain(c) && Plain(d)
    ensures HunksOf([s, c, "", d]) == [[s], [c], [d]]
  {
    var h1 := [[s]];
    assert Fold([s]) == h1 by {
      FoldSnoc([], s);
      StepHeading([[]], s);
      assert [[]][..0] + [[s]] == [[s]];
    }
    assert Fold([s] + [c]) == h1 + [[c]] by {
      FoldSnoc([s], c);
      HeadingLine(s);
      StepAfterHeading(h1, c);
    }
    var h2 := h1 + [[c]];
    assert Fold([s] + [c] + [""]) == h2 + [[]] by {
      FoldSnoc([s] + [c], "");
      StepClose(h2);
    }
    assert Fold([s] + [c] + [""] + [d]) == h2 + [[d]] by {
      FoldSnoc([s] + [c] + [""], d);
      StepOpen(h2, d);
    }
    Four(s, c, "", d);
    Three([s], [c], [d]);
  }

  /** Two section lines in a row, a blank, then dialogue. */
  lemma TwoSections(s1: String, s2: String, c: String, d: String)
    requires Heading(s1) && Heading(s2) && Plain(c) && Plain(d)
    ensures HunksOf([s1, s2, "", c, d]) == [[s1], [s2], [c, d]]
  {
    var h1 := [[s1]];
    assert Fold([s1]) == h1 by {
      FoldSnoc([], s1);
      StepHeading([[]], s1);
      assert [[]][..0] + [[s1]] == [[s1]];
    }
    var h2 := h1 + [[s2]];
    assert Fold([s1] + [s2]) == h2 by {
      FoldSnoc([s1], s2);
      StepHeading(h1, s2);
    }
    assert Fold([s1] + [s2] + [""]) == h2 + [[]] by {
      FoldSnoc([s1] + [s2], "");
      StepClose(h2);
    }
    assert Fold([s1] + [s2] + [""] + [c]) == h2 + [[c]] by {
      FoldSnoc([s1] + [s2] + [""], c);
      StepOpen(h2, c);
    }
    assert Fold([s1] + [s2] + [""] + [c] + [d]) == h2 + [[c] + [d]] by {
      FoldSnoc([s1] + [s2] + [""] + [c], d);
      PlainLine(c);
      StepJoin(h2, [c], d);
    }
    Five(s1, s2, "", c, d);
    Two(c, d);
    Three([s1], [s2], [c, d]);
  }

  /** A whitespace line of two bytes stays inside its hunk. */
  lemma IntentionalBlank(a: String, c: String, d: String)
    requires Plain(a) && Plain(c) && Plain(d)
    ensures HunksOf([a, "", c, "  ", d]) == [[a], [c, "  ", d]]
  {
    var none: seq<Hunk> := [];
    var h1 := [[a]];
    assert Fold([a]) == h1 by {
      FoldSnoc([], a);
      StepOpen(none, a);
    }
    assert Fold([a] + [""]) == h1 + [[]] by {
      FoldSnoc([a], "");
      StepClose(h1);
    }
    assert Fold([a] + [""] + [c]) == h1 + [[c]] by {
      FoldSnoc([a] + [""], c);
      StepOpen(h1, c);
    }
    assert Fold([a] + [""] + [c] + ["  "]) == h1 + [[c] + ["  "]] by {
      FoldSnoc([a] + [""] + [c], "  ");
      StepTwoSpaces(h1, [c]);
    }
    assert Fold([a] + [""] + [c] + ["  "] + [d]) == h1 + [[c] + ["  "] + [d]] by {
      FoldSnoc([a] + [""] + [c] + ["  "], d);
      PlainLine(c);
      StepJoin(h1, [c] + ["  "], d);
    }
    Five(a, "", c, "  ", d);
    Three(c, "  ", d);
    Two([a], [c, "  ", d]);
  }

  /** Two blank lines in a row: the second finds the new hunk empty and
      records an empty line, which then opens the next hunk. */
  lemma EvenBlankRun(a: String, b: String)
    requires Plain(a) && Plain(b)
    ensures HunksOf([a, "", "", b]) == [[a], ["", b]]
  {
    var none: seq<Hunk> := [];
    var h1 := [[a]];
    assert Fold([a]) == h1 by {
      FoldSnoc([], a);
      StepOpen(none, a);
    }
    assert Fold([a] + [""]) == h1 + [[]] by {
      FoldSnoc([a], "");
      StepClose(h1);
    }
    assert Fold([a] + [""] + [""]) == h1 + [[""]] by {
      FoldSnoc([a] + [""], "");
      StepMarker(h1);
    }
    assert Fold([a] + [""] + [""] + [b]) == h1 + [[""] + [b]] by {
      FoldSnoc([a] + [""] + [""], b);
      assert !StartsWith("", "#");
      StepJoin(h1, [""], b);
    }
    Four(a, "", "", b);
    Two("", b);
    Two([a], ["", b]);
  }

  /** The unit test with three lines of text. */
  lemma SimpleSpacingExample()
    ensures HunksOf(["hello hello hello", "", "welcome back", "goodbye"])
         == [["hello hello hello"], ["welcome back", "goodbye"]]
  {
    SimpleSpacing("hello hello hello", "welcome back", "goodbye");
  }

  /** The unit test with an act heading and a scene heading. */
  lemma SectionsAloneExample()
    ensures HunksOf(["# Act 1", "INT. HOUSE", "", "An ugly place."])
         == [["# Act 1"], ["INT. HOUSE"], ["An ugly place."]]
  {
    SectionsAlone("# Act 1", "INT. HOUSE", "An ugly place.");
  }

  /** The unit test with intentional blanks. */
  lemma IntentionalBlankExample()
    ensures HunksOf(["hello hello hello", "", "welcome back", "  ", "goodbye"])
         == [["hello hello hello"], ["welcome back", "  ", "goodbye"]]
  {
    IntentionalBlank("hello hello hello", "welcome back", "goodbye");
  }
}
