/**
  What the emphasis passes leave as it stands: a delimiter without a
  partner, a closing delimiter after a blank or after a backslash, and a
  pair split by a line feed. An escaped delimiter loses its backslash only
  after the passes, so it can still block a span and then reads as the
  plain delimiter.
 */
module StyleLiterals {
  import opened Strings
  import opened Types
  import opened Wrappers
  import opened Styles
  import opened StyleExamples

  /** No star follows another, so neither `***` nor `**` can open. */
  predicate NoDoubleStar(s: String) {
    forall k :: 0 <= k < |s| - 1 ==> !(s[k] == '*' && s[k + 1] == '*')
  }

  /** No span of a single `d` opens anywhere in `s`. */
  predicate NoSpanOf(s: String, d: char) {
    forall i :: 0 <= i < |s| ==> SpanEnd(s, i, 1, d) == None
  }

  /** Unescaping keeps text free of markers. */
  lemma {:induction false} UnescapeNoMarkers(s: String, d: char)
    requires NoMarkers(s) && !IsMarker(d)
    ensures NoMarkers(Unescape(s, d))
    decreases |s|
  {
    if s != [] {
      if |s| >= 2 && s[0] == '\\' && s[1] == d {
        UnescapeNoMarkers(s[2..], d);
      } else {
        UnescapeNoMarkers(s[1..], d);
      }
    }
  }

  /** When no span can open, all four passes copy the text and only the
      unescapes change it. */
  lemma NoSpans(s: String)
    requires NoDoubleStar(s) && NoSpanOf(s, '*') && NoSpanOf(s, '_')
    ensures Prepare(s) == Unescape(Unescape(s, '*'), '_')
  {
    forall k | 0 <= k < |s|
      ensures Spans(3, '*')(s, k) == None && Spans(2, '*')(s, k) == None
      ensures PrefixedSpans('*')(s, k) == None && PrefixedSpans('_')(s, k) == None
    {
      assert k + 1 < |s| ==> !(s[k] == '*' && s[k + 1] == '*');
      assert k + 1 < |s| ==> SpanEnd(s, k + 1, 1, '*') == None && SpanEnd(s, k + 1, 1, '_') == None;
    }
    ReplaceTail(s, 0, Spans(3, '*'), BoldItalicMark);
    ReplaceTail(s, 0, Spans(2, '*'), BoldMark);
    ReplaceTail(s, 0, PrefixedSpans('*'), ItalicMark);
    ReplaceTail(s, 0, PrefixedSpans('_'), UnderlineMark);
    assert s[0..] == s;
  }

  /** Marker-free text in which no span can open is one unstyled run of the
      unescaped text. */
  lemma LiteralText(s: String)
    requires NoMarkers(s) && NoDoubleStar(s) && NoSpanOf(s, '*') && NoSpanOf(s, '_')
    ensures StyledText(s) == Styled(Piece(Unescape(Unescape(s, '*'), '_')))
  {
    NoSpans(s);
    UnescapeNoMarkers(s, '*');
    UnescapeNoMarkers(Unescape(s, '*'), '_');
    PlainRuns(Unescape(Unescape(s, '*'), '_'));
  }

  /** Text without a backslash, a backslash and `d`, then more text: only the
      backslash goes. */
  lemma {:induction false} UnescapeAt(x: String, y: String, d: char)
    requires forall k :: 0 <= k < |x| ==> x[k] != '\\'
    requires forall k :: 0 <= k < |y| ==> y[k] != '\\'
    ensures Unescape(x + (['\\', d] + y), d) == x + ([d] + y)
    decreases |x|
  {
    if x == [] {
      assert x + (['\\', d] + y) == ['\\', d] + y;
      assert (['\\', d] + y)[2..] == y;
      UnescapeNone(y, d);
    } else {
      var s := x + (['\\', d] + y);
      assert s[0] == x[0] && s[1..] == x[1..] + (['\\', d] + y);
      assert Unescape(s, d) == [x[0]] + Unescape(s[1..], d);
      UnescapeAt(x[1..], y, d);
      assert x == [x[0]] + x[1..];
    }
  }

  /** A backslash before the other delimiter is not touched. */
  lemma UnescapeOther(x: String, y: String, d: char, e: char)
    requires forall k :: 0 <= k < |x| ==> x[k] != '\\'
    requires forall k :: 0 <= k < |y| ==> y[k] != '\\'
    requires d != e && e != '\\'
    ensures Unescape(x + (['\\', e] + y), d) == x + (['\\', e] + y)
  {
    var s := x + (['\\', e] + y);
    forall k | 0 <= k < |s| - 1 && s[k] == '\\'
      ensures s[k + 1] != d
    {
      assert k == |x|;
    }
    UnescapeUnless(s, d);
  }

  /** Text in which no backslash precedes `d` is left alone by its unescape. */
  lemma {:induction false} UnescapeUnless(s: String, d: char)
    requires forall k :: 0 <= k < |s| - 1 && s[k] == '\\' ==> s[k + 1] != d
    ensures Unescape(s, d) == s
    decreases |s|
  {
    if s != [] {
      UnescapeUnless(s[1..], d);
      assert s == [s[0]] + s[1..];
    }
  }

  /** Joining text without a backslash around another character keeps it so. */
  lemma NoBackslashJoin(x: String, y: String, d: char)
    requires forall k :: 0 <= k < |x| ==> x[k] != '\\'
    requires forall k :: 0 <= k < |y| ==> y[k] != '\\'
    requires d != '\\'
    ensures forall k :: 0 <= k < |x + ([d] + y)| ==> (x + ([d] + y))[k] != '\\'
  {
    var t := x + ([d] + y);
    forall k | 0 <= k < |t|
      ensures t[k] != '\\'
    {
      if k < |x| {
        assert t[k] == x[k];
      } else if k > |x| {
        assert t[k] == y[k - |x| - 1];
      }
    }
  }

  /** `\*` reads `*` and `\_` reads `_`, whichever of the two unescapes does it. */
  lemma EscapedDelimiter(x: String, y: String, d: char)
    requires forall k :: 0 <= k < |x| ==> x[k] != '\\'
    requires forall k :: 0 <= k < |y| ==> y[k] != '\\'
    requires Delimiter(d)
    ensures Unescape(Unescape(x + (['\\', d] + y), '*'), '_') == x + ([d] + y)
  {
    var t := x + ([d] + y);
    NoBackslashJoin(x, y, d);
    if d == '*' {
      UnescapeAt(x, y, '*');
      UnescapeNone(t, '_');
    } else {
      UnescapeOther(x, y, '*', '_');
      UnescapeAt(x, y, '_');
    }
  }

  /** A delimiter at `i` whose scan stops at `q` without a closing pair
      there opens no span. */
  lemma NoCloser(s: String, i: nat, d: char, q: nat)
    requires i < q <= |s| && Delimiter(d)
    requires forall k :: i + 1 <= k < q ==> s[k] != d && s[k] != '\n'
    requires q < |s| ==> s[q] == d || s[q] == '\n'
    requires q + 1 < |s| ==> s[q + 1] != d
    requires q < |s| && s[q] == d ==> q == i + 1 || s[q - 1] == ' ' || s[q - 1] == '\\'
    ensures SpanEnd(s, i, 1, d) == None
  {
    var r := StopAt(s, i + 1, d);
    assert r == q;
  }

  /** Where the parts of `a + [d] + m + [d] + c` sit. */
  lemma PairAt(a: String, m: String, c: String, d: char)
    ensures var s := a + [d] + m + [d] + c; var j := |a| + 1 + |m|;
      && |s| == j + 1 + |c| && s[|a|] == d && s[j] == d
      && (forall k :: 0 <= k < |a| ==> s[k] == a[k])
      && (forall k :: |a| < k < j ==> s[k] == m[k - |a| - 1])
      && (forall k :: j < k < |s| ==> s[k] == c[k - j - 1])
  {
  }

  /** Two delimiters around a middle holding none, where the first opens no
      span: the text is one unstyled run of its unescaped self. */
  lemma PairLiteral(a: String, m: String, c: String, d: char)
    requires Ordinary(a) && Ordinary(c) && Delimiter(d) && m != []
    requires forall k :: 0 <= k < |m| ==> m[k] != '*' && m[k] != '_' && !IsMarker(m[k])
    requires SpanEnd(a + [d] + m + [d] + c, |a|, 1, d) == None
    ensures var s := a + [d] + m + [d] + c;
      NoMarkers(s) && NoDoubleStar(s) && NoSpanOf(s, '*') && NoSpanOf(s, '_')
    ensures var s := a + [d] + m + [d] + c;
      StyledText(s) == Styled(Piece(Unescape(Unescape(s, '*'), '_')))
  {
    var s := a + [d] + m + [d] + c;
    var j := |a| + 1 + |m|;
    PairAt(a, m, c, d);
    assert forall k :: 0 <= k < |s| && (s[k] == '*' || s[k] == '_') ==> s[k] == d && (k == |a| || k == j);
    NoCloser(s, j, d, |s|);
    forall i, e | 0 <= i < |s| && Delimiter(e)
      ensures SpanEnd(s, i, 1, e) == None
    {
      if s[i] == e {
        assert i == |a| || i == j;
      }
    }
    assert NoMarkers(s) by {
      forall k | 0 <= k < |s|
        ensures !IsMarker(s[k])
      {
        if k < |a| {
          assert s[k] == a[k];
        } else if |a| < k < j {
          assert s[k] == m[k - |a| - 1];
        } else if j < k {
          assert s[k] == c[k - j - 1];
        }
      }
    }
    LiteralText(s);
  }

  /** A delimiter with no partner stays in the text. */
  lemma Unmatched(a: String, c: String, d: char)
    requires Ordinary(a) && Ordinary(c) && Delimiter(d)
    ensures StyledText(a + [d] + c) == Styled([TextRun(a + [d] + c, {})])
  {
    var s := a + [d] + c;
    assert forall k :: 0 <= k < |a| ==> s[k] == a[k];
    assert forall k :: |a| < k < |s| ==> s[k] == c[k - |a| - 1];
    NoCloser(s, |a|, d, |s|);
    forall i, e | 0 <= i < |s| && Delimiter(e)
      ensures SpanEnd(s, i, 1, e) == None
    {
      if s[i] == e {
        assert i == |a|;
      }
    }
    LiteralText(s);
    UnescapeNone(s, '*');
    UnescapeNone(s, '_');
  }

  /** A closing delimiter after a blank does not close: both delimiters stay. */
  lemma ClosedAfterBlank(a: String, b: String, c: String, d: char)
    requires Ordinary(a) && Ordinary(b) && Ordinary(c) && Delimiter(d) && b != [] && b[|b| - 1] == ' '
    ensures StyledText(a + [d] + b + [d] + c) == Styled([TextRun(a + [d] + b + [d] + c, {})])
  {
    var s := a + [d] + b + [d] + c;
    PairAt(a, b, c, d);
    NoCloser(s, |a|, d, |a| + 1 + |b|);
    PairLiteral(a, b, c, d);
    assert forall k :: 0 <= k < |s| ==> s[k] != '\\';
    UnescapeNone(s, '*');
    UnescapeNone(s, '_');
  }

  /** An escaped closing delimiter does not close; the passes copy the text
      and the unescapes turn the escape into the plain delimiter. */
  lemma EscapedPrepare(a: String, b: String, c: String, d: char)
    requires Ordinary(a) && Ordinary(b) && Ordinary(c) && Delimiter(d)
    ensures Prepare(a + [d] + b + ['\\', d] + c) == a + [d] + b + [d] + c
  {
    var m := b + ['\\'];
    var s := a + [d] + m + [d] + c;
    EscapedPieces(a, b, c, d);
    NoSpans(s);
    EscapedUnescape(a, b, c, d);
  }

  /** The escape reads as the plain delimiter, in a single unstyled run. */
  lemma ClosedAfterBackslash(a: String, b: String, c: String, d: char)
    requires Ordinary(a) && Ordinary(b) && Ordinary(c) && Delimiter(d)
    ensures StyledText(a + [d] + b + ['\\', d] + c) == Styled([TextRun(a + [d] + b + [d] + c, {})])
  {
    EscapedPieces(a, b, c, d);
    EscapedUnescape(a, b, c, d);
  }

  /** The escaped text is a pair around `b` and a backslash, and the first
      delimiter opens no span. */
  lemma EscapedPieces(a: String, b: String, c: String, d: char)
    requires Ordinary(a) && Ordinary(b) && Ordinary(c) && Delimiter(d)
    ensures var m := b + ['\\']; var s := a + [d] + m + [d] + c;
      && s == a + [d] + b + ['\\', d] + c
      && NoMarkers(s) && NoDoubleStar(s) && NoSpanOf(s, '*') && NoSpanOf(s, '_')
      && StyledText(s) == Styled(Piece(Unescape(Unescape(s, '*'), '_')))
  {
    var m := b + ['\\'];
    var s := a + [d] + m + [d] + c;
    assert forall k :: 0 <= k < |b| ==> m[k] == b[k];
    PairAt(a, m, c, d);
    NoCloser(s, |a|, d, |a| + 1 + |m|);
    PairLiteral(a, m, c, d);
  }

  lemma EscapedUnescape(a: String, b: String, c: String, d: char)
    requires Ordinary(a) && Ordinary(b) && Ordinary(c) && Delimiter(d)
    ensures Unescape(Unescape(a + [d] + b + ['\\', d] + c, '*'), '_') == a + [d] + b + [d] + c
  {
    var x := a + [d] + b;
    assert a + [d] + b + ['\\', d] + c == x + (['\\', d] + c);
    assert a + [d] + b + [d] + c == x + ([d] + c);
    assert x == a + ([d] + b);
    NoBackslashJoin(a, b, d);
    EscapedDelimiter(x, c, d);
  }

  /** A pair of delimiters with a line feed between them is no span. */
  lemma SplitByLineFeed(a: String, b1: String, b2: String, c: String, d: char)
    requires Ordinary(a) && Ordinary(b1) && Ordinary(b2) && Ordinary(c) && Delimiter(d) && b2 != []
    ensures var s := a + [d] + (b1 + "\n" + b2) + [d] + c;
      StyledText(s) == Styled([TextRun(s, {})])
  {
    var m := b1 + "\n" + b2;
    var s := a + [d] + m + [d] + c;
    var q := |a| + 1 + |b1|;
    assert forall k :: 0 <= k < |b1| ==> m[k] == b1[k];
    assert m[|b1|] == '\n';
    assert forall k :: |b1| < k < |m| ==> m[k] == b2[k - |b1| - 1];
    PairAt(a, m, c, d);
    NoCloser(s, |a|, d, q);
    PairLiteral(a, m, c, d);
    assert forall k :: 0 <= k < |s| ==> s[k] != '\\';
    UnescapeNone(s, '*');
    UnescapeNone(s, '_');
  }

  /** `*Fuck this whole place!`: a lone star stays. */
  lemma LoneStarExample()
    ensures StyledText("*" + "Fuck this whole place!") == Styled([TextRun("*" + "Fuck this whole place!", {})])
  {
    OrdinaryLiteral("Fuck this whole place!");
    assert "" + ['*'] + "Fuck this whole place!" == "*" + "Fuck this whole place!";
    Unmatched("", "Fuck this whole place!", '*');
  }

  /** `He dialed *69 and then *23, and then hung up.`: the second star follows a blank. */
  lemma DialedExample()
    ensures var s := "He dialed " + "*" + "69 and then " + "*" + "23, and then hung up.";
      StyledText(s) == Styled([TextRun(s, {})])
  {
    OrdinaryLiteral("He dialed ");
    OrdinaryLiteral("69 and then ");
    OrdinaryTail("23, and then hung up.");
    ClosedAfterBlank("He dialed ", "69 and then ", "23, and then hung up.", '*');
  }

  /** `He dialed *69 and then 23\*, and then hung up.`: the escaped star
      closes nothing and loses its backslash. */
  lemma EscapedStarExample()
    ensures StyledText("He dialed " + "*" + "69 and then 23" + "\\*" + ", and then hung up.")
      == Styled([TextRun("He dialed " + "*" + "69 and then 23" + "*" + ", and then hung up.", {})])
  {
    OrdinaryLiteral("He dialed ");
    OrdinaryTail("69 and then 23");
    OrdinaryTail(", and then hung up.");
    assert "\\*" == ['\\', '*'];
    ClosedAfterBackslash("He dialed ", "69 and then 23", ", and then hung up.", '*');
  }

  /** The same with an escaped underscore. */
  lemma EscapedUnderscoreExample()
    ensures StyledText("He dialed " + "_" + "69 and then 23" + "\\_" + ", and then hung up.")
      == Styled([TextRun("He dialed " + "_" + "69 and then 23" + "_" + ", and then hung up.", {})])
  {
    OrdinaryLiteral("He dialed ");
    OrdinaryTail("69 and then 23");
    OrdinaryTail(", and then hung up.");
    assert "\\_" == ['\\', '_'];
    ClosedAfterBackslash("He dialed ", "69 and then 23", ", and then hung up.", '_');
  }

  /** Stars on two lines make no italics. */
  lemma LineFeedExample()
    ensures var s := "As he rattles off the long list, Brick and Steel " + "*"
        + ("share a look." + "\n" + "This is going to be BAD.") + "*";
      StyledText(s) == Styled([TextRun(s, {})])
  {
    var a := "As he rattles off the long list, Brick and Steel ";
    OrdinaryList("As he rattles off the long list, ");
    OrdinaryList("Brick and Steel ");
    OrdinaryAppend("As he rattles off the long list, ", "Brick and Steel ");
    assert a == "As he rattles off the long list, " + "Brick and Steel ";
    OrdinaryLook("share a look.");
    OrdinaryLook("This is going to be BAD.");
    assert a + ['*'] + ("share a look." + "\n" + "This is going to be BAD.") + ['*'] + ""
      == a + "*" + ("share a look." + "\n" + "This is going to be BAD.") + "*";
    SplitByLineFeed(a, "share a look.", "This is going to be BAD.", "", '*');
  }

  lemma OrdinaryAppend(x: String, y: String)
    requires Ordinary(x) && Ordinary(y)
    ensures Ordinary(x + y)
  {
    assert forall k :: |x| <= k < |x + y| ==> (x + y)[k] == y[k - |x|];
  }

  lemma OrdinaryLiteral(t: String)
    requires t == "Fuck this whole place!" || t == "He dialed " || t == "69 and then "
    ensures Ordinary(t)
  {
  }

  lemma OrdinaryTail(t: String)
    requires t == "23, and then hung up." || t == "69 and then 23" || t == ", and then hung up."
    ensures Ordinary(t)
  {
  }

  lemma OrdinaryList(t: String)
    requires t == "As he rattles off the long list, " || t == "Brick and Steel "
    ensures Ordinary(t)
  {
  }

  lemma OrdinaryLook(t: String)
    requires t == "share a look." || t == "This is going to be BAD."
    ensures Ordinary(t)
  {
  }
}
