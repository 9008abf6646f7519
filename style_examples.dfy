/**
  The emphasis passes on the shapes of the styling tests: `a***b***c`,
  `a**b**c`, `a*b*c` and `a_b_c`, with `a`, `b` and `c` free of delimiters,
  backslashes, line feeds and markers, each come out as one styled run for
  `b` between the unstyled runs of `a` and `c`.
 */
module StyleExamples {
  import opened Strings
  import opened Types
  import opened Styles
  import opened Wrappers

  /** Ordinary text: no delimiter, backslash, line feed or marker. */
  predicate Ordinary(t: String) {
    forall k :: 0 <= k < |t| ==> t[k] != '*' && t[k] != '_' && t[k] != '\\' && t[k] != '\n' && !IsMarker(t[k])
  }

  /** `n` copies of `d`. */
  function Rep(d: char, n: nat): (r: String)
    ensures |r| == n && forall k :: 0 <= k < n ==> r[k] == d
  {
    seq(n, k => d)
  }

  /** Where the five parts of `a + x + b + y + c` sit. */
  lemma Layout(a: String, x: String, b: String, y: String, c: String)
    ensures var s := a + x + b + y + c;
      && |s| == |a| + |x| + |b| + |y| + |c|
      && (forall k :: 0 <= k < |a| ==> s[k] == a[k])
      && (forall k :: 0 <= k < |x| ==> s[|a| + k] == x[k])
      && (forall k :: 0 <= k < |b| ==> s[|a| + |x| + k] == b[k])
      && (forall k :: 0 <= k < |y| ==> s[|a| + |x| + |b| + k] == y[k])
      && (forall k :: 0 <= k < |c| ==> s[|a| + |x| + |b| + |y| + k] == c[k])
      && s[..|a|] == a
      && s[|a| + |x|..|a| + |x| + |b|] == b
      && s[|a| + |x| + |b| + |y|..] == c
  {
  }

  /** Positions where the matcher finds nothing are copied. */
  lemma {:induction false} ReplaceSkip(s: String, p: nat, j: nat, at: Matcher, m: char)
    requires p <= j <= |s| && Sound(at)
    requires forall q :: p <= q < j ==> at(s, q) == None
    ensures ReplaceAll(s, p, at, m) == s[p..j] + ReplaceAll(s, j, at, m)
    decreases j - p
  {
    if p < j {
      assert at(s, p) == None;
      assert ReplaceAll(s, p, at, m) == [s[p]] + ReplaceAll(s, p + 1, at, m);
      ReplaceSkip(s, p + 1, j, at, m);
      Shift(s, p, j, ReplaceAll(s, j, at, m));
    }
  }

  lemma Shift<T>(s: seq<T>, p: nat, j: nat, t: seq<T>)
    requires p < j <= |s|
    ensures [s[p]] + (s[p + 1..j] + t) == s[p..j] + t
  {
    assert s[p..j] == [s[p]] + s[p + 1..j];
  }

  /** A tail where the matcher finds nothing is copied. */
  lemma ReplaceTail(s: String, f: nat, at: Matcher, m: char)
    requires f <= |s| && Sound(at)
    requires forall q :: f <= q < |s| ==> at(s, q) == None
    ensures ReplaceAll(s, f, at, m) == s[f..]
  {
    ReplaceSkip(s, f, |s|, at, m);
    assert s[f..|s|] + [] == s[f..];
  }

  lemma Glue<T>(s: seq<T>, q: nat, k: nat, m: T, g: seq<T>, t: seq<T>)
    requires q <= k <= |s|
    ensures s[..q] + (s[q..k] + [m] + g + [m] + t) == s[..k] + [m] + g + [m] + t
  {
    assert s[..q] + s[q..k] == s[..k];
  }

  /** A text with one match, at `q`, is replaced there and copied elsewhere. */
  lemma ReplaceOne(s: String, q: nat, h: Hit, at: Matcher, m: char)
    requires q < |s| && Sound(at) && at(s, q) == Some(h)
    requires forall k :: 0 <= k < q ==> at(s, k) == None
    requires forall k :: h.next <= k < |s| ==> at(s, k) == None
    ensures ReplaceAll(s, 0, at, m) == s[..h.keep] + [m] + s[h.start..h.stop] + [m] + s[h.next..]
  {
    assert Fits(s, q, h);
    ReplaceTail(s, h.next, at, m);
    assert ReplaceAll(s, q, at, m) == s[q..h.keep] + [m] + s[h.start..h.stop] + [m] + s[h.next..];
    ReplaceSkip(s, 0, q, at, m);
    assert s[0..q] == s[..q];
    Glue(s, q, h.keep, m, s[h.start..h.stop], s[h.next..]);
  }

  /** No span of `d` opens where there is no `d`. */
  lemma SpansNone(s: String, q: nat, n: nat, d: char)
    requires n >= 1 && (q < |s| ==> s[q] != d)
    ensures Spans(n, d)(s, q) == None
  {
  }

  /** A span whose closing delimiters no further `d` follows is the match. */
  lemma SpansAt(s: String, i: nat, e: nat, n: nat, d: char)
    requires n >= 1 && IsSpan(s, i, e, n, d) && (e + n < |s| ==> s[e + n] != d)
    ensures Spans(n, d)(s, i) == Some(Hit(i, i + n, e, e + n))
  {
    SpanEndLongest(s, i, n, d);
    assert s[e] == d;
    assert !Delims(s, e + 1, n, d);
  }

  /** No prefixed span of `d` is found where neither this nor the next character is `d`. */
  lemma PrefixedNone(s: String, q: nat, d: char)
    requires q < |s| ==> s[q] != d
    requires q + 1 < |s| ==> s[q + 1] != d
    ensures PrefixedSpans(d)(s, q) == None
  {
  }

  /** The prefixed match found just before, or at the start of, a span. */
  lemma PrefixedAt(s: String, i: nat, e: nat, d: char)
    requires IsSpan(s, i, e, 1, d) && (e + 1 < |s| ==> s[e + 1] != d)
    requires i > 0 ==> s[i - 1] != '\\' && s[0] != d
    ensures PrefixedSpans(d)(s, if i == 0 then 0 else i - 1) == Some(Hit(i, i + 1, e, e + 1))
  {
    SpansAt(s, i, e, 1, d);
    assert SpanHit(s, i, 1, d) == Some(Hit(i, i + 1, e, e + 1));
    if i > 0 {
      SpansNone(s, 0, 1, d);
      assert SpanHit(s, 0, 1, d) == None;
    }
  }

  /** A pass of `n` copies of `d` on a text `x`, a span around `y`, then `z`,
      with no `d` outside the span. */
  lemma SpanShape(s: String, i: nat, e: nat, n: nat, d: char, m: char, x: String, y: String, z: String)
    requires n >= 1 && IsSpan(s, i, e, n, d)
    requires forall k :: 0 <= k < i ==> s[k] != d
    requires forall k :: e + n <= k < |s| ==> s[k] != d
    requires s[..i] == x && s[i + n..e] == y && s[e + n..] == z
    ensures ReplaceAll(s, 0, Spans(n, d), m) == x + [m] + y + [m] + z
  {
    forall k | 0 <= k < i || e + n <= k < |s|
      ensures Spans(n, d)(s, k) == None
    {
      SpansNone(s, k, n, d);
    }
    assert e + n < |s| ==> s[e + n] != d;
    SpansAt(s, i, e, n, d);
    ReplaceOne(s, i, Hit(i, i + n, e, e + n), Spans(n, d), m);
  }

  /** A prefixed pass for `d` on a text `x`, a span of a single `d` around
      `y`, then `z`, with no other `d` and no backslash just before the span. */
  lemma PrefixedShape(s: String, i: nat, e: nat, d: char, m: char, x: String, y: String, z: String)
    requires IsSpan(s, i, e, 1, d)
    requires forall k :: 0 <= k < i ==> s[k] != d
    requires forall k :: e + 1 <= k < |s| ==> s[k] != d
    requires i > 0 ==> s[i - 1] != '\\'
    requires s[..i] == x && s[i + 1..e] == y && s[e + 1..] == z
    ensures ReplaceAll(s, 0, PrefixedSpans(d), m) == x + [m] + y + [m] + z
  {
    var q := if i == 0 then 0 else i - 1;
    forall k | 0 <= k < q || e + 1 <= k < |s|
      ensures PrefixedSpans(d)(s, k) == None
    {
      PrefixedNone(s, k, d);
    }
    assert e + 1 < |s| ==> s[e + 1] != d;
    PrefixedAt(s, i, e, d);
    ReplaceOne(s, q, Hit(i, i + 1, e, e + 1), PrefixedSpans(d), m);
  }

  /** Text without a backslash is left alone by the unescapes. */
  lemma {:induction false} UnescapeNone(s: String, d: char)
    requires forall k :: 0 <= k < |s| ==> s[k] != '\\'
    ensures Unescape(s, d) == s
    decreases |s|
  {
    if s != [] {
      UnescapeNone(s[1..], d);
    }
  }

  /** Text without `d` is left alone by both kinds of pass. */
  lemma Absent(s: String, n: nat, d: char, m: char)
    requires n >= 1
    requires forall k :: 0 <= k < |s| ==> s[k] != d
    ensures ReplaceAll(s, 0, Spans(n, d), m) == s && ReplaceAll(s, 0, PrefixedSpans(d), m) == s
  {
    forall k | 0 <= k < |s|
      ensures Spans(n, d)(s, k) == None && PrefixedSpans(d)(s, k) == None
    {
      SpansNone(s, k, n, d);
      PrefixedNone(s, k, d);
    }
    ReplaceTail(s, 0, Spans(n, d), m);
    ReplaceTail(s, 0, PrefixedSpans(d), m);
  }

  /** `a + q·d + b + q·d + c` holds no run of `n > q` copies of `d`, so
      the pass for `n` leaves it alone. */
  lemma ShortRuns(a: String, b: String, c: String, q: nat, n: nat, d: char, m: char)
    requires Ordinary(a) && Ordinary(b) && Ordinary(c) && b != [] && q < n && Delimiter(d)
    ensures var s := a + Rep(d, q) + b + Rep(d, q) + c;
      ReplaceAll(s, 0, Spans(n, d), m) == s
  {
    var s := a + Rep(d, q) + b + Rep(d, q) + c;
    Layout(a, Rep(d, q), b, Rep(d, q), c);
    forall k | 0 <= k < |s|
      ensures Spans(n, d)(s, k) == None
    {
      assert !Delims(s, k, n, d) by {
        if k < |a| {
          assert s[k] != d;
        } else if k < |a| + q {
          assert k + n <= |s| ==> s[|a| + q] == b[0] != d;
        } else if k < |a| + q + |b| {
          assert s[k] == b[k - |a| - q];
        } else if k < |a| + q + |b| + q {
          assert k + n <= |s| ==> s[|a| + q + |b| + q] == c[0] != d;
        } else {
          assert s[k] == c[k - |a| - q - |b| - q];
        }
      }
    }
    ReplaceTail(s, 0, Spans(n, d), m);
  }

  /** The pass for `n` copies of `d` on `a + n·d + b + n·d + c` puts markers around `b`. */
  lemma SpanPiece(a: String, b: String, c: String, n: nat, d: char, m: char)
    requires Ordinary(a) && Ordinary(b) && Ordinary(c) && b != [] && b[|b| - 1] != ' '
    requires n >= 1 && Delimiter(d)
    ensures ReplaceAll(a + Rep(d, n) + b + Rep(d, n) + c, 0, Spans(n, d), m) == a + [m] + b + [m] + c
  {
    var s := a + Rep(d, n) + b + Rep(d, n) + c;
    var e := |a| + n + |b|;
    Layout(a, Rep(d, n), b, Rep(d, n), c);
    assert IsSpan(s, |a|, e, n, d);
    SpanShape(s, |a|, e, n, d, m, a, b, c);
  }

  /** The prefixed pass for `d` on `a + d + b + d + c` puts markers around `b`,
      by the start-of-text alternative when `a` is empty. */
  lemma PrefixedPiece(a: String, b: String, c: String, d: char, m: char)
    requires Ordinary(a) && Ordinary(b) && Ordinary(c) && b != [] && b[|b| - 1] != ' ' && Delimiter(d)
    ensures ReplaceAll(a + Rep(d, 1) + b + Rep(d, 1) + c, 0, PrefixedSpans(d), m) == a + [m] + b + [m] + c
  {
    var s := a + Rep(d, 1) + b + Rep(d, 1) + c;
    var e := |a| + 1 + |b|;
    Layout(a, Rep(d, 1), b, Rep(d, 1), c);
    assert IsSpan(s, |a|, e, 1, d);
    assert |a| > 0 ==> s[|a| - 1] == a[|a| - 1];
    PrefixedShape(s, |a|, e, d, m, a, b, c);
  }

  /** What the later passes and the walk need of a marked text: no
      delimiter, no backslash, and markers only as given. */
  lemma MarkedText(a: String, b: String, c: String, m: char)
    requires Ordinary(a) && Ordinary(b) && Ordinary(c) && IsMarker(m)
    ensures var t := a + [m] + b + [m] + c;
      forall k :: 0 <= k < |t| ==> t[k] != '\\' && t[k] != '*' && t[k] != '_'
    ensures NoMarkers(a) && NoMarkers(b) && NoMarkers(c)
  {
    Layout(a, [m], b, [m], c);
  }

  /** The runs of a marked text that no unescape touches. */
  lemma StyledPieces(t: String, a: String, b: String, c: String, m: char)
    requires Ordinary(a) && Ordinary(b) && Ordinary(c) && IsMarker(m) && b != []
    requires t == a + [m] + b + [m] + c
    ensures Unescape(Unescape(t, '*'), '_') == t
    ensures Runs(t) == Piece(a) + [TextRun(b, MarkerStyles(m))] + Piece(c)
  {
    MarkedText(a, b, c, m);
    UnescapeNone(t, '*');
    UnescapeNone(t, '_');
    MarkedRuns(a, b, c, m);
  }

  /** `create_styled_from_string` through the results of its four passes. */
  lemma PreparedAs(txt: String, p1: String, p2: String, p3: String, p4: String)
    requires ReplaceAll(txt, 0, Spans(3, '*'), BoldItalicMark) == p1
    requires ReplaceAll(p1, 0, Spans(2, '*'), BoldMark) == p2
    requires ReplaceAll(p2, 0, PrefixedSpans('*'), ItalicMark) == p3
    requires ReplaceAll(p3, 0, PrefixedSpans('_'), UnderlineMark) == p4
    ensures StyledText(txt) == Styled(Runs(Unescape(Unescape(p4, '*'), '_')))
  {
  }

  /** `a***b***c`: `b` bold and italic. */
  lemma BoldItalicText(a: String, b: String, c: String)
    requires Ordinary(a) && Ordinary(b) && Ordinary(c) && b != [] && b[|b| - 1] != ' '
    ensures StyledText(a + Rep('*', 3) + b + Rep('*', 3) + c)
      == Styled(Piece(a) + [TextRun(b, {"Bold", "Italic"})] + Piece(c))
  {
    var s := a + Rep('*', 3) + b + Rep('*', 3) + c;
    var t := a + [BoldItalicMark] + b + [BoldItalicMark] + c;
    SpanPiece(a, b, c, 3, '*', BoldItalicMark);
    MarkedText(a, b, c, BoldItalicMark);
    Absent(t, 2, '*', BoldMark);
    Absent(t, 1, '*', ItalicMark);
    Absent(t, 1, '_', UnderlineMark);
    PreparedAs(s, t, t, t, t);
    StyledPieces(t, a, b, c, BoldItalicMark);
  }

  /** `a**b**c`: `b` bold. */
  lemma BoldText(a: String, b: String, c: String)
    requires Ordinary(a) && Ordinary(b) && Ordinary(c) && b != [] && b[|b| - 1] != ' '
    ensures StyledText(a + Rep('*', 2) + b + Rep('*', 2) + c)
      == Styled(Piece(a) + [TextRun(b, {"Bold"})] + Piece(c))
  {
    var s := a + Rep('*', 2) + b + Rep('*', 2) + c;
    var t := a + [BoldMark] + b + [BoldMark] + c;
    ShortRuns(a, b, c, 2, 3, '*', BoldItalicMark);
    SpanPiece(a, b, c, 2, '*', BoldMark);
    MarkedText(a, b, c, BoldMark);
    Absent(t, 1, '*', ItalicMark);
    Absent(t, 1, '_', UnderlineMark);
    PreparedAs(s, s, t, t, t);
    StyledPieces(t, a, b, c, BoldMark);
  }

  /** `a*b*c`: `b` italic. */
  lemma ItalicText(a: String, b: String, c: String)
    requires Ordinary(a) && Ordinary(b) && Ordinary(c) && b != [] && b[|b| - 1] != ' '
    ensures StyledText(a + Rep('*', 1) + b + Rep('*', 1) + c)
      == Styled(Piece(a) + [TextRun(b, {"Italic"})] + Piece(c))
  {
    var s := a + Rep('*', 1) + b + Rep('*', 1) + c;
    var t := a + [ItalicMark] + b + [ItalicMark] + c;
    ShortRuns(a, b, c, 1, 3, '*', BoldItalicMark);
    ShortRuns(a, b, c, 1, 2, '*', BoldMark);
    PrefixedPiece(a, b, c, '*', ItalicMark);
    MarkedText(a, b, c, ItalicMark);
    Absent(t, 1, '_', UnderlineMark);
    PreparedAs(s, s, s, t, t);
    StyledPieces(t, a, b, c, ItalicMark);
  }

  /** `a_b_c`: `b` underlined. */
  lemma UnderlineText(a: String, b: String, c: String)
    requires Ordinary(a) && Ordinary(b) && Ordinary(c) && b != [] && b[|b| - 1] != ' '
    ensures StyledText(a + Rep('_', 1) + b + Rep('_', 1) + c)
      == Styled(Piece(a) + [TextRun(b, {"Underline"})] + Piece(c))
  {
    var s := a + Rep('_', 1) + b + Rep('_', 1) + c;
    var t := a + [UnderlineMark] + b + [UnderlineMark] + c;
    UnderlinedText(a, b, c);
    Absent(s, 3, '*', BoldItalicMark);
    Absent(s, 2, '*', BoldMark);
    Absent(s, 1, '*', ItalicMark);
    PrefixedPiece(a, b, c, '_', UnderlineMark);
    PreparedAs(s, s, s, s, t);
    StyledPieces(t, a, b, c, UnderlineMark);
  }

  /** Text underlined with `_` holds no `*`. */
  lemma UnderlinedText(a: String, b: String, c: String)
    requires Ordinary(a) && Ordinary(b) && Ordinary(c)
    ensures var s := a + Rep('_', 1) + b + Rep('_', 1) + c;
      forall k :: 0 <= k < |s| ==> s[k] != '*'
  {
    Layout(a, Rep('_', 1), b, Rep('_', 1), c);
  }

  /** `Fuck ***this*** whole place!`. */
  lemma BoldItalicExample()
    ensures StyledText("Fuck " + "***" + "this" + "***" + " whole place!")
      == Styled([TextRun("Fuck ", {}), TextRun("this", {"Bold", "Italic"}), TextRun(" whole place!", {})])
  {
    assert Rep('*', 3) == "***";
    BoldItalicText("Fuck ", "this", " whole place!");
  }

  /** `**Fuck** this whole place!`: bold text opening the line. */
  lemma LeadingBoldExample()
    ensures StyledText("" + "**" + "Fuck" + "**" + " this whole place!")
      == Styled([TextRun("Fuck", {"Bold"}), TextRun(" this whole place!", {})])
  {
    assert Rep('*', 2) == "**";
    BoldText("", "Fuck", " this whole place!");
  }

  /** `*Fuck* this whole place!`: italic text opening the line, by the start-of-text alternative. */
  lemma LeadingItalicExample()
    ensures StyledText("" + "*" + "Fuck" + "*" + " this whole place!")
      == Styled([TextRun("Fuck", {"Italic"}), TextRun(" this whole place!", {})])
  {
    assert Rep('*', 1) == "*";
    ItalicText("", "Fuck", " this whole place!");
  }

  /** `_Fuck this whole place!_`: the whole line is one Underline run. */
  lemma WholeUnderlineExample()
    ensures StyledText("" + "_" + "Fuck this whole place!" + "_" + "")
      == Styled([TextRun("Fuck this whole place!", {"Underline"})])
  {
    assert Rep('_', 1) == "_";
    UnderlineText("", "Fuck this whole place!", "");
  }
}
