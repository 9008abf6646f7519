/**
  Emphasis inside emphasis. Each pass replaces only its own delimiters and
  leaves the markers of the earlier passes in place, so an inner span lies
  between the outer markers, and the walk gives its text the union of the
  two markers' styles.
 */
module StyleNesting {
  import opened Strings
  import opened Types
  import opened Wrappers
  import opened Styles
  import opened StyleExamples
  import opened StyleLiterals

  /** Ordinary text between two copies of `u`. */
  lemma Wrapped(b: String, u: char)
    requires Ordinary(b)
    ensures var y := [u] + b + [u];
      |y| == |b| + 2 && y[0] == u && y[|y| - 1] == u
      && forall k :: 0 < k < |y| - 1 ==> y[k] == b[k - 1]
  {
  }

  /** The pass for `n` copies of `d` on `x + n·d + y + n·d + z` puts markers
      around `y` when `d` occurs nowhere else and `y` can be a group. */
  lemma SpanAround(x: String, y: String, z: String, n: nat, d: char, m: char)
    requires n >= 1
    requires forall k :: 0 <= k < |x| ==> x[k] != d
    requires forall k :: 0 <= k < |y| ==> y[k] != d && y[k] != '\n'
    requires forall k :: 0 <= k < |z| ==> z[k] != d
    requires y != [] && y[|y| - 1] != ' ' && y[|y| - 1] != '\\'
    ensures ReplaceAll(x + Rep(d, n) + y + Rep(d, n) + z, 0, Spans(n, d), m) == x + [m] + y + [m] + z
  {
    var s := x + Rep(d, n) + y + Rep(d, n) + z;
    SpanAroundShape(x, y, z, n, d);
    SpanShape(s, |x|, |x| + n + |y|, n, d, m, x, y, z);
  }

  /** Where the span of `x + n·d + y + n·d + z` lies. */
  lemma SpanAroundShape(x: String, y: String, z: String, n: nat, d: char)
    requires n >= 1
    requires forall k :: 0 <= k < |x| ==> x[k] != d
    requires forall k :: 0 <= k < |y| ==> y[k] != d && y[k] != '\n'
    requires forall k :: 0 <= k < |z| ==> z[k] != d
    requires y != [] && y[|y| - 1] != ' ' && y[|y| - 1] != '\\'
    ensures var s := x + Rep(d, n) + y + Rep(d, n) + z; var i, e := |x|, |x| + n + |y|;
      && IsSpan(s, i, e, n, d)
      && (forall k :: 0 <= k < i ==> s[k] != d)
      && (forall k :: e + n <= k < |s| ==> s[k] != d)
      && s[..i] == x && s[i + n..e] == y && s[e + n..] == z
  {
    var s := x + Rep(d, n) + y + Rep(d, n) + z;
    var e := |x| + n + |y|;
    Layout(x, Rep(d, n), y, Rep(d, n), z);
    assert forall k :: |x| + n <= k < e ==> s[k] == y[k - |x| - n];
    assert forall k :: e + n <= k < |s| ==> s[k] == z[k - e - n];
  }

  /** The prefixed pass for `d` on `x + d + y + d + z`, with no backslash
      ending `x`, puts markers around `y` when `d` occurs nowhere else. */
  lemma PrefixedAround(x: String, y: String, z: String, d: char, m: char)
    requires forall k :: 0 <= k < |x| ==> x[k] != d
    requires x != [] ==> x[|x| - 1] != '\\'
    requires forall k :: 0 <= k < |y| ==> y[k] != d && y[k] != '\n'
    requires forall k :: 0 <= k < |z| ==> z[k] != d
    requires y != [] && y[|y| - 1] != ' ' && y[|y| - 1] != '\\'
    ensures ReplaceAll(x + Rep(d, 1) + y + Rep(d, 1) + z, 0, PrefixedSpans(d), m) == x + [m] + y + [m] + z
  {
    var s := x + Rep(d, 1) + y + Rep(d, 1) + z;
    PrefixedAroundShape(x, y, z, d);
    PrefixedShape(s, |x|, |x| + 1 + |y|, d, m, x, y, z);
  }

  /** Where the span of `x + d + y + d + z` lies. */
  lemma PrefixedAroundShape(x: String, y: String, z: String, d: char)
    requires forall k :: 0 <= k < |x| ==> x[k] != d
    requires x != [] ==> x[|x| - 1] != '\\'
    requires forall k :: 0 <= k < |y| ==> y[k] != d && y[k] != '\n'
    requires forall k :: 0 <= k < |z| ==> z[k] != d
    requires y != [] && y[|y| - 1] != ' ' && y[|y| - 1] != '\\'
    ensures var s := x + Rep(d, 1) + y + Rep(d, 1) + z; var i, e := |x|, |x| + 1 + |y|;
      && IsSpan(s, i, e, 1, d)
      && (forall k :: 0 <= k < i ==> s[k] != d)
      && (forall k :: e + 1 <= k < |s| ==> s[k] != d)
      && (i > 0 ==> s[i - 1] != '\\')
      && s[..i] == x && s[i + 1..e] == y && s[e + 1..] == z
  {
    var s := x + Rep(d, 1) + y + Rep(d, 1) + z;
    Layout(x, Rep(d, 1), y, Rep(d, 1), z);
    assert |x| > 0 ==> s[|x| - 1] == x[|x| - 1];
  }

  // ---- `a***_b_***c` ----

  /** The bold-italic pass takes the stars around `_b_`. */
  lemma StarsAroundUnderscores(a: String, b: String, c: String)
    requires Ordinary(a) && Ordinary(b) && Ordinary(c)
    ensures var y := ['_'] + b + ['_'];
      ReplaceAll(a + Rep('*', 3) + y + Rep('*', 3) + c, 0, Spans(3, '*'), BoldItalicMark)
      == a + [BoldItalicMark] + y + [BoldItalicMark] + c
  {
    Wrapped(b, '_');
    SpanAround(a, ['_'] + b + ['_'], c, 3, '*', BoldItalicMark);
  }

  /** The underline pass then takes the underscores right after the marker. */
  lemma UnderscoresInsideMarkers(a: String, b: String, c: String)
    requires Ordinary(a) && Ordinary(b) && Ordinary(c) && b != [] && b[|b| - 1] != ' '
    ensures var t := a + [BoldItalicMark] + (['_'] + b + ['_']) + [BoldItalicMark] + c;
      ReplaceAll(t, 0, PrefixedSpans('_'), UnderlineMark)
      == a + [BoldItalicMark] + [UnderlineMark] + b + [UnderlineMark] + [BoldItalicMark] + c
  {
    var x, z := a + [BoldItalicMark], [BoldItalicMark] + c;
    assert Rep('_', 1) == ['_'];
    assert a + [BoldItalicMark] + (['_'] + b + ['_']) + [BoldItalicMark] + c == x + ['_'] + b + ['_'] + z;
    assert forall k :: 0 <= k < |x| ==> k < |a| ==> x[k] == a[k];
    assert forall k :: 0 < k < |z| ==> z[k] == c[k - 1];
    PrefixedAround(x, b, z, '_', UnderlineMark);
    assert x + [UnderlineMark] + b + [UnderlineMark] + z
      == a + [BoldItalicMark] + [UnderlineMark] + b + [UnderlineMark] + [BoldItalicMark] + c;
  }

  /** Text in which the bold-italic markers surround `_b_` holds no star and no backslash. */
  lemma MarkedUnderscores(a: String, b: String, c: String)
    requires Ordinary(a) && Ordinary(b) && Ordinary(c)
    ensures var t := a + [BoldItalicMark] + (['_'] + b + ['_']) + [BoldItalicMark] + c;
      forall k :: 0 <= k < |t| ==> t[k] != '*'
  {
    Wrapped(b, '_');
    Layout(a, [BoldItalicMark], ['_'] + b + ['_'], [BoldItalicMark], c);
  }

  lemma NestedMarkers(a: String, b: String, c: String)
    requires Ordinary(a) && Ordinary(b) && Ordinary(c)
    ensures var t := a + [BoldItalicMark] + [UnderlineMark] + b + [UnderlineMark] + [BoldItalicMark] + c;
      forall k :: 0 <= k < |t| ==> t[k] != '\\'
  {
    var x, z := a + [BoldItalicMark], [BoldItalicMark] + c;
    Layout(x, [UnderlineMark], b, [UnderlineMark], z);
    assert forall k :: 0 <= k < |x| ==> k < |a| ==> x[k] == a[k];
    assert forall k :: 0 < k < |z| ==> z[k] == c[k - 1];
  }

  /** The passes on `a***_b_***c`: the bold-italic markers around the
      underline markers around `b`. */
  lemma UnderlineInBoldItalicPrepared(a: String, b: String, c: String)
    requires Ordinary(a) && Ordinary(b) && Ordinary(c) && b != [] && b[|b| - 1] != ' '
    ensures Prepare(a + Rep('*', 3) + (['_'] + b + ['_']) + Rep('*', 3) + c)
      == a + [BoldItalicMark] + [UnderlineMark] + b + [UnderlineMark] + [BoldItalicMark] + c
  {
    var s := a + Rep('*', 3) + (['_'] + b + ['_']) + Rep('*', 3) + c;
    var t1 := a + [BoldItalicMark] + (['_'] + b + ['_']) + [BoldItalicMark] + c;
    var t2 := a + [BoldItalicMark] + [UnderlineMark] + b + [UnderlineMark] + [BoldItalicMark] + c;
    StarsAroundUnderscores(a, b, c);
    MarkedUnderscores(a, b, c);
    Absent(t1, 2, '*', BoldMark);
    Absent(t1, 1, '*', ItalicMark);
    UnderscoresInsideMarkers(a, b, c);
    NestedMarkers(a, b, c);
    UnescapeNone(t2, '*');
    UnescapeNone(t2, '_');
  }

  /** `a***_b_***c`: `b` bold, italic and underlined at once. */
  lemma UnderlineInBoldItalic(a: String, b: String, c: String)
    requires Ordinary(a) && Ordinary(b) && Ordinary(c) && b != [] && b[|b| - 1] != ' '
    ensures StyledText(a + Rep('*', 3) + (['_'] + b + ['_']) + Rep('*', 3) + c)
      == Styled(Piece(a) + [TextRun(b, {"Bold", "Italic", "Underline"})] + Piece(c))
  {
    UnderlineInBoldItalicPrepared(a, b, c);
    MarkedText(a, b, c, UnderlineMark);
    NestedRuns(a, b, c, BoldItalicMark, UnderlineMark);
    assert MarkerStyles(BoldItalicMark) + MarkerStyles(UnderlineMark) == {"Bold", "Italic", "Underline"};
  }

  /** `Fuck ***_this_*** whole place!`. */
  lemma UnderlineBoldItalicExample()
    ensures StyledText("Fuck " + "***" + "_this_" + "***" + " whole place!")
      == Styled([TextRun("Fuck ", {}), TextRun("this", {"Bold", "Italic", "Underline"}), TextRun(" whole place!", {})])
  {
    assert Rep('*', 3) == "***";
    assert ['_'] + "this" + ['_'] == "_this_";
    UnderlineInBoldItalic("Fuck ", "this", " whole place!");
  }

  // ---- `_a*b*c**d**_` ----

  /** Text without delimiters, backslashes or line feeds; markers may occur. */
  predicate Bare(t: String) {
    forall k :: 0 <= k < |t| ==> t[k] != '*' && t[k] != '_' && t[k] != '\\' && t[k] != '\n'
  }

  lemma BareAppend(x: String, y: String)
    requires Bare(x) && Bare(y)
    ensures Bare(x + y)
  {
    assert forall k :: |x| <= k < |x + y| ==> (x + y)[k] == y[k - |x|];
  }

  /** Ordinary text, a marker, ordinary text, the marker. */
  lemma BareMarked(a: String, b: String, m: char)
    requires Ordinary(a) && Ordinary(b) && IsMarker(m)
    ensures Bare(a + [m] + b + [m]) && (a + [m] + b + [m])[|a + [m] + b + [m]| - 1] == m
  {
    Layout(a, [m], b, [m], []);
  }

  /** `_a*b*c` holds single stars only, and does not end in one. */
  lemma SingleStars(a: String, b: String, c: String)
    requires Ordinary(a) && Ordinary(b) && Ordinary(c) && b != [] && c != []
    ensures var l := ['_'] + a + ['*'] + b + ['*'] + c;
      NoDoubleStar(l) && l[|l| - 1] != '*'
  {
    var x := ['_'] + a;
    var l := x + ['*'] + b + ['*'] + c;
    assert forall k :: 0 < k < |x| ==> x[k] == a[k - 1];
    Layout(x, ['*'], b, ['*'], c);
    forall k | 0 <= k < |l| - 1 && l[k] == '*'
      ensures l[k + 1] != '*'
    {
      if k == |x| {
        assert l[k + 1] == b[0];
      } else if k == |x| + 1 + |b| {
        assert l[k + 1] == c[0];
      }
    }
  }

  /** Where the parts of `l**d**_` sit. */
  lemma BoldLayout(l: String, d: String)
    ensures var s := l + Rep('*', 2) + d + Rep('*', 2) + ['_']; var e := |l| + 2 + |d|;
      && |s| == e + 3
      && (forall k :: 0 <= k < |l| ==> s[k] == l[k])
      && s[|l|] == '*' && s[|l| + 1] == '*'
      && (forall k :: |l| + 2 <= k < e ==> s[k] == d[k - |l| - 2])
      && s[e] == '*' && s[e + 1] == '*' && s[e + 2] == '_'
      && s[..|l|] == l && s[|l| + 2..e] == d && s[e + 2..] == ['_']
  {
    Layout(l, Rep('*', 2), d, Rep('*', 2), ['_']);
  }

  /** In `l**d**_` with single stars in `l`, three stars never follow each
      other, and two only at the delimiters of `**d**`. */
  lemma BoldDelims(l: String, d: String)
    requires NoDoubleStar(l) && l != [] && l[|l| - 1] != '*'
    requires Ordinary(d) && d != []
    ensures var s := l + Rep('*', 2) + d + Rep('*', 2) + ['_']; var e := |l| + 2 + |d|;
      forall k :: 0 <= k < |s| ==> !Delims(s, k, 3, '*') && (k < |l| || e + 2 <= k ==> !Delims(s, k, 2, '*'))
  {
    var s := l + Rep('*', 2) + d + Rep('*', 2) + ['_'];
    var e := |l| + 2 + |d|;
    BoldLayout(l, d);
    forall k | 0 <= k < |s|
      ensures !Delims(s, k, 3, '*')
      ensures k < |l| || e + 2 <= k ==> !Delims(s, k, 2, '*')
    {
      if k < |l| - 1 {
        assert !(s[k] == '*' && s[k + 1] == '*');
      } else if k == |l| - 1 {
        assert s[k] == l[|l| - 1];
      } else if k == |l| {
        assert s[k + 2] == d[0];
      } else if k == |l| + 1 {
        assert s[k + 1] == d[0];
      } else if k < e {
        assert s[k] == d[k - |l| - 2];
      } else if k == e {
        assert s[k + 2] == '_';
      } else if k == e + 1 {
        assert s[k + 1] == '_';
      } else {
        assert s[k] == '_';
      }
    }
  }

  /** So the bold-italic pass copies `l**d**_`. */
  lemma NoBoldItalic(l: String, d: String)
    requires NoDoubleStar(l) && l != [] && l[|l| - 1] != '*'
    requires Ordinary(d) && d != []
    ensures var s := l + Rep('*', 2) + d + Rep('*', 2) + ['_'];
      ReplaceAll(s, 0, Spans(3, '*'), BoldItalicMark) == s
  {
    var s := l + Rep('*', 2) + d + Rep('*', 2) + ['_'];
    BoldDelims(l, d);
    forall k | 0 <= k < |s|
      ensures Spans(3, '*')(s, k) == None
    {
      assert !Delims(s, k, 3, '*');
    }
    ReplaceTail(s, 0, Spans(3, '*'), BoldItalicMark);
    assert s[0..] == s;
  }

  /** And the bold pass takes only `**d**`. */
  lemma BoldOnly(l: String, d: String)
    requires NoDoubleStar(l) && l != [] && l[|l| - 1] != '*'
    requires Ordinary(d) && d != [] && d[|d| - 1] != ' '
    ensures var s := l + Rep('*', 2) + d + Rep('*', 2) + ['_'];
      ReplaceAll(s, 0, Spans(2, '*'), BoldMark) == l + [BoldMark] + d + [BoldMark] + ['_']
  {
    var s := l + Rep('*', 2) + d + Rep('*', 2) + ['_'];
    var e := |l| + 2 + |d|;
    BoldLayout(l, d);
    BoldDelims(l, d);
    assert IsSpan(s, |l|, e, 2, '*');
    SpansAt(s, |l|, e, 2, '*');
    forall k | 0 <= k < |l| || e + 2 <= k < |s|
      ensures Spans(2, '*')(s, k) == None
    {
      assert !Delims(s, k, 2, '*');
    }
    ReplaceOne(s, |l|, Hit(|l|, |l| + 2, e, e + 2), Spans(2, '*'), BoldMark);
  }

  /** The italic pass on `_a*b*c⟨B⟩d⟨B⟩_` takes the single stars. */
  lemma ItalicBeforeBold(a: String, b: String, c: String, d: String)
    requires Ordinary(a) && Ordinary(b) && Ordinary(c) && Ordinary(d) && b != [] && b[|b| - 1] != ' '
    ensures var z := c + [BoldMark] + d + [BoldMark] + ['_'];
      ReplaceAll(['_'] + a + ['*'] + b + ['*'] + z, 0, PrefixedSpans('*'), ItalicMark)
      == ['_'] + a + [ItalicMark] + b + [ItalicMark] + z
  {
    var x := ['_'] + a;
    var z := c + [BoldMark] + d + [BoldMark] + ['_'];
    assert forall k :: 0 < k < |x| ==> x[k] == a[k - 1];
    BareMarked(c, d, BoldMark);
    assert forall k :: 0 <= k < |z| - 1 ==> z[k] == (c + [BoldMark] + d + [BoldMark])[k];
    assert Rep('*', 1) == ['*'];
    PrefixedAround(x, b, z, '*', ItalicMark);
  }

  /** The underline pass on `_M_` takes the outer underscores. */
  lemma UnderlineOutside(m: String)
    requires Bare(m) && m != [] && m[|m| - 1] != ' '
    ensures ReplaceAll(['_'] + m + ['_'], 0, PrefixedSpans('_'), UnderlineMark) == [UnderlineMark] + m + [UnderlineMark]
  {
    var s := ['_'] + m + ['_'];
    var e := |m| + 1;
    assert forall k :: 0 < k < e ==> s[k] == m[k - 1];
    assert IsSpan(s, 0, e, 1, '_');
    assert s[..0] == [] && s[1..e] == m && s[e + 1..] == [];
    PrefixedShape(s, 0, e, '_', UnderlineMark, [], m, []);
    Bracketed(UnderlineMark, m);
  }

  lemma Bracketed<T>(u: T, m: seq<T>)
    ensures [] + [u] + m + [u] + [] == [u] + m + [u]
  {
  }

  lemma Regrouped<T>(w: T, a: seq<T>, i: T, b: seq<T>, c: seq<T>, j: T, d: seq<T>)
    ensures [w] + a + [i] + b + [i] + (c + [j] + d + [j] + [w])
      == [w] + ((a + [i] + b + [i]) + (c + [j] + d + [j])) + [w]
  {
  }

  /** The star passes on `_a*b*c**d**_`: the bold markers around `d`,
      then the italic ones around `b`. */
  lemma OverlapStarPasses(a: String, b: String, c: String, d: String)
    requires Ordinary(a) && Ordinary(b) && Ordinary(c) && Ordinary(d)
    requires b != [] && b[|b| - 1] != ' ' && c != [] && d != [] && d[|d| - 1] != ' '
    ensures var s := ['_'] + a + ['*'] + b + ['*'] + c + Rep('*', 2) + d + Rep('*', 2) + ['_'];
      var t2 := ['_'] + a + ['*'] + b + ['*'] + c + [BoldMark] + d + [BoldMark] + ['_'];
      && ReplaceAll(s, 0, Spans(3, '*'), BoldItalicMark) == s
      && ReplaceAll(s, 0, Spans(2, '*'), BoldMark) == t2
      && ReplaceAll(t2, 0, PrefixedSpans('*'), ItalicMark)
        == ['_'] + ((a + [ItalicMark] + b + [ItalicMark]) + (c + [BoldMark] + d + [BoldMark])) + ['_']
  {
    var l := ['_'] + a + ['*'] + b + ['*'] + c;
    var z := c + [BoldMark] + d + [BoldMark] + ['_'];
    SingleStars(a, b, c);
    NoBoldItalic(l, d);
    BoldOnly(l, d);
    assert l + [BoldMark] + d + [BoldMark] + ['_'] == ['_'] + a + ['*'] + b + ['*'] + z;
    ItalicBeforeBold(a, b, c, d);
    Regrouped('_', a, ItalicMark, b, c, BoldMark, d);
  }

  /** The middle of `_a*b*c**d**_` after the star passes: markers and
      ordinary text, ending in a bold marker. */
  lemma OverlapMiddle(a: String, b: String, c: String, d: String)
    requires Ordinary(a) && Ordinary(b) && Ordinary(c) && Ordinary(d)
    ensures var m := (a + [ItalicMark] + b + [ItalicMark]) + (c + [BoldMark] + d + [BoldMark]);
      Bare(m) && m != [] && m[|m| - 1] == BoldMark
      && Bare([UnderlineMark] + m + [UnderlineMark])
  {
    var p1, p2 := a + [ItalicMark] + b + [ItalicMark], c + [BoldMark] + d + [BoldMark];
    BareMarked(a, b, ItalicMark);
    BareMarked(c, d, BoldMark);
    BareAppend(p1, p2);
    assert (p1 + p2)[|p1 + p2| - 1] == p2[|p2| - 1];
    BareAppend([UnderlineMark], p1 + p2);
    BareAppend([UnderlineMark] + (p1 + p2), [UnderlineMark]);
  }

  /** The passes on `_a*b*c**d**_`: the underline markers around the
      whole, the italic markers around `b`, the bold ones around `d`. */
  lemma OverlappingPrepared(a: String, b: String, c: String, d: String)
    requires Ordinary(a) && Ordinary(b) && Ordinary(c) && Ordinary(d)
    requires b != [] && b[|b| - 1] != ' ' && c != [] && d != [] && d[|d| - 1] != ' '
    ensures Prepare(['_'] + a + ['*'] + b + ['*'] + c + Rep('*', 2) + d + Rep('*', 2) + ['_'])
      == [UnderlineMark] + ((a + [ItalicMark] + b + [ItalicMark]) + (c + [BoldMark] + d + [BoldMark])) + [UnderlineMark]
  {
    var m := (a + [ItalicMark] + b + [ItalicMark]) + (c + [BoldMark] + d + [BoldMark]);
    var t4 := [UnderlineMark] + m + [UnderlineMark];
    OverlapStarPasses(a, b, c, d);
    OverlapMiddle(a, b, c, d);
    UnderlineOutside(m);
    UnescapeNone(t4, '*');
    UnescapeNone(t4, '_');
  }

  /** `_a*b*c**d**_`: everything underlined, `b` italic as well, `d` bold as well. */
  lemma OverlappingText(a: String, b: String, c: String, d: String)
    requires Ordinary(a) && Ordinary(b) && Ordinary(c) && Ordinary(d)
    requires b != [] && b[|b| - 1] != ' ' && c != [] && d != [] && d[|d| - 1] != ' '
    ensures StyledText(['_'] + a + ['*'] + b + ['*'] + c + Rep('*', 2) + d + Rep('*', 2) + ['_'])
      == Styled(RunIn(a, {"Underline"}) + [TextRun(b, {"Underline", "Italic"})]
        + [TextRun(c, {"Underline"})] + [TextRun(d, {"Underline", "Bold"})])
  {
    OverlappingPrepared(a, b, c, d);
    OverlapStyles(a, b, c, d);
  }

  /** The walk over `⟨U⟩a⟨I⟩b⟨I⟩c⟨B⟩d⟨B⟩⟨U⟩`. */
  lemma OverlapStyles(a: String, b: String, c: String, d: String)
    requires Ordinary(a) && Ordinary(b) && Ordinary(c) && Ordinary(d)
    requires b != [] && c != [] && d != []
    ensures Runs([UnderlineMark] + ((a + [ItalicMark] + b + [ItalicMark]) + (c + [BoldMark] + d + [BoldMark])) + [UnderlineMark])
      == RunIn(a, {"Underline"}) + [TextRun(b, {"Underline", "Italic"})]
        + [TextRun(c, {"Underline"})] + [TextRun(d, {"Underline", "Bold"})]
  {
    var so := {"Underline"};
    MarkedText(a, b, c, ItalicMark);
    MarkedText(c, d, [], BoldMark);
    OverlapRuns(a, b, c, d, UnderlineMark, ItalicMark, BoldMark);
    assert MarkerStyles(UnderlineMark) == so;
    assert so + MarkerStyles(ItalicMark) == {"Underline", "Italic"};
    assert so + MarkerStyles(BoldMark) == {"Underline", "Bold"};
    assert RunIn(c, so) == [TextRun(c, so)];
    assert [UnderlineMark] + (a + [ItalicMark] + b + [ItalicMark]) + (c + [BoldMark] + d + [BoldMark]) + [UnderlineMark]
      == [UnderlineMark] + ((a + [ItalicMark] + b + [ItalicMark]) + (c + [BoldMark] + d + [BoldMark])) + [UnderlineMark];
  }

  /** `_Fuck *this* whole **place!**_`. */
  lemma OverlappingExample()
    ensures StyledText("_" + "Fuck " + "*" + "this" + "*" + " whole " + "**" + "place!" + "**" + "_")
      == Styled([TextRun("Fuck ", {"Underline"}), TextRun("this", {"Italic", "Underline"}),
        TextRun(" whole ", {"Underline"}), TextRun("place!", {"Bold", "Underline"})])
  {
    var a, b, c, d := "Fuck ", "this", " whole ", "place!";
    assert Rep('*', 2) == "**";
    assert "_" == ['_'] && "*" == ['*'];
    assert ['_'] + a + ['*'] + b + ['*'] + c + Rep('*', 2) + d + Rep('*', 2) + ['_']
      == "_" + "Fuck " + "*" + "this" + "*" + " whole " + "**" + "place!" + "**" + "_";
    OverlappingText(a, b, c, d);
    assert RunIn("Fuck ", {"Underline"}) == [TextRun("Fuck ", {"Underline"})];
    assert {"Underline", "Italic"} == {"Italic", "Underline"};
    assert {"Underline", "Bold"} == {"Bold", "Underline"};
    assert [TextRun(a, {"Underline"})] + [TextRun(b, {"Underline", "Italic"})]
        + [TextRun(c, {"Underline"})] + [TextRun(d, {"Underline", "Bold"})]
      == [TextRun("Fuck ", {"Underline"}), TextRun("this", {"Italic", "Underline"}),
        TextRun(" whole ", {"Underline"}), TextRun("place!", {"Bold", "Underline"})];
  }
}
