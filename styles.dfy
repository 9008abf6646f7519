/**
  Inline emphasis (`text_style_parser.rs`). Four regular-expression passes
  replace `***x***`, `**x**`, `*x*` and `_x_` by the text between two marker
  characters (one marker per emphasis), escaped `\*` and `\_` lose their
  backslash, and a walk over the characters then cuts the text into runs,
  each marker closing the current run and switching its styles on or off.
 */
module Styles {
  import opened Strings
  import opened Wrappers
  import opened Types

  const BoldItalicMark: char := '\U{23CB}'
  const BoldMark: char := '\U{23BF}'
  const ItalicMark: char := '\U{23C9}'
  const UnderlineMark: char := '\U{23CA}'

  predicate IsMarker(c: char) {
    c == BoldItalicMark || c == BoldMark || c == ItalicMark || c == UnderlineMark
  }

  /** The two emphasis delimiters. */
  predicate Delimiter(d: char) {
    d == '*' || d == '_'
  }

  /** `s[i..i + n]` is `n` copies of `d`. */
  predicate Delims(s: String, i: nat, n: nat, d: char) {
    i + n <= |s| && forall k :: i <= k < i + n ==> s[k] == d
  }

  /** `d{n}([^d\n]*[^ \\])d{n}` matches `s[i..e + n]`, with group `s[i + n..e]`. */
  predicate IsSpan(s: String, i: nat, e: nat, n: nat, d: char) {
    && i + n < e && Delims(s, i, n, d) && Delims(s, e, n, d)
    && (forall k :: i + n <= k < e - 1 ==> s[k] != d && s[k] != '\n')
    && s[e - 1] != ' ' && s[e - 1] != '\\'
  }

  /** The first index at or after `i` holding `d` or a line feed, or `|s|`. */
  function StopAt(s: String, i: nat, d: char): (q: nat)
    requires i <= |s|
    ensures i <= q <= |s|
    ensures forall k :: i <= k < q ==> s[k] != d && s[k] != '\n'
    ensures q < |s| ==> s[q] == d || s[q] == '\n'
    decreases |s| - i
  {
    if i == |s| || s[i] == d || s[i] == '\n' then i else StopAt(s, i + 1, d)
  }

  /** Where the group of the match at `i` ends: the greedy `[^d\n]*` runs to
      the first `d` or line feed, and gives back one character only when the
      closing delimiters do not follow it; the longest span wins. */
  function SpanEnd(s: String, i: nat, n: nat, d: char): (r: Option<nat>)
    requires i <= |s| && n >= 1
    ensures r.Some? ==> IsSpan(s, i, r.value, n, d)
  {
    if !Delims(s, i, n, d) then None
    else
      var q := StopAt(s, i + n, d);
      if q < |s| && s[q] != ' ' && s[q] != '\\' && Delims(s, q + 1, n, d) then Some(q + 1)
      else if q > i + n && s[q - 1] != ' ' && s[q - 1] != '\\' && Delims(s, q, n, d) then Some(q)
      else None
  }

  /** A span opening at `i` closes at the first delimiter or line feed after
      its opening delimiters, or one character past it. */
  lemma SpanEndCases(s: String, i: nat, n: nat, d: char)
    requires Delims(s, i, n, d) && n >= 1
    ensures forall e: nat :: IsSpan(s, i, e, n, d) ==> e == StopAt(s, i + n, d) || e == StopAt(s, i + n, d) + 1
  {
    var q := StopAt(s, i + n, d);
    forall e: nat | IsSpan(s, i, e, n, d)
      ensures e == q || e == q + 1
    {
      if q < |s| {
        assert s[q] == d || s[q] == '\n';
      }
      assert s[e] == d;
    }
  }

  /** The match is the longest span opening at `i`. */
  lemma SpanEndLongest(s: String, i: nat, n: nat, d: char)
    requires i <= |s| && n >= 1
    ensures forall e: nat :: IsSpan(s, i, e, n, d) ==> SpanEnd(s, i, n, d).Some? && e <= SpanEnd(s, i, n, d).value
  {
    if Delims(s, i, n, d) {
      SpanEndCases(s, i, n, d);
    }
  }

  /** A match found at a position `p`: the text from `p` to `keep` stays, the
      group `start..stop` goes between two markers, and scanning resumes at
      `next`, the end of the match. */
  datatype Hit = Hit(keep: nat, start: nat, stop: nat, next: nat)

  predicate Fits(s: String, p: nat, h: Hit) {
    p <= h.keep <= h.start <= h.stop <= h.next <= |s| && p < h.next
  }

  /** A regular expression, as the match it finds at each position, if any. */
  type Matcher = (String, nat) -> Option<Hit>

  /** Every match a matcher finds lies inside the text, after its position. */
  ghost predicate Sound(at: Matcher) {
    forall s: String, p: nat :: p < |s| && at(s, p).Some? ==> Fits(s, p, at(s, p).value)
  }

  /** `Regex::replace_all` from `p`: where a match is found its group goes
      between two `m` and scanning resumes after it, anywhere else one
      character is copied. */
  function ReplaceAll(s: String, p: nat, at: Matcher, m: char): String
    requires p <= |s| && Sound(at)
    decreases |s| - p
  {
    if p == |s| then []
    else match at(s, p)
      case Some(h) => s[p..h.keep] + [m] + s[h.start..h.stop] + [m] + ReplaceAll(s, h.next, at, m)
      case None => [s[p]] + ReplaceAll(s, p + 1, at, m)
  }

  /** The match of `d{n}([^d\n]*[^ \\])d{n}` at `p`. */
  function SpanHit(s: String, p: nat, n: nat, d: char): Option<Hit> {
    if p < |s| && n >= 1 then
      match SpanEnd(s, p, n, d)
      case Some(e) => Some(Hit(p, p + n, e, e + n))
      case None => None
    else None
  }

  /** The match of `(^|[^\\])d([^d\n]*[^ \\])d` at `p`: at the very start the
      delimiter may open the text, anywhere else it needs a character other
      than a backslash before it, which stays. */
  function PrefixedHit(s: String, p: nat, d: char): Option<Hit> {
    if p < |s| then
      if p == 0 && SpanEnd(s, 0, 1, d).Some? then
        var e := SpanEnd(s, 0, 1, d).value;
        Some(Hit(0, 1, e, e + 1))
      else if s[p] != '\\' && SpanEnd(s, p + 1, 1, d).Some? then
        var e := SpanEnd(s, p + 1, 1, d).value;
        Some(Hit(p + 1, p + 2, e, e + 1))
      else None
    else None
  }

  function Spans(n: nat, d: char): (at: Matcher)
    ensures Sound(at)
  {
    (s: String, p: nat) => SpanHit(s, p, n, d)
  }

  function PrefixedSpans(d: char): (at: Matcher)
    ensures Sound(at)
  {
    (s: String, p: nat) => PrefixedHit(s, p, d)
  }

  /** `str::replace` of a backslash and `d` by `d`. */
  function Unescape(s: String, d: char): String
    decreases |s|
  {
    if s == [] then []
    else if |s| >= 2 && s[0] == '\\' && s[1] == d then [d] + Unescape(s[2..], d)
    else [s[0]] + Unescape(s[1..], d)
  }

  /** The text after the four emphasis passes and the two unescapes. */
  function Prepare(txt: String): String {
    var boldItalic := ReplaceAll(txt, 0, Spans(3, '*'), BoldItalicMark);
    var bold := ReplaceAll(boldItalic, 0, Spans(2, '*'), BoldMark);
    var italic := ReplaceAll(bold, 0, PrefixedSpans('*'), ItalicMark);
    var underline := ReplaceAll(italic, 0, PrefixedSpans('_'), UnderlineMark);
    Unescape(Unescape(underline, '*'), '_')
  }

  /** The styles a marker switches. */
  function MarkerStyles(c: char): set<String>
    requires IsMarker(c)
  {
    if c == BoldItalicMark then {"Bold", "Italic"}
    else if c == BoldMark then {"Bold"}
    else if c == ItalicMark then {"Italic"}
    else {"Underline"}
  }

  /** The walk's state: the finished runs, the text of the open run, its styles. */
  datatype Walker = Walker(runs: seq<TextRun>, current: String, styles: set<String>)

  const Start: Walker := Walker([], [], {})

  /** The finished runs, and the open run when it holds text. */
  function Flush(w: Walker): seq<TextRun> {
    if w.current == [] then w.runs else w.runs + [TextRun(w.current, w.styles)]
  }

  /** One character of the walk: a marker closes the open run and switches its
      styles off when all are on, on otherwise; anything else is text. */
  function StepChar(w: Walker, c: char): Walker {
    if IsMarker(c) then
      var ms := MarkerStyles(c);
      Walker(Flush(w), [], if ms <= w.styles then w.styles - ms else w.styles + ms)
    else Walker(w.runs, w.current + [c], w.styles)
  }

  function WalkFrom(w: Walker, s: String): Walker
    decreases |s|
  {
    if s == [] then w else StepChar(WalkFrom(w, s[..|s| - 1]), s[|s| - 1])
  }

  /** The runs of a prepared text. */
  function Runs(s: String): seq<TextRun> {
    Flush(WalkFrom(Start, s))
  }

  /** `create_styled_from_string`. */
  function StyledText(txt: String): ElementText {
    Styled(Runs(Prepare(txt)))
  }

  /** `create_styled_from_string`: the passes, then the walk over the characters. */
  method CreateStyledFromString(txt: String) returns (r: ElementText)
    ensures r == StyledText(txt)
  {
    var prepared := Prepare(txt);
    var runs: seq<TextRun> := [];
    var currentText: String := [];
    var currentStyles: set<String> := {};
    for i := 0 to |prepared|
      invariant Walker(runs, currentText, currentStyles) == WalkFrom(Start, prepared[..i])
    {
      var c := prepared[i];
      assert prepared[..i + 1][..i] == prepared[..i];
      if IsMarker(c) {
        var ms := MarkerStyles(c);
        if currentText != [] {
          runs := runs + [TextRun(currentText, currentStyles)];
        }
        currentText := [];
        if ms <= currentStyles {
          currentStyles := currentStyles - ms;
        } else {
          currentStyles := currentStyles + ms;
        }
      } else {
        currentText := currentText + [c];
      }
    }
    assert prepared[..|prepared|] == prepared;
    if currentText != [] {
      runs := runs + [TextRun(currentText, currentStyles)];
    }
    r := Styled(runs);
  }

  /** `convert_plain_to_styled`; other text is unreachable there. */
  method ConvertPlainToStyled(plain: ElementText) returns (r: ElementText)
    requires plain.Plain?
    ensures r == StyledText(plain.text)
  {
    r := CreateStyledFromString(plain.text);
  }

  /** `Element::parse_and_convert_markup`; elements other than an action are unreachable there. */
  method ParseAndConvertMarkup(e: Element) returns (r: Element)
    requires e.Action? && e.text.Plain?
    ensures r == Action(StyledText(e.text.text), e.attributes)
  {
    var styled := ConvertPlainToStyled(e.text);
    r := Action(styled, e.attributes);
  }

  // ---- The walk ----

  /** The text with its markers taken out. */
  function Unmarked(s: String): (r: String)
    ensures |r| <= |s|
    decreases |s|
  {
    if s == [] then []
    else Unmarked(s[..|s| - 1]) + (if IsMarker(s[|s| - 1]) then [] else [s[|s| - 1]])
  }

  function Contents(runs: seq<TextRun>): String {
    if runs == [] then [] else Contents(runs[..|runs| - 1]) + runs[|runs| - 1].content
  }

  const KnownStyles: set<String> := {"Bold", "Italic", "Underline"}

  /** What the walk keeps true: runs are never empty, their styles are known
      ones, and the runs then the open run spell the text read so far. */
  predicate WalkInvariant(w: Walker, read: String) {
    && (forall k :: 0 <= k < |w.runs| ==> w.runs[k].content != [] && w.runs[k].textStyle <= KnownStyles)
    && w.styles <= KnownStyles
    && Contents(w.runs) + w.current == Unmarked(read)
  }

  lemma FlushInvariant(w: Walker, read: String)
    requires WalkInvariant(w, read)
    ensures var f := Flush(w);
      (forall k :: 0 <= k < |f| ==> f[k].content != [] && f[k].textStyle <= KnownStyles)
      && Contents(f) == Unmarked(read)
  {
    var f := Flush(w);
    if w.current != [] {
      assert f[..|f| - 1] == w.runs;
    } else {
      assert Contents(w.runs) + [] == Contents(w.runs);
    }
  }

  lemma {:induction false} WalkKeeps(s: String)
    ensures WalkInvariant(WalkFrom(Start, s), s)
    decreases |s|
  {
    if s != [] {
      var init := s[..|s| - 1];
      var c := s[|s| - 1];
      var w := WalkFrom(Start, init);
      WalkKeeps(init);
      if IsMarker(c) {
        FlushInvariant(w, init);
        assert Contents(Flush(w)) + [] == Contents(Flush(w));
      } else {
        assert Contents(w.runs) + (w.current + [c]) == (Contents(w.runs) + w.current) + [c];
      }
    }
  }

  /** Every run holds text and carries only `Bold`, `Italic` and `Underline`,
      and the runs together spell the text without its markers. */
  lemma RunsCoverText(s: String)
    ensures forall k :: 0 <= k < |Runs(s)| ==> Runs(s)[k].content != [] && Runs(s)[k].textStyle <= KnownStyles
    ensures Contents(Runs(s)) == Unmarked(s)
  {
    WalkKeeps(s);
    FlushInvariant(WalkFrom(Start, s), s);
  }

  /** Walking in two parts is walking the whole. */
  lemma {:induction false} WalkAppend(w: Walker, a: String, b: String)
    ensures WalkFrom(w, a + b) == WalkFrom(WalkFrom(w, a), b)
    decreases |b|
  {
    if b == [] {
      assert a + b == a;
    } else {
      assert (a + b)[..|a + b| - 1] == a + b[..|b| - 1];
      WalkAppend(w, a, b[..|b| - 1]);
    }
  }

  predicate NoMarkers(t: String) {
    forall k :: 0 <= k < |t| ==> !IsMarker(t[k])
  }

  /** Text without markers only extends the open run. */
  lemma {:induction false} WalkText(w: Walker, t: String)
    requires NoMarkers(t)
    ensures WalkFrom(w, t) == Walker(w.runs, w.current + t, w.styles)
    decreases |t|
  {
    if t == [] {
      assert w.current + t == w.current;
    } else {
      WalkText(w, t[..|t| - 1]);
      assert w.current + t[..|t| - 1] + [t[|t| - 1]] == w.current + t;
    }
  }

  /** Text without markers is one unstyled run, or none when empty. */
  lemma PlainRuns(t: String)
    requires NoMarkers(t)
    ensures Runs(t) == if t == [] then [] else [TextRun(t, {})]
  {
    WalkText(Start, t);
    assert [] + t == t;
  }

  /** Text without markers, then a marker. */
  lemma TextThenMark(w: Walker, t: String, m: char)
    requires NoMarkers(t) && IsMarker(m)
    ensures WalkFrom(w, t + [m]) == StepChar(Walker(w.runs, w.current + t, w.styles), m)
  {
    assert (t + [m])[..|t|] == t;
    WalkText(w, t);
  }

  /** The run a piece of unstyled text makes: none when it is empty. */
  function Piece(t: String): seq<TextRun> {
    if t == [] then [] else [TextRun(t, {})]
  }

  /** Text, then a marker: the text is a run, and the marker's styles are on. */
  lemma OpenMark(a: String, m: char)
    requires NoMarkers(a) && IsMarker(m)
    ensures WalkFrom(Start, a + [m]) == Walker(Piece(a), [], MarkerStyles(m))
  {
    var ms := MarkerStyles(m);
    TextThenMark(Start, a, m);
    assert [] + a == a && !(ms <= {}) && {} + ms == ms;
  }

  /** With a marker's styles on, text, then that marker: the text is a run
      in those styles, and they are off again. */
  lemma CloseMark(runs: seq<TextRun>, b: String, m: char)
    requires NoMarkers(b) && IsMarker(m) && b != []
    ensures WalkFrom(Walker(runs, [], MarkerStyles(m)), b + [m]) == Walker(runs + [TextRun(b, MarkerStyles(m))], [], {})
  {
    var ms := MarkerStyles(m);
    TextThenMark(Walker(runs, [], ms), b, m);
    assert [] + b == b;
    assert ms <= ms && ms - ms == {};
  }

  /** Text, a marker, text, the same marker: the second text is a styled run. */
  lemma MarkedPair(a: String, b: String, m: char)
    requires NoMarkers(a) && NoMarkers(b) && IsMarker(m) && b != []
    ensures WalkFrom(Start, a + [m] + b + [m]) == Walker(Piece(a) + [TextRun(b, MarkerStyles(m))], [], {})
  {
    OpenMark(a, m);
    CloseMark(Piece(a), b, m);
    WalkAppend(Start, a + [m], b + [m]);
    Regroup(a, m, b);
  }

  lemma Regroup<T>(a: seq<T>, m: T, b: seq<T>)
    ensures a + [m] + b + [m] == (a + [m]) + (b + [m])
  {
  }

  /** Text, a marker, text, the same marker, text: the text between the
      markers is one run in the marker's styles, the text around it unstyled
      runs when there is any. */
  lemma MarkedRuns(a: String, b: String, c: String, m: char)
    requires NoMarkers(a) && NoMarkers(b) && NoMarkers(c) && IsMarker(m) && b != []
    ensures Runs(a + [m] + b + [m] + c) == Piece(a) + [TextRun(b, MarkerStyles(m))] + Piece(c)
  {
    var x := a + [m] + b + [m];
    var runs := Piece(a) + [TextRun(b, MarkerStyles(m))];
    MarkedPair(a, b, m);
    WalkAppend(Start, x, c);
    WalkText(Walker(runs, [], {}), c);
    assert [] + c == c && runs + [] == runs;
  }

  /** The run a piece of text makes in the given styles: none when it is empty. */
  function RunIn(t: String, styles: set<String>): seq<TextRun> {
    if t == [] then [] else [TextRun(t, styles)]
  }

  /** Inside text styled `outer`: text, then a marker whose styles are all
      off, text, the same marker. The first text is a run in `outer`, the
      second a run in the union of `outer` and the marker's styles, and only
      `outer` is on again afterwards: overlapping emphasis combines. */
  lemma InnerSpan(runs: seq<TextRun>, outer: set<String>, a: String, b: String, m: char)
    requires NoMarkers(a) && NoMarkers(b) && IsMarker(m) && b != [] && MarkerStyles(m) !! outer
    ensures WalkFrom(Walker(runs, [], outer), a + [m] + b + [m])
      == Walker(runs + RunIn(a, outer) + [TextRun(b, outer + MarkerStyles(m))], [], outer)
  {
    var ms := MarkerStyles(m);
    var w := Walker(runs, [], outer);
    var w1 := Walker(runs + RunIn(a, outer), [], outer + ms);
    TextThenMark(w, a, m);
    assert [] + a == a && runs + [] == runs;
    assert !(ms <= outer) by {
      assert "Bold" in ms || "Italic" in ms || "Underline" in ms;
    }
    assert WalkFrom(w, a + [m]) == w1;
    TextThenMark(w1, b, m);
    assert [] + b == b;
    assert ms <= outer + ms && (outer + ms) - ms == outer;
    WalkAppend(w, a + [m], b + [m]);
    Regroup(a, m, b);
  }

  /** With a marker's styles on and no text open, that marker, then text:
      the styles are off and the text is open. */
  lemma CloseThenText(runs: seq<TextRun>, c: String, m: char)
    requires NoMarkers(c) && IsMarker(m)
    ensures WalkFrom(Walker(runs, [], MarkerStyles(m)), [m] + c) == Walker(runs, c, {})
  {
    var ms := MarkerStyles(m);
    var w := Walker(runs, [], ms);
    assert [m][..0] == [];
    assert WalkFrom(w, [m]) == Walker(runs, [], {});
    WalkAppend(w, [m], c);
    WalkText(Walker(runs, [], {}), c);
    assert [] + c == c;
  }

  /** Text, an outer marker, an inner marker, text, the inner marker, the
      outer marker, text: the text in the middle is one run in both markers'
      styles together. */
  lemma NestedRuns(a: String, b: String, c: String, outer: char, inner: char)
    requires NoMarkers(a) && NoMarkers(b) && NoMarkers(c) && b != []
    requires IsMarker(outer) && IsMarker(inner) && MarkerStyles(inner) !! MarkerStyles(outer)
    ensures Runs(a + [outer] + [inner] + b + [inner] + [outer] + c)
      == Piece(a) + [TextRun(b, MarkerStyles(outer) + MarkerStyles(inner))] + Piece(c)
  {
    var so := MarkerStyles(outer);
    var runs := Piece(a) + [TextRun(b, so + MarkerStyles(inner))];
    OpenMark(a, outer);
    InnerSpan(Piece(a), so, [], b, inner);
    assert Piece(a) + RunIn([], so) == Piece(a);
    assert [] + [inner] + b + [inner] == [inner] + b + [inner];
    CloseThenText(runs, c, outer);
    assert a + [outer] + [inner] + b + [inner] + [outer] + c
      == (a + [outer]) + ([inner] + b + [inner]) + ([outer] + c);
    WalkAppend(Start, a + [outer], [inner] + b + [inner]);
    WalkAppend(Start, (a + [outer]) + ([inner] + b + [inner]), [outer] + c);
    assert runs + [] == runs;
  }

  /** An outer marker around text, a first inner span, text and a second
      inner span: every piece carries the outer styles, the inner spans
      their own as well. */
  lemma OverlapRuns(a: String, b: String, c: String, d: String, outer: char, m1: char, m2: char)
    requires NoMarkers(a) && NoMarkers(b) && NoMarkers(c) && NoMarkers(d) && b != [] && d != []
    requires IsMarker(outer) && IsMarker(m1) && IsMarker(m2)
    requires MarkerStyles(m1) !! MarkerStyles(outer) && MarkerStyles(m2) !! MarkerStyles(outer)
    ensures var so := MarkerStyles(outer);
      Runs([outer] + (a + [m1] + b + [m1]) + (c + [m2] + d + [m2]) + [outer])
      == RunIn(a, so) + [TextRun(b, so + MarkerStyles(m1))] + RunIn(c, so) + [TextRun(d, so + MarkerStyles(m2))]
  {
    var so := MarkerStyles(outer);
    var x, y := a + [m1] + b + [m1], c + [m2] + d + [m2];
    var r1 := RunIn(a, so) + [TextRun(b, so + MarkerStyles(m1))];
    var r2 := r1 + RunIn(c, so) + [TextRun(d, so + MarkerStyles(m2))];
    OpenMark([], outer);
    assert [] + [outer] == [outer];
    InnerSpan([], so, a, b, m1);
    assert [] + RunIn(a, so) == RunIn(a, so);
    InnerSpan(r1, so, c, d, m2);
    CloseThenText(r2, [], outer);
    assert [outer] + [] == [outer];
    WalkAppend(Start, [outer], x);
    WalkAppend(Start, [outer] + x, y);
    WalkAppend(Start, [outer] + x + y, [outer]);
  }
}
