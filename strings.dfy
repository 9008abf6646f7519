/**
  Strings as sequences of Unicode scalar values, and the part of Rust's `str`
  API that the screenplay parser relies on: trimming, prefix and suffix tests,
  joining, splitting on whitespace, ASCII case mapping and UTF-8 byte length.
 */
module Strings {

  type String = seq<char>

  /** Rust's `char::is_whitespace`, which is also the `regex` crate's `\s`:
      the Unicode White_Space property. */
  predicate IsWhitespace(c: char) {
    c == ' ' || '\t' <= c <= '\r' || c == '\U{0085}' || c == '\U{00A0}' || c == '\U{1680}'
    || '\U{2000}' <= c <= '\U{200A}' || c == '\U{2028}' || c == '\U{2029}'
    || c == '\U{202F}' || c == '\U{205F}' || c == '\U{3000}'
  }

  /** General category Cf ("format") as listed by Unicode 15.0. */
  predicate IsFormat(c: char) {
    c == '\U{00AD}' || '\U{0600}' <= c <= '\U{0605}' || c == '\U{061C}' || c == '\U{06DD}'
    || c == '\U{070F}' || '\U{0890}' <= c <= '\U{0891}' || c == '\U{08E2}' || c == '\U{180E}'
    || '\U{200B}' <= c <= '\U{200F}' || '\U{202A}' <= c <= '\U{202E}'
    || '\U{2060}' <= c <= '\U{2064}' || '\U{2066}' <= c <= '\U{206F}' || c == '\U{FEFF}'
    || '\U{FFF9}' <= c <= '\U{FFFB}' || c == '\U{110BD}' || c == '\U{110CD}'
    || '\U{13430}' <= c <= '\U{1343F}' || '\U{1BCA0}' <= c <= '\U{1BCA3}'
    || '\U{1D173}' <= c <= '\U{1D17A}' || c == '\U{E0001}' || '\U{E0020}' <= c <= '\U{E007F}'
  }

  /** Number of bytes of `c` in UTF-8, the unit of Rust's `str::len`. */
  function CharUtf8Len(c: char): nat {
    if c as int < 0x80 then 1 else if c as int < 0x800 then 2 else if c as int < 0x1_0000 then 3 else 4
  }

  function Utf8Len(s: String): nat {
    if s == [] then 0 else CharUtf8Len(s[0]) + Utf8Len(s[1..])
  }

  lemma {:induction false} Utf8LenAppend(a: String, b: String)
    ensures Utf8Len(a + b) == Utf8Len(a) + Utf8Len(b)
  {
    if a == [] {
      assert a + b == b;
    } else {
      assert (a + b)[0] == a[0] && (a + b)[1..] == a[1..] + b;
      Utf8LenAppend(a[1..], b);
    }
  }

  /** A slice is never longer, in bytes, than the string it is taken from. */
  lemma Utf8LenSlice(s: String, i: nat, j: nat)
    requires i <= j <= |s|
    ensures Utf8Len(s[i..j]) <= Utf8Len(s)
  {
    assert s == s[..i] + s[i..j] + s[j..];
    Utf8LenAppend(s[..i] + s[i..j], s[j..]);
    Utf8LenAppend(s[..i], s[i..j]);
  }

  predicate StartsWith(s: String, prefix: String) {
    |prefix| <= |s| && s[..|prefix|] == prefix
  }

  predicate EndsWith(s: String, suffix: String) {
    |suffix| <= |s| && s[|s| - |suffix|..] == suffix
  }

  /** `str::trim_start`. */
  function TrimStart(s: String): (r: String)
    ensures |r| <= |s|
    ensures r == [] || !IsWhitespace(r[0])
  {
    if s != [] && IsWhitespace(s[0]) then TrimStart(s[1..]) else s
  }

  /** What `TrimStart` removes is whitespace. */
  lemma {:induction false} TrimStartRemovesWhitespace(s: String)
    ensures forall i :: 0 <= i < |s| - |TrimStart(s)| ==> IsWhitespace(s[i])
  {
    if s != [] && IsWhitespace(s[0]) {
      TrimStartRemovesWhitespace(s[1..]);
    }
  }

  /** `str::trim_end`. */
  function TrimEnd(s: String): (r: String)
    ensures |r| <= |s|
    ensures r == [] || !IsWhitespace(r[|r| - 1])
  {
    if s != [] && IsWhitespace(s[|s| - 1]) then TrimEnd(s[..|s| - 1]) else s
  }

  /** What `TrimEnd` removes is whitespace. */
  lemma {:induction false} TrimEndRemovesWhitespace(s: String)
    ensures forall i :: |TrimEnd(s)| <= i < |s| ==> IsWhitespace(s[i])
  {
    if s != [] && IsWhitespace(s[|s| - 1]) {
      TrimEndRemovesWhitespace(s[..|s| - 1]);
    }
  }

  /** `str::trim`. */
  function Trim(s: String): String {
    TrimEnd(TrimStart(s))
  }

  /** `str::trim_start_matches` with a set of characters. */
  function TrimStartMatches(s: String, cs: set<char>): (r: String)
    ensures |r| <= |s|
    ensures r == [] || r[0] !in cs
  {
    if s != [] && s[0] in cs then TrimStartMatches(s[1..], cs) else s
  }

  /** `str::trim_end_matches` with a set of characters. */
  function TrimEndMatches(s: String, cs: set<char>): (r: String)
    ensures |r| <= |s|
    ensures r == [] || r[|r| - 1] !in cs
  {
    if s != [] && s[|s| - 1] in cs then TrimEndMatches(s[..|s| - 1], cs) else s
  }

  /** A prefix made of trimmed characters goes, the rest stays. */
  lemma {:induction false} TrimStartMatchesPrefix(pre: String, rest: String, cs: set<char>)
    requires forall k :: 0 <= k < |pre| ==> pre[k] in cs
    requires rest != [] && rest[0] !in cs
    ensures TrimStartMatches(pre + rest, cs) == rest
  {
    if pre == [] {
      assert pre + rest == rest;
    } else {
      assert (pre + rest)[1..] == pre[1..] + rest;
      TrimStartMatchesPrefix(pre[1..], rest, cs);
    }
  }

  /** A suffix made of trimmed characters goes, the rest stays. */
  lemma {:induction false} TrimEndMatchesSuffix(t: String, post: String, cs: set<char>)
    requires forall k :: 0 <= k < |post| ==> post[k] in cs
    requires t != [] && t[|t| - 1] !in cs
    ensures TrimEndMatches(t + post, cs) == t
    decreases |post|
  {
    if post == [] {
      assert t + post == t;
    } else {
      var p := post[..|post| - 1];
      assert (t + post)[..|t + post| - 1] == t + p;
      TrimEndMatchesSuffix(t, p, cs);
    }
  }

  /** Leading whitespace goes and the rest stays. */
  lemma {:induction false} TrimStartPrefix(ws: String, t: String)
    requires forall k :: 0 <= k < |ws| ==> IsWhitespace(ws[k])
    requires t == [] || !IsWhitespace(t[0])
    ensures TrimStart(ws + t) == t
  {
    if ws == [] {
      assert ws + t == t;
    } else {
      assert (ws + t)[1..] == ws[1..] + t;
      TrimStartPrefix(ws[1..], t);
    }
  }

  /** Trailing whitespace goes and the rest stays. */
  lemma {:induction false} TrimEndSuffix(t: String, ws: String)
    requires forall k :: 0 <= k < |ws| ==> IsWhitespace(ws[k])
    requires t == [] || !IsWhitespace(t[|t| - 1])
    ensures TrimEnd(t + ws) == t
    decreases |ws|
  {
    if ws == [] {
      assert t + ws == t;
    } else {
      var w := ws[..|ws| - 1];
      assert (t + ws)[..|t + ws| - 1] == t + w;
      TrimEndSuffix(t, w);
    }
  }

  /** A string with neither leading nor trailing whitespace is its own trim. */
  lemma Trimmed(t: String)
    requires t != [] && !IsWhitespace(t[0]) && !IsWhitespace(t[|t| - 1])
    ensures Trim(t) == t
  {
  }

  /** Every ASCII character is one byte. */
  lemma {:induction false} AsciiUtf8Len(s: String)
    requires forall k :: 0 <= k < |s| ==> s[k] as int < 0x80
    ensures Utf8Len(s) == |s|
  {
    if s != [] {
      AsciiUtf8Len(s[1..]);
    }
  }

  /** Each trim keeps a contiguous part of its input: a suffix for the
      start trims, a prefix for the end trims. */
  lemma {:induction false} TrimStartSlice(s: String)
    ensures TrimStart(s) == s[|s| - |TrimStart(s)|..]
  {
    if s != [] && IsWhitespace(s[0]) {
      TrimStartSlice(s[1..]);
    }
  }

  lemma {:induction false} TrimEndSlice(s: String)
    ensures TrimEnd(s) == s[..|TrimEnd(s)|]
  {
    if s != [] && IsWhitespace(s[|s| - 1]) {
      TrimEndSlice(s[..|s| - 1]);
    }
  }

  lemma {:induction false} TrimStartMatchesSlice(s: String, cs: set<char>)
    ensures TrimStartMatches(s, cs) == s[|s| - |TrimStartMatches(s, cs)|..]
  {
    if s != [] && s[0] in cs {
      TrimStartMatchesSlice(s[1..], cs);
    }
  }

  lemma {:induction false} TrimEndMatchesSlice(s: String, cs: set<char>)
    ensures TrimEndMatches(s, cs) == s[..|TrimEndMatches(s, cs)|]
  {
    if s != [] && s[|s| - 1] in cs {
      TrimEndMatchesSlice(s[..|s| - 1], cs);
    }
  }

  /** `str::trim_matches` with a set of characters. */
  function TrimMatches(s: String, cs: set<char>): String {
    TrimEndMatches(TrimStartMatches(s, cs), cs)
  }

  /** Trimming leaves a contiguous slice of the original. */
  lemma TrimIsSlice(s: String) returns (i: nat, j: nat)
    ensures i <= j <= |s| && Trim(s) == s[i..j]
  {
    var t := TrimStart(s);
    i := |s| - |t|;
    j := i + |TrimEnd(t)|;
    TrimStartSlice(s);
    TrimEndSlice(t);
  }

  function UpperChar(c: char): char {
    if 'a' <= c <= 'z' then (c as int - 32) as char else c
  }

  function LowerChar(c: char): char {
    if 'A' <= c <= 'Z' then (c as int + 32) as char else c
  }

  /** `str::to_uppercase`, restricted to ASCII letters. */
  function Upper(s: String): String {
    seq(|s|, i requires 0 <= i < |s| => UpperChar(s[i]))
  }

  /** `str::to_lowercase`, restricted to ASCII letters. */
  function Lower(s: String): String {
    seq(|s|, i requires 0 <= i < |s| => LowerChar(s[i]))
  }

  /** `[T]::join` of strings with a separator. */
  function Join(sep: String, xs: seq<String>): String {
    if xs == [] then []
    else if |xs| == 1 then xs[0]
    else xs[0] + sep + Join(sep, xs[1..])
  }

  lemma JoinSnoc(sep: String, xs: seq<String>, x: String)
    requires xs != []
    ensures Join(sep, xs + [x]) == Join(sep, xs) + sep + x
  {
    if |xs| > 1 {
      assert (xs + [x])[1..] == xs[1..] + [x];
      JoinSnoc(sep, xs[1..], x);
    }
  }

  /** Index of the first occurrence of `c` at or after `from`, or `|s|`. */
  function IndexFrom(s: String, from: nat, c: char): (k: nat)
    requires from <= |s|
    ensures from <= k <= |s|
    ensures forall j :: from <= j < k ==> s[j] != c
    ensures k < |s| ==> s[k] == c
    decreases |s| - from
  {
    if from == |s| || s[from] == c then from else IndexFrom(s, from + 1, c)
  }

  /** The non-whitespace prefix of `s`. */
  function WordPrefix(s: String): (w: String)
    ensures |w| <= |s| && w == s[..|w|]
    ensures forall i :: 0 <= i < |w| ==> !IsWhitespace(w[i])
    ensures |w| == |s| || IsWhitespace(s[|w|])
  {
    if s == [] || IsWhitespace(s[0]) then [] else [s[0]] + WordPrefix(s[1..])
  }

  predicate IsWord(w: String) {
    w != [] && forall i :: 0 <= i < |w| ==> !IsWhitespace(w[i])
  }

  /** `str::split_whitespace`: the maximal runs of non-whitespace characters, in order. */
  function Words(s: String): (ws: seq<String>)
    ensures forall w :: w in ws ==> IsWord(w)
    decreases |s|
  {
    var t := TrimStart(s);
    if t == [] then []
    else
      var w := WordPrefix(t);
      assert |w| > 0 by { assert !IsWhitespace(t[0]); }
      [w] + Words(t[|w|..])
  }
}
