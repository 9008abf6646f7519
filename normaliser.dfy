/**
  The normaliser that runs before anything else is parsed (`prepare_text`).
  Trailing whitespace of the whole document is trimmed first; then, scanning
  left to right as a regex `replace_all` does, every boneyard `/* ... */` whose
  body holds no `*` and every format (Cf) character is deleted.
 */
module Normaliser {
  import opened Strings
  import opened Wrappers

  /** `s[..n]` is a boneyard: `/*`, a body without `*`, then `*/`. */
  predicate IsBoneyard(s: String, n: nat) {
    4 <= n <= |s| && s[0] == '/' && s[1] == '*' && s[n - 2] == '*' && s[n - 1] == '/'
    && forall j :: 2 <= j < n - 2 ==> s[j] != '*'
  }

  /** Length of the boneyard at the start of `s`, if there is one; there is at most one. */
  function BoneyardLen(s: String): (r: Option<nat>)
    ensures r.Some? ==> IsBoneyard(s, r.value)
    ensures forall n: nat :: IsBoneyard(s, n) ==> r == Some(n)
  {
    if 2 <= |s| && s[0] == '/' && s[1] == '*' then
      var k := IndexFrom(s, 2, '*');
      if k + 1 < |s| && s[k + 1] == '/' then Some(k + 2) else None
    else None
  }

  /** The left-to-right deletion of boneyards and Cf characters. */
  function Scrub(s: String): (r: String)
    ensures |r| <= |s|
    decreases |s|
  {
    if s == [] then []
    else match BoneyardLen(s)
      case Some(n) => Scrub(s[n..])
      case None => (if IsFormat(s[0]) then [] else [s[0]]) + Scrub(s[1..])
  }

  /** `prepare_text`: trim the end, then scrub. */
  function PrepareText(text: String): (r: String)
    ensures |r| <= |text|
    ensures forall k :: 0 <= k < |r| ==> !IsFormat(r[k])
  {
    ScrubHasNoFormat(TrimEnd(text));
    Scrub(TrimEnd(text))
  }

  /** No format character survives the scan. */
  lemma {:induction false} ScrubHasNoFormat(s: String)
    ensures forall k :: 0 <= k < |Scrub(s)| ==> !IsFormat(Scrub(s)[k])
    decreases |s|
  {
    if s != [] {
      match BoneyardLen(s) {
        case Some(n) => ScrubHasNoFormat(s[n..]);
        case None => ScrubHasNoFormat(s[1..]);
      }
    }
  }

  /** No format character can open a boneyard. */
  lemma FormatIsNotSlash(c: char)
    requires IsFormat(c)
    ensures c != '/'
  {
  }

  /** A character that cannot open a boneyard is kept or dropped on its own. */
  lemma ScrubCons(c: char, y: String)
    requires c != '/'
    ensures Scrub([c] + y) == (if IsFormat(c) then [] else [c]) + Scrub(y)
  {
    assert ([c] + y)[1..] == y;
  }

  /** A format character is dropped, whatever follows it. */
  lemma ScrubDropsFormat(z: char, y: String)
    requires IsFormat(z)
    ensures Scrub([z] + y) == Scrub(y)
  {
    FormatIsNotSlash(z);
    ScrubCons(z, y);
  }

  /** Text without `/` and without Cf characters passes through unchanged. */
  lemma {:induction false} ScrubPlain(x: String, y: String)
    requires Inert(x)
    ensures Scrub(x + y) == x + Scrub(y)
  {
    if x == [] {
      assert x + y == y;
    } else {
      assert x + y == [x[0]] + (x[1..] + y);
      ScrubCons(x[0], x[1..] + y);
      ScrubPlain(x[1..], y);
      calc {
        Scrub(x + y);
        [x[0]] + Scrub(x[1..] + y);
        [x[0]] + (x[1..] + Scrub(y));
        { assert x == [x[0]] + x[1..]; }
        x + Scrub(y);
      }
    }
  }

  /** A whole boneyard at the front is deleted, whatever follows it. */
  lemma ScrubBoneyard(x: String, y: String)
    requires IsBoneyard(x, |x|)
    ensures Scrub(x + y) == Scrub(y)
  {
    assert IsBoneyard(x + y, |x|);
    assert (x + y)[|x|..] == y;
  }

  /** The trailing whitespace is trimmed before the deletions, so deleting a
      final Cf character can leave whitespace behind: normalising twice is not
      the same as normalising once. */
  lemma PrepareTextNotIdempotent()
    ensures PrepareText("a \U{200B}") == "a "
    ensures PrepareText("a ") == "a"
  {
    assert TrimEnd("a \U{200B}") == "a \U{200B}";
    ScrubPlain("a ", "\U{200B}");
    ScrubCons('\U{200B}', []);
    assert "a " + [] == "a ";
    assert TrimEnd("a ") == TrimEnd("a");
    assert TrimEnd("a") == "a";
    ScrubPlain("a", []);
    assert "a" + [] == "a";
  }

  /** A stretch without Cf characters, at none of whose positions a boneyard
      starts, is kept as it stands in front of the scrubbed rest. */
  lemma {:induction false} ScrubKeeps(x: String, y: String)
    requires forall k :: 0 <= k < |x| ==> BoneyardLen((x + y)[k..]) == None && !IsFormat(x[k])
    ensures Scrub(x + y) == x + Scrub(y)
  {
    if x == [] {
      assert x + y == y;
    } else {
      var s := x + y;
      assert s[0..] == s;
      assert s[0] == x[0] && s[1..] == x[1..] + y;
      ScrubStep(s);
      forall k | 0 <= k < |x| - 1
        ensures BoneyardLen((x[1..] + y)[k..]) == None && !IsFormat(x[1..][k])
      {
        assert (x[1..] + y)[k..] == s[k + 1..];
      }
      ScrubKeeps(x[1..], y);
      assert x == [x[0]] + x[1..];
    }
  }

  /** Where no boneyard starts, an ordinary first character is kept. */
  lemma ScrubStep(s: String)
    requires s != [] && BoneyardLen(s) == None && !IsFormat(s[0])
    ensures Scrub(s) == [s[0]] + Scrub(s[1..])
  {
  }

  /** On any document: the first boneyard of the end-trimmed text is deleted,
      the text before it is kept, and the scan goes on after it. */
  lemma PrepareTextFirstBoneyard(text: String, x: String, b: String, y: String)
    requires TrimEnd(text) == x + (b + y)
    requires forall k :: 0 <= k < |x| ==> BoneyardLen((x + (b + y))[k..]) == None && !IsFormat(x[k])
    requires IsBoneyard(b, |b|)
    ensures PrepareText(text) == x + Scrub(y)
  {
    ScrubKeeps(x, b + y);
    ScrubBoneyard(b, y);
  }

  /** On any document: when no boneyard starts anywhere in the end-trimmed text
      and it holds no Cf character, it is the prepared text. */
  lemma PrepareTextKeeps(text: String)
    requires forall k :: 0 <= k < |TrimEnd(text)| ==> BoneyardLen(TrimEnd(text)[k..]) == None && !IsFormat(TrimEnd(text)[k])
    ensures PrepareText(text) == TrimEnd(text)
  {
    var t := TrimEnd(text);
    assert t + [] == t;
    ScrubKeeps(t, []);
  }

  /** A slash that opens no comment stays; the comment after it goes, and the
      blank before the comment stays because trimming came first. */
  lemma PrepareTextSlashExample(text: String)
    requires text == "1/2 /* x */"
    ensures PrepareText(text) == "1/2 "
  {
    assert TrimEnd(text) == text;
    var x, b := "1/2 ", "/* x */";
    assert text == x + (b + []);
    forall k | 0 <= k < |x|
      ensures BoneyardLen((x + (b + []))[k..]) == None && !IsFormat(x[k])
    {
      assert (x + (b + []))[k..][1] != '*';
    }
    PrepareTextFirstBoneyard(text, x, b, []);
  }

  /** A comment with a star inside is not a boneyard: the text is kept whole. */
  lemma PrepareTextStarInsideExample(text: String)
    requires text == "/* a * b */"
    ensures PrepareText(text) == text
  {
    assert TrimEnd(text) == text;
    assert text[2] != '*' && text[3] != '*' && text[4] != '*' && text[5] == '*';
    assert IndexFrom(text, 2, '*') == 5;
    forall k | 0 <= k < |text|
      ensures BoneyardLen(text[k..]) == None && !IsFormat(text[k])
    {
      if k == 0 {
        assert text[0..] == text;
      }
    }
    PrepareTextKeeps(text);
  }

  /** Text that can neither open a boneyard nor be a format character. */
  predicate Inert(x: String) {
    forall k :: 0 <= k < |x| ==> x[k] != '/' && !IsFormat(x[k])
  }

  /** Format characters between inert stretches of text disappear. */
  lemma DropsFormatBetween(a: String, b: String, c: String, z1: char, z2: char, z3: char)
    requires Inert(a) && Inert(b) && Inert(c) && IsFormat(z1) && IsFormat(z2) && IsFormat(z3)
    ensures Scrub(a + ([z1] + (b + ([z2] + ([z3] + c))))) == a + (b + c)
  {
    ScrubPlain(c, []);
    assert c + [] == c;
    ScrubDropsFormat(z3, c);
    ScrubDropsFormat(z2, [z3] + c);
    ScrubPlain(b, [z2] + ([z3] + c));
    ScrubDropsFormat(z1, b + ([z2] + ([z3] + c)));
    ScrubPlain(a, [z1] + (b + ([z2] + ([z3] + c))));
  }

  /** Boneyards around inert text disappear, the text stays. */
  lemma DropsBoneyardsAround(b1: String, t1: String, b2: String, t2: String)
    requires IsBoneyard(b1, |b1|) && IsBoneyard(b2, |b2|) && Inert(t1) && Inert(t2)
    ensures Scrub(b1 + (t1 + (b2 + t2))) == t1 + t2
  {
    ScrubPlain(t2, []);
    assert t2 + [] == t2;
    ScrubBoneyard(b2, t2);
    ScrubPlain(t1, b2 + t2);
    ScrubBoneyard(b1, t1 + (b2 + t2));
  }

  /** Zero-width and byte-order characters disappear, the rest stays. */
  lemma PrepareTextDropsFormatCharacters(s: String)
    requires s == "Hello" + (['\U{200B}'] + (", " + (['\U{200D}'] + (['\U{FEFF}'] + "World!"))))
    ensures PrepareText(s) == "Hello, World!"
  {
    assert Scrub(s) == "Hello, World!" by {
      DropsFormatBetween("Hello", ", ", "World!", '\U{200B}', '\U{200D}', '\U{FEFF}');
    }
    assert TrimEnd(s) == s;
  }

  /** A text that ends in a visible character is not trimmed, so its
      boneyards are deleted and the text around them stays. */
  lemma PrepareTextAroundBoneyards(b1: String, t1: String, b2: String, t2: String)
    requires IsBoneyard(b1, |b1|) && IsBoneyard(b2, |b2|) && Inert(t1) && Inert(t2)
    requires t2 != [] && !IsWhitespace(t2[|t2| - 1])
    ensures PrepareText(b1 + (t1 + (b2 + t2))) == t1 + t2
  {
    var s := b1 + (t1 + (b2 + t2));
    assert s[|s| - 1] == t2[|t2| - 1];
    assert TrimEnd(s) == s;
    DropsBoneyardsAround(b1, t1, b2, t2);
  }

  lemma BoneyardLiteral(b: String)
    requires b == "/* boneyard */" || b == "/* More bones \n Lower bones*/"
    ensures IsBoneyard(b, |b|)
  {
  }

  lemma InertLiteral(t: String)
    requires t == "Hello, World!\n\n" || t == "Goodbye!"
    ensures Inert(t)
  {
  }

  /** Boneyards disappear, even when they span lines; the text around them stays. */
  lemma PrepareTextDropsBoneyards(s: String)
    requires s == "/* boneyard */" + ("Hello, World!\n\n" + ("/* More bones \n Lower bones*/" + "Goodbye!"))
    ensures PrepareText(s) == "Hello, World!\n\nGoodbye!"
  {
    BoneyardLiteral("/* boneyard */");
    BoneyardLiteral("/* More bones \n Lower bones*/");
    InertLiteral("Hello, World!\n\n");
    InertLiteral("Goodbye!");
    assert "Goodbye!"[7] == '!';
    PrepareTextAroundBoneyards("/* boneyard */", "Hello, World!\n\n", "/* More bones \n Lower bones*/", "Goodbye!");
  }
}
