/**
  The two normalising helpers of the older command-line entry point:
  `remove_problematic_unicode` keeps the characters that are not format (Cf)
  characters, and `remove_boneyard` deletes the boneyards `/* ... */`.
  The parser's own normaliser does both in one pass; `ScrubIsCleanup` shows
  that the one pass is the composition of the two.
 */
module Cleanup {
  import opened Strings
  import opened Wrappers
  import opened Normaliser

  /** `remove_problematic_unicode`: filter out the Cf characters. */
  function RemoveProblematicUnicode(s: String): (r: String)
    ensures |r| <= |s|
    ensures forall k :: 0 <= k < |r| ==> !IsFormat(r[k])
  {
    if s == [] then [] else (if IsFormat(s[0]) then [] else [s[0]]) + RemoveProblematicUnicode(s[1..])
  }

  /** The filter works character by character: it distributes over concatenation. */
  lemma {:induction false} RemoveProblematicUnicodeAppend(a: String, b: String)
    ensures RemoveProblematicUnicode(a + b) == RemoveProblematicUnicode(a) + RemoveProblematicUnicode(b)
  {
    if a == [] {
      assert a + b == b;
    } else {
      assert (a + b)[0] == a[0] && (a + b)[1..] == a[1..] + b;
      RemoveProblematicUnicodeAppend(a[1..], b);
    }
  }

  /** Every character that is not Cf is kept as often as it occurs; every Cf character is gone. */
  lemma {:induction false} RemoveProblematicUnicodeCounts(s: String, c: char)
    ensures multiset(RemoveProblematicUnicode(s))[c] == if IsFormat(c) then 0 else multiset(s)[c]
  {
    if s != [] {
      RemoveProblematicUnicodeCounts(s[1..], c);
      assert s == [s[0]] + s[1..];
      assert multiset(s) == multiset([s[0]]) + multiset(s[1..]);
    }
  }

  /** Filtering twice is filtering once. */
  lemma {:induction false} RemoveProblematicUnicodeIdempotent(s: String)
    ensures RemoveProblematicUnicode(RemoveProblematicUnicode(s)) == RemoveProblematicUnicode(s)
  {
    if s != [] {
      var t := RemoveProblematicUnicode(s[1..]);
      RemoveProblematicUnicodeIdempotent(s[1..]);
      if IsFormat(s[0]) {
        assert RemoveProblematicUnicode(s) == t;
      } else {
        assert ([s[0]] + t)[0] == s[0] && ([s[0]] + t)[1..] == t;
      }
    }
  }

  /** The test string of the filter: three format characters go, the rest stays. */
  lemma RemoveProblematicUnicodeExample(s: String)
    requires s == "Hello" + (['\U{200B}'] + (", " + (['\U{200D}'] + (['\U{FEFF}'] + "World!"))))
    ensures RemoveProblematicUnicode(s) == "Hello, World!"
  {
    assert Scrub(s) == "Hello, World!" by {
      DropsFormatBetween("Hello", ", ", "World!", '\U{200B}', '\U{200D}', '\U{FEFF}');
    }
    assert RemoveBoneyard(s) == s by {
      RemoveBoneyardNoOpener(s);
    }
    ScrubIsCleanup(s);
  }

  /** `remove_boneyard`: the leftmost non-overlapping boneyards are deleted. */
  function RemoveBoneyard(s: String): (r: String)
    ensures |r| <= |s|
    decreases |s|
  {
    if s == [] then []
    else match BoneyardLen(s)
      case Some(n) => RemoveBoneyard(s[n..])
      case None => [s[0]] + RemoveBoneyard(s[1..])
  }

  /** Text in which no boneyard opener (a slash then a star) occurs is left untouched. */
  lemma {:induction false} RemoveBoneyardNoOpener(s: String)
    requires forall k :: 0 <= k < |s| - 1 ==> !(s[k] == '/' && s[k + 1] == '*')
    ensures RemoveBoneyard(s) == s
  {
    if s != [] {
      RemoveBoneyardNoOpener(s[1..]);
      assert s == [s[0]] + s[1..];
    }
  }

  /** Text without `/` before the rest passes through unchanged. */
  lemma {:induction false} RemoveBoneyardPlain(x: String, y: String)
    requires forall k :: 0 <= k < |x| ==> x[k] != '/'
    ensures RemoveBoneyard(x + y) == x + RemoveBoneyard(y)
  {
    if x == [] {
      assert x + y == y;
    } else {
      assert (x + y)[0] == x[0] && (x + y)[1..] == x[1..] + y;
      RemoveBoneyardPlain(x[1..], y);
      calc {
        RemoveBoneyard(x + y);
        [x[0]] + RemoveBoneyard(x[1..] + y);
        [x[0]] + (x[1..] + RemoveBoneyard(y));
        { assert x == [x[0]] + x[1..]; }
        x + RemoveBoneyard(y);
      }
    }
  }

  /** A stretch at none of whose positions a boneyard starts is kept as it
      stands in front of the cleaned rest. */
  lemma {:induction false} RemoveBoneyardKeeps(x: String, y: String)
    requires forall k :: 0 <= k < |x| ==> BoneyardLen((x + y)[k..]) == None
    ensures RemoveBoneyard(x + y) == x + RemoveBoneyard(y)
  {
    if x == [] {
      assert x + y == y;
    } else {
      var s := x + y;
      assert s[0..] == s;
      assert s[0] == x[0] && s[1..] == x[1..] + y;
      forall k | 0 <= k < |x| - 1
        ensures BoneyardLen((x[1..] + y)[k..]) == None
      {
        assert (x[1..] + y)[k..] == s[k + 1..];
      }
      RemoveBoneyardKeeps(x[1..], y);
      assert x == [x[0]] + x[1..];
    }
  }

  /** The first boneyard is deleted, the text before it is kept, and the
      deletion goes on after it. */
  lemma RemoveBoneyardFirst(x: String, b: String, y: String)
    requires forall k :: 0 <= k < |x| ==> BoneyardLen((x + (b + y))[k..]) == None
    requires IsBoneyard(b, |b|)
    ensures RemoveBoneyard(x + (b + y)) == x + RemoveBoneyard(y)
  {
    RemoveBoneyardKeeps(x, b + y);
    RemoveBoneyardFront(b, y);
  }

  /** The regex allows no star between the delimiters, so a comment with a
      star inside survives whole. */
  lemma RemoveBoneyardStarInside(s: String)
    requires s == "/* a * b */"
    ensures RemoveBoneyard(s) == s
  {
    assert s[2] != '*' && s[3] != '*' && s[4] != '*' && s[5] == '*';
    assert IndexFrom(s, 2, '*') == 5;
    forall k | 0 <= k < |s|
      ensures BoneyardLen((s + [])[k..]) == None
    {
      assert s + [] == s;
      if k == 0 {
        assert s[0..] == s;
      }
    }
    RemoveBoneyardKeeps(s, []);
    assert s + [] == s;
  }

  /** One pass only: deleting the inner boneyard brings a new one together, which stays. */
  lemma RemoveBoneyardSinglePass(s: String)
    requires s == "/*/* x */ */"
    ensures RemoveBoneyard(s) == "/* */"
    ensures IsBoneyard(RemoveBoneyard(s), 5)
  {
    SinglePassPieces(s);
    RemoveBoneyardFirst(s[..2], s[2..9], s[9..]);
    RemoveBoneyardNoOpener(s[9..]);
  }

  /** How `"/*/* x */ */"` splits: no boneyard at its first two characters,
      one from the third to the ninth. */
  lemma SinglePassPieces(s: String)
    requires s == "/*/* x */ */"
    ensures s == s[..2] + (s[2..9] + s[9..])
    ensures IsBoneyard(s[2..9], 7)
    ensures forall k :: 0 <= k < 2 ==> BoneyardLen((s[..2] + (s[2..9] + s[9..]))[k..]) == None
  {
    assert IndexFrom(s, 2, '*') == 3;
    assert BoneyardLen(s) == None;
    assert s[1..][0] == '*';
    var t := s[2..];
    assert t[2] != '*' && t[3] != '*' && t[4] != '*' && t[5] == '*';
    assert IndexFrom(t, 2, '*') == 5;
    assert BoneyardLen(s[2..]) == Some(7);
    assert s == s[..2] + (s[2..9] + s[9..]);
    forall k | 0 <= k < 2
      ensures BoneyardLen((s[..2] + (s[2..9] + s[9..]))[k..]) == None
    {
      if k == 0 {
        assert s[0..] == s;
      }
    }
  }

  /** A whole boneyard at the front is deleted. */
  lemma RemoveBoneyardFront(x: String, y: String)
    requires IsBoneyard(x, |x|)
    ensures RemoveBoneyard(x + y) == RemoveBoneyard(y)
  {
    assert IsBoneyard(x + y, |x|);
    assert (x + y)[|x|..] == y;
  }

  /** Boneyards around text without `/` disappear, the text stays. */
  lemma RemoveBoneyardAround(b1: String, t1: String, b2: String, t2: String)
    requires IsBoneyard(b1, |b1|) && IsBoneyard(b2, |b2|)
    requires forall k :: 0 <= k < |t1| ==> t1[k] != '/'
    requires forall k :: 0 <= k < |t2| ==> t2[k] != '/'
    ensures RemoveBoneyard(b1 + (t1 + (b2 + t2))) == t1 + t2
  {
    RemoveBoneyardPlain(t2, []);
    assert t2 + [] == t2;
    RemoveBoneyardFront(b2, t2);
    RemoveBoneyardPlain(t1, b2 + t2);
    RemoveBoneyardFront(b1, t1 + (b2 + t2));
  }

  /** The test string of `remove_boneyard`: both boneyards go, one of them spanning a line break. */
  lemma RemoveBoneyardExample(s: String)
    requires s == "/* boneyard */" + ("Hello, World!\n\n" + ("/* More bones \n Lower bones*/" + "Goodbye!"))
    ensures RemoveBoneyard(s) == "Hello, World!\n\nGoodbye!"
  {
    BoneyardLiteral("/* boneyard */");
    BoneyardLiteral("/* More bones \n Lower bones*/");
    NoSlashLiteral("Hello, World!\n\n");
    NoSlashLiteral("Goodbye!");
    RemoveBoneyardAround("/* boneyard */", "Hello, World!\n\n", "/* More bones \n Lower bones*/", "Goodbye!");
  }

  lemma NoSlashLiteral(t: String)
    requires t == "Hello, World!\n\n" || t == "Goodbye!"
    ensures forall k :: 0 <= k < |t| ==> t[k] != '/'
  {
  }

  /** The parser's single scan equals deleting boneyards, then Cf characters. */
  lemma {:induction false} ScrubIsCleanup(s: String)
    ensures Scrub(s) == RemoveProblematicUnicode(RemoveBoneyard(s))
    decreases |s|
  {
    if s != [] {
      match BoneyardLen(s) {
        case Some(n) => ScrubIsCleanup(s[n..]);
        case None =>
          ScrubIsCleanup(s[1..]);
          var t := RemoveBoneyard(s[1..]);
          assert ([s[0]] + t)[0] == s[0] && ([s[0]] + t)[1..] == t;
      }
    }
  }

  /** `prepare_text` is the two helpers applied to the end-trimmed document. */
  lemma PrepareTextIsCleanup(text: String)
    ensures PrepareText(text) == RemoveProblematicUnicode(RemoveBoneyard(TrimEnd(text)))
  {
    ScrubIsCleanup(TrimEnd(text));
  }
}
