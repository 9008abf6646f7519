/**
  The title page: `has_key_value` decides whether the first action of a script
  is a title page, and `process_metadata` reads it line by line into a map
  from lower-cased keys to their values. A `Key: value` line starts a key (an
  empty value gives no values, any other value gives its trimmed self); a line
  without a key adds its trimmed self to the values of the last key.
 */
module Metadata {
  import opened Strings
  import opened Wrappers
  import opened Types
  import Hunks

  /** The characters a key runs up to, after its first character. */
  predicate KeyStopper(c: char) {
    c == ':' || c == '\n' || c == '\r'
  }

  /** The first index at or after `i` holding a stopper, or `|s|`. */
  function KeyStop(s: String, i: nat): (r: nat)
    requires i <= |s|
    ensures i <= r <= |s|
    ensures forall k :: i <= k < r ==> !KeyStopper(s[k])
    ensures r < |s| ==> KeyStopper(s[r])
    decreases |s| - i
  {
    if i == |s| || KeyStopper(s[i]) then i else KeyStop(s, i + 1)
  }

  /** What `^[^\s][^:\n\r]+:` matches: `s[..c + 1]`, a non-whitespace character,
      at least one character that is no stopper, then the colon. */
  predicate KeyMatch(s: String, c: nat) {
    2 <= c < |s| && !IsWhitespace(s[0]) && s[c] == ':'
    && forall k :: 1 <= k < c ==> !KeyStopper(s[k])
  }

  /** Where the key of `s` ends, at its colon, if `s` opens with a key. */
  function KeyEnd(s: String): (r: Option<nat>)
    ensures forall c: nat :: KeyMatch(s, c) <==> r == Some(c)
  {
    if s != [] && !IsWhitespace(s[0]) then
      var c := KeyStop(s, 1);
      if 2 <= c < |s| && s[c] == ':' then Some(c) else None
    else None
  }

  /** `has_key_value`. */
  predicate HasKeyValue(txt: String) {
    KeyEnd(txt).Some?
  }

  /** The lower-cased key a line opens, if it opens one. */
  function KeyOf(line: String): (r: Option<String>)
    ensures r.Some? <==> HasKeyValue(line)
  {
    match KeyEnd(line)
    case Some(c) => Some(Lower(line[..c]))
    case None => None
  }

  /** The values a key line starts its key with. */
  function FirstValues(line: String): seq<String>
    requires HasKeyValue(line)
  {
    var value := line[KeyEnd(line).value + 1..];
    if value == [] then [] else [Trim(value)]
  }

  /** The title page read so far and the current key. */
  datatype Reading = Reading(metadata: Metadata, current: String)

  /** The loop body of `process_metadata`. */
  function Read(st: Reading, line: String): Reading {
    match KeyOf(line)
    case Some(key) => Reading(st.metadata[key := FirstValues(line)], key)
    case None =>
      if st.current in st.metadata then
        Reading(st.metadata[st.current := st.metadata[st.current] + [Trim(line)]], st.current)
      else st
  }

  /** The loop of `process_metadata` over `lines`, from `metadata` and no key. */
  function ReadAll(metadata: Metadata, lines: seq<String>): Reading
    decreases |lines|
  {
    if lines == [] then Reading(metadata, "")
    else Read(ReadAll(metadata, lines[..|lines| - 1]), lines[|lines| - 1])
  }

  /** The title page of a text, read into an empty map. */
  function TitlePage(text: String): Metadata {
    ReadAll(map[], Hunks.Lines(text)).metadata
  }

  /** `process_metadata`: `metadata` with the title page of `text` read into it. */
  method ProcessMetadata(metadata: Metadata, text: String) returns (result: Metadata)
    ensures result == ReadAll(metadata, Hunks.Lines(text)).metadata
  {
    var lines := Hunks.Lines(text);
    result := metadata;
    var currentKey: String := "";
    for i := 0 to |lines|
      invariant ReadAll(metadata, lines[..i]) == Reading(result, currentKey)
    {
      var line := lines[i];
      assert lines[..i + 1][..i] == lines[..i];
      var c := KeyEnd(line);
      if c.Some? {
        currentKey := Lower(line[..c.value]);
        var currentValue := line[c.value + 1..];
        if currentValue == [] {
          result := result[currentKey := []];
        } else {
          result := result[currentKey := [Trim(currentValue)]];
        }
      } else if currentKey in result {
        result := result[currentKey := result[currentKey] + [Trim(line)]];
      }
    }
    assert lines[..|lines|] == lines;
  }

  /** A key holds two characters at least, so the empty starting key is never one. */
  lemma KeysNotEmpty(line: String)
    requires HasKeyValue(line)
    ensures KeyOf(line).value != ""
  {
  }

  /** The keys of a title page read from nothing are exactly the keys its lines open. */
  lemma {:induction false} TitleKeys(lines: seq<String>)
    ensures forall k :: k in ReadAll(map[], lines).metadata <==>
      exists j :: 0 <= j < |lines| && KeyOf(lines[j]) == Some(k)
    ensures ReadAll(map[], lines).current == "" || ReadAll(map[], lines).current in ReadAll(map[], lines).metadata
    decreases |lines|
  {
    if lines != [] {
      var init := lines[..|lines| - 1];
      var line := lines[|lines| - 1];
      TitleKeys(init);
      forall j | 0 <= j < |init|
        ensures init[j] == lines[j]
      {
      }
      if HasKeyValue(line) {
        KeysNotEmpty(line);
      }
    }
  }

  /** Trimming twice is trimming once. */
  lemma TrimTwice(s: String)
    ensures Trim(Trim(s)) == Trim(s)
  {
    var t := TrimStart(s);
    var r := TrimEnd(t);
    if r != [] {
      TrimEndSlice(t);
      assert r[0] == t[0];
      Trimmed(r);
    }
  }

  /** Lower-casing twice is lower-casing once. */
  lemma LowerTwice(s: String)
    ensures Lower(Lower(s)) == Lower(s)
  {
  }

  /** Every key is lower case and every value trimmed. */
  predicate Tidy(m: Metadata) {
    && (forall k :: k in m ==> Lower(k) == k)
    && (forall k, j :: k in m && 0 <= j < |m[k]| ==> Trim(m[k][j]) == m[k][j])
  }

  /** Reading keeps a title page tidy. */
  lemma {:induction false} ReadTidy(metadata: Metadata, lines: seq<String>)
    requires Tidy(metadata)
    ensures Tidy(ReadAll(metadata, lines).metadata)
    decreases |lines|
  {
    if lines != [] {
      ReadTidy(metadata, lines[..|lines| - 1]);
      ReadKeepsTidy(ReadAll(metadata, lines[..|lines| - 1]), lines[|lines| - 1]);
    }
  }

  /** One line read keeps a title page tidy. */
  lemma ReadKeepsTidy(st: Reading, line: String)
    requires Tidy(st.metadata)
    ensures Tidy(Read(st, line).metadata)
  {
    match KeyOf(line) {
      case Some(key) =>
        var c := KeyEnd(line).value;
        assert key == Lower(line[..c]);
        LowerTwice(line[..c]);
        var vs := FirstValues(line);
        assert forall j :: 0 <= j < |vs| ==> Trim(vs[j]) == vs[j] by {
          if line[c + 1..] != [] {
            TrimTwice(line[c + 1..]);
          }
        }
        TidyUpdate(st.metadata, key, vs);
      case None =>
        if st.current in st.metadata {
          var vs := st.metadata[st.current] + [Trim(line)];
          assert forall j :: 0 <= j < |vs| ==> Trim(vs[j]) == vs[j] by {
            TrimTwice(line);
          }
          TidyUpdate(st.metadata, st.current, vs);
        }
    }
  }

  /** A lower-case key given trimmed values keeps a title page tidy. */
  lemma TidyUpdate(m: Metadata, key: String, vs: seq<String>)
    requires Tidy(m) && Lower(key) == key
    requires forall j :: 0 <= j < |vs| ==> Trim(vs[j]) == vs[j]
    ensures Tidy(m[key := vs])
  {
  }

  /** The first line of a text that `has_key_value` accepts opens a key. */
  lemma FirstLineKey(txt: String)
    requires HasKeyValue(txt)
    ensures Hunks.Lines(txt) != [] && HasKeyValue(Hunks.Lines(txt)[0])
  {
    var c := KeyEnd(txt).value;
    FirstLineReaches(txt, c);
    KeyMatchPrefix(txt, c, |Hunks.Lines(txt)[0]|);
  }

  /** The first line of a text runs past any index before the first line
      feed that holds no carriage return. */
  lemma FirstLineReaches(s: String, c: nat)
    requires c < |s| && s[c] != '\r' && forall j :: 0 <= j <= c ==> s[j] != '\n'
    ensures Hunks.Lines(s) != [] && c < |Hunks.Lines(s)[0]| && Hunks.Lines(s)[0] == s[..|Hunks.Lines(s)[0]|]
  {
    var k := IndexFrom(s, 0, '\n');
    if k < |s| {
      assert Hunks.Lines(s)[0] == Hunks.StripCr(s[..k]);
      if s[k - 1] == '\r' {
        assert s[..k][..k - 1] == s[..k - 1];
      }
    }
  }

  /** A key stays a key when the text is cut after its colon. */
  lemma KeyMatchPrefix(s: String, c: nat, n: nat)
    requires KeyMatch(s, c) && c < n <= |s|
    ensures KeyMatch(s[..n], c)
  {
  }

  /** A title page that `has_key_value` accepts yields at least one key. */
  lemma TitlePageNotEmpty(txt: String)
    requires HasKeyValue(txt)
    ensures TitlePage(txt) != map[]
  {
    var lines := Hunks.Lines(txt);
    FirstLineKey(txt);
    TitleKeys(lines);
    assert KeyOf(lines[0]).value in TitlePage(txt);
  }

  /** Each line trimmed. */
  function TrimEach(lines: seq<String>): (r: seq<String>)
    ensures |r| == |lines|
  {
    if lines == [] then [] else TrimEach(lines[..|lines| - 1]) + [Trim(lines[|lines| - 1])]
  }

  /** A key line with an empty value, then lines opening no key: the key holds
      those lines, trimmed, in order. */
  lemma {:induction false} KeyWithContinuations(key: String, conts: seq<String>)
    requires KeyMatch(key + ":", |key|)
    requires forall j :: 0 <= j < |conts| ==> !HasKeyValue(conts[j])
    ensures ReadAll(map[], [key + ":"] + conts) == Reading(map[Lower(key) := TrimEach(conts)], Lower(key))
    decreases |conts|
  {
    var lines := [key + ":"] + conts;
    if conts == [] {
      assert lines[..0] == [];
      assert (key + ":")[..|key|] == key;
    } else {
      var init := conts[..|conts| - 1];
      assert lines[..|lines| - 1] == [key + ":"] + init;
      KeyWithContinuations(key, init);
    }
  }

  /** An indented line trims to its text. */
  lemma Indented(x: String)
    requires x != [] && !IsWhitespace(x[0]) && !IsWhitespace(x[|x| - 1])
    ensures Trim("    " + x) == x && !HasKeyValue("    " + x)
  {
    TrimStartPrefix("    ", x);
    Trimmed(x);
  }

  /** The title of the title-page test: a bare `Title:` and two indented lines. */
  lemma TitleExample(a: String, b: String)
    requires a == "_**BRICK & STEEL**_" && b == "_**FULL RETIRED**_"
    ensures ReadAll(map[], ["Title" + ":", "    " + a, "    " + b]).metadata == map["title" := [a, b]]
  {
    assert KeyMatch("Title" + ":", 5);
    var conts := ["    " + a, "    " + b];
    Indented(a);
    Indented(b);
    KeyWithContinuations("Title", conts);
    assert ["Title" + ":"] + conts == ["Title" + ":", "    " + a, "    " + b];
    assert Lower("Title") == "title";
    assert conts[..1] == ["    " + a] && conts[..1][..0] == [];
    assert TrimEach(conts[..1]) == [a];
    assert TrimEach(conts) == TrimEach(conts[..1]) + [b];
    assert TrimEach(conts) == [a, b];
  }

  /** A value of blanks is not empty, so the key gets one empty value rather than none. */
  lemma BlankValue(key: String)
    requires KeyMatch(key + ":", |key|)
    ensures ReadAll(map[], [key + ": "]).metadata == map[Lower(key) := [""]]
  {
    var line := key + ": ";
    assert KeyMatch(line, |key|) by {
      assert forall k :: 0 <= k <= |key| ==> line[k] == (key + ":")[k];
    }
    assert line[..|key|] == key && line[|key| + 1..] == " ";
    assert Trim(" ") == "";
    var lines: seq<String> := [line];
    assert lines[..0] == [];
  }
}
