/**
  The title pages of the `add_fdx_formatting` tests: the defaults for a
  title page without `fmt`, and the value each option changes, with `fmt`
  itself kept.
 */
module ConverterExamples {
  import opened Strings
  import opened Types
  import opened Converters

  /** A word followed by whitespace or nothing is the word prefix. */
  lemma {:induction false} WordPrefixOf(x: String, rest: String)
    requires forall i :: 0 <= i < |x| ==> !IsWhitespace(x[i])
    requires rest == [] || IsWhitespace(rest[0])
    ensures WordPrefix(x + rest) == x
    decreases |x|
  {
    if x != [] {
      assert (x + rest)[1..] == x[1..] + rest;
      WordPrefixOf(x[1..], rest);
      assert x == [x[0]] + x[1..];
    } else {
      assert x + rest == rest;
    }
  }

  /** A single word splits into itself. */
  lemma WordsOne(x: String)
    requires IsWord(x)
    ensures Words(x) == [x]
  {
    WordPrefixOf(x, []);
    assert x + [] == x;
    assert x[|x|..] == [];
  }

  /** A word and a space come off the front of the split. */
  lemma WordsSpace(x: String, y: String)
    requires IsWord(x)
    ensures Words(x + ([' '] + y)) == [x] + Words(y)
  {
    var s := x + ([' '] + y);
    WordPrefixOf(x, [' '] + y);
    assert s[|x|..] == [' '] + y;
    assert TrimStart([' '] + y) == TrimStart(y) by {
      assert ([' '] + y)[1..] == y;
    }
  }

  /** With no `fmt` entry the defaults are written and nothing else. */
  lemma DefaultsExample(metadata: Metadata)
    requires metadata == map[]
    ensures FdxFormatting(metadata) == map["scene-heading-style" := ["AllCaps"], "space-before-heading" := ["24"],
      "dialogue-spacing" := ["1"], "action-text-style" := [""], "font-choice" := ["Courier Prime"]]
  {
    assert FmtOptions(metadata) == {};
  }

  /** `fmt: bsh ush` makes the scene headings bold and underlined as well. */
  lemma BoldUnderlineExample(metadata: Metadata)
    requires metadata == map["fmt" := ["bsh ush"]]
    ensures FdxFormatting(metadata) == map["fmt" := ["bsh ush"],
      "scene-heading-style" := ["AllCaps+Bold+Underline"], "space-before-heading" := ["24"],
      "dialogue-spacing" := ["1"], "action-text-style" := [""], "font-choice" := ["Courier Prime"]]
  {
    var options := {"bsh", "ush"};
    BoldUnderlineOptions(metadata);
    assert SceneHeadingStyles(options) == ["AllCaps", "Bold", "Underline"];
    assert Join("+", ["AllCaps", "Bold", "Underline"]) == "AllCaps+Bold+Underline";
    InsertedLayout(metadata, "AllCaps+Bold+Underline", "24", "1", "", "Courier Prime");
  }

  lemma BoldUnderlineOptions(metadata: Metadata)
    requires metadata == map["fmt" := ["bsh ush"]]
    ensures FmtOptions(metadata) == {"bsh", "ush"}
  {
    assert "bsh ush" == "bsh" + ([' '] + "ush");
    TwoOptions(metadata, "bsh", "ush");
  }

  /** Text without capitals is its own lower case. */
  lemma LowerKeeps(s: String)
    requires forall i :: 0 <= i < |s| ==> !('A' <= s[i] <= 'Z')
    ensures Lower(s) == s
  {
  }

  /** A title page whose `fmt` is two lower-case options reads both. */
  lemma TwoOptions(metadata: Metadata, a: String, b: String)
    requires metadata == map["fmt" := [a + ([' '] + b)]] && IsWord(a) && IsWord(b)
    requires forall i :: 0 <= i < |a + ([' '] + b)| ==> !('A' <= (a + ([' '] + b))[i] <= 'Z')
    ensures FmtOptions(metadata) == {a, b}
  {
    LowerKeeps(a + ([' '] + b));
    WordsSpace(a, b);
    WordsOne(b);
  }

  /** A title page whose `fmt` is one lower-case option reads that option. */
  lemma OneOption(metadata: Metadata, option: String)
    requires metadata == map["fmt" := [option]] && IsWord(option) && Lower(option) == option
    ensures FmtOptions(metadata) == {option}
  {
    WordsOne(option);
  }

  /** `fmt: acat` writes action text in capitals. */
  lemma CapitalActionExample(metadata: Metadata)
    requires metadata == map["fmt" := ["acat"]]
    ensures FdxFormatting(metadata) == map["fmt" := ["acat"],
      "scene-heading-style" := ["AllCaps"], "space-before-heading" := ["24"],
      "dialogue-spacing" := ["1"], "action-text-style" := ["AllCaps"], "font-choice" := ["Courier Prime"]]
  {
    OneOption(metadata, "acat");
    InsertedLayout(metadata, "AllCaps", "24", "1", "AllCaps", "Courier Prime");
  }

  /** `fmt: dsd` double-spaces dialogue. */
  lemma DoubleSpacedExample(metadata: Metadata)
    requires metadata == map["fmt" := ["dsd"]]
    ensures FdxFormatting(metadata) == map["fmt" := ["dsd"],
      "scene-heading-style" := ["AllCaps"], "space-before-heading" := ["24"],
      "dialogue-spacing" := ["2"], "action-text-style" := [""], "font-choice" := ["Courier Prime"]]
  {
    OneOption(metadata, "dsd");
    InsertedLayout(metadata, "AllCaps", "24", "2", "", "Courier Prime");
  }

  /** `fmt: cfd` picks Courier Final Draft. */
  lemma FinalDraftFontExample(metadata: Metadata)
    requires metadata == map["fmt" := ["cfd"]]
    ensures FdxFormatting(metadata) == map["fmt" := ["cfd"],
      "scene-heading-style" := ["AllCaps"], "space-before-heading" := ["24"],
      "dialogue-spacing" := ["1"], "action-text-style" := [""], "font-choice" := ["Courier Final Draft"]]
  {
    OneOption(metadata, "cfd");
    InsertedLayout(metadata, "AllCaps", "24", "1", "", "Courier Final Draft");
  }
}
