/**
  What `to_final_draft` does to a screenplay before rendering it, and the
  class names of the HTML output. `add_fdx_formatting` reads the words of the
  first `fmt` value of the title page and writes the five layout keys the
  Final Draft template reads; the element filter drops what Final Draft cannot
  show; `type_to_class_helper` turns an element's display name into its CSS
  class.
 */
module Converters {
  import opened Strings
  import opened Types

  // ----- Sorting strings (the `sort_unstable` of the scene-heading styles) -----

  /** `a <= b` in the order of `str`: lexicographic by character, which for
      UTF-8 is the order of the bytes. */
  predicate Below(a: String, b: String)
    decreases |a|
  {
    a == [] || (b != [] && (a[0] < b[0] || (a[0] == b[0] && Below(a[1..], b[1..]))))
  }

  lemma {:induction false} BelowTotal(a: String, b: String)
    ensures Below(a, b) || Below(b, a)
    decreases |a|
  {
    if a != [] && b != [] && a[0] == b[0] {
      BelowTotal(a[1..], b[1..]);
    }
  }

  lemma {:induction false} BelowAntisymmetric(a: String, b: String)
    requires Below(a, b) && Below(b, a)
    ensures a == b
    decreases |a|
  {
    if a != [] {
      BelowAntisymmetric(a[1..], b[1..]);
      assert a == [a[0]] + a[1..] && b == [b[0]] + b[1..];
    }
  }

  lemma {:induction false} BelowTransitive(a: String, b: String, c: String)
    requires Below(a, b) && Below(b, c)
    ensures Below(a, c)
    decreases |a|
  {
    if a != [] && a[0] == b[0] && b[0] == c[0] {
      BelowTransitive(a[1..], b[1..], c[1..]);
    }
  }

  predicate Sorted(s: seq<String>) {
    forall i, j :: 0 <= i < j < |s| ==> Below(s[i], s[j])
  }

  /** `x` put in front of the first element of `r` it is below. */
  function InsertSorted(x: String, r: seq<String>): (t: seq<String>)
    requires Sorted(r)
    ensures Sorted(t) && multiset(t) == multiset{x} + multiset(r)
  {
    if r == [] then [x]
    else if Below(x, r[0]) then
      assert forall k :: 0 <= k < |r| ==> Below(x, r[k]) by {
        forall k | 0 <= k < |r| ensures Below(x, r[k]) {
          if k > 0 { BelowTransitive(x, r[0], r[k]); }
        }
      }
      [x] + r
    else
      var rest := InsertSorted(x, r[1..]);
      BelowTotal(x, r[0]);
      assert r == [r[0]] + r[1..];
      assert forall k :: 0 <= k < |rest| ==> Below(r[0], rest[k]) by {
        forall k | 0 <= k < |rest| ensures Below(r[0], rest[k]) {
          assert rest[k] in multiset(rest);
          if rest[k] != x {
            assert rest[k] in multiset(r[1..]);
            var j :| 0 <= j < |r[1..]| && r[1..][j] == rest[k];
            assert r[j + 1] == rest[k];
          }
        }
      }
      [r[0]] + rest
  }

  /** A sort of strings, standing for the library's `sort_unstable`: which
      algorithm it is does not matter, since a sorted arrangement of a
      multiset of strings is unique (`SortedUnique`). */
  function SortStrings(s: seq<String>): (r: seq<String>)
    ensures Sorted(r) && multiset(r) == multiset(s)
  {
    if s == [] then []
    else
      assert s == [s[0]] + s[1..];
      InsertSorted(s[0], SortStrings(s[1..]))
  }

  lemma SortedTail(a: seq<String>)
    requires Sorted(a) && a != []
    ensures Sorted(a[1..])
  {
    forall i, j | 0 <= i < j < |a| - 1
      ensures Below(a[1..][i], a[1..][j])
    {
      assert a[1..][i] == a[i + 1] && a[1..][j] == a[j + 1];
    }
  }

  /** Two sorted sequences of the same strings start with the same string. */
  lemma SortedHeads(a: seq<String>, b: seq<String>)
    requires Sorted(a) && Sorted(b) && multiset(a) == multiset(b) && a != []
    ensures b != [] && a[0] == b[0]
  {
    assert |a| == |multiset(a)| == |b|;
    assert a[0] in multiset(b) && b[0] in multiset(a);
    var i :| 0 <= i < |b| && b[i] == a[0];
    var j :| 0 <= j < |a| && a[j] == b[0];
    assert Below(b[0], a[0]) by {
      if i > 0 { assert Below(b[0], b[i]); } else { BelowTotal(b[0], a[0]); }
    }
    assert Below(a[0], b[0]) by {
      if j > 0 { assert Below(a[0], a[j]); } else { BelowTotal(a[0], b[0]); }
    }
    BelowAntisymmetric(a[0], b[0]);
  }

  /** The strings after the first are the strings less the first. */
  lemma TailBag(a: seq<String>)
    requires a != []
    ensures multiset(a[1..]) == multiset(a) - multiset{a[0]}
  {
    assert a == [a[0]] + a[1..];
    assert multiset(a) == multiset{a[0]} + multiset(a[1..]);
  }

  /** Two sorted sequences of the same strings are equal. */
  lemma {:induction false} SortedUnique(a: seq<String>, b: seq<String>)
    requires Sorted(a) && Sorted(b) && multiset(a) == multiset(b)
    ensures a == b
    decreases |a|
  {
    if a == [] {
      assert |b| == |multiset(b)| == 0;
    } else {
      SortedHeads(a, b);
      TailBag(a);
      TailBag(b);
      SortedTail(a);
      SortedTail(b);
      SortedUnique(a[1..], b[1..]);
      assert a == [a[0]] + a[1..] && b == [b[0]] + b[1..];
    }
  }

  // ----- `add_fdx_formatting` and `insert_helper` -----

  /** `insert_helper`: `key` holds the single value `value`, nothing else changes. */
  function Insert(metadata: Metadata, key: String, value: String): (r: Metadata)
    ensures r.Keys == metadata.Keys + {key} && r[key] == [value]
    ensures forall k :: k in metadata && k != key ==> r[k] == metadata[k]
  {
    metadata[key := [value]]
  }

  /** The words of the first `fmt` value, lower-cased, as a set. */
  function FmtOptions(metadata: Metadata): set<String> {
    if "fmt" in metadata && metadata["fmt"] != [] then
      set w | w in Words(Lower(metadata["fmt"][0]))
    else {}
  }

  /** The scene-heading styles in sorted order: `AllCaps`, then `Bold` for
      `bsh`, then `Underline` for `ush`. */
  function SceneHeadingStyles(options: set<String>): seq<String> {
    ["AllCaps"] + (if "bsh" in options then ["Bold"] else []) + (if "ush" in options then ["Underline"] else [])
  }

  const FormatKeys: set<String> :=
    {"scene-heading-style", "space-before-heading", "dialogue-spacing", "action-text-style", "font-choice"}

  /** The value each layout key gets for a set of options. */
  function FormatValue(key: String, options: set<String>): String
    requires key in FormatKeys
  {
    if key == "scene-heading-style" then Join("+", SceneHeadingStyles(options))
    else if key == "space-before-heading" then (if "ssbsh" in options then "12" else "24")
    else if key == "dialogue-spacing" then (if "dsd" in options then "2" else "1")
    else if key == "action-text-style" then (if "acat" in options then "AllCaps" else "")
    else (if "cfd" in options then "Courier Final Draft" else "Courier Prime")
  }

  /** The title page `add_fdx_formatting` leaves: the five layout keys hold
      one value each, decided by the options; every other key is untouched. */
  function FdxFormatting(metadata: Metadata): (r: Metadata)
    ensures r.Keys == metadata.Keys + FormatKeys
    ensures forall k :: k in FormatKeys ==> r[k] == [FormatValue(k, FmtOptions(metadata))]
    ensures forall k :: k in metadata && k !in FormatKeys ==> r[k] == metadata[k]
  {
    var o := FmtOptions(metadata);
    map k | k in metadata.Keys + FormatKeys :: if k in FormatKeys then [FormatValue(k, o)] else metadata[k]
  }

  /** The styles collected so far, before sorting, as a multiset. */
  ghost function StyleBag(done: set<String>): multiset<String> {
    multiset{"AllCaps"} + (if "bsh" in done then multiset{"Bold"} else multiset{})
    + (if "ush" in done then multiset{"Underline"} else multiset{})
  }

  lemma StylesSorted(options: set<String>)
    ensures Sorted(SceneHeadingStyles(options))
    ensures multiset(SceneHeadingStyles(options)) == StyleBag(options)
  {
    assert Below("AllCaps", "Bold") && Below("AllCaps", "Underline") && Below("Bold", "Underline");
  }

  /** What the loop of `add_fdx_formatting` holds after reading the options
      in `done`. */
  ghost predicate ReadSoFar(done: set<String>, styles: seq<String>, space: String, spacing: String,
                            action: String, font: String) {
    && multiset(styles) == StyleBag(done)
    && space == FormatValue("space-before-heading", done)
    && spacing == FormatValue("dialogue-spacing", done)
    && action == FormatValue("action-text-style", done)
    && font == FormatValue("font-choice", done)
  }

  /** One turn of the loop: the setting an option names is changed. */
  method ReadOption(option: String, ghost done: set<String>, styles: seq<String>, space: String,
                    spacing: String, action: String, font: String)
    returns (styles': seq<String>, space': String, spacing': String, action': String, font': String)
    requires option !in done && ReadSoFar(done, styles, space, spacing, action, font)
    ensures ReadSoFar(done + {option}, styles', space', spacing', action', font')
  {
    styles', space', spacing', action', font' := styles, space, spacing, action, font;
    if option == "bsh" {
      styles' := styles + ["Bold"];
    } else if option == "ush" {
      styles' := styles + ["Underline"];
    } else if option == "acat" {
      action' := action + "AllCaps";
    } else if option == "ssbsh" {
      space' := "12";
    } else if option == "dsd" {
      spacing' := "2";
    } else if option == "cfd" {
      font' := "Courier Final Draft";
    }
  }

  /** The loop of `add_fdx_formatting` over the options, in whatever order
      the set yields them: the unsorted styles and the four other settings. */
  method ReadOptions(options: set<String>)
    returns (sceneHeadingStyles: seq<String>, spaceBeforeHeading: String, dialogueSpacing: String,
             actionTextStyle: String, fontChoice: String)
    ensures multiset(sceneHeadingStyles) == StyleBag(options)
    ensures spaceBeforeHeading == FormatValue("space-before-heading", options)
    ensures dialogueSpacing == FormatValue("dialogue-spacing", options)
    ensures actionTextStyle == FormatValue("action-text-style", options)
    ensures fontChoice == FormatValue("font-choice", options)
  {
    sceneHeadingStyles := ["AllCaps"];
    spaceBeforeHeading := "24";
    dialogueSpacing := "1";
    actionTextStyle := "";
    fontChoice := "Courier Prime";
    var rest := options;
    ghost var done: set<String> := {};
    while rest != {}
      invariant done + rest == options && done !! rest
      invariant ReadSoFar(done, sceneHeadingStyles, spaceBeforeHeading, dialogueSpacing, actionTextStyle, fontChoice)
      decreases rest
    {
      var option :| option in rest;
      sceneHeadingStyles, spaceBeforeHeading, dialogueSpacing, actionTextStyle, fontChoice :=
        ReadOption(option, done, sceneHeadingStyles, spaceBeforeHeading, dialogueSpacing, actionTextStyle, fontChoice);
      done := done + {option};
      rest := rest - {option};
    }
    assert done == options;
  }

  /** The scene-heading style of unsorted styles: sorted, then `+`-joined. */
  lemma SortedStyles(styles: seq<String>, options: set<String>)
    requires multiset(styles) == StyleBag(options)
    ensures Join("+", SortStrings(styles)) == FormatValue("scene-heading-style", options)
  {
    StylesSorted(options);
    SortedUnique(SortStrings(styles), SceneHeadingStyles(options));
  }

  /** The five insertions, in the source's order, make the formatted title page. */
  lemma InsertedLayout(metadata: Metadata, style: String, space: String, spacing: String, action: String, font: String)
    requires style == FormatValue("scene-heading-style", FmtOptions(metadata))
    requires space == FormatValue("space-before-heading", FmtOptions(metadata))
    requires spacing == FormatValue("dialogue-spacing", FmtOptions(metadata))
    requires action == FormatValue("action-text-style", FmtOptions(metadata))
    requires font == FormatValue("font-choice", FmtOptions(metadata))
    ensures Insert(Insert(Insert(Insert(Insert(metadata, "scene-heading-style", style), "space-before-heading", space),
                                    "dialogue-spacing", spacing), "action-text-style", action), "font-choice", font)
            == FdxFormatting(metadata)
  {
  }

  /** `add_fdx_formatting`: the options are read, the styles sorted and
      joined, and the five keys inserted. */
  method AddFdxFormatting(metadata: Metadata) returns (r: Metadata)
    ensures r == FdxFormatting(metadata)
  {
    var options := FmtOptions(metadata);
    var sceneHeadingStyles, spaceBeforeHeading, dialogueSpacing, actionTextStyle, fontChoice := ReadOptions(options);
    SortedStyles(sceneHeadingStyles, options);
    sceneHeadingStyles := SortStrings(sceneHeadingStyles);
    var sceneHeadingStyle := Join("+", sceneHeadingStyles);
    InsertedLayout(metadata, sceneHeadingStyle, spaceBeforeHeading, dialogueSpacing, actionTextStyle, fontChoice);
    r := Insert(metadata, "scene-heading-style", sceneHeadingStyle);
    r := Insert(r, "space-before-heading", spaceBeforeHeading);
    r := Insert(r, "dialogue-spacing", dialogueSpacing);
    r := Insert(r, "action-text-style", actionTextStyle);
    r := Insert(r, "font-choice", fontChoice);
  }

  /** Formatting twice is formatting once: `fmt` is not a layout key. */
  lemma FdxFormattingIdempotent(metadata: Metadata)
    ensures FdxFormatting(FdxFormatting(metadata)) == FdxFormatting(metadata)
  {
    var once := FdxFormatting(metadata);
    assert "fmt" !in FormatKeys;
    assert FmtOptions(once) == FmtOptions(metadata);
  }

  /** Only the first `fmt` value counts, and only its lower-cased words. */
  lemma FmtFirstValueOnly(metadata: Metadata, v: String, w: String, extra: seq<String>)
    requires Lower(v) == Lower(w)
    ensures FmtOptions(metadata["fmt" := [v] + extra]) == FmtOptions(metadata["fmt" := [w]])
  {
  }

  // ----- The element filter of `to_final_draft` -----

  /** Final Draft has no page breaks, sections or synopses. */
  predicate FinalDraftCompatible(e: Element) {
    !(e.PageBreak? || e.Section? || e.Synopsis?)
  }

  /** The elements `retain` keeps, in their order. */
  function FinalDraftElements(es: seq<Element>): (r: seq<Element>)
    ensures |r| <= |es|
    ensures forall e :: e in r <==> e in es && FinalDraftCompatible(e)
  {
    if es == [] then []
    else
      var init := FinalDraftElements(es[..|es| - 1]);
      assert es == es[..|es| - 1] + [es[|es| - 1]];
      if FinalDraftCompatible(es[|es| - 1]) then init + [es[|es| - 1]] else init
  }

  /** `Vec::retain` with the filter: each element is kept or dropped in turn. */
  method RetainFinalDraftElements(es: seq<Element>) returns (r: seq<Element>)
    ensures r == FinalDraftElements(es)
  {
    r := [];
    for i := 0 to |es|
      invariant r == FinalDraftElements(es[..i])
    {
      assert es[..i + 1][..i] == es[..i];
      if FinalDraftCompatible(es[i]) {
        r := r + [es[i]];
      }
    }
    assert es[..|es|] == es;
  }

  /** The filter keeps the order: filtering a concatenation is concatenating the filtered parts. */
  lemma {:induction false} FinalDraftElementsAppend(a: seq<Element>, b: seq<Element>)
    ensures FinalDraftElements(a + b) == FinalDraftElements(a) + FinalDraftElements(b)
    decreases |b|
  {
    if b == [] {
      assert a + b == a;
    } else {
      var c := b[..|b| - 1];
      assert (a + b)[..|a + b| - 1] == a + c;
      FinalDraftElementsAppend(a, c);
    }
  }

  /** A script without page breaks, sections and synopses passes unchanged. */
  lemma {:induction false} FinalDraftElementsKeepsCompatible(es: seq<Element>)
    requires forall k :: 0 <= k < |es| ==> FinalDraftCompatible(es[k])
    ensures FinalDraftElements(es) == es
    decreases |es|
  {
    if es != [] {
      FinalDraftElementsKeepsCompatible(es[..|es| - 1]);
      assert es == es[..|es| - 1] + [es[|es| - 1]];
    }
  }

  /** Filtering twice is filtering once. */
  lemma FinalDraftElementsIdempotent(es: seq<Element>)
    ensures FinalDraftElements(FinalDraftElements(es)) == FinalDraftElements(es)
  {
    var r := FinalDraftElements(es);
    assert forall k :: 0 <= k < |r| ==> r[k] in r;
    FinalDraftElementsKeepsCompatible(r);
  }

  // ----- The screenplay being converted -----

  /** A screenplay whose title page and elements are changed in place. */
  class ScreenplayObject {
    var metadata: Metadata
    var elements: seq<Element>

    constructor (s: Screenplay)
      ensures metadata == s.metadata && elements == s.elements
    {
      metadata := s.metadata;
      elements := s.elements;
    }

    /** The part of `to_final_draft` before rendering: the layout keys are
        written and the elements Final Draft cannot show are removed. */
    method PrepareFinalDraft()
      modifies this
      ensures metadata == FdxFormatting(old(metadata))
      ensures elements == FinalDraftElements(old(elements))
    {
      var formatted := AddFdxFormatting(metadata);
      metadata := formatted;
      var kept := RetainFinalDraftElements(elements);
      elements := kept;
    }
  }

  // ----- `type_to_class_helper` -----

  /** The CSS class of a display name; any other input passes through. */
  function TypeToClass(name: String): String {
    if name == "Scene Heading" then "sceneHeading"
    else if name == "Action" then "action"
    else if name == "Character" then "character"
    else if name == "Dialogue" then "dialogue"
    else if name == "Parenthetical" then "parenthetical"
    else if name == "Transition" then "transition"
    else if name == "Lyric" then "lyric"
    else if name == "Section" then "section"
    else if name == "Synopsis" then "synopsis"
    else if name == "Cold Opening" then "coldOpening"
    else if name == "New Act" then "newAct"
    else if name == "End of Act" then "endOfAct"
    else name
  }

  /** The elements the mapping names: all but blocks and page breaks. */
  predicate HasClass(e: Element) {
    !(e.DialogueBlock? || e.DualDialogueBlock? || e.PageBreak?)
  }

  /** The display name of a class of the mapping: its inverse. */
  function ClassToType(cssClass: String): String {
    if cssClass == "sceneHeading" then "Scene Heading"
    else if cssClass == "action" then "Action"
    else if cssClass == "character" then "Character"
    else if cssClass == "dialogue" then "Dialogue"
    else if cssClass == "parenthetical" then "Parenthetical"
    else if cssClass == "transition" then "Transition"
    else if cssClass == "lyric" then "Lyric"
    else if cssClass == "section" then "Section"
    else if cssClass == "synopsis" then "Synopsis"
    else if cssClass == "coldOpening" then "Cold Opening"
    else if cssClass == "newAct" then "New Act"
    else if cssClass == "endOfAct" then "End of Act"
    else cssClass
  }

  /** An element the mapping names gets a class other than its display
      name, from which the display name is recovered, so no two such
      elements share a class. */
  lemma ClassRoundTrip(e: Element)
    requires HasClass(e)
    ensures TypeToClass(Name(e)) != Name(e) && ClassToType(TypeToClass(Name(e))) == Name(e)
  {
    if e.Action? || e.Character? || e.SceneHeading? || e.Lyric? || e.Parenthetical? || e.Dialogue? {
      SpokenClasses(e);
    } else if e.Transition? || e.Section? || e.Synopsis? {
      OutlineClasses(e);
    } else {
      ActClasses(e);
    }
  }

  lemma SpokenClasses(e: Element)
    requires e.Action? || e.Character? || e.SceneHeading? || e.Lyric? || e.Parenthetical? || e.Dialogue?
    ensures TypeToClass(Name(e)) != Name(e) && ClassToType(TypeToClass(Name(e))) == Name(e)
  {
  }

  lemma OutlineClasses(e: Element)
    requires e.Transition? || e.Section? || e.Synopsis?
    ensures TypeToClass(Name(e)) != Name(e) && ClassToType(TypeToClass(Name(e))) == Name(e)
  {
  }

  lemma ActClasses(e: Element)
    requires e.ColdOpening? || e.NewAct? || e.EndOfAct?
    ensures TypeToClass(Name(e)) != Name(e) && ClassToType(TypeToClass(Name(e))) == Name(e)
  {
  }

  /** Dialogue blocks and page breaks keep their display names. */
  lemma ClassPassThrough(e: Element)
    requires !HasClass(e)
    ensures TypeToClass(Name(e)) == Name(e)
  {
  }
}
