/**
  `parse`, the whole pipeline: the text is normalised, cut into lines and
  hunks, the hunks become elements, a first action that opens with a
  `Key:` line becomes the title page, and the text of each remaining action
  is styled.

  Two inputs make the source panic where it evidently should not (see the
  README's findings): a document whose normalised text still ends in a blank
  line leaves an empty last hunk, and any element other than an action
  reaches the `unreachable!()` of the styling loop. `ParsedAsWritten` is the
  source with both panics as preconditions; `Parsed` and `Parse` drop a
  trailing empty hunk and style actions only, and `ParseAgrees` shows that
  the two coincide wherever the source returns.
 */
module Parser {
  import opened Strings
  import opened Wrappers
  import opened Types
  import opened Normaliser
  import opened Hunks
  import opened Assembly
  import opened Styles
  import opened Elements
  import Meta = Metadata
  import HunkExamples
  import Patterns

  /** The hunks `parse` hands to `hunks_to_elements`. */
  function HunksOfText(text: String): seq<Hunk> {
    HunksOf(Lines(PrepareText(text)))
  }

  /** The hunks with an empty last hunk dropped: every hunk left has a line. */
  function CorrectedHunks(text: String): (r: seq<Hunk>)
    ensures r != []
    ensures forall j :: 0 <= j < |r| ==> r[j] != []
  {
    var h := HunksOfText(text);
    HunksWellFormed(Lines(PrepareText(text)));
    if |h| > 1 && h[|h| - 1] == [] then h[..|h| - 1] else h
  }

  /** A first element that is a plain action opening with a key. */
  predicate TitleFirst(es: seq<Element>) {
    es != [] && es[0].Action? && es[0].text.Plain? && Meta.HasKeyValue(es[0].text.text)
  }

  /** The title page the elements start with, or none. */
  function MetadataOf(es: seq<Element>): Metadata {
    if TitleFirst(es) then Meta.TitlePage(es[0].text.text) else map[]
  }

  /** The elements after the title page. */
  function Body(es: seq<Element>): seq<Element> {
    if TitleFirst(es) then es[1..] else es
  }

  /** A plain action, the only element `parse_and_convert_markup` accepts. */
  predicate PlainAction(e: Element) {
    e.Action? && e.text.Plain?
  }

  predicate AllPlainActions(es: seq<Element>) {
    forall k :: 0 <= k < |es| ==> PlainAction(es[k])
  }

  /** A plain action with its text styled; any other element as it is. */
  function StyleElement(e: Element): Element {
    if PlainAction(e) then Action(StyledText(e.text.text), e.attributes) else e
  }

  /** Every element styled, in place. */
  function StyleActions(es: seq<Element>): (r: seq<Element>)
    ensures |r| == |es|
    ensures forall k :: 0 <= k < |es| ==> Kind(r[k]) == Kind(es[k])
    ensures forall k :: 0 <= k < |es| && PlainAction(es[k]) ==>
      r[k] == Action(StyledText(es[k].text.text), es[k].attributes)
    ensures forall k :: 0 <= k < |es| && !PlainAction(es[k]) ==> r[k] == es[k]
  {
    if es == [] then [] else [StyleElement(es[0])] + StyleActions(es[1..])
  }

  /** The inputs on which the source's `parse` returns: no hunk makes the
      classifier panic and every element after the title page is a plain action. */
  predicate ParsableAsWritten(text: String) {
    AllClassifiable(HunksOfText(text)) && AllPlainActions(Body(Assemble(HunksOfText(text))))
  }

  /** The source's `parse`, where it returns. */
  function ParsedAsWritten(text: String): Screenplay
    requires ParsableAsWritten(text)
  {
    var es := Assemble(HunksOfText(text));
    Screenplay(MetadataOf(es), StyleActions(Body(es)))
  }

  /** The corrected parser panics only where a section is deeper than 255. */
  predicate Parsable(text: String) {
    AllClassifiable(CorrectedHunks(text))
  }

  /** The corrected `parse`. */
  function Parsed(text: String): Screenplay
    requires Parsable(text)
  {
    var es := Assemble(CorrectedHunks(text));
    Screenplay(MetadataOf(es), StyleActions(Body(es)))
  }

  /** The hunks of `parse`: normalise, cut into lines, group, and drop an
      empty last hunk. */
  method TextToHunks(text: String) returns (hunks: seq<Hunk>)
    ensures hunks == CorrectedHunks(text)
  {
    var fountain := PrepareText(text);
    var lines := Lines(fountain);
    hunks := LinesToHunks(lines);
    if |hunks| > 1 && hunks[|hunks| - 1] == [] {
      hunks := hunks[..|hunks| - 1];
    }
  }

  /** The title page read off the first element, which is then removed. */
  method TakeTitlePage(elements: seq<Element>) returns (metadata: Metadata, rest: seq<Element>)
    ensures metadata == MetadataOf(elements) && rest == Body(elements)
  {
    metadata := map[];
    rest := elements;
    if elements != [] && elements[0].Action? && elements[0].text.Plain? && Meta.HasKeyValue(elements[0].text.text) {
      metadata := Meta.ProcessMetadata(metadata, elements[0].text.text);
      rest := elements[1..];
    }
  }

  /** One turn of the styling loop, with the panic on other elements removed. */
  method StyleOne(e: Element) returns (r: Element)
    ensures r == StyleElement(e)
  {
    r := e;
    if e.Action? && e.text.Plain? {
      r := ParseAndConvertMarkup(e);
    }
  }

  /** Each element of `StyleActions` is its element styled. */
  lemma StyleActionsAt(es: seq<Element>)
    ensures forall k :: 0 <= k < |es| ==> StyleActions(es)[k] == StyleElement(es[k])
  {
  }

  /** The styling loop, on each action in place. */
  method StyleEach(body: seq<Element>) returns (elements: seq<Element>)
    ensures elements == StyleActions(body)
  {
    elements := body;
    for i := 0 to |elements|
      invariant |elements| == |body|
      invariant forall k :: 0 <= k < i ==> elements[k] == StyleElement(body[k])
      invariant forall k :: i <= k < |elements| ==> elements[k] == body[k]
    {
      var styled := StyleOne(elements[i]);
      elements := elements[i := styled];
    }
    StyleActionsAt(body);
  }

  /** `parse`, with a trailing empty hunk dropped and only actions styled. */
  method Parse(text: String) returns (screenplay: Screenplay)
    requires Parsable(text)
    ensures screenplay == Parsed(text)
  {
    var hunks := TextToHunks(text);
    var elements := HunksToElements(hunks);
    var metadata, body := TakeTitlePage(elements);
    elements := StyleEach(body);
    screenplay := Screenplay(metadata, elements);
  }

  /** Wherever the source returns, dropping a trailing empty hunk changes nothing:
      an empty hunk is never classifiable. */
  lemma CorrectedAgrees(text: String)
    requires AllClassifiable(HunksOfText(text))
    ensures CorrectedHunks(text) == HunksOfText(text)
  {
    var h := HunksOfText(text);
    HunksWellFormed(Lines(PrepareText(text)));
    assert Classifiable(h[|h| - 1]);
  }

  /** Wherever the source returns, the corrected parser returns the same screenplay. */
  lemma ParseAgrees(text: String)
    requires ParsableAsWritten(text)
    ensures Parsable(text) && Parsed(text) == ParsedAsWritten(text)
  {
    CorrectedAgrees(text);
  }

  /** There is a title page exactly when the first element is a plain action
      opening with a key; the title page is then removed from the elements. */
  lemma ParsedTitlePage(text: String)
    requires Parsable(text)
    ensures Parsed(text).metadata != map[] <==> TitleFirst(Assemble(CorrectedHunks(text)))
    ensures |Parsed(text).elements| + (if TitleFirst(Assemble(CorrectedHunks(text))) then 1 else 0)
      == |Assemble(CorrectedHunks(text))|
  {
    var es := Assemble(CorrectedHunks(text));
    if TitleFirst(es) {
      Meta.TitlePageNotEmpty(es[0].text.text);
    }
  }

  /** The styled actions hold their text without the markup, in runs that
      are never empty and carry only the three known styles. */
  lemma StylingKeepsText(es: seq<Element>, k: nat)
    requires k < |es| && PlainAction(es[k])
    ensures var r := StyleActions(es)[k];
      && r.Action? && r.text.Styled? && r.attributes == es[k].attributes
      && Contents(r.text.runs) == Unmarked(Prepare(es[k].text.text))
      && forall j :: 0 <= j < |r.text.runs| ==> r.text.runs[j].content != [] && r.text.runs[j].textStyle <= KnownStyles
  {
    RunsCoverText(Prepare(es[k].text.text));
  }

  /** The empty document is one empty action, styled into no runs (the
      empty-action test). */
  lemma EmptyScript()
    ensures Parsable("") && Parsed("") == Screenplay(map[], [Action(Styled([]), BlankAttributes)])
  {
    assert PrepareText("") == "";
    assert Lines("") == [];
    HunkExamples.NoLines();
    assert CorrectedHunks("") == [[""]];
    assert !Patterns.IsScene("") by {
      forall k | 0 <= k < |Patterns.SceneLocators|
        ensures !StartsWith(Upper(""), Patterns.SceneLocators[k])
      {
        Patterns.SceneLocatorShape(k);
      }
    }
    assert !Patterns.HasNote("");
    Patterns.NoNotes("");
    SingleAction("");
    var e := Action(Plain(""), BlankAttributes);
    assert Classify([""]) == e;
    assert Backward([[""]]) == [e] by {
      assert [[""]][1..] == [];
    }
    assert Assemble([[""]]) == [e];
    assert !Meta.HasKeyValue("");
    assert StyledText("") == Styled([]);
  }
}
