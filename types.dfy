/**
  The parser's data: the screenplay elements, their attributes, their text
  (plain, or styled as a list of runs) and the title-page metadata.
 */
module Types {
  import opened Strings
  import opened Wrappers

  /** A piece of styled text; its style set holds the names `Bold`, `Italic`, `Underline`. */
  datatype TextRun = TextRun(content: String, textStyle: set<String>)

  datatype ElementText = Plain(text: String) | Styled(runs: seq<TextRun>)

  datatype Attributes = Attributes(
    centered: bool,
    startsNewPage: bool,
    sceneNumber: Option<String>,
    notes: Option<seq<String>>)

  /** `blank_attributes`. */
  const BlankAttributes: Attributes := Attributes(false, false, None, None)

  /** Rust's `u8`, the type of a section's level. */
  newtype uint8 = x: int | 0 <= x < 256

  datatype Element =
    | Action(text: ElementText, attributes: Attributes)
    | Character(text: ElementText, attributes: Attributes)
    | SceneHeading(text: ElementText, attributes: Attributes)
    | Lyric(text: ElementText, attributes: Attributes)
    | Parenthetical(text: ElementText, attributes: Attributes)
    | Dialogue(text: ElementText, attributes: Attributes)
    | DialogueBlock(block: seq<Element>)
    | DualDialogueBlock(blocks: seq<Element>)
    | Transition(text: ElementText, attributes: Attributes)
    | Section(text: ElementText, attributes: Attributes, level: uint8)
    | Synopsis(text: ElementText)
    | ColdOpening(text: ElementText, attributes: Attributes)
    | NewAct(text: ElementText, attributes: Attributes)
    | EndOfAct(text: ElementText, attributes: Attributes)
    | PageBreak

  /** The variants that carry text and attributes; a page break marks only these. */
  predicate CarriesAttributes(e: Element) {
    e.Action? || e.Character? || e.SceneHeading? || e.Lyric? || e.Parenthetical?
    || e.Dialogue? || e.Transition? || e.ColdOpening? || e.NewAct? || e.EndOfAct?
  }

  /** The element with its attributes replaced; an element without attributes is returned as it is. */
  function WithAttributes(e: Element, a: Attributes): (r: Element)
    ensures Kind(r) == Kind(e)
    ensures (CarriesAttributes(e) || e.Section?) ==> r.attributes == a && r.text == e.text
    ensures e.Section? ==> r.level == e.level
  {
    match e
    case Action(t, _) => Action(t, a)
    case Character(t, _) => Character(t, a)
    case SceneHeading(t, _) => SceneHeading(t, a)
    case Lyric(t, _) => Lyric(t, a)
    case Parenthetical(t, _) => Parenthetical(t, a)
    case Dialogue(t, _) => Dialogue(t, a)
    case Transition(t, _) => Transition(t, a)
    case Section(t, _, level) => Section(t, a, level)
    case ColdOpening(t, _) => ColdOpening(t, a)
    case NewAct(t, _) => NewAct(t, a)
    case EndOfAct(t, _) => EndOfAct(t, a)
    case _ => e
  }

  /** A key of the title page mapped to its values. */
  type Metadata = map<String, seq<String>>

  datatype Screenplay = Screenplay(metadata: Metadata, elements: seq<Element>)

  /** `Element::name`: the display name of each variant. */
  function Name(e: Element): String {
    match e
    case Action(_, _) => "Action"
    case Character(_, _) => "Character"
    case SceneHeading(_, _) => "Scene Heading"
    case Lyric(_, _) => "Lyric"
    case Parenthetical(_, _) => "Parenthetical"
    case Dialogue(_, _) => "Dialogue"
    case DialogueBlock(_) => "Dialogue Block"
    case DualDialogueBlock(_) => "Dual Dialogue Block"
    case Transition(_, _) => "Transition"
    case Section(_, _, _) => "Section"
    case Synopsis(_) => "Synopsis"
    case ColdOpening(_, _) => "Cold Opening"
    case NewAct(_, _) => "New Act"
    case EndOfAct(_, _) => "End of Act"
    case PageBreak => "Page Break"
  }

  /** The variant of an element, without its contents. */
  function Kind(e: Element): nat {
    match e
    case Action(_, _) => 0
    case Character(_, _) => 1
    case SceneHeading(_, _) => 2
    case Lyric(_, _) => 3
    case Parenthetical(_, _) => 4
    case Dialogue(_, _) => 5
    case DialogueBlock(_) => 6
    case DualDialogueBlock(_) => 7
    case Transition(_, _) => 8
    case Section(_, _, _) => 9
    case Synopsis(_) => 10
    case ColdOpening(_, _) => 11
    case NewAct(_, _) => 12
    case EndOfAct(_, _) => 13
    case PageBreak => 14
  }

  /** Two elements have the same name exactly when they are the same variant. */
  lemma NameIdentifiesVariant(a: Element, b: Element)
    ensures Name(a) == Name(b) <==> Kind(a) == Kind(b)
  {
  }
}
