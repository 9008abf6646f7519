# jumpcut core, modelled in Dafny

jumpcut reads a screenplay written in Fountain, a plain-text markup for
scripts, and turns it into a `Screenplay`: a title page (a map from lower-case
keys to lists of values) and a list of `Element`s (scene headings, action,
dialogue blocks, transitions, sections, synopses, act breaks, page breaks...).
This project models the parsing pipeline of `src/lib.rs` and the helpers
around it, and proves what each stage promises:

- **Text clean-up**: `prepare_text` trims the end of the text, then deletes
  boneyards and Unicode format characters in one left-to-right pass. A boneyard
  here is what the regex `/\*[^*]*\*/` matches: a `/* ... */` comment with no
  `*` between its delimiters. So `"/* a * b */"` is kept whole, and in
  `"/*/* x */ */"` only the inner comment goes, leaving `"/* */"`, because the
  pass is not repeated. The two separate passes in `src/main.rs`
  (`remove_boneyard`, `remove_problematic_unicode`) are modelled too. Modules
  `Normaliser`, `Cleanup`.
- **Hunks**: `str::lines` and `lines_to_hunks` split the text into blocks of
  lines separated by blank lines. Section lines get a block of their own. A
  line of exactly two spaces is an intentional blank. Module `Hunks`.
- **Line patterns**: the `is_*` predicates, the act-break regular expressions,
  notes (`[[...]]`), centred text and scene numbers (`#1A#`). Module `Patterns`.
- **Elements**: `make_forced`, `make_section`, `make_synopsis`,
  `make_single_line_element` and `make_multi_line_element` (module `Elements`),
  and `make_dialogue_block` (module `Dialogue`).
- **Assembly**: `hunks_to_elements` folds the hunks from the back. A page break
  marks the following element as starting a new page. A dual-dialogue block
  takes the dialogue block before it. A synopsis hunk of several lines becomes
  the note of the section that follows it. Module `Assembly`.
- **Title page**: `has_key_value` and `process_metadata`. Module `Metadata`.
- **Parse**: `parse` glues the stages together and then styles the elements.
  The source calls the styler on every element, and the styler handles only
  actions. The model styles plain actions and keeps every other element as it
  is (see Findings). Module `Parser`.
- **Emphasis markup**: `create_styled_from_string` in `src/text_style_parser.rs`
  rewrites `***`, `**`, `*` and `_` spans into marker characters. It then walks
  the text and cuts it into styled text runs. Module `Styles`.
- **Final Draft / HTML helpers** from `jumpcut/src/converters.rs`:
  `add_fdx_formatting`, `insert_helper`, the element filter of `to_final_draft`,
  and the type-to-CSS-class table. Module `Converters`. Its class
  `ScreenplayObject` holds the screenplay that `to_final_draft` mutates in place.

The shared data types are in `Types` (the `Element`, `Attributes`,
`ElementText` and `TextRun` of `src/lib.rs`). The Rust string API the source
uses (`trim`, `trim_start_matches`, `lines`, `to_lowercase`, byte length...)
is in `Strings`. Each regular expression is modelled twice:

- as a hand-written recogniser that the operations call;
- as an independent predicate saying what the regex matches (`IsBoneyard`,
  `IsNote`, `KeyMatch`, `IsSpan`, `SceneNumberAt`, ...).

The recogniser's contract ties the two together: leftmost match, greedy
length. The `*Examples` modules state the inputs and expected outputs of the
source's own unit and integration tests as lemmas, each citing its test.

Rust's `fold` closures and `for` loops that update local state are methods
with loops here (`LinesToHunks`, `HunksToElements`, `MakeDialogueBlock`,
`ProcessMetadata`, `AddFdxFormatting`, `Parse`...). Each is proved equal to a
specification function, and the properties are proved about that function.

## Model

| member | source | states |
|---|---|---|
| Types.NameIdentifiesVariant | src/lib.rs:63-84 | two elements have the same display name exactly when they are the same variant |
| Types.WithAttributes | src/lib.rs:148-154 | replacing the attributes keeps the variant and the text; for a section it also keeps the level |
| Cleanup.RemoveProblematicUnicode | src/main.rs:22-25 | the result is no longer than the input and holds no format (Cf) character |
| Cleanup.RemoveProblematicUnicodeCounts | src/main.rs:22-25 | every character that is not a format character keeps its number of occurrences; format characters occur zero times |
| Cleanup.RemoveProblematicUnicodeAppend | src/main.rs:22-25 | the filter works character by character, so it distributes over concatenation |
| Cleanup.RemoveProblematicUnicodeIdempotent | src/main.rs:22-25 | filtering twice is filtering once |
| Cleanup.RemoveProblematicUnicodeExample | src/lib.rs:829-833 | "Hello", then U+200B, ", ", U+200D, U+FEFF and "World!" cleans to "Hello, World!" |
| Cleanup.RemoveBoneyard | src/main.rs:27-33 | the result is never longer than the input; `RemoveBoneyardKeeps` and `RemoveBoneyardFirst` state that text where no boneyard starts is kept and the first boneyard is deleted |
| Cleanup.RemoveBoneyardNoOpener | src/main.rs:27-33 | text with no `/*` is left unchanged |
| Cleanup.RemoveBoneyardPlain | src/main.rs:27-33 | a prefix without `/` is kept verbatim in front of the cleaned rest |
| Cleanup.RemoveBoneyardFront | src/main.rs:27-33 | a complete `/*...*/` comment at the front (no `*` inside) is deleted |
| Cleanup.RemoveBoneyardAround | src/main.rs:27-33 | two comments around slash-free text are both deleted and the text is kept |
| Cleanup.RemoveBoneyardExample | src/lib.rs:835-839 | the boneyard test text loses both comments, the second spanning a line break |
| Cleanup.ScrubIsCleanup | src/lib.rs:271-277 | the single regex pass of `prepare_text` (comment or Cf) equals `remove_boneyard` followed by `remove_problematic_unicode` |
| Cleanup.PrepareTextIsCleanup | src/lib.rs:271-277 | `prepare_text` is trim-end, then boneyard removal, then format-character removal |
| Cleanup.RemoveBoneyardKeeps | src/main.rs:27-33 | text in which no boneyard starts is kept verbatim in front of the cleaned rest |
| Cleanup.RemoveBoneyardFirst | src/main.rs:27-33 | the first boneyard, after text in which none starts, is deleted and the rest is cleaned on from after it |
| Cleanup.RemoveBoneyardStarInside | src/main.rs:29 | "/* a * b */" is not a boneyard, because `[^*]*` cannot cross the inner star, so it is kept whole |
| Cleanup.RemoveBoneyardSinglePass | src/main.rs:27-33 | "/*/* x */ */" loses only the inner comment; the "/* */" left behind is itself a boneyard, so the pass is not idempotent |
| Normaliser.BoneyardLen | src/lib.rs:274 | returns `Some(n)` exactly when the first n characters form a boneyard comment, and that n is unique |
| Normaliser.PrepareText | src/lib.rs:271-277 | the prepared text is no longer than the input and contains no format character; `PrepareTextFirstBoneyard` and `PrepareTextKeeps` state deletion and preservation on any text |
| Normaliser.ScrubHasNoFormat | src/lib.rs:274-276 | after the regex pass no format character is left |
| Normaliser.ScrubCons | src/lib.rs:274-276 | a character that cannot open a comment is kept unless it is a format character |
| Normaliser.ScrubDropsFormat | src/lib.rs:274-276 | a format character is deleted |
| Normaliser.ScrubPlain | src/lib.rs:274-276 | text with neither `/` nor format characters passes through unchanged |
| Normaliser.ScrubBoneyard | src/lib.rs:274-276 | a leading comment is deleted entirely |
| Normaliser.DropsFormatBetween | src/lib.rs:274-276 | format characters scattered between plain pieces all disappear and the pieces are kept in order |
| Normaliser.DropsBoneyardsAround | src/lib.rs:274-276 | comments before two plain pieces are deleted and the pieces are joined |
| Normaliser.PrepareTextAroundBoneyards | src/lib.rs:271-277 | as above for the whole `prepare_text`, when the text ends in a non-blank character |
| Normaliser.PrepareTextNotIdempotent | src/lib.rs:271-277 | trimming happens before deletion: "a " then U+200B prepares to "a ", which prepares again to "a" |
| Normaliser.PrepareTextDropsFormatCharacters | src/lib.rs:829-833 | the unicode test input prepares to "Hello, World!" |
| Normaliser.PrepareTextDropsBoneyards | src/lib.rs:835-839 | the boneyard test input prepares to "Hello, World!\n\nGoodbye!" |
| Normaliser.ScrubKeeps | src/lib.rs:274-276 | text in which no boneyard starts and no format character occurs is kept verbatim in front of the scrubbed rest |
| Normaliser.PrepareTextFirstBoneyard | src/lib.rs:271-277 | the first boneyard of the trimmed text is deleted, the text before it kept and the text after it scrubbed |
| Normaliser.PrepareTextKeeps | src/lib.rs:271-277 | when no boneyard starts and no format character occurs in the trimmed text, it is the result |
| Normaliser.PrepareTextSlashExample | src/lib.rs:271-277 | "1/2 /* x */" becomes "1/2 ": a slash without a star opens nothing |
| Normaliser.PrepareTextStarInsideExample | src/lib.rs:274 | "/* a * b */" is kept whole |
| Hunks.StripCr | src/lib.rs:214 | `lines` removes at most one trailing carriage return from each line |
| Hunks.LinesHaveNoLineFeed | src/lib.rs:214 | no line produced by `lines` contains a line feed |
| Hunks.LinesJoin | src/lib.rs:214 | for text without carriage returns and without a final line feed, joining the lines with line feeds gives the text back |
| Hunks.LastLineNotBlank | src/lib.rs:213-214 | text ending in a non-whitespace character has a last line that is not blank |
| Hunks.AddLine | src/lib.rs:280-322 | one step of the fold: the new hunk list is the specification step `Step` |
| Hunks.LinesToHunks | src/lib.rs:279-334 | the loop computes `HunksOf`: the fold of `Step`, plus the `[""]` marker for empty input |
| Hunks.KeptAppend | src/lib.rs:279-334 | keeping the visible lines distributes over concatenation |
| Hunks.StepFlatten | src/lib.rs:280-323 | each step adds exactly the visible lines of its input line to the flattened hunks |
| Hunks.FoldKeepsVisibleLines | src/lib.rs:280-323 | the fold loses no visible line and invents none, in order |
| Hunks.HunksKeepVisibleLines | src/lib.rs:279-334 | the same for `lines_to_hunks`, including the empty-input marker |
| Hunks.StepWellFormed | src/lib.rs:280-323 | a step keeps the hunks well formed: only the last hunk may be empty; a section line only opens a hunk; a section hunk holds nothing else but intentional blanks |
| Hunks.FoldWellFormed | src/lib.rs:280-323 | the fold's result is well formed |
| Hunks.HunksWellFormed | src/lib.rs:279-334 | the result of `lines_to_hunks` is well formed |
| Hunks.FoldLastEmpty | src/lib.rs:282-296 | an empty last hunk after others can only come from an invisible last line |
| Hunks.HunksNonEmpty | src/lib.rs:279-334 | when the last line is visible, or there are no lines, every hunk has a line |
| Hunks.Lines | src/lib.rs:214 | `str::lines`; its meaning is stated by `LinesHaveNoLineFeed` and `LinesJoin` |
| Hunks.HunksOf | src/lib.rs:279-334 | the hunks `lines_to_hunks` returns; their properties are `HunksWellFormed`, `HunksNonEmpty` and `HunksKeepVisibleLines` |
| HunkExamples.StepTwoSpaces | src/lib.rs:283-285 | a line of exactly two spaces joins the current hunk |
| HunkExamples.StepMarker | src/lib.rs:289-291 | a blank line after a blank line puts an empty string in the fresh hunk |
| HunkExamples.StepClose | src/lib.rs:292-294 | a blank line after text opens a new, empty hunk |
| HunkExamples.StepHeading | src/lib.rs:302-310 | a section line takes an empty last hunk, or else opens a new hunk |
| HunkExamples.StepAfterHeading | src/lib.rs:313-321 | a text line after a section hunk opens a new hunk |
| HunkExamples.StepOpen | src/lib.rs:313-321 | a text line fills an empty last hunk |
| HunkExamples.StepJoin | src/lib.rs:313-321 | a text line joins a non-section hunk |
| HunkExamples.SimpleSpacing | src/lib.rs:747-755 | a line, a blank line and two lines give two hunks |
| HunkExamples.SimpleSpacingExample | src/lib.rs:749-755 | the test's lines give `[["hello hello hello"], ["welcome back", "goodbye"]]` |
| HunkExamples.NoLines | src/lib.rs:757-764 | no lines give `[[""]]` |
| HunkExamples.SectionsAlone | src/lib.rs:766-773 | a section line followed by text lines splits into separate hunks |
| HunkExamples.SectionsAloneExample | src/lib.rs:766-773 | the test's lines give `[["# Act 1"], ["INT. HOUSE"], ["An ugly place."]]` |
| HunkExamples.TwoSections | src/lib.rs:789-800 | two section lines, a blank and two text lines give three hunks |
| HunkExamples.EvenBlankRun | src/lib.rs:282-296 | two blank lines between lines leave an empty-string line at the head of the next hunk |
| HunkExamples.IntentionalBlank | src/lib.rs:819-827 | a two-space line stays inside its hunk |
| HunkExamples.IntentionalBlankExample | src/lib.rs:820-826 | the test's lines give `[["hello hello hello"], ["welcome back", "  ", "goodbye"]]` |
| Patterns.SceneLocatorShape | src/lib.rs:17-34 | every scene locator is 4 to 9 characters long and opens with INT, EXT, EST or I/E |
| Patterns.SceneOpeners | src/lib.rs:552-555 | a scene line has at least 4 characters, and its upper-cased first three are INT, EXT, EST or I/E |
| Patterns.SceneIgnoresCase | src/lib.rs:552-555 | lower-casing a line does not change whether it is a scene heading |
| Patterns.EndActIsNewAct | src/lib.rs:562-582 | every line the end-of-act regex matches is also matched by the new-act regex (hence line 463 tests end-of-act first) |
| Patterns.EndOfActExample | src/lib.rs:562-582 | "END OF ACT ONE" matches both regexes |
| Patterns.NewActExample | src/lib.rs:562-582 | "ACT ONE" is a new act and not an end of act |
| Patterns.NoteLen | src/lib.rs:586 | returns `Some(n)` exactly when a `[[...]]` note of length n starts the text |
| Patterns.RetrieveNotes | src/lib.rs:727-740 | every retrieved note is a non-empty text without `]` |
| Patterns.NotesAccount | src/lib.rs:584-589 | the text left by `remove_notes` plus the retrieved notes and their brackets account for every character |
| Patterns.NoNotes | src/lib.rs:584-589 | text without `[[` loses nothing and yields no note |
| Patterns.NotesNeedBrackets | src/lib.rs:727-740 | any retrieved note implies `has_note` |
| Patterns.NotesPlain | src/lib.rs:584-589 | a prefix without `[` is kept verbatim and yields no note |
| Patterns.NoteFront | src/lib.rs:727-740 | a leading note is removed and retrieved first |
| Patterns.NotesBetween | src/lib.rs:727-740 | two notes among plain text are both removed and both retrieved, in order |
| Patterns.NoteAlone | src/lib.rs:584-589 | a line that is only a note becomes empty and yields that note |
| Patterns.NotesExample | tests/parse_notes_test.rs:7-25 | the test line keeps "Jack smells the liquor.  Not good. " and yields its two notes |
| Patterns.TrimCenteredMarks | src/lib.rs:596-598 | the trimmed text is never longer than the line |
| Patterns.CenteredText | src/lib.rs:596-598 | marks and spaces around a text are all removed and the text is kept |
| Patterns.CharacterIff | src/lib.rs:600-602 | a line is a character cue exactly when it has no lower-case letter |
| Patterns.SceneNumberEnd | src/lib.rs:390 | the longest scene-number match starting at i |
| Patterns.FindSceneNumber | src/lib.rs:390 | the leftmost scene-number match, and the longest there, as the regex engine picks it |
| Patterns.SceneNumberTail | src/lib.rs:432-451 | " #t#" after a heading without `#` is found exactly at its end |
| Patterns.SceneNumberExample | tests/parse_scene_heading_test.rs:75 | "INT. HOUSE - DAY #1A#" has its number at 16-21, leaves the heading and reads "1A" |
| Patterns.SceneNumberGreedy | src/lib.rs:390 | the greedy `.*` runs to the last `#`: "INT. HOUSE #1# #2#" reads the number "1# #2" |
| Patterns.RemoveNotes | src/lib.rs:584-589 | the text is never lengthened; `NotesAccount` and `NoNotes` say what is removed |
| Elements.MakeForced | src/lib.rs:620-653 | a forcing constructor exists exactly for lines starting with one of `!@~.>=#`, except `..` and `>...<`; it is a page break exactly for `=` lines whose trim starts with `===`; it is a scene heading exactly for `.` lines not starting with `..` |
| Elements.SectionLevel | src/lib.rs:655-664 | the level is never negative |
| Elements.SectionTextShorter | src/lib.rs:655-664 | the section text has no more bytes than the line |
| Elements.MakeSection | src/lib.rs:655-664 | a section with blank attributes whose level is the byte count of the `#`s and surrounding whitespace |
| Elements.SectionOf | src/lib.rs:655-664 | for `#`s, a text and trailing whitespace, the level counts the `#`s plus the trailing whitespace bytes and the text is kept |
| Elements.SectionTextOf | src/lib.rs:658 | the same line's text is the text without its `#`s |
| Elements.MakeSynopsis | src/lib.rs:670-678 | always a plain synopsis |
| Elements.SynopsisOf | src/lib.rs:670-678 | `=`s, spaces and a text give a synopsis of that text |
| Elements.BuildKind | src/lib.rs:620-678 | a forcing constructor builds a page break exactly when it is `make_page_break`, and never a dialogue block |
| Elements.BuildAttributes | src/lib.rs:620-678 | a forcing constructor keeps the attributes it is given |
| Elements.SceneNumberAttributes | src/lib.rs:407-426 | taking a scene number changes no attribute but the scene number |
| Elements.SingleScene | src/lib.rs:432-456 | an unforced scene line becomes a scene heading with its number taken out and its notes removed |
| Elements.SingleForcedScene | src/lib.rs:401-431 | a `.` line becomes a scene heading of its stripped text, with its number taken out |
| Elements.SingleAction | src/lib.rs:490-493 | any other plain line is an action with its notes removed and kept as attributes |
| Elements.SingleNewAct | src/lib.rs:461-479 | a centred act line becomes a centred `NewAct` |
| Elements.SingleLinePageBreak | src/lib.rs:388-495 | a single line is a page break exactly when it is forced with `===`; it is never a dialogue block |
| Elements.SingleLineAttributes | src/lib.rs:388-495 | the element carries the line's notes and never starts a page; only a scene heading has a scene number; it is centred exactly on the centred-text branch |
| Elements.StripEach | src/lib.rs:512-523 | stripping forcing marks keeps one entry per line |
| Elements.CenterEach | src/lib.rs:529-534 | trimming centre marks keeps one entry per line |
| Elements.EmptyCue | src/lib.rs:544 | a hunk `["", line]` (from a blank run) passes `is_character` and becomes a dialogue block with an empty cue |
| Elements.PageBreakSwallowsLines | src/lib.rs:508-526 | a multi-line hunk opened by `===` becomes a single page break and its other lines are lost |
| Elements.MakeSingleLineElement | src/lib.rs:388-495 | `make_single_line_element`; `SingleLinePageBreak`, `SingleScene`, `SingleForcedScene`, `SingleNewAct`, `SingleAction` and `SingleLineAttributes` state its cases |
| Elements.MakeMultiLineElement | src/lib.rs:497-550 | `make_multi_line_element`; `MultiLineKinds`, `PageBreakSwallowsLines` and `EmptyCue` state its cases |
| Elements.MultiLineKinds | src/lib.rs:497-550 | an unforced hunk is a dialogue block exactly when no line is centred and the first is a cue, a dual one exactly when the cue also ends in `^`; otherwise it is a plain action with the notes of the whole hunk, centred exactly when a line is |
| Dialogue.PlaceLine | src/lib.rs:686-717 | placing one line extends the children as the specification `Place` does |
| Dialogue.MakeDialogueBlock | src/lib.rs:680-725 | the loop builds `DialogueBlockOf(hunk)`: the cue as a `Character`, then the placed lines, wrapped once more when the cue ends in `^` |
| Dialogue.Place | src/lib.rs:697-716 | placing a line adds at most one element and changes nothing before the last |
| Dialogue.ChildrenShape | src/lib.rs:680-717 | the block opens with the cleaned cue; the others are parentheticals, lyrics and dialogue with no two lyrics or two dialogues in a row; there are no more children than lines |
| Dialogue.PlaceFirstDialogue | src/lib.rs:713-716 | the first spoken line after the cue opens a dialogue |
| Dialogue.PlaceNextDialogue | src/lib.rs:709-712 | a spoken line after dialogue is appended to it after a line feed |
| Dialogue.DialogueLinesMerge | src/lib.rs:686-717 | a cue and spoken lines give the cue and one dialogue whose text is the lines joined by line feeds |
| Dialogue.SpokenLineJoins | src/lib.rs:709-712 | one more spoken line extends that dialogue |
| Dialogue.OneSpokenLine | src/lib.rs:713-716 | a cue with one spoken line gives the cue and that dialogue |
| Dialogue.LineText | src/lib.rs:687-696 | a line with its notes removed is no longer than the line |
| Dialogue.DualCue | src/lib.rs:683 | a cue ending in " ^" is a dual-dialogue cue whose name drops the caret and the space |
| Dialogue.DialogueBlockOf | src/lib.rs:680-725 | the block `make_dialogue_block` returns; `ChildrenShape` and `DualCue` state its shape |
| Assembly.MarkNewPage | src/lib.rs:349-359 | marking keeps the variant and the text and sets only `starts_new_page` |
| Assembly.WithNote | src/lib.rs:376-378 | attaching a synopsis sets only the section's notes |
| Assembly.Absorb | src/lib.rs:341-382 | absorbing a hunk adds at most one element and touches nothing before the last |
| Assembly.Backward | src/lib.rs:338-383 | the backward fold never yields more elements than hunks |
| Assembly.AbsorbHunk | src/lib.rs:341-382 | the fold closure computes the specification `Absorb` |
| Assembly.HunksToElements | src/lib.rs:336-386 | the loop computes `Assemble`: the reversed backward fold |
| Assembly.ReversedIndex | src/lib.rs:384 | reversal reads the sequence from the other end |
| Assembly.ReversedTwice | src/lib.rs:340-384 | reversing twice gives the sequence back, as the `rev` and `reverse` pair relies on |
| Assembly.AssembleLength | src/lib.rs:336-386 | never more elements than hunks |
| Assembly.ClassifyEach | src/lib.rs:336-386 | classifying hunk by hunk gives one element per hunk |
| Assembly.SeparateHunks | src/lib.rs:336-386 | when no hunk merges into or marks another, the elements are the hunks classified one by one, in order |
| Assembly.SeparateBackward | src/lib.rs:338-383 | the backward fold of such hunks is the classified hunks reversed |
| Assembly.AbsorbPush | src/lib.rs:363-379 | a hunk that is neither a page break nor merged is pushed as is |
| Assembly.AbsorbPageBreak | src/lib.rs:342-362 | a page break adds nothing and marks the following element when it has attributes |
| Assembly.TrailingPageBreak | src/lib.rs:344-362 | a page break at the very end vanishes without trace |
| Assembly.PageBreakThen | src/lib.rs:344-362 | a page break before an element with attributes becomes that element's new-page mark |
| Assembly.PageBreakMarksNext | src/lib.rs:336-386 | a hunk, a page break and a hunk give two elements, the second starting a new page |
| Assembly.DualDialoguePairs | src/lib.rs:369-375 | a dialogue block followed by a one-block dual block merges into one dual block with both, in text order |
| Assembly.SynopsisNotesSection | src/lib.rs:376-378 | a multi-line synopsis hunk before a section becomes that section's note and disappears |
| Assembly.NoPageBreaksLeft | src/lib.rs:336-386 | when no multi-line hunk is a page break, no page break is left in the elements |
| Assembly.Classify | src/lib.rs:340-371 | one hunk becomes one element: a single line by `make_single_line_element`, several by `make_multi_line_element` |
| Assembly.Assemble | src/lib.rs:336-386 | the elements `hunks_to_elements` returns; `AssembleLength`, `PageBreakMarksNext`, `DualDialoguePairs`, `SynopsisNotesSection` and `NoPageBreaksLeft` state its properties |
| Metadata.KeyEnd | src/lib.rs:233-238 | the key regex matches with its colon at c exactly when `KeyEnd` is `Some(c)` |
| Metadata.KeyOf | src/lib.rs:247-252 | a line yields a key exactly when `has_key_value` holds for it |
| Metadata.KeysNotEmpty | src/lib.rs:235 | a matched key is never empty |
| Metadata.ProcessMetadata | src/lib.rs:240-269 | the loop computes `ReadAll` over the lines of the text |
| Metadata.TitleKeys | src/lib.rs:240-269 | a key is in the title page exactly when some line carries it; the current key is empty or present |
| Metadata.ReadKeepsTidy | src/lib.rs:246-267 | one line keeps every key lower-case and every value trimmed |
| Metadata.ReadTidy | src/lib.rs:240-269 | after all lines, keys are lower-case and values trimmed |
| Metadata.TidyUpdate | src/lib.rs:252-261 | inserting a lower-case key with trimmed values keeps the map tidy |
| Metadata.FirstLineKey | src/lib.rs:221-222 | when `has_key_value` holds for a text, its first line carries a key |
| Metadata.TitlePageNotEmpty | src/lib.rs:221-223 | so a text accepted as a title page yields a non-empty map |
| Metadata.KeyWithContinuations | src/lib.rs:246-267 | a bare key and key-less lines give that key with the trimmed lines as its values |
| Metadata.Indented | tests/parse_metadata_test.rs:8 | an indented value line is trimmed and carries no key |
| Metadata.TitleExample | tests/parse_metadata_test.rs:7-40 | "Title:" and two indented lines give the title with both values |
| Metadata.BlankValue | src/lib.rs:253-260 | "Key: " gives the value `[""]`, since only an empty capture gives no value |
| Metadata.TrimEach | src/lib.rs:265 | trimming keeps one value per line |
| Metadata.HasKeyValue | src/lib.rs:233-238 | the key regex matches; `KeyOf` returns a key exactly when it holds |
| Metadata.Read | src/lib.rs:246-267 | one line of `process_metadata`: a key line sets its values, any other line is appended to the current key when it exists; `TidyUpdate` and `ReadTidy` state what it keeps |
| Metadata.ReadAll | src/lib.rs:240-269 | the lines read in order; `TitleKeys` and `ReadKeepsTidy` state its properties |
| Metadata.TitlePage | src/lib.rs:240-269 | the title page read from an empty map; `TitleExample` and `TitlePageNotEmpty` state it on inputs |
| Parser.CorrectedHunks | src/lib.rs:213-215 | never empty, and no hunk in it is empty, so every hunk can be classified |
| Parser.StyleActions | src/lib.rs:227-229 | one element per element and the same variant; a plain action is styled; any other element is left unchanged |
| Parser.TextToHunks | src/lib.rs:213-215 | computes `CorrectedHunks` |
| Parser.TakeTitlePage | src/lib.rs:219-226 | returns the title page of a leading key-value action and the elements without it |
| Parser.StyleOne | src/lib.rs:227-229 | styles one element as `StyleElement` does |
| Parser.StyleEach | src/lib.rs:227-229 | the loop computes `StyleActions` |
| Parser.Parse | src/lib.rs:212-231 | computes `Parsed`: prepare, lines, hunks, elements, title page, styling |
| Parser.CorrectedAgrees | src/lib.rs:213-215 | wherever the source's hunks can all be classified, the corrected hunks are the same |
| Parser.ParseAgrees | src/lib.rs:212-231 | wherever the source's `parse` returns, the corrected parse returns the same screenplay |
| Parser.ParsedTitlePage | src/lib.rs:219-226 | the title page is non-empty exactly when the first element is a key-value action, and then exactly one element is removed |
| Parser.StylingKeepsText | src/lib.rs:227-229 | styling an action keeps its attributes; its runs spell the text without markup, each run non-empty and with known styles |
| Parser.EmptyScript | tests/parse_action_test.rs:13-19 | the empty text parses to no title page and a single empty styled action |
| Parser.HunksOfText | src/lib.rs:213-215 | the hunks `parse` builds: prepare, split into lines, group |
| Parser.ParsedAsWritten | src/lib.rs:212-231 | the screenplay the source returns when it does not panic; `ParseAgrees` relates it to `Parsed` |
| Parser.Parsed | src/lib.rs:212-231 | the corrected screenplay; `ParsedTitlePage` and `StylingKeepsText` state its properties |
| ParserExamples.TrailingBoneyard | src/lib.rs:271-277 | a line, a blank line and a trailing comment leave an empty last hunk, which the source cannot classify; the corrected hunks can be |
| ParserExamples.TrailingBoneyardExample | src/lib.rs:212-231 | "Hello\n\n/* bones */" makes the source panic; the corrected parse accepts it |
| ParserExamples.DialogueScript | tests/parse_dialogue_block_test.rs:6-21 | a cue and a line form one dialogue block; the source's styling loop panics on it; the corrected parse returns the block |
| ParserExamples.DialogueExample | tests/parse_dialogue_block_test.rs:6-21 | the DAVID test text parses, in the corrected model, to the expected dialogue block |
| Styles.SpanEnd | src/text_style_parser.rs:26-29 | when it returns a closing position, the text there is a span for that delimiter |
| Styles.SpanEndCases | src/text_style_parser.rs:26-29 | a span can only close just before or just after the first stop |
| Styles.SpanEndLongest | src/text_style_parser.rs:26-29 | when any span exists, `SpanEnd` finds one, and the longest |
| Styles.Spans | src/text_style_parser.rs:26-27 | the bold-italic and bold matchers are sound: every hit they report is well placed in the text |
| Styles.PrefixedSpans | src/text_style_parser.rs:28-29 | the italic and underline matchers, with their one-character prefix, are sound |
| Styles.CreateStyledFromString | src/text_style_parser.rs:24-188 | the method computes `StyledText`: four regex passes, unescaping, then the marker walk |
| Styles.ConvertPlainToStyled | src/text_style_parser.rs:17-22 | plain text becomes its styled text |
| Styles.ParseAndConvertMarkup | src/text_style_parser.rs:8-15 | an action keeps its attributes and gets its text styled |
| Styles.Unmarked | src/text_style_parser.rs:40-179 | deleting the markers never lengthens the text |
| Styles.FlushInvariant | src/text_style_parser.rs:180-186 | the final flush keeps the runs non-empty with known styles, and together they spell the text read |
| Styles.WalkKeeps | src/text_style_parser.rs:40-179 | the walk keeps that invariant for every prefix read |
| Styles.RunsCoverText | src/text_style_parser.rs:40-187 | the runs are non-empty, carry only Bold, Italic and Underline, and spell the prepared text without its markers |
| Styles.WalkAppend | src/text_style_parser.rs:43 | walking two pieces is walking their concatenation |
| Styles.WalkText | src/text_style_parser.rs:177 | text without markers is appended to the current run |
| Styles.PlainRuns | src/text_style_parser.rs:40-187 | text without markers gives one unstyled run, or none when it is empty |
| Styles.TextThenMark | src/text_style_parser.rs:43-177 | text then a marker is the text appended, then the marker handled |
| Styles.OpenMark | src/text_style_parser.rs:43-176 | a first marker flushes the text before it unstyled and switches its style on |
| Styles.CloseMark | src/text_style_parser.rs:43-176 | the matching marker closes a styled run and switches the style off |
| Styles.MarkedPair | src/text_style_parser.rs:43-176 | text, marker, text, marker gives an unstyled run and a styled run |
| Styles.MarkedRuns | src/text_style_parser.rs:40-187 | text with one marked span gives unstyled, styled and unstyled runs, the empty ones left out |
| Styles.ReplaceAll | src/text_style_parser.rs:30-37 | `Regex::replace_all` with one pass's matcher; `SpanPiece`, `PrefixedPiece`, `Absent` and `ShortRuns` state what it does |
| Styles.Prepare | src/text_style_parser.rs:30-38 | the four passes and the two unescapes, in the source's order |
| Styles.StyledText | src/text_style_parser.rs:24-188 | the styled text `create_styled_from_string` returns; `RunsCoverText` states that its runs spell the text without markup |
| Styles.InnerSpan | src/text_style_parser.rs:40-176 | inside an open style, a second marker pair gives its text the union of both styles and leaves the outer style on |
| Styles.CloseThenText | src/text_style_parser.rs:40-176 | the outer marker straight after an inner run closes the style without an empty run |
| Styles.NestedRuns | src/text_style_parser.rs:40-187 | one span nested in another gives the inner text the union of the two styles |
| Styles.OverlapRuns | src/text_style_parser.rs:40-187 | two spans inside an outer one each get the outer style plus their own, and the text between keeps the outer style |
| StyleExamples.ReplaceOne | src/text_style_parser.rs:31-37 | a single match is replaced by the marker around the captured text |
| StyleExamples.SpanPiece | src/text_style_parser.rs:31-34 | a delimited piece without delimiters inside is rewritten with markers |
| StyleExamples.PrefixedPiece | src/text_style_parser.rs:34-37 | the same for the italic and underline passes, whose prefix is kept |
| StyleExamples.ShortRuns | src/text_style_parser.rs:26-27 | fewer delimiters than a pass needs leave the text untouched by that pass |
| StyleExamples.Absent | src/text_style_parser.rs:31-37 | a pass whose delimiter is absent changes nothing |
| StyleExamples.UnescapeNone | src/text_style_parser.rs:38 | without backslashes unescaping changes nothing |
| StyleExamples.PreparedAs | src/text_style_parser.rs:31-43 | the styled text is the walk over the four passes and the unescaping, in the source's order |
| StyleExamples.StyledPieces | src/text_style_parser.rs:40-187 | a marked piece gives its three runs |
| StyleExamples.BoldItalicText | src/text_style_parser.rs:31 | `***b***` in plain text gives a run of b styled Bold and Italic |
| StyleExamples.BoldText | src/text_style_parser.rs:33 | `**b**` gives a Bold run |
| StyleExamples.ItalicText | src/text_style_parser.rs:34 | `*b*` gives an Italic run |
| StyleExamples.UnderlineText | src/text_style_parser.rs:35-37 | `_b_` gives an Underline run |
| StyleExamples.BoldItalicExample | src/text_style_parser.rs:227-240 | "Fuck ***this*** whole place!" gives "Fuck ", "this" in Bold and Italic, " whole place!" |
| StyleExamples.LeadingBoldExample | src/text_style_parser.rs:369-379 | "**Fuck** this whole place!" gives "Fuck" in Bold and " this whole place!" |
| StyleExamples.LeadingItalicExample | src/text_style_parser.rs:305-315 | "*Fuck* this whole place!" gives "Fuck" in Italic and " this whole place!" |
| StyleExamples.WholeUnderlineExample | src/text_style_parser.rs:447-455 | a line underlined from end to end is a single run styled Underline |
| StyleLiterals.NoSpans | src/text_style_parser.rs:24-38 | when no span can open, every pass copies the text and only the escapes are read |
| StyleLiterals.LiteralText | src/text_style_parser.rs:24-188 | marker-free text in which no span opens is one unstyled run of its unescaped self |
| StyleLiterals.EscapedDelimiter | src/text_style_parser.rs:38 | `\*` reads `*` and `\_` reads `_` |
| StyleLiterals.Unmatched | src/text_style_parser.rs:511-520 | a delimiter with no partner stays in the text, in one unstyled run |
| StyleLiterals.ClosedAfterBlank | src/text_style_parser.rs:521-535 | a second delimiter after a space does not close (`[^ \\]`): both stay, one unstyled run |
| StyleLiterals.EscapedPrepare | src/text_style_parser.rs:536-565 | a second delimiter after a backslash does not close; the escape then reads as the delimiter |
| StyleLiterals.ClosedAfterBackslash | src/text_style_parser.rs:536-565 | the same text is one unstyled run with both delimiters plain |
| StyleLiterals.SplitByLineFeed | src/text_style_parser.rs:566-580 | delimiters with a line feed between them make no span (`[^*\n]`): one unstyled run |
| StyleLiterals.LoneStarExample | src/text_style_parser.rs:512-520 | "*Fuck this whole place!" stays as it is |
| StyleLiterals.DialedExample | src/text_style_parser.rs:521-535 | "He dialed *69 and then *23, and then hung up." stays as it is |
| StyleLiterals.EscapedStarExample | src/text_style_parser.rs:536-550 | "He dialed *69 and then 23\\*, ..." reads both stars plain, in one run |
| StyleLiterals.EscapedUnderscoreExample | src/text_style_parser.rs:551-565 | the same with underscores |
| StyleLiterals.LineFeedExample | src/text_style_parser.rs:566-580 | stars on two lines make no italics: one unstyled run |
| StyleNesting.SpanAround | src/text_style_parser.rs:31-33 | the pass for n delimiters puts markers around the only span it finds |
| StyleNesting.PrefixedAround | src/text_style_parser.rs:34-37 | the italic or underline pass does the same for a span not preceded by a backslash |
| StyleNesting.UnderlineInBoldItalic | src/text_style_parser.rs:459-472 | `a***_b_***c` gives `b` Bold, Italic and Underline at once |
| StyleNesting.UnderlineBoldItalicExample | src/text_style_parser.rs:460-472 | "Fuck ***_this_*** whole place!" gives "this" in Bold, Italic and Underline |
| StyleNesting.OverlappingText | src/text_style_parser.rs:493-509 | `_a*b*c**d**_` underlines everything, and adds Italic to `b` and Bold to `d` |
| StyleNesting.OverlappingExample | src/text_style_parser.rs:494-508 | "_Fuck *this* whole **place!**_" gives the four runs the test expects |
| ElementExamples.NoBracket | src/lib.rs:584-618 | a line without `[` has no note, loses nothing and carries no notes |
| ElementExamples.SceneNumberCut | src/lib.rs:432-451 | " #t#" after a heading is cut off and t becomes the scene number |
| ElementExamples.NumberedSceneHeading | src/lib.rs:432-451 | a numbered scene line becomes the heading with its number as an attribute |
| ElementExamples.ForcedSceneHeading | src/lib.rs:401-426 | the same for a forced `.` heading |
| ElementExamples.NumberedHeadingExample | tests/parse_scene_heading_test.rs:72-97 | "INT. HOUSE - DAY #1A#" gives the heading "INT. HOUSE - DAY" numbered "1A" |
| ElementExamples.ForcedHeadingExample | tests/parse_scene_heading_test.rs:81 | ".INSIDE THE BUS #12#" gives "INSIDE THE BUS" numbered "12" |
| ElementExamples.Ellipsis | src/lib.rs:625-632 | a line starting with `...` is not forced and stays an action |
| ElementExamples.EllipsisExample | tests/parse_scene_heading_test.rs:59-69 | "...and lowers his guns." is an action |
| ElementExamples.IntercutTests | src/lib.rs:552-560 | "INTERCUT HOUSE / BARN" is not forced, not a scene, not a transition and not centred |
| ElementExamples.NotALocator | tests/parse_scene_heading_test.rs:32-42 | so it is an action |
| ElementExamples.NoLocator | src/lib.rs:552-555 | a line not starting with I or E in either case is not a scene heading |
| ElementExamples.CenteredMarksOf | src/lib.rs:596-598 | "> t <" trims to t |
| ElementExamples.CenteredLine | src/lib.rs:591-594 | "> t <" is centred and takes the centred branch |
| ElementExamples.CenteredAct | src/lib.rs:461-479 | a centred act name is a centred `NewAct` |
| ElementExamples.CenteredActExample | tests/parse_act_break_test.rs:6-13 | "> ACT ONE <" is a centred `NewAct` "ACT ONE" |
| Converters.BelowTotal | jumpcut/src/converters.rs:108 | the string order used for sorting is total |
| Converters.BelowAntisymmetric | jumpcut/src/converters.rs:108 | and antisymmetric |
| Converters.BelowTransitive | jumpcut/src/converters.rs:108 | and transitive |
| Converters.InsertSorted | jumpcut/src/converters.rs:108 | inserting into a sorted list keeps it sorted and adds exactly that element |
| Converters.SortStrings | jumpcut/src/converters.rs:108 | the result is sorted and a permutation of the input |
| Converters.SortedUnique | jumpcut/src/converters.rs:108 | two sorted permutations of one list are equal, so any sort gives the same result |
| Converters.Insert | jumpcut/src/converters.rs:73-75 | the key maps to the one-value list and every other key is unchanged |
| Converters.FdxFormatting | jumpcut/src/converters.rs:78-115 | the five format keys are set from the options and every other key is kept |
| Converters.StylesSorted | jumpcut/src/converters.rs:95-109 | the scene heading styles are sorted and hold AllCaps plus Bold and Underline when asked for |
| Converters.ReadOptions | jumpcut/src/converters.rs:93-103 | the option loop yields, in any iteration order, the styles and the four values the options select |
| Converters.SortedStyles | jumpcut/src/converters.rs:108-109 | sorting and joining the collected styles gives the scene heading style |
| Converters.AddFdxFormatting | jumpcut/src/converters.rs:78-115 | the method computes `FdxFormatting` |
| Converters.FdxFormattingIdempotent | jumpcut/src/converters.rs:78-115 | formatting twice is formatting once |
| Converters.FmtFirstValueOnly | jumpcut/src/converters.rs:90-92 | only the first `fmt` value counts, and its case is ignored |
| Converters.FinalDraftElements | jumpcut/src/converters.rs:18-21 | keeps exactly the elements other than page breaks, sections and synopses |
| Converters.RetainFinalDraftElements | jumpcut/src/converters.rs:18-21 | the loop computes `FinalDraftElements` |
| Converters.FinalDraftElementsAppend | jumpcut/src/converters.rs:18-21 | filtering distributes over concatenation, so order is kept |
| Converters.FinalDraftElementsKeepsCompatible | jumpcut/src/converters.rs:18-21 | a list of compatible elements is kept whole |
| Converters.FinalDraftElementsIdempotent | jumpcut/src/converters.rs:18-21 | filtering twice is filtering once |
| Converters.ScreenplayObject.constructor | jumpcut/src/converters.rs:10-13 | the object holds the given title page and elements |
| Converters.ScreenplayObject.PrepareFinalDraft | jumpcut/src/converters.rs:12-21 | the title page gets the format keys and the elements lose those Final Draft cannot show |
| Converters.ClassRoundTrip | jumpcut/src/converters.rs:130-144 | each of the twelve element names maps to a different CSS class, and the class maps back to the name |
| Converters.SpokenClasses | jumpcut/src/converters.rs:131-137 | the same for action, character, scene heading, lyric, parenthetical and dialogue |
| Converters.OutlineClasses | jumpcut/src/converters.rs:136-139 | the same for transition, section and synopsis |
| Converters.ActClasses | jumpcut/src/converters.rs:140-142 | the same for cold opening, new act and end of act |
| Converters.ClassPassThrough | jumpcut/src/converters.rs:143 | any other element name passes through unchanged |
| ConverterExamples.DefaultsExample | jumpcut/src/converters.rs:162-177 | an empty title page gets AllCaps, 24, 1, no action style and Courier Prime |
| ConverterExamples.BoldUnderlineOptions | jumpcut/src/converters.rs:179-188 | "bsh ush" reads as the two options |
| ConverterExamples.BoldUnderlineExample | jumpcut/src/converters.rs:179-188 | and gives the scene heading style "AllCaps+Bold+Underline" |
| ConverterExamples.CapitalActionExample | jumpcut/src/converters.rs:190-198 | "acat" sets the action text style to AllCaps |
| ConverterExamples.DoubleSpacedExample | jumpcut/src/converters.rs:200-208 | "dsd" sets the dialogue spacing to 2 |
| ConverterExamples.FinalDraftFontExample | jumpcut/src/converters.rs:210-218 | "cfd" selects Courier Final Draft |
| ConverterExamples.TwoOptions | jumpcut/src/converters.rs:91-92 | two lower-case words separated by a space are two options |
| ConverterExamples.OneOption | jumpcut/src/converters.rs:91-92 | one lower-case word is one option |

## Left out

- Graphemes: `create_styled_from_string` walks extended grapheme clusters; the model walks characters. Only the four marker characters are handled one at a time, and clusters do not matter for them.
- The debugging `println!` in `create_styled_from_string` and the commented-out ones in `parse` are output only and are not modelled.
- Iteration order of the `HashSet` of `fmt` options: the model reads the options as a set in any order and proves the result independent of it (`Converters.ReadOptions`).
- Case mapping: `to_uppercase` and `to_lowercase` are modelled for ASCII letters only; other letters are left as they are.
- Unicode tables: `trim` uses the Unicode White_Space list. Format characters (`\p{gc:Cf}`, `is_other_format`) are a fixed table of the Cf code points.
- Patterns.IsDigit: `\d` in the act regexes (src/lib.rs:565, src/lib.rs:576) matches any Unicode decimal digit (category Nd) in the `regex` crate; the model accepts ASCII `0`-`9` only, so "act ٣" is a new act in the source and not in the model.
- Elements.MakeSection: requires the section level to fit in a `u8`; the source panics in `try_into().unwrap()` when it does not.
- Parser.Parse: models the corrected parse. The source's own behaviour, including its panics, is `Parser.ParsedAsWritten` and `Parser.ParsableAsWritten`, related to it by `Parser.ParseAgrees` (see Findings).
- Converters.SortStrings: an insertion sort stands for `sort_unstable`. `Converters.SortedUnique` shows that every correct sort gives the same list.
- Converters.ClassRoundTrip: the Handlebars plumbing of `type_to_class_helper` (parameter fetch, rendering, write errors) is left out; only the name-to-class table is modelled. The camelCase shape of the classes is not stated; the inverse table is proved instead.
- Reading files, the command line, the Handlebars templates, JSON and serde serialisation, `to_html`, `style_helper` and the rest of `to_final_draft` (rendering, error printing) are I/O or library code and are not modelled.
- The `ScreenplayObject` class keeps the title page and elements as `map` and `seq` fields; `HashMap` hashing and `Vec` capacity are not modelled.
- src/converters.rs (the older converter module) is not part of this model.

## Findings

| source | as written | input that shows it | evidently intended | confidence | as-written member | corrected member |
|---|---|---|---|---|---|---|
| src/lib.rs:271-277 | `prepare_text` trims the end of the text before it deletes boneyards. A trailing comment after a blank line leaves a trailing blank line, so `lines_to_hunks` ends with an empty hunk. `make_multi_line_element` then indexes `hunk[0]` of that empty hunk and panics. | `"Hello\n\n/* bones */"` | the script "Hello" parses to one action; a trailing empty hunk is dropped | not executed | ParserExamples.TrailingBoneyardExample | Parser.CorrectedHunks |
| src/lib.rs:227-229 | `parse` calls `parse_and_convert_markup` on every element. That function reaches `unreachable!()` for anything but an action (src/text_style_parser.rs:8-15), so any script with a dialogue block, scene heading or other non-action element panics. | `"\nDAVID\nAnd just what does that mean?\n"` | only plain actions are styled; other elements are kept as they are (as tests/parse_dialogue_block_test.rs:6-21 expects) | not executed | ParserExamples.DialogueExample | Parser.StyleActions |
