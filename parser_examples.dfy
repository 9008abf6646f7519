/**
  The two inputs on which the source's `parse` panics, worked through the
  whole pipeline: a boneyard at the very end of a document leaves a blank
  last line and so an empty last hunk, and a dialogue block reaches the
  styling loop, which accepts only actions. On both the corrected parser
  returns.
 */
module ParserExamples {
  import opened Strings
  import opened Wrappers
  import opened Types
  import opened Normaliser
  import opened Hunks
  import opened Assembly
  import opened Elements
  import opened Parser
  import HunkExamples
  import Patterns

  /** Printable ASCII other than `/`: no line feed, no format character, and
      nothing that opens a boneyard. */
  predicate Printable(x: String) {
    forall k :: 0 <= k < |x| ==> ' ' <= x[k] <= '~' && x[k] != '/'
  }

  lemma PrintableInert(x: String)
    requires Printable(x)
    ensures Inert(x) && forall k :: 0 <= k < |x| ==> x[k] != '\n'
  {
  }

  /** A line feed after a piece without one ends the first line. */
  lemma LinesSplit(x: String, y: String)
    requires forall k :: 0 <= k < |x| ==> x[k] != '\n'
    requires x == [] || x[|x| - 1] != '\r'
    ensures Lines(x + ("\n" + y)) == [x] + Lines(y)
  {
    var s := x + ("\n" + y);
    assert s[|x|] == '\n';
    assert IndexFrom(s, 0, '\n') == |x|;
    assert s[..|x|] == x && s[|x| + 1..] == y;
  }

  /** A piece without a line feed is one line. */
  lemma LinesOne(y: String)
    requires y != [] && forall k :: 0 <= k < |y| ==> y[k] != '\n'
    ensures Lines(y) == [y]
  {
    assert IndexFrom(y, 0, '\n') == |y|;
  }

  /** A boneyard at the very end is deleted after the trailing whitespace was
      trimmed, so the blank line in front of it stays. */
  lemma PrepareTrailingBoneyard(x: String, b: String)
    requires Printable(x) && IsBoneyard(b, |b|)
    ensures PrepareText(x + ("\n\n" + b)) == x + "\n\n"
  {
    var text := x + ("\n\n" + b);
    PrintableInert(x);
    assert TrimEnd(text) == text by {
      assert text[|text| - 1] == '/';
    }
    assert text == (x + "\n\n") + b;
    ScrubPlain(x + "\n\n", b);
    ScrubBoneyard(b, []);
    assert b + [] == b;
  }

  lemma LineThenBlank(x: String)
    requires Printable(x) && HunkExamples.Plain(x)
    ensures Lines(x + "\n\n") == [x, ""]
  {
    PrintableInert(x);
    assert x + "\n\n" == x + ("\n" + "\n");
    LinesSplit(x, "\n");
    assert "\n" == [] + ("\n" + []);
    LinesSplit([], []);
  }

  /** A line and a blank line make a hunk and an empty hunk. */
  lemma HunksLineThenBlank(x: String)
    requires HunkExamples.Plain(x)
    ensures HunksOf([x, ""]) == [[x], []]
  {
    var empty: seq<Hunk> := [[]];
    assert Fold([x]) == [[x]] by {
      HunkExamples.FoldSnoc([], x);
      assert [] + [x] == [x];
      HunkExamples.StepOpen([], x);
      assert [] + empty == empty;
    }
    assert Fold([x, ""]) == [[x], []] by {
      HunkExamples.FoldSnoc([x], "");
      assert [x] + [""] == [x, ""];
      HunkExamples.StepClose([[x]]);
    }
  }

  /** A document that ends in a boneyard after a blank line leaves an empty
      last hunk, which the source cannot classify; the corrected hunks drop it. */
  lemma TrailingBoneyard(x: String, b: String)
    requires Printable(x) && HunkExamples.Plain(x) && x[0] !in ForcedMarks && IsBoneyard(b, |b|)
    ensures HunksOfText(x + ("\n\n" + b)) == [[x], []]
    ensures !ParsableAsWritten(x + ("\n\n" + b))
    ensures CorrectedHunks(x + ("\n\n" + b)) == [[x]] && Parsable(x + ("\n\n" + b))
  {
    assert MakeForced(x) == None;
    var h := HunksOfText(x + ("\n\n" + b));
    assert h == [[x], []] by {
      PrepareTrailingBoneyard(x, b);
      LineThenBlank(x);
      HunksLineThenBlank(x);
    }
    assert !Classifiable(h[1]);
    assert h[..1] == [[x]];
  }

  /** `Hello`, a blank line and a boneyard make the source panic; the
      corrected parser reads one hunk. */
  lemma TrailingBoneyardExample(text: String)
    requires text == "Hello" + ("\n\n" + "/* bones */")
    ensures !ParsableAsWritten(text)
    ensures CorrectedHunks(text) == [["Hello"]] && Parsable(text)
  {
    assert IsBoneyard("/* bones */", 11);
    assert "Hello"[0] == 'H';
    TrailingBoneyard("Hello", "/* bones */");
  }

  /** A cue and a line of speech after a blank first line and before a final
      line feed are a single hunk. */
  lemma DialogueHunks(cue: String, line: String)
    requires Printable(cue) && Printable(line) && HunkExamples.Plain(cue) && HunkExamples.Plain(line)
    ensures HunksOfText("\n" + (cue + ("\n" + (line + "\n")))) == [[cue, line]]
  {
    var text := "\n" + (cue + ("\n" + (line + "\n")));
    var kept := "\n" + (cue + ("\n" + line));
    PrintableInert(cue);
    PrintableInert(line);
    assert TrimEnd(text) == kept by {
      assert text == kept + "\n" && text[..|kept|] == kept;
    }
    assert Scrub(kept) == kept by {
      ScrubPlain(kept, []);
      assert kept + [] == kept;
    }
    DialogueLines(cue, line);
    DialogueFold(cue, line);
  }

  lemma DialogueLines(cue: String, line: String)
    requires Printable(cue) && Printable(line) && cue != [] && line != []
    ensures Lines("\n" + (cue + ("\n" + line))) == ["", cue, line]
  {
    PrintableInert(cue);
    PrintableInert(line);
    assert Lines(cue + ("\n" + line)) == [cue, line] by {
      LinesSplit(cue, line);
      LinesOne(line);
    }
    assert "\n" + (cue + ("\n" + line)) == [] + ("\n" + (cue + ("\n" + line)));
    LinesSplit([], cue + ("\n" + line));
  }

  lemma DialogueFold(cue: String, line: String)
    requires HunkExamples.Plain(cue) && HunkExamples.Plain(line)
    ensures HunksOf(["", cue, line]) == [[cue, line]]
  {
    HunkExamples.EmptyLine();
    var empty: seq<Hunk> := [[]];
    assert Step(empty, "") == empty;
    assert Fold([""]) == empty by {
      HunkExamples.FoldSnoc([], "");
      assert [] + [""] == [""];
    }
    assert Fold(["", cue]) == [[cue]] by {
      HunkExamples.FoldSnoc([""], cue);
      assert [""] + [cue] == ["", cue];
      HunkExamples.StepOpen([], cue);
      assert [] + empty == empty;
    }
    assert Fold(["", cue, line]) == [[cue, line]] by {
      HunkExamples.FoldSnoc(["", cue], line);
      assert ["", cue] + [line] == ["", cue, line];
      HunkExamples.StepJoin([], [cue], line);
      assert [] + [[cue]] == [[cue]];
      assert [cue] + [line] == [cue, line];
    }
  }

  /** An unforced, uncentred hunk opened by a cue is a dialogue block. */
  lemma ClassifyDialogue(cue: String, line: String)
    requires HunkExamples.Plain(cue) && HunkExamples.Plain(line)
    requires cue[0] !in ForcedMarks && line[0] != '>' && Patterns.IsCharacter(cue)
    ensures Classifiable([cue, line]) && Classify([cue, line]) == Dialogue.DialogueBlockOf([cue, line])
  {
    var hunk := [cue, line];
    assert MakeForced(cue) == None;
    HunkExamples.TrimUntouched(cue);
    HunkExamples.TrimUntouched(line);
    assert !Patterns.IsCentered(cue) && !Patterns.IsCentered(line);
    assert forall k :: 0 <= k < |hunk| ==> !Patterns.IsCentered(hunk[k]);
  }

  /** One hunk of several lines is one element. */
  lemma AssembleOne(hunk: seq<String>)
    requires Classifiable(hunk) && |hunk| > 1
    ensures Assemble([hunk]) == [Classify(hunk)]
  {
    assert [hunk][1..] == [];
  }

  /** A cue and one line of speech: the source's styling loop reaches
      `unreachable!()` on the dialogue block they make; the corrected parser
      leaves the block as it is. */
  lemma DialogueScript(cue: String, line: String)
    requires Printable(cue) && Printable(line) && HunkExamples.Plain(cue) && HunkExamples.Plain(line)
    requires cue[0] !in ForcedMarks && line[0] != '>' && Patterns.IsCharacter(cue)
    ensures HunksOfText("\n" + (cue + ("\n" + (line + "\n")))) == [[cue, line]]
    ensures !ParsableAsWritten("\n" + (cue + ("\n" + (line + "\n"))))
    ensures Parsable("\n" + (cue + ("\n" + (line + "\n"))))
    ensures Parsed("\n" + (cue + ("\n" + (line + "\n")))) == Screenplay(map[], [Dialogue.DialogueBlockOf([cue, line])])
  {
    DialogueElements(cue, line);
    BlockAlone(Dialogue.DialogueBlockOf([cue, line]));
  }

  /** The one hunk of a cue and a line of speech assembles into its dialogue block. */
  lemma DialogueElements(cue: String, line: String)
    requires Printable(cue) && Printable(line) && HunkExamples.Plain(cue) && HunkExamples.Plain(line)
    requires cue[0] !in ForcedMarks && line[0] != '>' && Patterns.IsCharacter(cue)
    ensures var text := "\n" + (cue + ("\n" + (line + "\n")));
      && HunksOfText(text) == [[cue, line]] && CorrectedHunks(text) == [[cue, line]]
      && AllClassifiable([[cue, line]]) && Assemble([[cue, line]]) == [Dialogue.DialogueBlockOf([cue, line])]
  {
    DialogueHunks(cue, line);
    ClassifyDialogue(cue, line);
    CorrectedAgreesOne("\n" + (cue + ("\n" + (line + "\n"))));
    AssembleOne([cue, line]);
  }

  /** A lone dialogue block, single or dual, is no title page, and the styling leaves it as it is. */
  lemma BlockAlone(e: Element)
    requires e.DialogueBlock? || e.DualDialogueBlock?
    ensures !TitleFirst([e]) && !AllPlainActions(Body([e]))
    ensures MetadataOf([e]) == map[] && StyleActions(Body([e])) == [e]
  {
    assert !PlainAction(e);
    assert Body([e]) == [e];
  }

  /** A single hunk with a line is kept by the correction. */
  lemma CorrectedAgreesOne(text: String)
    requires |HunksOfText(text)| == 1
    ensures CorrectedHunks(text) == HunksOfText(text)
  {
  }

  /** The cue-and-speech test of the dialogue tests makes the source panic;
      the corrected parser returns the dialogue block. */
  lemma DialogueExample(text: String)
    requires text == "\n" + ("DAVID" + ("\n" + ("And just what does that mean?" + "\n")))
    ensures !ParsableAsWritten(text) && Parsable(text)
    ensures Parsed(text).elements == [Dialogue.DialogueBlockOf(["DAVID", "And just what does that mean?"])]
  {
    CueLiteral("DAVID");
    SpeechLiteral("And just what does that mean?");
    DialogueScript("DAVID", "And just what does that mean?");
  }

  lemma CueLiteral(cue: String)
    requires cue == "DAVID"
    ensures Printable(cue) && HunkExamples.Plain(cue) && cue[0] !in ForcedMarks && Patterns.IsCharacter(cue)
  {
    Patterns.CharacterIff(cue);
  }

  lemma SpeechLiteral(line: String)
    requires line == "And just what does that mean?"
    ensures Printable(line) && HunkExamples.Plain(line) && line[0] != '>'
  {
  }
}
