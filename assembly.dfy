/**
  `hunks_to_elements`: every hunk becomes an element, walking the hunks from
  the last to the first so that each element sees the one that FOLLOWS it in
  the script. A single-line page break marks that following element as
  starting a new page and is itself dropped; a dialogue block slips into a
  following one-block dual dialogue; a multi-line synopsis becomes the note of
  a following section. The accumulated list is reversed at the end.
 */
module Assembly {
  import opened Strings
  import opened Types
  import opened Elements
  import opened Wrappers
  import Hunks

  /** A hunk the classifier can handle without panicking. */
  predicate Classifiable(hunk: seq<String>) {
    if |hunk| == 1 then SingleFits(hunk[0]) else MultiFits(hunk)
  }

  predicate AllClassifiable(hs: seq<seq<String>>) {
    forall j :: 0 <= j < |hs| ==> Classifiable(hs[j])
  }

  /** The element a hunk makes on its own. */
  function Classify(hunk: seq<String>): Element
    requires Classifiable(hunk)
  {
    if |hunk| == 1 then MakeSingleLineElement(hunk[0]) else MakeMultiLineElement(hunk)
  }

  /** The element with its page flag set. */
  function MarkNewPage(e: Element): (r: Element)
    requires CarriesAttributes(e)
    ensures CarriesAttributes(r) && Kind(r) == Kind(e) && r.text == e.text
    ensures r.attributes == e.attributes.(startsNewPage := true)
  {
    WithAttributes(e, e.attributes.(startsNewPage := true))
  }

  /** The section with `note` as its only note. */
  function WithNote(section: Element, note: String): (r: Element)
    requires section.Section?
    ensures r.Section? && r.text == section.text && r.level == section.level
    ensures r.attributes == section.attributes.(notes := Some([note]))
  {
    WithAttributes(section, section.attributes.(notes := Some([note])))
  }

  /** Whether a multi-line element merges into the element after it. */
  predicate Merges(e: Element, next: Element) {
    || (e.DialogueBlock? && next.DualDialogueBlock? && |next.blocks| == 1)
    || (e.Synopsis? && e.text.Plain? && next.Section?)
  }

  /** The fold's step: `acc` holds the elements after `hunk`, last in the
      script first. */
  function Absorb(acc: seq<Element>, hunk: seq<String>): (r: seq<Element>)
    requires Classifiable(hunk)
    ensures |acc| <= |r| <= |acc| + 1
    ensures forall k :: 0 <= k < |acc| - 1 ==> r[k] == acc[k]
  {
    var e := Classify(hunk);
    var n := |acc| - 1;
    if |hunk| == 1 then
      if e.PageBreak? then
        if acc != [] && CarriesAttributes(acc[n]) then acc[..n] + [MarkNewPage(acc[n])] else acc
      else acc + [e]
    else if acc != [] && Merges(e, acc[n]) then
      if e.DialogueBlock? then acc[..n] + [DualDialogueBlock([e] + acc[n].blocks)]
      else acc[..n] + [WithNote(acc[n], e.text.text)]
    else acc + [e]
  }

  /** The fold over the hunks taken from the last to the first. */
  function Backward(hs: seq<seq<String>>): (r: seq<Element>)
    requires AllClassifiable(hs)
    ensures |r| <= |hs|
  {
    if hs == [] then [] else Absorb(Backward(hs[1..]), hs[0])
  }

  function Reversed<T>(s: seq<T>): (r: seq<T>)
    ensures |r| == |s|
  {
    if s == [] then [] else Reversed(s[1..]) + [s[0]]
  }

  /** The elements of a script's hunks, in script order. */
  function Assemble(hs: seq<seq<String>>): seq<Element>
    requires AllClassifiable(hs)
  {
    Reversed(Backward(hs))
  }

  /** One step of the fold in `hunks_to_elements`, updating the last element in place. */
  method AbsorbHunk(acc: seq<Element>, hunk: seq<String>) returns (r: seq<Element>)
    requires Classifiable(hunk)
    ensures r == Absorb(acc, hunk)
  {
    r := acc;
    var n := |acc| - 1;
    if |hunk| == 1 {
      var element := MakeSingleLineElement(hunk[0]);
      if element == PageBreak {
        if acc != [] && CarriesAttributes(r[n]) {
          r := r[n := MarkNewPage(r[n])];
          Hunks.UpdateLast(acc, MarkNewPage(acc[n]));
        }
      } else {
        r := r + [element];
      }
    } else {
      var element := MakeMultiLineElement(hunk);
      if acc != [] && r[n].DualDialogueBlock? && element.DialogueBlock? && |r[n].blocks| == 1 {
        r := r[n := DualDialogueBlock([element] + r[n].blocks)];
        Hunks.UpdateLast(acc, DualDialogueBlock([element] + acc[n].blocks));
      } else if acc != [] && r[n].Section? && element.Synopsis? && element.text.Plain? {
        var note := element.text.text;
        r := r[n := WithNote(r[n], note)];
        Hunks.UpdateLast(acc, WithNote(acc[n], note));
      } else {
        r := r + [element];
      }
    }
  }

  /** `hunks_to_elements`. */
  method HunksToElements(hunks: seq<seq<String>>) returns (elements: seq<Element>)
    requires AllClassifiable(hunks)
    ensures elements == Assemble(hunks)
  {
    var acc: seq<Element> := [];
    var i := |hunks|;
    while i > 0
      invariant 0 <= i <= |hunks|
      invariant acc == Backward(hunks[i..])
    {
      i := i - 1;
      assert hunks[i..][1..] == hunks[i + 1..];
      acc := AbsorbHunk(acc, hunks[i]);
    }
    assert hunks[0..] == hunks;
    elements := [];
    var j := |acc|;
    while j > 0
      invariant 0 <= j <= |acc|
      invariant elements == Reversed(acc[j..])
    {
      j := j - 1;
      assert acc[j..][1..] == acc[j + 1..];
      elements := elements + [acc[j]];
    }
    assert acc[0..] == acc;
  }

  /** Position `k` of the reversal is position `|s| - 1 - k` of the original. */
  lemma {:induction false} ReversedIndex<T>(s: seq<T>, k: nat)
    requires k < |s|
    ensures Reversed(s)[k] == s[|s| - 1 - k]
  {
    if k < |s| - 1 {
      ReversedIndex(s[1..], k);
    }
  }

  /** Reversing twice gives back the sequence. */
  lemma ReversedTwice<T>(s: seq<T>)
    ensures Reversed(Reversed(s)) == s
  {
    forall k | 0 <= k < |s|
      ensures Reversed(Reversed(s))[k] == s[k]
    {
      ReversedIndex(Reversed(s), k);
      ReversedIndex(s, |s| - 1 - k);
    }
  }

  /** There are never more elements than hunks. */
  lemma AssembleLength(hs: seq<seq<String>>)
    requires AllClassifiable(hs)
    ensures |Assemble(hs)| <= |hs|
  {
  }

  /** Each hunk classified on its own, in script order. */
  function ClassifyEach(hs: seq<seq<String>>): (r: seq<Element>)
    requires AllClassifiable(hs)
    ensures |r| == |hs|
  {
    if hs == [] then [] else [Classify(hs[0])] + ClassifyEach(hs[1..])
  }

  /** No single-line page break, and no multi-line element that merges into the one after it. */
  predicate Separate(hs: seq<seq<String>>)
    requires AllClassifiable(hs)
  {
    && (forall j :: 0 <= j < |hs| ==> !(|hs[j]| == 1 && Classify(hs[j]).PageBreak?))
    && (forall j :: 0 <= j < |hs| - 1 ==> !(|hs[j]| != 1 && Merges(Classify(hs[j]), Classify(hs[j + 1]))))
  }

  /** Without page breaks and merges, the script is its hunks classified one by one, in order. */
  lemma SeparateHunks(hs: seq<seq<String>>)
    requires AllClassifiable(hs) && Separate(hs)
    ensures Assemble(hs) == ClassifyEach(hs)
  {
    SeparateBackward(hs);
    ReversedTwice(ClassifyEach(hs));
  }

  lemma {:induction false} SeparateBackward(hs: seq<seq<String>>)
    requires AllClassifiable(hs) && Separate(hs)
    ensures Backward(hs) == Reversed(ClassifyEach(hs))
  {
    if hs != [] {
      var tail := hs[1..];
      assert AllClassifiable(tail) && Separate(tail) by {
        assert forall j :: 0 <= j < |tail| ==> tail[j] == hs[j + 1];
      }
      SeparateBackward(tail);
      var acc := Backward(tail);
      if tail != [] {
        assert acc[|acc| - 1] == Classify(hs[1]) by {
          ReversedIndex(ClassifyEach(tail), |acc| - 1);
        }
      }
    }
  }

  /** Folding a hunk in front of classifiable hunks. */
  lemma BackwardCons(h: seq<String>, hs: seq<seq<String>>)
    requires Classifiable(h) && AllClassifiable(hs)
    ensures AllClassifiable([h] + hs)
    ensures Backward([h] + hs) == Absorb(Backward(hs), h)
  {
    assert ([h] + hs)[1..] == hs;
  }

  /** A hunk that neither breaks the page nor merges is pushed as it is. */
  lemma AbsorbPush(acc: seq<Element>, h: seq<String>)
    requires Classifiable(h)
    requires !(|h| == 1 && Classify(h).PageBreak?)
    requires !(|h| != 1 && acc != [] && Merges(Classify(h), acc[|acc| - 1]))
    ensures Absorb(acc, h) == acc + [Classify(h)]
  {
  }

  /** A single-line page break marks the element last folded, when it carries attributes. */
  lemma AbsorbPageBreak(acc: seq<Element>, p: seq<String>)
    requires Classifiable(p) && |p| == 1 && Classify(p).PageBreak?
    ensures Absorb(acc, p) == if acc != [] && CarriesAttributes(acc[|acc| - 1])
      then acc[..|acc| - 1] + [MarkNewPage(acc[|acc| - 1])] else acc
  {
  }

  /** A page break as the last hunk leaves nothing behind. */
  lemma TrailingPageBreak(hs: seq<seq<String>>, p: seq<String>)
    requires AllClassifiable(hs) && Classifiable(p) && |p| == 1 && Classify(p).PageBreak?
    ensures AllClassifiable(hs + [p])
    ensures Assemble(hs + [p]) == Assemble(hs)
  {
    BackwardCons(p, []);
    AbsorbPageBreak([], p);
    SameTail(hs, [p], []);
    assert hs + [] == hs;
  }

  /** Dropping the first of a joined sequence drops the first of its front part. */
  lemma DropFirst<T>(a: seq<T>, b: seq<T>)
    requires a != []
    ensures (a + b)[1..] == a[1..] + b && (a + b)[0] == a[0]
  {
  }

  /** Classifiable hunks joined stay classifiable. */
  lemma AllClassifiableAppend(a: seq<seq<String>>, b: seq<seq<String>>)
    requires AllClassifiable(a) && AllClassifiable(b)
    ensures AllClassifiable(a + b)
  {
    forall j | 0 <= j < |a + b|
      ensures Classifiable((a + b)[j])
    {
      if j < |a| {
        assert (a + b)[j] == a[j];
      } else {
        assert (a + b)[j] == b[j - |a|];
      }
    }
  }

  /** Hunks in front of two tails that fold alike fold alike. */
  lemma {:induction false} SameTail(hs: seq<seq<String>>, x: seq<seq<String>>, y: seq<seq<String>>)
    requires AllClassifiable(hs) && AllClassifiable(x) && AllClassifiable(y)
    requires Backward(x) == Backward(y)
    ensures AllClassifiable(hs + x) && AllClassifiable(hs + y)
    ensures Backward(hs + x) == Backward(hs + y)
  {
    AllClassifiableAppend(hs, x);
    AllClassifiableAppend(hs, y);
    if hs != [] {
      var t := hs[1..];
      assert AllClassifiable(t) by {
        assert forall j :: 0 <= j < |t| ==> t[j] == hs[j + 1];
      }
      SameTail(t, x, y);
      DropFirst(hs, x);
      DropFirst(hs, y);
      calc {
        Backward(hs + x);
        Absorb(Backward(t + x), hs[0]);
        Absorb(Backward(t + y), hs[0]);
        Backward(hs + y);
      }
    } else {
      assert hs + x == x && hs + y == y;
    }
  }

  /** Reversing two elements swaps them. */
  lemma ReversedPair<T>(x: T, y: T)
    ensures Reversed([x, y]) == [y, x]
  {
    assert [x, y][1..] == [y];
    assert Reversed([y]) == [y];
  }

  /** A page break folded onto one element carrying attributes marks it. */
  lemma PageBreakThen(p: seq<String>, b: seq<String>)
    requires Classifiable(p) && Classifiable(b)
    requires |p| == 1 && Classify(p).PageBreak?
    requires CarriesAttributes(Classify(b))
    ensures AllClassifiable([p, b])
    ensures Backward([p, b]) == [MarkNewPage(Classify(b))]
  {
    BackwardCons(b, []);
    AbsorbPush([], b);
    BackwardCons(p, [b]);
    AbsorbPageBreak([Classify(b)], p);
    assert [Classify(b)][..0] + [MarkNewPage(Classify(b))] == [MarkNewPage(Classify(b))];
    assert [p] + [b] == [p, b];
  }

  /** A page break between two hunks marks the second, which starts the new page. */
  lemma PageBreakMarksNext(a: seq<String>, p: seq<String>, b: seq<String>)
    requires Classifiable(a) && Classifiable(p) && Classifiable(b)
    requires |p| == 1 && Classify(p).PageBreak?
    requires CarriesAttributes(Classify(b))
    requires !(|a| == 1 && Classify(a).PageBreak?) && !(|a| != 1 && Merges(Classify(a), MarkNewPage(Classify(b))))
    ensures AllClassifiable([a, p, b])
    ensures Assemble([a, p, b]) == [Classify(a), MarkNewPage(Classify(b))]
  {
    PageBreakThen(p, b);
    BackwardCons(a, [p, b]);
    AbsorbPush([MarkNewPage(Classify(b))], a);
    assert [a] + [p, b] == [a, p, b];
    ReversedPair(MarkNewPage(Classify(b)), Classify(a));
  }

  /** A dialogue block followed by a one-block dual dialogue becomes the first half of it. */
  lemma DualDialoguePairs(a: seq<String>, b: seq<String>)
    requires Classifiable(a) && Classifiable(b) && |a| != 1 && |b| != 1
    requires Classify(a).DialogueBlock?
    requires Classify(b).DualDialogueBlock? && |Classify(b).blocks| == 1
    ensures AllClassifiable([a, b])
    ensures Assemble([a, b]) == [DualDialogueBlock([Classify(a), Classify(b).blocks[0]])]
  {
    BackwardPair(a, b);
    assert [Classify(a)] + Classify(b).blocks == [Classify(a), Classify(b).blocks[0]];
  }

  /** The backward fold over two hunks absorbs the first into the second's element. */
  lemma BackwardPair(a: seq<String>, b: seq<String>)
    requires Classifiable(a) && Classifiable(b) && |b| != 1
    ensures AllClassifiable([a, b])
    ensures Backward([a, b]) == Absorb([Classify(b)], a)
  {
    BackwardCons(b, []);
    AbsorbPush([], b);
    BackwardCons(a, [b]);
    assert [a] + [b] == [a, b];
  }

  /** A multi-line synopsis before a section becomes that section's one note. */
  lemma SynopsisNotesSection(s: seq<String>, b: seq<String>)
    requires Classifiable(s) && Classifiable(b) && |s| != 1
    requires Classify(s).Synopsis? && Classify(s).text.Plain?
    requires Classify(b).Section?
    ensures AllClassifiable([s, b])
    ensures Assemble([s, b]) == [WithNote(Classify(b), Classify(s).text.text)]
  {
    BackwardCons(b, []);
    AbsorbPush([], b);
    BackwardCons(s, [b]);
    assert [s] + [b] == [s, b];
  }

  /** When no multi-line hunk is a page break, no page break is left among the elements. */
  lemma NoPageBreaksLeft(hs: seq<seq<String>>)
    requires AllClassifiable(hs)
    requires forall j :: 0 <= j < |hs| ==> |hs[j]| != 1 ==> !Classify(hs[j]).PageBreak?
    ensures forall k :: 0 <= k < |Assemble(hs)| ==> !Assemble(hs)[k].PageBreak?
  {
    NoPageBreaksBackward(hs);
    forall k | 0 <= k < |Assemble(hs)|
      ensures !Assemble(hs)[k].PageBreak?
    {
      ReversedIndex(Backward(hs), k);
    }
  }

  lemma {:induction false} NoPageBreaksBackward(hs: seq<seq<String>>)
    requires AllClassifiable(hs)
    requires forall j :: 0 <= j < |hs| ==> |hs[j]| != 1 ==> !Classify(hs[j]).PageBreak?
    ensures forall k :: 0 <= k < |Backward(hs)| ==> !Backward(hs)[k].PageBreak?
  {
    if hs != [] {
      var tail := hs[1..];
      assert forall j :: 0 <= j < |tail| ==> tail[j] == hs[j + 1];
      NoPageBreaksBackward(tail);
      AbsorbNoPageBreak(Backward(tail), hs[0]);
    }
  }

  /** One step of the fold adds no page break to a list without one, unless
      the hunk is a multi-line page break. */
  lemma AbsorbNoPageBreak(acc: seq<Element>, hunk: seq<String>)
    requires Classifiable(hunk)
    requires |hunk| != 1 ==> !Classify(hunk).PageBreak?
    requires forall k :: 0 <= k < |acc| ==> !acc[k].PageBreak?
    ensures var r := Absorb(acc, hunk); forall k :: 0 <= k < |r| ==> !r[k].PageBreak?
  {
  }
}
