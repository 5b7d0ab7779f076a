/** The classifier against its specification, at any nesting depth: a nested field that starts at or
    before the eightbyte adds what is specified; one that starts inside it does so if its elements are
    visited and none of its scalars is above the class it calls for; and for the element sizes that
    leave it unvisited the class is right exactly if another field stands in for it. */
module Classifier {
  import opened Aggregate
  import opened Classify
  import opened ClassifyBounded
  import opened ClassifyOrder
  import opened ClassifySeen
  import opened ClassifySpec
  import opened ClassifyWindow
  import opened Arithmetic

  /** The code adds the specified class for the field. */
  ghost predicate FieldSound(f: Field, index: nat, offset: nat)
    decreases f, 3, 0
  {
    Entered(f, index, offset) ==>
      && ElementsSound(f.typ.sub, index, offset, f.size, 0, f.arrayLen)
      && (offset <= 8 * index || LateSound(f, index, offset))
  }

  ghost predicate LateSound(f: Field, index: nat, offset: nat)
    requires f.typ.Sub?
  {
    && Visited(f.size) && Multiple(f.size, f.alignment)
    && Bounded(f.typ.sub, Expected(OfField(f, offset), 8 * index))
  }

  /** No element of the field is visited. */
  predicate FieldMissed(f: Field, index: nat, offset: nat) {
    Entered(f, index, offset) && offset > 8 * index && f.arrayLen > 0 && !Visited(f.size)
  }

  /** Which fields are sound. */
  ghost function SoundFields(ag: Aggr, index: nat, base: nat): seq<bool>
    decreases ag, 0, 0
  {
    seq(|ag.fields|, k requires 0 <= k < |ag.fields| => FieldSound(ag.fields[k], index, base + ag.fields[k].offset))
  }

  /** Every field is sound, or missed but without consequence: it calls for no class, or a sound field
      calls for one that covers it. */
  ghost predicate Sound(ag: Aggr, index: nat, base: nat)
    decreases ag, 1, 0
  {
    OnlyMissed(ag, index, base) && forall k :: 0 <= k < |ag.fields| ==>
      SoundFields(ag, index, base)[k] || StoodIn(SoundFields(ag, index, base), SpecClasses(ag.fields, index, base), k)
  }

  /** Fields that are not sound are missed. */
  ghost predicate OnlyMissed(ag: Aggr, index: nat, base: nat)
    decreases ag, 0, 1
  {
    forall k :: 0 <= k < |ag.fields| ==>
      SoundFields(ag, index, base)[k] || FieldMissed(ag.fields[k], index, base + ag.fields[k].offset)
  }

  ghost predicate ElementsSound(sub: Aggr, index: nat, offset: nat, size: nat, j: nat, k: nat)
    decreases sub, 2, if j < k then k - j else 0
  {
    j < k ==>
      && Sound(sub, index, offset + size * j)
      && ElementsSound(sub, index, offset, size, j + 1, k)
  }

  // ----- a whole aggregate -----

  /** The code's contribution of each field is the specified one, or nothing. */
  lemma {:induction false} Contribution(ag: Aggr, index: nat, base: nat, k: nat)
    requires WellFormed(ag) && index < 2 && base + ag.size <= 16 && k < |ag.fields|
    requires SoundFields(ag, index, base)[k] || FieldMissed(ag.fields[k], index, base + ag.fields[k].offset)
    ensures FieldClasses(ag.fields, index, base)[k]
            == if SoundFields(ag, index, base)[k] then SpecClasses(ag.fields, index, base)[k] else NONE
    decreases ag, 0, 0
  {
    var f := ag.fields[k];
    assert f in ag.fields;
    assert ToSize(base + f.offset) == base + f.offset;
    if FieldSound(f, index, base + f.offset) {
      FieldContribution(f, index, base + f.offset);
    } else {
      MissedContribution(f, index, base + f.offset);
    }
  }

  lemma ByHighest(ag: Aggr, index: nat, base: nat)
    ensures CodeClass(ag, index, base) == Highest(FieldClasses(ag.fields, index, base))
    ensures Expected(Leaves(ag, base), 8 * index) == Highest(SpecClasses(ag.fields, index, base))
  {
    ClassIsHighest(ag, index, base);
    ExpectedIsHighest(ag, index, base);
  }

  /** With no fields but sound and missed ones the class is the specified one exactly if the missed
      ones are without consequence. */
  lemma {:induction false} MissedFieldsIff(ag: Aggr, index: nat, base: nat)
    requires WellFormed(ag) && index < 2 && base + ag.size <= 16 && OnlyMissed(ag, index, base)
    ensures CodeClass(ag, index, base) == Expected(Leaves(ag, base), 8 * index) <==> Sound(ag, index, base)
    decreases ag, 0, 1
  {
    var found, wanted := FieldClasses(ag.fields, index, base), SpecClasses(ag.fields, index, base);
    var sound := SoundFields(ag, index, base);
    forall k | 0 <= k < |ag.fields|
      ensures found[k] == if sound[k] then wanted[k] else NONE
    {
      Contribution(ag, index, base, k);
    }
    ByHighest(ag, index, base);
    HighestIff(found, wanted, sound);
  }

  /** For any nesting, the class the code computes for an eightbyte is the specified one. */
  lemma {:induction false} CodeMeetsSpec(ag: Aggr, index: nat, base: nat)
    requires WellFormed(ag) && index < 2 && base + ag.size <= 16 && Sound(ag, index, base)
    ensures CodeClass(ag, index, base) == Expected(Leaves(ag, base), 8 * index)
    decreases ag, 1, 0
  {
    MissedFieldsIff(ag, index, base);
  }

  // ----- one field -----

  /** What the loop body does with a sound field is what the field's leaves call for. */
  lemma {:induction false} FieldContribution(f: Field, index: nat, offset: nat)
    requires f.size == TypeSize(f.typ) && f.alignment == TypeAlignment(f.typ) && (f.typ.Sub? ==> WellFormed(f.typ.sub))
    requires index < 2 && offset + f.size * f.arrayLen <= 16
    requires FieldSound(f, index, offset)
    ensures FieldClass(f, index, offset) == Expected(OfField(f, offset), 8 * index)
    decreases f, 4, 0
  {
    if Outside(f, offset, 8 * index) {
      FieldOutside(f, 8 * index, offset);
    } else if Misaligned(f.alignment, offset) {
      FieldMisaligned(f, 8 * index, offset);
    } else if Entered(f, index, offset) && offset > 8 * index {
      LateMeetsSpec(f, index, offset);
    } else {
      FieldMeetsSpec(f, index, offset);
    }
  }

  lemma MissedContribution(f: Field, index: nat, offset: nat)
    requires index < 2 && offset + f.size * f.arrayLen <= 16 && FieldMissed(f, index, offset)
    ensures FieldClass(f, index, offset) == NONE
  {
    LateMissed(8 * index, offset, f.size, f.arrayLen);
    var j, k := WindowStart(8 * index, offset, f.size), WindowEnd(8 * index, offset, f.size, f.arrayLen);
    assert CodeElements(f.typ.sub, index, offset, f.size, j, k, NONE) == NONE;
  }

  /** A field that overlaps the eightbyte and is aligned contributes its own class, or what its
      elements contribute. */
  lemma {:induction false} FieldMeetsSpec(f: Field, index: nat, offset: nat)
    requires f.size == TypeSize(f.typ) && (f.typ.Sub? ==> WellFormed(f.typ.sub))
    requires index < 2 && offset + f.size * f.arrayLen <= 16
    requires !Outside(f, offset, 8 * index) && !Misaligned(f.alignment, offset)
    requires FieldSound(f, index, offset) && (Entered(f, index, offset) ==> offset <= 8 * index)
    ensures CodeField(f, index, offset) == Expected(OfField(f, offset), 8 * index)
    decreases f, 3, 0
  {
    var q := 8 * index;
    var own := [Leaf(offset, f.size * f.arrayLen, f.alignment, ScalarClass(f.typ))];
    assert own[0] in own && forall x <- own :: x == own[0];
    if f.typ.Sub? && f.size != 0 {
      ExpectedConcat(own, ElementLeaves(f.typ.sub, offset, f.size, 0, f.arrayLen), q);
      ArrayMeetsSpec(f, index, offset);
    } else {
      assert OfField(f, offset) == own;
    }
  }

  lemma {:induction false} ArrayMeetsSpec(f: Field, index: nat, offset: nat)
    requires f.typ.Sub? && WellFormed(f.typ.sub) && f.size == f.typ.sub.size
    requires index < 2 && offset + f.size * f.arrayLen <= 16 && Entered(f, index, offset)
    requires FieldSound(f, index, offset) && offset <= 8 * index
    ensures CodeField(f, index, offset) == Expected(ElementLeaves(f.typ.sub, offset, f.size, 0, f.arrayLen), 8 * index)
    decreases f, 2
  {
    var q, size, n := 8 * index, f.size, f.arrayLen;
    assert n > 0;
    WindowEdges(q, offset, size, n);
    var j, k := WindowStart(q, offset, size), WindowEnd(q, offset, size, n);
    ElementsMeetSpec(f.typ.sub, index, offset, size, j, k, n, NONE);
    OnlyWindowCounts(f.typ.sub, q, offset, size, j, k, n);
  }

  lemma {:induction false} ElementMeetsSpec(sub: Aggr, index: nat, offset: nat, size: nat, e: nat, arrayLen: nat)
    requires WellFormed(sub) && size == sub.size && e < arrayLen
    requires index < 2 && offset + size * arrayLen <= 16
    requires ElementsSound(sub, index, offset, size, 0, arrayLen)
    ensures CodeClass(sub, index, ToInt(ToSize(offset + size * e))) == Expected(Leaves(sub, offset + size * e), 8 * index)
    decreases sub, 2, 1
  {
    ElementFits(offset, size, e, arrayLen);
    SoundElement(sub, index, offset, size, 0, e, arrayLen);
    ConvertedMeetsSpec(sub, index, offset + size * e);
  }

  lemma ElementFits(offset: nat, size: nat, e: nat, arrayLen: nat)
    requires e < arrayLen
    ensures 0 <= size * e && size * e + size <= size * arrayLen
  {
    MulMono(size, 0, e);
    MulMono(size, e + 1, arrayLen);
    Distribute(size, e, 1);
  }

  lemma {:induction false} ConvertedMeetsSpec(sub: Aggr, index: nat, at: nat)
    requires WellFormed(sub) && index < 2 && at + sub.size <= 16 && Sound(sub, index, at)
    ensures CodeClass(sub, index, ToInt(ToSize(at))) == Expected(Leaves(sub, at), 8 * index)
    decreases sub, 2, 0
  {
    CodeMeetsSpec(sub, index, at);
  }

  lemma {:induction false} ElementsMeetSpec(sub: Aggr, index: nat, offset: nat, size: nat, j: nat, k: nat, arrayLen: nat, clz: Class)
    requires WellFormed(sub) && size == sub.size && j <= k <= arrayLen
    requires index < 2 && offset + size * arrayLen <= 16
    requires ElementsSound(sub, index, offset, size, 0, arrayLen)
    ensures CodeElements(sub, index, offset, size, j, k, clz) ==
              Merge(clz, Expected(ElementLeaves(sub, offset, size, j, k), 8 * index))
    decreases sub, 3, k - j
  {
    var q := 8 * index;
    if j < k {
      var at := offset + size * j;
      ElementMeetsSpec(sub, index, offset, size, j, arrayLen);
      var element := Expected(Leaves(sub, at), q);
      ElementsMeetSpec(sub, index, offset, size, j + 1, k, arrayLen, Merge(clz, element));
      ExpectedConcat(Leaves(sub, at), ElementLeaves(sub, offset, size, j + 1, k), q);
      MergeIsJoin(clz, element, Expected(ElementLeaves(sub, offset, size, j + 1, k), q));
    }
  }

  lemma {:induction false} SoundElement(sub: Aggr, index: nat, offset: nat, size: nat, i: nat, j: nat, k: nat)
    requires i <= j < k && ElementsSound(sub, index, offset, size, i, k)
    ensures Sound(sub, index, offset + size * j)
    decreases j - i
  {
    if i < j {
      SoundElement(sub, index, offset, size, i + 1, j, k);
    }
  }

  // ----- a field that starts inside the eightbyte -----

  /** The elements visited before the array cannot add a higher class, and the one that decides is
      visited as well. */
  lemma {:induction false} LateMeetsSpec(f: Field, index: nat, offset: nat)
    requires f.size == TypeSize(f.typ) && f.alignment == TypeAlignment(f.typ) && f.typ.Sub? && WellFormed(f.typ.sub)
    requires index < 2 && offset + f.size * f.arrayLen <= 16 && offset > 8 * index
    requires Entered(f, index, offset) && FieldSound(f, index, offset)
    ensures CodeField(f, index, offset) == Expected(OfField(f, offset), 8 * index)
    decreases f, 3, 0
  {
    var c := Expected(OfField(f, offset), 8 * index);
    AlignmentIsPowerOfTwo(f.typ.sub);
    AlignedIff(offset, f.alignment);
    FieldTidy(f, c, offset);
    BoundedField(f, c, index, offset);
    assert FieldClass(f, index, offset) == CodeField(f, index, offset);
    if c != NONE {
      var e := DecidingElement(f, c, 8 * index, offset);
      LateElementCounts(f, index, offset, e);
      MergeIsJoin(c, CodeField(f, index, offset), c);
    }
  }

  /** A real element that overlaps the eightbyte is visited, and its class is kept. */
  lemma {:induction false} LateElementCounts(f: Field, index: nat, offset: nat, e: nat)
    requires f.typ.Sub? && f.size == f.typ.sub.size && WellFormed(f.typ.sub) && Visited(f.size)
    requires index < 2 && offset + f.size * f.arrayLen <= 16 && 8 * index < offset < 8 * index + 8
    requires e < f.arrayLen && ElementOverlaps(8 * index, offset, f.size, e)
    requires ElementsSound(f.typ.sub, index, offset, f.size, 0, f.arrayLen)
    ensures var r := CodeField(f, index, offset);
            Merge(r, Expected(Leaves(f.typ.sub, offset + f.size * e), 8 * index)) == r
    decreases f, 2, 0
  {
    ElementMeetsSpec(f.typ.sub, index, offset, f.size, e, f.arrayLen);
    VisitedCounts(f, index, offset, e);
  }

  lemma VisitedCounts(f: Field, index: nat, offset: nat, e: nat)
    requires f.typ.Sub? && Visited(f.size) && index < 2
    requires offset + f.size * f.arrayLen <= 16 && 8 * index < offset < 8 * index + 8
    requires e < f.arrayLen && ElementOverlaps(8 * index, offset, f.size, e)
    ensures var r := CodeField(f, index, offset);
            Merge(r, CodeClass(f.typ.sub, index, ToInt(ToSize(offset + f.size * e)))) == r
  {
    var j, k := WindowStart(8 * index, offset, f.size), WindowEnd(8 * index, offset, f.size, f.arrayLen);
    LateVisited(8 * index, offset, f.size, f.arrayLen, e);
    ElementCounts(f.typ.sub, index, offset, f.size, j, k, NONE, e);
  }

  /** The loop over the elements keeps the class it starts with and that of each element. */
  lemma {:induction false} ElementCounts(sub: Aggr, index: nat, offset: nat, size: nat, j: int, k: int, clz: Class, e: int)
    requires j <= e < k
    ensures var r := CodeElements(sub, index, offset, size, j, k, clz);
            Merge(r, CodeClass(sub, index, ToInt(ToSize(offset + size * e)))) == r
    decreases k - j
  {
    var element := CodeClass(sub, index, ToInt(ToSize(offset + size * j)));
    if j < e {
      ElementCounts(sub, index, offset, size, j + 1, k, Merge(clz, element), e);
    } else {
      LoopKeeps(sub, index, offset, size, j + 1, k, Merge(clz, element));
      MergeIsJoin(CodeElements(sub, index, offset, size, j, k, clz), clz, element);
    }
  }

  lemma {:induction false} LoopKeeps(sub: Aggr, index: nat, offset: nat, size: nat, j: int, k: int, clz: Class)
    ensures var r := CodeElements(sub, index, offset, size, j, k, clz); Merge(r, clz) == r
    decreases if j < k then k - j else 0
  {
    if j < k {
      var element := CodeClass(sub, index, ToInt(ToSize(offset + size * j)));
      LoopKeeps(sub, index, offset, size, j + 1, k, Merge(clz, element));
    }
  }

  /** An aggregate of scalars is sound wherever it is. */
  lemma ScalarsSound(ag: Aggr, index: nat, base: nat)
    requires forall f <- ag.fields :: !f.typ.Sub?
    ensures Sound(ag, index, base)
  {
    forall k | 0 <= k < |ag.fields|
      ensures SoundFields(ag, index, base)[k]
    {
      assert ag.fields[k] in ag.fields;
    }
  }

  // ----- the exact condition -----

  /** Sound eightbytes are right by the exact condition. */
  lemma SoundIsRight(ag: Aggr, index: nat, base: nat)
    requires WellFormed(ag) && index < 2 && base + ag.size <= 16 && Sound(ag, index, base)
    ensures Right(ag, index, base)
  {
    CodeMeetsSpec(ag, index, base);
    CodeMeetsSpecIff(ag, index, base);
  }
}
