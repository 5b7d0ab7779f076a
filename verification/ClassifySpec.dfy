/** The flat specification of the classifier: all leaves of an aggregate, and the class of an eightbyte
    read off those that overlap it. */
module ClassifySpec {
  import opened Aggregate
  import opened Classify
  import opened ClassifyOrder
  import opened Arithmetic

  /** One thing inside an aggregate: a scalar field with its array, or (with class NONE) the extent
      of a nested aggregate, which counts only for its alignment. */
  datatype Leaf = Leaf(offset: nat, extent: nat, alignment: nat, cls: Class)

  /** All leaves of an aggregate placed at `base`, nested aggregates and their arrays unrolled. */
  function Leaves(ag: Aggr, base: nat): seq<Leaf>
    decreases ag, 1, 0
  {
    FieldLeaves(ag, base, 0)
  }

  function FieldLeaves(ag: Aggr, base: nat, i: nat): seq<Leaf>
    requires i <= |ag.fields|
    decreases ag, 0, |ag.fields| - i
  {
    if i == |ag.fields| then []
    else
      OfField(ag.fields[i], base + ag.fields[i].offset) + FieldLeaves(ag, base, i + 1)
  }

  function OfField(f: Field, offset: nat): seq<Leaf>
    decreases f, 3, 0
  {
    var own := Leaf(offset, f.size * f.arrayLen, f.alignment, ScalarClass(f.typ));
    [own] + if f.typ.Sub? && f.size != 0 then ElementLeaves(f.typ.sub, offset, f.size, 0, f.arrayLen) else []
  }

  /** Leaves of the elements from `j` up to `k` of an array that starts at `offset`. */
  function ElementLeaves(sub: Aggr, offset: nat, size: nat, j: nat, k: nat): seq<Leaf>
    decreases sub, 2, if j < k then k - j else 0
  {
    if j >= k then []
    else Leaves(sub, offset + size * j) + ElementLeaves(sub, offset, size, j + 1, k)
  }

  predicate Overlaps(l: Leaf, q: nat) {
    l.offset < q + 8 && q < l.offset + l.extent
  }

  /** Section 3.2.3: the class of the eightbyte at `q`, read off the set of its leaves. */
  ghost function Expected(leaves: seq<Leaf>, q: nat): Class {
    if exists l <- leaves :: Overlaps(l, q) && Misaligned(l.alignment, l.offset) then MEMORY
    else if exists l <- leaves :: Overlaps(l, q) && l.cls == INTEGER then INTEGER
    else if exists l <- leaves :: Overlaps(l, q) && l.cls == SSE then SSE
    else NONE
  }

  lemma ExpectedConcat(a: seq<Leaf>, b: seq<Leaf>, q: nat)
    ensures Expected(a + b, q) == Merge(Expected(a, q), Expected(b, q))
  {
    assert forall l :: l in a + b <==> l in a || l in b;
  }

  ghost predicate AllWithin(leaves: seq<Leaf>, lo: nat, hi: nat) {
    forall l <- leaves :: lo <= l.offset && l.offset + l.extent <= hi
  }

  lemma {:induction false} LeavesWithin(ag: Aggr, base: nat, i: nat)
    requires WellFormed(ag) && i <= |ag.fields|
    ensures AllWithin(FieldLeaves(ag, base, i), base, base + ag.size)
    decreases ag, 0, |ag.fields| - i
  {
    if i < |ag.fields| {
      var f := ag.fields[i];
      assert f in ag.fields;
      LeavesWithin(ag, base, i + 1);
      if f.typ.Sub? && f.size != 0 {
        ElementsWithin(f.typ.sub, base + f.offset, f.size, 0, f.arrayLen);
      }
    }
  }

  lemma {:induction false} ElementsWithin(sub: Aggr, offset: nat, size: nat, j: nat, k: nat)
    requires WellFormed(sub) && size == sub.size && j <= k
    ensures AllWithin(ElementLeaves(sub, offset, size, j, k), offset + size * j, offset + size * k)
    decreases sub, 2, k - j
  {
    if j < k {
      LeavesWithin(sub, offset + size * j, 0);
      ElementsWithin(sub, offset, size, j + 1, k);
      MulMono(size, j + 1, k);
    }
  }

  lemma OutsideNothing(leaves: seq<Leaf>, lo: nat, hi: nat, q: nat)
    requires AllWithin(leaves, lo, hi) && (hi <= q || q + 8 <= lo)
    ensures Expected(leaves, q) == NONE
  {
    assert forall l <- leaves :: !Overlaps(l, q);
  }

  /** The class each field of an aggregate calls for. */
  ghost function SpecClasses(fields: seq<Field>, index: nat, base: nat): seq<Class> {
    seq(|fields|, k requires 0 <= k < |fields| => Expected(OfField(fields[k], base + fields[k].offset), 8 * index))
  }

  /** The leaves of all fields call for the highest of the fields' classes. */
  lemma ExpectedIsHighest(ag: Aggr, index: nat, base: nat)
    ensures Expected(Leaves(ag, base), 8 * index) == Highest(SpecClasses(ag.fields, index, base))
  {
    var cs := SpecClasses(ag.fields, index, base);
    ExpectedIsMerged(ag, 8 * index, base, 0, cs);
    MergedIsHighest(cs, 0);
    assert cs[0..] == cs;
  }

  lemma {:induction false} ExpectedIsMerged(ag: Aggr, q: nat, base: nat, i: nat, cs: seq<Class>)
    requires i <= |ag.fields| == |cs|
    requires forall k :: 0 <= k < |cs| ==> cs[k] == Expected(OfField(ag.fields[k], base + ag.fields[k].offset), q)
    ensures Expected(FieldLeaves(ag, base, i), q) == Merged(cs, i)
    decreases |ag.fields| - i
  {
    if i < |ag.fields| {
      ExpectedIsMerged(ag, q, base, i + 1, cs);
      ExpectedTurn(ag, q, base, i, cs[i], Merged(cs, i + 1));
    }
  }

  lemma ExpectedTurn(ag: Aggr, q: nat, base: nat, i: nat, c: Class, rest: Class)
    requires i < |ag.fields| && c == Expected(OfField(ag.fields[i], base + ag.fields[i].offset), q)
    requires Expected(FieldLeaves(ag, base, i + 1), q) == rest
    ensures Expected(FieldLeaves(ag, base, i), q) == Merge(c, rest)
  {
    ExpectedSplit(FieldLeaves(ag, base, i), OfField(ag.fields[i], base + ag.fields[i].offset), FieldLeaves(ag, base, i + 1), q);
  }

  lemma ExpectedSplit(leaves: seq<Leaf>, a: seq<Leaf>, b: seq<Leaf>, q: nat)
    requires leaves == a + b
    ensures Expected(leaves, q) == Merge(Expected(a, q), Expected(b, q))
  {
    ExpectedConcat(a, b, q);
  }

  lemma FieldWithin(f: Field, offset: nat)
    requires f.size == TypeSize(f.typ) && (f.typ.Sub? ==> WellFormed(f.typ.sub))
    ensures AllWithin(OfField(f, offset), offset, offset + f.size * f.arrayLen)
  {
    if f.typ.Sub? && f.size != 0 {
      ElementsWithin(f.typ.sub, offset, f.size, 0, f.arrayLen);
    }
  }

  lemma FieldOutside(f: Field, q: nat, offset: nat)
    requires f.size == TypeSize(f.typ) && (f.typ.Sub? ==> WellFormed(f.typ.sub))
    requires offset + f.size * f.arrayLen <= 16 && Outside(f, offset, q)
    ensures Expected(OfField(f, offset), q) == NONE
  {
    FieldWithin(f, offset);
    OutsideNothing(OfField(f, offset), offset, offset + f.size * f.arrayLen, q);
  }

  lemma FieldMisaligned(f: Field, q: nat, offset: nat)
    requires offset + f.size * f.arrayLen <= 16 && !Outside(f, offset, q) && Misaligned(f.alignment, offset)
    ensures Expected(OfField(f, offset), q) == MEMORY
  {
    assert OfField(f, offset)[0] in OfField(f, offset);
  }

  lemma {:induction false} SplitElements(sub: Aggr, offset: nat, size: nat, i: nat, j: nat, k: nat)
    requires i <= j <= k
    ensures ElementLeaves(sub, offset, size, i, k) ==
              ElementLeaves(sub, offset, size, i, j) + ElementLeaves(sub, offset, size, j, k)
    decreases j - i
  {
    if i < j {
      SplitElements(sub, offset, size, i + 1, j, k);
    }
  }

  /** Elements outside of the window add nothing. */
  lemma OnlyWindowCounts(sub: Aggr, q: nat, offset: nat, size: nat, j: nat, k: nat, arrayLen: nat)
    requires WellFormed(sub) && size == sub.size && j <= k <= arrayLen
    requires offset + size * j <= q && (k == arrayLen || q + 8 <= offset + size * k)
    ensures Expected(ElementLeaves(sub, offset, size, 0, arrayLen), q) ==
              Expected(ElementLeaves(sub, offset, size, j, k), q)
  {
    var below, window, above :=
      ElementLeaves(sub, offset, size, 0, j), ElementLeaves(sub, offset, size, j, k), ElementLeaves(sub, offset, size, k, arrayLen);
    SplitElements(sub, offset, size, 0, j, arrayLen);
    SplitElements(sub, offset, size, j, k, arrayLen);
    ExpectedConcat(below, window + above, q);
    ExpectedConcat(window, above, q);
    ElementsOutside(sub, q, offset, size, 0, j);
    if k < arrayLen {
      ElementsOutside(sub, q, offset, size, k, arrayLen);
    }
  }

  lemma ElementsOutside(sub: Aggr, q: nat, offset: nat, size: nat, j: nat, k: nat)
    requires WellFormed(sub) && size == sub.size && j <= k
    requires offset + size * k <= q || q + 8 <= offset + size * j
    ensures Expected(ElementLeaves(sub, offset, size, j, k), q) == NONE
  {
    ElementsWithin(sub, offset, size, j, k);
    OutsideNothing(ElementLeaves(sub, offset, size, j, k), offset + size * j, offset + size * k, q);
  }
}
