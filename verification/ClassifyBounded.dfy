/** Aggregates whose scalars are aligned and of no class above a given one: whichever elements the
    classifier visits, even before an array, it finds nothing above it either. */
module ClassifyBounded {
  import opened Aggregate
  import opened Classify
  import opened ClassifyOrder
  import opened ClassifySpec

  predicate PowerOfTwo(a: nat) {
    a == 0 || a == 1 || a == 2 || a == 4 || a == 8
  }

  /** `n` is a multiple of the alignment `a`, a power of two; of alignment 0 anything is. */
  predicate Multiple(n: int, a: nat) {
    if a == 8 then n % 8 == 0 else if a == 4 then n % 4 == 0 else if a == 2 then n % 2 == 0 else true
  }

  predicate Bounded(ag: Aggr, c: Class) {
    forall f <- ag.fields ::
      && Multiple(f.offset, f.alignment)
      && if f.typ.Sub? then Multiple(f.size, f.alignment) && Bounded(f.typ.sub, c) else Below(ScalarClass(f.typ), c)
  }

  // ----- alignment -----

  lemma AlignedIff(n: nat, a: nat)
    requires PowerOfTwo(a)
    ensures Misaligned(a, n) <==> !Multiple(n, a)
  {
    if a == 8 {
    } else if a == 4 {
    } else if a == 2 {
    } else if a == 1 {
    }
  }

  lemma Twos(k: int)
    ensures 2 * k % 2 == 0
  {
  }

  lemma Fours(k: int)
    ensures 4 * k % 4 == 0 && 4 * k % 2 == 0
  {
    Twos(2 * k);
    assert 4 * k == 2 * (2 * k);
  }

  lemma Eights(k: int)
    ensures 8 * k % 8 == 0 && 8 * k % 4 == 0 && 8 * k % 2 == 0
  {
    Fours(2 * k);
    assert 8 * k == 4 * (2 * k);
  }

  lemma MultipleOfLess(n: int, a: nat, b: nat)
    requires PowerOfTwo(a) && PowerOfTwo(b) && b <= a && Multiple(n, a)
    ensures Multiple(n, b)
  {
    if a == 8 {
      Eights(n / 8);
      assert n == 8 * (n / 8);
    } else if a == 4 {
      Fours(n / 4);
      assert n == 4 * (n / 4);
    }
  }

  lemma SumMultiple(m: int, n: int, a: nat)
    requires PowerOfTwo(a) && Multiple(m, a) && Multiple(n, a)
    ensures Multiple(m + n, a)
  {
    if a == 8 {
      Eights(m / 8 + n / 8);
    } else if a == 4 {
      Fours(m / 4 + n / 4);
    } else if a == 2 {
      Twos(m / 2 + n / 2);
    }
  }

  lemma ProductMultiple(size: nat, j: int, a: nat)
    requires PowerOfTwo(a) && Multiple(size, a)
    ensures Multiple(size * j, a)
  {
    var m := if a == 0 then 0 else size / a;
    if a == 8 {
      Eights(m * j);
      assert size * j == 8 * (m * j);
    } else if a == 4 {
      Fours(m * j);
      assert size * j == 4 * (m * j);
    } else if a == 2 {
      Twos(m * j);
      assert size * j == 2 * (m * j);
    }
  }

  /** The conversions of the program keep alignment. */
  lemma ConvertedMultiple(n: int, a: nat)
    requires PowerOfTwo(a) && Multiple(n, a)
    ensures Multiple(ToSize(n), a) && Multiple(ToInt(n), a)
  {
    ShiftedMultiple(n, TWO64 / 8 * (n / TWO64), a);
    ShiftedMultiple(n, TWO32 / 8 * (n / TWO32), a);
    ShiftedMultiple(n, TWO32 / 8 * (n / TWO32 + 1), a);
  }

  lemma ShiftedMultiple(n: int, y: int, a: nat)
    requires PowerOfTwo(a) && Multiple(n, a)
    ensures Multiple(n - 8 * y, a)
  {
    MultipleOfEight(-y, a);
    SumMultiple(n, 8 * -y, a);
  }

  lemma MultipleOfEight(y: int, a: nat)
    requires PowerOfTwo(a)
    ensures Multiple(8 * y, a)
  {
    Eights(y);
  }

  /** A field keeps the alignment of the aggregate it is in. */
  lemma FieldAligned(ag: Aggr, f: Field, base: int)
    requires WellFormed(ag) && f in ag.fields && Multiple(base, ag.alignment) && Multiple(f.offset, f.alignment)
    ensures PowerOfTwo(f.alignment) && Multiple(base + f.offset, f.alignment)
  {
    AlignmentIsPowerOfTwo(ag);
    MaxAlignmentBound(ag.fields);
    if f.typ.Sub? {
      AlignmentIsPowerOfTwo(f.typ.sub);
    }
    MultipleOfLess(base, ag.alignment, f.alignment);
    SumMultiple(base, f.offset, f.alignment);
  }

  // ----- the code -----

  lemma {:induction false} BoundedCode(ag: Aggr, c: Class, index: nat, base: int)
    requires WellFormed(ag) && Bounded(ag, c) && Multiple(base, ag.alignment)
    ensures Below(CodeClass(ag, index, base), c)
    decreases ag, 1, 0
  {
    var cs := FieldClasses(ag.fields, index, base);
    forall k | 0 <= k < |cs|
      ensures Below(cs[k], c)
    {
      BoundedTurn(ag, ag.fields[k], c, index, base);
    }
    ClassIsHighest(ag, index, base);
    HighestBounded(cs, c);
  }

  lemma {:induction false} BoundedTurn(ag: Aggr, f: Field, c: Class, index: nat, base: int)
    requires WellFormed(ag) && f in ag.fields && Bounded(ag, c) && Multiple(base, ag.alignment)
    ensures Below(FieldClass(f, index, ToSize(base + f.offset)), c)
    decreases ag, 0, 0
  {
    FieldAligned(ag, f, base);
    ConvertedMultiple(base + f.offset, f.alignment);
    BoundedField(f, c, index, ToSize(base + f.offset));
  }

  lemma HighestBounded(cs: seq<Class>, c: Class)
    requires forall k :: 0 <= k < |cs| ==> Below(cs[k], c)
    ensures Below(Highest(cs), c)
  {
    HighestIsThere(cs);
  }

  lemma {:induction false} BoundedField(f: Field, c: Class, index: nat, offset: nat)
    requires f.alignment == TypeAlignment(f.typ) && (f.typ.Sub? ==> WellFormed(f.typ.sub))
    requires if f.typ.Sub? then Multiple(f.size, f.alignment) && Bounded(f.typ.sub, c) else Below(ScalarClass(f.typ), c)
    requires PowerOfTwo(f.alignment) && Multiple(offset, f.alignment)
    ensures Below(FieldClass(f, index, offset), c)
    decreases f, 3, 0
  {
    AlignedIff(offset, f.alignment);
    if f.typ.Sub? && f.size != 0 {
      BoundedElements(f.typ.sub, c, index, offset, f.size,
                       WindowStart(8 * index, offset, f.size), WindowEnd(8 * index, offset, f.size, f.arrayLen), NONE);
    }
  }

  lemma {:induction false} BoundedElements(sub: Aggr, c: Class, index: nat, offset: nat, size: nat, j: int, k: int, clz: Class)
    requires WellFormed(sub) && Bounded(sub, c) && Multiple(offset, sub.alignment) && Multiple(size, sub.alignment)
    requires Below(clz, c)
    ensures Below(CodeElements(sub, index, offset, size, j, k, clz), c)
    decreases sub, 2, if j < k then k - j else 0
  {
    if j < k {
      AlignmentIsPowerOfTwo(sub);
      ProductMultiple(size, j, sub.alignment);
      SumMultiple(offset, size * j, sub.alignment);
      ConvertedMultiple(offset + size * j, sub.alignment);
      ConvertedMultiple(ToSize(offset + size * j), sub.alignment);
      var element := CodeClass(sub, index, ToInt(ToSize(offset + size * j)));
      BoundedCode(sub, c, index, ToInt(ToSize(offset + size * j)));
      BoundedElements(sub, c, index, offset, size, j + 1, k, Merge(clz, element));
    }
  }

  // ----- the specification -----

  ghost predicate Tidy(leaves: seq<Leaf>, c: Class) {
    forall l <- leaves :: Below(l.cls, c) && !Misaligned(l.alignment, l.offset)
  }

  lemma TidyExpected(leaves: seq<Leaf>, c: Class, q: nat)
    requires Tidy(leaves, c)
    ensures Below(Expected(leaves, q), c) && Expected(leaves, q) != MEMORY
    ensures Expected(leaves, q) != NONE ==> exists l <- leaves :: Overlaps(l, q) && l.cls == Expected(leaves, q)
  {
  }

  lemma {:induction false} LeavesTidy(ag: Aggr, c: Class, base: nat, i: nat)
    requires WellFormed(ag) && Bounded(ag, c) && Multiple(base, ag.alignment) && i <= |ag.fields|
    ensures Tidy(FieldLeaves(ag, base, i), c)
    decreases ag, 1, |ag.fields| - i
  {
    if i < |ag.fields| {
      var f := ag.fields[i];
      assert f in ag.fields;
      FieldAligned(ag, f, base);
      LeavesTidy(ag, c, base, i + 1);
      FieldTidy(f, c, base + f.offset);
    }
  }

  lemma {:induction false} FieldTidy(f: Field, c: Class, offset: nat)
    requires f.alignment == TypeAlignment(f.typ) && (f.typ.Sub? ==> WellFormed(f.typ.sub))
    requires if f.typ.Sub? then Multiple(f.size, f.alignment) && Bounded(f.typ.sub, c) else Below(ScalarClass(f.typ), c)
    requires PowerOfTwo(f.alignment) && Multiple(offset, f.alignment)
    ensures Tidy(OfField(f, offset), c)
    decreases f, 3, 0
  {
    AlignedIff(offset, f.alignment);
    if f.typ.Sub? && f.size != 0 {
      ElementsTidy(f.typ.sub, c, offset, f.size, 0, f.arrayLen);
    }
  }

  lemma {:induction false} ElementsTidy(sub: Aggr, c: Class, offset: nat, size: nat, j: nat, k: nat)
    requires WellFormed(sub) && Bounded(sub, c) && Multiple(offset, sub.alignment) && Multiple(size, sub.alignment)
    ensures Tidy(ElementLeaves(sub, offset, size, j, k), c)
    decreases sub, 2, if j < k then k - j else 0
  {
    if j < k {
      AlignmentIsPowerOfTwo(sub);
      ProductMultiple(size, j, sub.alignment);
      SumMultiple(offset, size * j, sub.alignment);
      LeavesTidy(sub, c, offset + size * j, 0);
      ElementsTidy(sub, c, offset, size, j + 1, k);
    }
  }

  lemma TidyFound(leaves: seq<Leaf>, c: Class, q: nat, l: Leaf)
    requires Tidy(leaves, c) && l in leaves && Overlaps(l, q) && l.cls == c && (c == INTEGER || c == SSE)
    ensures Expected(leaves, q) == c
  {
  }

  /** An aggregate with a scalar that overlaps the eightbyte overlaps it, and calls for its class. */
  lemma ScalarDecides(ag: Aggr, c: Class, q: nat, at: nat, l: Leaf)
    requires WellFormed(ag) && Bounded(ag, c) && Multiple(at, ag.alignment) && (c == INTEGER || c == SSE)
    requires l in Leaves(ag, at) && Overlaps(l, q) && l.cls == c
    ensures Expected(Leaves(ag, at), q) == c && at < q + 8 && q < at + ag.size
  {
    LeavesTidy(ag, c, at, 0);
    TidyFound(Leaves(ag, at), c, q, l);
    LeavesWithin(ag, at, 0);
  }

  lemma {:induction false} ElementOfLeaf(sub: Aggr, offset: nat, size: nat, j: nat, k: nat, l: Leaf) returns (e: nat)
    requires l in ElementLeaves(sub, offset, size, j, k)
    ensures j <= e < k && l in Leaves(sub, offset + size * e)
    decreases k - j
  {
    e := j;
    if l !in Leaves(sub, offset + size * j) {
      e := ElementOfLeaf(sub, offset, size, j + 1, k, l);
    }
  }

  /** A leaf that makes a field call for class `c`. */
  lemma DecidingLeaf(f: Field, c: Class, q: nat, offset: nat) returns (l: Leaf)
    requires f.alignment == TypeAlignment(f.typ) && f.typ.Sub? && WellFormed(f.typ.sub) && f.size != 0
    requires Bounded(f.typ.sub, c) && PowerOfTwo(f.alignment) && Multiple(offset, f.alignment) && Multiple(f.size, f.alignment)
    requires Expected(OfField(f, offset), q) == c != NONE
    ensures l in ElementLeaves(f.typ.sub, offset, f.size, 0, f.arrayLen) && Overlaps(l, q) && l.cls == c
    ensures c == INTEGER || c == SSE
  {
    FieldTidy(f, c, offset);
    TidyExpected(OfField(f, offset), c, q);
    l :| l in OfField(f, offset) && Overlaps(l, q) && l.cls == c;
    var own := Leaf(offset, f.size * f.arrayLen, f.alignment, NONE);
    assert OfField(f, offset) == [own] + ElementLeaves(f.typ.sub, offset, f.size, 0, f.arrayLen);
  }

  lemma ElementAligned(f: Field, offset: nat, e: nat)
    requires PowerOfTwo(f.alignment) && Multiple(offset, f.alignment) && Multiple(f.size, f.alignment)
    ensures 0 <= f.size * e && Multiple(offset + f.size * e, f.alignment)
  {
    ProductMultiple(f.size, e, f.alignment);
    SumMultiple(offset, f.size * e, f.alignment);
  }

  /** An element with a scalar that overlaps the eightbyte. */
  lemma DecidingElement(f: Field, c: Class, q: nat, offset: nat) returns (e: nat)
    requires f.alignment == TypeAlignment(f.typ) && f.typ.Sub? && WellFormed(f.typ.sub) && f.size == f.typ.sub.size != 0
    requires Bounded(f.typ.sub, c) && PowerOfTwo(f.alignment) && Multiple(offset, f.alignment) && Multiple(f.size, f.alignment)
    requires Expected(OfField(f, offset), q) == c != NONE
    ensures e < f.arrayLen && offset + f.size * e < q + 8 && q < offset + f.size * e + f.size
    ensures Expected(Leaves(f.typ.sub, offset + f.size * e), q) == c
  {
    var l := DecidingLeaf(f, c, q, offset);
    e := ElementOfLeaf(f.typ.sub, offset, f.size, 0, f.arrayLen, l);
    ElementAligned(f, offset, e);
    ScalarDecides(f.typ.sub, c, q, offset + f.size * e, l);
  }
}
