/** Layouts in C for which the classes come out wrong, and some for which they do not although a nested
    aggregate starts inside an eightbyte. */
module ClassifyCases {
  import opened Aggregate
  import opened Classify
  import opened Classifier
  import opened ClassifyBounded
  import opened ClassifyOrder
  import opened ClassifySpec
  import opened ClassifyWindow

  const UNINITIALISED: seq<Class> := [NONE, NONE, NONE, NONE, NONE, NONE, NONE, NONE]

  function Scalar(t: Type, offset: nat): Field
    requires !t.Sub?
  {
    Field(offset, TypeSize(t), TypeSize(t), 1, t)
  }

  /** struct { int[3] } */
  const THREE_INTS := Aggr(12, 4, [Field(0, 4, 4, 3, Int)], UNINITIALISED)

  /** struct { float, int } */
  const FLOAT_INT := Aggr(8, 4, [Scalar(Float, 0), Scalar(Int, 4)], UNINITIALISED)

  /** An aggregate as a field that starts inside the first eightbyte. */
  function Nested(sub: Aggr): Field {
    Field(4, sub.size, sub.alignment, 1, Sub(sub))
  }

  /** A 4-byte scalar, and after it a nested aggregate. */
  function After4(t: Type, sub: Aggr): Aggr
    requires t == Int || t == Float
  {
    Aggr(4 + sub.size, 4, [Scalar(t, 0), Nested(sub)], UNINITIALISED)
  }

  lemma ScalarLeaf(ag: Aggr, base: nat, i: nat)
    requires i < |ag.fields| && !ag.fields[i].typ.Sub?
    ensures var f := ag.fields[i];
            FieldLeaves(ag, base, i) ==
              [Leaf(base + f.offset, f.size * f.arrayLen, f.alignment, ScalarClass(f.typ))] + FieldLeaves(ag, base, i + 1)
  {
  }

  lemma After4Leaves(t: Type, sub: Aggr)
    requires (t == Int || t == Float) && sub.size > 0 && sub.alignment == 4
    ensures Leaves(After4(t, sub), 0) == [Leaf(0, 4, 4, ScalarClass(t)), Leaf(4, sub.size, 4, NONE)] + Leaves(sub, 4)
  {
    var ag := After4(t, sub);
    ScalarLeaf(ag, 0, 0);
    assert ElementLeaves(sub, 4, sub.size, 1, 1) == [];
    assert ElementLeaves(sub, 4, sub.size, 0, 1) == Leaves(sub, 4);
    assert FieldLeaves(ag, 0, 2) == [];
  }

  lemma After4Expected(t: Type, sub: Aggr)
    requires (t == Int || t == Float) && sub.size > 0 && sub.alignment == 4
    ensures Expected(Leaves(After4(t, sub), 0), 0) == Merge(ScalarClass(t), Expected(Leaves(sub, 4), 0))
  {
    var outer := [Leaf(0, 4, 4, ScalarClass(t)), Leaf(4, sub.size, 4, NONE)];
    After4Leaves(t, sub);
    OuterExpected(t, sub.size);
    ExpectedConcat(outer, Leaves(sub, 4), 0);
  }

  lemma OuterExpected(t: Type, size: nat)
    requires t == Int || t == Float
    ensures Expected([Leaf(0, 4, 4, ScalarClass(t)), Leaf(4, size, 4, NONE)], 0) == ScalarClass(t)
  {
    var outer := [Leaf(0, 4, 4, ScalarClass(t)), Leaf(4, size, 4, NONE)];
    assert outer[0] in outer;
  }

  lemma ThreeIntsExpected()
    ensures Expected(Leaves(THREE_INTS, 4), 0) == INTEGER
  {
    ScalarLeaf(THREE_INTS, 4, 0);
    var leaves := [Leaf(4, 12, 4, INTEGER)];
    assert FieldLeaves(THREE_INTS, 4, 1) == [];
    assert Leaves(THREE_INTS, 4) == leaves;
    assert leaves[0] in leaves;
  }

  lemma FloatIntExpected()
    ensures Expected(Leaves(FLOAT_INT, 4), 0) == SSE
  {
    ScalarLeaf(FLOAT_INT, 4, 0);
    ScalarLeaf(FLOAT_INT, 4, 1);
    var leaves := [Leaf(4, 4, 4, SSE), Leaf(8, 4, 4, INTEGER)];
    assert FieldLeaves(FLOAT_INT, 4, 2) == [];
    assert Leaves(FLOAT_INT, 4) == leaves;
    assert leaves[0] in leaves;
  }

  /** What the code makes of the scalar and, after it, of the nested aggregate. */
  lemma After4Class(t: Type, sub: Aggr, nested: Class)
    requires (t == Int || t == Float) && 0 < sub.size <= 12 && sub.alignment == 4
    requires CodeField(Nested(sub), 0, 4) == nested
    ensures CodeClass(After4(t, sub), 0, 0) == Merge(ScalarClass(t), nested)
  {
    var ag := After4(t, sub);
    LoopTurn(ag, 0, 0, 0, NONE);
    LoopTurn(ag, 0, 0, 1, ScalarClass(t));
  }

  lemma After4WellFormed(t: Type, sub: Aggr)
    requires (t == Int || t == Float) && WellFormed(sub) && sub.alignment == 4
    ensures WellFormed(After4(t, sub))
  {
    var fields := After4(t, sub).fields;
    assert fields[..1] == [fields[0]];
    assert MaxAlignment(fields[..1]) == 4;
  }

  lemma ThreeIntsWellFormed()
    ensures WellFormed(THREE_INTS)
  {
    assert THREE_INTS.fields[..0] == [];
    assert MaxAlignment(THREE_INTS.fields) == 4;
  }

  lemma FloatIntWellFormed()
    ensures WellFormed(FLOAT_INT)
  {
    var fields := FLOAT_INT.fields;
    assert fields[..1] == [fields[0]];
    assert MaxAlignment(fields[..1]) == 4;
  }

  /** A well-formed aggregate whose first eightbyte the code classifies as `found`, where `specified` is due. */
  ghost predicate Shows(ag: Aggr, found: Class, specified: Class) {
    WellFormed(ag) && CodeClass(ag, 0, 0) == found && Expected(Leaves(ag, 0), 0) == specified
  }

  /** The class of the scalar merged with what is found of the nested aggregate, and with what is due for it. */
  lemma After4Shows(t: Type, sub: Aggr, found: Class, specified: Class)
    requires (t == Int || t == Float) && WellFormed(sub) && 0 < sub.size <= 12 && sub.alignment == 4
    requires found == Merge(ScalarClass(t), CodeField(Nested(sub), 0, 4))
    requires specified == Merge(ScalarClass(t), Expected(Leaves(sub, 4), 0))
    ensures Shows(After4(t, sub), found, specified)
  {
    After4WellFormed(t, sub);
    After4Class(t, sub, CodeField(Nested(sub), 0, 4));
    After4Expected(t, sub);
  }

  lemma Merges()
    ensures Merge(SSE, NONE) == SSE && Merge(INTEGER, NONE) == INTEGER && Merge(SSE, INTEGER) == INTEGER
    ensures Merge(SSE, SSE) == SSE && Merge(INTEGER, INTEGER) == INTEGER
  {
  }

  lemma ThreeInts(sub: Aggr)
    requires sub == THREE_INTS
    ensures WellFormed(sub) && sub.size == 12 && sub.alignment == 4
    ensures CodeField(Nested(sub), 0, 4) == NONE && Expected(Leaves(sub, 4), 0) == INTEGER
    ensures Merge(SSE, CodeField(Nested(sub), 0, 4)) == SSE && Merge(INTEGER, CodeField(Nested(sub), 0, 4)) == INTEGER
  {
    Merges();
    ThreeIntsWellFormed();
    ThreeIntsField();
    ThreeIntsExpected();
  }

  lemma FloatInt(sub: Aggr)
    requires sub == FLOAT_INT
    ensures WellFormed(sub) && sub.size == 8 && sub.alignment == 4
    ensures CodeField(Nested(sub), 0, 4) == INTEGER && Expected(Leaves(sub, 4), 0) == SSE
    ensures Merge(SSE, CodeField(Nested(sub), 0, 4)) == INTEGER && Merge(SSE, Expected(Leaves(sub, 4), 0)) == SSE
  {
    Merges();
    FloatIntWellFormed();
    FloatIntField();
    FloatIntExpected();
  }

  /** In struct { float; struct { int[3] } } the nested struct starts inside the first
      eightbyte, no element of it is visited, and its first int goes unnoticed. */
  lemma MissedElement()
    ensures Shows(After4(Float, THREE_INTS), SSE, INTEGER)
  {
    var sub := THREE_INTS;
    ThreeInts(sub);
    After4Shows(Float, sub, SSE, INTEGER);
  }

  /** In struct { float; struct { float, int } } the nested struct again starts inside the first
      eightbyte; the loop visits an element before the array, whose int is not there. */
  lemma PhantomElement()
    ensures Shows(After4(Float, FLOAT_INT), INTEGER, SSE)
  {
    var sub := FLOAT_INT;
    FloatInt(sub);
    After4Shows(Float, sub, INTEGER, SSE);
  }

  /** A missed field does not make the class wrong by itself: after an int, the int that goes
      unnoticed changes nothing. */
  lemma LateButRight()
    ensures Shows(After4(Int, THREE_INTS), INTEGER, INTEGER) && FieldMissed(After4(Int, THREE_INTS).fields[1], 0, 4)
  {
    var sub := THREE_INTS;
    ThreeInts(sub);
    After4Shows(Int, sub, INTEGER, INTEGER);
  }

  /** union { int; float } */
  const INT_OR_FLOAT := Aggr(4, 4, [Scalar(Int, 0), Scalar(Float, 0)], UNINITIALISED)

  lemma IntOrFloatWellFormed()
    ensures WellFormed(INT_OR_FLOAT)
  {
    var fields := INT_OR_FLOAT.fields;
    assert fields[..1] == [fields[0]];
    assert MaxAlignment(fields[..1]) == 4;
  }

  lemma IntOrFloatExpected()
    ensures Expected(Leaves(INT_OR_FLOAT, 4), 0) == INTEGER
  {
    ScalarLeaf(INT_OR_FLOAT, 4, 0);
    ScalarLeaf(INT_OR_FLOAT, 4, 1);
    var leaves := [Leaf(4, 4, 4, INTEGER), Leaf(4, 4, 4, SSE)];
    assert FieldLeaves(INT_OR_FLOAT, 4, 2) == [];
    assert Leaves(INT_OR_FLOAT, 4) == leaves;
    assert leaves[0] in leaves;
  }

  /** A nested aggregate of 4 bytes, of scalars none of which is above the class it calls for, is sound. */
  lemma After4Sound(t: Type, sub: Aggr)
    requires (t == Int || t == Float) && sub.size == 4 && sub.alignment == 4 && forall f <- sub.fields :: !f.typ.Sub?
    requires Bounded(sub, Expected(Leaves(sub, 4), 0))
    ensures Sound(After4(t, sub), 0, 0)
  {
    var ag := After4(t, sub);
    NestedSound(sub);
    var first := ag.fields[0];
    assert !first.typ.Sub? && FieldSound(first, 0, 0);
    assert SoundFields(ag, 0, 0) == [true, true];
  }

  lemma NestedSound(sub: Aggr)
    requires sub.size == 4 && sub.alignment == 4 && forall f <- sub.fields :: !f.typ.Sub?
    requires Bounded(sub, Expected(Leaves(sub, 4), 0))
    ensures FieldSound(Nested(sub), 0, 4)
  {
    var f := Nested(sub);
    var own := [Leaf(4, 4, 4, NONE)];
    assert ElementLeaves(sub, 4, 4, 1, 1) == [];
    assert OfField(f, 4) == own + Leaves(sub, 4);
    ExpectedConcat(own, Leaves(sub, 4), 0);
    ScalarsSound(sub, 0, 4);
    assert ElementsSound(sub, 0, 4, 4, 0, 1);
  }

  lemma IntOrFloatBounded()
    ensures Bounded(INT_OR_FLOAT, INTEGER)
  {
  }

  lemma TaggedUnionSound()
    ensures Sound(After4(Int, INT_OR_FLOAT), 0, 0)
  {
    IntOrFloatExpected();
    IntOrFloatBounded();
    After4Sound(Int, INT_OR_FLOAT);
  }

  lemma TaggedUnionExpected()
    ensures Expected(Leaves(After4(Int, INT_OR_FLOAT), 0), 0) == INTEGER
  {
    IntOrFloatExpected();
    After4Expected(Int, INT_OR_FLOAT);
  }

  /** A tagged union, struct { int; union { int; float } }, is sound although the union starts inside the
      eightbyte and has scalars of two classes. */
  lemma TaggedUnion()
    ensures var ag := After4(Int, INT_OR_FLOAT);
            WellFormed(ag) && Sound(ag, 0, 0) && Expected(Leaves(ag, 0), 0) == INTEGER
  {
    IntOrFloatWellFormed();
    After4WellFormed(Int, INT_OR_FLOAT);
    TaggedUnionSound();
    TaggedUnionExpected();
  }

  /** An empty array inside the eightbyte would count: struct { float; int[0] } comes out INTEGER.  C has
      none but flexible members, which a description is to leave out. */
  lemma EmptyArrayCounts()
    ensures var ag := Aggr(4, 4, [Scalar(Float, 0), Field(4, 4, 4, 0, Int)], UNINITIALISED);
            CodeClass(ag, 0, 0) == INTEGER && CodeClass(ag.(fields := [Scalar(Float, 0)]), 0, 0) == SSE
  {
    var ag := Aggr(4, 4, [Scalar(Float, 0), Field(4, 4, 4, 0, Int)], UNINITIALISED);
    LoopTurn(ag, 0, 0, 0, NONE);
    LoopTurn(ag, 0, 0, 1, SSE);
    LoopTurn(ag.(fields := [Scalar(Float, 0)]), 0, 0, 0, NONE);
  }

  lemma ThreeIntsField()
    ensures CodeField(Nested(THREE_INTS), 0, 4) == NONE
  {
    assert WindowStart(0, 4, 12) == 1431655765;
    assert WindowEnd(0, 4, 12, 1) == 1;
  }

  lemma FloatIntField()
    ensures CodeField(Nested(FLOAT_INT), 0, 4) == INTEGER
  {
    assert WindowStart(0, 4, 8) == -1 && WindowEnd(0, 4, 8, 1) == 1;
    assert ToInt(ToSize(4 + 8 * -1)) == -4;
    FloatIntClasses();
    assert CodeElements(FLOAT_INT, 0, 4, 8, 1, 1, INTEGER) == INTEGER;
    assert CodeElements(FLOAT_INT, 0, 4, 8, 0, 1, INTEGER) == INTEGER;
    assert CodeElements(FLOAT_INT, 0, 4, 8, -1, 1, NONE) == INTEGER;
  }

  /** First eightbyte: before the array only the int shows, in the real element only the float. */
  lemma FloatIntClasses()
    ensures CodeClass(FLOAT_INT, 0, -4) == INTEGER && CodeClass(FLOAT_INT, 0, 4) == SSE
  {
    assert CodeFields(FLOAT_INT, 0, -4, 2, INTEGER) == INTEGER;
    assert CodeFields(FLOAT_INT, 0, -4, 1, NONE) == INTEGER;
    assert CodeFields(FLOAT_INT, 0, 4, 2, SSE) == SSE;
    assert CodeFields(FLOAT_INT, 0, 4, 1, SSE) == SSE;
  }
}
