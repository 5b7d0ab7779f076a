/** Aggregate descriptions (dyncall_aggregate.c, dyncall_aggregate.h) as a program builds them
    for the LP64 System V targets: `dcNewAggr`, `dcAggrField` and the values they leave behind. */
module Aggregate {
  /** System V register classes (SYSVC_*) of one eightbyte. */
  datatype Class = NONE | INTEGER | SSE | MEMORY

  /** Field types.  Unsigned types behave as their signed ones, strings as pointers. */
  datatype Type =
    | Bool | Char | Short | Int | Long | LongLong | Pointer | Float | Double
    | Sub(sub: Aggr)

  datatype Field = Field(offset: nat, size: nat, alignment: nat, arrayLen: nat, typ: Type)

  datatype Aggr = Aggr(size: nat, alignment: nat, fields: seq<Field>, classes: seq<Class>)

  const MAX_NUM_CLASSES: nat := 8

  function TypeSize(t: Type): nat {
    match t
    case Bool => 4
    case Char => 1
    case Short => 2
    case Int => 4
    case Long => 8
    case LongLong => 8
    case Pointer => 8
    case Float => 4
    case Double => 8
    case Sub(ag) => ag.size
  }

  /** Scalars are aligned to their size; a nested aggregate brings its own alignment. */
  function TypeAlignment(t: Type): nat {
    if t.Sub? then t.sub.alignment else TypeSize(t)
  }

  function MaxAlignment(fields: seq<Field>): nat {
    if fields == [] then 0
    else
      var a, m := fields[|fields| - 1].alignment, MaxAlignment(fields[..|fields| - 1]);
      if m < a then a else m
  }

  /** What `dcAggrField` maintains, at every nesting depth, for a caller that describes fields
      inside the aggregate's extent, each of one element or more. */
  ghost predicate WellFormed(ag: Aggr) {
    && ag.alignment == MaxAlignment(ag.fields)
    && |ag.classes| == MAX_NUM_CLASSES
    && forall f <- ag.fields ::
         && f.size == TypeSize(f.typ)
         && f.alignment == TypeAlignment(f.typ)
         && f.arrayLen > 0 && f.offset + f.size * f.arrayLen <= ag.size
         && (f.typ.Sub? ==> WellFormed(f.typ.sub))
  }

  lemma {:induction false} MaxAlignmentBound(fields: seq<Field>)
    ensures forall f <- fields :: f.alignment <= MaxAlignment(fields)
    ensures fields != [] ==> exists f :: f in fields && f.alignment == MaxAlignment(fields)
  {
    if fields != [] {
      var init, last := fields[..|fields| - 1], fields[|fields| - 1];
      MaxAlignmentBound(init);
      assert fields == init + [last];
      if MaxAlignment(init) < last.alignment || init == [] {
        assert last in fields && last.alignment == MaxAlignment(fields);
      } else {
        var f :| f in init && f.alignment == MaxAlignment(init);
        assert f in fields;
      }
    }
  }

  /** Alignments are powers of two, so the assertion the classifier makes on each field holds. */
  lemma {:induction false} AlignmentIsPowerOfTwo(ag: Aggr)
    requires WellFormed(ag)
    ensures ag.alignment in {0, 1, 2, 4, 8}
    decreases ag
  {
    MaxAlignmentBound(ag.fields);
    if ag.fields != [] {
      var f :| f in ag.fields && f.alignment == ag.alignment;
      if f.typ.Sub? {
        AlignmentIsPowerOfTwo(f.typ.sub);
      }
    }
  }

  /** The aggregate under construction. */
  class DCaggr {
    const maxFieldCount: nat
    const size: nat
    var alignment: nat
    var fields: seq<Field>
    var classes: seq<Class>

    ghost predicate Valid() reads this {
      |fields| <= maxFieldCount && |classes| == MAX_NUM_CLASSES
    }

    function View(): Aggr reads this {
      Aggr(size, alignment, fields, classes)
    }

    /** `dcNewAggr`; the class bytes are not initialised. */
    constructor (maxFieldCount: nat, size: nat, uninitialised: seq<Class>)
      requires |uninitialised| == MAX_NUM_CLASSES
      ensures Valid() && WellFormed(View()) && View() == Aggr(size, 0, [], uninitialised)
      ensures this.maxFieldCount == maxFieldCount
    {
      this.maxFieldCount := maxFieldCount;
      this.size := size;
      alignment := 0;
      fields := [];
      classes := uninitialised;
    }

    /** `dcAggrField`: room for the field is the caller's part.  Nothing checks that the field lies inside
        the aggregate; exactly if it does, the description stays well-formed. */
    method AddField(typ: Type, offset: nat, arrayLen: nat)
      requires Valid() && |fields| < maxFieldCount
      modifies this
      ensures Valid()
      ensures fields == old(fields) + [Field(offset, TypeSize(typ), TypeAlignment(typ), arrayLen, typ)]
      ensures alignment == if old(alignment) < TypeAlignment(typ) then TypeAlignment(typ) else old(alignment)
      ensures classes == old(classes)
      ensures old(WellFormed(View())) ==>
                (WellFormed(View()) <==> FieldFits(old(View()), fields[|old(fields)|]))
    {
      ghost var before := View();
      var fieldSize, fieldAlignment;
      if typ.Sub? {
        fieldSize := typ.sub.size;
        fieldAlignment := typ.sub.alignment;
      } else {
        fieldSize := TypeSize(typ);
        fieldAlignment := fieldSize;
      }
      var f := Field(offset, fieldSize, fieldAlignment, arrayLen, typ);
      fields := fields + [f];
      if alignment < fieldAlignment {
        alignment := fieldAlignment;
      }
      if WellFormed(before) {
        OneMoreField(before, View(), f);
      }
    }
  }

  ghost predicate FieldFits(ag: Aggr, f: Field) {
    f.arrayLen > 0 && f.offset + f.size * f.arrayLen <= ag.size && (f.typ.Sub? ==> WellFormed(f.typ.sub))
  }

  /** A description stays well-formed exactly if the new field is inside it. */
  lemma OneMoreField(ag: Aggr, ag': Aggr, f: Field)
    requires WellFormed(ag) && f.size == TypeSize(f.typ) && f.alignment == TypeAlignment(f.typ)
    requires ag' == ag.(fields := ag.fields + [f], alignment := if ag.alignment < f.alignment then f.alignment else ag.alignment)
    ensures WellFormed(ag') <==> FieldFits(ag, f)
  {
    assert ag'.fields[..|ag.fields|] == ag.fields;
    assert f in ag'.fields;
    assert forall g :: g in ag'.fields <==> g in ag.fields || g == f;
  }
}
