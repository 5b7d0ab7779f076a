/** Classification of aggregates for the System V AMD64 ABI (dyncall_aggregate_x64.c), against
    section 3.2.3 of the psABI: an eightbyte has class MEMORY when an unaligned field overlaps
    it, otherwise INTEGER when an integer field does, otherwise SSE when a floating-point one does. */
module Classify {
  import opened Aggregate

  const TWO32: int := 0x1_0000_0000
  const TWO64: int := 0x1_0000_0000_0000_0000

  /** C's conversions to `DCsize` (64 bits, unsigned) and to `int` (32 bits, two's complement). */
  function ToSize(x: int): (r: nat)
    ensures 0 <= x < TWO64 ==> r == x
  {
    x % TWO64
  }

  function ToInt(x: int): (r: int)
    ensures 0 <= x < TWO32 / 2 ==> r == x
  {
    if x % TWO32 < TWO32 / 2 then x % TWO32 else x % TWO32 - TWO32
  }

  function Merge(clz: Class, newClass: Class): Class {
    if clz == NONE then newClass
    else if newClass == NONE then clz
    else if clz == MEMORY || newClass == MEMORY then MEMORY
    else if clz == INTEGER || newClass == INTEGER then INTEGER
    else SSE
  }

  lemma MergeIsJoin(a: Class, b: Class, c: Class)
    ensures Merge(a, b) == Merge(b, a)
    ensures Merge(Merge(a, b), c) == Merge(a, Merge(b, c))
    ensures Merge(a, a) == a && Merge(NONE, a) == a && Merge(MEMORY, a) == MEMORY
  {
  }

  // ----- the code, with its integer conversions -----

  function ScalarClass(t: Type): Class {
    match t
    case Float => SSE
    case Double => SSE
    case Sub(_) => NONE
    case _ => INTEGER
  }

  /** The field lies outside of the eightbyte that starts at `q`. */
  predicate Outside(f: Field, offset: nat, q: nat) {
    offset >= q + 8 || ToSize(offset + f.size * f.arrayLen) <= q
  }

  predicate Misaligned(alignment: nat, offset: nat) {
    alignment != 0 && offset % alignment != 0
  }

  /** The range of array elements visited for an aggregate-typed field at `offset`:
      the subtraction and the sum are unsigned, their results are stored as `int`. */
  function WindowStart(q: nat, offset: nat, size: nat): int
    requires size > 0
  {
    ToInt(ToSize(q - offset) / size)
  }

  function WindowEnd(q: nat, offset: nat, size: nat, arrayLen: nat): int
    requires size > 0
  {
    RangeEnd(size, WindowStart(q, offset, size), arrayLen)
  }

  function RangeEnd(size: nat, start: int, arrayLen: nat): int
    requires size > 0
  {
    var k := ToInt(ToSize(8 / size + start + 1));
    if ToSize(k) > arrayLen then ToInt(arrayLen) else k
  }

  function CodeClass(ag: Aggr, index: nat, base: int): Class
    decreases ag, 1, 0
  {
    CodeFields(ag, index, base, 0, NONE)
  }

  /** The rest of the loop over the fields, from field `i` on. */
  function CodeFields(ag: Aggr, index: nat, base: int, i: nat, clz: Class): Class
    requires i <= |ag.fields|
    decreases ag, 0, |ag.fields| - i
  {
    if i == |ag.fields| then clz
    else
      var f := ag.fields[i];
      var offset := ToSize(base + f.offset);
      if Outside(f, offset, 8 * index) then CodeFields(ag, index, base, i + 1, clz)
      else if Misaligned(f.alignment, offset) then MEMORY
      else CodeFields(ag, index, base, i + 1, Merge(clz, CodeField(f, index, offset)))
  }

  function CodeField(f: Field, index: nat, offset: nat): Class
    decreases f, 3, 0
  {
    if !f.typ.Sub? then ScalarClass(f.typ)
    else if f.size == 0 then NONE
    else
      var j := WindowStart(8 * index, offset, f.size);
      var k := WindowEnd(8 * index, offset, f.size, f.arrayLen);
      CodeElements(f.typ.sub, index, offset, f.size, j, k, NONE)
  }

  /** The rest of the loop over array elements, from element `j` to `k`. */
  function CodeElements(sub: Aggr, index: nat, offset: nat, size: nat, j: int, k: int, clz: Class): Class
    decreases sub, 2, if j < k then k - j else 0
  {
    if j >= k then clz
    else
      var element := CodeClass(sub, index, ToInt(ToSize(offset + size * j)));
      CodeElements(sub, index, offset, size, j + 1, k, Merge(clz, element))
  }

  /** The loop over the elements of an array of aggregates. */
  method ClassForElements(f: Field, index: nat, offset: nat) returns (newClass: Class)
    requires f.typ.Sub? && f.size != 0
    ensures newClass == CodeField(f, index, offset)
    decreases f
  {
    newClass := NONE;
    var j := WindowStart(8 * index, offset, f.size);
    var k := WindowEnd(8 * index, offset, f.size, f.arrayLen);
    while j < k
      invariant CodeElements(f.typ.sub, index, offset, f.size, j, k, newClass) == CodeField(f, index, offset)
    {
      var element := ClassFor8Byte(f.typ.sub, index, ToInt(ToSize(offset + f.size * j)));
      newClass := Merge(newClass, element);
      j := j + 1;
    }
  }

  method ClassFor8Byte(ag: Aggr, index: nat, base: int) returns (clz: Class)
    ensures clz == CodeClass(ag, index, base)
    decreases ag
  {
    var q := index * 8;
    clz := NONE;
    var i := 0;
    while i < |ag.fields|
      invariant 0 <= i <= |ag.fields|
      invariant CodeFields(ag, index, base, i, clz) == CodeClass(ag, index, base)
    {
      var f := ag.fields[i];
      var offset := ToSize(base + f.offset);
      i := i + 1;
      if Outside(f, offset, q) {
        continue;
      }
      if Misaligned(f.alignment, offset) {
        return MEMORY;
      }
      var newClass := ScalarClass(f.typ);
      if f.typ.Sub? && f.size != 0 {
        newClass := ClassForElements(f, index, offset);
      }
      if clz == newClass {
        continue;
      }
      clz := Merge(clz, newClass);
    }
  }
}
