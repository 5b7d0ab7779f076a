/** `dcCloseAggr` on System V: the classes it stores, what callers may rely on, and the layouts
    for which they differ from the psABI. */
module CloseAggr {
  import opened Aggregate
  import opened Classify
  import opened Classifier
  import opened ClassifyOrder
  import opened ClassifySeen
  import opened ClassifySpec

  /** The class bytes after closing; bytes the code does not write keep what they held. */
  function ClassesOf(ag: Aggr): (r: seq<Class>)
    requires |ag.classes| == MAX_NUM_CLASSES
    ensures |r| == MAX_NUM_CLASSES
  {
    if ag.size > 16 then ag.classes[0 := MEMORY]
    else Stored(ag.classes, CodeClass(ag, 0, 0), CodeClass(ag, 1, 0))
  }

  /** A MEMORY class, looked for in order, replaces the first. */
  function Stored(classes: seq<Class>, first: Class, second: Class): (r: seq<Class>)
    requires |classes| == MAX_NUM_CLASSES
    ensures |r| == MAX_NUM_CLASSES
  {
    if first == MEMORY then classes[0 := MEMORY]
    else if second == MEMORY then classes[0 := MEMORY][1 := MEMORY]
    else classes[0 := first][1 := second][2 := NONE]
  }

  function Closed(ag: Aggr): Aggr
    requires |ag.classes| == MAX_NUM_CLASSES
  {
    ag.(classes := ClassesOf(ag))
  }

  method Close(ag: DCaggr)
    requires ag.Valid()
    modifies ag
    ensures ag.Valid() && ag.View() == Closed(old(ag.View()))
  {
    ghost var before := ag.View();
    var view := ag.View();
    if ag.size > 16 {
      ag.classes := ag.classes[0 := MEMORY];
      return;
    }
    var first := ClassFor8Byte(view, 0, 0);
    ag.classes := ag.classes[0 := first];
    if first != MEMORY {
      var second := ClassFor8Byte(view, 1, 0);
      ag.classes := ag.classes[1 := second];
      if second == MEMORY {
        ag.classes := ag.classes[0 := MEMORY];
      } else {
        ag.classes := ag.classes[2 := NONE];
      }
    }
  }

  /** Bytes of an aggregate that belong to its eightbyte `i`. */
  function SlotSize(size: nat, i: nat): nat {
    if size <= 8 * i then 0 else if size - 8 * i < 8 then size - 8 * i else 8
  }

  /** A slot with a class is one the aggregate reaches; a floating-point slot has 4 or 8 bytes. */
  predicate SlotPassable(ag: Aggr, i: nat)
    requires i < |ag.classes|
  {
    ag.classes[i] != NONE ==>
      && 8 * i < ag.size
      && (ag.classes[i] == SSE ==> SlotSize(ag.size, i) == 4 || SlotSize(ag.size, i) == 8)
  }

  /** What argument passing relies on: memory class, or at most two slots with register classes. */
  predicate Passable(ag: Aggr) {
    && |ag.classes| == MAX_NUM_CLASSES
    && (ag.classes[0] != MEMORY ==>
          && ag.size <= 16 && ag.classes[1] != MEMORY && ag.classes[2] == NONE
          && SlotPassable(ag, 0) && SlotPassable(ag, 1))
  }

  /** A closed aggregate is passable when its size is a multiple of its alignment. */
  lemma ClosedIsPassable(ag: Aggr)
    requires WellFormed(ag) && (ag.alignment == 0 || ag.size % ag.alignment == 0)
    ensures Passable(Closed(ag))
  {
    AlignmentIsPowerOfTwo(ag);
    if ag.alignment >= 4 {
      MultipleOfFour(ag.size, ag.alignment);
    }
    if ag.size <= 16 {
      SlotIsPassable(ag, 0);
      SlotIsPassable(ag, 1);
      StoredIsPassable(ag, CodeClass(ag, 0, 0), CodeClass(ag, 1, 0));
    }
  }

  predicate ClassPassable(c: Class, size: nat, i: nat) {
    (c != NONE ==> 8 * i < size) && (c == SSE ==> SlotSize(size, i) == 4 || SlotSize(size, i) == 8)
  }

  lemma StoredIsPassable(ag: Aggr, first: Class, second: Class)
    requires |ag.classes| == MAX_NUM_CLASSES && ag.size <= 16
    requires ClassPassable(first, ag.size, 0) && ClassPassable(second, ag.size, 1)
    ensures Passable(ag.(classes := Stored(ag.classes, first, second)))
  {
  }

  lemma SlotIsPassable(ag: Aggr, index: nat)
    requires WellFormed(ag) && ag.size <= 16 && index < 2
    requires ag.alignment >= 4 ==> ag.size % 4 == 0
    ensures ClassPassable(CodeClass(ag, index, 0), ag.size, index)
  {
    ClassReaches(ag, index, 0, NONE);
    SseIsAligned(ag, index, 0, 0, NONE);
    WholeSlots(ag.size, index);
  }

  /** A size that is a multiple of four fills its last slot by four bytes or eight. */
  lemma WholeSlots(size: nat, i: nat)
    requires i < 2 && size <= 16
    ensures size % 4 == 0 && 8 * i < size ==> SlotSize(size, i) == 4 || SlotSize(size, i) == 8
  {
  }

  lemma MultipleOfFour(size: nat, alignment: nat)
    requires alignment == 4 || alignment == 8
    requires size % alignment == 0
    ensures size % 4 == 0
  {
    if alignment == 8 {
      assert size % 8 == 0;
    }
  }

  /** An eightbyte gets a class only if the aggregate reaches into it. */
  lemma {:induction false} ClassReaches(ag: Aggr, index: nat, i: nat, clz: Class)
    requires WellFormed(ag) && ag.size <= 16 && i <= |ag.fields|
    ensures CodeFields(ag, index, 0, i, clz) != NONE ==> clz != NONE || 8 * index < ag.size
    decreases |ag.fields| - i
  {
    if i < |ag.fields| {
      var f := ag.fields[i];
      assert f in ag.fields;
      assert ToSize(0 + f.offset) == f.offset;
      if Outside(f, f.offset, 8 * index) {
        ClassReaches(ag, index, i + 1, clz);
      }
    }
  }

  /** Class SSE comes from a floating-point field at some depth, and that field aligns the whole. */
  lemma {:induction false} SseIsAligned(ag: Aggr, index: nat, base: int, i: nat, clz: Class)
    requires WellFormed(ag) && i <= |ag.fields|
    ensures CodeFields(ag, index, base, i, clz) == SSE ==> clz == SSE || ag.alignment >= 4
    decreases ag, 0, |ag.fields| - i
  {
    if i < |ag.fields| {
      var f := ag.fields[i];
      SseIsAligned(ag, index, base, i + 1, clz);
      SseIsAligned(ag, index, base, i + 1, Merge(clz, CodeField(f, index, ToSize(base + f.offset))));
      SseField(ag, index, ToSize(base + f.offset), i);
    }
  }

  lemma {:induction false} SseField(ag: Aggr, index: nat, offset: nat, i: nat)
    requires WellFormed(ag) && i < |ag.fields|
    ensures CodeField(ag.fields[i], index, offset) == SSE ==> ag.alignment >= 4
    decreases ag, 0, 0
  {
    var f := ag.fields[i];
    assert f in ag.fields;
    MaxAlignmentBound(ag.fields);
    if f.typ.Sub? && f.size != 0 {
      SseElements(f.typ.sub, index, offset, f.size,
                  WindowStart(8 * index, offset, f.size), WindowEnd(8 * index, offset, f.size, f.arrayLen), NONE);
    }
  }

  lemma {:induction false} SseElements(sub: Aggr, index: nat, offset: nat, size: nat, j: int, k: int, clz: Class)
    requires WellFormed(sub)
    ensures CodeElements(sub, index, offset, size, j, k, clz) == SSE ==> clz == SSE || sub.alignment >= 4
    decreases sub, 2, if j < k then k - j else 0
  {
    if j < k {
      var at := ToInt(ToSize(offset + size * j));
      SseIsAligned(sub, index, at, 0, NONE);
      SseElements(sub, index, offset, size, j + 1, k, Merge(clz, CodeClass(sub, index, at)));
    }
  }

  /** The specified class is MEMORY: a MEMORY eightbyte decides for the whole, and so does a size above 16. */
  ghost predicate SpecifiesMemory(ag: Aggr) {
    ag.size > 16 || Expected(Leaves(ag, 0), 0) == MEMORY || Expected(Leaves(ag, 0), 8) == MEMORY
  }

  /** The classes stored are those of section 3.2.3 of the psABI. */
  ghost predicate StoresSpec(ag: Aggr)
    requires |ag.classes| == MAX_NUM_CLASSES
  {
    var c := ClassesOf(ag);
    if SpecifiesMemory(ag) then c[0] == MEMORY
    else c[..3] == [Expected(Leaves(ag, 0), 0), Expected(Leaves(ag, 0), 8), NONE]
  }

  lemma MemoryStored(ag: Aggr)
    requires WellFormed(ag) && ag.size <= 16
    ensures ClassesOf(ag)[0] == MEMORY <==> Shown(Seen(ag, 0, 0), 0, MEMORY) || Shown(Seen(ag, 1, 0), 8, MEMORY)
  {
    ClassOfSeen(ag, 0, 0);
    ClassOfSeen(ag, 1, 0);
    HighestCall(Seen(ag, 0, 0), 0);
    HighestCall(Seen(ag, 1, 0), 8);
  }

  /** The classes stored are the specified ones exactly if the leaves visited are right: a misaligned one,
      if the aggregate belongs in memory, or else for both eightbytes. */
  lemma ClosedMeetsSpecIff(ag: Aggr)
    requires WellFormed(ag)
    ensures StoresSpec(ag) <==>
              || ag.size > 16
              || if SpecifiesMemory(ag) then Shown(Seen(ag, 0, 0), 0, MEMORY) || Shown(Seen(ag, 1, 0), 8, MEMORY)
                 else Right(ag, 0, 0) && Right(ag, 1, 0)
  {
    if ag.size <= 16 {
      MemoryStored(ag);
      CodeMeetsSpecIff(ag, 0, 0);
      CodeMeetsSpecIff(ag, 1, 0);
      StoredIff(ag.classes, CodeClass(ag, 0, 0), CodeClass(ag, 1, 0), Expected(Leaves(ag, 0), 0), Expected(Leaves(ag, 0), 8));
    }
  }

  lemma StoredIff(classes: seq<Class>, first: Class, second: Class, e0: Class, e1: Class)
    requires |classes| == MAX_NUM_CLASSES
    ensures e0 != MEMORY && e1 != MEMORY ==>
              (Stored(classes, first, second)[..3] == [e0, e1, NONE] <==> first == e0 && second == e1)
  {
    var c := Stored(classes, first, second)[..3];
    assert c == [c[0], c[1], c[2]];
  }

  /** So they are when the eightbytes the code looks at are sound. */
  lemma ClosedMeetsSpec(ag: Aggr)
    requires WellFormed(ag)
    requires ag.size <= 16 ==> Sound(ag, 0, 0) && (Expected(Leaves(ag, 0), 0) != MEMORY ==> Sound(ag, 1, 0))
    ensures StoresSpec(ag)
  {
    if ag.size <= 16 {
      CodeMeetsSpec(ag, 0, 0);
      if Expected(Leaves(ag, 0), 0) != MEMORY {
        CodeMeetsSpec(ag, 1, 0);
      }
    }
  }
}
