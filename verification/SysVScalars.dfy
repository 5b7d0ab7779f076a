/** Which bytes of an aggregate that travels in registers reach the callback: those of its scalars all do,
    exactly if the eightbytes they are in have a class; if the classes are the specified ones, exactly if
    they leave no gap in front. */
module SysVScalars {
  import opened Bytes
  import opened Aggregate
  import opened Arithmetic
  import opened Classify
  import opened ClassifyCases
  import opened Classifier
  import opened ClassifySeen
  import opened ClassifySpec
  import opened CloseAggr
  import opened SysV
  import opened SysVRoundTrip

  predicate IsScalar(l: Leaf) {
    l.cls == INTEGER || l.cls == SSE
  }

  /** Byte `k` of the aggregate belongs to one of its scalars, at any depth. */
  ghost predicate ScalarByte(ag: Aggr, k: nat) {
    exists l <- Leaves(ag, 0) :: IsScalar(l) && l.offset <= k < l.offset + l.extent
  }

  lemma ScalarByteWithin(ag: Aggr, k: nat)
    requires WellFormed(ag) && ScalarByte(ag, k)
    ensures k < ag.size
  {
    LeavesWithin(ag, 0, 0);
  }

  /** All bytes of scalars are in `bytes` what they are in `mem`. */
  ghost predicate ScalarsArrive(ag: Aggr, mem: seq<byte>, bytes: seq<byte>) {
    forall k: nat :: k < |mem| && k < |bytes| && ScalarByte(ag, k) ==> bytes[k] == mem[k]
  }

  /** No eightbyte without a class comes before one with a class. */
  predicate Gapless(ag: Aggr)
    requires |ag.classes| == MAX_NUM_CLASSES
  {
    ag.classes[0] != NONE || ag.classes[1] == NONE
  }

  /** An aggregate let into registers, with the specified classes. */
  ghost predicate InRegisters(ag: Aggr) {
    WellFormed(ag) && ag.size <= 16 && Right(ag, 0, 0) && Right(ag, 1, 0) && ClassesOf(ag)[0] != MEMORY
  }

  lemma ScalarOverlaps(leaves: seq<Leaf>, q: nat)
    requires Expected(leaves, q) != MEMORY
    ensures Expected(leaves, q) == NONE <==> forall l <- leaves :: IsScalar(l) ==> !Overlaps(l, q)
  {
  }

  lemma StoredClass(ag: Aggr, i: nat)
    requires InRegisters(ag) && i < 2
    ensures ClassesOf(ag)[i] == Expected(Leaves(ag, 0), 8 * i) != MEMORY
  {
    CodeMeetsSpecIff(ag, 0, 0);
    CodeMeetsSpecIff(ag, 1, 0);
  }

  /** An eightbyte has no class exactly if no scalar overlaps it. */
  lemma NoClassIff(ag: Aggr, i: nat)
    requires InRegisters(ag) && i < 2
    ensures ClassesOf(ag)[i] == NONE <==> forall l <- Leaves(ag, 0) :: IsScalar(l) ==> !Overlaps(l, 8 * i)
  {
    StoredClass(ag, i);
    ScalarOverlaps(Leaves(ag, 0), 8 * i);
  }

  ghost predicate ScalarsExtend(leaves: seq<Leaf>) {
    forall l <- leaves :: IsScalar(l) ==> l.extent > 0
  }

  lemma {:induction false} LeavesExtend(ag: Aggr, base: nat, i: nat)
    requires WellFormed(ag) && i <= |ag.fields|
    ensures ScalarsExtend(FieldLeaves(ag, base, i))
    decreases ag, 0, |ag.fields| - i
  {
    if i < |ag.fields| {
      var f := ag.fields[i];
      assert f in ag.fields;
      MulMono(f.size, 1, f.arrayLen);
      LeavesExtend(ag, base, i + 1);
      if f.typ.Sub? && f.size != 0 {
        ElementsExtend(f.typ.sub, base + f.offset, f.size, 0, f.arrayLen);
      }
    }
  }

  lemma {:induction false} ElementsExtend(sub: Aggr, offset: nat, size: nat, j: nat, k: nat)
    requires WellFormed(sub)
    ensures ScalarsExtend(ElementLeaves(sub, offset, size, j, k))
    decreases sub, 2, if j < k then k - j else 0
  {
    if j < k {
      LeavesExtend(sub, offset + size * j, 0);
      ElementsExtend(sub, offset, size, j + 1, k);
    }
  }

  /** An eightbyte has no class exactly if no byte of it belongs to a scalar. */
  lemma NoClassNoByte(ag: Aggr, i: nat)
    requires InRegisters(ag) && i < 2
    ensures ClassesOf(ag)[i] == NONE <==> forall k: nat :: 8 * i <= k < 8 * i + 8 ==> !ScalarByte(ag, k)
  {
    NoClassIff(ag, i);
    if k: nat :| 8 * i <= k < 8 * i + 8 && ScalarByte(ag, k) {
      var l :| l in Leaves(ag, 0) && IsScalar(l) && l.offset <= k < l.offset + l.extent;
      assert Overlaps(l, 8 * i);
    } else if ClassesOf(ag)[i] != NONE {
      var l :| l in Leaves(ag, 0) && IsScalar(l) && Overlaps(l, 8 * i);
      LeavesExtend(ag, 0, 0);
      var k := if l.offset < 8 * i then 8 * i else l.offset;
      assert ScalarByte(ag, k);
    }
  }

  /** The bytes of scalars are all in eightbytes that travel. */
  ghost predicate ScalarsTravel(ag: Aggr)
    requires |ag.classes| == MAX_NUM_CLASSES
  {
    forall k: nat :: ScalarByte(ag, k) ==> ClassesOf(ag)[0] != NONE && (k >= 8 ==> ClassesOf(ag)[1] != NONE)
  }

  lemma TravelIsCovered(ag: Aggr)
    requires WellFormed(ag) && ag.size <= 16 && ClassesOf(ag)[0] != MEMORY
    ensures ScalarsTravel(ag) <==> forall k: nat :: ScalarByte(ag, k) ==> k < Covered(Closed(ag))
  {
    forall k: nat | ScalarByte(ag, k)
      ensures k < ag.size
    {
      ScalarByteWithin(ag, k);
    }
  }

  /** With the specified classes the scalars travel exactly if there is no gap. */
  lemma GaplessIff(ag: Aggr)
    requires InRegisters(ag)
    ensures ScalarsTravel(ag) <==> Gapless(Closed(ag))
  {
    NoClassNoByte(ag, 0);
    NoClassNoByte(ag, 1);
    forall k: nat | ScalarByte(ag, k)
      ensures k < 16
    {
      ScalarByteWithin(ag, k);
    }
  }

  /** All bytes of scalars are among the covered ones, whatever the aggregate and the target hold. */
  ghost predicate ScalarsCovered(ag: Aggr)
    requires |ag.classes| == MAX_NUM_CLASSES
  {
    forall mem: seq<byte>, target: seq<byte> :: |mem| >= Up8(ag.size) && |target| >= ag.size ==>
      ScalarsArrive(ag, mem, Overlay(mem, target, Covered(Closed(ag))))
  }

  lemma ScalarsCoveredIff(ag: Aggr)
    requires WellFormed(ag) && ag.size <= 16 && ClassesOf(ag)[0] != MEMORY
    ensures ScalarsCovered(ag) <==> ScalarsTravel(ag)
  {
    TravelIsCovered(ag);
    var n := Covered(Closed(ag));
    if !ScalarsTravel(ag) {
      var k: nat :| ScalarByte(ag, k) && k >= n;
      ScalarByteWithin(ag, k);
      var mem, target := seq(Up8(ag.size), _ => 0), seq(ag.size, _ => 1);
      assert Overlay(mem, target, n)[k] != mem[k];
      assert !ScalarsArrive(ag, mem, Overlay(mem, target, n));
    }
  }

  // ----- the same at the two machines -----

  /** The callback stands where the call VM stands and holds what it placed. */
  ghost predicate Received(vm: Vm, a: Args, ag: Aggr, mem: seq<byte>) {
    && vm.Valid() && a.Valid() && Passable(ag) && Up8(ag.size) <= |mem|
    && InStep(vm, a) && Holds(a, PlaceAggr(vm, ag, mem))
  }

  /** The image as the call VM leaves it. */
  function Sent(vm: Vm, ag: Aggr, mem: seq<byte>): Args
    requires vm.Valid() && Passable(ag) && Up8(ag.size) <= |mem|
  {
    var r := PlaceAggr(vm, ag, mem);
    Args(vm.vec.size / 8, vm.i, vm.f, vm.ret, [], r.ints, r.floats, r.vec.mem)
  }

  lemma SentIsReceived(vm: Vm, ag: Aggr, mem: seq<byte>)
    requires vm.Valid() && vm.vec.size % 8 == 0 && vm.vec.size <= vm.vec.total
    requires Passable(ag) && Up8(ag.size) <= |mem| && !InMemory(ag, vm.i, vm.f)
    ensures Received(vm, Sent(vm, ag, mem), ag, mem)
  {
    EightbytesInRegisters(vm, ag, mem, 0);
  }

  lemma FetchedIsOverlay(vm: Vm, a: Args, ag: Aggr, mem: seq<byte>, target: seq<byte>)
    requires Received(vm, a, ag, mem) && vm.vec.size <= vm.vec.total && !InMemory(ag, vm.i, vm.f) && |target| >= ag.size
    ensures FetchAggr(a, ag, target).0 == Overlay(mem, target, Covered(ag))
  {
    AggrStep(vm, a, ag, mem, target);
  }

  /** Fetching the aggregate brings every byte of its scalars, whatever registers, stack, aggregate and
      target hold. */
  ghost predicate ScalarsFetched(vm: Vm, ag: Aggr)
    requires |ag.classes| == MAX_NUM_CLASSES
  {
    forall mem: seq<byte>, target: seq<byte>, a: Args :: Received(vm, a, Closed(ag), mem) && |target| >= ag.size ==>
      ScalarsArrive(ag, mem, FetchAggr(a, Closed(ag), target).0)
  }

  /** A closed aggregate that goes to registers, from a VM in step with its stack. */
  ghost predicate GoesToRegisters(vm: Vm, ag: Aggr) {
    && WellFormed(ag) && ag.size <= 16 && Passable(Closed(ag)) && !InMemory(Closed(ag), vm.i, vm.f)
    && vm.Valid() && vm.vec.size % 8 == 0 && vm.vec.size <= vm.vec.total
  }

  lemma FetchedIfCovered(vm: Vm, ag: Aggr)
    requires GoesToRegisters(vm, ag) && ScalarsCovered(ag)
    ensures ScalarsFetched(vm, ag)
  {
    forall mem: seq<byte>, target: seq<byte>, a: Args | Received(vm, a, Closed(ag), mem) && |target| >= ag.size
      ensures ScalarsArrive(ag, mem, FetchAggr(a, Closed(ag), target).0)
    {
      FetchedIsOverlay(vm, a, Closed(ag), mem, target);
    }
  }

  lemma CoveredIfFetched(vm: Vm, ag: Aggr)
    requires GoesToRegisters(vm, ag) && ScalarsFetched(vm, ag)
    ensures ScalarsCovered(ag)
  {
    forall mem: seq<byte>, target: seq<byte> | |mem| >= Up8(ag.size) && |target| >= ag.size
      ensures ScalarsArrive(ag, mem, Overlay(mem, target, Covered(Closed(ag))))
    {
      SentIsReceived(vm, Closed(ag), mem);
      FetchedIsOverlay(vm, Sent(vm, Closed(ag), mem), Closed(ag), mem, target);
    }
  }

  /** Of any aggregate passed in registers, whatever its classes, every byte of every scalar arrives
      exactly if none is in an eightbyte without a class or behind one. */
  lemma ScalarsArriveIff(vm: Vm, ag: Aggr)
    requires GoesToRegisters(vm, ag)
    ensures ScalarsFetched(vm, ag) <==> ScalarsTravel(ag)
  {
    ScalarsCoveredIff(ag);
    if ScalarsCovered(ag) {
      FetchedIfCovered(vm, ag);
    } else if ScalarsFetched(vm, ag) {
      CoveredIfFetched(vm, ag);
    }
  }

  // ----- a double in the second eightbyte alone -----

  /** struct { long : 64; double }: the unnamed bit-field is no field of the description. */
  const UPPER_DOUBLE := Aggr(16, 8, [Scalar(Double, 8)], UNINITIALISED)

  lemma UpperDoubleClasses()
    ensures ClassesOf(UPPER_DOUBLE)[..3] == [NONE, SSE, NONE]
  {
    assert CodeFields(UPPER_DOUBLE, 0, 0, 1, NONE) == NONE;
    assert CodeFields(UPPER_DOUBLE, 1, 0, 1, SSE) == SSE;
  }

  lemma UpperDoubleWellFormed()
    ensures WellFormed(UPPER_DOUBLE)
  {
    assert UPPER_DOUBLE.fields[..0] == [];
    assert MaxAlignment(UPPER_DOUBLE.fields) == 8;
  }

  lemma UpperDoubleRight()
    ensures Right(UPPER_DOUBLE, 0, 0) && Right(UPPER_DOUBLE, 1, 0)
  {
    UpperDoubleWellFormed();
    ScalarsSound(UPPER_DOUBLE, 0, 0);
    ScalarsSound(UPPER_DOUBLE, 1, 0);
    SoundIsRight(UPPER_DOUBLE, 0, 0);
    SoundIsRight(UPPER_DOUBLE, 1, 0);
  }

  /** Its classes are the specified ones, and leave a gap. */
  lemma UpperDoubleGap()
    ensures InRegisters(UPPER_DOUBLE) && Passable(Closed(UPPER_DOUBLE))
    ensures !Gapless(Closed(UPPER_DOUBLE)) && !ScalarsTravel(UPPER_DOUBLE)
  {
    var c := ClassesOf(UPPER_DOUBLE);
    UpperDoubleWellFormed();
    UpperDoubleRight();
    UpperDoubleClasses();
    assert c[0] == c[..3][0] && c[1] == c[..3][1] && c[2] == c[..3][2];
    GaplessIff(UPPER_DOUBLE);
  }

  /** It counts as an aggregate in registers, takes none, and nothing of it arrives. */
  lemma UpperDoubleLost(vm: Vm, a: Args, mem: seq<byte>, target: seq<byte>)
    requires Received(vm, a, Closed(UPPER_DOUBLE), mem) && |target| >= 16
    ensures PlaceAggr(vm, Closed(UPPER_DOUBLE), mem) == vm
    ensures FetchAggr(a, Closed(UPPER_DOUBLE), target).0 == target
  {
    UpperDoubleClasses();
    var c := Closed(UPPER_DOUBLE).classes;
    assert c[0] == c[..3][0] && c[1] == c[..3][1];
  }
}
