/** When a callback fetches back what an ARM hard-float call placed.  The caller spills floating-point
    arguments to the stack only, the callback looks for them in the core registers that are left;
    so a spill must find the core registers used up. */
module ArmHfRoundTrip {
  import opened Bytes
  import opened Vector
  import opened ArmHf
  import opened ArmHfFirstFit

  /** The callback's count of core registers after an argument; `c` are the caller's counters. */
  function NextRc(c: Counters, rc: nat, k: Kind): nat {
    match k
    case Core => if rc < 4 then rc + 1 else rc
    case Core64 => TwoWords(rc)
    case Single => if c.s < 16 || rc >= 4 then rc else rc + 1
    case Double => if c.d < 16 then rc else TwoWords(rc)
  }

  /** Two words from an even register on: r0-r1, r2-r3, or the stack. */
  function TwoWords(rc: nat): nat {
    if rc == 0 then 2 else 4
  }

  /** Both sides find the next argument in the same place. */
  predicate SafeKind(c: Counters, rc: nat, k: Kind) {
    match k
    case Core => c.i == 4 * rc
    case Core64 => true
    case Single => c.s < 16 || rc == 4
    case Double => c.d < 16 || rc >= 3
  }

  /** The condition on a call, from its argument types alone. */
  predicate Safe(c: Counters, rc: nat, kinds: seq<Kind>)
    requires c.Valid()
    decreases |kinds|
  {
    kinds != [] ==> SafeKind(c, rc, kinds[0]) && Safe(Next(c, kinds[0]), NextRc(c, rc, kinds[0]), kinds[1..])
  }

  /** The callback may be one core register ahead: after a double that was spilled with only the
      last register left. */
  ghost predicate CoreInStep(i: nat, rc: nat) {
    i == 4 * rc || (i == 12 && rc == 4)
  }

  ghost predicate InStep(vm: Vm, a: Args)
    requires vm.Valid() && a.Valid()
  {
    && CoreInStep(vm.i, a.rc) && 4 * a.sp + 16 == vm.vec.size
    && a.fc == vm.s && NextDoubleReg(a) == vm.d
  }

  /** A VFP register that has been handed out. */
  predicate Used(vm: Vm, r: nat) {
    r < 16 && !IsFree(r, vm.s, vm.d)
  }

  /** The image holds what the VM has placed so far. */
  ghost predicate Holds(a: Args, vm: Vm)
    requires a.Valid() && vm.Valid()
  {
    && (forall r: nat :: Used(vm, r) ==> a.singles[r] == vm.singles[r])
    && (forall k: nat :: k < 4 && 4 * k < vm.i ==> a.regs[k] == Load(vm.vec.mem, 4 * k, 4))
    && StackHolds(a.stack, vm.vec.mem, vm.vec.size)
  }

  /** The callback's stack starts behind the 16 bytes of core registers. */
  ghost predicate StackHolds(stack: seq<byte>, mem: seq<byte>, size: nat) {
    && 16 <= size <= |mem| && size - 16 <= |stack|
    && forall k: nat :: 16 <= k < size ==> stack[k - 16] == mem[k]
  }

  ghost predicate SameImage(a: Args, b: Args) {
    a.regs == b.regs && a.singles == b.singles && a.stack == b.stack
  }

  /** The next append fits. */
  predicate StepRoom(vm: Vm, k: Kind)
    requires vm.Valid()
  {
    var n := Next(vm.Count(), k).size;
    n == vm.vec.size || n <= vm.vec.total
  }

  lemma PlaceCounts(vm: Vm, x: Arg)
    requires vm.Valid() && ValidArg(x) && StepRoom(vm, KindOf(x))
    ensures Place(vm, x).Count() == Next(vm.Count(), KindOf(x))
    ensures Place(vm, x).vec.total == vm.vec.total && |Place(vm, x).vec.mem| == |vm.vec.mem|
  {
  }

  lemma PlaceKeeps(vm: Vm, x: Arg, a: Args)
    requires vm.Valid() && ValidArg(x) && StepRoom(vm, KindOf(x)) && a.Valid()
    requires vm.vec.size <= |vm.vec.mem| && Holds(a, Place(vm, x))
    ensures Holds(a, vm)
  {
    PlaceCounts(vm, x);
    forall s: nat | Used(vm, s)
      ensures a.singles[s] == vm.singles[s]
    {
      UsedKept(vm, x, s);
    }
    forall k: nat | k < 4 && 4 * k < vm.i
      ensures a.regs[k] == Load(vm.vec.mem, 4 * k, 4)
    {
      CoreKept(vm, x, k);
    }
    StackKept(vm, x, a.stack);
  }

  lemma CoreKept(vm: Vm, x: Arg, k: nat)
    requires vm.Valid() && ValidArg(x) && k < 4 && 4 * k < vm.i && vm.vec.size <= |vm.vec.mem|
    ensures 4 * k < Place(vm, x).i && Load(Place(vm, x).vec.mem, 4 * k, 4) == Load(vm.vec.mem, 4 * k, 4)
  {
    MemoryKept(vm, x);
    CoreGrows(vm, x);
    SameLoad(vm.vec.mem, Place(vm, x).vec.mem, vm.i, 4 * k);
  }

  lemma CoreGrows(vm: Vm, x: Arg)
    requires vm.Valid() && ValidArg(x)
    ensures vm.i <= Place(vm, x).i && vm.i % 4 == 0
  {
  }

  lemma SameLoad(m: seq<byte>, m': seq<byte>, n: nat, at: nat)
    requires |m| == |m'| && n <= |m| && at + 4 <= n && forall k :: 0 <= k < n ==> m[k] == m'[k]
    ensures Load(m', at, 4) == Load(m, at, 4)
  {
  }

  lemma StackKept(vm: Vm, x: Arg, stack: seq<byte>)
    requires vm.Valid() && ValidArg(x) && StepRoom(vm, KindOf(x)) && vm.vec.size <= |vm.vec.mem|
    requires StackHolds(stack, Place(vm, x).vec.mem, Place(vm, x).vec.size)
    ensures StackHolds(stack, vm.vec.mem, vm.vec.size)
  {
    MemoryKept(vm, x);
    PlaceCounts(vm, x);
  }

  /** Placing does not write to a VFP register that has been handed out. */
  lemma UsedKept(vm: Vm, x: Arg, s: nat)
    requires vm.Valid() && ValidArg(x) && Used(vm, s)
    ensures Used(Place(vm, x), s) && Place(vm, x).singles[s] == vm.singles[s]
  {
  }

  /** Placing writes neither to core registers in use nor to the stack in use. */
  lemma MemoryKept(vm: Vm, x: Arg)
    requires vm.Valid() && ValidArg(x) && vm.vec.size <= |vm.vec.mem|
    ensures var r := Place(vm, x);
            && |r.vec.mem| == |vm.vec.mem|
            && (forall k :: 0 <= k < vm.i ==> r.vec.mem[k] == vm.vec.mem[k])
            && (forall k :: 16 <= k < vm.vec.size ==> r.vec.mem[k] == vm.vec.mem[k])
  {
  }

  lemma {:induction false} PlaceAllKeeps(vm: Vm, args: seq<Arg>, a: Args)
    requires vm.Valid() && ValidArgs(args) && a.Valid() && vm.vec.size <= |vm.vec.mem|
    requires Room(vm.Count(), vm.vec.total, Kinds(args)) && Holds(a, PlaceAll(vm, args))
    ensures Holds(a, vm)
    decreases |args|
  {
    if args != [] {
      PlaceCounts(vm, args[0]);
      assert Kinds(args)[1..] == Kinds(args[1..]);
      PlaceAllKeeps(Place(vm, args[0]), args[1..], a);
      PlaceKeeps(vm, args[0], a);
    }
  }

  function Kinds(args: seq<Arg>): (r: seq<Kind>)
    ensures |r| == |args|
  {
    seq(|args|, k requires 0 <= k < |args| => KindOf(args[k]))
  }

  // ----- one fetch answers one placement -----

  lemma IntStep(vm: Vm, x: Word4, a: Args)
    requires vm.Valid() && a.Valid() && InStep(vm, a) && StepRoom(vm, Core) && SafeKind(vm.Count(), a.rc, Core)
    requires Holds(a, PlaceInt(vm, x))
    ensures var (v, a') := FetchWord(a);
            && v == x && InStep(PlaceInt(vm, x), a') && SameImage(a, a')
            && a'.rc == NextRc(vm.Count(), a.rc, Core)
  {
    if vm.i < 16 {
      assert a.regs[a.rc] == Load(PlaceInt(vm, x).vec.mem, 4 * a.rc, 4);
      StoreLoad(vm.vec.mem, vm.i, x);
    } else {
      StackBytes(a.stack, PlaceInt(vm, x).vec.mem, PlaceInt(vm, x).vec.size, vm.vec.size, x);
    }
  }

  /** A block of stack bytes as the callback reads it. */
  lemma StackBytes(stack: seq<byte>, mem: seq<byte>, size: nat, at: nat, x: seq<byte>)
    requires StackHolds(stack, mem, size) && 16 <= at && at + |x| <= size && Load(mem, at, |x|) == x
    ensures Peek(stack, at - 16, |x|) == x
  {
    forall k | 0 <= k < |x|
      ensures Peek(stack, at - 16, |x|)[k] == x[k]
    {
      assert stack[at + k - 16] == mem[at + k];
      assert Load(mem, at, |x|)[k] == mem[at + k];
    }
  }

  /** The words of an aligned pair as the callback reads them. */
  lemma PairOnStack(vec: Vec, x: Word8, stack: seq<byte>)
    requires 16 <= vec.size && vec.total <= |vec.mem| && Align8(vec.size) + 8 <= vec.total
    requires var v := VecAppend(VecSkip(vec, Align8(vec.size) - vec.size), x); StackHolds(stack, v.mem, v.size)
    ensures Peek(stack, Align8(vec.size) - 16, 4) == x[..4] && Peek(stack, Align8(vec.size) - 12, 4) == x[4..]
  {
    var at := Align8(vec.size);
    var v := VecAppend(VecSkip(vec, at - vec.size), x);
    StoreLoad(vec.mem, at, x);
    assert Load(v.mem, at, 4) == Load(v.mem, at, 8)[..4];
    assert Load(v.mem, at + 4, 4) == Load(v.mem, at, 8)[4..];
    StackBytes(stack, v.mem, v.size, at, x[..4]);
    StackBytes(stack, v.mem, v.size, at + 4, x[4..]);
  }

  /** Both sides align the stack in the same way. */
  lemma AlignedPointer(a: Args, size: nat)
    requires a.Valid() && a.rc >= 3 && 4 * a.sp + 16 == size
    ensures var b := Align64(a); b == a.(rc := 4, sp := b.sp) && 4 * b.sp + 16 == Align8(size)
  {
    if a.sp % 2 == 1 {
      assert size % 8 == 4;
    } else {
      assert size % 8 == 0;
    }
  }

  lemma StackPair(a: Args, x: Word8)
    requires a.Valid() && a.rc >= 3
    requires var at := 4 * Align64(a).sp; Peek(a.stack, at, 4) == x[..4] && Peek(a.stack, at + 4, 4) == x[4..]
    requires Align64(a).rc == 4
    ensures FetchTwoWords(a) == (x, Align64(a).(sp := Align64(a).sp + 2))
  {
    assert x[..4] + x[4..] == x;
  }

  /** With at most the last core register left, two words come from the aligned stack. */
  lemma SpilledPair(vm: Vm, x: Word8, a: Args)
    requires vm.Valid() && a.Valid() && a.rc >= 3 && 4 * a.sp + 16 == vm.vec.size
    requires vm.vec.size <= |vm.vec.mem| && Align8(vm.vec.size) + 8 <= vm.vec.total
    requires var v := VecAppend(VecSkip(vm.vec, Align8(vm.vec.size) - vm.vec.size), x); StackHolds(a.stack, v.mem, v.size)
    ensures var (v, a') := FetchTwoWords(a);
            && v == x && SameImage(a, a') && a'.rc == 4 && 4 * a'.sp + 16 == Align8(vm.vec.size) + 8
            && a'.fc == a.fc && a'.dc == a.dc
  {
    PairOnStack(vm.vec, x, a.stack);
    AlignedPointer(a, vm.vec.size);
    StackPair(a, x);
  }

  /** An even-odd pair of core registers. */
  lemma RegisterPair(vm: Vm, x: Word8, a: Args)
    requires vm.Valid() && a.Valid() && InStep(vm, a) && Pair(vm.i) < 16 && Holds(a, PlaceLongLong(vm, x))
    ensures var rc := Up2(a.rc);
            rc <= 2 && Pair(vm.i) == 4 * rc && a.regs[rc] == x[..4] && a.regs[rc + 1] == x[4..]
  {
    var r, rc := PlaceLongLong(vm, x), Up2(a.rc);
    PairInStep(vm, a);
    StoredHalves(vm.vec.mem, 4 * rc, x);
    CoreHeld(a, r, rc);
    CoreHeld(a, r, rc + 1);
  }

  lemma PairInStep(vm: Vm, a: Args)
    requires vm.Valid() && a.Valid() && InStep(vm, a) && Pair(vm.i) < 16
    ensures Up2(a.rc) <= 2 && Pair(vm.i) == 4 * Up2(a.rc)
  {
  }

  lemma CoreHeld(a: Args, vm: Vm, k: nat)
    requires vm.Valid() && a.Valid() && Holds(a, vm) && 4 * k < vm.i && k < 4
    ensures a.regs[k] == Load(vm.vec.mem, 4 * k, 4)
  {
  }

  lemma StoredHalves(mem: seq<byte>, at: nat, x: Word8)
    requires at + 8 <= |mem|
    ensures Load(Store(mem, at, x), at, 4) == x[..4] && Load(Store(mem, at, x), at + 4, 4) == x[4..]
  {
    var r := Store(mem, at, x);
    StoreLoad(mem, at, x);
    assert Load(r, at, 4) == Load(r, at, 8)[..4] && Load(r, at + 4, 4) == Load(r, at, 8)[4..];
  }

  lemma LongLongStep(vm: Vm, x: Word8, a: Args)
    requires vm.Valid() && a.Valid() && InStep(vm, a) && vm.vec.size <= |vm.vec.mem|
    requires StepRoom(vm, Core64) && Holds(a, PlaceLongLong(vm, x))
    ensures var (v, a') := FetchTwoWords(a);
            && v == x && InStep(PlaceLongLong(vm, x), a') && SameImage(a, a')
            && a'.rc == NextRc(vm.Count(), a.rc, Core64)
  {
    if Pair(vm.i) < 16 {
      RegisterPair(vm, x, a);
      assert x[..4] + x[4..] == x;
    } else {
      SpilledPair(vm, x, a);
    }
  }

  lemma FloatStep(vm: Vm, x: Word4, a: Args)
    requires vm.Valid() && a.Valid() && InStep(vm, a) && vm.vec.size <= |vm.vec.mem|
    requires StepRoom(vm, Single) && SafeKind(vm.Count(), a.rc, Single) && Holds(a, PlaceFloat(vm, x))
    ensures var (v, a') := FetchFloat(a);
            && v == x && InStep(PlaceFloat(vm, x), a') && SameImage(a, a')
            && a'.rc == NextRc(vm.Count(), a.rc, Single)
  {
    if vm.s < 16 {
      assert Used(PlaceFloat(vm, x), vm.s);
    } else {
      StoreLoad(vm.vec.mem, vm.vec.size, x);
      StackBytes(a.stack, PlaceFloat(vm, x).vec.mem, PlaceFloat(vm, x).vec.size, vm.vec.size, x);
    }
  }

  lemma DoubleStep(vm: Vm, x: Word8, a: Args)
    requires vm.Valid() && a.Valid() && InStep(vm, a) && vm.vec.size <= |vm.vec.mem|
    requires StepRoom(vm, Double) && SafeKind(vm.Count(), a.rc, Double) && Holds(a, PlaceDouble(vm, x))
    ensures var (v, a') := FetchDouble(a);
            && v == x && InStep(PlaceDouble(vm, x), a') && SameImage(a, a')
            && a'.rc == NextRc(vm.Count(), a.rc, Double)
  {
    if vm.d < 16 {
      var r := PlaceDouble(vm, x);
      assert Used(r, vm.d) && Used(r, vm.d + 1);
      assert a.singles[vm.d] == x[..4] && a.singles[vm.d + 1] == x[4..];
      assert x[..4] + x[4..] == x;
    } else {
      SpilledPair(vm, x, a.(dc := NextDoubleReg(a), fc := 16));
    }
  }

  lemma IntArgStep(vm: Vm, x: Arg, a: Args)
    requires vm.Valid() && ValidArg(x) && a.Valid() && InStep(vm, a) && KindOf(x) == Core
    requires StepRoom(vm, Core) && SafeKind(vm.Count(), a.rc, Core) && Holds(a, Place(vm, x))
    ensures var (got, a') := Fetch(a, WantFor(x));
            && got == Sent(x) && InStep(Place(vm, x), a') && SameImage(a, a')
            && a'.rc == NextRc(vm.Count(), a.rc, Core)
  {
    IntStep(vm, if x.ArgBool? then x.truth else SignExtendLE(x.value, 4), a);
  }

  lemma Step(vm: Vm, x: Arg, a: Args)
    requires vm.Valid() && ValidArg(x) && a.Valid() && InStep(vm, a) && vm.vec.size <= |vm.vec.mem|
    requires StepRoom(vm, KindOf(x)) && SafeKind(vm.Count(), a.rc, KindOf(x))
    requires Holds(a, Place(vm, x))
    ensures var (got, a') := Fetch(a, WantFor(x));
            && got == Sent(x) && InStep(Place(vm, x), a') && SameImage(a, a')
            && a'.rc == NextRc(vm.Count(), a.rc, KindOf(x))
  {
    match x
    case ArgBool(b) => IntArgStep(vm, x, a);
    case ArgInt(b) => IntArgStep(vm, x, a);
    case ArgLongLong(l) => LongLongStep(vm, l, a);
    case ArgFloat(v) => FloatStep(vm, v, a);
    case ArgDouble(v) => DoubleStep(vm, v, a);
  }

  lemma {:induction false} RoundTrip(vm: Vm, args: seq<Arg>, a: Args)
    requires vm.Valid() && ValidArgs(args) && a.Valid() && InStep(vm, a) && vm.vec.size <= |vm.vec.mem|
    requires Room(vm.Count(), vm.vec.total, Kinds(args)) && Safe(vm.Count(), a.rc, Kinds(args))
    requires Holds(a, PlaceAll(vm, args))
    ensures Delivers(a, args)
    decreases |args|
  {
    if args != [] {
      var next := Place(vm, args[0]);
      PlaceCounts(vm, args[0]);
      assert Kinds(args)[1..] == Kinds(args[1..]);
      PlaceAllKeeps(next, args[1..], a);
      Step(vm, args[0], a);
      RoundTrip(next, args[1..], Fetch(a, WantFor(args[0])).1);
    }
  }
}
