/** PowerPC 32-bit System V: registers or stack, with even-odd register pairs and 8-byte alignment
    for 64-bit values. */
module Ppc32SysV {
  import opened Bytes
  import opened Vector
  import opened Ppc32

  /** The convention uses eight of the floating-point registers. */
  const FLOAT_ARGS: nat := 8

  function Even(i: nat): nat {
    if i % 2 == 1 then i + 1 else i
  }

  // ----- the caller -----

  function PlaceInt(vm: Vm, x: Word4): (r: Vm)
    requires vm.Valid()
    ensures r.Valid()
  {
    if vm.i < INT_REGS then vm.(i := vm.i + 1, ints := vm.ints[vm.i := x])
    else vm.(vec := VecAppend(vm.vec, x))
  }

  function AppendAligned(v: Vec, x: Word8): Vec
    requires v.Valid()
  {
    VecAppend(v.(size := Up8(v.size)), x)
  }

  function PlaceLongLong(vm: Vm, x: Word8): (r: Vm)
    requires vm.Valid()
    ensures r.Valid()
  {
    if vm.i < 7 then
      var i := Even(vm.i);
      vm.(i := i + 2, ints := vm.ints[i := x[..4]][i + 1 := x[4..]])
    else vm.(i := 8, vec := AppendAligned(vm.vec, x))
  }

  function PlaceDouble(vm: Vm, x: Word8): (r: Vm)
    requires vm.Valid()
    ensures r.Valid()
  {
    if vm.f < FLOAT_ARGS then vm.(f := vm.f + 1, floats := vm.floats[vm.f := Wide(x)])
    else vm.(vec := AppendAligned(vm.vec, x))
  }

  function PlaceFloat(vm: Vm, x: Word4): (r: Vm)
    requires vm.Valid()
    ensures r.Valid()
  {
    if vm.f < FLOAT_ARGS then vm.(f := vm.f + 1, floats := vm.floats[vm.f := Widened(x)])
    else vm.(vec := VecAppend(vm.vec, x))
  }

  function Place(vm: Vm, x: Arg): (r: Vm)
    requires vm.Valid() && ValidArg(x)
    ensures r.Valid()
  {
    match x
    case ArgBool(b) => PlaceInt(vm, Truth(b))
    case ArgInt(b) => PlaceInt(vm, SignExtendBE(b, 4))
    case ArgLongLong(l) => PlaceLongLong(vm, l)
    case ArgFloat(v) => PlaceFloat(vm, v)
    case ArgDouble(v) => PlaceDouble(vm, v)
  }

  function PlaceAll(vm: Vm, args: seq<Arg>): (r: Vm)
    requires vm.Valid() && ValidArgs(args)
    ensures r.Valid()
    decreases |args|
  {
    if args == [] then vm else PlaceAll(Place(vm, args[0]), args[1..])
  }

  /** Register counters and vector size, as the types of the arguments move them. */
  datatype Counters = Counters(i: nat, f: nat, size: nat)

  function Count(vm: Vm): Counters {
    Counters(vm.i, vm.f, vm.vec.size)
  }

  function Next(c: Counters, x: Arg): Counters {
    if x.ArgLongLong? then
      if c.i < 7 then c.(i := Even(c.i) + 2) else c.(i := 8, size := Up8(c.size) + 8)
    else if x.ArgFloat? || x.ArgDouble? then
      if c.f < FLOAT_ARGS then c.(f := c.f + 1)
      else c.(size := if x.ArgFloat? then c.size + 4 else Up8(c.size) + 8)
    else if c.i < INT_REGS then c.(i := c.i + 1)
    else c.(size := c.size + 4)
  }

  /** Stack bytes once all arguments are placed. */
  function SizeAfter(c: Counters, args: seq<Arg>): nat
    decreases |args|
  {
    if args == [] then c.size else SizeAfter(Next(c, args[0]), args[1..])
  }

  // ----- the callback -----

  function FetchInt(a: Args): (r: (Word4, Args))
    requires a.Valid()
    ensures r.1.Valid()
  {
    if a.i < INT_REGS then (a.ints[a.i], a.(i := a.i + 1))
    else (Peek(a.stack, a.sp, 4), a.(sp := a.sp + 4))
  }

  function FetchLongLong(a: Args): (r: (Word8, Args))
    requires a.Valid()
    ensures r.1.Valid()
  {
    if a.i < 7 then
      var i := Up2(a.i);
      (Join(a.ints[i], a.ints[i + 1]), a.(i := i + 2))
    else
      var sp := Up8(a.sp);
      (Peek(a.stack, sp, 8), a.(i := 8, sp := sp + 8))
  }

  function FetchDouble(a: Args): (r: (Word8, Args))
    requires a.Valid()
    ensures r.1.Valid()
  {
    if a.f < FLOAT_ARGS then (AsDouble(a.floats[a.f]), a.(f := a.f + 1))
    else
      var sp := Up8(a.sp);
      (Peek(a.stack, sp, 8), a.(sp := sp + 8))
  }

  function FetchFloat(a: Args): (r: (Word4, Args))
    requires a.Valid()
    ensures r.1.Valid()
  {
    if a.f < FLOAT_ARGS then (AsFloat(a.floats[a.f]), a.(f := a.f + 1))
    else (Peek(a.stack, a.sp, 4), a.(sp := a.sp + 4))
  }

  function Fetch(a: Args, w: Want): (r: (seq<byte>, Args))
    requires a.Valid() && (w.WantInt? ==> w.width <= 4)
    ensures r.1.Valid()
  {
    match w
    case WantInt(n) => var (x, a') := FetchInt(a); (x[4 - n..], a')
    case WantLongLong => FetchLongLong(a)
    case WantFloat => FetchFloat(a)
    case WantDouble => FetchDouble(a)
  }

  predicate Delivers(a: Args, args: seq<Arg>)
    requires a.Valid() && ValidArgs(args)
    decreases |args|
  {
    args != [] ==>
      var (got, a') := Fetch(a, WantFor(args[0]));
      got == Sent(args[0]) && Delivers(a', args[1..])
  }

  // ----- round trip -----

  lemma NextGrows(c: Counters, x: Arg)
    ensures c.size <= Next(c, x).size
  {
  }

  lemma {:induction false} SizeGrows(c: Counters, args: seq<Arg>)
    ensures c.size <= SizeAfter(c, args)
    decreases |args|
  {
    if args != [] {
      NextGrows(c, args[0]);
      SizeGrows(Next(c, args[0]), args[1..]);
    }
  }

  lemma PlaceCounts(vm: Vm, x: Arg)
    requires vm.Valid() && ValidArg(x) && Next(Count(vm), x).size <= vm.vec.total
    ensures Count(Place(vm, x)) == Next(Count(vm), x) && Place(vm, x).vec.total == vm.vec.total
  {
  }

  /** A 64-bit value is never split: it takes two registers of a pair, or one aligned stack slot. */
  lemma PairOrSlot(vm: Vm, x: Word8)
    requires vm.Valid() && Up8(vm.vec.size) + 8 <= vm.vec.total
    ensures var r := PlaceLongLong(vm, x);
            || (r.vec == vm.vec && r.i % 2 == 0 && vm.i + 2 <= r.i <= 8 && Join(r.ints[r.i - 2], r.ints[r.i - 1]) == x)
            || (r.ints == vm.ints && r.i == 8 && r.vec.size % 8 == 0 && vm.vec.size + 8 <= r.vec.size
                && Load(r.vec.mem, r.vec.size - 8, 8) == x)
  {
    assert x[..4] + x[4..] == x;
    if vm.i >= 7 {
      StoreLoad(vm.vec.mem, Up8(vm.vec.size), x);
    }
  }

  lemma StackKept(v: Vec, w: Vec, a: Args)
    requires v.Valid() && v.size <= w.size && Agree(w.mem, a.stack, w.size) && |v.mem| == |w.mem|
    requires Agree(v.mem, w.mem, v.size)
    ensures Agree(v.mem, a.stack, v.size)
  {
    AgreeShorter(w.mem, a.stack, w.size, v.size);
  }

  lemma PlaceKeeps(vm: Vm, x: Arg, a: Args)
    requires vm.Valid() && ValidArg(x) && a.Valid() && Next(Count(vm), x).size <= vm.vec.total
    requires Holds(a, Place(vm, x))
    ensures Holds(a, vm)
  {
    NextGrows(Count(vm), x);
    PlaceCounts(vm, x);
    StackKept(vm.vec, Place(vm, x).vec, a);
  }

  lemma {:induction false} PlaceAllKeeps(vm: Vm, args: seq<Arg>, a: Args)
    requires vm.Valid() && ValidArgs(args) && a.Valid() && SizeAfter(Count(vm), args) <= vm.vec.total
    requires Holds(a, PlaceAll(vm, args))
    ensures Holds(a, vm)
    decreases |args|
  {
    if args != [] {
      SizeGrows(Next(Count(vm), args[0]), args[1..]);
      PlaceCounts(vm, args[0]);
      PlaceAllKeeps(Place(vm, args[0]), args[1..], a);
      PlaceKeeps(vm, args[0], a);
    }
  }

  /** What was stored on the stack at `at` is read back. */
  lemma SlotRead(v: Vec, at: nat, x: seq<byte>, a: Args)
    requires v.Valid() && at + |x| <= v.total
    requires Agree(Store(v.mem, at, x), a.stack, at + |x|)
    ensures Peek(a.stack, at, |x|) == x
  {
    StoreLoad(v.mem, at, x);
    AgreePeek(Store(v.mem, at, x), a.stack, at + |x|, at, |x|);
  }

  lemma IntStep(vm: Vm, x: Word4, a: Args)
    requires vm.Valid() && a.Valid() && InStep(vm, a) && (vm.i < INT_REGS || vm.vec.size + 4 <= vm.vec.total)
    requires Holds(a, PlaceInt(vm, x))
    ensures var (v, a') := FetchInt(a); v == x && InStep(PlaceInt(vm, x), a') && SameImage(a, a')
  {
    if vm.i >= INT_REGS {
      SlotRead(vm.vec, vm.vec.size, x, a);
    }
  }

  lemma LongLongStep(vm: Vm, x: Word8, a: Args)
    requires vm.Valid() && a.Valid() && InStep(vm, a) && (vm.i < 7 || Up8(vm.vec.size) + 8 <= vm.vec.total)
    requires Holds(a, PlaceLongLong(vm, x))
    ensures var (v, a') := FetchLongLong(a); v == x && InStep(PlaceLongLong(vm, x), a') && SameImage(a, a')
  {
    if vm.i < 7 {
      var i := Even(vm.i);
      assert i == Up2(vm.i) && PlaceLongLong(vm, x).i == i + 2;
      assert a.ints[i] == x[..4] && a.ints[i + 1] == x[4..];
      assert x[..4] + x[4..] == x;
    } else {
      SlotRead(vm.vec, Up8(vm.vec.size), x, a);
    }
  }

  lemma FloatStep(vm: Vm, x: Word4, a: Args)
    requires vm.Valid() && a.Valid() && InStep(vm, a) && (vm.f < FLOAT_ARGS || vm.vec.size + 4 <= vm.vec.total)
    requires Holds(a, PlaceFloat(vm, x))
    ensures var (v, a') := FetchFloat(a); v == x && InStep(PlaceFloat(vm, x), a') && SameImage(a, a')
  {
    if vm.f >= FLOAT_ARGS {
      SlotRead(vm.vec, vm.vec.size, x, a);
    }
  }

  lemma DoubleStep(vm: Vm, x: Word8, a: Args)
    requires vm.Valid() && a.Valid() && InStep(vm, a) && (vm.f < FLOAT_ARGS || Up8(vm.vec.size) + 8 <= vm.vec.total)
    requires Holds(a, PlaceDouble(vm, x))
    ensures var (v, a') := FetchDouble(a); v == x && InStep(PlaceDouble(vm, x), a') && SameImage(a, a')
  {
    if vm.f >= FLOAT_ARGS {
      SlotRead(vm.vec, Up8(vm.vec.size), x, a);
    }
  }

  lemma Step(vm: Vm, x: Arg, a: Args)
    requires vm.Valid() && ValidArg(x) && a.Valid() && InStep(vm, a)
    requires Next(Count(vm), x).size <= vm.vec.total && Holds(a, Place(vm, x))
    ensures var (got, a') := Fetch(a, WantFor(x));
            got == Sent(x) && InStep(Place(vm, x), a') && SameImage(a, a')
  {
    match x
    case ArgBool(b) => IntStep(vm, Truth(b), a);
    case ArgInt(b) => IntStep(vm, SignExtendBE(b, 4), a);
    case ArgLongLong(l) => LongLongStep(vm, l, a);
    case ArgFloat(v) => FloatStep(vm, v, a);
    case ArgDouble(v) => DoubleStep(vm, v, a);
  }

  /** Every argument list that fits is fetched back. */
  lemma {:induction false} RoundTrip(vm: Vm, args: seq<Arg>, a: Args)
    requires vm.Valid() && ValidArgs(args) && a.Valid() && InStep(vm, a)
    requires SizeAfter(Count(vm), args) <= vm.vec.total && Holds(a, PlaceAll(vm, args))
    ensures Delivers(a, args)
    decreases |args|
  {
    if args != [] {
      var next := Place(vm, args[0]);
      SizeGrows(Next(Count(vm), args[0]), args[1..]);
      PlaceCounts(vm, args[0]);
      PlaceAllKeeps(next, args[1..], a);
      Step(vm, args[0], a);
      RoundTrip(next, args[1..], Fetch(a, WantFor(args[0])).1);
    }
  }

  lemma {:induction false} PlaceAllCounts(vm: Vm, args: seq<Arg>)
    requires vm.Valid() && ValidArgs(args) && SizeAfter(Count(vm), args) <= vm.vec.total
    ensures PlaceAll(vm, args).vec.size == SizeAfter(Count(vm), args)
    decreases |args|
  {
    if args != [] {
      SizeGrows(Next(Count(vm), args[0]), args[1..]);
      PlaceCounts(vm, args[0]);
      PlaceAllCounts(Place(vm, args[0]), args[1..]);
    }
  }
}
