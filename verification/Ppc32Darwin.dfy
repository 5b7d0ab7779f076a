/** PowerPC 32-bit Darwin: every argument goes to the stack, and is mirrored in registers. */
module Ppc32Darwin {
  import opened Bytes
  import opened Vector
  import opened Ppc32

  // ----- the caller -----

  function PlaceInt(vm: Vm, x: Word4): (r: Vm)
    requires vm.Valid()
    ensures r.Valid()
  {
    var vm' := if vm.i < INT_REGS then vm.(i := vm.i + 1, ints := vm.ints[vm.i := x]) else vm;
    vm'.(vec := VecAppend(vm.vec, x))
  }

  /** Mirror a word in the next integer register, if there is one. */
  function Mirrored(vm: Vm, x: Word4): (r: Vm)
    requires vm.Valid()
    ensures r.Valid() && r.vec == vm.vec && r.f == vm.f && r.floats == vm.floats
  {
    if vm.i < INT_REGS then vm.(i := vm.i + 1, ints := vm.ints[vm.i := x]) else vm
  }

  function PlaceDouble(vm: Vm, x: Word8): (r: Vm)
    requires vm.Valid()
    ensures r.Valid()
  {
    var vm' :=
      if vm.f < FLOAT_REGS then
        Mirrored(Mirrored(vm.(f := vm.f + 1, floats := vm.floats[vm.f := Wide(x)]), x[..4]), x[4..])
      else vm;
    vm'.(vec := VecAppend(vm.vec, x))
  }

  function PlaceFloat(vm: Vm, x: Word4): (r: Vm)
    requires vm.Valid()
    ensures r.Valid()
  {
    var vm' := if vm.f < FLOAT_REGS then vm.(f := vm.f + 1, floats := vm.floats[vm.f := Widened(x)]) else vm;
    Mirrored(vm', x).(vec := VecAppend(vm.vec, x))
  }

  function Place(vm: Vm, x: Arg): (r: Vm)
    requires vm.Valid() && ValidArg(x)
    ensures r.Valid()
  {
    match x
    case ArgBool(b) => PlaceInt(vm, Truth(b))
    case ArgInt(b) => PlaceInt(vm, SignExtendBE(b, 4))
    case ArgLongLong(l) => PlaceInt(PlaceInt(vm, l[..4]), l[4..])
    case ArgFloat(v) => PlaceFloat(vm, v)
    case ArgDouble(v) => PlaceDouble(vm, v)
  }

  function PlaceAll(vm: Vm, args: seq<Arg>): (r: Vm)
    requires vm.Valid() && ValidArgs(args)
    ensures r.Valid()
    decreases |args|
  {
    if args == [] then vm else PlaceAll(Place(vm, args[0]), args[1..])
  }

  function Width(x: Arg): nat {
    if x.ArgLongLong? || x.ArgDouble? then 8 else 4
  }

  /** Stack bytes of an argument list. */
  function Need(args: seq<Arg>): nat {
    if args == [] then 0 else Width(args[0]) + Need(args[1..])
  }

  // ----- the callback -----

  function FetchInt(a: Args): (r: (Word4, Args))
    requires a.Valid()
    ensures r.1.Valid()
  {
    if a.i < INT_REGS then (a.ints[a.i], a.(i := a.i + 1, sp := a.sp + 4))
    else (Peek(a.stack, a.sp, 4), a.(sp := a.sp + 4))
  }

  /** A double passes two integer registers, or the last one, whether or not it had a register. */
  function FetchDouble(a: Args): (r: (Word8, Args))
    requires a.Valid()
    ensures r.1.Valid()
  {
    var i := if a.i < 7 then a.i + 2 else if a.i == 7 then 8 else a.i;
    if a.f < FLOAT_REGS then (AsDouble(a.floats[a.f]), a.(i := i, f := a.f + 1, sp := a.sp + 8))
    else (Peek(a.stack, a.sp, 8), a.(i := i, sp := a.sp + 8))
  }

  function FetchFloat(a: Args): (r: (Word4, Args))
    requires a.Valid()
    ensures r.1.Valid()
  {
    var i := if a.i < INT_REGS then a.i + 1 else a.i;
    if a.f < FLOAT_REGS then (AsFloat(a.floats[a.f]), a.(i := i, f := a.f + 1, sp := a.sp + 4))
    else (Peek(a.stack, a.sp, 4), a.(i := i, sp := a.sp + 4))
  }

  function FetchLongLong(a: Args): (r: (Word8, Args))
    requires a.Valid()
    ensures r.1.Valid()
  {
    var (hi, a') := FetchInt(a);
    var (lo, a'') := FetchInt(a');
    (Join(hi, lo), a'')
  }

  function Fetch(a: Args, w: Want): (r: (seq<byte>, Args))
    requires a.Valid() && (w.WantInt? ==> w.width <= 4)
    ensures r.1.Valid()
  {
    match w
    case WantInt(n) => var (x, a') := FetchInt(a); (x[4 - n..], a')
    case WantLongLong => FetchLongLong(a)
    case WantFloat => FetchFloat(a)
    case WantDouble => FetchDouble(a)
  }

  predicate Delivers(a: Args, args: seq<Arg>)
    requires a.Valid() && ValidArgs(args)
    decreases |args|
  {
    args != [] ==>
      var (got, a') := Fetch(a, WantFor(args[0]));
      got == Sent(args[0]) && Delivers(a', args[1..])
  }

  // ----- the mirror -----

  /** The integer registers in use repeat the first words of the stack, as many as there are; and
      floating-point registers run out only after the integer registers did. */
  ghost predicate Mirror(vm: Vm)
    requires vm.Valid()
  {
    && vm.vec.size % 4 == 0 && vm.vec.size <= vm.vec.total
    && vm.i == (if vm.vec.size >= 32 then 8 else vm.vec.size / 4)
    && 4 * vm.f <= vm.vec.size
    && forall k: nat :: k < vm.i ==> vm.ints[k] == Load(vm.vec.mem, 4 * k, 4)
  }

  lemma WordMirrored(vm: Vm, x: Word4, y: Vm)
    requires vm.Valid() && Mirror(vm) && vm.vec.size + 4 <= vm.vec.total
    requires y.Valid() && y.vec == VecAppend(vm.vec, x) && vm.f <= y.f <= vm.f + 1
    requires y.i == Mirrored(vm, x).i && y.ints == Mirrored(vm, x).ints
    ensures Mirror(y)
  {
    StoreLoad(vm.vec.mem, vm.vec.size, x);
    forall k: nat | k < y.i
      ensures y.ints[k] == Load(y.vec.mem, 4 * k, 4)
    {
      if 4 * k < vm.vec.size {
        AgreeLoad(vm.vec.mem, y.vec.mem, vm.vec.size, 4 * k, 4);
      }
    }
  }

  lemma DoubleMirrored(vm: Vm, x: Word8)
    requires vm.Valid() && Mirror(vm) && vm.vec.size + 8 <= vm.vec.total
    ensures Mirror(PlaceDouble(vm, x))
  {
    var hi, lo := x[..4], x[4..];
    var one := Mirrored(vm, hi).(vec := VecAppend(vm.vec, hi));
    WordMirrored(vm, hi, one);
    var two := Mirrored(one, lo).(vec := VecAppend(one.vec, lo));
    WordMirrored(one, lo, two);
    assert two.vec == VecAppend(vm.vec, x);
    assert PlaceDouble(vm, x).i == two.i && PlaceDouble(vm, x).ints == two.ints;
  }

  /** Every placement keeps the mirror. */
  lemma PlaceMirrors(vm: Vm, x: Arg)
    requires vm.Valid() && ValidArg(x) && Mirror(vm) && vm.vec.size + Width(x) <= vm.vec.total
    ensures Mirror(Place(vm, x))
    ensures Place(vm, x).vec.size == vm.vec.size + Width(x) && Place(vm, x).vec.total == vm.vec.total
  {
    match x
    case ArgBool(b) => WordMirrored(vm, Truth(b), PlaceInt(vm, Truth(b)));
    case ArgInt(b) => WordMirrored(vm, SignExtendBE(b, 4), PlaceInt(vm, SignExtendBE(b, 4)));
    case ArgLongLong(l) =>
      WordMirrored(vm, l[..4], PlaceInt(vm, l[..4]));
      WordMirrored(PlaceInt(vm, l[..4]), l[4..], PlaceInt(PlaceInt(vm, l[..4]), l[4..]));
    case ArgFloat(v) => WordMirrored(vm, v, PlaceFloat(vm, v));
    case ArgDouble(v) => DoubleMirrored(vm, v);
  }

  // ----- round trip -----

  lemma PlaceKeeps(vm: Vm, x: Arg, a: Args)
    requires vm.Valid() && ValidArg(x) && a.Valid() && vm.vec.size + Width(x) <= vm.vec.total
    requires Holds(a, Place(vm, x))
    ensures Holds(a, vm)
  {
    var r := Place(vm, x);
    AgreeShorter(r.vec.mem, a.stack, r.vec.size, vm.vec.size);
    assert Agree(vm.vec.mem, r.vec.mem, vm.vec.size);
  }

  lemma {:induction false} PlaceAllKeeps(vm: Vm, args: seq<Arg>, a: Args)
    requires vm.Valid() && ValidArgs(args) && a.Valid() && Mirror(vm) && vm.vec.size + Need(args) <= vm.vec.total
    requires Holds(a, PlaceAll(vm, args))
    ensures Holds(a, vm)
    decreases |args|
  {
    if args != [] {
      PlaceMirrors(vm, args[0]);
      PlaceAllKeeps(Place(vm, args[0]), args[1..], a);
      PlaceKeeps(vm, args[0], a);
    }
  }

  lemma IntStep(vm: Vm, x: Word4, a: Args)
    requires vm.Valid() && a.Valid() && InStep(vm, a) && vm.vec.size + 4 <= vm.vec.total
    requires Holds(a, PlaceInt(vm, x))
    ensures var (v, a') := FetchInt(a); v == x && InStep(PlaceInt(vm, x), a') && SameImage(a, a')
  {
    StoreLoad(vm.vec.mem, vm.vec.size, x);
    AgreePeek(PlaceInt(vm, x).vec.mem, a.stack, vm.vec.size + 4, vm.vec.size, 4);
  }

  lemma LongLongStep(vm: Vm, x: Word8, a: Args)
    requires vm.Valid() && a.Valid() && InStep(vm, a) && vm.vec.size + 8 <= vm.vec.total
    requires Holds(a, PlaceInt(PlaceInt(vm, x[..4]), x[4..]))
    ensures var (v, a') := FetchLongLong(a);
            v == x && InStep(PlaceInt(PlaceInt(vm, x[..4]), x[4..]), a') && SameImage(a, a')
  {
    var one := PlaceInt(vm, x[..4]);
    assert SignExtendBE(x[4..], 4) == x[4..];
    PlaceKeeps(one, ArgInt(x[4..]), a);
    IntStep(vm, x[..4], a);
    IntStep(one, x[4..], FetchInt(a).1);
    assert x[..4] + x[4..] == x;
  }

  lemma FloatStep(vm: Vm, x: Word4, a: Args)
    requires vm.Valid() && a.Valid() && InStep(vm, a) && vm.vec.size + 4 <= vm.vec.total
    requires Holds(a, PlaceFloat(vm, x))
    ensures var (v, a') := FetchFloat(a); v == x && InStep(PlaceFloat(vm, x), a') && SameImage(a, a')
  {
    StoreLoad(vm.vec.mem, vm.vec.size, x);
    AgreePeek(PlaceFloat(vm, x).vec.mem, a.stack, vm.vec.size + 4, vm.vec.size, 4);
  }

  /** The callback passes two integer registers whether or not the caller filled them: by the time
      the floating-point registers run out, there are none left to pass. */
  lemma DoubleStep(vm: Vm, x: Word8, a: Args)
    requires vm.Valid() && a.Valid() && InStep(vm, a) && Mirror(vm) && vm.vec.size + 8 <= vm.vec.total
    requires Holds(a, PlaceDouble(vm, x))
    ensures var (v, a') := FetchDouble(a); v == x && InStep(PlaceDouble(vm, x), a') && SameImage(a, a')
  {
    StoreLoad(vm.vec.mem, vm.vec.size, x);
    AgreePeek(PlaceDouble(vm, x).vec.mem, a.stack, vm.vec.size + 8, vm.vec.size, 8);
  }

  lemma Step(vm: Vm, x: Arg, a: Args)
    requires vm.Valid() && ValidArg(x) && a.Valid() && InStep(vm, a) && Mirror(vm)
    requires vm.vec.size + Width(x) <= vm.vec.total && Holds(a, Place(vm, x))
    ensures var (got, a') := Fetch(a, WantFor(x));
            got == Sent(x) && InStep(Place(vm, x), a') && SameImage(a, a')
  {
    match x
    case ArgBool(b) => IntStep(vm, Truth(b), a);
    case ArgInt(b) => IntStep(vm, SignExtendBE(b, 4), a);
    case ArgLongLong(l) => LongLongStep(vm, l, a);
    case ArgFloat(v) => FloatStep(vm, v, a);
    case ArgDouble(v) => DoubleStep(vm, v, a);
  }

  /** Every argument list that fits is fetched back. */
  lemma {:induction false} RoundTrip(vm: Vm, args: seq<Arg>, a: Args)
    requires vm.Valid() && ValidArgs(args) && a.Valid() && InStep(vm, a) && Mirror(vm)
    requires vm.vec.size + Need(args) <= vm.vec.total && Holds(a, PlaceAll(vm, args))
    ensures Delivers(a, args)
    decreases |args|
  {
    if args != [] {
      PlaceMirrors(vm, args[0]);
      PlaceAllKeeps(Place(vm, args[0]), args[1..], a);
      Step(vm, args[0], a);
      RoundTrip(Place(vm, args[0]), args[1..], Fetch(a, WantFor(args[0])).1);
    }
  }

  /** In every reachable state the mirror holds. */
  lemma {:induction false} PlaceAllMirrors(vm: Vm, args: seq<Arg>)
    requires vm.Valid() && ValidArgs(args) && Mirror(vm) && vm.vec.size + Need(args) <= vm.vec.total
    ensures Mirror(PlaceAll(vm, args)) && PlaceAll(vm, args).vec.size == vm.vec.size + Need(args)
    decreases |args|
  {
    if args != [] {
      PlaceMirrors(vm, args[0]);
      PlaceAllMirrors(Place(vm, args[0]), args[1..]);
    }
  }
}
