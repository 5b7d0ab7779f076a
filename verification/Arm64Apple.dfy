/** Apple's arm64 convention: once registers run out, arguments are packed on the stack at their
    natural alignment (dyncall_callvm_arm64_apple.c, dyncall_args_arm64_apple.c). */
module Arm64Apple {
  import opened Bytes
  import opened Vector

  const REGS: nat := 8

  datatype Arg =
    | ArgSigned(value: seq<byte>)     // bool (an int), char, short, int, long, long long
    | ArgPointer(pointer: Word8)
    | ArgFloat(float: Word4)
    | ArgDouble(double: Word8)

  predicate ValidArg(x: Arg) {
    x.ArgSigned? ==> |x.value| in {1, 2, 4, 8}
  }

  predicate ValidArgs(args: seq<Arg>) {
    forall k :: 0 <= k < |args| ==> ValidArg(args[k])
  }

  function Sent(x: Arg): seq<byte> {
    match x
    case ArgSigned(b) => b
    case ArgPointer(p) => p
    case ArgFloat(v) => v
    case ArgDouble(v) => v
  }

  function Width(x: Arg): nat {
    |Sent(x)|
  }

  predicate Floating(x: Arg) {
    x.ArgFloat? || x.ArgDouble?
  }

  // ----- the caller -----

  /** `floats` are the eight double registers; a float takes the low half of one. */
  datatype Vm = Vm(i: nat, f: nat, ints: seq<Word8>, floats: seq<Word8>, vec: Vec) {
    predicate Valid() {
      i <= REGS && f <= REGS && |ints| == REGS && |floats| == REGS && vec.total <= |vec.mem|
    }
  }

  /** The register contents: integers are widened, a float leaves the high half as it was. */
  function InRegister(x: Arg, before: Word8): Word8
    requires ValidArg(x)
  {
    match x
    case ArgSigned(b) => SignExtendLE(b, 8)
    case ArgPointer(p) => p
    case ArgFloat(v) => v + before[4..]
    case ArgDouble(v) => v
  }

  function Place(vm: Vm, x: Arg): (r: Vm)
    requires vm.Valid() && ValidArg(x)
    ensures r.Valid()
  {
    if Floating(x) then
      if vm.f < REGS then vm.(f := vm.f + 1, floats := vm.floats[vm.f := InRegister(x, vm.floats[vm.f])])
      else vm.(vec := AppendPacked(vm.vec, x))
    else
      if vm.i < REGS then vm.(i := vm.i + 1, ints := vm.ints[vm.i := InRegister(x, vm.ints[vm.i])])
      else vm.(vec := AppendPacked(vm.vec, x))
  }

  function AppendPacked(v: Vec, x: Arg): (r: Vec)
    requires v.Valid() && ValidArg(x)
    ensures r.Valid()
  {
    VecAppend(v.(size := RoundUp(v.size, Width(x))), Sent(x))
  }

  function PlaceAll(vm: Vm, args: seq<Arg>): (r: Vm)
    requires vm.Valid() && ValidArgs(args)
    ensures r.Valid()
    decreases |args|
  {
    if args == [] then vm else PlaceAll(Place(vm, args[0]), args[1..])
  }

  datatype Counters = Counters(i: nat, f: nat, size: nat)

  function Count(vm: Vm): Counters {
    Counters(vm.i, vm.f, vm.vec.size)
  }

  /** The stack offset an argument gets if it is spilled. */
  function SlotOf(c: Counters, x: Arg): nat
    requires ValidArg(x)
  {
    RoundUp(c.size, Width(x))
  }

  predicate Spilled(c: Counters, x: Arg) {
    if Floating(x) then c.f >= REGS else c.i >= REGS
  }

  function Next(c: Counters, x: Arg): Counters
    requires ValidArg(x)
  {
    if Spilled(c, x) then c.(size := SlotOf(c, x) + Width(x))
    else if Floating(x) then c.(f := c.f + 1)
    else c.(i := c.i + 1)
  }

  function SizeAfter(c: Counters, args: seq<Arg>): nat
    requires ValidArgs(args)
    decreases |args|
  {
    if args == [] then c.size else SizeAfter(Next(c, args[0]), args[1..])
  }

  // ----- the callback -----

  /** `DCArgs`; the stack pointer counts bytes from a 16-byte boundary. */
  datatype Args = Args(sp: nat, i: nat, f: nat, ints: seq<Word8>, floats: seq<Word8>, stack: seq<byte>) {
    predicate Valid() {
      i <= REGS && f <= REGS && |ints| == REGS && |floats| == REGS
    }
  }

  datatype Want = WantSigned(width: nat) | WantPointer | WantFloat | WantDouble {
    predicate Valid() {
      WantSigned? ==> width in {1, 2, 4, 8}
    }

    function Width(): nat {
      match this
      case WantSigned(n) => n
      case WantPointer => 8
      case WantFloat => 4
      case WantDouble => 8
    }
  }

  function WantFor(x: Arg): Want {
    match x
    case ArgSigned(b) => WantSigned(|b|)
    case ArgPointer(_) => WantPointer
    case ArgFloat(_) => WantFloat
    case ArgDouble(_) => WantDouble
  }

  function FetchPacked(a: Args, n: nat): (r: (seq<byte>, Args))
    requires a.Valid() && IsAlignment(n)
    ensures r.1.Valid()
  {
    var sp := RoundUp(a.sp, n);
    (Peek(a.stack, sp, n), a.(sp := sp + n))
  }

  function Fetch(a: Args, w: Want): (r: (seq<byte>, Args))
    requires a.Valid() && w.Valid()
    ensures r.1.Valid()
  {
    var n := w.Width();
    if w.WantFloat? || w.WantDouble? then
      if a.f < REGS then (a.floats[a.f][..n], a.(f := a.f + 1)) else FetchPacked(a, n)
    else
      if a.i < REGS then (a.ints[a.i][..n], a.(i := a.i + 1)) else FetchPacked(a, n)
  }

  predicate Delivers(a: Args, args: seq<Arg>)
    requires a.Valid() && ValidArgs(args)
    decreases |args|
  {
    args != [] ==>
      var (got, a') := Fetch(a, WantFor(args[0]));
      got == Sent(args[0]) && Delivers(a', args[1..])
  }

  function Image(vm: Vm): Args {
    Args(0, 0, 0, vm.ints, vm.floats, vm.vec.mem)
  }

  ghost predicate SameImage(a: Args, b: Args) {
    a.ints == b.ints && a.floats == b.floats && a.stack == b.stack
  }

  ghost predicate InStep(vm: Vm, a: Args) {
    a.i == vm.i && a.f == vm.f && a.sp == vm.vec.size
  }

  ghost predicate Holds(a: Args, vm: Vm)
    requires a.Valid() && vm.Valid()
  {
    && (forall k :: 0 <= k < vm.i ==> a.ints[k] == vm.ints[k])
    && (forall k :: 0 <= k < vm.f ==> a.floats[k] == vm.floats[k])
    && Agree(vm.vec.mem, a.stack, vm.vec.size)
  }

  // ----- stack slots -----

  /** A spilled argument sits at the first offset past the earlier ones that its width divides. */
  lemma SlotMinimal(c: Counters, x: Arg)
    requires ValidArg(x) && Spilled(c, x)
    ensures var at := SlotOf(c, x);
            && Aligned(at, Width(x)) && c.size <= at && Next(c, x).size == at + Width(x)
            && forall k: nat {:trigger Aligned(k, Width(x))} :: c.size <= k && Aligned(k, Width(x)) ==> at <= k
  {
    var at, n := SlotOf(c, x), Width(x);
    forall k: nat | c.size <= k && Aligned(k, n)
      ensures at <= k
    {
      NextAligned(at, k, n);
    }
  }

  /** Two multiples of `n` that are less than `n` apart are the same. */
  lemma NextAligned(at: nat, k: nat, n: nat)
    requires (n == 1 || n == 2 || n == 4 || n == 8) && Aligned(at, n) && Aligned(k, n) && at < k + n
    ensures at <= k
  {
    if n == 8 {
      assert at % 8 == 0 && k % 8 == 0;
    } else if n == 4 {
      assert at % 4 == 0 && k % 4 == 0;
    } else if n == 2 {
      assert at % 2 == 0 && k % 2 == 0;
    }
  }

  lemma NextGrows(c: Counters, x: Arg)
    requires ValidArg(x)
    ensures c.size <= Next(c, x).size
  {
  }

  lemma {:induction false} SizeGrows(c: Counters, args: seq<Arg>)
    requires ValidArgs(args)
    ensures c.size <= SizeAfter(c, args)
    decreases |args|
  {
    if args != [] {
      NextGrows(c, args[0]);
      SizeGrows(Next(c, args[0]), args[1..]);
    }
  }

  // ----- round trip -----

  lemma PlaceCounts(vm: Vm, x: Arg)
    requires vm.Valid() && ValidArg(x) && Next(Count(vm), x).size <= vm.vec.total
    ensures Count(Place(vm, x)) == Next(Count(vm), x) && Place(vm, x).vec.total == vm.vec.total
  {
  }

  lemma PlaceKeeps(vm: Vm, x: Arg, a: Args)
    requires vm.Valid() && ValidArg(x) && a.Valid() && Next(Count(vm), x).size <= vm.vec.total
    requires Holds(a, Place(vm, x))
    ensures Holds(a, vm)
  {
    NextGrows(Count(vm), x);
    PlaceCounts(vm, x);
    AgreeShorter(Place(vm, x).vec.mem, a.stack, Place(vm, x).vec.size, vm.vec.size);
  }

  lemma {:induction false} PlaceAllKeeps(vm: Vm, args: seq<Arg>, a: Args)
    requires vm.Valid() && ValidArgs(args) && a.Valid() && SizeAfter(Count(vm), args) <= vm.vec.total
    requires Holds(a, PlaceAll(vm, args))
    ensures Holds(a, vm)
    decreases |args|
  {
    if args != [] {
      SizeGrows(Next(Count(vm), args[0]), args[1..]);
      PlaceCounts(vm, args[0]);
      PlaceAllKeeps(Place(vm, args[0]), args[1..], a);
      PlaceKeeps(vm, args[0], a);
    }
  }

  lemma Step(vm: Vm, x: Arg, a: Args)
    requires vm.Valid() && ValidArg(x) && a.Valid() && InStep(vm, a)
    requires Next(Count(vm), x).size <= vm.vec.total && Holds(a, Place(vm, x))
    ensures var (got, a') := Fetch(a, WantFor(x));
            got == Sent(x) && InStep(Place(vm, x), a') && SameImage(a, a')
  {
    if Spilled(Count(vm), x) {
      var at := SlotOf(Count(vm), x);
      StoreLoad(vm.vec.mem, at, Sent(x));
      AgreePeek(Place(vm, x).vec.mem, a.stack, at + Width(x), at, Width(x));
    } else {
      var before := if Floating(x) then vm.floats[vm.f] else vm.ints[vm.i];
      assert InRegister(x, before)[..Width(x)] == Sent(x);
    }
  }

  /** Every argument list that fits is fetched back. */
  lemma {:induction false} RoundTrip(vm: Vm, args: seq<Arg>, a: Args)
    requires vm.Valid() && ValidArgs(args) && a.Valid() && InStep(vm, a)
    requires SizeAfter(Count(vm), args) <= vm.vec.total && Holds(a, PlaceAll(vm, args))
    ensures Delivers(a, args)
    decreases |args|
  {
    if args != [] {
      var next := Place(vm, args[0]);
      SizeGrows(Next(Count(vm), args[0]), args[1..]);
      PlaceCounts(vm, args[0]);
      PlaceAllKeeps(next, args[1..], a);
      Step(vm, args[0], a);
      RoundTrip(next, args[1..], Fetch(a, WantFor(args[0])).1);
    }
  }

  lemma {:induction false} PlaceAllCounts(vm: Vm, args: seq<Arg>)
    requires vm.Valid() && ValidArgs(args) && SizeAfter(Count(vm), args) <= vm.vec.total
    ensures PlaceAll(vm, args).vec.size == SizeAfter(Count(vm), args)
    decreases |args|
  {
    if args != [] {
      SizeGrows(Next(Count(vm), args[0]), args[1..]);
      PlaceCounts(vm, args[0]);
      PlaceAllCounts(Place(vm, args[0]), args[1..]);
    }
  }
}
