/** Microsoft's x64 convention: four register slots shared by all types, and aggregates passed by
    pointer to copies that grow down from the end of the argument vector while stack arguments grow
    up from its start (the DC_WINDOWS branches of dyncall_callvm_x64.c and dyncall_args_x64.c). */
module Win64 {
  import opened Bytes
  import opened Integers
  import opened Vector

  const REGS: nat := 4
  const ADDRESSES: nat := 0x1_0000_0000_0000_0000

  datatype Arg =
    | ArgSigned(value: seq<byte>)              // bool, char, short, int, long, long long
    | ArgPointer(pointer: Word8)
    | ArgFloat(float: Word4, other: Word4)     // `other`: the unset half of the union the float is put in
    | ArgDouble(double: Word8)
    | ArgAggr(aggr: seq<byte>)

  predicate ValidArg(x: Arg) {
    x.ArgSigned? ==> |x.value| in {1, 2, 4, 8}
  }

  predicate ValidArgs(args: seq<Arg>) {
    forall k :: 0 <= k < |args| ==> ValidArg(args[k])
  }

  /** Aggregates of these sizes travel as integers, all others by pointer. */
  predicate Small(size: nat) {
    size == 1 || size == 2 || size == 4 || size == 8
  }

  // ----- addresses as pointer values -----

  function ToPointer(address: nat): Word8 {
    Digits(address, 8)
  }

  lemma PointerHoldsAddress(address: nat)
    requires address < ADDRESSES
    ensures Unsigned(ToPointer(address)) == address
  {
    assert Range(8) == ADDRESSES by {
      assert Range(2) == 0x1_0000;
      assert Range(4) == 0x1_0000_0000;
      assert Range(6) == 0x1_0000_0000_0000;
    }
    UnsignedOfDigits(address, 8);
  }

  /** `(address - size) & -16`, as an offset from `base`. */
  function CopyOffset(base: nat, copies: int, size: nat): (r: int)
    ensures r <= copies - size && (base + r) % 16 == 0
  {
    (base + copies - size) / 16 * 16 - base
  }

  // ----- the caller -----

  /** `n`: slots used; `ret`: slot held back for the hidden return pointer, or -1; `base`: the
      address of the vector's data; `copies`: offset of the lowest aggregate copy. */
  datatype Vm = Vm(n: nat, ret: int, regs: seq<Word8>, vec: Vec, base: nat, copies: int) {
    predicate Valid() {
      n <= REGS && -1 <= ret <= 1 && |regs| == REGS && vec.total <= |vec.mem| && copies <= vec.total
    }
  }

  function NextSlot(n: nat, ret: int): nat {
    if n == ret then n + 1 else n
  }

  function PlaceWord(vm: Vm, x: Word8): (r: Vm)
    requires vm.Valid()
    ensures r.Valid()
  {
    var n := NextSlot(vm.n, vm.ret);
    if n < REGS then vm.(n := n + 1, regs := vm.regs[n := x])
    else vm.(n := n, vec := VecAppend(vm.vec, x))
  }

  /** Copy the aggregate below the earlier copies and pass the copy's address. */
  function PlaceByPointer(vm: Vm, b: seq<byte>): (r: Vm)
    requires vm.Valid() && 0 <= CopyOffset(vm.base, vm.copies, |b|)
    ensures r.Valid()
  {
    var at := CopyOffset(vm.base, vm.copies, |b|);
    PlaceWord(Copied(vm, at, b), ToPointer(vm.base + at))
  }

  function Copied(vm: Vm, at: nat, b: seq<byte>): (r: Vm)
    requires vm.Valid() && at + |b| <= vm.copies
    ensures r.Valid()
  {
    vm.(copies := at, vec := vm.vec.(mem := Store(vm.vec.mem, at, b)))
  }

  function ScalarWord(x: Arg): Word8
    requires ValidArg(x) && (x.ArgAggr? ==> Small(|x.aggr|))
  {
    match x
    case ArgSigned(b) => SignExtendLE(b, 8)
    case ArgPointer(p) => p
    case ArgFloat(v, other) => v + other
    case ArgDouble(v) => v
    case ArgAggr(b) => SignExtendLE(b, 8)
  }

  predicate ByPointer(x: Arg) {
    x.ArgAggr? && !Small(|x.aggr|)
  }

  /** Room below for the copy of an aggregate. */
  predicate CanPlace(vm: Vm, x: Arg) {
    ByPointer(x) ==> 0 <= CopyOffset(vm.base, vm.copies, |x.aggr|)
  }

  function Place(vm: Vm, x: Arg): (r: Vm)
    requires vm.Valid() && ValidArg(x) && CanPlace(vm, x)
    ensures r.Valid()
  {
    if ByPointer(x) then PlaceByPointer(vm, x.aggr) else PlaceWord(vm, ScalarWord(x))
  }

  /** Slots, stack size and lowest copy, as an argument list moves them. */
  datatype Counters = Counters(n: nat, size: nat, copies: int)

  function Count(vm: Vm): Counters {
    Counters(vm.n, vm.vec.size, vm.copies)
  }

  function Next(c: Counters, ret: int, base: nat, x: Arg): Counters {
    var n := NextSlot(c.n, ret);
    Counters(if n < REGS then n + 1 else n,
             if n < REGS then c.size else c.size + 8,
             if ByPointer(x) then CopyOffset(base, c.copies, |x.aggr|) else c.copies)
  }

  function Final(c: Counters, ret: int, base: nat, args: seq<Arg>): Counters
    decreases |args|
  {
    if args == [] then c else Final(Next(c, ret, base, args[0]), ret, base, args[1..])
  }

  /** The two ends have not met. */
  predicate Apart(c: Counters) {
    c.size <= c.copies
  }

  /** The VM after a list of arguments whose copies all stay inside the vector. */
  function PlaceAll(vm: Vm, args: seq<Arg>): (r: Vm)
    requires vm.Valid() && ValidArgs(args) && Apart(Final(Count(vm), vm.ret, vm.base, args))
    ensures r.Valid()
    decreases |args|
  {
    if args == [] then vm
    else
      EndsOnlyApproach(Next(Count(vm), vm.ret, vm.base, args[0]), vm.ret, vm.base, args[1..]);
      PlaceCounts(vm, args[0]);
      PlaceAll(Place(vm, args[0]), args[1..])
  }

  /** The stack end never falls, the lowest copy never rises. */
  lemma {:induction false} EndsOnlyApproach(c: Counters, ret: int, base: nat, args: seq<Arg>)
    ensures var e := Final(c, ret, base, args); c.size <= e.size && e.copies <= c.copies
    decreases |args|
  {
    if args != [] {
      EndsOnlyApproach(Next(c, ret, base, args[0]), ret, base, args[1..]);
    }
  }

  lemma PlaceCounts(vm: Vm, x: Arg)
    requires vm.Valid() && ValidArg(x) && Apart(Next(Count(vm), vm.ret, vm.base, x))
    ensures CanPlace(vm, x) && Count(Place(vm, x)) == Next(Count(vm), vm.ret, vm.base, x)
    ensures var r := Place(vm, x); r.ret == vm.ret && r.base == vm.base && r.vec.total == vm.vec.total && |r.vec.mem| == |vm.vec.mem|
  {
  }

  // ----- the callback -----

  /** `DCArgs`: `stack` is the callee's stack, `mem` the caller's vector at address `base`. */
  datatype Args = Args(sp: nat, n: nat, ret: int, regs: seq<Word8>, stack: seq<byte>, mem: seq<byte>, base: nat) {
    predicate Valid() {
      |regs| == REGS
    }
  }

  datatype Want = WantSigned(width: nat) | WantPointer | WantFloat | WantDouble | WantAggr(size: nat)

  function WantFor(x: Arg): Want {
    match x
    case ArgSigned(b) => WantSigned(|b|)
    case ArgPointer(_) => WantPointer
    case ArgFloat(_, _) => WantFloat
    case ArgDouble(_) => WantDouble
    case ArgAggr(b) => WantAggr(|b|)
  }

  function Sent(x: Arg): seq<byte> {
    match x
    case ArgSigned(b) => b
    case ArgPointer(p) => p
    case ArgFloat(v, _) => v
    case ArgDouble(v) => v
    case ArgAggr(b) => b
  }

  function FetchWord(a: Args): (r: (Word8, Args))
    requires a.Valid()
    ensures r.1.Valid()
  {
    var n := NextSlot(a.n, a.ret);
    if n < REGS then (a.regs[n], a.(n := n + 1))
    else (Peek(a.stack, 8 * a.sp, 8), a.(n := n, sp := a.sp + 1))
  }

  /** Memory at an address of the caller's vector; other addresses are not part of this model. */
  function ReadAt(a: Args, address: nat, size: nat): seq<byte> {
    if a.base <= address then Peek(a.mem, address - a.base, size) else seq(size, _ => 0)
  }

  function Fetch(a: Args, w: Want): (r: (seq<byte>, Args))
    requires a.Valid() && (w.WantSigned? ==> w.width <= 8)
    ensures r.1.Valid()
  {
    var (x, a') := FetchWord(a);
    match w
    case WantSigned(n) => (x[..n], a')
    case WantPointer => (x, a')
    case WantFloat => (x[..4], a')
    case WantDouble => (x, a')
    case WantAggr(size) => (if Small(size) then x[..size] else ReadAt(a, Unsigned(x), size), a')
  }

  predicate Delivers(a: Args, args: seq<Arg>)
    requires a.Valid() && ValidArgs(args)
    decreases |args|
  {
    args != [] ==>
      var (got, a') := Fetch(a, WantFor(args[0]));
      got == Sent(args[0]) && Delivers(a', args[1..])
  }

  // ----- round trip -----

  ghost predicate SameImage(a: Args, b: Args) {
    a.regs == b.regs && a.stack == b.stack && a.mem == b.mem && a.base == b.base && a.ret == b.ret
  }

  ghost predicate InStep(vm: Vm, a: Args) {
    && a.n == vm.n && 8 * a.sp == vm.vec.size && a.base == vm.base
    && (a.ret == vm.ret || (a.ret < 0 && vm.ret < 0))
  }

  /** The image holds the registers, the stack and the copies written so far. */
  ghost predicate Holds(a: Args, vm: Vm)
    requires a.Valid() && vm.Valid()
  {
    && (forall k :: 0 <= k < vm.n && k != vm.ret ==> a.regs[k] == vm.regs[k])
    && Agree(vm.vec.mem, a.stack, vm.vec.size)
    && 0 <= vm.copies && |a.mem| == |vm.vec.mem|
    && forall k :: vm.copies <= k < vm.vec.total ==> a.mem[k] == vm.vec.mem[k]
  }

  /** A later argument overwrites no copy and no stack argument, because the ends stay apart. */
  lemma PlaceKeeps(vm: Vm, x: Arg, a: Args)
    requires vm.Valid() && ValidArg(x) && a.Valid() && Apart(Next(Count(vm), vm.ret, vm.base, x))
    requires CanPlace(vm, x) && Holds(a, Place(vm, x))
    ensures Holds(a, vm)
  {
    PlaceCounts(vm, x);
    var r := Place(vm, x);
    AgreeShorter(r.vec.mem, a.stack, r.vec.size, vm.vec.size);
    assert Agree(vm.vec.mem, r.vec.mem, vm.vec.size);
  }

  lemma {:induction false} PlaceAllKeeps(vm: Vm, args: seq<Arg>, a: Args)
    requires vm.Valid() && ValidArgs(args) && a.Valid() && Apart(Final(Count(vm), vm.ret, vm.base, args))
    requires Holds(a, PlaceAll(vm, args))
    ensures Holds(a, vm)
    decreases |args|
  {
    if args != [] {
      EndsOnlyApproach(Next(Count(vm), vm.ret, vm.base, args[0]), vm.ret, vm.base, args[1..]);
      PlaceCounts(vm, args[0]);
      PlaceAllKeeps(Place(vm, args[0]), args[1..], a);
      PlaceKeeps(vm, args[0], a);
    }
  }

  lemma WordStep(vm: Vm, x: Word8, a: Args)
    requires vm.Valid() && a.Valid() && InStep(vm, a) && Holds(a, PlaceWord(vm, x))
    requires NextSlot(vm.n, vm.ret) < REGS || vm.vec.size + 8 <= vm.vec.total
    ensures var (v, a') := FetchWord(a); v == x && InStep(PlaceWord(vm, x), a') && SameImage(a, a')
  {
    if NextSlot(vm.n, vm.ret) >= REGS {
      StoreLoad(vm.vec.mem, vm.vec.size, x);
      AgreePeek(PlaceWord(vm, x).vec.mem, a.stack, vm.vec.size + 8, vm.vec.size, 8);
    }
  }

  lemma PointerStep(vm: Vm, b: seq<byte>, a: Args)
    requires vm.Valid() && a.Valid() && InStep(vm, a) && vm.base + vm.vec.total < ADDRESSES
    requires !Small(|b|) && Apart(Next(Count(vm), vm.ret, vm.base, ArgAggr(b)))
    requires CanPlace(vm, ArgAggr(b)) && Holds(a, PlaceByPointer(vm, b))
    ensures var (got, a') := Fetch(a, WantAggr(|b|));
            got == b && InStep(PlaceByPointer(vm, b), a') && SameImage(a, a')
  {
    var at := CopyOffset(vm.base, vm.copies, |b|);
    var p := ToPointer(vm.base + at);
    PointerHoldsAddress(vm.base + at);
    PlaceCounts(vm, ArgAggr(b));
    CopyStep(vm, at, b, p, a);
  }

  /** The callback copies from wherever the pointer `p` leads; here, to the copy. */
  lemma CopyStep(vm: Vm, at: nat, b: seq<byte>, p: Word8, a: Args)
    requires vm.Valid() && a.Valid() && InStep(vm, a) && at + |b| <= vm.copies
    requires Unsigned(p) == vm.base + at && !Small(|b|)
    requires PlaceWord(Copied(vm, at, b), p).vec.size <= at
    requires NextSlot(vm.n, vm.ret) < REGS || vm.vec.size + 8 <= at
    requires Holds(a, PlaceWord(Copied(vm, at, b), p))
    ensures var (got, a') := Fetch(a, WantAggr(|b|));
            got == b && InStep(PlaceWord(Copied(vm, at, b), p), a') && SameImage(a, a')
  {
    WordStep(Copied(vm, at, b), p, a);
    CopyArrives(vm, at, b, p, a);
  }

  lemma CopyArrives(vm: Vm, at: nat, b: seq<byte>, p: Word8, a: Args)
    requires vm.Valid() && a.Valid() && at + |b| <= vm.copies && a.base == vm.base
    requires PlaceWord(Copied(vm, at, b), p).vec.size <= at
    requires Holds(a, PlaceWord(Copied(vm, at, b), p))
    ensures ReadAt(a, vm.base + at, |b|) == b
  {
    StoreLoad(vm.vec.mem, at, b);
    CopySurvives(Copied(vm, at, b), p, at, b);
    CopyRead(PlaceWord(Copied(vm, at, b), p), at, b, a);
  }

  /** Passing the pointer does not touch the copy. */
  lemma CopySurvives(vm: Vm, x: Word8, at: nat, b: seq<byte>)
    requires vm.Valid() && at == vm.copies && at + |b| <= vm.vec.total && Load(vm.vec.mem, at, |b|) == b
    requires PlaceWord(vm, x).vec.size <= at
    ensures Load(PlaceWord(vm, x).vec.mem, at, |b|) == b
  {
    forall k | 0 <= k < |b|
      ensures Load(PlaceWord(vm, x).vec.mem, at, |b|)[k] == b[k]
    {
      assert Load(vm.vec.mem, at, |b|)[k] == vm.vec.mem[at + k];
    }
  }

  lemma CopyRead(vm: Vm, at: nat, b: seq<byte>, a: Args)
    requires vm.Valid() && a.Valid() && Holds(a, vm)
    requires at == vm.copies && at + |b| <= vm.vec.total && Load(vm.vec.mem, at, |b|) == b
    ensures Peek(a.mem, at, |b|) == b
  {
    forall k | 0 <= k < |b|
      ensures Peek(a.mem, at, |b|)[k] == b[k]
    {
      assert Load(vm.vec.mem, at, |b|)[k] == vm.vec.mem[at + k];
    }
  }

  lemma Step(vm: Vm, x: Arg, a: Args)
    requires vm.Valid() && ValidArg(x) && a.Valid() && InStep(vm, a) && vm.base + vm.vec.total < ADDRESSES
    requires Apart(Next(Count(vm), vm.ret, vm.base, x))
    requires CanPlace(vm, x) && Holds(a, Place(vm, x))
    ensures var (got, a') := Fetch(a, WantFor(x));
            got == Sent(x) && InStep(Place(vm, x), a') && SameImage(a, a')
  {
    PlaceCounts(vm, x);
    if ByPointer(x) {
      PointerStep(vm, x.aggr, a);
    } else {
      WordStep(vm, ScalarWord(x), a);
      assert ScalarWord(x)[..|Sent(x)|] == Sent(x);
    }
  }

  /** If the two ends of the vector are apart after the last argument, every argument is fetched
      back, the aggregates from their copies. */
  lemma {:induction false} RoundTrip(vm: Vm, args: seq<Arg>, a: Args)
    requires vm.Valid() && ValidArgs(args) && a.Valid() && InStep(vm, a) && vm.base + vm.vec.total < ADDRESSES
    requires Apart(Final(Count(vm), vm.ret, vm.base, args)) && Holds(a, PlaceAll(vm, args))
    ensures Delivers(a, args)
    decreases |args|
  {
    if args != [] {
      EndsOnlyApproach(Next(Count(vm), vm.ret, vm.base, args[0]), vm.ret, vm.base, args[1..]);
      PlaceCounts(vm, args[0]);
      var next := Place(vm, args[0]);
      PlaceAllKeeps(next, args[1..], a);
      Step(vm, args[0], a);
      RoundTrip(next, args[1..], Fetch(a, WantFor(args[0])).1);
    }
  }

  /** No step of a run whose ends stay apart writes to a stack argument or a copy made before. */
  lemma {:induction false} NothingOverwritten(vm: Vm, args: seq<Arg>)
    requires vm.Valid() && ValidArgs(args) && Apart(Final(Count(vm), vm.ret, vm.base, args))
    ensures var r := PlaceAll(vm, args);
            && Count(r) == Final(Count(vm), vm.ret, vm.base, args) && |r.vec.mem| == |vm.vec.mem|
            && r.ret == vm.ret && r.base == vm.base && r.vec.total == vm.vec.total
            && forall k :: 0 <= k < |vm.vec.mem| && (k < vm.vec.size || vm.copies <= k) ==> r.vec.mem[k] == vm.vec.mem[k]
    decreases |args|
  {
    if args != [] {
      EndsOnlyApproach(Next(Count(vm), vm.ret, vm.base, args[0]), vm.ret, vm.base, args[1..]);
      PlaceCounts(vm, args[0]);
      NothingOverwritten(Place(vm, args[0]), args[1..]);
    }
  }
}
