/** System V AMD64: how the call VM places arguments (dyncall_callvm_x64.c) and how a callback
    fetches them (dyncall_args_x64.c).  The assembly kernel between the two is the identity on
    register buffers and stack bytes. */
module SysV {
  import opened Bytes
  import opened Vector
  import opened Aggregate
  import opened CloseAggr

  const NUM_INT_REGS: nat := 6
  const NUM_FLOAT_REGS: nat := 8

  /** An argument: the bytes of a scalar, or a description with the memory it is found in. */
  datatype Arg =
    | ArgBool(truth: Word4)
    | ArgSigned(signed: seq<byte>)             // char, short, int, long, long long
    | ArgPointer(pointer: Word8)
    | ArgOpaque(pointer: Word8)                // an aggregate without a description (C++): its address
    | ArgFloat(float: Word4, other: Word4)     // `other`: the unset half of the union the float is put in
    | ArgDouble(double: Word8)
    | ArgAggr(ag: Aggr, mem: seq<byte>)        // `mem`: the aggregate and what follows it

  ghost predicate ValidArg(x: Arg) {
    match x
    case ArgSigned(b) => |b| in {1, 2, 4, 8}
    case ArgAggr(ag, mem) => Passable(ag) && Up8(ag.size) <= |mem|
    case _ => true
  }

  ghost predicate ValidArgs(args: seq<Arg>) {
    forall k :: 0 <= k < |args| ==> ValidArg(args[k])
  }

  // ----- the caller -----

  /** The call VM; `ret` is the register held back for the hidden return pointer, or -1. */
  datatype Vm = Vm(i: nat, f: nat, ret: int, ints: seq<Word8>, floats: seq<Word8>, vec: Vec) {
    ghost predicate Valid() {
      && i <= NUM_INT_REGS && f <= NUM_FLOAT_REGS
      && (ret == -1 || ret == 0)
      && |ints| == NUM_INT_REGS && |floats| == NUM_FLOAT_REGS
      && vec.Valid()
    }
  }

  /** The next integer register, once the one held back is stepped over. */
  function NextInt(i: nat, ret: int): nat {
    if i == ret then i + 1 else i
  }

  function PlaceInt(vm: Vm, x: Word8): (r: Vm)
    requires vm.Valid()
    ensures r.Valid() && r.ret == vm.ret
  {
    var i := NextInt(vm.i, vm.ret);
    if i < NUM_INT_REGS then vm.(i := i + 1, ints := vm.ints[i := x])
    else vm.(i := i, vec := VecAppend(vm.vec, x))
  }

  function PlaceDouble(vm: Vm, x: Word8): (r: Vm)
    requires vm.Valid()
    ensures r.Valid() && r.ret == vm.ret
  {
    if vm.f < NUM_FLOAT_REGS then vm.(f := vm.f + 1, floats := vm.floats[vm.f := x])
    else vm.(vec := VecAppend(vm.vec, x))
  }

  /** An eightbyte goes where its class says. */
  function PlaceWord(vm: Vm, c: Class, x: Word8): (r: Vm)
    requires vm.Valid()
    ensures r.Valid() && r.ret == vm.ret
  {
    if c == INTEGER then PlaceInt(vm, x) else PlaceDouble(vm, x)
  }

  /** How many of the classes from `i` up to the first NONE are `c`. */
  function Count(classes: seq<Class>, c: Class, i: nat): nat
    requires i <= |classes|
    decreases |classes| - i
  {
    if i == |classes| || classes[i] == NONE then 0
    else (if classes[i] == c then 1 else 0) + Count(classes, c, i + 1)
  }

  /** An aggregate goes to the stack as a whole when any part of it finds no register. */
  predicate InMemory(ag: Aggr, i: nat, f: nat)
    requires |ag.classes| == MAX_NUM_CLASSES
  {
    || ag.classes[0] == MEMORY
    || i + Count(ag.classes, INTEGER, 0) > NUM_INT_REGS
    || f + Count(ag.classes, SSE, 0) > NUM_FLOAT_REGS
  }

  function PlaceEightbytes(vm: Vm, ag: Aggr, mem: seq<byte>, i: nat): (r: Vm)
    requires vm.Valid() && Passable(ag) && ag.classes[0] != MEMORY && Up8(ag.size) <= |mem| && i <= 2
    ensures r.Valid() && r.ret == vm.ret
    decreases 2 - i
  {
    if ag.classes[i] == NONE || i == 2 then vm
    else PlaceEightbytes(PlaceWord(vm, ag.classes[i], Load(mem, 8 * i, 8)), ag, mem, i + 1)
  }

  function PlaceAggr(vm: Vm, ag: Aggr, mem: seq<byte>): (r: Vm)
    requires vm.Valid() && Passable(ag) && Up8(ag.size) <= |mem|
    ensures r.Valid() && r.ret == vm.ret
  {
    if InMemory(ag, vm.i, vm.f)
    then vm.(vec := VecSkip(VecAppend(vm.vec, mem[..ag.size]), Up8(ag.size) - ag.size))
    else PlaceEightbytes(vm, ag, mem, 0)
  }

  function Place(vm: Vm, x: Arg): (r: Vm)
    requires vm.Valid() && ValidArg(x)
    ensures r.Valid() && r.ret == vm.ret
  {
    match x
    case ArgBool(b) => PlaceInt(vm, SignExtendLE(b, 8))
    case ArgSigned(b) => PlaceInt(vm, SignExtendLE(b, 8))
    case ArgPointer(p) => PlaceInt(vm, p)
    case ArgOpaque(p) => PlaceInt(vm, p)
    case ArgFloat(v, other) => PlaceDouble(vm, v + other)
    case ArgDouble(d) => PlaceDouble(vm, d)
    case ArgAggr(ag, mem) => PlaceAggr(vm, ag, mem)
  }

  function PlaceAll(vm: Vm, args: seq<Arg>): (r: Vm)
    requires vm.Valid() && ValidArgs(args)
    ensures r.Valid() && r.ret == vm.ret
    decreases |args|
  {
    if args == [] then vm else PlaceAll(Place(vm, args[0]), args[1..])
  }

  /** Stack bytes the next argument takes. */
  function StackUse(i: nat, f: nat, ret: int, x: Arg): nat
    requires x.ArgAggr? ==> |x.ag.classes| == MAX_NUM_CLASSES
  {
    match x
    case ArgFloat(_, _) => if f < NUM_FLOAT_REGS then 0 else 8
    case ArgDouble(_) => if f < NUM_FLOAT_REGS then 0 else 8
    case ArgAggr(ag, _) => if InMemory(ag, i, f) then Up8(ag.size) else 0
    case _ => if NextInt(i, ret) < NUM_INT_REGS then 0 else 8
  }

  /** Every argument in turn finds room in the vector. */
  ghost predicate Fits(vm: Vm, args: seq<Arg>)
    requires vm.Valid() && ValidArgs(args)
    decreases |args|
  {
    args != [] ==>
      && vm.vec.size + StackUse(vm.i, vm.f, vm.ret, args[0]) <= vm.vec.total
      && Fits(Place(vm, args[0]), args[1..])
  }

  // ----- the callback -----

  datatype Description = Opaque | Known(ag: Aggr)

  /** `DCArgs`: counters, the remaining aggregate descriptions, and the received image.
      The stack pointer counts 8-byte words. */
  datatype Args = Args(sp: nat, i: nat, f: nat, ret: int, aggrs: seq<Description>,
                       ints: seq<Word8>, floats: seq<Word8>, stack: seq<byte>) {
    ghost predicate Valid() {
      |ints| == NUM_INT_REGS && |floats| == NUM_FLOAT_REGS
    }
  }

  /** What the handler asks for; for an aggregate, the buffer it is copied into. */
  datatype Want = WantBool | WantSigned(width: nat) | WantPointer | WantFloat | WantDouble | WantAggr(target: seq<byte>)

  datatype Got = GotBool(value: bool) | GotBytes(bytes: seq<byte>)

  function FetchInt(a: Args): (r: (Word8, Args))
    requires a.Valid()
    ensures r.1.Valid()
  {
    var i := NextInt(a.i, a.ret);
    if i < NUM_INT_REGS then (a.ints[i], a.(i := i + 1))
    else (Peek(a.stack, 8 * a.sp, 8), a.(i := i, sp := a.sp + 1))
  }

  function FetchDouble(a: Args): (r: (Word8, Args))
    requires a.Valid()
    ensures r.1.Valid()
  {
    if a.f < NUM_FLOAT_REGS then (a.floats[a.f], a.(f := a.f + 1))
    else (Peek(a.stack, 8 * a.sp, 8), a.(sp := a.sp + 1))
  }

  function FetchWord(a: Args, c: Class): (r: (Word8, Args))
    requires a.Valid()
    ensures r.1.Valid()
  {
    if c == INTEGER then FetchInt(a) else FetchDouble(a)
  }

  /** Each register eightbyte is copied to its place in the target, the last one cut to size. */
  function FetchEightbytes(a: Args, ag: Aggr, target: seq<byte>, i: nat): (r: (seq<byte>, Args))
    requires a.Valid() && Passable(ag) && ag.classes[0] != MEMORY && ag.size <= |target| && i <= 2
    ensures |r.0| == |target| && r.1.Valid()
    decreases 2 - i
  {
    if ag.classes[i] == NONE || i == 2 then (target, a)
    else
      var (word, a') := FetchWord(a, ag.classes[i]);
      FetchEightbytes(a', ag, Store(target, 8 * i, word[..SlotSize(ag.size, i)]), i + 1)
  }

  function FetchAggr(a: Args, ag: Aggr, target: seq<byte>): (r: (seq<byte>, Args))
    requires a.Valid() && Passable(ag) && ag.size <= |target|
    ensures |r.0| == |target| && r.1.Valid()
  {
    if InMemory(ag, a.i, a.f)
    then (Store(target, 0, Peek(a.stack, 8 * a.sp, ag.size)), a.(sp := a.sp + Up8(ag.size) / 8))
    else FetchEightbytes(a, ag, target, 0)
  }

  /** Asking for an aggregate consumes the next description. */
  predicate CanFetch(a: Args, w: Want) {
    match w
    case WantSigned(width) => width <= 8
    case WantAggr(target) => a.aggrs != [] && (a.aggrs[0].Known? ==> a.aggrs[0].ag.size <= |target|)
    case _ => true
  }

  ghost predicate AllPassable(aggrs: seq<Description>) {
    forall d <- aggrs :: d.Known? ==> Passable(d.ag)
  }

  function Fetch(a: Args, w: Want): (r: (Got, Args))
    requires a.Valid() && CanFetch(a, w) && AllPassable(a.aggrs)
    ensures r.1.Valid()
  {
    match w
    case WantBool => var (x, a') := FetchInt(a); (GotBool(!IsZero(x[..4])), a')
    case WantSigned(n) => var (x, a') := FetchInt(a); (GotBytes(x[..n]), a')
    case WantPointer => var (x, a') := FetchInt(a); (GotBytes(x), a')
    case WantFloat => var (x, a') := FetchDouble(a); (GotBytes(x[..4]), a')
    case WantDouble => var (x, a') := FetchDouble(a); (GotBytes(x), a')
    case WantAggr(target) =>
      var d, rest := a.aggrs[0], a.(aggrs := a.aggrs[1..]);
      if d.Opaque? then var (x, a') := FetchInt(rest); (GotBytes(x), a')
      else var (bytes, a') := FetchAggr(rest, d.ag, target); (GotBytes(bytes), a')
  }

  // ----- what a transfer owes -----

  /** Bytes the register classes of an aggregate cover: up to its first eightbyte without a class. */
  function Covered(ag: Aggr): nat
    requires |ag.classes| == MAX_NUM_CLASSES
  {
    if ag.classes[0] == MEMORY then ag.size
    else if ag.classes[0] == NONE then 0
    else if ag.classes[1] == NONE && ag.size > 8 then 8
    else ag.size
  }

  /** `target` with its first `n` bytes replaced by those of `mem`. */
  function Overlay(mem: seq<byte>, target: seq<byte>, n: nat): seq<byte>
    requires n <= |mem| && n <= |target|
  {
    mem[..n] + target[n..]
  }

  /** Bytes of an aggregate that travel: through memory all of them, through registers the covered ones. */
  function Travelling(ag: Aggr, i: nat, f: nat): (r: nat)
    requires |ag.classes| == MAX_NUM_CLASSES
    ensures r <= ag.size
  {
    if InMemory(ag, i, f) then ag.size else Covered(ag)
  }

  /** The handler got `got` for `x`, which the call VM placed in the state `vm`: the same bytes; a truth
      value for a bool; of an aggregate the bytes that travel, and nothing else in the target changed. */
  ghost predicate Delivered(vm: Vm, x: Arg, w: Want, got: Got)
    requires ValidArg(x)
  {
    match x
    case ArgBool(b) => w == WantBool && got == GotBool(!IsZero(b))
    case ArgSigned(b) => w == WantSigned(|b|) && got == GotBytes(b)
    case ArgPointer(p) => w == WantPointer && got == GotBytes(p)
    case ArgOpaque(p) => w.WantAggr? && got == GotBytes(p)
    case ArgFloat(v, _) => w == WantFloat && got == GotBytes(v)
    case ArgDouble(d) => w == WantDouble && got == GotBytes(d)
    case ArgAggr(ag, mem) =>
      && w.WantAggr? && ag.size <= |w.target|
      && got == GotBytes(Overlay(mem, w.target, Travelling(ag, vm.i, vm.f)))
  }

  /** The handler asks for what the caller passes. */
  predicate Matches(x: Arg, w: Want) {
    match x
    case ArgBool(_) => w == WantBool
    case ArgSigned(b) => w == WantSigned(|b|)
    case ArgPointer(_) => w == WantPointer
    case ArgOpaque(_) => w.WantAggr?
    case ArgFloat(_, _) => w == WantFloat
    case ArgDouble(_) => w == WantDouble
    case ArgAggr(ag, _) => w.WantAggr? && ag.size <= |w.target|
  }
}
