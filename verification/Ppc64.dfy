/** PowerPC 64-bit: every argument owns a doubleword of the parameter save area, whether or not it
    is written there (dyncall_callvm_ppc64.c, dyncall_args_ppc64.c). */
module Ppc64 {
  import opened Bytes
  import opened Vector

  const INT_REGS: nat := 8
  const FLOAT_REGS: nat := 13

  datatype Abi = Abi(elf2: bool, bigEndian: bool)

  /** The processor's float conversions, of which only this is used: a float survives the way to a
      double and back. */
  datatype Fpu = Fpu(widen: Word4 -> Word8, narrow: Word8 -> Word4) {
    ghost predicate Faithful() {
      forall v: Word4 :: narrow(widen(v)) == v
    }
  }

  datatype Arg =
    | ArgInt(value: seq<byte>)                       // bool (an int), char, short, int, long, pointer
    | ArgFloat(float: Word4, padding: Word4)         // and what its stack struct has beside it
    | ArgDouble(double: Word8)

  /** One argument and whether the VM is in varargs mode when it comes. */
  datatype Item = Item(arg: Arg, vararg: bool) {
    predicate Valid() {
      arg.ArgInt? ==> |arg.value| in {1, 2, 4, 8}
    }
  }

  predicate ValidItems(items: seq<Item>) {
    forall k :: 0 <= k < |items| ==> items[k].Valid()
  }

  /** Varargs mode makes a difference under ELFv2 only. */
  predicate Ellipsis(abi: Abi, x: Item) {
    abi.elf2 && x.vararg
  }

  function Widened(abi: Abi, b: seq<byte>): Word8
    requires 0 < |b| <= 8
  {
    if abi.bigEndian then SignExtendBE(b, 8) else SignExtendLE(b, 8)
  }

  /** The doubleword an argument leaves in a register. */
  function InRegister(abi: Abi, fpu: Fpu, x: Item): Word8
    requires x.Valid()
  {
    match x.arg
    case ArgInt(b) => Widened(abi, b)
    case ArgFloat(v, _) => fpu.widen(v)
    case ArgDouble(v) => v
  }

  /** The doubleword it leaves on the stack: a float is not converted, except as a vararg. */
  function OnStack(abi: Abi, fpu: Fpu, x: Item): Word8
    requires x.Valid()
  {
    if x.arg.ArgFloat? && !Ellipsis(abi, x) then
      if abi.bigEndian then x.arg.padding + x.arg.float else x.arg.float + x.arg.padding
    else
      InRegister(abi, fpu, x)
  }

  // ----- the caller -----

  datatype Vm = Vm(i: nat, f: nat, ints: seq<Word8>, floats: seq<Word8>, vec: Vec) {
    predicate Valid() {
      i <= INT_REGS && f <= FLOAT_REGS && |ints| == INT_REGS && |floats| == FLOAT_REGS && vec.total <= |vec.mem|
    }
  }

  /** Fill an integer register, if there is one. */
  function FillInt(vm: Vm, w: Word8): (r: Vm)
    requires vm.Valid()
    ensures r.Valid()
  {
    if vm.i < INT_REGS then vm.(i := vm.i + 1, ints := vm.ints[vm.i := w]) else vm
  }

  /** Fill a floating-point register, if there is one, and the integer register beside it. */
  function FillFloat(vm: Vm, w: Word8): (r: Vm)
    requires vm.Valid()
    ensures r.Valid()
  {
    if vm.f < FLOAT_REGS then FillInt(vm.(f := vm.f + 1, floats := vm.floats[vm.f := w]), w) else vm
  }

  function Fill(vm: Vm, x: Item, w: Word8): (r: Vm)
    requires vm.Valid()
    ensures r.Valid()
  {
    if x.arg.ArgInt? then FillInt(vm, w) else FillFloat(vm, w)
  }

  /** The first store to the stack skips the doublewords of the arguments before it. */
  function SkipTo(v: Vec, slots: nat): (r: Vec)
    requires v.Valid()
    ensures r.Valid()
  {
    if v.size == 0 then VecSkip(v, 8 * slots) else v
  }

  function Place(abi: Abi, fpu: Fpu, vm: Vm, x: Item): (r: Vm)
    requires vm.Valid() && x.Valid()
    ensures r.Valid()
  {
    var filled := Fill(vm, x, InRegister(abi, fpu, x));
    if !abi.elf2 then
      filled.(vec := VecAppend(vm.vec, OnStack(abi, fpu, x)))
    else if x.vararg then
      filled.(vec := VecAppend(SkipTo(vm.vec, vm.i), OnStack(abi, fpu, x)))
    else if vm.i < INT_REGS && (x.arg.ArgInt? || vm.f < FLOAT_REGS) then
      filled
    else
      filled.(vec := VecAppend(SkipTo(vm.vec, 8), OnStack(abi, fpu, x)))
  }

  function PlaceAll(abi: Abi, fpu: Fpu, vm: Vm, items: seq<Item>): (r: Vm)
    requires vm.Valid() && ValidItems(items)
    ensures r.Valid()
    decreases |items|
  {
    if items == [] then vm else PlaceAll(abi, fpu, Place(abi, fpu, vm, items[0]), items[1..])
  }

  // ----- the callback -----

  datatype Args = Args(sp: nat, i: nat, f: nat, ints: seq<Word8>, floats: seq<Word8>, stack: seq<byte>) {
    predicate Valid() {
      i <= INT_REGS && f <= FLOAT_REGS && |ints| == INT_REGS && |floats| == FLOAT_REGS
    }
  }

  datatype Want = WantInt(width: nat) | WantFloat | WantDouble {
    predicate Valid() {
      WantInt? ==> width in {1, 2, 4, 8}
    }
  }

  function FetchInt(a: Args): (r: (Word8, Args))
    requires a.Valid()
    ensures r.1.Valid()
  {
    if a.i < INT_REGS then (a.ints[a.i], a.(i := a.i + 1, sp := a.sp + 8))
    else (Peek(a.stack, a.sp, 8), a.(sp := a.sp + 8))
  }

  /** The counters after a fetch from a floating-point register. */
  function TakeFloat(a: Args): (r: Args)
    requires a.Valid() && a.f < FLOAT_REGS
    ensures r.Valid()
  {
    a.(f := a.f + 1, i := if a.i < INT_REGS then a.i + 1 else a.i, sp := a.sp + 8)
  }

  function FetchDouble(a: Args): (r: (Word8, Args))
    requires a.Valid()
    ensures r.1.Valid()
  {
    if a.f < FLOAT_REGS then (a.floats[a.f], TakeFloat(a)) else (Peek(a.stack, a.sp, 8), a.(sp := a.sp + 8))
  }

  function FetchFloat(abi: Abi, fpu: Fpu, a: Args): (r: (Word4, Args))
    requires a.Valid()
    ensures r.1.Valid()
  {
    if a.f < FLOAT_REGS then (fpu.narrow(a.floats[a.f]), TakeFloat(a))
    else
      var pair := Peek(a.stack, a.sp, 8);
      (if abi.bigEndian then pair[4..] else pair[..4], a.(sp := a.sp + 8))
  }

  /** The low `n` bytes of a doubleword. */
  function Truncated(abi: Abi, w: Word8, n: nat): seq<byte>
    requires n <= 8
  {
    if abi.bigEndian then w[8 - n..] else w[..n]
  }

  function Fetch(abi: Abi, fpu: Fpu, a: Args, w: Want): (r: (seq<byte>, Args))
    requires a.Valid() && w.Valid()
    ensures r.1.Valid()
  {
    match w
    case WantInt(n) => var (x, a') := FetchInt(a); (Truncated(abi, x, n), a')
    case WantFloat => FetchFloat(abi, fpu, a)
    case WantDouble => FetchDouble(a)
  }

  /** What the handler asks for: under ELFv2 a vararg float has become a double. */
  function WantFor(abi: Abi, x: Item): Want {
    match x.arg
    case ArgInt(b) => WantInt(|b|)
    case ArgFloat(_, _) => if Ellipsis(abi, x) then WantDouble else WantFloat
    case ArgDouble(_) => WantDouble
  }

  function Sent(abi: Abi, fpu: Fpu, x: Item): seq<byte> {
    match x.arg
    case ArgInt(b) => b
    case ArgFloat(v, _) => if Ellipsis(abi, x) then fpu.widen(v) else v
    case ArgDouble(v) => v
  }

  predicate Delivers(abi: Abi, fpu: Fpu, a: Args, items: seq<Item>)
    requires a.Valid() && ValidItems(items)
    decreases |items|
  {
    items != [] ==>
      var (got, a') := Fetch(abi, fpu, a, WantFor(abi, items[0]));
      got == Sent(abi, fpu, items[0]) && Delivers(abi, fpu, a', items[1..])
  }

  function Image(vm: Vm): Args {
    Args(0, 0, 0, vm.ints, vm.floats, vm.vec.mem)
  }

  ghost predicate SameImage(a: Args, b: Args) {
    a.ints == b.ints && a.floats == b.floats && a.stack == b.stack
  }

  // ----- how far a call has come -----

  /** Arguments so far, floating-point registers they took, whether there was a vararg among them, and
      whether the stack has fallen behind the slots. */
  datatype Progress = Progress(n: nat, f: nat, seen: bool, late: bool)

  const START := Progress(0, 0, false, false)

  /** A named argument that follows a vararg and still finds an integer register is not written, but the
      stack, which is in use already, does not skip its slot either. */
  predicate FallsBehind(abi: Abi, p: Progress, x: Item) {
    abi.elf2 && p.seen && p.n < 8 && !x.vararg
  }

  function Advance(abi: Abi, p: Progress, x: Item): Progress {
    Progress(p.n + 1, if x.arg.ArgInt? || p.f >= FLOAT_REGS then p.f else p.f + 1,
             p.seen || x.vararg, p.late || FallsBehind(abi, p, x))
  }

  function After(abi: Abi, p: Progress, items: seq<Item>): Progress
    decreases |items|
  {
    if items == [] then p else After(abi, Advance(abi, p, items[0]), items[1..])
  }

  /** Does argument number `n` get a copy on the stack? */
  predicate Written(abi: Abi, n: nat, x: Item) {
    !abi.elf2 || x.vararg || n >= 8
  }

  /** Does the callback read this argument from the stack? */
  predicate FromStack(p: Progress, x: Item) {
    if x.arg.ArgInt? then p.n >= 8 else p.f >= FLOAT_REGS
  }

  /** The callback reads none of the arguments from the stack. */
  predicate Unstacked(abi: Abi, p: Progress, items: seq<Item>)
    decreases |items|
  {
    items == [] || (!FromStack(p, items[0]) && Unstacked(abi, Advance(abi, p, items[0]), items[1..]))
  }

  /** Among the first eight arguments none that is named follows a vararg. */
  predicate Orderly(abi: Abi, items: seq<Item>) {
    abi.elf2 ==> forall j, k :: 0 <= j < k < |items| && k < 8 && items[j].vararg ==> items[k].vararg
  }

  lemma {:induction false} AfterSnoc(abi: Abi, p: Progress, items: seq<Item>, x: Item)
    ensures After(abi, p, items + [x]) == Advance(abi, After(abi, p, items), x)
    decreases |items|
  {
    if items == [] {
      assert [] + [x] == [x];
    } else {
      assert (items + [x])[1..] == items[1..] + [x];
      AfterSnoc(abi, Advance(abi, p, items[0]), items[1..], x);
    }
  }

  /** What has happened after some arguments: the stack is behind exactly if they were not orderly. */
  lemma {:induction false} LateIff(abi: Abi, items: seq<Item>)
    ensures var p := After(abi, START, items);
            && p.n == |items| && (p.seen <==> exists j :: 0 <= j < |items| && items[j].vararg)
            && (p.late <==> !Orderly(abi, items))
    decreases |items|
  {
    if items != [] {
      var init, x := items[..|items| - 1], items[|items| - 1];
      LateIff(abi, init);
      AfterSnoc(abi, START, init, x);
      assert items == init + [x];
      assert items[|init|] == x && forall j :: 0 <= j < |init| ==> items[j] == init[j];
      OrderlySnoc(abi, init, x);
    }
  }

  lemma OrderlySnoc(abi: Abi, items: seq<Item>, x: Item)
    ensures Orderly(abi, items + [x]) <==>
              Orderly(abi, items) && !(abi.elf2 && |items| < 8 && !x.vararg && exists j :: 0 <= j < |items| && items[j].vararg)
  {
    var longer := items + [x];
    assert forall j :: 0 <= j < |items| ==> longer[j] == items[j];
    assert longer[|items|] == x;
  }

  lemma {:induction false} LateStays(abi: Abi, p: Progress, items: seq<Item>)
    requires p.late
    ensures After(abi, p, items).late
    decreases |items|
  {
    if items != [] {
      LateStays(abi, Advance(abi, p, items[0]), items[1..]);
    }
  }

  // ----- the slots -----

  /** The stack bytes in use after `n` arguments: all their slots, or none as long as registers do. */
  function Extent(abi: Abi, n: nat, seen: bool): nat {
    if !abi.elf2 || seen || n > 8 then 8 * n else 0
  }

  /** The stack bytes in use once the arguments are placed; fewer if they are not orderly. */
  function StackUse(abi: Abi, p: Progress, items: seq<Item>): nat {
    var q := After(abi, p, items);
    Extent(abi, q.n, q.seen)
  }

  /** Doubleword number `slot` of the stack is in use and holds `w`. */
  predicate InSlot(v: Vec, slot: nat, w: Word8) {
    8 * slot + 8 <= v.size <= |v.mem| && Load(v.mem, 8 * slot, 8) == w
  }

  predicate Counted(vm: Vm, p: Progress) {
    vm.i == (if p.n < 8 then p.n else 8) && vm.f == p.f <= p.n
  }

  /** Where the call VM stands: in step with the slots, or, once late, at least one doubleword short. */
  predicate Stands(abi: Abi, vm: Vm, p: Progress) {
    && Counted(vm, p) && vm.vec.size % 8 == 0 && (p.seen ==> p.n > 0)
    && if p.late then abi.elf2 && p.seen && 0 < vm.vec.size < 8 * p.n else vm.vec.size == Extent(abi, p.n, p.seen)
  }

  /** Where the copy of the next argument goes. */
  function CopyAt(vm: Vm, p: Progress): nat {
    if p.late then vm.vec.size else 8 * p.n
  }

  /** What one argument does to the stack. */
  lemma PlaceVec(abi: Abi, fpu: Fpu, vm: Vm, x: Item, p: Progress)
    requires vm.Valid() && x.Valid() && Stands(abi, vm, p)
    requires Extent(abi, p.n + 1, p.seen || x.vararg) <= vm.vec.total
    ensures var v, at := Place(abi, fpu, vm, x).vec, CopyAt(vm, p);
            if Written(abi, p.n, x) then
              at + 8 <= vm.vec.total
              && v == vm.vec.(size := at + 8, mem := Store(vm.vec.mem, at, OnStack(abi, fpu, x)))
            else v == vm.vec
  {
  }

  /** One argument keeps the discipline, and its stack copy, if it has one, is its own slot unless the
      stack is late. */
  lemma PlaceSlots(abi: Abi, fpu: Fpu, vm: Vm, x: Item, p: Progress)
    requires vm.Valid() && x.Valid() && Stands(abi, vm, p)
    requires Extent(abi, p.n + 1, p.seen || x.vararg) <= vm.vec.total
    ensures var r := Place(abi, fpu, vm, x);
            && Stands(abi, r, Advance(abi, p, x)) && Extends(vm.vec, r.vec)
            && (Written(abi, p.n, x) && !p.late ==> InSlot(r.vec, p.n, OnStack(abi, fpu, x)))
  {
    PlaceVec(abi, fpu, vm, x, p);
    PlaceCounts(abi, fpu, vm, x, p);
    if Written(abi, p.n, x) {
      StoreExtends(vm.vec, CopyAt(vm, p), OnStack(abi, fpu, x));
    }
  }

  lemma PlaceCounts(abi: Abi, fpu: Fpu, vm: Vm, x: Item, p: Progress)
    requires vm.Valid() && x.Valid() && Counted(vm, p)
    ensures Counted(Place(abi, fpu, vm, x), Advance(abi, p, x))
  {
  }

  lemma StoreExtends(v: Vec, at: nat, w: Word8)
    requires v.Valid() && v.size <= at && at + 8 <= v.total
    ensures var r := v.(size := at + 8, mem := Store(v.mem, at, w)); Extends(v, r) && Load(r.mem, at, 8) == w
  {
    StoreLoad(v.mem, at, w);
    AgreeShorter(v.mem, Store(v.mem, at, w), at, v.size);
  }

  lemma {:induction false} UseGrows(abi: Abi, p: Progress, items: seq<Item>)
    ensures Extent(abi, p.n, p.seen) <= StackUse(abi, p, items)
    ensures items != [] ==> Extent(abi, p.n + 1, p.seen || items[0].vararg) <= StackUse(abi, p, items)
    decreases |items|
  {
    if items != [] {
      UseGrows(abi, Advance(abi, p, items[0]), items[1..]);
    }
  }

  /** Arguments that fit leave the stack below them alone. */
  lemma {:induction false} PlaceAllSlots(abi: Abi, fpu: Fpu, vm: Vm, items: seq<Item>, p: Progress)
    requires vm.Valid() && ValidItems(items) && Stands(abi, vm, p) && StackUse(abi, p, items) <= vm.vec.total
    ensures Stands(abi, PlaceAll(abi, fpu, vm, items), After(abi, p, items))
    ensures Extends(vm.vec, PlaceAll(abi, fpu, vm, items).vec)
    decreases |items|
  {
    if items != [] {
      var x := items[0];
      var next := Place(abi, fpu, vm, x);
      UseGrows(abi, p, items);
      PlaceSlots(abi, fpu, vm, x, p);
      PlaceAllSlots(abi, fpu, next, items[1..], Advance(abi, p, x));
      ExtendsTransitive(vm.vec, next.vec, PlaceAll(abi, fpu, next, items[1..]).vec);
    }
  }

  /** The first argument's copy survives the placement of the others. */
  lemma FirstCopy(abi: Abi, fpu: Fpu, vm: Vm, items: seq<Item>, p: Progress)
    requires vm.Valid() && ValidItems(items) && Stands(abi, vm, p) && StackUse(abi, p, items) <= vm.vec.total
    requires items != [] && Written(abi, p.n, items[0]) && !p.late
    ensures InSlot(PlaceAll(abi, fpu, vm, items).vec, p.n, OnStack(abi, fpu, items[0]))
  {
    var x := items[0];
    var next := Place(abi, fpu, vm, x);
    UseGrows(abi, p, items);
    PlaceSlots(abi, fpu, vm, x, p);
    PlaceAllSlots(abi, fpu, next, items[1..], Advance(abi, p, x));
    ExtendsLoad(next.vec, PlaceAll(abi, fpu, next, items[1..]).vec, 8 * p.n, 8);
  }

  /** Every argument written before the stack is late is in its own slot when the call is made. */
  lemma {:induction false} CopyInItsSlot(abi: Abi, fpu: Fpu, vm: Vm, items: seq<Item>, p: Progress, k: nat)
    requires vm.Valid() && ValidItems(items) && Stands(abi, vm, p) && StackUse(abi, p, items) <= vm.vec.total
    requires k < |items| && Written(abi, After(abi, p, items[..k]).n, items[k]) && !After(abi, p, items[..k]).late
    ensures InSlot(PlaceAll(abi, fpu, vm, items).vec, After(abi, p, items[..k]).n, OnStack(abi, fpu, items[k]))
    decreases |items|
  {
    if k == 0 {
      FirstCopy(abi, fpu, vm, items, p);
    } else {
      var x, rest := items[0], items[1..];
      UseGrows(abi, p, items);
      PlaceSlots(abi, fpu, vm, x, p);
      assert rest[k - 1] == items[k] && items[..k][1..] == rest[..k - 1];
      CopyInItsSlot(abi, fpu, Place(abi, fpu, vm, x), rest, Advance(abi, p, x), k - 1);
    }
  }
}
