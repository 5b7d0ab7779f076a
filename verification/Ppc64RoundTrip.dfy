/** A PowerPC 64-bit callback fetches back what the call VM placed, if it reads no argument from a stack
    that has fallen behind its slots. */
module Ppc64RoundTrip {
  import opened Bytes
  import opened Ppc64


  /** The registers of the image hold what was placed so far. */
  ghost predicate HoldsRegisters(a: Args, vm: Vm)
    requires a.Valid() && vm.Valid()
  {
    && (forall k :: 0 <= k < vm.i ==> a.ints[k] == vm.ints[k])
    && (forall k :: 0 <= k < vm.f ==> a.floats[k] == vm.floats[k])
  }

  /** The image holds what was placed so far. */
  ghost predicate Holds(a: Args, vm: Vm)
    requires a.Valid() && vm.Valid()
  {
    HoldsRegisters(a, vm) && Agree(vm.vec.mem, a.stack, vm.vec.size)
  }

  ghost predicate InStep(vm: Vm, a: Args, n: nat) {
    a.i == vm.i && a.f == vm.f && a.sp == 8 * n
  }

  lemma PlaceKeepsRegisters(abi: Abi, fpu: Fpu, vm: Vm, x: Item, a: Args)
    requires vm.Valid() && x.Valid() && a.Valid() && HoldsRegisters(a, Place(abi, fpu, vm, x))
    ensures HoldsRegisters(a, vm)
  {
  }

  lemma {:induction false} PlaceAllKeepsRegisters(abi: Abi, fpu: Fpu, vm: Vm, items: seq<Item>, a: Args)
    requires vm.Valid() && ValidItems(items) && a.Valid() && HoldsRegisters(a, PlaceAll(abi, fpu, vm, items))
    ensures HoldsRegisters(a, vm)
    decreases |items|
  {
    if items != [] {
      PlaceAllKeepsRegisters(abi, fpu, Place(abi, fpu, vm, items[0]), items[1..], a);
      PlaceKeepsRegisters(abi, fpu, vm, items[0], a);
    }
  }

  /** What the image holds of a whole call it holds of each earlier state. */
  lemma PlaceAllKeeps(abi: Abi, fpu: Fpu, vm: Vm, items: seq<Item>, p: Progress, a: Args)
    requires vm.Valid() && ValidItems(items) && a.Valid() && Stands(abi, vm, p) && StackUse(abi, p, items) <= vm.vec.total
    requires Holds(a, PlaceAll(abi, fpu, vm, items))
    ensures Holds(a, vm)
  {
    var r := PlaceAll(abi, fpu, vm, items);
    PlaceAllSlots(abi, fpu, vm, items, p);
    PlaceAllKeepsRegisters(abi, fpu, vm, items, a);
    AgreeShorter(r.vec.mem, a.stack, r.vec.size, vm.vec.size);
    AgreeTransitive(vm.vec.mem, r.vec.mem, a.stack, vm.vec.size);
  }

  /** The registers of both sides move together. */
  lemma CountersStep(abi: Abi, fpu: Fpu, vm: Vm, x: Item, p: Progress, a: Args)
    requires vm.Valid() && x.Valid() && a.Valid() && InStep(vm, a, p.n) && Counted(vm, p)
    ensures var a' := Fetch(abi, fpu, a, WantFor(abi, x)).1;
            InStep(Place(abi, fpu, vm, x), a', p.n + 1) && SameImage(a, a')
  {
  }

  /** An argument the callback reads from a register arrives, whatever is on the stack. */
  lemma RegisterStep(abi: Abi, fpu: Fpu, vm: Vm, x: Item, p: Progress, a: Args)
    requires vm.Valid() && x.Valid() && a.Valid() && fpu.Faithful() && InStep(vm, a, p.n) && Counted(vm, p)
    requires !FromStack(p, x) && HoldsRegisters(a, Place(abi, fpu, vm, x))
    ensures Fetch(abi, fpu, a, WantFor(abi, x)).0 == Sent(abi, fpu, x)
  {
    var r := Place(abi, fpu, vm, x);
    if x.arg.ArgInt? {
      assert a.ints[vm.i] == r.ints[vm.i];
      assert Truncated(abi, Widened(abi, x.arg.value), |x.arg.value|) == x.arg.value;
    } else {
      assert a.floats[vm.f] == r.floats[vm.f] == InRegister(abi, fpu, x);
    }
  }

  /** The image holds the argument's copy where the callback reads it, unless the stack is late. */
  lemma SlotRead(abi: Abi, fpu: Fpu, vm: Vm, x: Item, p: Progress, a: Args)
    requires vm.Valid() && x.Valid() && a.Valid() && Stands(abi, vm, p)
    requires Extent(abi, p.n + 1, p.seen || x.vararg) <= vm.vec.total
    requires Written(abi, p.n, x) && !p.late && Holds(a, Place(abi, fpu, vm, x))
    ensures Peek(a.stack, 8 * p.n, 8) == OnStack(abi, fpu, x)
  {
    PlaceSlots(abi, fpu, vm, x, p);
    var v := Place(abi, fpu, vm, x).vec;
    AgreePeek(v.mem, a.stack, v.size, 8 * p.n, 8);
  }

  /** What the callback makes of a doubleword it reads from the stack. */
  function FromWord(abi: Abi, w: Want, word: Word8): seq<byte>
    requires w.Valid()
  {
    match w
    case WantInt(n) => Truncated(abi, word, n)
    case WantFloat => if abi.bigEndian then word[4..] else word[..4]
    case WantDouble => word
  }

  lemma FetchesWord(abi: Abi, fpu: Fpu, x: Item, p: Progress, a: Args)
    requires x.Valid() && a.Valid() && a.i == (if p.n < 8 then p.n else 8) && a.f == p.f && FromStack(p, x)
    ensures Fetch(abi, fpu, a, WantFor(abi, x)).0 == FromWord(abi, WantFor(abi, x), Peek(a.stack, a.sp, 8))
  {
  }

  lemma CopyDecodes(abi: Abi, fpu: Fpu, x: Item)
    requires x.Valid()
    ensures FromWord(abi, WantFor(abi, x), OnStack(abi, fpu, x)) == Sent(abi, fpu, x)
  {
    if x.arg.ArgInt? {
      assert Truncated(abi, Widened(abi, x.arg.value), |x.arg.value|) == x.arg.value;
    }
  }

  /** An argument the callback reads from the stack arrives, unless the stack is late. */
  lemma StackStep(abi: Abi, fpu: Fpu, vm: Vm, x: Item, p: Progress, a: Args)
    requires vm.Valid() && x.Valid() && a.Valid() && InStep(vm, a, p.n) && Stands(abi, vm, p)
    requires Extent(abi, p.n + 1, p.seen || x.vararg) <= vm.vec.total
    requires FromStack(p, x) && !p.late && Holds(a, Place(abi, fpu, vm, x))
    ensures Fetch(abi, fpu, a, WantFor(abi, x)).0 == Sent(abi, fpu, x)
  {
    SlotRead(abi, fpu, vm, x, p, a);
    FetchesWord(abi, fpu, x, p, a);
    CopyDecodes(abi, fpu, x);
  }

  lemma Step(abi: Abi, fpu: Fpu, vm: Vm, x: Item, p: Progress, a: Args)
    requires vm.Valid() && x.Valid() && a.Valid() && fpu.Faithful() && InStep(vm, a, p.n) && Stands(abi, vm, p)
    requires Extent(abi, p.n + 1, p.seen || x.vararg) <= vm.vec.total
    requires (FromStack(p, x) ==> !p.late) && Holds(a, Place(abi, fpu, vm, x))
    ensures var (got, a') := Fetch(abi, fpu, a, WantFor(abi, x));
            got == Sent(abi, fpu, x) && InStep(Place(abi, fpu, vm, x), a', p.n + 1) && SameImage(a, a')
  {
    CountersStep(abi, fpu, vm, x, p, a);
    if FromStack(p, x) {
      StackStep(abi, fpu, vm, x, p, a);
    } else {
      RegisterStep(abi, fpu, vm, x, p, a);
    }
  }

  /** Arguments that never make the stack late are fetched back if they fit. */
  lemma {:induction false} RoundTrip(abi: Abi, fpu: Fpu, vm: Vm, items: seq<Item>, p: Progress, a: Args)
    requires vm.Valid() && ValidItems(items) && a.Valid() && fpu.Faithful()
    requires InStep(vm, a, p.n) && Stands(abi, vm, p) && StackUse(abi, p, items) <= vm.vec.total
    requires !After(abi, p, items).late && Holds(a, PlaceAll(abi, fpu, vm, items))
    ensures Delivers(abi, fpu, a, items)
    decreases |items|
  {
    if items != [] {
      var x := items[0];
      var next, q := Place(abi, fpu, vm, x), Advance(abi, p, x);
      UseGrows(abi, p, items);
      PlaceSlots(abi, fpu, vm, x, p);
      PlaceAllKeeps(abi, fpu, next, items[1..], q, a);
      if p.late {
        LateStays(abi, p, items);
      }
      Step(abi, fpu, vm, x, p, a);
      RoundTrip(abi, fpu, next, items[1..], q, Fetch(abi, fpu, a, WantFor(abi, x)).1);
    }
  }

  /** Arguments the callback reads from registers alone are fetched back, whatever the order of modes and
      whether or not the vector has room for their copies. */
  lemma {:induction false} RegistersRoundTrip(abi: Abi, fpu: Fpu, vm: Vm, items: seq<Item>, p: Progress, a: Args)
    requires vm.Valid() && ValidItems(items) && a.Valid() && fpu.Faithful()
    requires InStep(vm, a, p.n) && Counted(vm, p) && Unstacked(abi, p, items)
    requires HoldsRegisters(a, PlaceAll(abi, fpu, vm, items))
    ensures Delivers(abi, fpu, a, items)
    decreases |items|
  {
    if items != [] {
      var x := items[0];
      var next := Place(abi, fpu, vm, x);
      PlaceAllKeepsRegisters(abi, fpu, next, items[1..], a);
      CountersStep(abi, fpu, vm, x, p, a);
      PlaceCounts(abi, fpu, vm, x, p);
      RegisterStep(abi, fpu, vm, x, p, a);
      RegistersRoundTrip(abi, fpu, next, items[1..], Advance(abi, p, x), Fetch(abi, fpu, a, WantFor(abi, x)).1);
    }
  }

  /** Eight arguments never need the stack. */
  lemma {:induction false} EightUnstacked(abi: Abi, p: Progress, items: seq<Item>)
    requires p.f <= p.n && p.n + |items| <= 8
    ensures Unstacked(abi, p, items)
    decreases |items|
  {
    if items != [] {
      EightUnstacked(abi, Advance(abi, p, items[0]), items[1..]);
    }
  }
}
