/** The conditions for PowerPC 64-bit calls are exact: where one fails, some values of those types do not
    arrive, or are not in their slots.  Two argument lists that differ in one value are placed; the two
    stacks agree in that argument's slot, so it cannot hold both. */
module Ppc64Converse {
  import opened Bytes
  import opened Vector
  import opened Ppc64
  import opened Ppc64RoundTrip

  datatype Kind = IntKind(width: nat) | FloatKind | DoubleKind

  function KindOf(x: Arg): Kind {
    match x
    case ArgInt(b) => IntKind(|b|)
    case ArgFloat(_, _) => FloatKind
    case ArgDouble(_) => DoubleKind
  }

  /** Arguments of the same types in the same modes. */
  predicate Alike(items: seq<Item>, items': seq<Item>) {
    |items| == |items'| && forall k :: 0 <= k < |items| ==> AlikeItem(items[k], items'[k])
  }

  predicate AlikeItem(x: Item, y: Item) {
    KindOf(x.arg) == KindOf(y.arg) && x.vararg == y.vararg
  }

  lemma {:induction false} AlikeAfter(abi: Abi, p: Progress, items: seq<Item>, items': seq<Item>)
    requires Alike(items, items')
    ensures After(abi, p, items) == After(abi, p, items')
    decreases |items|
  {
    if items != [] {
      assert AlikeItem(items[0], items'[0]);
      AlikeAfter(abi, Advance(abi, p, items[0]), items[1..], items'[1..]);
    }
  }

  lemma {:induction false} AlikeUnstacked(abi: Abi, p: Progress, items: seq<Item>, items': seq<Item>)
    requires Alike(items, items') && Unstacked(abi, p, items)
    ensures Unstacked(abi, p, items')
    decreases |items|
  {
    if items != [] {
      assert AlikeItem(items[0], items'[0]);
      AlikeUnstacked(abi, Advance(abi, p, items[0]), items[1..], items'[1..]);
    }
  }

  function WithValue(x: Item, first: byte): Item {
    x.(arg := match x.arg
              case ArgInt(b) => ArgInt(seq(|b|, k => if k == 0 then first else 0))
              case ArgFloat(_, _) => ArgFloat([first, 0, 0, 0], [0, 0, 0, 0])
              case ArgDouble(_) => ArgDouble([first, 0, 0, 0, 0, 0, 0, 0]))
  }

  /** Zeros, but for argument `k`. */
  function Witness(items: seq<Item>, k: nat, first: byte): (r: seq<Item>)
    requires ValidItems(items)
    ensures ValidItems(r) && Alike(items, r)
  {
    seq(|items|, j requires 0 <= j < |items| => WithValue(items[j], if j == k then first else 0))
  }

  lemma ValuesDiffer(abi: Abi, fpu: Fpu, x: Item)
    requires x.Valid() && fpu.Faithful()
    ensures Sent(abi, fpu, WithValue(x, 0)) != Sent(abi, fpu, WithValue(x, 1))
    ensures OnStack(abi, fpu, WithValue(x, 0)) != OnStack(abi, fpu, WithValue(x, 1))
  {
    var zero, one := WithValue(x, 0), WithValue(x, 1);
    assert Sent(abi, fpu, zero) != Sent(abi, fpu, one) by {
      match x.arg
      case ArgInt(b) => assert Sent(abi, fpu, zero)[0] == 0 && Sent(abi, fpu, one)[0] == 1;
      case ArgFloat(_, _) =>
        assert fpu.narrow(fpu.widen([0, 0, 0, 0])) == [0, 0, 0, 0];
        assert fpu.narrow(fpu.widen([1, 0, 0, 0])) == [1, 0, 0, 0];
      case ArgDouble(_) =>
    }
    CopyDecodes(abi, fpu, zero);
    CopyDecodes(abi, fpu, one);
  }

  // ----- two calls that differ in one argument -----

  /** Two vectors that differ at most in the bytes from `lo` up to `lo + 8`. */
  ghost predicate SameBytesBut(v: Vec, v': Vec, lo: nat) {
    && v.size == v'.size && v.total == v'.total && |v.mem| == |v'.mem|
    && forall k :: 0 <= k < |v.mem| && !(lo <= k < lo + 8) ==> v.mem[k] == v'.mem[k]
  }

  /** Two VMs that differ at most in register contents and in those bytes. */
  ghost predicate SameBut(v: Vm, v': Vm, lo: nat) {
    v.i == v'.i && v.f == v'.f && SameBytesBut(v.vec, v'.vec, lo)
  }

  lemma SameAppend(v: Vec, v': Vec, w: Word8, slots: nat, lo: nat)
    requires v.Valid() && v'.Valid() && SameBytesBut(v, v', lo)
    ensures SameBytesBut(VecAppend(v, w), VecAppend(v', w), lo)
    ensures SameBytesBut(VecAppend(SkipTo(v, slots), w), VecAppend(SkipTo(v', slots), w), lo)
  {
  }

  lemma SameButStep(abi: Abi, fpu: Fpu, v: Vm, v': Vm, x: Item, lo: nat)
    requires v.Valid() && v'.Valid() && x.Valid() && SameBut(v, v', lo)
    ensures SameBut(Place(abi, fpu, v, x), Place(abi, fpu, v', x), lo)
  {
    SameAppend(v.vec, v'.vec, OnStack(abi, fpu, x), v.i, lo);
    SameAppend(v.vec, v'.vec, OnStack(abi, fpu, x), 8, lo);
  }

  lemma {:induction false} SameButAll(abi: Abi, fpu: Fpu, v: Vm, v': Vm, items: seq<Item>, lo: nat)
    requires v.Valid() && v'.Valid() && ValidItems(items) && SameBut(v, v', lo)
    ensures SameBut(PlaceAll(abi, fpu, v, items), PlaceAll(abi, fpu, v', items), lo)
    decreases |items|
  {
    if items != [] {
      SameButStep(abi, fpu, v, v', items[0], lo);
      SameButAll(abi, fpu, Place(abi, fpu, v, items[0]), Place(abi, fpu, v', items[0]), items[1..], lo);
    }
  }

  /** With the stack late, the copies differ before the argument's slot. */
  lemma DifferBefore(abi: Abi, fpu: Fpu, vm: Vm, x: Item, y: Item, p: Progress)
    requires vm.Valid() && x.Valid() && y.Valid() && AlikeItem(x, y) && Stands(abi, vm, p) && p.late
    requires Written(abi, p.n, x) && Extent(abi, p.n + 1, p.seen || x.vararg) <= vm.vec.total
    ensures vm.vec.size + 8 <= 8 * p.n
    ensures SameBut(Place(abi, fpu, vm, x), Place(abi, fpu, vm, y), vm.vec.size)
  {
    PlaceVec(abi, fpu, vm, x, p);
    PlaceVec(abi, fpu, vm, y, p);
    PlaceCounts(abi, fpu, vm, x, p);
    PlaceCounts(abi, fpu, vm, y, p);
  }

  lemma {:induction false} PlaceAllAt(abi: Abi, fpu: Fpu, vm: Vm, items: seq<Item>, k: nat)
    requires vm.Valid() && ValidItems(items) && k < |items|
    ensures PlaceAll(abi, fpu, vm, items)
            == PlaceAll(abi, fpu, Place(abi, fpu, PlaceAll(abi, fpu, vm, items[..k]), items[k]), items[k + 1..])
    decreases |items|
  {
    if k > 0 {
      assert items[..k][1..] == items[1..][..k - 1] && items[k + 1..] == items[1..][k..];
      PlaceAllAt(abi, fpu, Place(abi, fpu, vm, items[0]), items[1..], k - 1);
    }
  }

  lemma {:induction false} UseAt(abi: Abi, p: Progress, items: seq<Item>, k: nat)
    requires k < |items|
    ensures var q := After(abi, p, items[..k]);
            && StackUse(abi, p, items[..k]) <= StackUse(abi, p, items)
            && Extent(abi, q.n + 1, q.seen || items[k].vararg) <= StackUse(abi, p, items)
    decreases |items|
  {
    if k == 0 {
      UseGrows(abi, p, items);
    } else {
      assert items[..k][1..] == items[1..][..k - 1];
      UseAt(abi, Advance(abi, p, items[0]), items[1..], k - 1);
    }
  }

  /** The lists differ at most in argument `k`, which has the same type in both. */
  predicate DifferOnlyAt(items: seq<Item>, items': seq<Item>, k: nat) {
    && k < |items| == |items'| && items[..k] == items'[..k] && items[k + 1..] == items'[k + 1..]
    && AlikeItem(items[k], items'[k])
  }

  lemma WitnessesDiffer(items: seq<Item>, k: nat)
    requires ValidItems(items) && k < |items|
    ensures DifferOnlyAt(Witness(items, k, 0), Witness(items, k, 1), k)
    ensures Witness(items, k, 0)[k] == WithValue(items[k], 0) && Witness(items, k, 1)[k] == WithValue(items[k], 1)
    ensures forall first :: AlikeItem(items[k], Witness(items, k, first)[k])
    ensures forall first :: Alike(items[..k], Witness(items, k, first)[..k])
  {
  }

  /** After the differing argument, with the stack late, the stacks agree in its slot to the end. */
  lemma SameInSlotOf(abi: Abi, fpu: Fpu, vm: Vm, items: seq<Item>, items': seq<Item>, k: nat, p: Progress)
    requires vm.Valid() && ValidItems(items) && ValidItems(items') && DifferOnlyAt(items, items', k)
    requires Stands(abi, vm, p) && p.late && Written(abi, p.n, items[k])
    requires Extent(abi, p.n + 1, true) <= vm.vec.total
    ensures var s, s' := PlaceAll(abi, fpu, Place(abi, fpu, vm, items[k]), items[k + 1..]).vec,
                         PlaceAll(abi, fpu, Place(abi, fpu, vm, items'[k]), items'[k + 1..]).vec;
            s.size == s'.size && Peek(s.mem, 8 * p.n, 8) == Peek(s'.mem, 8 * p.n, 8)
  {
    var v, v' := Place(abi, fpu, vm, items[k]), Place(abi, fpu, vm, items'[k]);
    DifferBefore(abi, fpu, vm, items[k], items'[k], p);
    SameButAll(abi, fpu, v, v', items[k + 1..], vm.vec.size);
  }

  /** The two stacks agree in the slot of an argument that comes when the stack is late. */
  lemma SameInSlot(abi: Abi, fpu: Fpu, vm: Vm, items: seq<Item>, items': seq<Item>, k: nat)
    requires vm.Valid() && ValidItems(items) && ValidItems(items') && DifferOnlyAt(items, items', k)
    requires Stands(abi, vm, START) && StackUse(abi, START, items) <= vm.vec.total
    requires Written(abi, k, items[k]) && !Orderly(abi, items[..k])
    ensures var s, s' := PlaceAll(abi, fpu, vm, items).vec, PlaceAll(abi, fpu, vm, items').vec;
            s.size == s'.size && Peek(s.mem, 8 * k, 8) == Peek(s'.mem, 8 * k, 8)
  {
    LateIff(abi, items[..k]);
    UseAt(abi, START, items, k);
    PlaceAllSlots(abi, fpu, vm, items[..k], START);
    SameInSlotOf(abi, fpu, PlaceAll(abi, fpu, vm, items[..k]), items, items', k, After(abi, START, items[..k]));
    PlaceAllAt(abi, fpu, vm, items, k);
    PlaceAllAt(abi, fpu, vm, items', k);
  }

  // ----- what arrives -----

  ghost predicate ArgsAt(a: Args, p: Progress) {
    a.Valid() && a.i == (if p.n < 8 then p.n else 8) && a.f == p.f <= p.n && a.sp == 8 * p.n
  }

  lemma FetchCounts(abi: Abi, fpu: Fpu, a: Args, x: Item, p: Progress)
    requires ArgsAt(a, p) && x.Valid()
    ensures var a' := Fetch(abi, fpu, a, WantFor(abi, x)).1; ArgsAt(a', Advance(abi, p, x)) && SameImage(a, a')
  {
  }

  /** Of arguments that all arrive, one that is read from the stack is what its slot holds. */
  lemma {:induction false} DeliveredFromSlot(abi: Abi, fpu: Fpu, a: Args, items: seq<Item>, p: Progress, k: nat)
    requires ArgsAt(a, p) && ValidItems(items) && Delivers(abi, fpu, a, items)
    requires k < |items| && FromStack(After(abi, p, items[..k]), items[k])
    ensures FromWord(abi, WantFor(abi, items[k]), Peek(a.stack, 8 * (p.n + k), 8)) == Sent(abi, fpu, items[k])
    decreases |items|
  {
    if k == 0 {
      FetchesWord(abi, fpu, items[0], p, a);
    } else {
      var x := items[0];
      assert items[..k][1..] == items[1..][..k - 1];
      FetchCounts(abi, fpu, a, x, p);
      DeliveredFromSlot(abi, fpu, Fetch(abi, fpu, a, WantFor(abi, x)).1, items[1..], Advance(abi, p, x), k - 1);
    }
  }

  lemma {:induction false} StackedAt(abi: Abi, p: Progress, items: seq<Item>) returns (k: nat)
    requires !Unstacked(abi, p, items)
    ensures k < |items| && FromStack(After(abi, p, items[..k]), items[k])
    decreases |items|
  {
    if FromStack(p, items[0]) {
      k := 0;
    } else {
      var j := StackedAt(abi, Advance(abi, p, items[0]), items[1..]);
      k := j + 1;
      assert items[..k][1..] == items[1..][..j];
    }
  }

  /** Disorder is among the first eight arguments. */
  lemma OrderlyPrefix(abi: Abi, items: seq<Item>, k: nat)
    requires k <= |items| && (k >= 8 || k == |items|)
    ensures Orderly(abi, items[..k]) <==> Orderly(abi, items)
  {
  }

  lemma {:induction false} FloatsCounted(abi: Abi, p: Progress, items: seq<Item>)
    requires p.f <= p.n
    ensures After(abi, p, items).f <= After(abi, p, items).n == p.n + |items|
    decreases |items|
  {
    if items != [] {
      FloatsCounted(abi, Advance(abi, p, items[0]), items[1..]);
    }
  }

  lemma AlikeUse(abi: Abi, items: seq<Item>, items': seq<Item>)
    requires Alike(items, items')
    ensures StackUse(abi, START, items) == StackUse(abi, START, items')
    ensures Orderly(abi, items) == Orderly(abi, items')
  {
    AlikeAfter(abi, START, items, items');
    LateIff(abi, items);
    LateIff(abi, items');
  }

  lemma AlikeWant(abi: Abi, x: Item, y: Item)
    requires AlikeItem(x, y)
    ensures WantFor(abi, x) == WantFor(abi, y)
  {
  }

  lemma DeliveredWord(abi: Abi, fpu: Fpu, a: Args, items: seq<Item>, k: nat, word: Word8)
    requires ArgsAt(a, START) && ValidItems(items) && Delivers(abi, fpu, a, items)
    requires k < |items| && FromStack(After(abi, START, items[..k]), items[k]) && word == Peek(a.stack, 8 * k, 8)
    ensures FromWord(abi, WantFor(abi, items[k]), word) == Sent(abi, fpu, items[k])
  {
    DeliveredFromSlot(abi, fpu, a, items, START, k);
  }

  /** One slot cannot hold two values. */
  lemma SlotDecides(abi: Abi, fpu: Fpu, a: Args, b: Args, items: seq<Item>, items': seq<Item>, k: nat)
    requires ArgsAt(a, START) && ArgsAt(b, START) && ValidItems(items) && ValidItems(items') && DifferOnlyAt(items, items', k)
    requires FromStack(After(abi, START, items[..k]), items[k]) && Peek(a.stack, 8 * k, 8) == Peek(b.stack, 8 * k, 8)
    requires Delivers(abi, fpu, a, items) && Delivers(abi, fpu, b, items')
    ensures Sent(abi, fpu, items[k]) == Sent(abi, fpu, items'[k])
  {
    var word := Peek(a.stack, 8 * k, 8);
    DeliveredWord(abi, fpu, a, items, k, word);
    DeliveredWord(abi, fpu, b, items', k, word);
    AlikeWant(abi, items[k], items'[k]);
  }

  /** Two lists that differ in an argument read from a late stack cannot both arrive. */
  lemma NotBoth(abi: Abi, fpu: Fpu, vm: Vm, items: seq<Item>, items': seq<Item>, k: nat)
    requires vm.Valid() && ValidItems(items) && ValidItems(items') && DifferOnlyAt(items, items', k)
    requires Stands(abi, vm, START) && StackUse(abi, START, items) <= vm.vec.total
    requires FromStack(After(abi, START, items[..k]), items[k]) && !Orderly(abi, items)
    requires Sent(abi, fpu, items[k]) != Sent(abi, fpu, items'[k])
    ensures !(Delivers(abi, fpu, Image(PlaceAll(abi, fpu, vm, items)), items)
              && Delivers(abi, fpu, Image(PlaceAll(abi, fpu, vm, items')), items'))
  {
    var a, b := Image(PlaceAll(abi, fpu, vm, items)), Image(PlaceAll(abi, fpu, vm, items'));
    FloatsCounted(abi, START, items[..k]);
    OrderlyPrefix(abi, items, k);
    SameInSlot(abi, fpu, vm, items, items', k);
    if Delivers(abi, fpu, a, items) && Delivers(abi, fpu, b, items') {
      SlotDecides(abi, fpu, a, b, items, items', k);
    }
  }

  /** All values of these types, in these modes, arrive. */
  ghost predicate AllArrive(abi: Abi, fpu: Fpu, vm: Vm, items: seq<Item>)
    requires vm.Valid()
  {
    forall items': seq<Item> :: ValidItems(items') && Alike(items, items') ==>
      Delivers(abi, fpu, Image(PlaceAll(abi, fpu, vm, items')), items')
  }

  lemma Arrives(abi: Abi, fpu: Fpu, vm: Vm, items: seq<Item>)
    requires vm.Valid() && ValidItems(items) && fpu.Faithful() && Stands(abi, vm, START)
    requires Unstacked(abi, START, items) || (Orderly(abi, items) && StackUse(abi, START, items) <= vm.vec.total)
    ensures Delivers(abi, fpu, Image(PlaceAll(abi, fpu, vm, items)), items)
  {
    var r := PlaceAll(abi, fpu, vm, items);
    if Unstacked(abi, START, items) {
      RegistersRoundTrip(abi, fpu, vm, items, START, Image(r));
    } else {
      LateIff(abi, items);
      PlaceAllSlots(abi, fpu, vm, items, START);
      ImageHolds(abi, items, r);
      RoundTrip(abi, fpu, vm, items, START, Image(r));
    }
  }

  lemma ImageHolds(abi: Abi, items: seq<Item>, r: Vm)
    requires r.Valid() && Stands(abi, r, After(abi, START, items)) && StackUse(abi, START, items) <= r.vec.total
    ensures Holds(Image(r), r)
  {
  }

  /** For a fresh VM with room: arguments of the given types arrive, whatever their values, if and only if
      no named one follows a vararg among the first eight, or the callback reads none from the stack. */
  lemma RoundTripIff(abi: Abi, fpu: Fpu, vm: Vm, items: seq<Item>)
    requires vm.Valid() && ValidItems(items) && fpu.Faithful() && Stands(abi, vm, START)
    requires StackUse(abi, START, items) <= vm.vec.total
    ensures AllArrive(abi, fpu, vm, items) <==> Orderly(abi, items) || Unstacked(abi, START, items)
  {
    if Orderly(abi, items) || Unstacked(abi, START, items) {
      forall items': seq<Item> | ValidItems(items') && Alike(items, items')
        ensures Delivers(abi, fpu, Image(PlaceAll(abi, fpu, vm, items')), items')
      {
        LateIff(abi, items);
        LateIff(abi, items');
        AlikeAfter(abi, START, items, items');
        if Unstacked(abi, START, items) {
          AlikeUnstacked(abi, START, items, items');
        }
        Arrives(abi, fpu, vm, items');
      }
    } else {
      SomeDoNotArrive(abi, fpu, vm, items);
    }
  }

  lemma SomeDoNotArrive(abi: Abi, fpu: Fpu, vm: Vm, items: seq<Item>)
    requires vm.Valid() && ValidItems(items) && fpu.Faithful() && Stands(abi, vm, START)
    requires StackUse(abi, START, items) <= vm.vec.total
    requires !Orderly(abi, items) && !Unstacked(abi, START, items)
    ensures !AllArrive(abi, fpu, vm, items)
  {
    var k := StackedAt(abi, START, items);
    var zeros, ones := Witness(items, k, 0), Witness(items, k, 1);
    WitnessesDiffer(items, k);
    ValuesDiffer(abi, fpu, items[k]);
    AlikeUse(abi, items, zeros);
    AlikeAfter(abi, START, items[..k], zeros[..k]);
    NotBoth(abi, fpu, vm, zeros, ones, k);
  }

  /** Up to eight arguments arrive in any order of modes, whether or not their copies have room. */
  lemma EightArrive(abi: Abi, fpu: Fpu, vm: Vm, items: seq<Item>)
    requires vm.Valid() && ValidItems(items) && fpu.Faithful() && Stands(abi, vm, START) && |items| <= 8
    ensures Delivers(abi, fpu, Image(PlaceAll(abi, fpu, vm, items)), items)
  {
    EightUnstacked(abi, START, items);
    Arrives(abi, fpu, vm, items);
  }

  // ----- where the copies are -----

  /** Every argument that is written at all is in its own slot. */
  ghost predicate InSlots(abi: Abi, fpu: Fpu, v: Vec, items: seq<Item>)
    requires ValidItems(items)
  {
    forall k :: 0 <= k < |items| && Written(abi, k, items[k]) ==> InSlot(v, k, OnStack(abi, fpu, items[k]))
  }

  ghost predicate AllInSlots(abi: Abi, fpu: Fpu, vm: Vm, items: seq<Item>)
    requires vm.Valid()
  {
    forall items': seq<Item> :: ValidItems(items') && Alike(items, items') ==>
      InSlots(abi, fpu, PlaceAll(abi, fpu, vm, items').vec, items')
  }

  /** No argument is written after a named one followed a vararg. */
  predicate WrittenInTime(abi: Abi, items: seq<Item>) {
    forall k :: 0 <= k < |items| && Written(abi, k, items[k]) ==> Orderly(abi, items[..k])
  }

  lemma CopiesInSlots(abi: Abi, fpu: Fpu, vm: Vm, items: seq<Item>, items': seq<Item>)
    requires vm.Valid() && ValidItems(items') && Alike(items, items') && Stands(abi, vm, START)
    requires StackUse(abi, START, items) <= vm.vec.total && WrittenInTime(abi, items)
    ensures InSlots(abi, fpu, PlaceAll(abi, fpu, vm, items').vec, items')
  {
    AlikeAfter(abi, START, items, items');
    forall k | 0 <= k < |items'| && Written(abi, k, items'[k])
      ensures InSlot(PlaceAll(abi, fpu, vm, items').vec, k, OnStack(abi, fpu, items'[k]))
    {
      assert AlikeItem(items[k], items'[k]);
      LateIff(abi, items[..k]);
      AlikeAfter(abi, START, items[..k], items'[..k]);
      CopyInItsSlot(abi, fpu, vm, items', START, k);
    }
  }

  /** For a fresh VM with room: the copies of arguments of the given types are in their slots, whatever
      the values, if and only if none is written once a named argument followed a vararg. */
  lemma SlotsIff(abi: Abi, fpu: Fpu, vm: Vm, items: seq<Item>)
    requires vm.Valid() && ValidItems(items) && fpu.Faithful() && Stands(abi, vm, START)
    requires StackUse(abi, START, items) <= vm.vec.total
    ensures AllInSlots(abi, fpu, vm, items) <==> WrittenInTime(abi, items)
  {
    if WrittenInTime(abi, items) {
      forall items': seq<Item> | ValidItems(items') && Alike(items, items')
        ensures InSlots(abi, fpu, PlaceAll(abi, fpu, vm, items').vec, items')
      {
        CopiesInSlots(abi, fpu, vm, items, items');
      }
    } else {
      var k :| 0 <= k < |items| && Written(abi, k, items[k]) && !Orderly(abi, items[..k]);
      NotBothInSlot(abi, fpu, vm, items, k);
    }
  }

  lemma NotBothInSlot(abi: Abi, fpu: Fpu, vm: Vm, items: seq<Item>, k: nat)
    requires vm.Valid() && ValidItems(items) && fpu.Faithful() && Stands(abi, vm, START)
    requires StackUse(abi, START, items) <= vm.vec.total
    requires k < |items| && Written(abi, k, items[k]) && !Orderly(abi, items[..k])
    ensures !AllInSlots(abi, fpu, vm, items)
  {
    var zeros, ones := Witness(items, k, 0), Witness(items, k, 1);
    WitnessesDiffer(items, k);
    ValuesDiffer(abi, fpu, items[k]);
    AlikeUse(abi, items, zeros);
    AlikeUse(abi, items[..k], zeros[..k]);
    SameInSlot(abi, fpu, vm, zeros, ones, k);
    if InSlots(abi, fpu, PlaceAll(abi, fpu, vm, zeros).vec, zeros) {
      assert Written(abi, k, zeros[k]) && Written(abi, k, ones[k]);
    }
  }

  // ----- a list that does not arrive -----

  /** A vararg and then eight named arguments, all of them chars. */
  const MIXED: seq<Item> := seq(9, k => Item(ArgInt([0]), k == 0))

  /** Under ELFv2 the ninth is read from its slot, but was written to the second. */
  lemma MixedLost(abi: Abi, fpu: Fpu, vm: Vm)
    requires abi.elf2 && vm.Valid() && fpu.Faithful() && Stands(abi, vm, START) && vm.vec.total >= 72
    ensures ValidItems(MIXED) && !Orderly(abi, MIXED) && !Unstacked(abi, START, MIXED) && !WrittenInTime(abi, MIXED)
    ensures !AllArrive(abi, fpu, vm, MIXED) && !AllInSlots(abi, fpu, vm, MIXED)
  {
    assert MIXED[0].vararg && !MIXED[1].vararg;
    LateIff(abi, MIXED);
    LateIff(abi, MIXED[..8]);
    UnstackedAt(abi, START, MIXED, 8);
    OrderlyPrefix(abi, MIXED, 8);
    assert Written(abi, 8, MIXED[8]);
    RoundTripIff(abi, fpu, vm, MIXED);
    SlotsIff(abi, fpu, vm, MIXED);
  }

  lemma {:induction false} UnstackedAt(abi: Abi, p: Progress, items: seq<Item>, k: nat)
    requires k < |items|
    ensures Unstacked(abi, p, items) ==> !FromStack(After(abi, p, items[..k]), items[k])
    decreases |items|
  {
    if k > 0 {
      assert items[..k][1..] == items[1..][..k - 1];
      UnstackedAt(abi, Advance(abi, p, items[0]), items[1..], k - 1);
    }
  }
}
