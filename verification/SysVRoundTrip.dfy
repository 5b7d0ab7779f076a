/** A callback fetches back what the call VM placed: the simulation between the two. */
module SysVRoundTrip {
  import opened Bytes
  import opened Vector
  import opened Aggregate
  import opened CloseAggr
  import opened SysV

  /** The two machines stand at the same argument. */
  ghost predicate InStep(vm: Vm, a: Args) {
    && a.i == vm.i && a.f == vm.f && 8 * a.sp == vm.vec.size
    && (a.ret == 0 <==> vm.ret == 0) && a.ret <= 0
  }

  /** The image the callback received holds everything the VM has placed so far. */
  ghost predicate Holds(a: Args, vm: Vm)
    requires a.Valid() && vm.Valid()
  {
    && (forall k :: 0 <= k < vm.i && k != vm.ret ==> a.ints[k] == vm.ints[k])
    && (forall k :: 0 <= k < vm.f ==> a.floats[k] == vm.floats[k])
    && Agree(vm.vec.mem, a.stack, vm.vec.size)
  }

  /** Same image, maybe further on. */
  ghost predicate SameImage(a: Args, b: Args) {
    a.ints == b.ints && a.floats == b.floats && a.stack == b.stack && a.ret == b.ret
  }

  // ----- one step never disturbs what was placed before -----

  lemma PlaceIntKeeps(vm: Vm, x: Word8, a: Args)
    requires vm.Valid() && a.Valid() && vm.vec.size <= vm.vec.total && Holds(a, PlaceInt(vm, x))
    ensures Holds(a, vm)
  {
    AppendExtends(vm.vec, x);
    var v := PlaceInt(vm, x).vec;
    if v != vm.vec {
      AgreeShorter(v.mem, a.stack, v.size, vm.vec.size);
    }
  }

  lemma PlaceDoubleKeeps(vm: Vm, x: Word8, a: Args)
    requires vm.Valid() && a.Valid() && vm.vec.size <= vm.vec.total && Holds(a, PlaceDouble(vm, x))
    ensures Holds(a, vm)
  {
    AppendExtends(vm.vec, x);
    var v := PlaceDouble(vm, x).vec;
    if v != vm.vec {
      AgreeShorter(v.mem, a.stack, v.size, vm.vec.size);
    }
  }

  lemma PlaceWordKeeps(vm: Vm, c: Class, x: Word8, a: Args)
    requires vm.Valid() && a.Valid() && vm.vec.size <= vm.vec.total && Holds(a, PlaceWord(vm, c, x))
    ensures Holds(a, vm)
  {
    if c == INTEGER {
      PlaceIntKeeps(vm, x, a);
    } else {
      PlaceDoubleKeeps(vm, x, a);
    }
  }

  /** Counting classes from the start is counting the first and the second. */
  lemma CountTwo(ag: Aggr, c: Class)
    requires Passable(ag) && ag.classes[0] != MEMORY && c != NONE
    ensures Count(ag.classes, c, 2) == 0
    ensures Count(ag.classes, c, 1) == if ag.classes[1] == c then 1 else 0
    ensures ag.classes[0] != NONE ==>
              Count(ag.classes, c, 0) == (if ag.classes[0] == c then 1 else 0) + Count(ag.classes, c, 1)
  {
  }

  /** Once the counts allow it, every remaining eightbyte goes to a register: an aggregate is never
      split, even with a hidden return register still to be stepped over. */
  lemma {:induction false} EightbytesInRegisters(vm: Vm, ag: Aggr, mem: seq<byte>, i: nat)
    requires vm.Valid() && Passable(ag) && ag.classes[0] != MEMORY && Up8(ag.size) <= |mem| && i <= 2
    requires vm.i + Count(ag.classes, INTEGER, i) <= NUM_INT_REGS
    requires vm.f + Count(ag.classes, SSE, i) <= NUM_FLOAT_REGS
    ensures PlaceEightbytes(vm, ag, mem, i).vec == vm.vec
    decreases 2 - i
  {
    CountTwo(ag, INTEGER);
    CountTwo(ag, SSE);
    if ag.classes[i] != NONE && i < 2 {
      EightbytesInRegisters(PlaceWord(vm, ag.classes[i], Load(mem, 8 * i, 8)), ag, mem, i + 1);
    }
  }

  lemma {:induction false} EightbytesKeep(vm: Vm, ag: Aggr, mem: seq<byte>, i: nat, a: Args)
    requires vm.Valid() && Passable(ag) && ag.classes[0] != MEMORY && Up8(ag.size) <= |mem| && i <= 2
    requires a.Valid() && vm.vec.size <= vm.vec.total && Holds(a, PlaceEightbytes(vm, ag, mem, i))
    ensures Holds(a, vm)
    decreases 2 - i
  {
    if ag.classes[i] != NONE && i < 2 {
      var word := Load(mem, 8 * i, 8);
      EightbytesKeep(PlaceWord(vm, ag.classes[i], word), ag, mem, i + 1, a);
      PlaceWordKeeps(vm, ag.classes[i], word, a);
    }
  }

  lemma PlaceKeeps(vm: Vm, x: Arg, a: Args)
    requires vm.Valid() && ValidArg(x) && a.Valid()
    requires vm.vec.size + StackUse(vm.i, vm.f, vm.ret, x) <= vm.vec.total
    requires Holds(a, Place(vm, x))
    ensures Holds(a, vm)
  {
    match x
    case ArgBool(b) => PlaceIntKeeps(vm, SignExtendLE(b, 8), a);
    case ArgSigned(b) => PlaceIntKeeps(vm, SignExtendLE(b, 8), a);
    case ArgPointer(p) => PlaceIntKeeps(vm, p, a);
    case ArgOpaque(p) => PlaceIntKeeps(vm, p, a);
    case ArgFloat(v, other) => PlaceDoubleKeeps(vm, v + other, a);
    case ArgDouble(d) => PlaceDoubleKeeps(vm, d, a);
    case ArgAggr(ag, mem) =>
      if InMemory(ag, vm.i, vm.f) {
        AppendExtends(vm.vec, mem[..ag.size]);
        var v := Place(vm, x).vec;
        AgreeShorter(v.mem, a.stack, v.size, vm.vec.size);
      } else {
        EightbytesKeep(vm, ag, mem, 0, a);
      }
  }

  /** The stack grows by what `StackUse` says. */
  lemma PlaceSize(vm: Vm, x: Arg)
    requires vm.Valid() && ValidArg(x)
    requires vm.vec.size + StackUse(vm.i, vm.f, vm.ret, x) <= vm.vec.total
    ensures Place(vm, x).vec.size == vm.vec.size + StackUse(vm.i, vm.f, vm.ret, x)
    ensures Place(vm, x).vec.total == vm.vec.total
  {
    if x.ArgAggr? && !InMemory(x.ag, vm.i, vm.f) {
      EightbytesInRegisters(vm, x.ag, x.mem, 0);
    }
  }

  lemma {:induction false} PlaceAllKeeps(vm: Vm, args: seq<Arg>, a: Args)
    requires vm.Valid() && ValidArgs(args) && a.Valid() && vm.vec.size <= vm.vec.total && Fits(vm, args)
    requires Holds(a, PlaceAll(vm, args))
    ensures Holds(a, vm)
    decreases |args|
  {
    if args != [] {
      PlaceSize(vm, args[0]);
      PlaceAllKeeps(Place(vm, args[0]), args[1..], a);
      PlaceKeeps(vm, args[0], a);
    }
  }

  /** An aggregate goes wholly to registers, leaving the stack alone, or wholly to a block of
      stack words, leaving the registers alone. */
  lemma NeverSplit(vm: Vm, ag: Aggr, mem: seq<byte>)
    requires vm.Valid() && Passable(ag) && Up8(ag.size) <= |mem|
    requires vm.vec.size % 8 == 0 && vm.vec.size + Up8(ag.size) <= vm.vec.total
    ensures var r := PlaceAggr(vm, ag, mem);
            if InMemory(ag, vm.i, vm.f) then
              && r == vm.(vec := r.vec) && r.vec.size == vm.vec.size + Up8(ag.size) && r.vec.size % 8 == 0
              && Load(r.vec.mem, vm.vec.size, ag.size) == mem[..ag.size]
            else r.vec == vm.vec
  {
    if InMemory(ag, vm.i, vm.f) {
      AppendExtends(vm.vec, mem[..ag.size]);
    } else {
      EightbytesInRegisters(vm, ag, mem, 0);
    }
  }

  lemma {:induction false} PlaceAllSize(vm: Vm, args: seq<Arg>)
    requires vm.Valid() && ValidArgs(args) && vm.vec.size <= vm.vec.total && Fits(vm, args)
    ensures PlaceAll(vm, args).vec.size <= PlaceAll(vm, args).vec.total
    decreases |args|
  {
    if args != [] {
      PlaceSize(vm, args[0]);
      PlaceAllSize(Place(vm, args[0]), args[1..]);
    }
  }

  // ----- one fetch answers one placement -----

  lemma IntStep(vm: Vm, x: Word8, a: Args)
    requires vm.Valid() && a.Valid() && InStep(vm, a) && Holds(a, PlaceInt(vm, x))
    requires NextInt(vm.i, vm.ret) < NUM_INT_REGS || vm.vec.size + 8 <= vm.vec.total
    ensures var (w, a') := FetchInt(a);
            w == x && InStep(PlaceInt(vm, x), a') && SameImage(a, a') && a'.aggrs == a.aggrs
  {
    assert NextInt(a.i, a.ret) == NextInt(vm.i, vm.ret);
    if NextInt(vm.i, vm.ret) >= NUM_INT_REGS {
      var v := PlaceInt(vm, x).vec;
      StoreLoad(vm.vec.mem, vm.vec.size, x);
      AgreePeek(v.mem, a.stack, v.size, vm.vec.size, 8);
    }
  }

  lemma DoubleStep(vm: Vm, x: Word8, a: Args)
    requires vm.Valid() && a.Valid() && InStep(vm, a) && Holds(a, PlaceDouble(vm, x))
    requires vm.f < NUM_FLOAT_REGS || vm.vec.size + 8 <= vm.vec.total
    ensures var (w, a') := FetchDouble(a);
            w == x && InStep(PlaceDouble(vm, x), a') && SameImage(a, a') && a'.aggrs == a.aggrs
  {
    if vm.f >= NUM_FLOAT_REGS {
      var v := PlaceDouble(vm, x).vec;
      StoreLoad(vm.vec.mem, vm.vec.size, x);
      AgreePeek(v.mem, a.stack, v.size, vm.vec.size, 8);
    }
  }

  lemma WordStep(vm: Vm, c: Class, x: Word8, a: Args)
    requires vm.Valid() && a.Valid() && InStep(vm, a) && Holds(a, PlaceWord(vm, c, x))
    requires if c == INTEGER then NextInt(vm.i, vm.ret) < NUM_INT_REGS else vm.f < NUM_FLOAT_REGS
    ensures var (w, a') := FetchWord(a, c);
            w == x && InStep(PlaceWord(vm, c, x), a') && SameImage(a, a') && a'.aggrs == a.aggrs
  {
    if c == INTEGER {
      IntStep(vm, x, a);
    } else {
      DoubleStep(vm, x, a);
    }
  }

  /** Where the covered bytes end, from eightbyte `i` on. */
  function CoverEnd(ag: Aggr, i: nat): nat
    requires |ag.classes| == MAX_NUM_CLASSES && i <= 2
    decreases 2 - i
  {
    if i == 2 || ag.classes[i] == NONE then 8 * i
    else if SlotSize(ag.size, i) < 8 then ag.size
    else CoverEnd(ag, i + 1)
  }

  lemma CoverEndIsCovered(ag: Aggr)
    requires Passable(ag) && ag.classes[0] != MEMORY
    ensures CoverEnd(ag, 0) == Covered(ag)
  {
    assert CoverEnd(ag, 1) == if ag.classes[1] == NONE then 8 else ag.size;
  }

  /** `t` is `target` with the covered bytes from eightbyte `i` on replaced. */
  ghost predicate CoveredFrom(t: seq<byte>, ag: Aggr, mem: seq<byte>, target: seq<byte>, i: nat)
    requires Passable(ag) && ag.classes[0] != MEMORY && Up8(ag.size) <= |mem| && i <= 2
  {
    && |t| == |target|
    && forall k :: 0 <= k < |target| ==> t[k] == if 8 * i <= k < CoverEnd(ag, i) then mem[k] else target[k]
  }

  /** Storing eightbyte `i` and then covering the rest covers from `i` on. */
  lemma CoverOneMore(t: seq<byte>, ag: Aggr, mem: seq<byte>, target: seq<byte>, i: nat)
    requires Passable(ag) && ag.classes[0] != MEMORY && Up8(ag.size) <= |mem| && ag.size <= |target|
    requires i < 2 && ag.classes[i] != NONE
    requires CoveredFrom(t, ag, mem, Store(target, 8 * i, Load(mem, 8 * i, 8)[..SlotSize(ag.size, i)]), i + 1)
    ensures CoveredFrom(t, ag, mem, target, i)
  {
    assert 8 * i < ag.size <= 16;
    var n, end := SlotSize(ag.size, i), CoverEnd(ag, i + 1);
    assert CoverEnd(ag, i) == if n < 8 then ag.size else end;
    assert n < 8 ==> end == 8 * (i + 1) by {
      assert i + 1 == 2 || (n < 8 ==> ag.classes[i + 1] == NONE);
    }
    forall k | 0 <= k < |target|
      ensures t[k] == if 8 * i <= k < CoverEnd(ag, i) then mem[k] else target[k]
    {
      if 8 * i <= k < 8 * i + n {
        assert Load(mem, 8 * i, 8)[..n][k - 8 * i] == mem[k];
      }
    }
  }

  lemma {:induction false} EightbytesStep(vm: Vm, a: Args, ag: Aggr, mem: seq<byte>, target: seq<byte>, i: nat)
    requires vm.Valid() && a.Valid() && InStep(vm, a) && vm.vec.size <= vm.vec.total
    requires Passable(ag) && ag.classes[0] != MEMORY && Up8(ag.size) <= |mem| && ag.size <= |target| && i <= 2
    requires vm.i + Count(ag.classes, INTEGER, i) <= NUM_INT_REGS
    requires vm.f + Count(ag.classes, SSE, i) <= NUM_FLOAT_REGS
    requires Holds(a, PlaceEightbytes(vm, ag, mem, i))
    ensures var (t, a') := FetchEightbytes(a, ag, target, i);
            && InStep(PlaceEightbytes(vm, ag, mem, i), a') && SameImage(a, a') && a'.aggrs == a.aggrs
            && CoveredFrom(t, ag, mem, target, i)
    decreases 2 - i
  {
    CountTwo(ag, INTEGER);
    CountTwo(ag, SSE);
    if ag.classes[i] != NONE && i < 2 {
      var c, word := ag.classes[i], Load(mem, 8 * i, 8);
      var t := Store(target, 8 * i, word[..SlotSize(ag.size, i)]);
      EightbytesKeep(PlaceWord(vm, c, word), ag, mem, i + 1, a);
      WordStep(vm, c, word, a);
      EightbytesStep(PlaceWord(vm, c, word), FetchWord(a, c).1, ag, mem, t, i + 1);
      CoverOneMore(FetchEightbytes(a, ag, target, i).0, ag, mem, target, i);
    }
  }

  lemma CoveredIsOverlay(t: seq<byte>, ag: Aggr, mem: seq<byte>, target: seq<byte>)
    requires Passable(ag) && ag.classes[0] != MEMORY && Up8(ag.size) <= |mem| && ag.size <= |target|
    requires CoveredFrom(t, ag, mem, target, 0)
    ensures t == Overlay(mem, target, Covered(ag))
  {
    CoverEndIsCovered(ag);
  }

  lemma RegisterAggrStep(vm: Vm, a: Args, ag: Aggr, mem: seq<byte>, target: seq<byte>)
    requires vm.Valid() && a.Valid() && InStep(vm, a) && Passable(ag) && Up8(ag.size) <= |mem| && ag.size <= |target|
    requires !InMemory(ag, vm.i, vm.f) && vm.vec.size <= vm.vec.total
    requires Holds(a, PlaceEightbytes(vm, ag, mem, 0))
    ensures var (t, a') := FetchEightbytes(a, ag, target, 0);
            && InStep(PlaceEightbytes(vm, ag, mem, 0), a') && SameImage(a, a') && a'.aggrs == a.aggrs
            && t == Overlay(mem, target, Covered(ag))
  {
    EightbytesStep(vm, a, ag, mem, target, 0);
    CoveredIsOverlay(FetchEightbytes(a, ag, target, 0).0, ag, mem, target);
  }

  lemma AggrStep(vm: Vm, a: Args, ag: Aggr, mem: seq<byte>, target: seq<byte>)
    requires vm.Valid() && a.Valid() && InStep(vm, a) && Passable(ag) && Up8(ag.size) <= |mem| && ag.size <= |target|
    requires vm.vec.size + StackUse(vm.i, vm.f, vm.ret, ArgAggr(ag, mem)) <= vm.vec.total
    requires Holds(a, PlaceAggr(vm, ag, mem))
    ensures var (t, a') := FetchAggr(a, ag, target);
            && InStep(PlaceAggr(vm, ag, mem), a') && SameImage(a, a') && a'.aggrs == a.aggrs
            && t == Overlay(mem, target, Travelling(ag, vm.i, vm.f))
  {
    if InMemory(ag, vm.i, vm.f) {
      StackAggrStep(vm, a, ag, mem, target);
    } else {
      RegisterAggrStep(vm, a, ag, mem, target);
    }
  }

  lemma StackAggrStep(vm: Vm, a: Args, ag: Aggr, mem: seq<byte>, target: seq<byte>)
    requires vm.Valid() && a.Valid() && InStep(vm, a) && Passable(ag) && Up8(ag.size) <= |mem| && ag.size <= |target|
    requires InMemory(ag, vm.i, vm.f) && vm.vec.size + Up8(ag.size) <= vm.vec.total
    requires Holds(a, PlaceAggr(vm, ag, mem))
    ensures var (t, a') := FetchAggr(a, ag, target);
            && InStep(PlaceAggr(vm, ag, mem), a') && SameImage(a, a') && a'.aggrs == a.aggrs
            && t == Overlay(mem, target, ag.size)
  {
    var v := PlaceAggr(vm, ag, mem).vec;
    StoreLoad(vm.vec.mem, vm.vec.size, mem[..ag.size]);
    AgreePeek(v.mem, a.stack, v.size, vm.vec.size, ag.size);
    assert Store(target, 0, mem[..ag.size]) == Overlay(mem, target, ag.size);
  }

  /** The description the callback is given for an argument. */
  function Descriptions(args: seq<Arg>): seq<Description> {
    if args == [] then []
    else
      var rest := Descriptions(args[1..]);
      match args[0]
      case ArgAggr(ag, _) => [Known(ag)] + rest
      case ArgOpaque(_) => [Opaque] + rest
      case _ => rest
  }

  lemma Step(vm: Vm, x: Arg, w: Want, a: Args, rest: seq<Description>)
    requires vm.Valid() && ValidArg(x) && Matches(x, w) && a.Valid() && AllPassable(a.aggrs) && InStep(vm, a)
    requires a.aggrs == (if x.ArgAggr? then [Known(x.ag)] else if x.ArgOpaque? then [Opaque] else []) + rest
    requires vm.vec.size + StackUse(vm.i, vm.f, vm.ret, x) <= vm.vec.total
    requires Holds(a, Place(vm, x))
    ensures var (got, a') := Fetch(a, w);
            Delivered(vm, x, w, got) && InStep(Place(vm, x), a') && SameImage(a, a') && a'.aggrs == rest
  {
    match x
    case ArgBool(b) => IntStep(vm, SignExtendLE(b, 8), a);
    case ArgSigned(b) => IntStep(vm, SignExtendLE(b, 8), a);
    case ArgPointer(p) => IntStep(vm, p, a);
    case ArgOpaque(p) => IntStep(vm, p, a.(aggrs := rest));
    case ArgFloat(v, other) => DoubleStep(vm, v + other, a);
    case ArgDouble(d) => DoubleStep(vm, d, a);
    case ArgAggr(ag, mem) => AggrStep(vm, a.(aggrs := rest), ag, mem, w.target);
  }

  // ----- whole runs -----

  ghost predicate AllMatch(args: seq<Arg>, wants: seq<Want>) {
    |args| == |wants| && forall k :: 0 <= k < |args| ==> Matches(args[k], wants[k])
  }

  /** Fetching `wants` one after the other delivers `args`, as the call VM places them from `vm` on, and
      leaves the descriptions `rest`. */
  ghost predicate Delivers(vm: Vm, a: Args, args: seq<Arg>, wants: seq<Want>, rest: seq<Description>)
    requires vm.Valid() && a.Valid() && ValidArgs(args) && AllMatch(args, wants)
    decreases |args|
  {
    if args == [] then a.aggrs == rest
    else
      && CanFetch(a, wants[0]) && AllPassable(a.aggrs)
      && var (got, a') := Fetch(a, wants[0]);
      && Delivered(vm, args[0], wants[0], got)
      && Delivers(Place(vm, args[0]), a', args[1..], wants[1..], rest)
  }

  lemma {:induction false} DescriptionsPassable(args: seq<Arg>)
    requires ValidArgs(args)
    ensures AllPassable(Descriptions(args))
  {
    if args != [] {
      DescriptionsPassable(args[1..]);
    }
  }

  /** Every sequence of arguments that fits is fetched back, whatever image the rest of the call
      leaves, as long as it holds what the VM placed. */
  lemma {:induction false} RoundTrip(vm: Vm, args: seq<Arg>, wants: seq<Want>, a: Args, rest: seq<Description>)
    requires vm.Valid() && ValidArgs(args) && AllMatch(args, wants)
    requires vm.vec.size <= vm.vec.total && Fits(vm, args)
    requires a.Valid() && InStep(vm, a) && Holds(a, PlaceAll(vm, args))
    requires a.aggrs == Descriptions(args) + rest && AllPassable(rest)
    ensures Delivers(vm, a, args, wants, rest)
    decreases |args|
  {
    if args != [] {
      var next := Place(vm, args[0]);
      PlaceSize(vm, args[0]);
      PlaceAllKeeps(next, args[1..], a);
      DescriptionsPassable(args);
      DescriptionsPassable(args[1..]);
      Step(vm, args[0], wants[0], a, Descriptions(args[1..]) + rest);
      RoundTrip(next, args[1..], wants[1..], Fetch(a, wants[0]).1, rest);
    }
  }

  // ----- room depends on the arguments alone -----

  ghost predicate SameCounters(vm: Vm, vm': Vm) {
    && vm.i == vm'.i && vm.f == vm'.f && vm.ret == vm'.ret
    && vm.vec.size == vm'.vec.size && vm.vec.total == vm'.vec.total
  }

  lemma {:induction false} EightbytesCounters(vm: Vm, vm': Vm, ag: Aggr, mem: seq<byte>, i: nat)
    requires vm.Valid() && vm'.Valid() && SameCounters(vm, vm')
    requires Passable(ag) && ag.classes[0] != MEMORY && Up8(ag.size) <= |mem| && i <= 2
    ensures SameCounters(PlaceEightbytes(vm, ag, mem, i), PlaceEightbytes(vm', ag, mem, i))
    decreases 2 - i
  {
    if ag.classes[i] != NONE && i < 2 {
      var c, word := ag.classes[i], Load(mem, 8 * i, 8);
      EightbytesCounters(PlaceWord(vm, c, word), PlaceWord(vm', c, word), ag, mem, i + 1);
    }
  }

  lemma PlaceCounters(vm: Vm, vm': Vm, x: Arg)
    requires vm.Valid() && vm'.Valid() && SameCounters(vm, vm') && ValidArg(x)
    ensures SameCounters(Place(vm, x), Place(vm', x))
  {
    if x.ArgAggr? && !InMemory(x.ag, vm.i, vm.f) {
      EightbytesCounters(vm, vm', x.ag, x.mem, 0);
    }
  }

  /** Whether a sequence of arguments fits does not depend on what buffers held before. */
  lemma {:induction false} FitsIgnoresContents(vm: Vm, vm': Vm, args: seq<Arg>)
    requires vm.Valid() && vm'.Valid() && SameCounters(vm, vm') && ValidArgs(args) && Fits(vm, args)
    ensures Fits(vm', args)
    decreases |args|
  {
    if args != [] {
      PlaceCounters(vm, vm', args[0]);
      FitsIgnoresContents(Place(vm, args[0]), Place(vm', args[0]), args[1..]);
    }
  }

  lemma {:induction false} PlaceAllCounters(vm: Vm, vm': Vm, args: seq<Arg>)
    requires vm.Valid() && vm'.Valid() && SameCounters(vm, vm') && ValidArgs(args)
    ensures SameCounters(PlaceAll(vm, args), PlaceAll(vm', args))
    decreases |args|
  {
    if args != [] {
      PlaceCounters(vm, vm', args[0]);
      PlaceAllCounters(Place(vm, args[0]), Place(vm', args[0]), args[1..]);
    }
  }

  lemma {:induction false} PlaceAllSnoc(vm: Vm, args: seq<Arg>, x: Arg)
    requires vm.Valid() && ValidArgs(args) && ValidArg(x)
    ensures PlaceAll(vm, args + [x]) == Place(PlaceAll(vm, args), x)
    decreases |args|
  {
    if args == [] {
      assert [] + [x] == [x];
    } else {
      assert (args + [x])[1..] == args[1..] + [x];
      PlaceAllSnoc(Place(vm, args[0]), args[1..], x);
    }
  }
}
