/** The condition for ARM hard-float round trips is exact: where it fails, some arguments of those
    types do not arrive.  Two argument lists that differ in one value are placed; what the callback
    reads for that value lies where the two images agree, so it cannot be right for both. */
module ArmHfConverse {
  import opened Bytes
  import opened ArmHf
  import opened ArmHfFirstFit
  import opened ArmHfRoundTrip

  function Zero(k: Kind): Arg {
    match k
    case Core => ArgInt([0, 0, 0, 0])
    case Core64 => ArgLongLong([0, 0, 0, 0, 0, 0, 0, 0])
    case Single => ArgFloat([0, 0, 0, 0])
    case Double => ArgDouble([0, 0, 0, 0, 0, 0, 0, 0])
  }

  function One(k: Kind): Arg {
    match k
    case Core => ArgInt([1, 0, 0, 0])
    case Core64 => ArgLongLong([1, 0, 0, 0, 0, 0, 0, 0])
    case Single => ArgFloat([1, 0, 0, 0])
    case Double => ArgDouble([1, 0, 0, 0, 0, 0, 0, 0])
  }

  /** Zeros, but for the argument at the first unsafe position. */
  function Witness(c: Counters, rc: nat, kinds: seq<Kind>, x: Kind -> Arg): (r: seq<Arg>)
    requires c.Valid()
    ensures |r| == |kinds|
    decreases |kinds|
  {
    if kinds == [] then []
    else if !SafeKind(c, rc, kinds[0]) then [x(kinds[0])] + Zeros(kinds[1..])
    else [Zero(kinds[0])] + Witness(Next(c, kinds[0]), NextRc(c, rc, kinds[0]), kinds[1..], x)
  }

  function Zeros(kinds: seq<Kind>): (r: seq<Arg>)
    ensures |r| == |kinds| && ValidArgs(r) && Kinds(r) == kinds
  {
    seq(|kinds|, k requires 0 <= k < |kinds| => Zero(kinds[k]))
  }

  lemma {:induction false} WitnessKinds(c: Counters, rc: nat, kinds: seq<Kind>, x: Kind -> Arg)
    requires c.Valid() && (x == Zero || x == One)
    ensures ValidArgs(Witness(c, rc, kinds, x)) && Kinds(Witness(c, rc, kinds, x)) == kinds
    decreases |kinds|
  {
    if kinds != [] {
      var w := Witness(c, rc, kinds, x);
      if SafeKind(c, rc, kinds[0]) {
        WitnessKinds(Next(c, kinds[0]), NextRc(c, rc, kinds[0]), kinds[1..], x);
        assert w[1..] == Witness(Next(c, kinds[0]), NextRc(c, rc, kinds[0]), kinds[1..], x);
      } else {
        assert w[1..] == Zeros(kinds[1..]);
      }
      forall k | 0 <= k < |w|
        ensures ValidArg(w[k]) && KindOf(w[k]) == kinds[k]
      {
        if k > 0 {
          assert w[k] == w[1..][k - 1];
          assert Kinds(w[1..])[k - 1] == kinds[1..][k - 1];
        }
      }
    }
  }

  /** Two VMs that differ at most in the vector's bytes from `lo` up to `hi`. */
  ghost predicate SameOutside(v: Vm, v': Vm, lo: nat, hi: nat) {
    && v.Count() == v'.Count() && v.singles == v'.singles
    && v.vec.total == v'.vec.total && |v.vec.mem| == |v'.vec.mem|
    && forall k :: 0 <= k < |v.vec.mem| && !(lo <= k < hi) ==> v.vec.mem[k] == v'.vec.mem[k]
  }

  lemma SameOutsideCore(v: Vm, v': Vm, x: Word4, lo: nat, hi: nat)
    requires v.Valid() && v'.Valid() && SameOutside(v, v', lo, hi)
    ensures SameOutside(PlaceInt(v, x), PlaceInt(v', x), lo, hi)
    ensures SameOutside(PlaceFloat(v, x), PlaceFloat(v', x), lo, hi)
  {
  }

  lemma SameOutsidePair(v: Vm, v': Vm, x: Word8, lo: nat, hi: nat)
    requires v.Valid() && v'.Valid() && SameOutside(v, v', lo, hi)
    ensures SameOutside(PlaceLongLong(v, x), PlaceLongLong(v', x), lo, hi)
    ensures SameOutside(PlaceDouble(v, x), PlaceDouble(v', x), lo, hi)
  {
  }

  lemma SameOutsideStep(v: Vm, v': Vm, x: Arg, lo: nat, hi: nat)
    requires v.Valid() && v'.Valid() && ValidArg(x) && SameOutside(v, v', lo, hi)
    ensures SameOutside(Place(v, x), Place(v', x), lo, hi)
  {
    match x
    case ArgBool(b) => SameOutsideCore(v, v', b, lo, hi);
    case ArgInt(b) => SameOutsideCore(v, v', SignExtendLE(b, 4), lo, hi);
    case ArgLongLong(l) => SameOutsidePair(v, v', l, lo, hi);
    case ArgFloat(f) => SameOutsideCore(v, v', f, lo, hi);
    case ArgDouble(d) => SameOutsidePair(v, v', d, lo, hi);
  }

  lemma {:induction false} SameOutsideAll(v: Vm, v': Vm, args: seq<Arg>, lo: nat, hi: nat)
    requires v.Valid() && v'.Valid() && ValidArgs(args) && SameOutside(v, v', lo, hi)
    ensures SameOutside(PlaceAll(v, args), PlaceAll(v', args), lo, hi)
    decreases |args|
  {
    if args != [] {
      SameOutsideStep(v, v', args[0], lo, hi);
      SameOutsideAll(Place(v, args[0]), Place(v', args[0]), args[1..], lo, hi);
    }
  }

  /** Images of VMs that differ only behind the core registers, or only within them. */
  lemma SameRegisters(v: Vm, v': Vm, lo: nat, hi: nat)
    requires v.Valid() && v'.Valid() && SameOutside(v, v', lo, hi) && 16 <= lo
    ensures Image(v).regs == Image(v').regs
  {
    forall k: nat | k <= 12
      ensures Load(v.vec.mem, k, 4) == Load(v'.vec.mem, k, 4)
    {
    }
  }

  lemma SameStack(v: Vm, v': Vm, lo: nat, hi: nat)
    requires v.Valid() && v'.Valid() && SameOutside(v, v', lo, hi) && hi <= 16
    ensures Image(v).stack == Image(v').stack
  {
  }

  ghost predicate IsImage(a: Args, vm: Vm)
    requires vm.Valid()
  {
    SameImage(a, Image(vm))
  }

  lemma ImageHolds(a: Args, vm: Vm)
    requires a.Valid() && vm.Valid() && IsImage(a, vm) && vm.vec.size <= |vm.vec.mem|
    ensures Holds(a, vm)
  {
  }

  /** Where a misread value goes: a core register the callback has passed, or the stack. */
  function Low(vm: Vm, k: Kind): nat {
    if k == Core then 12 else if k == Single then vm.vec.size else Align8(vm.vec.size)
  }

  function High(vm: Vm, k: Kind): nat {
    if k == Core then 16 else Low(vm, k) + 8
  }

  lemma DifferThere(vm: Vm, k: Kind, rc: nat)
    requires vm.Valid() && CoreInStep(vm.i, rc) && rc <= 4 && !SafeKind(vm.Count(), rc, k) && StepRoom(vm, k)
    ensures SameOutside(Place(vm, Zero(k)), Place(vm, One(k)), Low(vm, k), High(vm, k))
  {
  }

  lemma SpilledReadsRegisters(a: Args, b: Args)
    requires a.Valid() && b.Valid() && a.rc == b.rc && a.regs == b.regs
    ensures a.fc == b.fc == 16 && a.rc < 4 ==> FetchFloat(a).0 == FetchFloat(b).0
    ensures NextDoubleReg(a) == NextDoubleReg(b) == 16 && a.rc < 3 ==> FetchDouble(a).0 == FetchDouble(b).0
  {
  }

  /** The images of two calls that differ in one value agree where the callback looks for it. */
  lemma SameWhereRead(vm: Vm, k: Kind, rc: nat, rest: seq<Arg>)
    requires vm.Valid() && ValidArgs(rest) && CoreInStep(vm.i, rc) && rc <= 4
    requires !SafeKind(vm.Count(), rc, k) && StepRoom(vm, k)
    ensures var f, f' := PlaceAll(Place(vm, Zero(k)), rest), PlaceAll(Place(vm, One(k)), rest);
            if k == Core then Image(f).stack == Image(f').stack else Image(f).regs == Image(f').regs
  {
    var v, v' := Place(vm, Zero(k)), Place(vm, One(k));
    var lo, hi := Low(vm, k), High(vm, k);
    DifferThere(vm, k, rc);
    SameOutsideAll(v, v', rest, lo, hi);
    if k == Core {
      SameStack(PlaceAll(v, rest), PlaceAll(v', rest), lo, hi);
    } else {
      SameRegisters(PlaceAll(v, rest), PlaceAll(v', rest), lo, hi);
    }
  }

  /** Callbacks at the same unsafe position, whose images agree there, read the same. */
  lemma SameFetch(vm: Vm, k: Kind, a: Args, b: Args)
    requires vm.Valid() && a.Valid() && b.Valid() && InStep(vm, a) && InStep(vm, b) && a.rc == b.rc
    requires !SafeKind(vm.Count(), a.rc, k)
    requires if k == Core then a.stack == b.stack else a.regs == b.regs
    ensures Fetch(a, WantFor(Zero(k))).0 == Fetch(b, WantFor(One(k))).0
  {
    if k != Core {
      SpilledReadsRegisters(a, b);
    }
  }

  /** At an unsafe position the callback reads the same for both values. */
  lemma SameRead(vm: Vm, k: Kind, rest: seq<Arg>, a: Args, b: Args)
    requires vm.Valid() && a.Valid() && b.Valid() && ValidArgs(rest)
    requires InStep(vm, a) && InStep(vm, b) && a.rc == b.rc
    requires !SafeKind(vm.Count(), a.rc, k) && StepRoom(vm, k)
    requires IsImage(a, PlaceAll(Place(vm, Zero(k)), rest)) && IsImage(b, PlaceAll(Place(vm, One(k)), rest))
    ensures Fetch(a, WantFor(Zero(k))).0 == Fetch(b, WantFor(One(k))).0
  {
    SameWhereRead(vm, k, a.rc, rest);
    SameFetch(vm, k, a, b);
  }

  lemma {:induction false} NotBoth(vm: Vm, kinds: seq<Kind>, a: Args, b: Args, args: seq<Arg>, args': seq<Arg>)
    requires vm.Valid() && a.Valid() && b.Valid() && vm.vec.size <= |vm.vec.mem|
    requires InStep(vm, a) && InStep(vm, b) && a.rc == b.rc
    requires Room(vm.Count(), vm.vec.total, kinds) && !Safe(vm.Count(), a.rc, kinds)
    requires args == Witness(vm.Count(), a.rc, kinds, Zero) && args' == Witness(vm.Count(), a.rc, kinds, One)
    requires ValidArgs(args) && ValidArgs(args') && Kinds(args) == Kinds(args') == kinds
    requires IsImage(a, PlaceAll(vm, args)) && IsImage(b, PlaceAll(vm, args'))
    ensures !(Delivers(a, args) && Delivers(b, args'))
    decreases |kinds|
  {
    if !SafeKind(vm.Count(), a.rc, kinds[0]) {
      assert args[1..] == Zeros(kinds[1..]) == args'[1..];
      SameRead(vm, kinds[0], args[1..], a, b);
    } else {
      var x := args[0];
      var c, rc := Next(vm.Count(), kinds[0]), NextRc(vm.Count(), a.rc, kinds[0]);
      assert x == args'[0] && args[1..] == Witness(c, rc, kinds[1..], Zero) && args'[1..] == Witness(c, rc, kinds[1..], One);
      WitnessKinds(c, rc, kinds[1..], Zero);
      WitnessKinds(c, rc, kinds[1..], One);
      SafeHead(vm, args, a);
      SafeHead(vm, args', b);
      NotBoth(Place(vm, x), kinds[1..], Fetch(a, WantFor(x)).1, Fetch(b, WantFor(x)).1, args[1..], args'[1..]);
    }
  }

  /** A safe argument leaves both sides in step. */
  lemma SafeHead(vm: Vm, args: seq<Arg>, a: Args)
    requires vm.Valid() && ValidArgs(args) && args != [] && a.Valid() && InStep(vm, a) && vm.vec.size <= |vm.vec.mem|
    requires Room(vm.Count(), vm.vec.total, Kinds(args)) && SafeKind(vm.Count(), a.rc, KindOf(args[0]))
    requires IsImage(a, PlaceAll(vm, args))
    ensures var (v, a', x) := (Place(vm, args[0]), Fetch(a, WantFor(args[0])).1, args[0]);
            && InStep(v, a') && SameImage(a, a') && a'.rc == NextRc(vm.Count(), a.rc, KindOf(x))
            && v.Count() == Next(vm.Count(), KindOf(x)) && v.vec.total == vm.vec.total && v.vec.size <= |v.vec.mem|
  {
    PlaceCounts(vm, args[0]);
    assert Kinds(args)[1..] == Kinds(args[1..]);
    SizeBound(vm, args);
    ImageHolds(a, PlaceAll(vm, args));
    PlaceAllKeeps(Place(vm, args[0]), args[1..], a);
    Step(vm, args[0], a);
  }

  lemma {:induction false} SizeBound(vm: Vm, args: seq<Arg>)
    requires vm.Valid() && ValidArgs(args) && vm.vec.size <= |vm.vec.mem|
    requires Room(vm.Count(), vm.vec.total, Kinds(args))
    ensures PlaceAll(vm, args).vec.size <= |PlaceAll(vm, args).vec.mem|
    decreases |args|
  {
    if args != [] {
      PlaceCounts(vm, args[0]);
      assert Kinds(args)[1..] == Kinds(args[1..]);
      SizeBound(Place(vm, args[0]), args[1..]);
    }
  }

  /** Once the core registers are used up, nothing that follows is unsafe. */
  lemma {:induction false} SafeOnceCoreIsFull(c: Counters, kinds: seq<Kind>)
    requires c.Valid() && c.i == 16
    ensures Safe(c, 4, kinds)
    decreases |kinds|
  {
    if kinds != [] {
      SafeOnceCoreIsFull(Next(c, kinds[0]), kinds[1..]);
    }
  }

  /** For a fresh VM with room: all arguments of the given types arrive, whatever their values, if
      and only if no floating-point argument is spilled while core registers remain that the
      callback would read instead, and no core register is used after the callback gave it up. */
  lemma RoundTripIff(vm: Vm, kinds: seq<Kind>)
    requires vm.Valid() && vm.Count() == Counters(0, 0, 0, 16) && vm.vec.size <= |vm.vec.mem|
    requires Room(vm.Count(), vm.vec.total, kinds)
    ensures Safe(vm.Count(), 0, kinds) <==>
              forall args | ValidArgs(args) && Kinds(args) == kinds :: Delivers(Image(PlaceAll(vm, args)), args)
  {
    if Safe(vm.Count(), 0, kinds) {
      forall args | ValidArgs(args) && Kinds(args) == kinds
        ensures Delivers(Image(PlaceAll(vm, args)), args)
      {
        SizeBound(vm, args);
        ImageHolds(Image(PlaceAll(vm, args)), PlaceAll(vm, args));
        RoundTrip(vm, args, Image(PlaceAll(vm, args)));
      }
    } else {
      var args, args' := Witness(vm.Count(), 0, kinds, Zero), Witness(vm.Count(), 0, kinds, One);
      WitnessKinds(vm.Count(), 0, kinds, Zero);
      WitnessKinds(vm.Count(), 0, kinds, One);
      NotBoth(vm, kinds, Image(PlaceAll(vm, args)), Image(PlaceAll(vm, args')), args, args');
    }
  }

  // ----- a list that does not arrive -----

  const NINE_DOUBLES: seq<Kind> := seq(9, _ => Double)

  lemma {:induction false} DoublesUnsafe(c: Counters, kinds: seq<Kind>)
    requires c.Valid() && c.d + 2 * |kinds| == 18 && kinds != [] && forall k :: 0 <= k < |kinds| ==> kinds[k] == Double
    ensures !Safe(c, 0, kinds)
    decreases |kinds|
  {
    if |kinds| > 1 {
      DoublesUnsafe(Next(c, Double), kinds[1..]);
    }
  }

  lemma {:induction false} DoublesRoom(c: Counters, total: nat, kinds: seq<Kind>)
    requires c.Valid() && c.size % 8 == 0 && c.size + 8 * |kinds| <= total && forall k :: 0 <= k < |kinds| ==> kinds[k] == Double
    ensures Room(c, total, kinds)
    decreases |kinds|
  {
    if kinds != [] {
      DoublesRoom(Next(c, Double), total, kinds[1..]);
    }
  }

  /** The ninth double is spilled while no core register is in use, and the callback reads it from r0 and r1. */
  lemma NineDoublesLost(vm: Vm)
    requires vm.Valid() && vm.Count() == Counters(0, 0, 0, 16) && vm.vec.total >= 88
    ensures !Safe(vm.Count(), 0, NINE_DOUBLES)
    ensures exists args :: ValidArgs(args) && Kinds(args) == NINE_DOUBLES && !Delivers(Image(PlaceAll(vm, args)), args)
  {
    DoublesUnsafe(vm.Count(), NINE_DOUBLES);
    DoublesRoom(vm.Count(), vm.vec.total, NINE_DOUBLES);
    RoundTripIff(vm, NINE_DOUBLES);
  }
}
