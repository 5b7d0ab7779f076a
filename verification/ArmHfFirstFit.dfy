/** The VFP register counters of both sides against the allocation rules of the AAPCS (ARM IHI 0042,
    section 6.1.2, rules C.1.vfp and C.2.vfp): the lowest free register, or free even-odd pair, is
    taken, and once an argument finds none, all that are left become unavailable. */
module ArmHfFirstFit {
  import opened Bytes
  import opened Vector
  import opened ArmHf

  /** The single-precision registers the counters leave free: the gap at an odd `s`, and those from `d` on. */
  function Free(s: nat, d: nat): set<nat> {
    set r: nat | r < 16 && IsFree(r, s, d)
  }

  predicate IsFree(r: nat, s: nat, d: nat) {
    (s % 2 == 1 && r == s) || d <= r
  }

  ghost predicate Lowest(r: nat, free: set<nat>) {
    r in free && forall x <- free :: r <= x
  }

  predicate PairIn(r: nat, free: set<nat>) {
    r % 2 == 0 && r in free && r + 1 in free
  }

  ghost predicate LowestPair(r: nat, free: set<nat>) {
    PairIn(r, free) && forall x <- free :: PairIn(x, free) ==> r <= x
  }

  /** The free registers of a VM, and of a callback, whose double counter is brought up to date late. */
  function FreeIn(vm: Vm): set<nat> {
    Free(vm.s, vm.d)
  }

  function NextDoubleReg(a: Args): nat {
    if a.dc < a.fc then Up2(a.fc) else a.dc
  }

  function FreeOut(a: Args): set<nat> {
    Free(a.fc, NextDoubleReg(a))
  }

  ghost predicate InGapOrEven(a: Args) {
    a.Valid() && (a.fc % 2 == 0 ==> NextDoubleReg(a) == a.fc)
  }

  // ----- the caller -----

  lemma PlaceFloatFirstFit(vm: Vm, x: Word4)
    requires vm.Valid()
    ensures var r, free := PlaceFloat(vm, x), FreeIn(vm);
            if free == {} then r.vec == VecAppend(vm.vec, x) && r.singles == vm.singles && FreeIn(r) == {}
            else exists k: nat :: Lowest(k, free) && r.singles == vm.singles[k := x] && r.vec == vm.vec && FreeIn(r) == free - {k}
  {
    if vm.s < 16 {
      var r := PlaceFloat(vm, x);
      assert vm.s in FreeIn(vm) && Lowest(vm.s, FreeIn(vm));
      assert FreeIn(r) == FreeIn(vm) - {vm.s};
    }
  }

  lemma PlaceDoubleFirstFit(vm: Vm, x: Word8)
    requires vm.Valid()
    ensures var r, free := PlaceDouble(vm, x), FreeIn(vm);
            if exists k <- free :: PairIn(k, free) then
              exists k: nat :: LowestPair(k, free) && r.vec == vm.vec && FreeIn(r) == free - {k, k + 1}
                          && r.singles == vm.singles[k := x[..4]][k + 1 := x[4..]]
            else r.singles == vm.singles && FreeIn(r) == {} && r.vec.size >= vm.vec.size
  {
    var r, free := PlaceDouble(vm, x), FreeIn(vm);
    if vm.d < 16 {
      assert PairIn(vm.d, free) && LowestPair(vm.d, free);
      assert FreeIn(r) == free - {vm.d, vm.d + 1};
    } else {
      assert forall k <- free :: !PairIn(k, free);
    }
  }

  // ----- the callback -----

  lemma FetchFloatFirstFit(a: Args)
    requires InGapOrEven(a)
    ensures var (v, r), free := FetchFloat(a), FreeOut(a);
            && InGapOrEven(r)
            && if free == {} then (v, r) == FetchWord(a)
               else exists k: nat :: Lowest(k, free) && k < 16 && v == a.singles[k] && FreeOut(r) == free - {k}
  {
    if a.fc < 16 {
      var r := FetchFloat(a).1;
      assert Lowest(a.fc, FreeOut(a));
      assert FreeOut(r) == FreeOut(a) - {a.fc};
    }
  }

  lemma FetchDoubleFirstFit(a: Args)
    requires InGapOrEven(a)
    ensures var (v, r), free := FetchDouble(a), FreeOut(a);
            && InGapOrEven(r)
            && if exists k <- free :: PairIn(k, free) then
                 exists k: nat :: LowestPair(k, free) && k + 1 < 16 && v == Join(a.singles[k], a.singles[k + 1])
                             && FreeOut(r) == free - {k, k + 1}
               else FreeOut(r) == {}
  {
    var r, free, d := FetchDouble(a).1, FreeOut(a), NextDoubleReg(a);
    if d < 16 {
      assert PairIn(d, free) && LowestPair(d, free);
      assert FreeOut(r) == free - {d, d + 1};
    } else {
      assert forall k <- free :: !PairIn(k, free);
    }
  }

  // ----- whole runs -----

  /** VFP registers an argument of kind `k` is placed in. */
  function Claim(c: Counters, k: Kind): set<nat> {
    if k == Single && c.s < 16 then {c.s} else if k == Double && c.d < 16 then {c.d, c.d + 1} else {}
  }

  function Claims(c: Counters, kinds: seq<Kind>): seq<set<nat>>
    requires c.Valid()
    decreases |kinds|
  {
    if kinds == [] then [] else [Claim(c, kinds[0])] + Claims(Next(c, kinds[0]), kinds[1..])
  }

  predicate Floating(k: Kind) {
    k == Single || k == Double
  }

  lemma ClaimIsTaken(c: Counters, k: Kind)
    requires c.Valid()
    ensures Claim(c, k) <= Free(c.s, c.d)
    ensures var n := Next(c, k); Free(n.s, n.d) <= Free(c.s, c.d) - Claim(c, k)
    ensures var n := Next(c, k); Floating(k) && Claim(c, k) == {} ==> Free(n.s, n.d) == {}
  {
  }

  lemma {:induction false} ClaimsAreFree(c: Counters, kinds: seq<Kind>)
    requires c.Valid()
    ensures |Claims(c, kinds)| == |kinds|
    ensures forall k :: 0 <= k < |kinds| ==> Claims(c, kinds)[k] <= Free(c.s, c.d)
    decreases |kinds|
  {
    if kinds != [] {
      ClaimIsTaken(c, kinds[0]);
      ClaimsAreFree(Next(c, kinds[0]), kinds[1..]);
    }
  }

  /** Over any run no register is given to two arguments, and after the first floating-point
      argument on the stack no register is given to a later one. */
  lemma {:induction false} NoRegisterTwice(c: Counters, kinds: seq<Kind>, i: nat, j: nat)
    requires c.Valid() && i < j < |kinds|
    ensures |Claims(c, kinds)| == |kinds|
    ensures Claims(c, kinds)[i] !! Claims(c, kinds)[j]
    ensures Floating(kinds[i]) && Claims(c, kinds)[i] == {} ==> Claims(c, kinds)[j] == {}
    decreases |kinds|
  {
    ClaimsAreFree(c, kinds);
    ClaimIsTaken(c, kinds[0]);
    ClaimsAreFree(Next(c, kinds[0]), kinds[1..]);
    if i > 0 {
      NoRegisterTwice(Next(c, kinds[0]), kinds[1..], i - 1, j - 1);
    }
  }
}
