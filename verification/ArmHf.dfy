/** ARM hard-float: argument placement with back-filled VFP registers
    (dyncall_callvm_arm32_arm_armhf.c) and the callback's fetching (dyncall_args_arm32.c). */
module ArmHf {
  import opened Bytes
  import opened Vector

  datatype Arg =
    | ArgBool(truth: Word4)
    | ArgInt(value: seq<byte>)       // char, short, int, long, pointer
    | ArgLongLong(quad: Word8)
    | ArgFloat(float: Word4)
    | ArgDouble(double: Word8)

  datatype Kind = Core | Core64 | Single | Double

  predicate ValidArg(x: Arg) {
    x.ArgInt? ==> |x.value| in {1, 2, 4}
  }

  predicate ValidArgs(args: seq<Arg>) {
    forall k :: 0 <= k < |args| ==> ValidArg(args[k])
  }

  function KindOf(x: Arg): Kind {
    match x
    case ArgBool(_) => Core
    case ArgInt(_) => Core
    case ArgLongLong(_) => Core64
    case ArgFloat(_) => Single
    case ArgDouble(_) => Double
  }

  // ----- counters -----

  /** The caller's counters: bytes of core registers used, next single, next double, vector size. */
  datatype Counters = Counters(i: nat, s: nat, d: nat, size: nat) {
    /** An odd `s` is a gap below `d`; an even one equals it. */
    predicate Valid() {
      && i <= 16 && i % 4 == 0 && size >= 16 && size % 4 == 0
      && s <= 16 && d <= 16 && d % 2 == 0
      && (if s % 2 == 1 then s < d else s == d)
    }
  }

  /** A 64-bit value takes an even-odd pair of core registers. */
  function Pair(i: nat): (r: nat)
    ensures i % 4 == 0 ==> i <= r <= i + 4 && r % 4 == 0 && r % 8 == 0
  {
    PairUp(i);
    8 * ((i + 4) / 8)
  }

  lemma PairUp(i: nat)
    ensures var r := 8 * ((i + 4) / 8);
            r >= 0 && (i % 4 == 0 ==> i <= r <= i + 4 && r % 4 == 0 && r % 8 == 0)
  {
    var pairs := (i + 4) / 8;
    assert 8 * pairs <= i + 4 < 8 * pairs + 8;
    if i % 4 == 0 {
      WholeWords(i / 4, pairs);
      assert i == 4 * (i / 4);
    }
  }

  lemma WholeWords(words: int, pairs: int)
    requires 8 * pairs <= 4 * words + 4 < 8 * pairs + 8
    ensures 4 * words <= 8 * pairs && 8 * pairs % 8 == 0 && 8 * pairs % 4 == 0
  {
    assert 8 * pairs == 4 * (2 * pairs);
  }

  /** The size once the stack is aligned to 8 bytes: `size += size & 4`. */
  function Align8(size: nat): (r: nat)
    ensures size <= r <= size + 4
    ensures size % 4 == 0 ==> r % 8 == 0 && (r + 8) % 4 == 0
  {
    if size % 8 >= 4 then size + 4 else size
  }

  function NextCore(c: Counters): (r: Counters)
    requires c.Valid()
    ensures r.Valid()
  {
    NextWord(c.i);
    NextWord(c.size);
    if c.i < 16 then c.(i := c.i + 4) else c.(size := c.size + 4)
  }

  lemma NextWord(n: nat)
    requires n % 4 == 0
    ensures (n + 4) % 4 == 0 && (n < 16 ==> n + 4 <= 16)
  {
  }

  function NextCore64(c: Counters): (r: Counters)
    requires c.Valid()
    ensures r.Valid()
  {
    if Pair(c.i) < 16 then c.(i := Pair(c.i) + 8) else c.(i := Pair(c.i), size := Align8(c.size) + 8)
  }

  function NextSingle(c: Counters): (r: Counters)
    requires c.Valid()
    ensures r.Valid()
  {
    if c.s < 16 then
      if c.d < c.s + 1 then c.(s := c.s + 1, d := Up2(c.s + 1)) else c.(s := c.d)
    else c.(size := c.size + 4)
  }

  function NextDouble(c: Counters): (r: Counters)
    requires c.Valid()
    ensures r.Valid()
  {
    if c.d < 16 then c.(d := c.d + 2, s := if c.s % 2 == 0 then c.d + 2 else c.s)
    else c.(s := 16, size := Align8(c.size) + 8)
  }

  function Next(c: Counters, k: Kind): (r: Counters)
    requires c.Valid()
    ensures r.Valid()
  {
    match k
    case Core => NextCore(c)
    case Core64 => NextCore64(c)
    case Single => NextSingle(c)
    case Double => NextDouble(c)
  }

  // ----- the caller -----

  /** The VM: the first 16 bytes of the vector are the core registers. */
  datatype Vm = Vm(i: nat, s: nat, d: nat, singles: seq<Word4>, vec: Vec) {
    function Count(): Counters {
      Counters(i, s, d, vec.size)
    }

    ghost predicate Valid() {
      Count().Valid() && |singles| == 16 && vec.total + 16 <= |vec.mem|
    }
  }

  function PlaceInt(vm: Vm, x: Word4): (r: Vm)
    requires vm.Valid()
    ensures r.Valid()
  {
    if vm.i < 16 then vm.(i := vm.i + 4, vec := vm.vec.(mem := Store(vm.vec.mem, vm.i, x)))
    else vm.(vec := VecAppend(vm.vec, x))
  }

  function PlaceLongLong(vm: Vm, x: Word8): (r: Vm)
    requires vm.Valid()
    ensures r.Valid()
  {
    var i := Pair(vm.i);
    if i < 16 then vm.(i := i + 8, vec := vm.vec.(mem := Store(vm.vec.mem, i, x)))
    else vm.(i := i, vec := VecAppend(VecSkip(vm.vec, Align8(vm.vec.size) - vm.vec.size), x))
  }

  function PlaceFloat(vm: Vm, x: Word4): (r: Vm)
    requires vm.Valid()
    ensures r.Valid()
  {
    if vm.s < 16 then
      var filled := vm.(singles := vm.singles[vm.s := x]);
      if vm.d < vm.s + 1 then filled.(s := vm.s + 1, d := Up2(vm.s + 1)) else filled.(s := vm.d)
    else vm.(vec := VecAppend(vm.vec, x))
  }

  function PlaceDouble(vm: Vm, x: Word8): (r: Vm)
    requires vm.Valid()
    ensures r.Valid()
  {
    if vm.d < 16 then
      vm.(singles := vm.singles[vm.d := x[..4]][vm.d + 1 := x[4..]],
          d := vm.d + 2, s := if vm.s % 2 == 0 then vm.d + 2 else vm.s)
    else vm.(s := 16, vec := VecAppend(VecSkip(vm.vec, Align8(vm.vec.size) - vm.vec.size), x))
  }

  function Place(vm: Vm, x: Arg): (r: Vm)
    requires vm.Valid() && ValidArg(x)
    ensures r.Valid()
  {
    match x
    case ArgBool(b) => PlaceInt(vm, b)
    case ArgInt(b) => PlaceInt(vm, SignExtendLE(b, 4))
    case ArgLongLong(l) => PlaceLongLong(vm, l)
    case ArgFloat(v) => PlaceFloat(vm, v)
    case ArgDouble(v) => PlaceDouble(vm, v)
  }

  function PlaceAll(vm: Vm, args: seq<Arg>): (r: Vm)
    requires vm.Valid() && ValidArgs(args)
    ensures r.Valid()
    decreases |args|
  {
    if args == [] then vm else PlaceAll(Place(vm, args[0]), args[1..])
  }

  /** Each append along the way fits into `total` bytes. */
  predicate Room(c: Counters, total: nat, kinds: seq<Kind>)
    requires c.Valid()
    decreases |kinds|
  {
    kinds != [] ==>
      && (Next(c, kinds[0]).size == c.size || Next(c, kinds[0]).size <= total)
      && Room(Next(c, kinds[0]), total, kinds[1..])
  }

  // ----- the callback -----

  /** `DCArgs`: counters, received registers, and the stack, whose pointer counts 4-byte words from
      an 8-byte boundary. */
  datatype Args = Args(sp: nat, rc: nat, fc: nat, dc: nat, regs: seq<Word4>, singles: seq<Word4>, stack: seq<byte>) {
    predicate Valid() {
      rc <= 4 && fc <= 16 && dc <= 16 && dc % 2 == 0 && |regs| == 4 && |singles| == 16
    }
  }

  datatype Got = GotBool(value: bool) | GotBytes(bytes: seq<byte>)

  function Align64(a: Args): (r: Args)
    requires a.Valid()
    ensures r.Valid()
  {
    var rc := if a.rc < 4 then Up2(a.rc) else a.rc;
    a.(rc := rc, sp := if rc >= 4 && a.sp % 2 == 1 then a.sp + 1 else a.sp)
  }

  function FetchWord(a: Args): (r: (Word4, Args))
    requires a.Valid()
    ensures r.1.Valid()
  {
    if a.rc < 4 then (a.regs[a.rc], a.(rc := a.rc + 1))
    else (Peek(a.stack, 4 * a.sp, 4), a.(sp := a.sp + 1))
  }

  function Join(lo: Word4, hi: Word4): Word8 {
    lo + hi
  }

  function FetchTwoWords(a: Args): (r: (Word8, Args))
    requires a.Valid()
    ensures r.1.Valid()
  {
    var (lo, a') := FetchWord(Align64(a));
    var (hi, a'') := FetchWord(a');
    (Join(lo, hi), a'')
  }

  function FetchFloat(a: Args): (r: (Word4, Args))
    requires a.Valid()
    ensures r.1.Valid()
  {
    if a.fc < 16 then
      var fc := a.fc + 1;
      (a.singles[a.fc], a.(fc := if fc % 2 == 0 && fc < a.dc then a.dc else fc))
    else FetchWord(a)
  }

  function FetchDouble(a: Args): (r: (Word8, Args))
    requires a.Valid()
    ensures r.1.Valid()
  {
    var dc := if a.dc < a.fc then Up2(a.fc) else a.dc;
    if dc < 16 then
      (Join(a.singles[dc], a.singles[dc + 1]), a.(dc := dc + 2, fc := if a.fc % 2 == 0 then dc + 2 else a.fc))
    else FetchTwoWords(a.(dc := dc, fc := 16))
  }

  /** What the handler asks for. */
  datatype Want = WantBool | WantInt(width: nat) | WantLongLong | WantFloat | WantDouble

  function Fetch(a: Args, w: Want): (r: (Got, Args))
    requires a.Valid() && (w.WantInt? ==> w.width <= 4)
    ensures r.1.Valid()
  {
    match w
    case WantBool => var (v, a') := FetchWord(a); (GotBool(!IsZero(v)), a')
    case WantInt(n) => var (v, a') := FetchWord(a); (GotBytes(v[..n]), a')
    case WantLongLong => var (v, a') := FetchTwoWords(a); (GotBytes(v), a')
    case WantFloat => var (v, a') := FetchFloat(a); (GotBytes(v), a')
    case WantDouble => var (v, a') := FetchDouble(a); (GotBytes(v), a')
  }

  function WantFor(x: Arg): Want {
    match x
    case ArgBool(_) => WantBool
    case ArgInt(b) => WantInt(|b|)
    case ArgLongLong(_) => WantLongLong
    case ArgFloat(_) => WantFloat
    case ArgDouble(_) => WantDouble
  }

  function Sent(x: Arg): Got {
    match x
    case ArgBool(b) => GotBool(!IsZero(b))
    case ArgInt(b) => GotBytes(b)
    case ArgLongLong(l) => GotBytes(l)
    case ArgFloat(v) => GotBytes(v)
    case ArgDouble(v) => GotBytes(v)
  }

  /** The handler asks for what the caller passed, and gets it. */
  predicate Delivers(a: Args, args: seq<Arg>)
    requires a.Valid() && ValidArgs(args)
    decreases |args|
  {
    args != [] ==>
      var (got, a') := Fetch(a, WantFor(args[0]));
      got == Sent(args[0]) && Delivers(a', args[1..])
  }

  /** What the call kernel hands over: registers from the buffers, the stack from the vector. */
  function Image(vm: Vm): (a: Args)
    requires vm.Valid()
    ensures a.Valid()
  {
    var mem := vm.vec.mem;
    Args(0, 0, 0, 0, [Load(mem, 0, 4), Load(mem, 4, 4), Load(mem, 8, 4), Load(mem, 12, 4)], vm.singles, mem[16..])
  }
}
