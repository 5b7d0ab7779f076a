/** x86: cdecl, stdcall and the two fastcall conventions.  In the last three the callee removes the
    arguments, so three independent pieces of code have to count the same bytes: the caller that
    pushes them (dyncall_callvm_x86.c), the fetch functions that consume them (dyncall_args_x86.c)
    and the signature scan that computes the cleanup (dyncall_callback_x86.c). */
module X86 {
  import opened Bytes
  import opened Vector

  datatype Conv = Cdecl | Std | FastMs | FastGnu

  predicate Fast(conv: Conv) {
    conv.FastMs? || conv.FastGnu?
  }

  /** The fastcall vector starts with the images of ECX and EDX. */
  function Base(conv: Conv): nat {
    if Fast(conv) then 8 else 0
  }

  datatype Arg =
    | ArgBool(truth: Word4)
    | ArgInt(value: seq<byte>)       // char, short, int, long, pointer
    | ArgFloat(float: Word4)
    | ArgLongLong(quad: Word8)
    | ArgDouble(double: Word8)

  predicate ValidArg(x: Arg) {
    x.ArgInt? ==> |x.value| in {1, 2, 4}
  }

  predicate ValidArgs(args: seq<Arg>) {
    forall k :: 0 <= k < |args| ==> ValidArg(args[k])
  }

  /** Arguments that may go to a register. */
  predicate Integral(x: Arg) {
    x.ArgBool? || x.ArgInt?
  }

  /** What an argument occupies as the caller pushes it. */
  function Pushed(x: Arg): seq<byte>
    requires ValidArg(x)
  {
    match x
    case ArgBool(b) => b
    case ArgInt(b) => SignExtendLE(b, 4)
    case ArgFloat(v) => v
    case ArgLongLong(l) => l
    case ArgDouble(v) => v
  }

  function Width(x: Arg): nat {
    if x.ArgLongLong? || x.ArgDouble? then 8 else 4
  }

  // ----- the caller -----

  datatype Vm = Vm(regs: nat, vec: Vec) {
    predicate Valid(conv: Conv) {
      && regs <= 2 && vec.total <= |vec.mem|
      && Base(conv) <= vec.size && Base(conv) <= |vec.mem|
    }
  }

  function Place(conv: Conv, vm: Vm, x: Arg): (r: Vm)
    requires vm.Valid(conv) && ValidArg(x)
    ensures r.Valid(conv)
  {
    if Fast(conv) && Integral(x) && vm.regs < 2 then
      Vm(vm.regs + 1, vm.vec.(mem := Store(vm.vec.mem, 4 * vm.regs, Pushed(x))))
    else if conv.FastGnu? && x.ArgLongLong? then
      Vm(2, VecAppend(vm.vec, Pushed(x)))
    else
      vm.(vec := VecAppend(vm.vec, Pushed(x)))
  }

  function PlaceAll(conv: Conv, vm: Vm, args: seq<Arg>): (r: Vm)
    requires vm.Valid(conv) && ValidArgs(args)
    ensures r.Valid(conv)
    decreases |args|
  {
    if args == [] then vm else PlaceAll(conv, Place(conv, vm, args[0]), args[1..])
  }

  datatype Counters = Counters(regs: nat, size: nat)

  function Count(vm: Vm): Counters {
    Counters(vm.regs, vm.vec.size)
  }

  function Next(conv: Conv, c: Counters, x: Arg): Counters {
    if Fast(conv) && Integral(x) && c.regs < 2 then c.(regs := c.regs + 1)
    else Counters(if conv.FastGnu? && x.ArgLongLong? then 2 else c.regs, c.size + Width(x))
  }

  function SizeAfter(conv: Conv, c: Counters, args: seq<Arg>): nat
    decreases |args|
  {
    if args == [] then c.size else SizeAfter(conv, Next(conv, c, args[0]), args[1..])
  }

  // ----- the callback -----

  /** `DCArgs`; the stack pointer counts bytes from where the caller's vector would begin. */
  datatype Args = Args(sp: nat, fast: seq<Word4>, count: nat, stack: seq<byte>) {
    predicate Valid() {
      |fast| == 2
    }
  }

  datatype Want = WantBool | WantInt(width: nat) | WantFloat | WantLongLong | WantDouble

  function WantFor(x: Arg): Want {
    match x
    case ArgBool(_) => WantBool
    case ArgInt(b) => WantInt(|b|)
    case ArgFloat(_) => WantFloat
    case ArgLongLong(_) => WantLongLong
    case ArgDouble(_) => WantDouble
  }

  function FetchInt(conv: Conv, a: Args): (r: (Word4, Args))
    requires a.Valid()
    ensures r.1.Valid()
  {
    if Fast(conv) && a.count < 2 then (a.fast[a.count], a.(count := a.count + 1))
    else (Peek(a.stack, a.sp, 4), a.(sp := a.sp + 4))
  }

  /** Under the GNU convention a long long takes both registers out of use; the count may pass 2. */
  function FetchLongLong(conv: Conv, a: Args): (r: (Word8, Args))
    requires a.Valid()
    ensures r.1.Valid()
  {
    (Peek(a.stack, a.sp, 8), a.(sp := a.sp + 8, count := if conv.FastGnu? then a.count + 2 else a.count))
  }

  function Truth(b: Word4): Word4 {
    [if IsZero(b) then 0 else 1, 0, 0, 0]
  }

  function Fetch(conv: Conv, a: Args, w: Want): (r: (seq<byte>, Args))
    requires a.Valid() && (w.WantInt? ==> w.width <= 4)
    ensures r.1.Valid()
  {
    match w
    case WantBool => var (x, a') := FetchInt(conv, a); (Truth(x), a')
    case WantInt(n) => var (x, a') := FetchInt(conv, a); (x[..n], a')
    case WantFloat => (Peek(a.stack, a.sp, 4), a.(sp := a.sp + 4))
    case WantLongLong => FetchLongLong(conv, a)
    case WantDouble => (Peek(a.stack, a.sp, 8), a.(sp := a.sp + 8))
  }

  function Sent(x: Arg): seq<byte> {
    match x
    case ArgBool(b) => Truth(b)
    case ArgInt(b) => b
    case ArgFloat(v) => v
    case ArgLongLong(l) => l
    case ArgDouble(v) => v
  }

  /** The fetches return the arguments, and leave the stack pointer at `end`. */
  predicate Delivers(conv: Conv, a: Args, args: seq<Arg>, end: nat)
    requires a.Valid() && ValidArgs(args)
    decreases |args|
  {
    if args == [] then a.sp == end
    else
      var (got, a') := Fetch(conv, a, WantFor(args[0]));
      got == Sent(args[0]) && Delivers(conv, a', args[1..], end)
  }

  /** What the call kernel hands over: the first two words in ECX and EDX, the rest on the stack. */
  function Image(conv: Conv, vm: Vm): Args
    requires vm.Valid(conv)
  {
    var fast := if Fast(conv) then [Load(vm.vec.mem, 0, 4), Load(vm.vec.mem, 4, 4)] else [[0, 0, 0, 0], [0, 0, 0, 0]];
    Args(Base(conv), fast, 0, vm.vec.mem)
  }

  // ----- the signature scan -----

  /** The signature character of a type the fetch functions know. */
  predicate Describes(ch: char, x: Arg) {
    match x
    case ArgBool(_) => ch == 'B'
    case ArgInt(b) =>
      (ch in "cC" && |b| == 1) || (ch in "sS" && |b| == 2) || (ch in "iIjJpZ" && |b| == 4)
    case ArgFloat(_) => ch == 'f'
    case ArgLongLong(_) => ch in "lL"
    case ArgDouble(_) => ch == 'd'
  }

  /** `sig` lists the types of `args`, then ends the argument list. */
  predicate Lists(sig: string, args: seq<Arg>)
    decreases |args|
  {
    sig != [] &&
    if args == [] then sig[0] == ')' else Describes(sig[0], args[0]) && Lists(sig[1..], args[1..])
  }

  /** One character's part in the cleanup: bytes, and registers in use afterwards. */
  function Scan(conv: Conv, ch: char, regs: nat): (nat, nat) {
    match conv
    case Cdecl => (0, regs)
    case Std => (if ch in "BcsijpCSIJZf" then 4 else if ch in "dlL" then 8 else 0, regs)
    case FastMs =>
      if ch in "BcsijpCSIJZ" then (if regs < 2 then (0, regs + 1) else (4, regs))
      else (if ch == 'f' then 4 else if ch in "dlL" then 8 else 0, regs)
    case FastGnu =>
      if ch == 'f' then (4, regs)
      else if ch == 'd' then (8, regs)
      else if ch in "lL" then (8, 2)
      else if regs < 2 then (0, regs + 1) else (4, regs)
  }

  /** The bytes the callee removes for the arguments still listed in `sig`. */
  function Cleanup(conv: Conv, sig: string, regs: nat): nat
    decreases |sig|
  {
    if sig == [] || sig[0] == ')' then 0
    else
      var (bytes, regs') := Scan(conv, sig[0], regs);
      bytes + Cleanup(conv, sig[1..], regs')
  }

  /** `dcbCleanupSize_x86_std`. */
  method CleanupSizeStd(sig: string) returns (size: nat)
    requires ')' in sig
    ensures size == Cleanup(Std, sig, 0)
  {
    size := 0;
    var ptr := 0;
    while sig[ptr] != ')'
      invariant ptr < |sig| && ')' in sig[ptr..]
      invariant size + Cleanup(Std, sig[ptr..], 0) == Cleanup(Std, sig, 0)
      decreases |sig| - ptr
    {
      assert sig[ptr..][0] == sig[ptr] && sig[ptr..][1..] == sig[ptr + 1..];
      if sig[ptr] in "BcsijpCSIJZf" {
        size := size + 4;
      } else if sig[ptr] in "dlL" {
        size := size + 8;
      }
      ptr := ptr + 1;
    }
  }

  /** `dcbCleanupSize_x86_fast_ms`. */
  method CleanupSizeFastMs(sig: string) returns (size: nat)
    requires ')' in sig
    ensures size == Cleanup(FastMs, sig, 0)
  {
    size := 0;
    var regs := 0;
    var ptr := 0;
    while sig[ptr] != ')'
      invariant ptr < |sig| && ')' in sig[ptr..]
      invariant size + Cleanup(FastMs, sig[ptr..], regs) == Cleanup(FastMs, sig, 0)
      decreases |sig| - ptr
    {
      assert sig[ptr..][0] == sig[ptr] && sig[ptr..][1..] == sig[ptr + 1..];
      if sig[ptr] in "BcsijpCSIJZ" {
        if regs < 2 {
          regs := regs + 1;
        } else {
          size := size + 4;
        }
      } else if sig[ptr] == 'f' {
        size := size + 4;
      } else if sig[ptr] in "dlL" {
        size := size + 8;
      }
      ptr := ptr + 1;
    }
  }

  /** `dcbCleanupSize_x86_fast_gnu`. */
  method CleanupSizeFastGnu(sig: string) returns (size: nat)
    requires ')' in sig
    ensures size == Cleanup(FastGnu, sig, 0)
  {
    size := 0;
    var regs := 0;
    var ptr := 0;
    while sig[ptr] != ')'
      invariant ptr < |sig| && ')' in sig[ptr..]
      invariant size + Cleanup(FastGnu, sig[ptr..], regs) == Cleanup(FastGnu, sig, 0)
      decreases |sig| - ptr
    {
      assert sig[ptr..][0] == sig[ptr] && sig[ptr..][1..] == sig[ptr + 1..];
      if sig[ptr] == 'f' {
        size := size + 4;
      } else if sig[ptr] == 'd' {
        size := size + 8;
      } else if sig[ptr] in "lL" {
        regs := 2;
        size := size + 8;
      } else if regs < 2 {
        regs := regs + 1;
      } else {
        size := size + 4;
      }
      ptr := ptr + 1;
    }
  }

  /** `dcbCleanupSize_x86_this_ms`, which adds up the same as `dcbCleanupSize_x86_std`. */
  method CleanupSizeThisMs(sig: string) returns (size: nat)
    requires ')' in sig
    ensures size == Cleanup(Std, sig, 0)
  {
    size := 0;
    var ptr := 0;
    while sig[ptr] != ')'
      invariant ptr < |sig| && ')' in sig[ptr..]
      invariant size + Cleanup(Std, sig[ptr..], 0) == Cleanup(Std, sig, 0)
      decreases |sig| - ptr
    {
      assert sig[ptr..][0] == sig[ptr] && sig[ptr..][1..] == sig[ptr + 1..];
      if sig[ptr] in "BcsijpCSIJZf" {
        size := size + 4;
      } else if sig[ptr] in "dlL" {
        size := size + 8;
      }
      ptr := ptr + 1;
    }
  }

  /** The table of fetch functions a callback uses; thiscall has its own, and other modes set none. */
  datatype Table = Plain(conv: Conv) | ThisMs | Unset

  /** `dcbInitCallback2`: the table and the cleanup, or nothing where it leaves both unset.  (The
      platform's default thiscall, `*`, selects a table on one compiler only, and counts as unset.) */
  method InitCallback(sig: string) returns (table: Table, cleanup: nat)
    requires ')' in Types(sig)
    ensures table == Selected(sig)
    ensures table.Plain? ==> cleanup == Cleanup(table.conv, Types(sig), 0)
    ensures table.ThisMs? ==> cleanup == Cleanup(Std, Types(sig), 0)
  {
    table, cleanup := Plain(Cdecl), 0;
    var ptr := sig;
    if sig[0] == '_' {
      ptr := sig[2..];
      match sig[1] {
        case 'c' => table := Plain(Cdecl);
        case '#' => table := Plain(Cdecl);
        case 's' => table := Plain(Std);
        case 'F' => table := Plain(FastMs);
        case 'f' => table := Plain(FastGnu);
        case '+' => table := ThisMs;
        case _ => table := Unset;
      }
    }
    match table {
      case Plain(Cdecl) => CdeclCleansNothing(ptr, 0);
      case Plain(Std) => cleanup := CleanupSizeStd(ptr);
      case Plain(FastMs) => cleanup := CleanupSizeFastMs(ptr);
      case Plain(FastGnu) => cleanup := CleanupSizeFastGnu(ptr);
      case ThisMs => cleanup := CleanupSizeThisMs(ptr);
      case Unset =>
    }
  }

  function Selected(sig: string): Table {
    if |sig| < 2 || sig[0] != '_' then Plain(Cdecl)
    else if sig[1] == 'c' || sig[1] == '#' then Plain(Cdecl)
    else if sig[1] == 's' then Plain(Std)
    else if sig[1] == 'F' then Plain(FastMs)
    else if sig[1] == 'f' then Plain(FastGnu)
    else if sig[1] == '+' then ThisMs
    else Unset
  }

  /** A signature without its calling convention prefix. */
  function Types(sig: string): string {
    if sig != [] && sig[0] == '_' then (if |sig| < 2 then [] else sig[2..]) else sig
  }

  lemma {:induction false} CdeclCleansNothing(sig: string, regs: nat)
    ensures Cleanup(Cdecl, sig, regs) == 0
    decreases |sig|
  {
    if sig != [] && sig[0] != ')' {
      CdeclCleansNothing(sig[1..], regs);
    }
  }

  // ----- the three counts agree -----

  /** One signature character counts what the caller does with an argument of that type. */
  lemma ScanIsNext(conv: Conv, c: Counters, x: Arg, ch: char)
    requires !conv.Cdecl? && ValidArg(x) && Describes(ch, x) && c.regs <= 2
    ensures ch != ')' && Next(conv, c, x) == Counters(Scan(conv, ch, c.regs).1, c.size + Scan(conv, ch, c.regs).0)
  {
  }

  /** The scan of a signature that lists the arguments counts the bytes the caller pushes. */
  lemma {:induction false} CleanupIsPushed(conv: Conv, c: Counters, args: seq<Arg>, sig: string)
    requires !conv.Cdecl? && ValidArgs(args) && Lists(sig, args) && c.regs <= 2
    ensures SizeAfter(conv, c, args) == c.size + Cleanup(conv, sig, c.regs)
    decreases |args|
  {
    if args != [] {
      ScanIsNext(conv, c, args[0], sig[0]);
      CleanupIsPushed(conv, Next(conv, c, args[0]), args[1..], sig[1..]);
    }
  }

  lemma {:induction false} SizeGrows(conv: Conv, c: Counters, args: seq<Arg>)
    ensures c.size <= SizeAfter(conv, c, args)
    decreases |args|
  {
    if args != [] {
      SizeGrows(conv, Next(conv, c, args[0]), args[1..]);
    }
  }

  ghost predicate InStep(vm: Vm, a: Args) {
    a.sp == vm.vec.size && vm.regs == (if a.count < 2 then a.count else 2)
  }

  /** The image holds what was placed so far. */
  ghost predicate Holds(conv: Conv, a: Args, vm: Vm)
    requires a.Valid() && vm.Valid(conv)
  {
    && (Fast(conv) ==> forall k: nat :: k < vm.regs ==> a.fast[k] == Load(vm.vec.mem, 4 * k, 4))
    && |a.stack| == |vm.vec.mem|
    && forall k :: Base(conv) <= k < vm.vec.size && k < |vm.vec.mem| ==> a.stack[k] == vm.vec.mem[k]
  }

  lemma PlaceCounts(conv: Conv, vm: Vm, x: Arg)
    requires vm.Valid(conv) && ValidArg(x) && Next(conv, Count(vm), x).size <= vm.vec.total
    ensures Count(Place(conv, vm, x)) == Next(conv, Count(vm), x) && Place(conv, vm, x).vec.total == vm.vec.total
  {
  }

  lemma PlaceKeeps(conv: Conv, vm: Vm, x: Arg, a: Args)
    requires vm.Valid(conv) && ValidArg(x) && a.Valid() && Next(conv, Count(vm), x).size <= vm.vec.total
    requires Holds(conv, a, Place(conv, vm, x))
    ensures Holds(conv, a, vm)
  {
    var r := Place(conv, vm, x);
    if Fast(conv) {
      forall k: nat | k < vm.regs
        ensures a.fast[k] == Load(vm.vec.mem, 4 * k, 4)
      {
        assert Load(r.vec.mem, 4 * k, 4) == Load(vm.vec.mem, 4 * k, 4);
      }
    }
  }

  lemma {:induction false} PlaceAllKeeps(conv: Conv, vm: Vm, args: seq<Arg>, a: Args)
    requires vm.Valid(conv) && ValidArgs(args) && a.Valid() && SizeAfter(conv, Count(vm), args) <= vm.vec.total
    requires Holds(conv, a, PlaceAll(conv, vm, args))
    ensures Holds(conv, a, vm)
    decreases |args|
  {
    if args != [] {
      SizeGrows(conv, Next(conv, Count(vm), args[0]), args[1..]);
      PlaceCounts(conv, vm, args[0]);
      PlaceAllKeeps(conv, Place(conv, vm, args[0]), args[1..], a);
      PlaceKeeps(conv, vm, args[0], a);
    }
  }

  /** The argument is to go to ECX or EDX. */
  predicate InRegister(conv: Conv, x: Arg, regs: nat) {
    Fast(conv) && Integral(x) && regs < 2
  }

  /** The image holds an argument in the register, or on the stack, that the callback turns to. */
  lemma Found(conv: Conv, vm: Vm, x: Arg, a: Args)
    requires vm.Valid(conv) && ValidArg(x) && a.Valid() && InStep(vm, a)
    requires Next(conv, Count(vm), x).size <= vm.vec.total && Holds(conv, a, Place(conv, vm, x))
    ensures if InRegister(conv, x, vm.regs) then a.fast[vm.regs] == Pushed(x) else Peek(a.stack, a.sp, Width(x)) == Pushed(x)
  {
    if InRegister(conv, x, vm.regs) {
      StoreLoad(vm.vec.mem, 4 * vm.regs, Pushed(x));
    } else {
      FoundOnStack(conv, vm, x, a);
    }
  }

  lemma FoundOnStack(conv: Conv, vm: Vm, x: Arg, a: Args)
    requires vm.Valid(conv) && ValidArg(x) && a.Valid() && InStep(vm, a) && !InRegister(conv, x, vm.regs)
    requires Next(conv, Count(vm), x).size <= vm.vec.total && Holds(conv, a, Place(conv, vm, x))
    ensures Peek(a.stack, a.sp, Width(x)) == Pushed(x)
  {
    var v := Place(conv, vm, x).vec;
    StoreLoad(vm.vec.mem, vm.vec.size, Pushed(x));
    assert v == VecAppend(vm.vec, Pushed(x));
    SameRead(a.stack, v.mem, Base(conv), v.size, a.sp, Width(x));
  }

  lemma SameRead(stack: seq<byte>, mem: seq<byte>, lo: nat, hi: nat, at: nat, n: nat)
    requires |stack| == |mem| && hi <= |mem| && lo <= at && at + n <= hi
    requires forall k :: lo <= k < hi ==> stack[k] == mem[k]
    ensures Peek(stack, at, n) == Load(mem, at, n)
  {
  }

  /** Both sides make the same choice between register and stack. */
  lemma CountersStep(conv: Conv, vm: Vm, x: Arg, a: Args)
    requires vm.Valid(conv) && ValidArg(x) && a.Valid() && InStep(vm, a)
    requires Next(conv, Count(vm), x).size <= vm.vec.total
    ensures var a' := Fetch(conv, a, WantFor(x)).1;
            InStep(Place(conv, vm, x), a') && a'.fast == a.fast && a'.stack == a.stack
  {
    PlaceCounts(conv, vm, x);
  }

  lemma Step(conv: Conv, vm: Vm, x: Arg, a: Args)
    requires vm.Valid(conv) && ValidArg(x) && a.Valid() && InStep(vm, a)
    requires Next(conv, Count(vm), x).size <= vm.vec.total && Holds(conv, a, Place(conv, vm, x))
    ensures var (got, a') := Fetch(conv, a, WantFor(x));
            got == Sent(x) && InStep(Place(conv, vm, x), a') && a'.fast == a.fast && a'.stack == a.stack
  {
    Found(conv, vm, x, a);
    CountersStep(conv, vm, x, a);
  }

  /** Every argument list that fits is fetched back, and the callback's stack pointer ends where the
      caller's vector does. */
  lemma {:induction false} RoundTrip(conv: Conv, vm: Vm, args: seq<Arg>, a: Args)
    requires vm.Valid(conv) && ValidArgs(args) && a.Valid() && InStep(vm, a)
    requires SizeAfter(conv, Count(vm), args) <= vm.vec.total && Holds(conv, a, PlaceAll(conv, vm, args))
    ensures Delivers(conv, a, args, SizeAfter(conv, Count(vm), args))
    decreases |args|
  {
    if args != [] {
      var next := Place(conv, vm, args[0]);
      SizeGrows(conv, Next(conv, Count(vm), args[0]), args[1..]);
      PlaceCounts(conv, vm, args[0]);
      PlaceAllKeeps(conv, next, args[1..], a);
      Step(conv, vm, args[0], a);
      RoundTrip(conv, next, args[1..], Fetch(conv, a, WantFor(args[0])).1);
    }
  }

  lemma {:induction false} PlaceAllCounts(conv: Conv, vm: Vm, args: seq<Arg>)
    requires vm.Valid(conv) && ValidArgs(args) && SizeAfter(conv, Count(vm), args) <= vm.vec.total
    ensures PlaceAll(conv, vm, args).vec.size == SizeAfter(conv, Count(vm), args)
    decreases |args|
  {
    if args != [] {
      SizeGrows(conv, Next(conv, Count(vm), args[0]), args[1..]);
      PlaceCounts(conv, vm, args[0]);
      PlaceAllCounts(conv, Place(conv, vm, args[0]), args[1..]);
    }
  }

  lemma ImageHolds(conv: Conv, vm: Vm)
    requires vm.Valid(conv)
    ensures Holds(conv, Image(conv, vm), vm)
  {
    if Fast(conv) {
      forall k: nat | k < vm.regs
        ensures Image(conv, vm).fast[k] == Load(vm.vec.mem, 4 * k, 4)
      {
        assert k == 0 || k == 1;
      }
    }
  }

  /** Pushed beyond the registers, consumed by the fetches, removed by the callee: one number. */
  lemma ThreeWayAgreement(conv: Conv, vm: Vm, args: seq<Arg>, sig: string)
    requires !conv.Cdecl? && vm.Valid(conv) && vm.regs == 0 && vm.vec.size == Base(conv)
    requires ValidArgs(args) && Lists(sig, args) && Base(conv) + Cleanup(conv, sig, 0) <= vm.vec.total
    ensures var r := PlaceAll(conv, vm, args);
            && r.vec.size == Base(conv) + Cleanup(conv, sig, 0)
            && Delivers(conv, Image(conv, r), args, Base(conv) + Cleanup(conv, sig, 0))
  {
    var r := PlaceAll(conv, vm, args);
    CleanupIsPushed(conv, Count(vm), args, sig);
    PlaceAllCounts(conv, vm, args);
    ImageHolds(conv, r);
    RoundTrip(conv, vm, args, Image(conv, r));
  }
}
