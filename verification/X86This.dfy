/** Microsoft's thiscall on x86: the caller pushes as for cdecl, the call kernel moves the first word to
    ECX (dyncall_call_x86.S), and the callback takes its first integer from there, if it is not zero
    (dyncall_args_x86.c).  The signature scan counts that word among those to be removed. */
module X86This {
  import opened Bytes
  import opened Vector
  import opened X86

  /** `this_i32`: what ECX holds, once and unless it is zero, and else the stack. */
  function FetchThisInt(a: Args): (r: (Word4, Args))
    requires a.Valid()
    ensures r.1.Valid()
  {
    if !IsZero(a.fast[0]) then (a.fast[0], a.(fast := a.fast[0 := [0, 0, 0, 0]]))
    else (Peek(a.stack, a.sp, 4), a.(sp := a.sp + 4))
  }

  /** Everything but integers is fetched as usual. */
  function FetchThis(a: Args, w: Want): (r: (seq<byte>, Args))
    requires a.Valid() && (w.WantInt? ==> w.width <= 4)
    ensures r.1.Valid()
  {
    match w
    case WantBool => var (x, a') := FetchThisInt(a); (Truth(x), a')
    case WantInt(n) => var (x, a') := FetchThisInt(a); (x[..n], a')
    case _ => Fetch(Std, a, w)
  }

  /** The fetches return the arguments, and leave the stack pointer at `end`. */
  predicate DeliversThis(a: Args, args: seq<Arg>, end: nat)
    requires a.Valid() && ValidArgs(args)
    decreases |args|
  {
    if args == [] then a.sp == end
    else
      var (got, a') := FetchThis(a, WantFor(args[0]));
      got == Sent(args[0]) && DeliversThis(a', args[1..], end)
  }

  /** `dcCall_x86_win32_msthis`: the first word is in ECX, the others are on the stack; EDX is arbitrary. */
  function ThisImage(vm: Vm, edx: Word4): Args
    requires vm.Valid(Std) && |vm.vec.mem| >= 4
  {
    Args(4, [Load(vm.vec.mem, 0, 4), edx], 0, vm.vec.mem)
  }

  /** With ECX zero the callback fetches as stdcall does. */
  lemma {:induction false} WithoutThis(a: Args, b: Args, args: seq<Arg>, end: nat)
    requires a.Valid() && b.Valid() && ValidArgs(args) && IsZero(a.fast[0]) && a.sp == b.sp && a.stack == b.stack
    ensures DeliversThis(a, args, end) <==> Delivers(Std, b, args, end)
    decreases |args|
  {
    if args != [] {
      WithoutThis(FetchThis(a, WantFor(args[0])).1, Fetch(Std, b, WantFor(args[0])).1, args[1..], end);
    }
  }

  /** Fetching consumes what the arguments occupy, whatever is fetched. */
  lemma {:induction false} EndOf(a: Args, args: seq<Arg>, end: nat)
    requires a.Valid() && ValidArgs(args) && Delivers(Std, a, args, end)
    ensures end == SizeAfter(Std, Counters(0, a.sp), args)
    decreases |args|
  {
    if args != [] {
      EndOf(Fetch(Std, a, WantFor(args[0])).1, args[1..], end);
    }
  }

  lemma {:induction false} SizeShifts(c: Counters, args: seq<Arg>, n: nat)
    ensures SizeAfter(Std, Counters(c.regs, c.size + n), args) == SizeAfter(Std, c, args) + n
    decreases |args|
  {
    if args != [] {
      SizeShifts(Next(Std, c, args[0]), args[1..], n);
    }
  }

  /** The call VM of a thiscall, before its arguments. */
  predicate Started(vm: Vm, args: seq<Arg>) {
    && vm.Valid(Std) && vm.regs == 0 && vm.vec.size == 0
    && ValidArgs(args) && args != [] && Integral(args[0]) && SizeAfter(Std, Counters(0, 0), args) <= vm.vec.total
  }

  lemma PlacedAsStd(vm: Vm, args: seq<Arg>)
    requires Started(vm, args)
    ensures var r := PlaceAll(Std, vm, args);
            && |r.vec.mem| >= 4 && r.vec.size == SizeAfter(Std, Counters(0, 0), args)
            && Delivers(Std, Image(Std, r), args, r.vec.size)
            && Load(r.vec.mem, 0, 4) == Pushed(args[0])
  {
    var r := PlaceAll(Std, vm, args);
    PlaceAllCounts(Std, vm, args);
    ImageHolds(Std, r);
    RoundTrip(Std, vm, args, Image(Std, r));
    FirstWord(vm, args);
  }

  lemma FirstWord(vm: Vm, args: seq<Arg>)
    requires Started(vm, args)
    ensures var r := PlaceAll(Std, vm, args); |r.vec.mem| >= 4 && Load(r.vec.mem, 0, 4) == Pushed(args[0])
  {
    var r, a := PlaceAll(Std, vm, args), Image(Std, PlaceAll(Std, vm, args));
    SizeGrows(Std, Next(Std, Count(vm), args[0]), args[1..]);
    PlaceCounts(Std, vm, args[0]);
    ImageHolds(Std, r);
    PlaceAllKeeps(Std, Place(Std, vm, args[0]), args[1..], a);
    Found(Std, vm, args[0], a);
  }

  /** The handler gets `this` and all other arguments, and the stack pointer ends where the caller's
      vector does, exactly if `this` is not null. */
  lemma ThisIff(vm: Vm, args: seq<Arg>, edx: Word4)
    requires Started(vm, args)
    ensures var r := PlaceAll(Std, vm, args);
            |r.vec.mem| >= 4 && (DeliversThis(ThisImage(r, edx), args, r.vec.size) <==> !IsZero(Pushed(args[0])))
  {
    var r := PlaceAll(Std, vm, args);
    PlacedAsStd(vm, args);
    var a := ThisImage(r, edx);
    if IsZero(Pushed(args[0])) {
      var b := a.(fast := [[0, 0, 0, 0], [0, 0, 0, 0]]);
      WithoutThis(a, b, args, r.vec.size);
      if Delivers(Std, b, args, r.vec.size) {
        EndOf(b, args, r.vec.size);
        SizeShifts(Counters(0, 0), args, 4);
      }
    } else {
      WithoutThis(FetchThis(a, WantFor(args[0])).1, Fetch(Std, Image(Std, r), WantFor(args[0])).1, args[1..], r.vec.size);
      ThisFetched(a, Image(Std, r), args[0]);
    }
  }

  /** ECX gives what stdcall reads from the first word of the stack. */
  lemma ThisFetched(a: Args, b: Args, x: Arg)
    requires a.Valid() && b.Valid() && ValidArg(x) && Integral(x) && !IsZero(a.fast[0]) && a.fast[0] == Peek(b.stack, b.sp, 4)
    ensures FetchThis(a, WantFor(x)).0 == Fetch(Std, b, WantFor(x)).0
  {
  }

  /** What the callback removes is four bytes more than the kernel pushed when its signature lists `this`,
      as signatures of the other conventions list every argument; it agrees when `this` is left out. */
  lemma CleansTooMuch(args: seq<Arg>, sig: string)
    requires ValidArgs(args) && args != [] && Integral(args[0])
    ensures var pushed := SizeAfter(Std, Counters(0, 0), args) - 4;
            && (Lists(sig, args) ==> Cleanup(Std, sig, 0) == pushed + 4)
            && (Lists(sig, args[1..]) ==> Cleanup(Std, sig, 0) == pushed)
  {
    if Lists(sig, args) {
      CleanupIsPushed(Std, Counters(0, 0), args, sig);
    }
    if Lists(sig, args[1..]) {
      CleanupIsPushed(Std, Counters(0, 4), args[1..], sig);
    }
  }

  /** The callback's arguments, whose ECX word is used up. */
  class ThisArgs {
    const edx: Word4
    const stack: seq<byte>
    var ecx: Word4
    var stackPtr: nat

    function View(): Args reads this {
      Args(stackPtr, [ecx, edx], 0, stack)
    }

    constructor (vm: Vm, edx: Word4)
      requires vm.Valid(Std) && |vm.vec.mem| >= 4
      ensures View() == ThisImage(vm, edx)
    {
      this.edx := edx;
      ecx, stackPtr, stack := Load(vm.vec.mem, 0, 4), 4, vm.vec.mem;
    }

    /** `this_i32`. */
    method I32() returns (result: Word4)
      modifies this
      ensures (result, View()) == FetchThisInt(old(View()))
    {
      if !IsZero(ecx) {
        result := ecx;
        ecx := [0, 0, 0, 0];
        assert [result, edx][0 := ecx] == [ecx, edx];
      } else {
        result := Peek(stack, stackPtr, 4);
        stackPtr := stackPtr + 4;
      }
    }
  }
}
