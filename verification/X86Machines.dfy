/** The two x86 machines as the program runs them. */
module X86Machines {
  import opened Bytes
  import opened Vector
  import opened Options
  import opened X86

  class DCCallVM {
    const conv: Conv
    const vec: DCVec
    var mIntRegs: nat

    ghost function Repr(): set<object> {
      {this, vec, vec.mem}
    }

    ghost predicate Valid() reads Repr() {
      vec.Valid() && View().Valid(conv)
    }

    function View(): Vm
      requires vec.Valid()
      reads Repr()
    {
      Vm(mIntRegs, vec.View())
    }

    /** A new VM, switched to the convention and reset: fastcall reserves the two registers' images. */
    constructor (conv: Conv, size: nat)
      requires Base(conv) <= size
      ensures Valid() && fresh(Repr()) && this.conv == conv
      ensures mIntRegs == 0 && vec.mSize == Base(conv) && vec.mTotal == size
    {
      this.conv := conv;
      vec := new DCVec(size, 0);
      mIntRegs := 0;
      new;
      vec.Resize(if conv.FastMs? || conv.FastGnu? then 8 else 0);
    }

    /** The integer functions, of cdecl and stdcall and of the fastcalls; `x` is the argument `w`
        came from. */
    method ArgInt(w: Word4, ghost x: Arg)
      requires Valid() && ValidArg(x) && Integral(x) && w == Pushed(x)
      modifies Repr()
      ensures Valid() && View() == Place(conv, old(View()), x)
    {
      if conv.FastMs? || conv.FastGnu? {
        if mIntRegs < 2 {
          vec.PutAt(4 * mIntRegs, w);
          mIntRegs := mIntRegs + 1;
          return;
        }
      }
      vec.Append(w);
    }

    method ArgLongLong(w: Word8)
      requires Valid()
      modifies Repr()
      ensures Valid() && View() == Place(conv, old(View()), X86.Arg.ArgLongLong(w))
    {
      if conv.FastGnu? {
        mIntRegs := 2;
      }
      vec.Append(w);
    }

    method Arg(x: Arg)
      requires Valid() && ValidArg(x)
      modifies Repr()
      ensures Valid() && View() == Place(conv, old(View()), x)
    {
      match x
      case ArgBool(b) => ArgInt(b, x);
      case ArgInt(b) => ArgInt(SignExtendLE(b, 4), x);
      case ArgFloat(v) => vec.Append(v);
      case ArgLongLong(l) => ArgLongLong(l);
      case ArgDouble(v) => vec.Append(v);
    }
  }

  class DCArgs {
    const conv: Conv
    const fastData: seq<Word4>
    const stack: seq<byte>
    var stackPtr: nat
    var fastCount: nat

    ghost predicate Valid() reads this {
      View().Valid()
    }

    function View(): Args reads this {
      Args(stackPtr, fastData, fastCount, stack)
    }

    constructor (conv: Conv, image: Args)
      requires image.Valid()
      ensures Valid() && View() == image && this.conv == conv
    {
      this.conv := conv;
      fastData, stack := image.fast, image.stack;
      stackPtr, fastCount := image.sp, image.count;
    }

    /** `default_i32` and `fast_i32`. */
    method I32() returns (result: Word4)
      requires Valid()
      modifies this
      ensures Valid() && (result, View()) == FetchInt(conv, old(View()))
    {
      if (conv.FastMs? || conv.FastGnu?) && fastCount < 2 {
        result := fastData[fastCount];
        fastCount := fastCount + 1;
      } else {
        result := Peek(stack, stackPtr, 4);
        stackPtr := stackPtr + 4;
      }
    }

    /** `default_i64` and `fast_gnu_i64`. */
    method I64() returns (result: Word8)
      requires Valid()
      modifies this
      ensures Valid() && (result, View()) == FetchLongLong(conv, old(View()))
    {
      if conv.FastGnu? {
        fastCount := fastCount + 2;
      }
      result := Peek(stack, stackPtr, 8);
      stackPtr := stackPtr + 8;
    }

    method Arg(w: Want) returns (got: seq<byte>)
      requires Valid() && (w.WantInt? ==> w.width <= 4)
      modifies this
      ensures Valid() && (got, View()) == Fetch(conv, old(View()), w)
    {
      match w {
        case WantBool =>
          var x := I32();
          got := Truth(x);
        case WantInt(n) =>
          var x := I32();
          got := x[..n];
        case WantFloat =>
          got := Peek(stack, stackPtr, 4);
          stackPtr := stackPtr + 4;
        case WantLongLong => got := I64();
        case WantDouble =>
          got := Peek(stack, stackPtr, 8);
          stackPtr := stackPtr + 8;
      }
    }
  }

  method FetchArgs(dcArgs: DCArgs, args: seq<Arg>, ghost end: nat) returns (got: seq<seq<byte>>)
    requires dcArgs.Valid() && ValidArgs(args) && Delivers(dcArgs.conv, dcArgs.View(), args, end)
    modifies dcArgs
    ensures |got| == |args| && forall k :: 0 <= k < |args| ==> got[k] == Sent(args[k])
    ensures dcArgs.stackPtr == end
  {
    got := [];
    while |got| < |args|
      invariant |got| <= |args| && dcArgs.Valid()
      invariant Delivers(dcArgs.conv, dcArgs.View(), args[|got|..], end)
      invariant forall j :: 0 <= j < |got| ==> got[j] == Sent(args[j])
    {
      ghost var j := |got|;
      assert args[j..][0] == args[j] && args[j..][1..] == args[j + 1..];
      var value := dcArgs.Arg(WantFor(args[|got|]));
      got := got + [value];
    }
  }

  /** A whole call to a callback made for `sig`: the arguments arrive, the callback consumes what the
      caller pushed, and that is what it removes where removing is its job. */
  method Transfer(sig: string, size: nat, args: seq<Arg>)
    returns (got: seq<seq<byte>>, pushed: nat, consumed: nat, removed: nat)
    requires Selected(sig).Plain? && ValidArgs(args) && Lists(Types(sig), args) && ')' in Types(sig)
    requires var conv := Selected(sig).conv; SizeAfter(conv, Counters(0, Base(conv)), args) <= size
    ensures |got| == |args| && forall k :: 0 <= k < |args| ==> got[k] == Sent(args[k])
    ensures consumed == pushed && removed == if Selected(sig).conv.Cdecl? then 0 else pushed
  {
    var table, cleanup := InitCallback(sig);
    var conv := table.conv;
    SizeGrows(conv, Counters(0, Base(conv)), args);
    var vm := new DCCallVM(conv, size);
    ghost var start := vm.View();
    var k := 0;
    while k < |args|
      invariant 0 <= k <= |args| && vm.Valid() && fresh(vm.Repr())
      invariant PlaceAll(conv, vm.View(), args[k..]) == PlaceAll(conv, start, args)
    {
      assert args[k..][0] == args[k] && args[k..][1..] == args[k + 1..];
      vm.Arg(args[k]);
      k := k + 1;
    }
    PlaceAllCounts(conv, start, args);
    ImageHolds(conv, vm.View());
    RoundTrip(conv, start, args, Image(conv, vm.View()));
    if conv.Cdecl? {
      CdeclCleansNothing(Types(sig), 0);
    } else {
      CleanupIsPushed(conv, Count(start), args, Types(sig));
    }
    var dcArgs := new DCArgs(conv, Image(conv, vm.View()));
    got := FetchArgs(dcArgs, args, vm.vec.mSize);
    pushed := vm.vec.mSize - Base(conv);
    consumed := dcArgs.stackPtr - Base(conv);
    removed := cleanup;
  }
}
