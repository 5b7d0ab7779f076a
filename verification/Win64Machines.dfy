/** The two Win64 machines as the program runs them. */
module Win64Machines {
  import opened Bytes
  import opened Integers
  import opened Vector
  import opened Win64

  class DCCallVM {
    const regs: array<Word8>
    const vec: DCVec
    const base: nat
    var mRegCount: nat
    var mAggrReturnReg: int
    var mpAggrVecCopies: int

    ghost function Repr(): set<object> {
      {this, regs, vec, vec.mem}
    }

    ghost predicate Valid() reads Repr() {
      vec.Valid() && View().Valid()
    }

    function View(): Vm
      requires vec.Valid()
      reads Repr()
    {
      Vm(mRegCount, mAggrReturnReg, regs[..], vec.View(), base, mpAggrVecCopies)
    }

    /** A VM whose vector lies at address `base`; `ret` is the slot `dcBeginCallAggr` holds back:
        none, the first, or for a thiscall the second. */
    constructor (size: nat, base: nat, ret: int)
      requires -1 <= ret <= 1
      ensures Valid() && fresh(Repr())
      ensures Count(View()) == Counters(0, 0, size) && mAggrReturnReg == ret && this.base == base && vec.mTotal == size
      ensures vec.mem.Length == size
    {
      regs := new Word8[REGS](_ => [0, 0, 0, 0, 0, 0, 0, 0]);
      vec := new DCVec(size, 0);
      this.base := base;
      mRegCount, mAggrReturnReg, mpAggrVecCopies := 0, ret, size;
    }

    /** `dc_callvm_argLongLong_x64` and `dc_callvm_argDouble_x64`: one counter, one buffer. */
    method ArgWord(x: Word8)
      requires Valid()
      modifies Repr()
      ensures Valid() && View() == PlaceWord(old(View()), x)
    {
      if mRegCount == mAggrReturnReg {
        mRegCount := mRegCount + 1;
      }
      if mRegCount < 4 {
        regs[mRegCount] := x;
        mRegCount := mRegCount + 1;
      } else {
        vec.Append(x);
      }
    }

    /** An aggregate that does not travel as an integer. */
    method ArgCopy(b: seq<byte>)
      requires Valid() && 0 <= CopyOffset(base, mpAggrVecCopies, |b|)
      modifies Repr()
      ensures Valid() && View() == PlaceByPointer(old(View()), b)
    {
      mpAggrVecCopies := CopyOffset(base, mpAggrVecCopies, |b|);
      vec.PutAt(mpAggrVecCopies, b);
      ArgWord(ToPointer(base + mpAggrVecCopies));
    }

    method Arg(x: Arg)
      requires Valid() && ValidArg(x) && CanPlace(View(), x)
      modifies Repr()
      ensures Valid() && View() == Place(old(View()), x)
    {
      match x
      case ArgSigned(b) => ArgWord(SignExtendLE(b, 8));
      case ArgPointer(p) => ArgWord(p);
      case ArgFloat(v, other) => ArgWord(v + other);
      case ArgDouble(v) => ArgWord(v);
      case ArgAggr(b) =>
        if |b| == 1 || |b| == 2 || |b| == 4 || |b| == 8 {
          ArgWord(SignExtendLE(b, 8));
        } else {
          ArgCopy(b);
        }
    }

    /** What arrives: the register slots, one of them the hidden pointer, and the stack.  The
        caller's vector stays in memory while the callee runs. */
    function Image(dest: Word8, ret: int): Args
      requires Valid()
      reads Repr()
    {
      Args(0, 0, ret, if 0 <= mAggrReturnReg then regs[..][mAggrReturnReg := dest] else regs[..],
           vec.mem[..], vec.mem[..], base)
    }
  }

  class DCArgs {
    const regs: seq<Word8>
    const stack: seq<byte>
    const mem: seq<byte>
    const base: nat
    const aggrReturnRegister: int
    var stackPtr: nat
    var regCount: nat

    ghost predicate Valid() reads this {
      View().Valid()
    }

    function View(): Args reads this {
      Args(stackPtr, regCount, aggrReturnRegister, regs, stack, mem, base)
    }

    constructor (image: Args)
      requires image.Valid()
      ensures Valid() && View() == image
    {
      regs, stack, mem, base, aggrReturnRegister := image.regs, image.stack, image.mem, image.base, image.ret;
      stackPtr, regCount := image.sp, image.n;
    }

    method ArgWord() returns (x: Word8)
      requires Valid()
      modifies this
      ensures Valid() && (x, View()) == FetchWord(old(View()))
    {
      if regCount == aggrReturnRegister {
        regCount := regCount + 1;
      }
      if regCount < 4 {
        x := regs[regCount];
        regCount := regCount + 1;
      } else {
        x := Peek(stack, 8 * stackPtr, 8);
        stackPtr := stackPtr + 1;
      }
    }

    method Arg(w: Want) returns (got: seq<byte>)
      requires Valid() && (w.WantSigned? ==> w.width <= 8)
      modifies this
      ensures Valid() && (got, View()) == Fetch(old(View()), w)
    {
      var x := ArgWord();
      match w
      case WantSigned(n) => got := x[..n];
      case WantPointer => got := x;
      case WantFloat => got := x[..4];
      case WantDouble => got := x;
      case WantAggr(size) =>
        if size == 1 || size == 2 || size == 4 || size == 8 {
          got := x[..size];
        } else {
          got := ReadAt(View(), Unsigned(x), size);
        }
    }
  }

  method PlaceArgs(vm: DCCallVM, args: seq<Arg>)
    requires vm.Valid() && ValidArgs(args) && Apart(Final(Count(vm.View()), vm.mAggrReturnReg, vm.base, args))
    modifies vm.Repr()
    ensures vm.Valid() && vm.View() == PlaceAll(old(vm.View()), args)
  {
    ghost var start := vm.View();
    var k := 0;
    while k < |args|
      invariant 0 <= k <= |args| && vm.Valid() && vm.mAggrReturnReg == start.ret
      invariant Apart(Final(Count(vm.View()), vm.mAggrReturnReg, vm.base, args[k..]))
      invariant PlaceAll(vm.View(), args[k..]) == PlaceAll(start, args)
    {
      assert args[k..][0] == args[k] && args[k..][1..] == args[k + 1..];
      EndsOnlyApproach(Next(Count(vm.View()), start.ret, vm.base, args[k]), start.ret, vm.base, args[k + 1..]);
      PlaceCounts(vm.View(), args[k]);
      vm.Arg(args[k]);
      k := k + 1;
    }
  }

  method FetchArgs(dcArgs: DCArgs, args: seq<Arg>) returns (got: seq<seq<byte>>)
    requires dcArgs.Valid() && ValidArgs(args) && Delivers(dcArgs.View(), args)
    modifies dcArgs
    ensures |got| == |args| && forall k :: 0 <= k < |args| ==> got[k] == Sent(args[k])
  {
    got := [];
    while |got| < |args|
      invariant |got| <= |args| && dcArgs.Valid()
      invariant Delivers(dcArgs.View(), args[|got|..])
      invariant forall j :: 0 <= j < |got| ==> got[j] == Sent(args[j])
    {
      ghost var j := |got|;
      assert args[j..][0] == args[j] && args[j..][1..] == args[j + 1..];
      var value := dcArgs.Arg(WantFor(args[|got|]));
      got := got + [value];
    }
  }

  /** A whole call: if the stack arguments and the copies stay apart, the handler gets every
      argument, and finds the address for a hidden result. */
  method Transfer(size: nat, base: nat, ret: int, args: seq<Arg>, dest: Word8)
    returns (got: seq<seq<byte>>, hidden: Word8)
    requires ValidArgs(args) && -1 <= ret <= 1 && base + size < ADDRESSES
    requires Apart(Final(Counters(0, 0, size), ret, base, args))
    ensures |got| == |args| && forall k :: 0 <= k < |args| ==> got[k] == Sent(args[k])
    ensures ret >= 0 ==> hidden == dest
  {
    var vm := new DCCallVM(size, base, ret);
    ghost var start := vm.View();
    PlaceArgs(vm, args);
    NothingOverwritten(start, args);
    var image := vm.Image(dest, ret);
    RoundTrip(start, args, image);
    var dcArgs := new DCArgs(image);
    got := FetchArgs(dcArgs, args);
    hidden := dcArgs.regs[if ret < 0 then 0 else ret];
  }
}
