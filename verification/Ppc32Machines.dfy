/** The PowerPC 32-bit call VM and callback arguments as the program runs them, with the methods of
    both conventions. */
module Ppc32Machines {
  import opened Bytes
  import opened Vector
  import opened Ppc32
  import Darwin = Ppc32Darwin
  import SysV = Ppc32SysV

  class DCCallVM {
    const ints: array<Word4>
    const floats: array<FloatReg>
    const vec: DCVec
    var mIntRegs: nat
    var mFloatRegs: nat

    ghost function Repr(): set<object> {
      {this, ints, floats, vec, vec.mem}
    }

    ghost predicate Valid() reads Repr() {
      vec.Valid() && View().Valid()
    }

    function View(): Vm
      requires vec.Valid()
      reads Repr()
    {
      Vm(mIntRegs, mFloatRegs, ints[..], floats[..], vec.View())
    }

    constructor (size: nat)
      ensures Valid() && fresh(Repr())
      ensures mIntRegs == 0 && mFloatRegs == 0 && vec.mSize == 0 && vec.mTotal == size
    {
      ints := new Word4[INT_REGS](_ => [0, 0, 0, 0]);
      floats := new FloatReg[FLOAT_REGS](_ => Widened([0, 0, 0, 0]));
      vec := new DCVec(size, 0);
      mIntRegs, mFloatRegs := 0, 0;
    }

    // ----- Darwin -----

    method ArgIntDarwin(x: Word4)
      requires Valid()
      modifies Repr()
      ensures Valid() && View() == Darwin.PlaceInt(old(View()), x)
    {
      if mIntRegs < 8 {
        ints[mIntRegs] := x;
        mIntRegs := mIntRegs + 1;
      }
      vec.Append(x);
    }

    method ArgDoubleDarwin(x: Word8)
      requires Valid()
      modifies Repr()
      ensures Valid() && View() == Darwin.PlaceDouble(old(View()), x)
    {
      if mFloatRegs < 13 {
        floats[mFloatRegs] := Wide(x);
        mFloatRegs := mFloatRegs + 1;
        if mIntRegs < 8 {
          ints[mIntRegs] := x[..4];
          mIntRegs := mIntRegs + 1;
        }
        if mIntRegs < 8 {
          ints[mIntRegs] := x[4..];
          mIntRegs := mIntRegs + 1;
        }
      }
      vec.Append(x);
    }

    method ArgFloatDarwin(x: Word4)
      requires Valid()
      modifies Repr()
      ensures Valid() && View() == Darwin.PlaceFloat(old(View()), x)
    {
      if mFloatRegs < 13 {
        floats[mFloatRegs] := Widened(x);
        mFloatRegs := mFloatRegs + 1;
      }
      if mIntRegs < 8 {
        ints[mIntRegs] := x;
        mIntRegs := mIntRegs + 1;
      }
      vec.Append(x);
    }

    method ArgDarwin(x: Arg)
      requires Valid() && ValidArg(x)
      modifies Repr()
      ensures Valid() && View() == Darwin.Place(old(View()), x)
    {
      match x
      case ArgBool(b) => ArgIntDarwin(Truth(b));
      case ArgInt(b) => ArgIntDarwin(SignExtendBE(b, 4));
      case ArgLongLong(l) =>
        ArgIntDarwin(l[..4]);
        ArgIntDarwin(l[4..]);
      case ArgFloat(v) => ArgFloatDarwin(v);
      case ArgDouble(v) => ArgDoubleDarwin(v);
    }

    // ----- System V -----

    method ArgIntSysV(x: Word4)
      requires Valid()
      modifies Repr()
      ensures Valid() && View() == SysV.PlaceInt(old(View()), x)
    {
      if mIntRegs < 8 {
        ints[mIntRegs] := x;
        mIntRegs := mIntRegs + 1;
      } else {
        vec.Append(x);
      }
    }

    method ArgLongLongSysV(x: Word8)
      requires Valid()
      modifies Repr()
      ensures Valid() && View() == SysV.PlaceLongLong(old(View()), x)
    {
      if mIntRegs < 7 {
        if mIntRegs % 2 == 1 {
          mIntRegs := mIntRegs + 1;
        }
        ints[mIntRegs] := x[..4];
        ints[mIntRegs + 1] := x[4..];
        mIntRegs := mIntRegs + 2;
      } else {
        mIntRegs := 8;
        vec.Resize((vec.mSize + 7) / 8 * 8);
        vec.Append(x);
      }
    }

    method ArgDoubleSysV(x: Word8)
      requires Valid()
      modifies Repr()
      ensures Valid() && View() == SysV.PlaceDouble(old(View()), x)
    {
      if mFloatRegs < 8 {
        floats[mFloatRegs] := Wide(x);
        mFloatRegs := mFloatRegs + 1;
      } else {
        vec.Resize((vec.mSize + 7) / 8 * 8);
        vec.Append(x);
      }
    }

    method ArgFloatSysV(x: Word4)
      requires Valid()
      modifies Repr()
      ensures Valid() && View() == SysV.PlaceFloat(old(View()), x)
    {
      if mFloatRegs < 8 {
        floats[mFloatRegs] := Widened(x);
        mFloatRegs := mFloatRegs + 1;
      } else {
        vec.Append(x);
      }
    }

    method ArgSysV(x: Arg)
      requires Valid() && ValidArg(x)
      modifies Repr()
      ensures Valid() && View() == SysV.Place(old(View()), x)
    {
      match x
      case ArgBool(b) => ArgIntSysV(Truth(b));
      case ArgInt(b) => ArgIntSysV(SignExtendBE(b, 4));
      case ArgLongLong(l) => ArgLongLongSysV(l);
      case ArgFloat(v) => ArgFloatSysV(v);
      case ArgDouble(v) => ArgDoubleSysV(v);
    }
  }

  class DCArgs {
    const ints: seq<Word4>
    const floats: seq<FloatReg>
    const stack: seq<byte>
    var stackPtr: nat
    var iregCount: nat
    var fregCount: nat

    ghost predicate Valid() reads this {
      View().Valid()
    }

    function View(): Args reads this {
      Args(stackPtr, iregCount, fregCount, ints, floats, stack)
    }

    constructor (image: Args)
      requires image.Valid()
      ensures Valid() && View() == image
    {
      ints, floats, stack := image.ints, image.floats, image.stack;
      stackPtr, iregCount, fregCount := image.sp, image.i, image.f;
    }

    // ----- Darwin -----

    method ArgIntDarwin() returns (x: Word4)
      requires Valid()
      modifies this
      ensures Valid() && (x, View()) == Darwin.FetchInt(old(View()))
    {
      if iregCount < 8 {
        x := ints[iregCount];
        iregCount := iregCount + 1;
      } else {
        x := Peek(stack, stackPtr, 4);
      }
      stackPtr := stackPtr + 4;
    }

    method ArgDoubleDarwin() returns (x: Word8)
      requires Valid()
      modifies this
      ensures Valid() && (x, View()) == Darwin.FetchDouble(old(View()))
    {
      if iregCount < 7 {
        iregCount := iregCount + 2;
      } else if iregCount == 7 {
        iregCount := 8;
      }
      if fregCount < 13 {
        x := AsDouble(floats[fregCount]);
        fregCount := fregCount + 1;
      } else {
        x := Peek(stack, stackPtr, 8);
      }
      stackPtr := stackPtr + 8;
    }

    method ArgFloatDarwin() returns (x: Word4)
      requires Valid()
      modifies this
      ensures Valid() && (x, View()) == Darwin.FetchFloat(old(View()))
    {
      if iregCount < 8 {
        iregCount := iregCount + 1;
      }
      if fregCount < 13 {
        x := AsFloat(floats[fregCount]);
        fregCount := fregCount + 1;
      } else {
        x := Peek(stack, stackPtr, 4);
      }
      stackPtr := stackPtr + 4;
    }

    method ArgDarwin(w: Want) returns (got: seq<byte>)
      requires Valid() && (w.WantInt? ==> w.width <= 4)
      modifies this
      ensures Valid() && (got, View()) == Darwin.Fetch(old(View()), w)
    {
      match w
      case WantInt(n) =>
        var x := ArgIntDarwin();
        got := x[4 - n..];
      case WantLongLong =>
        var hi := ArgIntDarwin();
        var lo := ArgIntDarwin();
        got := Join(hi, lo);
      case WantFloat => got := ArgFloatDarwin();
      case WantDouble => got := ArgDoubleDarwin();
    }

    // ----- System V -----

    method ArgIntSysV() returns (x: Word4)
      requires Valid()
      modifies this
      ensures Valid() && (x, View()) == SysV.FetchInt(old(View()))
    {
      if iregCount < 8 {
        x := ints[iregCount];
        iregCount := iregCount + 1;
      } else {
        x := Peek(stack, stackPtr, 4);
        stackPtr := stackPtr + 4;
      }
    }

    method ArgLongLongSysV() returns (x: Word8)
      requires Valid()
      modifies this
      ensures Valid() && (x, View()) == SysV.FetchLongLong(old(View()))
    {
      if iregCount < 7 {
        iregCount := (iregCount + 1) / 2 * 2;
        x := Join(ints[iregCount], ints[iregCount + 1]);
        iregCount := iregCount + 2;
      } else {
        iregCount := 8;
        stackPtr := (stackPtr + 7) / 8 * 8;
        x := Peek(stack, stackPtr, 8);
        stackPtr := stackPtr + 8;
      }
    }

    method ArgDoubleSysV() returns (x: Word8)
      requires Valid()
      modifies this
      ensures Valid() && (x, View()) == SysV.FetchDouble(old(View()))
    {
      if fregCount < 8 {
        x := AsDouble(floats[fregCount]);
        fregCount := fregCount + 1;
      } else {
        stackPtr := (stackPtr + 7) / 8 * 8;
        x := Peek(stack, stackPtr, 8);
        stackPtr := stackPtr + 8;
      }
    }

    method ArgFloatSysV() returns (x: Word4)
      requires Valid()
      modifies this
      ensures Valid() && (x, View()) == SysV.FetchFloat(old(View()))
    {
      if fregCount < 8 {
        x := AsFloat(floats[fregCount]);
        fregCount := fregCount + 1;
      } else {
        x := Peek(stack, stackPtr, 4);
        stackPtr := stackPtr + 4;
      }
    }

    method ArgSysV(w: Want) returns (got: seq<byte>)
      requires Valid() && (w.WantInt? ==> w.width <= 4)
      modifies this
      ensures Valid() && (got, View()) == SysV.Fetch(old(View()), w)
    {
      match w
      case WantInt(n) =>
        var x := ArgIntSysV();
        got := x[4 - n..];
      case WantLongLong => got := ArgLongLongSysV();
      case WantFloat => got := ArgFloatSysV();
      case WantDouble => got := ArgDoubleSysV();
    }
  }

  method FetchDarwin(dcArgs: DCArgs, args: seq<Arg>) returns (got: seq<seq<byte>>)
    requires dcArgs.Valid() && ValidArgs(args) && Darwin.Delivers(dcArgs.View(), args)
    modifies dcArgs
    ensures |got| == |args| && forall k :: 0 <= k < |args| ==> got[k] == Sent(args[k])
  {
    got := [];
    while |got| < |args|
      invariant |got| <= |args| && dcArgs.Valid()
      invariant Darwin.Delivers(dcArgs.View(), args[|got|..])
      invariant forall j :: 0 <= j < |got| ==> got[j] == Sent(args[j])
    {
      ghost var j := |got|;
      assert args[j..][0] == args[j] && args[j..][1..] == args[j + 1..];
      var value := dcArgs.ArgDarwin(WantFor(args[|got|]));
      got := got + [value];
    }
  }

  /** A whole Darwin call: the handler gets every argument, whatever the types. */
  method TransferDarwin(size: nat, args: seq<Arg>) returns (got: seq<seq<byte>>)
    requires ValidArgs(args) && Darwin.Need(args) <= size
    ensures |got| == |args| && forall k :: 0 <= k < |args| ==> got[k] == Sent(args[k])
  {
    var vm := new DCCallVM(size);
    ghost var start := vm.View();
    var k := 0;
    while k < |args|
      invariant 0 <= k <= |args| && vm.Valid() && fresh(vm.Repr())
      invariant Darwin.PlaceAll(vm.View(), args[k..]) == Darwin.PlaceAll(start, args)
    {
      vm.ArgDarwin(args[k]);
      k := k + 1;
    }
    Darwin.PlaceAllMirrors(start, args);
    Darwin.RoundTrip(start, args, Image(vm.View()));
    var dcArgs := new DCArgs(Image(vm.View()));
    got := FetchDarwin(dcArgs, args);
  }

  method FetchSysV(dcArgs: DCArgs, args: seq<Arg>) returns (got: seq<seq<byte>>)
    requires dcArgs.Valid() && ValidArgs(args) && SysV.Delivers(dcArgs.View(), args)
    modifies dcArgs
    ensures |got| == |args| && forall k :: 0 <= k < |args| ==> got[k] == Sent(args[k])
  {
    got := [];
    while |got| < |args|
      invariant |got| <= |args| && dcArgs.Valid()
      invariant SysV.Delivers(dcArgs.View(), args[|got|..])
      invariant forall j :: 0 <= j < |got| ==> got[j] == Sent(args[j])
    {
      ghost var j := |got|;
      assert args[j..][0] == args[j] && args[j..][1..] == args[j + 1..];
      var value := dcArgs.ArgSysV(WantFor(args[|got|]));
      got := got + [value];
    }
  }

  /** A whole System V call. */
  method TransferSysV(size: nat, args: seq<Arg>) returns (got: seq<seq<byte>>)
    requires ValidArgs(args) && SysV.SizeAfter(SysV.Counters(0, 0, 0), args) <= size
    ensures |got| == |args| && forall k :: 0 <= k < |args| ==> got[k] == Sent(args[k])
  {
    var vm := new DCCallVM(size);
    ghost var start := vm.View();
    var k := 0;
    while k < |args|
      invariant 0 <= k <= |args| && vm.Valid() && fresh(vm.Repr())
      invariant SysV.PlaceAll(vm.View(), args[k..]) == SysV.PlaceAll(start, args)
    {
      vm.ArgSysV(args[k]);
      k := k + 1;
    }
    SysV.PlaceAllCounts(start, args);
    SysV.RoundTrip(start, args, Image(vm.View()));
    var dcArgs := new DCArgs(Image(vm.View()));
    got := FetchSysV(dcArgs, args);
  }
}
