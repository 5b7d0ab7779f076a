/** The two PowerPC 64-bit machines as the program runs them. */
module Ppc64Machines {
  import opened Bytes
  import opened Vector
  import opened Ppc64
  import opened Ppc64Converse

  /** The argument half of the two function tables. */
  datatype Vtable = Standard | EllipsisTable

  class DCCallVM {
    const abi: Abi
    const fpu: Fpu
    const ints: array<Word8>
    const floats: array<Word8>
    const vec: DCVec
    var mIntRegs: nat
    var mFloatRegs: nat
    var vt: Vtable

    ghost function Repr(): set<object> {
      {this, ints, floats, vec, vec.mem}
    }

    ghost predicate Valid() reads Repr() {
      vec.Valid() && ints != floats && View().Valid() && (vt.EllipsisTable? ==> abi.elf2)
    }

    function View(): Vm
      requires vec.Valid()
      reads Repr()
    {
      Vm(mIntRegs, mFloatRegs, ints[..], floats[..], vec.View())
    }

    constructor (abi: Abi, fpu: Fpu, size: nat)
      ensures Valid() && fresh(Repr()) && this.abi == abi && this.fpu == fpu
      ensures mIntRegs == 0 && mFloatRegs == 0 && vec.mSize == 0 && vec.mTotal == size
    {
      this.abi, this.fpu := abi, fpu;
      ints := new Word8[INT_REGS](_ => [0, 0, 0, 0, 0, 0, 0, 0]);
      floats := new Word8[FLOAT_REGS](_ => [0, 0, 0, 0, 0, 0, 0, 0]);
      vec := new DCVec(size, 0);
      mIntRegs, mFloatRegs, vt := 0, 0, Standard;
    }

    /** `dcMode`: only ELFv2 has a table of its own for varargs. */
    method Mode(vararg: bool)
      requires Valid()
      modifies this`vt
      ensures Valid() && View() == old(View()) && (vt.EllipsisTable? <==> abi.elf2 && vararg)
    {
      vt := if abi.elf2 && vararg then EllipsisTable else Standard;
    }

    /** The integer functions widen to a long long; `x` is the argument `w` came from. */
    method ArgLongLong(w: Word8, ghost x: Item)
      requires Valid() && vt.Standard? && x.Valid() && x.arg.ArgInt? && !Ellipsis(abi, x)
      requires w == InRegister(abi, fpu, x)
      modifies Repr()
      ensures Valid() && vt == old(vt) && View() == Place(abi, fpu, old(View()), x)
    {
      if mIntRegs < 8 {
        ints[mIntRegs] := w;
        mIntRegs := mIntRegs + 1;
        if abi.elf2 {
          return;
        }
      }
      if abi.elf2 && vec.mSize == 0 {
        vec.Skip(8 * 8);
      }
      vec.Append(w);
    }

    method ArgLongLongEllipsis(w: Word8, ghost x: Item)
      requires Valid() && vt.EllipsisTable? && x.Valid() && x.arg.ArgInt? && x.vararg
      requires w == InRegister(abi, fpu, x)
      modifies Repr()
      ensures Valid() && vt == old(vt) && View() == Place(abi, fpu, old(View()), x)
    {
      if vec.mSize == 0 {
        vec.Skip(8 * mIntRegs);
      }
      if mIntRegs < 8 {
        ints[mIntRegs] := w;
        mIntRegs := mIntRegs + 1;
      }
      vec.Append(w);
    }

    /** The argument functions for a float (`f` is the padded struct) and a double, which differ in
        what they leave on the stack. */
    method ArgFloating(w: Word8, f: Word8, ghost x: Item)
      requires Valid() && vt.Standard? && x.Valid() && !x.arg.ArgInt? && !Ellipsis(abi, x)
      requires w == InRegister(abi, fpu, x) && f == OnStack(abi, fpu, x)
      modifies Repr()
      ensures Valid() && vt == old(vt) && View() == Place(abi, fpu, old(View()), x)
    {
      if mFloatRegs < 13 {
        floats[mFloatRegs] := w;
        mFloatRegs := mFloatRegs + 1;
        if mIntRegs < 8 {
          ints[mIntRegs] := w;
          mIntRegs := mIntRegs + 1;
          if abi.elf2 {
            return;
          }
        }
      }
      if abi.elf2 && vec.mSize == 0 {
        vec.Skip(8 * 8);
      }
      vec.Append(f);
    }

    /** A vararg float comes here as a double. */
    method ArgDoubleEllipsis(w: Word8, ghost x: Item)
      requires Valid() && vt.EllipsisTable? && x.Valid() && !x.arg.ArgInt? && x.vararg
      requires w == InRegister(abi, fpu, x)
      modifies Repr()
      ensures Valid() && vt == old(vt) && View() == Place(abi, fpu, old(View()), x)
    {
      if vec.mSize == 0 {
        vec.Skip(8 * mIntRegs);
      }
      if mFloatRegs < 13 {
        floats[mFloatRegs] := w;
        mFloatRegs := mFloatRegs + 1;
        if mIntRegs < 8 {
          ints[mIntRegs] := w;
          mIntRegs := mIntRegs + 1;
        }
      }
      vec.Append(w);
    }

    /** The mode switch an argument asks for, and the argument itself. */
    method Arg(x: Item)
      requires Valid() && x.Valid()
      modifies Repr()
      ensures Valid() && View() == Place(abi, fpu, old(View()), x)
    {
      Mode(x.vararg);
      match x.arg {
        case ArgInt(b) =>
          if vt.Standard? {
            ArgLongLong(Widened(abi, b), x);
          } else {
            ArgLongLongEllipsis(Widened(abi, b), x);
          }
        case ArgFloat(v, pad) =>
          if vt.Standard? {
            ArgFloating(fpu.widen(v), if abi.bigEndian then pad + v else v + pad, x);
          } else {
            ArgDoubleEllipsis(fpu.widen(v), x);
          }
        case ArgDouble(v) =>
          if vt.Standard? {
            ArgFloating(v, v, x);
          } else {
            ArgDoubleEllipsis(v, x);
          }
      }
    }
  }

  class DCArgs {
    const abi: Abi
    const fpu: Fpu
    const ints: seq<Word8>
    const floats: seq<Word8>
    const stack: seq<byte>
    var stackptr: nat
    var ireg: nat
    var freg: nat

    ghost predicate Valid() reads this {
      View().Valid()
    }

    function View(): Args reads this {
      Args(stackptr, ireg, freg, ints, floats, stack)
    }

    constructor (abi: Abi, fpu: Fpu, image: Args)
      requires image.Valid()
      ensures Valid() && View() == image && this.abi == abi && this.fpu == fpu
    {
      this.abi, this.fpu := abi, fpu;
      ints, floats, stack := image.ints, image.floats, image.stack;
      stackptr, ireg, freg := image.sp, image.i, image.f;
    }

    method ArgLongLong() returns (value: Word8)
      requires Valid()
      modifies this
      ensures Valid() && (value, View()) == FetchInt(old(View()))
    {
      if ireg < 8 {
        value := ints[ireg];
        ireg := ireg + 1;
      } else {
        value := Peek(stack, stackptr, 8);
      }
      stackptr := stackptr + 8;
    }

    method ArgDouble() returns (result: Word8)
      requires Valid()
      modifies this
      ensures Valid() && (result, View()) == FetchDouble(old(View()))
    {
      if freg < 13 {
        result := floats[freg];
        freg := freg + 1;
        if ireg < 8 {
          ireg := ireg + 1;
        }
      } else {
        result := Peek(stack, stackptr, 8);
      }
      stackptr := stackptr + 8;
    }

    method ArgFloat() returns (result: Word4)
      requires Valid()
      modifies this
      ensures Valid() && (result, View()) == FetchFloat(abi, fpu, old(View()))
    {
      if freg < 13 {
        result := fpu.narrow(floats[freg]);
        freg := freg + 1;
        if ireg < 8 {
          ireg := ireg + 1;
        }
      } else {
        var sf := Peek(stack, stackptr, 8);
        result := if abi.bigEndian then sf[4..] else sf[..4];
      }
      stackptr := stackptr + 8;
    }

    method Arg(w: Want) returns (got: seq<byte>)
      requires Valid() && w.Valid()
      modifies this
      ensures Valid() && (got, View()) == Fetch(abi, fpu, old(View()), w)
    {
      match w
      case WantInt(n) =>
        var value := ArgLongLong();
        got := Truncated(abi, value, n);
      case WantFloat => got := ArgFloat();
      case WantDouble => got := ArgDouble();
    }
  }

  method FetchArgs(dcArgs: DCArgs, items: seq<Item>) returns (got: seq<seq<byte>>)
    requires dcArgs.Valid() && ValidItems(items) && Delivers(dcArgs.abi, dcArgs.fpu, dcArgs.View(), items)
    modifies dcArgs
    ensures |got| == |items|
    ensures forall k :: 0 <= k < |items| ==> got[k] == Sent(dcArgs.abi, dcArgs.fpu, items[k])
  {
    got := [];
    while |got| < |items|
      invariant |got| <= |items| && dcArgs.Valid()
      invariant Delivers(dcArgs.abi, dcArgs.fpu, dcArgs.View(), items[|got|..])
      invariant forall j :: 0 <= j < |got| ==> got[j] == Sent(dcArgs.abi, dcArgs.fpu, items[j])
    {
      ghost var j := |got|;
      assert items[j..][0] == items[j] && items[j..][1..] == items[j + 1..];
      var value := dcArgs.Arg(WantFor(dcArgs.abi, items[|got|]));
      got := got + [value];
    }
  }

  /** A whole call: named arguments and varargs reach the handler, in any order of modes if the callback
      reads none of them from the stack, and else if no named one follows a vararg among the first eight. */
  method Transfer(abi: Abi, fpu: Fpu, size: nat, items: seq<Item>) returns (got: seq<seq<byte>>)
    requires ValidItems(items) && fpu.Faithful()
    requires Unstacked(abi, START, items) || (Orderly(abi, items) && StackUse(abi, START, items) <= size)
    ensures |got| == |items| && forall k :: 0 <= k < |items| ==> got[k] == Sent(abi, fpu, items[k])
  {
    var vm := new DCCallVM(abi, fpu, size);
    ghost var start := vm.View();
    var k := 0;
    while k < |items|
      invariant 0 <= k <= |items| && vm.Valid() && fresh(vm.Repr())
      invariant PlaceAll(abi, fpu, vm.View(), items[k..]) == PlaceAll(abi, fpu, start, items)
    {
      assert items[k..][0] == items[k] && items[k..][1..] == items[k + 1..];
      vm.Arg(items[k]);
      k := k + 1;
    }
    Arrives(abi, fpu, start, items);
    var dcArgs := new DCArgs(abi, fpu, Image(vm.View()));
    got := FetchArgs(dcArgs, items);
  }
}
