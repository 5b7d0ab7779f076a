/** The two System V machines as the program runs them, proved against their specifications. */
module SysVMachines {
  import opened Bytes
  import opened Vector
  import opened Aggregate
  import opened CloseAggr
  import opened SysV
  import opened SysVRoundTrip

  const SIZEOF_REG_DATA: nat := 112

  /** Capacity of the vector in a VM created with `size`: register data is taken off. */
  function Capacity(size: nat): nat {
    if size < SIZEOF_REG_DATA then 0 else size - SIZEOF_REG_DATA
  }

  /** A VM after creation, up to what its buffers happen to hold. */
  function Fresh(size: nat, ret: int): Vm {
    var zero: Word8 := [0, 0, 0, 0, 0, 0, 0, 0];
    Vm(0, 0, ret, seq(NUM_INT_REGS, _ => zero), seq(NUM_FLOAT_REGS, _ => zero),
       Vec(seq(size, _ => 0), Capacity(size), 0))
  }

  /** The reclassification both sides make with respect to the registers that remain. */
  method NeedsMemory(ag: Aggr, i: nat, f: nat) returns (inMemory: bool)
    requires Passable(ag)
    ensures inMemory == InMemory(ag, i, f)
  {
    var ni, nf := i, f;
    var k := 0;
    if ag.classes[0] != MEMORY {
      while k < MAX_NUM_CLASSES && ag.classes[k] != NONE
        invariant 0 <= k <= MAX_NUM_CLASSES
        invariant ni + Count(ag.classes, INTEGER, k) == i + Count(ag.classes, INTEGER, 0)
        invariant nf + Count(ag.classes, SSE, k) == f + Count(ag.classes, SSE, 0)
      {
        if ag.classes[k] == INTEGER {
          ni := ni + 1;
        } else if ag.classes[k] == SSE {
          nf := nf + 1;
        }
        k := k + 1;
      }
    }
    inMemory := ag.classes[0] == MEMORY || ni > NUM_INT_REGS || nf > NUM_FLOAT_REGS;
  }

  class DCCallVM {
    const ints: array<Word8>
    const floats: array<Word8>
    const vec: DCVec
    var mAggrReturnReg: int
    var i: nat
    var f: nat

    ghost function Repr(): set<object> {
      {this, ints, floats, vec, vec.mem}
    }

    ghost predicate Valid() reads Repr() {
      ints.Length == NUM_INT_REGS && floats.Length == NUM_FLOAT_REGS && ints != floats && vec.Valid() && View().Valid()
    }

    function View(): Vm
      requires vec.Valid()
      reads Repr()
    {
      Vm(i, f, mAggrReturnReg, ints[..], floats[..], vec.View())
    }

    /** `dcNewCallVM` and `dc_callvm_reset_x64`. */
    constructor (size: nat)
      ensures Valid() && fresh(Repr())
      ensures SameCounters(View(), Fresh(size, -1))
    {
      ints := new Word8[NUM_INT_REGS](_ => [0, 0, 0, 0, 0, 0, 0, 0]);
      floats := new Word8[NUM_FLOAT_REGS](_ => [0, 0, 0, 0, 0, 0, 0, 0]);
      vec := new DCVec(Capacity(size), size - Capacity(size));
      mAggrReturnReg := -1;
      i, f := 0, 0;
    }

    /** `dc_callvm_begin_aggr_x64`: a result in memory takes the first integer register. */
    method BeginAggr(d: Description)
      requires Valid() && i == 0 && f == 0 && (d.Known? ==> Passable(d.ag))
      modifies this
      ensures Valid() && View() == old(View()).(ret := if HiddenReturn(d) then 0 else old(mAggrReturnReg))
    {
      if d.Opaque? || d.ag.classes[0] == MEMORY {
        mAggrReturnReg := 0;
      }
    }

    method ArgLongLong(x: Word8)
      requires Valid()
      modifies Repr()
      ensures Valid() && View() == PlaceInt(old(View()), x)
    {
      if i == mAggrReturnReg {
        i := i + 1;
      }
      if i < NUM_INT_REGS {
        ints[i] := x;
        i := i + 1;
      } else {
        vec.Append(x);
      }
    }

    method ArgDouble(x: Word8)
      requires Valid()
      modifies Repr()
      ensures Valid() && View() == PlaceDouble(old(View()), x)
    {
      if f < NUM_FLOAT_REGS {
        floats[f] := x;
        f := f + 1;
      } else {
        vec.Append(x);
      }
    }

    /** `dc_callvm_argAggr_x64` for a described aggregate at `mem`. */
    method ArgAggr(ag: Aggr, mem: seq<byte>)
      requires Valid() && Passable(ag) && Up8(ag.size) <= |mem|
      modifies Repr()
      ensures Valid() && View() == PlaceAggr(old(View()), ag, mem)
    {
      var inMemory := NeedsMemory(ag, i, f);
      if inMemory {
        vec.Append(mem[..ag.size]);
        vec.Skip(Up8(ag.size) - ag.size);
        return;
      }
      var k := 0;
      while k < MAX_NUM_CLASSES && ag.classes[k] != NONE
        invariant 0 <= k <= 2 && Valid()
        invariant PlaceEightbytes(View(), ag, mem, k) == PlaceEightbytes(old(View()), ag, mem, 0)
      {
        var word := Load(mem, 8 * k, 8);
        if ag.classes[k] == INTEGER {
          ArgLongLong(word);
        } else {
          ArgDouble(word);
        }
        k := k + 1;
      }
    }

    method Arg(x: Arg)
      requires Valid() && ValidArg(x)
      modifies Repr()
      ensures Valid() && View() == Place(old(View()), x)
    {
      match x
      case ArgBool(b) => ArgLongLong(SignExtendLE(b, 8));
      case ArgSigned(b) => ArgLongLong(SignExtendLE(b, 8));
      case ArgPointer(p) => ArgLongLong(p);
      case ArgOpaque(p) => ArgLongLong(p);
      case ArgFloat(v, other) => ArgDouble(v + other);
      case ArgDouble(d) => ArgDouble(d);
      case ArgAggr(ag, mem) => ArgAggr(ag, mem);
    }

    /** What arrives at the callee when the result, if it goes to memory, goes to `dest`. */
    function Image(dest: Word8, aggrs: seq<Description>, ret: int): Args
      requires vec.Valid() && ints.Length > 0
      reads Repr()
    {
      Args(0, 0, 0, ret, aggrs, if mAggrReturnReg == 0 then ints[..][0 := dest] else ints[..], floats[..], vec.mem[..])
    }
  }

  /** A result in memory: the callee gets its address in the first integer register. */
  predicate HiddenReturn(d: Description)
    requires d.Known? ==> |d.ag.classes| == MAX_NUM_CLASSES
  {
    d.Opaque? || d.ag.classes[0] == MEMORY
  }

  class DCArgs {
    const ints: seq<Word8>
    const floats: seq<Word8>
    const stack: seq<byte>
    const aggrReturnRegister: int
    var stackPtr: nat
    var i: nat
    var f: nat
    var aggrs: seq<Description>

    ghost predicate Valid() reads this {
      View().Valid() && AllPassable(aggrs)
    }

    function View(): Args reads this {
      Args(stackPtr, i, f, aggrReturnRegister, aggrs, ints, floats, stack)
    }

    constructor (image: Args)
      requires image.Valid() && AllPassable(image.aggrs)
      ensures Valid() && View() == image
    {
      ints, floats, stack, aggrReturnRegister := image.ints, image.floats, image.stack, image.ret;
      stackPtr, i, f, aggrs := image.sp, image.i, image.f, image.aggrs;
    }

    method ArgI64() returns (x: Word8)
      requires Valid()
      modifies this
      ensures Valid() && (x, View()) == FetchInt(old(View()))
    {
      if i == aggrReturnRegister {
        i := i + 1;
      }
      if i < NUM_INT_REGS {
        x := ints[i];
        i := i + 1;
      } else {
        x := Peek(stack, 8 * stackPtr, 8);
        stackPtr := stackPtr + 1;
      }
    }

    method ArgF64() returns (x: Word8)
      requires Valid()
      modifies this
      ensures Valid() && (x, View()) == FetchDouble(old(View()))
    {
      if f < NUM_FLOAT_REGS {
        x := floats[f];
        f := f + 1;
      } else {
        x := Peek(stack, 8 * stackPtr, 8);
        stackPtr := stackPtr + 1;
      }
    }

    /** `dcbArgAggr` once the description has been taken and is not NULL.  The assertion in the
        loop is the source's own: neither a slot mismatch nor an unknown class can occur. */
    method ArgAggr(ag: Aggr, target: array<byte>)
      requires Valid() && Passable(ag) && ag.size <= target.Length
      modifies this, target
      ensures Valid() && (target[..], View()) == FetchAggr(old(View()), ag, old(target[..]))
    {
      var inMemory := NeedsMemory(ag, i, f);
      if inMemory {
        CopyTo(target, 0, Peek(stack, 8 * stackPtr, ag.size));
        stackPtr := stackPtr + (ag.size + 7) / 8;
        return;
      }
      ArgEightbytes(ag, target);
    }

    method ArgEightbytes(ag: Aggr, target: array<byte>)
      requires Valid() && Passable(ag) && ag.classes[0] != MEMORY && ag.size <= target.Length
      modifies this, target
      ensures Valid() && (target[..], View()) == FetchEightbytes(old(View()), ag, old(target[..]), 0)
    {
      ghost var all := FetchEightbytes(View(), ag, target[..], 0);
      var k := 0;
      while k < MAX_NUM_CLASSES && ag.classes[k] != NONE
        invariant 0 <= k <= 2 && Valid()
        invariant FetchEightbytes(View(), ag, target[..], k) == all
      {
        var s := ag.size - 8 * k;
        if s >= 8 {
          s := 8;
        }
        assert ag.classes[k] == SSE ==> s == 8 || s == 4;
        assert s == SlotSize(ag.size, k);
        var word := ArgWord(ag.classes[k]);
        CopyTo(target, 8 * k, word[..s]);
        k := k + 1;
      }
    }

    method ArgWord(c: Class) returns (x: Word8)
      requires Valid() && (c == INTEGER || c == SSE)
      modifies this
      ensures Valid() && (x, View()) == FetchWord(old(View()), c)
    {
      if c == INTEGER {
        x := ArgI64();
      } else {
        x := ArgF64();
      }
    }

    method Arg(w: Want) returns (got: Got)
      requires Valid() && CanFetch(View(), w)
      modifies this
      ensures Valid() && (got, View()) == Fetch(old(View()), w)
    {
      match w
      case WantBool =>
        var x := ArgI64();
        got := GotBool(!IsZero(x[..4]));
      case WantSigned(n) =>
        var x := ArgI64();
        got := GotBytes(x[..n]);
      case WantPointer =>
        var x := ArgI64();
        got := GotBytes(x);
      case WantFloat =>
        var x := ArgF64();
        got := GotBytes(x[..4]);
      case WantDouble =>
        var x := ArgF64();
        got := GotBytes(x);
      case WantAggr(bytes) =>
        var d := aggrs[0];
        aggrs := aggrs[1..];
        if d.Opaque? {
          var x := ArgI64();
          got := GotBytes(x);
        } else {
          var target := new byte[|bytes|](k requires 0 <= k < |bytes| => bytes[k]);
          assert target[..] == bytes;
          ArgAggr(d.ag, target);
          got := GotBytes(target[..]);
        }
    }
  }
}
