/** PowerPC 32-bit, big endian: the state shared by the Darwin and the System V conventions
    (dyncall_callvm_ppc32.c, dyncall_args_ppc32.c, dyncall_args_ppc32_sysv.c). */
module Ppc32 {
  import opened Bytes
  import opened Vector

  const INT_REGS: nat := 8
  const FLOAT_REGS: nat := 13

  datatype Arg =
    | ArgBool(truth: Word4)
    | ArgInt(value: seq<byte>)       // char, short, int, long, pointer
    | ArgLongLong(quad: Word8)
    | ArgFloat(float: Word4)
    | ArgDouble(double: Word8)

  predicate ValidArg(x: Arg) {
    x.ArgInt? ==> |x.value| in {1, 2, 4}
  }

  predicate ValidArgs(args: seq<Arg>) {
    forall k :: 0 <= k < |args| ==> ValidArg(args[k])
  }

  /** A floating-point register holds a double, or a float converted to one; converting back gives
      the float again. */
  datatype FloatReg = Wide(double: Word8) | Widened(float: Word4)

  function AsDouble(r: FloatReg): Word8 {
    if r.Wide? then r.double else [0, 0, 0, 0, 0, 0, 0, 0]
  }

  function AsFloat(r: FloatReg): Word4 {
    if r.Widened? then r.float else [0, 0, 0, 0]
  }

  function Join(hi: Word4, lo: Word4): Word8 {
    hi + lo
  }

  /** Bools are normalised before they are passed. */
  function Truth(b: Word4): Word4 {
    [0, 0, 0, if IsZero(b) then 0 else 1]
  }

  datatype Vm = Vm(i: nat, f: nat, ints: seq<Word4>, floats: seq<FloatReg>, vec: Vec) {
    predicate Valid() {
      && i <= INT_REGS && f <= FLOAT_REGS && |ints| == INT_REGS && |floats| == FLOAT_REGS
      && vec.total <= |vec.mem|
    }
  }

  /** `DCArgs`; the stack pointer counts bytes from an 8-byte boundary. */
  datatype Args = Args(sp: nat, i: nat, f: nat, ints: seq<Word4>, floats: seq<FloatReg>, stack: seq<byte>) {
    predicate Valid() {
      i <= INT_REGS && f <= FLOAT_REGS && |ints| == INT_REGS && |floats| == FLOAT_REGS
    }
  }

  datatype Want = WantInt(width: nat) | WantLongLong | WantFloat | WantDouble

  /** What the handler asks for; a bool is fetched as an int. */
  function WantFor(x: Arg): Want {
    match x
    case ArgBool(_) => WantInt(4)
    case ArgInt(b) => WantInt(|b|)
    case ArgLongLong(_) => WantLongLong
    case ArgFloat(_) => WantFloat
    case ArgDouble(_) => WantDouble
  }

  /** The bytes the handler gets. */
  function Sent(x: Arg): seq<byte> {
    match x
    case ArgBool(b) => Truth(b)
    case ArgInt(b) => b
    case ArgLongLong(l) => l
    case ArgFloat(v) => v
    case ArgDouble(v) => v
  }

  /** What the call kernel hands over. */
  function Image(vm: Vm): Args {
    Args(0, 0, 0, vm.ints, vm.floats, vm.vec.mem)
  }

  ghost predicate SameImage(a: Args, b: Args) {
    a.ints == b.ints && a.floats == b.floats && a.stack == b.stack
  }

  /** The image holds what was placed so far. */
  ghost predicate Holds(a: Args, vm: Vm)
    requires a.Valid() && vm.Valid()
  {
    && (forall k :: 0 <= k < vm.i ==> a.ints[k] == vm.ints[k])
    && (forall k :: 0 <= k < vm.f ==> a.floats[k] == vm.floats[k])
    && Agree(vm.vec.mem, a.stack, vm.vec.size)
  }

  /** Both sides stand at the same register and stack offset. */
  ghost predicate InStep(vm: Vm, a: Args) {
    a.i == vm.i && a.f == vm.f && a.sp == vm.vec.size
  }
}
