/** The two Apple arm64 machines as the program runs them.  The source has one function per type;
    they differ in the width, which is a parameter here. */
module Arm64AppleMachines {
  import opened Bytes
  import opened Vector
  import opened Arm64Apple

  class DCCallVM {
    const ints: array<Word8>
    const floats: array<Word8>
    const vec: DCVec
    var i: nat
    var f: nat

    ghost function Repr(): set<object> {
      {this, ints, floats, vec, vec.mem}
    }

    ghost predicate Valid() reads Repr() {
      vec.Valid() && ints != floats && View().Valid()
    }

    function View(): Vm
      requires vec.Valid()
      reads Repr()
    {
      Vm(i, f, ints[..], floats[..], vec.View())
    }

    constructor (size: nat)
      ensures Valid() && fresh(Repr())
      ensures Count(View()) == Counters(0, 0, 0) && vec.mTotal == size
    {
      ints := new Word8[REGS](_ => [0, 0, 0, 0, 0, 0, 0, 0]);
      floats := new Word8[REGS](_ => [0, 0, 0, 0, 0, 0, 0, 0]);
      vec := new DCVec(size, 0);
      i, f := 0, 0;
    }

    /** `dcVecAlign` and `dcVecAppend`. */
    method Spill(x: Arg)
      requires vec.Valid() && ValidArg(x)
      modifies vec, vec.mem
      ensures vec.View() == AppendPacked(old(vec.View()), x)
    {
      vec.Resize(RoundUp(vec.mSize, Width(x)));
      vec.Append(Sent(x));
    }

    method Arg(x: Arg)
      requires Valid() && ValidArg(x)
      modifies Repr()
      ensures Valid() && View() == Place(old(View()), x)
    {
      match x {
        case ArgSigned(b) =>
          if i < 8 {
            ints[i] := SignExtendLE(b, 8);
            i := i + 1;
          } else {
            Spill(x);
          }
        case ArgPointer(p) =>
          if i < 8 {
            ints[i] := p;
            i := i + 1;
          } else {
            Spill(x);
          }
        case ArgFloat(v) =>
          if f < 8 {
            floats[f] := v + floats[f][4..];
            f := f + 1;
          } else {
            Spill(x);
          }
        case ArgDouble(v) =>
          if f < 8 {
            floats[f] := v;
            f := f + 1;
          } else {
            Spill(x);
          }
      }
    }
  }

  class DCArgs {
    const ints: seq<Word8>
    const floats: seq<Word8>
    const stack: seq<byte>
    var sp: nat
    var i: nat
    var f: nat

    ghost predicate Valid() reads this {
      View().Valid()
    }

    function View(): Args reads this {
      Args(sp, i, f, ints, floats, stack)
    }

    constructor (image: Args)
      requires image.Valid()
      ensures Valid() && View() == image
    {
      ints, floats, stack := image.ints, image.floats, image.stack;
      sp, i, f := image.sp, image.i, image.f;
    }

    method Arg(w: Want) returns (got: seq<byte>)
      requires Valid() && w.Valid()
      modifies this
      ensures Valid() && (got, View()) == Fetch(old(View()), w)
    {
      var n := w.Width();
      if w.WantFloat? || w.WantDouble? {
        if f < 8 {
          got := floats[f][..n];
          f := f + 1;
          return;
        }
      } else if i < 8 {
        got := ints[i][..n];
        i := i + 1;
        return;
      }
      sp := RoundUp(sp, n);
      got := Peek(stack, sp, n);
      sp := sp + n;
    }
  }

  /** Fetching the next argument returns it and leaves the rest to be delivered. */
  lemma DeliversNext(a: Args, args: seq<Arg>, j: nat)
    requires a.Valid() && ValidArgs(args) && j < |args| && Delivers(a, args[j..])
    ensures var (got, a') := Fetch(a, WantFor(args[j])); got == Sent(args[j]) && Delivers(a', args[j + 1..])
  {
    assert args[j..][0] == args[j] && args[j..][1..] == args[j + 1..];
  }

  /** What has been fetched is what was sent, and the rest is to be delivered. */
  ghost predicate Fetched(a: Args, args: seq<Arg>, got: seq<seq<byte>>)
    requires a.Valid() && ValidArgs(args)
  {
    |got| <= |args| && Delivers(a, args[|got|..]) && forall j :: 0 <= j < |got| ==> got[j] == Sent(args[j])
  }

  method FetchNext(dcArgs: DCArgs, args: seq<Arg>, got: seq<seq<byte>>) returns (got': seq<seq<byte>>)
    requires dcArgs.Valid() && ValidArgs(args) && Fetched(dcArgs.View(), args, got) && |got| < |args|
    modifies dcArgs
    ensures dcArgs.Valid() && Fetched(dcArgs.View(), args, got') && |got'| == |got| + 1
  {
    DeliversNext(dcArgs.View(), args, |got|);
    var value := dcArgs.Arg(WantFor(args[|got|]));
    got' := got + [value];
  }

  method FetchArgs(dcArgs: DCArgs, args: seq<Arg>) returns (got: seq<seq<byte>>)
    requires dcArgs.Valid() && ValidArgs(args) && Delivers(dcArgs.View(), args)
    modifies dcArgs
    ensures |got| == |args| && forall k :: 0 <= k < |args| ==> got[k] == Sent(args[k])
  {
    got := [];
    assert args[0..] == args;
    while |got| < |args|
      invariant |got| <= |args| && dcArgs.Valid() && Fetched(dcArgs.View(), args, got)
    {
      got := FetchNext(dcArgs, args, got);
    }
  }

  /** A whole call: arguments of any widths, in any order, reach the handler. */
  method Transfer(size: nat, args: seq<Arg>) returns (got: seq<seq<byte>>)
    requires ValidArgs(args) && SizeAfter(Counters(0, 0, 0), args) <= size
    ensures |got| == |args| && forall k :: 0 <= k < |args| ==> got[k] == Sent(args[k])
  {
    var vm := new DCCallVM(size);
    ghost var start := vm.View();
    var k := 0;
    while k < |args|
      invariant 0 <= k <= |args| && vm.Valid() && fresh(vm.Repr())
      invariant PlaceAll(vm.View(), args[k..]) == PlaceAll(start, args)
    {
      vm.Arg(args[k]);
      k := k + 1;
    }
    PlaceAllCounts(start, args);
    RoundTrip(start, args, Image(vm.View()));
    var dcArgs := new DCArgs(Image(vm.View()));
    got := FetchArgs(dcArgs, args);
  }
}
