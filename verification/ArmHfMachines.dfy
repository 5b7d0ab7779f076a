/** The two ARM hard-float machines as the program runs them. */
module ArmHfMachines {
  import opened Bytes
  import opened Vector
  import opened ArmHf
  import opened ArmHfRoundTrip
  import opened ArmHfConverse

  class DCCallVM {
    const singles: array<Word4>
    const vec: DCVec
    var i: nat
    var s: nat
    var d: nat

    ghost function Repr(): set<object> {
      {this, singles, vec, vec.mem}
    }

    ghost predicate Valid() reads Repr() {
      singles.Length == 16 && vec.Valid() && View().Valid()
    }

    function View(): Vm
      requires vec.Valid()
      reads Repr()
    {
      Vm(i, s, d, singles[..], vec.View())
    }

    /** `dcNewCallVM`: 16 bytes more than asked for, which hold the core registers. */
    constructor (size: nat)
      ensures Valid() && fresh(Repr())
      ensures View().Count() == Counters(0, 0, 0, 16) && View().vec.total == size && |View().vec.mem| == size + 16
    {
      singles := new Word4[16](_ => [0, 0, 0, 0]);
      vec := new DCVec(size, 16);
      i, s, d := 0, 0, 0;
      new;
      vec.Resize(16);
    }

    method ArgInt(x: Word4)
      requires Valid()
      modifies Repr()
      ensures Valid() && View() == PlaceInt(old(View()), x)
    {
      if i < 16 {
        vec.PutAt(i, x);
        i := i + 4;
      } else {
        vec.Append(x);
      }
    }

    /** 64-bit values on the stack are aligned to 8 bytes. */
    method AppendAligned(x: Word8)
      requires vec.Valid()
      modifies vec, vec.mem
      ensures vec.View() == VecAppend(VecSkip(old(vec.View()), Align8(old(vec.mSize)) - old(vec.mSize)), x)
    {
      vec.Skip(if vec.mSize % 8 >= 4 then 4 else 0);
      vec.Append(x);
    }

    method ArgLongLong(x: Word8)
      requires Valid()
      modifies Repr()
      ensures Valid() && View() == PlaceLongLong(old(View()), x)
    {
      i := Pair(i);
      if i < 16 {
        vec.PutAt(i, x);
        i := i + 8;
      } else {
        AppendAligned(x);
      }
    }

    method ArgFloat(x: Word4)
      requires Valid()
      modifies Repr()
      ensures Valid() && View() == PlaceFloat(old(View()), x)
    {
      if s < 16 {
        singles[s] := x;
        s := s + 1;
        if d < s {
          d := (s + 1) / 2 * 2;
        } else {
          s := d;
        }
      } else {
        vec.Append(x);
      }
    }

    method StorePair(x: Word8)
      requires d + 1 < singles.Length
      modifies singles
      ensures singles[..] == old(singles[..])[d := x[..4]][d + 1 := x[4..]]
    {
      singles[d], singles[d + 1] := x[..4], x[4..];
    }

    method ArgDouble(x: Word8)
      requires Valid()
      modifies Repr()
      ensures Valid() && View() == PlaceDouble(old(View()), x)
    {
      if d < 16 {
        PairArg(x);
      } else {
        s := 16;
        AppendAligned(x);
      }
    }

    /** A double with a pair of registers left. */
    method PairArg(x: Word8)
      requires Valid() && d < 16
      modifies this, singles
      ensures Valid() && View() == PlaceDouble(old(View()), x)
    {
      StorePair(x);
      d := d + 2;
      if s % 2 == 0 {
        s := d;
      }
    }

    method Arg(x: Arg)
      requires Valid() && ValidArg(x)
      modifies Repr()
      ensures Valid() && View() == Place(old(View()), x)
    {
      match x
      case ArgBool(b) => ArgInt(b);
      case ArgInt(b) => ArgInt(SignExtendLE(b, 4));
      case ArgLongLong(l) => ArgLongLong(l);
      case ArgFloat(v) => ArgFloat(v);
      case ArgDouble(v) => ArgDouble(v);
    }
  }

  class DCArgs {
    const regs: seq<Word4>
    const singles: seq<Word4>
    const stack: seq<byte>
    var stackPtr: nat
    var regCount: nat
    var fregCount: nat
    var dregCount: nat

    ghost predicate Valid() reads this {
      View().Valid()
    }

    function View(): Args reads this {
      Args(stackPtr, regCount, fregCount, dregCount, regs, singles, stack)
    }

    constructor (image: Args)
      requires image.Valid()
      ensures Valid() && View() == image
    {
      regs, singles, stack := image.regs, image.singles, image.stack;
      stackPtr, regCount, fregCount, dregCount := image.sp, image.rc, image.fc, image.dc;
    }

    method ArmAlign64()
      requires Valid()
      modifies this
      ensures Valid() && View() == Align64(old(View()))
    {
      if regCount < 4 {
        regCount := (regCount + 1) / 2 * 2;
      }
      if regCount >= 4 && stackPtr % 2 == 1 {
        stackPtr := stackPtr + 1;
      }
    }

    method ArmWord() returns (x: Word4)
      requires Valid()
      modifies this
      ensures Valid() && (x, View()) == FetchWord(old(View()))
    {
      if regCount < 4 {
        x := regs[regCount];
        regCount := regCount + 1;
      } else {
        x := Peek(stack, 4 * stackPtr, 4);
        stackPtr := stackPtr + 1;
      }
    }

    method ArmLongLong() returns (x: Word8)
      requires Valid()
      modifies this
      ensures Valid() && (x, View()) == FetchTwoWords(old(View()))
    {
      ArmAlign64();
      var lo := ArmWord();
      var hi := ArmWord();
      x := Join(lo, hi);
    }

    method ArmFloat() returns (x: Word4)
      requires Valid()
      modifies this
      ensures Valid() && (x, View()) == FetchFloat(old(View()))
    {
      if fregCount < 16 {
        x := singles[fregCount];
        fregCount := fregCount + 1;
        if fregCount % 2 == 0 && fregCount < dregCount {
          fregCount := dregCount;
        }
        return;
      }
      x := ArmWord();
    }

    method ArmDouble() returns (x: Word8)
      requires Valid()
      modifies this
      ensures Valid() && (x, View()) == FetchDouble(old(View()))
    {
      if dregCount < fregCount {
        dregCount := (fregCount + 1) / 2 * 2;
      }
      if dregCount < 16 {
        x := Join(singles[dregCount], singles[dregCount + 1]);
        dregCount := dregCount + 2;
        if fregCount % 2 == 0 {
          fregCount := dregCount;
        }
        return;
      }
      fregCount := 16;
      x := ArmLongLong();
    }

    method Arg(w: Want) returns (got: Got)
      requires Valid() && (w.WantInt? ==> w.width <= 4)
      modifies this
      ensures Valid() && (got, View()) == Fetch(old(View()), w)
    {
      match w
      case WantBool =>
        var x := ArmWord();
        got := GotBool(!IsZero(x));
      case WantInt(n) =>
        var x := ArmWord();
        got := GotBytes(x[..n]);
      case WantLongLong =>
        var x := ArmLongLong();
        got := GotBytes(x);
      case WantFloat =>
        var x := ArmFloat();
        got := GotBytes(x);
      case WantDouble =>
        var x := ArmDouble();
        got := GotBytes(x);
    }
  }

  /** Fetching the next argument returns it and leaves the rest to be delivered. */
  lemma DeliversNext(a: Args, args: seq<Arg>, j: nat)
    requires a.Valid() && ValidArgs(args) && j < |args| && Delivers(a, args[j..])
    ensures var (got, a') := Fetch(a, WantFor(args[j])); got == Sent(args[j]) && Delivers(a', args[j + 1..])
  {
    assert args[j..][0] == args[j] && args[j..][1..] == args[j + 1..];
  }

  /** What has been fetched is what was sent, and the rest is to be delivered. */
  ghost predicate Fetched(a: Args, args: seq<Arg>, got: seq<Got>)
    requires a.Valid() && ValidArgs(args)
  {
    |got| <= |args| && Delivers(a, args[|got|..]) && forall j :: 0 <= j < |got| ==> got[j] == Sent(args[j])
  }

  method FetchNext(dcArgs: DCArgs, args: seq<Arg>, got: seq<Got>) returns (got': seq<Got>)
    requires dcArgs.Valid() && ValidArgs(args) && Fetched(dcArgs.View(), args, got) && |got| < |args|
    modifies dcArgs
    ensures dcArgs.Valid() && Fetched(dcArgs.View(), args, got') && |got'| == |got| + 1
  {
    DeliversNext(dcArgs.View(), args, |got|);
    var value := dcArgs.Arg(WantFor(args[|got|]));
    got' := got + [value];
  }

  method FetchArgs(dcArgs: DCArgs, args: seq<Arg>) returns (got: seq<Got>)
    requires dcArgs.Valid() && ValidArgs(args) && Delivers(dcArgs.View(), args)
    modifies dcArgs
    ensures |got| == |args| && forall k :: 0 <= k < |args| ==> got[k] == Sent(args[k])
  {
    got := [];
    assert args[0..] == args;
    while |got| < |args|
      invariant |got| <= |args| && dcArgs.Valid() && Fetched(dcArgs.View(), args, got)
    {
      got := FetchNext(dcArgs, args, got);
    }
  }

  /** A whole call: if its types are safe and fit, the handler gets every argument. */
  method Transfer(size: nat, args: seq<Arg>) returns (got: seq<Got>)
    requires ValidArgs(args)
    requires Room(Counters(0, 0, 0, 16), size, Kinds(args)) && Safe(Counters(0, 0, 0, 16), 0, Kinds(args))
    ensures |got| == |args| && forall k :: 0 <= k < |args| ==> got[k] == Sent(args[k])
  {
    var vm := new DCCallVM(size);
    ghost var start := vm.View();
    var k := 0;
    while k < |args|
      invariant 0 <= k <= |args| && vm.Valid() && fresh(vm.Repr())
      invariant PlaceAll(vm.View(), args[k..]) == PlaceAll(start, args)
    {
      vm.Arg(args[k]);
      k := k + 1;
    }
    RoundTripIff(start, Kinds(args));
    assert Delivers(Image(vm.View()), args);
    var dcArgs := new DCArgs(Image(vm.View()));
    got := FetchArgs(dcArgs, args);
  }
}
