/** Whole System V calls: the callback's signature scan (dyncall_callback_x64.c), arguments on their
    way through both machines, and aggregates returned by value. */
module SysVCalls {
  import opened Bytes
  import opened Aggregate
  import opened CloseAggr
  import opened SysV
  import opened SysVRoundTrip
  import opened SysVMachines

  // ----- the signature scan -----

  function CountAggrs(sig: string): nat {
    if sig == [] then 0 else (if sig[|sig| - 1] == 'A' then 1 else 0) + CountAggrs(sig[..|sig| - 1])
  }

  /** A signature without its calling convention prefix. */
  function Types(sig: string): string
    requires sig != [] && sig[0] == '_' ==> |sig| >= 2
  {
    if sig != [] && sig[0] == '_' then sig[2..] else sig
  }

  /** What the callback records about its result: 0 for a hidden pointer in the first register, -1
      for an aggregate in registers, -2 for anything else. */
  function ReturnRegister(sig: string, aggrs: seq<Description>): int
    requires sig != [] && sig[0] == '_' ==> |sig| >= 2
    requires CountAggrs(Types(sig)) <= |aggrs|
    requires forall d <- aggrs :: d.Known? ==> |d.ag.classes| == MAX_NUM_CLASSES
  {
    var t := Types(sig);
    if t != [] && t[|t| - 1] == 'A' then (if HiddenReturn(aggrs[CountAggrs(t) - 1]) then 0 else -1) else -2
  }

  /** `dcbInitCallback2`.  A prefix comes with its mode character, and `aggrs` has a description
      for every aggregate of the signature. */
  method InitCallback(sig: string, aggrs: seq<Description>) returns (register: int)
    requires sig != [] && sig[0] == '_' ==> |sig| >= 2
    requires CountAggrs(Types(sig)) <= |aggrs|
    requires forall d <- aggrs :: d.Known? ==> |d.ag.classes| == MAX_NUM_CLASSES
    ensures register == ReturnRegister(sig, aggrs)
  {
    var ch := 0;
    var numAggrs := 0;
    register := -2;
    if sig != [] && sig[0] == '_' {
      ch := 2;
    }
    ghost var start := ch;
    while ch < |sig|
      invariant start <= ch <= |sig|
      invariant numAggrs == CountAggrs(sig[start..ch])
    {
      assert sig[start..ch + 1][..ch - start] == sig[start..ch];
      numAggrs := numAggrs + if sig[ch] == 'A' then 1 else 0;
      ch := ch + 1;
    }
    assert sig[start..ch] == Types(sig);
    if numAggrs != 0 {
      if ch != 0 && sig[ch - 1] == 'A' {
        var d := aggrs[numAggrs - 1];
        register := if d.Opaque? || d.ag.classes[0] == MEMORY then 0 else -1;
      }
    }
  }

  /** The result type of a call. */
  datatype Result = Scalar(sigChar: char) | Aggregate(d: Description)

  ghost predicate ValidResult(r: Result) {
    match r
    case Scalar(c) => c != 'A'
    case Aggregate(d) => d.Known? ==> Passable(d.ag)
  }

  function SigChar(x: Arg): char {
    match x
    case ArgBool(_) => 'B'
    case ArgSigned(b) => if |b| == 1 then 'c' else if |b| == 2 then 's' else if |b| == 4 then 'i' else 'l'
    case ArgPointer(_) => 'p'
    case ArgOpaque(_) => 'A'
    case ArgFloat(_, _) => 'f'
    case ArgDouble(_) => 'd'
    case ArgAggr(_, _) => 'A'
  }

  function ArgChars(args: seq<Arg>): string {
    if args == [] then [] else ArgChars(args[..|args| - 1]) + [SigChar(args[|args| - 1])]
  }

  function Signature(args: seq<Arg>, result: Result): string {
    ArgChars(args) + [')', match result case Scalar(c) => c case Aggregate(_) => 'A']
  }

  function ResultDescription(result: Result): seq<Description> {
    match result
    case Scalar(_) => []
    case Aggregate(d) => [d]
  }

  lemma {:induction false} DescriptionsSnoc(args: seq<Arg>, x: Arg)
    ensures Descriptions(args + [x]) == Descriptions(args) + Descriptions([x])
  {
    if args == [] {
      assert [] + [x] == [x];
    } else {
      assert (args + [x])[1..] == args[1..] + [x];
      DescriptionsSnoc(args[1..], x);
    }
  }

  /** The scan counts one aggregate for each description the arguments need. */
  lemma {:induction false} CountArgChars(args: seq<Arg>)
    ensures CountAggrs(ArgChars(args)) == |Descriptions(args)|
  {
    if args != [] {
      var init, last := args[..|args| - 1], args[|args| - 1];
      CountArgChars(init);
      DescriptionsSnoc(init, last);
      assert init + [last] == args;
      assert ArgChars(args)[..|ArgChars(init)|] == ArgChars(init);
      assert |Descriptions([last])| == if SigChar(last) == 'A' then 1 else 0;
    }
  }

  lemma {:induction false} NoPrefix(args: seq<Arg>)
    ensures args != [] ==> ArgChars(args) != [] && ArgChars(args)[0] != '_'
  {
    if args != [] {
      NoPrefix(args[..|args| - 1]);
    }
  }

  lemma {:induction false} ArgCharsLength(args: seq<Arg>)
    ensures |ArgChars(args)| == |args|
  {
    if args != [] {
      ArgCharsLength(args[..|args| - 1]);
    }
  }

  /** No prefix, or an underscore and a mode character. */
  predicate IsPrefix(prefix: string) {
    prefix == [] || (|prefix| == 2 && prefix[0] == '_')
  }

  lemma TypesOfSignature(prefix: string, args: seq<Arg>, result: Result)
    requires IsPrefix(prefix)
    ensures var sig := prefix + Signature(args, result); (sig[0] == '_' ==> |sig| >= 2) && Types(sig) == Signature(args, result)
  {
    NoPrefix(args);
    if prefix == [] {
      assert prefix + Signature(args, result) == Signature(args, result);
    }
  }

  /** The descriptions a callback with this signature is given. */
  function AllDescriptions(args: seq<Arg>, result: Result): seq<Description> {
    Descriptions(args) + ResultDescription(result)
  }

  lemma CountSignature(args: seq<Arg>, result: Result)
    requires ValidArgs(args) && ValidResult(result)
    ensures CountAggrs(Signature(args, result)) == |AllDescriptions(args, result)|
    ensures AllPassable(AllDescriptions(args, result))
  {
    var sig := Signature(args, result);
    CountArgChars(args);
    ArgCharsLength(args);
    DescriptionsPassable(args);
    var n := |sig| - 1;
    assert sig[..n] == ArgChars(args) + [')'];
    assert sig[..n][..n - 1] == ArgChars(args);
    assert CountAggrs(sig[..n]) == |Descriptions(args)|;
  }

  /** Caller and callback agree on whether the result goes through a hidden pointer: the register
      the callback records is the one `dc_callvm_begin_aggr_x64` holds back. */
  lemma HiddenPointerAgreed(prefix: string, args: seq<Arg>, result: Result)
    requires IsPrefix(prefix) && ValidArgs(args) && ValidResult(result)
    ensures var sig, aggrs := prefix + Signature(args, result), AllDescriptions(args, result);
            && (sig[0] == '_' ==> |sig| >= 2) && CountAggrs(Types(sig)) == |aggrs| && AllPassable(aggrs)
            && ReturnRegister(sig, aggrs) ==
                 if result.Scalar? then -2 else if HiddenReturn(result.d) then 0 else -1
  {
    TypesOfSignature(prefix, args, result);
    CountSignature(args, result);
    assert forall d <- AllDescriptions(args, result) :: d.Known? ==> |d.ag.classes| == MAX_NUM_CLASSES;
  }

  // ----- arguments through a whole call -----

  /** A fresh call VM, told about the result. */
  ghost function Start(size: nat, result: Result): (r: Vm)
    requires ValidResult(result)
    ensures r.Valid()
  {
    Fresh(size, if result.Aggregate? && HiddenReturn(result.d) then 0 else -1)
  }

  ghost predicate Room(size: nat, result: Result, args: seq<Arg>)
    requires ValidArgs(args) && ValidResult(result)
  {
    Fits(Start(size, result), args)
  }

  /** Argument `k` is delivered as `got`. */
  ghost predicate DeliveredAt(start: Vm, args: seq<Arg>, wants: seq<Want>, k: nat, got: Got)
    requires start.Valid() && ValidArgs(args) && k < |args| == |wants|
  {
    Delivered(PlaceAll(start, args[..k]), args[k], wants[k], got)
  }

  /** The handler got the first arguments, placed from `start` on. */
  ghost predicate AllDelivered(start: Vm, args: seq<Arg>, wants: seq<Want>, got: seq<Got>)
    requires start.Valid() && ValidArgs(args) && |args| == |wants|
  {
    |got| <= |args| && forall k :: 0 <= k < |got| ==> DeliveredAt(start, args, wants, k, got[k])
  }

  method PlaceArgs(vm: DCCallVM, args: seq<Arg>)
    requires vm.Valid() && ValidArgs(args)
    modifies vm.Repr()
    ensures vm.Valid() && vm.View() == PlaceAll(old(vm.View()), args)
  {
    var k := 0;
    while k < |args|
      invariant 0 <= k <= |args| && vm.Valid()
      invariant PlaceAll(vm.View(), args[k..]) == PlaceAll(old(vm.View()), args)
    {
      vm.Arg(args[k]);
      k := k + 1;
    }
  }

  /** What remains to be fetched after `k` arguments. */
  ghost predicate Pending(start: Vm, a: Args, args: seq<Arg>, wants: seq<Want>, rest: seq<Description>, k: nat)
    requires start.Valid() && a.Valid() && ValidArgs(args) && AllMatch(args, wants) && k <= |args|
  {
    Delivers(PlaceAll(start, args[..k]), a, args[k..], wants[k..], rest)
  }

  lemma OneMore(start: Vm, args: seq<Arg>, k: nat)
    requires start.Valid() && ValidArgs(args) && k < |args|
    ensures PlaceAll(start, args[..k + 1]) == Place(PlaceAll(start, args[..k]), args[k])
  {
    assert args[..k + 1] == args[..k] + [args[k]];
    PlaceAllSnoc(start, args[..k], args[k]);
  }

  lemma DeliversFirst(vm: Vm, a: Args, args: seq<Arg>, wants: seq<Want>, rest: seq<Description>,
                     x: Arg, xs: seq<Arg>, w: Want, ws: seq<Want>)
    requires vm.Valid() && a.Valid() && ValidArgs(args) && AllMatch(args, wants) && Delivers(vm, a, args, wants, rest)
    requires args == [x] + xs && wants == [w] + ws
    ensures ValidArg(x) && ValidArgs(xs) && AllMatch(xs, ws) && CanFetch(a, w) && AllPassable(a.aggrs)
    ensures var (got, a') := Fetch(a, w); Delivered(vm, x, w, got) && Delivers(Place(vm, x), a', xs, ws, rest)
  {
    assert args[1..] == xs && wants[1..] == ws;
  }

  /** Fetching the next argument delivers it and leaves the rest. */
  lemma PendingNext(start: Vm, a: Args, args: seq<Arg>, wants: seq<Want>, rest: seq<Description>, k: nat)
    requires start.Valid() && a.Valid() && ValidArgs(args) && AllMatch(args, wants) && k < |args|
    requires Pending(start, a, args, wants, rest, k)
    ensures CanFetch(a, wants[k]) && AllPassable(a.aggrs)
    ensures var (got, a') := Fetch(a, wants[k]);
            DeliveredAt(start, args, wants, k, got) && Pending(start, a', args, wants, rest, k + 1)
  {
    DeliversFirst(PlaceAll(start, args[..k]), a, args[k..], wants[k..], rest,
                  args[k], args[k + 1..], wants[k], wants[k + 1..]);
    OneMore(start, args, k);
  }

  lemma DeliveredSnoc(start: Vm, args: seq<Arg>, wants: seq<Want>, got: seq<Got>, value: Got)
    requires start.Valid() && ValidArgs(args) && |args| == |wants| && |got| < |args|
    requires AllDelivered(start, args, wants, got) && DeliveredAt(start, args, wants, |got|, value)
    ensures AllDelivered(start, args, wants, got + [value])
  {
    var longer := got + [value];
    forall k | 0 <= k < |longer|
      ensures DeliveredAt(start, args, wants, k, longer[k])
    {
      if k < |got| {
        assert DeliveredAt(start, args, wants, k, got[k]);
      }
    }
  }

  /** What has been fetched is delivered, the rest is pending. */
  ghost predicate Fetched(start: Vm, a: Args, args: seq<Arg>, wants: seq<Want>, rest: seq<Description>, got: seq<Got>)
    requires start.Valid() && a.Valid() && ValidArgs(args) && AllMatch(args, wants)
  {
    AllDelivered(start, args, wants, got) && Pending(start, a, args, wants, rest, |got|)
  }

  lemma FetchedNothing(start: Vm, a: Args, args: seq<Arg>, wants: seq<Want>, rest: seq<Description>)
    requires start.Valid() && a.Valid() && ValidArgs(args) && AllMatch(args, wants) && Delivers(start, a, args, wants, rest)
    ensures Fetched(start, a, args, wants, rest, [])
  {
    assert args[0..] == args && wants[0..] == wants;
  }

  method FetchNext(dcArgs: DCArgs, ghost start: Vm, ghost args: seq<Arg>, wants: seq<Want>, ghost rest: seq<Description>,
                   got: seq<Got>)
    returns (got': seq<Got>)
    requires dcArgs.Valid() && start.Valid() && ValidArgs(args) && AllMatch(args, wants)
    requires |got| < |args| && Fetched(start, dcArgs.View(), args, wants, rest, got)
    modifies dcArgs
    ensures dcArgs.Valid() && |got'| == |got| + 1 && Fetched(start, dcArgs.View(), args, wants, rest, got')
  {
    PendingNext(start, dcArgs.View(), args, wants, rest, |got|);
    var value := dcArgs.Arg(wants[|got|]);
    DeliveredSnoc(start, args, wants, got, value);
    got' := got + [value];
  }

  method FetchArgs(dcArgs: DCArgs, ghost start: Vm, ghost args: seq<Arg>, wants: seq<Want>, ghost rest: seq<Description>)
    returns (got: seq<Got>)
    requires dcArgs.Valid() && start.Valid() && ValidArgs(args) && AllMatch(args, wants)
    requires Delivers(start, dcArgs.View(), args, wants, rest)
    modifies dcArgs
    ensures dcArgs.Valid() && dcArgs.aggrs == rest
    ensures |got| == |args| && AllDelivered(start, args, wants, got)
  {
    got := [];
    FetchedNothing(start, dcArgs.View(), args, wants, rest);
    while |got| < |wants|
      invariant |got| <= |wants| && dcArgs.Valid()
      invariant Fetched(start, dcArgs.View(), args, wants, rest, got)
    {
      got := FetchNext(dcArgs, start, args, wants, rest, got);
    }
  }

  /** What is delivered depends on the counters alone. */
  lemma SameDelivery(start: Vm, start': Vm, args: seq<Arg>, wants: seq<Want>, got: seq<Got>)
    requires start.Valid() && start'.Valid() && SameCounters(start, start') && ValidArgs(args) && |args| == |wants|
    requires AllDelivered(start, args, wants, got)
    ensures AllDelivered(start', args, wants, got)
  {
    forall k | 0 <= k < |got|
      ensures DeliveredAt(start', args, wants, k, got[k])
    {
      PlaceAllCounters(start, start', args[..k]);
      assert DeliveredAt(start, args, wants, k, got[k]);
    }
  }

  /** The image that reaches the callee holds all arguments; the hidden pointer is written to a
      register that no argument uses. */
  lemma ImageHolds(start: Vm, vm: Vm, args: seq<Arg>, a: Args)
    requires start.Valid() && start.i == 0 && start.f == 0 && start.vec.size == 0
    requires ValidArgs(args) && Fits(start, args) && vm == PlaceAll(start, args)
    requires a.Valid() && a.sp == 0 && a.i == 0 && a.f == 0 && a.ret <= 0 && (a.ret == 0 <==> vm.ret == 0)
    requires a.floats == vm.floats && a.stack == vm.vec.mem && a.ints[1..] == vm.ints[1..]
    requires vm.ret == 0 || a.ints == vm.ints
    ensures InStep(start, a) && Holds(a, PlaceAll(start, args))
  {
    PlaceAllSize(start, args);
    forall k | 0 <= k < vm.i && k != vm.ret
      ensures a.ints[k] == vm.ints[k]
    {
      if k > 0 {
        assert a.ints[1..][k - 1] == vm.ints[1..][k - 1];
      }
    }
  }

  /** The register for a hidden pointer, as the two sides record it. */
  function HiddenRegister(result: Result, none: int): int
    requires result.Aggregate? && result.d.Known? ==> |result.d.ag.classes| == MAX_NUM_CLASSES
  {
    if result.Aggregate? && HiddenReturn(result.d) then 0 else none
  }

  /** A new VM that is told about the result. */
  method Prepared(size: nat, result: Result) returns (vm: DCCallVM, ghost start: Vm)
    requires ValidResult(result)
    ensures vm.Valid() && fresh(vm.Repr()) && vm.View() == start && SameCounters(Start(size, result), start)
  {
    vm := new DCCallVM(size);
    if result.Aggregate? {
      vm.BeginAggr(result.d);
    }
    start := vm.View();
  }

  /** What the callback made for the signature of the call receives. */
  method Received(vm: DCCallVM, prefix: string, args: seq<Arg>, result: Result, dest: Word8) returns (image: Args)
    requires vm.Valid() && IsPrefix(prefix) && ValidArgs(args) && ValidResult(result)
    ensures image == vm.Image(dest, AllDescriptions(args, result), if result.Scalar? then -2 else HiddenRegister(result, -1))
    ensures AllPassable(image.aggrs)
  {
    HiddenPointerAgreed(prefix, args, result);
    var register := InitCallback(prefix + Signature(args, result), AllDescriptions(args, result));
    image := vm.Image(dest, AllDescriptions(args, result), register);
  }

  /** A call made through the VM and received by a callback, up to where the handler has its arguments. */
  method Exchange(size: nat, prefix: string, args: seq<Arg>, wants: seq<Want>, result: Result, dest: Word8)
    returns (got: seq<Got>, vm: DCCallVM, dcArgs: DCArgs)
    requires IsPrefix(prefix) && ValidArgs(args) && ValidResult(result) && AllMatch(args, wants) && Room(size, result, args)
    ensures |got| == |args| && AllDelivered(Start(size, result), args, wants, got)
    ensures fresh(vm.Repr()) && vm.mAggrReturnReg == HiddenRegister(result, -1)
    ensures fresh(dcArgs) && dcArgs.Valid() && dcArgs.aggrs == ResultDescription(result)
    ensures dcArgs.aggrReturnRegister == if result.Scalar? then -2 else HiddenRegister(result, -1)
    ensures dcArgs.aggrReturnRegister == 0 ==> dcArgs.ints[0] == dest
  {
    ghost var start;
    vm, start := Prepared(size, result);
    FitsIgnoresContents(Start(size, result), start, args);
    PlaceArgs(vm, args);
    var image := Received(vm, prefix, args, result, dest);
    ImageHolds(start, vm.View(), args, image);
    RoundTrip(start, args, wants, image, ResultDescription(result));
    dcArgs := new DCArgs(image);
    got := FetchArgs(dcArgs, start, args, wants, ResultDescription(result));
    SameDelivery(start, Start(size, result), args, wants, got);
  }

  /** A call made through the VM and received by a callback: whatever the argument types, if the
      vector has room for them, the handler gets every argument, and finds the address the caller
      gave for a result in memory.  Which bytes of an aggregate travel is what the registers left by
      the arguments before it decide. */
  method Transfer(size: nat, prefix: string, args: seq<Arg>, wants: seq<Want>, result: Result, dest: Word8)
    returns (got: seq<Got>, register: int, hidden: Word8)
    requires IsPrefix(prefix) && ValidArgs(args) && ValidResult(result) && AllMatch(args, wants) && Room(size, result, args)
    ensures |got| == |args| && AllDelivered(Start(size, result), args, wants, got)
    ensures register == 0 <==> result.Aggregate? && HiddenReturn(result.d)
    ensures register == 0 ==> hidden == dest
  {
    var vm, dcArgs;
    got, vm, dcArgs := Exchange(size, prefix, args, wants, result, dest);
    register, hidden := dcArgs.aggrReturnRegister, dcArgs.ints[0];
  }
}
