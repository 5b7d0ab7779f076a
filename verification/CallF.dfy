/** Formatted calls (dyncall_callf.c): a signature is walked over variadic arguments, and walked
    twice if an aggregate is returned, because the VM must know that before the first argument. */
module CallF {
  import opened Options

  /** The type a variadic argument was passed with, and the argument. */
  datatype Slot = Int | Long | LongLong | Double | Pointer
  datatype Value = Value(slot: Slot, bits: int)

  /** The argument functions of the VM. */
  datatype Kind = BoolArg | CharArg | ShortArg | IntArg | LongArg | LongLongArg | FloatArg | DoubleArg | PointerArg | AggrArg

  /** What a formatted call does to the VM. */
  datatype Call =
    | SetMode(mode: int)
    | BeginAggr(ag: Value)
    | Pass(kind: Kind, values: seq<Value>)
    | Invoke(ret: char, hidden: Option<(Value, Value)>)

  class DCCallVM {
    var calls: seq<Call>

    constructor ()
      ensures calls == []
    {
      calls := [];
    }

    method Do(c: Call)
      modifies this
      ensures calls == old(calls) + [c]
    {
      calls := calls + [c];
    }
  }

  // ----- the signature language -----

  /** `Dangling` is a prefix whose mode character ends the string: it is not taken as a mode. */
  datatype Token = Mode(ch: char) | Type(ch: char) | Dangling

  /** Characters a token covers. */
  function Width(t: Token): nat {
    if t.Mode? then 2 else 1
  }

  /** The tokens up to the end of the argument list, or (`all`) up to the end of the string. */
  function Tokens(sig: string, all: bool): seq<Token>
    decreases |sig|
  {
    if sig == [] || (sig[0] == ')' && !all) then []
    else if sig[0] != '_' then [Type(sig[0])] + Tokens(sig[1..], all)
    else if |sig| <= 2 then [Dangling] + Tokens(sig[1..], all)
    else [Mode(sig[1])] + Tokens(sig[2..], all)
  }

  /** No prefix is the last character; there the program would read past the terminator. */
  predicate Readable(sig: string, all: bool)
    decreases |sig|
  {
    sig == [] || (sig[0] == ')' && !all)
    || (if sig[0] != '_' || |sig| <= 2 then (sig[0] == '_' ==> |sig| == 2) && Readable(sig[1..], all)
        else Readable(sig[2..], all))
  }

  predicate WellFormed(ts: seq<Token>) {
    forall k :: 0 <= k < |ts| ==> !ts[k].Dangling? && (ts[k].Type? ==> ts[k].ch != '_' && ts[k].ch != ')')
  }

  function TokenText(t: Token): string {
    if t.Mode? then ['_', t.ch] else if t.Type? then [t.ch] else ['_']
  }

  /** The text of a token list. */
  function Render(ts: seq<Token>): string {
    if ts == [] then [] else TokenText(ts[0]) + Render(ts[1..])
  }

  /** The first token of a text that does not end with it. */
  lemma TokensCons(t: Token, rest: string, all: bool)
    requires WellFormed([t]) && rest != []
    ensures Tokens(TokenText(t) + rest, all) == [t] + Tokens(rest, all)
    ensures Readable(TokenText(t) + rest, all) <==> Readable(rest, all)
  {
    var text := TokenText(t) + rest;
    assert !([t][0]).Dangling?;
    if t.Mode? {
      assert text[2..] == rest;
    } else {
      assert text[1..] == rest;
    }
  }

  /** Reading a text back gives its tokens, whatever the mode characters are. */
  lemma {:induction false} TokensOfRender(ts: seq<Token>, tail: string, all: bool)
    requires WellFormed(ts) && tail != []
    ensures Tokens(Render(ts) + tail, all) == ts + Tokens(tail, all)
    ensures Readable(Render(ts) + tail, all) <==> Readable(tail, all)
    decreases |ts|
  {
    if ts == [] {
      assert Render(ts) + tail == tail;
    } else {
      var rest := Render(ts[1..]) + tail;
      TokensOfRender(ts[1..], tail, all);
      TokensCons(ts[0], rest, all);
      assert Render(ts) + tail == TokenText(ts[0]) + rest;
      assert ts == [ts[0]] + ts[1..];
    }
  }

  // ----- what a signature asks for -----

  /** The type a variadic argument is passed with, by signature character. */
  function SlotOf(ch: char): Slot {
    match ch
    case 'j' => Long
    case 'J' => Long
    case 'l' => LongLong
    case 'L' => LongLong
    case 'f' => Double
    case 'd' => Double
    case 'p' => Pointer
    case 'Z' => Pointer
    case 'A' => Pointer
    case _ => Int
  }

  /** How many variadic arguments a signature character stands for: an aggregate comes as its
      description and its address, and characters that are no type stand for none. */
  function Count(ch: char): nat {
    if ch == 'A' then 2 else if ch in "BcCsSiIjJlLfdpZ" then 1 else 0
  }

  function KindOf(ch: char): Kind {
    match ch
    case 'B' => BoolArg
    case 'c' => CharArg
    case 'C' => CharArg
    case 's' => ShortArg
    case 'S' => ShortArg
    case 'j' => LongArg
    case 'J' => LongArg
    case 'l' => LongLongArg
    case 'L' => LongLongArg
    case 'f' => FloatArg
    case 'd' => DoubleArg
    case 'p' => PointerArg
    case 'Z' => PointerArg
    case 'A' => AggrArg
    case _ => IntArg
  }

  function Takes(t: Token): nat {
    if t.Type? then Count(t.ch) else 0
  }

  /** The number of variadic arguments a token list takes. */
  function Taken(ts: seq<Token>): nat {
    if ts == [] then 0 else Takes(ts[0]) + Taken(ts[1..])
  }

  /** The arguments for one token are there, with the right types. */
  predicate GivenOne(t: Token, args: seq<Value>, va: nat) {
    && va + Takes(t) <= |args|
    && (Takes(t) >= 1 ==> args[va].slot == SlotOf(t.ch))
    && (Takes(t) == 2 ==> args[va + 1].slot == SlotOf(t.ch))
  }

  /** The arguments for a token list are there, from number `va` on. */
  predicate Given(ts: seq<Token>, args: seq<Value>, va: nat)
    decreases |ts|
  {
    ts == [] || (GivenOne(ts[0], args, va) && Given(ts[1..], args, va + Takes(ts[0])))
  }

  /** `dcGetModeFromCCSigChar`. */
  function ModeOf(ch: char): Option<int> {
    match ch
    case ':' => Some(0)
    case '*' => Some(99)
    case 'e' => Some(100)
    case '.' => Some(101)
    case 'c' => Some(1)
    case 's' => Some(2)
    case 'F' => Some(3)
    case 'f' => Some(4)
    case '+' => Some(5)
    case '#' => Some(1)
    case 'A' => Some(14)
    case 'a' => Some(15)
    case '$' => Some(200)
    case _ => None
  }

  function SetModeOf(ch: char): seq<Call> {
    if ModeOf(ch).Some? then [SetMode(ModeOf(ch).value)] else []
  }

  function ModesOf(t: Token): seq<Call> {
    if t.Mode? then SetModeOf(t.ch) else []
  }

  /** The mode switches of a token list. */
  function Modes(ts: seq<Token>): seq<Call> {
    if ts == [] then [] else ModesOf(ts[0]) + Modes(ts[1..])
  }

  function EffectOf(t: Token, args: seq<Value>, va: nat): seq<Call>
    requires GivenOne(t, args, va)
  {
    if t.Mode? then SetModeOf(t.ch)
    else if Takes(t) == 0 then []
    else [Pass(KindOf(t.ch), if Takes(t) == 1 then [args[va]] else [args[va], args[va + 1]])]
  }

  /** What a token list does with the arguments from number `va` on. */
  function Effects(ts: seq<Token>, args: seq<Value>, va: nat): seq<Call>
    requires Given(ts, args, va)
    decreases |ts|
  {
    if ts == [] then [] else EffectOf(ts[0], args, va) + Effects(ts[1..], args, va + Takes(ts[0]))
  }

  /** Where a pass stands: in the signature and in the variadic arguments. */
  datatype Cursor = Cursor(pos: nat, va: nat)

  /** Where the tokens end. */
  function EndOf(ts: seq<Token>, pos: nat): nat {
    if ts == [] then pos else EndOf(ts[1..], pos + Width(ts[0]))
  }

  /** The cursor at every token. */
  function Path(ts: seq<Token>, at: Cursor): seq<Cursor>
    decreases |ts|
  {
    if ts == [] then []
    else [at] + Path(ts[1..], Cursor(at.pos + Width(ts[0]), at.va + Takes(ts[0])))
  }

  // ----- the two passes -----

  /** `handle_mode`: one character beyond the mode character is needed for it to be taken. */
  method HandleMode(vm: DCCallVM, sig: string, pos: nat) returns (next: nat)
    requires pos < |sig|
    modifies vm
    ensures next == if pos + 1 < |sig| then pos + 1 else pos
    ensures vm.calls == old(vm.calls) + if pos + 1 < |sig| then SetModeOf(sig[pos]) else []
  {
    next := pos;
    if pos + 1 < |sig| {
      var mode := ModeOf(sig[pos]);
      next := pos + 1;
      if mode.Some? {
        vm.Do(SetMode(mode.value));
      }
    }
  }

  /** `va_arg`: the argument must have been passed with the type it is read with. */
  function VaArg(args: seq<Value>, va: nat, slot: Slot): Value
    requires va < |args| && args[va].slot == slot
  {
    args[va]
  }

  /** One type character of the argument pass. */
  method ArgOne(vm: DCCallVM, ch: char, args: seq<Value>, va: nat) returns (va': nat)
    requires ch != '_' && GivenOne(Type(ch), args, va)
    modifies vm
    ensures va' == va + Count(ch)
    ensures vm.calls == old(vm.calls) + EffectOf(Type(ch), args, va)
  {
    var kind: Kind;
    var v: Value;
    match ch {
      case 'B' => kind, v := BoolArg, VaArg(args, va, Int);
      case 'c' => kind, v := CharArg, VaArg(args, va, Int);
      case 'C' => kind, v := CharArg, VaArg(args, va, Int);
      case 's' => kind, v := ShortArg, VaArg(args, va, Int);
      case 'S' => kind, v := ShortArg, VaArg(args, va, Int);
      case 'i' => kind, v := IntArg, VaArg(args, va, Int);
      case 'I' => kind, v := IntArg, VaArg(args, va, Int);
      case 'j' => kind, v := LongArg, VaArg(args, va, Long);
      case 'J' => kind, v := LongArg, VaArg(args, va, Long);
      case 'l' => kind, v := LongLongArg, VaArg(args, va, LongLong);
      case 'L' => kind, v := LongLongArg, VaArg(args, va, LongLong);
      case 'f' => kind, v := FloatArg, VaArg(args, va, Double);
      case 'd' => kind, v := DoubleArg, VaArg(args, va, Double);
      case 'p' => kind, v := PointerArg, VaArg(args, va, Pointer);
      case 'Z' => kind, v := PointerArg, VaArg(args, va, Pointer);
      case 'A' =>
        var ag := VaArg(args, va, Pointer);
        vm.Do(Pass(AggrArg, [ag, VaArg(args, va + 1, Pointer)]));
        return va + 2;
      case _ => return va;
    }
    vm.Do(Pass(kind, [v]));
    va' := va + 1;
  }

  /** The token that a pass meets at `pos`. */
  function TokenAt(sig: string, pos: nat): Token
    requires pos < |sig|
  {
    if sig[pos] != '_' then Type(sig[pos]) else if pos + 2 < |sig| then Mode(sig[pos + 1]) else Dangling
  }

  /** The tokens after it start where it ends. */
  lemma TokensAt(sig: string, pos: nat, all: bool)
    requires pos < |sig| && (all || sig[pos] != ')') && Readable(sig[pos..], all)
    ensures var t := TokenAt(sig, pos);
            && (sig[pos] == '_' ==> pos + 1 < |sig|) && pos + Width(t) <= |sig|
            && Tokens(sig[pos..], all) == [t] + Tokens(sig[pos + Width(t)..], all)
            && Readable(sig[pos + Width(t)..], all)
  {
    assert sig[pos..][1..] == sig[pos + 1..];
    if pos + 2 < |sig| {
      assert sig[pos..][2..] == sig[pos + 2..];
    }
  }

  /** One token of the argument pass. */
  method ArgToken(vm: DCCallVM, sig: string, pos: nat, args: seq<Value>, va: nat) returns (pos': nat, va': nat)
    requires pos < |sig| && (sig[pos] == '_' ==> pos + 1 < |sig|)
    requires GivenOne(TokenAt(sig, pos), args, va)
    modifies vm
    ensures pos' == pos + Width(TokenAt(sig, pos)) && va' == va + Takes(TokenAt(sig, pos))
    ensures vm.calls == old(vm.calls) + EffectOf(TokenAt(sig, pos), args, va)
  {
    var ch := sig[pos];
    pos', va' := pos + 1, va;
    if ch == '_' {
      pos' := HandleMode(vm, sig, pos');
    } else {
      va' := ArgOne(vm, ch, args, va);
    }
  }

  /** A pass at `pos` of the signature, with the tokens `ts` before it. */
  ghost predicate Standing(sig: string, all: bool, pos: nat, ts: seq<Token>) {
    pos <= |sig| && ts == Tokens(sig[pos..], all) && Readable(sig[pos..], all)
  }

  lemma StandingStep(sig: string, all: bool, pos: nat, ts: seq<Token>)
    requires Standing(sig, all, pos, ts) && pos < |sig| && (all || sig[pos] != ')')
    ensures ts != [] && ts[0] == TokenAt(sig, pos) && (sig[pos] == '_' ==> pos + 1 < |sig|)
    ensures Standing(sig, all, pos + Width(ts[0]), ts[1..])
  {
    TokensAt(sig, pos, all);
    assert ts[1..] == Tokens(sig[pos + Width(ts[0])..], all);
  }

  /** The way behind a pass and the way before it. */
  ghost predicate OnPath(ts: seq<Token>, c: Cursor, at: seq<Cursor>, ts0: seq<Token>) {
    at + Path(ts, c) == Path(ts0, Cursor(0, 0)) && EndOf(ts, c.pos) == EndOf(ts0, 0) && c.va + Taken(ts) == Taken(ts0)
  }

  lemma OnPathStep(ts: seq<Token>, c: Cursor, at: seq<Cursor>, ts0: seq<Token>)
    requires ts != [] && OnPath(ts, c, at, ts0)
    ensures OnPath(ts[1..], Cursor(c.pos + Width(ts[0]), c.va + Takes(ts[0])), at + [c], ts0)
  {
  }

  /** Where a pass ends. */
  lemma PassEnd(sig: string, all: bool, ts: seq<Token>, c: Cursor, at: seq<Cursor>, ts0: seq<Token>)
    requires Standing(sig, all, c.pos, ts) && OnPath(ts, c, at, ts0)
    requires c.pos == |sig| || (!all && sig[c.pos] == ')')
    ensures ts == [] && at == Path(ts0, Cursor(0, 0)) && c.pos == EndOf(ts0, 0) && c.va == Taken(ts0)
  {
  }

  /** The calls made and the calls to come. */
  ghost predicate Remaining(ts: seq<Token>, args: seq<Value>, va: nat, done: seq<Call>, total: seq<Call>) {
    Given(ts, args, va) && done + Effects(ts, args, va) == total
  }

  lemma RemainingStep(ts: seq<Token>, args: seq<Value>, va: nat, done: seq<Call>, total: seq<Call>)
    requires ts != [] && Remaining(ts, args, va, done, total)
    ensures GivenOne(ts[0], args, va)
    ensures Remaining(ts[1..], args, va + Takes(ts[0]), done + EffectOf(ts[0], args, va), total)
  {
  }

  lemma RemainingEnd(args: seq<Value>, va: nat, done: seq<Call>, total: seq<Call>)
    requires Remaining([], args, va, done, total)
    ensures done == total
  {
  }

  /** One turn of the argument pass: a step in all three respects. */
  method ArgTurn(vm: DCCallVM, sig: string, pos: nat, args: seq<Value>, va: nat,
                 ghost ts: seq<Token>, ghost at: seq<Cursor>, ghost ts0: seq<Token>, ghost total: seq<Call>)
    returns (pos': nat, va': nat)
    requires pos < |sig| && sig[pos] != ')'
    requires Standing(sig, false, pos, ts) && OnPath(ts, Cursor(pos, va), at, ts0)
    requires Remaining(ts, args, va, vm.calls, total)
    modifies vm
    ensures pos < pos' && ts != [] && Standing(sig, false, pos', ts[1..])
    ensures OnPath(ts[1..], Cursor(pos', va'), at + [Cursor(pos, va)], ts0)
    ensures Remaining(ts[1..], args, va', vm.calls, total)
  {
    StandingStep(sig, false, pos, ts);
    OnPathStep(ts, Cursor(pos, va), at, ts0);
    RemainingStep(ts, args, va, vm.calls, total);
    pos', va' := ArgToken(vm, sig, pos, args, va);
  }

  /** `dcArgF_impl`; `end` is where it leaves the signature pointer, `va` how many arguments it took. */
  method ArgF(vm: DCCallVM, sig: string, args: seq<Value>) returns (end: nat, va: nat, ghost at: seq<Cursor>)
    requires Readable(sig, false) && Given(Tokens(sig, false), args, 0)
    modifies vm
    ensures vm.calls == old(vm.calls) + Effects(Tokens(sig, false), args, 0)
    ensures va == Taken(Tokens(sig, false))
    ensures at == Path(Tokens(sig, false), Cursor(0, 0))
    ensures end - 1 == EndOf(Tokens(sig, false), 0)
  {
    var pos: nat := 0;
    va, at := 0, [];
    assert sig[0..] == sig;
    ghost var ts0 := Tokens(sig, false);
    ghost var ts := ts0;
    ghost var total := vm.calls + Effects(ts0, args, 0);
    while pos < |sig| && sig[pos] != ')'
      invariant Standing(sig, false, pos, ts)
      invariant OnPath(ts, Cursor(pos, va), at, ts0)
      invariant Remaining(ts, args, va, vm.calls, total)
      decreases |sig| - pos
    {
      ghost var here := Cursor(pos, va);
      pos, va := ArgTurn(vm, sig, pos, args, va, ts, at, ts0, total);
      ts, at := ts[1..], at + [here];
    }
    PassEnd(sig, false, ts, Cursor(pos, va), at, ts0);
    RemainingEnd(args, va, vm.calls, total);
    end := pos + 1;
  }

  // ----- the pre-scan -----

  function KeptBy(t: Token, args: seq<Value>, va: nat, kept: Option<(Value, Value)>): Option<(Value, Value)>
    requires GivenOne(t, args, va)
  {
    if t == Type('A') then Some((args[va], args[va + 1])) else kept
  }

  /** The descriptor and the pointer of the last aggregate read, if there was one. */
  function Kept(ts: seq<Token>, args: seq<Value>, va: nat, kept: Option<(Value, Value)>): Option<(Value, Value)>
    requires Given(ts, args, va)
    decreases |ts|
  {
    if ts == [] then kept
    else Kept(ts[1..], args, va + Takes(ts[0]), KeptBy(ts[0], args, va, kept))
  }

  /** One type character of the pre-scan. */
  method ScanOne(ch: char, args: seq<Value>, va: nat, kept: Option<(Value, Value)>)
    returns (va': nat, kept': Option<(Value, Value)>)
    requires GivenOne(Type(ch), args, va)
    ensures va' == va + Count(ch)
    ensures kept' == if ch == 'A' then Some((args[va], args[va + 1])) else kept
  {
    var skipped: Value;
    va', kept' := va, kept;
    if ch in "BcCsSiI" {
      skipped, va' := VaArg(args, va, Int), va + 1;
    } else if ch in "jJ" {
      skipped, va' := VaArg(args, va, Long), va + 1;
    } else if ch in "lL" {
      skipped, va' := VaArg(args, va, LongLong), va + 1;
    } else if ch in "fd" {
      skipped, va' := VaArg(args, va, Double), va + 1;
    } else if ch in "pZ" {
      skipped, va' := VaArg(args, va, Pointer), va + 1;
    } else if ch == 'A' {
      kept', va' := Some((VaArg(args, va, Pointer), VaArg(args, va + 1, Pointer))), va + 2;
    }
  }

  /** One token of the pre-scan. */
  method ScanToken(vm: DCCallVM, sig: string, pos: nat, args: seq<Value>, va: nat, kept: Option<(Value, Value)>)
    returns (pos': nat, va': nat, kept': Option<(Value, Value)>)
    requires pos < |sig| && (sig[pos] == '_' ==> pos + 1 < |sig|)
    requires GivenOne(TokenAt(sig, pos), args, va)
    modifies vm
    ensures pos' == pos + Width(TokenAt(sig, pos)) && va' == va + Takes(TokenAt(sig, pos))
    ensures vm.calls == old(vm.calls) + ModesOf(TokenAt(sig, pos))
    ensures kept' == KeptBy(TokenAt(sig, pos), args, va, kept)
  {
    var ch := sig[pos];
    pos', va', kept' := pos + 1, va, kept;
    if ch == '_' {
      pos' := HandleMode(vm, sig, pos');
    } else {
      va', kept' := ScanOne(ch, args, va, kept);
    }
  }

  /** The mode switches made and to come, and what will be kept in the end. */
  ghost predicate ToScan(ts: seq<Token>, args: seq<Value>, va: nat, kept: Option<(Value, Value)>, done: seq<Call>,
                         total: seq<Call>, last: Option<(Value, Value)>) {
    Given(ts, args, va) && done + Modes(ts) == total && Kept(ts, args, va, kept) == last
  }

  lemma ToScanStep(ts: seq<Token>, args: seq<Value>, va: nat, kept: Option<(Value, Value)>, done: seq<Call>,
                   total: seq<Call>, last: Option<(Value, Value)>)
    requires ts != [] && ToScan(ts, args, va, kept, done, total, last)
    ensures GivenOne(ts[0], args, va)
    ensures ToScan(ts[1..], args, va + Takes(ts[0]), KeptBy(ts[0], args, va, kept), done + ModesOf(ts[0]), total, last)
  {
  }

  lemma ToScanEnd(args: seq<Value>, va: nat, kept: Option<(Value, Value)>, done: seq<Call>,
                  total: seq<Call>, last: Option<(Value, Value)>)
    requires ToScan([], args, va, kept, done, total, last)
    ensures done == total && kept == last
  {
  }

  /** One turn of the pre-scan. */
  method ScanTurn(vm: DCCallVM, sig: string, pos: nat, args: seq<Value>, va: nat, kept: Option<(Value, Value)>,
                  ghost ts: seq<Token>, ghost at: seq<Cursor>, ghost ts0: seq<Token>,
                  ghost total: seq<Call>, ghost last: Option<(Value, Value)>)
    returns (pos': nat, va': nat, kept': Option<(Value, Value)>)
    requires pos < |sig|
    requires Standing(sig, true, pos, ts) && OnPath(ts, Cursor(pos, va), at, ts0)
    requires ToScan(ts, args, va, kept, vm.calls, total, last)
    modifies vm
    ensures pos < pos' && ts != [] && Standing(sig, true, pos', ts[1..])
    ensures OnPath(ts[1..], Cursor(pos', va'), at + [Cursor(pos, va)], ts0)
    ensures ToScan(ts[1..], args, va', kept', vm.calls, total, last)
  {
    StandingStep(sig, true, pos, ts);
    OnPathStep(ts, Cursor(pos, va), at, ts0);
    ToScanStep(ts, args, va, kept, vm.calls, total, last);
    pos', va', kept' := ScanToken(vm, sig, pos, args, va, kept);
  }

  /** The return type's pre-scan of `dcVCallF`. */
  method Scan(vm: DCCallVM, sig: string, args: seq<Value>) returns (kept: Option<(Value, Value)>, ghost at: seq<Cursor>)
    requires Readable(sig, true) && Given(Tokens(sig, true), args, 0)
    modifies vm
    ensures vm.calls == old(vm.calls) + Modes(Tokens(sig, true))
    ensures kept == Kept(Tokens(sig, true), args, 0, None)
    ensures at == Path(Tokens(sig, true), Cursor(0, 0))
  {
    var pos: nat := 0;
    var va: nat := 0;
    kept, at := None, [];
    assert sig[0..] == sig;
    ghost var ts0 := Tokens(sig, true);
    ghost var ts := ts0;
    ghost var total, last := vm.calls + Modes(ts0), Kept(ts0, args, 0, None);
    while pos < |sig|
      invariant Standing(sig, true, pos, ts)
      invariant OnPath(ts, Cursor(pos, va), at, ts0)
      invariant ToScan(ts, args, va, kept, vm.calls, total, last)
      decreases |sig| - pos
    {
      ghost var here := Cursor(pos, va);
      pos, va, kept := ScanTurn(vm, sig, pos, args, va, kept, ts, at, ts0, total, last);
      ts, at := ts[1..], at + [here];
    }
    PassEnd(sig, true, ts, Cursor(pos, va), at, ts0);
    ToScanEnd(args, va, kept, vm.calls, total, last);
  }
}
