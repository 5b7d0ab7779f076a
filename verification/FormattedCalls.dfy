/** Whole formatted calls: the two passes over a signature keep in lockstep. */
module FormattedCalls {
  import opened CallF
  import opened Options

  // ----- lists of tokens -----

  lemma {:induction false} PathAppend(ts: seq<Token>, more: seq<Token>, c: Cursor)
    ensures Path(ts + more, c) == Path(ts, c) + Path(more, Cursor(EndOf(ts, c.pos), c.va + Taken(ts)))
    decreases |ts|
  {
    if ts == [] {
      assert ts + more == more;
    } else {
      assert (ts + more)[0] == ts[0] && (ts + more)[1..] == ts[1..] + more;
      var next := Cursor(c.pos + Width(ts[0]), c.va + Takes(ts[0]));
      PathAppend(ts[1..], more, next);
      assert Path(ts + more, c) == [c] + Path(ts[1..] + more, next);
    }
  }

  lemma {:induction false} GivenAppend(ts: seq<Token>, more: seq<Token>, args: seq<Value>, va: nat)
    ensures Given(ts + more, args, va) <==> Given(ts, args, va) && Given(more, args, va + Taken(ts))
    decreases |ts|
  {
    if ts == [] {
      assert ts + more == more;
    } else {
      assert (ts + more)[0] == ts[0] && (ts + more)[1..] == ts[1..] + more;
      GivenAppend(ts[1..], more, args, va + Takes(ts[0]));
    }
  }

  /** What a pre-scan keeps depends on the earlier tokens only if the later ones keep nothing. */
  lemma {:induction false} KeptAppend(ts: seq<Token>, more: seq<Token>, args: seq<Value>, va: nat, kept: Option<(Value, Value)>)
    requires Given(ts, args, va) && Given(more, args, va + Taken(ts)) && Given(ts + more, args, va)
    ensures Kept(ts + more, args, va, kept) == Kept(more, args, va + Taken(ts), Kept(ts, args, va, kept))
    decreases |ts|
  {
    if ts == [] {
      assert ts + more == more;
    } else {
      assert (ts + more)[0] == ts[0] && (ts + more)[1..] == ts[1..] + more;
      KeptAppend(ts[1..], more, args, va + Takes(ts[0]), KeptBy(ts[0], args, va, kept));
    }
  }

  lemma {:induction false} ModesAppend(ts: seq<Token>, more: seq<Token>)
    ensures Modes(ts + more) == Modes(ts) + Modes(more)
    decreases |ts|
  {
    if ts == [] {
      assert ts + more == more;
    } else {
      assert (ts + more)[0] == ts[0] && (ts + more)[1..] == ts[1..] + more;
      ModesAppend(ts[1..], more);
    }
  }

  lemma {:induction false} EndIsLength(ts: seq<Token>, pos: nat)
    ensures EndOf(ts, pos) == pos + |Render(ts)|
    decreases |ts|
  {
    if ts != [] {
      EndIsLength(ts[1..], pos + Width(ts[0]));
    }
  }

  // ----- signatures -----

  /** `sig` is an argument list, its end, and a result type. */
  predicate IsSignature(sig: string, ts: seq<Token>, ret: char) {
    WellFormed(ts) && ret != '_' && sig == Render(ts) + [')', ret]
  }

  /** What the pre-scan meets after the argument list. */
  function Tail(ret: char): seq<Token> {
    [Type(')'), Type(ret)]
  }

  lemma TailTokens(ret: char)
    requires ret != '_'
    ensures Tokens([')', ret], true) == Tail(ret) && Readable([')', ret], true)
    ensures Tokens([')', ret], false) == [] && Readable([')', ret], false)
  {
    assert [')', ret][1..] == [ret] && [ret][1..] == [];
    assert Tokens([ret], true) == [Type(ret)] && Readable([ret], true);
  }

  lemma SignatureTokens(sig: string, ts: seq<Token>, ret: char)
    requires IsSignature(sig, ts, ret)
    ensures Tokens(sig, false) == ts && Readable(sig, false)
    ensures Tokens(sig, true) == ts + Tail(ret) && Readable(sig, true)
  {
    TailTokens(ret);
    TokensOfRender(ts, [')', ret], false);
    TokensOfRender(ts, [')', ret], true);
  }

  /** The pre-scan meets every token of the argument list at the signature position and the vararg
      where the argument pass meets it, and the result type past the last argument. */
  lemma Lockstep(sig: string, ts: seq<Token>, ret: char)
    requires IsSignature(sig, ts, ret)
    ensures var scan, pass := Path(Tokens(sig, true), Cursor(0, 0)), Path(Tokens(sig, false), Cursor(0, 0));
            && |pass| == |ts| && |scan| == |ts| + 2
            && (forall k :: 0 <= k < |pass| ==> scan[k] == pass[k])
            && scan[|ts| + 1] == Cursor(|sig| - 1, Taken(ts))
  {
    SignatureTokens(sig, ts, ret);
    PathAppend(ts, Tail(ret), Cursor(0, 0));
    PathLength(ts, Cursor(0, 0));
    EndIsLength(ts, 0);
    var end := Cursor(EndOf(ts, 0), Taken(ts));
    assert Path(Tail(ret), end) == [end] + Path([Type(ret)], Cursor(end.pos + 1, end.va)) by {
      assert Tail(ret)[1..] == [Type(ret)];
    }
    assert Path([Type(ret)], Cursor(end.pos + 1, end.va))[0] == Cursor(end.pos + 1, end.va);
  }

  lemma {:induction false} PathLength(ts: seq<Token>, c: Cursor)
    ensures |Path(ts, c)| == |ts|
    decreases |ts|
  {
    if ts != [] {
      PathLength(ts[1..], Cursor(c.pos + Width(ts[0]), c.va + Takes(ts[0])));
    }
  }

  /** The arguments of a call: those of the list, and two more if an aggregate is returned. */
  predicate ArgsFor(ts: seq<Token>, ret: char, args: seq<Value>) {
    Given(ts + (if ret == 'A' then [Type('A')] else []), args, 0)
  }

  /** For an aggregate result the pre-scan keeps the two varargs after those of the argument list,
      even if the list has aggregates of its own. */
  lemma KeepsLastTwo(ts: seq<Token>, args: seq<Value>)
    requires ArgsFor(ts, 'A', args)
    ensures Given(ts, args, 0) && Taken(ts) + 2 <= |args| && Given(ts + Tail('A'), args, 0)
    ensures Kept(ts + Tail('A'), args, 0, None) == Some((args[Taken(ts)], args[Taken(ts) + 1]))
    ensures Modes(ts + Tail('A')) == Modes(ts)
  {
    var n := Taken(ts);
    GivenAppend(ts, [Type('A')], args, 0);
    assert Given([Type('A')], args, n);
    assert Tail('A')[1..] == [Type('A')];
    GivenAppend(ts, Tail('A'), args, 0);
    KeptAppend(ts, Tail('A'), args, 0, None);
    ModesAppend(ts, Tail('A'));
    assert Kept([Type('A')], args, n, Kept(ts, args, 0, None)) == Some((args[n], args[n + 1]));
  }

  predicate ResultType(ch: char) {
    ch == 'v' || Count(ch) > 0
  }

  lemma ArgsGiven(ts: seq<Token>, ret: char, args: seq<Value>)
    requires ArgsFor(ts, ret, args)
    ensures Given(ts, args, 0) && (ret == 'A' ==> Taken(ts) + 2 <= |args|)
  {
    GivenAppend(ts, if ret == 'A' then [Type('A')] else [], args, 0);
    if ret == 'A' {
      KeepsLastTwo(ts, args);
    }
  }

  /** The varargs that say where an aggregate result goes: the description and the address. */
  function Hidden(ts: seq<Token>, ret: char, args: seq<Value>): Option<(Value, Value)>
    requires ArgsFor(ts, ret, args)
  {
    ArgsGiven(ts, ret, args);
    if ret == 'A' then Some((args[Taken(ts)], args[Taken(ts) + 1])) else None
  }

  /** What comes before the arguments. */
  function Preparation(ts: seq<Token>, ret: char, args: seq<Value>): seq<Call>
    requires ArgsFor(ts, ret, args)
  {
    if ret == 'A' then Modes(ts) + [BeginAggr(Hidden(ts, ret, args).value.0)] else []
  }

  function InvokeOf(ch: char, kept: Option<(Value, Value)>): seq<Call> {
    if ResultType(ch) then [Invoke(ch, if ch == 'A' then kept else None)] else []
  }

  /** What a formatted call does to the VM. */
  function CallsOf(ts: seq<Token>, ret: char, args: seq<Value>): seq<Call>
    requires ArgsFor(ts, ret, args)
  {
    ArgsGiven(ts, ret, args);
    Preparation(ts, ret, args) + Effects(ts, args, 0) + InvokeOf(ret, Hidden(ts, ret, args))
  }

  /** The preparatory part of `dcVCallF`. */
  method Prepare(vm: DCCallVM, sig: string, args: seq<Value>, ghost ts: seq<Token>, ghost ret: char)
    returns (kept: Option<(Value, Value)>)
    requires IsSignature(sig, ts, ret) && ArgsFor(ts, ret, args)
    modifies vm
    ensures kept == Hidden(ts, ret, args) && vm.calls == old(vm.calls) + Preparation(ts, ret, args)
  {
    kept := None;
    var ptr := 0;
    while ptr + 1 < |sig|
      invariant 0 <= ptr < |sig|
    {
      ptr := ptr + 1;
    }
    if sig[ptr] == 'A' {
      SignatureTokens(sig, ts, ret);
      KeepsLastTwo(ts, args);
      ghost var at;
      kept, at := Scan(vm, sig, args);
      vm.Do(BeginAggr(kept.value.0));
    }
  }

  /** The switch over the result type. */
  method Finish(vm: DCCallVM, ch: char, kept: Option<(Value, Value)>)
    modifies vm
    ensures vm.calls == old(vm.calls) + InvokeOf(ch, kept)
  {
    if ch in "vBcCsSiIjJlLfdpZA" {
      vm.Do(Invoke(ch, if ch == 'A' then kept else None));
    }
  }

  /** Past the end of the argument list is the result type. */
  lemma ResultChar(sig: string, ts: seq<Token>, ret: char)
    requires IsSignature(sig, ts, ret)
    ensures EndOf(ts, 0) + 2 == |sig| && sig[EndOf(ts, 0) + 1] == ret
  {
    EndIsLength(ts, 0);
  }

  /** `dcVCallF`. */
  method VCallF(vm: DCCallVM, sig: string, args: seq<Value>, ghost ts: seq<Token>, ghost ret: char)
    requires IsSignature(sig, ts, ret) && ArgsFor(ts, ret, args)
    modifies vm
    ensures vm.calls == old(vm.calls) + CallsOf(ts, ret, args)
  {
    ghost var before := vm.calls;
    var kept := Prepare(vm, sig, args, ts, ret);
    var end := Pass(vm, sig, args, ts, ret);
    Finish(vm, sig[end], kept);
    Regroup(before, Preparation(ts, ret, args), Effects(ts, args, 0), InvokeOf(ret, Hidden(ts, ret, args)));
  }

  lemma Regroup(a: seq<Call>, b: seq<Call>, c: seq<Call>, d: seq<Call>)
    ensures a + b + c + d == a + (b + c + d)
  {
  }

  /** The argument pass, up to the result type. */
  method Pass(vm: DCCallVM, sig: string, args: seq<Value>, ghost ts: seq<Token>, ghost ret: char) returns (end: nat)
    requires IsSignature(sig, ts, ret) && ArgsFor(ts, ret, args)
    modifies vm
    ensures Given(ts, args, 0) && vm.calls == old(vm.calls) + Effects(ts, args, 0)
    ensures end < |sig| && sig[end] == ret
  {
    SignatureTokens(sig, ts, ret);
    ArgsGiven(ts, ret, args);
    ResultChar(sig, ts, ret);
    var va;
    ghost var at;
    end, va, at := ArgF(vm, sig, args);
  }

  // ----- the modes the arguments are passed under -----

  /** The mode each argument is passed under, starting from mode `m`. */
  function Seen(calls: seq<Call>, m: int): seq<int> {
    if calls == [] then []
    else match calls[0]
      case SetMode(m') => Seen(calls[1..], m')
      case Pass(_, _) => [m] + Seen(calls[1..], m)
      case _ => Seen(calls[1..], m)
  }

  function LastMode(calls: seq<Call>, m: int): int {
    if calls == [] then m else LastMode(calls[1..], if calls[0].SetMode? then calls[0].mode else m)
  }

  /** An argument comes before the first mode switch of the list. */
  predicate EarlyArgument(ts: seq<Token>) {
    ts != [] && (Takes(ts[0]) > 0 || (ModesOf(ts[0]) == [] && EarlyArgument(ts[1..])))
  }

  lemma {:induction false} SeenAppend(a: seq<Call>, b: seq<Call>, m: int)
    requires forall k :: 0 <= k < |a| ==> !a[k].Pass?
    ensures Seen(a + b, m) == Seen(b, LastMode(a, m))
    decreases |a|
  {
    if a == [] {
      assert a + b == b;
    } else {
      assert (a + b)[0] == a[0] && (a + b)[1..] == a[1..] + b;
      SeenAppend(a[1..], b, if a[0].SetMode? then a[0].mode else m);
    }
  }

  lemma {:induction false} ModesAreSwitches(ts: seq<Token>)
    ensures forall k :: 0 <= k < |Modes(ts)| ==> Modes(ts)[k].SetMode?
    decreases |ts|
  {
    if ts != [] {
      ModesAreSwitches(ts[1..]);
    }
  }

  /** The initial mode matters to the arguments that come before any mode switch, and only to them. */
  lemma {:induction false} InitialModeMatters(ts: seq<Token>, args: seq<Value>, va: nat, m: int, m': int)
    requires Given(ts, args, va)
    ensures Seen(Effects(ts, args, va), m) == Seen(Effects(ts, args, va), m') <==> m == m' || !EarlyArgument(ts)
    decreases |ts|
  {
    if ts != [] {
      var e, rest := EffectOf(ts[0], args, va), Effects(ts[1..], args, va + Takes(ts[0]));
      InitialModeMatters(ts[1..], args, va + Takes(ts[0]), m, m');
      if e == [] {
        assert e + rest == rest;
      } else {
        assert (e + rest)[0] == e[0] && (e + rest)[1..] == rest;
        if e[0].Pass? && m != m' {
          assert Seen(e + rest, m)[0] != Seen(e + rest, m')[0];
        }
      }
    }
  }

  /** For an aggregate result the pre-scan has left the VM in the signature's last mode, so that the
      arguments are passed under the modes they would be passed under for another result exactly if
      that is the mode the call started in, or no argument comes before the first mode switch. */
  lemma AggregateResultModes(ts: seq<Token>, args: seq<Value>, ret: char, m: int)
    requires ArgsFor(ts, 'A', args) && ret != 'A' && ArgsFor(ts, ret, args)
    ensures Seen(CallsOf(ts, 'A', args), m) == Seen(CallsOf(ts, ret, args), m)
            <==> LastMode(Modes(ts), m) == m || !EarlyArgument(ts)
  {
    CallsSeen(ts, args, 'A', m);
    CallsSeen(ts, args, ret, m);
    InitialModeMatters(ts, args, 0, LastMode(Modes(ts), m), m);
  }

  /** The argument list "i_.i": an int before the switch to varargs, and one after it. */
  const SWITCHED: seq<Token> := [Type('i'), Mode('.'), Type('i')]

  lemma SwitchedTokens()
    ensures WellFormed(SWITCHED) && EarlyArgument(SWITCHED) && LastMode(Modes(SWITCHED), 0) == 101
  {
    assert SWITCHED[1..] == [Mode('.'), Type('i')] && SWITCHED[1..][1..] == [Type('i')] && [Type('i')][1..] == [];
    assert Modes([Type('i')]) == [];
    assert Modes(SWITCHED[1..]) == [SetMode(101)];
    assert Modes(SWITCHED) == [SetMode(101)];
  }

  /** With an aggregate result its first int is passed in varargs mode, although the call started in the
      default mode and the int comes before the switch. */
  lemma SwitchedTooEarly(args: seq<Value>)
    requires ArgsFor(SWITCHED, 'A', args)
    ensures ArgsFor(SWITCHED, 'v', args)
    ensures Seen(CallsOf(SWITCHED, 'A', args), 0) != Seen(CallsOf(SWITCHED, 'v', args), 0)
  {
    SwitchedTokens();
    GivenAppend(SWITCHED, [Type('A')], args, 0);
    assert SWITCHED + [] == SWITCHED;
    AggregateResultModes(SWITCHED, args, 'v', 0);
  }

  /** The arguments start in the mode the preparation leaves. */
  lemma CallsSeen(ts: seq<Token>, args: seq<Value>, ret: char, m: int)
    requires ArgsFor(ts, ret, args)
    ensures Given(ts, args, 0)
    ensures Seen(CallsOf(ts, ret, args), m) == Seen(Effects(ts, args, 0), if ret == 'A' then LastMode(Modes(ts), m) else m)
  {
    ArgsGiven(ts, ret, args);
    var before, e, after := Preparation(ts, ret, args), Effects(ts, args, 0), InvokeOf(ret, Hidden(ts, ret, args));
    ModesAreSwitches(ts);
    assert before + e + after == before + (e + after);
    SeenAppend(before, e + after, m);
    if ret == 'A' {
      LastModeAppend(Modes(ts), BeginAggr(Hidden(ts, ret, args).value.0), m);
    }
    if after == [] {
      assert e + after == e;
    } else {
      SeenInvoke(e, after[0], LastMode(before, m));
    }
  }

  lemma {:induction false} SeenInvoke(calls: seq<Call>, c: Call, m: int)
    requires c.Invoke?
    ensures Seen(calls + [c], m) == Seen(calls, m)
    decreases |calls|
  {
    if calls == [] {
      assert calls + [c] == [c];
    } else {
      assert (calls + [c])[0] == calls[0] && (calls + [c])[1..] == calls[1..] + [c];
      SeenInvoke(calls[1..], c, if calls[0].SetMode? then calls[0].mode else m);
    }
  }

  lemma {:induction false} LastModeAppend(calls: seq<Call>, c: Call, m: int)
    requires !c.SetMode?
    ensures LastMode(calls + [c], m) == LastMode(calls, m)
    decreases |calls|
  {
    if calls == [] {
      assert calls + [c] == [c];
    } else {
      assert (calls + [c])[0] == calls[0] && (calls + [c])[1..] == calls[1..] + [c];
      LastModeAppend(calls[1..], c, if calls[0].SetMode? then calls[0].mode else m);
    }
  }
}
