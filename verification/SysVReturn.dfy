/** Aggregates returned by value on System V: the callback spreads the aggregate over two integer
    and two floating-point result registers (`dcbReturnAggr`), the caller reassembles it
    (`dc_callvm_call_x64_aggr`), or both go through the hidden pointer. */
module SysVReturn {
  import opened Bytes
  import opened Vector
  import opened Aggregate
  import opened Classify
  import opened CloseAggr
  import opened SysV
  import opened SysVCalls
  import opened SysVMachines
  import opened SysVRoundTrip

  /** The eightbytes of class `c`, in order, from eightbyte `i` on. */
  function WordsOf(ag: Aggr, mem: seq<byte>, c: Class, i: nat): (r: seq<Word8>)
    requires Passable(ag) && ag.classes[0] != MEMORY && Up8(ag.size) <= |mem| && i <= 2
    ensures |r| <= 2 - i
    decreases 2 - i
  {
    if ag.classes[i] == NONE || i == 2 then []
    else (if ag.classes[i] == c then [Load(mem, 8 * i, 8)] else []) + WordsOf(ag, mem, c, i + 1)
  }

  /** The first `n` words are all those of class `c` before eightbyte `i`. */
  ghost predicate Filled(ag: Aggr, mem: seq<byte>, c: Class, i: nat, words: seq<Word8>, n: nat)
    requires Passable(ag) && ag.classes[0] != MEMORY && Up8(ag.size) <= |mem| && i <= 2
  {
    n <= |words| && words[..n] + WordsOf(ag, mem, c, i) == WordsOf(ag, mem, c, 0)
  }

  lemma OtherClass(ag: Aggr, mem: seq<byte>, c: Class, i: nat, words: seq<Word8>, n: nat)
    requires Passable(ag) && ag.classes[0] != MEMORY && Up8(ag.size) <= |mem| && i < 2 && ag.classes[i] != NONE
    requires Filled(ag, mem, c, i, words, n) && ag.classes[i] != c
    ensures Filled(ag, mem, c, i + 1, words, n)
  {
  }

  /** Eightbyte `i` becomes the next word of its class. */
  method PutWord(ag: Aggr, mem: seq<byte>, i: nat, words: array<Word8>, n: nat)
    requires Passable(ag) && ag.classes[0] != MEMORY && Up8(ag.size) <= |mem| && i < 2 && ag.classes[i] != NONE
    requires n < words.Length && Filled(ag, mem, ag.classes[i], i, words[..], n)
    modifies words
    ensures Filled(ag, mem, ag.classes[i], i + 1, words[..], n + 1)
  {
    ghost var before := words[..n];
    words[n] := Load(mem, 8 * i, 8);
    assert words[..][..n + 1] == before + [Load(mem, 8 * i, 8)];
  }

  /** `dcbReturnAggr` without a hidden pointer: fills rax, rdx (`ints`) and xmm0, xmm1 (`floats`). */
  method ReturnInRegisters(ag: Aggr, mem: seq<byte>, ints: array<Word8>, floats: array<Word8>)
    requires Passable(ag) && ag.classes[0] != MEMORY && Up8(ag.size) <= |mem|
    requires ints.Length == 2 && floats.Length == 2 && ints != floats
    modifies ints, floats
    ensures WordsOf(ag, mem, INTEGER, 0) <= ints[..] && WordsOf(ag, mem, SSE, 0) <= floats[..]
  {
    var i, ni, nf := 0, 0, 0;
    while ag.classes[i] != NONE && i < 2
      invariant 0 <= i <= 2 && ni + nf == i
      invariant Filled(ag, mem, INTEGER, i, ints[..], ni) && Filled(ag, mem, SSE, i, floats[..], nf)
      decreases 2 - i
    {
      if ag.classes[i] == INTEGER {
        OtherClass(ag, mem, SSE, i, floats[..], nf);
        PutWord(ag, mem, i, ints, ni);
        ni := ni + 1;
      } else {
        assert ag.classes[i] == SSE;
        OtherClass(ag, mem, INTEGER, i, ints[..], ni);
        PutWord(ag, mem, i, floats, nf);
        nf := nf + 1;
      }
      i := i + 1;
    }
  }

  /** C's `n--` on a `DCsize`: the test reads the old value, and zero wraps. */
  function Decremented(n: nat): nat {
    if n == 0 then TWO64 - 1 else n - 1
  }

  /** Copy the bytes of one register: the inner loop `while(ll-- && st_size--)`. */
  method CopyRegister(word: Word8, dst: array<byte>, at: nat, stSize: nat, ghost mem: seq<byte>, ghost target: seq<byte>)
    returns (n: nat, stSize': nat)
    requires at + stSize <= dst.Length == |target| && at + 8 <= |mem|
    requires word == Load(mem, at, 8) && dst[..] == Overlay(mem, target, at)
    modifies dst
    ensures n == if stSize < 8 then stSize else 8
    ensures stSize' == if stSize < 8 then TWO64 - 1 else stSize - 8
    ensures dst[..] == Overlay(mem, target, at + n)
  {
    var ll := 8;
    n, stSize' := 0, stSize;
    while true
      invariant 0 <= ll <= 8 && n == 8 - ll && n <= stSize && stSize' == stSize - n
      invariant dst[..] == Overlay(mem, target, at + n)
      decreases ll
    {
      if ll == 0 {
        return;
      }
      ll := ll - 1;
      var before := stSize';
      stSize' := Decremented(stSize');
      if before == 0 {
        return;
      }
      dst[at + n] := word[n];
      assert dst[..] == Overlay(mem, target, at + n)[at + n := mem[at + n]];
      n := n + 1;
    }
  }

  /** The first of the remaining words of its class is eightbyte `i`. */
  lemma NextWord(ag: Aggr, mem: seq<byte>, c: Class, i: nat, words: seq<Word8>)
    requires Passable(ag) && ag.classes[0] != MEMORY && Up8(ag.size) <= |mem| && i < 2
    requires ag.classes[i] != NONE && WordsOf(ag, mem, c, i) <= words
    ensures if ag.classes[i] == c then words != [] && words[0] == Load(mem, 8 * i, 8) && WordsOf(ag, mem, c, i + 1) <= words[1..]
            else WordsOf(ag, mem, c, i + 1) <= words
  {
  }

  /** The words of eightbyte `i` and later are those from `ni` and `nf` on. */
  ghost predicate Remaining(ag: Aggr, mem: seq<byte>, ints: seq<Word8>, floats: seq<Word8>, i: nat, ni: nat, nf: nat)
    requires Passable(ag) && ag.classes[0] != MEMORY && Up8(ag.size) <= |mem| && i <= 2
  {
    && ni <= |ints| && WordsOf(ag, mem, INTEGER, i) <= ints[ni..]
    && nf <= |floats| && WordsOf(ag, mem, SSE, i) <= floats[nf..]
  }

  /** The next word of the register bank that the class of eightbyte `i` selects. */
  method TakeWord(ag: Aggr, ghost mem: seq<byte>, ints: seq<Word8>, floats: seq<Word8>, i: nat, ni: nat, nf: nat)
    returns (word: Word8, ni': nat, nf': nat)
    requires Passable(ag) && ag.classes[0] != MEMORY && Up8(ag.size) <= |mem| && i < 2 && ag.classes[i] != NONE
    requires Remaining(ag, mem, ints, floats, i, ni, nf)
    ensures word == Load(mem, 8 * i, 8) && Remaining(ag, mem, ints, floats, i + 1, ni', nf')
  {
    NextWord(ag, mem, INTEGER, i, ints[ni..]);
    NextWord(ag, mem, SSE, i, floats[nf..]);
    if ag.classes[i] == INTEGER {
      word, ni', nf' := ints[ni], ni + 1, nf;
    } else {
      word, ni', nf' := floats[nf], ni, nf + 1;
    }
  }

  /** Before eightbyte `i` the bytes up to `at` are written, and `stSize` are left. */
  predicate Reached(ag: Aggr, i: nat, at: nat, stSize: nat)
    requires Passable(ag) && i <= 2
  {
    && at == (if 8 * i <= ag.size then 8 * i else ag.size)
    && (8 * i <= ag.size ==> stSize == ag.size - 8 * i)
    && (i > 0 ==> ag.classes[0] != NONE) && (i > 1 ==> ag.classes[1] != NONE)
  }

  /** `dc_callvm_call_x64_aggr` without a hidden pointer: the covered bytes are written, no others,
      although the size counter wraps when it runs out within a register. */
  method Reassemble(ag: Aggr, ghost mem: seq<byte>, ints: seq<Word8>, floats: seq<Word8>, dst: array<byte>)
    requires Passable(ag) && ag.classes[0] != MEMORY && Up8(ag.size) <= |mem| && ag.size <= dst.Length
    requires WordsOf(ag, mem, INTEGER, 0) <= ints && WordsOf(ag, mem, SSE, 0) <= floats
    modifies dst
    ensures dst[..] == Overlay(mem, old(dst[..]), Covered(ag))
  {
    var i, ni, nf := 0, 0, 0;
    var stSize: nat, at: nat := ag.size, 0;
    ghost var target := dst[..];
    while ag.classes[i] != NONE && i < MAX_NUM_CLASSES
      invariant 0 <= i <= 2 && Remaining(ag, mem, ints, floats, i, ni, nf)
      invariant Reached(ag, i, at, stSize)
      invariant at <= |mem| && dst[..] == Overlay(mem, target, at)
      decreases 2 - i
    {
      var word, n;
      word, ni, nf := TakeWord(ag, mem, ints, floats, i, ni, nf);
      n, stSize := CopyRegister(word, dst, at, stSize, mem, target);
      at := at + n;
      i := i + 1;
    }
  }

  /** `dcbReturnAggr`: the description after those of the arguments, and the register the callback recorded,
      decide where the aggregate `mem` goes.  `buffer` is what the caller has at address `at`. */
  method ReturnAggr(dcArgs: DCArgs, mem: seq<byte>, ints: array<Word8>, floats: array<Word8>, at: Word8, buffer: array<byte>)
    requires dcArgs.Valid() && |dcArgs.aggrs| > 0 && dcArgs.aggrs[0].Known?
    requires dcArgs.aggrReturnRegister == -1 || (dcArgs.aggrReturnRegister == 0 && dcArgs.ints[0] == at)
    requires var ag := dcArgs.aggrs[0].ag;
             Up8(ag.size) <= |mem| && ag.size <= buffer.Length && (ag.classes[0] == MEMORY ==> dcArgs.aggrReturnRegister == 0)
    requires ints.Length == 2 && floats.Length == 2 && ints != floats
    modifies dcArgs, ints, floats, buffer
    ensures dcArgs.Valid() && dcArgs.aggrs == old(dcArgs.aggrs[1..])
    ensures var ag := old(dcArgs.aggrs[0].ag);
            if dcArgs.aggrReturnRegister >= 0 then buffer[..] == Overlay(mem, old(buffer[..]), ag.size)
            else
              && buffer[..] == old(buffer[..])
              && WordsOf(ag, mem, INTEGER, 0) <= ints[..] && WordsOf(ag, mem, SSE, 0) <= floats[..]
  {
    var ag := dcArgs.aggrs[0].ag;
    assert dcArgs.aggrs[0] in dcArgs.aggrs;
    dcArgs.aggrs := dcArgs.aggrs[1..];
    if dcArgs.aggrReturnRegister >= 0 {
      CopyTo(buffer, 0, mem[..ag.size]);
      assert buffer[..] == Overlay(mem, old(buffer[..]), ag.size);
    } else {
      ReturnInRegisters(ag, mem, ints, floats);
    }
  }

  /** A whole call to a callback that returns the aggregate `returned`: the arguments arrive, and of the
      result the covered bytes, through registers, or all of them, through the hidden pointer; nothing
      else in the caller's buffer changes. */
  method Call(size: nat, prefix: string, args: seq<Arg>, wants: seq<Want>, ag: Aggr, returned: seq<byte>, at: Word8, ret: array<byte>)
    returns (got: seq<Got>)
    requires IsPrefix(prefix) && ValidArgs(args) && Passable(ag) && AllMatch(args, wants)
    requires Room(size, Aggregate(Known(ag)), args) && Up8(ag.size) <= |returned| && ag.size <= ret.Length
    modifies ret
    ensures |got| == |args| && AllDelivered(Start(size, Aggregate(Known(ag))), args, wants, got)
    ensures ret[..] == Overlay(returned, old(ret[..]), Covered(ag))
  {
    var vm, dcArgs;
    got, vm, dcArgs := Exchange(size, prefix, args, wants, Aggregate(Known(ag)), at);
    var ints := new Word8[2](_ => [0, 0, 0, 0, 0, 0, 0, 0]);
    var floats := new Word8[2](_ => [0, 0, 0, 0, 0, 0, 0, 0]);
    ReturnAggr(dcArgs, returned, ints, floats, at, ret);
    if vm.mAggrReturnReg == -1 {
      Reassemble(ag, returned, ints[..], floats[..], ret);
    }
  }
}
