/** Bytes, machine words and flat memories.  A scalar is represented by the bytes the
    processor would store for it, so a value of `n` bytes is a sequence of length `n`. */
module Bytes {
  type byte = x: int | 0 <= x < 256
  type Word4 = b: seq<byte> | |b| == 4 witness [0, 0, 0, 0]
  type Word8 = b: seq<byte> | |b| == 8 witness [0, 0, 0, 0, 0, 0, 0, 0]

  /** The `n` bytes of `mem` that start at `at`. */
  function Load(mem: seq<byte>, at: nat, n: nat): (b: seq<byte>)
    requires at + n <= |mem|
    ensures |b| == n
  {
    mem[at..at + n]
  }

  /** A read that may run past what is modelled of a memory; bytes out there count as zero. */
  function Peek(mem: seq<byte>, at: nat, n: nat): (b: seq<byte>)
    ensures |b| == n
    ensures at + n <= |mem| ==> b == Load(mem, at, n)
  {
    seq(n, k requires 0 <= k < n => if at + k < |mem| then mem[at + k] else 0)
  }

  /** `mem` after the bytes `b` were stored at `at`. */
  function Store(mem: seq<byte>, at: nat, b: seq<byte>): (r: seq<byte>)
    requires at + |b| <= |mem|
    ensures |r| == |mem|
    ensures forall k :: 0 <= k < |mem| ==> r[k] == if at <= k < at + |b| then b[k - at] else mem[k]
  {
    mem[..at] + b + mem[at + |b|..]
  }

  /** Two memories agree on their first `n` bytes. */
  predicate Agree(m: seq<byte>, m': seq<byte>, n: nat) {
    n <= |m| && n <= |m'| && m[..n] == m'[..n]
  }

  lemma StoreLoad(mem: seq<byte>, at: nat, b: seq<byte>)
    requires at + |b| <= |mem|
    ensures Load(Store(mem, at, b), at, |b|) == b
    ensures Agree(mem, Store(mem, at, b), at)
  {
  }

  lemma AgreeLoad(m: seq<byte>, m': seq<byte>, n: nat, at: nat, k: nat)
    requires Agree(m, m', n) && at + k <= n
    ensures Load(m, at, k) == Load(m', at, k)
  {
    assert Load(m, at, k) == m[..n][at..at + k];
    assert Load(m', at, k) == m'[..n][at..at + k];
  }

  lemma AgreePeek(m: seq<byte>, m': seq<byte>, n: nat, at: nat, k: nat)
    requires Agree(m, m', n) && at + k <= n
    ensures Peek(m', at, k) == Load(m, at, k)
  {
    AgreeLoad(m, m', n, at, k);
  }

  lemma AgreeShorter(m: seq<byte>, m': seq<byte>, n: nat, k: nat)
    requires Agree(m, m', n) && k <= n
    ensures Agree(m, m', k)
  {
    assert m[..k] == m[..n][..k];
    assert m'[..k] == m'[..n][..k];
  }

  lemma AgreeTransitive(m: seq<byte>, m': seq<byte>, m'': seq<byte>, n: nat)
    requires Agree(m, m', n) && Agree(m', m'', n)
    ensures Agree(m, m'', n)
  {
  }

  /** The alignments the ABIs use. */
  predicate IsAlignment(a: nat) {
    a == 1 || a == 2 || a == 4 || a == 8 || a == 16
  }

  /** `n` is a multiple of the alignment `a`. */
  predicate Aligned(n: nat, a: nat)
    requires IsAlignment(a)
  {
    if a == 1 then true
    else if a == 2 then n % 2 == 0
    else if a == 4 then n % 4 == 0
    else if a == 8 then n % 8 == 0
    else n % 16 == 0
  }

  function Up2(n: nat): (r: nat) ensures n <= r < n + 2 && r % 2 == 0 { (n + 1) / 2 * 2 }
  function Up4(n: nat): (r: nat) ensures n <= r < n + 4 && r % 4 == 0 { (n + 3) / 4 * 4 }
  function Up8(n: nat): (r: nat) ensures n <= r < n + 8 && r % 8 == 0 { (n + 7) / 8 * 8 }
  function Up16(n: nat): (r: nat) ensures n <= r < n + 16 && r % 16 == 0 { (n + 15) / 16 * 16 }

  /** Round `n` up to a multiple of `a`: the value of `(n + a-1) & -a` for a power of two `a`. */
  function RoundUp(n: nat, a: nat): (r: nat)
    requires IsAlignment(a)
    ensures n <= r < n + a && Aligned(r, a)
  {
    if a == 1 then n else if a == 2 then Up2(n) else if a == 4 then Up4(n) else if a == 8 then Up8(n) else Up16(n)
  }

  /** A signed integer widened to `n` bytes, little endian: the sign fills the new high bytes. */
  function SignExtendLE(b: seq<byte>, n: nat): (r: seq<byte>)
    requires 0 < |b| <= n
    ensures |r| == n && r[..|b|] == b
  {
    b + seq(n - |b|, _ => if b[|b| - 1] >= 128 then 255 else 0)
  }

  /** A signed integer widened to `n` bytes, big endian. */
  function SignExtendBE(b: seq<byte>, n: nat): (r: seq<byte>)
    requires 0 < |b| <= n
    ensures |r| == n && r[n - |b|..] == b
  {
    seq(n - |b|, _ => if b[0] >= 128 then 255 else 0) + b
  }

  /** All bytes zero: the C test `x == 0` on a scalar. */
  predicate IsZero(b: seq<byte>) {
    forall k :: 0 <= k < |b| ==> b[k] == 0
  }
}
