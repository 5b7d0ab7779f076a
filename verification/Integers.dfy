/** Two's complement integers as little-endian bytes. */
module Integers {
  import opened Bytes

  /** 256 to the power `n`. */
  function Range(n: nat): (r: nat)
    ensures r >= 1
  {
    if n == 0 then 1 else 256 * Range(n - 1)
  }

  /** The low `n` bytes of `v`, as a C assignment to an integer of that size keeps them. */
  function Digits(v: int, n: nat): (b: seq<byte>)
    ensures |b| == n
    decreases n, v
  {
    if n == 0 then [] else [v % 256] + Digits(v / 256, n - 1)
  }

  function Unsigned(b: seq<byte>): nat {
    if b == [] then 0 else b[0] + 256 * Unsigned(b[1..])
  }

  function Signed(b: seq<byte>): int {
    if 2 * Unsigned(b) >= Range(|b|) then Unsigned(b) - Range(|b|) else Unsigned(b)
  }

  predicate FitsUnsigned(v: int, n: nat) {
    0 <= v < Range(n)
  }

  predicate FitsSigned(v: int, n: nat) {
    0 <= 2 * v + Range(n) < 2 * Range(n)
  }

  lemma {:induction false} UnsignedFits(b: seq<byte>)
    ensures FitsUnsigned(Unsigned(b), |b|)
    decreases |b|
  {
    if b != [] {
      UnsignedFits(b[1..]);
    }
  }

  lemma {:induction false} UnsignedOfDigits(v: int, n: nat)
    requires FitsUnsigned(v, n)
    ensures Unsigned(Digits(v, n)) == v
    decreases n
  {
    if n > 0 {
      UnsignedOfDigits(v / 256, n - 1);
      assert Digits(v, n)[1..] == Digits(v / 256, n - 1);
    }
  }

  lemma {:induction false} DigitsWrap(v: int, n: nat)
    ensures Digits(v + Range(n), n) == Digits(v, n)
    decreases n
  {
    if n > 0 {
      var w := v + Range(n);
      assert w % 256 == v % 256 && w / 256 == v / 256 + Range(n - 1);
      DigitsWrap(v / 256, n - 1);
    }
  }

  /** An integer is read back as unsigned exactly if it fits. */
  lemma UnsignedIff(v: int, n: nat)
    ensures Unsigned(Digits(v, n)) == v <==> FitsUnsigned(v, n)
  {
    UnsignedFits(Digits(v, n));
    if FitsUnsigned(v, n) {
      UnsignedOfDigits(v, n);
    }
  }

  /** An integer is read back as signed exactly if it fits. */
  lemma SignedIff(v: int, n: nat)
    ensures Signed(Digits(v, n)) == v <==> FitsSigned(v, n)
  {
    UnsignedFits(Digits(v, n));
    if FitsSigned(v, n) {
      if v >= 0 {
        UnsignedOfDigits(v, n);
      } else {
        DigitsWrap(v, n);
        UnsignedOfDigits(v + Range(n), n);
      }
    }
  }
}
