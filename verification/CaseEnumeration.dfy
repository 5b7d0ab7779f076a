/** The enumeration of test signatures (test/suite/mkcase.py, test/ellipsis/main.cc): case numbers
    against sequences of at most `n` out of `k` types. */
module CaseEnumeration {
  import opened Arithmetic

  function Pow(x: nat, n: nat): nat {
    if n == 0 then 1 else x * Pow(x, n - 1)
  }

  /** `powerfact`: x + x^2 + ... + x^n. */
  function Powerfact(x: nat, n: nat): nat {
    if n == 0 then 0 else Pow(x, n) + Powerfact(x, n - 1)
  }

  /** The types of case number `y`. */
  function Decode(k: nat, y: nat): seq<nat>
    requires k >= 1
    decreases y
  {
    if y == 0 then [] else
      Shrinks(k, y);
      [(y - 1) % k] + Decode(k, (y - 1) / k)
  }

  /** The case number of a type sequence. */
  function Encode(k: nat, s: seq<nat>): nat
    decreases |s|
  {
    if s == [] then 0 else s[0] + 1 + k * Encode(k, s[1..])
  }

  predicate IsCase(k: nat, n: nat, s: seq<nat>) {
    |s| <= n && forall i :: 0 <= i < |s| ==> s[i] < k
  }

  lemma Shrinks(k: nat, y: nat)
    requires k >= 1 && y >= 1
    ensures (y - 1) / k < y
  {
    Quotient(y - 1, k);
  }

  lemma Unique(k: nat, q: int, r: int, e: int, c: int)
    requires k * q + r == k * e + c && 0 <= r < k && 0 <= c < k
    ensures q == e && r == c
  {
    if q < e {
      MulMono(k, q + 1, e);
    } else if q > e {
      MulMono(k, e + 1, q);
    }
  }

  lemma Digit(c: nat, k: nat, e: nat)
    requires c < k
    ensures (c + k * e) / k == e && (c + k * e) % k == c
  {
    var n := c + k * e;
    DivMod(n, k);
    Unique(k, n / k, n % k, e, c);
  }

  lemma Bounded(k: nat, q: int, d: nat, p: nat, y: nat, end: nat)
    requires d < k && y - 1 == q * k + d && end == k * (1 + p)
    ensures q <= p <==> y <= end
  {
    if q <= p {
      MulMono(k, q + 1, 1 + p);
    } else {
      MulMono(k, 1 + p, q);
    }
  }

  lemma {:induction false} Horner(k: nat, n: nat)
    requires n >= 1
    ensures Powerfact(k, n) == k * (1 + Powerfact(k, n - 1))
  {
    if n > 1 {
      Horner(k, n - 1);
      assert k * (Pow(k, n - 1) + (1 + Powerfact(k, n - 2))) == k * Pow(k, n - 1) + k * (1 + Powerfact(k, n - 2));
    }
  }

  /** Every case number decodes to types, and encodes back. */
  lemma {:induction false} EncodeDecode(k: nat, y: nat)
    requires k >= 1
    ensures Encode(k, Decode(k, y)) == y
    ensures IsCase(k, |Decode(k, y)|, Decode(k, y))
    decreases y
  {
    if y > 0 {
      var q, r := (y - 1) / k, (y - 1) % k;
      Shrinks(k, y);
      EncodeDecode(k, q);
      Recompose(k, y - 1);
      EncodeOneMore(k, r, q, Decode(k, q));
    }
  }

  lemma Recompose(k: nat, n: nat)
    requires k >= 1
    ensures k * (n / k) + n % k == n && 0 <= n % k < k
  {
    DivMod(n, k);
  }

  lemma EncodeOneMore(k: nat, r: nat, q: nat, s: seq<nat>)
    requires r < k && Encode(k, s) == q && IsCase(k, |s|, s)
    ensures Encode(k, [r] + s) == r + 1 + k * q && IsCase(k, |s| + 1, [r] + s)
  {
    assert ([r] + s)[1..] == s;
  }

  /** Every type sequence is the decoding of its number. */
  lemma {:induction false} DecodeEncode(k: nat, s: seq<nat>)
    requires k >= 1 && IsCase(k, |s|, s)
    ensures Decode(k, Encode(k, s)) == s
    decreases |s|
  {
    if s != [] {
      var e := Encode(k, s[1..]);
      DecodeEncode(k, s[1..]);
      Digit(s[0], k, e);
      assert [s[0]] + s[1..] == s;
    }
  }

  /** The case numbers up to `powerfact(k, n)` are those of at most `n` types. */
  lemma {:induction false} LengthBound(k: nat, n: nat, y: nat)
    requires k >= 1
    ensures |Decode(k, y)| <= n <==> y <= Powerfact(k, n)
    decreases n
  {
    if y > 0 && n > 0 {
      var q := (y - 1) / k;
      Shrinks(k, y);
      LengthBound(k, n - 1, q);
      Horner(k, n);
      DivMod(y - 1, k);
      Bounded(k, q, (y - 1) % k, Powerfact(k, n - 1), y, Powerfact(k, n));
      assert |Decode(k, y)| == 1 + |Decode(k, q)|;
    }
  }

  /** Decoding is a bijection between the case numbers and the sequences of at most `n` types. */
  lemma Bijection(k: nat, n: nat)
    requires k >= 1
    ensures forall y: nat :: y <= Powerfact(k, n) ==> IsCase(k, n, Decode(k, y)) && Encode(k, Decode(k, y)) == y
    ensures forall s :: IsCase(k, n, s) ==> Encode(k, s) <= Powerfact(k, n) && Decode(k, Encode(k, s)) == s
  {
    forall y: nat | y <= Powerfact(k, n)
      ensures IsCase(k, n, Decode(k, y)) && Encode(k, Decode(k, y)) == y
    {
      EncodeDecode(k, y);
      LengthBound(k, n, y);
    }
    forall s | IsCase(k, n, s)
      ensures Encode(k, s) <= Powerfact(k, n) && Decode(k, Encode(k, s)) == s
    {
      DecodeEncode(k, s);
      LengthBound(k, n, Encode(k, s));
    }
  }

  /** The types of one case, as the generator collects them. */
  method TypesOf(k: nat, x: nat) returns (args: seq<nat>)
    requires k >= 1
    ensures args == Decode(k, x)
  {
    args := [];
    var y := x;
    while y > 0
      invariant 0 <= y && args + Decode(k, y) == Decode(k, x)
      decreases y
    {
      Shrinks(k, y);
      var s := (y - 1) % k;
      y := (y - 1) / k;
      args := args + [s];
    }
  }

  /** The generator's main loop: every sequence of at most `n` types comes out once. */
  method Generate(k: nat, n: nat) returns (cases: seq<seq<nat>>)
    requires k >= 1
    ensures |cases| == Powerfact(k, n) + 1
    ensures forall x :: 0 <= x < |cases| ==> IsCase(k, n, cases[x])
    ensures forall s :: IsCase(k, n, s) ==> s in cases
    ensures forall x, y :: 0 <= x < y < |cases| ==> cases[x] != cases[y]
  {
    var end := Powerfact(k, n) + 1;
    cases := [];
    var x := 0;
    while x < end
      invariant 0 <= x <= end && |cases| == x
      invariant forall j :: 0 <= j < x ==> cases[j] == Decode(k, j)
    {
      var args := TypesOf(k, x);
      cases := cases + [args];
      x := x + 1;
    }
    Bijection(k, n);
    forall s | IsCase(k, n, s)
      ensures s in cases
    {
      assert cases[Encode(k, s)] == s;
    }
    forall i, j | 0 <= i < j < |cases|
      ensures cases[i] != cases[j]
    {
      assert Encode(k, cases[i]) == i && Encode(k, cases[j]) == j;
    }
  }

  /** One turn of the decoding: the next type, and the number left. */
  method Turn(k: nat, y: nat) returns (select: nat, rest: nat)
    requires k >= 1 && y > 0
    ensures Decode(k, y) == [select] + Decode(k, rest) && rest < y
  {
    Shrinks(k, y);
    select, rest := (y - 1) % k, (y - 1) / k;
  }

  /** The decoding in `test_ellipsis_case`: the first argument is passed before the switch to varargs
      mode, the others after it.  The array is never indexed past its `nargs` elements. */
  method Selects(k: nat, nargs: nat, x: nat) returns (selects: array<nat>, pos: nat)
    requires k >= 1 && x <= Powerfact(k, nargs)
    ensures pos <= nargs == selects.Length && selects[..pos] == Decode(k, x)
    ensures forall i :: pos <= i < nargs ==> selects[i] == 0
  {
    selects := new nat[nargs](_ => 0);
    var y := x;
    pos := 0;
    LengthBound(k, nargs, x);
    if y > 0 {
      var select;
      select, y := Turn(k, y);
      selects[pos] := select;
      pos := pos + 1;
      assert selects[..1] == [select];
    }
    while y > 0
      invariant pos <= nargs && selects[..pos] + Decode(k, y) == Decode(k, x)
      invariant forall i :: pos <= i < nargs ==> selects[i] == 0
      decreases y
    {
      ghost var before := selects[..pos];
      var select;
      select, y := Turn(k, y);
      selects[pos] := select;
      pos := pos + 1;
      assert selects[..pos] == before + [select];
    }
  }
}
