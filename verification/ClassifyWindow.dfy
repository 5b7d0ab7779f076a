/** The range of array elements the classifier visits for an aggregate-typed field
    (dyncall_aggregate_x64.c:105-111): complete from a field that starts at or before the eightbyte,
    and what the unsigned subtraction makes of one that starts inside it. */
module ClassifyWindow {
  import opened Classify
  import opened Arithmetic

  /** Array element `e` overlaps the eightbyte at `q`. */
  predicate ElementOverlaps(q: nat, offset: nat, size: nat, e: nat) {
    offset + size * e < q + 8 && q < offset + size * e + size
  }

  /** Window [j, k) visits real elements only, and every one that overlaps. */
  ghost predicate WindowExact(q: nat, offset: nat, size: nat, arrayLen: nat, j: int, k: int) {
    && 0 <= j && k <= arrayLen
    && forall e :: 0 <= e < arrayLen && ElementOverlaps(q, offset, size, e) ==> j <= e < k
  }

  /** Where the array may end: by the end of the eightbyte, or of the two that are classified. */
  predicate EndsInTime(q: nat, end: nat) {
    end <= q + 8 || ((q == 0 || q == 8) && end <= 16)
  }

  /** The array starts at or before the eightbyte, whose position an `int` can count. */
  predicate Early(q: nat, offset: nat, size: nat, arrayLen: nat) {
    0 < size && 0 < arrayLen && offset <= q && EndsInTime(q, offset + size * arrayLen) && q + 16 < TWO32 / 2
  }

  lemma WindowStartsInside(q: nat, offset: nat, size: nat, arrayLen: nat)
    requires Early(q, offset, size, arrayLen)
    ensures 0 <= (q - offset) / size <= q - offset
    ensures WindowStart(q, offset, size) == (q - offset) / size
    ensures WindowEnd(q, offset, size, arrayLen) ==
              var k := 8 / size + (q - offset) / size + 1; if k > arrayLen then arrayLen else k
  {
    Quotient(q - offset, size);
    Quotient(8, size);
  }

  /** An element below the window ends before the eightbyte, one above it starts after it;
      `j` and `m` are the quotients of `q - offset` and of 8 by the element size. */
  lemma ElementBetween(q: nat, offset: nat, size: nat, arrayLen: nat, e: nat, j: nat, m: nat)
    requires Early(q, offset, size, arrayLen)
    requires size * j <= q - offset < size * j + size && size * m <= 8 < size * m + size
    requires e < arrayLen && ElementOverlaps(q, offset, size, e)
    ensures j <= e < m + j + 1
  {
    Distribute(size, e, 1);
    if e < j {
      MulMono(size, e + 1, j);
    } else if e >= m + j + 1 {
      Distribute(size, m, j);
      Distribute(size, m + j, 1);
      MulMono(size, m + j + 1, e);
      MulMono(size, e + 1, arrayLen);
    }
  }

  lemma ElementInWindow(q: nat, offset: nat, size: nat, arrayLen: nat, e: nat)
    requires Early(q, offset, size, arrayLen) && e < arrayLen && ElementOverlaps(q, offset, size, e)
    ensures (q - offset) / size <= e < 8 / size + (q - offset) / size + 1
  {
    Quotient(q - offset, size);
    Quotient(8, size);
    ElementBetween(q, offset, size, arrayLen, e, (q - offset) / size, 8 / size);
  }

  lemma WindowComplete(q: nat, offset: nat, size: nat, arrayLen: nat)
    requires Early(q, offset, size, arrayLen)
    ensures WindowExact(q, offset, size, arrayLen, WindowStart(q, offset, size), WindowEnd(q, offset, size, arrayLen))
  {
    WindowStartsInside(q, offset, size, arrayLen);
    forall e: nat | e < arrayLen && ElementOverlaps(q, offset, size, e)
      ensures WindowStart(q, offset, size) <= e < WindowEnd(q, offset, size, arrayLen)
    {
      ElementInWindow(q, offset, size, arrayLen, e);
    }
  }

  /** The window is exact precisely when the nested field starts at or before the eightbyte:
      past it, the unsigned subtraction wraps and the range starts elsewhere. */
  lemma WindowExactIff(q: nat, offset: nat, size: nat, arrayLen: nat)
    requires 0 < size && 0 < arrayLen && (q == 0 || q == 8) && offset + size * arrayLen <= 16
    requires offset < q + 8
    ensures WindowExact(q, offset, size, arrayLen, WindowStart(q, offset, size), WindowEnd(q, offset, size, arrayLen))
            <==> offset <= q
  {
    if offset <= q {
      WindowComplete(q, offset, size, arrayLen);
    } else {
      MulMono(size, 1, arrayLen);
      assert ElementOverlaps(q, offset, size, 0);
      WrappedStart(offset - q, size);
    }
  }

  /** The wrapped start of the window is never element 0: a quotient that vanishes modulo 2^32
      would leave `d` plus the remainder divisible by 2^32. */
  lemma WrappedStart(d: nat, size: nat)
    requires 0 < d < 8 && 0 < size < 16
    ensures ToInt(ToSize(0 - d) / size) != 0
  {
    assert ToSize(0 - d) == TWO64 - d;
    var n := TWO64 - d;
    DivMod(n, size);
    WrapResidue(n / size, size, n % size, d);
  }

  lemma WrapResidue(quotient: nat, size: nat, r: nat, d: nat)
    requires 0 < d < 8 && r < size < 16 && quotient * size + r == TWO64 - d
    ensures quotient % TWO32 != 0
  {
    var high, low := quotient / TWO32, quotient % TWO32;
    var u := high * size;
    assert quotient * size == (high * TWO32 + low) * size == u * TWO32 + low * size;
  }

  /** Without the bound of 16 bytes the window misses elements: of ten 3-byte elements that
      start 2 bytes before the second eightbyte, element 3 overlaps it and is not visited. */
  lemma WindowNeedsBound()
    ensures !WindowExact(8, 6, 3, 10, WindowStart(8, 6, 3), WindowEnd(8, 6, 3, 10))
  {
    assert ElementOverlaps(8, 6, 3, 3);
  }

  lemma WindowEdges(q: nat, offset: nat, size: nat, arrayLen: nat)
    requires 0 < size && 0 < arrayLen && (q == 0 || q == 8) && offset <= q && offset + size * arrayLen <= 16
    requires q < offset + size * arrayLen
    ensures var j, k := WindowStart(q, offset, size), WindowEnd(q, offset, size, arrayLen);
            && 0 <= j < k <= arrayLen
            && offset + size * j <= q
            && (k == arrayLen || q + 8 <= offset + size * k)
  {
    WindowStartsInside(q, offset, size, arrayLen);
    Quotient(q - offset, size);
    Quotient(8, size);
    Edges(q, offset, size, arrayLen, (q - offset) / size, 8 / size);
  }

  lemma Edges(q: nat, offset: nat, size: nat, arrayLen: nat, j: nat, m: nat)
    requires 0 < size && (q == 0 || q == 8) && offset <= q < offset + size * arrayLen <= 16
    requires size * j <= q - offset < size * j + size && size * m <= 8 < size * m + size
    ensures j < arrayLen
    ensures m + j + 1 < arrayLen ==> q + 8 <= offset + size * (m + j + 1)
  {
    var k := m + j + 1;
    if arrayLen <= j {
      MulMono(size, arrayLen, j);
    } else if k < arrayLen {
      MulMono(size, j + 1, k);
      if offset + size * k < q + 8 {
        ElementBetween(q, offset, size, arrayLen, k, j, m);
      }
    }
  }

  // ----- fields that start inside the eightbyte -----

  /** An array that starts inside one of the two eightbytes of a 16-byte aggregate. */
  predicate Late(q: nat, offset: nat, size: nat, arrayLen: nat) {
    0 < size && 0 < arrayLen && (q == 0 || q == 8) && q < offset < q + 8 && offset + size * arrayLen <= 16
  }

  /** Element sizes for which the wrapped range starts below element 0. */
  predicate Visited(size: nat) {
    size in {1, 2, 4, 6, 7, 8, 10, 13}
  }

  /** `(2^64 - d) / size` from the quotient and the remainder of 2^64. */
  lemma QuotientBelow(d: nat, size: nat, quotient: int, rest: int)
    requires 0 < d < 8 && 0 < size && TWO64 == size * quotient + rest && 0 <= rest < size
    ensures quotient - 7 <= (TWO64 - d) / size <= quotient
  {
    var x := (TWO64 - d) / size;
    Quotient(TWO64 - d, size);
    MulMono(7, 1, size);
    Distribute(size, quotient, -7);
    Distribute(size, quotient, 1);
    Distribute(size, x, 1);
    if x > quotient {
      MulMono(size, quotient + 1, x);
    } else if x < quotient - 7 {
      MulMono(size, x + 1, quotient - 7);
    }
  }

  lemma QuotientExact(d: nat, size: nat, quotient: int)
    requires 0 < d < 8 && 0 < size && TWO64 == size * quotient
    ensures (TWO64 - d) / size == quotient - (d + size - 1) / size
  {
    var n, c := TWO64 - d, (d + size - 1) / size;
    Quotient(n, size);
    Quotient(d + size - 1, size);
    Distribute(size, quotient, -c);
    Between(size, n / size, quotient - c, n);
  }

  lemma Between(size: nat, x: int, y: int, n: int)
    requires 0 < size && size * x <= n < size * x + size && size * y <= n < size * y + size
    ensures x == y
  {
    if x < y {
      MulMono(size, x + 1, y);
    } else if y < x {
      MulMono(size, y + 1, x);
    }
  }

  /** The same, cut to 32 bits: a quotient whose low half is small stays positive, */
  lemma CutPositive(d: nat, size: nat, quotient: int, rest: int)
    requires 0 < d < 8 && 0 < size && TWO64 == size * quotient + rest && 0 <= rest < size
    requires 32 <= quotient % TWO32 < TWO32 / 2
    ensures ToInt((TWO64 - d) / size) > 16
  {
    QuotientBelow(d, size, quotient, rest);
    CutBelow(quotient, (TWO64 - d) / size);
  }

  /** one whose low half is large turns negative, */
  lemma CutNegative(d: nat, size: nat, quotient: int, rest: int)
    requires 0 < d < 8 && 0 < size && TWO64 == size * quotient + rest && 0 <= rest < size
    requires TWO32 / 2 + 7 <= quotient % TWO32 < TWO32 - 16
    ensures ToInt((TWO64 - d) / size) < -16
  {
    QuotientBelow(d, size, quotient, rest);
    CutBelow(quotient, (TWO64 - d) / size);
  }

  lemma CutBelow(quotient: int, x: int)
    requires 7 <= quotient % TWO32 && quotient - 7 <= x <= quotient
    ensures x % TWO32 == quotient % TWO32 - (quotient - x)
  {
  }

  /** and the quotient by a power of two is rounded towards minus infinity. */
  lemma CutRounded(d: nat, size: nat, quotient: int)
    requires 0 < d < 8 && 0 < size && TWO64 == size * quotient && quotient % TWO32 == 0
    ensures ToInt((TWO64 - d) / size) == -((d + size - 1) / size) < 0
  {
    QuotientExact(d, size, quotient);
    var c := (d + size - 1) / size;
    RoundedUp(d, size, c);
    CutSmall(quotient, c);
  }

  lemma RoundedUp(d: nat, size: nat, c: int)
    requires 0 < d < 8 && 0 < size && c == (d + size - 1) / size
    ensures 1 <= c <= 7
  {
    Quotient(d + size - 1, size);
    MulMono(7, 1, size);
    if c < 1 {
      MulMono(size, c, 0);
    } else if c > 7 {
      MulMono(size, 8, c);
    }
  }

  lemma CutSmall(quotient: int, c: int)
    requires quotient % TWO32 == 0 && 1 <= c <= 7
    ensures ToInt(quotient - c) == -c
  {
    assert (quotient - c) % TWO32 == TWO32 - c;
  }

  lemma RoundedSizes(d: nat, size: nat)
    requires 0 < d < 8 && size in {1, 2, 4, 8}
    ensures ToInt((TWO64 - d) / size) == -((d + size - 1) / size) < 0
  {
    if size == 1 {
      CutRounded(d, 1, TWO64);
    } else if size == 2 {
      CutRounded(d, 2, TWO64 / 2);
    } else if size == 4 {
      CutRounded(d, 4, TWO64 / 4);
    } else {
      CutRounded(d, 8, TWO64 / 8);
    }
  }

  lemma NegativeSizes(d: nat, size: nat)
    requires 0 < d < 8 && size in {6, 7, 10, 13}
    ensures ToInt((TWO64 - d) / size) < -16
  {
    if size == 6 {
      CutNegative(d, 6, TWO64 / 6, TWO64 % 6);
    } else if size == 7 {
      CutNegative(d, 7, TWO64 / 7, TWO64 % 7);
    } else if size == 10 {
      CutNegative(d, 10, TWO64 / 10, TWO64 % 10);
    } else {
      CutNegative(d, 13, TWO64 / 13, TWO64 % 13);
    }
  }

  lemma PositiveSizes(d: nat, size: nat)
    requires 0 < d < 8 && 0 < size < 16 && !Visited(size)
    ensures ToInt((TWO64 - d) / size) > 16
  {
    if size == 3 {
      CutPositive(d, 3, TWO64 / 3, TWO64 % 3);
    } else if size == 5 {
      CutPositive(d, 5, TWO64 / 5, TWO64 % 5);
    } else if size == 9 {
      CutPositive(d, 9, TWO64 / 9, TWO64 % 9);
    } else if size == 11 {
      CutPositive(d, 11, TWO64 / 11, TWO64 % 11);
    } else if size == 12 {
      CutPositive(d, 12, TWO64 / 12, TWO64 % 12);
    } else if size == 14 {
      CutPositive(d, 14, TWO64 / 14, TWO64 % 14);
    } else {
      CutPositive(d, 15, TWO64 / 15, TWO64 % 15);
    }
  }

  /** The start of the range for a field `d` bytes into the eightbyte: the wrapped quotient is cut to
      32 bits, and its sign there depends on the element size alone. */
  lemma WrappedQuotient(d: nat, size: nat)
    requires 0 < d < 8 && 0 < size < 16
    ensures var j := ToInt((TWO64 - d) / size);
            if size in {1, 2, 4, 8} then j == -((d + size - 1) / size) < 0 else if Visited(size) then j < -16 else j > 16
  {
    if size in {1, 2, 4, 8} {
      RoundedSizes(d, size);
    } else if Visited(size) {
      NegativeSizes(d, size);
    } else {
      PositiveSizes(d, size);
    }
  }

  lemma EndAsComputed(size: nat, start: int, arrayLen: nat, e: nat)
    requires size > 0 && e < arrayLen <= 16 && e < 8 / size + start + 1 <= 16
    ensures e < RangeEnd(size, start, arrayLen)
  {
  }

  /** A negative end exceeds the array length when the two are compared, and is replaced by it. */
  lemma EndReplaced(size: nat, start: int, arrayLen: nat, e: nat)
    requires size > 0 && e < arrayLen <= 16 && -TWO32 / 2 <= start < -16
    ensures e < RangeEnd(size, start, arrayLen)
  {
    Quotient(8, size);
    NegativeKept(8 / size + start + 1);
  }

  /** A small negative number passes through both conversions, and is huge as an unsigned one. */
  lemma NegativeKept(k: int)
    requires -TWO32 / 2 <= k < 0
    ensures ToInt(ToSize(k)) == k && ToSize(k) > 16
  {
    assert ToSize(k) == TWO64 + k;
    assert (TWO64 + k) % TWO32 == TWO32 + k;
  }

  lemma OverlapsBefore(d: nat, size: nat, e: nat)
    requires 0 < d < 8 && size in {1, 2, 4, 8} && d + size * e < 8
    ensures e < 8 / size - (d + size - 1) / size + 1 <= 16
  {
    if size == 1 {
    } else if size == 2 {
    } else if size == 4 {
    } else {
    }
  }

  /** An element that overlaps the eightbyte lies below the end of the range. */
  lemma LateElement(d: nat, size: nat, arrayLen: nat, e: nat, j: int)
    requires 0 < d < 8 && Visited(size) && e < arrayLen <= 16 && d + size * e < 8
    requires if size in {1, 2, 4, 8} then j == -((d + size - 1) / size) else -TWO32 / 2 <= j < -16
    ensures e < RangeEnd(size, j, arrayLen)
  {
    if size in {1, 2, 4, 8} {
      OverlapsBefore(d, size, e);
      EndAsComputed(size, j, arrayLen, e);
    } else {
      EndReplaced(size, j, arrayLen, e);
    }
  }

  lemma LateSize(q: nat, offset: nat, size: nat, arrayLen: nat)
    requires Late(q, offset, size, arrayLen)
    ensures size < 16 && arrayLen < 16
    ensures WindowStart(q, offset, size) == ToInt((TWO64 - (offset - q)) / size)
  {
    MulMono(size, 1, arrayLen);
    MulMono(arrayLen, 1, size);
    assert ToSize(q - offset) == TWO64 - (offset - q);
  }

  /** A late field of one of these element sizes has every overlapping element visited, after some
      that lie before the array. */
  lemma LateVisited(q: nat, offset: nat, size: nat, arrayLen: nat, e: nat)
    requires Late(q, offset, size, arrayLen) && Visited(size)
    requires e < arrayLen && ElementOverlaps(q, offset, size, e)
    ensures WindowStart(q, offset, size) < 0 && e < WindowEnd(q, offset, size, arrayLen)
  {
    LateSize(q, offset, size, arrayLen);
    WrappedQuotient(offset - q, size);
    LateElement(offset - q, size, arrayLen, e, WindowStart(q, offset, size));
  }

  /** A late field of another element size has no element visited at all. */
  lemma LateMissed(q: nat, offset: nat, size: nat, arrayLen: nat)
    requires Late(q, offset, size, arrayLen) && !Visited(size)
    ensures WindowEnd(q, offset, size, arrayLen) <= WindowStart(q, offset, size)
  {
    LateSize(q, offset, size, arrayLen);
    WrappedQuotient(offset - q, size);
    EndCapped(size, WindowStart(q, offset, size), arrayLen);
  }

  lemma EndCapped(size: nat, start: int, arrayLen: nat)
    requires size > 0 && arrayLen < 16 && start > 16
    ensures RangeEnd(size, start, arrayLen) <= 16
  {
    var k := ToInt(ToSize(8 / size + start + 1));
    assert ToSize(k) <= arrayLen ==> k <= 16;
  }
}
