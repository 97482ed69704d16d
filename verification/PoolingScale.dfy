/** Average pooling divides by multiplying with a scale and shifting. */
module PoolingScale {
  import opened Bits

  /** The number of bits of n. */
  function BitLength(n: nat): (k: nat)
    ensures n < Pow2(k) && (k > 0 ==> Pow2(k - 1) <= n)
  {
    if n == 0 then 0 else 1 + BitLength(n / 2)
  }

  const MANTISSA_BITS: nat := 53
  const MAX_EXPONENT: nat := 1024

  /**
   * The exponent that frexp gives for n: the number of bits of the double nearest to n. A tie goes to
   * the power of two, whose mantissa is even.
   */
  function Exponent(n: nat): (e: nat)
    ensures n < Pow2(e) && e <= BitLength(n) + 1
  {
    var k := BitLength(n);
    if k > MANTISSA_BITS && n + Pow2(k - MANTISSA_BITS - 1) >= Pow2(k) then k + 1 else k
  }

  /** A scale and a shift, or the outcome of a failed assertion, a shift by a negative amount, or float overflow. */
  datatype Quantised = Quantised(scale: nat, shift: nat) | ShiftTooLarge | NegativeShift | FloatOverflow

  function ShiftOf(nrKernelElements: nat, rescaleBits: int): int
    requires nrKernelElements >= 1
  {
    31 - rescaleBits + Exponent(nrKernelElements - 1)
  }

  function ScaleOf(nrKernelElements: nat, rescaleBits: int): nat
    requires nrKernelElements >= 1 && ShiftOf(nrKernelElements, rescaleBits) >= 0
  {
    var total := Pow2(ShiftOf(nrKernelElements, rescaleBits)) + Pow2(Exponent(nrKernelElements - 1));
    QuotientIsNat(total, nrKernelElements);
    total / nrKernelElements
  }

  /** The scale and the shift of an average over a kernel. */
  function QuantisePoolingScale(nrKernelElements: nat, rescaleBits: int): Quantised
    requires nrKernelElements >= 1
  {
    var shift := ShiftOf(nrKernelElements, rescaleBits);
    if !FitsFloat(nrKernelElements - 1) then FloatOverflow
    else if shift < 0 then NegativeShift
    else if shift < 64 then Quantised(ScaleOf(nrKernelElements, rescaleBits), shift)
    else ShiftTooLarge
  }

  // ---- products

  lemma TimesMonotonic(a: nat, b: nat, c: nat)
    requires a <= b
    ensures a * c <= b * c
  {
    assert b * c == a * c + (b - a) * c;
  }

  lemma TimesCancels(a: nat, b: nat, c: nat)
    requires c >= 1
    ensures a * c <= b * c ==> a <= b
    ensures a * c < b * c ==> a < b
  {
    if b <= a {
      TimesMonotonic(b, a, c);
    }
    if b < a {
      TimesMonotonic(b + 1, a, c);
      assert (b + 1) * c == b * c + c;
    }
  }

  lemma TimesSwaps(a: nat, b: nat, c: nat)
    ensures (a * b) * c == (a * c) * b && (a * b) * c == a * (b * c)
  {
  }

  lemma TimesAdds(a: nat, b: nat, c: nat)
    ensures (a + b) * c == a * c + b * c && c * (a + b) == c * a + c * b
  {
  }

  // ---- division

  /** The scale exceeds the exact quotient by less than one part in 2^N. */
  lemma ScaleBounds(n: nat, p: nat, m: nat, scale: nat) returns (e: nat)
    requires 1 <= n <= m && scale == (p * m + m) / n
    ensures scale * n == p * m + e && 1 <= e <= m
  {
    var total := p * m + m;
    assert total == n * (total / n) + total % n && 0 <= total % n < n;
    assert scale * n == n * (total / n);
    e := m - total % n;
  }

  /** With such a scale the high part of a product is the quotient. */
  lemma ProductBounds(x: nat, n: nat, p: nat, m: nat, scale: nat, e: nat, q: nat, t: nat)
    requires 1 <= n <= m && x < p && scale * n == p * m + e && 1 <= e <= m && x == q * n + t && t < n
    ensures q * (p * m) <= x * scale < (q + 1) * (p * m)
  {
    var d, y := p * m, x * scale;
    TimesSwaps(x, scale, n);
    TimesAdds(d, e, x);
    assert y * n == x * d + x * e;
    // from below
    TimesMonotonic(q * n, x, d);
    TimesSwaps(q, n, d);
    TimesCancels(q * d, y, n);
    // from above
    ErrorBound(x, p, m, e);
    TimesAdds(x, 1, d);
    TimesAdds(q, 1, n);
    TimesMonotonic(x + 1, (q + 1) * n, d);
    TimesSwaps(q + 1, n, d);
    TimesCancels(y, (q + 1) * d, n);
  }

  lemma ErrorBound(x: nat, p: nat, m: nat, e: nat)
    requires x < p && 1 <= e <= m
    ensures x * e < p * m
  {
    TimesMonotonic(e, m, x);
    TimesMonotonic(x + 1, p, m);
    TimesAdds(x, 1, m);
  }

  lemma QuotientBetween(y: nat, d: nat, q: nat)
    requires d >= 1 && q * d <= y < (q + 1) * d
    ensures y / d == q
  {
    assert (q + 1) * d == q * d + d;
    assert d * q == q * d;
    DivUnique(y, d, q, y - q * d);
  }

  /** What is known of a scale and shift, with the exponent e of frexp; up to 53 bits it is the bit length. */
  ghost predicate Scales(n: nat, rescaleBits: int, scale: nat, shift: nat, e: nat) {
    && n >= 1 && shift == 31 - rescaleBits + e && scale == (Pow2(shift) + Pow2(e)) / n
    && n <= Pow2(e) <= 3 * n
    && (0 < e <= MANTISSA_BITS ==> Pow2(e - 1) < n)
  }

  lemma ScaleFound(n: nat, rescaleBits: int, scale: nat, shift: nat) returns (e: nat)
    requires n >= 1 && QuantisePoolingScale(n, rescaleBits) == Quantised(scale, shift)
    ensures Scales(n, rescaleBits, scale, shift, e) && shift < 64
  {
    e := Exponent(n - 1);
    ExponentIsClose(n);
  }

  /** Rounded up or not, the power of two is at most three times the number. */
  lemma ExponentIsClose(n: nat)
    requires n >= 1
    ensures Pow2(Exponent(n - 1)) <= 3 * n
  {
    var k := BitLength(n - 1);
    if Exponent(n - 1) == k + 1 {
      Pow2Monotonic(k - MANTISSA_BITS - 1, k - 2);
      assert Pow2(k) == 2 * Pow2(k - 1) && Pow2(k - 1) == 2 * Pow2(k - 2);
    }
  }

  /** With 2^shift == p * m the scale is (p * m + d) / n. */
  lemma ScaleFacts(n: nat, rescaleBits: int, scale: nat, shift: nat, e: nat, p: nat, m: nat) returns (d: nat)
    requires Scales(n, rescaleBits, scale, shift, e) && rescaleBits <= 31
    requires p == Pow2(31 - rescaleBits) && m == Pow2(e)
    ensures Pow2(shift) == p * m && n <= m
    ensures scale * n == p * m + d && 1 <= d <= m
  {
    Pow2Adds(31 - rescaleBits, e);
    d := ScaleBounds(n, p, m, scale);
  }

  lemma ExactQuotient(x: nat, n: nat, p: nat, m: nat, scale: nat, e: nat)
    requires 1 <= n <= m && x < p && scale * n == p * m + e && 1 <= e <= m && p * m >= 1
    ensures (x * scale) / (p * m) == x / n
  {
    QuotientIsNat(x, n);
    assert x == (x / n) * n + x % n;
    ProductBounds(x, n, p, m, scale, e, x / n, x % n);
    QuotientBetween(x * scale, p * m, x / n);
  }

  /**
   * What the quantised scale is for: multiplying by it and shifting divides exactly, for every
   * accumulator below 2^(31 - rescaleBits).
   */
  lemma PoolingDivides(n: nat, rescaleBits: int, scale: nat, shift: nat, x: nat)
    requires n >= 1 && QuantisePoolingScale(n, rescaleBits) == Quantised(scale, shift)
    requires rescaleBits <= 31 && x < Pow2(31 - rescaleBits)
    ensures (x * scale) / Pow2(shift) == x / n
  {
    var e := ScaleFound(n, rescaleBits, scale, shift);
    var p, m := Pow2(31 - rescaleBits), Pow2(e);
    var d := ScaleFacts(n, rescaleBits, scale, shift, e, p, m);
    ExactQuotient(x, n, p, m, scale, d);
  }

  // ---- sizes

  /** Numbers with an exponent of at most e are those below this one; from 54 bits on some are rounded up to 2^e. */
  function Limit(e: int): nat {
    if e < 0 then 0
    else if e <= MANTISSA_BITS then Pow2(e)
    else
      Pow2Monotonic(e - MANTISSA_BITS - 1, e);
      Pow2(e) - Pow2(e - MANTISSA_BITS - 1)
  }

  lemma ExponentAtMost(v: nat, e: int)
    ensures Exponent(v) <= e <==> v < Limit(e)
  {
    var k := BitLength(v);
    if e < 0 {
      return;
    }
    if k > e {
      Pow2Monotonic(e, k - 1);
    } else if k < e {
      Pow2Monotonic(k, e - 1);
      if e > MANTISSA_BITS {
        Pow2Monotonic(e - MANTISSA_BITS - 1, e - 1);
      }
    }
  }

  /** The number does not round to a double that is too large. */
  predicate FitsFloat(v: nat) {
    Exponent(v) <= MAX_EXPONENT
  }

  /** The largest number that does: from 2^1024 - 2^970 on numbers round to 2^1024. */
  lemma FloatLimit(v: nat)
    ensures FitsFloat(v) <==> v < Pow2(1024) - Pow2(970)
  {
    ExponentAtMost(v, MAX_EXPONENT);
  }

  /**
   * Each outcome has its range of kernel sizes. The assertion on the shift holds for up to
   * 2^(32 + rescaleBits) elements, and from 54 bits on for those that do not round up to that number; the
   * shift is negative for up to 2^(rescaleBits - 32).
   */
  lemma ShiftFits(n: nat, rescaleBits: int, e: int, f: int)
    requires n >= 1 && e == 32 + rescaleBits && f == rescaleBits - 32
    ensures QuantisePoolingScale(n, rescaleBits).FloatOverflow? <==> !FitsFloat(n - 1)
    ensures FitsFloat(n - 1) ==>
              (QuantisePoolingScale(n, rescaleBits).ShiftTooLarge?
               <==> n > if e < 0 then 0 else if e <= 53 then Pow2(e) else Pow2(e) - Pow2(e - 54))
    ensures FitsFloat(n - 1) ==>
              (QuantisePoolingScale(n, rescaleBits).NegativeShift?
               <==> n <= if f < 0 then 0 else if f <= 53 then Pow2(f) else Pow2(f) - Pow2(f - 54))
  {
    ExponentAtMost(n - 1, 32 + rescaleBits);
    ExponentAtMost(n - 1, rescaleBits - 32);
  }

  /**
   * The scale is that of the rounded exponent e of one less than the number of elements: 2^(31 - rescaleBits + e)
   * and 2^e together over the number, rounded down.
   */
  lemma ScaleInNumbers(n: nat, rescaleBits: int, scale: nat, shift: nat) returns (e: nat)
    requires n >= 1 && QuantisePoolingScale(n, rescaleBits) == Quantised(scale, shift)
    ensures shift == 31 - rescaleBits + e && shift < 64 && scale == (Pow2(shift) + Pow2(e)) / n
    ensures n <= Pow2(e)
    ensures 0 < e <= 53 ==> Pow2(e - 1) < n
    ensures e == 54 ==> Pow2(53) - 1 < n - 1
    ensures e > 54 ==> Pow2(e - 1) - Pow2(e - 55) < n
  {
    e := Exponent(n - 1);
    ExponentAtMost(n - 1, e - 1);
  }

  lemma ScaleFits(n: nat, scale: nat, shift: nat, e: nat)
    requires Scales(n, 0, scale, shift, e) && e < 32
    ensures scale < Pow2(32)
  {
    var p, m := Pow2(31), Pow2(e);
    var d := ScaleFacts(n, 0, scale, shift, e, p, m);
    Pow2Monotonic(e, 31);
    Pow2Monotonic(1, 31);
    ScaleBelow(n, p, m, scale, d, p);
    assert Pow2(32) == 2 * Pow2(31);
  }

  lemma ScaleBelow(n: nat, p: nat, m: nat, scale: nat, e: nat, half: nat)
    requires n >= 1 && scale * n == p * m + e && 1 <= e <= m && p <= half && 2 <= half && 1 <= m <= half
    requires (n == 1 && m == 1) || 2 * n >= m + 2
    ensures scale < 2 * half
  {
    if n == 1 {
      return;
    }
    TimesMonotonic(p, half, m);
    TimesMonotonic(m + 2, 2 * n, half);
    TimesAdds(m, 2, half);
    assert half * m == m * half;
    TimesSwaps(2, n, half);
    assert (2 * n) * half == (2 * half) * n;
    TimesCancels(scale, 2 * half, n);
  }

  /** Negative rescale bits always need more than 32 bits. */
  lemma NegativeRescale(n: nat, rescaleBits: int, scale: nat, shift: nat, e: nat)
    requires Scales(n, rescaleBits, scale, shift, e) && rescaleBits < 0
    ensures scale >= Pow2(32)
  {
    var p, m := Pow2(31 - rescaleBits), Pow2(e);
    var d := ScaleFacts(n, rescaleBits, scale, shift, e, p, m);
    TimesMonotonic(n, m, p);
    assert p * m == m * p && p * n == n * p;
    TimesCancels(p, scale, n);
    Pow2Monotonic(32, 31 - rescaleBits);
  }

  /** With rescale bits there is room for every kernel. */
  lemma PositiveRescale(n: nat, rescaleBits: int, scale: nat, shift: nat, e: nat)
    requires Scales(n, rescaleBits, scale, shift, e) && rescaleBits > 0
    ensures scale < Pow2(32)
  {
    Pow2Monotonic(shift, 30 + e);
    Pow2Adds(30, e);
    ScaleBound(n, Pow2(shift), Pow2(e), scale, Pow2(30));
    Pow2Of31();
    assert Pow2(31) == 2 * Pow2(30) && Pow2(32) == 2 * Pow2(31);
  }

  lemma ScaleBound(n: nat, total: nat, m: nat, scale: nat, q: nat)
    requires n >= 1 && total <= q * m && scale == (total + m) / n && m <= 3 * n
    ensures scale <= 3 * (q + 1)
  {
    var sum := total + m;
    assert sum == n * (sum / n) + sum % n && 0 <= sum % n < n;
    TimesAdds(q, 1, m);
    assert scale * n <= (q + 1) * m;
    TimesMonotonic(m, 3 * n, q + 1);
    TimesSwaps(3, n, q + 1);
    assert (q + 1) * m == m * (q + 1) && (3 * (q + 1)) * n == (3 * n) * (q + 1);
    TimesCancels(scale, 3 * (q + 1), n);
  }

  /** The one kernel for which 32 bits do not suffice although the assertion on the shift holds. */
  lemma ScaleOverflows()
    ensures QuantisePoolingScale(0x8000_0001, 0) == Quantised(Pow2(32), 63)
  {
    Pow2Of31();
    assert Pow2(32) == 2 * Pow2(31);
    BitLengthIs(0x8000_0000, 32);
    Pow2Adds(31, 32);
    var total := Pow2(31) * Pow2(32) + Pow2(32);
    assert total == 0x8000_0001 * 0x1_0000_0000;
    DivUnique(total, 0x8000_0001, 0x1_0000_0000, 0);
  }

  lemma LargerKernels(n: nat, scale: nat, shift: nat)
    requires Scales(n, 0, scale, shift, 32) && n > 0x8000_0001
    ensures scale < Pow2(32)
  {
    Pow2Of31();
    assert Pow2(32) == 2 * Pow2(31);
    var d := ScaleFacts(n, 0, scale, shift, 32, Pow2(31), Pow2(32));
    assert scale * n <= 0x8000_0001 * 0x1_0000_0000;
    TimesMonotonic(0x8000_0002, n, 0x1_0000_0000);
    TimesCancels(scale, 0x1_0000_0000, n);
  }

  /** The scale fits 32 bits with rescale bits, and without them but for one kernel size. */
  lemma ScaleFitsExactly(n: nat, rescaleBits: int, scale: nat, shift: nat)
    requires n >= 1 && QuantisePoolingScale(n, rescaleBits) == Quantised(scale, shift)
    ensures scale < Pow2(32) <==> rescaleBits > 0 || (rescaleBits == 0 && n != 0x8000_0001)
  {
    if rescaleBits == 0 && n == 0x8000_0001 {
      ScaleOverflows();
    } else {
      var e := ScaleFound(n, rescaleBits, scale, shift);
      if rescaleBits < 0 {
        NegativeRescale(n, rescaleBits, scale, shift, e);
      } else if rescaleBits > 0 {
        PositiveRescale(n, rescaleBits, scale, shift, e);
      } else if e < 32 {
        ScaleFits(n, scale, shift, e);
      } else {
        Pow2Of31();
        LargerKernels(n, scale, shift);
      }
    }
  }

  lemma Pow2Of31()
    ensures Pow2(31) == 0x8000_0000
  {
    assert Pow2(5) == 32;
    Pow2Adds(5, 5);
    Pow2Adds(10, 10);
    Pow2Adds(20, 10);
    assert Pow2(31) == 2 * Pow2(30);
  }

  /** There is one exponent for every number. */
  lemma BitLengthIs(n: nat, k: nat)
    requires n < Pow2(k) && (k > 0 ==> Pow2(k - 1) <= n)
    ensures BitLength(n) == k
  {
    var j := BitLength(n);
    if j < k {
      Pow2Monotonic(j, k - 1);
    } else if k < j {
      Pow2Monotonic(k, j - 1);
    }
  }
}
