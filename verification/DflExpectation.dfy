/** The fixed-point expectation of a distribution over 16 bins, given as logits of eight bits. */
module DflExpectation {
  import opened Bits
  import opened PoolingScale

  const BINS: nat := 16
  const EXP_ONE: nat := 32768

  // ---- the tables

  /** Entry i of the reciprocal table: 2^37 over twice the middle of [256 + i, 257 + i), rounded. */
  function Reciprocal(i: nat): nat {
    QuotientIsNat(Pow2(37) + (513 + 2 * i) / 2, 513 + 2 * i);
    (Pow2(37) + (513 + 2 * i) / 2) / (513 + 2 * i)
  }

  predicate ValidExp(exp: seq<nat>) {
    |exp| == 256 && forall i :: 0 <= i < 256 ==> 1 <= exp[i] <= EXP_ONE
  }

  predicate ValidLogits(logits: seq<int>) {
    |logits| == BINS && forall j :: 0 <= j < BINS ==> -128 <= logits[j] <= 127
  }

  // ---- the expectation

  function Max(logits: seq<int>): (m: int)
    requires logits != []
    ensures m in logits && forall j :: 0 <= j < |logits| ==> logits[j] <= m
  {
    if |logits| == 1 then logits[0]
    else
      var rest := Max(logits[..|logits| - 1]);
      var last := logits[|logits| - 1];
      assert logits == logits[..|logits| - 1] + [last];
      if last > rest then last else rest
  }

  /** The weight of bin j; differences below -128 wrap into the first half of the table. */
  function Probability(logits: seq<int>, exp: seq<nat>, j: nat): (p: nat)
    requires ValidLogits(logits) && ValidExp(exp) && j < BINS
    ensures 1 <= p <= EXP_ONE
  {
    exp[(logits[j] - Max(logits)) % 256]
  }

  function Total(logits: seq<int>, exp: seq<nat>, n: nat): (t: nat)
    requires ValidLogits(logits) && ValidExp(exp) && n <= BINS
    ensures n <= t <= n * EXP_ONE
  {
    if n == 0 then 0 else Total(logits, exp, n - 1) + Probability(logits, exp, n - 1)
  }

  /** The part of a bin in the weighted sum. */
  function BinTimes(bin: nat, probability: nat): (w: nat)
    requires bin < BINS
    ensures w <= 15 * probability
  {
    TimesMonotonic(bin, 15, probability);
    bin * probability
  }

  function Weighted(logits: seq<int>, exp: seq<nat>, n: nat): (w: nat)
    requires ValidLogits(logits) && ValidExp(exp) && n <= BINS
    ensures w <= 15 * Total(logits, exp, n)
  {
    if n == 0 then 0
    else Weighted(logits, exp, n - 1) + BinTimes(n - 1, Probability(logits, exp, n - 1))
  }

  function Clip(v: int, low: int, high: int): int {
    if v < low then low else if v > high then high else v
  }

  /** 256 times the weighted sum times the entry of the reciprocal table, not rounded yet. */
  function Product(weighted: nat, total: nat): nat
    requires total >= 1
  {
    var shift := BitLength(total) - 1;
    QuotientIsNat(total * 256, Pow2(shift));
    (weighted * 256) * Reciprocal(Clip(total * 256 / Pow2(shift), 256, 511) % 256)
  }

  /** The final shift, rounding to nearest. */
  function RoundShift(x: nat, shift: nat): nat {
    QuotientIsNat(x + Pow2(27 + shift), Pow2(28 + shift));
    (x + Pow2(27 + shift)) / Pow2(28 + shift)
  }

  /** The result before it is clamped to 65535. */
  function Rounded(weighted: nat, total: nat): nat
    requires total >= 1
  {
    RoundShift(Product(weighted, total), BitLength(total) - 1)
  }

  datatype Expectation = Q8(value: nat) | Invalid

  /** Inputs that do not fit are refused. */
  function ExpectationQ8(logits: seq<int>, exp: seq<nat>): Expectation {
    if !ValidLogits(logits) || !ValidExp(exp) then Invalid
    else
      var q := Rounded(Weighted(logits, exp, BINS), Total(logits, exp, BINS));
      Q8(if q > 65535 then 65535 else q)
  }

  // ---- the error

  predicate Within(x: int, bound: int) {
    -bound <= x <= bound
  }

  /** The leading power of two of the total. */
  lemma Leading(total: nat) returns (c: nat)
    requires total >= 1
    ensures BitLength(total) >= 1 && c == Pow2(BitLength(total) - 1) && c <= total < 2 * c
  {
    c := Pow2(BitLength(total) - 1);
    assert Pow2(BitLength(total)) == 2 * c;
  }

  /** Normalised to its leading bit the total lies in [256, 512), within half a step of a table entry. */
  lemma Normalised(total: nat, c: nat) returns (n: nat)
    requires c >= 1 && c <= total < 2 * c
    ensures n == total * 256 / c && 256 <= n <= 511
    ensures (2 * n + 1) * c <= 512 * total + c && 512 * total <= (2 * n + 1) * c + c
  {
    QuotientIsNat(total * 256, c);
    n := total * 256 / c;
    var r := total * 256 % c;
    assert total * 256 == c * n + r && 0 <= r < c;
    TimesCancels(256, n + 1, c);
    TimesAdds(n, 1, c);
    TimesCancels(n, 512, c);
    TimesAdds(2 * n, 1, c);
    TimesSwaps(2, n, c);
    assert (2 * n) * c == 2 * (c * n);
  }

  /** A quotient rounded to nearest. */
  lemma RoundedQuotient(p: nat, d: nat) returns (eps: int)
    requires d >= 1
    ensures d * ((p + d / 2) / d) == p + eps && Within(2 * eps, d)
  {
    var num := p + d / 2;
    assert num == d * (num / d) + num % d && 0 <= num % d < d;
    eps := d / 2 - num % d;
  }

  /** The table entry for a normalised total of n, with d == 2 * n + 1. */
  lemma ReciprocalBounds(n: nat, d: nat) returns (eps: int)
    requires 256 <= n <= 511 && d == 2 * n + 1
    ensures d * Reciprocal(n % 256) == Pow2(37) + eps && Within(2 * eps, d)
  {
    var i: nat := n - 256;
    assert n % 256 == i;
    ReciprocalOf(i, d);
    eps := RoundedQuotient(Pow2(37), d);
  }

  lemma ReciprocalOf(i: nat, d: nat)
    requires d == 513 + 2 * i
    ensures Reciprocal(i) == (Pow2(37) + d / 2) / d
  {
  }

  lemma ReciprocalFits(r: nat, d: nat, p28: nat, eps: int)
    requires d * r == 512 * p28 + eps && 513 <= d <= 1023 && 2 * eps <= d && p28 >= 512
    ensures r <= p28
  {
    if r > p28 {
      TimesMonotonic(p28 + 1, r, d);
      TimesMonotonic(513, d, p28 + 1);
    }
  }

  /** Powers of two as this calculation needs them. */
  lemma Powers()
    ensures Pow2(9) == 512 && Pow2(37) == 512 * Pow2(28) && Pow2(28) == 0x1000_0000 && Pow2(59) == 0x800_0000_0000_0000
    ensures Pow2(28) == 2 * Pow2(27)
  {
    assert Pow2(5) == 32 && Pow2(4) == 16;
    Pow2Adds(5, 4);
    Pow2Adds(9, 28);
    Pow2Adds(9, 9);
    Pow2Adds(9, 1);
    Pow2Adds(18, 10);
    Pow2Of31();
    Pow2Adds(28, 31);
  }

  /** The final rounding shift. */
  lemma RoundedShift(x: nat, k: nat, half: nat) returns (q: nat, eta: int)
    requires k >= 1 && k == 2 * half
    ensures q == (x + half) / k && q * k == x + eta && Within(2 * eta, k)
  {
    QuotientIsNat(x + half, k);
    q := (x + half) / k;
    var r := (x + half) % k;
    assert x + half == k * q + r && 0 <= r < k;
    eta := half - r;
  }

  // The difference of the result q from 256 * w / t, times t * k * d for k == p * c, has three parts:
  // the rounding of the reciprocal, the final rounding, and the distance of the total from the middle
  // of its table entry.

  lemma ThreeParts(w: nat, t: nat, c: nat, d: nat, r: nat, q: nat, p: nat, eps: int, eta: int, delta: int)
    requires d * r == 512 * p + eps && q * (p * c) == (w * 256) * r + eta && d * c == 512 * t - delta
    ensures (q * t - 256 * w) * ((p * c) * d) == (256 * w) * t * eps + eta * (t * d) + (256 * w) * p * delta
  {
    var k, v := p * c, 256 * w;
    assert (q * t - v) * (k * d) == (q * k) * (t * d) - v * (k * d);
    assert (q * k) * (t * d) == (v * r) * (t * d) + eta * (t * d);
    assert (v * r) * (t * d) == (v * t) * (d * r);
    assert (v * t) * (d * r) == (v * t) * (512 * p) + (v * t) * eps;
    assert v * (k * d) == (v * p) * (d * c);
    assert (v * p) * (d * c) == (v * p) * (512 * t) - (v * p) * delta;
    assert (v * t) * (512 * p) == (v * p) * (512 * t);
  }

  lemma WithinTimes(m: nat, x: int, bound: nat)
    requires Within(x, bound)
    ensures Within(m * x, m * bound)
  {
    assert m * (bound - x) >= 0 && m * (bound + x) >= 0;
    assert m * (bound - x) == m * bound - m * x && m * (bound + x) == m * bound + m * x;
  }

  lemma FirstFactor(w: nat, t: nat, c: nat)
    requires w <= 15 * t && t < 2 * c
    ensures (256 * w) * t <= 7680 * (c * t)
  {
    TimesMonotonic(w, 15 * t, 256 * t);
    assert (256 * w) * t == w * (256 * t);
    assert (15 * t) * (256 * t) == 3840 * (t * t);
    TimesMonotonic(t, 2 * c, t);
    assert (2 * c) * t == 2 * (c * t);
  }

  lemma FirstPart(w: nat, t: nat, c: nat, d: nat, p: nat, eps: int)
    requires w <= 15 * t && t < 2 * c && Within(2 * eps, d)
    ensures Within(p * (2 * ((256 * w) * t * eps)), 7680 * (t * ((p * c) * d)))
  {
    var m := (256 * w) * t;
    FirstFactor(w, t, c);
    FirstScaled(m, c, t, d, p, eps);
  }

  lemma FirstScaled(m: nat, c: nat, t: nat, d: nat, p: nat, eps: int)
    requires m <= 7680 * (c * t) && Within(2 * eps, d)
    ensures Within(p * (2 * (m * eps)), 7680 * (t * ((p * c) * d)))
  {
    WithinTimes(m, 2 * eps, d);
    assert m * (2 * eps) == 2 * (m * eps);
    WithinTimes(p, 2 * (m * eps), m * d);
    TimesMonotonic(m, 7680 * (c * t), p * d);
    assert p * (m * d) == m * (p * d);
    assert (7680 * (c * t)) * (p * d) == 7680 * (t * ((p * c) * d));
  }

  lemma SecondPart(t: nat, k: nat, d: nat, eta: int)
    requires Within(2 * eta, k)
    ensures Within(2 * (eta * (t * d)), t * (k * d))
  {
    WithinTimes(t * d, 2 * eta, k);
    assert (t * d) * (2 * eta) == 2 * (eta * (t * d));
    assert (t * d) * k == t * (k * d);
  }

  lemma ThirdPart(w: nat, t: nat, c: nat, d: nat, p: nat, delta: int)
    requires w <= 15 * t && d >= 513 && Within(delta, c)
    ensures Within(513 * ((256 * w) * p * delta), 3840 * (t * ((p * c) * d)))
  {
    var m := (256 * w) * p;
    WithinTimes(m, delta, c);
    TimesMonotonic(w, 15 * t, 256 * (p * c));
    assert m * c == w * (256 * (p * c));
    assert (15 * t) * (256 * (p * c)) == 3840 * (t * (p * c));
    TimesMonotonic(513, d, t * (p * c));
    assert d * (t * (p * c)) == t * ((p * c) * d);
    WithinTimes(513, m * delta, m * c);
  }

  lemma IntTimesCancels(a: int, b: int, m: nat)
    requires m >= 1
    ensures a * m < b * m ==> a < b
  {
    if a >= b {
      assert (a - b) * m >= 0;
      assert (a - b) * m == a * m - b * m;
    }
  }

  /** Three parts of at most 0.0001, 0.5 and 7.4854 make less than 8. */
  lemma PartsAdd(e: int, a: int, b: int, g: int, x: nat, p: nat)
    requires e == a + b + g && x >= 1 && p == 0x1000_0000
    requires Within(p * (2 * a), 7680 * x) && Within(2 * b, x) && Within(513 * g, 3840 * x)
    ensures -(8 * x) < e < 8 * x
  {
  }

  lemma ScaledError(w: nat, t: nat, c: nat, d: nat, r: nat, q: nat, p: nat, eps: int, eta: int, delta: int, x: nat)
    requires w <= 15 * t && t < 2 * c && d >= 513 && p == 0x1000_0000 && x >= 1 && x == t * ((p * c) * d)
    requires d * r == 512 * p + eps && Within(2 * eps, d)
    requires q * (p * c) == (w * 256) * r + eta && Within(2 * eta, p * c)
    requires d * c == 512 * t - delta && Within(delta, c)
    ensures -(8 * x) < (q * t - 256 * w) * ((p * c) * d) < 8 * x
  {
    ThreeParts(w, t, c, d, r, q, p, eps, eta, delta);
    FirstPart(w, t, c, d, p, eps);
    SecondPart(t, p * c, d, eta);
    ThirdPart(w, t, c, d, p, delta);
    PartsAdd((q * t - 256 * w) * ((p * c) * d), (256 * w) * t * eps, eta * (t * d), (256 * w) * p * delta, x, p);
  }

  lemma Unscaled(e: int, t: nat, m: nat)
    requires m >= 1 && -(8 * (t * m)) < e * m < 8 * (t * m)
    ensures -8 * t < e < 8 * t
  {
    assert (8 * t) * m == 8 * (t * m) && (-8 * t) * m == -(8 * (t * m));
    IntTimesCancels(e, 8 * t, m);
    IntTimesCancels(-8 * t, e, m);
  }

  lemma PositiveProduct(a: nat, b: nat)
    requires a >= 1 && b >= 1
    ensures a * b >= 1
  {
  }

  lemma ErrorBound(w: nat, t: nat, c: nat, d: nat, r: nat, q: nat, p: nat, eps: int, eta: int)
    requires w <= 15 * t && 1 <= c <= t < 2 * c && d >= 513 && p == 0x1000_0000
    requires d * r == 512 * p + eps && Within(2 * eps, d)
    requires q * (p * c) == (w * 256) * r + eta && Within(2 * eta, p * c)
    requires d * c <= 512 * t + c && 512 * t <= d * c + c
    ensures 256 * w - 8 * t < q * t < 256 * w + 8 * t
  {
    PositiveProduct(p, c);
    PositiveProduct(p * c, d);
    PositiveProduct(t, (p * c) * d);
    ScaledError(w, t, c, d, r, q, p, eps, eta, 512 * t - d * c, t * ((p * c) * d));
    Unscaled(q * t - 256 * w, t, (p * c) * d);
  }

  // ---- the properties

  /** The table entry of a total. */
  function EntryOf(t: nat): nat
    requires t >= 1
  {
    QuotientIsNat(t * 256, Pow2(BitLength(t) - 1));
    Reciprocal(Clip(t * 256 / Pow2(BitLength(t) - 1), 256, 511) % 256)
  }

  lemma EntryBounds(t: nat, c: nat) returns (d: nat, eps: int)
    requires t >= 1 && c == Pow2(BitLength(t) - 1)
    ensures 513 <= d <= 1023 && d * c <= 512 * t + c && 512 * t <= d * c + c
    ensures d * EntryOf(t) == Pow2(37) + eps && Within(2 * eps, d)
  {
    var c' := Leading(t);
    var n := Normalised(t, c);
    assert Clip(n, 256, 511) == n;
    d := 2 * n + 1;
    eps := ReciprocalBounds(n, d);
  }

  lemma ProductUnfolds(w: nat, t: nat)
    requires t >= 1
    ensures Product(w, t) == (w * 256) * EntryOf(t)
  {
  }

  lemma RoundedUnfolds(w: nat, t: nat, c: nat)
    requires t >= 1 && c == Pow2(BitLength(t) - 1)
    ensures Pow2(28) * c >= 1 && Rounded(w, t) == (Product(w, t) + Pow2(27) * c) / (Pow2(28) * c)
  {
    Shifted(Product(w, t), BitLength(t) - 1, c);
  }

  lemma Shifted(x: nat, s: nat, c: nat)
    requires c == Pow2(s)
    ensures Pow2(28) * c >= 1 && RoundShift(x, s) == (x + Pow2(27) * c) / (Pow2(28) * c)
  {
    Pow2Adds(27, s);
    Pow2Adds(28, s);
  }

  lemma NearFrom(w: nat, t: nat, c: nat, d: nat, r: nat, eps: int, p: nat, half: nat, q: nat)
    requires w <= 15 * t && 1 <= c <= t < 2 * c && d >= 513 && p == 0x1000_0000 && p == 2 * half
    requires d * r == 512 * p + eps && Within(2 * eps, d)
    requires d * c <= 512 * t + c && 512 * t <= d * c + c
    requires p * c >= 1 && q == ((w * 256) * r + half * c) / (p * c)
    ensures 256 * w - 8 * t < q * t < 256 * w + 8 * t
  {
    TimesSwaps(2, half, c);
    assert p * c == 2 * (half * c);
    var q', eta := RoundedShift((w * 256) * r, p * c, half * c);
    ErrorBound(w, t, c, d, r, q, p, eps, eta);
  }

  /** The result differs from 256 times the expectation by less than 8, whatever the weights are. */
  lemma RoundedIsNear(w: nat, t: nat)
    requires t >= 1 && w <= 15 * t
    ensures 256 * w - 8 * t < Rounded(w, t) * t < 256 * w + 8 * t
  {
    var c := Leading(t);
    var d, eps := EntryBounds(t, c);
    Powers();
    ProductUnfolds(w, t);
    RoundedUnfolds(w, t, c);
    NearFrom(w, t, c, d, EntryOf(t), eps, Pow2(28), Pow2(27), Rounded(w, t));
  }

  /** What bin j adds to the total and to the weighted sum. */
  lemma PartIs(logits: seq<int>, exp: seq<nat>, m: int, e: seq<nat>, j: nat)
    requires ValidLogits(logits) && ValidExp(exp) && j < 16
    requires m in logits && forall j :: 0 <= j < 16 ==> logits[j] <= m
    requires |e| == 16 && forall j :: 0 <= j < 16 ==> e[j] == exp[(logits[j] - m) % 256]
    ensures Total(logits, exp, j + 1) == Total(logits, exp, j) + e[j]
    ensures Weighted(logits, exp, j + 1) == Weighted(logits, exp, j) + j * e[j]
  {
    assert Max(logits) == m;
  }

  /** Total and weighted sum, part by part. */
  lemma SumsOf(logits: seq<int>, exp: seq<nat>, m: int, e: seq<nat>)
    requires ValidLogits(logits) && ValidExp(exp)
    requires m in logits && forall j :: 0 <= j < 16 ==> logits[j] <= m
    requires |e| == 16 && forall j :: 0 <= j < 16 ==> e[j] == exp[(logits[j] - m) % 256]
    ensures Total(logits, exp, 16)
            == e[0] + e[1] + e[2] + e[3] + e[4] + e[5] + e[6] + e[7]
               + e[8] + e[9] + e[10] + e[11] + e[12] + e[13] + e[14] + e[15]
    ensures Weighted(logits, exp, 16)
            == e[1] + 2 * e[2] + 3 * e[3] + 4 * e[4] + 5 * e[5] + 6 * e[6] + 7 * e[7] + 8 * e[8]
               + 9 * e[9] + 10 * e[10] + 11 * e[11] + 12 * e[12] + 13 * e[13] + 14 * e[14] + 15 * e[15]
  {
    PartIs(logits, exp, m, e, 0);
    PartIs(logits, exp, m, e, 1);
    PartIs(logits, exp, m, e, 2);
    PartIs(logits, exp, m, e, 3);
    PartIs(logits, exp, m, e, 4);
    PartIs(logits, exp, m, e, 5);
    PartIs(logits, exp, m, e, 6);
    PartIs(logits, exp, m, e, 7);
    PartIs(logits, exp, m, e, 8);
    PartIs(logits, exp, m, e, 9);
    PartIs(logits, exp, m, e, 10);
    PartIs(logits, exp, m, e, 11);
    PartIs(logits, exp, m, e, 12);
    PartIs(logits, exp, m, e, 13);
    PartIs(logits, exp, m, e, 14);
    PartIs(logits, exp, m, e, 15);
  }

  /**
   * For every row of logits and every valid table the result is within 8 of 256 times the expected
   * bin, and the clamp to 65535 never changes it. The part of bin j is the table's entry for the
   * difference of its logit to the greatest one, modulo 256.
   */
  lemma ExpectationIsNear(logits: seq<int>, exp: seq<nat>, m: int, e: seq<nat>) returns (q: nat, w: nat, t: nat)
    requires |logits| == 16 && forall j :: 0 <= j < 16 ==> -128 <= logits[j] <= 127
    requires |exp| == 256 && forall k :: 0 <= k < 256 ==> 1 <= exp[k] <= 32768
    requires m in logits && forall j :: 0 <= j < 16 ==> logits[j] <= m
    requires |e| == 16 && forall j :: 0 <= j < 16 ==> e[j] == exp[(logits[j] - m) % 256]
    ensures t == e[0] + e[1] + e[2] + e[3] + e[4] + e[5] + e[6] + e[7]
                 + e[8] + e[9] + e[10] + e[11] + e[12] + e[13] + e[14] + e[15]
    ensures w == e[1] + 2 * e[2] + 3 * e[3] + 4 * e[4] + 5 * e[5] + 6 * e[6] + 7 * e[7] + 8 * e[8]
                 + 9 * e[9] + 10 * e[10] + 11 * e[11] + 12 * e[12] + 13 * e[13] + 14 * e[14] + 15 * e[15]
    ensures t >= 16 && ExpectationQ8(logits, exp) == Q8(q)
    ensures 256 * w - 8 * t < q * t < 256 * w + 8 * t
  {
    SumsOf(logits, exp, m, e);
    w, t := Weighted(logits, exp, BINS), Total(logits, exp, BINS);
    q := Rounded(w, t);
    RoundedIsNear(w, t);
    TimesCancels(q, 3848, t);
  }

  /**
   * The result exactly: with 2^s the leading power of two of the total and n the total scaled to [256, 512),
   * the reciprocal of 2 n + 1 is rounded to 37 bits, and the product shifted right by 28 + s and rounded.
   */
  lemma ExpectationInNumbers(logits: seq<int>, exp: seq<nat>, w: nat, t: nat, s: nat, n: nat, r: nat, q: nat)
    requires ValidLogits(logits) && ValidExp(exp) && w == Weighted(logits, exp, 16) && t == Total(logits, exp, 16)
    requires Pow2(s) <= t < Pow2(s + 1) && n == t * 256 / Pow2(s) && r == (Pow2(37) + (2 * n + 1) / 2) / (2 * n + 1)
    requires q == (256 * w * r + Pow2(27 + s)) / Pow2(28 + s)
    ensures 256 <= n < 512 && ExpectationQ8(logits, exp) == Q8(if q > 65535 then 65535 else q)
    ensures 256 * w * r < Pow2(59)
  {
    NormalisedInNumbers(t, s, n);
    RoundedInNumbers(w, t, s, n, r, q);
    ProductFits(logits, exp);
  }

  lemma NormalisedInNumbers(t: nat, s: nat, n: nat)
    requires Pow2(s) <= t < Pow2(s + 1) && n == t * 256 / Pow2(s)
    ensures BitLength(t) == s + 1 && 256 <= n < 512
  {
    BitLengthIs(t, s + 1);
    var n' := Normalised(t, Pow2(s));
  }

  lemma RoundedInNumbers(w: nat, t: nat, s: nat, n: nat, r: nat, q: nat)
    requires t >= 1 && BitLength(t) == s + 1 && n == t * 256 / Pow2(s) && 256 <= n < 512
    requires r == (Pow2(37) + (2 * n + 1) / 2) / (2 * n + 1) && q == (256 * w * r + Pow2(27 + s)) / Pow2(28 + s)
    ensures Rounded(w, t) == q && Product(w, t) == 256 * w * r
  {
    DivUnique(n, 256, 1, n - 256);
    assert 513 + 2 * (n - 256) == 2 * n + 1;
  }

  /** What is not 16 logits of eight bits, or no table of 256 entries in 1..32768, is refused. */
  lemma RefusesInputs(logits: seq<int>, exp: seq<nat>)
    ensures ExpectationQ8(logits, exp) == Invalid
            <==> |logits| != 16 || (exists j :: 0 <= j < |logits| && !(-128 <= logits[j] <= 127))
                 || |exp| != 256 || exists k :: 0 <= k < |exp| && !(1 <= exp[k] <= 32768)
  {
  }

  /** The intermediate product fits a signed 64-bit number: it stays below 2^59. */
  lemma ProductFits(logits: seq<int>, exp: seq<nat>)
    requires ValidLogits(logits) && ValidExp(exp)
    ensures Product(Weighted(logits, exp, BINS), Total(logits, exp, BINS)) < Pow2(59)
  {
    var w, t := Weighted(logits, exp, BINS), Total(logits, exp, BINS);
    var c := Leading(t);
    var d, eps := EntryBounds(t, c);
    Powers();
    ReciprocalFits(EntryOf(t), d, Pow2(28), eps);
    ProductUnfolds(w, t);
    ProductBelow(w * 256, EntryOf(t));
  }

  lemma ProductBelow(a: nat, r: nat)
    requires a <= 0x7800_0000 && r <= 0x1000_0000
    ensures a * r < 0x800_0000_0000_0000
  {
    TimesMonotonic(a, 0x7800_0000, r);
  }
}
