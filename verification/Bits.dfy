/** Numbers as bit sequences, least significant bit first, and bytes as eight bits. */
module Bits {

  function Pow2(n: nat): (r: nat)
    ensures r >= 1
  {
    if n == 0 then 1 else 2 * Pow2(n - 1)
  }

  lemma {:induction false} Pow2Monotonic(m: nat, n: nat)
    requires m <= n
    ensures Pow2(m) <= Pow2(n)
    decreases n - m
  {
    if m < n {
      Pow2Monotonic(m + 1, n);
    }
  }

  lemma {:induction false} Pow2Adds(m: nat, n: nat)
    ensures Pow2(m + n) == Pow2(m) * Pow2(n)
  {
    if m == 0 {
    } else {
      Pow2Adds(m - 1, n);
      assert 2 * (Pow2(m - 1) * Pow2(n)) == (2 * Pow2(m - 1)) * Pow2(n);
    }
  }

  /** The low len bits of data. */
  function BitsOf(len: nat, data: nat): (s: seq<bool>)
    ensures |s| == len
  {
    if len == 0 then [] else [data % 2 == 1] + BitsOf(len - 1, data / 2)
  }

  /** The number whose binary digits are s. */
  function ValueOf(s: seq<bool>): nat {
    if s == [] then 0 else (if s[0] then 1 else 0) + 2 * ValueOf(s[1..])
  }

  /** Writing a number in a field that is wide enough and reading the field back gives the number. */
  lemma {:induction false} ValueOfBitsOf(len: nat, data: nat)
    requires data < Pow2(len)
    ensures ValueOf(BitsOf(len, data)) == data
  {
    if len == 0 {
    } else {
      ValueOfBitsOf(len - 1, data / 2);
      assert BitsOf(len, data)[1..] == BitsOf(len - 1, data / 2);
    }
  }

  lemma {:induction false} ValueOfBound(s: seq<bool>)
    ensures ValueOf(s) < Pow2(|s|)
  {
    if s == [] {
    } else {
      ValueOfBound(s[1..]);
    }
  }

  lemma {:induction false} ValueOfSnoc(s: seq<bool>, b: bool)
    ensures ValueOf(s + [b]) == ValueOf(s) + (if b then Pow2(|s|) else 0)
  {
    if s == [] {
      assert s + [b] == [b];
      assert ValueOf([b]) == (if b then 1 else 0) + 2 * ValueOf([b][1..]);
    } else {
      assert (s + [b])[1..] == s[1..] + [b];
      ValueOfSnoc(s[1..], b);
    }
  }

  /** Bit i of the field is bit i of the number: (data >> i) & 1. */
  lemma {:induction false} BitsOfAt(len: nat, data: nat, i: nat)
    requires i < len
    ensures BitsOf(len, data)[i] == ((data / Pow2(i)) % 2 == 1)
  {
    if i == 0 {
      assert data / 1 == data;
    } else {
      BitsOfAt(len - 1, data / 2, i - 1);
      HalvesThenShifts(data, Pow2(i - 1));
    }
  }

  lemma QuotientIsNat(v: nat, d: nat)
    requires d >= 1
    ensures v / d >= 0
  {
  }

  lemma HalvesThenShifts(data: nat, p: nat)
    requires p >= 1
    ensures data / 2 / p == data / (2 * p)
  {
    var q, r := data / (2 * p), data % (2 * p);
    assert data == 2 * p * q + r;
    assert 2 * p * q == 2 * (p * q);
    assert data / 2 == p * q + r / 2;
    assert r / 2 < p;
    DivUnique(data / 2, p, q, r / 2);
  }

  lemma DivUnique(x: int, d: int, q: int, r: int)
    requires d > 0 && 0 <= r < d && x == d * q + r
    ensures x / d == q && x % d == r
  {
    var q', r' := x / d, x % d;
    if q > q' {
      LargerQuotient(d, q, r, q', r');
    } else if q < q' {
      LargerQuotient(d, q', r', q, r);
    }
  }

  lemma LargerQuotient(d: int, q: int, r: int, q': int, r': int)
    requires d > 0 && 0 <= r < d && 0 <= r' < d && q > q'
    ensures d * q + r > d * q' + r'
  {
    var k := q - q' - 1;
    assert d * q == d * q' + d * k + d;
    assert d * k >= 0;
  }

  // ---- bytes

  /** 1 << k */
  function Mask(k: nat): (m: bv8)
    requires k < 8
    ensures m != 0
  {
    if k == 0 then 0x01 else if k == 1 then 0x02 else if k == 2 then 0x04 else if k == 3 then 0x08
    else if k == 4 then 0x10 else if k == 5 then 0x20 else if k == 6 then 0x40 else 0x80
  }

  lemma MasksAreDisjoint(j: nat, k: nat)
    requires j < 8 && k < 8 && j != k
    ensures Mask(j) & Mask(k) == 0
  {
  }

  /** byte & (1 << k) ? 1 : 0 */
  function BitAt(b: bv8, k: nat): bool
    requires k < 8
  {
    b & Mask(k) != 0
  }

  /** The byte with bit k replaced. */
  function WithBit(b: bv8, k: nat, bit: bool): bv8
    requires k < 8
  {
    (b & !Mask(k)) | (if bit then Mask(k) else 0)
  }

  lemma ReplacedBits(b: bv8, m: bv8, n: bv8)
    ensures m & n == 0 ==> (b & !m) & n == b & n && ((b & !m) | m) & n == b & n
    ensures (b & !m) & m == 0 && ((b & !m) | m) & m == m
  {
  }

  lemma WithBitSetsOne(b: bv8, k: nat, bit: bool, j: nat)
    requires k < 8 && j < 8
    ensures BitAt(WithBit(b, k, bit), j) == if j == k then bit else BitAt(b, j)
  {
    ReplacedBits(b, Mask(k), Mask(j));
    assert (b & !Mask(k)) | 0 == b & !Mask(k);
    if j != k {
      MasksAreDisjoint(k, j);
    }
  }

  function ByteBits(b: bv8): (s: seq<bool>)
    ensures |s| == 8
  {
    seq(8, k requires 0 <= k < 8 => BitAt(b, k))
  }

  /** The bits of a byte string, byte by byte, low bit first. */
  function BytesBits(buf: seq<bv8>): (s: seq<bool>)
    ensures |s| == 8 * |buf|
  {
    if buf == [] then [] else ByteBits(buf[0]) + BytesBits(buf[1..])
  }

  lemma {:induction false} BytesBitsAt(buf: seq<bv8>, i: nat)
    requires i < 8 * |buf|
    ensures BytesBits(buf)[i] == BitAt(buf[i / 8], i % 8)
  {
    if i >= 8 {
      BytesBitsAt(buf[1..], i - 8);
      assert buf[1..][(i - 8) / 8] == buf[i / 8];
    }
  }

  lemma {:induction false} BytesBitsConcat(a: seq<bv8>, b: seq<bv8>)
    ensures BytesBits(a + b) == BytesBits(a) + BytesBits(b)
  {
    if a == [] {
      assert a + b == b;
    } else {
      assert (a + b)[1..] == a[1..] + b;
      BytesBitsConcat(a[1..], b);
    }
  }
}
