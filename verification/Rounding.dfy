/** Dividing and rounding up. */
module Rounding {
  import opened Bits

  function Min(a: int, b: int): int {
    if a < b then a else b
  }

  function CeilDiv(n: int, d: int): (r: int)
    requires d > 0
    ensures n <= r * d < n + d && (n >= 0 ==> r >= 0)
  {
    CeilDivBounds(n, d);
    (n + d - 1) / d
  }

  lemma CeilDivBounds(n: int, d: int)
    requires d > 0
    ensures var r := (n + d - 1) / d; n <= r * d < n + d && (n >= 0 ==> r >= 0)
  {
    var r, rest := (n + d - 1) / d, (n + d - 1) % d;
    assert n + d - 1 == d * r + rest && 0 <= rest < d;
    assert d * r == r * d;
    if n >= 0 {
      QuotientIsNat(n + d - 1, d);
    }
  }

  function RoundUp(n: int, d: int): (r: int)
    requires d > 0
    ensures n <= r < n + d
  {
    CeilDiv(n, d) * d
  }
}
