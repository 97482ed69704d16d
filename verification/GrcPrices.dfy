/** The costs of the parameter search in numbers: code lengths, and 40 for every switch that is not free. */
module GrcPrices {
  import opened Bits
  import opened SliceFormat
  import opened GrcParams
  import opened GrcSearch
  import opened Sequences

  /** Configurations 0 to 5 have that divisor, 6 to 11 are truncated with divisors 0 to 5, and 12 is uncompressed. */
  lemma ModeInNumbers(cfg: nat)
    requires cfg < 13
    ensures cfg < 6 ==> ModeOf(cfg) == Golomb(cfg, false)
    ensures 6 <= cfg < 12 ==> ModeOf(cfg) == Golomb(cfg - 6, true)
    ensures cfg == 12 ==> ModeOf(cfg) == Uncompressed
  {
  }

  lemma ParamsInNumbers(p: Problem, j: nat)
    requires j < p.Configs()
    ensures p.Configs() == if p.zrunMode then 4 else 13
    ensures p.zrunMode || j < 6 ==> p.Params()[j] % 16 == j && p.Params()[j] / 16 == 0
    ensures !p.zrunMode && 6 <= j < 12 ==> p.Params()[j] % 16 == j - 6 && p.Params()[j] / 16 == 1
    ensures !p.zrunMode && j == 12 ==> p.Params()[j] / 16 == 2
  {
  }

  /**
   * The price of a value v. A run in configuration j takes v / 2^j + 1 + j bits. So does a weight in j up to
   * 5, if its quotient is at most 31; in 6 to 11 quotients of 0, 1 and 2 take 1, 2 and 2 bits before the
   * remainder. 10000 stands for what cannot be coded.
   */
  lemma PriceInNumbers(p: Problem, j: nat, v: nat, div: nat, q: nat)
    requires j < (if p.zrunMode then 4 else 13)
    requires div == (if p.zrunMode || j < 6 then j else j - 6) && q == v / Pow2(div)
    ensures j < p.Configs()
    ensures p.zrunMode ==> p.CodeBits(j, v) == q + 1 + div
    ensures !p.zrunMode && j < 6 ==> p.CodeBits(j, v) == if q > 31 then 10000 else q + 1 + div
    ensures !p.zrunMode && 6 <= j < 12 ==>
              p.CodeBits(j, v) == if q > 2 then 10000 else if q == 0 then 1 + div else 2 + div
    ensures !p.zrunMode && j == 12 ==> p.CodeBits(j, v) == p.uncompressedBits
  {
    ParamsInNumbers(p, j);
  }

  /** What each of the first values adds to the cost of the configurations a. */
  ghost function Charges(p: Problem, a: seq<nat>): (r: seq<nat>)
    requires IsAssignment(p, a)
    ensures |r| == |a| && forall k :: 0 <= k < |a| ==> r[k] == Charge(p, a, k)
  {
    seq(|a|, k requires 0 <= k < |a| => Charge(p, a, k))
  }

  ghost function Charge(p: Problem, a: seq<nat>, k: nat): nat
    requires IsAssignment(p, a) && k < |a|
  {
    p.CodeBits(a[k], p.vals[k]) + if k > 0 && a[k] != a[k - 1] then p.SwitchCost(k) else 0
  }

  /** Its price, and 40 if its configuration is another than the one before and k + 1 is not in `existing`. */
  lemma ChargeInNumbers(p: Problem, a: seq<nat>, k: nat)
    requires IsAssignment(p, a) && k < |a|
    ensures a[k] < (if p.zrunMode then 4 else 13)
    ensures Charges(p, a)[k]
            == p.CodeBits(a[k], p.vals[k]) + if k > 0 && a[k] != a[k - 1] && k + 1 !in p.existing then 40 else 0
  {
  }

  /** A cost is the sum of the charges. */
  lemma {:induction false} CostIsSum(p: Problem, a: seq<nat>)
    requires IsAssignment(p, a)
    ensures Cost(p, a) == Sum(Charges(p, a))
  {
    if a != [] {
      var last, before := |a| - 1, a[..|a| - 1];
      CostIsSum(p, before);
      LastCharge(p, a);
      SumSnoc(Charges(p, before), Charge(p, a, last));
    }
  }

  lemma LastCharge(p: Problem, a: seq<nat>)
    requires IsAssignment(p, a) && a != []
    ensures IsAssignment(p, a[..|a| - 1])
    ensures Charges(p, a) == Charges(p, a[..|a| - 1]) + [Charge(p, a, |a| - 1)]
  {
    var before := a[..|a| - 1];
    forall k: nat | k < |before| ensures Charge(p, a, k) == Charge(p, before, k) {
    }
  }
}
