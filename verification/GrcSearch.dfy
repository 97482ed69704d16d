/**
 * The search for Golomb-Rice parameters: dynamic programming over the configurations, one state per
 * configuration and position. The goal is the least cost over all assignments of a configuration to
 * every value; the tables are described by their recurrence.
 */
module GrcSearch {
  import opened Bits
  import opened SliceFormat
  import opened GrcParams

  const SWITCH_COST: nat := 40
  const IMPOSSIBLE: nat := 10000

  /** What is searched: the values, and the positions that are one past a free switch of configuration. */
  datatype Problem = Problem(vals: seq<nat>, zrunMode: bool, uncompressedBits: nat, existing: seq<nat>) {
    function Params(): (ps: seq<nat>)
      ensures |ps| >= Configs()
    {
      if zrunMode then Z_GRC_PARAMS else W_GRC_PARAMS
    }

    function Configs(): (n: nat)
      ensures n >= 1
    {
      if zrunMode then NZCFG else NWCFG
    }

    /** The bits to code value v in configuration j. */
    function CodeBits(j: nat, v: nat): nat
      requires j < Configs()
    {
      var div, trunc := Params()[j] % 16, Params()[j] / 16;
      var q := Quotient(v, div);
      if trunc == 2 then uncompressedBits
      else if !zrunMode && ((trunc != 0 && q > 2) || q > 31) then IMPOSSIBLE
      else if trunc != 0 then (if q + 1 < 2 then q + 1 else 2) + div
      else q + 1 + div
    }

    /** The price of a switch before value i. */
    function SwitchCost(i: nat): (c: nat)
      ensures c <= SWITCH_COST
    {
      if i + 1 in existing then 0 else SWITCH_COST
    }
  }

  // ---- the goal: cost of an assignment

  ghost predicate IsAssignment(p: Problem, a: seq<nat>) {
    |a| <= |p.vals| && forall i :: 0 <= i < |a| ==> a[i] < p.Configs()
  }

  /** Coding the first |a| values with configurations a, and the switches between them. */
  ghost function Cost(p: Problem, a: seq<nat>): nat
    requires IsAssignment(p, a)
  {
    if a == [] then 0
    else
      var k := |a| - 1;
      Cost(p, a[..k]) + (if k > 0 && a[k] != a[k - 1] then p.SwitchCost(k) else 0) + p.CodeBits(a[k], p.vals[k])
  }

  // ---- the tables of the dynamic program

  /** b is the first least entry of a row. */
  ghost predicate FirstLeast(row: seq<nat>, b: nat) {
    && b < |row|
    && (forall j :: 0 <= j < |row| ==> row[b] <= row[j])
    && (forall j :: 0 <= j < b ==> row[b] < row[j])
  }

  /**
   * rows[i][j] is the least cost of the first i values when configuration j comes last, prevs[i][j]
   * the configuration before it, and bests[i] the best configuration.
   */
  datatype Tables = Tables(rows: seq<seq<nat>>, bests: seq<nat>, prevs: seq<seq<nat>>)

  /** Entry j of the next row: keep the configuration, or enter it from the best one. */
  ghost predicate Cell(p: Problem, i: nat, j: nat, row: seq<nat>, b: nat, entry: nat, prev: nat)
    requires i < |p.vals| && j < |row| == p.Configs() && b < |row|
  {
    if row[b] + p.SwitchCost(i) < row[j] then entry == row[b] + p.SwitchCost(i) + p.CodeBits(j, p.vals[i]) && prev == b
    else entry == row[j] + p.CodeBits(j, p.vals[i]) && prev == j
  }

  ghost predicate NextRow(p: Problem, i: nat, row: seq<nat>, b: nat, next: seq<nat>, prevs: seq<nat>) {
    && i < |p.vals| && |row| == |next| == |prevs| == p.Configs() && b < |row|
    && forall j :: 0 <= j < |row| ==> Cell(p, i, j, row, b, next[j], prevs[j])
  }

  ghost predicate FirstRow(p: Problem, row: seq<nat>, prevs: seq<nat>) {
    && |row| == |prevs| == p.Configs()
    && forall j :: 0 <= j < |row| ==> row[j] == 0 && prevs[j] == j
  }

  ghost predicate RowAt(p: Problem, t: Tables, i: nat) {
    && i < |t.rows| == |t.bests| == |t.prevs|
    && |t.rows[i]| == p.Configs() && FirstLeast(t.rows[i], t.bests[i])
    && if i == 0 then FirstRow(p, t.rows[0], t.prevs[0])
       else NextRow(p, i - 1, t.rows[i - 1], t.bests[i - 1], t.rows[i], t.prevs[i])
  }

  /** The tables of the first n values. */
  ghost predicate TablesOf(p: Problem, t: Tables, n: nat) {
    && n <= |p.vals| && |t.rows| == |t.bests| == |t.prevs| == n + 1
    && forall i :: 0 <= i <= n ==> RowAt(p, t, i)
  }

  /** A step of the tables. */
  lemma CellAt(p: Problem, t: Tables, n: nat, i: nat, j: nat)
    requires TablesOf(p, t, n) && i < n && j < p.Configs()
    ensures |t.rows[i]| == |t.rows[i + 1]| == |t.prevs[i + 1]| == p.Configs()
    ensures FirstLeast(t.rows[i], t.bests[i]) && FirstLeast(t.rows[i + 1], t.bests[i + 1])
    ensures Cell(p, i, j, t.rows[i], t.bests[i], t.rows[i + 1][j], t.prevs[i + 1][j])
    ensures t.prevs[i + 1][j] < p.Configs()
  {
    assert RowAt(p, t, i);
    assert RowAt(p, t, i + 1);
  }

  /** The states of the best path, one per position, traced back from the best last entry. */
  ghost predicate BestWay(p: Problem, t: Tables, st: seq<nat>) {
    && TablesOf(p, t, |p.vals|) && |st| == |p.vals| + 1
    && st[|p.vals|] == t.bests[|p.vals|]
    && (forall k :: 0 <= k < |st| ==> st[k] < p.Configs())
    && (forall k :: 0 <= k < |p.vals| ==> WayStep(t, st, k))
  }

  ghost predicate WayStep(t: Tables, st: seq<nat>, k: nat)
    requires k + 1 < |st| <= |t.prevs|
  {
    st[k + 1] < |t.prevs[k + 1]| && st[k] == t.prevs[k + 1][st[k + 1]]
  }

  /** No switch at the first value: every start is free. */
  lemma FirstStepKeeps(p: Problem, t: Tables, st: seq<nat>)
    requires BestWay(p, t, st) && |p.vals| >= 1
    ensures st[0] == st[1]
  {
    assert WayStep(t, st, 0);
    assert RowAt(p, t, 0);
    CellAt(p, t, |p.vals|, 0, st[1]);
  }

  // ---- optimality

  lemma WayIsAssignment(p: Problem, t: Tables, st: seq<nat>, i: nat)
    requires BestWay(p, t, st) && i <= |p.vals|
    ensures IsAssignment(p, st[1..i + 1]) && |st[1..i + 1]| == i
  {
  }

  lemma CostMore(p: Problem, a: seq<nat>, c: nat)
    requires IsAssignment(p, a) && |a| < |p.vals| && c < p.Configs()
    ensures IsAssignment(p, a + [c])
    ensures Cost(p, a + [c])
            == Cost(p, a) + (if a != [] && c != a[|a| - 1] then p.SwitchCost(|a|) else 0) + p.CodeBits(c, p.vals[|a|])
  {
    var a' := a + [c];
    assert a'[..|a'| - 1] == a && a'[|a|] == c;
  }

  /** A step of the best path costs what the tables say. */
  lemma WayCell(p: Problem, t: Tables, st: seq<nat>, k: nat)
    requires BestWay(p, t, st) && k < |p.vals|
    ensures st[k] < |t.rows[k]| == |t.rows[k + 1]| == p.Configs() && st[k + 1] < p.Configs()
    ensures k == 0 ==> t.rows[k][st[k]] == 0
    ensures t.rows[k + 1][st[k + 1]]
            == t.rows[k][st[k]] + (if k > 0 && st[k + 1] != st[k] then p.SwitchCost(k) else 0)
              + p.CodeBits(st[k + 1], p.vals[k])
  {
    CellAt(p, t, |p.vals|, k, st[k + 1]);
    assert WayStep(t, st, k);
    if k == 0 {
      assert RowAt(p, t, 0);
      FirstStepKeeps(p, t, st);
    }
  }

  lemma OneMore(st: seq<nat>, i: nat)
    requires 1 <= i < |st|
    ensures st[1..i + 1] == st[1..i] + [st[i]]
  {
  }

  lemma NextCost(p: Problem, st: seq<nat>, i: nat)
    requires 1 <= i < |st| && i <= |p.vals| && IsAssignment(p, st[1..i]) && st[i] < p.Configs()
    ensures IsAssignment(p, st[1..i + 1])
    ensures Cost(p, st[1..i + 1])
            == Cost(p, st[1..i]) + (if i > 1 && st[i] != st[i - 1] then p.SwitchCost(i - 1) else 0)
               + p.CodeBits(st[i], p.vals[i - 1])
  {
    OneMore(st, i);
    CostMore(p, st[1..i], st[i]);
  }

  lemma NextWayCost(p: Problem, t: Tables, st: seq<nat>, i: nat)
    requires BestWay(p, t, st) && 1 <= i <= |p.vals|
    requires st[i - 1] < |t.rows[i - 1]| && IsAssignment(p, st[1..i])
    requires Cost(p, st[1..i]) == t.rows[i - 1][st[i - 1]]
    ensures st[i] < |t.rows[i]| && IsAssignment(p, st[1..i + 1]) && Cost(p, st[1..i + 1]) == t.rows[i][st[i]]
  {
    WayCell(p, t, st, i - 1);
    NextCost(p, st, i);
  }

  lemma WayStarts(p: Problem, t: Tables, st: seq<nat>)
    requires BestWay(p, t, st)
    ensures st[0] < |t.rows[0]| && st[1..1] == [] && t.rows[0][st[0]] == 0
  {
    assert RowAt(p, t, 0);
  }

  /** The cost of the best path is what the tables say. */
  lemma {:induction false} WayCost(p: Problem, t: Tables, st: seq<nat>, i: nat)
    requires BestWay(p, t, st) && i <= |p.vals|
    ensures st[i] < |t.rows[i]| && IsAssignment(p, st[1..i + 1]) && Cost(p, st[1..i + 1]) == t.rows[i][st[i]]
  {
    if i == 0 {
      WayStarts(p, t, st);
    } else {
      WayCost(p, t, st, i - 1);
      NextWayCost(p, t, st, i);
    }
  }

  /** No assignment is cheaper than its entry in the tables. */
  lemma {:induction false} RowIsLeast(p: Problem, t: Tables, a: seq<nat>)
    requires IsAssignment(p, a) && a != [] && TablesOf(p, t, |p.vals|)
    ensures a[|a| - 1] < |t.rows[|a|]| && t.rows[|a|][a[|a| - 1]] <= Cost(p, a)
    decreases |a|
  {
    var k := |a| - 1;
    var before, c := a[..k], a[k];
    assert a == before + [c];
    CostMore(p, before, c);
    CellAt(p, t, |p.vals|, k, c);
    if k > 0 {
      RowIsLeast(p, t, before);
      assert t.rows[k][t.bests[k]] <= t.rows[k][before[k - 1]];
    } else {
      assert RowAt(p, t, 0);
    }
  }

  /** The best path attains the least cost of all assignments. */
  lemma BestWayIsOptimal(p: Problem, t: Tables, st: seq<nat>, a: seq<nat>)
    requires BestWay(p, t, st) && IsAssignment(p, a) && |a| == |p.vals|
    ensures IsAssignment(p, st[1..]) && Cost(p, st[1..]) <= Cost(p, a)
  {
    var n := |p.vals|;
    assert st[1..n + 1] == st[1..];
    WayIsAssignment(p, t, st, n);
    if n > 0 {
      WayCost(p, t, st, n);
      RowIsLeast(p, t, a);
      assert RowAt(p, t, n);
    }
  }

  // ---- codability

  predicate CanCode(p: Problem, j: nat, v: nat)
    requires j < p.Configs()
  {
    var div, trunc := p.Params()[j] % 16, p.Params()[j] / 16;
    trunc == 2 || Quotient(v, div) <= if trunc != 0 then 2 else 31
  }

  /** A weight stream whose indices have nine bits. */
  predicate WeightStream(p: Problem) {
    !p.zrunMode && forall i :: 0 <= i < |p.vals| ==> p.vals[i] < 512
  }

  /** Division by 32 can code every index, in at most 21 bits. */
  lemma Div5CodesAll(p: Problem, v: nat)
    requires !p.zrunMode && v < 512
    ensures p.CodeBits(5, v) <= 21
  {
    assert Pow2(5) == 2 * Pow2(4) && Pow2(4) == 2 * Pow2(3) && Pow2(3) == 2 * Pow2(2) && Pow2(2) == 2 * Pow2(1);
    assert p.Params()[5] == 5;
  }

  /** The best cost grows by at most 61 bits a weight. */
  lemma BestGrows(p: Problem, t: Tables, i: nat)
    requires WeightStream(p) && TablesOf(p, t, |p.vals|) && i < |p.vals|
    ensures t.bests[i] < |t.rows[i]| && t.bests[i + 1] < |t.rows[i + 1]|
    ensures t.rows[i + 1][t.bests[i + 1]] <= t.rows[i][t.bests[i]] + 61
  {
    Div5CodesAll(p, p.vals[i]);
    CellAt(p, t, |p.vals|, i, 5);
  }

  /** On the best path every entry is at most one switch above the best entry of its row. */
  lemma WayIsNearBest(p: Problem, t: Tables, st: seq<nat>, k: nat)
    requires BestWay(p, t, st) && k <= |p.vals|
    ensures |t.rows[k]| == p.Configs() && t.bests[k] < p.Configs()
    ensures t.rows[k][st[k]] <= t.rows[k][t.bests[k]] + SWITCH_COST
  {
    assert RowAt(p, t, k);
    if k < |p.vals| {
      assert WayStep(t, st, k);
      CellAt(p, t, |p.vals|, k, st[k + 1]);
    }
  }

  lemma CheapIsCodable(p: Problem, j: nat, v: nat)
    requires !p.zrunMode && j < p.Configs() && p.CodeBits(j, v) < IMPOSSIBLE
    ensures CanCode(p, j, v)
  {
  }

  /** So the price of every value on it is small, and the value can be coded. */
  lemma WayCodes(p: Problem, t: Tables, st: seq<nat>, k: nat)
    requires WeightStream(p) && BestWay(p, t, st) && k < |p.vals|
    ensures p.CodeBits(st[k + 1], p.vals[k]) <= 101 && CanCode(p, st[k + 1], p.vals[k])
  {
    WayIsNearBest(p, t, st, k + 1);
    BestGrows(p, t, k);
    CellAt(p, t, |p.vals|, k, st[k + 1]);
    CheapIsCodable(p, st[k + 1], p.vals[k]);
  }

  /** When uncompressed mode costs 100 bits, division by 32 is always cheaper. */
  lemma {:induction false} UncompressedIsWorse(p: Problem, t: Tables, i: nat)
    requires WeightStream(p) && p.uncompressedBits == 100 && TablesOf(p, t, |p.vals|) && i <= |p.vals|
    ensures |t.rows[i]| == 13 && t.rows[i][5] <= t.rows[i][12] && (i > 0 ==> t.rows[i][5] < t.rows[i][12])
  {
    assert RowAt(p, t, i);
    if i > 0 {
      UncompressedIsWorse(p, t, i - 1);
      Div5CodesAll(p, p.vals[i - 1]);
      UncompressedPrice(p, p.vals[i - 1]);
      CellAt(p, t, |p.vals|, i - 1, 5);
      CellAt(p, t, |p.vals|, i - 1, 12);
    }
  }

  lemma UncompressedPrice(p: Problem, v: nat)
    requires !p.zrunMode
    ensures p.CodeBits(12, v) == p.uncompressedBits
  {
    assert p.Params()[12] == 0x20;
  }

  /** Then the best path never uses it. */
  lemma {:induction false} WayCompresses(p: Problem, t: Tables, st: seq<nat>, k: nat)
    requires WeightStream(p) && p.uncompressedBits == 100 && BestWay(p, t, st) && 0 < k <= |p.vals|
    ensures st[k] != 12
    decreases |p.vals| - k
  {
    UncompressedIsWorse(p, t, k);
    assert RowAt(p, t, k);
    if k < |p.vals| {
      WayCompresses(p, t, st, k + 1);
      assert WayStep(t, st, k);
      CellAt(p, t, |p.vals|, k, st[k + 1]);
    }
  }

  /**
   * Optimality implies codability: on the best path every index below 512 can be coded in the
   * configuration chosen for it, and uncompressed mode at 100 bits is never chosen.
   */
  lemma BestWayCodes(p: Problem, t: Tables, st: seq<nat>)
    requires WeightStream(p) && BestWay(p, t, st)
    ensures forall k :: 0 <= k < |p.vals| ==> CanCode(p, st[1..][k], p.vals[k])
    ensures p.uncompressedBits == 100 ==> forall k :: 0 <= k < |p.vals| ==> st[1..][k] != 12
  {
    forall k | 0 <= k < |p.vals| ensures CanCode(p, st[1..][k], p.vals[k]) {
      WayCodes(p, t, st, k);
    }
    if p.uncompressedBits == 100 {
      forall k | 0 <= k < |p.vals| ensures st[1..][k] != 12 {
        WayCompresses(p, t, st, k + 1);
      }
    }
  }

  // ---- running costs

  /** Running costs of a weight stream stay linear, so they fit an int for streams below 35 million weights. */
  lemma {:induction false} WeightCostsAreLinear(p: Problem, t: Tables, i: nat, j: nat)
    requires WeightStream(p) && p.uncompressedBits <= 10000 && TablesOf(p, t, |p.vals|)
    requires i <= |p.vals| && j < p.Configs()
    ensures |t.rows[i]| == p.Configs() && t.bests[i] < p.Configs()
    ensures t.rows[i][t.bests[i]] <= 61 * i
    ensures t.rows[i][j] <= 61 * i + 10040
  {
    assert RowAt(p, t, i);
    if i > 0 {
      WeightCostsAreLinear(p, t, i - 1, j);
      BestGrows(p, t, i - 1);
      CellAt(p, t, |p.vals|, i - 1, j);
      NeverAboveImpossible(p, j, p.vals[i - 1]);
    }
  }

  lemma NeverAboveImpossible(p: Problem, j: nat, v: nat)
    requires !p.zrunMode && p.uncompressedBits <= IMPOSSIBLE && j < p.Configs()
    ensures p.CodeBits(j, v) <= IMPOSSIBLE
  {
  }

  /** The length of runs with one more for each. */
  function Extent(vals: seq<nat>): nat {
    if vals == [] then 0 else Extent(vals[..|vals| - 1]) + vals[|vals| - 1] + 1
  }

  lemma ExtentGrows(vals: seq<nat>, i: nat)
    requires 0 < i <= |vals|
    ensures Extent(vals[..i]) == Extent(vals[..i - 1]) + vals[i - 1] + 1
  {
    assert vals[..i][..i - 1] == vals[..i - 1];
  }

  lemma UnaryBits(p: Problem, v: nat)
    requires p.zrunMode
    ensures p.CodeBits(0, v) == v + 1
  {
    assert Pow2(0) == 1 && p.Params()[0] == 0;
  }

  lemma {:induction false} RunsInUnary(p: Problem, t: Tables, i: nat)
    requires p.zrunMode && TablesOf(p, t, |p.vals|) && i <= |p.vals|
    ensures |t.rows[i]| == p.Configs() && t.rows[i][0] <= Extent(p.vals[..i])
  {
    assert RowAt(p, t, i);
    if i > 0 {
      RunsInUnary(p, t, i - 1);
      CellAt(p, t, |p.vals|, i - 1, 0);
      UnaryBits(p, p.vals[i - 1]);
      ExtentGrows(p.vals, i);
    }
  }

  /** Running costs of a run stream stay near its extent. */
  lemma RunCostsAreLinear(p: Problem, t: Tables, i: nat, j: nat)
    requires p.zrunMode && TablesOf(p, t, |p.vals|) && i <= |p.vals| && j < p.Configs()
    ensures |t.rows[i]| == p.Configs() && t.bests[i] < p.Configs()
    ensures t.rows[i][t.bests[i]] <= Extent(p.vals[..i])
    ensures t.rows[i][j] <= Extent(p.vals[..i]) + 43
  {
    RunsInUnary(p, t, i);
    assert RowAt(p, t, i);
    if i > 0 {
      RunsInUnary(p, t, i - 1);
      CellAt(p, t, |p.vals|, i - 1, j);
      RunBits(p, j, p.vals[i - 1]);
      ExtentGrows(p.vals, i);
    }
  }

  lemma RunBits(p: Problem, j: nat, v: nat)
    requires p.zrunMode && j < p.Configs()
    ensures p.CodeBits(j, v) <= v + 4
  {
    assert p.Params()[j] == j;
    Pow2Monotonic(0, j);
    QuotientShrinks(v, Pow2(j));
  }

  lemma QuotientShrinks(v: nat, d: nat)
    requires d >= 1
    ensures v / d <= v
  {
  }
}
