/** The parameter search as the encoder runs it: tables filled column by column, then traced back. */
module GrcEncoder {
  import opened GrcSearch
  import opened GrcPrices
  import opened Sequences

  /** Positions start above zero and strictly increase. */
  predicate Increasing(ps: seq<nat>) {
    && (forall i :: 0 <= i < |ps| ==> ps[i] > 0)
    && (forall i, j :: 0 <= i < j < |ps| ==> ps[i] < ps[j])
  }

  /** The ends of the bitstream sections of n values. */
  predicate SectionEnds(ps: seq<nat>, n: nat) {
    |ps| >= 1 && ps[|ps| - 1] == n && (n > 0 ==> Increasing(ps)) && (n == 0 ==> ps == [0])
  }

  /** Position k is in section s. */
  predicate InSection(ps: seq<nat>, s: nat, k: nat) {
    s < |ps| && (if s == 0 then 0 else ps[s - 1]) <= k < ps[s]
  }

  /** Configurations cfgs, each up to its position, make the assignment a. */
  ghost predicate Describes(cfgs: seq<nat>, ps: seq<nat>, a: seq<nat>) {
    && |cfgs| == |ps|
    && forall s: nat, k: nat :: InSection(ps, s, k) && k < |a| ==> a[k] == cfgs[s]
  }

  // ---- filling the tables

  /** Column c of array a. */
  ghost predicate Column(a: array2<nat>, c: nat, col: seq<nat>)
    reads a
  {
    a.Length0 == |col| && c < a.Length1 && forall j :: 0 <= j < |col| ==> a[j, c] == col[j]
  }

  /** Column c of the arrays holds column c of the tables. */
  ghost predicate Filled(t: Tables, bitcnt: array2<nat>, prevCfg: array2<nat>, c: nat)
    requires c < |t.rows| == |t.prevs|
    reads bitcnt, prevCfg
  {
    Column(bitcnt, c, t.rows[c]) && Column(prevCfg, c, t.prevs[c])
  }

  lemma {:induction false} FirstLeastExists(row: seq<nat>) returns (b: nat)
    requires row != []
    ensures FirstLeast(row, b)
  {
    if |row| == 1 {
      b := 0;
    } else {
      b := FirstLeastExists(row[..|row| - 1]);
      if row[|row| - 1] < row[b] {
        b := |row| - 1;
      }
    }
  }

  /** The first least entry of a column. */
  method FindBest(bitcnt: array2<nat>, i: nat, ghost row: seq<nat>) returns (bestBitcnt: nat, bestCfg: nat)
    requires row != [] && Column(bitcnt, i, row)
    ensures FirstLeast(row, bestCfg) && bestBitcnt == row[bestCfg]
  {
    bestBitcnt, bestCfg := bitcnt[0, i], 0;
    var j := 1;
    while j < bitcnt.Length0
      invariant 1 <= j <= |row| && bestCfg < j && bestBitcnt == row[bestCfg]
      invariant forall k :: 0 <= k < j ==> bestBitcnt <= row[k]
      invariant forall k :: 0 <= k < bestCfg ==> bestBitcnt < row[k]
    {
      if bitcnt[j, i] < bestBitcnt {
        bestBitcnt, bestCfg := bitcnt[j, i], j;
      }
      j := j + 1;
    }
  }

  /** Fills the first column: every configuration may start, at no cost. */
  method FirstColumn(p: Problem, bitcnt: array2<nat>, prevCfg: array2<nat>) returns (ghost t: Tables)
    requires bitcnt != prevCfg && bitcnt.Length0 == prevCfg.Length0 == p.Configs()
    requires bitcnt.Length1 == prevCfg.Length1 >= 1
    modifies bitcnt, prevCfg
    ensures TablesOf(p, t, 0) && Filled(t, bitcnt, prevCfg, 0)
  {
    ghost var row: seq<nat>, prevs: seq<nat> := [], [];
    var j := 0;
    while j < bitcnt.Length0
      invariant 0 <= j <= bitcnt.Length0 && |row| == |prevs| == j
      invariant forall k :: 0 <= k < j ==> bitcnt[k, 0] == row[k] == 0 && prevCfg[k, 0] == prevs[k] == k
    {
      bitcnt[j, 0], prevCfg[j, 0] := 0, j;
      row, prevs := row + [0], prevs + [j];
      j := j + 1;
    }
    ghost var b := FirstLeastExists(row);
    t := Tables([row], [b], [prevs]);
    assert RowAt(p, t, 0);
  }

  /** Only column c of an array has changed. */
  twostate predicate OnlyColumn(a: array2<nat>, c: nat)
    reads a
  {
    forall j, k :: 0 <= j < a.Length0 && 0 <= k < a.Length1 && k != c ==> a[j, k] == old(a[j, k])
  }

  /** Fills the column of value i + 1 from the column before it. */
  method FillColumn(p: Problem, bitcnt: array2<nat>, prevCfg: array2<nat>, i: nat, cmdCost: nat,
                    bestBitcnt: nat, bestCfg: nat, ghost row: seq<nat>)
    returns (ghost next: seq<nat>, ghost prevs: seq<nat>)
    requires bitcnt != prevCfg && bitcnt.Length0 == prevCfg.Length0 == p.Configs()
    requires i < |p.vals| && bitcnt.Length1 == prevCfg.Length1 == |p.vals| + 1
    requires Column(bitcnt, i, row) && bestCfg < |row| && bestBitcnt == row[bestCfg] && cmdCost == p.SwitchCost(i)
    modifies bitcnt, prevCfg
    ensures NextRow(p, i, row, bestCfg, next, prevs)
    ensures Column(bitcnt, i + 1, next) && Column(prevCfg, i + 1, prevs)
    ensures OnlyColumn(bitcnt, i + 1) && OnlyColumn(prevCfg, i + 1)
  {
    next, prevs := [], [];
    var j := 0;
    while j < p.Configs()
      invariant 0 <= j <= p.Configs() && |next| == |prevs| == j
      invariant forall k :: 0 <= k < j ==> bitcnt[k, i + 1] == next[k] && prevCfg[k, i + 1] == prevs[k]
      invariant forall k :: 0 <= k < j ==> Cell(p, i, k, row, bestCfg, next[k], prevs[k])
      invariant OnlyColumn(bitcnt, i + 1) && OnlyColumn(prevCfg, i + 1)
    {
      var bits := p.CodeBits(j, p.vals[i]);
      if bestBitcnt + cmdCost < bitcnt[j, i] {
        prevCfg[j, i + 1] := bestCfg;
        bitcnt[j, i + 1] := bestBitcnt + cmdCost + bits;
      } else {
        prevCfg[j, i + 1] := j;
        bitcnt[j, i + 1] := bitcnt[j, i] + bits;
      }
      next, prevs := next + [bitcnt[j, i + 1]], prevs + [prevCfg[j, i + 1]];
      j := j + 1;
    }
  }

  lemma TablesGrow(p: Problem, t: Tables, i: nat, next: seq<nat>, b: nat, prevs: seq<nat>)
    requires i < |p.vals| && TablesOf(p, t, i) && FirstLeast(next, b)
    requires NextRow(p, i, t.rows[i], t.bests[i], next, prevs)
    ensures TablesOf(p, Tables(t.rows + [next], t.bests + [b], t.prevs + [prevs]), i + 1)
  {
    var t' := Tables(t.rows + [next], t.bests + [b], t.prevs + [prevs]);
    forall k | 0 <= k <= i + 1 ensures RowAt(p, t', k) {
      if k <= i {
        assert RowAt(p, t, k);
      }
    }
  }

  lemma BestIsUnique(p: Problem, t: Tables, i: nat, b: nat)
    requires TablesOf(p, t, i) && FirstLeast(t.rows[i], b)
    ensures b == t.bests[i]
  {
    assert RowAt(p, t, i);
    var row, best := t.rows[i], t.bests[i];
    assert row[b] <= row[best] && row[best] <= row[b];
  }

  /** Fills the column of value i + 1. */
  method NextColumn(p: Problem, bitcnt: array2<nat>, prevCfg: array2<nat>, i: nat, cmdCost: nat, ghost t: Tables)
    returns (ghost t': Tables)
    requires bitcnt != prevCfg && bitcnt.Length0 == prevCfg.Length0 == p.Configs()
    requires bitcnt.Length1 == prevCfg.Length1 == |p.vals| + 1 && i < |p.vals| && cmdCost == p.SwitchCost(i)
    requires TablesOf(p, t, i) && forall c :: 0 <= c <= i ==> Filled(t, bitcnt, prevCfg, c)
    modifies bitcnt, prevCfg
    ensures TablesOf(p, t', i + 1) && forall c :: 0 <= c <= i + 1 ==> Filled(t', bitcnt, prevCfg, c)
  {
    assert Filled(t, bitcnt, prevCfg, i);
    var bestBitcnt, bestCfg := FindBest(bitcnt, i, t.rows[i]);
    BestIsUnique(p, t, i, bestCfg);
    ghost var next, prevs := FillColumn(p, bitcnt, prevCfg, i, cmdCost, bestBitcnt, bestCfg, t.rows[i]);
    ghost var b := FirstLeastExists(next);
    TablesGrow(p, t, i, next, b, prevs);
    t' := Tables(t.rows + [next], t.bests + [b], t.prevs + [prevs]);
    forall c | 0 <= c <= i + 1 ensures Filled(t', bitcnt, prevCfg, c) {
      if c <= i {
        assert old(Filled(t, bitcnt, prevCfg, c));
        assert t'.rows[c] == t.rows[c] && t'.prevs[c] == t.prevs[c];
      }
    }
  }

  /** Fills the tables for all values. */
  method FillTables(p: Problem, bitcnt: array2<nat>, prevCfg: array2<nat>) returns (ghost t: Tables)
    requires Increasing(p.existing)
    requires bitcnt != prevCfg && bitcnt.Length0 == prevCfg.Length0 == p.Configs()
    requires bitcnt.Length1 == prevCfg.Length1 == |p.vals| + 1
    modifies bitcnt, prevCfg
    ensures TablesOf(p, t, |p.vals|) && forall c :: 0 <= c <= |p.vals| ==> Filled(t, bitcnt, prevCfg, c)
  {
    t := FirstColumn(p, bitcnt, prevCfg);
    var existingIdx := 0;
    var i := 0;
    while i < |p.vals|
      invariant 0 <= i <= |p.vals| && 0 <= existingIdx <= |p.existing|
      invariant forall k :: 0 <= k < existingIdx ==> p.existing[k] <= i
      invariant forall k :: existingIdx <= k < |p.existing| ==> p.existing[k] > i
      invariant TablesOf(p, t, i) && forall c :: 0 <= c <= i ==> Filled(t, bitcnt, prevCfg, c)
    {
      var cmdCost := 40;
      if existingIdx < |p.existing| && p.existing[existingIdx] == i + 1 {
        // free switch before value i, as `existing` has the position i + 1
        cmdCost := 0;
        existingIdx := existingIdx + 1;
      }
      assert cmdCost == p.SwitchCost(i);
      t := NextColumn(p, bitcnt, prevCfg, i, cmdCost, t);
      i := i + 1;
    }
  }

  // ---- tracing back

  /** How many sections end in the first i positions. */
  function Sections(st: seq<nat>, i: nat): (n: nat)
    requires i < |st|
    ensures n >= 1
  {
    if i == 0 then 1 else (if st[i - 1] != st[i] then 1 else 0) + Sections(st, i - 1)
  }

  /** Sections from position lo on, up to n, that describe the assignment a. */
  ghost predicate Tail(cfgs: seq<nat>, ps: seq<nat>, a: seq<nat>, lo: nat, n: nat, configs: nat) {
    && |cfgs| == |ps| && |a| == n
    && (if ps == [] then lo == n else ps[|ps| - 1] == n)
    && (forall i :: 0 <= i < |ps| ==> lo < ps[i] <= n && cfgs[i] < configs)
    && (forall i, j :: 0 <= i < j < |ps| ==> ps[i] < ps[j])
    && (forall s, k :: 0 <= s < |ps| && (if s == 0 then lo else ps[s - 1]) <= k < ps[s] ==> a[k] == cfgs[s])
  }

  lemma TailGrows(cfgs: seq<nat>, ps: seq<nat>, a: seq<nat>, lo: nat, hi: nat, n: nat, configs: nat, cfg: nat)
    requires Tail(cfgs, ps, a, hi, n, configs) && lo < hi <= n && cfg < configs
    requires forall k :: lo <= k < hi ==> a[k] == cfg
    ensures Tail([cfg] + cfgs, [hi] + ps, a, lo, n, configs)
  {
    var cfgs', ps' := [cfg] + cfgs, [hi] + ps;
    forall s, k | 0 <= s < |ps'| && (if s == 0 then lo else ps'[s - 1]) <= k < ps'[s] ensures a[k] == cfgs'[s] {
      if s > 0 {
        assert ps'[s] == ps[s - 1] && cfgs'[s] == cfgs[s - 1] && ps'[s - 1] == if s == 1 then hi else ps[s - 2];
        assert (if s - 1 == 0 then hi else ps[s - 1 - 1]) <= k < ps[s - 1];
        assert a[k] == cfgs[s - 1];
      } else {
        assert ps'[0] == hi && cfgs'[0] == cfg;
      }
    }
  }

  /** The tables lead from state to state. */
  ghost predicate Leads(prevCfg: array2<nat>, st: seq<nat>, configs: nat)
    requires prevCfg.Length0 == configs && prevCfg.Length1 == |st|
    reads prevCfg
  {
    && (forall k :: 0 <= k < |st| ==> st[k] < configs)
    && (forall k :: 0 < k < |st| ==> prevCfg[st[k], k] == st[k - 1])
    && (|st| > 1 ==> st[0] == st[1])
  }

  lemma TailDescribes(cfgs: seq<nat>, ps: seq<nat>, a: seq<nat>, n: nat, configs: nat)
    requires Tail(cfgs, ps, a, 0, n, configs) && n > 0
    ensures SectionEnds(ps, n) && Describes(cfgs, ps, a) && |cfgs| == |ps|
    ensures forall s :: 0 <= s < |cfgs| ==> cfgs[s] < configs
  {
  }

  /** Counts the sections on the way back from the best entry. */
  method CountSections(prevCfg: array2<nat>, bestCfg: nat, n: nat, ghost st: seq<nat>, ghost configs: nat)
    returns (nCmds: nat)
    requires prevCfg.Length0 == configs && prevCfg.Length1 == |st| == n + 1
    requires Leads(prevCfg, st, configs) && st[n] == bestCfg
    ensures nCmds == Sections(st, n)
  {
    var cfg: nat := bestCfg;
    nCmds := 0;
    var i := n;
    while i > 0
      invariant 0 <= i <= n && cfg == st[i]
      invariant nCmds + Sections(st, i) == Sections(st, n)
    {
      if prevCfg[cfg, i] != cfg {
        nCmds := nCmds + 1;
        cfg := prevCfg[cfg, i];
      }
      i := i - 1;
    }
    // at column 0 the first section ends in any case
    nCmds := nCmds + 1;
  }

  /** The sections from entry j on in the two output arrays. */
  ghost predicate Output(grcCfg: array<nat>, grcPos: array<nat>, j: int, cfgs: seq<nat>, ps: seq<nat>)
    reads grcCfg, grcPos
  {
    grcCfg != grcPos && 0 <= j <= grcCfg.Length == grcPos.Length && grcCfg[j..] == cfgs && grcPos[j..] == ps
  }

  /** One step back: where the configuration changes a section starts. */
  method TraceStep(grcCfg: array<nat>, grcPos: array<nat>, prev: nat, cfg: nat, i: nat, j: int, endpos: nat,
                   ghost tc: seq<nat>, ghost tp: seq<nat>, ghost a: seq<nat>, ghost configs: nat)
    returns (j': int, endpos': nat, ghost tc': seq<nat>, ghost tp': seq<nat>)
    requires 0 < i <= endpos <= |a| && cfg < configs && (forall k :: i - 1 <= k < endpos ==> a[k] == cfg)
    requires Tail(tc, tp, a, endpos, |a|, configs) && Output(grcCfg, grcPos, j + 1, tc, tp)
    requires prev != cfg ==> j >= 0
    modifies grcCfg, grcPos
    ensures j' == (if prev != cfg then j - 1 else j) && endpos' == (if prev != cfg then i - 1 else endpos)
    ensures Tail(tc', tp', a, endpos', |a|, configs) && Output(grcCfg, grcPos, j' + 1, tc', tp')
  {
    j', endpos', tc', tp' := j, endpos, tc, tp;
    if prev != cfg {
      TailGrows(tc, tp, a, i - 1, endpos, |a|, configs, cfg);
      PutSection(grcCfg, grcPos, j, cfg, endpos);
      tc', tp' := [cfg] + tc, [endpos] + tp;
      j' := j - 1;
      endpos' := i - 1;
    }
  }

  method PutSection(grcCfg: array<nat>, grcPos: array<nat>, j: nat, cfg: nat, endpos: nat)
    requires grcCfg != grcPos && j < grcCfg.Length == grcPos.Length
    modifies grcCfg, grcPos
    ensures grcCfg[j..] == [cfg] + old(grcCfg[j + 1..]) && grcPos[j..] == [endpos] + old(grcPos[j + 1..])
  {
    grcCfg[j] := cfg;
    grcPos[j] := endpos;
  }

  /** Follows the tables back from the best entry of the last column. */
  method TraceBack(prevCfg: array2<nat>, bestCfg: nat, n: nat, ghost st: seq<nat>, ghost configs: nat)
    returns (cfgs: seq<nat>, ps: seq<nat>)
    requires prevCfg.Length0 == configs && prevCfg.Length1 == |st| == n + 1
    requires Leads(prevCfg, st, configs) && st[n] == bestCfg
    ensures if n > 0 then Tail(cfgs, ps, st[1..], 0, n, configs) else cfgs == [bestCfg] && ps == [0]
  {
    var nCmds := CountSections(prevCfg, bestCfg, n, st, configs);
    var grcCfg := new nat[nCmds];
    var grcPos := new nat[nCmds];
    ghost var tc: seq<nat>, tp: seq<nat>, a := [], [], st[1..];
    var cfg: nat, j, endpos: nat, i := bestCfg, nCmds - 1, n, n;
    while i > 0
      invariant 0 <= i <= endpos <= n && cfg == st[i] && j + 1 == Sections(st, i)
      invariant n > 0 ==> endpos > 0
      invariant forall k :: i <= k < endpos ==> a[k] == cfg
      invariant Tail(tc, tp, a, endpos, n, configs) && Output(grcCfg, grcPos, j + 1, tc, tp)
      invariant fresh(grcCfg) && fresh(grcPos)
    {
      var prev := prevCfg[cfg, i];
      assert a[i - 1] == cfg && prev == st[i - 1];
      j, endpos, tc, tp := TraceStep(grcCfg, grcPos, prev, cfg, i, j, endpos, tc, tp, a, configs);
      cfg := prev;
      i := i - 1;
    }
    // at column 0 the first section ends in any case
    if n > 0 {
      TailGrows(tc, tp, a, 0, endpos, n, configs, cfg);
    }
    PutSection(grcCfg, grcPos, j, cfg, endpos);
    cfgs, ps := grcCfg[0..], grcPos[0..];
  }

  // ---- the search

  lemma {:induction false} WayBack(p: Problem, t: Tables, i: nat, cfg: nat) returns (st: seq<nat>)
    requires TablesOf(p, t, |p.vals|) && i <= |p.vals| && cfg < p.Configs()
    ensures |st| == i + 1 && st[i] == cfg
    ensures forall k :: 0 <= k < |st| ==> st[k] < p.Configs()
    ensures forall k :: 0 <= k < i ==> WayStep(t, st, k)
  {
    if i == 0 {
      st := [cfg];
    } else {
      CellAt(p, t, |p.vals|, i - 1, cfg);
      var before := WayBack(p, t, i - 1, t.prevs[i][cfg]);
      st := before + [cfg];
      forall k | 0 <= k < i ensures WayStep(t, st, k) {
        if k < i - 1 {
          assert WayStep(t, before, k);
        }
      }
    }
  }

  lemma BestWayExists(p: Problem, t: Tables) returns (st: seq<nat>)
    requires TablesOf(p, t, |p.vals|)
    ensures BestWay(p, t, st)
  {
    assert RowAt(p, t, |p.vals|);
    st := WayBack(p, t, |p.vals|, t.bests[|p.vals|]);
  }

  lemma TablesLead(p: Problem, t: Tables, st: seq<nat>, bitcnt: array2<nat>, prevCfg: array2<nat>)
    requires prevCfg.Length0 == p.Configs() && prevCfg.Length1 == |p.vals| + 1
    requires BestWay(p, t, st) && forall c :: 0 <= c <= |p.vals| ==> Filled(t, bitcnt, prevCfg, c)
    ensures Leads(prevCfg, st, p.Configs())
  {
    forall k | 0 < k < |st| ensures prevCfg[st[k], k] == st[k - 1] {
      assert Filled(t, bitcnt, prevCfg, k) && WayStep(t, st, k - 1);
    }
    if |st| > 1 {
      FirstStepKeeps(p, t, st);
    }
  }

  /** What the search promises of the assignment it found. */
  ghost predicate Optimal(p: Problem, a: seq<nat>, bits: nat) {
    && IsAssignment(p, a) && |a| == |p.vals| && bits == Cost(p, a)
    && forall other :: IsAssignment(p, other) && |other| == |p.vals| ==> bits <= Cost(p, other)
  }

  /** Every value can be coded in its configuration, and uncompressed mode at 100 bits is not used. */
  ghost predicate AllCodable(p: Problem, a: seq<nat>)
    requires IsAssignment(p, a)
  {
    && (forall k :: 0 <= k < |a| ==> CanCode(p, a[k], p.vals[k]))
    && (p.uncompressedBits == 100 ==> forall k :: 0 <= k < |a| ==> a[k] != 12)
  }

  lemma WayIsOptimal(p: Problem, t: Tables, st: seq<nat>)
    requires BestWay(p, t, st)
    ensures t.bests[|p.vals|] < |t.rows[|p.vals|]|
    ensures Optimal(p, st[1..], t.rows[|p.vals|][t.bests[|p.vals|]])
    ensures WeightStream(p) ==> AllCodable(p, st[1..])
  {
    var n := |p.vals|;
    assert st[1..n + 1] == st[1..];
    WayCost(p, t, st, n);
    forall other | IsAssignment(p, other) && |other| == n ensures Cost(p, st[1..]) <= Cost(p, other) {
      BestWayIsOptimal(p, t, st, other);
    }
    if WeightStream(p) {
      BestWayCodes(p, t, st);
    }
  }

  /**
   * Searches good parameters for a stream: the sections it returns describe an assignment of least
   * cost, and `bits` is that cost. A switch before value i, which is reported as position i, is free
   * when i + 1 is in `existing`.
   */
  method SearchGrcParams(p: Problem) returns (cfgs: seq<nat>, ps: seq<nat>, bits: nat, ghost a: seq<nat>)
    requires Increasing(p.existing)
    ensures SectionEnds(ps, |p.vals|) && |cfgs| == |ps| && forall s :: 0 <= s < |cfgs| ==> cfgs[s] < p.Configs()
    ensures Optimal(p, a, bits) && Describes(cfgs, ps, a)
    ensures WeightStream(p) ==> AllCodable(p, a)
    ensures |ps| >= 1 && ps[|ps| - 1] == |p.vals| && (forall i :: 0 <= i < |ps| && |p.vals| > 0 ==> ps[i] > 0)
            && forall i, j :: 0 <= i < j < |ps| ==> ps[i] < ps[j]
    ensures |a| == |p.vals|
    ensures forall s, k :: 0 <= s < |ps| && (if s == 0 then 0 else ps[s - 1]) <= k < ps[s] ==> a[k] == cfgs[s]
    ensures bits == Sum(Charges(p, a))
    ensures forall b :: IsAssignment(p, b) && |b| == |p.vals| ==> bits <= Sum(Charges(p, b))
  {
    var n := |p.vals|;
    var bitcnt := new nat[p.Configs(), n + 1];
    var prevCfg := new nat[p.Configs(), n + 1];
    ghost var t := FillTables(p, bitcnt, prevCfg);
    assert Filled(t, bitcnt, prevCfg, n);
    var bestCfg;
    bits, bestCfg := FindBest(bitcnt, n, t.rows[n]);
    BestIsUnique(p, t, n, bestCfg);
    ghost var st := BestWayExists(p, t);
    TablesLead(p, t, st, bitcnt, prevCfg);
    cfgs, ps := TraceBack(prevCfg, bestCfg, n, st, p.Configs());
    a := st[1..];
    WayIsOptimal(p, t, st);
    if n > 0 {
      TailDescribes(cfgs, ps, a, n, p.Configs());
    }
    OptimumIsSum(p, a, bits);
    DescriptionInNumbers(cfgs, ps, a);
  }

  lemma OptimumIsSum(p: Problem, a: seq<nat>, bits: nat)
    requires Optimal(p, a, bits)
    ensures bits == Sum(Charges(p, a))
    ensures forall b :: IsAssignment(p, b) && |b| == |p.vals| ==> bits <= Sum(Charges(p, b))
  {
    CostIsSum(p, a);
    forall b | IsAssignment(p, b) && |b| == |p.vals| ensures bits <= Sum(Charges(p, b)) {
      CostIsSum(p, b);
    }
  }

  lemma DescriptionInNumbers(cfgs: seq<nat>, ps: seq<nat>, a: seq<nat>)
    requires Describes(cfgs, ps, a) && SectionEnds(ps, |a|)
    ensures forall s, k :: 0 <= s < |ps| && (if s == 0 then 0 else ps[s - 1]) <= k < ps[s] ==> a[k] == cfgs[s]
  {
    forall s: nat, k: nat | s < |ps| && (if s == 0 then 0 else ps[s - 1]) <= k < ps[s] ensures a[k] == cfgs[s] {
      assert InSection(ps, s, k);
      assert s < |ps| - 1 ==> ps[s] < ps[|ps| - 1];
    }
  }
}
