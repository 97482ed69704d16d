/** Paths in a graph of numbered nodes; g[p] lists the nodes that p has links to. */
module Paths {
  import opened Sequences

  predicate IsGraph(g: seq<seq<nat>>) {
    forall p :: 0 <= p < |g| ==> Bounded(g[p], |g|)
  }

  predicate Bounded(s: seq<nat>, n: nat) {
    forall k :: 0 <= k < |s| ==> s[k] < n
  }

  ghost predicate Path(g: seq<seq<nat>>, path: seq<nat>) {
    && path != [] && Bounded(path, |g|)
    && forall i :: 0 <= i < |path| - 1 ==> LinkAt(g, path, i)
  }

  ghost predicate LinkAt(g: seq<seq<nat>>, path: seq<nat>, i: nat)
    requires i < |path| - 1 && path[i] < |g|
  {
    path[i + 1] in g[path[i]]
  }

  ghost predicate PathFrom(g: seq<seq<nat>>, path: seq<nat>, a: nat, b: nat) {
    Path(g, path) && path[0] == a && path[|path| - 1] == b
  }

  ghost predicate Reaches(g: seq<seq<nat>>, a: nat, b: nat) {
    exists path :: PathFrom(g, path, a, b)
  }

  /** No path of at least one link comes back to its start. */
  ghost predicate Acyclic(g: seq<seq<nat>>) {
    forall path :: Path(g, path) && |path| > 1 ==> path[0] != path[|path| - 1]
  }

  lemma ReachesItself(g: seq<seq<nat>>, a: nat)
    requires a < |g|
    ensures Reaches(g, a, a)
  {
    assert PathFrom(g, [a], a, a);
  }

  lemma Extends(g: seq<seq<nat>>, path: seq<nat>, q: nat)
    requires Path(g, path) && q < |g| && q in g[path[|path| - 1]]
    ensures Path(g, path + [q])
  {
    var longer := path + [q];
    forall i | 0 <= i < |longer| - 1 ensures LinkAt(g, longer, i) {
      if i < |path| - 1 {
        assert LinkAt(g, path, i);
      }
    }
  }

  lemma ReachesNext(g: seq<seq<nat>>, a: nat, p: nat, q: nat)
    requires Reaches(g, a, p) && p < |g| && q < |g| && q in g[p]
    ensures Reaches(g, a, q)
  {
    var path :| PathFrom(g, path, a, p);
    Extends(g, path, q);
    assert PathFrom(g, path + [q], a, q);
  }

  lemma ReachesThrough(g: seq<seq<nat>>, p: nat, q: nat, r: nat)
    requires p < |g| && q in g[p] && Reaches(g, q, r)
    ensures Reaches(g, p, r)
  {
    var path :| PathFrom(g, path, q, r);
    var longer := [p] + path;
    forall i | 0 <= i < |longer| - 1 ensures longer[i] < |g| && LinkAt(g, longer, i) {
      if i > 0 {
        assert LinkAt(g, path, i - 1);
      }
    }
    assert PathFrom(g, longer, p, r);
  }

  lemma SuffixReaches(g: seq<seq<nat>>, path: seq<nat>, i: nat)
    requires Path(g, path) && i < |path|
    ensures Path(g, path[i..]) && Reaches(g, path[i], path[|path| - 1])
  {
    forall k | 0 <= k < |path[i..]| - 1 ensures LinkAt(g, path[i..], k) {
      assert LinkAt(g, path, i + k);
    }
    assert PathFrom(g, path[i..], path[i], path[|path| - 1]);
  }

  /** A link from p back to a node that reaches p closes a cycle. */
  lemma LinkBack(g: seq<seq<nat>>, q: nat, p: nat)
    requires Reaches(g, q, p) && p < |g| && q in g[p]
    ensures !Acyclic(g)
  {
    var path :| PathFrom(g, path, q, p);
    Extends(g, path, q);
    var cycle := path + [q];
    assert Path(g, cycle) && |cycle| > 1 && cycle[0] == q && cycle[|cycle| - 1] == q;
  }

  /** What is closed under links contains what it reaches. */
  lemma {:induction false} ClosedReaches(g: seq<seq<nat>>, s: seq<nat>, path: seq<nat>)
    requires Path(g, path) && path[0] in s
    requires forall p :: p in s ==> p < |g| && forall q :: q in g[p] ==> q in s
    ensures path[|path| - 1] in s
    decreases |path|
  {
    if |path| > 1 {
      assert LinkAt(g, path, 0);
      SuffixReaches(g, path, 1);
      ClosedReaches(g, s, path[1..]);
    }
  }

  /** There are at most n different nodes. */
  lemma {:induction false} AtMost(s: seq<nat>, n: nat)
    requires Distinct(s) && Bounded(s, n)
    ensures |s| <= n
  {
    if s != [] {
      assert s[0] < n;
      if n - 1 in s {
        var i :| 0 <= i < |s| && s[i] == n - 1;
        AtMost(s[..i] + s[i + 1..], n - 1);
      } else {
        AtMost(s, n - 1);
      }
    }
  }

  /** p comes before q in s. */
  ghost predicate Precedes(s: seq<nat>, p: nat, q: nat) {
    exists i, j :: 0 <= i < j < |s| && s[i] == p && s[j] == q
  }

  /** An order in which every linked node comes first leaves no room for a cycle. */
  lemma OrderedIsAcyclic(g: seq<seq<nat>>, order: seq<nat>)
    requires Distinct(order) && forall p, q :: 0 <= p < |g| && q in g[p] ==> Precedes(order, q, p)
    ensures Acyclic(g)
  {
    forall path | Path(g, path) && |path| > 1 ensures path[0] != path[|path| - 1] {
      PathDescends(g, order, path);
    }
  }

  lemma {:induction false} PathDescends(g: seq<seq<nat>>, order: seq<nat>, path: seq<nat>)
    requires Distinct(order) && forall p, q :: 0 <= p < |g| && q in g[p] ==> Precedes(order, q, p)
    requires Path(g, path) && |path| > 1
    ensures Precedes(order, path[|path| - 1], path[0]) && path[0] != path[|path| - 1]
    decreases |path|
  {
    assert LinkAt(g, path, 0);
    assert Precedes(order, path[1], path[0]);
    if |path| > 2 {
      SuffixReaches(g, path, 1);
      PathDescends(g, order, path[1..]);
      PrecedesTransitive(order, path[|path| - 1], path[1], path[0]);
    }
  }

  lemma PrecedesTransitive(s: seq<nat>, a: nat, b: nat, c: nat)
    requires Distinct(s) && Precedes(s, a, b) && Precedes(s, b, c)
    ensures Precedes(s, a, c)
  {
    var i, j :| 0 <= i < j < |s| && s[i] == a && s[j] == b;
    var k, l :| 0 <= k < l < |s| && s[k] == b && s[l] == c;
    assert j == k;
  }
}
