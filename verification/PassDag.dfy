/** Removing the links of a pass graph that close cycles, by depth-first search. */
module PassDag {
  import opened Paths
  import opened MaximalDag
  import opened Sequences

  datatype State = NotVisited | BeingVisited | Visited

  /**
   * d is what is left of the links ps of node p: the others close a cycle of the graph g.
   */
  ghost predicate Kept(g: seq<seq<nat>>, p: nat, ps: seq<nat>, d: seq<nat>)
    decreases |ps|
  {
    if ps == [] then d == []
    else
      var last, init := ps[|ps| - 1], ps[..|ps| - 1];
      || (d != [] && d[|d| - 1] == last && Kept(g, p, init, d[..|d| - 1]))
      || (Reaches(g, last, p) && Kept(g, p, init, d))
  }

  lemma {:induction false} KeptSubset(g: seq<seq<nat>>, p: nat, ps: seq<nat>, d: seq<nat>)
    requires Kept(g, p, ps, d)
    ensures forall q :: q in d ==> q in ps
    decreases |ps|
  {
    if ps != [] {
      var last, init := ps[|ps| - 1], ps[..|ps| - 1];
      if d != [] && d[|d| - 1] == last && Kept(g, p, init, d[..|d| - 1]) {
        KeptSubset(g, p, init, d[..|d| - 1]);
        assert d == d[..|d| - 1] + [last];
      } else {
        KeptSubset(g, p, init, d);
      }
      assert ps == init + [last];
    }
  }

  /** Where no link closes a cycle all links are kept. */
  lemma {:induction false} KeptAll(g: seq<seq<nat>>, p: nat, ps: seq<nat>, d: seq<nat>)
    requires Kept(g, p, ps, d) && forall q :: q in ps ==> !Reaches(g, q, p)
    ensures d == ps
    decreases |ps|
  {
    if ps != [] {
      var last, init := ps[|ps| - 1], ps[..|ps| - 1];
      assert last in ps;
      KeptAll(g, p, init, d[..|d| - 1]);
      assert d == d[..|d| - 1] + [last];
    }
  }

  function StateIn(visit: map<nat, State>, p: nat): State {
    if p in visit then visit[p] else NotVisited
  }

  /** A visited pass: its links were visited, and what is kept of them comes earlier in `done`. */
  ghost predicate Finished(g: seq<seq<nat>>, dag: seq<seq<nat>>, done: seq<nat>, stack: seq<nat>, p: nat)
    requires p < |g| == |dag|
  {
    && Kept(g, p, g[p], dag[p])
    && (forall q :: q in g[p] ==> q in done || q in stack)
    && (forall q :: q in dag[p] ==> Precedes(done, q, p))
  }

  /** The links that are kept so far of a pass being visited lead to visited passes. */
  ghost predicate Started(dag: seq<seq<nat>>, done: seq<nat>, p: nat)
    requires p < |dag|
  {
    forall q :: q in dag[p] ==> q in done
  }

  /**
   * The invariant of the search; `done` are the visited passes, in the order in which their visits
   * ended, `stack` the passes being visited, from the sink down.
   */
  ghost predicate Searching(g: seq<seq<nat>>, dag: seq<seq<nat>>, visit: map<nat, State>, done: seq<nat>,
                            stack: seq<nat>) {
    && IsGraph(g) && |dag| == |g|
    && Distinct(done + stack) && Bounded(done, |g|) && Bounded(stack, |g|)
    && (stack == [] || Path(g, stack))
    && (forall p: nat :: p < |g| ==> StateIs(visit, done, stack, p))
    && (forall p: nat :: p < |g| && p in done ==> Finished(g, dag, done, stack, p))
    && (forall p: nat :: p < |g| && p in stack ==> Started(dag, done, p))
    && (forall p: nat :: p < |g| && p !in done && p !in stack ==> dag[p] == [])
  }

  ghost predicate StateIs(visit: map<nat, State>, done: seq<nat>, stack: seq<nat>, p: nat) {
    StateIn(visit, p) == if p in done then Visited else if p in stack then BeingVisited else NotVisited
  }

  lemma DistinctSplit(a: seq<nat>, b: seq<nat>)
    ensures Distinct(a + b) <==> Distinct(a) && Distinct(b) && forall x :: x in a ==> x !in b
  {
    var s := a + b;
    if Distinct(s) {
      forall i, j | 0 <= i < j < |a| ensures a[i] != a[j] {
        assert s[i] == a[i] && s[j] == a[j];
      }
      forall i, j | 0 <= i < j < |b| ensures b[i] != b[j] {
        assert s[|a| + i] == b[i] && s[|a| + j] == b[j];
      }
      forall i, j | 0 <= i < |a| && 0 <= j < |b| ensures a[i] != b[j] {
        assert s[i] == a[i] && s[|a| + j] == b[j];
      }
    } else {
      var i, j :| 0 <= i < j < |s| && s[i] == s[j];
      if i < |a| && j < |a| {
        assert a[i] == a[j];
      } else if i >= |a| {
        assert b[i - |a|] == b[j - |a|];
      } else {
        assert a[i] in a && b[j - |a|] in b;
      }
    }
  }

  lemma PrecedesGrows(done: seq<nat>, more: seq<nat>, q: nat, p: nat)
    requires Precedes(done, q, p)
    ensures Precedes(done + more, q, p)
  {
    var i, j :| 0 <= i < j < |done| && done[i] == q && done[j] == p;
    var all := done + more;
    assert all[i] == q && all[j] == p;
  }

  /** A visit starts. */
  lemma Enters(g: seq<seq<nat>>, dag: seq<seq<nat>>, visit: map<nat, State>, done: seq<nat>, stack: seq<nat>, p: nat)
    requires Searching(g, dag, visit, done, stack) && p < |g| && StateIn(visit, p) == NotVisited
    requires stack == [] || p in g[stack[|stack| - 1]]
    ensures Searching(g, dag[p := []], visit[p := BeingVisited], done, stack + [p])
    ensures p !in stack && p !in done
  {
    assert StateIs(visit, done, stack, p);
    var visit', stack', dag' := visit[p := BeingVisited], stack + [p], dag[p := []];
    DistinctSplit(done, stack);
    DistinctSplit(stack, [p]);
    DistinctSplit(done, stack');
    if stack != [] {
      Extends(g, stack, p);
    } else {
      assert stack' == [p];
    }
    forall q: nat | q < |g| ensures StateIs(visit', done, stack', q) {
      assert StateIs(visit, done, stack, q);
    }
    forall q: nat | q < |g| && q in done ensures Finished(g, dag', done, stack', q) {
      assert Finished(g, dag, done, stack, q);
    }
    forall q: nat | q < |g| && q in stack' ensures Started(dag', done, q) {
      assert q != p ==> Started(dag, done, q);
    }
  }

  /** A link to a visited pass is kept. */
  lemma KeepsLink(g: seq<seq<nat>>, dag: seq<seq<nat>>, visit: map<nat, State>, done: seq<nat>, stack: seq<nat>,
                  p: nat, q: nat)
    requires Searching(g, dag, visit, done, stack) && p < |g| && p in stack && q in done
    ensures Searching(g, dag[p := dag[p] + [q]], visit, done, stack)
  {
    var dag' := dag[p := dag[p] + [q]];
    DistinctSplit(done, stack);
    forall r: nat | r < |g| && r in done ensures Finished(g, dag', done, stack, r) {
      assert Finished(g, dag, done, stack, r);
    }
    forall r: nat | r < |g| && r in stack ensures Started(dag', done, r) {
      assert Started(dag, done, r);
    }
  }

  /** The visit of the pass on top of the stack ends. */
  lemma Leaves(g: seq<seq<nat>>, dag: seq<seq<nat>>, visit: map<nat, State>, done: seq<nat>, stack: seq<nat>, p: nat)
    requires Searching(g, dag, visit, done, stack + [p]) && p < |g|
    requires Kept(g, p, g[p], dag[p]) && forall q :: q in g[p] ==> q in done || q in stack + [p]
    ensures Searching(g, dag, visit[p := Visited], done + [p], stack)
  {
    var inner, done', visit' := stack + [p], done + [p], visit[p := Visited];
    LeavesOrder(done, stack, p);
    if stack != [] {
      PrefixPath(g, stack, p);
    }
    forall q: nat | q < |g| ensures StateIs(visit', done', stack, q) {
      assert StateIs(visit, done, inner, q);
    }
    forall q: nat | q < |g| && q in done' ensures Finished(g, dag, done', stack, q) {
      if q == p {
        assert Started(dag, done, p);
        forall r | r in dag[p] ensures Precedes(done', r, p) {
          EndsWith(done, r, p);
        }
      } else {
        assert Finished(g, dag, done, inner, q);
        forall r | r in dag[q] ensures Precedes(done', r, q) {
          PrecedesGrows(done, [p], r, q);
        }
      }
    }
    forall q: nat | q < |g| && q in stack ensures Started(dag, done', q) {
      assert q in inner && Started(dag, done, q);
    }
  }

  lemma LeavesOrder(done: seq<nat>, stack: seq<nat>, p: nat)
    requires Distinct(done + (stack + [p]))
    ensures Distinct((done + [p]) + stack)
  {
    DistinctSplit(done, stack + [p]);
    DistinctSplit(stack, [p]);
    DistinctSplit(done, [p]);
    DistinctSplit(done + [p], stack);
    assert p in stack + [p];
  }

  lemma PrefixPath(g: seq<seq<nat>>, stack: seq<nat>, p: nat)
    requires Path(g, stack + [p]) && stack != []
    ensures Path(g, stack)
  {
    forall i | 0 <= i < |stack| ensures stack[i] < |g| {
      assert stack[i] == (stack + [p])[i];
    }
    forall i | 0 <= i < |stack| - 1 ensures LinkAt(g, stack, i) {
      assert LinkAt(g, stack + [p], i);
    }
  }

  lemma EndsWith(done: seq<nat>, q: nat, p: nat)
    requires q in done
    ensures Precedes(done + [p], q, p)
  {
    var i :| 0 <= i < |done| && done[i] == q;
    assert (done + [p])[i] == q && (done + [p])[|done|] == p;
  }

  /** A pass on the stack reaches the one on top of it. */
  lemma StackReaches(g: seq<seq<nat>>, stack: seq<nat>, p: nat, q: nat)
    requires Path(g, stack + [p]) && q in stack + [p]
    ensures Reaches(g, q, p)
  {
    var i :| 0 <= i < |stack + [p]| && (stack + [p])[i] == q;
    SuffixReaches(g, stack + [p], i);
  }

  lemma RoomLeft(done: seq<nat>, stack: seq<nat>, n: nat)
    requires Distinct(done + stack) && Bounded(done, n) && Bounded(stack, n)
    ensures |done| + |stack| <= n
  {
    AtMost(done + stack, n);
  }

  /** Some pass without successors depends on p. */
  ghost predicate SinkReaches(g: seq<seq<nat>>, successors: seq<seq<nat>>, p: nat) {
    exists sink :: 0 <= sink < |successors| && successors[sink] == [] && Reaches(g, sink, p)
  }

  /** Whatever has been visited since depends on p. */
  ghost predicate NewFrom(g: seq<seq<nat>>, before: seq<nat>, done: seq<nat>, p: nat) {
    forall q :: q in done ==> q in before || Reaches(g, p, q)
  }

  /** The links lead to passes that are done or being visited. */
  ghost predicate AreVisited(links: seq<nat>, done: seq<nat>, stack: seq<nat>) {
    forall i :: 0 <= i < |links| ==> links[i] in done || links[i] in stack
  }

  lemma LinksVisited(links: seq<nat>, k: nat, mid: seq<nat>, done: seq<nat>, stack: seq<nat>)
    requires k < |links| && mid <= done && AreVisited(links[..k], mid, stack)
    requires links[k] in done || links[k] in stack
    ensures AreVisited(links[..k + 1], done, stack)
  {
    var more := links[..k + 1];
    forall i | 0 <= i < |more| ensures more[i] in done || more[i] in stack {
      if i < k {
        assert more[i] == links[..k][i];
      }
    }
  }

  lemma NewThrough(g: seq<seq<nat>>, before: seq<nat>, mid: seq<nat>, done: seq<nat>, p: nat, q: nat)
    requires p < |g| && q in g[p] && NewFrom(g, before, mid, p) && NewFrom(g, mid, done, q)
    ensures NewFrom(g, before, done, p)
  {
    forall r | r in done ensures r in before || Reaches(g, p, r) {
      if r !in mid {
        ReachesThrough(g, p, q, r);
      }
    }
  }

  lemma StartsSearch(g: seq<seq<nat>>, dag: seq<seq<nat>>)
    requires IsGraph(g) && |dag| == |g| && forall p :: 0 <= p < |dag| ==> dag[p] == []
    ensures Searching(g, dag, map[], [], [])
  {
    forall p: nat | p < |g| ensures StateIs(map[], [], [], p) {
    }
  }

  class PassGraph {
    const predecessors: seq<seq<nat>>
    const successors: seq<seq<nat>>
    var dagPredecessors: seq<seq<nat>>
    var visit: map<nat, State>
    ghost var done: seq<nat>

    constructor (predecessors: seq<seq<nat>>, successors: seq<seq<nat>>)
      ensures this.predecessors == predecessors && this.successors == successors
    {
      this.predecessors, this.successors := predecessors, successors;
      dagPredecessors, visit, done := [], map[], [];
    }

    ghost predicate Valid(stack: seq<nat>)
      reads this
    {
      Searching(predecessors, dagPredecessors, visit, done, stack)
    }

    /** Visits a pass and what it depends on; false when the link to it closes a cycle. */
    method VisitPass(p: nat, ghost stack: seq<nat>) returns (keep: bool)
      requires Valid(stack) && p < |predecessors| && (stack == [] || p in predecessors[stack[|stack| - 1]])
      requires Tight(predecessors, dagPredecessors, stack, done)
      modifies this
      ensures Valid(stack) && old(done) <= done
      ensures Within(old(dagPredecessors), dagPredecessors)
      ensures Tight(predecessors, dagPredecessors, if keep then stack + [p] else stack, done)
      ensures forall s :: s in stack ==> s < |predecessors| && dagPredecessors[s] == old(dagPredecessors[s])
      ensures keep ==> p in done
      ensures !keep ==> p in stack
      ensures NewFrom(predecessors, old(done), done, p)
      decreases |predecessors| - |done| - |stack|, 1
    {
      assert StateIs(visit, done, stack, p);
      var state := StateIn(visit, p);
      if state == Visited {
        VisitedAlready(predecessors, dagPredecessors, stack, done, p);
        return true;
      }
      if state == BeingVisited {
        return false;
      }
      VisitNew(p, stack);
      keep := true;
    }

    method VisitNew(p: nat, ghost stack: seq<nat>)
      requires Valid(stack) && p < |predecessors| && (stack == [] || p in predecessors[stack[|stack| - 1]])
      requires StateIn(visit, p) == NotVisited && Tight(predecessors, dagPredecessors, stack, done)
      modifies this
      ensures Valid(stack) && old(done) <= done && p in done
      ensures Within(old(dagPredecessors), dagPredecessors)
      ensures Tight(predecessors, dagPredecessors, stack + [p], done)
      ensures forall s :: s in stack ==> s < |predecessors| && dagPredecessors[s] == old(dagPredecessors[s])
      ensures NewFrom(predecessors, old(done), done, p)
      decreases |predecessors| - |done| - |stack|, 0
    {
      Enters(predecessors, dagPredecessors, visit, done, stack, p);
      EntersTight(predecessors, dagPredecessors, stack, done, p);
      ghost var inner, dag := stack + [p], dagPredecessors;
      RoomLeft(done, inner, |predecessors|);
      visit := visit[p := BeingVisited];
      dagPredecessors := dagPredecessors[p := []];
      var k := 0;
      while k < |predecessors[p]|
        invariant 0 <= k <= |predecessors[p]| && Valid(inner) && old(done) <= done
        invariant forall s :: s in stack ==> s < |predecessors| && dagPredecessors[s] == dag[s]
        invariant NewFrom(predecessors, old(done), done, p)
        invariant Kept(predecessors, p, predecessors[p][..k], dagPredecessors[p])
        invariant AreVisited(predecessors[p][..k], done, inner)
        invariant Within(dag, dagPredecessors) && Tight(predecessors, dagPredecessors, inner, done)
        invariant TightAt(dagPredecessors, inner, predecessors[p][..k], p)
      {
        ghost var mid := done;
        VisitLink(p, k, stack, inner);
        LinksVisited(predecessors[p], k, mid, done, inner);
        NewThrough(predecessors, old(done), mid, done, p, predecessors[p][k]);
        k := k + 1;
      }
      assert predecessors[p][..k] == predecessors[p];
      LeavesTight(predecessors, dagPredecessors, inner, done, p);
      Leaves(predecessors, dagPredecessors, visit, done, stack, p);
      ReachesItself(predecessors, p);
      visit := visit[p := Visited];
      done := done + [p];
    }

    /** Visits the k-th predecessor of p, and keeps the link unless it closes a cycle. */
    method VisitLink(p: nat, k: nat, ghost stack: seq<nat>, ghost inner: seq<nat>)
      requires inner == stack + [p] && p < |predecessors| && k < |predecessors[p]| && Valid(inner)
      requires Kept(predecessors, p, predecessors[p][..k], dagPredecessors[p])
      requires Tight(predecessors, dagPredecessors, inner, done)
      requires TightAt(dagPredecessors, inner, predecessors[p][..k], p)
      modifies this
      ensures Valid(inner) && old(done) <= done
      ensures Within(old(dagPredecessors), dagPredecessors)
      ensures Tight(predecessors, dagPredecessors, inner, done)
      ensures TightAt(dagPredecessors, inner, predecessors[p][..k + 1], p)
      ensures forall s :: s in stack ==> s < |predecessors| && dagPredecessors[s] == old(dagPredecessors[s])
      ensures Kept(predecessors, p, predecessors[p][..k + 1], dagPredecessors[p])
      ensures predecessors[p][k] in done || predecessors[p][k] in inner
      ensures NewFrom(predecessors, old(done), done, predecessors[p][k])
      decreases |predecessors| - |done| - |inner|, 2
    {
      var pred := predecessors[p][k];
      assert Bounded(predecessors[p], |predecessors|);
      ghost var before := predecessors[p][..k + 1];
      assert before[..k] == predecessors[p][..k] && before[k] == pred;
      assert forall s :: s in stack ==> s in inner;
      assert before == predecessors[p][..k] + [pred];
      ghost var dag := dagPredecessors;
      var keep := VisitPass(pred, inner);
      StaysTight(dag, dagPredecessors, inner, predecessors[p][..k], p);
      if keep {
        KeepsTight(predecessors, dagPredecessors, inner, done, p, pred);
        TightAtKeeps(dagPredecessors, inner, predecessors[p][..k], p, pred);
        KeepsLink(predecessors, dagPredecessors, visit, done, inner, p, pred);
        dagPredecessors := dagPredecessors[p := dagPredecessors[p] + [pred]];
        DistinctSplit(done, inner);
        DistinctSplit(stack, [p]);
      } else {
        TightAtDrops(dagPredecessors, inner, predecessors[p][..k], p, pred);
        StackReaches(predecessors, stack, p, pred);
      }
    }

    /** Visits a pass without successors. */
    method VisitSink(p: nat)
      requires Valid([]) && p < |predecessors| == |successors| && successors[p] == []
      requires forall q :: q in done ==> SinkReaches(predecessors, successors, q)
      requires Tight(predecessors, dagPredecessors, [], done)
      modifies this
      ensures Valid([]) && old(done) <= done && p in done && Tight(predecessors, dagPredecessors, [], done)
      ensures forall q :: q in done ==> SinkReaches(predecessors, successors, q)
    {
      var keep := VisitPass(p, []);
      OneOnStack(predecessors, dagPredecessors, done, p);
    }

    /**
     * What a pass keeps of its predecessors when a sink depends on it: all but links that close a
     * cycle; other passes keep none. The links that are kept have no cycle.
     */
    method BuildPassDagPredecessors()
      requires IsGraph(predecessors) && |successors| == |predecessors|
      modifies this
      ensures |dagPredecessors| == |predecessors|
      ensures forall p: nat :: p < |predecessors| ==>
                if SinkReaches(predecessors, successors, p)
                then Kept(predecessors, p, predecessors[p], dagPredecessors[p])
                else dagPredecessors[p] == []
      ensures Acyclic(dagPredecessors)
      ensures Acyclic(predecessors) ==>
                forall p: nat :: p < |predecessors| && SinkReaches(predecessors, successors, p) ==>
                  dagPredecessors[p] == predecessors[p]
      ensures forall p: nat, q :: p < |predecessors| && SinkReaches(predecessors, successors, p) ==>
                q in predecessors[p] && q !in dagPredecessors[p] ==> Reaches(dagPredecessors, q, p)
    {
      dagPredecessors := seq(|predecessors|, _ => []);
      visit, done := map[], [];
      StartsSearch(predecessors, dagPredecessors);
      StartsTight(predecessors, dagPredecessors);
      var p := 0;
      while p < |predecessors|
        invariant 0 <= p <= |predecessors| && Valid([]) && Tight(predecessors, dagPredecessors, [], done)
        invariant forall q :: 0 <= q < p && successors[q] == [] ==> q in done
        invariant forall q :: q in done ==> SinkReaches(predecessors, successors, q)
      {
        if successors[p] == [] {
          VisitSink(p);
        }
        p := p + 1;
      }
      SearchEnds(predecessors, successors, dagPredecessors, visit, done);
      DroppedLinks(predecessors, successors, dagPredecessors, visit, done);
    }
  }

  /** What a sink depends on has been visited, so the links dropped there are those that close cycles. */
  lemma DroppedLinks(g: seq<seq<nat>>, successors: seq<seq<nat>>, dag: seq<seq<nat>>, visit: map<nat, State>,
                     done: seq<nat>)
    requires Searching(g, dag, visit, done, []) && |successors| == |g| && Tight(g, dag, [], done)
    requires forall q :: 0 <= q < |g| && successors[q] == [] ==> q in done
    ensures forall p: nat, q :: p < |g| && SinkReaches(g, successors, p) ==>
              q in g[p] && q !in dag[p] ==> Reaches(dag, q, p)
  {
    forall p: nat, q | p < |g| && SinkReaches(g, successors, p) && q in g[p] && q !in dag[p]
      ensures Reaches(dag, q, p)
    {
      SinkIsDone(g, successors, dag, visit, done, p);
      EndsTight(g, dag, done, p, q);
    }
  }

  lemma SinkIsDone(g: seq<seq<nat>>, successors: seq<seq<nat>>, dag: seq<seq<nat>>, visit: map<nat, State>,
                   done: seq<nat>, p: nat)
    requires Searching(g, dag, visit, done, []) && |successors| == |g| && p < |g| && SinkReaches(g, successors, p)
    requires forall q :: 0 <= q < |g| && successors[q] == [] ==> q in done
    ensures p in done && Finished(g, dag, done, [], p)
  {
    var sink :| 0 <= sink < |successors| && successors[sink] == [] && Reaches(g, sink, p);
    var path :| PathFrom(g, path, sink, p);
    forall q | q in done ensures q < |g| && forall r :: r in g[q] ==> r in done {
      assert Finished(g, dag, done, [], q);
    }
    ClosedReaches(g, done, path);
  }

  /** After the search. */
  lemma SearchEnds(g: seq<seq<nat>>, successors: seq<seq<nat>>, dag: seq<seq<nat>>, visit: map<nat, State>,
                   done: seq<nat>)
    requires Searching(g, dag, visit, done, []) && |successors| == |g|
    requires forall q :: 0 <= q < |g| && successors[q] == [] ==> q in done
    requires forall q :: q in done ==> SinkReaches(g, successors, q)
    ensures forall p: nat :: p < |g| ==>
              if SinkReaches(g, successors, p) then Kept(g, p, g[p], dag[p]) else dag[p] == []
    ensures Acyclic(dag)
    ensures Acyclic(g) ==> forall p: nat :: p < |g| && SinkReaches(g, successors, p) ==> dag[p] == g[p]
  {
    forall p: nat | p < |g| && SinkReaches(g, successors, p) ensures p in done && Finished(g, dag, done, [], p) {
      SinkIsDone(g, successors, dag, visit, done, p);
    }
    DistinctSplit(done, []);
    forall p, q | 0 <= p < |dag| && q in dag[p] ensures Precedes(done, q, p) {
      assert p in done && Finished(g, dag, done, [], p);
    }
    OrderedIsAcyclic(dag, done);
    if Acyclic(g) {
      forall p: nat | p < |g| && SinkReaches(g, successors, p) ensures dag[p] == g[p] {
        forall q | q in g[p] ensures !Reaches(g, q, p) {
          if Reaches(g, q, p) {
            LinkBack(g, q, p);
          }
        }
        KeptAll(g, p, g[p], dag[p]);
      }
    }
  }
}
