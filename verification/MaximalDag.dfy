/** Why a depth-first search drops no more links than it has to: each one dropped would close a cycle of those kept. */
module MaximalDag {
  import opened Paths
  import opened Sequences
  import opened Folding

  /** h has the links of g, and maybe more. */
  ghost predicate Within(g: seq<seq<nat>>, h: seq<seq<nat>>) {
    && |g| == |h|
    && forall p, q :: 0 <= p < |g| && q in g[p] ==> q in h[p]
  }

  lemma ReachesWithin(g: seq<seq<nat>>, h: seq<seq<nat>>, a: nat, b: nat)
    requires Within(g, h) && Reaches(g, a, b)
    ensures Reaches(h, a, b)
  {
    var path :| PathFrom(g, path, a, b);
    forall i | 0 <= i < |path| - 1 ensures LinkAt(h, path, i) {
      assert LinkAt(g, path, i);
    }
    assert PathFrom(h, path, a, b);
  }

  /** The links that are kept, with those from each node on the stack to the next, which will be. */
  ghost function Pending(dag: seq<seq<nat>>, stack: seq<nat>): (h: seq<seq<nat>>)
    requires Bounded(stack, |dag|)
    ensures |h| == |dag|
  {
    if |stack| < 2 then dag
    else
      var n := |stack|;
      assert stack[n - 2] < |dag|;
      var h := Pending(dag, stack[..n - 1]);
      h[stack[n - 2] := h[stack[n - 2]] + [stack[n - 1]]]
  }

  lemma PendingPush(dag: seq<seq<nat>>, stack: seq<nat>, p: nat)
    requires Bounded(stack + [p], |dag|)
    ensures Bounded(stack, |dag|) && Within(Pending(dag, stack), Pending(dag, stack + [p]))
    ensures stack != [] ==> p in Pending(dag, stack + [p])[stack[|stack| - 1]]
  {
    var all := stack + [p];
    forall k | 0 <= k < |stack| ensures stack[k] < |dag| {
      assert stack[k] == all[k];
    }
    assert all[..|all| - 1] == stack;
  }

  lemma {:induction false} PendingGrows(dag: seq<seq<nat>>, dag': seq<seq<nat>>, stack: seq<nat>)
    requires Within(dag, dag') && Bounded(stack, |dag|)
    ensures Within(Pending(dag, stack), Pending(dag', stack)) && Within(dag, Pending(dag, stack))
    decreases |stack|
  {
    if |stack| >= 2 {
      PendingGrows(dag, dag', stack[..|stack| - 1]);
    }
  }

  lemma {:induction false} PendingLink(dag: seq<seq<nat>>, stack: seq<nat>, i: nat)
    requires Bounded(stack, |dag|) && i < |stack| - 1
    ensures stack[i + 1] in Pending(dag, stack)[stack[i]]
    decreases |stack|
  {
    var below := stack[..|stack| - 1];
    if i < |stack| - 2 {
      PendingLink(dag, below, i);
      assert below[i] == stack[i] && below[i + 1] == stack[i + 1];
    }
  }

  /** A node on the stack reaches the one on top of it. */
  lemma PendingReaches(dag: seq<seq<nat>>, stack: seq<nat>, q: nat)
    requires Bounded(stack, |dag|) && q in stack
    ensures Reaches(Pending(dag, stack), q, stack[|stack| - 1])
  {
    var h := Pending(dag, stack);
    var i :| 0 <= i < |stack| && stack[i] == q;
    forall k | 0 <= k < |stack| - 1 ensures LinkAt(h, stack, k) {
      PendingLink(dag, stack, k);
    }
    SuffixReaches(h, stack, i);
  }

  /** The links ps of p are kept, or close a cycle of those that are or will be. */
  ghost predicate TightAt(dag: seq<seq<nat>>, stack: seq<nat>, ps: seq<nat>, p: nat)
    requires Bounded(stack, |dag|) && p < |dag|
  {
    forall q :: q in ps ==> q in dag[p] || Reaches(Pending(dag, stack), q, p)
  }

  ghost predicate TightParts(g: seq<seq<nat>>, dag: seq<seq<nat>>, stack: seq<nat>, done: seq<nat>) {
    && |g| == |dag| && Bounded(stack, |dag|)
    && forall p :: p in done ==> p < |g| && TightAt(dag, stack, g[p], p)
  }

  /** That is so of every node that is done. */
  ghost predicate Tight(g: seq<seq<nat>>, dag: seq<seq<nat>>, stack: seq<nat>, done: seq<nat>) {
    forall n: int :: Look(n) ==> TightParts(g, dag, stack, done)
  }

  lemma TightAtGrows(dag: seq<seq<nat>>, stack: seq<nat>, dag': seq<seq<nat>>, stack': seq<nat>, ps: seq<nat>, p: nat)
    requires Bounded(stack, |dag|) && p < |dag| && TightAt(dag, stack, ps, p)
    requires Within(dag, dag') && Bounded(stack', |dag'|) && Within(Pending(dag, stack), Pending(dag', stack'))
    ensures TightAt(dag', stack', ps, p)
  {
    forall q | q in ps ensures q in dag'[p] || Reaches(Pending(dag', stack'), q, p) {
      if q !in dag[p] {
        ReachesWithin(Pending(dag, stack), Pending(dag', stack'), q, p);
      }
    }
  }

  lemma TightGrows(g: seq<seq<nat>>, dag: seq<seq<nat>>, stack: seq<nat>, dag': seq<seq<nat>>, stack': seq<nat>,
                   done: seq<nat>)
    requires Tight(g, dag, stack, done) && Bounded(stack, |dag|)
    requires Within(dag, dag') && Bounded(stack', |dag'|) && Within(Pending(dag, stack), Pending(dag', stack'))
    ensures Tight(g, dag', stack', done)
  {
    assert Look(0);
    forall p | p in done ensures p < |g| && TightAt(dag', stack', g[p], p) {
      TightAtGrows(dag, stack, dag', stack', g[p], p);
    }
  }

  lemma StaysTight(dag: seq<seq<nat>>, dag': seq<seq<nat>>, stack: seq<nat>, ps: seq<nat>, p: nat)
    requires Bounded(stack, |dag|) && p < |dag| && TightAt(dag, stack, ps, p) && Within(dag, dag')
    ensures TightAt(dag', stack, ps, p)
  {
    PendingGrows(dag, dag', stack);
    TightAtGrows(dag, stack, dag', stack, ps, p);
  }

  /** Another node on the stack only adds a link. */
  lemma VisitedAlready(g: seq<seq<nat>>, dag: seq<seq<nat>>, stack: seq<nat>, done: seq<nat>, p: nat)
    requires Tight(g, dag, stack, done) && |g| == |dag| && Bounded(stack, |dag|) && p < |dag|
    ensures Tight(g, dag, stack + [p], done)
  {
    PendingPush(dag, stack, p);
    TightGrows(g, dag, stack, dag, stack + [p], done);
  }

  lemma OneOnStack(g: seq<seq<nat>>, dag: seq<seq<nat>>, done: seq<nat>, p: nat)
    requires |g| == |dag| && p < |dag| && (Tight(g, dag, [] + [p], done) || Tight(g, dag, [], done))
    ensures Tight(g, dag, [], done)
  {
    assert [] + [p] == [p];
    if !Tight(g, dag, [], done) {
      TightGrows(g, dag, [p], dag, [], done);
    }
  }

  lemma StartsTight(g: seq<seq<nat>>, dag: seq<seq<nat>>)
    requires |g| == |dag|
    ensures Tight(g, dag, [], [])
  {
  }

  /** A node without links of its own goes on the stack. */
  lemma EntersTight(g: seq<seq<nat>>, dag: seq<seq<nat>>, stack: seq<nat>, done: seq<nat>, p: nat)
    requires Tight(g, dag, stack, done) && Bounded(stack + [p], |dag|) && p < |dag| && dag[p] == []
    ensures Within(dag, dag[p := []])
    ensures Tight(g, dag[p := []], stack + [p], done) && TightAt(dag[p := []], stack + [p], [], p)
  {
    assert dag[p := []] == dag;
    PendingPush(dag, stack, p);
    TightGrows(g, dag, stack, dag, stack + [p], done);
  }

  /** The link of the node on top of the stack to one that is done is kept. */
  lemma KeepsTight(g: seq<seq<nat>>, dag: seq<seq<nat>>, stack: seq<nat>, done: seq<nat>, p: nat, q: nat)
    requires stack != [] && stack[|stack| - 1] == p && Bounded(stack + [q], |dag|)
    requires Tight(g, dag, stack + [q], done)
    ensures p < |dag| && Bounded(stack, |dag|)
    ensures Tight(g, dag[p := dag[p] + [q]], stack, done) && Within(dag, dag[p := dag[p] + [q]])
    ensures Within(Pending(dag, stack), Pending(dag[p := dag[p] + [q]], stack))
  {
    PendingPush(dag, stack, q);
    assert p < |dag|;
    var dag' := dag[p := dag[p] + [q]];
    PendingGrows(dag, dag', stack);
    PendingGrows(dag', dag', stack);
    var all := stack + [q];
    assert all[..|all| - 1] == stack;
    assert Within(Pending(dag, all), Pending(dag', stack));
    TightGrows(g, dag, all, dag', stack, done);
  }

  lemma TightAtKeeps(dag: seq<seq<nat>>, stack: seq<nat>, ps: seq<nat>, p: nat, q: nat)
    requires Bounded(stack, |dag|) && p < |dag| && TightAt(dag, stack, ps, p)
    ensures TightAt(dag[p := dag[p] + [q]], stack, ps + [q], p)
  {
    var dag' := dag[p := dag[p] + [q]];
    PendingGrows(dag, dag', stack);
    TightAtGrows(dag, stack, dag', stack, ps, p);
  }

  /** A link back to the stack is dropped. */
  lemma TightAtDrops(dag: seq<seq<nat>>, stack: seq<nat>, ps: seq<nat>, p: nat, q: nat)
    requires Bounded(stack, |dag|) && p < |dag| && TightAt(dag, stack, ps, p)
    requires stack != [] && stack[|stack| - 1] == p && q in stack
    ensures TightAt(dag, stack, ps + [q], p)
  {
    PendingReaches(dag, stack, q);
  }

  /** The node on top of the stack is done. */
  lemma LeavesTight(g: seq<seq<nat>>, dag: seq<seq<nat>>, stack: seq<nat>, done: seq<nat>, p: nat)
    requires Tight(g, dag, stack, done) && |g| == |dag| && p < |g| && Bounded(stack, |dag|)
    requires TightAt(dag, stack, g[p], p)
    ensures Tight(g, dag, stack, done + [p])
  {
    assert Look(0);
  }

  /** At the end every link that was dropped would close a cycle of those kept. */
  lemma EndsTight(g: seq<seq<nat>>, dag: seq<seq<nat>>, done: seq<nat>, p: nat, q: nat)
    requires Tight(g, dag, [], done) && p in done
    ensures p < |g| == |dag| && (q in g[p] ==> q in dag[p] || Reaches(dag, q, p))
  {
    assert Look(0);
  }
}
