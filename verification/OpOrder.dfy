/** All operators of a graph, producers first. */
module OpOrder {
  import opened Paths
  import opened PassDag
  import opened Folding
  import opened Sequences

  /** Missing inputs are None in the source. */
  datatype Input = Missing | Tensor(id: nat)

  /** The producers of the tensors among inputs. */
  function ProducersOf(inputs: seq<Input>, producers: seq<seq<nat>>): seq<nat> {
    if inputs == [] then []
    else
      var last := inputs[|inputs| - 1];
      ProducersOf(inputs[..|inputs| - 1], producers)
      + if last.Tensor? && last.id < |producers| then producers[last.id] else []
  }

  lemma {:induction false} ProducerOfInput(inputs: seq<Input>, producers: seq<seq<nat>>, q: nat)
    ensures q in ProducersOf(inputs, producers)
            <==>
            exists k :: 0 <= k < |inputs| && inputs[k].Tensor? && inputs[k].id < |producers|
                        && q in producers[inputs[k].id]
  {
    if inputs != [] {
      var init, last := inputs[..|inputs| - 1], inputs[|inputs| - 1];
      ProducerOfInput(init, producers, q);
      if k :| 0 <= k < |init| && init[k].Tensor? && init[k].id < |producers| && q in producers[init[k].id] {
        assert inputs[k] == init[k];
      }
      if k :| 0 <= k < |inputs| && inputs[k].Tensor? && inputs[k].id < |producers| && q in producers[inputs[k].id] {
        assert k < |init| ==> inputs[k] == init[k];
      }
    }
  }

  /** The dependencies of the operators. */
  function OpGraph(inputs: seq<seq<Input>>, producers: seq<seq<nat>>): (g: seq<seq<nat>>)
    ensures |g| == |inputs|
    ensures forall p :: 0 <= p < |g| ==> g[p] == ProducersOf(inputs[p], producers)
  {
    seq(|inputs|, p requires 0 <= p < |inputs| => ProducersOf(inputs[p], producers))
  }

  /** An operator of the list: the tensors it reads have been visited. */
  ghost predicate Listed(inputs: seq<seq<Input>>, tensors: set<nat>, p: nat)
    requires p < |inputs|
  {
    forall k :: 0 <= k < |inputs[p]| && inputs[p][k].Tensor? ==> inputs[p][k].id in tensors
  }

  /** A visited tensor: its producers are listed or being visited. */
  ghost predicate Covered(producers: seq<seq<nat>>, ops: seq<nat>, stack: seq<nat>, t: nat)
    requires t < |producers|
  {
    forall q :: q in producers[t] ==> q in ops || q in stack
  }

  /** Producers of what p reads come before p. */
  ghost predicate ProducersFirst(g: seq<seq<nat>>, ops: seq<nat>, p: nat)
    requires p < |g|
  {
    forall q :: q in g[p] ==> Precedes(ops, q, p)
  }

  ghost predicate IsOpGraph(inputs: seq<seq<Input>>, producers: seq<seq<nat>>) {
    && (forall p :: 0 <= p < |inputs| ==> InputsBounded(inputs[p], |producers|))
    && (forall t :: 0 <= t < |producers| ==> Bounded(producers[t], |inputs|))
  }

  predicate InputsBounded(inputs: seq<Input>, n: nat) {
    forall k :: 0 <= k < |inputs| && inputs[k].Tensor? ==> inputs[k].id < n
  }

  /** An output of the graph needs p. */
  ghost predicate FromRoots(g: seq<seq<nat>>, roots: seq<nat>, p: nat) {
    exists r :: r in roots && Reaches(g, r, p)
  }

  /**
   * The invariant of the traversal: `ops` is the list so far, `stack` the operators being visited, and
   * `open` the tensors being visited; the operator being visited for open[i] is stack[i].
   */
  ghost predicate WalkParts(inputs: seq<seq<Input>>, producers: seq<seq<nat>>, roots: seq<nat>, opSet: set<nat>,
                            tensorSet: set<nat>,
                            ops: seq<nat>, stack: seq<nat>, open: seq<nat>) {
    var g := OpGraph(inputs, producers);
    && IsOpGraph(inputs, producers)
    && Distinct(ops + stack) && Bounded(ops, |inputs|) && Bounded(stack, |inputs|) && Bounded(open, |producers|)
    && (stack == [] || Path(g, stack))
    && (forall p: nat :: p in ops || p in stack ==> FromRoots(g, roots, p))
    && (forall p: nat :: p in opSet <==> p in ops || p in stack)
    && (forall t :: t in open ==> t in tensorSet)
    && (forall p: nat :: p < |inputs| && p in ops ==> Listed(inputs, tensorSet, p))
    && (forall t: nat :: t in tensorSet ==> t < |producers| && (t in open || Covered(producers, ops, stack, t)))
    && (Acyclic(g) ==> forall p: nat :: p < |inputs| && p in ops ==> ProducersFirst(g, ops, p))
  }

  ghost predicate Walking(inputs: seq<seq<Input>>, producers: seq<seq<nat>>, roots: seq<nat>, opSet: set<nat>,
                          tensorSet: set<nat>,
                          ops: seq<nat>, stack: seq<nat>, open: seq<nat>) {
    && IsOpGraph(inputs, producers)
    && forall n: int :: Look(n) ==>
         WalkParts(inputs, producers, roots, opSet, tensorSet, ops, stack, open)
  }

  /** stack[i] is visited as a producer of open[i]. */
  ghost predicate Aligned(producers: seq<seq<nat>>, stack: seq<nat>, open: seq<nat>) {
    && |stack| <= |open| && Bounded(open, |producers|)
    && forall i :: 0 <= i < |stack| ==> stack[i] in producers[open[i]]
  }

  /** Operator p may be visited next. */
  ghost predicate Next(g: seq<seq<nat>>, roots: seq<nat>, stack: seq<nat>, p: nat) {
    p < |g| && if stack == [] then p in roots else stack[|stack| - 1] < |g| && p in g[stack[|stack| - 1]]
  }

  lemma NextFromRoots(g: seq<seq<nat>>, roots: seq<nat>, stack: seq<nat>, p: nat)
    requires Next(g, roots, stack, p) && forall q: nat :: q in stack ==> FromRoots(g, roots, q)
    ensures FromRoots(g, roots, p)
  {
    if stack == [] {
      ReachesItself(g, p);
    } else {
      var q := stack[|stack| - 1];
      assert q in stack;
      var r :| r in roots && Reaches(g, r, q);
      ReachesNext(g, r, q, p);
    }
  }

  /** The visit of an operator starts. */
  lemma OpEnters(inputs: seq<seq<Input>>, producers: seq<seq<nat>>, roots: seq<nat>, opSet: set<nat>,
                 tensorSet: set<nat>,
                 ops: seq<nat>, stack: seq<nat>, open: seq<nat>, p: nat)
    requires Walking(inputs, producers, roots, opSet, tensorSet, ops, stack, open)
    requires Next(OpGraph(inputs, producers), roots, stack, p) && p !in opSet
    ensures Walking(inputs, producers, roots, opSet + {p}, tensorSet, ops, stack + [p], open)
  {
    assert Look(0);
    var g, inner := OpGraph(inputs, producers), stack + [p];
    NextFromRoots(g, roots, stack, p);
    DistinctSplit(ops, stack);
    DistinctSplit(stack, [p]);
    DistinctSplit(ops, inner);
    if stack != [] {
      Extends(g, stack, p);
    } else {
      assert inner == [p];
    }
    forall t: nat | t in tensorSet && t !in open ensures t < |producers| && Covered(producers, ops, inner, t) {
      assert Covered(producers, ops, stack, t);
    }
  }

  /** An input of the operator on top that is still being visited closes a cycle. */
  lemma OpenIsCyclic(inputs: seq<seq<Input>>, producers: seq<seq<nat>>, stack: seq<nat>, open: seq<nat>, p: nat, k: nat)
    requires IsOpGraph(inputs, producers) && stack != [] && Path(OpGraph(inputs, producers), stack)
             && stack[|stack| - 1] == p
    requires Aligned(producers, stack, open) && |open| == |stack| && p < |inputs|
    requires k < |inputs[p]| && inputs[p][k].Tensor? && inputs[p][k].id in open
    ensures !Acyclic(OpGraph(inputs, producers))
  {
    var g, t := OpGraph(inputs, producers), inputs[p][k].id;
    var i :| 0 <= i < |open| && open[i] == t;
    SuffixReaches(g, stack, i);
    ProducerOfInput(inputs[p], producers, stack[i]);
    LinkBack(g, stack[i], p);
  }

  /** The visit of an operator ends: it joins the list. */
  lemma OpLeaves(inputs: seq<seq<Input>>, producers: seq<seq<nat>>, roots: seq<nat>, opSet: set<nat>,
                 tensorSet: set<nat>,
                 ops: seq<nat>, stack: seq<nat>, open: seq<nat>, p: nat)
    requires Walking(inputs, producers, roots, opSet, tensorSet, ops, stack + [p], open) && p < |inputs|
    requires Aligned(producers, stack + [p], open) && |open| == |stack| + 1 && Listed(inputs, tensorSet, p)
    ensures Walking(inputs, producers, roots, opSet, tensorSet, ops + [p], stack, open)
  {
    assert Look(0);
    var g, inner, ops' := OpGraph(inputs, producers), stack + [p], ops + [p];
    LeavesOrder(ops, stack, p);
    if stack != [] {
      PrefixPath(g, stack, p);
    }
    forall t: nat | t in tensorSet && t !in open ensures t < |producers| && Covered(producers, ops', stack, t) {
      assert Covered(producers, ops, inner, t);
    }
    if Acyclic(g) {
      forall q: nat | q < |inputs| && q in ops' ensures ProducersFirst(g, ops', q) {
        if q in ops {
          assert ProducersFirst(g, ops, q);
          forall r | r in g[q] ensures Precedes(ops', r, q) {
            PrecedesGrows(ops, [p], r, q);
          }
        } else {
          LastIsAfterProducers(inputs, producers, tensorSet, ops, stack, open, p);
        }
      }
    }
  }

  lemma LastIsAfterProducers(inputs: seq<seq<Input>>, producers: seq<seq<nat>>, tensorSet: set<nat>,
                             ops: seq<nat>, stack: seq<nat>, open: seq<nat>, p: nat)
    requires IsOpGraph(inputs, producers) && Acyclic(OpGraph(inputs, producers))
             && Path(OpGraph(inputs, producers), stack + [p])
    requires Aligned(producers, stack + [p], open) && |open| == |stack| + 1 && p < |inputs|
             && Listed(inputs, tensorSet, p)
    requires forall t: nat :: t in tensorSet ==>
               t < |producers| && (t in open || Covered(producers, ops, stack + [p], t))
    ensures ProducersFirst(OpGraph(inputs, producers), ops + [p], p)
  {
    var g, inner := OpGraph(inputs, producers), stack + [p];
    forall q | q in g[p] ensures Precedes(ops + [p], q, p) {
      ProducerOfInput(inputs[p], producers, q);
      var k :| 0 <= k < |inputs[p]| && inputs[p][k].Tensor? && inputs[p][k].id < |producers|
        && q in producers[inputs[p][k].id];
      var t := inputs[p][k].id;
      if t in open {
        OpenIsCyclic(inputs, producers, inner, open, p, k);
      }
      assert Covered(producers, ops, inner, t);
      if q in inner {
        StackReaches(g, stack, p, q);
        LinkBack(g, q, p);
      }
      EndsWith(ops, q, p);
    }
  }

  /** The visit of a tensor starts. */
  lemma TensorEnters(inputs: seq<seq<Input>>, producers: seq<seq<nat>>, roots: seq<nat>, opSet: set<nat>,
                     tensorSet: set<nat>,
                     ops: seq<nat>, stack: seq<nat>, open: seq<nat>, t: nat)
    requires Walking(inputs, producers, roots, opSet, tensorSet, ops, stack, open) && t < |producers|
    ensures Walking(inputs, producers, roots, opSet, tensorSet + {t}, ops, stack, open + [t])
  {
    assert Look(0);
    forall p: nat | p < |inputs| && p in ops ensures Listed(inputs, tensorSet + {t}, p) {
      assert Listed(inputs, tensorSet, p);
    }
  }

  /** The visit of a tensor ends: its producers have been visited. */
  lemma TensorLeaves(inputs: seq<seq<Input>>, producers: seq<seq<nat>>, roots: seq<nat>, opSet: set<nat>,
                     tensorSet: set<nat>,
                     ops: seq<nat>, stack: seq<nat>, open: seq<nat>, t: nat)
    requires Walking(inputs, producers, roots, opSet, tensorSet, ops, stack, open + [t]) && t < |producers|
    requires Covered(producers, ops, stack, t)
    ensures Walking(inputs, producers, roots, opSet, tensorSet, ops, stack, open)
  {
    assert Look(0);
    forall i | 0 <= i < |open| ensures open[i] < |producers| && open[i] in tensorSet {
      assert open[i] == (open + [t])[i] && open[i] in open + [t];
    }
    forall u: nat | u in tensorSet ensures u < |producers| && (u in open || Covered(producers, ops, stack, u)) {
      assert u in open + [t] ==> u in open || u == t;
    }
  }

  /** There are at most n numbers below n. */
  lemma {:induction false} SetAtMost(s: set<nat>, n: nat)
    requires forall x :: x in s ==> x < n
    ensures |s| <= n
  {
    if n > 0 {
      SetAtMost(s - {n - 1}, n - 1);
      assert n - 1 !in s ==> s - {n - 1} == s;
    } else {
      assert s == {};
    }
  }

  /** What was listed since depends on a producer of the input. */
  ghost predicate NewFromInput(inputs: seq<seq<Input>>, producers: seq<seq<nat>>, before: seq<nat>, ops: seq<nat>,
                               tens: Input) {
    forall q :: q in ops ==>
      q in before
      || (tens.Tensor? && tens.id < |producers| && FromRoots(OpGraph(inputs, producers), producers[tens.id], q))
  }

  lemma NewThroughInput(inputs: seq<seq<Input>>, producers: seq<seq<nat>>, before: seq<nat>, mid: seq<nat>,
                        ops: seq<nat>, p: nat, k: nat)
    requires IsOpGraph(inputs, producers) && p < |inputs| && k < |inputs[p]|
    requires NewFrom(OpGraph(inputs, producers), before, mid, p)
    requires NewFromInput(inputs, producers, mid, ops, inputs[p][k])
    ensures NewFrom(OpGraph(inputs, producers), before, ops, p)
  {
    var g, tens := OpGraph(inputs, producers), inputs[p][k];
    forall q | q in ops ensures q in before || Reaches(g, p, q) {
      if q !in mid {
        var r :| r in producers[tens.id] && Reaches(g, r, q);
        ProducerOfInput(inputs[p], producers, r);
        ReachesThrough(g, p, r, q);
      }
    }
  }

  lemma NewFromProducer(inputs: seq<seq<Input>>, producers: seq<seq<nat>>, before: seq<nat>, mid: seq<nat>,
                        ops: seq<nat>, tens: Input, j: nat)
    requires tens.Tensor? && tens.id < |producers| && j < |producers[tens.id]|
    requires NewFromInput(inputs, producers, before, mid, tens)
    requires NewFrom(OpGraph(inputs, producers), mid, ops, producers[tens.id][j])
    ensures NewFromInput(inputs, producers, before, ops, tens)
  {
    var r := producers[tens.id][j];
    forall q | q in ops && q !in before ensures FromRoots(OpGraph(inputs, producers), producers[tens.id], q) {
      if q !in mid {
        assert r in producers[tens.id] && Reaches(OpGraph(inputs, producers), r, q);
      }
    }
  }

  /** The operators listed are those that some outputs need. */
  ghost predicate ListsFirst(inputs: seq<seq<Input>>, producers: seq<seq<nat>>, outputs: seq<Input>, ops: seq<nat>) {
    forall p: nat :: p in ops <==> FromRoots(OpGraph(inputs, producers), ProducersOf(outputs, producers), p)
  }

  lemma NothingListed(inputs: seq<seq<Input>>, producers: seq<seq<nat>>, outputs: seq<Input>)
    ensures ListsFirst(inputs, producers, outputs[..0], [])
  {
    assert outputs[..0] == [] && ProducersOf([], producers) == [];
  }

  /** The next output adds what it needs. */
  lemma NextListed(inputs: seq<seq<Input>>, producers: seq<seq<nat>>, roots: seq<nat>, opSet: set<nat>,
                   tensorSet: set<nat>, outputs: seq<Input>, before: seq<nat>, ops: seq<nat>, k: nat)
    requires Walking(inputs, producers, roots, opSet, tensorSet, ops, [], []) && k < |outputs|
    requires ListsFirst(inputs, producers, outputs[..k], before) && before <= ops
    requires NewFromInput(inputs, producers, before, ops, outputs[k])
    requires forall i :: 0 <= i <= k && outputs[i].Tensor? ==> outputs[i].id in tensorSet
    ensures ListsFirst(inputs, producers, outputs[..k + 1], ops)
  {
    var g, first := OpGraph(inputs, producers), ProducersOf(outputs[..k + 1], producers);
    assert outputs[..k + 1][..k] == outputs[..k] && outputs[..k + 1][k] == outputs[k];
    forall p: nat | p in ops ensures FromRoots(g, first, p) {
      if p in before {
        var r :| r in ProducersOf(outputs[..k], producers) && Reaches(g, r, p);
        assert r in first;
      } else {
        var r :| r in producers[outputs[k].id] && Reaches(g, r, p);
        assert r in first;
      }
    }
    forall p: nat | FromRoots(g, first, p) ensures p in ops {
      NeededIsListed(inputs, producers, roots, opSet, tensorSet, outputs[..k + 1], ops, p);
    }
  }

  /** What visited outputs need is listed. */
  lemma NeededIsListed(inputs: seq<seq<Input>>, producers: seq<seq<nat>>, roots: seq<nat>, opSet: set<nat>,
                       tensorSet: set<nat>, outputs: seq<Input>, ops: seq<nat>, p: nat)
    requires Walking(inputs, producers, roots, opSet, tensorSet, ops, [], [])
    requires forall i :: 0 <= i < |outputs| && outputs[i].Tensor? ==> outputs[i].id in tensorSet
    requires FromRoots(OpGraph(inputs, producers), ProducersOf(outputs, producers), p)
    ensures p in ops
  {
    assert Look(0);
    var g := OpGraph(inputs, producers);
    forall p | p in ops ensures p < |g| && forall q :: q in g[p] ==> q in ops {
      assert Listed(inputs, tensorSet, p);
      forall q | q in g[p] ensures q in ops {
        ProducerVisited(inputs[p], producers, tensorSet, ops, q);
      }
    }
    var r :| r in ProducersOf(outputs, producers) && Reaches(g, r, p);
    ProducerVisited(outputs, producers, tensorSet, ops, r);
    var path :| PathFrom(g, path, r, p);
    ClosedReaches(g, ops, path);
  }

  /** Up to cuts[i] there is what the first i outputs need. */
  ghost predicate CutsAt(inputs: seq<seq<Input>>, producers: seq<seq<nat>>, outputs: seq<Input>, ops: seq<nat>,
                         cuts: seq<nat>) {
    && |cuts| <= |outputs| + 1
    && forall i :: 0 <= i < |cuts| ==>
         cuts[i] <= |ops| && ListsFirst(inputs, producers, outputs[..i], ops[..cuts[i]])
  }

  lemma NextCut(inputs: seq<seq<Input>>, producers: seq<seq<nat>>, outputs: seq<Input>, before: seq<nat>,
                ops: seq<nat>, cuts: seq<nat>)
    requires before <= ops && |cuts| <= |outputs| && CutsAt(inputs, producers, outputs, before, cuts)
    requires ListsFirst(inputs, producers, outputs[..|cuts|], ops)
    ensures CutsAt(inputs, producers, outputs, ops, cuts + [|ops|])
  {
    var cuts' := cuts + [|ops|];
    forall i | 0 <= i < |cuts'|
      ensures cuts'[i] <= |ops| && ListsFirst(inputs, producers, outputs[..i], ops[..cuts'[i]])
    {
      if i < |cuts| {
        assert ops[..cuts[i]] == before[..cuts[i]];
      } else {
        assert ops[..|ops|] == ops;
      }
    }
  }

  class Subgraph {
    const inputs: seq<seq<Input>>
    const producers: seq<seq<nat>>
    const outputTensors: seq<Input>
    var allOps: seq<nat>
    var visitOpSet: set<nat>
    var visitTensorSet: set<nat>

    constructor (inputs: seq<seq<Input>>, producers: seq<seq<nat>>, outputTensors: seq<Input>)
      ensures this.inputs == inputs && this.producers == producers && this.outputTensors == outputTensors
    {
      this.inputs, this.producers, this.outputTensors := inputs, producers, outputTensors;
      allOps, visitOpSet, visitTensorSet := [], {}, {};
    }

    ghost function Graph(): seq<seq<nat>> {
      OpGraph(inputs, producers)
    }

    ghost function Roots(): seq<nat> {
      ProducersOf(outputTensors, producers)
    }

    ghost predicate Valid(stack: seq<nat>, open: seq<nat>)
      reads this
    {
      Walking(inputs, producers, Roots(), visitOpSet, visitTensorSet, allOps, stack, open)
        && Aligned(producers, stack, open)
    }

    /** What is left to visit. */
    ghost function Measure(stack: seq<nat>): int
      reads this
    {
      |inputs| - |allOps| - |stack| + |producers| - |visitTensorSet|
    }

    lemma MeasureBounds(stack: seq<nat>, open: seq<nat>)
      requires Valid(stack, open)
      ensures |allOps| + |stack| <= |inputs| && |visitTensorSet| <= |producers|
    {
      assert Look(0);
      RoomLeft(allOps, stack, |inputs|);
      SetAtMost(visitTensorSet, |producers|);
    }

    method VisitOp(p: nat, ghost stack: seq<nat>, ghost open: seq<nat>)
      requires Valid(stack, open) && |open| == |stack| + 1 && p in producers[open[|stack|]]
      requires Next(Graph(), Roots(), stack, p)
      modifies this
      ensures Valid(stack, open) && old(allOps) <= allOps && old(visitTensorSet) <= visitTensorSet
      ensures p in allOps || p in stack
      ensures NewFrom(Graph(), old(allOps), allOps, p)
      decreases Measure(stack), 1
    {
      if p in visitOpSet {
        assert Look(0);
        return;
      }
      ghost var tensors := visitTensorSet;
      OpEnters(inputs, producers, Roots(), visitOpSet, visitTensorSet, allOps, stack, open, p);
      visitOpSet := visitOpSet + {p};
      ghost var inner := stack + [p];
      MeasureBounds(inner, open);
      var k := 0;
      while k < |inputs[p]|
        invariant 0 <= k <= |inputs[p]| && Valid(inner, open)
        invariant old(allOps) <= allOps && old(visitTensorSet) <= visitTensorSet
        invariant forall i :: 0 <= i < k && inputs[p][i].Tensor? ==> inputs[p][i].id in visitTensorSet
        invariant NewFrom(Graph(), old(allOps), allOps, p)
      {
        SubsetSize(tensors, visitTensorSet);
        ghost var mid := allOps;
        VisitTensor(inputs[p][k], k, inner, open);
        NewThroughInput(inputs, producers, old(allOps), mid, allOps, p, k);
        k := k + 1;
      }
      ReachesItself(Graph(), p);
      OpLeaves(inputs, producers, Roots(), visitOpSet, visitTensorSet, allOps, stack, open, p);
      allOps := allOps + [p];
    }

    /** The k-th input of the operator on top, or the k-th output of the graph. */
    ghost predicate IsInput(tens: Input, k: nat, stack: seq<nat>) {
      if stack == [] then k < |outputTensors| && tens == outputTensors[k]
      else
        var p := stack[|stack| - 1];
        p < |inputs| && k < |inputs[p]| && tens == inputs[p][k]
    }

    /** Visits the k-th input of the operator on top, or the k-th output of the graph. */
    method VisitTensor(tens: Input, ghost k: nat, ghost stack: seq<nat>, ghost open: seq<nat>)
      requires Valid(stack, open) && |open| == |stack|
      requires IsInput(tens, k, stack) && (stack == [] ==> InputsBounded(outputTensors, |producers|))
      modifies this
      ensures Valid(stack, open) && old(allOps) <= allOps && old(visitTensorSet) <= visitTensorSet
      ensures tens.Tensor? ==> tens.id in visitTensorSet
      ensures NewFromInput(inputs, producers, old(allOps), allOps, tens)
      decreases Measure(stack), 0
    {
      if tens.Missing? || tens.id in visitTensorSet {
        return;
      }
      var t := tens.id;
      MeasureBounds(stack, open);
      ghost var tensors := visitTensorSet;
      assert t < |producers| by {
        assert stack != [] ==> InputsBounded(inputs[stack[|stack| - 1]], |producers|);
      }
      TensorEnters(inputs, producers, Roots(), visitOpSet, visitTensorSet, allOps, stack, open, t);
      visitTensorSet := visitTensorSet + {t};
      ghost var inner := open + [t];
      var j := 0;
      while j < |producers[t]|
        invariant 0 <= j <= |producers[t]| && Valid(stack, inner)
        invariant old(allOps) <= allOps && old(visitTensorSet) + {t} <= visitTensorSet
        invariant forall i :: 0 <= i < j ==> producers[t][i] in allOps || producers[t][i] in stack
        invariant NewFromInput(inputs, producers, old(allOps), allOps, tens)
      {
        ProducerIsNext(tens, k, stack, j);
        SubsetSize(tensors + {t}, visitTensorSet);
        ghost var mid := allOps;
        VisitOp(producers[t][j], stack, inner);
        NewFromProducer(inputs, producers, old(allOps), mid, allOps, tens, j);
        j := j + 1;
      }
      TensorLeaves(inputs, producers, Roots(), visitOpSet, visitTensorSet, allOps, stack, open, t);
    }

    lemma ProducerIsNext(tens: Input, k: nat, stack: seq<nat>, j: nat)
      requires IsOpGraph(inputs, producers) && tens.Tensor? && tens.id < |producers| && j < |producers[tens.id]|
      requires IsInput(tens, k, stack)
      ensures Next(Graph(), Roots(), stack, producers[tens.id][j])
    {
      var q := producers[tens.id][j];
      assert Bounded(producers[tens.id], |inputs|);
      ProducerOfInput(if stack == [] then outputTensors else inputs[stack[|stack| - 1]], producers, q);
    }

    /**
     * Lists every operator that an output needs, exactly once; in a graph without cycles the producers
     * of what it reads come first. The operators that the first k outputs need come before all others.
     */
    method GetAllOps() returns (ops: seq<nat>, ghost cuts: seq<nat>)
      requires IsOpGraph(inputs, producers) && InputsBounded(outputTensors, |producers|)
      modifies this
      ensures Distinct(ops)
      ensures forall p: nat :: p in ops <==> FromRoots(Graph(), Roots(), p)
      ensures Acyclic(Graph()) ==> forall p :: p in ops ==> p < |inputs| && ProducersFirst(Graph(), ops, p)
      ensures |cuts| == |outputTensors| + 1
      ensures forall k :: 0 <= k < |cuts| ==>
                cuts[k] <= |ops| && ListsFirst(inputs, producers, outputTensors[..k], ops[..cuts[k]])
    {
      allOps, visitOpSet, visitTensorSet := [], {}, {};
      var k := 0;
      cuts := [0];
      NothingListed(inputs, producers, outputTensors);
      while k < |outputTensors|
        invariant 0 <= k <= |outputTensors| && Valid([], []) && |cuts| == k + 1
        invariant forall i :: 0 <= i < k && outputTensors[i].Tensor? ==> outputTensors[i].id in visitTensorSet
        invariant ListsFirst(inputs, producers, outputTensors[..k], allOps)
        invariant CutsAt(inputs, producers, outputTensors, allOps, cuts)
      {
        ghost var before := allOps;
        VisitTensor(outputTensors[k], k, [], []);
        NextListed(inputs, producers, Roots(), visitOpSet, visitTensorSet, outputTensors, before, allOps, k);
        NextCut(inputs, producers, outputTensors, before, allOps, cuts);
        cuts := cuts + [|allOps|];
        k := k + 1;
      }
      ops := allOps;
      WalkEnds(inputs, producers, outputTensors, visitOpSet, visitTensorSet, ops);
    }
  }

  lemma WalkEnds(inputs: seq<seq<Input>>, producers: seq<seq<nat>>, outputs: seq<Input>, opSet: set<nat>,
                 tensorSet: set<nat>, ops: seq<nat>)
    requires Walking(inputs, producers, ProducersOf(outputs, producers), opSet, tensorSet, ops, [], [])
    requires forall i :: 0 <= i < |outputs| && outputs[i].Tensor? ==> outputs[i].id in tensorSet
    ensures Distinct(ops)
    ensures forall p: nat :: p in ops <==> FromRoots(OpGraph(inputs, producers), ProducersOf(outputs, producers), p)
    ensures Acyclic(OpGraph(inputs, producers)) ==>
              forall p :: p in ops ==> p < |inputs| && ProducersFirst(OpGraph(inputs, producers), ops, p)
  {
    assert Look(0);
    var g, roots := OpGraph(inputs, producers), ProducersOf(outputs, producers);
    DistinctSplit(ops, []);
    forall p: nat | FromRoots(g, roots, p) ensures p in ops {
      NeededIsListed(inputs, producers, roots, opSet, tensorSet, outputs, ops, p);
    }
  }

  lemma ProducerVisited(inputs: seq<Input>, producers: seq<seq<nat>>, tensorSet: set<nat>, ops: seq<nat>, q: nat)
    requires q in ProducersOf(inputs, producers)
    requires forall k :: 0 <= k < |inputs| && inputs[k].Tensor? ==> inputs[k].id in tensorSet
    requires forall t: nat :: t in tensorSet ==> t < |producers| && Covered(producers, ops, [], t)
    ensures q in ops
  {
    ProducerOfInput(inputs, producers, q);
  }
}
