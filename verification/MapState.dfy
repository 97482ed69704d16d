/** The state of an ordered map as a value, and what each operation does to it. */
module MapState {
  import opened OrderLinks
  import opened HashChains
  import opened Folding
  import opened Sequences

  ghost predicate InStore(order: seq<nat>, size: nat) {
    forall k :: 0 <= k < |order| ==> order[k] < size
  }

  /** What the map stands for: its pairs in insertion order. */
  function Entries<K, V>(nodes: seq<Node<K, V>>, order: seq<nat>): (es: seq<(K, V)>)
    requires InStore(order, |nodes|)
    ensures |es| == |order|
    ensures forall k :: 0 <= k < |order| ==> es[k] == (nodes[order[k]].key, nodes[order[k]].value)
  {
    seq(|order|, k requires 0 <= k < |order| => (nodes[order[k]].key, nodes[order[k]].value))
  }

  ghost predicate Holds<K, V>(es: seq<(K, V)>, key: K) {
    exists k :: 0 <= k < |es| && es[k].0 == key
  }

  ghost predicate DistinctKeys<K, V>(es: seq<(K, V)>) {
    forall i, j :: 0 <= i < j < |es| ==> es[i].0 != es[j].0
  }

  /** The used slots are those in the list. */
  ghost predicate InUse<K, V>(nodes: seq<Node<K, V>>, order: seq<nat>) {
    && InStore(order, |nodes|)
    && forall s: nat :: s < |nodes| ==> (nodes[s].Used() <==> s in order)
  }

  /** The order list, the chains and the used slots fit together. */
  ghost predicate FitsTogether<K, V>(l: Links<K, V>, tableSize: nat, hash: K -> nat, order: seq<nat>,
                                     chains: seq<seq<nat>>) {
    && Threaded(l, order)
    && InUse(l.nodes, order)
    && Chained(l.nodes, tableSize, hash, chains)
    && DistinctKeys(Entries(l.nodes, order))
  }

  /** The invariant. Its parts are visible only to a proof that looks. */
  ghost predicate Wired<K, V>(l: Links<K, V>, tableSize: nat, hash: K -> nat, order: seq<nat>, chains: seq<seq<nat>>) {
    && InStore(order, |l.nodes|) && |chains| == tableSize <= |l.nodes|
    && forall n: int :: Look(n) ==> FitsTogether(l, tableSize, hash, order, chains)
  }

  /** The list depends on the order links only. */
  lemma ThreadedByLinks<K, V>(a: Links<K, V>, b: Links<K, V>, order: seq<nat>)
    requires Threaded(a, order) && a.begin == b.begin && a.last == b.last && |a.nodes| == |b.nodes|
    requires forall s: nat :: s < |a.nodes| && s in order ==>
               a.nodes[s].orderNext == b.nodes[s].orderNext && a.nodes[s].orderPrev == b.nodes[s].orderPrev
    ensures Threaded(b, order)
  {
    forall k | 0 <= k < |order| ensures LinkedAt(b.nodes, order, k) {
      assert LinkedAt(a.nodes, order, k);
      assert order[k] in order;
    }
  }

  /** A used slot has a place in the list. */
  lemma PlaceOf<K, V>(nodes: seq<Node<K, V>>, order: seq<nat>, s: nat) returns (i: nat)
    requires InUse(nodes, order) && s < |nodes| && nodes[s].Used()
    ensures i < |order| && order[i] == s && Entries(nodes, order)[i] == (nodes[s].key, nodes[s].value)
  {
    i :| 0 <= i < |order| && order[i] == s;
  }

  /** No used slot has the key exactly when no entry has it. */
  lemma KeyUse<K, V>(nodes: seq<Node<K, V>>, order: seq<nat>, key: K)
    requires InUse(nodes, order)
    ensures Holds(Entries(nodes, order), key) <==>
            exists s: nat :: s < |nodes| && nodes[s].Used() && nodes[s].key == key
  {
    var es := Entries(nodes, order);
    if Holds(es, key) {
      var k :| 0 <= k < |es| && es[k].0 == key;
      assert order[k] in order && nodes[order[k]].key == key;
    }
    if s: nat :| s < |nodes| && nodes[s].Used() && nodes[s].key == key {
      var i := PlaceOf(nodes, order, s);
    }
  }

  /** A full overflow region has no more slots than the map has items. */
  lemma {:induction false} SlotsBelow(order: seq<nat>, lo: nat, hi: nat)
    requires lo <= hi && forall s: nat :: lo <= s < hi ==> s in order
    ensures hi - lo <= |order|
    decreases hi - lo
  {
    if lo < hi {
      var top: nat := hi - 1;
      assert top in order;
      var i :| 0 <= i < |order| && order[i] == top;
      forall s: nat | lo <= s < top ensures s in Without(order, i) {
        assert s in order;
        var m :| 0 <= m < |order| && order[m] == s;
        assert Without(order, i)[if m < i then m else m - 1] == s;
      }
      SlotsBelow(Without(order, i), lo, top);
    }
  }

  /** Reordering keeps the state wired. */
  lemma ReorderKeepsWired<K, V>(l: Links<K, V>, r: Links<K, V>, tableSize: nat, hash: K -> nat, order: seq<nat>,
                                order': seq<nat>, chains: seq<seq<nat>>)
    requires Wired(l, tableSize, hash, order, chains) && SameCore(l.nodes, r.nodes) && Threaded(r, order')
    requires forall s :: s in order <==> s in order'
    ensures Wired(r, tableSize, hash, order', chains)
  {
    assert Look(0);
    ChainedCore(l.nodes, r.nodes, tableSize, hash, chains);
    forall k | 0 <= k < |order'| ensures order'[k] < |r.nodes| {
      assert LinkedAt(r.nodes, order', k);
    }
    var es, es' := Entries(l.nodes, order), Entries(r.nodes, order');
    forall i, j | 0 <= i < j < |es'| ensures es'[i].0 != es'[j].0 {
      var i0 := PlaceOf(l.nodes, order, order'[i]);
      var j0 := PlaceOf(l.nodes, order, order'[j]);
      assert es[i0].0 != es[j0].0;
    }
  }

  lemma EntriesCore<K, V>(a: seq<Node<K, V>>, n: seq<Node<K, V>>, order: seq<nat>)
    requires SameCore(a, n) && InStore(order, |a|)
    ensures Entries(n, order) == Entries(a, order)
  {
  }

  lemma MovedMembers(s: seq<nat>, i: nat, j: nat, after: bool)
    requires Distinct(s) && i < |s| && j < |s| && i != j
    ensures forall x :: x in s <==> x in Moved(s, i, j, after)
  {
    WithoutMembers(s, i);
    var left, at := Without(s, i), (if j < i then j else j - 1) + (if after then 1 else 0);
    WithMembers(left, at, s[i]);
  }

  lemma WithMembers(s: seq<nat>, i: nat, x: nat)
    requires i <= |s|
    ensures forall t :: t in With(s, i, x) <==> t == x || t in s
  {
    forall t | t in s ensures t in With(s, i, x) {
      var m :| 0 <= m < |s| && s[m] == t;
      assert With(s, i, x)[if m < i then m else m + 1] == t;
    }
    assert With(s, i, x)[i] == x;
  }

  lemma EntriesWith<K, V>(n: seq<Node<K, V>>, order: seq<nat>, i: nat, x: nat)
    requires InStore(order, |n|) && i <= |order| && x < |n|
    ensures InStore(With(order, i, x), |n|)
    ensures Entries(n, With(order, i, x)) == With(Entries(n, order), i, (n[x].key, n[x].value))
  {
    var es, more := Entries(n, With(order, i, x)), With(Entries(n, order), i, (n[x].key, n[x].value));
    forall k | 0 <= k < |es| ensures es[k] == more[k] {
    }
  }

  lemma EntriesMoved<K, V>(n: seq<Node<K, V>>, order: seq<nat>, i: nat, j: nat, after: bool)
    requires Distinct(order) && InStore(order, |n|) && i < |order| && j < |order| && i != j
    ensures InStore(Moved(order, i, j, after), |n|)
    ensures Entries(n, Moved(order, i, j, after)) == Moved(Entries(n, order), i, j, after)
  {
    var left, at := Without(order, i), (if j < i then j else j - 1) + (if after then 1 else 0);
    EntriesWithout(n, n, order, i);
    EntriesWith(n, left, at, order[i]);
  }

  /** Moving a node moves its pair, and keeps the state wired. */
  lemma MoveKeepsWired<K, V>(l: Links<K, V>, tableSize: nat, hash: K -> nat, order: seq<nat>, chains: seq<seq<nat>>,
                             i: nat, j: nat, after: bool)
    requires Wired(l, tableSize, hash, order, chains) && i < |order| && j < |order| && i != j
    ensures CanMove(l, order[i], order[j], after)
    ensures var r, order' := MovedLinks(l, order[i], order[j], after), Moved(order, i, j, after);
            && Wired(r, tableSize, hash, order', chains)
            && Entries(r.nodes, order') == Moved(Entries(l.nodes, order), i, j, after)
  {
    assert Look(0);
    MoveThreads(l, order, i, j, after);
    MovedMembers(order, i, j, after);
    var r, order' := MovedLinks(l, order[i], order[j], after), Moved(order, i, j, after);
    ReorderKeepsWired(l, r, tableSize, hash, order, order', chains);
    EntriesMoved(l.nodes, order, i, j, after);
    EntriesCore(l.nodes, r.nodes, order');
  }

  lemma MovedToEnd<T>(s: seq<T>, i: nat)
    requires i < |s|
    ensures i < |s| - 1 ==> Moved(s, i, |s| - 1, true) == Without(s, i) + [s[i]]
    ensures i == |s| - 1 ==> Without(s, i) + [s[i]] == s
  {
  }

  /** Moving a node behind the last one. */
  lemma EndMoveKeepsWired<K, V>(l: Links<K, V>, tableSize: nat, hash: K -> nat, order: seq<nat>,
                                chains: seq<seq<nat>>, i: nat)
    requires Wired(l, tableSize, hash, order, chains) && i < |order| - 1
    ensures 0 <= l.last < |l.nodes| && CanMove(l, order[i], l.last, true)
    ensures var r, order' := MovedLinks(l, order[i], l.last, true), Without(order, i) + [order[i]];
            && Wired(r, tableSize, hash, order', chains)
            && Entries(r.nodes, order') == Without(Entries(l.nodes, order), i) + [Entries(l.nodes, order)[i]]
  {
    assert Look(0);
    MoveKeepsWired(l, tableSize, hash, order, chains, i, |order| - 1, true);
    MovedToEnd(order, i);
    MovedToEnd(Entries(l.nodes, order), i);
  }

  lemma SwappedMembers(s: seq<nat>, i: nat, j: nat)
    requires i < |s| && j < |s|
    ensures forall x :: x in s <==> x in Swapped(s, i, j)
  {
    forall x | x in s ensures x in Swapped(s, i, j) {
      var m :| 0 <= m < |s| && s[m] == x;
      assert Swapped(s, i, j)[if m == i then j else if m == j then i else m] == x;
    }
  }

  /** Swapping two nodes swaps their pairs, and keeps the state wired. */
  lemma SwapKeepsWired<K, V>(l: Links<K, V>, tableSize: nat, hash: K -> nat, order: seq<nat>, chains: seq<seq<nat>>,
                             i: nat, j: nat)
    requires Wired(l, tableSize, hash, order, chains) && i < |order| && j < |order| && i != j
    ensures order[i] < |l.nodes| && order[j] < |l.nodes| && CanSwap(l, order[i], order[j])
    ensures var r, order' := SwappedLinks(l, order[i], order[j]), Swapped(order, i, j);
            && Wired(r, tableSize, hash, order', chains)
            && Entries(r.nodes, order') == Swapped(Entries(l.nodes, order), i, j)
  {
    assert Look(0);
    SwapThreads(l, order, i, j);
    SwappedMembers(order, i, j);
    var r, order' := SwappedLinks(l, order[i], order[j]), Swapped(order, i, j);
    ReorderKeepsWired(l, r, tableSize, hash, order, order', chains);
    EntriesCore(l.nodes, r.nodes, order');
    assert Entries(l.nodes, order') == Swapped(Entries(l.nodes, order), i, j);
  }

  /** Swapping a node with itself included. */
  lemma AnySwapKeepsWired<K, V>(l: Links<K, V>, tableSize: nat, hash: K -> nat, order: seq<nat>,
                                chains: seq<seq<nat>>, i: nat, j: nat)
    requires Wired(l, tableSize, hash, order, chains) && i < |order| && j < |order|
    ensures CanSwap(l, order[i], order[j])
    ensures var r, order' := SwappedLinks(l, order[i], order[j]), Swapped(order, i, j);
            && Wired(r, tableSize, hash, order', chains)
            && Entries(r.nodes, order') == Swapped(Entries(l.nodes, order), i, j)
  {
    if i == j {
      assert Look(0);
      SelfSwap(l, order, i);
      assert Swapped(order, i, j) == order && Swapped(Entries(l.nodes, order), i, j) == Entries(l.nodes, order);
    } else {
      SwapKeepsWired(l, tableSize, hash, order, chains, i, j);
    }
  }

  // ---- adding a key

  /** Slot t holds the same pair as before, if any. */
  ghost predicate SamePair<K, V>(a: seq<Node<K, V>>, n: seq<Node<K, V>>, t: nat)
    requires t < |a| == |n|
  {
    n[t].key == a[t].key && n[t].value == a[t].value && (n[t].Used() <==> a[t].Used())
  }

  /** Slot s with a new key, linked behind the last node. */
  ghost predicate Appended<K, V>(l: Links<K, V>, r: Links<K, V>, order: seq<nat>, s: nat, key: K, value: V) {
    && Threaded(r, order + [s])
    && |r.nodes| == |l.nodes| && s < |l.nodes| && s !in order
    && r.nodes[s].key == key && r.nodes[s].value == value && r.nodes[s].Used()
    && forall t: nat :: t < |l.nodes| && t != s ==> SamePair(l.nodes, r.nodes, t)
  }

  lemma AppendKeepsWired<K, V>(l: Links<K, V>, r: Links<K, V>, tableSize: nat, hash: K -> nat, order: seq<nat>,
                               chains: seq<seq<nat>>, chains': seq<seq<nat>>, s: nat, key: K, value: V)
    requires Wired(l, tableSize, hash, order, chains) && Appended(l, r, order, s, key, value)
    requires Chained(r.nodes, tableSize, hash, chains') && !Holds(Entries(l.nodes, order), key)
    ensures Wired(r, tableSize, hash, order + [s], chains')
    ensures Entries(r.nodes, order + [s]) == Entries(l.nodes, order) + [(key, value)]
  {
    assert Look(0);
    var order' := order + [s];
    forall t: nat | t < |r.nodes| ensures r.nodes[t].Used() <==> t in order' {
      assert t != s ==> SamePair(l.nodes, r.nodes, t) && (t in order <==> t in order');
    }
    var es, es' := Entries(l.nodes, order), Entries(r.nodes, order');
    forall k | 0 <= k < |order| ensures es'[k] == es[k] {
      assert order[k] in order && SamePair(l.nodes, r.nodes, order[k]);
    }
    assert es' == es + [(key, value)];
    forall i, j | 0 <= i < j < |es'| ensures es'[i].0 != es'[j].0 {
      assert j < |es| ==> es[i].0 != es[j].0;
    }
  }

  /** Slot `index` takes a key and joins the chain behind `prev`; its own links point behind the last node. */
  function FilledNodes<K, V>(nodes: seq<Node<K, V>>, index: nat, prev: int, key: K, last: int): (r: seq<Node<K, V>>)
    requires index < |nodes| && -1 <= prev < |nodes|
    ensures |r| == |nodes|
  {
    var n := if prev != -1 then nodes[prev := nodes[prev].(hashNext := index)] else nodes;
    n[index := n[index].(hashNext := HASH_END, key := key, orderNext := NODE_UNLINKED, orderPrev := last)]
  }

  /** Where a key of bucket b may go: into its free bucket, or into a free overflow slot behind its chain. */
  ghost predicate CanFill<K, V>(nodes: seq<Node<K, V>>, tableSize: nat, chains: seq<seq<nat>>, b: nat, prev: int,
                                index: nat)
    requires |chains| == tableSize <= |nodes|
  {
    && b < tableSize && index < |nodes| && !nodes[index].Used()
    && if prev == -1 then index == b
       else chains[b] != [] && prev == chains[b][|chains[b]| - 1] && prev < |nodes| && tableSize <= index
  }

  lemma FillChains<K, V>(nodes: seq<Node<K, V>>, tableSize: nat, hash: K -> nat, chains: seq<seq<nat>>,
                         b: nat, prev: int, index: nat, key: K, last: int)
    requires Chained(nodes, tableSize, hash, chains)
    requires CanFill(nodes, tableSize, chains, b, prev, index) && b == BucketOf(hash, key, tableSize)
    ensures Chained(FilledNodes(nodes, index, prev, key, last), tableSize, hash, chains[b := chains[b] + [index]])
    ensures prev != -1 ==> prev != index && nodes[prev].Used()
  {
    if prev == -1 {
      var n := FilledNodes(nodes, index, prev, key, last);
      assert SameOutside(nodes, n, {b});
      ChainStarts(nodes, n, tableSize, hash, chains, b);
      assert [] + [index] == [b];
    } else {
      FillExtends(nodes, tableSize, hash, chains, b, prev, index, key, last);
    }
  }

  lemma FillExtends<K, V>(nodes: seq<Node<K, V>>, tableSize: nat, hash: K -> nat, chains: seq<seq<nat>>,
                          b: nat, prev: nat, index: nat, key: K, last: int)
    requires Chained(nodes, tableSize, hash, chains)
    requires CanFill(nodes, tableSize, chains, b, prev, index) && b == BucketOf(hash, key, tableSize)
    ensures Chained(FilledNodes(nodes, index, prev, key, last), tableSize, hash, chains[b := chains[b] + [index]])
    ensures prev != index && nodes[prev].Used()
  {
    ChainUsed(nodes, tableSize, hash, chains, b, |chains[b]| - 1);
    var n := FilledNodes(nodes, index, prev, key, last);
    ChainExtends(nodes, n, tableSize, hash, chains, b, index);
  }

  lemma FillThreads<K, V>(l: Links<K, V>, tableSize: nat, hash: K -> nat, order: seq<nat>, chains: seq<seq<nat>>,
                          prev: int, index: nat, key: K)
    requires Wired(l, tableSize, hash, order, chains) && index < |l.nodes| && !l.nodes[index].Used()
    requires -1 <= prev < |l.nodes| && prev != index
    ensures var n := FilledNodes(l.nodes, index, prev, key, l.last);
            && NeighboursOk(n, index)
            && Threaded(Updated(Links(n, l.begin, l.last), index), order + [index])
            && SameCore(n, Updated(Links(n, l.begin, l.last), index).nodes)
    ensures l.begin == NODE_UNLINKED <==> l.last == NODE_UNLINKED
  {
    assert Look(0);
    var placed := Links(FilledNodes(l.nodes, index, prev, key, l.last), l.begin, l.last);
    ThreadedByLinks(l, placed, order);
    LinkThreads(placed, order, |order|, index);
    assert With(order, |order|, index) == order + [index];
  }

  /** A new key is appended, wherever its slot is. */
  lemma FillKeepsWired<K, V>(l: Links<K, V>, tableSize: nat, hash: K -> nat, order: seq<nat>, chains: seq<seq<nat>>,
                             b: nat, prev: int, index: nat, key: K)
    requires Wired(l, tableSize, hash, order, chains) && tableSize > 0 && !Holds(Entries(l.nodes, order), key)
    requires CanFill(l.nodes, tableSize, chains, b, prev, index) && b == BucketOf(hash, key, tableSize)
    ensures -1 <= prev < |l.nodes| && prev != index
            && NeighboursOk(FilledNodes(l.nodes, index, prev, key, l.last), index)
    ensures var r := Updated(Links(FilledNodes(l.nodes, index, prev, key, l.last), l.begin, l.last), index);
            && Wired(r, tableSize, hash, order + [index], chains[b := chains[b] + [index]])
            && Entries(r.nodes, order + [index]) == Entries(l.nodes, order) + [(key, l.nodes[index].value)]
    ensures l.begin == NODE_UNLINKED <==> l.last == NODE_UNLINKED
  {
    assert Look(0);
    FillChains(l.nodes, tableSize, hash, chains, b, prev, index, key, l.last);
    FillThreads(l, tableSize, hash, order, chains, prev, index, key);
    var n := FilledNodes(l.nodes, index, prev, key, l.last);
    var r := Updated(Links(n, l.begin, l.last), index);
    ChainedCore(n, r.nodes, tableSize, hash, chains[b := chains[b] + [index]]);
    FillAppends(l, r, tableSize, hash, order, chains, prev, index, key);
    AppendKeepsWired(l, r, tableSize, hash, order, chains, chains[b := chains[b] + [index]], index, key,
                     l.nodes[index].value);
  }

  lemma FillAppends<K, V>(l: Links<K, V>, r: Links<K, V>, tableSize: nat, hash: K -> nat, order: seq<nat>,
                          chains: seq<seq<nat>>, prev: int, index: nat, key: K)
    requires Wired(l, tableSize, hash, order, chains) && index < |l.nodes| && !l.nodes[index].Used()
    requires -1 <= prev < |l.nodes| && prev != index && (prev != -1 ==> l.nodes[prev].Used())
    requires SameCore(FilledNodes(l.nodes, index, prev, key, l.last), r.nodes) && Threaded(r, order + [index])
    ensures Appended(l, r, order, index, key, l.nodes[index].value)
  {
    assert Look(0);
    assert index !in order;
  }

  /** Setting a value changes one pair. */
  lemma ValueKeepsWired<K, V>(l: Links<K, V>, tableSize: nat, hash: K -> nat, order: seq<nat>, chains: seq<seq<nat>>,
                              i: nat, value: V)
    requires Wired(l, tableSize, hash, order, chains) && i < |order|
    ensures var n := l.nodes[order[i] := l.nodes[order[i]].(value := value)];
            && Wired(Links(n, l.begin, l.last), tableSize, hash, order, chains)
            && Entries(n, order) == Entries(l.nodes, order)[i := (l.nodes[order[i]].key, value)]
  {
    assert Look(0);
    var n := l.nodes[order[i] := l.nodes[order[i]].(value := value)];
    ThreadedByLinks(l, Links(n, l.begin, l.last), order);
    ChainedCore(l.nodes, n, tableSize, hash, chains);
    var es, es' := Entries(l.nodes, order), Entries(n, order);
    assert es' == es[i := (l.nodes[order[i]].key, value)];
    forall p, q | 0 <= p < q < |es'| ensures es'[p].0 != es'[q].0 {
      assert es[p].0 != es[q].0;
    }
  }

  // ---- removing a key

  lemma WithoutKeepsDistinct<K, V>(es: seq<(K, V)>, i: nat)
    requires DistinctKeys(es) && i < |es|
    ensures DistinctKeys(Without(es, i))
  {
  }

  lemma EntriesWithout<K, V>(a: seq<Node<K, V>>, n: seq<Node<K, V>>, order: seq<nat>, i: nat)
    requires Distinct(order) && i < |order| && InStore(order, |a|) && |n| == |a|
    requires forall t: nat :: t < |a| && t != order[i] ==> SamePair(a, n, t)
    ensures InStore(Without(order, i), |n|) && Entries(n, Without(order, i)) == Without(Entries(a, order), i)
  {
    var left := Without(order, i);
    forall k | 0 <= k < |left| ensures left[k] < |n| && n[left[k]].key == a[left[k]].key
      && n[left[k]].value == a[left[k]].value {
      assert left[k] == order[if k < i then k else k + 1];
      assert SamePair(a, n, left[k]);
    }
    assert Entries(n, left) == Without(Entries(a, order), i);
  }

  /** The node was unlinked and its slot given back: the chains say so, and the other nodes are as before. */
  lemma RemoveKeepsWired<K, V>(l: Links<K, V>, r: Links<K, V>, tableSize: nat, hash: K -> nat, order: seq<nat>,
                               chains: seq<seq<nat>>, chains': seq<seq<nat>>, i: nat)
    requires Wired(l, tableSize, hash, order, chains) && i < |order|
    requires Threaded(r, Without(order, i)) && |r.nodes| == |l.nodes| && order[i] < |l.nodes|
             && !r.nodes[order[i]].Used()
    requires Chained(r.nodes, tableSize, hash, chains')
    requires forall t: nat :: t < |l.nodes| && t != order[i] ==> SamePair(l.nodes, r.nodes, t)
    ensures Wired(r, tableSize, hash, Without(order, i), chains')
    ensures Entries(r.nodes, Without(order, i)) == Without(Entries(l.nodes, order), i)
  {
    assert Look(0);
    EntriesWithout(l.nodes, r.nodes, order, i);
    WithoutKeepsDistinct(Entries(l.nodes, order), i);
    WithoutMembers(order, i);
    forall t: nat | t < |r.nodes| ensures r.nodes[t].Used() <==> t in Without(order, i) {
      assert t != order[i] ==> SamePair(l.nodes, r.nodes, t);
    }
  }

  /** What a pull does to the pairs: slot s gets the pair of slot t. */
  ghost predicate Pulled<K, V>(a: seq<Node<K, V>>, n: seq<Node<K, V>>, s: nat, t: nat) {
    && |n| == |a| && s < |a| && t < |a|
    && n[s].key == a[t].key && n[s].value == a[t].value && n[s].Used() && !n[t].Used()
    && forall u: nat :: u < |a| && u != s && u != t ==> SamePair(a, n, u)
  }

  lemma EntriesPulled<K, V>(a: seq<Node<K, V>>, n: seq<Node<K, V>>, left: seq<nat>, s: nat, j: nat)
    requires Distinct(left) && s !in left && j < |left| && InStore(left, |a|) && Pulled(a, n, s, left[j])
    ensures InStore(left[j := s], |n|) && Entries(n, left[j := s]) == Entries(a, left)
  {
    forall k | 0 <= k < |left| && k != j ensures SamePair(a, n, left[k]) {
      assert left[k] in left;
    }
    assert Entries(n, left[j := s]) == Entries(a, left);
  }

  /**
   * The node was unlinked and the next node of its chain, at place j of the remaining list, moved
   * into its slot; the slot of that node was given back.
   */
  lemma PullKeepsWired<K, V>(l: Links<K, V>, r: Links<K, V>, tableSize: nat, hash: K -> nat, order: seq<nat>,
                             chains: seq<seq<nat>>, chains': seq<seq<nat>>, i: nat, j: nat)
    requires Wired(l, tableSize, hash, order, chains) && i < |order| && j < |order| - 1
    requires Threaded(r, Without(order, i)[j := order[i]]) && Pulled(l.nodes, r.nodes, order[i], Without(order, i)[j])
    requires Chained(r.nodes, tableSize, hash, chains')
    ensures Wired(r, tableSize, hash, Without(order, i)[j := order[i]], chains')
    ensures Entries(r.nodes, Without(order, i)[j := order[i]]) == Without(Entries(l.nodes, order), i)
  {
    assert Look(0);
    var left, s := Without(order, i), order[i];
    WithoutMembers(order, i);
    EntriesWithout(l.nodes, l.nodes, order, i);
    EntriesPulled(l.nodes, r.nodes, left, s, j);
    WithoutKeepsDistinct(Entries(l.nodes, order), i);
    PulledUse(l.nodes, r.nodes, left, s, j);
  }

  lemma PulledUse<K, V>(a: seq<Node<K, V>>, n: seq<Node<K, V>>, left: seq<nat>, s: nat, j: nat)
    requires Distinct(left) && s !in left && j < |left| && InStore(left, |a|) && Pulled(a, n, s, left[j])
    requires forall u: nat :: u < |a| && u != s ==> (a[u].Used() <==> u in left)
    ensures InUse(n, left[j := s])
  {
    ReplacedMembers(left, j, s);
    forall u: nat | u < |n| ensures n[u].Used() <==> u in left[j := s] {
      assert u != s && u != left[j] ==> SamePair(a, n, u);
    }
  }

  lemma ReplacedMembers(s: seq<nat>, j: nat, x: nat)
    requires Distinct(s) && j < |s| && x !in s
    ensures forall t :: t in s[j := x] <==> t == x || (t in s && t != s[j])
  {
    forall t | t in s && t != s[j] ensures t in s[j := x] {
      var m :| 0 <= m < |s| && s[m] == t;
      assert s[j := x][m] == t;
    }
    assert s[j := x][j] == x;
  }

  /** Slot s is cut out of its chain behind `prev` and given back. */
  function CutNodes<K, V>(nodes: seq<Node<K, V>>, prev: nat, s: nat): (r: seq<Node<K, V>>)
    requires prev < |nodes| && s < |nodes|
    ensures |r| == |nodes|
  {
    var n := nodes[prev := nodes[prev].(hashNext := nodes[s].hashNext)];
    n[s := n[s].(hashNext := HASH_FREE)]
  }

  /** The slot behind s in its chain moves into s, with its place in the list, and is given back. */
  function PulledNodes<K, V>(nodes: seq<Node<K, V>>, s: nat, next: nat): (r: seq<Node<K, V>>)
    requires s < |nodes| && next < |nodes|
    ensures |r| == |nodes|
  {
    var n := nodes[s := nodes[next]];
    n[next := n[next].(hashNext := HASH_FREE)]
  }

  function Isolated<K, V>(nodes: seq<Node<K, V>>, s: nat): (r: seq<Node<K, V>>)
    requires s < |nodes|
    ensures |r| == |nodes|
  {
    nodes[s := nodes[s].(orderNext := NODE_UNLINKED, orderPrev := NODE_UNLINKED)]
  }

  lemma CutCore<K, V>(l: Links<K, V>, u: Links<K, V>, r: Links<K, V>, tableSize: nat, hash: K -> nat,
                      chains: seq<seq<nat>>, b: nat, k: nat)
    requires Chained(l.nodes, tableSize, hash, chains) && b < tableSize && 0 < k < |chains[b]|
             && SameCore(l.nodes, u.nodes)
    requires chains[b][k - 1] < |l.nodes| && chains[b][k] < |l.nodes|
    requires r.nodes == CutNodes(u.nodes, chains[b][k - 1], chains[b][k])
    ensures Chained(r.nodes, tableSize, hash, chains[b := Without(chains[b], k)]) && !r.nodes[chains[b][k]].Used()
    ensures forall t: nat :: t < |l.nodes| && t != chains[b][k] ==> SamePair(l.nodes, r.nodes, t)
  {
    ChainUsed(l.nodes, tableSize, hash, chains, b, k);
    ChainUsed(l.nodes, tableSize, hash, chains, b, k - 1);
    assert Chain(l.nodes, tableSize, hash, b, chains[b]);
    ChainShrinks(l.nodes, r.nodes, tableSize, hash, chains, b, k);
  }

  /** Removing a node that is not at the start of its chain. */
  lemma CutKeepsWired<K, V>(l: Links<K, V>, tableSize: nat, hash: K -> nat, order: seq<nat>, chains: seq<seq<nat>>,
                            i: nat, b: nat, k: nat)
    requires Wired(l, tableSize, hash, order, chains) && i < |order| && b < tableSize && 0 < k < |chains[b]|
             && chains[b][k] == order[i]
    ensures NeighboursOk(l.nodes, order[i]) && chains[b][k - 1] < |l.nodes|
    ensures var u := Unlinked(l, order[i]);
            var r := Links(CutNodes(u.nodes, chains[b][k - 1], order[i]), u.begin, u.last);
            && Wired(r, tableSize, hash, Without(order, i), chains[b := Without(chains[b], k)])
            && Entries(r.nodes, Without(order, i)) == Without(Entries(l.nodes, order), i)
  {
    assert Look(0);
    UnlinkThreads(l, order, i);
    ChainUsed(l.nodes, tableSize, hash, chains, b, k - 1);
    var u := Unlinked(l, order[i]);
    var r := Links(CutNodes(u.nodes, chains[b][k - 1], order[i]), u.begin, u.last);
    CutCore(l, u, r, tableSize, hash, chains, b, k);
    ThreadedByLinks(u, r, Without(order, i));
    RemoveKeepsWired(l, r, tableSize, hash, order, chains, chains[b := Without(chains[b], k)], i);
  }

  /** Removing the only node of a chain. */
  lemma FreeKeepsWired<K, V>(l: Links<K, V>, tableSize: nat, hash: K -> nat, order: seq<nat>, chains: seq<seq<nat>>,
                             i: nat, b: nat)
    requires Wired(l, tableSize, hash, order, chains) && i < |order| && b < tableSize && |chains[b]| == 1
             && chains[b][0] == order[i]
    ensures NeighboursOk(l.nodes, order[i]) && order[i] == b
    ensures var u := Unlinked(l, order[i]);
            var r := Links(u.nodes[b := u.nodes[b].(hashNext := HASH_FREE)], u.begin, u.last);
            && Wired(r, tableSize, hash, Without(order, i), chains[b := []])
            && Entries(r.nodes, Without(order, i)) == Without(Entries(l.nodes, order), i)
  {
    assert Look(0);
    UnlinkThreads(l, order, i);
    ChainUsed(l.nodes, tableSize, hash, chains, b, 0);
    var u := Unlinked(l, order[i]);
    var r := Links(u.nodes[b := u.nodes[b].(hashNext := HASH_FREE)], u.begin, u.last);
    ThreadedByLinks(u, r, Without(order, i));
    ChainEnds(l.nodes, r.nodes, tableSize, hash, chains, b);
    RemoveKeepsWired(l, r, tableSize, hash, order, chains, chains[b := []], i);
  }

  /** The state after slot t has moved into slot s. */
  ghost function PulledLinks<K, V>(u: Links<K, V>, s: nat, t: nat): (r: Links<K, V>)
    requires s < |u.nodes| && t < |u.nodes| && NeighboursOk(PulledNodes(u.nodes, s, t), s)
    ensures |r.nodes| == |u.nodes|
  {
    var r := Updated(Links(PulledNodes(u.nodes, s, t), u.begin, u.last), s);
    Links(Isolated(r.nodes, t), r.begin, r.last)
  }

  lemma PullThreads<K, V>(u: Links<K, V>, left: seq<nat>, j: nat, s: nat)
    requires Threaded(u, left) && j < |left| && s < |u.nodes| && left[j] < |u.nodes| && s !in left
    ensures NeighboursOk(PulledNodes(u.nodes, s, left[j]), s)
    ensures var r := PulledLinks(u, s, left[j]);
            Threaded(r, left[j := s]) && SameCore(PulledNodes(u.nodes, s, left[j]), r.nodes)
  {
    var t := left[j];
    assert t in left;
    var n := PulledNodes(u.nodes, s, t);
    ThreadedByLinks(u, Links(n, u.begin, u.last), left);
    SubstituteThreads(Links(n, u.begin, u.last), left, j, s);
    var r1 := Updated(Links(n, u.begin, u.last), s);
    ReplacedMembers(left, j, s);
    ThreadedByLinks(r1, PulledLinks(u, s, t), left[j := s]);
  }

  /** What the pull does to keys, values and chain links. */
  lemma PullCore<K, V>(l: Links<K, V>, u: Links<K, V>, r: Links<K, V>, tableSize: nat, hash: K -> nat,
                       chains: seq<seq<nat>>, b: nat)
    requires Chained(l.nodes, tableSize, hash, chains) && b < tableSize && |chains[b]| >= 2
             && SameCore(l.nodes, u.nodes)
    requires chains[b][1] < |l.nodes| && SameCore(PulledNodes(u.nodes, b, chains[b][1]), r.nodes)
    ensures Pulled(l.nodes, r.nodes, b, chains[b][1])
    ensures Chained(r.nodes, tableSize, hash, chains[b := Without(chains[b], 1)])
  {
    ChainUsed(l.nodes, tableSize, hash, chains, b, 0);
    ChainUsed(l.nodes, tableSize, hash, chains, b, 1);
    assert Chain(l.nodes, tableSize, hash, b, chains[b]);
    ChainPulls(l.nodes, r.nodes, tableSize, hash, chains, b);
  }

  /** Removing the start of a longer chain. */
  lemma PullFreeKeepsWired<K, V>(l: Links<K, V>, tableSize: nat, hash: K -> nat, order: seq<nat>,
                                 chains: seq<seq<nat>>, i: nat, b: nat)
    returns (j: nat)
    requires Wired(l, tableSize, hash, order, chains) && i < |order| && b < tableSize && |chains[b]| >= 2
             && chains[b][0] == order[i]
    ensures NeighboursOk(l.nodes, order[i]) && j < |order| - 1 && order[i] == b
    ensures chains[b][1] < |l.nodes| && l.nodes[b].hashNext == chains[b][1]
    ensures NeighboursOk(PulledNodes(Unlinked(l, b).nodes, b, chains[b][1]), b)
    ensures var r := PulledLinks(Unlinked(l, b), b, chains[b][1]);
            && Wired(r, tableSize, hash, Without(order, i)[j := b], chains[b := Without(chains[b], 1)])
            && Entries(r.nodes, Without(order, i)[j := b]) == Without(Entries(l.nodes, order), i)
    ensures Without(order, i)[j := b] == Relocated(Without(order, i), chains[b][1], b)
  {
    assert Look(0);
    ChainUsed(l.nodes, tableSize, hash, chains, b, 0);
    ChainUsed(l.nodes, tableSize, hash, chains, b, 1);
    UnlinkThreads(l, order, i);
    var u := Unlinked(l, b);
    j := PulledPlace(l, tableSize, hash, order, chains, i, b);
    PullThreads(u, Without(order, i), j, b);
    var r := PulledLinks(u, b, chains[b][1]);
    PullCore(l, u, r, tableSize, hash, chains, b);
    PullKeepsWired(l, r, tableSize, hash, order, chains, chains[b := Without(chains[b], 1)], i, j);
    RelocatedPlace(order, i, j, b);
  }

  /** The order after the node in slot `from`, if any, has moved to slot `to`. */
  function Relocated(order: seq<nat>, from: int, to: nat): (r: seq<nat>)
    ensures |r| == |order|
  {
    seq(|order|, m requires 0 <= m < |order| => if order[m] == from then to else order[m])
  }

  lemma RelocatedPlace(order: seq<nat>, i: nat, j: nat, to: nat)
    requires Distinct(order) && i < |order| && j < |order| - 1
    ensures Without(order, i)[j := to] == Relocated(Without(order, i), Without(order, i)[j], to)
  {
    WithoutMembers(order, i);
  }

  lemma NotRelocated(order: seq<nat>, to: nat)
    ensures Relocated(order, -1, to) == order
  {
  }

  /**
   * Without its i-th node, and with the node in slot `from` moved to that slot: the old next slot is
   * the next one unless it is `from`; then it is in the order no more.
   */
  lemma NextAfterErase(order: seq<nat>, i: nat, from: int)
    requires Distinct(order) && i < |order| && order[i] != from
    ensures var left, next := Relocated(Without(order, i), from, order[i]), After(order, i);
            && (next == After(left, i - 1) <==> next == -1 || next != from)
            && (next != -1 && next == from ==> next !in left)
  {
    WithoutMembers(order, i);
  }

  function PoorHash(key: bool): nat {
    0
  }

  /**
   * Two keys of one bucket, inserted one after the other: when the first is erased the second moves
   * from slot 3 to slot 0, and the next slot that was saved before is 3.
   */
  lemma SavedSlotIsFree()
    ensures var free, order := Node(false, 0, -1, -1, HASH_FREE), [0, 3];
            var nodes := [Node(false, 0, 3, -1, 3), free, free, Node(true, 0, -1, 0, HASH_END)];
            && Wired(Links(nodes, 0, 3), 2, PoorHash, order, [[0, 3], []])
            && nodes[order[0]].orderNext == After(order, 0) == 3
            && After(Relocated(Without(order, 0), 3, 0), -1) == 0
  {
    var free, order: seq<nat> := Node(false, 0, -1, -1, HASH_FREE), [0, 3];
    var nodes := [Node(false, 0, 3, -1, 3), free, free, Node(true, 0, -1, 0, HASH_END)];
    assert LinkedAt(nodes, order, 0) && LinkedAt(nodes, order, 1);
    assert ChainedAt(nodes, 2, PoorHash, 0, [0, 3], 0) && ChainedAt(nodes, 2, PoorHash, 0, [0, 3], 1);
    assert InChain(nodes, 2, PoorHash, [[0, 3], []], 0) && InChain(nodes, 2, PoorHash, [[0, 3], []], 3);
    var es := Entries(nodes, order);
    assert es[0] == (false, 0) && es[1] == (true, 0);
    assert order[0] in order && order[1] in order;
    assert Without(order, 0) == [3];
  }

  lemma PulledPlace<K, V>(l: Links<K, V>, tableSize: nat, hash: K -> nat, order: seq<nat>, chains: seq<seq<nat>>,
                          i: nat, b: nat)
    returns (j: nat)
    requires FitsTogether(l, tableSize, hash, order, chains) && i < |order| && b < tableSize && |chains[b]| >= 2
             && order[i] == b
    ensures b !in Without(order, i) && j < |order| - 1 && Without(order, i)[j] == chains[b][1]
  {
    ChainUsed(l.nodes, tableSize, hash, chains, b, 1);
    assert chains[b][1] != b by {
      assert Chain(l.nodes, tableSize, hash, b, chains[b]);
    }
    WithoutMembers(order, i);
    var left := Without(order, i);
    assert chains[b][1] in left;
    j :| 0 <= j < |left| && left[j] == chains[b][1];
  }

  // ---- growing

  /** Free slots behind the used ones change nothing. */
  lemma GrowKeepsWired<K, V>(l: Links<K, V>, r: Links<K, V>, tableSize: nat, hash: K -> nat, order: seq<nat>,
                             chains: seq<seq<nat>>)
    requires Wired(l, tableSize, hash, order, chains) && r.begin == l.begin && r.last == l.last
    requires |l.nodes| <= |r.nodes| && l.nodes == r.nodes[..|l.nodes|]
    requires forall s: nat :: |l.nodes| <= s < |r.nodes| ==> !r.nodes[s].Used()
    ensures Wired(r, tableSize, hash, order, chains) && Entries(r.nodes, order) == Entries(l.nodes, order)
  {
    assert Look(0);
    assert forall s: nat :: s < |l.nodes| ==> l.nodes[s] == r.nodes[s];
    forall k | 0 <= k < |order| ensures LinkedAt(r.nodes, order, k) {
      assert LinkedAt(l.nodes, order, k);
    }
    forall b | 0 <= b < tableSize ensures Chain(r.nodes, tableSize, hash, b, chains[b]) {
      assert Chain(l.nodes, tableSize, hash, b, chains[b]);
      forall k | 0 <= k < |chains[b]| ensures ChainedAt(r.nodes, tableSize, hash, b, chains[b], k) {
        assert ChainedAt(l.nodes, tableSize, hash, b, chains[b], k);
      }
    }
    forall s | 0 <= s < |r.nodes| && r.nodes[s].Used() ensures InChain(r.nodes, tableSize, hash, chains, s) {
      assert InChain(l.nodes, tableSize, hash, chains, s);
    }
    assert Entries(r.nodes, order) == Entries(l.nodes, order);
  }

  /** A store of free slots is an empty map. */
  lemma EmptyIsWired<K, V>(r: Links<K, V>, tableSize: nat, hash: K -> nat) returns (chains: seq<seq<nat>>)
    requires 0 < tableSize <= |r.nodes| && r.begin == r.last == NODE_UNLINKED
    requires forall s :: 0 <= s < |r.nodes| ==> !r.nodes[s].Used()
    ensures Wired(r, tableSize, hash, [], chains)
  {
    chains := seq(tableSize, _ => []);
    assert forall b :: 0 <= b < tableSize ==> Chain(r.nodes, tableSize, hash, b, chains[b]);
  }
}
