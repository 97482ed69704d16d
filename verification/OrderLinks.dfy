/**
 * The insertion order of an ordered map: a doubly linked list threaded through the node store. The
 * functions here say what each relinking step does to the store; the lemmas say what it does to the
 * list.
 */
module OrderLinks {
  import opened Sequences

  const HASH_FREE: int := -2
  const HASH_END: int := -1
  const NODE_UNLINKED: int := -1

  datatype Node<K, V> = Node(key: K, value: V, orderNext: int, orderPrev: int, hashNext: int) {
    predicate Used() {
      hashNext != HASH_FREE
    }
  }

  /** The store with the two ends of the order list. */
  datatype Links<K, V> = Links(nodes: seq<Node<K, V>>, begin: int, last: int)

  // ---- lists

  /** s without its i-th element. */
  function Without<T>(s: seq<T>, i: nat): (r: seq<T>)
    requires i < |s|
    ensures |r| == |s| - 1
    ensures forall k :: 0 <= k < |r| ==> r[k] == if k < i then s[k] else s[k + 1]
  {
    s[..i] + s[i + 1..]
  }

  /** s with x before its i-th element. */
  function With<T>(s: seq<T>, i: nat, x: T): (r: seq<T>)
    requires i <= |s|
    ensures |r| == |s| + 1
    ensures forall k :: 0 <= k < |r| ==> r[k] == if k < i then s[k] else if k == i then x else s[k - 1]
  {
    s[..i] + [x] + s[i..]
  }

  /** s with its i-th element moved next to its j-th. */
  function Moved<T>(s: seq<T>, i: nat, j: nat, after: bool): (r: seq<T>)
    requires i < |s| && j < |s| && i != j
    ensures |r| == |s|
  {
    With(Without(s, i), (if j < i then j else j - 1) + (if after then 1 else 0), s[i])
  }

  /** s with two elements exchanged. */
  function Swapped<T>(s: seq<T>, i: nat, j: nat): (r: seq<T>)
    requires i < |s| && j < |s|
    ensures |r| == |s|
  {
    s[i := s[j]][j := s[i]]
  }

  // ---- the order list

  function After(order: seq<nat>, k: int): int {
    if 0 <= k + 1 < |order| then order[k + 1] else NODE_UNLINKED
  }

  function Before(order: seq<nat>, k: int): int {
    if 0 < k <= |order| then order[k - 1] else NODE_UNLINKED
  }

  /** Node order[k] is linked to its neighbours in order. */
  ghost predicate LinkedAt<K, V>(nodes: seq<Node<K, V>>, order: seq<nat>, k: nat)
    requires k < |order|
  {
    && order[k] < |nodes|
    && nodes[order[k]].orderNext == After(order, k)
    && nodes[order[k]].orderPrev == Before(order, k)
  }

  /** The links run through the slots in `order`. */
  ghost predicate Threaded<K, V>(l: Links<K, V>, order: seq<nat>) {
    && Distinct(order)
    && (forall k :: 0 <= k < |order| ==> LinkedAt(l.nodes, order, k))
    && l.begin == After(order, -1) && l.last == Before(order, |order|)
  }

  /** Apart from the order links nothing has changed. */
  ghost predicate SameCore<K, V>(a: seq<Node<K, V>>, b: seq<Node<K, V>>) {
    && |a| == |b|
    && forall s :: 0 <= s < |a| ==> a[s].key == b[s].key && a[s].value == b[s].value && a[s].hashNext == b[s].hashNext
  }

  /** A link that can be followed: none, or a slot other than s. */
  predicate LinkOk(link: int, s: nat, size: nat) {
    link == NODE_UNLINKED || (0 <= link < size && link != s)
  }

  ghost predicate NeighboursOk<K, V>(nodes: seq<Node<K, V>>, s: nat) {
    && s < |nodes|
    && LinkOk(nodes[s].orderPrev, s, |nodes|) && LinkOk(nodes[s].orderNext, s, |nodes|)
  }

  /** Takes node s out of the list. */
  function Unlinked<K, V>(l: Links<K, V>, s: nat): (r: Links<K, V>)
    requires NeighboursOk(l.nodes, s)
    ensures |r.nodes| == |l.nodes|
  {
    var prev, next := l.nodes[s].orderPrev, l.nodes[s].orderNext;
    var n1 := if prev != NODE_UNLINKED then l.nodes[prev := l.nodes[prev].(orderNext := next)] else l.nodes;
    var n2 := if next != NODE_UNLINKED then n1[next := n1[next].(orderPrev := prev)] else n1;
    Links(n2[s := n2[s].(orderNext := NODE_UNLINKED, orderPrev := NODE_UNLINKED)],
          if prev != NODE_UNLINKED then l.begin else next,
          if next != NODE_UNLINKED then l.last else prev)
  }

  /** Tells the neighbours of node s that they are its neighbours. */
  function Updated<K, V>(l: Links<K, V>, s: nat): (r: Links<K, V>)
    requires NeighboursOk(l.nodes, s)
    ensures |r.nodes| == |l.nodes|
  {
    var prev, next := l.nodes[s].orderPrev, l.nodes[s].orderNext;
    var n1 := if prev != NODE_UNLINKED then l.nodes[prev := l.nodes[prev].(orderNext := s)] else l.nodes;
    var n2 := if next != NODE_UNLINKED then n1[next := n1[next].(orderPrev := s)] else n1;
    Links(n2, if prev != NODE_UNLINKED then l.begin else s, if next != NODE_UNLINKED then l.last else s)
  }

  lemma ThreadedNeighbours<K, V>(l: Links<K, V>, order: seq<nat>, i: nat)
    requires Threaded(l, order) && i < |order|
    ensures NeighboursOk(l.nodes, order[i])
  {
    assert LinkedAt(l.nodes, order, i);
    if i > 0 {
      assert LinkedAt(l.nodes, order, i - 1);
    }
    if i + 1 < |order| {
      assert LinkedAt(l.nodes, order, i + 1);
    }
  }

  /** Unlinking a node removes it from the list and touches nothing but order links. */
  lemma UnlinkThreads<K, V>(l: Links<K, V>, order: seq<nat>, i: nat)
    requires Threaded(l, order) && i < |order|
    ensures NeighboursOk(l.nodes, order[i])
    ensures var r := Unlinked(l, order[i]);
            Threaded(r, Without(order, i)) && SameCore(l.nodes, r.nodes)
  {
    ThreadedNeighbours(l, order, i);
    var r, order' := Unlinked(l, order[i]), Without(order, i);
    forall k | 0 <= k < |order'| ensures LinkedAt(r.nodes, order', k) {
      var m := if k < i then k else k + 1;
      assert LinkedAt(l.nodes, order, m);
      assert LinkedAt(l.nodes, order, i);
    }
    assert LinkedAt(l.nodes, order, i);
  }

  /** A node whose own links point between two neighbours joins the list there. */
  lemma LinkThreads<K, V>(l: Links<K, V>, order: seq<nat>, i: nat, s: nat)
    requires Threaded(l, order) && i <= |order| && s < |l.nodes| && s !in order
    requires l.nodes[s].orderPrev == Before(order, i) && l.nodes[s].orderNext == After(order, i - 1)
    ensures NeighboursOk(l.nodes, s)
    ensures var r := Updated(l, s);
            Threaded(r, With(order, i, s)) && SameCore(l.nodes, r.nodes)
  {
    if i > 0 {
      assert LinkedAt(l.nodes, order, i - 1);
    }
    if i < |order| {
      assert LinkedAt(l.nodes, order, i);
    }
    WithDistinct(order, i, s);
    var r, order' := Updated(l, s), With(order, i, s);
    forall k | 0 <= k < |order'| ensures LinkedAt(r.nodes, order', k) {
      if k != i {
        assert LinkedAt(l.nodes, order, if k < i then k else k - 1);
      }
    }
  }

  lemma WithDistinct(order: seq<nat>, i: nat, s: nat)
    requires Distinct(order) && i <= |order| && s !in order
    ensures Distinct(With(order, i, s))
  {
    var order' := With(order, i, s);
    forall k, m | 0 <= k < m < |order'| ensures order'[k] != order'[m] {
      assert k != i ==> order'[k] == order[if k < i then k else k - 1];
      assert m != i ==> order'[m] == order[if m < i then m else m - 1];
    }
  }

  /** A node with the links of the j-th node takes its place in the list. */
  lemma SubstituteThreads<K, V>(l: Links<K, V>, order: seq<nat>, j: nat, s: nat)
    requires Threaded(l, order) && j < |order| && s < |l.nodes| && s !in order && order[j] < |l.nodes|
    requires l.nodes[s].orderPrev == l.nodes[order[j]].orderPrev && l.nodes[s].orderNext == l.nodes[order[j]].orderNext
    ensures NeighboursOk(l.nodes, s)
    ensures var r := Updated(l, s);
            Threaded(r, order[j := s]) && SameCore(l.nodes, r.nodes)
  {
    assert LinkedAt(l.nodes, order, j);
    if j > 0 {
      assert LinkedAt(l.nodes, order, j - 1);
    }
    if j + 1 < |order| {
      assert LinkedAt(l.nodes, order, j + 1);
    }
    var r, order' := Updated(l, s), order[j := s];
    forall k | 0 <= k < |order'| ensures LinkedAt(r.nodes, order', k) {
      assert LinkedAt(l.nodes, order, k);
    }
  }

  // ---- swapping two nodes

  /** Nodes a and b with each other's links; where they were neighbours they now point at each other. */
  function LinksExchanged<K, V>(nodes: seq<Node<K, V>>, a: nat, b: nat): (r: seq<Node<K, V>>)
    requires a < |nodes| && b < |nodes|
    ensures |r| == |nodes|
  {
    var firstPrev, firstNext := nodes[a].orderPrev, nodes[a].orderNext;
    var n1 := nodes[a := nodes[a].(orderPrev := nodes[b].orderPrev, orderNext := nodes[b].orderNext)];
    var n2 := n1[b := n1[b].(orderPrev := firstPrev, orderNext := firstNext)];
    if firstPrev == b then
      var n3 := n2[a := n2[a].(orderNext := b)];
      n3[b := n3[b].(orderPrev := a)]
    else if firstNext == b then
      var n3 := n2[a := n2[a].(orderPrev := b)];
      n3[b := n3[b].(orderNext := a)]
    else n2
  }

  /** Exchanging two nodes of the list. */
  ghost predicate CanSwap<K, V>(l: Links<K, V>, a: nat, b: nat) {
    && a < |l.nodes| && b < |l.nodes|
    && NeighboursOk(LinksExchanged(l.nodes, a, b), a)
    && NeighboursOk(Updated(Links(LinksExchanged(l.nodes, a, b), l.begin, l.last), a).nodes, b)
  }

  ghost function SwappedLinks<K, V>(l: Links<K, V>, a: nat, b: nat): (r: Links<K, V>)
    requires CanSwap(l, a, b)
    ensures |r.nodes| == |l.nodes|
  {
    Updated(Updated(Links(LinksExchanged(l.nodes, a, b), l.begin, l.last), a), b)
  }

  /** The own links of the exchanged nodes are right for the new order. */
  lemma ExchangedLinks<K, V>(l: Links<K, V>, order: seq<nat>, i: nat, j: nat)
    requires Threaded(l, order) && i < |order| && j < |order| && i != j
    ensures order[i] < |l.nodes| && order[j] < |l.nodes|
    ensures var n, order' := LinksExchanged(l.nodes, order[i], order[j]), Swapped(order, i, j);
            && LinkedAt(n, order', i) && LinkedAt(n, order', j)
            && SameCore(l.nodes, n)
            && (forall s :: 0 <= s < |n| && s != order[i] && s != order[j] ==> n[s] == l.nodes[s])
  {
    assert LinkedAt(l.nodes, order, i) && LinkedAt(l.nodes, order, j);
    if i > 0 {
      assert LinkedAt(l.nodes, order, i - 1);
    }
    if j > 0 {
      assert LinkedAt(l.nodes, order, j - 1);
    }
  }

  lemma SwappedDistinct(order: seq<nat>, i: nat, j: nat)
    requires Distinct(order) && i < |order| && j < |order|
    ensures Distinct(Swapped(order, i, j))
  {
    var order' := Swapped(order, i, j);
    forall p, q | 0 <= p < q < |order'| ensures order'[p] != order'[q] {
      var p0 := if p == i then j else if p == j then i else p;
      var q0 := if q == i then j else if q == j then i else q;
      assert order'[p] == order[p0] && order'[q] == order[q0];
    }
  }

  /** What telling the neighbours of the p-th node changes in the list. */
  lemma UpdatedAt<K, V>(n: seq<Node<K, V>>, order: seq<nat>, p: nat, begin: int, last: int)
    requires Distinct(order) && (forall m :: 0 <= m < |order| ==> order[m] < |n|)
    requires p < |order| && LinkedAt(n, order, p)
    ensures NeighboursOk(n, order[p])
    ensures var r := Updated(Links(n, begin, last), order[p]);
            && SameCore(n, r.nodes)
            && (forall k :: 0 <= k < |order| ==>
                 && r.nodes[order[k]].orderNext == (if k + 1 == p then order[p] else n[order[k]].orderNext)
                 && r.nodes[order[k]].orderPrev == (if k == p + 1 then order[p] else n[order[k]].orderPrev))
            && r.begin == (if p == 0 then order[p] else begin)
            && r.last == (if p + 1 == |order| then order[p] else last)
  {
  }

  /** Both neighbours informed: every link follows the new order. */
  lemma InformedThreads<K, V>(l: Links<K, V>, n: seq<Node<K, V>>, order: seq<nat>, order': seq<nat>, i: nat, j: nat)
    requires Threaded(l, order) && i < |order| && j < |order| && i != j && order' == Swapped(order, i, j)
    requires Distinct(order') && |n| == |l.nodes| && (forall m :: 0 <= m < |order'| ==> order'[m] < |n|)
    requires LinkedAt(n, order', i) && LinkedAt(n, order', j)
    requires forall k :: 0 <= k < |order| && k != i && k != j ==> n[order'[k]] == l.nodes[order'[k]]
    ensures NeighboursOk(n, order'[j])
    ensures var r1 := Updated(Links(n, l.begin, l.last), order'[j]);
            NeighboursOk(r1.nodes, order'[i]) && Threaded(Updated(r1, order'[i]), order')
              && SameCore(n, Updated(r1, order'[i]).nodes)
  {
    UpdatedAt(n, order', j, l.begin, l.last);
    var r1 := Updated(Links(n, l.begin, l.last), order'[j]);
    UpdatedAt(r1.nodes, order', i, r1.begin, r1.last);
    var r2 := Updated(r1, order'[i]);
    SameCoreTransitive(n, r1.nodes, r2.nodes);
    assert r2.begin == After(order', -1) && r2.last == Before(order', |order'|) by {
      assert l.begin == After(order, -1) && l.last == Before(order, |order|);
    }
    forall k | 0 <= k < |order'| ensures LinkedAt(r2.nodes, order', k) {
      if k != i && k != j {
        assert LinkedAt(l.nodes, order, k) && order'[k] == order[k];
      }
    }
  }

  /** Swapping two nodes, neighbours or not, exchanges their places in the list. */
  lemma SwapThreads<K, V>(l: Links<K, V>, order: seq<nat>, i: nat, j: nat)
    requires Threaded(l, order) && i < |order| && j < |order| && i != j
    ensures order[i] < |l.nodes| && order[j] < |l.nodes| && CanSwap(l, order[i], order[j])
    ensures var r := SwappedLinks(l, order[i], order[j]);
            Threaded(r, Swapped(order, i, j)) && SameCore(l.nodes, r.nodes)
  {
    ExchangedLinks(l, order, i, j);
    SwappedDistinct(order, i, j);
    var order', n := Swapped(order, i, j), LinksExchanged(l.nodes, order[i], order[j]);
    forall m | 0 <= m < |order'| ensures order'[m] < |n| {
      assert LinkedAt(l.nodes, order, m);
    }
    forall k | 0 <= k < |order| && k != i && k != j ensures n[order'[k]] == l.nodes[order'[k]] {
      assert order'[k] == order[k];
    }
    InformedThreads(l, n, order, order', i, j);
  }

  /** Swapping a node with itself changes nothing. */
  lemma SelfSwap<K, V>(l: Links<K, V>, order: seq<nat>, i: nat)
    requires Threaded(l, order) && i < |order|
    ensures order[i] < |l.nodes| && CanSwap(l, order[i], order[i]) && SwappedLinks(l, order[i], order[i]) == l
  {
    ThreadedNeighbours(l, order, i);
    assert LinkedAt(l.nodes, order, i);
    if i > 0 {
      assert LinkedAt(l.nodes, order, i - 1);
    }
    if i + 1 < |order| {
      assert LinkedAt(l.nodes, order, i + 1);
    }
    assert LinksExchanged(l.nodes, order[i], order[i]) == l.nodes;
    assert Updated(l, order[i]).nodes == l.nodes;
  }

  // ---- moving a node

  /** Node s with links that put it next to node p. */
  function Placed<K, V>(nodes: seq<Node<K, V>>, s: nat, p: nat, after: bool): (r: seq<Node<K, V>>)
    requires s < |nodes| && p < |nodes|
    ensures |r| == |nodes|
  {
    nodes[s := if after then nodes[s].(orderNext := nodes[p].orderNext, orderPrev := p)
               else nodes[s].(orderNext := p, orderPrev := nodes[p].orderPrev)]
  }

  ghost predicate CanMove<K, V>(l: Links<K, V>, s: nat, p: nat, after: bool) {
    && p < |l.nodes| && NeighboursOk(l.nodes, s)
    && NeighboursOk(Placed(Unlinked(l, s).nodes, s, p, after), s)
  }

  ghost function MovedLinks<K, V>(l: Links<K, V>, s: nat, p: nat, after: bool): (r: Links<K, V>)
    requires CanMove(l, s, p, after)
    ensures |r.nodes| == |l.nodes|
  {
    var u := Unlinked(l, s);
    Updated(Links(Placed(u.nodes, s, p, after), u.begin, u.last), s)
  }

  lemma WithoutMembers(c: seq<nat>, k: nat)
    requires Distinct(c) && k < |c|
    ensures Distinct(Without(c, k)) && c[k] !in Without(c, k)
    ensures forall s :: s in Without(c, k) <==> s in c && s != c[k]
  {
    var c' := Without(c, k);
    forall s | s in c && s != c[k] ensures s in c' {
      var m :| 0 <= m < |c| && c[m] == s;
      assert c'[if m < k then m else m - 1] == s;
    }
  }

  /** Own links next to a node of the list are right for the new place. */
  lemma PlacedThreads<K, V>(u: Links<K, V>, left: seq<nat>, s: nat, m: nat, after: bool)
    requires Threaded(u, left) && s < |u.nodes| && s !in left && m < |left| && left[m] < |u.nodes|
    ensures var n, at := Placed(u.nodes, s, left[m], after), m + if after then 1 else 0;
            && Threaded(Links(n, u.begin, u.last), left)
            && n[s].orderPrev == Before(left, at) && n[s].orderNext == After(left, at - 1)
            && SameCore(u.nodes, n)
  {
    var n := Placed(u.nodes, s, left[m], after);
    assert LinkedAt(u.nodes, left, m);
    forall k | 0 <= k < |left| ensures LinkedAt(n, left, k) {
      assert LinkedAt(u.nodes, left, k) && left[k] in left;
    }
  }

  lemma WithoutPlace(order: seq<nat>, i: nat, j: nat)
    requires Distinct(order) && i < |order| && j < |order| && i != j
    ensures var m := if j < i then j else j - 1; 0 <= m < |order| - 1 && Without(order, i)[m] == order[j]
    ensures order[i] !in Without(order, i)
  {
  }

  /** Moving a node next to another moves it in the list. */
  lemma MoveThreads<K, V>(l: Links<K, V>, order: seq<nat>, i: nat, j: nat, after: bool)
    requires Threaded(l, order) && i < |order| && j < |order| && i != j
    ensures order[i] < |l.nodes| && CanMove(l, order[i], order[j], after)
    ensures var r := MovedLinks(l, order[i], order[j], after);
            Threaded(r, Moved(order, i, j, after)) && SameCore(l.nodes, r.nodes)
  {
    assert LinkedAt(l.nodes, order, i) && LinkedAt(l.nodes, order, j);
    UnlinkThreads(l, order, i);
    WithoutPlace(order, i, j);
    var m := if j < i then j else j - 1;
    var u, s, p, left := Unlinked(l, order[i]), order[i], order[j], Without(order, i);
    RelinkThreads(l.nodes, u, left, s, p, m, after);
    assert MovedLinks(l, s, p, after) == Updated(Links(Placed(u.nodes, s, p, after), u.begin, u.last), s);
    assert Moved(order, i, j, after) == With(left, m + if after then 1 else 0, s);
  }

  /** The unlinked node finds its new place. */
  lemma RelinkThreads<K, V>(a: seq<Node<K, V>>, u: Links<K, V>, left: seq<nat>, s: nat, p: nat, m: nat, after: bool)
    requires Threaded(u, left) && SameCore(a, u.nodes) && s < |a| && p < |a|
    requires s !in left && m < |left| && left[m] == p
    ensures NeighboursOk(Placed(u.nodes, s, p, after), s)
    ensures var r := Updated(Links(Placed(u.nodes, s, p, after), u.begin, u.last), s);
            Threaded(r, With(left, m + (if after then 1 else 0), s)) && SameCore(a, r.nodes)
  {
    PlaceThreads(u, left, s, m, after);
    var r := Updated(Links(Placed(u.nodes, s, p, after), u.begin, u.last), s);
    SameCoreTransitive(a, u.nodes, r.nodes);
  }

  lemma SameCoreTransitive<K, V>(a: seq<Node<K, V>>, b: seq<Node<K, V>>, c: seq<Node<K, V>>)
    requires SameCore(a, b) && SameCore(b, c)
    ensures SameCore(a, c)
  {
  }

  lemma PlaceThreads<K, V>(u: Links<K, V>, left: seq<nat>, s: nat, m: nat, after: bool)
    requires Threaded(u, left) && s < |u.nodes| && s !in left && m < |left| && left[m] < |u.nodes|
    ensures NeighboursOk(Placed(u.nodes, s, left[m], after), s)
    ensures var r := Updated(Links(Placed(u.nodes, s, left[m], after), u.begin, u.last), s);
            Threaded(r, With(left, m + (if after then 1 else 0), s)) && SameCore(u.nodes, r.nodes)
  {
    PlacedThreads(u, left, s, m, after);
    LinkThreads(Links(Placed(u.nodes, s, left[m], after), u.begin, u.last), left, m + if after then 1 else 0, s);
  }
}
