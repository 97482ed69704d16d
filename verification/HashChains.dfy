/**
 * The collision chains of an ordered map. Slots below the table size are buckets; a chain starts in
 * its bucket and continues through overflow slots.
 */
module HashChains {
  import opened OrderLinks
  import opened Sequences

  /** Every hash the map is used with is a value reduced modulo the table size. */
  function BucketOf<K>(hash: K -> nat, key: K, tableSize: nat): (b: nat)
    requires tableSize > 0
    ensures b < tableSize
  {
    hash(key) % tableSize
  }

  /** The k-th slot of chain c. */
  ghost predicate ChainedAt<K, V>(nodes: seq<Node<K, V>>, tableSize: nat, hash: K -> nat, b: nat, c: seq<nat>, k: nat)
    requires b < tableSize && k < |c|
  {
    && c[k] < |nodes|
    && BucketOf(hash, nodes[c[k]].key, tableSize) == b
    && nodes[c[k]].hashNext == (if k + 1 < |c| then c[k + 1] else HASH_END)
    && (k > 0 ==> c[k] >= tableSize)
  }

  /** c is the chain of bucket b; an empty chain is a free bucket. */
  ghost predicate Chain<K, V>(nodes: seq<Node<K, V>>, tableSize: nat, hash: K -> nat, b: nat, c: seq<nat>)
    requires b < tableSize <= |nodes|
  {
    && Distinct(c)
    && (if c == [] then !nodes[b].Used() else c[0] == b)
    && forall k :: 0 <= k < |c| ==> ChainedAt(nodes, tableSize, hash, b, c, k)
  }

  /** Slot s is in the chain of its key. */
  ghost predicate InChain<K, V>(nodes: seq<Node<K, V>>, tableSize: nat, hash: K -> nat, chains: seq<seq<nat>>, s: nat)
    requires 0 < tableSize == |chains| && s < |nodes|
  {
    s in chains[BucketOf(hash, nodes[s].key, tableSize)]
  }

  /** The chains partition the used slots. */
  ghost predicate Chained<K, V>(nodes: seq<Node<K, V>>, tableSize: nat, hash: K -> nat, chains: seq<seq<nat>>) {
    && 0 < tableSize == |chains| && tableSize <= |nodes|
    && (forall b :: 0 <= b < tableSize ==> Chain(nodes, tableSize, hash, b, chains[b]))
    && (forall s :: 0 <= s < |nodes| && nodes[s].Used() ==> InChain(nodes, tableSize, hash, chains, s))
  }

  /** The chains do not depend on the order links or the values. */
  lemma ChainedCore<K, V>(a: seq<Node<K, V>>, b: seq<Node<K, V>>, tableSize: nat, hash: K -> nat, chains: seq<seq<nat>>)
    requires Chained(a, tableSize, hash, chains) && |a| == |b|
    requires forall s :: 0 <= s < |a| ==> a[s].key == b[s].key && a[s].hashNext == b[s].hashNext
    ensures Chained(b, tableSize, hash, chains)
  {
    forall c | 0 <= c < tableSize ensures Chain(b, tableSize, hash, c, chains[c]) {
      assert Chain(a, tableSize, hash, c, chains[c]);
      forall k | 0 <= k < |chains[c]| ensures ChainedAt(b, tableSize, hash, c, chains[c], k) {
        assert ChainedAt(a, tableSize, hash, c, chains[c], k);
      }
    }
    forall s | 0 <= s < |b| && b[s].Used() ensures InChain(b, tableSize, hash, chains, s) {
      assert InChain(a, tableSize, hash, chains, s);
    }
  }

  /** Slots of a chain are used, and by keys of that bucket only. */
  lemma ChainUsed<K, V>(nodes: seq<Node<K, V>>, tableSize: nat, hash: K -> nat, chains: seq<seq<nat>>, b: nat, k: nat)
    requires Chained(nodes, tableSize, hash, chains) && b < tableSize && k < |chains[b]|
    ensures chains[b][k] < |nodes| && nodes[chains[b][k]].Used()
    ensures BucketOf(hash, nodes[chains[b][k]].key, tableSize) == b
    ensures ChainedAt(nodes, tableSize, hash, b, chains[b], k)
    ensures chains[b][0] == b
  {
    assert Chain(nodes, tableSize, hash, b, chains[b]);
    assert ChainedAt(nodes, tableSize, hash, b, chains[b], k);
  }

  /** A key that is in use is in the chain of its bucket. */
  lemma KeyInChain<K, V>(nodes: seq<Node<K, V>>, tableSize: nat, hash: K -> nat, chains: seq<seq<nat>>, s: nat)
    returns (k: nat)
    requires Chained(nodes, tableSize, hash, chains) && s < |nodes| && nodes[s].Used()
    ensures var c := chains[BucketOf(hash, nodes[s].key, tableSize)]; k < |c| && c[k] == s
  {
    assert InChain(nodes, tableSize, hash, chains, s);
    k :| 0 <= k < |chains[BucketOf(hash, nodes[s].key, tableSize)]|
      && chains[BucketOf(hash, nodes[s].key, tableSize)][k] == s;
  }

  /**
   * Changing one chain: the other chains stay when none of their slots changes, and a slot is used
   * afterwards exactly when it was used in another chain or is in the new chain.
   */
  lemma OneChainChanged<K, V>(a: seq<Node<K, V>>, n: seq<Node<K, V>>, tableSize: nat, hash: K -> nat,
                              chains: seq<seq<nat>>, b: nat, c: seq<nat>)
    requires Chained(a, tableSize, hash, chains) && |n| == |a| && b < tableSize
    requires Chain(n, tableSize, hash, b, c)
    requires forall s :: 0 <= s < |a| && a[s].Used() && s !in chains[b] ==>
               s !in c && n[s].key == a[s].key && n[s].hashNext == a[s].hashNext
    requires forall s :: 0 <= s < |a| && (!a[s].Used() || s in chains[b]) && s !in c ==> !n[s].Used()
    ensures Chained(n, tableSize, hash, chains[b := c])
  {
    var chains' := chains[b := c];
    forall d | 0 <= d < tableSize ensures Chain(n, tableSize, hash, d, chains'[d]) {
      if d != b {
        OneBucketEach(n, tableSize, hash, b, c, d);
        OtherChainStays(a, n, tableSize, hash, chains, b, d);
      }
    }
    forall s | 0 <= s < |n| && n[s].Used() ensures InChain(n, tableSize, hash, chains', s) {
      if s in c {
        var k :| 0 <= k < |c| && c[k] == s;
        assert ChainedAt(n, tableSize, hash, b, c, k);
      } else {
        assert InChain(a, tableSize, hash, chains, s);
      }
    }
  }

  lemma OneBucketEach<K, V>(n: seq<Node<K, V>>, tableSize: nat, hash: K -> nat, b: nat, c: seq<nat>, d: nat)
    requires b < tableSize <= |n| && Chain(n, tableSize, hash, b, c) && d < tableSize && d != b
    ensures d !in c
  {
    forall k | 0 <= k < |c| ensures c[k] != d {
      assert ChainedAt(n, tableSize, hash, b, c, k);
    }
  }

  lemma OtherChainStays<K, V>(a: seq<Node<K, V>>, n: seq<Node<K, V>>, tableSize: nat, hash: K -> nat,
                              chains: seq<seq<nat>>, b: nat, d: nat)
    requires Chained(a, tableSize, hash, chains) && |n| == |a| && b < tableSize && d < tableSize && d != b
    requires forall s :: 0 <= s < |a| && a[s].Used() && s !in chains[b] ==>
               n[s].key == a[s].key && n[s].hashNext == a[s].hashNext
    requires !a[d].Used() ==> !n[d].Used()
    ensures Chain(n, tableSize, hash, d, chains[d])
  {
    assert Chain(a, tableSize, hash, d, chains[d]);
    forall k | 0 <= k < |chains[d]| ensures ChainedAt(n, tableSize, hash, d, chains[d], k) {
      ChainUsed(a, tableSize, hash, chains, d, k);
      NotInOtherChain(a, tableSize, hash, chains, chains[d][k], d, b);
    }
  }

  lemma NotInOtherChain<K, V>(a: seq<Node<K, V>>, tableSize: nat, hash: K -> nat, chains: seq<seq<nat>>, s: nat,
                              d: nat, b: nat)
    requires Chained(a, tableSize, hash, chains) && b < tableSize && d < tableSize && d != b
    requires s < |a| && BucketOf(hash, a[s].key, tableSize) == d
    ensures s !in chains[b]
  {
    forall k | 0 <= k < |chains[b]| ensures chains[b][k] != s {
      ChainUsed(a, tableSize, hash, chains, b, k);
    }
  }

  // ---- the changes that the map makes

  /** Outside the slots in `but` keys and chain links are the same. */
  ghost predicate SameOutside<K, V>(a: seq<Node<K, V>>, n: seq<Node<K, V>>, but: set<nat>) {
    && |n| == |a|
    && forall s: nat :: s < |a| && s !in but ==> n[s].key == a[s].key && n[s].hashNext == a[s].hashNext
  }

  /** Slot s is used and is the end of its chain. */
  ghost predicate Filled<K, V>(n: seq<Node<K, V>>, tableSize: nat, hash: K -> nat, b: nat, s: nat)
    requires tableSize > 0
  {
    s < |n| && n[s].hashNext == HASH_END && BucketOf(hash, n[s].key, tableSize) == b
  }

  lemma FreeBucket<K, V>(a: seq<Node<K, V>>, tableSize: nat, hash: K -> nat, chains: seq<seq<nat>>, b: nat)
    requires Chained(a, tableSize, hash, chains) && b < tableSize
    ensures !a[b].Used() <==> chains[b] == []
  {
    assert Chain(a, tableSize, hash, b, chains[b]);
    if chains[b] != [] {
      ChainUsed(a, tableSize, hash, chains, b, 0);
    }
  }

  /** A key in a free bucket starts a chain. */
  lemma ChainStarts<K, V>(a: seq<Node<K, V>>, n: seq<Node<K, V>>, tableSize: nat, hash: K -> nat,
                          chains: seq<seq<nat>>, b: nat)
    requires Chained(a, tableSize, hash, chains) && b < tableSize && !a[b].Used()
    requires SameOutside(a, n, {b}) && Filled(n, tableSize, hash, b, b)
    ensures chains[b] == [] && Chained(n, tableSize, hash, chains[b := [b]])
  {
    FreeBucket(a, tableSize, hash, chains, b);
    assert ChainedAt(n, tableSize, hash, b, [b], 0);
    OneChainChanged(a, n, tableSize, hash, chains, b, [b]);
  }

  /** A free overflow slot extends a chain. */
  lemma ChainExtends<K, V>(a: seq<Node<K, V>>, n: seq<Node<K, V>>, tableSize: nat, hash: K -> nat,
                           chains: seq<seq<nat>>, b: nat, t: nat)
    requires Chained(a, tableSize, hash, chains) && b < tableSize && chains[b] != []
    requires tableSize <= t < |a| && !a[t].Used()
    requires var prev := chains[b][|chains[b]| - 1];
             && SameOutside(a, n, {prev, t}) && prev < |n| && n[prev].key == a[prev].key && n[prev].hashNext == t
    requires Filled(n, tableSize, hash, b, t)
    ensures Chained(n, tableSize, hash, chains[b := chains[b] + [t]])
  {
    var c := chains[b];
    var c' := c + [t];
    assert Chain(a, tableSize, hash, b, c);
    forall k | 0 <= k < |c| ensures c[k] != t && ChainedAt(a, tableSize, hash, b, c, k) {
      ChainUsed(a, tableSize, hash, chains, b, k);
    }
    forall k | 0 <= k < |c'| ensures ChainedAt(n, tableSize, hash, b, c', k) {
      if k < |c| {
        assert ChainedAt(a, tableSize, hash, b, c, k);
      }
    }
    forall s: nat | s < |a| && a[s].Used() && s !in c
      ensures s !in c' && n[s].key == a[s].key && n[s].hashNext == a[s].hashNext {
    }
    OneChainChanged(a, n, tableSize, hash, chains, b, c');
  }

  /** An overflow slot is cut out of its chain. */
  lemma ChainShrinks<K, V>(a: seq<Node<K, V>>, n: seq<Node<K, V>>, tableSize: nat, hash: K -> nat,
                           chains: seq<seq<nat>>, b: nat, k: nat)
    requires Chained(a, tableSize, hash, chains) && b < tableSize && 0 < k < |chains[b]|
    requires var prev, s := chains[b][k - 1], chains[b][k];
             && SameOutside(a, n, {prev, s}) && prev < |n| && s < |n| && n[prev].key == a[prev].key
             && n[prev].hashNext == a[s].hashNext && !n[s].Used()
    ensures Chained(n, tableSize, hash, chains[b := Without(chains[b], k)])
  {
    var c := chains[b];
    var c' := Without(c, k);
    assert Chain(a, tableSize, hash, b, c);
    forall m | 0 <= m < |c'| ensures ChainedAt(n, tableSize, hash, b, c', m) {
      assert ChainedAt(a, tableSize, hash, b, c, m);
      assert ChainedAt(a, tableSize, hash, b, c, m + 1);
    }
    WithoutMembers(c, k);
    OneChainChanged(a, n, tableSize, hash, chains, b, c');
  }

  /** A chain of one slot becomes empty. */
  lemma ChainEnds<K, V>(a: seq<Node<K, V>>, n: seq<Node<K, V>>, tableSize: nat, hash: K -> nat, chains: seq<seq<nat>>,
                        b: nat)
    requires Chained(a, tableSize, hash, chains) && b < tableSize && |chains[b]| == 1
    requires SameOutside(a, n, {b}) && !n[b].Used()
    ensures Chained(n, tableSize, hash, chains[b := []])
  {
    assert Chain(a, tableSize, hash, b, chains[b]);
    assert chains[b] == [b];
    assert Chain(n, tableSize, hash, b, []);
    OneChainChanged(a, n, tableSize, hash, chains, b, []);
  }

  /** The second slot of a chain moves into the bucket. */
  lemma ChainPulls<K, V>(a: seq<Node<K, V>>, n: seq<Node<K, V>>, tableSize: nat, hash: K -> nat,
                         chains: seq<seq<nat>>, b: nat)
    requires Chained(a, tableSize, hash, chains) && b < tableSize && |chains[b]| >= 2
    requires var s := chains[b][1];
             && SameOutside(a, n, {b, s}) && s < |n| && n[b].key == a[s].key && n[b].hashNext == a[s].hashNext
                && !n[s].Used()
    ensures Chained(n, tableSize, hash, chains[b := Without(chains[b], 1)])
  {
    var c := chains[b];
    var c' := Without(c, 1);
    assert Chain(a, tableSize, hash, b, c);
    forall m | 0 <= m < |c'| ensures ChainedAt(n, tableSize, hash, b, c', m) {
      assert ChainedAt(a, tableSize, hash, b, c, m);
      assert ChainedAt(a, tableSize, hash, b, c, m + 1);
    }
    WithoutMembers(c, 1);
    OneChainChanged(a, n, tableSize, hash, chains, b, c');
  }
}
