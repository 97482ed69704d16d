/** A hash map that remembers insertion order: one node store carries the collision chains and the order list. */
module OrderedMaps {
  import opened OrderLinks
  import opened HashChains
  import opened MapState
  import opened Folding
  import opened Sequences

  const DEFAULT_INITIAL_SIZE: nat := 3
  const PRIMES: seq<nat> := [3, 7, 11, 13, 17, 19, 23, 31, 41, 67, 97, 131, 197, 257, 509, 1021, 2039, 4093, 8191,
                             16381]

  lemma {:induction false} PrimesAscend(i: nat, j: nat)
    requires i <= j < |PRIMES|
    ensures 3 <= PRIMES[i] <= PRIMES[j]
    decreases j
  {
    if i < j {
      PrimesAscend(i, j - 1);
      assert PRIMES[j - 1] <= PRIMES[j];
    }
  }

  /** No prime of the table is above the table size and within the estimate. */
  ghost predicate NoneBetween(tableSize: nat, estimate: nat) {
    forall i :: 0 <= i < |PRIMES| && PRIMES[i] <= estimate ==> PRIMES[i] <= tableSize
  }

  lemma LargestPrime(i: nat, estimate: nat)
    requires i <= |PRIMES| && (i < |PRIMES| ==> PRIMES[i] > estimate)
    ensures NoneBetween(if i == 0 then 2 else PRIMES[i - 1], estimate)
  {
    forall k | 0 <= k < |PRIMES| && PRIMES[k] <= estimate ensures i > 0 && PRIMES[k] <= PRIMES[i - 1] {
      if k >= i {
        PrimesAscend(i, k);
      } else {
        PrimesAscend(k, i - 1);
      }
    }
  }

  /** The hash table size for a capacity, and the capacity that leaves as much room for overflow. */
  method HashtableSize(capacity0: nat) returns (capacity: nat, tableSize: nat)
    ensures capacity >= capacity0 && capacity >= 2 * tableSize
    ensures tableSize == 2 || (tableSize in PRIMES && tableSize <= (capacity + 1) / 2)
    ensures tableSize >= 2 && (capacity == 2 || capacity == capacity0 || capacity == 2 * tableSize)
    ensures NoneBetween(tableSize, (capacity0 + 1) / 2)
  {
    capacity := if capacity0 < 2 then 2 else capacity0;
    var estimate := (capacity + 1) / 2;
    tableSize := 2;
    var i := 0;
    while i < |PRIMES| && PRIMES[i] <= estimate
      invariant 0 <= i <= |PRIMES|
      invariant tableSize == 2 || (tableSize in PRIMES && tableSize <= estimate)
      invariant tableSize >= 2 && i < |PRIMES| + 1 && tableSize == if i == 0 then 2 else PRIMES[i - 1]
    {
      tableSize := PRIMES[i];
      i := i + 1;
    }
    LargestPrime(i, estimate);
    capacity := if capacity < tableSize * 2 then tableSize * 2 else capacity;
  }

  class OrderedMap<K(==), V> {
    const hash: K -> nat
    const defaultKey: K
    const defaultValue: V
    var items: array<Node<K, V>>
    var itemCount: nat
    var tableSize: nat
    var orderBegin: int
    var orderLast: int
    var allocWatermark: nat
    ghost var order: seq<nat>
    ghost var chains: seq<seq<nat>>

    ghost function State(): Links<K, V>
      reads this, items
    {
      Links(items[..], orderBegin, orderLast)
    }

    ghost predicate Valid()
      reads this, items
    {
      && itemCount == |order|
      && if tableSize == 0 then
           items.Length == 0 && order == [] && chains == [] && orderBegin == orderLast == NODE_UNLINKED
         else
           && 2 * tableSize <= items.Length
           && tableSize <= allocWatermark < items.Length
           && Wired(State(), tableSize, hash, order, chains)
    }

    /** The pairs in insertion order. */
    ghost function Contents(): (es: seq<(K, V)>)
      reads this, items
      requires Valid()
      ensures |es| == itemCount
    {
      assert tableSize == 0 ==> order == [];
      Entries(items[..], order)
    }

    /** No key occurs twice. */
    lemma KeysAreDistinct()
      requires Valid()
      ensures DistinctKeys(Contents())
    {
      assert Look(0);
    }

    lemma OnlyPlace(key: K, i: nat)
      requires Valid() && i < itemCount && Contents()[i].0 == key
      ensures forall m :: 0 <= m < itemCount && Contents()[m].0 == key ==> m == i
    {
      KeysAreDistinct();
    }

    constructor (hash: K -> nat, defaultKey: K, defaultValue: V)
      ensures Valid() && Contents() == [] && tableSize == 0 && fresh(items)
      ensures this.hash == hash && this.defaultKey == defaultKey && this.defaultValue == defaultValue
    {
      this.hash, this.defaultKey, this.defaultValue := hash, defaultKey, defaultValue;
      items := new Node<K, V>[0];
      itemCount, tableSize, orderBegin, orderLast, allocWatermark := 0, 0, NODE_UNLINKED, NODE_UNLINKED, 0;
      order, chains := [], [];
    }

    // ---- searching

    /**
     * Walks the chain of a bucket. `prev` is the slot before the one found; k is the place in the chain.
     */
    method FindNode(index: nat, key: K) returns (node: int, prev: int, ghost k: nat)
      requires Valid() && tableSize > 0 && index == BucketOf(hash, key, tableSize)
      ensures node == -1 ==> !Holds(Contents(), key)
      ensures node != -1 ==> 0 <= node < items.Length && items[node].Used() && items[node].key == key
      ensures node != -1 ==>
                k < |chains[index]| && chains[index][k] == node && prev == if k == 0 then -1 else chains[index][k - 1]
    {
      ghost var c := chains[index];
      assert Look(0);
      FreeBucket(items[..], tableSize, hash, chains, index);
      node, prev, k := -1, -1, 0;
      var at: int := if items[index].hashNext == HASH_FREE then HASH_END else index;
      if at != HASH_END {
        ChainUsed(items[..], tableSize, hash, chains, index, 0);
      }
      while at != HASH_END
        invariant k <= |c| && (at == HASH_END <==> k == |c|) && (k < |c| ==> at == c[k])
        invariant k < |c| ==> prev == if k == 0 then -1 else c[k - 1]
        invariant forall m :: 0 <= m < k ==> c[m] < items.Length && items[c[m]].key != key
        decreases |c| - k
      {
        ChainUsed(items[..], tableSize, hash, chains, index, k);
        if items[at].key == key {
          node := at;
          return;
        }
        prev := at;
        at := items[at].hashNext;
        k := k + 1;
      }
      NotInChain(index, key);
    }

    /** A key that is in no slot of its chain is not in the map. */
    lemma NotInChain(index: nat, key: K)
      requires Valid() && tableSize > 0 && index == BucketOf(hash, key, tableSize)
      requires forall m :: 0 <= m < |chains[index]| ==>
                 chains[index][m] < items.Length && items[chains[index][m]].key != key
      ensures !Holds(Contents(), key)
    {
      assert Look(0);
      KeyUse(items[..], order, key);
      forall s: nat | s < items.Length && items[s].Used() ensures items[s].key != key {
        var k := KeyInChain(items[..], tableSize, hash, chains, s);
      }
    }

    /** An iterator to a key: its slot, or -1 for the end; i is its place in iteration order. */
    method Find(key: K) returns (at: int, ghost i: nat)
      requires Valid() && tableSize > 0
      ensures at == -1 <==> !Holds(Contents(), key)
      ensures at != -1 ==> i < |order| && order[i] == at && 0 <= at < items.Length && Contents()[i].0 == key
    {
      var prev;
      ghost var k;
      i := 0;
      at, prev, k := FindNode(BucketOf(hash, key, tableSize), key);
      if at != -1 {
        assert Look(0);
        i := PlaceOf(items[..], order, at);
      }
    }

    method Contains(key: K) returns (found: bool)
      requires Valid()
      ensures found <==> Holds(Contents(), key)
    {
      if itemCount == 0 {
        return false;
      }
      var at;
      ghost var i;
      at, i := Find(key);
      found := at != -1;
    }

    /** The keys in insertion order. */
    method Keys() returns (keys: seq<K>)
      requires Valid()
      ensures |keys| == |Contents()| && forall k :: 0 <= k < |keys| ==> keys[k] == Contents()[k].0
    {
      assert Look(0);
      keys := [];
      var at := orderBegin;
      var i := 0;
      while i < itemCount
        invariant 0 <= i <= itemCount == |order| && |keys| == i && at == After(order, i - 1)
        invariant forall k :: 0 <= k < i ==> keys[k] == Contents()[k].0
      {
        assert LinkedAt(items[..], order, i);
        keys := keys + [items[at].key];
        at := items[at].orderNext;
        i := i + 1;
      }
    }

    // ---- the order list

    /** Takes a node out of the order list. */
    method UnlinkNodeOrder(node: nat)
      requires NeighboursOk(items[..], node)
      modifies this`orderBegin, this`orderLast, items
      ensures State() == old(Unlinked(State(), node))
    {
      var prev, next := items[node].orderPrev, items[node].orderNext;
      if prev != NODE_UNLINKED {
        items[prev] := items[prev].(orderNext := next);
      } else {
        orderBegin := next;
      }
      if next != NODE_UNLINKED {
        items[next] := items[next].(orderPrev := prev);
      } else {
        orderLast := prev;
      }
      items[node] := items[node].(orderNext := NODE_UNLINKED, orderPrev := NODE_UNLINKED);
    }

    /** Makes the neighbours of a node point to it. */
    method UpdateNodeOrder(node: nat)
      requires NeighboursOk(items[..], node)
      modifies this`orderBegin, this`orderLast, items
      ensures State() == old(Updated(State(), node))
    {
      if items[node].orderPrev == NODE_UNLINKED {
        orderBegin := node;
      } else {
        var prev := items[node].orderPrev;
        items[prev] := items[prev].(orderNext := node);
      }
      if items[node].orderNext == NODE_UNLINKED {
        orderLast := node;
      } else {
        var next := items[node].orderNext;
        items[next] := items[next].(orderPrev := node);
      }
    }

    /** Moves a node next to another one in iteration order; i and j are their places. */
    method ReorderNode(node: nat, position: nat, after: bool, ghost i: nat, ghost j: nat)
      requires Valid() && i < |order| && j < |order| && order[i] == node && order[j] == position
      modifies this, items
      ensures Valid() && items == old(items) && tableSize == old(tableSize)
      ensures i == j ==> order == old(order) && Contents() == old(Contents())
      ensures i != j ==> order == Moved(old(order), i, j, after) && Contents() == Moved(old(Contents()), i, j, after)
    {
      if node != position {
        MoveKeepsWired(State(), tableSize, hash, order, chains, i, j, after);
        PlaceNode(node, position, after);
        order := Moved(order, i, j, after);
      } else {
        assert Look(0) && i == j;
      }
    }

    method PlaceNode(node: nat, position: nat, after: bool)
      requires node < items.Length && position < items.Length && CanMove(State(), node, position, after)
      modifies this`orderBegin, this`orderLast, items
      ensures State() == old(MovedLinks(State(), node, position, after))
    {
      UnlinkNodeOrder(node);
      if after {
        items[node] := items[node].(orderNext := items[position].orderNext, orderPrev := position);
      } else {
        items[node] := items[node].(orderNext := position, orderPrev := items[position].orderPrev);
      }
      UpdateNodeOrder(node);
    }

    /** Exchanges two nodes in iteration order; i and j are their places. */
    method SwapNodeOrder(first: nat, second: nat, ghost i: nat, ghost j: nat)
      requires Valid() && i < |order| && j < |order| && order[i] == first && order[j] == second
      modifies this, items
      ensures Valid() && items == old(items) && tableSize == old(tableSize)
      ensures order == Swapped(old(order), i, j) && Contents() == Swapped(old(Contents()), i, j)
    {
      AnySwapKeepsWired(State(), tableSize, hash, order, chains, i, j);
      SwapLinks(first, second);
      order := Swapped(order, i, j);
    }

    /** Two nodes exchange their places in the list. */
    method SwapLinks(first: nat, second: nat)
      requires CanSwap(State(), first, second)
      modifies this`orderBegin, this`orderLast, items
      ensures State() == old(SwappedLinks(State(), first, second))
    {
      ExchangeLinks(first, second);
      UpdateNodeOrder(first);
      UpdateNodeOrder(second);
    }

    /** Two nodes take each other's links; neighbours point at each other. */
    method ExchangeLinks(first: nat, second: nat)
      requires first < items.Length && second < items.Length
      modifies items
      ensures items[..] == old(LinksExchanged(items[..], first, second))
    {
      var firstPrev, firstNext := items[first].orderPrev, items[first].orderNext;
      items[first] := items[first].(orderPrev := items[second].orderPrev, orderNext := items[second].orderNext);
      items[second] := items[second].(orderPrev := firstPrev, orderNext := firstNext);
      if firstPrev == second {
        items[first] := items[first].(orderNext := second);
        items[second] := items[second].(orderPrev := first);
      } else if firstNext == second {
        items[first] := items[first].(orderPrev := second);
        items[second] := items[second].(orderNext := first);
      }
    }

    // ---- allocation

    /**
     * A free overflow slot, searched downwards from the watermark; -1 if there is none.
     */
    method FindFreeIndex() returns (slot: int)
      requires 0 < tableSize <= allocWatermark < items.Length
      modifies this`allocWatermark
      ensures tableSize <= allocWatermark < items.Length
      ensures slot == -1 ==> forall s: nat :: tableSize <= s < items.Length ==> items[s].Used()
      ensures slot != -1 ==> tableSize <= slot < items.Length && !items[slot].Used()
    {
      var i: int := allocWatermark;
      ghost var wrapped := false;
      var more := true;
      while more
        invariant allocWatermark == old(allocWatermark)
        invariant if wrapped then allocWatermark <= i < items.Length else tableSize <= i <= allocWatermark
        invariant !wrapped ==> forall s: nat :: i <= s < allocWatermark ==> items[s].Used()
        invariant wrapped ==>
                    forall s: nat :: tableSize <= s < allocWatermark || i <= s < items.Length ==> items[s].Used()
        invariant wrapped ==> (more <==> i != allocWatermark)
        invariant !more ==> wrapped
        decreases more, !wrapped, i
      {
        i := i - 1;
        if i < tableSize || i >= items.Length {
          i := items.Length - 1;
          wrapped := true;
        }
        if items[i].hashNext == HASH_FREE {
          allocWatermark := i;
          return i;
        }
        more := i != allocWatermark;
      }
      slot := -1;
    }

    /** The last slot of the chain of a bucket. */
    method ChainEnd(bucket: nat) returns (prev: nat)
      requires Valid() && bucket < tableSize && items[bucket].Used()
      ensures chains[bucket] != [] && prev == chains[bucket][|chains[bucket]| - 1] && prev < items.Length
    {
      assert Look(0);
      FreeBucket(items[..], tableSize, hash, chains, bucket);
      ghost var c, k: nat := chains[bucket], 0;
      prev := bucket;
      ChainUsed(items[..], tableSize, hash, chains, bucket, 0);
      while items[prev].hashNext != HASH_END
        invariant k < |c| && prev == c[k] && prev < items.Length
        decreases |c| - k
      {
        ChainUsed(items[..], tableSize, hash, chains, bucket, k);
        prev := items[prev].hashNext;
        k := k + 1;
        ChainUsed(items[..], tableSize, hash, chains, bucket, k);
      }
      ChainUsed(items[..], tableSize, hash, chains, bucket, k);
    }

    /** When no overflow slot is free the map has more than half as many items as slots. */
    lemma FullMeansMany(bucket: nat)
      requires Valid() && bucket < tableSize && items[bucket].Used()
      requires forall s: nat :: tableSize <= s < items.Length ==> items[s].Used()
      ensures items.Length < 2 * itemCount
    {
      assert Look(0);
      var i := PlaceOf(items[..], order, bucket);
      WithoutMembers(order, i);
      forall s: nat | tableSize <= s < items.Length ensures s in Without(order, i) {
        assert items[..][s].Used();
      }
      SlotsBelow(Without(order, i), tableSize, items.Length);
    }

    /** Uses a slot for a key: it joins the chain behind `prev`, if any, and the order list at its end. */
    method FillNode(index: nat, prev: int, key: K)
      requires index < items.Length && -1 <= prev < items.Length && prev != index
      requires NeighboursOk(FilledNodes(items[..], index, prev, key, orderLast), index)
      requires orderBegin == NODE_UNLINKED <==> orderLast == NODE_UNLINKED
      modifies this`orderBegin, this`orderLast, items
      ensures State() == old(Updated(Links(FilledNodes(items[..], index, prev, key, orderLast), orderBegin,
                                           orderLast), index))
    {
      if prev != -1 {
        items[prev] := items[prev].(hashNext := index);
      }
      items[index] := items[index].(hashNext := HASH_END, key := key);
      if orderBegin == NODE_UNLINKED {
        orderBegin, orderLast := index, index;
        items[index] := items[index].(orderNext := NODE_UNLINKED, orderPrev := NODE_UNLINKED);
      } else {
        items[orderLast] := items[orderLast].(orderNext := index);
        items[index] := items[index].(orderNext := NODE_UNLINKED, orderPrev := orderLast);
        orderLast := index;
      }
    }

    /** Adds a key in a slot that can take it. */
    method Occupy(index: nat, prev: int, key: K)
      requires Valid() && tableSize > 0 && !Holds(Contents(), key)
      requires CanFill(items[..], tableSize, chains, BucketOf(hash, key, tableSize), prev, index)
      modifies this, items
      ensures Valid() && tableSize > 0 && items == old(items) && order == old(order) + [index]
      ensures index < items.Length && Contents() == old(Contents()) + [(key, items[index].value)]
    {
      ghost var b := BucketOf(hash, key, tableSize);
      FillKeepsWired(State(), tableSize, hash, order, chains, b, prev, index, key);
      FillNode(index, prev, key);
      itemCount := itemCount + 1;
      order, chains := order + [index], chains[b := chains[b] + [index]];
    }

    /** Adds a key that is not in the map; the value is still to be set. */
    method AllocateNode(index0: nat, key: K, ghost bound: nat) returns (node: nat)
      requires Valid() && tableSize > 0 && index0 == BucketOf(hash, key, tableSize)
      requires !Holds(Contents(), key) && itemCount <= bound
      modifies this, items
      ensures Valid() && tableSize > 0 && (items == old(items) || fresh(items)) && items.Length >= old(items.Length)
      ensures |order| > 0 && node == order[|order| - 1] && node < items.Length
      ensures Contents() == old(Contents()) + [(key, items[node].value)]
      decreases 2 * bound + 1 - items.Length, 3
    {
      var index: nat := index0;
      var prev: int := -1;
      while items[index].hashNext != HASH_FREE
        invariant Valid() && tableSize > 0 && Contents() == old(Contents()) && (items == old(items) || fresh(items))
        invariant if prev == -1 then index == BucketOf(hash, key, tableSize)
                  else CanFill(items[..], tableSize, chains, BucketOf(hash, key, tableSize), prev, index)
        invariant itemCount == old(itemCount) && items.Length >= old(items.Length)
        decreases prev == -1, 2 * bound + 1 - items.Length
      {
        var slot := FindFreeIndex();
        if slot < 0 {
          FullMeansMany(index);
          Resize(items.Length + (items.Length + 1) / 2, bound);
          index := BucketOf(hash, key, tableSize);
        } else {
          var end := ChainEnd(index);
          prev := end;
          index := slot;
        }
      }
      Occupy(index, prev, key);
      node := index;
    }

    // ---- growing

    /** Same table size, or no table yet: the nodes move to a larger store. */
    method MoveItems(capacity: nat, newTableSize: nat)
      requires Valid() && (tableSize == 0 || tableSize == newTableSize)
      requires capacity > items.Length && newTableSize > 0 && capacity >= 2 * newTableSize
      modifies this
      ensures Valid() && fresh(items) && items.Length == capacity && tableSize == newTableSize
      ensures Contents() == old(Contents())
    {
      var free := Node(defaultKey, defaultValue, NODE_UNLINKED, NODE_UNLINKED, HASH_FREE);
      var newItems := new Node<K, V>[capacity](_ => free);
      var i := 0;
      while i < items.Length
        invariant 0 <= i <= items.Length < newItems.Length
        invariant forall k :: 0 <= k < i ==> newItems[k] == items[k]
        invariant forall k :: i <= k < newItems.Length ==> !newItems[k].Used()
        modifies newItems
      {
        newItems[i] := items[i];
        i := i + 1;
      }
      ghost var was := State();
      ghost var r := Links(newItems[..], orderBegin, orderLast);
      assert was.nodes == newItems[..][..|was.nodes|];
      if tableSize == 0 {
        chains := EmptyIsWired(r, newTableSize, hash);
      } else {
        GrowKeepsWired(was, r, tableSize, hash, order, chains);
      }
      items := newItems;
      tableSize := newTableSize;
      allocWatermark := newTableSize;
    }

    /** Makes room for at least `capacity0` nodes; the hash table may get another size. It never shrinks. */
    method Resize(capacity0: nat, ghost bound: nat)
      requires Valid() && itemCount <= bound && (tableSize > 0 ==> items.Length < 2 * bound)
      modifies this
      ensures Valid() && tableSize > 0 && Contents() == old(Contents())
      ensures items.Length >= capacity0 && items.Length >= old(items.Length)
      ensures fresh(items) || (items == old(items) && capacity0 <= items.Length)
      decreases 2 * bound + 1 - items.Length, 2
    {
      var capacity, newTableSize := HashtableSize(capacity0);
      if capacity <= items.Length {
        return;
      }
      if items.Length == 0 || tableSize == newTableSize {
        MoveItems(capacity, newTableSize);
      } else {
        var temp := Rehashed(capacity, bound);
        StealFrom(temp);
      }
    }

    /** Takes over the internals of another map. */
    method StealFrom(temp: OrderedMap<K, V>)
      requires temp != this && temp.Valid() && temp.hash == hash
      modifies this
      ensures Valid() && items == temp.items && tableSize == temp.tableSize && Contents() == temp.Contents()
    {
      items, itemCount, tableSize := temp.items, temp.itemCount, temp.tableSize;
      orderBegin, orderLast, allocWatermark := temp.orderBegin, temp.orderLast, temp.allocWatermark;
      order, chains := temp.order, temp.chains;
    }

    /**
     * A copy in a table of another size, filled in insertion order. It may grow on the way if the hash
     * function is poor.
     */
    method Rehashed(capacity: nat, ghost bound: nat) returns (temp: OrderedMap<K, V>)
      requires Valid() && tableSize > 0 && itemCount <= bound && items.Length < 2 * bound && capacity > items.Length
      ensures fresh(temp) && fresh(temp.items) && temp.Valid() && temp.hash == hash && temp.tableSize > 0
      ensures temp.items.Length >= capacity && temp.Contents() == Contents()
      decreases 2 * bound + 1 - items.Length, 1
    {
      temp := new OrderedMap(hash, defaultKey, defaultValue);
      temp.Resize(capacity, 0);
      var at := orderBegin;
      ghost var i := 0;
      assert at == After(order, i - 1) by {
        assert Look(0);
      }
      while at != NODE_UNLINKED
        invariant Valid() && unchanged(this) && unchanged(items)
        invariant fresh(temp) && fresh(temp.items) && temp.Valid() && temp.hash == hash && temp.tableSize > 0
        invariant temp.items.Length >= capacity
        invariant 0 <= i <= |order| && at == After(order, i - 1) && temp.Contents() == Contents()[..i]
        decreases |order| - i
      {
        at := CopyNode(temp, at, i, bound);
        i := i + 1;
      }
    }

    lemma NotYetCopied(i: nat)
      requires Valid() && i < itemCount
      ensures !Holds(Contents()[..i], Contents()[i].0)
    {
      KeysAreDistinct();
    }

    /** Copies the i-th node to another map. */
    method CopyNode(temp: OrderedMap<K, V>, at: nat, ghost i: nat, ghost bound: nat) returns (next: int)
      requires Valid() && tableSize > 0 && i < |order| && at == order[i] && itemCount <= bound
               && items.Length < 2 * bound
      requires temp != this && temp.items != items && temp.Valid() && temp.tableSize > 0 && temp.hash == hash
      requires temp.items.Length > items.Length && temp.Contents() == Contents()[..i]
      modifies temp, temp.items
      ensures next == After(order, i) && temp.Valid() && temp.tableSize > 0
              && (temp.items == old(temp.items) || fresh(temp.items))
      ensures temp.items.Length >= old(temp.items.Length) && temp.Contents() == Contents()[..i + 1]
      decreases 2 * bound + 1 - items.Length, 0
    {
      assert Look(0) && LinkedAt(items[..], order, i);
      var from := items[at];
      ghost var es := Contents();
      NotYetCopied(i);
      var to := temp.AllocateNode(BucketOf(hash, from.key, temp.tableSize), from.key, bound);
      CopiedPair(es, i, temp.items[to].value);
      temp.SetValue(to, from.value, i);
      next := from.orderNext;
    }

    static lemma CopiedPair(es: seq<(K, V)>, i: nat, stale: V)
      requires i < |es|
      ensures (es[..i] + [(es[i].0, stale)])[i := (es[i].0, es[i].1)] == es[..i + 1]
    {
    }

    /** Sets the value of the i-th node. */
    method SetValue(node: nat, value: V, ghost i: nat)
      requires Valid() && i < |order| && order[i] == node && node < items.Length
      modifies items
      ensures Valid() && Contents() == old(Contents())[i := (old(Contents())[i].0, value)]
    {
      ValueKeepsWired(State(), tableSize, hash, order, chains, i, value);
      items[node] := items[node].(value := value);
    }

    // ---- deallocation

    /** Gives back an overflow slot, which is cut out of its chain. */
    method CutNode(node: nat, prevIndex: nat)
      requires node < items.Length && prevIndex < items.Length && NeighboursOk(items[..], node)
      modifies this`orderBegin, this`orderLast, items
      ensures old(var u := Unlinked(State(), node); Links(CutNodes(u.nodes, prevIndex, node), u.begin, u.last))
              == State()
    {
      UnlinkNodeOrder(node);
      items[prevIndex] := items[prevIndex].(hashNext := items[node].hashNext);
      items[node] := items[node].(hashNext := HASH_FREE);
    }

    /** Gives back the slot of a bucket whose chain has no other slot. */
    method FreeNode(node: nat)
      requires node < items.Length && NeighboursOk(items[..], node)
      modifies this`orderBegin, this`orderLast, items
      ensures old(var u := Unlinked(State(), node); Links(u.nodes[node := u.nodes[node].(hashNext := HASH_FREE)],
                                                          u.begin, u.last)) == State()
    {
      UnlinkNodeOrder(node);
      items[node] := items[node].(hashNext := HASH_FREE);
    }

    /** Moves the next node of the chain into the bucket and gives back its slot. */
    method PullNode(node: nat, next: nat)
      requires node < items.Length && next < items.Length && node != next && NeighboursOk(items[..], node)
      requires NeighboursOk(PulledNodes(Unlinked(State(), node).nodes, node, next), node)
      modifies this`orderBegin, this`orderLast, items
      ensures State() == old(PulledLinks(Unlinked(State(), node), node, next))
    {
      UnlinkNodeOrder(node);
      TakeOver(node, next);
      UpdateNodeOrder(node);
      items[next] := items[next].(orderNext := NODE_UNLINKED, orderPrev := NODE_UNLINKED);
    }

    /** Node takes key, value, chain link and order links of the next node of its chain. */
    method TakeOver(node: nat, next: nat)
      requires node < items.Length && next < items.Length && node != next
      modifies items
      ensures items[..] == old(PulledNodes(items[..], node, next))
    {
      items[node] := items[node].(value := items[next].value);
      items[node] := items[node].(key := items[next].key, hashNext := items[next].hashNext);
      items[next] := items[next].(hashNext := HASH_FREE);
      items[node] := items[node].(orderNext := items[next].orderNext, orderPrev := items[next].orderPrev);
    }

    /** The slot that is given back when the k-th node of a chain is removed, if that is not its own. */
    ghost function MovedBy(b: nat, k: nat): (from: int)
      reads this
      requires b < |chains|
    {
      if k == 0 && |chains[b]| > 1 then chains[b][1] else -1
    }

    /**
     * Removes a node. Its place in iteration order is i, its place in the chain of bucket b is k, and
     * `prevIndex` is the slot before it in the chain.
     */
    method DeallocateNode(node: nat, prevIndex: int, ghost i: nat, ghost b: nat, ghost k: nat)
      requires Valid() && tableSize > 0 && i < |order| && order[i] == node && b < tableSize
      requires k < |chains[b]| && chains[b][k] == node && prevIndex == if k == 0 then -1 else chains[b][k - 1]
      modifies this, items
      ensures Valid() && items == old(items) && tableSize == old(tableSize)
      ensures Contents() == Without(old(Contents()), i)
      ensures order == Relocated(Without(old(order), i), old(MovedBy(b, k)), node)
    {
      ghost var l := State();
      BucketNode(b, k);
      NotRelocated(Without(order, i), node);
      if prevIndex != -1 {
        CutKeepsWired(l, tableSize, hash, order, chains, i, b, k);
        CutNode(node, prevIndex);
        order, chains := Without(order, i), chains[b := Without(chains[b], k)];
      } else if items[node].hashNext == HASH_END {
        FreeKeepsWired(l, tableSize, hash, order, chains, i, b);
        FreeNode(node);
        order, chains := Without(order, i), chains[b := []];
      } else {
        ghost var j := PullFreeKeepsWired(l, tableSize, hash, order, chains, i, b);
        PullNode(node, items[node].hashNext);
        order, chains := Without(order, i)[j := b], chains[b := Without(chains[b], 1)];
      }
      itemCount := itemCount - 1;
    }

    lemma BucketNode(b: nat, k: nat)
      requires Valid() && tableSize > 0 && b < tableSize && k < |chains[b]|
      ensures chains[b][k] < items.Length && chains[b][0] == b
      ensures items[chains[b][k]].hashNext == HASH_END <==> k + 1 == |chains[b]|
      ensures |chains[b]| > 1 ==> chains[b][1] != b
    {
      assert Look(0);
      assert Chain(items[..], tableSize, hash, b, chains[b]);
      ChainUsed(items[..], tableSize, hash, chains, b, k);
    }

    // ---- the operations

    /** Every operation that may insert needs a table. */
    method EnsureTable()
      requires Valid()
      modifies this
      ensures Valid() && tableSize > 0 && Contents() == old(Contents()) && (items == old(items) || fresh(items))
    {
      if tableSize == 0 {
        Resize(DEFAULT_INITIAL_SIZE, 0);
      }
    }

    /** Appends a pair; the key must not be present. */
    method Insert(key: K, value: V)
      requires Valid() && !Holds(Contents(), key)
      modifies this, items
      ensures Valid() && tableSize > 0 && (items == old(items) || fresh(items))
      ensures Contents() == old(Contents()) + [(key, value)]
    {
      EnsureTable();
      Append(key, value);
    }

    method Append(key: K, value: V)
      requires Valid() && tableSize > 0 && !Holds(Contents(), key)
      modifies this, items
      ensures Valid() && tableSize > 0 && (items == old(items) || fresh(items))
      ensures Contents() == old(Contents()) + [(key, value)]
    {
      ghost var es := Contents();
      var node := AllocateNode(BucketOf(hash, key, tableSize), key, itemCount);
      ghost var stale := items[node].value;
      SetValue(node, value, |es|);
      assert (es + [(key, stale)])[|es| := (key, value)] == es + [(key, value)];
    }

    /** The value of a key; a missing key is appended with the default value first. */
    method GetOrInsert(key: K) returns (value: V)
      requires Valid()
      modifies this, items
      ensures Valid() && tableSize > 0 && (items == old(items) || fresh(items))
      ensures if Holds(old(Contents()), key) then Contents() == old(Contents()) && (key, value) in Contents()
              else Contents() == old(Contents()) + [(key, defaultValue)] && value == defaultValue
    {
      EnsureTable();
      var at;
      ghost var i;
      at, i := Find(key);
      if at == -1 {
        Append(key, defaultValue);
        value := defaultValue;
      } else {
        value := items[at].value;
      }
    }

    /** The value of a key, if it is present. */
    method TryGet(key: K) returns (found: bool, value: V)
      requires Valid()
      ensures found <==> Holds(Contents(), key)
      ensures found ==> (key, value) in Contents()
    {
      found, value := false, defaultValue;
      if itemCount > 0 {
        var at;
        ghost var i;
        at, i := Find(key);
        if at != -1 {
          found, value := true, items[at].value;
        }
      }
    }

    /** Appends a pair, or moves the key to the end of iteration order with a new value. */
    method Reinsert(key: K, value: V)
      requires Valid()
      modifies this, items
      ensures Valid() && tableSize > 0 && (items == old(items) || fresh(items))
      ensures !Holds(old(Contents()), key) ==> Contents() == old(Contents()) + [(key, value)]
      ensures forall i :: 0 <= i < |old(Contents())| && old(Contents())[i].0 == key ==>
                Contents() == Without(old(Contents()), i) + [(key, value)]
    {
      EnsureTable();
      var at;
      ghost var i;
      at, i := Find(key);
      if at == -1 {
        Append(key, value);
      } else {
        OnlyPlace(key, i);
        MoveToEnd(at, i);
        SetValue(at, value, |order| - 1);
      }
    }

    lemma EndOf(i: nat)
      requires Valid() && tableSize > 0 && i < |order|
      ensures order[i] < items.Length && (items[order[i]].orderNext == NODE_UNLINKED <==> i == |order| - 1)
      ensures orderLast == order[|order| - 1] && orderLast < items.Length && items[orderLast].orderNext == NODE_UNLINKED
      ensures i < |order| - 1 ==> order[i] != orderLast && items[order[i]].orderPrev != orderLast
    {
      assert Look(0);
      assert LinkedAt(items[..], order, i) && LinkedAt(items[..], order, |order| - 1);
    }

    /** Moves the i-th node to the end of iteration order. */
    method MoveToEnd(node: nat, ghost i: nat)
      requires Valid() && tableSize > 0 && i < |order| && order[i] == node && node < items.Length
      modifies this, items
      ensures Valid() && items == old(items) && tableSize == old(tableSize)
      ensures |order| == |old(order)| && order[|order| - 1] == node
      ensures Contents() == Without(old(Contents()), i) + [old(Contents())[i]]
    {
      EndOf(i);
      if items[node].orderNext != NODE_UNLINKED {
        EndMoveKeepsWired(State(), tableSize, hash, order, chains, i);
        RelinkAtEnd(node);
        order := Without(order, i) + [node];
      } else {
        MovedToEnd(Contents(), i);
      }
    }

    method RelinkAtEnd(node: nat)
      requires node < items.Length && 0 <= orderLast < items.Length && node != orderLast
      requires CanMove(State(), node, orderLast, true) && items[orderLast].orderNext == NODE_UNLINKED
      requires items[node].orderNext != NODE_UNLINKED && items[node].orderPrev != orderLast
      modifies this`orderBegin, this`orderLast, items
      ensures State() == old(MovedLinks(State(), node, orderLast, true))
    {
      UnlinkNodeOrder(node);
      items[orderLast] := items[orderLast].(orderNext := node);
      items[node] := items[node].(orderPrev := orderLast);
      items[node] := items[node].(orderNext := NODE_UNLINKED);
      orderLast := node;
    }

    /** Removes a key, if it is present, and returns how many keys were removed. */
    method Erase(key: K) returns (count: nat)
      requires Valid()
      modifies this, items
      ensures Valid() && items == old(items) && tableSize == old(tableSize)
      ensures !Holds(old(Contents()), key) ==> count == 0 && Contents() == old(Contents())
      ensures forall i :: 0 <= i < |old(Contents())| && old(Contents())[i].0 == key ==>
                count == 1 && Contents() == Without(old(Contents()), i)
    {
      if tableSize == 0 {
        return 0;
      }
      var index := BucketOf(hash, key, tableSize);
      var node, prevIndex;
      ghost var k;
      node, prevIndex, k := FindNode(index, key);
      if node == -1 {
        return 0;
      }
      ghost var i := PlaceOfNode(node);
      OnlyPlace(key, i);
      DeallocateNode(node, prevIndex, i, index, k);
      count := 1;
    }

    /** The next node of its chain will move into the slot of this one, and comes next in iteration order too. */
    predicate SuccessorMoves(position: nat)
      reads this, items
      requires tableSize > 0 && position < items.Length
    {
      && position == BucketOf(hash, items[position].key, tableSize)
      && items[position].orderNext != NODE_UNLINKED && items[position].orderNext == items[position].hashNext
    }

    /** What SuccessorMoves says of order and chain. */
    lemma MovingSuccessor(position: nat, i: nat, k: nat)
      requires Valid() && tableSize > 0 && i < |order| && order[i] == position && position < items.Length
      requires var b := BucketOf(hash, items[position].key, tableSize); k < |chains[b]| && chains[b][k] == position
      ensures items[position].orderNext == After(order, i) && Distinct(order)
      ensures var from := MovedBy(BucketOf(hash, items[position].key, tableSize), k);
              && from != position
              && (SuccessorMoves(position) <==> After(order, i) != -1 && After(order, i) == from)
    {
      assert Look(0) && LinkedAt(items[..], order, i);
      var b := BucketOf(hash, items[position].key, tableSize);
      assert Chain(items[..], tableSize, hash, b, chains[b]);
      assert ChainedAt(items[..], tableSize, hash, b, chains[b], k);
    }

    /**
     * Removes the i-th node and returns what was the next slot in iteration order. It is still the
     * next one if and only if it was not the successor that moves; otherwise it is a free slot.
     */
    method EraseAt(position: nat, ghost i: nat) returns (next: int)
      requires Valid() && i < |order| && order[i] == position
      modifies this, items
      ensures old(tableSize > 0 && position < items.Length)
      ensures Valid() && items == old(items) && tableSize == old(tableSize)
      ensures Contents() == Without(old(Contents()), i)
      ensures next == After(order, i - 1) <==> !old(SuccessorMoves(position))
      ensures old(SuccessorMoves(position)) ==> 0 <= next < items.Length && !items[next].Used()
    {
      EndOf(i);
      var key := items[position].key;
      var index := BucketOf(hash, key, tableSize);
      var nextOrder := items[position].orderNext;
      var node, prevIndex;
      ghost var k;
      node, prevIndex, k := FindNode(index, key);
      ghost var m := PlaceOfNode(node);
      OnlyPlace(key, i);
      MovingSuccessor(position, i, k);
      NextAfterErase(order, i, MovedBy(index, k));
      DeallocateNode(node, prevIndex, i, index, k);
      next := nextOrder;
      assert Look(0);
    }

    lemma PlaceOfNode(node: nat) returns (i: nat)
      requires Valid() && tableSize > 0 && node < items.Length && items[node].Used()
      ensures i < |order| && order[i] == node && Contents()[i] == (items[node].key, items[node].value)
    {
      assert Look(0);
      i := PlaceOf(items[..], order, node);
    }

    /** Gives the place of a key to a new key with a value; the old key must be present, the new one absent. */
    method Replace(oldKey: K, newKey: K, value: V)
      requires Valid() && Holds(Contents(), oldKey) && !Holds(Contents(), newKey)
      modifies this, items
      ensures Valid() && (items == old(items) || fresh(items))
      ensures forall i :: 0 <= i < |old(Contents())| && old(Contents())[i].0 == oldKey ==>
                Contents() == old(Contents())[i := (newKey, value)]
    {
      ghost var es := Contents();
      Insert(newKey, value);
      StillHeld(es, oldKey, newKey, value);
      KeysAreDistinct();
      var first, second;
      ghost var i, j;
      first, i := Find(oldKey);
      second, j := Find(newKey);
      ReplacedPlaces(es, oldKey, newKey, value, i, j);
      SwapNodeOrder(first, second, i, j);
      var count := Erase(oldKey);
    }

    static lemma StillHeld(es: seq<(K, V)>, oldKey: K, newKey: K, value: V)
      requires Holds(es, oldKey)
      ensures Holds(es + [(newKey, value)], oldKey) && Holds(es + [(newKey, value)], newKey)
    {
      var all := es + [(newKey, value)];
      var k :| 0 <= k < |es| && es[k].0 == oldKey;
      assert all[k].0 == oldKey && all[|es|].0 == newKey;
    }

    static lemma ReplacedPlaces(es: seq<(K, V)>, oldKey: K, newKey: K, value: V, i: nat, j: nat)
      requires DistinctKeys(es + [(newKey, value)]) && Holds(es, oldKey) && !Holds(es, newKey)
      requires i <= |es| && j <= |es| && (es + [(newKey, value)])[i].0 == oldKey
               && (es + [(newKey, value)])[j].0 == newKey
      ensures i < |es| && j == |es|
      ensures var swapped := Swapped(es + [(newKey, value)], i, j);
              && swapped[j].0 == oldKey
              && Without(swapped, j) == es[i := (newKey, value)]
      ensures forall m :: 0 <= m < |es| && es[m].0 == oldKey ==> m == i
    {
      var all := es + [(newKey, value)];
      var k :| 0 <= k < |es| && es[k].0 == oldKey;
      assert forall m :: 0 <= m < |es| ==> all[m] == es[m] && es[m].0 != newKey;
      assert Without(Swapped(all, i, j), j) == es[i := (newKey, value)];
    }

    /** Moves a present key right behind the node at `position`. */
    method ReorderAfter(key: K, position: nat, ghost j: nat)
      requires Valid() && Holds(Contents(), key) && j < |order| && order[j] == position
      modifies this, items
      ensures Valid() && items == old(items)
      ensures forall i :: 0 <= i < |old(Contents())| && old(Contents())[i].0 == key ==>
                Contents() == if i == j then old(Contents()) else Moved(old(Contents()), i, j, true)
    {
      var node;
      ghost var i;
      node, i := Find(key);
      OnlyPlace(key, i);
      ReorderNode(node, position, true, i, j);
    }

    /** Moves a present key right before the node at `position`, or to the end of iteration order. */
    method ReorderBefore(key: K, position: int, ghost j: nat)
      requires Valid() && Holds(Contents(), key)
      requires position != -1 ==> j < |order| && order[j] == position
      modifies this, items
      ensures Valid() && items == old(items)
      ensures forall i :: 0 <= i < |old(Contents())| && old(Contents())[i].0 == key ==>
                Contents() == if position == -1 then Without(old(Contents()), i) + [old(Contents())[i]]
                              else if i == j then old(Contents()) else Moved(old(Contents()), i, j, false)
    {
      var node;
      ghost var i;
      node, i := Find(key);
      OnlyPlace(key, i);
      EndOf(i);
      MovedToEnd(Contents(), i);
      if position == -1 {
        ReorderNode(node, orderLast, true, i, |order| - 1);
      } else {
        ReorderNode(node, position, false, i, j);
      }
    }

    /** Exchanges the iteration order of two nodes. */
    method SwapOrder(first: nat, second: nat, ghost i: nat, ghost j: nat)
      requires Valid() && i < |order| && j < |order| && order[i] == first && order[j] == second
      modifies this, items
      ensures Valid() && items == old(items)
      ensures Contents() == Swapped(old(Contents()), i, j)
    {
      SwapNodeOrder(first, second, i, j);
    }
  }
}
