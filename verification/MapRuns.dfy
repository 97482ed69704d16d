/** Whole runs of an ordered map, as a sequence of distinct keys with values sees them. */
module MapRuns {
  import opened OrderLinks
  import opened MapState
  import opened OrderedMaps

  datatype Operation<K, V> =
    | Insert(key: K, value: V)
    | Access(key: K)
    | Reinsert(key: K, value: V)
    | Erase(key: K)
    | Replace(key: K, newKey: K, value: V)
    | Swap(key: K, other: K)
    | MoveAfter(key: K, position: K)
    | MoveBefore(key: K, position: K)
    | MoveToEnd(key: K)

  /** The place of a key. */
  ghost function PlaceOfKey<K, V>(es: seq<(K, V)>, key: K): (i: nat)
    requires Holds(es, key)
    ensures i < |es| && es[i].0 == key
  {
    var k :| 0 <= k < |es| && es[k].0 == key;
    k
  }

  /** What the comments of the map ask of its callers. */
  ghost predicate Allowed<K, V>(es: seq<(K, V)>, op: Operation<K, V>) {
    match op
    case Insert(key, _) => !Holds(es, key)
    case Replace(key, newKey, _) => Holds(es, key) && !Holds(es, newKey)
    case Swap(key, other) => Holds(es, key) && Holds(es, other)
    case MoveAfter(key, position) => Holds(es, key) && Holds(es, position)
    case MoveBefore(key, position) => Holds(es, key) && Holds(es, position)
    case MoveToEnd(key) => Holds(es, key)
    case _ => true
  }

  ghost function MovedNextTo<K, V>(es: seq<(K, V)>, key: K, position: K, after: bool): seq<(K, V)>
    requires Holds(es, key) && Holds(es, position)
  {
    var i, j := PlaceOfKey(es, key), PlaceOfKey(es, position);
    if i == j then es else Moved(es, i, j, after)
  }

  ghost function MovedLast<K, V>(es: seq<(K, V)>, key: K): seq<(K, V)>
    requires Holds(es, key)
  {
    var i := PlaceOfKey(es, key);
    Without(es, i) + [es[i]]
  }

  /** The pairs after an operation. */
  ghost function Step<K, V>(es: seq<(K, V)>, op: Operation<K, V>, defaultValue: V): seq<(K, V)>
    requires Allowed(es, op)
  {
    match op
    case Insert(key, value) => es + [(key, value)]
    case Access(key) => if Holds(es, key) then es else es + [(key, defaultValue)]
    case Reinsert(key, value) => (if Holds(es, key) then Without(es, PlaceOfKey(es, key)) else es) + [(key, value)]
    case Erase(key) => if Holds(es, key) then Without(es, PlaceOfKey(es, key)) else es
    case Replace(key, newKey, value) => es[PlaceOfKey(es, key) := (newKey, value)]
    case Swap(key, other) => Swapped(es, PlaceOfKey(es, key), PlaceOfKey(es, other))
    case MoveAfter(key, position) => MovedNextTo(es, key, position, true)
    case MoveBefore(key, position) => MovedNextTo(es, key, position, false)
    case MoveToEnd(key) => MovedLast(es, key)
  }

  /** In a sequence of distinct keys a key has one place. */
  lemma PlaceIs<K, V>(es: seq<(K, V)>, key: K, i: nat)
    requires DistinctKeys(es) && i < |es| && es[i].0 == key
    ensures Holds(es, key) && PlaceOfKey(es, key) == i
  {
  }

  /** What operations on a new or missing key do. */
  lemma StepWithoutKey<K, V>(es: seq<(K, V)>, key: K, value: V, defaultValue: V)
    requires forall k :: 0 <= k < |es| ==> es[k].0 != key
    ensures Allowed(es, Insert(key, value)) && Step(es, Insert(key, value), defaultValue) == es + [(key, value)]
    ensures Step(es, Access(key), defaultValue) == es + [(key, defaultValue)]
    ensures Step(es, Reinsert(key, value), defaultValue) == es + [(key, value)]
    ensures Step(es, Erase(key), defaultValue) == es
  {
  }

  /** What operations on the key at place i do; what is not mentioned stays, in its order. */
  lemma StepWithKey<K, V>(es: seq<(K, V)>, key: K, newKey: K, value: V, defaultValue: V, i: nat)
    requires DistinctKeys(es) && i < |es| && es[i].0 == key
    ensures !Allowed(es, Insert(key, value)) && Step(es, Access(key), defaultValue) == es
    ensures Step(es, Reinsert(key, value), defaultValue) == es[..i] + es[i + 1..] + [(key, value)]
    ensures Step(es, Erase(key), defaultValue) == es[..i] + es[i + 1..]
    ensures (forall k :: 0 <= k < |es| ==> es[k].0 != newKey) ==>
              Allowed(es, Replace(key, newKey, value))
              && Step(es, Replace(key, newKey, value), defaultValue) == es[..i] + [(newKey, value)] + es[i + 1..]
    ensures Allowed(es, Operation.MoveToEnd(key))
            && Step(es, Operation.MoveToEnd(key), defaultValue) == es[..i] + es[i + 1..] + [es[i]]
  {
    PlaceIs(es, key, i);
  }

  /** What operations on the keys at places i and j do. */
  lemma StepWithKeys<K, V>(es: seq<(K, V)>, key: K, other: K, defaultValue: V, i: nat, j: nat)
    requires DistinctKeys(es) && i < |es| && es[i].0 == key && j < |es| && es[j].0 == other
    ensures Allowed(es, Swap(key, other)) && Step(es, Swap(key, other), defaultValue) == es[i := es[j]][j := es[i]]
    ensures Allowed(es, MoveAfter(key, other))
            && Step(es, MoveAfter(key, other), defaultValue)
               == if i < j then es[..i] + es[i + 1..j + 1] + [es[i]] + es[j + 1..]
                  else if j < i then es[..j + 1] + [es[i]] + es[j + 1..i] + es[i + 1..] else es
    ensures Allowed(es, MoveBefore(key, other))
            && Step(es, MoveBefore(key, other), defaultValue)
               == if i < j then es[..i] + es[i + 1..j] + [es[i]] + es[j..]
                  else if j < i then es[..j] + [es[i]] + es[j..i] + es[i + 1..] else es
  {
    PlaceIs(es, key, i);
    PlaceIs(es, other, j);
    if i != j {
      MovedPlaces(es, i, j);
    }
  }

  /** Moving one element behind or before another shifts those between them by one. */
  lemma MovedPlaces<T>(es: seq<T>, i: nat, j: nat)
    requires i < |es| && j < |es| && i != j
    ensures Moved(es, i, j, true)
            == if i < j then es[..i] + es[i + 1..j + 1] + [es[i]] + es[j + 1..]
               else es[..j + 1] + [es[i]] + es[j + 1..i] + es[i + 1..]
    ensures Moved(es, i, j, false)
            == if i < j then es[..i] + es[i + 1..j] + [es[i]] + es[j..] else es[..j] + [es[i]] + es[j..i] + es[i + 1..]
  {
    MovedBehind(es, i, j);
    MovedInFront(es, i, j);
  }

  lemma MovedBehind<T>(es: seq<T>, i: nat, j: nat)
    requires i < |es| && j < |es| && i != j
    ensures Moved(es, i, j, true)
            == if i < j then es[..i] + es[i + 1..j + 1] + [es[i]] + es[j + 1..]
               else es[..j + 1] + [es[i]] + es[j + 1..i] + es[i + 1..]
  {
  }

  lemma MovedInFront<T>(es: seq<T>, i: nat, j: nat)
    requires i < |es| && j < |es| && i != j
    ensures Moved(es, i, j, false)
            == if i < j then es[..i] + es[i + 1..j] + [es[i]] + es[j..] else es[..j] + [es[i]] + es[j..i] + es[i + 1..]
  {
  }

  ghost predicate AllowedRun<K, V>(es: seq<(K, V)>, ops: seq<Operation<K, V>>, defaultValue: V)
    decreases |ops|
  {
    ops == [] || (Allowed(es, ops[0]) && AllowedRun(Step(es, ops[0], defaultValue), ops[1..], defaultValue))
  }

  ghost function AfterRun<K, V>(es: seq<(K, V)>, ops: seq<Operation<K, V>>, defaultValue: V): seq<(K, V)>
    requires AllowedRun(es, ops, defaultValue)
    decreases |ops|
  {
    if ops == [] then es else AfterRun(Step(es, ops[0], defaultValue), ops[1..], defaultValue)
  }

  /** A run is its first operation and the run of the others. */
  lemma RunInSteps<K, V>(es: seq<(K, V)>, op: Operation<K, V>, ops: seq<Operation<K, V>>, defaultValue: V)
    ensures AllowedRun(es, [], defaultValue) && AfterRun(es, [], defaultValue) == es
    ensures AllowedRun(es, [op] + ops, defaultValue)
            <==> Allowed(es, op) && AllowedRun(Step(es, op, defaultValue), ops, defaultValue)
    ensures AllowedRun(es, [op] + ops, defaultValue) ==>
              AfterRun(es, [op] + ops, defaultValue) == AfterRun(Step(es, op, defaultValue), ops, defaultValue)
  {
    assert ([op] + ops)[1..] == ops;
  }

  /** Erasing a key that was just inserted restores the pairs and their order. */
  lemma EraseUndoesInsert<K, V>(es: seq<(K, V)>, key: K, value: V, defaultValue: V)
    requires !Holds(es, key)
    ensures Step(Step(es, Insert(key, value), defaultValue), Erase(key), defaultValue) == es
  {
    var all := es + [(key, value)];
    assert all[|es|].0 == key;
    var i := PlaceOfKey(all, key);
    assert forall k :: 0 <= k < |es| ==> all[k] == es[k] && es[k].0 != key;
    assert Without(all, |es|) == es;
  }

  /** Replacing a key and replacing it back with the old value changes nothing. */
  lemma ReplaceBack<K, V>(es: seq<(K, V)>, key: K, newKey: K, value: V, defaultValue: V)
    requires DistinctKeys(es) && Holds(es, key) && !Holds(es, newKey)
    ensures var mid := Step(es, Replace(key, newKey, value), defaultValue);
            && Allowed(mid, Replace(newKey, key, es[PlaceOfKey(es, key)].1))
            && Step(mid, Replace(newKey, key, es[PlaceOfKey(es, key)].1), defaultValue) == es
  {
    var i := PlaceOfKey(es, key);
    var mid := es[i := (newKey, value)];
    assert mid[i].0 == newKey;
    forall k | 0 <= k < |mid| && k != i ensures mid[k].0 != key && mid[k].0 != newKey {
      assert mid[k] == es[k];
    }
    assert PlaceOfKey(mid, newKey) == i;
    assert mid[i := (key, es[i].1)] == es;
  }

  /** Performs one operation. */
  method Perform<K(==), V>(m: OrderedMap<K, V>, op: Operation<K, V>)
    requires m.Valid() && Allowed(m.Contents(), op)
    modifies m, m.items
    ensures m.Valid() && (m.items == old(m.items) || fresh(m.items))
    ensures m.Contents() == Step(old(m.Contents()), op, m.defaultValue)
  {
    match op
    case Insert(key, value) => m.Insert(key, value);
    case Access(key) => var value := m.GetOrInsert(key);
    case Reinsert(key, value) => m.Reinsert(key, value);
    case Erase(key) => var count := m.Erase(key);
    case Replace(key, newKey, value) => m.Replace(key, newKey, value);
    case Swap(key, other) => SwapKeys(m, key, other);
    case MoveAfter(key, position) => MoveKey(m, key, position, true);
    case MoveBefore(key, position) => MoveKey(m, key, position, false);
    case MoveToEnd(key) => MoveKeyToEnd(m, key);
  }

  method SwapKeys<K(==), V>(m: OrderedMap<K, V>, key: K, other: K)
    requires m.Valid() && Holds(m.Contents(), key) && Holds(m.Contents(), other)
    modifies m, m.items
    ensures m.Valid() && m.items == old(m.items)
    ensures m.Contents() == Step(old(m.Contents()), Swap(key, other), m.defaultValue)
  {
    var first, second;
    ghost var i, j;
    first, i := m.Find(key);
    second, j := m.Find(other);
    m.OnlyPlace(key, i);
    m.OnlyPlace(other, j);
    m.SwapOrder(first, second, i, j);
  }

  method MoveKey<K(==), V>(m: OrderedMap<K, V>, key: K, position: K, after: bool)
    requires m.Valid() && Holds(m.Contents(), key) && Holds(m.Contents(), position)
    modifies m, m.items
    ensures m.Valid() && m.items == old(m.items)
    ensures m.Contents() == MovedNextTo(old(m.Contents()), key, position, after)
  {
    var at;
    ghost var j;
    at, j := m.Find(position);
    m.OnlyPlace(position, j);
    if after {
      m.ReorderAfter(key, at, j);
    } else {
      m.ReorderBefore(key, at, j);
    }
  }

  method MoveKeyToEnd<K(==), V>(m: OrderedMap<K, V>, key: K)
    requires m.Valid() && Holds(m.Contents(), key)
    modifies m, m.items
    ensures m.Valid() && m.items == old(m.items)
    ensures m.Contents() == MovedLast(old(m.Contents()), key)
  {
    ghost var es := m.Contents();
    ghost var i := PlaceOfKey(es, key);
    m.ReorderBefore(key, -1, 0);
    assert m.Contents() == Without(es, i) + [es[i]];
  }

  /** Every run of allowed operations acts on the map as on the sequence of its pairs. */
  method Run<K(==), V>(m: OrderedMap<K, V>, ops: seq<Operation<K, V>>)
    requires m.Valid() && AllowedRun(m.Contents(), ops, m.defaultValue)
    modifies m, m.items
    ensures m.Valid() && m.Contents() == AfterRun(old(m.Contents()), ops, m.defaultValue)
  {
    var i := 0;
    assert ops[0..] == ops;
    while i < |ops|
      invariant 0 <= i <= |ops| && m.Valid() && (m.items == old(m.items) || fresh(m.items))
      invariant AllowedRun(m.Contents(), ops[i..], m.defaultValue)
      invariant AfterRun(m.Contents(), ops[i..], m.defaultValue) == AfterRun(old(m.Contents()), ops, m.defaultValue)
    {
      assert ops[i..][0] == ops[i] && ops[i..][1..] == ops[i + 1..];
      Perform(m, ops[i]);
      i := i + 1;
    }
  }
}
