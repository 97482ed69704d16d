/** Sorting of (count, value) keys, the role of the C library's qsort. */
module Sorting {

  predicate Descending(s: seq<nat>) {
    forall i, j :: 0 <= i < j < |s| ==> s[i] >= s[j]
  }

  /** The sum of the counts of keys count * 65536 + value. */
  function CountSum(s: seq<nat>): nat {
    if s == [] then 0 else s[0] / 65536 + CountSum(s[1..])
  }

  lemma {:induction false} CountSumAdds(a: seq<nat>, b: seq<nat>)
    ensures CountSum(a + b) == CountSum(a) + CountSum(b)
  {
    if a == [] {
      assert a + b == b;
    } else {
      assert (a + b)[1..] == a[1..] + b;
      CountSumAdds(a[1..], b);
    }
  }

  lemma CountSumOfOne(x: nat)
    ensures CountSum([x]) == x / 65536
  {
    assert [x][1..] == [];
  }

  lemma CountSumAround(a: seq<nat>, x: nat, b: seq<nat>)
    ensures CountSum(a + [x] + b) == CountSum(a + b) + x / 65536
  {
    CountSumAdds(a + [x], b);
    CountSumAdds(a, [x]);
    CountSumAdds(a, b);
    CountSumOfOne(x);
  }

  lemma CountSumInserts(s: seq<nat>, k: nat, x: nat)
    requires k <= |s|
    ensures CountSum(s[..k] + [x] + s[k..]) == CountSum(s) + x / 65536
  {
    CountSumAround(s[..k], x, s[k..]);
    assert s[..k] + s[k..] == s;
  }

  /** Replacing a key changes the sum by the difference of the counts. */
  lemma CountSumReplaces(s: seq<nat>, k: nat, x: nat)
    requires k < |s|
    ensures CountSum(s[k := x]) + s[k] / 65536 == CountSum(s) + x / 65536
  {
    var rest := s[..k] + s[k + 1..];
    CountSumInserts(rest, k, x);
    CountSumInserts(rest, k, s[k]);
    assert rest[..k] == s[..k] && rest[k..] == s[k + 1..];
    assert s[k := x] == s[..k] + [x] + s[k + 1..];
    assert s == s[..k] + [s[k]] + s[k + 1..];
  }

  /** Keys with count zero do not contribute. */
  lemma {:induction false} CountSumOfZeros(s: seq<nat>)
    requires forall i :: 0 <= i < |s| ==> s[i] / 65536 == 0
    ensures CountSum(s) == 0
  {
    if s != [] {
      CountSumOfZeros(s[1..]);
    }
  }

  /** The keys in descending order. */
  method SortDescending(s: seq<nat>) returns (t: seq<nat>)
    ensures Descending(t) && multiset(t) == multiset(s) && |t| == |s|
    ensures CountSum(t) == CountSum(s)
  {
    t := [];
    var i := 0;
    while i < |s|
      invariant 0 <= i <= |s| && |t| == i
      invariant Descending(t) && multiset(t) == multiset(s[..i])
      invariant CountSum(t) == CountSum(s[..i])
    {
      t := Insert(t, s[i]);
      assert s[..i + 1] == s[..i] + [s[i]];
      CountSumInserts(s[..i], i, s[i]);
      assert s[..i][..i] + [s[i]] + s[..i][i..] == s[..i + 1];
      i := i + 1;
    }
    assert s[..|s|] == s;
  }

  method Insert(s: seq<nat>, x: nat) returns (t: seq<nat>)
    requires Descending(s)
    ensures Descending(t) && multiset(t) == multiset(s) + multiset{x} && |t| == |s| + 1
    ensures CountSum(t) == CountSum(s) + x / 65536
  {
    var k := 0;
    while k < |s| && s[k] >= x
      invariant 0 <= k <= |s| && forall j :: 0 <= j < k ==> s[j] >= x
    {
      k := k + 1;
    }
    t := s[..k] + [x] + s[k..];
    InsertedInOrder(s, k, x);
    CountSumInserts(s, k, x);
  }

  lemma InsertedInOrder(s: seq<nat>, k: nat, x: nat)
    requires Descending(s) && k <= |s| && (forall j :: 0 <= j < k ==> s[j] >= x) && (k < |s| ==> s[k] < x)
    ensures Descending(s[..k] + [x] + s[k..])
    ensures multiset(s[..k] + [x] + s[k..]) == multiset(s) + multiset{x}
  {
    InsertedElements(s, k, x);
    var t := s[..k] + [x] + s[k..];
    forall i, j | 0 <= i < j < |t| ensures t[i] >= t[j] {
      InsertedAt(s, k, x, i);
      InsertedAt(s, k, x, j);
      if i == k {
        assert s[k] >= s[j - 1];
      }
    }
  }

  lemma InsertedAt(s: seq<nat>, k: nat, x: nat, i: nat)
    requires k <= |s| && i <= |s|
    ensures (s[..k] + [x] + s[k..])[i] == if i < k then s[i] else if i == k then x else s[i - 1]
  {
  }

  lemma InsertedElements(s: seq<nat>, k: nat, x: nat)
    requires k <= |s|
    ensures multiset(s[..k] + [x] + s[k..]) == multiset(s) + multiset{x}
  {
    assert s == s[..k] + s[k..];
  }
}
