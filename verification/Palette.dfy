/** The palette of a section: which weight indices stand for which weights. */
module Palettes {
  import opened Bits
  import opened Folding
  import opened SliceFormat
  import opened Sequences
  import opened Sorting

  const ZERO_RUN_THRES: nat := 4

  /** Weights are nine bits, without -256. */
  predicate InRange(ws: seq<int>) {
    forall i :: 0 <= i < |ws| ==> -255 <= ws[i] <= 255
  }

  /** The sign-magnitude form of a weight: 0, +1, -1, +2, -2 are 0, 2, 3, 4, 5. */
  function PalVal(w: int): nat {
    if w < 0 then 2 * -w + 1 else 2 * w
  }

  lemma PalValInverts(w: int, v: nat)
    ensures SignMagnitude(PalVal(w)) == w
    ensures v != 1 ==> PalVal(SignMagnitude(v)) == v
    ensures v < 512 ==> -255 <= SignMagnitude(v) <= 255
    ensures -255 <= w <= 255 ==> PalVal(w) < 512
  {
  }

  /** count * 65536 + value; zero is left out when it is coded as runs, and 1 would be minus zero. */
  function Key(freq: seq<nat>, useZeroRuns: bool, v: nat): nat
    requires |freq| == 512 && v < 512
  {
    if v == 1 || (v == 0 && useZeroRuns) then 0 else freq[SignMagnitude(v) + 256] * 65536 + v
  }

  /** Value v occurs among the weights that are coded as indices. */
  predicate Used(freq: seq<nat>, useZeroRuns: bool, v: nat)
    requires |freq| == 512 && v < 512
  {
    v != 1 && !(v == 0 && useZeroRuns) && freq[SignMagnitude(v) + 256] > 0
  }

  /** The values that are coded as indices. */
  ghost function UsedValues(freq: seq<nat>, useZeroRuns: bool): (used: set<nat>)
    requires |freq| == 512
    ensures forall v :: v in used <==> v < 512 && Used(freq, useZeroRuns, v)
  {
    set v: nat | v < 512 && Used(freq, useZeroRuns, v)
  }

  lemma KeyParts(freq: seq<nat>, useZeroRuns: bool, v: nat)
    requires |freq| == 512 && v < 512
    ensures Key(freq, useZeroRuns, v) / 65536 > 0 <==> Used(freq, useZeroRuns, v)
    ensures Used(freq, useZeroRuns, v) ==> Key(freq, useZeroRuns, v) % 65536 == v
  {
  }

  ghost predicate IsFrequency(freq: seq<nat>, ws: seq<int>) {
    |freq| == 512 && forall i :: 0 <= i < 512 ==> freq[i] == multiset(ws)[i - 256]
  }

  /** The frequency of each weight. */
  method CalcFreq(inbuf: seq<int>, freq: array<nat>)
    requires freq.Length == 512 && InRange(inbuf)
    modifies freq
    ensures IsFrequency(freq[..], inbuf)
  {
    forall i | 0 <= i < 512 {
      freq[i] := 0;
    }
    for k := 0 to |inbuf|
      invariant forall i :: 0 <= i < 512 ==> freq[i] == multiset(inbuf[..k])[i - 256]
    {
      assert inbuf[..k + 1] == inbuf[..k] + [inbuf[k]];
      freq[inbuf[k] + 256] := freq[inbuf[k] + 256] + 1;
    }
    assert inbuf[..|inbuf|] == inbuf;
  }

  /** keys and allMaxVal take account of the values of weights below i. */
  ghost predicate KeysBelow(freq: seq<nat>, useZeroRuns: bool, i: int, keys: seq<nat>, allMaxVal: nat)
    requires |freq| == 512
  {
    && |keys| == 512 && allMaxVal < 512
    && (forall v :: 0 <= v < 512 ==> keys[v] == if SignMagnitude(v) < i then Key(freq, useZeroRuns, v) else 0)
    && (forall v :: 0 <= v < 512 && SignMagnitude(v) < i && Used(freq, useZeroRuns, v) ==> v <= allMaxVal)
    && (allMaxVal == 0 || Used(freq, useZeroRuns, allMaxVal))
  }

  /** Adds the key of weight i. */
  method AddKey(freq: seq<nat>, useZeroRuns: bool, i: int, keys: seq<nat>, allMaxVal: nat)
    returns (keys': seq<nat>, allMaxVal': nat)
    requires |freq| == 512 && -255 <= i < 256 && !(i == 0 && useZeroRuns)
             && KeysBelow(freq, useZeroRuns, i, keys, allMaxVal)
    ensures KeysBelow(freq, useZeroRuns, i + 1, keys', allMaxVal')
    ensures CountSum(keys') == CountSum(keys) + freq[i + 256]
  {
    var sign := if i < 0 then 1 else 0;
    var mag := if i < 0 then -i else i;
    var palval := mag * 2 + sign;
    KeyAdded(freq, useZeroRuns, i, keys, allMaxVal,
             if freq[i + 256] > 0 && palval > allMaxVal then palval else allMaxVal);
    CountOfKey(freq[i + 256], palval);
    CountSumReplaces(keys, palval, freq[i + 256] * 65536 + palval);
    keys', allMaxVal' := keys[palval := freq[i + 256] * 65536 + palval], allMaxVal;
    if freq[i + 256] > 0 && palval > allMaxVal {
      allMaxVal' := palval;
    }
  }

  lemma CountOfKey(count: nat, v: nat)
    requires v < 65536
    ensures (count * 65536 + v) / 65536 == count
  {
    DivUnique(count * 65536 + v, 65536, count, v);
  }

  lemma KeyAdded(freq: seq<nat>, useZeroRuns: bool, i: int, keys: seq<nat>, allMaxVal: nat, allMaxVal': nat)
    requires |freq| == 512 && -255 <= i < 256 && !(i == 0 && useZeroRuns)
    requires KeysBelow(freq, useZeroRuns, i, keys, allMaxVal)
    requires allMaxVal' == if freq[i + 256] > 0 && PalVal(i) > allMaxVal then PalVal(i) else allMaxVal
    ensures PalVal(i) < 512 && keys[PalVal(i)] == 0
    ensures KeysBelow(freq, useZeroRuns, i + 1, keys[PalVal(i) := freq[i + 256] * 65536 + PalVal(i)], allMaxVal')
  {
    PalValInverts(i, PalVal(i));
    forall v | 0 <= v < 512 && SignMagnitude(v) == i && v != PalVal(i) ensures v == 1 {
      PalValInverts(i, v);
    }
  }

  /** The keys of all values, the number of weights they count, and the greatest value used. */
  method MakeKeys(freq: seq<nat>, useZeroRuns: bool) returns (keys: seq<nat>, allCnt: nat, allMaxVal: nat)
    requires |freq| == 512
    ensures |keys| == 512 && forall v :: 0 <= v < 512 ==> keys[v] == Key(freq, useZeroRuns, v)
    ensures allCnt == CountSum(keys)
    ensures allMaxVal < 512 && forall v :: 0 <= v < 512 && Used(freq, useZeroRuns, v) ==> v <= allMaxVal
    ensures allMaxVal == 0 || Used(freq, useZeroRuns, allMaxVal)
    ensures allCnt == Sum(freq[1..]) - if useZeroRuns then freq[256] else 0
  {
    keys := seq(512, _ => 0);
    CountSumOfZeros(keys);
    allCnt, allMaxVal := 0, 0;
    var i := -255;
    while i < 256
      invariant -255 <= i <= 256 && KeysBelow(freq, useZeroRuns, i, keys, allMaxVal) && allCnt == CountSum(keys)
      invariant allCnt == Sum(freq[1..i + 256]) - if useZeroRuns && i > 0 then freq[256] else 0
    {
      SumSnoc(freq[1..i + 256], freq[i + 256]);
      assert freq[1..i + 256 + 1] == freq[1..i + 256] + [freq[i + 256]];
      if i == 0 && useZeroRuns {
        ZeroHasNoKey(freq, keys, allMaxVal);
      } else {
        keys, allMaxVal := AddKey(freq, useZeroRuns, i, keys, allMaxVal);
        allCnt := allCnt + freq[i + 256];
      }
      i := i + 1;
    }
    assert freq[1..512] == freq[1..];
    forall v | 0 <= v < 512 ensures keys[v] == Key(freq, useZeroRuns, v) {
      PalValInverts(0, v);
    }
  }

  lemma ZeroHasNoKey(freq: seq<nat>, keys: seq<nat>, allMaxVal: nat)
    requires |freq| == 512 && KeysBelow(freq, true, 0, keys, allMaxVal)
    ensures KeysBelow(freq, true, 1, keys, allMaxVal)
  {
    forall v | 0 <= v < 512 && SignMagnitude(v) == 0 && v != PalVal(0) ensures v == 1 {
      PalValInverts(0, v);
    }
  }

  /** The number of unused values around zero, at most 31. */
  method CountUnused(keys: seq<nat>) returns (i: nat)
    requires |keys| == 512
    ensures i <= 31 && (forall v :: 0 <= v < i ==> keys[v] / 65536 == 0) && (i < 31 ==> keys[i] / 65536 != 0)
  {
    i := 0;
    while i < 31
      invariant 0 <= i <= 31 && forall v :: 0 <= v < i ==> keys[v] / 65536 == 0
    {
      if keys[i] / 65536 != 0 {
        break;
      }
      i := i + 1;
    }
  }

  /** The most frequent values, up to `limit` of them. */
  method TakeMostFrequent(keys: seq<nat>, limit: nat) returns (lut: seq<nat>, maxVal: nat, cnt: nat)
    requires |keys| == 512 && limit <= 32
    ensures |lut| <= limit && (|lut| < limit ==> keys[|lut|] / 65536 == 0)
    ensures forall k :: 0 <= k < |lut| ==> lut[k] == keys[k] % 65536 && keys[k] / 65536 > 0 && lut[k] <= maxVal
    ensures cnt == CountSum(keys[..|lut|])
    ensures maxVal == 0 || maxVal in lut
  {
    lut, maxVal, cnt := [], 0, 0;
    var i := 0;
    while i < limit
      invariant 0 <= i <= limit && |lut| == i
      invariant forall k :: 0 <= k < i ==> lut[k] == keys[k] % 65536 && keys[k] / 65536 > 0 && lut[k] <= maxVal
      invariant cnt == CountSum(keys[..i])
      invariant maxVal == 0 || maxVal in lut
    {
      if keys[i] / 65536 == 0 {
        break;
      }
      var val := keys[i] % 65536;
      CountSumInserts(keys[..i], i, keys[i]);
      assert keys[..i][..i] + [keys[i]] + keys[..i][i..] == keys[..i + 1];
      lut := lut + [val];
      if val > maxVal {
        maxVal := val;
      }
      cnt := cnt + keys[i] / 65536;
      i := i + 1;
    }
  }

  /** The number of bits for a value, at least two because PALBITS starts there. */
  method BitWidth(val: nat) returns (bits: nat)
    requires val < 512
    ensures 2 <= bits <= 9 && val < Pow2(bits) && (bits > 2 ==> Pow2(bits - 1) <= val)
  {
    bits := 2;
    assert Pow2(9) == 512 by {
      assert Pow2(5) == 2 * Pow2(4) && Pow2(4) == 2 * Pow2(3) && Pow2(3) == 2 * Pow2(2) && Pow2(2) == 2 * Pow2(1);
      assert Pow2(9) == 2 * Pow2(8) && Pow2(8) == 2 * Pow2(7) && Pow2(7) == 2 * Pow2(6) && Pow2(6) == 2 * Pow2(5);
    }
    while Pow2(bits) <= val
      invariant 2 <= bits <= 9 && (bits > 2 ==> Pow2(bits - 1) <= val)
      decreases 9 - bits
    {
      bits := bits + 1;
    }
  }

  lemma SortedPlace(freq: seq<nat>, useZeroRuns: bool, keys: seq<nat>, sorted: seq<nat>, v: nat) returns (j: nat)
    requires |freq| == 512 && |keys| == |sorted| == 512 && v < 512 && Used(freq, useZeroRuns, v)
    requires forall v :: 0 <= v < 512 ==> keys[v] == Key(freq, useZeroRuns, v)
    requires multiset(sorted) == multiset(keys)
    ensures j < 512 && sorted[j] / 65536 > 0 && sorted[j] % 65536 == v
  {
    KeyParts(freq, useZeroRuns, v);
    assert keys[v] in multiset(sorted);
    j :| 0 <= j < 512 && sorted[j] == keys[v];
  }

  /** Facts about sorted keys, for the values they stand for. */
  lemma SortedKeys(freq: seq<nat>, useZeroRuns: bool, keys: seq<nat>, sorted: seq<nat>)
    requires |freq| == 512 && |keys| == |sorted| == 512
    requires forall v :: 0 <= v < 512 ==> keys[v] == Key(freq, useZeroRuns, v)
    requires Descending(sorted) && multiset(sorted) == multiset(keys)
    ensures forall k :: 0 <= k < 512 && sorted[k] / 65536 > 0 ==>
              sorted[k] % 65536 < 512 && Used(freq, useZeroRuns, sorted[k] % 65536)
    ensures forall v :: 0 <= v < 512 && Used(freq, useZeroRuns, v) ==>
              exists k :: 0 <= k < 512 && sorted[k] / 65536 > 0 && sorted[k] % 65536 == v
  {
    forall k | 0 <= k < 512 && sorted[k] / 65536 > 0
      ensures sorted[k] % 65536 < 512 && Used(freq, useZeroRuns, sorted[k] % 65536)
    {
      assert sorted[k] in multiset(keys);
      var v :| 0 <= v < 512 && keys[v] == sorted[k];
      KeyParts(freq, useZeroRuns, v);
    }
    forall v | 0 <= v < 512 && Used(freq, useZeroRuns, v)
      ensures exists k :: 0 <= k < 512 && sorted[k] / 65536 > 0 && sorted[k] % 65536 == v
    {
      var k := SortedPlace(freq, useZeroRuns, keys, sorted, v);
    }
  }

  /** When every used value is among the first, they account for all weights. */
  lemma AllCounted(sorted: seq<nat>, i: nat)
    requires |sorted| == 512 && Descending(sorted) && i <= 512 && (i < 512 ==> sorted[i] / 65536 == 0)
    ensures CountSum(sorted[..i]) == CountSum(sorted)
    ensures forall k :: i <= k < 512 ==> sorted[k] / 65536 == 0
  {
    forall k | i <= k < 512 ensures sorted[k] / 65536 == 0 {
      if k > i {
        assert sorted[k] <= sorted[i];
      }
    }
    CountSumOfZeros(sorted[i..]);
    CountSumAdds(sorted[..i], sorted[i..]);
    assert sorted[..i] + sorted[i..] == sorted;
  }

  lemma SomethingCounted(sorted: seq<nat>)
    requires |sorted| >= 1
    ensures CountSum(sorted) >= sorted[0] / 65536
  {
  }

  /** A setup fits its fields, and every used value can be expressed through it. */
  ghost predicate Serves(freq: seq<nat>, useZeroRuns: bool, onlyZeros: bool, onlyPalette: bool, setup: Setup) {
    && |freq| == 512 && setup.Valid()
    && (forall k :: 0 <= k < |setup.lut| ==> setup.lut[k] < 512)
    && (onlyZeros <==> forall v :: 0 <= v < 512 ==> !Used(freq, useZeroRuns, v))
    && (onlyZeros ==> setup.directOffset == 0 && setup.lut == [] && !onlyPalette)
    && (onlyPalette ==> setup.lut != [])
    && forall v :: 0 <= v < 512 && Used(freq, useZeroRuns, v) ==> ServesValue(onlyPalette, setup, v)
  }

  ghost predicate ServesValue(onlyPalette: bool, setup: Setup, v: nat) {
    && setup.directOffset <= v
    && (if onlyPalette then v in setup.lut else v + |setup.lut| <= 511)
    && (setup.lut == [] ==> v < Pow2(setup.palbits))
  }

  /** No used value outside the palette is more frequent than an entry. */
  ghost predicate MostFrequent(freq: seq<nat>, useZeroRuns: bool, lut: seq<nat>) {
    && |freq| == 512
    && forall k, v: nat :: 0 <= k < |lut| && v < 512 && Used(freq, useZeroRuns, v) && v !in lut ==>
         lut[k] < 512 && freq[SignMagnitude(lut[k]) + 256] >= freq[SignMagnitude(v) + 256]
  }

  /** The sorted keys carry the frequencies of their values. */
  lemma SortedCounts(freq: seq<nat>, useZeroRuns: bool, keys: seq<nat>, sorted: seq<nat>, k: nat)
    requires |freq| == 512 && |keys| == |sorted| == 512 && k < 512
    requires forall v :: 0 <= v < 512 ==> keys[v] == Key(freq, useZeroRuns, v)
    requires multiset(sorted) == multiset(keys) && sorted[k] / 65536 > 0
    ensures sorted[k] % 65536 < 512 && freq[SignMagnitude(sorted[k] % 65536) + 256] == sorted[k] / 65536
  {
    assert sorted[k] in multiset(keys);
    var v :| 0 <= v < 512 && keys[v] == sorted[k];
    KeyParts(freq, useZeroRuns, v);
  }

  lemma TakenBefore(freq: seq<nat>, useZeroRuns: bool, keys: seq<nat>, sorted: seq<nat>, k: nat, j: nat)
    requires |freq| == 512 && |keys| == |sorted| == 512 && k <= j < 512
    requires forall v :: 0 <= v < 512 ==> keys[v] == Key(freq, useZeroRuns, v)
    requires Descending(sorted) && multiset(sorted) == multiset(keys) && sorted[k] / 65536 > 0 && sorted[j] / 65536 > 0
    ensures sorted[k] % 65536 < 512 && sorted[j] % 65536 < 512
    ensures freq[SignMagnitude(sorted[k] % 65536) + 256] >= freq[SignMagnitude(sorted[j] % 65536) + 256]
  {
    assert sorted[k] >= sorted[j];
    SortedCounts(freq, useZeroRuns, keys, sorted, k);
    SortedCounts(freq, useZeroRuns, keys, sorted, j);
  }

  lemma TakenIsMostFrequent(freq: seq<nat>, useZeroRuns: bool, keys: seq<nat>, sorted: seq<nat>, taken: seq<nat>)
    requires |freq| == 512 && |keys| == |sorted| == 512 && |taken| <= 32
    requires forall v :: 0 <= v < 512 ==> keys[v] == Key(freq, useZeroRuns, v)
    requires Descending(sorted) && multiset(sorted) == multiset(keys)
    requires forall k :: 0 <= k < |taken| ==> taken[k] == sorted[k] % 65536 && sorted[k] / 65536 > 0
    ensures MostFrequent(freq, useZeroRuns, taken)
  {
    forall k: nat, v: nat | k < |taken| && v < 512 && Used(freq, useZeroRuns, v) && v !in taken
      ensures taken[k] < 512 && freq[SignMagnitude(taken[k]) + 256] >= freq[SignMagnitude(v) + 256]
    {
      var j := SortedPlace(freq, useZeroRuns, keys, sorted, v);
      assert j >= |taken|;
      TakenBefore(freq, useZeroRuns, keys, sorted, k, j);
    }
  }

  lemma StillMostFrequent(freq: seq<nat>, useZeroRuns: bool, taken: seq<nat>, lut: seq<nat>)
    requires MostFrequent(freq, useZeroRuns, taken)
    requires lut == taken || lut == [] || forall v: nat :: v < 512 && Used(freq, useZeroRuns, v) ==> v in lut
    ensures MostFrequent(freq, useZeroRuns, lut)
  {
  }

  /** Why the construction serves every used value. */
  lemma ConstructionServes(freq: seq<nat>, useZeroRuns: bool, keys: seq<nat>, sorted: seq<nat>, allMaxVal: nat,
                           unused: nat,
                           onlyZeros: bool, onlyPalette: bool, taken: seq<nat>, setup: Setup, v: nat)
    requires |freq| == 512 && |keys| == |sorted| == 512 && v < 512 && Used(freq, useZeroRuns, v)
    requires forall v :: 0 <= v < 512 ==> keys[v] == Key(freq, useZeroRuns, v)
    requires Descending(sorted) && multiset(sorted) == multiset(keys) && v <= allMaxVal < 512
    requires unused <= 31 && forall v :: 0 <= v < unused ==> keys[v] / 65536 == 0
    requires setup.directOffset == if onlyZeros then 0 else unused
    requires onlyZeros <==> sorted[0] / 65536 == 0
    requires onlyPalette <==> sorted[0] / 65536 > 0 && sorted[32] / 65536 == 0
    requires |taken| <= 32 && forall k :: 0 <= k < |taken| ==> taken[k] == sorted[k] % 65536
    requires onlyPalette ==> taken <= setup.lut && (|taken| < 32 ==> sorted[|taken|] / 65536 == 0)
    requires !onlyPalette ==> |setup.lut| <= 511 - allMaxVal
    requires setup.lut == [] ==> allMaxVal < Pow2(setup.palbits)
    ensures !onlyZeros && ServesValue(onlyPalette, setup, v)
  {
    SortedKeys(freq, useZeroRuns, keys, sorted);
    KeyParts(freq, useZeroRuns, v);
    var k :| 0 <= k < 512 && sorted[k] / 65536 > 0 && sorted[k] % 65536 == v;
    assert sorted[0] >= sorted[k];
    if onlyPalette {
      AllCounted(sorted, |taken|);
      assert taken[k] == v == setup.lut[k];
    }
  }

  /** What the sizes of the construction imply: a single entry only occurs when everything fits the palette. */
  lemma SizeIsNotOne(freq: seq<nat>, useZeroRuns: bool, keys: seq<nat>, sorted: seq<nat>, taken: seq<nat>, limit: nat,
                     onlyZeros: bool, onlyPalette: bool, maxVal: nat, palCnt: nat, allCnt: nat)
    requires |freq| == 512 && |keys| == |sorted| == 512
    requires forall v :: 0 <= v < 512 ==> keys[v] == Key(freq, useZeroRuns, v)
    requires Descending(sorted) && multiset(sorted) == multiset(keys) && CountSum(sorted) == allCnt
    requires onlyZeros <==> sorted[0] / 65536 == 0
    requires onlyPalette <==> sorted[0] / 65536 > 0 && sorted[32] / 65536 == 0
    requires limit <= 32 && limit != 1 && (onlyPalette ==> limit == 32)
    requires |taken| <= limit && (|taken| < limit ==> sorted[|taken|] / 65536 == 0)
    requires forall k :: 0 <= k < |taken| ==>
               taken[k] == sorted[k] % 65536 && sorted[k] / 65536 > 0 && taken[k] <= maxVal
    requires maxVal == 0 || maxVal in taken
    requires palCnt == CountSum(sorted[..|taken|])
    ensures forall k :: 0 <= k < |taken| ==> taken[k] < 512
    ensures maxVal < 512
    ensures onlyPalette ==> taken != [] && palCnt > allCnt / 2
    ensures !onlyPalette ==> |taken| != 1
    ensures onlyZeros ==> taken == [] && palCnt == 0 && forall v :: 0 <= v < 512 ==> !Used(freq, useZeroRuns, v)
    ensures !onlyZeros ==> exists v :: 0 <= v < 512 && Used(freq, useZeroRuns, v)
  {
    SortedKeys(freq, useZeroRuns, keys, sorted);
    if onlyPalette {
      AllCounted(sorted, |taken|);
      SomethingCounted(sorted);
    } else if !onlyZeros && |taken| < limit {
      assert sorted[|taken|] >= sorted[32];
    }
    if onlyZeros {
      AllCounted(sorted, 0);
    }
  }

  // ---- how many values are used, and how often the entries are

  lemma OnceOnly(s: seq<nat>, x: nat, at: nat)
    requires at < |s| && s[at] == x && forall k :: 0 <= k < |s| && k != at ==> s[k] != x
    ensures multiset(s)[x] == 1
  {
    var rest := s[..at] + s[at + 1..];
    assert s == s[..at] + [x] + s[at + 1..];
    assert multiset(s) == multiset(rest) + multiset{x};
    assert x !in rest;
  }

  lemma TwiceAtLeast(s: seq<nat>, x: nat, i: nat, j: nat)
    requires i < j < |s| && s[i] == x && s[j] == x
    ensures multiset(s)[x] >= 2
  {
    var rest := s[..i] + s[i + 1..];
    assert s == s[..i] + [x] + s[i + 1..];
    assert multiset(s) == multiset(rest) + multiset{x};
    assert rest[j - 1] == x;
    assert x in rest;
  }

  /** No two used values have the same place. */
  lemma SortedDistinct(freq: seq<nat>, useZeroRuns: bool, keys: seq<nat>, sorted: seq<nat>, i: nat, j: nat)
    requires |freq| == 512 && |keys| == |sorted| == 512 && i < j < 512
    requires forall v :: 0 <= v < 512 ==> keys[v] == Key(freq, useZeroRuns, v)
    requires multiset(sorted) == multiset(keys) && sorted[i] / 65536 > 0 && sorted[j] / 65536 > 0
    ensures sorted[i] % 65536 != sorted[j] % 65536
  {
    assert sorted[i] in multiset(keys) && sorted[j] in multiset(keys);
    var v :| 0 <= v < 512 && keys[v] == sorted[i];
    var u :| 0 <= u < 512 && keys[u] == sorted[j];
    KeyParts(freq, useZeroRuns, v);
    KeyParts(freq, useZeroRuns, u);
    if u == v {
      TwiceAtLeast(sorted, keys[v], i, j);
      forall k | 0 <= k < 512 && k != v ensures keys[k] != keys[v] {
        KeyParts(freq, useZeroRuns, k);
      }
      OnceOnly(keys, keys[v], v);
    }
  }

  /** The values of the first n sorted keys. */
  function ValuesOf(sorted: seq<nat>, n: nat): (r: seq<nat>)
    requires n <= |sorted|
    ensures |r| == n && forall k :: 0 <= k < n ==> r[k] == sorted[k] % 65536
  {
    seq(n, k requires 0 <= k < n => sorted[k] % 65536)
  }

  lemma ValuesAreUsed(freq: seq<nat>, useZeroRuns: bool, keys: seq<nat>, sorted: seq<nat>, n: nat)
    requires |freq| == 512 && |keys| == |sorted| == 512 && n <= 512
    requires forall v :: 0 <= v < 512 ==> keys[v] == Key(freq, useZeroRuns, v)
    requires Descending(sorted) && multiset(sorted) == multiset(keys)
    requires forall k :: 0 <= k < n ==> sorted[k] / 65536 > 0
    ensures Distinct(ValuesOf(sorted, n))
    ensures forall k :: 0 <= k < n ==> ValuesOf(sorted, n)[k] < 512 && Used(freq, useZeroRuns, ValuesOf(sorted, n)[k])
  {
    SortedKeys(freq, useZeroRuns, keys, sorted);
    forall i, j | 0 <= i < j < n ensures ValuesOf(sorted, n)[i] != ValuesOf(sorted, n)[j] {
      SortedDistinct(freq, useZeroRuns, keys, sorted, i, j);
    }
  }

  lemma UsedAreValues(freq: seq<nat>, useZeroRuns: bool, keys: seq<nat>, sorted: seq<nat>, n: nat, v: nat)
    requires |freq| == 512 && |keys| == |sorted| == 512 && n <= 512
    requires forall v :: 0 <= v < 512 ==> keys[v] == Key(freq, useZeroRuns, v)
    requires Descending(sorted) && multiset(sorted) == multiset(keys)
    requires n < 512 ==> sorted[n] / 65536 == 0
    requires v < 512 && Used(freq, useZeroRuns, v)
    ensures v in ValuesOf(sorted, n)
  {
    AllCounted(sorted, n);
    var k := SortedPlace(freq, useZeroRuns, keys, sorted, v);
    assert ValuesOf(sorted, n)[k] == v;
  }

  /** As many values are used as sorted keys have a count. */
  lemma UsedCount(freq: seq<nat>, useZeroRuns: bool, keys: seq<nat>, sorted: seq<nat>, n: nat)
    requires |freq| == 512 && |keys| == |sorted| == 512 && n <= 512
    requires forall v :: 0 <= v < 512 ==> keys[v] == Key(freq, useZeroRuns, v)
    requires Descending(sorted) && multiset(sorted) == multiset(keys)
    requires forall k :: 0 <= k < n ==> sorted[k] / 65536 > 0
    ensures |UsedValues(freq, useZeroRuns)| >= n
    ensures n < 512 && sorted[n] / 65536 == 0 ==> |UsedValues(freq, useZeroRuns)| == n
  {
    var used, vals := UsedValues(freq, useZeroRuns), ValuesOf(sorted, n);
    var taken := Elements(vals);
    ValuesAreUsed(freq, useZeroRuns, keys, sorted, n);
    DistinctSize(vals);
    SubsetSize(taken, used);
    if n < 512 && sorted[n] / 65536 == 0 {
      forall v | v in used ensures v in taken {
        UsedAreValues(freq, useZeroRuns, keys, sorted, n, v);
      }
      SubsetSize(used, taken);
    }
  }

  /** How often each entry occurs. */
  function Counts(freq: seq<nat>, entries: seq<nat>): (r: seq<nat>)
    requires |freq| == 512 && forall k :: 0 <= k < |entries| ==> entries[k] < 512
    ensures |r| == |entries| && forall k :: 0 <= k < |entries| ==> r[k] == freq[SignMagnitude(entries[k]) + 256]
  {
    seq(|entries|, k requires 0 <= k < |entries| => freq[SignMagnitude(entries[k]) + 256])
  }

  lemma {:induction false} EntriesCount(freq: seq<nat>, useZeroRuns: bool, keys: seq<nat>, sorted: seq<nat>, n: nat)
    requires |freq| == 512 && |keys| == |sorted| == 512 && n <= 512
    requires forall v :: 0 <= v < 512 ==> keys[v] == Key(freq, useZeroRuns, v)
    requires multiset(sorted) == multiset(keys) && forall k :: 0 <= k < n ==> sorted[k] / 65536 > 0
    requires forall k :: 0 <= k < n ==> sorted[k] % 65536 < 512
    ensures CountSum(sorted[..n]) == Sum(Counts(freq, ValuesOf(sorted, n)))
  {
    if n > 0 {
      var m: nat := n - 1;
      EntriesCount(freq, useZeroRuns, keys, sorted, m);
      SortedCounts(freq, useZeroRuns, keys, sorted, m);
      assert sorted[..n] == sorted[..m] + [sorted[m]];
      CountSumAdds(sorted[..m], [sorted[m]]);
      CountSumOfOne(sorted[m]);
      assert Counts(freq, ValuesOf(sorted, n)) == Counts(freq, ValuesOf(sorted, m)) + [sorted[m] / 65536];
      SumSnoc(Counts(freq, ValuesOf(sorted, m)), sorted[m] / 65536);
    }
  }

  /**
   * Which entries are considered, and when they become the palette: they are the most frequent values, and
   * have to cover more than half of the coded weights.
   */
  ghost predicate Chooses(freq: seq<nat>, useZeroRuns: bool, onlyZeros: bool, onlyPalette: bool, largest: nat,
                          coded: int, entries: seq<nat>, lut: seq<nat>, palbits: nat)
  {
    && |freq| == 512 && largest <= 511
    && Distinct(entries) && (forall k :: 0 <= k < |entries| ==> entries[k] < 512 && Used(freq, useZeroRuns, entries[k]))
    && MostFrequent(freq, useZeroRuns, entries)
    && (onlyZeros <==> |UsedValues(freq, useZeroRuns)| == 0)
    && (onlyPalette <==> 1 <= |UsedValues(freq, useZeroRuns)| <= 32)
    && (var room := if largest <= 479 then 32 else if largest == 510 then 0 else 511 - largest;
        |entries| == if onlyPalette || onlyZeros then |UsedValues(freq, useZeroRuns)| else room)
    && lut == (if Sum(Counts(freq, entries)) <= coded / 2 then []
               else if |entries| == 1 then entries + [0] else entries)
    && 2 <= palbits <= 9
    && (if lut == [] then largest < Pow2(palbits) && (palbits > 2 ==> Pow2(palbits - 1) <= largest)
        else (forall k :: 0 <= k < |lut| ==> lut[k] < Pow2(palbits))
             && (palbits > 2 ==> exists k :: 0 <= k < |lut| && Pow2(palbits - 1) <= lut[k]))
  }

  ghost predicate Chosen(freq: seq<nat>, useZeroRuns: bool, onlyZeros: bool, onlyPalette: bool, largest: nat,
                         coded: int, entries: seq<nat>, lut: seq<nat>, palbits: nat)
  {
    forall n: int :: Look(n) ==>
      Chooses(freq, useZeroRuns, onlyZeros, onlyPalette, largest, coded, entries, lut, palbits)
  }

  lemma EntriesAreChosen(freq: seq<nat>, useZeroRuns: bool, keys: seq<nat>, sorted: seq<nat>, limit: nat,
                         onlyZeros: bool, onlyPalette: bool, largest: nat, taken: seq<nat>, maxVal: nat, coded: nat,
                         lut: seq<nat>, val: nat, palbits: nat)
    requires |freq| == 512 && |keys| == |sorted| == 512
    requires forall v :: 0 <= v < 512 ==> keys[v] == Key(freq, useZeroRuns, v)
    requires Descending(sorted) && multiset(sorted) == multiset(keys)
    requires onlyZeros <==> sorted[0] / 65536 == 0
    requires onlyPalette <==> sorted[0] / 65536 > 0 && sorted[32] / 65536 == 0
    requires limit <= 32 && largest <= 511
    requires limit == if onlyPalette || largest <= 479 then 32 else if largest == 510 then 0 else 511 - largest
    requires |taken| <= limit && (|taken| < limit ==> sorted[|taken|] / 65536 == 0)
    requires forall k :: 0 <= k < |taken| ==>
               taken[k] == sorted[k] % 65536 && sorted[k] / 65536 > 0 && taken[k] <= maxVal
    requires maxVal == 0 || maxVal in taken
    requires lut == (if CountSum(sorted[..|taken|]) <= coded / 2 then []
                     else if |taken| == 1 then taken + [0] else taken)
    requires val == if lut == [] then largest else maxVal
    requires 2 <= palbits <= 9 && val < Pow2(palbits) && (palbits > 2 ==> Pow2(palbits - 1) <= val)
    ensures Chosen(freq, useZeroRuns, onlyZeros, onlyPalette, largest, coded, taken, lut, palbits)
  {
    EntriesChosen(freq, useZeroRuns, keys, sorted, limit, onlyZeros, onlyPalette, taken);
    TakenIsMostFrequent(freq, useZeroRuns, keys, sorted, taken);
    ChosenFrom(freq, useZeroRuns, onlyZeros, onlyPalette, largest, taken, maxVal, coded, lut, val, palbits);
  }

  lemma ChosenFrom(freq: seq<nat>, useZeroRuns: bool, onlyZeros: bool, onlyPalette: bool, largest: nat,
                   taken: seq<nat>, maxVal: nat, coded: nat, lut: seq<nat>, val: nat, palbits: nat)
    requires |freq| == 512 && largest <= 511
    requires Distinct(taken) && forall k :: 0 <= k < |taken| ==> taken[k] < 512 && Used(freq, useZeroRuns, taken[k])
    requires MostFrequent(freq, useZeroRuns, taken)
    requires onlyZeros <==> |UsedValues(freq, useZeroRuns)| == 0
    requires onlyPalette <==> 1 <= |UsedValues(freq, useZeroRuns)| <= 32
    requires |taken| == if onlyPalette || onlyZeros then |UsedValues(freq, useZeroRuns)|
                        else if largest <= 479 then 32 else if largest == 510 then 0 else 511 - largest
    requires forall k :: 0 <= k < |taken| ==> taken[k] <= maxVal
    requires maxVal == 0 || maxVal in taken
    requires lut == (if Sum(Counts(freq, taken)) <= coded / 2 then [] else if |taken| == 1 then taken + [0] else taken)
    requires val == if lut == [] then largest else maxVal
    requires 2 <= palbits <= 9 && val < Pow2(palbits) && (palbits > 2 ==> Pow2(palbits - 1) <= val)
    ensures Chosen(freq, useZeroRuns, onlyZeros, onlyPalette, largest, coded, taken, lut, palbits)
  {
    if lut != [] {
      EntriesFit(taken, maxVal, lut, palbits);
    }
  }

  lemma EntriesFit(taken: seq<nat>, maxVal: nat, lut: seq<nat>, palbits: nat)
    requires taken != [] && lut == (if |taken| == 1 then taken + [0] else taken)
    requires (forall k :: 0 <= k < |taken| ==> taken[k] <= maxVal) && (maxVal == 0 || maxVal in taken)
    requires 2 <= palbits && maxVal < Pow2(palbits) && (palbits > 2 ==> Pow2(palbits - 1) <= maxVal)
    ensures forall k :: 0 <= k < |lut| ==> lut[k] < Pow2(palbits)
    ensures palbits > 2 ==> exists k :: 0 <= k < |lut| && Pow2(palbits - 1) <= lut[k]
  {
    if palbits > 2 {
      var k :| 0 <= k < |taken| && taken[k] == maxVal;
      assert lut[k] == maxVal;
    }
  }

  /** How many entries there are: all used values if they are at most 32, else as many as leave room for direct ones. */
  lemma EntriesChosen(freq: seq<nat>, useZeroRuns: bool, keys: seq<nat>, sorted: seq<nat>, limit: nat,
                      onlyZeros: bool, onlyPalette: bool, taken: seq<nat>)
    requires |freq| == 512 && |keys| == |sorted| == 512
    requires forall v :: 0 <= v < 512 ==> keys[v] == Key(freq, useZeroRuns, v)
    requires Descending(sorted) && multiset(sorted) == multiset(keys)
    requires onlyZeros <==> sorted[0] / 65536 == 0
    requires onlyPalette <==> sorted[0] / 65536 > 0 && sorted[32] / 65536 == 0
    requires limit <= 32 && (onlyPalette ==> limit == 32)
    requires |taken| <= limit && (|taken| < limit ==> sorted[|taken|] / 65536 == 0)
    requires forall k :: 0 <= k < |taken| ==> taken[k] == sorted[k] % 65536 && sorted[k] / 65536 > 0
    ensures Distinct(taken) && forall k :: 0 <= k < |taken| ==> taken[k] < 512 && Used(freq, useZeroRuns, taken[k])
    ensures onlyZeros <==> |UsedValues(freq, useZeroRuns)| == 0
    ensures onlyPalette <==> 1 <= |UsedValues(freq, useZeroRuns)| <= 32
    ensures |taken| == if onlyPalette || onlyZeros then |UsedValues(freq, useZeroRuns)| else limit
    ensures CountSum(sorted[..|taken|]) == Sum(Counts(freq, taken))
  {
    var n := |taken|;
    assert taken == ValuesOf(sorted, n);
    ValuesAreUsed(freq, useZeroRuns, keys, sorted, n);
    UsedCount(freq, useZeroRuns, keys, sorted, n);
    EntriesCount(freq, useZeroRuns, keys, sorted, n);
    if onlyZeros {
      UsedCount(freq, useZeroRuns, keys, sorted, 0);
    } else if !onlyPalette {
      ManyUsed(freq, useZeroRuns, keys, sorted);
    }
  }

  lemma ManyUsed(freq: seq<nat>, useZeroRuns: bool, keys: seq<nat>, sorted: seq<nat>)
    requires |freq| == 512 && |keys| == |sorted| == 512
    requires forall v :: 0 <= v < 512 ==> keys[v] == Key(freq, useZeroRuns, v)
    requires Descending(sorted) && multiset(sorted) == multiset(keys) && sorted[32] / 65536 > 0
    ensures |UsedValues(freq, useZeroRuns)| >= 33
  {
    forall k | 0 <= k < 33 ensures sorted[k] / 65536 > 0 {
      if k < 32 {
        assert sorted[k] >= sorted[32];
      }
    }
    UsedCount(freq, useZeroRuns, keys, sorted, 33);
  }

  /** The palette entries, how many of them are used, and the palette bits. */
  method ChooseEntries(sorted: seq<nat>, onlyPalette: bool, allCnt: nat, allMaxVal: nat,
                       ghost freq: seq<nat>, ghost useZeroRuns: bool, ghost keys: seq<nat>, ghost unused: nat,
                       ghost onlyZeros: bool)
    returns (lut: seq<nat>, palsize: nat, palbits: nat, ghost entries: seq<nat>)
    requires |freq| == 512 && |keys| == |sorted| == 512
    requires forall v :: 0 <= v < 512 ==> keys[v] == Key(freq, useZeroRuns, v)
    requires Descending(sorted) && multiset(sorted) == multiset(keys) && CountSum(sorted) == allCnt
    requires allMaxVal < 512 && forall v :: 0 <= v < 512 && Used(freq, useZeroRuns, v) ==> v <= allMaxVal
    requires unused <= 31 && forall v :: 0 <= v < unused ==> keys[v] / 65536 == 0
    requires onlyZeros <==> sorted[0] / 65536 == 0
    requires onlyPalette <==> sorted[0] / 65536 > 0 && sorted[32] / 65536 == 0
    ensures palsize <= |lut|
    ensures Serves(freq, useZeroRuns, onlyZeros, onlyPalette,
                   Setup(lut[..palsize], palbits, if onlyZeros then 0 else unused))
    ensures MostFrequent(freq, useZeroRuns, lut[..palsize])
    ensures Chosen(freq, useZeroRuns, onlyZeros, onlyPalette, allMaxVal, allCnt, entries, lut[..palsize], palbits)
  {
    var maxPaletteSize := RoomFor(onlyPalette, allMaxVal);
    var paletteMaxVal, palCnt;
    lut, paletteMaxVal, palCnt := TakeMostFrequent(sorted, maxPaletteSize);
    ghost var taken := lut;
    entries := taken;
    SizeIsNotOne(freq, useZeroRuns, keys, sorted, taken, maxPaletteSize, onlyZeros, onlyPalette, paletteMaxVal,
                 palCnt, allCnt);
    if |lut| == 1 {
      lut := lut + [0];
    }
    var palbitsVal;
    if palCnt > allCnt / 2 {
      palsize := |lut|;
      palbitsVal := paletteMaxVal;
    } else {
      palsize := 0;
      palbitsVal := allMaxVal;
    }
    palbits := BitWidth(palbitsVal);
    EntriesAreChosen(freq, useZeroRuns, keys, sorted, maxPaletteSize, onlyZeros, onlyPalette, allMaxVal, taken,
                     paletteMaxVal, allCnt, lut[..palsize], palbitsVal, palbits);
    assert forall k :: 0 <= k < |lut| ==> lut[k] == if k < |taken| then taken[k] else 0;
    EntriesServe(freq, useZeroRuns, keys, sorted, allMaxVal, unused, onlyZeros, onlyPalette, taken,
                 Setup(lut[..palsize], palbits, if onlyZeros then 0 else unused));
  }

  /** The setup made of the entries serves what is used, and no value left out is more frequent. */
  lemma EntriesServe(freq: seq<nat>, useZeroRuns: bool, keys: seq<nat>, sorted: seq<nat>, allMaxVal: nat, unused: nat,
                     onlyZeros: bool, onlyPalette: bool, taken: seq<nat>, setup: Setup)
    requires |freq| == 512 && |keys| == |sorted| == 512
    requires forall v :: 0 <= v < 512 ==> keys[v] == Key(freq, useZeroRuns, v)
    requires Descending(sorted) && multiset(sorted) == multiset(keys)
    requires allMaxVal < 512 && forall v :: 0 <= v < 512 && Used(freq, useZeroRuns, v) ==> v <= allMaxVal
    requires unused <= 31 && forall v :: 0 <= v < unused ==> keys[v] / 65536 == 0
    requires setup.directOffset == if onlyZeros then 0 else unused
    requires onlyZeros <==> sorted[0] / 65536 == 0
    requires onlyZeros <==> forall v :: 0 <= v < 512 ==> !Used(freq, useZeroRuns, v)
    requires onlyPalette <==> sorted[0] / 65536 > 0 && sorted[32] / 65536 == 0
    requires |taken| <= 32 && forall k :: 0 <= k < |taken| ==>
               taken[k] == sorted[k] % 65536 && sorted[k] / 65536 > 0 && taken[k] < 512
    requires onlyPalette ==> taken != [] && (|taken| < 32 ==> sorted[|taken|] / 65536 == 0)
    requires setup.lut == [] || setup.lut == taken || (onlyPalette && setup.lut == taken + [0] && |taken| == 1)
    requires onlyPalette ==> setup.lut != []
    requires onlyZeros ==> setup.lut == []
    requires !onlyPalette ==> |setup.lut| <= 511 - allMaxVal
    requires setup.lut == [] ==> allMaxVal < Pow2(setup.palbits)
    requires setup.Valid()
    ensures Serves(freq, useZeroRuns, onlyZeros, onlyPalette, setup) && MostFrequent(freq, useZeroRuns, setup.lut)
  {
    TakenIsMostFrequent(freq, useZeroRuns, keys, sorted, taken);
    ServesAll(freq, useZeroRuns, keys, sorted, allMaxVal, unused, onlyZeros, onlyPalette, taken, setup);
    if setup.lut == taken + [0] {
      forall v: nat | v < 512 && Used(freq, useZeroRuns, v) ensures v in setup.lut {
        assert ServesValue(onlyPalette, setup, v);
      }
    }
    StillMostFrequent(freq, useZeroRuns, taken, setup.lut);
  }

  /** How many entries a palette may have. */
  method RoomFor(onlyPalette: bool, allMaxVal: nat) returns (room: nat)
    requires allMaxVal < 512
    ensures room == if onlyPalette || allMaxVal <= 479 then 32 else if allMaxVal == 510 then 0 else 511 - allMaxVal
  {
    if onlyPalette {
      room := 32;
    } else {
      // direct values follow the palette and must not exceed 511
      room := if 32 < 511 - allMaxVal then 32 else 511 - allMaxVal;
      if room == 1 {
        room := 0;
      }
    }
  }

  lemma ServesAll(freq: seq<nat>, useZeroRuns: bool, keys: seq<nat>, sorted: seq<nat>, allMaxVal: nat, unused: nat,
                  onlyZeros: bool, onlyPalette: bool, taken: seq<nat>, setup: Setup)
    requires |freq| == 512 && |keys| == |sorted| == 512
    requires forall v :: 0 <= v < 512 ==> keys[v] == Key(freq, useZeroRuns, v)
    requires Descending(sorted) && multiset(sorted) == multiset(keys)
    requires allMaxVal < 512 && forall v :: 0 <= v < 512 && Used(freq, useZeroRuns, v) ==> v <= allMaxVal
    requires unused <= 31 && forall v :: 0 <= v < unused ==> keys[v] / 65536 == 0
    requires setup.directOffset == if onlyZeros then 0 else unused
    requires onlyZeros <==> sorted[0] / 65536 == 0
    requires onlyPalette <==> sorted[0] / 65536 > 0 && sorted[32] / 65536 == 0
    requires |taken| <= 32 && forall k :: 0 <= k < |taken| ==> taken[k] == sorted[k] % 65536
    requires onlyPalette ==> taken <= setup.lut && (|taken| < 32 ==> sorted[|taken|] / 65536 == 0)
    requires !onlyPalette ==> |setup.lut| <= 511 - allMaxVal
    requires setup.lut == [] ==> allMaxVal < Pow2(setup.palbits)
    ensures forall v :: 0 <= v < 512 && Used(freq, useZeroRuns, v) ==> !onlyZeros && ServesValue(onlyPalette, setup, v)
  {
    forall v | 0 <= v < 512 && Used(freq, useZeroRuns, v) ensures !onlyZeros && ServesValue(onlyPalette, setup, v) {
      ConstructionServes(freq, useZeroRuns, keys, sorted, allMaxVal, unused, onlyZeros, onlyPalette, taken, setup, v);
    }
  }

  /** What is coded: the weight k, or -k, if it occurs, but not zero in runs, and never minus zero. */
  lemma UsedInNumbers(freq: seq<nat>, useZeroRuns: bool, k: nat)
    requires |freq| == 512 && k < 256
    ensures Used(freq, useZeroRuns, 2 * k) <==> freq[256 + k] > 0 && !(k == 0 && useZeroRuns)
    ensures Used(freq, useZeroRuns, 2 * k + 1) <==> freq[256 - k] > 0 && k > 0
  {
  }

  /** When a palette is used: its entries, the most frequent values, cover more than half of what is coded. */
  lemma ChosenInNumbers(freq: seq<nat>, useZeroRuns: bool, onlyZeros: bool, onlyPalette: bool, largest: nat,
                        coded: int, entries: seq<nat>, lut: seq<nat>, palbits: nat)
    requires Chosen(freq, useZeroRuns, onlyZeros, onlyPalette, largest, coded, entries, lut, palbits)
    ensures |freq| == 512 && Distinct(entries)
    ensures forall k :: 0 <= k < |entries| ==> entries[k] < 512 && Used(freq, useZeroRuns, entries[k])
    ensures forall k, v :: 0 <= k < |entries| && 0 <= v < 512 && Used(freq, useZeroRuns, v) && v !in entries ==>
              freq[SignMagnitude(entries[k]) + 256] >= freq[SignMagnitude(v) + 256]
    ensures onlyZeros <==> |UsedValues(freq, useZeroRuns)| == 0
    ensures onlyPalette <==> 1 <= |UsedValues(freq, useZeroRuns)| <= 32
    ensures |entries| == if onlyPalette || onlyZeros then |UsedValues(freq, useZeroRuns)|
                         else if largest <= 479 then 32 else if largest == 510 then 0 else 511 - largest
    ensures lut == if 2 * Sum(Counts(freq, entries)) <= coded then []
                   else if |entries| == 1 then entries + [0] else entries
    ensures 2 <= palbits <= 9
    ensures if lut == [] then largest < Pow2(palbits) && (palbits > 2 ==> Pow2(palbits - 1) <= largest)
            else (forall k :: 0 <= k < |lut| ==> lut[k] < Pow2(palbits))
                 && (palbits > 2 ==> exists k :: 0 <= k < |lut| && Pow2(palbits - 1) <= lut[k])
  {
    assert Look(0);
  }

  class Palette {
    var lut: seq<nat>
    var invLut: seq<int>
    var palsize: nat
    var palbits: nat
    var useZeroRuns: bool
    var onlyPalette: bool
    var directOffset: nat
    var onlyZeros: bool

    constructor ()
    {
      lut, invLut := [], [];
      palsize, palbits, directOffset := 0, 0, 0;
      useZeroRuns, onlyPalette, onlyZeros := false, false, false;
    }

    function Setup(): Setup
      reads this
      requires palsize <= |lut|
    {
      SliceFormat.Setup(lut[..palsize], palbits, directOffset)
    }

    /** Builds the palette for the given frequencies. */
    method Create(freq: seq<nat>, zeroRuns: bool)
      returns (ghost entries: seq<nat>, ghost largest: nat, ghost coded: int)
      requires |freq| == 512
      modifies this
      ensures palsize <= |lut| && Serves(freq, useZeroRuns, onlyZeros, onlyPalette, Setup()) && useZeroRuns == zeroRuns
      ensures MostFrequent(freq, useZeroRuns, Setup().lut)
      ensures !onlyZeros && directOffset < 31 ==> Used(freq, useZeroRuns, directOffset)
      ensures largest < 512 && (largest == 0 || Used(freq, useZeroRuns, largest))
      ensures forall v :: 0 <= v < 512 && Used(freq, useZeroRuns, v) ==> v <= largest
      ensures coded == Sum(freq[1..]) - if useZeroRuns then freq[256] else 0
      ensures Chosen(freq, useZeroRuns, onlyZeros, onlyPalette, largest, coded, entries, Setup().lut, palbits)
    {
      var keys, allCnt, allMaxVal := MakeKeys(freq, zeroRuns);
      var unused := CountUnused(keys);
      directOffset := unused;
      var sorted := SortDescending(keys);

      if unused < 31 {
        KeyParts(freq, zeroRuns, unused);
      }
      onlyZeros := sorted[0] / 65536 == 0;
      if onlyZeros {
        directOffset := 0;
      }
      onlyPalette := sorted[0] / 65536 > 0 && sorted[32] / 65536 == 0;
      lut, palsize, palbits, entries := ChooseEntries(sorted, onlyPalette, allCnt, allMaxVal, freq, zeroRuns, keys,
                                                      unused, onlyZeros);
      largest, coded := allMaxVal, allCnt;
      useZeroRuns := zeroRuns;
    }

    /** Builds the inverse: the index of every weight, direct unless a palette entry stands for it. */
    method CreateInverse()
      requires palsize <= |lut| && forall k :: 0 <= k < palsize ==> lut[k] < 512
      modifies this`invLut
      ensures Inverts(invLut, Setup())
    {
      invLut := DirectIndices(palsize, directOffset);
      var i := 0;
      while i < palsize
        invariant 0 <= i <= palsize && |invLut| == 512
        invariant forall w :: -255 <= w <= 255 ==> IndexAt(invLut, lut[..i], palsize, directOffset, w)
      {
        var weight := SignMagnitude(lut[i]);
        PalValInverts(weight, lut[i]);
        assert lut[..i + 1] == lut[..i] + [lut[i]];
        ghost var was, entries := invLut, lut[..i + 1];
        invLut := invLut[weight + 256 := i];
        forall w | -255 <= w <= 255 ensures IndexAt(invLut, entries, palsize, directOffset, w) {
          assert IndexAt(was, lut[..i], palsize, directOffset, w);
          IndexForMore(lut[..i], lut[i], palsize, directOffset, was[w + 256], w);
        }
        i := i + 1;
      }
    }

    /** Decides about zero runs for a section and builds its palette. */
    method Find(inbuf: seq<int>)
      requires InRange(inbuf) && inbuf != []
      modifies this
      ensures palsize <= |lut| && Inverts(invLut, Setup())
      ensures CodesSection(inbuf, useZeroRuns, onlyZeros, onlyPalette, Setup(), invLut)
      ensures useZeroRuns <==>
              forall w :: -256 <= w < 256 && w != 0 ==> multiset(inbuf)[0] > 4 * multiset(inbuf)[w]
      ensures useZeroRuns ==> 0 in inbuf
    {
      var counts := new nat[512];
      CalcFreq(inbuf, counts);
      var freq := counts[..];
      var zeroRuns := ZeroDominates(freq);
      assert zeroRuns <==>
             forall w :: -256 <= w < 256 && w != 0 ==> multiset(inbuf)[0] > 4 * multiset(inbuf)[w] by {
        assert freq[256] == multiset(inbuf)[0];
        forall w | -256 <= w < 256 ensures multiset(inbuf)[w] == freq[w + 256] {
          assert freq[w + 256] == multiset(inbuf)[w + 256 - 256];
        }
        if !zeroRuns {
          var i :| 0 <= i < 512 && i != 256 && !(freq[256] > ZERO_RUN_THRES * freq[i]);
          assert multiset(inbuf)[i - 256] == freq[i];
        }
      }
      assert zeroRuns ==> 0 in inbuf by {
        assert multiset(inbuf)[1] >= 0;
      }
      ghost var entries, largest, coded := Create(freq, zeroRuns);
      CreateInverse();
      ServesCodes(freq, inbuf, useZeroRuns, onlyZeros, onlyPalette, Setup(), invLut);
    }
  }

  // ---- indices

  /** The directly coded form; zero is sent as minus zero. */
  function Direct(w: int): nat {
    if w == 0 then 1 else PalVal(w)
  }

  /** index stands for weight w: an entry of the palette, or direct if no entry does. */
  predicate IndexFor(lut: seq<nat>, palsize: nat, directOffset: nat, index: int, w: int) {
    || (0 <= index < |lut| && SignMagnitude(lut[index]) == w)
    || ((forall k :: 0 <= k < |lut| ==> SignMagnitude(lut[k]) != w) && index == Direct(w) + palsize - directOffset)
  }

  predicate IndexAt(invLut: seq<int>, lut: seq<nat>, palsize: nat, directOffset: nat, w: int) {
    0 <= w + 256 < |invLut| && IndexFor(lut, palsize, directOffset, invLut[w + 256], w)
  }

  ghost predicate Inverts(invLut: seq<int>, setup: Setup) {
    |invLut| == 512 && forall w :: -255 <= w <= 255 ==> IndexAt(invLut, setup.lut, |setup.lut|, setup.directOffset, w)
  }

  lemma IndexForMore(lut: seq<nat>, val: nat, palsize: nat, directOffset: nat, index: int, w: int)
    requires IndexFor(lut, palsize, directOffset, index, w)
    ensures IndexFor(lut + [val], palsize, directOffset, if w == SignMagnitude(val) then |lut| else index, w)
  {
    if w != SignMagnitude(val) && 0 <= index < |lut| && SignMagnitude(lut[index]) == w {
      assert (lut + [val])[index] == lut[index];
    }
  }

  method DirectIndices(palsize: nat, directOffset: nat) returns (inv: seq<int>)
    ensures |inv| == 512 && forall w :: -255 <= w <= 255 ==> inv[w + 256] == Direct(w) + palsize - directOffset
  {
    inv := seq(512, _ => 0);
    var i := 0;
    while i < 512
      invariant 0 <= i <= 512 && |inv| == 512
      invariant forall w :: -255 <= w <= 255 && Direct(w) < i ==> inv[w + 256] == Direct(w) + palsize - directOffset
    {
      var weight := SignMagnitude(i);
      PalValInverts(weight, i);
      forall w | -255 <= w <= 255 && Direct(w) == i ensures w == weight {
        PalValInverts(w, i);
      }
      forall w | -255 <= w <= 255 && Direct(w) < i ensures w != weight || i == 0 || i == 1 {
        PalValInverts(w, i);
      }
      inv := inv[weight + 256 := i + palsize - directOffset];
      i := i + 1;
    }
    forall w | -255 <= w <= 255 ensures Direct(w) < 512 {
      PalValInverts(w, 0);
    }
  }

  /** Whether zeros are sent as runs: zero is more than four times as frequent as any other weight. */
  method ZeroDominates(freq: seq<nat>) returns (r: bool)
    requires |freq| == 512
    ensures r <==> forall i :: 0 <= i < 512 && i != 256 ==> freq[256] > ZERO_RUN_THRES * freq[i]
  {
    var freq0, val0, freq1, val1 := 0, 0, 0, 0;
    var i := 0;
    while i < 512
      invariant 0 <= i <= 512
      invariant forall k :: 0 <= k < i ==> freq[k] <= freq0 && (k - 256 != val0 || freq0 == 0 ==> freq[k] <= freq1)
      invariant freq1 <= freq0
      invariant if freq0 == 0 then val0 == 0 else 0 <= val0 + 256 < i && freq[val0 + 256] == freq0
      invariant freq1 > 0 ==> 0 <= val1 + 256 < i && freq[val1 + 256] == freq1 && val1 != val0
    {
      if freq[i] > freq0 {
        freq1, val1 := freq0, val0;
        freq0, val0 := freq[i], i - 256;
      } else if freq[i] > freq1 {
        freq1, val1 := freq[i], i - 256;
      }
      i := i + 1;
    }
    r := val0 == 0 && freq0 > ZERO_RUN_THRES * freq1;
    if !r {
      // val0, val1 or, if nothing occurs, any weight is a counterexample
      ghost var k := if val0 != 0 then val0 + 256 else if freq1 > 0 then val1 + 256 else 0;
      assert 0 <= k < 512 && k != 256 && !(freq[256] > ZERO_RUN_THRES * freq[k]);
    }
  }

  // ---- what encoder and decoder rely on

  /** The weight is sent as an index, not as part of a run. */
  predicate Coded(w: int, useZeroRuns: bool, onlyZeros: bool) {
    w != 0 || !useZeroRuns || onlyZeros
  }

  /**
   * The index of a coded weight has nine bits, decodes to the weight, and fits uncompressed mode where
   * that is allowed.
   */
  ghost predicate CodesWeight(onlyPalette: bool, setup: Setup, index: int, w: int) {
    && 0 <= index < 512
    && WeightOf(setup, index) == w
    && (onlyPalette || setup.lut == [] ==> index < Pow2(setup.UncompressedBits()))
  }

  ghost predicate CodesSection(ws: seq<int>, useZeroRuns: bool, onlyZeros: bool, onlyPalette: bool, setup: Setup,
                               invLut: seq<int>) {
    && |invLut| == 512 && setup.Valid()
    && (onlyPalette ==> setup.lut != [])
    && (onlyZeros ==> useZeroRuns && forall i :: 0 <= i < |ws| ==> ws[i] == 0)
    && (useZeroRuns && !onlyZeros ==> exists i :: 0 <= i < |ws| && ws[i] != 0)
    && forall i :: 0 <= i < |ws| && Coded(ws[i], useZeroRuns, onlyZeros) ==>
         -255 <= ws[i] <= 255 && CodesWeight(onlyPalette, setup, invLut[ws[i] + 256], ws[i])
  }

  lemma UsedWeight(freq: seq<nat>, ws: seq<int>, useZeroRuns: bool, w: int)
    requires IsFrequency(freq, ws) && -255 <= w <= 255 && w in ws && !(w == 0 && useZeroRuns)
    ensures PalVal(w) < 512 && Used(freq, useZeroRuns, PalVal(w))
  {
    PalValInverts(w, 0);
    assert freq[w + 256] == multiset(ws)[w] > 0;
  }

  /** Palette inversion: the decoder's palette/direct rule maps the index of a weight back to it. */
  lemma IndexDecodes(freq: seq<nat>, ws: seq<int>, useZeroRuns: bool, onlyZeros: bool, onlyPalette: bool,
                     setup: Setup, index: int, w: int)
    requires IsFrequency(freq, ws) && Serves(freq, useZeroRuns, onlyZeros, onlyPalette, setup)
    requires -255 <= w <= 255 && w in ws && Coded(w, useZeroRuns, onlyZeros)
    requires IndexFor(setup.lut, |setup.lut|, setup.directOffset, index, w)
    ensures CodesWeight(onlyPalette, setup, index, w)
  {
    Pow2Monotonic(2, setup.palbits);
    assert Pow2(2) == 2 * Pow2(1) && Pow2(1) == 2 * Pow2(0);
    if onlyZeros {
      if w != 0 {
        UsedWeight(freq, ws, useZeroRuns, w);
      }
    } else {
      var v := PalVal(w);
      UsedWeight(freq, ws, useZeroRuns, w);
      assert ServesValue(onlyPalette, setup, v);
      PalValInverts(w, v);
      if onlyPalette {
        var k :| 0 <= k < |setup.lut| && setup.lut[k] == v;
      }
    }
  }

  lemma ServesCodes(freq: seq<nat>, ws: seq<int>, useZeroRuns: bool, onlyZeros: bool, onlyPalette: bool,
                    setup: Setup, invLut: seq<int>)
    requires InRange(ws) && ws != []
    requires IsFrequency(freq, ws) && Serves(freq, useZeroRuns, onlyZeros, onlyPalette, setup) && Inverts(invLut, setup)
    ensures CodesSection(ws, useZeroRuns, onlyZeros, onlyPalette, setup, invLut)
  {
    forall i | 0 <= i < |ws| && Coded(ws[i], useZeroRuns, onlyZeros)
      ensures CodesWeight(onlyPalette, setup, invLut[ws[i] + 256], ws[i])
    {
      assert IndexAt(invLut, setup.lut, |setup.lut|, setup.directOffset, ws[i]);
      IndexDecodes(freq, ws, useZeroRuns, onlyZeros, onlyPalette, setup, invLut[ws[i] + 256], ws[i]);
    }
    if onlyZeros {
      forall i | 0 <= i < |ws| ensures useZeroRuns && ws[i] == 0 {
        if ws[i] != 0 || !useZeroRuns {
          UsedWeight(freq, ws, useZeroRuns, ws[i]);
        }
      }
    } else if useZeroRuns {
      var v :| 0 <= v < 512 && Used(freq, useZeroRuns, v);
      PalValInverts(0, v);
      assert multiset(ws)[SignMagnitude(v)] > 0;
      assert SignMagnitude(v) in ws;
    }
  }
}
