/** Whole streams: end markers, alignment and padding are consumed exactly, so streams can be concatenated. */
module StreamRoundTrip {
  import opened Results
  import opened Bits
  import opened SliceFormat
  import opened DecodeSpec
  import opened Lockstep
  import opened Sequences

  function Ones(k: nat): (s: seq<bool>)
    ensures |s| == k
  {
    seq(k, _ => true)
  }

  lemma ThreeOnes(tail: seq<bool>)
    ensures TakeNum(Ones(3) + tail, 3) == Ok((ZDIV_EOS, tail))
  {
    assert BitsOf(3, 7) == [true] + ([true] + ([true] + BitsOf(0, 0)));
    assert Ones(3) == BitsOf(3, 7);
    FieldWidths();
    TakeNumAppends(3, 7, tail);
  }

  /** The field at which a non-empty run of streams starts is not an end marker. */
  predicate StartsSlice(more: seq<bool>, zdiv: nat, tail: seq<bool>) {
    zdiv != ZDIV_EOS && tail != [] && |more| % 8 == 0 && TakeNum(more, 3) == Ok((zdiv, tail))
  }

  lemma OnesAppend(a: nat, b: nat, more: seq<bool>)
    ensures Ones(a + b) + more == Ones(a) + (Ones(b) + more)
    ensures (Ones(a + b) + more)[a..] == Ones(b) + more
  {
    assert Ones(a + b) == Ones(a) + Ones(b);
    AppendAssociates(Ones(a), Ones(b), more);
    var rest := Ones(b) + more;
    assert (Ones(a) + rest)[a..] == rest;
  }

  lemma MultipleAdded(a: nat, b: nat, m: nat)
    requires m > 0 && b % m == 0
    ensures (a + b) % m == a % m
  {
    assert b == m * (b / m);
    assert m * (a / m + b / m) == m * (a / m) + m * (b / m);
    DivUnique(a + b, m, a / m + b / m, a % m);
  }

  /** After an end marker, any number of ones is skipped, up to the next slice or the end of the input. */
  lemma {:induction false} SkipOnes(k: nat, more: seq<bool>, zdiv: nat, tail: seq<bool>, first: bool)
    requires more == [] || StartsSlice(more, zdiv, tail)
    ensures SkipMarkers(ZDIV_EOS, Ones(k) + more, first) == if more == [] then Ok((ZDIV_EOS, [], true))
            else Ok((zdiv, tail, true))
    decreases k
  {
    MultipleAdded(k, |more|, 8);
    OnesAppend(k % 8, k - k % 8, more);
    SkipWholeBytes(Ones(k) + more, k - k % 8, more, zdiv, tail, first);
  }

  lemma {:induction false} SkipWholeBytes(rest: seq<bool>, k: nat, more: seq<bool>, zdiv: nat, tail: seq<bool>,
                                          first: bool)
    requires more == [] || StartsSlice(more, zdiv, tail)
    requires k % 8 == 0 && rest[|rest| % 8..] == Ones(k) + more
    ensures SkipMarkers(ZDIV_EOS, rest, first) == if more == [] then Ok((ZDIV_EOS, [], true))
            else Ok((zdiv, tail, true))
    decreases k, 0
  {
    if k == 0 {
      assert Ones(0) + more == more;
    } else {
      OnesAppend(3, k - 3, more);
      ThreeOnes(Ones(k - 3) + more);
      SkipOnes(k - 3, more, zdiv, tail, true);
    }
  }

  /** The trailer of a stream only resets `first`. */
  lemma TrailerReads(k: nat, more: seq<bool>, zdiv: nat, tail: seq<bool>, st: State)
    requires k >= 3
    requires more == [] || StartsSlice(more, zdiv, tail)
    ensures DecodeFrom(Ones(k) + more, st) == if more == [] then Ok([]) else DecodeFrom(more, st.(first := true))
  {
    OnesAppend(3, k - 3, more);
    ThreeOnes(Ones(k - 3) + more);
    SkipOnes(k - 3, more, zdiv, tail, st.first);
    DecodeFromUnfolds(Ones(k) + more, st);
    if more != [] {
      DecodeFromUnfolds(more, st.(first := true));
    }
  }

  /** DecodeFrom depends on its input only through the slice that comes next. */
  lemma DecodeFromUnfolds(rest: seq<bool>, st: State)
    requires TakeNum(rest, 3).Ok?
    requires SkipMarkers(TakeNum(rest, 3).value.0, TakeNum(rest, 3).value.1, st.first).Ok?
    ensures var (zdiv, tail, first) := SkipMarkers(TakeNum(rest, 3).value.0, TakeNum(rest, 3).value.1, st.first).value;
            DecodeFrom(rest, st) == if tail == [] then Ok([]) else DecodeNext(zdiv, tail, st.(first := first))
  {
  }

  lemma SliceStarts(s: Slice, more: seq<bool>)
    requires s.Valid()
    ensures TakeNum(SliceBits(s) + more, 3) == Ok((ZdivField(s), AfterZdiv(s) + more))
    ensures ZdivField(s) != ZDIV_EOS && AfterZdiv(s) + more != []
  {
    FieldWidths();
    AppendAssociates(BitsOf(3, ZdivField(s)), AfterZdiv(s), more);
    TakeNumAppends(3, ZdivField(s), AfterZdiv(s) + more);
  }

  /** One slice of a stream, then the rest. */
  lemma SliceThenRest(s: Slice, st: State, more: seq<bool>, r: Result<seq<int>>)
    requires s.Valid() && Accepts(st, s)
    requires r == DecodeFrom(more, After(s)) && r.Ok?
    ensures DecodeFrom(SliceBits(s) + more, st) == Ok(Expand(s) + r.value)
  {
    SliceStarts(s, more);
    SliceReads(s, st, more);
    DecodeFromUnfolds(SliceBits(s) + more, st);
    assert st.(first := st.first) == st;
  }

  // ---- several streams

  predicate ValidStream(ss: seq<Slice>) {
    ss != [] && ss[0].newPalette && ValidSlices(ss)
  }

  predicate ValidStreams(sss: seq<seq<Slice>>) {
    forall i :: 0 <= i < |sss| ==> ValidStream(sss[i])
  }

  function StreamsBits(sss: seq<seq<Slice>>): seq<bool> {
    if sss == [] then [] else StreamBits(sss[0]) + StreamsBits(sss[1..])
  }

  function StreamsWeights(sss: seq<seq<Slice>>): seq<int>
    requires ValidStreams(sss)
  {
    if sss == [] then []
    else
      assert ValidStream(sss[0]);
      ExpandAll(sss[0]) + StreamsWeights(sss[1..])
  }

  lemma WholeBytes(n: nat)
    requires n % 128 == 0
    ensures n % 8 == 0
  {
    DivUnique(n, 8, 16 * (n / 128), 0);
  }

  lemma StreamsLength(sss: seq<seq<Slice>>)
    requires sss != []
    ensures |StreamsBits(sss)| == |StreamBits(sss[0])| + |StreamsBits(sss[1..])|
  {
  }

  /** How many bytes streams take. */
  lemma {:induction false} StreamsBytes(sss: seq<seq<Slice>>) returns (n: nat)
    ensures |StreamsBits(sss)| == 8 * n
  {
    if sss == [] {
      n := 0;
    } else {
      var more := StreamsBytes(sss[1..]);
      StreamsLength(sss);
      n := 16 * (|StreamBits(sss[0])| / 128) + more;
    }
  }

  lemma StreamsAligned(sss: seq<seq<Slice>>)
    ensures |StreamsBits(sss)| % 8 == 0
  {
    var n := StreamsBytes(sss);
    DivUnique(|StreamsBits(sss)|, 8, n, 0);
  }

  /** The bits of the first stream: its first slice, the others, the trailer, and the other streams. */
  lemma StreamsBitsUnfold(sss: seq<seq<Slice>>)
    requires sss != []
    ensures StreamsBits(sss) == SlicesBits(sss[0]) + (Trailer(|SlicesBits(sss[0])|) + StreamsBits(sss[1..]))
  {
    AppendAssociates(SlicesBits(sss[0]), Trailer(|SlicesBits(sss[0])|), StreamsBits(sss[1..]));
  }

  lemma StreamsStart(sss: seq<seq<Slice>>)
    requires sss != [] && ValidStreams(sss)
    ensures exists zdiv, tail :: StartsSlice(StreamsBits(sss), zdiv, tail)
  {
    var ss := sss[0];
    assert ValidStream(ss);
    var after := Trailer(|SlicesBits(ss)|) + StreamsBits(sss[1..]);
    StreamsBitsUnfold(sss);
    AppendAssociates(SliceBits(ss[0]), SlicesBits(ss[1..]), after);
    SliceStarts(ss[0], SlicesBits(ss[1..]) + after);
    StreamsAligned(sss);
    assert StartsSlice(StreamsBits(sss), ZdivField(ss[0]), AfterZdiv(ss[0]) + (SlicesBits(ss[1..]) + after));
  }

  lemma TailIsValid(ss: seq<Slice>)
    requires ValidSlices(ss) && ss != []
    ensures ValidSlices(ss[1..]) && (ss[1..] != [] ==> Accepts(After(ss[0]), ss[1..][0]))
  {
    if |ss| > 1 {
      assert Continues(ss[0], ss[1]);
    }
  }

  /** What is left of one stream, its trailer of k bits, and then further streams. */
  lemma {:induction false} DecodeRest(ss: seq<Slice>, k: nat, sss: seq<seq<Slice>>, st: State)
    requires ValidSlices(ss) && (ss != [] ==> Accepts(st, ss[0]))
    requires k >= 3 && ValidStreams(sss)
    ensures DecodeFrom(SlicesBits(ss) + (Ones(k) + StreamsBits(sss)), st) == Ok(ExpandAll(ss) + StreamsWeights(sss))
    decreases |sss|, 1, |ss|
  {
    var more := Ones(k) + StreamsBits(sss);
    if ss != [] {
      TailIsValid(ss);
      AppendAssociates(SliceBits(ss[0]), SlicesBits(ss[1..]), more);
      DecodeRest(ss[1..], k, sss, After(ss[0]));
      SliceThenRest(ss[0], st, SlicesBits(ss[1..]) + more, Ok(ExpandAll(ss[1..]) + StreamsWeights(sss)));
      AppendAssociates(Expand(ss[0]), ExpandAll(ss[1..]), StreamsWeights(sss));
    } else {
      NothingBefore(SlicesBits(ss), more);
      NothingBefore(ExpandAll(ss), StreamsWeights(sss));
      DecodeTrailer(k, sss, st);
    }
  }

  lemma DecodeTrailer(k: nat, sss: seq<seq<Slice>>, st: State)
    requires k >= 3 && ValidStreams(sss)
    ensures DecodeFrom(Ones(k) + StreamsBits(sss), st) == Ok(StreamsWeights(sss))
    decreases |sss|, 0, 1
  {
    if sss == [] {
      TrailerReads(k, [], 0, [], st);
    } else {
      StreamsStart(sss);
      var zdiv, tail :| StartsSlice(StreamsBits(sss), zdiv, tail);
      TrailerReads(k, StreamsBits(sss), zdiv, tail, st);
      DecodeStreams(sss, st.(first := true));
    }
  }

  lemma DecodeStreams(sss: seq<seq<Slice>>, st: State)
    requires sss != [] && ValidStreams(sss)
    ensures DecodeFrom(StreamsBits(sss), st) == Ok(StreamsWeights(sss))
    decreases |sss|, 0, 0
  {
    assert ValidStream(sss[0]);
    StreamsBitsUnfold(sss);
    var k := |Trailer(|SlicesBits(sss[0])|)|;
    assert Trailer(|SlicesBits(sss[0])|) == Ones(k);
    DecodeRest(sss[0], k, sss[1..], st);
  }

  // ---- bytes

  function Concat<T>(ss: seq<seq<T>>): seq<T> {
    if ss == [] then [] else ss[0] + Concat(ss[1..])
  }

  lemma OneMoreStream(ss: seq<Slice>, rest: seq<seq<Slice>>)
    requires ValidStream(ss) && ValidStreams(rest)
    ensures ValidStreams([ss] + rest)
    ensures StreamsBits([ss] + rest) == StreamBits(ss) + StreamsBits(rest)
    ensures StreamsWeights([ss] + rest) == ExpandAll(ss) + StreamsWeights(rest)
  {
    assert ([ss] + rest)[1..] == rest;
  }

  lemma {:induction false} StreamsOfBytes(outs: seq<seq<bv8>>, wss: seq<seq<int>>) returns (sss: seq<seq<Slice>>)
    requires |outs| == |wss| && forall i :: 0 <= i < |outs| ==> Encodes(outs[i], wss[i])
    ensures |sss| == |outs| && ValidStreams(sss)
    ensures BytesBits(Concat(outs)) == StreamsBits(sss) && Concat(wss) == StreamsWeights(sss)
  {
    if outs == [] {
      sss := [];
    } else {
      assert Encodes(outs[0], wss[0]);
      var ss: seq<Slice> :| EncodesAs(outs[0], wss[0], ss);
      var rest := StreamsOfBytes(outs[1..], wss[1..]);
      sss := [ss] + rest;
      OneMoreStream(ss, rest);
      BytesBitsConcat(outs[0], Concat(outs[1..]));
    }
  }

  /**
   * Main theorem. Decoding the concatenation of compressed streams yields the concatenation of
   * what they were made from.
   */
  lemma DecodeConcatenation(outs: seq<seq<bv8>>, wss: seq<seq<int>>)
    requires |outs| == |wss| && outs != [] && forall i :: 0 <= i < |outs| ==> Encodes(outs[i], wss[i])
    ensures Decode(Concat(outs)) == Ok(Concat(wss))
  {
    var sss := StreamsOfBytes(outs, wss);
    DecodeStreams(sss, INITIAL);
  }

  lemma DecodeOne(out: seq<bv8>, ws: seq<int>)
    requires Encodes(out, ws)
    ensures Decode(out) == Ok(ws)
  {
    DecodeConcatenation([out], [ws]);
    ConcatOne(out);
    ConcatOne(ws);
  }

  lemma ConcatOne<T>(s: seq<T>)
    ensures Concat([s]) == s
  {
    assert Concat([s]) == s + Concat([s][1..]);
  }
}
