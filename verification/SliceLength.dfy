/**
 * How many bits slices take. The chunks and remainders that flow control sends in rounds add up to
 * the codes of all values, and the padding of the last chunk of either stream.
 */
module SliceLength {
  import opened Bits
  import opened UnaryCode
  import opened SliceFormat
  import opened Lockstep
  import opened Rounding

  // ---- the bits of symbols

  /** The unary bits of symbols of one channel: none, first bits only, or first and second bits. */
  datatype Unary = Absent | First | Both

  function UnaryBits(cs: seq<nat>, u: Unary): nat {
    match u
    case Absent => 0
    case First => |cs|
    case Both => |cs| + |Unary1(cs)|
  }

  lemma {:induction false} Unary1Adds(a: seq<nat>, b: seq<nat>)
    ensures Unary1(a + b) == Unary1(a) + Unary1(b)
  {
    if a == [] {
      assert a + b == b;
    } else {
      assert (a + b)[1..] == a[1..] + b;
      Unary1Adds(a[1..], b);
    }
  }

  lemma UnaryAdds(a: seq<nat>, b: seq<nat>, u: Unary)
    ensures UnaryBits(a + b, u) == UnaryBits(a, u) + UnaryBits(b, u)
  {
    Unary1Adds(a, b);
  }

  lemma {:induction false} ZerosAreShort(cs: seq<nat>)
    requires forall i :: 0 <= i < |cs| ==> cs[i] == 0
    ensures Unary1(cs) == []
  {
    if cs != [] {
      ZerosAreShort(cs[1..]);
    }
  }

  /** The unary bits of one value; its remainder takes `div` more. */
  function QuotientBits(q: nat, t: nat, u: Unary): nat
    requires t >= 1
  {
    UnaryBits(Code(q, t), u)
  }

  /** Zero runs: as many bits as the quotient, and one to end it. */
  lemma {:induction false} RunQuotient(q: nat)
    ensures QuotientBits(q, 1, First) == q + 1
  {
    if q > 0 {
      RunQuotient(q - 1);
    }
  }

  /** Weights: the same, in two interleaved words. */
  lemma {:induction false} WeightQuotient(q: nat)
    ensures QuotientBits(q, 2, Both) == q + 1
  {
    if q < 2 {
      OneSymbol(q);
    } else {
      WeightQuotient(q - 2);
      Unary1Adds([2], Code(q - 2, 2));
      OneSymbol(2);
    }
  }

  lemma OneSymbol(c: nat)
    ensures |Unary1([c])| == if c > 0 then 1 else 0
  {
    assert [c][1..] == [];
  }

  /** Truncated weights: never more than two bits. */
  lemma TruncatedQuotient(q: nat)
    requires q <= 2
    ensures QuotientBits(q, 3, Both) == if q > 1 then 2 else q + 1
  {
    assert Code(q, 3) == [q];
    OneSymbol(q);
  }

  // ---- one channel

  /** The bits of values with quotients qs, one by one. */
  function CodesBits(qs: seq<nat>, div: nat, t: nat, u: Unary): nat
    requires t >= 1
  {
    if qs == [] then 0 else QuotientBits(qs[0], t, u) + div + CodesBits(qs[1..], div, t, u)
  }

  /** How many chunks a channel takes. */
  function Chunks(ch: Channel): (n: nat)
    requires ch.Valid()
  {
    CeilDiv(|ch.Symbols()|, ch.chunk)
  }

  /** The symbols that fill up the last chunk. */
  function Padding(ch: Channel): (n: nat)
    requires ch.Valid()
    ensures n < ch.chunk && (|ch.Symbols()| + n) % ch.chunk == 0
  {
    WholeChunks(Chunks(ch), ch.chunk);
    Chunks(ch) * ch.chunk - |ch.Symbols()|
  }

  lemma WholeChunks(k: nat, chunk: nat)
    requires chunk >= 1
    ensures k * chunk % chunk == 0
  {
    DivUnique(k * chunk, chunk, k, 0);
  }

  /** The bits that are left to send after k chunks, with the remainders of the last one if it was just sent. */
  ghost function ToSend(ch: Channel, u: Unary, k: nat, on: bool): int
    requires ch.Valid()
  {
    UnaryBits(Window(ch.Symbols(), 0, ch.chunk * Chunks(ch)), u) - UnaryBits(Window(ch.Symbols(), 0, ch.chunk * k), u)
    + ch.div * |ch.Held(k, on)| + ch.div * (|ch.vals| - ch.Coded(k))
  }

  lemma {:induction false} RemainderLength(vals: seq<nat>, div: nat)
    ensures |RemainderBits(vals, div)| == div * |vals|
  {
    if vals != [] {
      RemainderLength(vals[1..], div);
      assert div * |vals| == div * |vals[1..]| + div;
    }
  }

  /** A round without a chunk sends the remainders that are held. */
  lemma PauseSends(ch: Channel, u: Unary, k: nat, on: bool)
    requires ch.Valid()
    ensures ToSend(ch, u, k, on) == |RemainderBits(ch.Held(k, on), ch.div)| + ToSend(ch, u, k, false)
  {
    RemainderLength(ch.Held(k, on), ch.div);
    assert ch.div * |ch.Held(k, false)| == 0;
  }

  /** A round with a chunk sends its symbols too, and holds its remainders. */
  lemma ChunkSends(ch: Channel, u: Unary, k: nat)
    requires ch.Valid() && ch.Coded(k) < |ch.vals|
    ensures k < Chunks(ch)
    ensures ToSend(ch, u, k, false) == UnaryBits(ch.Chunk(k), u) + ToSend(ch, u, k + 1, true)
  {
    NextChunk(ch, k);
    UnaryAdds(Window(ch.Symbols(), 0, ch.chunk * k), ch.Chunk(k), u);
    var coded, ended := ch.Coded(k), |ch.Held(k + 1, true)|;
    assert ended == ch.Coded(k + 1) - coded;
    HeldMoves(ch.div, ended, |ch.vals| - coded - ended);
    assert ch.div * |ch.Held(k, false)| == 0;
    DoneIsParsed(ch, k);
    MoreChunks(Chunks(ch), k, ch.chunk);
  }

  lemma HeldMoves(div: nat, a: int, b: int)
    ensures div * (a + b) == div * a + div * b
  {
  }

  lemma MoreChunks(a: nat, b: nat, chunk: nat)
    ensures a <= b ==> a * chunk <= b * chunk
  {
  }

  /** When every value is coded, nothing is left. */
  lemma AllSent(ch: Channel, u: Unary, k: nat)
    requires ch.Valid() && k <= Chunks(ch) && ch.Coded(k) == |ch.vals|
    ensures ToSend(ch, u, k, false) == 0
  {
    DoneIsParsed(ch, k);
    MoreChunks(k + 1, Chunks(ch), ch.chunk);
    assert ch.div * |ch.Held(k, false)| == 0 && ch.div * (|ch.vals| - ch.Coded(k)) == 0;
  }

  lemma {:induction false} SymbolsLength(qs: seq<nat>, div: nat, t: nat, u: Unary)
    requires t >= 1
    ensures CodesBits(qs, div, t, u) == UnaryBits(Codes(qs, t), u) + div * |qs|
  {
    if qs != [] {
      SymbolsLength(qs[1..], div, t, u);
      UnaryAdds(Code(qs[0], t), Codes(qs[1..], t), u);
      HeldMoves(div, 1, |qs[1..]|);
    }
  }

  /** Before the first round, everything is: all codes and the padding. */
  lemma AllToSend(ch: Channel, u: Unary)
    requires ch.Valid()
    ensures ToSend(ch, u, 0, false) == CodesBits(ch.Quotients(), ch.div, ch.t, u) + if u.Absent? then 0 else Padding(ch)
  {
    var cs, pad := ch.Symbols(), Window([], 0, Padding(ch));
    assert ch.chunk * Chunks(ch) == |cs| + Padding(ch);
    assert Window(cs, 0, ch.chunk * Chunks(ch)) == cs + pad;
    UnaryAdds(cs, pad, u);
    ZerosAreShort(pad);
    SymbolsLength(ch.Quotients(), ch.div, ch.t, u);
    NoneCoded(ch);
    assert ch.div * |ch.Held(0, false)| == 0;
  }

  lemma NoneCoded(ch: Channel)
    requires ch.Valid()
    ensures Window(ch.Symbols(), 0, ch.chunk * 0) == [] && ch.Coded(0) == 0
  {
  }

  // ---- a slice

  /** Uncompressed weights have remainders only. */
  function WeightUnary(s: Slice): Unary {
    if s.mode.Golomb? then Both else Absent
  }

  lemma RoundLength(s: Slice, kw: nat, kz: nat, pw: bool, pz: bool)
    ensures |Fields(s, kw, kz, pw, pz).Join()|
            == (if WeightsEnabled(s, kw, kz) then UnaryBits(s.Weights().Chunk(kw), WeightUnary(s)) else 0)
               + (if RunsEnabled(s, kw, kz) then UnaryBits(s.Runs().Chunk(kz), First) else 0)
               + |RemainderBits(s.Weights().Held(kw, pw), s.Weights().div)|
               + |RemainderBits(s.Runs().Held(kz, pz), s.Runs().div)|
  {
  }

  /** One channel, whether it has a chunk in the round or not. */
  lemma TurnSends(ch: Channel, u: Unary, k: nat, on: bool, enabled: bool)
    requires ch.Valid() && k <= Chunks(ch) && (enabled ==> ch.Coded(k) < |ch.vals|)
    ensures Step(k, enabled) <= Chunks(ch)
    ensures ToSend(ch, u, k, on) == (if enabled then UnaryBits(ch.Chunk(k), u) else 0)
            + |RemainderBits(ch.Held(k, on), ch.div)| + ToSend(ch, u, Step(k, enabled), enabled)
  {
    PauseSends(ch, u, k, on);
    if enabled {
      ChunkSends(ch, u, k);
    }
  }

  /** From any round on, the rest of the body is what both channels have left. */
  lemma {:induction false} BodyLength(s: Slice, kw: nat, kz: nat, pw: bool, pz: bool)
    requires s.Valid() && kw <= Chunks(s.Weights()) && kz <= Chunks(s.Runs())
    ensures |BodyBits(s, kw, kz, pw, pz)|
            == ToSend(s.Weights(), WeightUnary(s), kw, pw) + ToSend(s.Runs(), First, kz, pz)
    decreases s.Weights().Left(kw) + s.Runs().Left(kz)
  {
    var we, ze := WeightsEnabled(s, kw, kz), RunsEnabled(s, kw, kz);
    RoundLength(s, kw, kz, pw, pz);
    TurnSends(s.Weights(), WeightUnary(s), kw, pw, we);
    TurnSends(s.Runs(), First, kz, pz, ze);
    if we || ze {
      EnabledShrinks(s, kw, kz);
      BodyLength(s, Step(kw, we), Step(kz, ze), we, ze);
    } else {
      NothingLeft(s, kw, kz);
      AllSent(s.Weights(), WeightUnary(s), kw);
      AllSent(s.Runs(), First, kz);
    }
  }

  /** The bits of weight index v in the mode of a slice. */
  function WeightCode(s: Slice, v: nat): nat {
    match s.mode
    case Golomb(div, trunc) => (if trunc && Quotient(v, div) > 1 then 2 else Quotient(v, div) + 1) + div
    case Uncompressed => s.setup.UncompressedBits()
  }

  function RunCode(s: Slice, v: nat): nat {
    Quotient(v, s.zdiv) + 1 + s.zdiv
  }

  function WeightCodes(s: Slice, vals: seq<nat>): nat {
    if vals == [] then 0 else WeightCode(s, vals[0]) + WeightCodes(s, vals[1..])
  }

  function RunCodes(s: Slice, vals: seq<nat>): nat {
    if vals == [] then 0 else RunCode(s, vals[0]) + RunCodes(s, vals[1..])
  }

  /** The bits of one weight, from those of its quotient. */
  lemma WeightBits(s: Slice, v: nat)
    requires s.CanCode(v)
    ensures QuotientBits(Quotient(v, s.Weights().div), s.Weights().t, WeightUnary(s)) + s.Weights().div
            == WeightCode(s, v)
  {
    if s.mode.Golomb? {
      if s.mode.trunc {
        TruncatedQuotient(Quotient(v, s.mode.div));
      } else {
        WeightQuotient(Quotient(v, s.mode.div));
      }
    }
  }

  lemma {:induction false} WeightCodesSum(s: Slice, vals: seq<nat>, qs: seq<nat>)
    requires |qs| == |vals|
    requires forall i :: 0 <= i < |vals| ==> s.CanCode(vals[i]) && qs[i] == Quotient(vals[i], s.Weights().div)
    ensures CodesBits(qs, s.Weights().div, s.Weights().t, WeightUnary(s)) == WeightCodes(s, vals)
  {
    if vals != [] {
      WeightCodesSum(s, vals[1..], qs[1..]);
      WeightBits(s, vals[0]);
    }
  }

  lemma {:induction false} RunCodesSum(s: Slice, vals: seq<nat>, qs: seq<nat>)
    requires |qs| == |vals| && forall i :: 0 <= i < |vals| ==> qs[i] == Quotient(vals[i], s.zdiv)
    ensures CodesBits(qs, s.zdiv, 1, First) == RunCodes(s, vals)
  {
    if vals != [] {
      RunCodesSum(s, vals[1..], qs[1..]);
      RunQuotient(Quotient(vals[0], s.zdiv));
    }
  }

  /** The bits around the codes of a slice: its header, and what fills up the last chunks. */
  function Overhead(s: Slice): nat {
    23 + (if s.newPalette then 13 + s.setup.palbits * |s.setup.lut| else 0)
    + (if s.mode.Golomb? then Padding(s.Weights()) else 0) + Padding(s.Runs())
  }

  /** Codes in numbers: the quotient in unary, in at most two bits if truncated, and the remainder. */
  lemma CodesInNumbers(s: Slice, v: nat, q: nat)
    ensures s.mode.Golomb? && q == v / Pow2(s.mode.div) ==>
              WeightCode(s, v) == (if s.mode.trunc && q >= 2 then 2 else q + 1) + s.mode.div
    ensures s.mode.Uncompressed? ==> WeightCode(s, v) == s.setup.UncompressedBits()
    ensures q == v / Pow2(s.zdiv) ==> RunCode(s, v) == q + 1 + s.zdiv
  {
  }

  /** The overhead in numbers: weights in chunks of 12 symbols if they have any, runs in chunks of 12 or 8. */
  lemma OverheadInNumbers(s: Slice) returns (weights: nat, runs: nat)
    requires s.Valid()
    ensures Overhead(s)
            == 23 + (if s.newPalette then 13 + s.setup.palbits * |s.setup.lut| else 0) + weights + runs
    ensures if s.mode.Golomb? then weights < 12 && (|s.Weights().Symbols()| + weights) % 12 == 0 else weights == 0
    ensures if s.zdiv < 3 then runs < 12 && (|s.Runs().Symbols()| + runs) % 12 == 0
            else runs < 8 && (|s.Runs().Symbols()| + runs) % 8 == 0
  {
    weights := if s.mode.Golomb? then Padding(s.Weights()) else 0;
    runs := Padding(s.Runs());
  }

  lemma {:induction false} LutLength(lut: seq<nat>, palbits: nat)
    ensures |LutBits(lut, palbits)| == palbits * |lut|
  {
    if lut != [] {
      LutLength(lut[1..], palbits);
      assert palbits * |lut| == palbits * |lut[1..]| + palbits;
    }
  }

  /** A slice takes the bits of the codes of its weights and runs, and its overhead. */
  lemma LengthOfSlice(s: Slice)
    requires s.Valid()
    ensures |SliceBits(s)| == WeightCodes(s, s.weights) + RunCodes(s, s.runs) + Overhead(s)
  {
    BodyLength(s, 0, 0, false, false);
    AllToSend(s.Weights(), WeightUnary(s));
    AllToSend(s.Runs(), First);
    WeightCodesSum(s, s.weights, s.Weights().Quotients());
    RunCodesSum(s, s.runs, s.Runs().Quotients());
    LutLength(s.setup.lut, s.setup.palbits);
  }

  // ---- slices

  function AllWeightCodes(ss: seq<Slice>): nat {
    if ss == [] then 0 else WeightCodes(ss[0], ss[0].weights) + AllWeightCodes(ss[1..])
  }

  function AllRunCodes(ss: seq<Slice>): nat {
    if ss == [] then 0 else RunCodes(ss[0], ss[0].runs) + AllRunCodes(ss[1..])
  }

  function AllOverhead(ss: seq<Slice>): nat {
    if ss == [] then 0 else Overhead(ss[0]) + AllOverhead(ss[1..])
  }

  lemma {:induction false} LengthOfSlices(ss: seq<Slice>)
    requires forall i :: 0 <= i < |ss| ==> ss[i].Valid()
    ensures |SlicesBits(ss)| == AllWeightCodes(ss) + AllRunCodes(ss) + AllOverhead(ss)
  {
    if ss != [] {
      LengthOfSlice(ss[0]);
      LengthOfSlices(ss[1..]);
    }
  }

  lemma {:induction false} CodesSnoc(ss: seq<Slice>, s: Slice)
    ensures AllWeightCodes(ss + [s]) == AllWeightCodes(ss) + WeightCodes(s, s.weights)
    ensures AllRunCodes(ss + [s]) == AllRunCodes(ss) + RunCodes(s, s.runs)
  {
    if ss == [] {
      assert ss + [s] == [s] && [s][1..] == [];
    } else {
      assert (ss + [s])[1..] == ss[1..] + [s];
      CodesSnoc(ss[1..], s);
    }
  }
}
