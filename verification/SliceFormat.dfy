/**
 * The compressed weight stream as a format: what a slice is and which bits it stands for. The bits
 * are given in closed form from the symbol streams of the slice, without the running state that
 * the encoder and the decoder keep.
 */
module SliceFormat {
  import opened Bits
  import opened UnaryCode
  import opened Sequences

  const ZDIV_DISABLE: nat := 6
  const ZDIV_EOS: nat := 7
  const WDIV_UNCOMPRESSED: nat := 7

  /** A palette together with the offset of the directly coded values. */
  datatype Setup = Setup(lut: seq<nat>, palbits: nat, directOffset: nat) {
    predicate Valid() {
      && |lut| <= 32 && |lut| != 1
      && 2 <= palbits <= 9
      && directOffset < 32
      && forall i :: 0 <= i < |lut| ==> lut[i] < Pow2(palbits)
    }

    /** The width of an uncompressed weight index. */
    function UncompressedBits(): nat {
      if |lut| > 0 then IndexBits(|lut|) else palbits
    }
  }

  /** The least u, from `from` on, with size <= 2^u. */
  function IndexBitsFrom(size: nat, from: nat): (u: nat)
    ensures u >= from && size <= Pow2(u)
    decreases size - Pow2(from)
  {
    if Pow2(from) >= size then from else IndexBitsFrom(size, from + 1)
  }

  function IndexBits(size: nat): nat {
    IndexBitsFrom(size, 0)
  }

  function Quotient(v: nat, div: nat): nat {
    QuotientIsNat(v, Pow2(div));
    v / Pow2(div)
  }

  datatype Mode = Golomb(div: nat, trunc: bool) | Uncompressed

  /** One of the two interleaved streams of a slice: its values and how they are coded. */
  datatype Channel = Channel(vals: seq<nat>, div: nat, t: nat, chunk: nat) {
    predicate Valid() {
      t >= 1 && chunk >= 1
    }

    function Quotients(): (qs: seq<nat>)
      ensures |qs| == |vals|
    {
      seq(|vals|, i requires 0 <= i < |vals| => Quotient(vals[i], div))
    }

    function Symbols(): seq<nat>
      requires Valid()
    {
      Codes(Quotients(), t)
    }

    /** The k-th chunk of symbols; the last one is padded with zeros. */
    function Chunk(k: nat): (cs: seq<nat>)
      requires Valid()
      ensures |cs| == chunk
    {
      Window(Symbols(), chunk * k, chunk)
    }

    /** How many quotients end in the first k chunks, padding included. */
    function Done(k: nat): nat
      requires Valid()
    {
      Terminals(Window(Symbols(), 0, chunk * k), t)
    }

    /** How many values end in the first k chunks. */
    function Coded(k: nat): (n: nat)
      requires Valid()
      ensures n <= |vals|
    {
      if Done(k) < |vals| then Done(k) else |vals|
    }

    /** How many symbols are left after k chunks. */
    function Left(k: nat): nat {
      if Valid() && chunk * k < |Symbols()| then |Symbols()| - chunk * k else 0
    }

    /** The values that end in chunk k. */
    function Ending(k: nat): seq<nat>
      requires Valid()
    {
      if Coded(k) <= Coded(k + 1) then vals[Coded(k)..Coded(k + 1)] else []
    }

    /** The values of the last of k chunks, if there was one in the last round. */
    function Held(k: nat, on: bool): seq<nat>
      requires Valid()
    {
      if on && k > 0 then Ending(k - 1) else []
    }
  }

  function RemainderBits(vals: seq<nat>, div: nat): seq<bool> {
    if vals == [] then [] else BitsOf(div, vals[0] % Pow2(div)) + RemainderBits(vals[1..], div)
  }

  /** The decoder's view of the first k chunks. */
  lemma DoneIsParsed(ch: Channel, k: nat)
    requires ch.Valid()
    ensures var ds := Parse(Window(ch.Symbols(), 0, ch.chunk * k), 0, ch.t).0;
            && |ds| == ch.Done(k)
            && (forall i :: 0 <= i < |ds| ==> ds[i] == if i < |ch.vals| then ch.Quotients()[i] else 0)
    ensures ch.Done(k) < |ch.vals| <==> ch.chunk * k < |ch.Symbols()|
  {
    ParsePadded(ch.Quotients(), ch.chunk * k, ch.t);
    ParseCounts(Window(ch.Symbols(), 0, ch.chunk * k), 0, ch.t);
  }

  lemma NextChunk(ch: Channel, k: nat)
    requires ch.Valid()
    ensures Window(ch.Symbols(), 0, ch.chunk * (k + 1)) == Window(ch.Symbols(), 0, ch.chunk * k) + ch.Chunk(k)
    ensures ch.Done(k + 1) == ch.Done(k) + Terminals(ch.Chunk(k), ch.t)
    ensures ch.Coded(k) <= ch.Coded(k + 1)
  {
    assert ch.chunk * (k + 1) == ch.chunk * k + ch.chunk;
    WindowSplits(ch.Symbols(), ch.chunk * k, ch.chunk);
    TerminalsAdd(Window(ch.Symbols(), 0, ch.chunk * k), ch.Chunk(k), ch.t);
  }

  /** A slice, with the setup in force; the setup is sent along when newPalette is set. */
  datatype Slice = Slice(setup: Setup, newPalette: bool, useZeroRuns: bool, mode: Mode, zdiv: nat,
                         weights: seq<nat>, runs: seq<nat>)
  {
    function Weights(): (ch: Channel)
      ensures ch.Valid()
    {
      match mode
      case Golomb(div, trunc) => Channel(weights, div, if trunc then 3 else 2, 12)
      case Uncompressed =>
        var bits := setup.UncompressedBits();
        Channel(weights, bits, 2, if bits > 5 then 8 else 12)
    }

    function Runs(): (ch: Channel)
      ensures ch.Valid()
    {
      Channel(runs, zdiv, 1, if zdiv < 3 then 12 else 8)
    }

    /** The mode can express the weight index. */
    predicate CanCode(v: nat) {
      match mode
      case Golomb(div, trunc) => v / Pow2(div) <= if trunc then 2 else 31
      case Uncompressed => v < Pow2(setup.UncompressedBits())
    }

    predicate Valid() {
      && setup.Valid()
      && 1 <= |weights| <= 32768
      && (forall i :: 0 <= i < |weights| ==> weights[i] < 512 && CanCode(weights[i]))
      && (mode.Golomb? ==> mode.div <= 5)
      && zdiv <= 3
      && |runs| == (if useZeroRuns then |weights| + (if newPalette then 1 else 0) else 0)
    }
  }

  // Flow control: the weights may run ahead of the zero runs by less than eight, and the zero runs
  // may not run ahead of the weights.

  predicate WeightsEnabled(s: Slice, kw: nat, kz: nat) {
    (s.useZeroRuns ==> s.Weights().Coded(kw) - s.Runs().Coded(kz) < 8) && s.Weights().Coded(kw) < |s.weights|
  }

  predicate RunsEnabled(s: Slice, kw: nat, kz: nat) {
    s.useZeroRuns && s.Weights().Coded(kw) - s.Runs().Coded(kz) >= 0 && s.Runs().Coded(kz) < |s.runs|
  }

  function Step(k: nat, enabled: bool): nat {
    if enabled then k + 1 else k
  }

  /** The fields of one round, in their order in the stream; the remainders belong to the chunks of the round before. */
  datatype RoundFields = RoundFields(unary0: seq<bool>, zunary: seq<bool>, unary1: seq<bool>,
                                     wremain: seq<bool>, zremain: seq<bool>)
  {
    function Join(): seq<bool> {
      unary0 + (zunary + (unary1 + (wremain + zremain)))
    }
  }

  /** The fields after kw weight chunks and kz run chunks; pw and pz say which chunks the round before had. */
  function Fields(s: Slice, kw: nat, kz: nat, pw: bool, pz: bool): RoundFields {
    var golomb := WeightsEnabled(s, kw, kz) && s.mode.Golomb?;
    RoundFields(if golomb then Unary0(s.Weights().Chunk(kw)) else [],
                if RunsEnabled(s, kw, kz) then Unary0(s.Runs().Chunk(kz)) else [],
                if golomb then Unary1(s.Weights().Chunk(kw)) else [],
                RemainderBits(s.Weights().Held(kw, pw), s.Weights().div),
                RemainderBits(s.Runs().Held(kz, pz), s.Runs().div))
  }

  function BodyBits(s: Slice, kw: nat, kz: nat, pw: bool, pz: bool): seq<bool>
    decreases s.Weights().Left(kw) + s.Runs().Left(kz)
  {
    var we, ze := WeightsEnabled(s, kw, kz), RunsEnabled(s, kw, kz);
    DoneIsParsed(s.Weights(), kw);
    DoneIsParsed(s.Runs(), kz);
    assert s.Weights().chunk * (kw + 1) == s.Weights().chunk * kw + s.Weights().chunk;
    assert s.Runs().chunk * (kz + 1) == s.Runs().chunk * kz + s.Runs().chunk;
    Fields(s, kw, kz, pw, pz).Join()
    + (if we || ze then BodyBits(s, Step(kw, we), Step(kz, ze), we, ze) else [])
  }

  function LutBits(lut: seq<nat>, palbits: nat): seq<bool> {
    if lut == [] then [] else BitsOf(palbits, lut[0]) + LutBits(lut[1..], palbits)
  }

  function SetupBits(p: Setup): seq<bool> {
    BitsOf(5, p.directOffset)
    + (BitsOf(5, if |p.lut| == 0 then 0 else |p.lut| - 1)
       + (BitsOf(3, if p.palbits < 2 then 0 else p.palbits - 2)
          + LutBits(p.lut, p.palbits)))
  }

  function ZdivField(s: Slice): nat {
    if s.useZeroRuns then s.zdiv else ZDIV_DISABLE
  }

  /** The header after the ZDIV field, in front of the body. */
  function HeaderBits(s: Slice, body: seq<bool>): seq<bool> {
    BitsOf(15, if |s.weights| == 0 then 0 else |s.weights| - 1)
    + (BitsOf(3, if s.mode.Golomb? then s.mode.div else WDIV_UNCOMPRESSED)
       + (BitsOf(1, if s.mode.Golomb? && s.mode.trunc then 1 else 0)
          + (BitsOf(1, if s.newPalette then 1 else 0)
             + ((if s.newPalette then SetupBits(s.setup) else []) + body))))
  }

  /** Everything after the ZDIV field. */
  function AfterZdiv(s: Slice): seq<bool> {
    HeaderBits(s, BodyBits(s, 0, 0, false, false))
  }

  function SliceBits(s: Slice): seq<bool> {
    BitsOf(3, ZdivField(s)) + AfterZdiv(s)
  }

  function SlicesBits(ss: seq<Slice>): seq<bool> {
    if ss == [] then [] else SliceBits(ss[0]) + SlicesBits(ss[1..])
  }

  lemma {:induction false} SlicesBitsSnoc(ss: seq<Slice>, s: Slice)
    ensures SlicesBits(ss + [s]) == SlicesBits(ss) + SliceBits(s)
  {
    if ss == [] {
      assert ss + [s] == [s];
      assert SlicesBits([s]) == SliceBits(s) + SlicesBits([s][1..]);
    } else {
      assert (ss + [s])[1..] == ss[1..] + [s];
      SlicesBitsSnoc(ss[1..], s);
    }
  }

  // ---- meaning

  /** The weight a palette entry or direct value stands for: the low bit is the sign. */
  function SignMagnitude(val: nat): int {
    if val % 2 == 1 then -(val / 2) else val / 2
  }

  function WeightOf(p: Setup, index: nat): int {
    SignMagnitude(if index < |p.lut| then p.lut[index] else index - |p.lut| + p.directOffset)
  }

  function Zeros(n: nat): (s: seq<int>)
    ensures |s| == n
  {
    seq(n, _ => 0)
  }

  /** Every weight, followed by its run of zeros. */
  function Interleave(p: Setup, weights: seq<nat>, runs: seq<nat>): seq<int>
    requires runs != [] ==> |runs| == |weights|
  {
    if weights == [] then []
    else [WeightOf(p, weights[0])]
         + ((if runs == [] then [] else Zeros(runs[0]))
            + Interleave(p, weights[1..], if runs == [] then [] else runs[1..]))
  }

  /** The weights that a slice stands for. */
  function Expand(s: Slice): seq<int>
    requires s.Valid()
  {
    if s.useZeroRuns && s.newPalette then Zeros(s.runs[0]) + Interleave(s.setup, s.weights, s.runs[1..])
    else Interleave(s.setup, s.weights, s.runs)
  }

  /** A slice without a setup of its own continues with the setup and run mode of the slice before it. */
  predicate Continues(before: Slice, s: Slice) {
    s.newPalette || (s.setup == before.setup && s.useZeroRuns == before.useZeroRuns)
  }

  predicate ValidSlices(ss: seq<Slice>) {
    && (forall i :: 0 <= i < |ss| ==> ss[i].Valid())
    && (forall i :: 0 < i < |ss| ==> Continues(ss[i - 1], ss[i]))
  }

  function ExpandAll(ss: seq<Slice>): seq<int>
    requires forall i :: 0 <= i < |ss| ==> ss[i].Valid()
  {
    if ss == [] then [] else Expand(ss[0]) + ExpandAll(ss[1..])
  }

  lemma ExpandAllHead(s: Slice, ss: seq<Slice>)
    requires s.Valid() && forall i :: 0 <= i < |ss| ==> ss[i].Valid()
    ensures ExpandAll([s] + ss) == Expand(s) + ExpandAll(ss)
  {
    assert ([s] + ss)[1..] == ss;
  }

  lemma {:induction false} ExpandAllSnoc(ss: seq<Slice>, s: Slice)
    requires s.Valid() && forall i :: 0 <= i < |ss| ==> ss[i].Valid()
    ensures ExpandAll(ss + [s]) == ExpandAll(ss) + Expand(s)
  {
    if ss == [] {
      ExpandAllHead(s, []);
      assert [] + [s] == [s] + [];
      assert Expand(s) + [] == [] + Expand(s);
    } else {
      var head, tail := ss[0], ss[1..];
      ExpandAllSnoc(tail, s);
      ExpandAllHead(head, tail);
      ExpandAllHead(head, tail + [s]);
      assert ss == [head] + tail && ss + [s] == [head] + (tail + [s]);
      AppendAssociates(Expand(head), ExpandAll(tail), Expand(s));
    }
  }

  // ---- a whole stream

  lemma PaddedTo128(n: nat)
    ensures var pad := (128 - n % 128) % 128; pad < 128 && (n + pad) % 128 == 0
  {
  }

  /** The end marker, then ones up to the next multiple of 128 bits. */
  function Trailer(n: nat): (t: seq<bool>)
    ensures |t| >= 3 && (n + |t|) % 128 == 0 && |t| <= 130
    ensures forall i :: 0 <= i < |t| ==> t[i]
  {
    PaddedTo128(n + 3);
    seq(3 + (128 - (n + 3) % 128) % 128, _ => true)
  }

  function StreamBits(ss: seq<Slice>): (bits: seq<bool>)
    ensures |bits| % 128 == 0
  {
    SlicesBits(ss) + Trailer(|SlicesBits(ss)|)
  }

  /** out is the compressed form of ws: the bits of valid slices, the first with a setup, that stand for ws. */
  ghost predicate Encodes(out: seq<bv8>, ws: seq<int>) {
    exists ss: seq<Slice> :: EncodesAs(out, ws, ss)
  }

  ghost predicate EncodesAs(out: seq<bv8>, ws: seq<int>, ss: seq<Slice>) {
    && ss != [] && ss[0].newPalette && ValidSlices(ss)
    && BytesBits(out) == StreamBits(ss)
    && ws == ExpandAll(ss)
  }
}
