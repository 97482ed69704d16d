/** What the decoder computes, on every input: a function of the bits that are left to read. */
module DecodeSpec {
  import opened Results
  import opened Bits
  import opened UnaryCode
  import opened SliceFormat

  function TakeWord(rest: seq<bool>, len: nat): (r: Result<(seq<bool>, seq<bool>)>)
    ensures r.Ok? ==> |r.value.0| == len && len + |r.value.1| == |rest|
  {
    if len <= |rest| then Ok((rest[..len], rest[len..])) else Err(Underrun)
  }

  function TakeNum(rest: seq<bool>, len: nat): (r: Result<(nat, seq<bool>)>)
    ensures r.Ok? ==> len + |r.value.1| == |rest|
  {
    if len <= |rest| then Ok((ValueOf(rest[..len]), rest[len..])) else Err(Underrun)
  }

  /** The remainders of the quotients qs, of which at most `room` are values. */
  function TakeRemainders(rest: seq<bool>, qs: seq<nat>, room: nat, div: nat): (r: Result<(seq<nat>, seq<bool>)>)
    ensures r.Ok? ==> |r.value.1| <= |rest| && |r.value.0| == if |qs| < room then |qs| else room
    decreases |qs|
  {
    if qs == [] || room == 0 then Ok(([], rest))
    else
      var (low, rest1) :- TakeNum(rest, div);
      var (vs, rest2) :- TakeRemainders(rest1, qs[1..], room - 1, div);
      Ok(([qs[0] * Pow2(div) + low] + vs, rest2))
  }

  /** The fields of a slice header that the chunk loop needs. */
  datatype Header = Header(nvalues: nat, znvalues: nat, useZeroRuns: bool, uncompressed: bool,
                           wdiv: nat, wtrunc: bool, zdiv: nat)
  {
    function WeightThreshold(): nat {
      if wtrunc then 3 else 2
    }

    function WeightChunk(): (n: nat)
      ensures n > 0
    {
      if uncompressed && wdiv > 5 then 8 else 12
    }

    function RunChunk(): (n: nat)
      ensures n > 0
    {
      if zdiv < 3 then 12 else 8
    }
  }

  /** How far a stream of the slice has been read: symbols, open code, quotients without remainder, values. */
  datatype Progress = Progress(pos: nat, carry: nat, prev: seq<nat>, prevOn: bool, vals: seq<nat>) {
    /** Every quotient below n has become a value, except those of the last chunk. */
    predicate Valid(n: nat) {
      var pending := if prevOn then |prev| else 0;
      && pending <= pos
      && |vals| == if pos - pending < n then pos - pending else n
    }
  }

  const START := Progress(0, 0, [], false, [])

  function ZeroSymbols(n: nat): (cs: seq<nat>)
    ensures |cs| == n
  {
    seq(n, _ => 0)
  }

  lemma {:induction false} ZeroSymbolsEnd(cs: seq<nat>, t: nat)
    requires t >= 1 && forall i :: 0 <= i < |cs| ==> cs[i] == 0
    ensures Terminals(cs, t) == |cs|
  {
    if cs == [] {
    } else {
      ZeroSymbolsEnd(cs[1..], t);
    }
  }

  function WeightsOn(h: Header, w: Progress, z: Progress): bool {
    (h.useZeroRuns ==> w.pos - z.pos < 8) && w.pos < h.nvalues
  }

  function RunsOn(h: Header, w: Progress, z: Progress): bool {
    h.useZeroRuns && w.pos - z.pos >= 0 && z.pos < h.znvalues
  }

  /** What is read in one round: the symbols of the chunks that are on, and the values completed. */
  datatype Round = Round(wcs: seq<nat>, zcs: seq<nat>, ws: seq<nat>, zs: seq<nat>, rest: seq<bool>)

  function Pending(p: Progress): seq<nat> {
    if p.prevOn then p.prev else []
  }

  function Room(p: Progress, n: nat): nat {
    if |p.vals| < n then n - |p.vals| else 0
  }

  function TakeRound(rest: seq<bool>, h: Header, we: bool, ze: bool, w: Progress, z: Progress): (r: Result<Round>)
    ensures r.Ok? ==>
      && |r.value.rest| <= |rest|
      && (ze || (we && !h.uncompressed) ==> |r.value.rest| < |rest|)
      && (we && h.uncompressed ==> r.value.wcs == ZeroSymbols(h.WeightChunk()))
      && |r.value.ws| == (if |Pending(w)| < Room(w, h.nvalues) then |Pending(w)| else Room(w, h.nvalues))
      && |r.value.zs| == (if |Pending(z)| < Room(z, h.znvalues) then |Pending(z)| else Room(z, h.znvalues))
  {
    var (u0, rest1) :- TakeWord(rest, if we && !h.uncompressed then 12 else 0);
    var (zu, rest2) :- TakeWord(rest1, if ze then h.RunChunk() else 0);
    var (u1, rest3) :- TakeWord(rest2, CountTrue(u0));
    var (ws, rest4) :- TakeRemainders(rest3, Pending(w), Room(w, h.nvalues), h.wdiv);
    var (zs, rest5) :- TakeRemainders(rest4, Pending(z), Room(z, h.znvalues), h.zdiv);
    Ok(Round(if h.uncompressed then ZeroSymbols(h.WeightChunk()) else FromUnary(u0, u1), FromBits(zu), ws, zs, rest5))
  }

  /** A stream after a round: `cs` are the symbols of its chunk, if it was on, `done` the values completed. */
  function Advance(p: Progress, on: bool, cs: seq<nat>, t: nat, done: seq<nat>, n: nat): (p': Progress)
    requires p.Valid(n)
    requires |done| == if |Pending(p)| < Room(p, n) then |Pending(p)| else Room(p, n)
    ensures p'.Valid(n) && p'.prevOn == on
    ensures p'.pos == p.pos + if on then Terminals(cs, t) else 0
  {
    ParseCounts(cs, p.carry, t);
    if on then
      var (qs, carry) := Parse(cs, p.carry, t);
      Progress(p.pos + |qs|, carry, qs, true, p.vals + done)
    else Progress(p.pos, p.carry, [], false, p.vals + done)
  }

  /** One round of the chunk loop. */
  function DecodeRound(rest: seq<bool>, h: Header, w: Progress, z: Progress)
    : (r: Result<(Progress, Progress, seq<bool>)>)
    requires w.Valid(h.nvalues) && z.Valid(h.znvalues)
    ensures r.Ok? ==>
      var (w', z', rest') := r.value;
      && w'.Valid(h.nvalues) && z'.Valid(h.znvalues)
      && w'.prevOn == WeightsOn(h, w, z) && z'.prevOn == RunsOn(h, w, z)
      && |rest'| <= |rest| && w'.pos >= w.pos
      && (w'.prevOn && h.uncompressed ==> w'.pos > w.pos)
      && (z'.prevOn || (w'.prevOn && !h.uncompressed) ==> |rest'| < |rest|)
  {
    var we, ze := WeightsOn(h, w, z), RunsOn(h, w, z);
    var rd :- TakeRound(rest, h, we, ze, w, z);
    ZeroSymbolsEnd(ZeroSymbols(h.WeightChunk()), h.WeightThreshold());
    Ok((Advance(w, we, rd.wcs, h.WeightThreshold(), rd.ws, h.nvalues), Advance(z, ze, rd.zcs, 1, rd.zs, h.znvalues),
        rd.rest))
  }

  /** The chunk loop: the weight indices and the zero runs of a slice. */
  function DecodeBody(rest: seq<bool>, h: Header, w: Progress, z: Progress)
    : (r: Result<(seq<nat>, seq<nat>, seq<bool>)>)
    requires w.Valid(h.nvalues) && z.Valid(h.znvalues)
    requires h.useZeroRuns ==> h.nvalues <= h.znvalues <= h.nvalues + 1
    requires h.nvalues >= 1
    ensures r.Ok? ==> |r.value.0| == h.nvalues && (h.useZeroRuns ==> |r.value.1| == h.znvalues) && |r.value.2| <= |rest|
    decreases |rest|, if w.pos < h.nvalues then h.nvalues - w.pos else 0
  {
    var (w', z', rest') :- DecodeRound(rest, h, w, z);
    if w'.prevOn || z'.prevOn then DecodeBody(rest', h, w', z') else Ok((w'.vals, z'.vals, rest'))
  }

  /** What one slice leaves for the next. */
  datatype State = State(first: bool, prevZeroRuns: bool, setup: Setup)

  const INITIAL := State(true, true, Setup([], 0, 0))

  function TakeLut(rest: seq<bool>, palsize: nat, palbits: nat): (r: Result<(seq<nat>, seq<bool>)>)
    ensures r.Ok? ==> |r.value.1| <= |rest| && |r.value.0| == palsize
    decreases palsize
  {
    if palsize == 0 then Ok(([], rest))
    else
      var (val, rest1) :- TakeNum(rest, palbits);
      var (lut, rest2) :- TakeLut(rest1, palsize - 1, palbits);
      Ok(([val] + lut, rest2))
  }

  function TakeSetup(rest: seq<bool>): (r: Result<(Setup, seq<bool>)>)
    ensures r.Ok? ==> |r.value.1| <= |rest|
  {
    var (directOffset, rest1) :- TakeNum(rest, 5);
    var (size, rest2) :- TakeNum(rest1, 5);
    var (bits, rest3) :- TakeNum(rest2, 3);
    var (lut, rest4) :- TakeLut(rest3, if size > 0 then size + 1 else 0, bits + 2);
    Ok((Setup(lut, bits + 2, directOffset), rest4))
  }

  function Output(setup: Setup, newPalette: bool, useZeroRuns: bool, ws: seq<nat>, zs: seq<nat>): Result<seq<int>>
    requires useZeroRuns ==> |zs| == |ws| + if newPalette then 1 else 0
  {
    if exists i :: 0 <= i < |ws| && ws[i] >= 512 then Err(Malformed)
    else if useZeroRuns && newPalette then Ok(Zeros(zs[0]) + Interleave(setup, ws, zs[1..]))
    else Ok(Interleave(setup, ws, if useZeroRuns then zs else []))
  }

  /** The header fields after ZDIV, as they are in the stream. */
  datatype RawHeader = RawHeader(slicelen: nat, wdiv: nat, wtrunc: nat, newpal: nat)

  function TakeHeader(rest: seq<bool>): (r: Result<(RawHeader, seq<bool>)>)
    ensures r.Ok? ==> |r.value.1| <= |rest|
  {
    var (slicelen, rest1) :- TakeNum(rest, 15);
    var (wdiv, rest2) :- TakeNum(rest1, 3);
    var (wtrunc, rest3) :- TakeNum(rest2, 1);
    var (newpal, rest4) :- TakeNum(rest3, 1);
    Ok((RawHeader(slicelen, wdiv, wtrunc, newpal), rest4))
  }

  /** The header of a slice with the setup in force; useZeroRuns is not the stream's but follows from ZDIV. */
  function MakeHeader(zdiv: nat, raw: RawHeader, setup: Setup): (h: Header)
    ensures h.nvalues >= 1 && (h.useZeroRuns ==> h.nvalues <= h.znvalues <= h.nvalues + 1)
  {
    var nvalues, useZeroRuns := raw.slicelen + 1, zdiv != ZDIV_DISABLE;
    Header(nvalues, if useZeroRuns then nvalues + if raw.newpal != 0 then 1 else 0 else 0,
           useZeroRuns, raw.wdiv == WDIV_UNCOMPRESSED,
           if raw.wdiv == WDIV_UNCOMPRESSED then setup.UncompressedBits() else raw.wdiv,
           raw.wtrunc != 0, zdiv)
  }

  /** The rest of a slice, once its header and its setup are known. */
  function DecodeValues(zdiv: nat, raw: RawHeader, setup: Setup,
                        rest: seq<bool>): (r: Result<(seq<int>, State, seq<bool>)>)
    ensures r.Ok? ==> |r.value.2| <= |rest|
  {
    if raw.wdiv != WDIV_UNCOMPRESSED && raw.wdiv >= 6 then Err(Malformed) else
    var h := MakeHeader(zdiv, raw, setup);
    var (ws, zs, rest') :- DecodeBody(rest, h, START, START);
    var out :- Output(setup, raw.newpal != 0, h.useZeroRuns, ws, zs);
    Ok((out, State(false, h.useZeroRuns, setup), rest'))
  }

  /** A slice, after its ZDIV field. */
  function DecodeSlice(zdiv: nat, rest: seq<bool>, st: State): (r: Result<(seq<int>, State, seq<bool>)>)
    ensures r.Ok? ==> |r.value.2| <= |rest|
  {
    if !(zdiv < 4 || zdiv == ZDIV_DISABLE) then Err(Malformed) else
    var (raw, rest1) :- TakeHeader(rest);
    if raw.newpal == 0 && (st.first || (zdiv != ZDIV_DISABLE) != st.prevZeroRuns) then Err(Malformed) else
    var (setup, rest2) :- if raw.newpal != 0 then TakeSetup(rest1) else Ok((st.setup, rest1));
    DecodeValues(zdiv, raw, setup, rest2)
  }

  /** Skips end markers and padding; gives the ZDIV field of the next slice, if there is one. */
  function SkipMarkers(zdiv: nat, rest: seq<bool>, first: bool): (r: Result<(nat, seq<bool>, bool)>)
    ensures r.Ok? ==> |r.value.1| <= |rest|
    decreases |rest|
  {
    if zdiv != ZDIV_EOS then Ok((zdiv, rest, first))
    else
      var rest1 := rest[|rest| % 8..];
      if rest1 == [] then Ok((zdiv, rest1, true))
      else
        var (zdiv', rest2) :- TakeNum(rest1, 3);
        SkipMarkers(zdiv', rest2, true)
  }

  function DecodeFrom(rest: seq<bool>, st: State): Result<seq<int>>
    decreases |rest|, 1
  {
    var (z, rest1) :- TakeNum(rest, 3);
    var (zdiv, rest2, first) :- SkipMarkers(z, rest1, st.first);
    if rest2 == [] then Ok([]) else DecodeNext(zdiv, rest2, st.(first := first))
  }

  function DecodeNext(zdiv: nat, rest: seq<bool>, st: State): Result<seq<int>>
    decreases |rest|, 2
  {
    var (out, st', rest') :- DecodeSlice(zdiv, rest, st);
    var outs :- DecodeFrom(rest', st');
    Ok(out + outs)
  }

  function Decode(inbuf: seq<bv8>): Result<seq<int>> {
    DecodeFrom(BytesBits(inbuf), INITIAL)
  }
}
