/**
 * The decoder reads back what the format writes. The encoder's flow control counts values; the
 * decoder's counts quotients, padding included. They nevertheless enable the same chunks in every
 * round, so both sides agree on every field boundary.
 */
module Lockstep {
  import opened Results
  import opened Bits
  import opened UnaryCode
  import opened SliceFormat
  import opened DecodeSpec
  import opened Sequences

  function HeaderOf(s: Slice): Header {
    Header(|s.weights|, |s.runs|, s.useZeroRuns, s.mode.Uncompressed?,
           if s.mode.Golomb? then s.mode.div else s.setup.UncompressedBits(),
           s.mode.Golomb? && s.mode.trunc, ZdivField(s))
  }

  /** What Parse makes of the first k chunks. */
  function Parsed(ch: Channel, k: nat): (seq<nat>, nat)
    requires ch.Valid()
  {
    Parse(Window(ch.Symbols(), 0, ch.chunk * k), 0, ch.t)
  }

  /** The decoder's progress in a stream after k chunks; `on` says that the last round had a chunk of it. */
  function At(ch: Channel, k: nat, on: bool): Progress
    requires ch.Valid()
  {
    if on && k > 0 && ch.Done(k - 1) <= |Parsed(ch, k).0| then
      Progress(ch.Done(k), Parsed(ch, k).1, Parsed(ch, k).0[ch.Done(k - 1)..], true, ch.vals[..ch.Coded(k - 1)])
    else Progress(ch.Done(k), Parsed(ch, k).1, [], false, ch.vals[..ch.Coded(k)])
  }

  lemma TakeWordAppends(word: seq<bool>, tail: seq<bool>)
    ensures TakeWord(word + tail, |word|) == Ok((word, tail))
  {
    assert (word + tail)[..|word|] == word && (word + tail)[|word|..] == tail;
  }

  lemma TakeNumReads(field: seq<bool>, tail: seq<bool>)
    ensures TakeNum(field + tail, |field|) == Ok((ValueOf(field), tail))
  {
    assert (field + tail)[..|field|] == field && (field + tail)[|field|..] == tail;
  }

  lemma TakeNumAppends(len: nat, data: nat, tail: seq<bool>)
    requires data < Pow2(len)
    ensures TakeNum(BitsOf(len, data) + tail, len) == Ok((data, tail))
  {
    TakeWordAppends(BitsOf(len, data), tail);
    ValueOfBitsOf(len, data);
    assert TakeWord(BitsOf(len, data) + tail, len).Ok?;
  }

  lemma DivMod(v: nat, p: nat)
    requires p > 0
    ensures v % p < p && (v / p) * p + v % p == v
  {
  }

  lemma TakeRemaindersStep(rest: seq<bool>, qs: seq<nat>, room: nat, div: nat, low: nat, rest1: seq<bool>,
                           vs: seq<nat>, tail: seq<bool>)
    requires qs != [] && room > 0 && TakeNum(rest, div) == Ok((low, rest1))
    requires TakeRemainders(rest1, qs[1..], room - 1, div) == Ok((vs, tail))
    ensures TakeRemainders(rest, qs, room, div) == Ok(([qs[0] * Pow2(div) + low] + vs, tail))
  {
  }

  lemma {:induction false} TakeRemaindersAppends(vals: seq<nat>, div: nat, qs: seq<nat>, room: nat, tail: seq<bool>)
    requires |vals| == if |qs| < room then |qs| else room
    requires forall i :: 0 <= i < |vals| ==> qs[i] == vals[i] / Pow2(div)
    ensures TakeRemainders(RemainderBits(vals, div) + tail, qs, room, div) == Ok((vals, tail))
    decreases |vals|
  {
    if vals == [] {
      assert RemainderBits(vals, div) + tail == tail;
    } else {
      DivMod(vals[0], Pow2(div));
      var low := vals[0] % Pow2(div);
      var rest1 := RemainderBits(vals[1..], div) + tail;
      AppendAssociates(BitsOf(div, low), RemainderBits(vals[1..], div), tail);
      TakeNumAppends(div, low, rest1);
      TakeRemaindersAppends(vals[1..], div, qs[1..], room - 1, tail);
      TakeRemaindersStep(BitsOf(div, low) + rest1, qs, room, div, low, rest1, vals[1..], tail);
      assert vals == [vals[0]] + vals[1..];
    }
  }

  lemma AtIsValid(ch: Channel, k: nat, on: bool)
    requires ch.Valid() && (on ==> k > 0)
    ensures At(ch, k, on).Valid(|ch.vals|) && At(ch, k, on).prevOn == on
    ensures At(ch, k, on).pos == ch.Done(k)
    ensures on ==> At(ch, k, on).prev == Parsed(ch, k).0[ch.Done(k - 1)..]
                   && At(ch, k, on).vals == ch.vals[..ch.Coded(k - 1)]
  {
    DoneIsParsed(ch, k);
    if on {
      DoneIsParsed(ch, k - 1);
      NextChunk(ch, k - 1);
    }
  }

  /** The remainders that were held back in the last round complete the values of that chunk. */
  lemma HeldRemainders(ch: Channel, k: nat, on: bool, tail: seq<bool>)
    requires ch.Valid() && (on ==> k > 0)
    ensures var p := At(ch, k, on);
            TakeRemainders(RemainderBits(ch.Held(k, on), ch.div) + tail, Pending(p), Room(p, |ch.vals|), ch.div)
            == Ok((ch.Held(k, on), tail))
  {
    AtIsValid(ch, k, on);
    if on {
      DoneIsParsed(ch, k);
      DoneIsParsed(ch, k - 1);
      NextChunk(ch, k - 1);
      var p, vs := At(ch, k, on), ch.Held(k, on);
      forall i | 0 <= i < |vs| ensures p.prev[i] == vs[i] / Pow2(ch.div) {
        assert p.prev[i] == Parsed(ch, k).0[ch.Done(k - 1) + i];
      }
      TakeRemaindersAppends(vs, ch.div, p.prev, Room(p, |ch.vals|), tail);
    } else {
      assert [] + tail == tail;
    }
  }

  /** One round moves the decoder from k chunks to the next. */
  lemma AdvanceAt(ch: Channel, k: nat, on: bool, next: bool, cs: seq<nat>)
    requires ch.Valid() && (on ==> k > 0) && (next ==> cs == ch.Chunk(k))
    ensures var p, n := At(ch, k, on), |ch.vals|;
            && p.Valid(n)
            && |ch.Held(k, on)| == (if |Pending(p)| < Room(p, n) then |Pending(p)| else Room(p, n))
            && Advance(p, next, cs, ch.t, ch.Held(k, on), n) == At(ch, Step(k, next), next)
  {
    AtIsValid(ch, k, on);
    var p := At(ch, k, on);
    DoneIsParsed(ch, k);
    if on {
      DoneIsParsed(ch, k - 1);
      NextChunk(ch, k - 1);
    }
    assert p.vals + ch.Held(k, on) == ch.vals[..ch.Coded(k)];
    if next {
      NextChunk(ch, k);
      AtIsValid(ch, k + 1, true);
      DoneIsParsed(ch, k + 1);
      ParseSplits(Window(ch.Symbols(), 0, ch.chunk * k), ch.Chunk(k), 0, ch.t);
      var (qs, c) := Parse(ch.Chunk(k), p.carry, ch.t);
      assert Parsed(ch, k + 1).0 == Parsed(ch, k).0 + qs;
      assert Parsed(ch, k + 1).0[ch.Done(k)..] == qs;
      ParseCounts(ch.Chunk(k), p.carry, ch.t);
    }
  }

  /** The decoder enables the same chunks as the encoder. */
  lemma SameEnables(s: Slice, kw: nat, kz: nat, pw: bool, pz: bool)
    requires s.Valid() && (pw ==> kw > 0) && (pz ==> kz > 0)
    ensures var h, w, z := HeaderOf(s), At(s.Weights(), kw, pw), At(s.Runs(), kz, pz);
            && WeightsOn(h, w, z) == WeightsEnabled(s, kw, kz)
            && RunsOn(h, w, z) == RunsEnabled(s, kw, kz)
  {
    AtIsValid(s.Weights(), kw, pw);
    AtIsValid(s.Runs(), kz, pz);
  }

  // Runs have one bit a symbol, weights at most two, uncompressed weights none.

  lemma RunSymbols(s: Slice, k: nat)
    requires s.Valid()
    ensures FromBits(Unary0(s.Runs().Chunk(k))) == s.Runs().Chunk(k)
  {
    CodesBounded(s.Runs().Quotients(), 1, 1);
    assert forall i :: 0 <= i < |s.Runs().Chunk(k)| ==> s.Runs().Chunk(k)[i] <= 1;
  }

  lemma GolombSymbols(s: Slice, k: nat)
    requires s.Valid() && s.mode.Golomb?
    ensures var cs := s.Weights().Chunk(k);
            |Unary1(cs)| == CountTrue(Unary0(cs)) && FromUnary(Unary0(cs), Unary1(cs)) == cs
  {
    var w := s.Weights();
    if s.mode.trunc {
      forall i | 0 <= i < |w.vals| ensures w.Quotients()[i] <= 2 {
        assert s.CanCode(w.vals[i]);
      }
    }
    CodesBounded(w.Quotients(), w.t, 2);
    var cs := w.Chunk(k);
    forall i | 0 <= i < |cs| ensures cs[i] <= 2 {
      assert cs[i] == if w.chunk * k + i < |w.Symbols()| then w.Symbols()[w.chunk * k + i] else 0;
    }
    FromUnaryInverts(cs);
  }

  lemma UncompressedSymbols(s: Slice, k: nat)
    requires s.Valid() && s.mode.Uncompressed?
    ensures s.Weights().Chunk(k) == ZeroSymbols(s.Weights().chunk)
  {
    var w := s.Weights();
    forall i | 0 <= i < |w.vals| ensures w.Quotients()[i] == 0 {
      assert s.CanCode(w.vals[i]);
      SmallQuotient(w.vals[i], Pow2(w.div));
    }
    CodesBounded(w.Quotients(), 2, 0);
    var cs, zs := w.Chunk(k), ZeroSymbols(w.chunk);
    forall i | 0 <= i < |cs| ensures cs[i] == zs[i] {
      assert cs[i] == if w.chunk * k + i < |w.Symbols()| then w.Symbols()[w.chunk * k + i] else 0;
    }
  }

  lemma SmallQuotient(v: nat, p: nat)
    requires v < p
    ensures v / p == 0
  {
  }

  /** The fields of a round are read back one after the other. */
  lemma TakeRoundReads(f: RoundFields, h: Header, we: bool, ze: bool, w: Progress, z: Progress,
                       ws: seq<nat>, zs: seq<nat>, tail: seq<bool>)
    requires |f.unary0| == if we && !h.uncompressed then 12 else 0
    requires |f.zunary| == if ze then h.RunChunk() else 0
    requires |f.unary1| == CountTrue(f.unary0)
    requires TakeRemainders(f.wremain + (f.zremain + tail), Pending(w), Room(w, h.nvalues), h.wdiv)
             == Ok((ws, f.zremain + tail))
    requires TakeRemainders(f.zremain + tail, Pending(z), Room(z, h.znvalues), h.zdiv) == Ok((zs, tail))
    ensures TakeRound(f.Join() + tail, h, we, ze, w, z)
            == Ok(Round(if h.uncompressed then ZeroSymbols(h.WeightChunk()) else FromUnary(f.unary0, f.unary1),
                        FromBits(f.zunary), ws, zs, tail))
  {
    var r3 := f.wremain + (f.zremain + tail);
    var r2 := f.unary1 + r3;
    var r1 := f.zunary + r2;
    AppendAssociates(f.wremain, f.zremain, tail);
    AppendAssociates(f.unary1, f.wremain + f.zremain, tail);
    AppendAssociates(f.zunary, f.unary1 + (f.wremain + f.zremain), tail);
    AppendAssociates(f.unary0, f.zunary + (f.unary1 + (f.wremain + f.zremain)), tail);
    TakeWordAppends(f.unary0, r1);
    TakeWordAppends(f.zunary, r2);
    TakeWordAppends(f.unary1, r3);
  }

  lemma RoundTaken(s: Slice, kw: nat, kz: nat, pw: bool, pz: bool, tail: seq<bool>) returns (rd: Round)
    requires s.Valid() && (pw ==> kw > 0) && (pz ==> kz > 0)
    ensures TakeRound(Fields(s, kw, kz, pw, pz).Join() + tail, HeaderOf(s), WeightsEnabled(s, kw, kz),
                      RunsEnabled(s, kw, kz),
                      At(s.Weights(), kw, pw), At(s.Runs(), kz, pz)) == Ok(rd)
    ensures WeightsEnabled(s, kw, kz) ==> rd.wcs == s.Weights().Chunk(kw)
    ensures RunsEnabled(s, kw, kz) ==> rd.zcs == s.Runs().Chunk(kz)
    ensures rd.ws == s.Weights().Held(kw, pw) && rd.zs == s.Runs().Held(kz, pz) && rd.rest == tail
  {
    var h, w, z := HeaderOf(s), At(s.Weights(), kw, pw), At(s.Runs(), kz, pz);
    var we, ze := WeightsEnabled(s, kw, kz), RunsEnabled(s, kw, kz);
    var f := Fields(s, kw, kz, pw, pz);
    if s.mode.Golomb? {
      GolombSymbols(s, kw);
    } else {
      UncompressedSymbols(s, kw);
    }
    RunSymbols(s, kz);
    HeldRemainders(s.Weights(), kw, pw, f.zremain + tail);
    RunRemainders(s, kz, pz, tail);
    TakeRoundReads(f, h, we, ze, w, z, s.Weights().Held(kw, pw), s.Runs().Held(kz, pz), tail);
    rd := Round(if h.uncompressed then ZeroSymbols(h.WeightChunk()) else FromUnary(f.unary0, f.unary1),
                FromBits(f.zunary), s.Weights().Held(kw, pw), s.Runs().Held(kz, pz), tail);
  }

  lemma RoundMade(rest: seq<bool>, h: Header, w: Progress, z: Progress, rd: Round, w': Progress, z': Progress)
    requires w.Valid(h.nvalues) && z.Valid(h.znvalues)
    requires TakeRound(rest, h, WeightsOn(h, w, z), RunsOn(h, w, z), w, z) == Ok(rd)
    requires w' == Advance(w, WeightsOn(h, w, z), rd.wcs, h.WeightThreshold(), rd.ws, h.nvalues)
    requires z' == Advance(z, RunsOn(h, w, z), rd.zcs, 1, rd.zs, h.znvalues)
    ensures DecodeRound(rest, h, w, z) == Ok((w', z', rd.rest))
  {
  }

  lemma RoundLockstep(s: Slice, kw: nat, kz: nat, pw: bool, pz: bool, tail: seq<bool>)
    requires s.Valid() && (pw ==> kw > 0) && (pz ==> kz > 0)
    ensures var h, w, z := HeaderOf(s), At(s.Weights(), kw, pw), At(s.Runs(), kz, pz);
            var we, ze := WeightsEnabled(s, kw, kz), RunsEnabled(s, kw, kz);
            && w.Valid(h.nvalues) && z.Valid(h.znvalues)
            && DecodeRound(Fields(s, kw, kz, pw, pz).Join() + tail, h, w, z)
               == Ok((At(s.Weights(), Step(kw, we), we), At(s.Runs(), Step(kz, ze), ze), tail))
  {
    var h, w, z := HeaderOf(s), At(s.Weights(), kw, pw), At(s.Runs(), kz, pz);
    var we, ze := WeightsEnabled(s, kw, kz), RunsEnabled(s, kw, kz);
    SameEnables(s, kw, kz, pw, pz);
    var rd := RoundTaken(s, kw, kz, pw, pz, tail);
    AdvanceAt(s.Weights(), kw, pw, we, rd.wcs);
    AdvanceAt(s.Runs(), kz, pz, ze, rd.zcs);
    SameThresholds(s);
    RoundMade(Fields(s, kw, kz, pw, pz).Join() + tail, h, w, z, rd, At(s.Weights(), Step(kw, we), we),
              At(s.Runs(), Step(kz, ze), ze));
  }

  lemma SameThresholds(s: Slice)
    ensures HeaderOf(s).WeightThreshold() == s.Weights().t && HeaderOf(s).nvalues == |s.Weights().vals|
    ensures s.Runs().t == 1 && HeaderOf(s).znvalues == |s.Runs().vals|
  {
  }

  lemma RunRemainders(s: Slice, kz: nat, pz: bool, tail: seq<bool>)
    requires s.Valid() && (pz ==> kz > 0)
    ensures var h, z := HeaderOf(s), At(s.Runs(), kz, pz);
            TakeRemainders(Fields(s, 0, kz, false, pz).zremain + tail, Pending(z), Room(z, h.znvalues), h.zdiv)
            == Ok((s.Runs().Held(kz, pz), tail))
  {
    HeldRemainders(s.Runs(), kz, pz, tail);
    if !s.useZeroRuns {
      AtIsValid(s.Runs(), kz, pz);
    }
  }

  /** No deadlock: when neither stream is enabled, every value of both has been coded. */
  lemma NothingLeft(s: Slice, kw: nat, kz: nat)
    requires s.Valid()
    ensures !WeightsEnabled(s, kw, kz) && !RunsEnabled(s, kw, kz)
            <==> s.Weights().Coded(kw) == |s.weights| && s.Runs().Coded(kz) == |s.runs|
  {
  }

  lemma AllRead(s: Slice, kw: nat, kz: nat)
    requires s.Valid() && !WeightsEnabled(s, kw, kz) && !RunsEnabled(s, kw, kz)
    ensures At(s.Weights(), kw, false).vals == s.weights && At(s.Runs(), kz, false).vals == s.runs
  {
    NothingLeft(s, kw, kz);
  }

  /** From any round on, the decoder gets all values of the slice and stops exactly at its end. */
  lemma {:induction false} BodyLockstep(s: Slice, kw: nat, kz: nat, pw: bool, pz: bool, tail: seq<bool>)
    requires s.Valid() && (pw ==> kw > 0) && (pz ==> kz > 0)
    ensures var h, w, z := HeaderOf(s), At(s.Weights(), kw, pw), At(s.Runs(), kz, pz);
            && w.Valid(h.nvalues) && z.Valid(h.znvalues)
            && DecodeBody(BodyBits(s, kw, kz, pw, pz) + tail, h, w, z) == Ok((s.weights, s.runs, tail))
    decreases s.Weights().Left(kw) + s.Runs().Left(kz)
  {
    var we, ze := WeightsEnabled(s, kw, kz), RunsEnabled(s, kw, kz);
    var kw', kz' := Step(kw, we), Step(kz, ze);
    var next := if we || ze then BodyBits(s, kw', kz', we, ze) else [];
    AppendAssociates(Fields(s, kw, kz, pw, pz).Join(), next, tail);
    RoundLockstep(s, kw, kz, pw, pz, next + tail);
    AtIsValid(s.Weights(), kw', we);
    AtIsValid(s.Runs(), kz', ze);
    var h, w, z := HeaderOf(s), At(s.Weights(), kw, pw), At(s.Runs(), kz, pz);
    var w', z' := At(s.Weights(), kw', we), At(s.Runs(), kz', ze);
    if we || ze {
      EnabledShrinks(s, kw, kz);
      BodyLockstep(s, kw', kz', we, ze, tail);
    } else {
      assert next + tail == tail;
      AllRead(s, kw, kz);
    }
    BodyStep(BodyBits(s, kw, kz, pw, pz) + tail, h, w, z, w', z', next + tail, Ok((s.weights, s.runs, tail)));
  }

  lemma BodyStep(rest: seq<bool>, h: Header, w: Progress, z: Progress, w': Progress, z': Progress, rest': seq<bool>,
                 r: Result<(seq<nat>, seq<nat>, seq<bool>)>)
    requires w.Valid(h.nvalues) && z.Valid(h.znvalues)
    requires h.nvalues >= 1 && (h.useZeroRuns ==> h.nvalues <= h.znvalues <= h.nvalues + 1)
    requires DecodeRound(rest, h, w, z) == Ok((w', z', rest'))
    requires r == if w'.prevOn || z'.prevOn then DecodeBody(rest', h, w', z') else Ok((w'.vals, z'.vals, rest'))
    ensures DecodeBody(rest, h, w, z) == r
  {
  }

  lemma EnabledShrinks(s: Slice, kw: nat, kz: nat)
    requires WeightsEnabled(s, kw, kz) || RunsEnabled(s, kw, kz)
    ensures s.Weights().Left(Step(kw, WeightsEnabled(s, kw, kz))) + s.Runs().Left(Step(kz, RunsEnabled(s, kw, kz)))
            < s.Weights().Left(kw) + s.Runs().Left(kz)
  {
    DoneIsParsed(s.Weights(), kw);
    DoneIsParsed(s.Runs(), kz);
    assert s.Weights().chunk * (kw + 1) == s.Weights().chunk * kw + s.Weights().chunk;
    assert s.Runs().chunk * (kz + 1) == s.Runs().chunk * kz + s.Runs().chunk;
  }

  // ---- a whole slice

  lemma {:induction false} TakeLutAppends(lut: seq<nat>, palbits: nat, tail: seq<bool>)
    requires forall i :: 0 <= i < |lut| ==> lut[i] < Pow2(palbits)
    ensures TakeLut(LutBits(lut, palbits) + tail, |lut|, palbits) == Ok((lut, tail))
  {
    if lut == [] {
      assert LutBits(lut, palbits) + tail == tail;
    } else {
      AppendAssociates(BitsOf(palbits, lut[0]), LutBits(lut[1..], palbits), tail);
      TakeNumAppends(palbits, lut[0], LutBits(lut[1..], palbits) + tail);
      TakeLutAppends(lut[1..], palbits, tail);
      assert lut == [lut[0]] + lut[1..];
    }
  }

  lemma FieldWidths()
    ensures Pow2(1) == 2 && Pow2(3) == 8 && Pow2(5) == 32 && Pow2(15) == 32768
  {
    Pow2Adds(5, 5);
    Pow2Adds(10, 5);
    assert Pow2(5) == 2 * Pow2(4) && Pow2(4) == 2 * Pow2(3) && Pow2(3) == 2 * Pow2(2) && Pow2(2) == 2 * Pow2(1);
  }

  lemma SetupMade(rest: seq<bool>, directOffset: nat, rest1: seq<bool>, size: nat, rest2: seq<bool>, bits: nat,
                  rest3: seq<bool>,
                  lut: seq<nat>, tail: seq<bool>)
    requires TakeNum(rest, 5) == Ok((directOffset, rest1)) && TakeNum(rest1, 5) == Ok((size, rest2))
    requires TakeNum(rest2, 3) == Ok((bits, rest3))
    requires TakeLut(rest3, if size > 0 then size + 1 else 0, bits + 2) == Ok((lut, tail))
    ensures TakeSetup(rest) == Ok((Setup(lut, bits + 2, directOffset), tail))
  {
  }

  lemma SetupFieldsRead(b0: seq<bool>, b1: seq<bool>, b2: seq<bool>, b3: seq<bool>, lut: seq<nat>, tail: seq<bool>)
    requires |b0| == |b1| == 5 && |b2| == 3
    requires TakeLut(b3 + tail, if ValueOf(b1) > 0 then ValueOf(b1) + 1 else 0, ValueOf(b2) + 2) == Ok((lut, tail))
    ensures TakeSetup((b0 + (b1 + (b2 + b3))) + tail) == Ok((Setup(lut, ValueOf(b2) + 2, ValueOf(b0)), tail))
  {
    AppendAssociates(b2, b3, tail);
    AppendAssociates(b1, b2 + b3, tail);
    AppendAssociates(b0, b1 + (b2 + b3), tail);
    var r3 := b3 + tail;
    var r2 := b2 + r3;
    var r1 := b1 + r2;
    TakeNumReads(b0, r1);
    TakeNumReads(b1, r2);
    TakeNumReads(b2, r3);
    assert (b0 + (b1 + (b2 + b3))) + tail == b0 + r1;
    SetupMade(b0 + r1, ValueOf(b0), r1, ValueOf(b1), r2, ValueOf(b2), r3, lut, tail);
  }

  /** DIROFS, PALSIZE, PALBITS and the palette survive their field widths. */
  lemma SetupReads(p: Setup, tail: seq<bool>)
    requires p.Valid()
    ensures TakeSetup(SetupBits(p) + tail) == Ok((p, tail))
  {
    FieldWidths();
    var size, bits := if |p.lut| == 0 then 0 else |p.lut| - 1, p.palbits - 2;
    ValueOfBitsOf(5, p.directOffset);
    ValueOfBitsOf(5, size);
    ValueOfBitsOf(3, bits);
    TakeLutAppends(p.lut, p.palbits, tail);
    var b0, b1, b2, b3 := BitsOf(5, p.directOffset), BitsOf(5, size), BitsOf(3, bits), LutBits(p.lut, p.palbits);
    assert SetupBits(p) == b0 + (b1 + (b2 + b3));
    SetupFieldsRead(b0, b1, b2, b3, p.lut, tail);
  }

  /** The decoder's state between slices, after a slice. */
  function After(s: Slice): State {
    State(false, s.useZeroRuns, s.setup)
  }

  predicate Accepts(st: State, s: Slice) {
    s.newPalette || (!st.first && st.prevZeroRuns == s.useZeroRuns && st.setup == s.setup)
  }

  function RawHeaderOf(s: Slice): RawHeader
    requires s.Valid()
  {
    RawHeader(|s.weights| - 1, if s.mode.Golomb? then s.mode.div else WDIV_UNCOMPRESSED,
              if s.mode.Golomb? && s.mode.trunc then 1 else 0, if s.newPalette then 1 else 0)
  }

  lemma HeaderMade(rest: seq<bool>, raw: RawHeader, rest1: seq<bool>, rest2: seq<bool>, rest3: seq<bool>,
                   tail: seq<bool>)
    requires TakeNum(rest, 15) == Ok((raw.slicelen, rest1)) && TakeNum(rest1, 3) == Ok((raw.wdiv, rest2))
    requires TakeNum(rest2, 1) == Ok((raw.wtrunc, rest3)) && TakeNum(rest3, 1) == Ok((raw.newpal, tail))
    ensures TakeHeader(rest) == Ok((raw, tail))
  {
  }

  lemma HeaderFieldsRead(b0: seq<bool>, b1: seq<bool>, b2: seq<bool>, b3: seq<bool>, body: seq<bool>, tail: seq<bool>)
    requires |b0| == 15 && |b1| == 3 && |b2| == |b3| == 1
    ensures TakeHeader((b0 + (b1 + (b2 + (b3 + body)))) + tail)
            == Ok((RawHeader(ValueOf(b0), ValueOf(b1), ValueOf(b2), ValueOf(b3)), body + tail))
  {
    AppendAssociates(b3, body, tail);
    AppendAssociates(b2, b3 + body, tail);
    AppendAssociates(b1, b2 + (b3 + body), tail);
    AppendAssociates(b0, b1 + (b2 + (b3 + body)), tail);
    var r4 := body + tail;
    var r3 := b3 + r4;
    var r2 := b2 + r3;
    var r1 := b1 + r2;
    TakeNumReads(b0, r1);
    TakeNumReads(b1, r2);
    TakeNumReads(b2, r3);
    TakeNumReads(b3, r4);
    HeaderMade(b0 + r1, RawHeader(ValueOf(b0), ValueOf(b1), ValueOf(b2), ValueOf(b3)), r1, r2, r3, r4);
  }

  lemma RawHeaderFits(s: Slice)
    requires s.Valid()
    ensures var raw := RawHeaderOf(s);
            raw.slicelen < Pow2(15) && raw.wdiv < Pow2(3) && raw.wtrunc < Pow2(1) && raw.newpal < Pow2(1)
  {
    FieldWidths();
  }

  lemma HeaderReads(s: Slice, body: seq<bool>, tail: seq<bool>)
    requires s.Valid()
    ensures TakeHeader(HeaderBits(s, body) + tail)
            == Ok((RawHeaderOf(s), (if s.newPalette then SetupBits(s.setup) else []) + body + tail))
  {
    RawHeaderFits(s);
    HeaderIsRaw(s, body);
    RawHeaderReads(RawHeaderOf(s), (if s.newPalette then SetupBits(s.setup) else []) + body, tail);
  }

  /** The fixed fields of a header, and what follows them. */
  function RawHeaderBits(raw: RawHeader, body: seq<bool>): seq<bool> {
    BitsOf(15, raw.slicelen) + (BitsOf(3, raw.wdiv) + (BitsOf(1, raw.wtrunc) + (BitsOf(1, raw.newpal) + body)))
  }

  lemma HeaderIsRaw(s: Slice, body: seq<bool>)
    requires s.Valid()
    ensures HeaderBits(s, body)
            == RawHeaderBits(RawHeaderOf(s), (if s.newPalette then SetupBits(s.setup) else []) + body)
  {
  }

  lemma RawHeaderReads(raw: RawHeader, body: seq<bool>, tail: seq<bool>)
    requires raw.slicelen < Pow2(15) && raw.wdiv < Pow2(3) && raw.wtrunc < Pow2(1) && raw.newpal < Pow2(1)
    ensures TakeHeader(RawHeaderBits(raw, body) + tail) == Ok((raw, body + tail))
  {
    ValueOfBitsOf(15, raw.slicelen);
    ValueOfBitsOf(3, raw.wdiv);
    ValueOfBitsOf(1, raw.wtrunc);
    ValueOfBitsOf(1, raw.newpal);
    HeaderFieldsRead(BitsOf(15, raw.slicelen), BitsOf(3, raw.wdiv), BitsOf(1, raw.wtrunc), BitsOf(1, raw.newpal),
                     body, tail);
  }

  lemma HeaderMatches(s: Slice)
    requires s.Valid()
    ensures MakeHeader(ZdivField(s), RawHeaderOf(s), s.setup) == HeaderOf(s)
  {
  }

  lemma ValuesRead(s: Slice, tail: seq<bool>)
    requires s.Valid()
    ensures DecodeValues(ZdivField(s), RawHeaderOf(s), s.setup, BodyBits(s, 0, 0, false, false) + tail)
            == Ok((Expand(s), After(s), tail))
  {
    BodyLockstep(s, 0, 0, false, false, tail);
    AtStart(s.Weights());
    AtStart(s.Runs());
    HeaderMatches(s);
  }

  /** A slice decodes to the weights it stands for, whatever follows it. */
  lemma SliceReads(s: Slice, st: State, tail: seq<bool>)
    requires s.Valid() && Accepts(st, s)
    ensures DecodeSlice(ZdivField(s), AfterZdiv(s) + tail, st) == Ok((Expand(s), After(s), tail))
  {
    var bodyBits := BodyBits(s, 0, 0, false, false);
    var setupBits := if s.newPalette then SetupBits(s.setup) else [];
    HeaderReads(s, bodyBits, tail);
    AppendAssociates(setupBits, bodyBits, tail);
    if s.newPalette {
      SetupReads(s.setup, bodyBits + tail);
    } else {
      assert [] + (bodyBits + tail) == bodyBits + tail;
    }
    ValuesRead(s, tail);
  }

  lemma AtStart(ch: Channel)
    requires ch.Valid()
    ensures At(ch, 0, false) == START
  {
    assert ch.chunk * 0 == 0;
    assert Window(ch.Symbols(), 0, 0) == [];
  }
}
