/** The decoder: reads slices from a bit buffer until the input ends. */
module MlwDecode {
  import opened Results
  import opened Bits
  import opened BitBuf
  import opened UnaryCode
  import opened SliceFormat
  import opened DecodeSpec
  import opened Lockstep
  import SliceLayout

  lemma ParseSnoc(cs: seq<nat>, c: nat, carry: nat, t: nat)
    ensures var (qs, cnt) := Parse(cs, carry, t);
            Parse(cs + [c], carry, t) == if c < t then (qs + [cnt + c], 0) else (qs, cnt + c)
  {
    var (qs, cnt) := Parse(cs, carry, t);
    ParseSplits(cs, [c], carry, t);
    assert [c][1..] == [] && [cnt + c] + [] == [cnt + c];
    assert Parse([c], cnt, t) == if c < t then ([cnt + c], 0) else ([], cnt + c);
    assert qs + [] == qs;
  }

  /** Splits a zero-run word into quotients; an open code is carried on. */
  method ParseRuns(unary: seq<bool>, zCarry: nat) returns (qs: seq<nat>, carry: nat)
    ensures (qs, carry) == Parse(FromBits(unary), zCarry, 1)
  {
    qs := [];
    var cnt := zCarry;
    for i := 0 to |unary|
      invariant (qs, cnt) == Parse(FromBits(unary[..i]), zCarry, 1)
    {
      assert FromBits(unary[..i + 1]) == FromBits(unary[..i]) + [if unary[i] then 1 else 0];
      ParseSnoc(FromBits(unary[..i]), if unary[i] then 1 else 0, zCarry, 1);
      if unary[i] {
        cnt := cnt + 1;
      } else {
        qs := qs + [cnt];
        cnt := 0;
      }
    }
    assert unary[..|unary|] == unary;
    carry := cnt;
  }

  lemma FromUnaryAt(u0: seq<bool>, u1: seq<bool>)
    requires |u1| == CountTrue(u0) && u0 != []
    ensures u0[0] ==> u1 != [] && |u1[1..]| == CountTrue(u0[1..])
    ensures FromUnary(u0, u1)[0] == (if u0[0] then (if u1[0] then 2 else 1) else 0)
    ensures FromUnary(u0, u1)[1..] == FromUnary(u0[1..], if u0[0] then u1[1..] else u1)
  {
  }

  /** Splits a pair of weight words into quotients. */
  method ParseWeights(unary0: seq<bool>, unary1: seq<bool>, trunc: bool, wCarry: nat) returns (qs: seq<nat>, carry: nat)
    requires |unary1| == CountTrue(unary0)
    ensures (qs, carry) == Parse(FromUnary(unary0, unary1), wCarry, if trunc then 3 else 2)
  {
    ghost var t := if trunc then 3 else 2;
    ghost var cs := FromUnary(unary0, unary1);
    var u1 := unary1;
    qs := [];
    var cnt := wCarry;
    assert unary0[0..] == unary0 && cs[0..] == cs;
    for i := 0 to |unary0|
      invariant |u1| == CountTrue(unary0[i..]) && FromUnary(unary0[i..], u1) == cs[i..]
      invariant (qs, cnt) == Parse(cs[..i], wCarry, t)
    {
      FromUnaryAt(unary0[i..], u1);
      assert unary0[i..][0] == unary0[i] && unary0[i..][1..] == unary0[i + 1..];
      assert cs[i..][0] == cs[i] && cs[i..][1..] == cs[i + 1..] && cs[..i + 1] == cs[..i] + [cs[i]];
      ParseSnoc(cs[..i], cs[i], wCarry, t);
      var code := 0;
      if unary0[i] {
        code := code + 1;
        if u1[0] {
          code := code + 1;
        }
        u1 := u1[1..];
      }
      cnt := cnt + code;
      if code < 2 || trunc {
        qs := qs + [cnt];
        cnt := 0;
      }
    }
    assert cs[..|unary0|] == cs;
    carry := cnt;
  }

  /** Reads the remainders of the quotients of the chunk before. */
  method ReadRemainders(bb: Reader, qs: seq<nat>, room: nat, div: nat) returns (ok: bool, vals: seq<nat>)
    requires bb.Valid()
    modifies bb
    ensures bb.Valid()
    ensures var r := TakeRemainders(old(bb.Rest()), qs, room, div);
            if ok then r == Ok((vals, bb.Rest())) else r == Err(Underrun)
  {
    vals := [];
    var i := 0;
    ghost var spec := TakeRemainders(bb.Rest(), qs, room, div);
    assert qs[0..] == qs;
    PrefixNothing(spec);
    ghost var left: nat := room;
    while i < |qs| && i < room
      invariant 0 <= i <= |qs| && left == room - i && bb.Valid()
      invariant spec == PrefixValues(vals, TakeRemainders(bb.Rest(), qs[i..], left, div))
    {
      RemainderStep(bb.Rest(), qs, i, left, div, vals);
      var got, remain := bb.Get(div);
      if !got {
        ok := false;
        return;
      }
      vals := vals + [ValueFrom(qs[i], remain, div)];
      i, left := i + 1, left - 1;
    }
    assert vals + [] == vals;
    ok := true;
  }

  function ValueFrom(q: nat, remain: nat, div: nat): nat {
    q * Pow2(div) + remain
  }

  lemma RemainderStep(rest: seq<bool>, qs: seq<nat>, i: nat, left: nat, div: nat, vals: seq<nat>)
    requires i < |qs| && left > 0
    ensures PrefixValues(vals, TakeRemainders(rest, qs[i..], left, div))
            == if div <= |rest| then
                 PrefixValues(vals + [ValueFrom(qs[i], ValueOf(rest[..div]), div)],
                              TakeRemainders(rest[div..], qs[i + 1..], left - 1, div))
               else Err(Underrun)
  {
    assert qs[i..][1..] == qs[i + 1..];
    if div <= |rest| {
      PrefixValuesTwice(vals, [ValueFrom(qs[i], ValueOf(rest[..div]), div)],
                        TakeRemainders(rest[div..], qs[i + 1..], left - 1, div));
    }
  }

  lemma PrefixNothing(r: Result<(seq<nat>, seq<bool>)>)
    ensures PrefixValues([], r) == r
  {
    if r.Ok? {
      assert [] + r.value.0 == r.value.0;
    }
  }

  function PrefixValues(vals: seq<nat>, r: Result<(seq<nat>, seq<bool>)>): Result<(seq<nat>, seq<bool>)> {
    match r
    case Ok((vs, rest)) => Ok((vals + vs, rest))
    case Err(e) => Err(e)
  }

  lemma PrefixValuesTwice(a: seq<nat>, b: seq<nat>, r: Result<(seq<nat>, seq<bool>)>)
    ensures PrefixValues(a, PrefixValues(b, r)) == PrefixValues(a + b, r)
  {
    if r.Ok? {
      assert a + (b + r.value.0) == (a + b) + r.value.0;
    }
  }

  /** How many second bits a word of first bits calls for. */
  method CountOnes(unary0: seq<bool>) returns (n: nat)
    ensures n == CountTrue(unary0)
  {
    n := 0;
    for i := 0 to |unary0|
      invariant n == CountTrue(unary0[..i])
    {
      assert unary0[..i + 1] == unary0[..i] + [unary0[i]];
      CountTrueSnoc(unary0[..i], unary0[i]);
      if unary0[i] {
        n := n + 1;
      }
    }
    assert unary0[..|unary0|] == unary0;
  }

  /** Reads the unary words of a round. */
  method ReadUnary(bb: Reader, wLen: nat, zLen: nat)
    returns (ok: bool, unary0: seq<bool>, zunary: seq<bool>, unary1: seq<bool>)
    requires bb.Valid()
    modifies bb
    ensures bb.Valid()
    ensures var rest := old(bb.Rest());
            if !ok then |rest| < wLen || |rest| < wLen + zLen || |rest| < wLen + zLen + CountTrue(rest[..wLen])
            else && |unary0| == wLen && |zunary| == zLen && |unary1| == CountTrue(unary0)
                 && rest == unary0 + (zunary + (unary1 + bb.Rest()))
  {
    zunary, unary1 := [], [];
    ok, unary0 := ReadWord(bb, wLen);
    if !ok {
      return;
    }
    ok, zunary := ReadWord(bb, zLen);
    if !ok {
      return;
    }
    var n := CountOnes(unary0);
    ok, unary1 := ReadWord(bb, n);
  }

  /** Reads a word: what was left is the word and what is left now. */
  method ReadWord(bb: Reader, len: nat) returns (ok: bool, word: seq<bool>)
    requires bb.Valid()
    modifies bb
    ensures bb.Valid()
    ensures if ok then |word| == len && old(bb.Rest()) == word + bb.Rest() else |old(bb.Rest())| < len
  {
    ghost var rest := bb.Rest();
    ok, word := bb.GetWord(len);
    if ok {
      assert rest == rest[..len] + rest[len..];
    }
  }

  /** The specification of a round, step by step. */
  lemma TakeRoundSteps(rest: seq<bool>, h: Header, we: bool, ze: bool, w: Progress, z: Progress,
                       u0: seq<bool>, zu: seq<bool>, u1: seq<bool>, rest3: seq<bool>)
    requires |u0| == (if we && !h.uncompressed then 12 else 0) && |zu| == (if ze then h.RunChunk() else 0)
    requires |u1| == CountTrue(u0) && rest == u0 + (zu + (u1 + rest3))
    ensures TakeRound(rest, h, we, ze, w, z) == TakeRoundTail(rest3, h, w, z, u0, zu, u1)
  {
    TakeWordAppends(u0, zu + (u1 + rest3));
    TakeWordAppends(zu, u1 + rest3);
    TakeWordAppends(u1, rest3);
  }

  function TakeRoundTail(rest3: seq<bool>, h: Header, w: Progress, z: Progress, u0: seq<bool>, zu: seq<bool>,
                         u1: seq<bool>): Result<Round>
    requires |u1| == CountTrue(u0)
  {
    var (ws, rest4) :- TakeRemainders(rest3, Pending(w), Room(w, h.nvalues), h.wdiv);
    var (zs, rest5) :- TakeRemainders(rest4, Pending(z), Room(z, h.znvalues), h.zdiv);
    Ok(Round(if h.uncompressed then ZeroSymbols(h.WeightChunk()) else FromUnary(u0, u1), FromBits(zu), ws, zs, rest5))
  }

  lemma TakeRoundUnderrun(rest: seq<bool>, h: Header, we: bool, ze: bool, w: Progress, z: Progress)
    requires var wLen, zLen := if we && !h.uncompressed then 12 else 0, if ze then h.RunChunk() else 0;
             |rest| < wLen || |rest| < wLen + zLen || |rest| < wLen + zLen + CountTrue(rest[..wLen])
    ensures TakeRound(rest, h, we, ze, w, z) == Err(Underrun)
  {
  }

  /** Reads the fields of one round, in the order of the stream. */
  method ReadRound(bb: Reader, h: Header, we: bool, ze: bool, w: Progress, z: Progress)
    returns (ok: bool, unary0: seq<bool>, unary1: seq<bool>, zunary: seq<bool>, ws: seq<nat>, zs: seq<nat>)
    requires bb.Valid()
    modifies bb
    ensures bb.Valid()
    ensures ok ==> |unary1| == CountTrue(unary0)
    ensures var r := TakeRound(old(bb.Rest()), h, we, ze, w, z);
            if ok then r.Ok? && (we ==> r.value.wcs == FromUnary(unary0, unary1))
              && (ze ==> r.value.zcs == FromBits(zunary))
                       && r.value.ws == ws && r.value.zs == zs && r.value.rest == bb.Rest()
            else r == Err(Underrun)
  {
    ghost var rest := bb.Rest();
    ws, zs := [], [];
    ok, unary0, zunary, unary1 := ReadUnary(bb, if we && !h.uncompressed then 12 else 0,
                                            if ze then h.RunChunk() else 0);
    if !ok {
      TakeRoundUnderrun(rest, h, we, ze, w, z);
      return;
    }
    TakeRoundSteps(rest, h, we, ze, w, z, unary0, zunary, unary1, bb.Rest());
    ok, ws := ReadRemainders(bb, Pending(w), Room(w, h.nvalues), h.wdiv);
    if !ok {
      return;
    }
    ok, zs := ReadRemainders(bb, Pending(z), Room(z, h.znvalues), h.zdiv);
    if ok && h.uncompressed {
      ZeroWords(h.WeightChunk());
      unary0, unary1 := seq(h.WeightChunk(), _ => false), [];
    }
  }

  lemma {:induction false} ZeroWords(n: nat)
    ensures CountTrue(seq(n, _ => false)) == 0
    ensures FromUnary(seq(n, _ => false), []) == ZeroSymbols(n)
  {
    if n == 0 {
    } else {
      ZeroWords(n - 1);
      assert seq(n, _ => false)[1..] == seq(n - 1, _ => false);
      assert ZeroSymbols(n) == [0] + ZeroSymbols(n - 1);
    }
  }

  /** One pass through the chunk loop. */
  method ReadChunks(bb: Reader, h: Header, w: Progress, z: Progress) returns (ok: bool, w': Progress, z': Progress)
    requires bb.Valid() && w.Valid(h.nvalues) && z.Valid(h.znvalues)
    modifies bb
    ensures bb.Valid()
    ensures var r := DecodeRound(old(bb.Rest()), h, w, z);
            if ok then r == Ok((w', z', bb.Rest())) else r == Err(Underrun)
  {
    var balance := if h.useZeroRuns then w.pos - z.pos else 0;
    var we := (balance < 8 || !h.useZeroRuns) && w.pos < h.nvalues;
    var ze := balance >= 0 && h.useZeroRuns && z.pos < h.znvalues;
    assert we == WeightsOn(h, w, z) && ze == RunsOn(h, w, z);
    var unary0, unary1, zunary, wDone, zDone;
    ok, unary0, unary1, zunary, wDone, zDone := ReadRound(bb, h, we, ze, w, z);
    w', z' := w, z;
    if ok {
      w' := Progress(w.pos, w.carry, [], false, w.vals + wDone);
      z' := Progress(z.pos, z.carry, [], false, z.vals + zDone);
      if ze {
        var qs, carry := ParseRuns(zunary, z.carry);
        z' := Progress(z.pos + |qs|, carry, qs, true, z.vals + zDone);
      }
      if we {
        var qs, carry := ParseWeights(unary0, unary1, h.wtrunc, w.carry);
        w' := Progress(w.pos + |qs|, carry, qs, true, w.vals + wDone);
      }
    }
  }

  /** Reads all chunks of a slice. */
  method ReadBody(bb: Reader, h: Header) returns (ok: bool, ws: seq<nat>, zs: seq<nat>)
    requires bb.Valid()
    requires h.nvalues >= 1 && (h.useZeroRuns ==> h.nvalues <= h.znvalues <= h.nvalues + 1)
    modifies bb
    ensures bb.Valid()
    ensures var r := DecodeBody(old(bb.Rest()), h, START, START);
            if ok then r == Ok((ws, zs, bb.Rest())) else r == Err(Underrun)
  {
    var w, z := START, START;
    ws, zs := [], [];
    var more := true;
    while more
      invariant bb.Valid() && w.Valid(h.nvalues) && z.Valid(h.znvalues)
      invariant DecodeBody(old(bb.Rest()), h, START, START)
                == if more then DecodeBody(bb.Rest(), h, w, z) else Ok((w.vals, z.vals, bb.Rest()))
      decreases more, |bb.Rest()|, if w.pos < h.nvalues then h.nvalues - w.pos else 0
    {
      var w', z';
      ok, w', z' := ReadChunks(bb, h, w, z);
      if !ok {
        return;
      }
      w, z := w', z';
      more := w.prevOn || z.prevOn;
    }
    ok, ws, zs := true, w.vals, z.vals;
  }

  // ---- slices

  method ReadLut(bb: Reader, palsize: nat, palbits: nat) returns (ok: bool, lut: seq<nat>)
    requires bb.Valid()
    modifies bb
    ensures bb.Valid()
    ensures var r := TakeLut(old(bb.Rest()), palsize, palbits);
            if ok then r == Ok((lut, bb.Rest())) else r == Err(Underrun)
  {
    lut := [];
    var i := 0;
    ghost var spec := TakeLut(bb.Rest(), palsize, palbits);
    PrefixNothing(spec);
    while i < palsize
      invariant 0 <= i <= palsize && bb.Valid()
      invariant spec == PrefixValues(lut, TakeLut(bb.Rest(), palsize - i, palbits))
    {
      LutStep(bb.Rest(), palsize - i, palbits, lut);
      var got, val := bb.Get(palbits);
      if !got {
        ok := false;
        return;
      }
      lut := lut + [val];
      i := i + 1;
    }
    assert lut + [] == lut;
    ok := true;
  }

  lemma LutStep(rest: seq<bool>, n: nat, palbits: nat, lut: seq<nat>)
    requires n > 0
    ensures PrefixValues(lut, TakeLut(rest, n, palbits))
            == if palbits <= |rest| then PrefixValues(lut + [ValueOf(rest[..palbits])],
                                                      TakeLut(rest[palbits..], n - 1, palbits))
               else Err(Underrun)
  {
    if palbits <= |rest| {
      PrefixValuesTwice(lut, [ValueOf(rest[..palbits])], TakeLut(rest[palbits..], n - 1, palbits));
    }
  }

  /** The three fields before the palette entries. */
  method ReadSetupFields(bb: Reader) returns (ok: bool, directOffset: nat, palsize: nat, palbits: nat)
    requires bb.Valid()
    modifies bb
    ensures bb.Valid()
    ensures ok <==> |old(bb.Rest())| >= 13
    ensures ok ==> TakeSetup(old(bb.Rest())) == SetupTail(bb.Rest(), directOffset, palsize, palbits)
    ensures !ok ==> TakeSetup(old(bb.Rest())) == Err(Underrun)
  {
    directOffset, palsize, palbits := 0, 0, 0;
    ok, directOffset := bb.Get(5);
    if ok {
      ok, palsize := bb.Get(5);
    }
    if ok {
      ok, palbits := bb.Get(3);
    }
  }

  function SetupTail(rest: seq<bool>, directOffset: nat, palsize: nat, palbits: nat): Result<(Setup, seq<bool>)> {
    var (lut, rest') :- TakeLut(rest, if palsize > 0 then palsize + 1 else 0, palbits + 2);
    Ok((Setup(lut, palbits + 2, directOffset), rest'))
  }

  method ReadSetup(bb: Reader) returns (ok: bool, setup: Setup)
    requires bb.Valid()
    modifies bb
    ensures bb.Valid()
    ensures var r := TakeSetup(old(bb.Rest()));
            if ok then r == Ok((setup, bb.Rest())) else r == Err(Underrun)
  {
    setup := Setup([], 0, 0);
    var directOffset, palsize, palbits;
    ok, directOffset, palsize, palbits := ReadSetupFields(bb);
    if ok {
      if palsize > 0 {
        palsize := palsize + 1;
      }
      palbits := palbits + 2;
      var lut;
      ok, lut := ReadLut(bb, palsize, palbits);
      setup := Setup(lut, palbits, directOffset);
    }
  }

  method ReadHeader(bb: Reader) returns (ok: bool, raw: RawHeader)
    requires bb.Valid()
    modifies bb
    ensures bb.Valid()
    ensures var r := TakeHeader(old(bb.Rest()));
            if ok then r == Ok((raw, bb.Rest())) else r == Err(Underrun)
  {
    var slicelen, wdiv, wtrunc, newpal := 0, 0, 0, 0;
    ok, slicelen := bb.Get(15);
    if ok {
      ok, wdiv := bb.Get(3);
    }
    if ok {
      ok, wtrunc := bb.Get(1);
    }
    if ok {
      ok, newpal := bb.Get(1);
    }
    raw := RawHeader(slicelen, wdiv, wtrunc, newpal);
  }

  /** The weight of an index: a palette entry or a direct value, with the sign in the low bit. */
  method Lookup(setup: Setup, index: nat) returns (w: int)
    ensures w == WeightOf(setup, index)
  {
    var val := if index < |setup.lut| then setup.lut[index] else index - |setup.lut| + setup.directOffset;
    w := if val % 2 == 1 then -(val / 2) else val / 2;
  }

  /** Interleaves the weights and the zero runs of a slice. */
  method WriteOutput(setup: Setup, newPalette: bool, useZeroRuns: bool, ws: seq<nat>, zs: seq<nat>)
    returns (r: Result<seq<int>>)
    requires useZeroRuns ==> |zs| == |ws| + if newPalette then 1 else 0
    ensures r == Output(setup, newPalette, useZeroRuns, ws, zs)
  {
    var out: seq<int> := [];
    if newPalette && useZeroRuns {
      out := Zeros(zs[0]);
    }
    ghost var start := out;
    var runs := if useZeroRuns then zs[if newPalette then 1 else 0..] else [];
    assert ws[0..] == ws && runs[0..] == runs;
    var i := 0;
    while i < |ws|
      invariant 0 <= i <= |ws| && forall k :: 0 <= k < i ==> ws[k] < 512
      invariant out + Interleave(setup, ws[i..], if runs == [] then [] else runs[i..]) == start
                + Interleave(setup, ws, runs)
    {
      if ws[i] >= 512 {
        return Err(Malformed);
      }
      InterleaveStep(setup, ws, runs, i, out);
      var w := Lookup(setup, ws[i]);
      out := out + [w];
      if useZeroRuns {
        out := out + Zeros(runs[i]);
      }
      i := i + 1;
    }
    assert out + [] == out && [] + Interleave(setup, ws, runs) == Interleave(setup, ws, runs);
    assert useZeroRuns && !newPalette ==> runs == zs;
    r := Ok(out);
  }

  lemma InterleaveStep(setup: Setup, ws: seq<nat>, runs: seq<nat>, i: nat, out: seq<int>)
    requires i < |ws| && (runs != [] ==> |runs| == |ws|)
    ensures out + Interleave(setup, ws[i..], if runs == [] then [] else runs[i..])
            == out + [WeightOf(setup, ws[i])] + (if runs == [] then [] else Zeros(runs[i]))
               + Interleave(setup, ws[i + 1..], if runs == [] then [] else runs[i + 1..])
  {
    assert ws[i..][1..] == ws[i + 1..];
    if runs != [] {
      assert runs[i..][1..] == runs[i + 1..];
    }
    var a, b := [WeightOf(setup, ws[i])], if runs == [] then [] else Zeros(runs[i]);
    var c := Interleave(setup, ws[i + 1..], if runs == [] then [] else runs[i + 1..]);
    assert out + (a + (b + c)) == out + a + b + c;
  }

  method ReadSlice(bb: Reader, zdiv: nat, st: State) returns (r: Result<(seq<int>, State)>)
    requires bb.Valid()
    modifies bb
    ensures bb.Valid()
    ensures match DecodeSlice(zdiv, old(bb.Rest()), st)
            case Ok((out, st', rest')) => r == Ok((out, st')) && bb.Rest() == rest'
            case Err(e) => r == Err(e)
  {
    if !(zdiv < 4 || zdiv == ZDIV_DISABLE) {
      return Err(Malformed);
    }
    var useZeroRuns := zdiv != ZDIV_DISABLE;
    var ok, raw := ReadHeader(bb);
    if !ok {
      return Err(Underrun);
    }
    var newPalette := raw.newpal != 0;
    if !newPalette && (st.first || useZeroRuns != st.prevZeroRuns) {
      return Err(Malformed);
    }
    var setup := st.setup;
    if newPalette {
      ok, setup := ReadSetup(bb);
      if !ok {
        return Err(Underrun);
      }
    }
    r := ReadValues(bb, zdiv, raw, setup);
  }

  method ReadValues(bb: Reader, zdiv: nat, raw: RawHeader, setup: Setup) returns (r: Result<(seq<int>, State)>)
    requires bb.Valid()
    modifies bb
    ensures bb.Valid()
    ensures match DecodeValues(zdiv, raw, setup, old(bb.Rest()))
            case Ok((out, st', rest')) => r == Ok((out, st')) && bb.Rest() == rest'
            case Err(e) => r == Err(e)
  {
    if raw.wdiv != WDIV_UNCOMPRESSED && raw.wdiv >= 6 {
      return Err(Malformed);
    }
    var h := MakeHeader(zdiv, raw, setup);
    var ok, ws, zs := ReadBody(bb, h);
    if !ok {
      return Err(Underrun);
    }
    var out := WriteOutput(setup, raw.newpal != 0, h.useZeroRuns, ws, zs);
    match out
    case Ok(o) => r := Ok((o, State(false, h.useZeroRuns, setup)));
    case Err(e) => r := Err(e);
  }

  // ---- the whole input

  function Prefixed(out: seq<int>, r: Result<seq<int>>): Result<seq<int>> {
    match r
    case Ok(outs) => Ok(out + outs)
    case Err(e) => Err(e)
  }

  lemma PrefixedTwice(a: seq<int>, b: seq<int>, r: Result<seq<int>>)
    ensures Prefixed(a, Prefixed(b, r)) == Prefixed(a + b, r)
  {
    if r.Ok? {
      assert a + (b + r.value) == (a + b) + r.value;
    }
  }

  /** Reads end markers, alignment and padding up to the ZDIV field of a slice or the end of the input. */
  method ReadMarkers(bb: Reader, zdiv0: nat, first0: bool) returns (ok: bool, zdiv: nat, first: bool)
    requires bb.Valid()
    modifies bb
    ensures bb.Valid()
    ensures var r := SkipMarkers(zdiv0, old(bb.Rest()), first0);
            if ok then r == Ok((zdiv, bb.Rest(), first)) else r == Err(Underrun)
  {
    zdiv, first, ok := zdiv0, first0, true;
    ghost var spec := SkipMarkers(zdiv, bb.Rest(), first);
    var end := false;
    while zdiv == ZDIV_EOS && !end
      invariant bb.Valid()
      invariant spec == if end then Ok((zdiv, bb.Rest(), first)) else SkipMarkers(zdiv, bb.Rest(), first)
      decreases !end, |bb.Rest()|
    {
      ok, end, zdiv := ReadMarker(bb, first);
      first := true;
      if !ok {
        return;
      }
    }
  }

  /** Reads what follows an end marker: padding, and the next field unless the input ends. */
  method ReadMarker(bb: Reader, ghost first: bool) returns (ok: bool, end: bool, zdiv: nat)
    requires bb.Valid()
    modifies bb
    ensures bb.Valid()
    ensures SkipMarkers(ZDIV_EOS, old(bb.Rest()), first)
            == if !ok then Err(Underrun) else if end then Ok((zdiv, bb.Rest(), true))
              else SkipMarkers(zdiv, bb.Rest(), true)
    ensures ok && !end ==> |bb.Rest()| < |old(bb.Rest())|
  {
    ghost var rest := bb.Rest();
    Align(bb);
    MarkerStep(rest, bb.Rest(), first);
    ok, zdiv := true, ZDIV_EOS;
    end := bb.AtEnd();
    if !end {
      ok, zdiv := bb.Get(3);
    }
  }

  lemma MarkerStep(rest: seq<bool>, rest1: seq<bool>, first: bool)
    requires rest1 == rest[|rest| % 8..]
    ensures SkipMarkers(ZDIV_EOS, rest, first)
            == if rest1 == [] then Ok((ZDIV_EOS, [], true))
               else if 3 <= |rest1| then SkipMarkers(ValueOf(rest1[..3]), rest1[3..], true) else Err(Underrun)
  {
  }

  /** Moves to the next byte boundary. */
  method Align(bb: Reader)
    requires bb.Valid()
    modifies bb
    ensures bb.Valid() && bb.Rest() == old(bb.Rest())[|old(bb.Rest())| % 8..]
  {
    var pad := (8 - bb.pos % 8) % 8;
    AlignmentBits(bb.pos, |bb.buf|, pad, |bb.Rest()|);
    var _, _ := bb.Get(pad);
  }

  /** The input is whole bytes, so what is missing to a byte boundary is what is left modulo eight. */
  lemma AlignmentBits(pos: nat, bytes: nat, pad: nat, left: nat)
    requires pos + left == 8 * bytes && pad == (8 - pos % 8) % 8
    ensures pad == left % 8 && pad <= left
  {
  }

  /** Reads up to and including the next slice, or to the end of the input. */
  method ReadNext(bb: Reader, st: State) returns (r: Result<(seq<int>, State)>, done: bool)
    requires bb.Valid()
    modifies bb
    ensures bb.Valid()
    ensures r.Err? ==> DecodeFrom(old(bb.Rest()), st) == Err(r.error)
    ensures r.Ok? && done ==> DecodeFrom(old(bb.Rest()), st) == Ok([])
    ensures r.Ok? && !done ==> |bb.Rest()| < |old(bb.Rest())|
                               && DecodeFrom(old(bb.Rest()), st)
                                  == Prefixed(r.value.0, DecodeFrom(bb.Rest(), r.value.1))
  {
    done := false;
    var ok, zdiv := bb.Get(3);
    if !ok {
      return Err(Underrun), done;
    }
    var first;
    ok, zdiv, first := ReadMarkers(bb, zdiv, st.first);
    if !ok {
      return Err(Underrun), done;
    }
    var end := bb.AtEnd();
    if end {
      return Ok(([], st)), true;
    }
    r := ReadSlice(bb, zdiv, st.(first := first));
  }

  /** Decodes a compressed weight stream: exactly what the specification says, for every input. */
  method MlwDecode(inbuf: seq<bv8>) returns (r: Result<seq<int>>)
    ensures r == Decode(inbuf)
    ensures inbuf != [] && 4 <= ValueOf(BytesBits(inbuf)[0..3]) <= 5 ==> r == Err(Malformed)
  {
    SliceLayout.RefusesZdiv(inbuf);
    var bb := new Reader(inbuf);
    var st := INITIAL;
    var out: seq<int> := [];
    var done := false;
    ghost var spec := Decode(inbuf);
    PrefixedNothing(spec);
    while !done
      invariant bb.Valid()
      invariant spec == if done then Ok(out) else Prefixed(out, DecodeFrom(bb.Rest(), st))
      decreases !done, |bb.Rest()|
    {
      r, out, st, done := ReadMore(bb, out, st);
      if r.Err? {
        return;
      }
    }
    r := Ok(out);
  }

  /** Appends the next slice to the output. */
  method ReadMore(bb: Reader, out0: seq<int>, st0: State)
    returns (r: Result<seq<int>>, out: seq<int>, st: State, done: bool)
    requires bb.Valid()
    modifies bb
    ensures bb.Valid()
    ensures var spec := Prefixed(out0, DecodeFrom(old(bb.Rest()), st0));
            if r.Err? then spec == Err(r.error) else spec == if done then Ok(out)
              else Prefixed(out, DecodeFrom(bb.Rest(), st))
    ensures r.Ok? && !done ==> |bb.Rest()| < |old(bb.Rest())|
  {
    out, st := out0, st0;
    var slice;
    slice, done := ReadNext(bb, st);
    if slice.Err? {
      return Err(slice.error), out, st, done;
    }
    r := Ok([]);
    if done {
      assert out + [] == out;
    } else {
      PrefixedTwice(out, slice.value.0, DecodeFrom(bb.Rest(), slice.value.1));
      out, st := out + slice.value.0, slice.value.1;
    }
  }

  lemma PrefixedNothing(r: Result<seq<int>>)
    ensures Prefixed([], r) == r
  {
    if r.Ok? {
      assert [] + r.value == r.value;
    }
  }
}
