/** The encoder of one slice. */
module SliceEncoder {
  import opened Bits
  import opened BitBuf
  import opened UnaryCode
  import opened SliceFormat
  import opened GrcParams
  import opened Palettes
  import opened Lockstep
  import opened Sequences

  /**
   * Where the encoder stands in a stream of which it has sent m symbols: `pos` values are complete,
   * and if q >= 0 the code of the next one is open, with q and the remainder r still to be sent.
   */
  ghost predicate Cursor(ch: Channel, m: nat, pos: nat, q: int, r: int)
    requires ch.Valid()
  {
    var s := ch.Symbols();
    && pos <= |ch.vals|
    && (q >= 0 ==> pos < |ch.vals| && r == ch.vals[pos] % Pow2(ch.div)
                   && m <= |s| && s[m..] == Code(q, ch.t) + Codes(ch.Quotients()[pos + 1..], ch.t))
    && (q < 0 && m <= |s| ==> s[m..] == Codes(ch.Quotients()[pos..], ch.t))
    && (m > |s| ==> pos == |ch.vals|)
  }

  lemma CursorStart(ch: Channel)
    requires ch.Valid()
    ensures Cursor(ch, ch.chunk * 0, 0, -1, 0) && ch.Coded(0) == 0
  {
    assert ch.chunk * 0 == 0;
    assert ch.Symbols()[0..] == ch.Symbols() && ch.Quotients()[0..] == ch.Quotients();
    assert Window(ch.Symbols(), 0, 0) == [];
  }

  /** The encoder's count is the number of values that the sent symbols complete. */
  lemma CursorCounts(ch: Channel, k: nat, m: nat, pos: nat, q: int, r: int)
    requires ch.Valid() && m == ch.chunk * k && Cursor(ch, m, pos, q, r)
    ensures pos == ch.Coded(k)
  {
    var s, qs := ch.Symbols(), ch.Quotients();
    CodesEndOnceEach(qs, ch.t);
    if m <= |s| {
      assert Window(s, 0, m) == s[..m];
      assert s == s[..m] + s[m..];
      TerminalsAdd(s[..m], s[m..], ch.t);
      CodesEndOnceEach(qs[pos..], ch.t);
      if q >= 0 {
        CodesEndOnceEach(qs[pos + 1..], ch.t);
        CodeEndsOnce(q, ch.t);
        TerminalsAdd(Code(q, ch.t), Codes(qs[pos + 1..], ch.t), ch.t);
      }
    } else {
      DoneIsParsed(ch, k);
    }
  }

  /** The remainders of the values vals. */
  function Lows(vals: seq<nat>, div: nat): (rs: seq<nat>)
    ensures |rs| == |vals|
  {
    if vals == [] then [] else [vals[0] % Pow2(div)] + Lows(vals[1..], div)
  }

  lemma {:induction false} LowsSnoc(vals: seq<nat>, v: nat, div: nat)
    ensures Lows(vals + [v], div) == Lows(vals, div) + [v % Pow2(div)]
  {
    if vals == [] {
      assert vals + [v] == [v];
      assert Lows([v], div) == [v % Pow2(div)] + Lows([v][1..], div);
    } else {
      assert (vals + [v])[1..] == vals[1..] + [v];
      LowsSnoc(vals[1..], v, div);
    }
  }

  lemma AddLow(vals: seq<nat>, pos0: nat, pos: nat, div: nat, lows: seq<nat>, r: nat)
    requires pos0 <= pos < |vals| && lows == Lows(vals[pos0..pos], div) && r == vals[pos] % Pow2(div)
    ensures lows + [r] == Lows(vals[pos0..pos + 1], div)
  {
    LowsSnoc(vals[pos0..pos], vals[pos], div);
    assert vals[pos0..pos + 1] == vals[pos0..pos] + [vals[pos]];
  }

  // ---- sending symbols

  /** What is left of a code that is open when q >= 0. */
  function OpenCode(q: int, t: nat): seq<nat>
    requires t >= 1
  {
    if q >= 0 then Code(q, t) else []
  }

  /** The symbols that are still to be sent. */
  function ToSend(qs: seq<nat>, t: nat, pos: nat, q: int): seq<nat>
    requires t >= 1 && pos <= |qs| && (q >= 0 ==> pos < |qs|)
  {
    OpenCode(q, t) + Codes(qs[if q >= 0 then pos + 1 else pos..], t)
  }

  lemma SendSymbol(cs: seq<nat>, q: nat, t: nat, goal: seq<nat>)
    requires t >= 1 && cs + Code(q, t) == goal
    ensures cs + [Symbol(q, t)] + OpenCode(q - t, t) == goal
  {
  }

  lemma EmitWords(cs: seq<nat>, c: nat)
    ensures Unary0(cs + [c]) == Unary0(cs) + [c > 0]
    ensures Unary1(cs + [c]) == if c > 0 then Unary1(cs) + [c > 1] else Unary1(cs)
  {
    Unary1Snoc(cs, c);
    assert Unary1(cs) + [] == Unary1(cs);
  }

  /** The symbols of one weight, as far as the chunk has room. */
  method SendWeight(q0: nat, trunc: bool, j0: nat, maxSymbols: nat, word0: seq<bool>, word1: seq<bool>,
                    ghost cs0: seq<nat>)
    returns (q: int, j: nat, unary0: seq<bool>, unary1: seq<bool>, ghost cs: seq<nat>)
    requires |cs0| == j0 < maxSymbols && word0 == Unary0(cs0) && word1 == Unary1(cs0)
    ensures |cs| == j && j0 < j <= maxSymbols && unary0 == Unary0(cs) && unary1 == Unary1(cs)
    ensures q >= 0 ==> j == maxSymbols && q < q0
    ensures var t := if trunc then 3 else 2; cs + OpenCode(q, t) == cs0 + Code(q0, t)
  {
    ghost var t := if trunc then 3 else 2;
    q, j, unary0, unary1, cs := q0, j0, word0, word1, cs0;
    while q >= 0 && j < maxSymbols
      invariant |cs| == j && j0 <= j <= maxSymbols && unary0 == Unary0(cs) && unary1 == Unary1(cs)
      invariant if j == j0 then q == q0 else q < q0
      invariant cs + OpenCode(q, t) == cs0 + Code(q0, t)
      decreases maxSymbols - j
    {
      SendSymbol(cs, q, t, cs0 + Code(q0, t));
      EmitWords(cs, Symbol(q, t));
      cs := cs + [Symbol(q, t)];
      unary0 := unary0 + [q > 0];
      if q > 0 {
        unary1 := unary1 + [q > 1];
      }
      j := j + 1;
      q := q - 2;
      if trunc {
        q := q - 1;
      }
    }
  }

  /** The symbols of one zero run, as far as the chunk has room. */
  method SendRun(q0: nat, j0: nat, unaryLen: nat, word: seq<bool>, ghost cs0: seq<nat>)
    returns (q: int, j: nat, unary: seq<bool>, ghost cs: seq<nat>)
    requires |cs0| == j0 < unaryLen && word == Unary0(cs0)
    ensures |cs| == j && j0 < j <= unaryLen && unary == Unary0(cs)
    ensures q >= 0 ==> j == unaryLen && q < q0
    ensures cs + OpenCode(q, 1) == cs0 + Code(q0, 1)
  {
    q, j, unary, cs := q0, j0, word, cs0;
    while q >= 0 && j < unaryLen
      invariant |cs| == j && j0 <= j <= unaryLen && unary == Unary0(cs)
      invariant if j == j0 then q == q0 else q < q0
      invariant cs + OpenCode(q, 1) == cs0 + Code(q0, 1)
      decreases unaryLen - j
    {
      SendSymbol(cs, q, 1, cs0 + Code(q0, 1));
      EmitWords(cs, Symbol(q, 1));
      cs := cs + [Symbol(q, 1)];
      unary := unary + [q > 0];
      j := j + 1;
      q := q - 1;
    }
  }

  // ---- chunks

  /** cs has been sent: it and what is to be sent are what was to be sent, then padding once all is sent. */
  ghost predicate Sent(qs: seq<nat>, t: nat, pos0: nat, q0: int, cs: seq<nat>, pos: nat, q: int, pad: nat)
    requires t >= 1
  {
    && pos0 <= pos <= |qs| && (q0 >= 0 ==> pos0 < |qs|) && (q >= 0 ==> pos < |qs|)
    && (pad > 0 ==> pos == |qs| && q < 0)
    && cs + ToSend(qs, t, pos, q) == ToSend(qs, t, pos0, q0) + seq(pad, _ => 0)
  }

  lemma SentNothing(qs: seq<nat>, t: nat, pos: nat, q: int)
    requires t >= 1 && pos <= |qs| && (q >= 0 ==> pos < |qs|)
    ensures Sent(qs, t, pos, q, [], pos, q, 0)
  {
  }

  /** Starting the next code. */
  lemma SentLoad(qs: seq<nat>, t: nat, pos0: nat, q0: int, cs: seq<nat>, pos: nat, q: int, pad: nat)
    requires t >= 1 && Sent(qs, t, pos0, q0, cs, pos, q, pad) && q < 0 && pos < |qs|
    ensures Sent(qs, t, pos0, q0, cs, pos, qs[pos], pad)
  {
    assert qs[pos..][1..] == qs[pos + 1..];
    assert ToSend(qs, t, pos, q) == ToSend(qs, t, pos, qs[pos]);
  }

  /** Sending symbols of an open code, which may end it. */
  lemma SentCode(qs: seq<nat>, t: nat, pos0: nat, q0: int, cs: seq<nat>, pos: nat, q: nat, pad: nat, cs': seq<nat>,
                 q': int)
    requires t >= 1 && Sent(qs, t, pos0, q0, cs, pos, q, pad)
    requires cs' + OpenCode(q', t) == cs + Code(q, t)
    ensures Sent(qs, t, pos0, q0, cs', if q' < 0 then pos + 1 else pos, q', pad)
  {
    var more := Codes(qs[pos + 1..], t);
    SameWithMore(cs', OpenCode(q', t), cs, Code(q, t), more);
  }

  lemma SameWithMore(a: seq<nat>, b: seq<nat>, c: seq<nat>, d: seq<nat>, more: seq<nat>)
    requires a + b == c + d
    ensures a + (b + more) == c + (d + more)
  {
    assert a + (b + more) == (a + b) + more;
    assert c + (d + more) == (c + d) + more;
  }

  /** Sending a padding symbol. */
  lemma SentPad(qs: seq<nat>, t: nat, pos0: nat, q0: int, cs: seq<nat>, pos: nat, q: int, pad: nat, q': int)
    requires t >= 1 && Sent(qs, t, pos0, q0, cs, pos, q, pad) && q < 0 && pos == |qs| && q' < 0
    ensures Sent(qs, t, pos0, q0, cs + [0], pos, q', pad + 1)
  {
    assert ToSend(qs, t, pos, q) == [] && ToSend(qs, t, pos, q') == [];
    assert cs + [] == cs;
    assert seq(pad + 1, _ => 0) == seq(pad, _ => 0) + [0];
  }

  /** The value whose code comes next: the open one, the next one, or a padding zero. */
  function NextCode(qs: seq<nat>, pos: nat, q: int): nat {
    if q >= 0 then q else if pos < |qs| then qs[pos] else 0
  }

  /** One turn of a chunk: symbols of the next code, or of a padding zero. */
  lemma SentMore(qs: seq<nat>, t: nat, pos0: nat, q0: int, was: seq<nat>, pos: nat, wasQ: int, pad: nat, cs: seq<nat>,
                 q: int)
    requires t >= 1 && Sent(qs, t, pos0, q0, was, pos, wasQ, pad) && |cs| > |was|
    requires cs + OpenCode(q, t) == was + Code(NextCode(qs, pos, wasQ), t)
    ensures var padding := wasQ < 0 && pos == |qs|;
            Sent(qs, t, pos0, q0, cs, if q < 0 && !padding then pos + 1 else pos, q, if padding then pad + 1 else pad)
  {
    if wasQ < 0 && pos == |qs| {
      assert Code(0, t) == [0];
      assert |cs + OpenCode(q, t)| == |was| + 1;
      assert cs == was + [0];
      SentPad(qs, t, pos0, q0, was, pos, wasQ, pad, q);
    } else {
      var start := NextCode(qs, pos, wasQ);
      if wasQ < 0 {
        SentLoad(qs, t, pos0, q0, was, pos, wasQ, pad);
      }
      SentCode(qs, t, pos0, q0, was, pos, start, pad, cs, q);
    }
  }

  /** The quotient and the remainder of the open value. */
  ghost predicate Open(vals: seq<nat>, div: nat, pos: nat, q: int, r: int) {
    q >= 0 ==> pos < |vals| && r == vals[pos] % Pow2(div)
  }

  /** One chunk of weights: its two unary words and the remainders of the weights that end in it. */
  method WeightChunk(vals: seq<nat>, div: nat, trunc: bool, maxSymbols: nat, pos0: nat, q0: int, r0: int,
                     ghost qs: seq<nat>)
    returns (unary0: seq<bool>, unary1: seq<bool>, remain: seq<nat>, pos: nat, q: int, r: int, ghost cs: seq<nat>,
             ghost pad: nat)
    requires |qs| == |vals| && forall i :: 0 <= i < |vals| ==> qs[i] == vals[i] / Pow2(div)
    requires pos0 <= |vals| && Open(vals, div, pos0, q0, r0)
    ensures |cs| == maxSymbols && unary0 == Unary0(cs) && unary1 == Unary1(cs)
    ensures Sent(qs, if trunc then 3 else 2, pos0, q0, cs, pos, q, pad) && Open(vals, div, pos, q, r)
    ensures remain == Lows(vals[pos0..pos], div)
  {
    ghost var t := if trunc then 3 else 2;
    unary0, unary1, remain := [], [], [];
    pos, q, r, cs, pad := pos0, q0, r0, [], 0;
    var j: nat := 0;
    SentNothing(qs, t, pos0, q0);
    while j < maxSymbols
      invariant 0 <= j <= maxSymbols && |cs| == j && unary0 == Unary0(cs) && unary1 == Unary1(cs)
      invariant Sent(qs, t, pos0, q0, cs, pos, q, pad) && Open(vals, div, pos, q, r)
      invariant remain == Lows(vals[pos0..pos], div)
    {
      ghost var padding := q < 0 && pos == |vals|;
      ghost var was, wasQ := cs, q;
      if q < 0 {
        if pos < |vals| {
          q := vals[pos] / Pow2(div);
          r := vals[pos] % Pow2(div);
        } else {
          q := 0;
          r := -1;
        }
      }
      assert q == NextCode(qs, pos, wasQ);
      q, j, unary0, unary1, cs := SendWeight(q, trunc, j, maxSymbols, unary0, unary1, cs);
      SentMore(qs, t, pos0, q0, was, pos, wasQ, pad, cs, q);
      if padding {
        pad := pad + 1;
      }
      if q < 0 && r >= 0 {
        AddLow(vals, pos0, pos, div, remain, r);
        remain := remain + [r];
        pos := pos + 1;
      }
    }
  }

  /** One chunk of zero runs. */
  method RunChunk(vals: seq<nat>, div: nat, unaryLen: nat, pos0: nat, q0: int, r0: int, ghost qs: seq<nat>)
    returns (unary: seq<bool>, remain: seq<nat>, pos: nat, q: int, r: int, ghost cs: seq<nat>, ghost pad: nat)
    requires |qs| == |vals| && forall i :: 0 <= i < |vals| ==> qs[i] == vals[i] / Pow2(div)
    requires pos0 <= |vals| && Open(vals, div, pos0, q0, r0)
    ensures |cs| == unaryLen && unary == Unary0(cs)
    ensures Sent(qs, 1, pos0, q0, cs, pos, q, pad) && Open(vals, div, pos, q, r)
    ensures remain == Lows(vals[pos0..pos], div)
  {
    unary, remain := [], [];
    pos, q, r, cs, pad := pos0, q0, r0, [], 0;
    var j: nat := 0;
    SentNothing(qs, 1, pos0, q0);
    while j < unaryLen
      invariant 0 <= j <= unaryLen && |cs| == j && unary == Unary0(cs)
      invariant Sent(qs, 1, pos0, q0, cs, pos, q, pad) && Open(vals, div, pos, q, r)
      invariant remain == Lows(vals[pos0..pos], div)
    {
      ghost var padding := q < 0 && pos == |vals|;
      ghost var was, wasQ := cs, q;
      if q < 0 {
        if pos < |vals| {
          q := vals[pos] / Pow2(div);
          r := vals[pos] % Pow2(div);
        } else {
          q := 0;
          r := -1;
        }
      }
      assert q == NextCode(qs, pos, wasQ);
      q, j, unary, cs := SendRun(q, j, unaryLen, unary, cs);
      SentMore(qs, 1, pos0, q0, was, pos, wasQ, pad, cs, q);
      if padding {
        pad := pad + 1;
      }
      if q < 0 && r >= 0 {
        AddLow(vals, pos0, pos, div, remain, r);
        remain := remain + [r];
        pos := pos + 1;
      }
    }
  }

  /** A chunk that was sent from the k-th position is the k-th chunk of the stream. */
  lemma ChunkMoves(ch: Channel, k: nat, m: nat, pos0: nat, q0: int, r0: int, cs: seq<nat>, pos: nat, q: int, r: int,
                   pad: nat)
    requires ch.Valid() && m == ch.chunk * k && Cursor(ch, m, pos0, q0, r0)
    requires |cs| == ch.chunk && Sent(ch.Quotients(), ch.t, pos0, q0, cs, pos, q, pad)
             && Open(ch.vals, ch.div, pos, q, r)
    ensures cs == ch.Chunk(k) && m + ch.chunk == ch.chunk * (k + 1) && Cursor(ch, m + ch.chunk, pos, q, r)
  {
    NextMultiple(ch.chunk, k);
    CursorMoves(ch, m, pos0, q0, r0, cs, pos, q, r, pad);
  }

  lemma ChunkSent(ch: Channel, k: nat, m: nat, pos0: nat, q0: int, r0: int, cs: seq<nat>, pos: nat, q: int, r: int,
                  pad: nat)
    requires ch.Valid() && m == ch.chunk * k && Cursor(ch, m, pos0, q0, r0)
    requires |cs| == ch.chunk && Sent(ch.Quotients(), ch.t, pos0, q0, cs, pos, q, pad)
             && Open(ch.vals, ch.div, pos, q, r)
    ensures cs == ch.Chunk(k)
    ensures Cursor(ch, ch.chunk * (k + 1), pos, q, r) && pos0 == ch.Coded(k) && pos == ch.Coded(k + 1) && pos0 <= pos
  {
    ChunkMoves(ch, k, m, pos0, q0, r0, cs, pos, q, r, pad);
    var m': nat := m + ch.chunk;
    CursorCounts(ch, k, m, pos0, q0, r0);
    CursorCounts(ch, k + 1, m', pos, q, r);
  }

  lemma NextMultiple(c: nat, k: nat)
    ensures c * (k + 1) == c * k + c
  {
  }

  lemma CursorMoves(ch: Channel, m: nat, pos0: nat, q0: int, r0: int, cs: seq<nat>, pos: nat, q: int, r: int, pad: nat)
    requires ch.Valid() && Cursor(ch, m, pos0, q0, r0)
    requires Sent(ch.Quotients(), ch.t, pos0, q0, cs, pos, q, pad) && Open(ch.vals, ch.div, pos, q, r)
    ensures cs == Window(ch.Symbols(), m, |cs|)
    ensures Cursor(ch, m + |cs|, pos, q, r)
  {
    var s, qs := ch.Symbols(), ch.Quotients();
    var a, b := ToSend(qs, ch.t, pos0, q0), ToSend(qs, ch.t, pos, q);
    var zs := seq(pad, _ => 0);
    if m <= |s| {
      assert s[m..] == a;
    } else {
      assert a == [];
    }
    SplitPadded(s, m, a, zs, cs, b);
  }

  lemma SplitPadded(s: seq<nat>, m: nat, a: seq<nat>, zs: seq<nat>, cs: seq<nat>, b: seq<nat>)
    requires if m <= |s| then s[m..] == a else a == []
    requires (forall i :: 0 <= i < |zs| ==> zs[i] == 0) && cs + b == a + zs && (zs == [] || b == [])
    ensures cs == Window(s, m, |cs|)
    ensures m + |cs| <= |s| ==> s[m + |cs|..] == b
    ensures m + |cs| > |s| ==> b == []
  {
    forall i | 0 <= i < |cs| ensures cs[i] == if m + i < |s| then s[m + i] else 0 {
      assert cs[i] == (cs + b)[i] == (a + zs)[i];
    }
    if m + |cs| <= |s| {
      forall i | 0 <= i < |b| ensures |cs| + i < |a| && b[i] == a[|cs| + i] {
        assert b[i] == (cs + b)[|cs| + i] == (a + zs)[|cs| + i];
      }
    }
  }

  // ---- a slice

  method PutRemainders(bb: Writer, remain: seq<nat>, div: nat, ghost vals: seq<nat>)
    requires bb.Valid() && remain == Lows(vals, div)
    modifies bb
    ensures bb.Valid() && bb.Written() == old(bb.Written()) + RemainderBits(vals, div)
  {
    var i := 0;
    assert old(bb.Written()) + RemainderBits(vals, div) == bb.Written() + RemainderBits(vals[0..], div);
    while i < |remain|
      invariant 0 <= i <= |remain|
      invariant bb.Valid() && remain[i..] == Lows(vals[i..], div)
      invariant bb.Written() + RemainderBits(vals[i..], div) == old(bb.Written()) + RemainderBits(vals, div)
    {
      assert vals[i..][1..] == vals[i + 1..] && remain[i..][1..] == remain[i + 1..];
      assert remain[i] == remain[i..][0] == vals[i] % Pow2(div);
      AppendAssociates(bb.Written(), BitsOf(div, remain[i]), RemainderBits(vals[i + 1..], div));
      bb.Put(div, remain[i]);
      i := i + 1;
    }
    assert bb.Written() + [] == bb.Written();
  }

  method PutLut(bb: Writer, lut: seq<nat>, palbits: nat)
    requires bb.Valid()
    modifies bb
    ensures bb.Valid() && bb.Written() == old(bb.Written()) + LutBits(lut, palbits)
  {
    var i := 0;
    assert lut[0..] == lut;
    while i < |lut|
      invariant 0 <= i <= |lut| && bb.Valid()
      invariant bb.Written() + LutBits(lut[i..], palbits) == old(bb.Written()) + LutBits(lut, palbits)
    {
      assert lut[i..][1..] == lut[i + 1..];
      AppendAssociates(bb.Written(), BitsOf(palbits, lut[i]), LutBits(lut[i + 1..], palbits));
      bb.Put(palbits, lut[i]);
      i := i + 1;
    }
    assert bb.Written() + [] == bb.Written();
  }

  /** What the arguments of EncodeSlice describe. */
  function SliceOf(setup: Setup, newPalette: bool, useZeroRuns: bool, wCfg: nat, zCfg: nat,
                   wValue: seq<nat>, zValue: seq<nat>): Slice
    requires wCfg < NWCFG && zCfg < NZCFG
  {
    Slice(setup, newPalette, useZeroRuns, ModeOf(wCfg), Z_GRC_PARAMS[zCfg] % 16, wValue, zValue)
  }

  /** Three fields of a setup. */
  method PutSetupFields(bb: Writer, directOffset: nat, size: nat, bits: nat)
    requires bb.Valid()
    modifies bb
    ensures bb.Valid() && bb.Written() == old(bb.Written()) + BitsOf(5, directOffset) + BitsOf(5, size)
            + BitsOf(3, bits)
  {
    bb.Put(5, directOffset);
    bb.Put(5, size);
    bb.Put(3, bits);
  }

  method PutSetup(bb: Writer, p: Palette)
    requires bb.Valid() && p.palsize <= |p.lut| && p.Setup().Valid()
    modifies bb
    ensures bb.Valid() && bb.Written() == old(bb.Written()) + SetupBits(p.Setup())
  {
    ghost var w := bb.Written();
    var lut, size := p.lut[..p.palsize], if p.palsize > 0 then p.palsize - 1 else 0;
    PutSetupFields(bb, p.directOffset, size, p.palbits - 2);
    PutLut(bb, lut, p.palbits);
    FourFields(w, BitsOf(5, p.directOffset), BitsOf(5, size), BitsOf(3, p.palbits - 2), LutBits(lut, p.palbits));
  }

  /** The setup, where a slice brings one. */
  method PutNewSetup(bb: Writer, p: Palette, newPalette: bool, ghost setup: seq<bool>)
    requires bb.Valid() && p.palsize <= |p.lut| && p.Setup().Valid()
    requires setup == if newPalette then SetupBits(p.Setup()) else []
    modifies bb
    ensures bb.Valid() && bb.Written() == old(bb.Written()) + setup
  {
    if newPalette {
      PutSetup(bb, p);
    } else {
      assert bb.Written() + [] == bb.Written();
    }
  }

  /** The fields of a slice header. */
  method PutHeaderFields(bb: Writer, zdiv: nat, slicelen: nat, wdiv: nat, trunc: nat, newpal: nat)
    requires bb.Valid()
    modifies bb
    ensures bb.Valid()
    ensures bb.Written() == old(bb.Written()) + BitsOf(3, zdiv) + BitsOf(15, slicelen) + BitsOf(3, wdiv)
            + BitsOf(1, trunc) + BitsOf(1, newpal)
  {
    bb.Put(3, zdiv);
    bb.Put(15, slicelen);
    bb.Put(3, wdiv);
    bb.Put(1, trunc);
    bb.Put(1, newpal);
  }

  method PutHeader(bb: Writer, ghost s: Slice, nvalues: nat, zdiv: nat, wdiv: nat, wtrunc: bool,
                   p: Palette, newPalette: bool, ghost body: seq<bool>)
    requires bb.Valid() && p.palsize <= |p.lut| && s.Valid() && s.setup == p.Setup() && s.newPalette == newPalette
    requires nvalues == |s.weights| && zdiv == ZdivField(s)
    requires wdiv == (if s.mode.Golomb? then s.mode.div else WDIV_UNCOMPRESSED)
    requires wtrunc <==> s.mode.Golomb? && s.mode.trunc
    modifies bb
    ensures bb.Valid() && bb.Written() + body == old(bb.Written()) + (BitsOf(3, zdiv) + HeaderBits(s, body))
  {
    ghost var w0, setup := bb.Written(), if newPalette then SetupBits(s.setup) else [];
    var trunc, newpal := if wtrunc then 1 else 0, if newPalette then 1 else 0;
    PutHeaderFields(bb, zdiv, nvalues - 1, wdiv, trunc, newpal);
    PutNewSetup(bb, p, newPalette, setup);
    HeaderFields(w0, BitsOf(3, zdiv), BitsOf(15, nvalues - 1), BitsOf(3, wdiv), BitsOf(1, trunc), BitsOf(1, newpal),
                 setup, body);
  }

  lemma FourFields(w: seq<bool>, a: seq<bool>, b: seq<bool>, c: seq<bool>, d: seq<bool>)
    ensures w + a + b + c + d == w + (a + (b + (c + d)))
  {
    AppendAssociates(w + a + b, c, d);
    AppendAssociates(w + a, b, c + d);
    AppendAssociates(w, a, b + (c + d));
  }

  lemma HeaderFields(w: seq<bool>, a: seq<bool>, b: seq<bool>, c: seq<bool>, d: seq<bool>, e: seq<bool>, f: seq<bool>,
                     g: seq<bool>)
    ensures (w + a + b + c + d + e + f) + g == w + (a + (b + (c + (d + (e + (f + g))))))
  {
    AppendAssociates(w + a + b + c + d + e, f, g);
    AppendAssociates(w + a + b + c + d, e, f + g);
    FourFields(w, a, b, c, d + (e + (f + g)));
    AppendAssociates(w + a + b + c, d, e + (f + g));
  }

  /** The encoder's state in one of the two streams: its cursor, and the chunk of the round before. */
  datatype Sender = Sender(pos: nat, q: int, r: int, prevOn: bool, prevRemain: seq<nat>)

  ghost predicate Stands(ch: Channel, k: nat, st: Sender)
    requires ch.Valid()
  {
    && Cursor(ch, ch.chunk * k, st.pos, st.q, st.r)
    && st.pos == ch.Coded(k)
    && st.prevRemain == Lows(ch.Held(k, st.prevOn), ch.div)
    && (st.prevOn ==> k > 0)
  }

  lemma StandsAtStart(ch: Channel)
    requires ch.Valid()
    ensures Stands(ch, 0, Sender(0, -1, 0, false, []))
  {
    CursorStart(ch);
  }

  lemma StandsNext(ch: Channel, k: nat, st: Sender, cs: seq<nat>, st': Sender, pad: nat)
    requires ch.Valid() && Stands(ch, k, st) && st'.prevOn
    requires |cs| == ch.chunk && Sent(ch.Quotients(), ch.t, st.pos, st.q, cs, st'.pos, st'.q, pad)
    requires Open(ch.vals, ch.div, st'.pos, st'.q, st'.r) && st'.prevRemain == Lows(ch.vals[st.pos..st'.pos], ch.div)
    ensures Stands(ch, k + 1, st') && cs == ch.Chunk(k)
  {
    ChunkSent(ch, k, ch.chunk * k, st.pos, st.q, st.r, cs, st'.pos, st'.q, st'.r, pad);
  }

  /** The weight part of a round. */
  method NextWeights(on: bool, st: Sender, trunc: bool, ghost k: nat, ch: Channel)
    returns (unary0: seq<bool>, unary1: seq<bool>, st': Sender)
    requires ch.Valid() && ch.t == (if trunc then 3 else 2) && Stands(ch, k, st)
    ensures Stands(ch, Step(k, on), st') && st'.prevOn == on
    ensures on ==> unary0 == Unary0(ch.Chunk(k)) && unary1 == Unary1(ch.Chunk(k))
  {
    unary0, unary1, st' := [], [], st.(prevOn := false, prevRemain := []);
    if on {
      var remain, pos, q, r;
      ghost var cs, pad;
      unary0, unary1, remain, pos, q, r, cs,
        pad := WeightChunk(ch.vals, ch.div, trunc, ch.chunk, st.pos, st.q, st.r, ch.Quotients());
      st' := Sender(pos, q, r, true, remain);
      StandsNext(ch, k, st, cs, st', pad);
    }
  }

  /** The zero-run part of a round. */
  method NextRuns(on: bool, st: Sender, ghost k: nat, ch: Channel)
    returns (unary: seq<bool>, st': Sender)
    requires ch.Valid() && ch.t == 1 && Stands(ch, k, st)
    ensures Stands(ch, Step(k, on), st') && st'.prevOn == on
    ensures on ==> unary == Unary0(ch.Chunk(k))
  {
    unary, st' := [], st.(prevOn := false, prevRemain := []);
    if on {
      var remain, pos, q, r;
      ghost var cs, pad;
      unary, remain, pos, q, r, cs, pad := RunChunk(ch.vals, ch.div, ch.chunk, st.pos, st.q, st.r, ch.Quotients());
      st' := Sender(pos, q, r, true, remain);
      StandsNext(ch, k, st, cs, st', pad);
    }
  }

  /** Throttles the weights or the zero runs. */
  method FlowControl(nvalues: nat, zNvalues: nat, useZeroRuns: bool, wPos: nat, zPos: nat, ghost s: Slice,
                     ghost kw: nat, ghost kz: nat)
    returns (wEnable: bool, zEnable: bool)
    requires nvalues == |s.weights| && zNvalues == |s.runs| && useZeroRuns == s.useZeroRuns
    requires wPos == s.Weights().Coded(kw) && zPos == s.Runs().Coded(kz)
    ensures wEnable == WeightsEnabled(s, kw, kz) && zEnable == RunsEnabled(s, kw, kz)
  {
    var balance := if useZeroRuns then wPos - zPos else 0;
    wEnable := balance < 8 && wPos < nvalues;
    zEnable := balance >= 0 && useZeroRuns && zPos < zNvalues;
  }

  /** One round: the next chunks and the remainders of the chunks before. */
  method PutNextRound(bb: Writer, nvalues: nat, zNvalues: nat, useZeroRuns: bool, wUncompressed: bool,
                      w: Channel, z: Channel, wSt: Sender, zSt: Sender, ghost s: Slice, ghost kw: nat, ghost kz: nat)
    returns (wNext: Sender, zNext: Sender)
    requires bb.Valid() && w == s.Weights() && z == s.Runs()
    requires nvalues == |s.weights| && zNvalues == |s.runs| && useZeroRuns == s.useZeroRuns
    requires wUncompressed == s.mode.Uncompressed?
    requires Stands(w, kw, wSt) && Stands(z, kz, zSt)
    modifies bb
    ensures wNext.prevOn == WeightsEnabled(s, kw, kz) && zNext.prevOn == RunsEnabled(s, kw, kz)
    ensures Stands(w, Step(kw, wNext.prevOn), wNext) && Stands(z, Step(kz, zNext.prevOn), zNext)
    ensures bb.Valid() && bb.Written() == old(bb.Written()) + Fields(s, kw, kz, wSt.prevOn, zSt.prevOn).Join()
  {
    var wEnable, zEnable := FlowControl(nvalues, zNvalues, useZeroRuns, wSt.pos, zSt.pos, s, kw, kz);
    var wUnary0, wUnary1, zUnary;
    wUnary0, wUnary1, wNext := NextWeights(wEnable, wSt, w.t == 3, kw, w);
    zUnary, zNext := NextRuns(zEnable, zSt, kz, z);
    PutRound(bb, Fields(s, kw, kz, wSt.prevOn, zSt.prevOn), wEnable && !wUncompressed, zEnable, wUnary0, zUnary,
             wUnary1,
             wSt.prevRemain, w.div, zSt.prevRemain, z.div, w.Held(kw, wSt.prevOn), z.Held(kz, zSt.prevOn));
  }

  /** The chunk loop of a slice. */
  method PutBody(bb: Writer, nvalues: nat, zNvalues: nat, useZeroRuns: bool, wUncompressed: bool,
                 w: Channel, z: Channel, ghost s: Slice)
    requires bb.Valid() && w == s.Weights() && z == s.Runs()
    requires nvalues == |s.weights| && zNvalues == |s.runs| && useZeroRuns == s.useZeroRuns
    requires wUncompressed == s.mode.Uncompressed?
    modifies bb
    ensures bb.Valid() && bb.Written() == old(bb.Written()) + BodyBits(s, 0, 0, false, false)
  {
    ghost var goal := bb.Written() + BodyBits(s, 0, 0, false, false);
    var wSt, zSt := Sender(0, -1, 0, false, []), Sender(0, -1, 0, false, []);
    ghost var kw: nat, kz: nat := 0, 0;
    StandsAtStart(w);
    StandsAtStart(z);
    var more := true;
    while more
      invariant bb.Valid()
      invariant if more then bb.Written() + BodyBits(s, kw, kz, wSt.prevOn, zSt.prevOn) == goal
                else bb.Written() == goal
      invariant Stands(w, kw, wSt) && Stands(z, kz, zSt)
      decreases more, w.Left(kw) + z.Left(kz)
    {
      RoundDone(s, kw, kz, wSt.prevOn, zSt.prevOn, bb.Written());
      wSt, zSt := PutNextRound(bb, nvalues, zNvalues, useZeroRuns, wUncompressed, w, z, wSt, zSt, s, kw, kz);
      kw, kz := Step(kw, wSt.prevOn), Step(kz, zSt.prevOn);
      more := wSt.prevOn || zSt.prevOn;
    }
  }

  /** Encodes a slice, whose values must be expressible in the chosen configuration. */
  method EncodeSlice(bb: Writer, wValue: seq<nat>, zValue: seq<nat>, p: Palette, newPalette: bool,
                     uncompressedBits: nat, wCfg: nat, zCfg: nat, ghost s: Slice)
    requires bb.Valid() && p.palsize <= |p.lut| && wCfg < NWCFG && zCfg < NZCFG
    requires s == SliceOf(p.Setup(), newPalette, p.useZeroRuns, wCfg, zCfg, wValue, zValue) && s.Valid()
    requires s.mode.Uncompressed? ==> uncompressedBits == s.setup.UncompressedBits()
    modifies bb
    ensures bb.Valid() && bb.Written() == old(bb.Written()) + SliceBits(s)
  {
    var nvalues := |wValue|;
    var wParam, zParam := W_GRC_PARAMS[wCfg], Z_GRC_PARAMS[zCfg];
    var wDiv, wTrunc, wUncompressed := wParam % 16, wParam / 16 == 1, wParam / 16 == 2;
    var zDiv := zParam % 16;
    if wUncompressed {
      wDiv := uncompressedBits;
    }
    PutHeader(bb, s, nvalues, if p.useZeroRuns then zDiv else ZDIV_DISABLE,
              if !wUncompressed then wDiv else WDIV_UNCOMPRESSED, wTrunc, p, newPalette,
                BodyBits(s, 0, 0, false, false));
    var w := Channel(wValue, wDiv, if wTrunc then 3 else 2, if wUncompressed && wDiv > 5 then 8 else 12);
    var z := Channel(zValue, zDiv, 1, if zDiv < 3 then 12 else 8);
    var zNvalues := if p.useZeroRuns then nvalues + (if newPalette then 1 else 0) else 0;
    PutBody(bb, nvalues, zNvalues, p.useZeroRuns, wUncompressed, w, z, s);
  }

  lemma RoundDone(s: Slice, kw: nat, kz: nat, pw: bool, pz: bool, before: seq<bool>)
    ensures var we, ze := WeightsEnabled(s, kw, kz), RunsEnabled(s, kw, kz);
            var after := before + Fields(s, kw, kz, pw, pz).Join();
            && before + BodyBits(s, kw, kz, pw, pz)
               == (if we || ze then after + BodyBits(s, Step(kw, we), Step(kz, ze), we, ze) else after)
            && (we || ze ==>
                  s.Weights().Left(Step(kw, we)) + s.Runs().Left(Step(kz, ze))
                  < s.Weights().Left(kw) + s.Runs().Left(kz))
  {
    var we, ze := WeightsEnabled(s, kw, kz), RunsEnabled(s, kw, kz);
    var next := if we || ze then BodyBits(s, Step(kw, we), Step(kz, ze), we, ze) else [];
    AppendAssociates(before, Fields(s, kw, kz, pw, pz).Join(), next);
    if we || ze {
      EnabledShrinks(s, kw, kz);
    } else {
      assert Fields(s, kw, kz, pw, pz).Join() + [] == Fields(s, kw, kz, pw, pz).Join();
    }
  }

  /** Writes the fields of one round. */
  method PutRound(bb: Writer, ghost f: RoundFields, wUnaryOn: bool, zOn: bool,
                  wUnary0: seq<bool>, zUnary: seq<bool>, wUnary1: seq<bool>,
                  wRemain: seq<nat>, wDiv: nat, zRemain: seq<nat>, zDiv: nat, ghost wHeld: seq<nat>,
                  ghost zHeld: seq<nat>)
    requires bb.Valid()
    requires f.unary0 == (if wUnaryOn then wUnary0 else []) && f.unary1 == (if wUnaryOn then wUnary1 else [])
    requires f.zunary == if zOn then zUnary else []
    requires f.wremain == RemainderBits(wHeld, wDiv) && f.zremain == RemainderBits(zHeld, zDiv)
    requires wRemain == Lows(wHeld, wDiv) && zRemain == Lows(zHeld, zDiv)
    modifies bb
    ensures bb.Valid() && bb.Written() == old(bb.Written()) + f.Join()
  {
    ghost var w0 := bb.Written();
    if wUnaryOn {
      bb.PutWord(wUnary0);
    }
    assert bb.Written() == w0 + f.unary0;
    if zOn {
      bb.PutWord(zUnary);
    }
    assert bb.Written() == w0 + f.unary0 + f.zunary;
    if wUnaryOn {
      bb.PutWord(wUnary1);
    }
    assert bb.Written() == w0 + f.unary0 + f.zunary + f.unary1;
    PutRemainders(bb, wRemain, wDiv, wHeld);
    assert bb.Written() == w0 + f.unary0 + f.zunary + f.unary1 + f.wremain;
    PutRemainders(bb, zRemain, zDiv, zHeld);
    assert bb.Written() == w0 + f.unary0 + f.zunary + f.unary1 + f.wremain + f.zremain;
    AppendAssociates(w0 + f.unary0 + f.zunary + f.unary1, f.wremain, f.zremain);
    FourFields(w0, f.unary0, f.zunary, f.unary1, f.wremain + f.zremain);
  }
}
