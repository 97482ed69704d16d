/**
 * The stream format in numbers. Each lemma says where something is in the stream and what it is, in the
 * constants that other decoders rely on.
 */
module SliceLayout {
  import opened Results
  import opened Bits
  import opened UnaryCode
  import opened SliceFormat
  import opened DecodeSpec
  import opened Sequences
  import Lockstep
  import SliceLength

  // ---- bits

  /** Bit j of byte k comes at position 8 k + j. */
  lemma ByteLayout(buf: seq<bv8>, k: nat, j: nat)
    requires k < |buf| && j < 8
    ensures |BytesBits(buf)| == 8 * |buf|
    ensures BytesBits(buf)[8 * k + j] <==> (buf[k] >> j) & 1 == 1
  {
    BytesBitsAt(buf, 8 * k + j);
    DivUnique(8 * k + j, 8, k, j);
    BitAtShifts(buf[k], j);
  }

  lemma BitAtShifts(b: bv8, j: nat)
    requires j < 8
    ensures BitAt(b, j) <==> (b >> j) & 1 == 1
  {
    if j < 4 {
      LowHalf(b, j);
    } else {
      HighHalf(b, j);
    }
  }

  lemma LowHalf(b: bv8, j: nat)
    requires j < 4
    ensures BitAt(b, j) <==> (b >> j) & 1 == 1
  {
    match j
    case 0 => assert (b & 0x01 != 0) <==> (b >> 0) & 1 == 1;
    case 1 => assert (b & 0x02 != 0) <==> (b >> 1) & 1 == 1;
    case 2 => assert (b & 0x04 != 0) <==> (b >> 2) & 1 == 1;
    case _ => assert (b & 0x08 != 0) <==> (b >> 3) & 1 == 1;
  }

  lemma HighHalf(b: bv8, j: nat)
    requires 4 <= j < 8
    ensures BitAt(b, j) <==> (b >> j) & 1 == 1
  {
    match j
    case 4 => assert (b & 0x10 != 0) <==> (b >> 4) & 1 == 1;
    case 5 => assert (b & 0x20 != 0) <==> (b >> 5) & 1 == 1;
    case 6 => assert (b & 0x40 != 0) <==> (b >> 6) & 1 == 1;
    case _ => assert (b & 0x80 != 0) <==> (b >> 7) & 1 == 1;
  }

  /** Bits below the d-th do not depend on those above. */
  lemma {:induction false} LowBits(v: nat, d: nat, b: nat)
    requires b < d
    ensures (v % Pow2(d) / Pow2(b)) % 2 == (v / Pow2(b)) % 2
  {
    HalfOf(v, Pow2(d - 1));
    if b > 0 {
      LowBits(v / 2, d - 1, b - 1);
      HalvesThenShifts(v, Pow2(b - 1));
      HalvesThenShifts(v % Pow2(d), Pow2(b - 1));
    }
  }

  lemma HalfOf(v: nat, half: nat)
    requires half >= 1
    ensures v % (2 * half) / 2 == v / 2 % half && v % (2 * half) % 2 == v % 2
  {
    var q, r := v / (2 * half), v % (2 * half);
    assert v == 2 * half * q + r && 2 * half * q == 2 * (half * q);
    DivUnique(v / 2, half, q, r / 2);
    DivUnique(v, 2, half * q + r / 2, r % 2);
  }

  /** The remainders of values: the low bits of each, low bit first, one value after the other. */
  lemma {:induction false} RemainderLayout(vals: seq<nat>, div: nat, k: nat, b: nat)
    requires k < |vals| && b < div
    ensures 0 <= div * k + b < |RemainderBits(vals, div)|
    ensures RemainderBits(vals, div)[div * k + b] <==> (vals[k] / Pow2(b)) % 2 == 1
  {
    if k == 0 {
      BitsOfAt(div, vals[0] % Pow2(div), b);
      LowBits(vals[0], div, b);
    } else {
      RemainderLayout(vals[1..], div, k - 1, b);
      assert div * k + b == div + (div * (k - 1) + b);
    }
  }

  // ---- symbols

  /** A weight quotient: a two for every two in it, then what is left. */
  lemma {:induction false} WeightCodeLayout(q: nat)
    ensures |Code(q, 2)| == q / 2 + 1 && Code(q, 2)[q / 2] == q % 2
    ensures forall i :: 0 <= i < q / 2 ==> Code(q, 2)[i] == 2
  {
    if q >= 2 {
      WeightCodeLayout(q - 2);
    }
  }

  /** A run quotient: ones, then a zero. */
  lemma {:induction false} RunCodeLayout(q: nat)
    ensures |Code(q, 1)| == q + 1 && Code(q, 1)[q] == 0
    ensures forall i :: 0 <= i < q ==> Code(q, 1)[i] == 1
  {
    if q >= 1 {
      RunCodeLayout(q - 1);
    }
  }

  lemma QuotientsLayout(ch: Channel, q: nat)
    requires ch.Valid() && ch.vals != [] && q == ch.vals[0] / Pow2(ch.div)
    ensures ch.Symbols() == Code(q, ch.t) + ch.(vals := ch.vals[1..]).Symbols()
  {
    var rest := ch.(vals := ch.vals[1..]);
    assert ch.Quotients()[1..] == rest.Quotients();
  }

  /**
   * The symbols of the weights, one code after the other. With divisor 2^div a quotient is sent in twos
   * and a last symbol 0 or 1; a truncated one, of at most two, in one symbol; uncompressed ones are zeros.
   */
  lemma WeightSymbolsLayout(s: Slice, q: nat)
    requires s.weights != []
    requires q == s.weights[0] / if s.mode.Golomb? then Pow2(s.mode.div) else Pow2(s.setup.UncompressedBits())
    ensures var symbols, rest := s.Weights().Symbols(), s.(weights := s.weights[1..]).Weights().Symbols();
            && (s.mode.Golomb? && !s.mode.trunc ==>
                  |symbols| == q / 2 + 1 + |rest| && symbols[q / 2] == q % 2
                  && (forall i :: 0 <= i < q / 2 ==> symbols[i] == 2) && symbols[q / 2 + 1..] == rest)
            && (s.mode.Golomb? && s.mode.trunc && q <= 2 ==> symbols == [q] + rest)
            && (s.mode.Uncompressed? && q == 0 ==> symbols == [0] + rest)
  {
    QuotientsLayout(s.Weights(), q);
    WeightCodeLayout(q);
  }

  /** The symbols of the runs: each quotient in ones, ended by a zero. */
  lemma RunSymbolsLayout(s: Slice, q: nat)
    requires s.runs != [] && q == s.runs[0] / Pow2(s.zdiv)
    ensures var symbols, rest := s.Runs().Symbols(), s.(runs := s.runs[1..]).Runs().Symbols();
            && |symbols| == q + 1 + |rest| && symbols[q] == 0
            && (forall i :: 0 <= i < q ==> symbols[i] == 1) && symbols[q + 1..] == rest
  {
    QuotientsLayout(s.Runs(), q);
    RunCodeLayout(q);
  }

  lemma NoSymbols(s: Slice)
    ensures s.weights == [] ==> s.Weights().Symbols() == []
    ensures s.runs == [] ==> s.Runs().Symbols() == []
  {
  }

  // ---- chunks

  lemma {:induction false} TerminalsCount(symbols: seq<nat>, n: nat, t: nat)
    requires t >= 1
    ensures Terminals(Window(symbols, 0, n), t) == |set i: nat | i < n && (i < |symbols| ==> symbols[i] < t)|
  {
    var ends := set i: nat | i < n && (i < |symbols| ==> symbols[i] < t);
    if n > 0 {
      var m: nat := n - 1;
      TerminalsCount(symbols, m, t);
      var before := set i: nat | i < m && (i < |symbols| ==> symbols[i] < t);
      var last := if m < |symbols| then symbols[m] else 0;
      assert Window(symbols, 0, n) == Window(symbols, 0, m) + [last];
      TerminalsAdd(Window(symbols, 0, m), [last], t);
      assert Terminals([last], t) == (if last < t then 1 else 0) + Terminals([last][1..], t);
      assert ends == before + if last < t then {m} else {};
    }
  }

  /**
   * How many weights are done after k chunks: those whose code ends in the first 12 k symbols, or 8 k for
   * uncompressed weights of more than five bits.
   */
  lemma WeightsDone(s: Slice, k: nat, chunk: nat)
    requires chunk == if s.mode.Uncompressed? && s.setup.UncompressedBits() > 5 then 8 else 12
    ensures var symbols, open := s.Weights().Symbols(), if s.mode.Golomb? && s.mode.trunc then 3 else 2;
            var ends := |set i: nat | i < chunk * k && (i < |symbols| ==> symbols[i] < open)|;
            s.Weights().Coded(k) == if ends < |s.weights| then ends else |s.weights|
  {
    var ch := s.Weights();
    TerminalsCount(ch.Symbols(), ch.chunk * k, ch.t);
  }

  /** Runs are sent in chunks of 12, or 8 if their divisor is 2^3 or more. */
  lemma RunsDone(s: Slice, k: nat, chunk: nat)
    requires chunk == if s.zdiv < 3 then 12 else 8
    ensures var symbols := s.Runs().Symbols();
            var ends := |set i: nat | i < chunk * k && (i < |symbols| ==> symbols[i] < 1)|;
            s.Runs().Coded(k) == if ends < |s.runs| then ends else |s.runs|
  {
    var ch := s.Runs();
    TerminalsCount(ch.Symbols(), ch.chunk * k, ch.t);
  }

  lemma RoundParts(a: seq<bool>, b: seq<bool>, c: seq<bool>, d: seq<bool>, e: seq<bool>, f: seq<bool>)
    ensures var all := a + (b + (c + (d + e))) + f;
            && |all| >= |a| + |b| && all[..|a|] == a && all[|a|..|a| + |b|] == b
            && all[|a| + |b|..] == c + d + e + f
  {
  }

  /** Weights are sent while they are less than 8 ahead of the runs, runs while they are not ahead. */
  lemma EnabledLayout(s: Slice, kw: nat, kz: nat)
    ensures var dw, dz := s.Weights().Coded(kw), s.Runs().Coded(kz);
            && WeightsEnabled(s, kw, kz) == ((s.useZeroRuns ==> dw - dz < 8) && dw < |s.weights|)
            && RunsEnabled(s, kw, kz) == (s.useZeroRuns && dw >= dz && dz < |s.runs|)
  {
  }

  /** A round starts with the first bits of 12 weight symbols, and the symbols of a chunk of runs. */
  lemma RoundLayout(s: Slice, kw: nat, kz: nat, pw: bool, pz: bool, nw: nat, nz: nat)
    requires nw == if WeightsEnabled(s, kw, kz) && s.mode.Golomb? then 12 else 0
    requires nz == if !RunsEnabled(s, kw, kz) then 0 else if s.zdiv < 3 then 12 else 8
    ensures var bits, w, z := BodyBits(s, kw, kz, pw, pz), s.Weights().Symbols(), s.Runs().Symbols();
            && |bits| >= nw + nz
            && (var word := bits[..nw]; forall i :: 0 <= i < nw ==>
                  (word[i] <==> 12 * kw + i < |w| && w[12 * kw + i] > 0))
            && (var word := bits[nw..nw + nz]; forall i :: 0 <= i < nz ==>
                  (word[i] <==> nz * kz + i < |z| && z[nz * kz + i] > 0))
  {
    var f := Fields(s, kw, kz, pw, pz);
    WordsLayout(s, kw, kz, pw, pz, nw, nz);
    NextRound(s, kw, kz, pw, pz);
    RoundParts(f.unary0, f.zunary, f.unary1, f.wremain, f.zremain, AfterRound(s, kw, kz));
  }

  lemma WordsLayout(s: Slice, kw: nat, kz: nat, pw: bool, pz: bool, nw: nat, nz: nat)
    requires nw == if WeightsEnabled(s, kw, kz) && s.mode.Golomb? then 12 else 0
    requires nz == if !RunsEnabled(s, kw, kz) then 0 else if s.zdiv < 3 then 12 else 8
    ensures var f, w, z := Fields(s, kw, kz, pw, pz), s.Weights().Symbols(), s.Runs().Symbols();
            && |f.unary0| == nw && |f.zunary| == nz
            && (forall i :: 0 <= i < nw ==> (f.unary0[i] <==> 12 * kw + i < |w| && w[12 * kw + i] > 0))
            && (forall i :: 0 <= i < nz ==> (f.zunary[i] <==> nz * kz + i < |z| && z[nz * kz + i] > 0))
  {
  }

  /**
   * Then there are the second bits of the weight symbols above zero, the remainders of the weights and of
   * the runs that the round before has ended, and the next round.
   */
  lemma RoundEnds(s: Slice, kw: nat, kz: nat, pw: bool, pz: bool, we: bool, ze: bool, nw: nat, nz: nat,
                  heldW: seq<nat>, heldZ: seq<nat>)
    requires we == WeightsEnabled(s, kw, kz) && ze == RunsEnabled(s, kw, kz)
    requires nw == if we && s.mode.Golomb? then 12 else 0
    requires nz == if !ze then 0 else if s.zdiv < 3 then 12 else 8
    requires if pw && kw > 0 && s.Weights().Coded(kw - 1) <= s.Weights().Coded(kw)
             then heldW == s.weights[s.Weights().Coded(kw - 1)..s.Weights().Coded(kw)] else heldW == []
    requires if pz && kz > 0 && s.Runs().Coded(kz - 1) <= s.Runs().Coded(kz)
             then heldZ == s.runs[s.Runs().Coded(kz - 1)..s.Runs().Coded(kz)] else heldZ == []
    ensures var bits := BodyBits(s, kw, kz, pw, pz);
            && |bits| >= nw + nz
            && bits[nw + nz..]
               == Unary1(Window(s.Weights().Symbols(), 12 * kw, nw))
                  + RemainderBits(heldW, if s.mode.Golomb? then s.mode.div else s.setup.UncompressedBits())
                  + RemainderBits(heldZ, s.zdiv)
                  + if we || ze then BodyBits(s, if we then kw + 1 else kw, if ze then kz + 1 else kz, we, ze) else []
  {
    var f := Fields(s, kw, kz, pw, pz);
    assert Window(s.Weights().Symbols(), 12 * kw, 0) == [];
    NextRound(s, kw, kz, pw, pz);
    RoundParts(f.unary0, f.zunary, f.unary1, f.wremain, f.zremain, AfterRound(s, kw, kz));
  }

  /** The rounds after one. */
  function AfterRound(s: Slice, kw: nat, kz: nat): seq<bool> {
    var we, ze := WeightsEnabled(s, kw, kz), RunsEnabled(s, kw, kz);
    if we || ze then BodyBits(s, if we then kw + 1 else kw, if ze then kz + 1 else kz, we, ze) else []
  }

  lemma NextRound(s: Slice, kw: nat, kz: nat, pw: bool, pz: bool)
    ensures BodyBits(s, kw, kz, pw, pz) == Fields(s, kw, kz, pw, pz).Join() + AfterRound(s, kw, kz)
  {
  }

  // ---- the header

  lemma FieldAt(bits: seq<bool>, from: nat, field: seq<bool>, tail: seq<bool>)
    requires from <= |bits| && bits[from..] == field + tail
    ensures from + |field| <= |bits| && bits[from..from + |field|] == field && bits[from + |field|..] == tail
  {
    assert bits[from..][..|field|] == field && bits[from..][|field|..] == tail;
  }

  lemma NumberAt(bits: seq<bool>, from: nat, len: nat, v: nat, tail: seq<bool>)
    requires from <= |bits| && bits[from..] == BitsOf(len, v) + tail && v < Pow2(len)
    ensures from + len <= |bits| && ValueOf(bits[from..from + len]) == v && bits[from + len..] == tail
  {
    FieldAt(bits, from, BitsOf(len, v), tail);
    ValueOfBitsOf(len, v);
  }

  lemma FiveNumbers(bits: seq<bool>, a: nat, b: nat, c: nat, d: nat, e: nat, tail: seq<bool>)
    requires bits == BitsOf(3, a) + (BitsOf(15, b) + (BitsOf(3, c) + (BitsOf(1, d) + (BitsOf(1, e) + tail))))
    requires a < 8 && b < 32768 && c < 8 && d < 2 && e < 2
    ensures |bits| >= 23 && bits[23..] == tail
    ensures ValueOf(bits[0..3]) == a && ValueOf(bits[3..18]) == b && ValueOf(bits[18..21]) == c
    ensures ValueOf(bits[21..22]) == d && ValueOf(bits[22..23]) == e
  {
    Lockstep.FieldWidths();
    var r3 := BitsOf(1, e) + tail;
    var r2 := BitsOf(1, d) + r3;
    var r1 := BitsOf(3, c) + r2;
    var r0 := BitsOf(15, b) + r1;
    assert bits[0..] == BitsOf(3, a) + r0;
    NumberAt(bits, 0, 3, a, r0);
    NumberAt(bits, 3, 15, b, r1);
    NumberAt(bits, 18, 3, c, r2);
    NumberAt(bits, 21, 1, d, r3);
    NumberAt(bits, 22, 1, e, tail);
  }

  /** ZDIV is the divisor of the runs or 6 without runs; SLICELEN, WDIV, WTRUNC and NEWPAL follow. */
  lemma HeaderLayout(s: Slice, zdiv: nat, wdiv: nat, trunc: nat, newPalette: nat)
    requires s.Valid()
    requires zdiv == if s.useZeroRuns then s.zdiv else 6
    requires wdiv == if s.mode.Golomb? then s.mode.div else 7
    requires trunc == if s.mode.Golomb? && s.mode.trunc then 1 else 0
    requires newPalette == if s.newPalette then 1 else 0
    ensures zdiv in {0, 1, 2, 3, 6} && wdiv in {0, 1, 2, 3, 4, 5, 7}
    ensures var bits := SliceBits(s);
            && |bits| >= 23
            && ValueOf(bits[0..3]) == zdiv && ValueOf(bits[3..18]) == |s.weights| - 1 && ValueOf(bits[18..21]) == wdiv
            && ValueOf(bits[21..22]) == trunc && ValueOf(bits[22..23]) == newPalette
            && bits[23..] == (if s.newPalette then SetupBits(s.setup) else []) + BodyBits(s, 0, 0, false, false)
  {
    var tail := (if s.newPalette then SetupBits(s.setup) else []) + BodyBits(s, 0, 0, false, false);
    HeaderFields(s, zdiv, |s.weights| - 1, wdiv, trunc, newPalette, tail);
    FiveNumbers(SliceBits(s), zdiv, |s.weights| - 1, wdiv, trunc, newPalette, tail);
  }

  lemma HeaderFields(s: Slice, zdiv: nat, length: nat, wdiv: nat, trunc: nat, newPalette: nat, tail: seq<bool>)
    requires |s.weights| == length + 1 && zdiv == if s.useZeroRuns then s.zdiv else 6
    requires wdiv == if s.mode.Golomb? then s.mode.div else 7
    requires trunc == if s.mode.Golomb? && s.mode.trunc then 1 else 0
    requires newPalette == if s.newPalette then 1 else 0
    requires tail == (if s.newPalette then SetupBits(s.setup) else []) + BodyBits(s, 0, 0, false, false)
    ensures SliceBits(s)
            == BitsOf(3, zdiv)
               + (BitsOf(15, length) + (BitsOf(3, wdiv) + (BitsOf(1, trunc) + (BitsOf(1, newPalette) + tail))))
  {
  }

  lemma ThreeNumbers(bits: seq<bool>, a: nat, b: nat, c: nat, tail: seq<bool>)
    requires bits == BitsOf(5, a) + (BitsOf(5, b) + (BitsOf(3, c) + tail)) && a < 32 && b < 32 && c < 8
    ensures |bits| >= 13 && bits[13..] == tail
    ensures ValueOf(bits[0..5]) == a && ValueOf(bits[5..10]) == b && ValueOf(bits[10..13]) == c
  {
    Lockstep.FieldWidths();
    var r1 := BitsOf(3, c) + tail;
    var r0 := BitsOf(5, b) + r1;
    assert bits[0..] == BitsOf(5, a) + r0;
    NumberAt(bits, 0, 5, a, r0);
    NumberAt(bits, 5, 5, b, r1);
    NumberAt(bits, 10, 3, c, tail);
  }

  /** A palette: DIROFS, PALSIZE, which is one less than its entries unless it has none, PALBITS, and the entries. */
  lemma SetupLayout(p: Setup, size: nat)
    requires p.Valid() && size == if p.lut == [] then 0 else |p.lut| - 1
    ensures |p.lut| <= 32 && 2 <= p.palbits <= 9
    ensures var bits := SetupBits(p);
            && |bits| == 13 + p.palbits * |p.lut|
            && ValueOf(bits[0..5]) == p.directOffset && ValueOf(bits[5..10]) == size
            && ValueOf(bits[10..13]) == p.palbits - 2 && bits[13..] == LutBits(p.lut, p.palbits)
  {
    SliceLength.LutLength(p.lut, p.palbits);
    ThreeNumbers(SetupBits(p), p.directOffset, size, p.palbits - 2, LutBits(p.lut, p.palbits));
  }

  lemma {:induction false} EntryLayout(lut: seq<nat>, palbits: nat, k: nat)
    requires k < |lut| && forall i :: 0 <= i < |lut| ==> lut[i] < Pow2(palbits)
    ensures 0 <= palbits * k <= palbits * k + palbits <= |LutBits(lut, palbits)|
    ensures ValueOf(LutBits(lut, palbits)[palbits * k..palbits * k + palbits]) == lut[k]
  {
    var bits, tail := LutBits(lut, palbits), LutBits(lut[1..], palbits);
    if k == 0 {
      assert bits[0..] == bits;
      NumberAt(bits, 0, palbits, lut[0], tail);
    } else {
      EntryLayout(lut[1..], palbits, k - 1);
      assert palbits * k == palbits + palbits * (k - 1);
      SubOf(bits, BitsOf(palbits, lut[0]), tail, palbits * (k - 1), palbits * (k - 1) + palbits);
    }
  }

  lemma SubOf(bits: seq<bool>, head: seq<bool>, tail: seq<bool>, lo: nat, hi: nat)
    requires bits == head + tail && lo <= hi <= |tail|
    ensures bits[|head| + lo..|head| + hi] == tail[lo..hi]
  {
  }

  /** The width of uncompressed weights: PALBITS, or with a palette the fewest bits that tell its entries apart. */
  lemma UncompressedLayout(p: Setup)
    ensures var u := p.UncompressedBits();
            if p.lut == [] then u == p.palbits else |p.lut| <= Pow2(u) && (u > 0 ==> Pow2(u - 1) < |p.lut|)
  {
    LeastBits(|p.lut|, 0);
  }

  lemma {:induction false} LeastBits(size: nat, from: nat)
    requires from > 0 ==> Pow2(from - 1) < size
    ensures var u := IndexBitsFrom(size, from); size <= Pow2(u) && (u > 0 ==> Pow2(u - 1) < size)
    decreases size - Pow2(from)
  {
    if Pow2(from) < size {
      LeastBits(size, from + 1);
    }
  }

  // ---- meaning

  /** The low bit of an entry is the sign, the others the magnitude; indices behind the palette stand for themselves. */
  lemma EntryMeaning(p: Setup, index: nat, k: int)
    ensures index < |p.lut| && p.lut[index] == 2 * k ==> WeightOf(p, index) == k
    ensures index < |p.lut| && p.lut[index] == 2 * k + 1 ==> WeightOf(p, index) == -k
    ensures index >= |p.lut| && index - |p.lut| + p.directOffset == 2 * k ==> WeightOf(p, index) == k
    ensures index >= |p.lut| && index - |p.lut| + p.directOffset == 2 * k + 1 ==> WeightOf(p, index) == -k
  {
  }

  /** A weight comes behind the weights and runs before it, and its run of zeros behind it. */
  lemma {:induction false} WeightPlace(p: Setup, weights: seq<nat>, runs: seq<nat>, i: nat)
    requires |runs| == |weights| && i < |weights|
    ensures var all, at := Interleave(p, weights, runs), i + Sum(runs[..i]);
            && at + runs[i] < |all| && all[at] == WeightOf(p, weights[i])
            && forall j :: at < j <= at + runs[i] ==> all[j] == 0
  {
    var w, rest := WeightOf(p, weights[0]), Interleave(p, weights[1..], runs[1..]);
    assert Interleave(p, weights, runs) == [w] + (Zeros(runs[0]) + rest);
    SumPrefix(runs, i);
    if i == 0 {
      FirstPlace(w, runs[0], rest);
    } else {
      WeightPlace(p, weights[1..], runs[1..], i - 1);
      LaterPlace(w, runs[0], rest, i - 1 + Sum(runs[1..][..i - 1]), runs[i]);
    }
  }

  lemma SumPrefix(runs: seq<nat>, i: nat)
    requires i < |runs|
    ensures Sum(runs[..i]) == if i == 0 then 0 else runs[0] + Sum(runs[1..][..i - 1])
  {
    if i > 0 {
      assert runs[..i][1..] == runs[1..][..i - 1] && runs[..i][0] == runs[0];
    }
  }

  lemma FirstPlace(w: int, r: nat, rest: seq<int>)
    ensures var all := [w] + (Zeros(r) + rest);
            r < |all| && all[0] == w && forall j :: 0 < j <= r ==> all[j] == 0
  {
  }

  lemma LaterPlace(w: int, r: nat, rest: seq<int>, at: nat, run: nat)
    requires at + run < |rest| && forall j :: at < j <= at + run ==> rest[j] == 0
    ensures var all, to := [w] + (Zeros(r) + rest), 1 + r + at;
            to + run < |all| && all[to] == rest[at] && forall j :: to < j <= to + run ==> all[j] == 0
  {
    var all := [w] + (Zeros(r) + rest);
    forall j | 1 + r <= j < |all| ensures all[j] == rest[j - 1 - r] {
    }
  }

  lemma {:induction false} PlacesLength(p: Setup, weights: seq<nat>, runs: seq<nat>)
    requires |runs| == |weights|
    ensures |Interleave(p, weights, runs)| == |weights| + Sum(runs)
  {
    if weights != [] {
      PlacesLength(p, weights[1..], runs[1..]);
    }
  }

  lemma {:induction false} PlainPlace(p: Setup, weights: seq<nat>, i: nat)
    requires i < |weights|
    ensures |Interleave(p, weights, [])| == |weights| && Interleave(p, weights, [])[i] == WeightOf(p, weights[i])
  {
    if |weights| > 1 {
      PlainPlace(p, weights[1..], if i > 0 then i - 1 else 0);
    } else {
      assert Interleave(p, weights[1..], []) == [];
    }
  }

  /**
   * The weights of a slice. Without runs they are just its indices' weights; with runs each is followed by
   * its run, and those of a slice with a palette are preceded by one more.
   */
  lemma SliceMeaning(s: Slice, i: nat)
    requires s.Valid() && i < |s.weights|
    ensures var all := Expand(s);
            && (!s.useZeroRuns ==> |all| == |s.weights| && all[i] == WeightOf(s.setup, s.weights[i]))
            && (s.useZeroRuns ==>
                  var first := if s.newPalette then 1 else 0;
                  var at := i + Sum(s.runs[..i + first]);
                  && |all| == |s.weights| + Sum(s.runs) && at + s.runs[i + first] < |all|
                  && all[at] == WeightOf(s.setup, s.weights[i])
                  && (forall j :: at < j <= at + s.runs[i + first] ==> all[j] == 0)
                  && (s.newPalette ==> forall j :: 0 <= j < s.runs[0] ==> all[j] == 0))
  {
    if !s.useZeroRuns {
      PlainPlace(s.setup, s.weights, i);
    } else if !s.newPalette {
      WeightPlace(s.setup, s.weights, s.runs, i);
      PlacesLength(s.setup, s.weights, s.runs);
    } else {
      WeightPlace(s.setup, s.weights, s.runs[1..], i);
      PlacesLength(s.setup, s.weights, s.runs[1..]);
      SumPrefix(s.runs, i + 1);
    }
  }

  // ---- the stream

  /** Behind the slices there is an end marker of three ones, and ones up to the next multiple of 128 bits. */
  lemma StreamLayout(ss: seq<Slice>)
    ensures var bits, n := StreamBits(ss), |SlicesBits(ss)|;
            && n + 3 <= |bits| < n + 3 + 128 && |bits| % 128 == 0
            && bits[..n] == SlicesBits(ss) && forall i :: n <= i < |bits| ==> bits[i]
  {
  }

  /**
   * How every encoding starts: ZDIV 0 to 3 or 6, and a palette behind a header of 23 bits. It has a multiple
   * of 16 bytes.
   */
  lemma EncodingLayout(out: seq<bv8>, ws: seq<int>)
    requires Encodes(out, ws)
    ensures |out| >= 16 && |out| % 16 == 0
    ensures ValueOf(BytesBits(out)[0..3]) in {0, 1, 2, 3, 6} && BytesBits(out)[22]
  {
    var ss: seq<Slice> :| EncodesAs(out, ws, ss);
    FirstSlice(ss);
    WholeBlocks(|out|, |StreamBits(ss)| / 128);
  }

  lemma FirstSlice(ss: seq<Slice>)
    requires ss != [] && ss[0].newPalette && ValidSlices(ss)
    ensures |StreamBits(ss)| >= 23 && ValueOf(StreamBits(ss)[0..3]) in {0, 1, 2, 3, 6} && StreamBits(ss)[22]
  {
    var first := SliceBits(ss[0]);
    var s := ss[0];
    HeaderLayout(s, if s.useZeroRuns then s.zdiv else 6, if s.mode.Golomb? then s.mode.div else 7,
                 if s.mode.Golomb? && s.mode.trunc then 1 else 0, if s.newPalette then 1 else 0);
    OneBit(first[22..23]);
    AppendAssociates(first, SlicesBits(ss[1..]), Trailer(|SlicesBits(ss)|));
    Starts(first, SlicesBits(ss[1..]) + Trailer(|SlicesBits(ss)|));
  }

  lemma Starts(first: seq<bool>, tail: seq<bool>)
    requires |first| >= 23
    ensures (first + tail)[0..3] == first[0..3] && (first + tail)[22] == first[22..23][0]
  {
  }

  lemma WholeBlocks(n: nat, blocks: int)
    requires 8 * n == 128 * blocks && n > 0
    ensures n >= 16 && n % 16 == 0
  {
    DivUnique(n, 16, blocks, 0);
  }

  /** A stream that starts with 4 or 5 is refused. */
  lemma RefusesZdiv(inbuf: seq<bv8>)
    ensures inbuf != [] && 4 <= ValueOf(BytesBits(inbuf)[0..3]) <= 5 ==> Decode(inbuf) == Err(Malformed)
  {
    if inbuf != [] && 4 <= ValueOf(BytesBits(inbuf)[0..3]) <= 5 {
      var bits := BytesBits(inbuf);
      assert |bits| >= 8 && bits[0..3] == bits[..3];
      assert TakeNum(bits, 3) == Ok((ValueOf(bits[..3]), bits[3..]));
      assert DecodeSlice(ValueOf(bits[..3]), bits[3..], INITIAL) == Err(Malformed);
      assert DecodeNext(ValueOf(bits[..3]), bits[3..], INITIAL) == Err(Malformed);
      assert INITIAL.(first := INITIAL.first) == INITIAL;
    }
  }

  lemma HeaderTaken(rest: seq<bool>)
    requires |rest| >= 20
    ensures TakeHeader(rest) == Ok((RawHeader(ValueOf(rest[0..15]), ValueOf(rest[15..18]), ValueOf(rest[18..19]),
                                              ValueOf(rest[19..20])), rest[20..]))
  {
    assert rest[0..15] == rest[..15];
    assert rest[15..][..3] == rest[15..18] && rest[15..][3..] == rest[18..];
    assert rest[18..][..1] == rest[18..19] && rest[18..][1..] == rest[19..];
    assert rest[19..][..1] == rest[19..20] && rest[19..][1..] == rest[20..];
  }

  lemma OneBit(bits: seq<bool>)
    requires |bits| == 1
    ensures ValueOf(bits) == if bits[0] then 1 else 0
  {
    assert bits[1..] == [];
  }

  /**
   * Which slices the decoder refuses by their headers: ZDIV 4 or 5, WDIV 6, a first slice without a palette,
   * and a slice without a palette that starts or stops using runs.
   */
  lemma RefusesHeader(zdiv: nat, rest: seq<bool>, st: State)
    requires zdiv < 7 && |rest| >= 20
    requires zdiv == 4 || zdiv == 5
             || (!rest[19] && (ValueOf(rest[15..18]) == 6 || st.first || (zdiv != 6) != st.prevZeroRuns))
    ensures DecodeSlice(zdiv, rest, st) == Err(Malformed)
  {
    HeaderTaken(rest);
    OneBit(rest[19..20]);
  }

  /** A weight index of more than nine bits is refused. */
  lemma RefusesIndex(setup: Setup, newPalette: bool, useZeroRuns: bool, ws: seq<nat>, zs: seq<nat>)
    requires useZeroRuns ==> |zs| == |ws| + if newPalette then 1 else 0
    ensures Output(setup, newPalette, useZeroRuns, ws, zs) == Err(Malformed)
            <==> exists i :: 0 <= i < |ws| && ws[i] >= 512
  {
  }
}
