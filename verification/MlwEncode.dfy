/** The encoder: sections, end marker and padding. */
module MlwEncode {
  import opened Bits
  import opened BitBuf
  import opened SliceFormat
  import opened Palettes
  import opened PaletteSections
  import opened SectionEncoder
  import opened Results
  import opened DecodeSpec
  import opened Sequences
  import SliceLayout
  import StreamRoundTrip

  lemma {:induction false} SlicesBitsAdd(a: seq<Slice>, b: seq<Slice>)
    ensures SlicesBits(a + b) == SlicesBits(a) + SlicesBits(b)
  {
    if a == [] {
      assert a + b == b;
    } else {
      assert (a + b)[1..] == a[1..] + b;
      SlicesBitsAdd(a[1..], b);
      AppendAssociates(SliceBits(a[0]), SlicesBits(a[1..]), SlicesBits(b));
    }
  }

  predicate EachValid(ss: seq<Slice>) {
    forall i :: 0 <= i < |ss| ==> ss[i].Valid()
  }

  lemma {:induction false} ExpandAllAdds(a: seq<Slice>, b: seq<Slice>)
    requires EachValid(a) && EachValid(b)
    ensures EachValid(a + b) && ExpandAll(a + b) == ExpandAll(a) + ExpandAll(b)
  {
    if a == [] {
      assert a + b == b;
    } else {
      assert (a + b)[1..] == a[1..] + b && (a + b)[0] == a[0];
      ExpandAllAdds(a[1..], b);
      AppendAssociates(Expand(a[0]), ExpandAll(a[1..]), ExpandAll(b));
    }
  }

  /** A section starts with a setup, so it may follow any other. */
  lemma SectionsJoin(a: seq<Slice>, b: seq<Slice>)
    requires ValidSlices(a) && ValidSlices(b) && b != [] && b[0].newPalette
    requires a != [] ==> a[0].newPalette
    ensures ValidSlices(a + b) && (a + b)[0].newPalette
    ensures ExpandAll(a + b) == ExpandAll(a) + ExpandAll(b)
  {
    ExpandAllAdds(a, b);
    var c := a + b;
    forall i | 0 < i < |c| ensures Continues(c[i - 1], c[i]) {
      if i < |a| {
        assert Continues(a[i - 1], a[i]);
      } else if i > |a| {
        assert Continues(b[i - |a| - 1], b[i - |a|]);
      }
    }
  }

  /** The low bits of 0xff are ones. */
  lemma OnesOf255(len: nat)
    requires len <= 8
    ensures forall i :: 0 <= i < len ==> BitsOf(len, 255)[i]
  {
    LowOnes(len, 255, 8);
  }

  lemma {:induction false} LowOnes(len: nat, data: nat, width: nat)
    requires len <= width && data + 1 == Pow2(width)
    ensures forall i :: 0 <= i < len ==> BitsOf(len, data)[i]
  {
    if len > 0 {
      assert data % 2 == 1 && data / 2 + 1 == Pow2(width - 1);
      LowOnes(len - 1, data / 2, width - 1);
    }
  }

  /** all is w followed by ones. */
  ghost predicate OnesAfter(all: seq<bool>, w: seq<bool>) {
    w <= all && forall i :: |w| <= i < |all| ==> all[i]
  }

  /** Appends up to eight ones. */
  method PutOnes(bb: Writer, len: nat, ghost w: seq<bool>)
    requires bb.Valid() && len <= 8 && OnesAfter(bb.Written(), w)
    modifies bb
    ensures bb.Valid() && bb.pos == old(bb.pos) + len && OnesAfter(bb.Written(), w)
  {
    OnesOf255(len);
    bb.Put(len, 255);
  }

  /** Writes the end marker and pads with ones to a multiple of 128 bits. */
  method PutTrailer(bb: Writer)
    requires bb.Valid()
    modifies bb
    ensures bb.Valid() && bb.Written() == old(bb.Written()) + Trailer(|old(bb.Written())|)
  {
    ghost var w, n := bb.Written(), bb.pos;
    ghost var end := n + |Trailer(n)|;
    LowOnes(3, 7, 3);
    bb.Put(3, ZDIV_EOS);
    assert bb.pos == n + 3;
    var align := (8 - bb.pos % 8) % 8;
    PutOnes(bb, align, w);
    AlignedBelow(n, align, end);
    PadTo(bb, w, end);
    OnlyOnes(bb.Written(), w);
  }

  /** Pads whole bytes of ones. */
  method PadTo(bb: Writer, ghost w: seq<bool>, ghost end: nat)
    requires bb.Valid() && OnesAfter(bb.Written(), w)
    requires bb.pos % 8 == 0 && end % 128 == 0 && end - 128 < bb.pos <= end
    modifies bb
    ensures bb.Valid() && OnesAfter(bb.Written(), w) && bb.pos == end
  {
    while bb.pos % 128 != 0
      invariant bb.Valid() && OnesAfter(bb.Written(), w)
      invariant bb.pos % 8 == 0 && end - 128 < bb.pos <= end
      decreases end - bb.pos
    {
      NextByte(bb.pos, end);
      PutOnes(bb, 8, w);
    }
    SameMultiple(bb.pos, end);
  }

  lemma AlignedBelow(n: nat, align: nat, end: nat)
    requires end == n + |Trailer(n)| && align == (8 - (n + 3) % 8) % 8
    ensures (n + 3 + align) % 8 == 0 && end - 128 < n + 3 + align <= end && end % 128 == 0
  {
    assert 3 <= |Trailer(n)| <= 130 && (n + |Trailer(n)|) % 128 == 0;
    AlignsUp(n + 3, align);
    StreamRoundTrip.WholeBytes(end);
    var next := n + 3 + align;
    MultiplesAbove(n + 3, next, end, next / 8, end / 8);
  }

  lemma AlignsUp(pos: nat, align: nat)
    requires align == (8 - pos % 8) % 8
    ensures (pos + align) % 8 == 0 && align < 8
  {
    if pos % 8 != 0 {
      DivUnique(pos + align, 8, pos / 8 + 1, 0);
    }
  }

  lemma MultiplesAbove(pos: nat, next: nat, end: nat, a: int, b: int)
    requires next == 8 * a && next < pos + 8 && end == 8 * b && pos <= end
    ensures next <= end
  {
  }

  lemma OnlyOnes(all: seq<bool>, w: seq<bool>)
    requires OnesAfter(all, w) && |all| == |w| + |Trailer(|w|)|
    ensures all == w + Trailer(|w|)
  {
  }

  lemma NextByte(pos: nat, end: nat)
    requires pos % 8 == 0 && pos % 128 != 0 && end % 128 == 0 && pos <= end
    ensures pos + 8 <= end && (pos + 8) % 8 == 0
  {
    assert pos != end;
    ByteBelow(pos, end, pos / 8, 16 * (end / 128));
  }

  lemma ByteBelow(pos: nat, end: nat, k: int, m: int)
    requires pos == 8 * k && end == 8 * m && pos < end
    ensures pos + 8 <= end
  {
  }

  lemma SameMultiple(pos: nat, end: nat)
    requires pos % 128 == 0 && end % 128 == 0 && end - 128 < pos <= end
    ensures pos == end
  {
  }

  /** The range check in front of the encoder. */
  method CheckRange(inbuf: seq<int>) returns (ok: bool)
    ensures ok <==> InRange(inbuf)
  {
    for i := 0 to |inbuf|
      invariant forall k :: 0 <= k < i ==> -255 <= inbuf[k] <= 255
    {
      if inbuf[i] < -255 || inbuf[i] > 255 {
        return false;
      }
    }
    ok := true;
  }

  /**
   * Compresses a weight stream. Weights out of range are refused; otherwise the output is an
   * encoding of the stream, from which the decoder gets the stream back.
   */
  method MlwEncode(inbuf: seq<int>, fill: bv8) returns (ok: bool, out: seq<bv8>)
    requires inbuf != []
    ensures ok <==> InRange(inbuf)
    ensures ok ==> Encodes(out, inbuf) && Decode(out) == Ok(inbuf)
    ensures ok ==>
              |out| >= 16 && |out| % 16 == 0 && ValueOf(BytesBits(out)[0..3]) in {0, 1, 2, 3, 6} && BytesBits(out)[22]
  {
    out := [];
    ok := CheckRange(inbuf);
    if !ok {
      return;
    }
    var bb := new Writer(fill);
    var restarts := SearchPaletteSections(inbuf);
    ghost var ss := PutSections(bb, inbuf, restarts);
    PutTrailer(bb);
    out := bb.buf;
    StreamWritten(out, bb.pos, ss, inbuf);
    SliceLayout.EncodingLayout(out, inbuf);
  }

  lemma StreamWritten(buf: seq<bv8>, pos: nat, ss: seq<Slice>, inbuf: seq<int>)
    requires 8 * |buf| - 8 < pos <= 8 * |buf| && BytesBits(buf)[..pos] == StreamBits(ss)
    requires StandFor(ss, inbuf) && inbuf != []
    ensures Encodes(buf, inbuf) && Decode(buf) == Ok(inbuf)
  {
    WholeBytesWritten(buf, pos, StreamBits(ss));
    assert EncodesAs(buf, inbuf, ss);
    StreamRoundTrip.DecodeOne(buf, inbuf);
  }

  lemma WholeBytesWritten(buf: seq<bv8>, pos: nat, bits: seq<bool>)
    requires 8 * |buf| - 8 < pos <= 8 * |buf| && BytesBits(buf)[..pos] == bits && |bits| % 128 == 0
    ensures BytesBits(buf) == bits
  {
    assert |BytesBits(buf)[..pos]| == pos;
    WholeBytes(|buf|, pos);
    assert BytesBits(buf)[..pos] == BytesBits(buf);
  }

  lemma WholeBytes(n: nat, pos: nat)
    requires 8 * n - 8 < pos <= 8 * n && pos % 128 == 0
    ensures pos == 8 * n
  {
    var k := 16 * (pos / 128);
    assert pos == 8 * k;
  }

  /** The slices stand for ws and can be read from the start of a stream. */
  ghost predicate StandFor(ss: seq<Slice>, ws: seq<int>) {
    && ValidSlices(ss) && (ss == [] <==> ws == []) && (ss != [] ==> ss[0].newPalette)
    && ExpandAll(ss) == ws
  }

  lemma AddSection(ss: seq<Slice>, more: seq<Slice>, inbuf: seq<int>, pos: nat, end: nat)
    requires pos < end <= |inbuf| && StandFor(ss, inbuf[..pos]) && StandFor(more, inbuf[pos..end])
    ensures StandFor(ss + more, inbuf[..end])
    ensures SlicesBits(ss + more) == SlicesBits(ss) + SlicesBits(more)
  {
    SectionsJoin(ss, more);
    SlicesBitsAdd(ss, more);
    SectionOf(inbuf, pos, end);
  }

  lemma NothingYet(inbuf: seq<int>, restarts: seq<nat>)
    requires Restarts(restarts, |inbuf|)
    ensures StandFor([], inbuf[..StartOf(restarts, |inbuf|, 0)])
  {
    assert inbuf[..0] == [];
  }

  /** Appends the slices of the section from pos to end. */
  method PutNextSection(bb: Writer, inbuf: seq<int>, pos: nat, end: nat, ghost ss: seq<Slice>)
    returns (ghost ss': seq<Slice>)
    requires bb.Valid() && InRange(inbuf) && pos < end <= |inbuf|
    requires bb.Written() == SlicesBits(ss) && StandFor(ss, inbuf[..pos])
    modifies bb
    ensures bb.Valid() && bb.Written() == SlicesBits(ss') && StandFor(ss', inbuf[..end])
  {
    ghost var more := PutSection(bb, inbuf, pos, end);
    AddSection(ss, more, inbuf, pos, end);
    ss' := ss + more;
  }

  /** Encodes the sections between the restart positions. */
  method PutSections(bb: Writer, inbuf: seq<int>, restarts: seq<nat>) returns (ghost ss: seq<Slice>)
    requires bb.Valid() && bb.Written() == [] && InRange(inbuf) && Restarts(restarts, |inbuf|)
    modifies bb
    ensures bb.Valid() && bb.Written() == SlicesBits(ss) && StandFor(ss, inbuf)
  {
    ss := [];
    var i := 0;
    NothingYet(inbuf, restarts);
    ghost var done: nat := StartOf(restarts, |inbuf|, 0);
    while i < |restarts|
      invariant 0 <= i <= |restarts| && done == StartOf(restarts, |inbuf|, i)
      invariant bb.Valid() && bb.Written() == SlicesBits(ss) && StandFor(ss, inbuf[..done])
    {
      var pos := restarts[i];
      var end := if i < |restarts| - 1 then restarts[i + 1] else |inbuf|;
      assert pos < end && end == StartOf(restarts, |inbuf|, i + 1);
      ss := PutNextSection(bb, inbuf, pos, end, ss);
      done := end;
      i := i + 1;
    }
    assert i == |restarts|;
    assert inbuf[..|inbuf|] == inbuf;
  }

  /** Where section i starts; after the last one, the end of the input. */
  function StartOf(restarts: seq<nat>, size: nat, i: nat): (r: nat)
    requires Restarts(restarts, size)
    ensures r <= size
  {
    if i < |restarts| then restarts[i] else size
  }

  lemma SectionOf(inbuf: seq<int>, pos: nat, end: nat)
    requires pos < end <= |inbuf|
    ensures InRange(inbuf) ==> InRange(inbuf[pos..end])
    ensures inbuf[..end] == inbuf[..pos] + inbuf[pos..end]
  {
  }

  /** Finds a palette for a section and encodes it. */
  method PutSection(bb: Writer, inbuf: seq<int>, pos: nat, end: nat) returns (ghost ss: seq<Slice>)
    requires bb.Valid() && InRange(inbuf) && pos < end <= |inbuf|
    modifies bb
    ensures bb.Valid() && bb.Written() == old(bb.Written()) + SlicesBits(ss) && StandFor(ss, inbuf[pos..end])
  {
    SectionOf(inbuf, pos, end);
    var section := inbuf[pos..end];
    var palette := new Palette();
    palette.Find(section);
    ghost var w, z;
    ss, w, z := EncodeSection(bb, section, palette);
  }
}
