/** The bit buffers of the encoder and of the decoder. */
module BitBuf {
  import opened Bits

  lemma OneBitMore(buf: seq<bv8>, pos: nat, bit: bool)
    requires pos < 8 * |buf|
    ensures var buf' := buf[pos / 8 := WithBit(buf[pos / 8], pos % 8, bit)];
            BytesBits(buf')[..pos + 1] == BytesBits(buf)[..pos] + [bit]
  {
    var buf' := buf[pos / 8 := WithBit(buf[pos / 8], pos % 8, bit)];
    forall i | 0 <= i <= pos
      ensures BytesBits(buf')[i] == if i == pos then bit else BytesBits(buf)[i]
    {
      BytesBitsAt(buf', i);
      BytesBitsAt(buf, i);
      WithBitSetsOne(buf[pos / 8], pos % 8, bit, i % 8);
    }
  }

  /**
   * The encoder's bit buffer. Storage grows on demand; a byte that has not been written yet holds
   * an arbitrary value, here `fill`, as freshly allocated memory does.
   */
  class Writer {
    var buf: seq<bv8>
    var pos: nat
    const fill: bv8

    ghost predicate Valid()
      reads this
    {
      8 * |buf| - 8 < pos <= 8 * |buf|
    }

    /** Everything written so far. */
    ghost function Written(): (s: seq<bool>)
      reads this
      requires Valid()
      ensures |s| == pos
    {
      BytesBits(buf)[..pos]
    }

    constructor (fill: bv8)
      ensures Valid() && Written() == []
    {
      this.fill := fill;
      buf := [];
      pos := 0;
    }

    method PutBit(bit: bool)
      requires Valid()
      modifies this
      ensures Valid()
      ensures Written() == old(Written()) + [bit]
    {
      var bytePos := pos / 8;
      var bitPos := pos % 8;
      if bytePos == |buf| {
        BytesBitsConcat(buf, [fill]);
        buf := buf + [fill];
      }
      assert BytesBits(buf)[..pos] == old(Written());
      OneBitMore(buf, pos, bit);
      buf := buf[bytePos := WithBit(buf[bytePos], bitPos, bit)];
      pos := pos + 1;
    }

    /** Appends the low len bits of data. */
    method Put(len: nat, data: nat)
      requires Valid()
      modifies this
      ensures Valid()
      ensures Written() == old(Written()) + BitsOf(len, data)
    {
      ghost var field := BitsOf(len, data);
      var i := 0;
      while i < len
        invariant 0 <= i <= len
        invariant Valid()
        invariant Written() == old(Written()) + field[..i]
      {
        BitsOfAt(len, data, i);
        PutBit((data / Pow2(i)) % 2 == 1);
        assert field[..i + 1] == field[..i] + [field[i]];
        i := i + 1;
      }
    }

    /** Appends a word that was collected bit by bit. */
    method PutWord(word: seq<bool>)
      requires Valid()
      modifies this
      ensures Valid()
      ensures Written() == old(Written()) + word
    {
      var i := 0;
      while i < |word|
        invariant 0 <= i <= |word|
        invariant Valid()
        invariant Written() == old(Written()) + word[..i]
      {
        PutBit(word[i]);
        assert word[..i + 1] == word[..i] + [word[i]];
        i := i + 1;
      }
    }
  }

  /** The decoder's bit buffer. Reading past the end stops the program; here `ok` is false. */
  class Reader {
    const buf: seq<bv8>
    var pos: nat

    ghost predicate Valid()
      reads this
    {
      pos <= 8 * |buf|
    }

    /** What is left to read. */
    ghost function Rest(): (s: seq<bool>)
      reads this
      requires Valid()
      ensures |s| == 8 * |buf| - pos
    {
      BytesBits(buf)[pos..]
    }

    constructor (buf: seq<bv8>)
      ensures Valid() && Rest() == BytesBits(buf) && this.buf == buf && pos == 0
    {
      this.buf := buf;
      pos := 0;
    }

    method AtEnd() returns (end: bool)
      requires Valid()
      ensures end <==> Rest() == []
    {
      end := pos / 8 == |buf|;
    }

    method GetBit() returns (ok: bool, bit: bool)
      requires Valid()
      modifies this
      ensures Valid()
      ensures ok <==> old(Rest()) != []
      ensures ok ==> [bit] + Rest() == old(Rest())
      ensures !ok ==> pos == old(pos)
    {
      var bytePos := pos / 8;
      var bitPos := pos % 8;
      if bytePos >= |buf| {
        return false, false;
      }
      BytesBitsAt(buf, pos);
      ok, bit := true, BitAt(buf[bytePos], bitPos);
      pos := pos + 1;
    }

    /** Reads a field of len bits as a word. */
    method GetWord(len: nat) returns (ok: bool, word: seq<bool>)
      requires Valid()
      modifies this
      ensures Valid()
      ensures ok <==> len <= |old(Rest())|
      ensures ok ==> word == old(Rest())[..len] && Rest() == old(Rest())[len..]
    {
      word := [];
      var i := 0;
      while i < len
        invariant 0 <= i <= len
        invariant Valid()
        invariant i <= |old(Rest())|
        invariant word == old(Rest())[..i] && Rest() == old(Rest())[i..]
      {
        var bit;
        ok, bit := GetBit();
        if !ok {
          return;
        }
        word := word + [bit];
        i := i + 1;
      }
      ok := true;
    }

    /** Reads a field of len bits as a number. */
    method Get(len: nat) returns (ok: bool, data: nat)
      requires Valid()
      modifies this
      ensures Valid()
      ensures ok <==> len <= |old(Rest())|
      ensures ok ==> data == ValueOf(old(Rest())[..len]) && Rest() == old(Rest())[len..]
    {
      data := 0;
      var i := 0;
      while i < len
        invariant 0 <= i <= len
        invariant Valid()
        invariant i <= |old(Rest())|
        invariant data == ValueOf(old(Rest())[..i]) && Rest() == old(Rest())[i..]
      {
        var bit;
        ok, bit := GetBit();
        if !ok {
          return;
        }
        assert old(Rest())[..i + 1] == old(Rest())[..i] + [bit];
        ValueOfSnoc(old(Rest())[..i], bit);
        data := data + if bit then Pow2(i) else 0;
        i := i + 1;
      }
      ok := true;
    }
  }
}
