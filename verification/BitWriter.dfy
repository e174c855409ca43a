/** TDEFL_PUT_BITS: the bit buffer and the output buffer of the compressor. */
module BitWriter {
  import opened Bytes
  import opened Bits

  /** The first eight bits of a buffer value as a byte. */
  lemma SplitLow(v: nat, n: nat)
    requires n >= 8 && v < Pow2(n)
    ensures BitsOf(v, n) == BitsOf(v % 256, 8) + BitsOf(v / 256, n - 8)
    ensures v / 256 < Pow2(n - 8)
  {
    hide BitsOf, Pow2, ValueOf;
    ValueOfBitsOf(v, n);
    var b := BitsOf(v, n);
    EightBits();
    MaskAndShift(b, 8);
    BitsOfValueOf(b[..8]);
    BitsOfValueOf(b[8..]);
    ValueBound(b[8..]);
    assert b == b[..8] + b[8..];
  }

  lemma EightBits()
    ensures Pow2(8) == 256
  {
    assert Pow2(4) == 16;
  }

  /** Or-ing a value into the buffer appends its bits. */
  lemma OrIn(v: nat, n: nat, b: nat, len: nat)
    requires v < Pow2(n) && b < Pow2(len)
    ensures v + b * Pow2(n) < Pow2(n + len)
    ensures BitsOf(v + b * Pow2(n), n + len) == BitsOf(v, n) + BitsOf(b, len)
  {
    hide BitsOf, Pow2, ValueOf;
    var x, y := BitsOf(v, n), BitsOf(b, len);
    ValueOfBitsOf(v, n);
    AppendValue(x, b, len);
    MulSwap(b, Pow2(n));
    ValueBound(x + y);
    BitsOfValueOf(x + y);
  }

  lemma MulSwap(a: nat, b: nat)
    ensures a * b == b * a
  {
  }

  function Min(a: int, b: int): int {
    if a < b then a else b
  }

  /** The lowest byte of the bit buffer becomes the last byte of the output. */
  lemma LowByteOut(written: seq<byte>, v: nat, n: nat)
    requires n >= 8 && v < Pow2(n)
    ensures v / 256 < Pow2(n - 8)
    ensures ByteBits(written) + BitsOf(v, n) == ByteBits(written + [v % 256]) + BitsOf(v / 256, n - 8)
  {
    hide Pow2, BitsOf, ByteBits;
    SplitLow(v, n);
    ByteBitsSnoc(written, v % 256);
    var w, hi, lo := ByteBits(written), BitsOf(v / 256, n - 8), BitsOf(v % 256, 8);
    assert w + (lo + hi) == (w + lo) + hi;
  }

  class Writer {
    var buf: array<byte>
    var cur: nat
    var end: nat
    var bitBuffer: nat
    var bitsIn: nat
    /** Every byte emitted, also those the full buffer dropped. */
    ghost var written: seq<byte>
    /** Where the current buffer starts, in the buffer and in the written bytes. */
    ghost var start: nat
    ghost var from: nat

    ghost predicate BufferOk()
      reads this`buf, this`start, this`cur, this`end, this`from, this`written, buf
    {
      && start <= cur <= end <= buf.Length && from <= |written|
      && cur - start == Min(|written| - from, end - start)
      && buf[start..cur] == written[from..from + (cur - start)]
    }

    ghost predicate Valid()
      reads this, buf
    {
      BufferOk() && bitsIn < 8 && bitBuffer < Pow2(bitsIn)
    }

    /** All bits put so far. */
    ghost function Stream(): Bits
      reads this
    {
      ByteBits(written) + BitsOf(bitBuffer, bitsIn)
    }

    /** Nothing was dropped since the buffer was set. */
    ghost predicate Intact()
      reads this, buf
    {
      start <= cur <= buf.Length && from <= |written| && buf[start..cur] == written[from..]
    }

    constructor (b: array<byte>)
      ensures Valid() && written == [] && bitsIn == 0 && buf == b && cur == 0 && end == 0
    {
      buf, cur, end, bitBuffer, bitsIn := b, 0, 0, 0, 0;
      written, start, from := [], 0, 0;
    }

    /** Starts a new output buffer. */
    method SetBuffer(b: array<byte>, first: nat, last: nat)
      requires Valid() && first <= last <= b.Length
      modifies this
      ensures Valid() && Stream() == old(Stream()) && written == old(written) && from == |written|
      ensures buf == b && cur == first == start && end == last
      ensures bitsIn == old(bitsIn) && bitBuffer == old(bitBuffer)
    {
      buf, cur, end := b, first, last;
      start, from := first, |written|;
    }

    /** The bytes since the buffer was set are all there as long as the end was not reached. */
    lemma NotFull()
      requires Valid() && cur < end
      ensures Intact()
    {
    }

    method EmitByte(c: byte)
      requires BufferOk()
      modifies this`cur, this`written, buf
      ensures BufferOk() && written == old(written) + [c]
      ensures cur == old(cur) + if old(cur) < end then 1 else 0
    {
      ghost var kept, w := buf[start..cur], written;
      if cur < end {
        buf[cur] := c;
        cur := cur + 1;
        assert buf[start..cur] == kept + [c];
      }
      written := written + [c];
      assert written[from..from + (cur - start)] == if |w| - from < end - start then w[from..] + [c]
             else w[from..from + (cur - start)];
    }

    method PutBits(b: nat, len: nat)
      requires Valid() && len <= 16 && b < Pow2(len)
      modifies this`cur, this`written, this`bitBuffer, this`bitsIn, buf
      ensures Valid() && Stream() == old(Stream()) + BitsOf(b, len)
      ensures old(written) <= written
    {
      hide Pow2, BitsOf, ByteBits, BufferOk;
      OrIn(bitBuffer, bitsIn, b, len);
      ghost var target := old(Stream()) + BitsOf(b, len);
      bitBuffer := bitBuffer + b * Pow2(bitsIn);
      bitsIn := bitsIn + len;
      assert ByteBits(written) + (BitsOf(old(bitBuffer), old(bitsIn)) + BitsOf(b, len)) == target;
      while bitsIn >= 8
        invariant BufferOk() && bitBuffer < Pow2(bitsIn)
        invariant ByteBits(written) + BitsOf(bitBuffer, bitsIn) == target
        invariant old(written) <= written
        decreases bitsIn
      {
        LowByteOut(written, bitBuffer, bitsIn);
        EmitByte(bitBuffer % 256);
        bitBuffer := bitBuffer / 256;
        bitsIn := bitsIn - 8;
      }
    }

    /** The point described by a write position and the bytes written was one of this buffer. */
    ghost predicate Point(savedCur: nat, savedWritten: seq<byte>)
      reads this`start, this`from, this`end
    {
      from <= |savedWritten| && savedCur >= start && savedCur - start == Min(|savedWritten| - from, end - start)
    }

    /** Forgets everything since a saved point of the same buffer. */
    method Rewind(savedCur: nat, savedBits: nat, savedIn: nat, ghost savedWritten: seq<byte>)
      requires Valid() && savedIn < 8 && savedBits < Pow2(savedIn) && Point(savedCur, savedWritten)
               && savedWritten <= written
      modifies this`cur, this`written, this`bitBuffer, this`bitsIn
      ensures Valid() && cur == savedCur && written == savedWritten
              && Stream() == ByteBits(savedWritten) + BitsOf(savedBits, savedIn)
    {
      hide Pow2, ByteBits, BitsOf;
      ghost var all, n := buf[start..cur], savedCur - start;
      assert savedCur <= cur;
      assert buf[start..savedCur] == all[..n];
      assert written[from..from + (cur - start)][..n] == savedWritten[from..from + n];
      cur, bitBuffer, bitsIn := savedCur, savedBits, savedIn;
      written := savedWritten;
    }
  }
}
