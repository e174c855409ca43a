/** The input side of tinfl_decompress: input buffer and bit buffer, TINFL_GET_BYTE, TINFL_NEED_BITS,
    TINFL_SKIP_BITS, TINFL_GET_BITS, and putting bytes back. */
module BitReader {
  import opened Bytes
  import opened Bits
  import opened BitWriter
  import Reference

  lemma {:induction false} ByteBitsAt(all: seq<byte>, k: nat)
    requires k < |all|
    ensures ByteBits(all)[8 * k..8 * k + 8] == BitsOf(all[k], 8)
    decreases |all|
  {
    hide BitsOf;
    var r := all[..|all| - 1];
    if k < |r| {
      ByteBitsAt(r, k);
      assert ByteBits(all)[8 * k..8 * k + 8] == ByteBits(r)[8 * k..8 * k + 8];
    }
  }

  /** Taking n bits off a buffer that holds x. */
  lemma TakeBits(v: nat, m: nat, n: nat)
    requires n <= m && v < Pow2(m)
    ensures v % Pow2(n) == ValueOf(BitsOf(v, m)[..n]) < Pow2(n)
    ensures v / Pow2(n) < Pow2(m - n) && BitsOf(v / Pow2(n), m - n) == BitsOf(v, m)[n..]
  {
    hide BitsOf, Pow2, ValueOf;
    var x := BitsOf(v, m);
    ValueOfBitsOf(v, m);
    MaskAndShift(x, n);
    ValueBound(x[..n]);
    ValueBound(x[n..]);
    BitsOfValueOf(x[n..]);
  }

  /** Forgetting the bits above m. */
  lemma KeepBits(v: nat, m: nat, n: nat)
    requires n <= m && v < Pow2(m)
    ensures v % Pow2(n) < Pow2(n) && BitsOf(v % Pow2(n), n) == BitsOf(v, m)[..n]
  {
    hide BitsOf, Pow2, ValueOf;
    TakeBits(v, m, n);
    BitsOfValueOf(BitsOf(v, m)[..n]);
  }

  class BitSource {
    var inBuf: array<byte>
    var inNext: nat
    var inCur: nat
    var numBits: nat
    var bitBuf: nat
    /** The bytes consumed by earlier calls, and all bytes received up to the end of this input buffer. */
    ghost var base: seq<byte>
    ghost var all: seq<byte>

    ghost function Received(): Bits
      reads this`all
    {
      ByteBits(all)
    }

    /** Bits of the bytes consumed so far. */
    ghost function Seen(): int
      reads this`base, this`inCur, this`inNext
    {
      8 * (|base| + inCur - inNext)
    }

    /** The logical position: 8 * bytes consumed - m_num_bits. */
    ghost function Pos(): int
      reads this`base, this`inCur, this`inNext, this`numBits
    {
      Seen() - numBits
    }

    /** m_bit_buf holds the next m_num_bits bits. */
    ghost predicate Holds()
      reads this, inBuf
    {
      && inNext <= inCur <= inBuf.Length && all == base + inBuf[inNext..]
      && numBits <= 31 && Pos() >= 0
      && bitBuf < Pow2(numBits) && BitsOf(bitBuf, numBits) == Received()[Pos()..Seen()]
    }

    /** Between two calls, when no input is at hand. */
    ghost predicate Idle()
      reads this, inBuf
    {
      Holds() && inCur == inBuf.Length
    }

    constructor (empty: array<byte>)
      requires empty.Length == 0
      ensures Holds() && base == [] && numBits == 0 && inCur == inNext == 0 && inBuf == empty
    {
      inBuf, inNext, inCur, numBits, bitBuf := empty, 0, 0, 0, 0;
      base, all := [], [];
    }

    /** The next input buffer; the bytes consumed so far become the past. */
    method SetInput(buf: array<byte>, first: nat)
      requires Holds() && first <= buf.Length
      modifies this
      ensures Holds() && inBuf == buf && inCur == inNext == first
      ensures base == old(base) + old(inBuf)[old(inNext)..old(inCur)] && all == base + buf[first..]
      ensures Pos() == old(Pos()) && numBits == old(numBits)
    {
      hide Pow2, BitsOf, ByteBits;
      ghost var kept, rest, b := base + inBuf[inNext..inCur], inBuf[inCur..], buf[first..];
      assert all == kept + rest;
      ByteBitsConcat(kept, rest);
      ByteBitsConcat(kept, b);
      assert ByteBits(kept + rest)[Pos()..Seen()] == ByteBits(kept)[Pos()..Seen()] == ByteBits(kept + b)[Pos()..Seen()];
      base := kept;
      inBuf, inNext, inCur := buf, first, first;
      all := base + buf[first..];
    }

    /** Or-ing the next byte above the bits at hand. */
    method LoadByte()
      requires Holds() && inCur < inBuf.Length && numBits <= 23
      modifies this`inCur, this`numBits, this`bitBuf
      ensures Holds() && Pos() == old(Pos()) && numBits == old(numBits) + 8 && inCur == old(inCur) + 1
    {
      hide Pow2, BitsOf, ByteBits;
      var c := inBuf[inCur];
      ghost var k := |base| + inCur - inNext;
      assert all[k] == c;
      ByteBitsAt(all, k);
      EightBits();
      OrIn(bitBuf, numBits, c, 8);
      assert Received()[Pos()..Seen()] + Received()[8 * k..8 * k + 8] == Received()[Pos()..Seen() + 8];
      bitBuf := bitBuf + c * Pow2(numBits);
      inCur := inCur + 1;
      numBits := numBits + 8;
    }

    /** Taking n bits that are at hand. */
    method Take(n: nat) returns (v: nat)
      requires Holds() && n <= numBits
      modifies this`numBits, this`bitBuf
      ensures Holds() && Pos() == old(Pos()) + n && numBits == old(numBits) - n
      ensures Pos() <= |Received()| && v == ValueOf(Received()[old(Pos())..old(Pos()) + n]) && v < Pow2(n)
    {
      hide Pow2, BitsOf, ByteBits, ValueOf;
      TakeBits(bitBuf, numBits, n);
      ghost var x, p := Received()[Pos()..Seen()], Pos();
      assert x[..n] == Received()[p..p + n] && x[n..] == Received()[p + n..Seen()];
      v := bitBuf % Pow2(n);
      bitBuf := bitBuf / Pow2(n);
      numBits := numBits - n;
    }

    /** TINFL_NEED_BITS */
    method NeedBits(n: nat) returns (ok: bool)
      requires Holds() && numBits < n <= 24
      modifies this`inCur, this`numBits, this`bitBuf
      ensures Holds() && Pos() == old(Pos()) && (ok <==> numBits >= n)
      ensures !ok ==> inCur == inBuf.Length
    {
      hide Pow2, BitsOf, ByteBits, Received;
      if inCur >= inBuf.Length {
        return false;
      }
      LoadByte();
      while numBits < n
        invariant Holds() && Pos() == old(Pos())
        decreases inBuf.Length - inCur
      {
        if inCur >= inBuf.Length {
          return false;
        }
        LoadByte();
      }
      ok := true;
    }

    /** TINFL_GET_BITS: fails only if the bits received so far do not suffice. */
    method GetBits(n: nat) returns (ok: bool, v: nat)
      requires Holds() && n <= 24
      modifies this`inCur, this`numBits, this`bitBuf
      ensures Holds() && (!ok ==> inCur == inBuf.Length && Pos() == old(Pos()))
      ensures Reference.GetBits(Received(), old(Pos()), n) == if ok then Reference.Some(v) else Reference.None
      ensures ok ==> Pos() == old(Pos()) + n && v < Pow2(n)
    {
      hide Pow2, BitsOf, ByteBits, ValueOf;
      v := 0;
      ok := true;
      if numBits < n {
        ok := NeedBits(n);
      }
      if ok {
        v := Take(n);
      }
    }

    /** TINFL_GET_BYTE into a variable, when the bit buffer is empty. */
    method GetByte() returns (ok: bool, c: byte)
      requires Holds() && numBits == 0
      modifies this`inCur
      ensures Holds() && numBits == 0 && (!ok ==> inCur == inBuf.Length && Pos() == old(Pos()))
      ensures Reference.GetByte(Received(), old(Pos())) == if ok then Reference.Some(c) else Reference.None
      ensures ok ==> Pos() == old(Pos()) + 8
    {
      hide Pow2, BitsOf, ByteBits, ValueOf;
      c := 0;
      if inCur >= inBuf.Length {
        return false, c;
      }
      c := inBuf[inCur];
      ghost var k := |base| + inCur - inNext;
      assert all[k] == c;
      ByteBitsAt(all, k);
      EightBits();
      ValueOfBitsOf(c, 8);
      inCur := inCur + 1;
      NothingHeld(bitBuf);
      ok := true;
    }

    lemma NothingHeld(v: nat)
      ensures BitsOf(v, 0) == []
    {
    }

    /** TINFL_SKIP_BITS to the next byte boundary, for which no input is needed. */
    method SkipToByte()
      requires Holds()
      modifies this`numBits, this`bitBuf
      ensures Holds() && Pos() == Reference.Align(old(Pos())) >= old(Pos()) && numBits % 8 == 0
    {
      hide Pow2, BitsOf, ByteBits, ValueOf;
      AlignSkips(Seen(), numBits);
      var _ := Take(numBits % 8);
    }

    lemma AlignSkips(seen: nat, n: nat)
      requires seen % 8 == 0 && n <= seen
      ensures Reference.Align(seen - n) == seen - n + n % 8 && (n - n % 8) % 8 == 0
    {
      var k := seen / 8;
      assert (seen - n) % 8 == (8 - n % 8) % 8;
    }

    lemma FrontOf(b: Bits, p: nat, m: nat, n: nat)
      requires n <= m && p + m <= |b|
      ensures b[p..p + m][..n] == b[p..p + n]
    {
    }

    /** Returns whole bytes of the bit buffer to the input of this call. */
    method PutBack()
      requires Holds()
      modifies this`inCur, this`numBits, this`bitBuf
      ensures Holds() && Pos() == old(Pos()) && (numBits < 8 || inCur == inNext) && numBits <= old(numBits)
      ensures numBits % 8 == old(numBits) % 8
    {
      hide Pow2, BitsOf, ByteBits, ValueOf;
      var n := numBits;
      ghost var p := Pos();
      while inCur > inNext && n >= 8
        invariant inNext <= inCur <= old(inCur) <= inBuf.Length && 0 <= n == numBits - 8 * (old(inCur) - inCur)
        invariant numBits == old(numBits) && bitBuf == old(bitBuf)
        decreases n
      {
        inCur := inCur - 1;
        n := n - 8;
      }
      KeepBits(bitBuf, numBits, n);
      FrontOf(Received(), p, numBits, n);
      bitBuf := bitBuf % Pow2(n);
      numBits := n;
    }
  }
}
