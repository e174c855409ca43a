/** Decompressing a whole stream at once, from one buffer into another. */
module WholeInflate {
  import opened Bytes
  import opened Bits
  import opened Tokens
  import opened Reference
  import opened DecodeRuns
  import opened BitReader
  import opened OutWindow
  import I = Inflator
  import Adler32

  /** The output buffer is flat. */
  function FlatBuffer(zlib: bool): Config {
    Config(zlib, true)
  }

  /** The bytes are a stream that decompresses to this text, with a wrapper whose check value is right, or
      without one. What follows the stream is not looked at. */
  ghost predicate Inflates(zlib: bool, bytes: seq<byte>, text: seq<byte>) {
    exists end: State :: EndsWith(zlib, bytes, end, text)
  }

  ghost predicate EndsWith(zlib: bool, bytes: seq<byte>, end: State, text: seq<byte>) {
    end.pc.Done? && end.out == text && ReachesEnd(zlib, bytes, end) && (zlib ==> CheckIs(end.pc.check, text))
  }

  ghost predicate ReachesEnd(zlib: bool, bytes: seq<byte>, end: State) {
    Reaches(FlatBuffer(zlib), ByteBits(bytes), Reference.Start(FlatBuffer(zlib)), end)
  }

  /** The trailer is the Adler-32 of the text. */
  ghost predicate CheckIs(check: seq<byte>, text: seq<byte>) {
    I.Shifted(check) == Adler32.Pack(Adler32.Checksum(Adler32.Unpack(1), text))
  }

  lemma InflatesOnce(zlib: bool, bytes: seq<byte>, a: seq<byte>, b: seq<byte>)
    requires Inflates(zlib, bytes, a) && Inflates(zlib, bytes, b)
    ensures a == b
  {
    hide ReachesEnd, CheckIs;
    var s: State :| EndsWith(zlib, bytes, s, a);
    var t: State :| EndsWith(zlib, bytes, t, b);
    OneEnd(zlib, bytes, s, t);
  }

  lemma OneEnd(zlib: bool, bytes: seq<byte>, s: State, t: State)
    requires Ended(s) && ReachesEnd(zlib, bytes, s) && Ended(t) && ReachesEnd(zlib, bytes, t)
    ensures s == t
  {
    hide Reaches, Step, ByteBits;
    EndedStops(FlatBuffer(zlib), ByteBits(bytes), s);
    EndedStops(FlatBuffer(zlib), ByteBits(bytes), t);
    StuckUnique(FlatBuffer(zlib), ByteBits(bytes), Reference.Start(FlatBuffer(zlib)), s, t);
  }

  lemma InflatesDecided(zlib: bool, bytes: seq<byte>, text: seq<byte>)
    requires Inflates(zlib, bytes, text)
    ensures Decided(FlatBuffer(zlib), ByteBits(bytes))
  {
    hide Reaches, ByteBits, CheckIs;
    var end: State :| EndsWith(zlib, bytes, end, text);
  }

  /** tinfl_decompress with a fresh decompressor, all input and a flat buffer: it is done exactly if the
      stream inflates to a text that fits, lacks room only if the text is longer, and fails only if the
      stream inflates to no text. */
  method Inflate(zlib: bool, src: array<byte>, first: nat, outBuf: array<byte>, outLen: nat)
    returns (status: I.Status, inSize: nat, outSize: nat)
    requires first <= src.Length && outLen <= outBuf.Length && outBuf != src
             && Decided(FlatBuffer(zlib), ByteBits(src[first..]))
    modifies outBuf
    ensures first + inSize <= src.Length && outSize <= outLen
    ensures status.Finished? || status.HasMoreOutput? || status.Failure? || status.AdlerMismatch?
    ensures status.Finished? ==> Inflates(zlib, src[first..], outBuf[..outSize])
    ensures status.HasMoreOutput? ==>
              outSize == outLen && forall text :: Inflates(zlib, src[first..], text) ==> |text| > outLen
    ensures status.Failure? || status.AdlerMismatch? ==> forall text :: !Inflates(zlib, src[first..], text)
  {
    hide *;
    FlatBufferIs(zlib);
    ghost var bytes := src[first..];
    var d := new I.Tinfl(zlib, true, outBuf, ByteBits(bytes));
    AtFirst(d, src, first, outBuf, outLen);
    status, inSize, outSize := d.Decompress(src, first, outBuf, 0, outLen, false);
    assert [] + outBuf[0..outSize] == outBuf[..outSize];
    assert src[first..] == bytes;
    AtLast(d, status, bytes, inSize, outLen);
    WhatItMeans(d, status, bytes, outLen);
  }

  lemma FlatBufferIs(zlib: bool)
    ensures FlatBuffer(zlib) == Config(zlib, true)
  {
  }

  lemma AtFirst(d: I.Tinfl, src: array<byte>, first: nat, outBuf: array<byte>, outLen: nat)
    requires d.input.base == [] && d.output.out == [] && d.output.flat && outLen <= outBuf.Length && first <= src.Length
    ensures d.ReceivedWith(src, first) == ByteBits(src[first..]) && d.RoomOk(outBuf, 0, outLen)
  {
    hide ByteBits;
    assert d.input.base + src[first..] == src[first..];
  }

  /** The decompressor has seen all bytes, and its output fills the buffer from the start. */
  lemma AtLast(d: I.Tinfl, status: I.Status, bytes: seq<byte>, inSize: nat, outLen: nat)
    requires d.Inv() && d.Idle() && d.output.flat && inSize <= |bytes| && d.input.base == bytes[..inSize]
             && d.full == ByteBits(bytes)
    ensures inSize == |bytes| ==> d.input.Received() == d.full
    ensures d.output.cur == |d.output.out| && d.Cfg() == FlatBuffer(d.zlib)
  {
    hide d.Rel, Mirrors, ByteBits;
    assert d.input.all == d.input.base;
  }

  lemma WhatItMeans(d: I.Tinfl, status: I.Status, bytes: seq<byte>, outLen: nat)
    requires d.Inv() && d.Means(status) && d.full == ByteBits(bytes) && d.Cfg() == FlatBuffer(d.zlib)
             && !status.NeedsMoreInput?
    requires d.output.cur <= outLen == d.output.end && d.output.cur == |d.output.out|
    requires status.CannotProgress? ==> d.input.Received() == d.full
    requires status.Finished? ==> d.live
    requires status.AdlerMismatch? ==> d.s.pc.Done? && !d.Matches()
    ensures !status.CannotProgress?
    ensures status.Finished? ==> Inflates(d.zlib, bytes, d.output.out)
    ensures status.HasMoreOutput? ==>
              d.output.cur == outLen && forall text :: Inflates(d.zlib, bytes, text) ==> |text| > outLen
    ensures status.Failure? || status.AdlerMismatch? ==> forall text :: !Inflates(d.zlib, bytes, text)
  {
    hide Reaches, Step, ByteBits, Decided, Mirrors, d.Rel, d.input.Holds, d.output.Holds, I.Shifted, Adler32.Pack,
         Adler32.Unpack, Adler32.Checksum;
    var cfg := FlatBuffer(d.zlib);
    if status.CannotProgress? {
      OnlyEnd(cfg, d.full, d.s);
      EndedStops(cfg, d.full, d.s);
      assert false;
    } else if status.Finished? {
      assert EndsWith(d.zlib, bytes, d.s, d.output.out);
    } else {
      forall text: seq<byte> | Inflates(d.zlib, bytes, text)
        ensures status.HasMoreOutput? && |text| > outLen
      {
        var end: State :| EndsWith(d.zlib, bytes, end, text);
        if status.HasMoreOutput? {
          OutputGrows(cfg, d.full, d.s, end);
        } else {
          OneEnd(d.zlib, bytes, d.s, end);
          assert false;
        }
      }
    }
  }
}
