/** What the decompressor promises over a whole stream, however it is cut into calls. */
module StreamTheorems {
  import opened Bytes
  import opened Bits
  import opened Tokens
  import opened Reference
  import opened BlockHeaders
  import opened FlushParts
  import opened FlushMeaning
  import opened StreamMeaning
  import opened DecodeRuns
  import opened InflateSteps
  import opened BitReader
  import opened OutWindow
  import I = Inflator
  import W = WholeInflate
  import C = Compressor
  import Adler32

  /** The stream position is 8 * bytes consumed - m_num_bits, and m_bit_buf holds the m_num_bits bits
      of the stream from there; between two calls that is less than a byte, or all that is there of the
      item waited for. */
  lemma BitPosition(d: I.Tinfl)
    requires d.Inv()
    ensures d.s.pos == 8 * (|d.input.base| + d.input.inCur - d.input.inNext) - d.input.numBits
    ensures d.s.pos + d.input.numBits <= |d.full|
    ensures BitsOf(d.input.bitBuf, d.input.numBits) == d.full[d.s.pos..d.s.pos + d.input.numBits]
    ensures d.Idle() ==> d.input.numBits < 8 || Step(d.Cfg(), d.input.Received(), d.s) == Starved
  {
    hide d.Rel, Mirrors, Reaches, Decided, Pow2, BitsOf, ByteBits, Step;
    if d.Idle() { assert d.input.all == d.input.base; }
    var part, p, n := d.input.Received(), d.s.pos, d.input.numBits;
    assert part == d.full[..|part|];
    assert part[p..p + n] == d.full[p..p + n];
  }

  /** Whatever data lies behind the stream, of the bytes received exactly those of the stream are consumed:
      two decompressors that have come to its end have consumed the same bytes. */
  lemma ConsumedExactly(a: I.Tinfl, b: I.Tinfl)
    requires a.Inv() && b.Inv() && a.Idle() && b.Idle() && a.full == b.full && a.Cfg() == b.Cfg()
    requires a.s.pc.Done? && Ended(b.s)
    ensures 8 * |a.input.base| == a.s.pos && a.input.base == b.input.base && a.input.numBits == 0
  {
    hide a.Rel, b.Rel, Mirrors, Reaches, Pow2, BitsOf, Decided, Step, ByteBits, a.input.Holds, b.input.Holds;
    StreamingIsOneShot(a, b);
    EndedStops(a.Cfg(), a.full, a.s);
    EndedStops(b.Cfg(), b.full, b.s);
    StuckUnique(a.Cfg(), a.full, Reference.Start(a.Cfg()), a.s, b.s);
    a.ConsumedAtEnd();
    b.ConsumedAtEnd();
    var n := a.s.pos;
    assert ByteBits(a.input.base) == a.full[..n] == ByteBits(b.input.base);
    SameBytes(a.input.base, b.input.base);
  }

  /** Two decompressors that were given the same stream, in whatever pieces, and have come to its end
      have produced the same bytes and stand at the same position. */
  lemma StreamingIsOneShot(a: I.Tinfl, b: I.Tinfl)
    requires a.Inv() && b.Inv() && a.full == b.full && a.Cfg() == b.Cfg() && Ended(a.s) && Ended(b.s)
    ensures a.output.out == b.output.out && a.input.Pos() == b.input.Pos() && a.point == b.point
    ensures a.zlib && a.s.pc.Done? ==> a.zAdler == b.zAdler
  {
    hide a.Rel, b.Rel, Mirrors, Reaches, Pow2, BitsOf, ByteBits, Decided, Step, a.input.Holds, b.input.Holds, I.Shifted;
    EndedStops(a.Cfg(), a.full, a.s);
    EndedStops(b.Cfg(), b.full, b.s);
    StuckUnique(a.Cfg(), a.full, Reference.Start(a.Cfg()), a.s, b.s);
    EndPoint(a);
    EndPoint(b);
  }

  lemma EndPoint(a: I.Tinfl)
    requires a.Inv() && Ended(a.s)
    ensures a.point == if a.s.pc.Done? then I.AtEnd else I.Rejected
    ensures a.s.pc.Done? && a.zlib ==> a.zAdler == I.Shifted(a.s.pc.check)
  {
    hide a.input.Holds, a.output.Holds, a.Behind, a.input.Received, a.Ready, a.Receiving, I.Shifted, LENGTH_BASE,
         LENGTH_EXTRA, DIST_BASE, DIST_EXTRA;
  }

  /** The same where both wait for more of the stream after the same first bytes. */
  lemma WaitingIsTheSame(a: I.Tinfl, b: I.Tinfl)
    requires a.Inv() && b.Inv() && a.full == b.full && a.Cfg() == b.Cfg() && a.input.Received() == b.input.Received()
    requires Step(a.Cfg(), a.input.Received(), a.s) == Starved && Step(b.Cfg(), b.input.Received(), b.s) == Starved
    ensures a.s == b.s && a.output.out == b.output.out && a.input.Pos() == b.input.Pos()
  {
    hide a.Rel, b.Rel, Mirrors, Reaches, Pow2, BitsOf, Decided, Step, ByteBits;
    var n := |a.input.Received()|;
    assert a.full[..n] == a.input.Received();
    SameSuspension(a.Cfg(), a.full, n, a.s, b.s);
  }

  // ---- flat buffer and window

  /** Where the window neither rejects nor loses track, the flat buffer does the same. */
  lemma StepFlat(bits: Bits, z: bool, s: State)
    requires var r := Step(Config(z, false), bits, s); r.Next? && !r.s.pc.Failed? && !r.s.pc.Unspecified?
    ensures Step(Config(z, true), bits, s) == Step(Config(z, false), bits, s)
  {
    hide GetBits, GetByte, DecodeSym, Unzigzag, StaticLit, StaticDist, Reference.Accepted;
  }

  lemma {:induction false} IterFlat(bits: Bits, z: bool, s: State, n: nat)
    requires var t := Iter(Config(z, false), bits, s, n); !t.pc.Failed? && !t.pc.Unspecified?
    ensures Reaches(Config(z, true), bits, s, Iter(Config(z, false), bits, s, n))
    decreases n
  {
    hide Step, Reaches;
    var w, f := Config(z, false), Config(z, true);
    if n == 0 || !Step(w, bits, s).Next? {
      ReachesSelf(f, bits, s);
    } else {
      var t := Step(w, bits, s).s;
      FailedStays(w, bits, t, n - 1);
      StepFlat(bits, z, s);
      ReachesStep(f, bits, s, t);
      IterFlat(bits, z, t, n - 1);
      ReachesTrans(f, bits, s, t, Iter(w, bits, s, n));
    }
  }

  lemma FailedStays(cfg: Config, bits: Bits, t: State, k: nat)
    ensures t.pc.Failed? || t.pc.Unspecified? ==> Iter(cfg, bits, t, k) == t
  {
    hide Step, Iter;
    if t.pc.Failed? || t.pc.Unspecified? {
      EndedStops(cfg, bits, t);
      IterStuck(cfg, bits, t, k);
    }
  }

  /** Window decoding of an accepted stream gives the bytes of flat decoding, and the flat decoder
      stops at the same position with the same trailer. */
  lemma WindowIsFlat(w: I.Tinfl, f: I.Tinfl)
    requires w.Inv() && f.Inv() && w.full == f.full && w.zlib == f.zlib && !w.output.flat && f.output.flat
    requires w.s.pc.Done? && Ended(f.s)
    ensures w.output.out == f.output.out && f.s == w.s
  {
    hide w.Rel, f.Rel, Mirrors, Reaches, Pow2, BitsOf, ByteBits, Decided, Step, w.input.Holds, f.input.Holds;
    FlatReaches(w.full, w.zlib, w.s);
    EndedStops(f.Cfg(), f.full, f.s);
    EndedStops(f.Cfg(), f.full, w.s);
    StuckUnique(f.Cfg(), f.full, Reference.Start(f.Cfg()), w.s, f.s);
  }

  lemma FlatReaches(bits: Bits, z: bool, s: State)
    requires Reaches(Config(z, false), bits, Reference.Start(Config(z, false)), s) && s.pc.Done?
    ensures Reaches(Config(z, true), bits, Reference.Start(Config(z, true)), s)
  {
    hide Iter;
    var n: nat :| Iter(Config(z, false), bits, Reference.Start(Config(z, false)), n) == s;
    IterFlat(bits, z, Reference.Start(Config(z, false)), n);
  }

  /** Failing, or losing track, a step gives no output. */
  lemma NoOutputLeft(bits: Bits, z: bool, s: State)
    requires var r := Step(Config(z, false), bits, s); r.Next? && (r.s.pc.Failed? || r.s.pc.Unspecified?)
    ensures Step(Config(z, false), bits, s).s.out == s.out
  {
    hide GetBits, GetByte, DecodeSym, Unzigzag, StaticLit, StaticDist, Reference.Accepted;
  }

  /** Whatever window decoding has produced, flat decoding produces on its way. */
  lemma {:induction false} FlatWitness(bits: Bits, z: bool, s: State, n: nat) returns (u: State)
    ensures Reaches(Config(z, true), bits, s, u) && u.out == Iter(Config(z, false), bits, s, n).out
    decreases n
  {
    hide Step, Reaches;
    var w, f := Config(z, false), Config(z, true);
    ReachesSelf(f, bits, s);
    u := s;
    if n > 0 && Step(w, bits, s).Next? {
      var t := Step(w, bits, s).s;
      if t.pc.Failed? || t.pc.Unspecified? {
        NoOutputLeft(bits, z, s);
        FailedStays(w, bits, t, n - 1);
      } else {
        StepFlat(bits, z, s);
        ReachesStep(f, bits, s, t);
        u := FlatWitness(bits, z, t, n - 1);
        ReachesTrans(f, bits, s, t, u);
      }
    }
  }

  /** At any time, what window decoding has produced begins what flat decoding ends with. */
  lemma WindowBeginsFlat(w: I.Tinfl, f: I.Tinfl)
    requires w.Inv() && f.Inv() && w.full == f.full && w.zlib == f.zlib && !w.output.flat && f.output.flat && Ended(f.s)
    ensures w.output.out <= f.output.out
  {
    hide w.Rel, f.Rel, Mirrors, Iter, Pow2, BitsOf, ByteBits, Decided, Step, w.input.Holds, f.input.Holds;
    var start := Reference.Start(w.Cfg());
    var n: nat :| Iter(w.Cfg(), w.full, start, n) == w.s;
    var u := FlatWitness(w.full, w.zlib, start, n);
    OutputGrows(f.Cfg(), f.full, u, f.s);
  }

  // ---- compressor and decompressor

  /** A finished stream is one the decompressor decides, whatever kind of buffer it has. */
  lemma CompressedDecided(c: C.Tdefl, flat: bool)
    requires c.RunOk() && c.finished
    ensures Decided(Config(c.opts.zlib, flat), ByteBits(c.sink))
  {
    hide Reaches, Adler32.Checksum, Adler32.Pack, Adler32.Unpack, ByteBits, BigEndian, c.w.Valid;
    StreamSize(c.w);
    var t := C.Finished(c.opts.zlib, c.w.Stream(), c.d.src, c.adler);
    assert Brings(c.opts.zlib, flat, ByteBits(c.sink), t);
  }

  lemma {:induction false} ShiftedBigEndian(a: nat)
    requires a < 0x1_0000_0000
    ensures I.Shifted(BigEndian(a)) == a
  {
    var b := BigEndian(a);
    assert b[..4] == b && b[..3][..2] == b[..2] && b[..2][..1] == b[..1] && b[..1][..0] == [];
    assert b[..3] == [b[0], b[1], b[2]] && b[..2] == [b[0], b[1]] && b[..1] == [b[0]];
    var x: nat, y: nat, z: nat := b[0], b[1], b[2];
    assert I.Shifted([]) == 1;
    assert I.Shifted(b[..1]) == 256 + x;
    assert I.Shifted(b[..2]) == 65536 + 256 * x + y;
    assert I.Shifted(b[..3]) == 16777216 + 65536 * x + 256 * y + z;
    var b3, b2, b1, b0 := FourBytes(a);
    BigEndianIs(a, b3, b2, b1, b0);
  }

  /** Decompressing what the compressor's callback received, in pieces of any size and into room of any
      size, gives back the input of the compressor; the check value agrees. */
  lemma CompressThenDecompress(c: C.Tdefl, d: I.Tinfl)
    requires c.RunOk() && c.finished
    requires d.Inv() && d.full == ByteBits(c.sink) && d.zlib == c.opts.zlib && Ended(d.s)
    ensures d.s.pc.Done? && d.output.out == c.d.src && d.input.Pos() == 8 * |c.sink|
    ensures d.zlib ==> d.zAdler == Adler32.Pack(Adler32.Checksum(Adler32.Unpack(1), d.output.out))
  {
    hide d.Rel, Mirrors, Reaches, Step, Decided, d.input.Holds, Adler32.Checksum, Adler32.Pack, Adler32.Unpack,
         ByteBits, BigEndian, c.w.Valid, I.Shifted;
    EndedStops(d.Cfg(), d.full, d.s);
    c.Lossless(d.output.flat, d.s);
    EndPoint(d);
    if d.zlib {
      ShiftedBigEndian(c.adler);
    }
  }

  /** What the compressor wrote inflates, all at once and with the check, to the compressor's input. */
  lemma CompressedInflates(c: C.Tdefl)
    requires c.RunOk() && c.finished
    ensures W.Inflates(c.opts.zlib, c.sink, c.d.src)
  {
    hide Reaches, Adler32.Checksum, Adler32.Pack, Adler32.Unpack, ByteBits, BigEndian, c.w.Valid, I.Shifted;
    var t := C.Finished(c.opts.zlib, c.w.Stream(), c.d.src, c.adler);
    assert Brings(c.opts.zlib, true, ByteBits(c.sink), t);
    if c.opts.zlib {
      ShiftedBigEndian(c.adler);
    }
    assert W.EndsWith(c.opts.zlib, c.sink, t, c.d.src);
  }

  // ---- flushes

  /** Where a flush leaves a decompressor that gets no more: in front of the next block. */
  function AtFlush(sink: seq<byte>, src: seq<byte>): State {
    State(Head, 8 * |sink|, src)
  }

  lemma FlushStarved(cfg: Config, sink: seq<byte>, src: seq<byte>)
    ensures Step(cfg, ByteBits(sink), AtFlush(sink, src)) == Starved
  {
    hide ByteBits;
  }

  /** A decompressor that has received what the callback got up to a flush, and waits for more, has put out
      everything compressed up to the flush and stands in front of a block. */
  lemma FlushedOut(c: C.Tdefl, d: I.Tinfl)
    requires c.Flushed() && d.Inv() && d.zlib == c.opts.zlib
    requires d.input.Received() == ByteBits(c.sink) && Step(d.Cfg(), d.input.Received(), d.s) == Starved
    ensures d.output.out == c.d.src && d.s == AtFlush(c.sink, c.d.src) && d.input.Pos() == 8 * |c.sink|
  {
    hide d.Rel, Mirrors, Reaches, Decided, Step, ByteBits, Pow2, BitsOf, Marked;
    var t, n := AtFlush(c.sink, c.d.src), 8 * |c.sink|;
    assert Brings(c.opts.zlib, d.output.flat, d.full, t);
    assert d.full[..n] == ByteBits(c.sink);
    FlushStarved(d.Cfg(), c.sink, c.d.src);
    SameSuspension(d.Cfg(), d.full, n, d.s, t);
  }

  /** With more than that received, it has put out at least as much. */
  lemma FlushedReached(c: C.Tdefl, d: I.Tinfl)
    requires c.Flushed() && d.Inv() && d.zlib == c.opts.zlib
    requires ByteBits(c.sink) <= d.input.Received() && Step(d.Cfg(), d.input.Received(), d.s) == Starved
    ensures c.d.src <= d.output.out
  {
    hide d.Rel, Mirrors, Iter, Decided, Step, ByteBits, Pow2, BitsOf, Marked;
    var t, cfg, part := AtFlush(c.sink, c.d.src), d.Cfg(), d.input.Received();
    assert Brings(c.opts.zlib, d.output.flat, part, t);
    assert d.full[..|part|] == part;
    ReachedEarly(cfg, d.full, |part|, d.s);
    WaitsLast(cfg, part, t, d.s);
  }

  /** A state that waits comes after every other. */
  lemma WaitsLast(cfg: Config, part: Bits, t: State, s: State)
    requires Reaches(cfg, part, Reference.Start(cfg), t) && Reaches(cfg, part, Reference.Start(cfg), s)
    requires !Step(cfg, part, s).Next?
    ensures t.out <= s.out
  {
    hide Iter, Step;
    var start := Reference.Start(cfg);
    var a: nat :| Iter(cfg, part, start, a) == t;
    var b: nat :| Iter(cfg, part, start, b) == s;
    if a <= b {
      IterAdd(cfg, part, start, a, b - a);
      IterGrows(cfg, part, t, b - a);
    } else {
      IterAdd(cfg, part, start, b, a - b);
      IterStuck(cfg, part, s, a - b);
    }
  }

  lemma SinkBehind(c: C.Tdefl)
    requires c.w.Valid() && c.sink == c.w.written && c.w.bitsIn == 0 && 8 * c.cut <= |c.w.Stream()|
    ensures c.cut <= |c.sink| && Behind(c.w.Stream(), c.cut) == ByteBits(c.sink[c.cut..])
  {
    hide ByteBits, c.w.Valid;
    StreamSize(c.w);
    ByteBitsConcat(c.sink[..c.cut], c.sink[c.cut..]);
    assert c.sink == c.sink[..c.cut] + c.sink[c.cut..];
  }

  /** A full flush starts the stream afresh: what the callback gets from there on, up to any later flush,
      stands on its own, without wrapper and earlier output, for what was compressed from there on. */
  lemma RestartFlushed(c: C.Tdefl)
    requires c.RunOk() && !c.finished && c.restarted && c.Flushed()
    ensures c.cut <= |c.sink| && c.horizon <= |c.d.src|
    ensures Encodes(false, ByteBits(c.sink[c.cut..]), c.d.src[c.horizon..])
  {
    hide Encodes, ByteBits, Marked, c.d.Valid, c.w.Valid, c.codes.Holds, c.ParseOk, c.StreamOk, Adler32.Checksum,
         Adler32.Pack,
         Adler32.Unpack, Behind;
    SinkBehind(c);
    assert c.d.src[c.horizon..c.dictPos] == c.d.src[c.horizon..];
  }

  /** And up to the end of the stream. */
  lemma RestartInflates(c: C.Tdefl)
    requires c.RunOk() && c.finished && c.restarted
    ensures c.cut <= |c.sink| && W.Inflates(false, c.sink[c.cut..], c.d.src[c.horizon..])
  {
    hide Reaches, ByteBits, c.w.Valid, Adler32.Checksum, Adler32.Pack, Adler32.Unpack, Behind;
    SinkBehind(c);
    var rest, out := ByteBits(c.sink[c.cut..]), c.d.src[c.horizon..];
    var p: nat :| Leads(false, rest, State(Done([]), p, out));
    assert Brings(false, true, rest, State(Done([]), p, out));
    assert W.EndsWith(false, c.sink[c.cut..], State(Done([]), p, out), out);
  }
}
