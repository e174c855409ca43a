/** A fragment of a compressed text is what the compressor makes with a zlib header, which the reader skips. */
module Fragments {
  import opened Bytes
  import opened Bits
  import opened Tokens
  import opened CodeLengthRle
  import opened Reference
  import opened DecodeRuns
  import opened StreamMeaning
  import C = Compressor
  import Adler32
  import opened WholeInflate

  const Z: Config := Config(true, true)

  const HEADER := 16

  /** The same place when the header has been cut off. */
  function Cut(s: State): State
    requires s.pos >= HEADER
  {
    s.(pos := s.pos - HEADER)
  }

  lemma BitsCut(bits: Bits, pos: nat, n: nat)
    requires HEADER <= pos && HEADER <= |bits|
    ensures GetBits(bits[HEADER..], pos - HEADER, n) == GetBits(bits, pos, n)
  {
    if pos + n <= |bits| {
      assert bits[HEADER..][pos - HEADER..pos - HEADER + n] == bits[pos..pos + n];
    }
  }

  lemma ByteCut(bits: Bits, pos: nat)
    requires HEADER <= pos && HEADER <= |bits|
    ensures GetByte(bits[HEADER..], pos - HEADER) == GetByte(bits, pos)
  {
    if pos + 8 <= |bits| {
      assert bits[HEADER..][pos - HEADER..pos - HEADER + 8] == bits[pos..pos + 8];
    }
  }

  lemma {:induction false} FindCut(lens: seq<nat>, bits: Bits, pos: nat, n: nat)
    requires HEADER <= pos && HEADER <= |bits| && n <= |lens|
    ensures FindSym(lens, bits[HEADER..], pos - HEADER, n) == FindSym(lens, bits, pos, n)
  {
    if n > 0 {
      FindCut(lens, bits, pos, n - 1);
      if pos + lens[n - 1] <= |bits| {
        assert bits[HEADER..][pos - HEADER..pos - HEADER + lens[n - 1]] == bits[pos..pos + lens[n - 1]];
      }
    }
  }

  lemma SymCut(lens: seq<nat>, bits: Bits, pos: nat)
    requires HEADER <= pos && HEADER <= |bits|
    ensures DecodeSym(lens, bits[HEADER..], pos - HEADER) == DecodeSym(lens, bits, pos)
  {
    hide FindSym;
    FindCut(lens, bits, pos, |lens|);
  }

  /** Past the header, a step is the same on the rest of the stream, except that there is no trailer. */
  ghost predicate Follows(bits: Bits, s: State, t: State)
    requires s.pos >= HEADER && |bits| >= HEADER
  {
    t.pos >= HEADER
        && Step(FlatBuffer(false), bits[HEADER..], Cut(s))
        == Next(if t.pc.Trailer? then Cut(t).(pc := Done([])) else Cut(t))
  }

  lemma AlignCut(pos: nat)
    requires pos >= HEADER
    ensures Align(pos - HEADER) == Align(pos) - HEADER
  {
  }

  lemma StepCutHeads(bits: Bits, s: State)
    requires s.pos >= HEADER && |bits| >= HEADER && (s.pc.Head? || s.pc.StoredHead? || s.pc.Stored? || s.pc.StoredEmit?)
    requires Step(Z, bits, s).Next?
    ensures Follows(bits, s, Step(Z, bits, s).s)
  {
    hide GetBits, GetByte, Align, StaticLit, StaticDist, BadStored, Pair, StepSizes, StepLens, StepSymbol, StepCopy,
         StepZlib;
    ByteCut(bits, s.pos);
    BitsCut(bits, s.pos, 3);
    AlignCut(s.pos);
    AlignCut(s.pos + 3);
    AlignForward(s.pos);
    AlignForward(s.pos + 3);
  }

  lemma AlignForward(pos: nat)
    ensures Align(pos) >= pos
  {
  }

  lemma StepCutSizes(bits: Bits, s: State)
    requires s.pos >= HEADER && |bits| >= HEADER && (s.pc.Sizes? || s.pc.LenLens?) && Step(Z, bits, s).Next?
    ensures Follows(bits, s, Step(Z, bits, s).s)
  {
    hide GetBits, GetByte, Unzigzag, Reference.Accepted, SizeBits, SizeBase, StepHead, StepStored, StepLens,
         StepSymbol, StepCopy, StepZlib;
    BitsCut(bits, s.pos, 3);
    if s.pc.Sizes? {
      BitsCut(bits, s.pos, SizeBits(|s.pc.got|));
    }
  }

  lemma StepCutLens(bits: Bits, s: State)
    requires s.pos >= HEADER && |bits| >= HEADER && (s.pc.LenCodes? || s.pc.LenRun?) && Step(Z, bits, s).Next?
    ensures Follows(bits, s, Step(Z, bits, s).s)
  {
    hide GetBits, GetByte, DecodeSym, Reference.Accepted, StepHead, StepStored, StepSizes, StepSymbol, StepCopy,
         StepZlib, Append, ExtraBits;
    if s.pc.LenCodes? {
      SymCut(s.pc.lens, bits, s.pos);
    } else {
      BitsCut(bits, s.pos, ExtraBits(s.pc.code));
    }
  }

  lemma StepCutSymbols(bits: Bits, s: State)
    requires s.pos >= HEADER && |bits| >= HEADER && (s.pc.Symbol? || s.pc.Emit? || s.pc.LenBits? || s.pc.DistCode?)
             && Step(Z, bits, s).Next?
    ensures Follows(bits, s, Step(Z, bits, s).s)
  {
    hide GetBits, GetByte, DecodeSym, StepHead, StepStored, StepSizes, StepLens, StepCopy, StepZlib, LENGTH_BASE,
         LENGTH_EXTRA, Align;
    ExtraTables();
    if s.pc.Symbol? {
      SymCut(s.pc.t.lit, bits, s.pos);
      var d := DecodeSym(s.pc.t.lit, bits, s.pos);
      if d.Sym? {
        AlignCut(s.pos + d.len);
        AlignForward(s.pos + d.len);
      }
    } else if s.pc.DistCode? {
      SymCut(s.pc.t.dist, bits, s.pos);
    } else if s.pc.LenBits? && 257 <= s.pc.sym <= 287 {
      BitsCut(bits, s.pos, LENGTH_EXTRA[s.pc.sym - 257]);
    }
  }

  lemma StepCutCopies(bits: Bits, s: State)
    requires s.pos >= HEADER && |bits| >= HEADER && (s.pc.DistBits? || s.pc.Copy?) && Step(Z, bits, s).Next?
    ensures Follows(bits, s, Step(Z, bits, s).s)
  {
    hide GetBits, GetByte, DecodeSym, StepHead, StepStored, StepSizes, StepLens, StepSymbol, StepZlib, DIST_BASE,
         DIST_EXTRA;
    ExtraTables();
    if s.pc.DistBits? && s.pc.sym <= 31 {
      BitsCut(bits, s.pos, DIST_EXTRA[s.pc.sym]);
    }
  }

  lemma StepCut(bits: Bits, s: State)
    requires s.pos >= HEADER && |bits| >= HEADER && !s.pc.Zlib? && !s.pc.Trailer? && Step(Z, bits, s).Next?
    ensures Follows(bits, s, Step(Z, bits, s).s)
  {
    hide Follows, StepHead, StepStored, StepSizes, StepLens, StepSymbol, StepCopy, StepZlib;
    match s.pc
    case Head => StepCutHeads(bits, s);
    case StoredHead(_, _) => StepCutHeads(bits, s);
    case Stored(_, _) => StepCutHeads(bits, s);
    case StoredEmit(_, _, _) => StepCutHeads(bits, s);
    case Sizes(_, _) => StepCutSizes(bits, s);
    case LenLens(_, _, _, _, _) => StepCutSizes(bits, s);
    case LenCodes(_, _, _, _, _) => StepCutLens(bits, s);
    case LenRun(_, _, _, _, _, _) => StepCutLens(bits, s);
    case Symbol(_, _) => StepCutSymbols(bits, s);
    case Emit(_, _, _) => StepCutSymbols(bits, s);
    case LenBits(_, _, _) => StepCutSymbols(bits, s);
    case DistCode(_, _, _) => StepCutSymbols(bits, s);
    case DistBits(_, _, _, _) => StepCutCopies(bits, s);
    case Copy(_, _, _, _) => StepCutCopies(bits, s);
    case _ =>
  }

  /** The trailer does not change the output. */
  lemma {:induction false} TrailerKeeps(bits: Bits, s: State, n: nat)
    requires s.pc.Trailer? || s.pc.Done?
    ensures Iter(Z, bits, s, n).out == s.out && (Iter(Z, bits, s, n).pc.Trailer? || Iter(Z, bits, s, n).pc.Done?)
    decreases n
  {
    hide GetByte;
    if n > 0 && Step(Z, bits, s).Next? {
      TrailerKeeps(bits, Step(Z, bits, s).s, n - 1);
    }
  }

  lemma {:induction false} IterCut(bits: Bits, s: State, n: nat) returns (end: State)
    requires s.pos >= HEADER && |bits| >= HEADER && !s.pc.Zlib? && !s.pc.Trailer? && !s.pc.Done?
             && Iter(Z, bits, s, n).pc.Done?
    ensures end.pc.Done? && end.out == Iter(Z, bits, s, n).out
            && Reaches(FlatBuffer(false), bits[HEADER..], Cut(s), end)
    decreases n
  {
    hide Step, Reaches, Align;
    if n == 0 || !Step(Z, bits, s).Next? {
      assert false;
    } else {
      var t := Step(Z, bits, s).s;
      StepCut(bits, s);
      NotBack(bits, s);
      if t.pc.Trailer? {
        TrailerKeeps(bits, t, n - 1);
        end := Cut(t).(pc := Done([]));
        ReachesStep(FlatBuffer(false), bits[HEADER..], Cut(s), end);
      } else {
        ReachesStep(FlatBuffer(false), bits[HEADER..], Cut(s), Cut(t));
        end := IterCut(bits, t, n - 1);
        ReachesTrans(FlatBuffer(false), bits[HEADER..], Cut(s), Cut(t), end);
      }
    }
  }

  /** With a trailer, no other step leads to the end, and none back to the header. */
  lemma NotBack(bits: Bits, s: State)
    requires Step(Z, bits, s).Next? && !s.pc.Zlib? && !s.pc.Trailer?
    ensures !Step(Z, bits, s).s.pc.Zlib? && !Step(Z, bits, s).s.pc.Done?
  {
    hide GetBits, GetByte, DecodeSym, Unzigzag, StaticLit, StaticDist, Reference.Accepted, BadStored, Pair, SizeBits,
         SizeBase, Align, LENGTH_BASE, LENGTH_EXTRA, DIST_BASE, DIST_EXTRA, Append, ExtraBits;
  }

  /** From the start, two bytes lead to the first block. */
  lemma AfterHeader(bits: Bits, n: nat)
    requires Iter(Z, bits, Reference.Start(Z), n).pc.Done?
    ensures n >= 2 && |bits| >= HEADER
            && Iter(Z, bits, Reference.Start(Z), n) == Iter(Z, bits, State(Head, HEADER, []), n - 2)
  {
    hide GetByte, BadHeader, StepHead, StepStored, StepSizes, StepLens, StepSymbol, StepCopy;
    var s0 := Reference.Start(Z);
    assert n > 0 && Step(Z, bits, s0).Next?;
    var s1 := Step(Z, bits, s0).s;
    assert s1.pc.Zlib? && Iter(Z, bits, s0, n) == Iter(Z, bits, s1, n - 1);
    assert n > 1 && Step(Z, bits, s1).Next?;
    var s2 := Step(Z, bits, s1).s;
    assert Iter(Z, bits, s1, n - 1) == Iter(Z, bits, s2, n - 2);
    if s2.pc.Failed? {
      EndedStops(Z, bits, s2);
    }
  }

  /** A stream with zlib header, without its first two bytes, inflates to the same text. */
  lemma WithoutHeader(bytes: seq<byte>, end: State)
    requires end.pc.Done? && Reaches(Z, ByteBits(bytes), Reference.Start(Z), end)
    ensures |bytes| >= 2 && Inflates(false, bytes[2..], end.out)
  {
    hide Iter, ByteBits;
    var bits := ByteBits(bytes);
    var n: nat :| Iter(Z, bits, Reference.Start(Z), n) == end;
    AfterHeader(bits, n);
    ByteBitsSize(bytes);
    var last := IterCut(bits, State(Head, HEADER, []), n - 2);
    assert bytes == bytes[..2] + bytes[2..];
    ByteBitsConcat(bytes[..2], bytes[2..]);
    ByteBitsSize(bytes[..2]);
    assert bits[HEADER..] == ByteBits(bytes[2..]);
    assert EndsWith(false, bytes[2..], last, end.out);
  }

  lemma {:induction false} ByteBitsSize(bytes: seq<byte>)
    ensures |ByteBits(bytes)| == 8 * |bytes|
  {
  }

  /** What the compressor writes for a block, with zlib header, can be read as a fragment: behind its two
      header bytes stands the block. */
  lemma CompressedFragment(c: C.Tdefl)
    requires c.RunOk() && c.finished && c.opts.zlib
    ensures |c.sink| >= 2 && Inflates(false, c.sink[2..], c.d.src)
  {
    hide Reaches, Adler32.Checksum, Adler32.Pack, Adler32.Unpack, ByteBits, c.w.Valid;
    var t := C.Finished(true, c.w.Stream(), c.d.src, c.adler);
    assert Brings(true, true, ByteBits(c.sink), t);
    WithoutHeader(c.sink, t);
  }
}
