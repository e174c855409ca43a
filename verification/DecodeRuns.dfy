/** Runs of the decompressor on a stream that it can decide: every state but the last has a next one,
    and a state reached on the whole stream is reached as soon as its bits are there. */
module DecodeRuns {
  import opened Bytes
  import opened Bits
  import opened Canonical
  import opened InflateTable
  import opened BuildTable
  import opened Tokens
  import opened Reference
  import opened BlockFormat
  import opened BlockHeaders
  import opened BlockCompressor
  import opened CodeLengthRle

  predicate Ended(s: State) {
    s.pc.Done? || s.pc.Failed?
  }

  /** The machine cannot end before it has produced another byte. */
  predicate OwesByte(s: State) {
    match s.pc
    case StoredEmit(_, left, _) => left > 0
    case Stored(_, left) => left > 0
    case Emit(_, _, _) => true
    case Copy(_, _, len, dist) => len > 0 && 1 <= dist <= |s.out|
    case _ => false
  }

  /** The decompressor accepts or rejects the stream: it does not run out of bits, and does not meet a
      bit string without code or a distance beyond the output, which only a window cannot detect. */
  ghost predicate Decided(cfg: Config, full: Bits) {
    exists end: State :: Ended(end) && Reaches(cfg, full, Reference.Start(cfg), end)
  }

  ghost predicate OnTrack(cfg: Config, full: Bits, s: State) {
    Decided(cfg, full) && Reaches(cfg, full, Reference.Start(cfg), s)
  }

  lemma OnlyEnd(cfg: Config, full: Bits, s: State)
    requires OnTrack(cfg, full, s) && !Step(cfg, full, s).Next?
    ensures Ended(s)
  {
    hide Reaches, Step;
    var end :| Ended(end) && Reaches(cfg, full, Reference.Start(cfg), end);
    EndedStops(cfg, full, end);
    StuckUnique(cfg, full, Reference.Start(cfg), s, end);
  }

  lemma EndedStops(cfg: Config, full: Bits, s: State)
    requires Ended(s) || s.pc.Unspecified?
    ensures Step(cfg, full, s) == Stop
  {
  }

  /** A state that is not an end has a next state, which is on track again. */
  lemma Continues(cfg: Config, full: Bits, s: State)
    requires OnTrack(cfg, full, s) && !Ended(s)
    ensures Step(cfg, full, s).Next? && OnTrack(cfg, full, Step(cfg, full, s).s) && !s.pc.Unspecified?
  {
    hide Reaches, Step, Ended;
    if !Step(cfg, full, s).Next? {
      OnlyEnd(cfg, full, s);
    }
    if s.pc.Unspecified? { EndedStops(cfg, full, s); }
    var t := Step(cfg, full, s).s;
    ReachesStep(cfg, full, s, t);
    ReachesTrans(cfg, full, Reference.Start(cfg), s, t);
  }

  lemma NeverUnspecified(cfg: Config, full: Bits, s: State)
    requires OnTrack(cfg, full, s)
    ensures !s.pc.Unspecified?
  {
    hide Reaches, Step;
    if s.pc.Unspecified? {
      EndedStops(cfg, full, s);
      OnlyEnd(cfg, full, s);
    }
  }

  // ---- bytes still to come

  lemma StepGrows(cfg: Config, bits: Bits, s: State)
    requires Step(cfg, bits, s).Next?
    ensures s.out <= Step(cfg, bits, s).s.out
    ensures OwesByte(s) ==> OwesByte(Step(cfg, bits, s).s) || |s.out| < |Step(cfg, bits, s).s.out|
  {
    hide GetBits, GetByte, DecodeSym, Unzigzag, StaticLit, StaticDist, Accepted, Append, BadStored, BadHeader, Pair,
         BitsOf, SizeBits, SizeBase, ExtraBits;
  }

  lemma {:induction false} IterGrows(cfg: Config, bits: Bits, s: State, n: nat)
    ensures s.out <= Iter(cfg, bits, s, n).out
    ensures OwesByte(s) ==> OwesByte(Iter(cfg, bits, s, n)) || |s.out| < |Iter(cfg, bits, s, n).out|
    decreases n
  {
    hide Step, OwesByte;
    if n > 0 && Step(cfg, bits, s).Next? {
      StepGrows(cfg, bits, s);
      IterGrows(cfg, bits, Step(cfg, bits, s).s, n - 1);
    }
  }

  /** What a state has produced begins what the end has, and is less where a byte is still owed. */
  lemma OutputGrows(cfg: Config, full: Bits, s: State, end: State)
    requires Reaches(cfg, full, Reference.Start(cfg), s) && Reaches(cfg, full, Reference.Start(cfg), end) && Ended(end)
    ensures s.out <= end.out && (OwesByte(s) ==> |s.out| < |end.out|)
  {
    hide Iter, Step;
    var start := Reference.Start(cfg);
    var a: nat :| Iter(cfg, full, start, a) == s;
    var b: nat :| Iter(cfg, full, start, b) == end;
    if a <= b {
      IterAdd(cfg, full, start, a, b - a);
      IterGrows(cfg, full, s, b - a);
    } else {
      IterAdd(cfg, full, start, b, a - b);
      EndedStops(cfg, full, end);
      IterStuck(cfg, full, end, a - b);
    }
  }

  // ---- codes in use

  /** The code vectors of a state leave room for a prefix code. */
  ghost predicate CodesOk(pc: Pc) {
    match pc
    case LenCodes(_, _, _, lens, _) => Accepted(lens) && |lens| == 19
    case LenRun(_, _, _, lens, _, _) => Accepted(lens) && |lens| == 19
    case Symbol(_, t) => TablesOk(t)
    case Emit(_, t, _) => TablesOk(t)
    case LenBits(_, t, _) => TablesOk(t)
    case DistCode(_, t, _) => TablesOk(t)
    case DistBits(_, t, _, _) => TablesOk(t)
    case Copy(_, t, _, _) => TablesOk(t)
    case _ => true
  }

  ghost predicate TablesOk(t: Tables) {
    Accepted(t.lit) && Accepted(t.dist)
  }

  lemma StaticOk()
    ensures TablesOk(StaticTables())
  {
    hide Pow2, Below;
    StaticComplete();
  }

  lemma StepForward(cfg: Config, bits: Bits, s: State)
    requires Step(cfg, bits, s).Next?
    ensures Step(cfg, bits, s).s.pos >= s.pos
  {
    hide GetBits, GetByte, DecodeSym, Unzigzag, StaticLit, StaticDist, Accepted, Append, BadStored, BadHeader, Pair,
         BitsOf, SizeBits, SizeBase, ExtraBits;
  }

  lemma StepCodesOk(cfg: Config, bits: Bits, s: State)
    requires Step(cfg, bits, s).Next? && CodesOk(s.pc)
    ensures CodesOk(Step(cfg, bits, s).s.pc)
  {
    hide GetBits, GetByte, DecodeSym, StaticLit, StaticDist, Accepted, Append, BadStored, BadHeader, Pair, SizeBits,
         SizeBase, ExtraBits, Align;
    StaticOk();
  }

  lemma {:induction false} IterCodesOk(cfg: Config, bits: Bits, s: State, n: nat)
    requires CodesOk(s.pc)
    ensures CodesOk(Iter(cfg, bits, s, n).pc) && Iter(cfg, bits, s, n).pos >= s.pos
    decreases n
  {
    hide Step, CodesOk;
    if n > 0 && Step(cfg, bits, s).Next? {
      StepCodesOk(cfg, bits, s);
      StepForward(cfg, bits, s);
      IterCodesOk(cfg, bits, Step(cfg, bits, s).s, n - 1);
    }
  }

  lemma TrackCodesOk(cfg: Config, full: Bits, s: State)
    requires Reaches(cfg, full, Reference.Start(cfg), s)
    ensures CodesOk(s.pc)
  {
    hide Iter, Decided, Accepted;
    var n: nat :| Iter(cfg, full, Reference.Start(cfg), n) == s;
    IterCodesOk(cfg, full, Reference.Start(cfg), n);
  }

  // ---- the same step with fewer bits

  lemma GetBitsPart(bits: Bits, n: nat, pos: nat, k: nat)
    requires n <= |bits| && pos + k <= n
    ensures GetBits(bits[..n], pos, k) == GetBits(bits, pos, k)
  {
    hide ValueOf;
    assert bits[..n][pos..pos + k] == bits[pos..pos + k];
  }

  lemma GetBytePart(bits: Bits, n: nat, pos: nat)
    requires n <= |bits| && pos + 8 <= n
    ensures GetByte(bits[..n], pos) == GetByte(bits, pos)
  {
    hide ValueOf;
    assert bits[..n][pos..pos + 8] == bits[pos..pos + 8];
  }

  lemma {:induction false} FindSymMeans(lens: Lengths, bits: Bits, pos: nat, n: nat)
    requires n <= |lens|
    ensures match FindSym(lens, bits, pos, n)
            case Some(s) => s < n && lens[s] > 0 && At(bits, pos, Code(lens, s))
            case None => forall s :: 0 <= s < n && lens[s] > 0 ==> !At(bits, pos, Code(lens, s))
  {
    hide Code;
    if n > 0 { FindSymMeans(lens, bits, pos, n - 1); }
  }

  lemma DecodeSymPart(lens: Lengths, bits: Bits, n: nat, pos: nat)
    requires Accepted(lens) && n <= |bits| && DecodeSym(lens, bits, pos).Sym?
             && pos + DecodeSym(lens, bits, pos).len <= n
    ensures DecodeSym(lens, bits[..n], pos) == DecodeSym(lens, bits, pos)
  {
    hide Code, FindSym, Complete, Lonely;
    FindSymMeans(lens, bits, pos, |lens|);
    var s := FindSym(lens, bits, pos, |lens|).value;
    AcceptedIsFeasible(lens);
    assert bits[..n][pos..pos + lens[s]] == bits[pos..pos + lens[s]];
    DecodeSymAt(lens, bits[..n], pos, s);
  }

  /** A step that needs no bits from n on is the same without them. */
  lemma StepPartHeads(cfg: Config, bits: Bits, n: nat, s: State)
    requires n <= |bits| && Step(cfg, bits, s).Next?
    requires s.pc.Zlib? || s.pc.Head? || s.pc.StoredHead? || s.pc.Stored? || s.pc.StoredEmit? || s.pc.Sizes?
             || s.pc.LenLens?
    requires var t := Step(cfg, bits, s).s; t.pos <= n && !t.pc.Unspecified?
    ensures Step(cfg, bits[..n], s) == Step(cfg, bits, s)
  {
    hide GetBits, GetByte, Unzigzag, StaticLit, StaticDist, Accepted, BadStored, BadHeader, Pair, SizeBase;
    if s.pos + 8 <= n { GetBytePart(bits, n, s.pos); }
    if s.pos + 3 <= n { GetBitsPart(bits, n, s.pos, 3); }
    if s.pc.Sizes? && s.pos + SizeBits(|s.pc.got|) <= n { GetBitsPart(bits, n, s.pos, SizeBits(|s.pc.got|)); }
  }

  lemma StepPartCodes(cfg: Config, bits: Bits, n: nat, s: State)
    requires n <= |bits| && Step(cfg, bits, s).Next? && CodesOk(s.pc)
    requires s.pc.LenCodes? || s.pc.Symbol? || s.pc.DistCode?
    requires var t := Step(cfg, bits, s).s; t.pos <= n && !t.pc.Unspecified?
    ensures Step(cfg, bits[..n], s) == Step(cfg, bits, s)
  {
    hide GetBits, GetByte, DecodeSym, Accepted, StaticLit, StaticDist;
    var lens := if s.pc.LenCodes? then s.pc.lens else if s.pc.Symbol? then s.pc.t.lit else s.pc.t.dist;
    if DecodeSym(lens, bits, s.pos).Sym? && s.pos + DecodeSym(lens, bits, s.pos).len <= n {
      DecodeSymPart(lens, bits, n, s.pos);
    }
  }

  lemma StepPartBits(cfg: Config, bits: Bits, n: nat, s: State)
    requires n <= |bits| && Step(cfg, bits, s).Next?
    requires s.pc.LenRun? || s.pc.Emit? || s.pc.Copy? || s.pc.Trailer?
    requires var t := Step(cfg, bits, s).s; t.pos <= n && !t.pc.Unspecified?
    ensures Step(cfg, bits[..n], s) == Step(cfg, bits, s)
  {
    hide GetBits, GetByte, Append, ExtraBits;
    if s.pc.LenRun? && s.pos + ExtraBits(s.pc.code) <= n { GetBitsPart(bits, n, s.pos, ExtraBits(s.pc.code)); }
    if s.pos + 8 <= n { GetBytePart(bits, n, s.pos); }
  }

  lemma StepPartExtra(cfg: Config, bits: Bits, n: nat, s: State)
    requires n <= |bits| && Step(cfg, bits, s).Next?
    requires s.pc.LenBits? || s.pc.DistBits?
    requires var t := Step(cfg, bits, s).s; t.pos <= n && !t.pc.Unspecified?
    ensures Step(cfg, bits[..n], s) == Step(cfg, bits, s)
  {
    hide GetBits, LENGTH_BASE, LENGTH_EXTRA, DIST_BASE, DIST_EXTRA;
    ExtraTables();
    if s.pc.LenBits? {
      if 257 <= s.pc.sym <= 287 && s.pos + LENGTH_EXTRA[s.pc.sym - 257] <= n {
        GetBitsPart(bits, n, s.pos, LENGTH_EXTRA[s.pc.sym - 257]);
      }
    } else {
      if s.pc.sym <= 31 && s.pos + DIST_EXTRA[s.pc.sym] <= n { GetBitsPart(bits, n, s.pos, DIST_EXTRA[s.pc.sym]); }
    }
  }

  lemma ExtraTables()
    ensures |LENGTH_BASE| == |LENGTH_EXTRA| == 31 && |DIST_BASE| == |DIST_EXTRA| == 32
  {
  }

  lemma StepPart(cfg: Config, bits: Bits, n: nat, s: State)
    requires n <= |bits| && Step(cfg, bits, s).Next? && CodesOk(s.pc)
    requires var t := Step(cfg, bits, s).s; t.pos <= n && !t.pc.Unspecified?
    ensures Step(cfg, bits[..n], s) == Step(cfg, bits, s)
  {
    if s.pc.Zlib? || s.pc.Head? || s.pc.StoredHead? || s.pc.Stored? || s.pc.StoredEmit? || s.pc.Sizes?
        || s.pc.LenLens? {
      hide Step;
      StepPartHeads(cfg, bits, n, s);
    } else if s.pc.LenCodes? || s.pc.Symbol? || s.pc.DistCode? {
      hide Step;
      StepPartCodes(cfg, bits, n, s);
    } else if s.pc.Done? || s.pc.Failed? || s.pc.Unspecified? {
      EndedStops(cfg, bits, s);
    } else if s.pc.LenBits? || s.pc.DistBits? {
      hide Step;
      StepPartExtra(cfg, bits, n, s);
    } else {
      hide Step;
      StepPartBits(cfg, bits, n, s);
    }
  }

  lemma UnspecifiedStays(cfg: Config, bits: Bits, t: State, k: nat)
    ensures t.pc.Unspecified? ==> Iter(cfg, bits, t, k) == t
  {
    hide Step, Iter;
    if t.pc.Unspecified? {
      EndedStops(cfg, bits, t);
      IterStuck(cfg, bits, t, k);
    }
  }

  lemma {:induction false} IterPart(cfg: Config, bits: Bits, n: nat, s: State, k: nat)
    requires n <= |bits| && CodesOk(s.pc)
    requires var u := Iter(cfg, bits, s, k); u.pos <= n && !u.pc.Unspecified?
    ensures Reaches(cfg, bits[..n], s, Iter(cfg, bits, s, k))
    decreases k
  {
    hide Step, CodesOk, Reaches;
    if k == 0 || !Step(cfg, bits, s).Next? {
      ReachesSelf(cfg, bits[..n], s);
    } else {
      var t := Step(cfg, bits, s).s;
      StepCodesOk(cfg, bits, s);
      IterCodesOk(cfg, bits, t, k - 1);
      UnspecifiedStays(cfg, bits, t, k - 1);
      StepPart(cfg, bits, n, s);
      ReachesStep(cfg, bits[..n], s, t);
      IterPart(cfg, bits, n, t, k - 1);
      ReachesTrans(cfg, bits[..n], s, t, Iter(cfg, bits, s, k));
    }
  }

  /** A state is reached as soon as the bits before its position are there. */
  lemma ReachedEarly(cfg: Config, full: Bits, n: nat, s: State)
    requires OnTrack(cfg, full, s) && n <= |full| && s.pos <= n
    ensures Reaches(cfg, full[..n], Reference.Start(cfg), s)
  {
    hide Iter, Decided;
    NeverUnspecified(cfg, full, s);
    var k: nat :| Iter(cfg, full, Reference.Start(cfg), k) == s;
    IterPart(cfg, full, n, Reference.Start(cfg), k);
  }

  /** Where decompression waits for more of the stream depends on the bits received only. */
  lemma SameSuspension(cfg: Config, full: Bits, n: nat, s: State, t: State)
    requires OnTrack(cfg, full, s) && OnTrack(cfg, full, t) && n <= |full| && s.pos <= n && t.pos <= n
    requires !Step(cfg, full[..n], s).Next? && !Step(cfg, full[..n], t).Next?
    ensures s == t
  {
    hide Reaches, Step, OnTrack;
    ReachedEarly(cfg, full, n, s);
    ReachedEarly(cfg, full, n, t);
    StuckUnique(cfg, full[..n], Reference.Start(cfg), s, t);
  }
}
