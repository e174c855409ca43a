/** One lemma for each place where the decompressor takes something from its input: what the machine
    does with it, and that the machine waits when it is not there. */
module InflateSteps {
  import opened Bytes
  import opened Bits
  import opened Canonical
  import opened InflateTable
  import opened Tokens
  import opened Reference
  import opened BlockFormat
  import opened BlockHeaders
  import opened CodeLengthRle
  import opened DecodeRuns
  import opened BuildTable

  // ---- from the bits received to the whole stream

  lemma BitsInFull(part: Bits, full: Bits, pos: nat, n: nat)
    requires part <= full && GetBits(part, pos, n).Some?
    ensures GetBits(full, pos, n) == GetBits(part, pos, n)
  {
    hide ValueOf;
    assert part == full[..|part|];
    GetBitsPart(full, |part|, pos, n);
  }

  lemma ByteInFull(part: Bits, full: Bits, pos: nat)
    requires part <= full && GetByte(part, pos).Some?
    ensures GetByte(full, pos) == GetByte(part, pos)
  {
    hide ValueOf;
    assert part == full[..|part|];
    GetBytePart(full, |part|, pos);
  }

  // ---- bytes

  lemma ByteStarved(cfg: Config, bits: Bits, s: State)
    requires GetByte(bits, s.pos) == None
    requires s.pc.Zlib? || s.pc.StoredHead? || (s.pc.Stored? && s.pc.left > 0) || s.pc.Trailer?
    ensures Step(cfg, bits, s) == Starved
  {
    hide GetByte;
  }

  lemma ZlibStep(cfg: Config, bits: Bits, s: State, v: byte)
    requires s.pc.Zlib? && GetByte(bits, s.pos) == Some(v)
    ensures var next := if s.pc.head == [] then Zlib([v])
                        else if BadHeader(cfg, s.pc.head[0], v) then Failed else Head;
            Step(cfg, bits, s) == Next(s.(pc := next, pos := s.pos + 8))
  {
    hide GetByte, BadHeader;
  }

  lemma StoredHeadStep(cfg: Config, bits: Bits, s: State, v: byte)
    requires s.pc.StoredHead? && GetByte(bits, s.pos) == Some(v)
    ensures var r := s.pc.raw + [v];
            var next := if |r| != 4 then StoredHead(s.pc.fin, r)
                        else if BadStored(r) then Failed else Stored(s.pc.fin, Pair(r[0], r[1]));
            Step(cfg, bits, s) == Next(s.(pc := next, pos := s.pos + 8))
  {
    hide GetByte, BadStored, Pair;
  }

  lemma StoredStep(cfg: Config, bits: Bits, s: State, v: byte)
    requires s.pc.Stored? && s.pc.left > 0 && GetByte(bits, s.pos) == Some(v)
    ensures Step(cfg, bits, s) == Next(s.(pc := StoredEmit(s.pc.fin, s.pc.left, v), pos := s.pos + 8))
  {
    hide GetByte;
  }

  lemma StoredEmitStep(cfg: Config, bits: Bits, s: State)
    requires s.pc.StoredEmit? && s.pc.left > 0
    ensures Step(cfg, bits, s) == Next(s.(pc := Stored(s.pc.fin, s.pc.left - 1), out := s.out + [s.pc.b]))
  {
  }

  lemma StoredEndStep(cfg: Config, bits: Bits, s: State)
    requires s.pc.Stored? && s.pc.left == 0
    ensures Step(cfg, bits, s) == Next(NextBlock(cfg, s.pc.fin, s))
  {
    hide NextBlock;
  }

  lemma TrailerStep(cfg: Config, bits: Bits, s: State, v: byte)
    requires s.pc.Trailer? && GetByte(bits, s.pos) == Some(v)
    ensures var c := s.pc.check + [v];
            Step(cfg, bits, s) == Next(s.(pc := if |c| < 4 then Trailer(c) else Done(c), pos := s.pos + 8))
  {
    hide GetByte;
  }

  // ---- bits

  /** How many bits the machine takes as a number in this state. */
  function Wants(pc: Pc): nat {
    match pc
    case Head => 3
    case Sizes(_, got) => SizeBits(|got|)
    case LenLens(_, _, _, _, _) => 3
    case LenRun(_, _, _, _, _, code) => ExtraBits(code)
    case LenBits(_, _, sym) => if 257 <= sym <= 287 then LENGTH_EXTRA[sym - 257] else 0
    case DistBits(_, _, _, sym) => if sym <= 31 then DIST_EXTRA[sym] else 0
    case _ => 0
  }

  lemma BitsStarved(cfg: Config, bits: Bits, s: State)
    requires s.pc.Head? || s.pc.Sizes? || s.pc.LenLens? || s.pc.LenRun? || (s.pc.LenBits? && 257 <= s.pc.sym <= 287)
             || (s.pc.DistBits? && s.pc.sym <= 31)
    requires GetBits(bits, s.pos, Wants(s.pc)) == None
    ensures Step(cfg, bits, s) == Starved
  {
    hide GetBits;
  }

  lemma HeadStep(cfg: Config, bits: Bits, s: State, v: nat)
    requires s.pc.Head? && GetBits(bits, s.pos, 3) == Some(v)
    ensures var fin, kind := v % 2 == 1, v / 2;
            var next := if kind == 0 then StoredHead(fin, [])
                        else if kind == 1 then Symbol(fin, Tables(StaticLit(), StaticDist()))
                        else if kind == 2 then Sizes(fin, []) else Failed;
            Step(cfg, bits, s) == Next(s.(pc := next, pos := if kind == 0 then Align(s.pos + 3) else s.pos + 3))
  {
    hide GetBits, StaticLit, StaticDist, Align;
  }

  lemma SizesStep(cfg: Config, bits: Bits, s: State, v: nat)
    requires s.pc.Sizes? && |s.pc.got| < 3 && GetBits(bits, s.pos, SizeBits(|s.pc.got|)) == Some(v)
    ensures var g := s.pc.got + [v + SizeBase(|s.pc.got|)];
            var next := if |g| < 3 then Sizes(s.pc.fin, g) else LenLens(s.pc.fin, g[0], g[1], g[2], []);
            Step(cfg, bits, s) == Next(s.(pc := next, pos := s.pos + SizeBits(|s.pc.got|)))
  {
    hide GetBits, SizeBits, SizeBase;
  }

  lemma LenLensStep(cfg: Config, bits: Bits, s: State, v: nat)
    requires s.pc.LenLens? && |s.pc.got| < s.pc.nlen <= 19 && GetBits(bits, s.pos, 3) == Some(v)
    ensures var g := s.pc.got + [v];
            var next := if |g| < s.pc.nlen then LenLens(s.pc.fin, s.pc.nlit, s.pc.ndist, s.pc.nlen, g)
                        else if !Accepted(Unzigzag(g, |g|)) then Failed
                        else LenCodes(s.pc.fin, s.pc.nlit, s.pc.ndist, Unzigzag(g, |g|), []);
            Step(cfg, bits, s) == Next(s.(pc := next, pos := s.pos + 3))
  {
    hide GetBits, Unzigzag, Accepted;
  }

  lemma LenRunStep(cfg: Config, bits: Bits, s: State, v: nat)
    requires s.pc.LenRun? && (s.pc.code == 16 ==> s.pc.got != [])
             && GetBits(bits, s.pos, ExtraBits(s.pc.code)) == Some(v)
    ensures var got := Append(s.pc.got, Op(s.pc.code, v));
            var next := LenCodes(s.pc.fin, s.pc.nlit, s.pc.ndist, s.pc.lens, got);
            Step(cfg, bits, s) == Next(s.(pc := next, pos := s.pos + ExtraBits(s.pc.code)))
  {
    hide GetBits, ExtraBits, Append;
  }

  lemma LenBitsStep(cfg: Config, bits: Bits, s: State, v: nat)
    requires s.pc.LenBits? && 257 <= s.pc.sym <= 287 && GetBits(bits, s.pos, LENGTH_EXTRA[s.pc.sym - 257]) == Some(v)
    ensures var next := DistCode(s.pc.fin, s.pc.t, LENGTH_BASE[s.pc.sym - 257] + v);
            Step(cfg, bits, s) == Next(s.(pc := next, pos := s.pos + LENGTH_EXTRA[s.pc.sym - 257]))
  {
    hide GetBits, LENGTH_BASE, LENGTH_EXTRA, DecodeSym, StepZlib, StepHead, StepStored, StepSizes, StepLens, StepCopy;
  }

  lemma DistBitsStep(cfg: Config, bits: Bits, s: State, v: nat)
    requires s.pc.DistBits? && s.pc.sym <= 31 && GetBits(bits, s.pos, DIST_EXTRA[s.pc.sym]) == Some(v)
    ensures var dist := DIST_BASE[s.pc.sym] + v;
            var next := if 1 <= dist <= |s.out| then Copy(s.pc.fin, s.pc.t, s.pc.len, dist)
                        else if cfg.flat then Failed else Unspecified;
            Step(cfg, bits, s) == Next(s.(pc := next, pos := s.pos + DIST_EXTRA[s.pc.sym]))
  {
    hide GetBits;
  }

  // ---- symbols

  /** The code vector the machine decodes with in this state. */
  function Uses(pc: Pc): Lengths {
    match pc
    case LenCodes(_, _, _, lens, _) => lens
    case Symbol(_, t) => t.lit
    case DistCode(_, t, _) => t.dist
    case _ => []
  }

  predicate Decoding(pc: Pc) {
    (pc.LenCodes? && |pc.got| < pc.nlit + pc.ndist) || pc.Symbol? || pc.DistCode?
  }

  /** On track, a code stands at the current position. */
  lemma SymbolAhead(cfg: Config, full: Bits, s: State) returns (sym: nat)
    requires OnTrack(cfg, full, s) && Decoding(s.pc)
    ensures var lens := Uses(s.pc);
            && Feasible(lens) && sym < |lens| && 0 < lens[sym] <= 15 && At(full, s.pos, Code(lens, sym))
            && DecodeSym(lens, full, s.pos) == Sym(sym, lens[sym])
  {
    hide Reaches, FindSym, Complete, Lonely, Code, Decided;
    var lens := Uses(s.pc);
    NoDeadEnd(cfg, full, s);
    TrackCodesOk(cfg, full, s);
    AcceptedIsFeasible(lens);
    FindSymMeans(lens, full, s.pos, |lens|);
    sym := FindSym(lens, full, s.pos, |lens|).value;
  }

  lemma NoDeadEnd(cfg: Config, full: Bits, s: State)
    requires OnTrack(cfg, full, s) && Decoding(s.pc)
    ensures DecodeSym(Uses(s.pc), full, s.pos).Sym?
  {
    hide DecodeSym, OnTrack, Accepted;
    Continues(cfg, full, s);
    NeverUnspecified(cfg, full, Step(cfg, full, s).s);
  }

  /** With less than this code at hand the machine waits. */
  lemma SymbolStarved(cfg: Config, part: Bits, full: Bits, s: State, sym: nat)
    requires part <= full && Decoding(s.pc) && Feasible(Uses(s.pc)) && sym < |Uses(s.pc)| && 0 < Uses(s.pc)[sym] <= 15
    requires At(full, s.pos, Code(Uses(s.pc), sym)) && |part| - s.pos < Uses(s.pc)[sym]
    ensures Step(cfg, part, s) == Starved
  {
    hide Feasible, Code, FindSym;
    var lens := Uses(s.pc);
    FindSymMeans(lens, part, s.pos, |lens|);
    if FindSym(lens, part, s.pos, |lens|).Some? {
      var k := FindSym(lens, part, s.pos, |lens|).value;
      assert part[s.pos..s.pos + lens[k]] == full[s.pos..s.pos + lens[k]];
      OnlyOneAt(lens, full, s.pos, sym, k);
    }
    assert DecodeSym(lens, part, s.pos) == NeedBits;
  }

  lemma LenCodesStep(cfg: Config, bits: Bits, s: State, code: nat, l: nat)
    requires s.pc.LenCodes? && Decoding(s.pc) && DecodeSym(s.pc.lens, bits, s.pos) == Sym(code, l)
    ensures var next := if code < 16 then LenCodes(s.pc.fin, s.pc.nlit, s.pc.ndist, s.pc.lens, s.pc.got + [code])
                        else if code == 16 && s.pc.got == [] then Failed
                        else LenRun(s.pc.fin, s.pc.nlit, s.pc.ndist, s.pc.lens, s.pc.got, code);
            Step(cfg, bits, s) == Next(s.(pc := next, pos := s.pos + l))
  {
    hide DecodeSym, Accepted;
  }

  lemma LensDoneStep(cfg: Config, bits: Bits, s: State)
    requires s.pc.LenCodes? && |s.pc.got| >= s.pc.nlit + s.pc.ndist
    ensures var n, got := s.pc.nlit, s.pc.got;
            var good := |got| == n + s.pc.ndist && Accepted(got[..n]) && Accepted(got[n..]);
            Step(cfg, bits, s) == Next(s.(pc := if good then Symbol(s.pc.fin, Tables(got[..n], got[n..])) else Failed))
  {
    hide DecodeSym, Accepted;
  }

  lemma SymbolStep(cfg: Config, bits: Bits, s: State, sym: nat, l: nat)
    requires s.pc.Symbol? && DecodeSym(s.pc.t.lit, bits, s.pos) == Sym(sym, l)
    ensures var u := s.(pos := s.pos + l);
            var next := if sym < 256 then u.(pc := Emit(s.pc.fin, s.pc.t, sym))
                        else if sym == 256 then NextBlock(cfg, s.pc.fin, u)
                        else u.(pc := LenBits(s.pc.fin, s.pc.t, sym));
            Step(cfg, bits, s) == Next(next)
  {
    hide DecodeSym, NextBlock;
  }

  lemma EmitStep(cfg: Config, bits: Bits, s: State)
    requires s.pc.Emit?
    ensures Step(cfg, bits, s) == Next(s.(pc := Symbol(s.pc.fin, s.pc.t), out := s.out + [s.pc.b]))
  {
  }

  lemma DistCodeStep(cfg: Config, bits: Bits, s: State, sym: nat, l: nat)
    requires s.pc.DistCode? && DecodeSym(s.pc.t.dist, bits, s.pos) == Sym(sym, l)
    ensures Step(cfg, bits, s) == Next(s.(pc := DistBits(s.pc.fin, s.pc.t, s.pc.len, sym), pos := s.pos + l))
  {
    hide DecodeSym;
  }

  lemma CopyStep(cfg: Config, bits: Bits, s: State)
    requires s.pc.Copy? && s.pc.len > 0 && 1 <= s.pc.dist <= |s.out|
    ensures var next := Copy(s.pc.fin, s.pc.t, s.pc.len - 1, s.pc.dist);
            Step(cfg, bits, s) == Next(s.(pc := next, out := s.out + [s.out[|s.out| - s.pc.dist]]))
  {
  }

  lemma CopyEndStep(cfg: Config, bits: Bits, s: State)
    requires s.pc.Copy? && s.pc.len == 0
    ensures Step(cfg, bits, s) == Next(s.(pc := Symbol(s.pc.fin, s.pc.t)))
  {
  }

  lemma DistanceRange(sym: nat, v: nat)
    requires sym <= 31 && v < Pow2(DIST_EXTRA[sym])
    ensures DIST_BASE[sym] + v <= WINDOW
  {
    SmallPowers();
    hide Pow2;
  }
}
