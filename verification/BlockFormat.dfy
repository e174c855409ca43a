/** The bits of a block, and that the reference machine takes them back to the tokens. */
module BlockFormat {
  import opened Bytes
  import opened Bits
  import opened Canonical
  import opened InflateTable
  import opened Tokens
  import opened Reference
  import opened CodeLengthRle

  /** The bits x stand at position pos. */
  ghost predicate At(bits: Bits, pos: nat, x: Bits) {
    pos + |x| <= |bits| && bits[pos..pos + |x|] == x
  }

  lemma AtSplit(bits: Bits, pos: nat, a: Bits, b: Bits)
    requires At(bits, pos, a + b)
    ensures At(bits, pos, a) && At(bits, pos + |a|, b)
  {
    var x := bits[pos..pos + |a + b|];
    assert x == a + b;
    assert bits[pos..pos + |a|] == x[..|a|] == a;
    assert bits[pos + |a|..pos + |a| + |b|] == x[|a|..] == b;
  }

  lemma GetBitsAt(bits: Bits, pos: nat, v: nat, n: nat)
    requires v < Pow2(n) && At(bits, pos, BitsOf(v, n))
    ensures GetBits(bits, pos, n) == Some(v)
  {
    ValueOfBitsOf(v, n);
  }

  lemma GetByteAt(bits: Bits, pos: nat, v: byte)
    requires At(bits, pos, BitsOf(v, 8))
    ensures GetByte(bits, pos) == Some(v)
  {
    SmallPowers();
    hide BitsOf;
    ValueOfBitsOf(v, 8);
  }

  /** A code at the current position is decoded as its symbol. */
  lemma {:induction false} FindSymAt(lens: Lengths, bits: Bits, pos: nat, s: nat, n: nat)
    requires Feasible(lens) && s < |lens| && lens[s] > 0 && At(bits, pos, Code(lens, s)) && n <= |lens|
    ensures FindSym(lens, bits, pos, n) == if s < n then Some(s) else None
  {
    hide Code, Feasible;
    if n > 0 {
      FindSymAt(lens, bits, pos, s, n - 1);
      var k := n - 1;
      if k != s && lens[k] > 0 && At(bits, pos, Code(lens, k)) {
        OnlyOneAt(lens, bits, pos, s, k);
      }
    }
  }

  lemma OnlyOneAt(lens: Lengths, bits: Bits, pos: nat, s: nat, k: nat)
    requires Feasible(lens) && s < |lens| && lens[s] > 0 && k < |lens| && lens[k] > 0
    requires At(bits, pos, Code(lens, s)) && At(bits, pos, Code(lens, k))
    ensures s == k
  {
    hide Code, Feasible;
    var b := bits[pos..];
    assert b[..lens[s]] == bits[pos..pos + lens[s]] && b[..lens[k]] == bits[pos..pos + lens[k]];
    UniqueDecoding(lens, s, k, b);
  }

  lemma DecodeSymAt(lens: Lengths, bits: Bits, pos: nat, s: nat)
    requires Feasible(lens) && s < |lens| && lens[s] > 0 && At(bits, pos, Code(lens, s))
    ensures DecodeSym(lens, bits, pos) == Sym(s, lens[s])
  {
    hide Code, Feasible;
    FindSymAt(lens, bits, pos, s, |lens|);
  }

  // ---- tokens

  ghost predicate UsableTables(t: Tables) {
    Feasible(t.lit) && Feasible(t.dist) && |t.lit| <= 288 && |t.dist| <= 32
  }

  /** The tables have codes for the token. */
  predicate Codable(t: Tables, k: Token) {
    match k
    case Literal(b) => b < |t.lit| && t.lit[b] > 0
    case Match(len, dist) =>
      && MIN_MATCH <= len <= MAX_MATCH && 1 <= dist <= WINDOW
      && LenSym(len - MIN_MATCH) < |t.lit| && t.lit[LenSym(len - MIN_MATCH)] > 0
      && DistSym(dist - 1) < |t.dist| && t.dist[DistSym(dist - 1)] > 0
  }

  /** The extra bits of a value: its low n bits. */
  function Low(v: nat, n: nat): Bits {
    BitsOf(v % Pow2(n), n)
  }

  function LengthBits(t: Tables, m: nat): Bits
    requires m < 256 && LenSym(m) < |t.lit|
  {
    Code(t.lit, LenSym(m)) + Low(m, LenExtra(m))
  }

  function DistanceBits(t: Tables, d: nat): Bits
    requires d < WINDOW && DistSym(d) < |t.dist|
  {
    Code(t.dist, DistSym(d)) + Low(d, DistExtra(d))
  }

  function TokenBits(t: Tables, k: Token): Bits
    requires Codable(t, k)
  {
    match k
    case Literal(b) => Code(t.lit, b)
    case Match(len, dist) => LengthBits(t, len - MIN_MATCH) + DistanceBits(t, dist - 1)
  }

  predicate AllCodable(t: Tables, ks: seq<Token>) {
    forall i :: 0 <= i < |ks| ==> Codable(t, ks[i])
  }

  function TokensBits(t: Tables, ks: seq<Token>): Bits
    requires AllCodable(t, ks)
  {
    if ks == [] then [] else TokensBits(t, ks[..|ks| - 1]) + TokenBits(t, ks[|ks| - 1])
  }

  lemma RunLiteral(cfg: Config, bits: Bits, s: State, b: byte)
    requires s.pc.Symbol? && UsableTables(s.pc.t) && Codable(s.pc.t, Literal(b))
    requires At(bits, s.pos, TokenBits(s.pc.t, Literal(b)))
    ensures Reaches(cfg, bits, s, s.(pos := s.pos + |TokenBits(s.pc.t, Literal(b))|, out := s.out + [b]))
  {
    hide Feasible, Reaches, Code, DecodeSym;
    var t := s.pc.t;
    DecodeSymAt(t.lit, bits, s.pos, b);
    var s1 := s.(pc := Emit(s.pc.fin, t, b), pos := s.pos + t.lit[b]);
    assert Step(cfg, bits, s) == Next(s1);
    ReachesStep(cfg, bits, s, s1);
    var s2 := s1.(pc := Symbol(s.pc.fin, t), out := s.out + [b]);
    assert Step(cfg, bits, s1) == Next(s2);
    ReachesStep(cfg, bits, s1, s2);
    ReachesTrans(cfg, bits, s, s1, s2);
  }

  lemma {:induction false} RunCopy(cfg: Config, bits: Bits, s: State, n: nat)
    requires s.pc.Copy? && s.pc.len == n && 1 <= s.pc.dist <= |s.out|
    ensures Reaches(cfg, bits, s, s.(pc := Symbol(s.pc.fin, s.pc.t), out := CopyBytes(s.out, s.pc.dist, n)))
    decreases n
  {
    hide Reaches;
    var u := s.(pc := Symbol(s.pc.fin, s.pc.t), out := CopyBytes(s.out, s.pc.dist, n));
    if n == 0 {
      assert Step(cfg, bits, s) == Next(u);
      ReachesStep(cfg, bits, s, u);
    } else {
      var b := s.out[|s.out| - s.pc.dist];
      var s1 := s.(pc := Copy(s.pc.fin, s.pc.t, n - 1, s.pc.dist), out := s.out + [b]);
      assert Step(cfg, bits, s) == Next(s1);
      ReachesStep(cfg, bits, s, s1);
      RunCopy(cfg, bits, s1, n - 1);
      ReachesTrans(cfg, bits, s, s1, u);
    }
  }

  lemma LowValue(v: nat, n: nat)
    ensures v % Pow2(n) < Pow2(n) && |Low(v, n)| == n
  {
  }

  lemma StepLenBits(cfg: Config, bits: Bits, s: State, v: nat)
    requires s.pc.LenBits? && 257 <= s.pc.sym <= 285
    requires GetBits(bits, s.pos, LENGTH_EXTRA[s.pc.sym - 257]) == Some(v)
    ensures Step(cfg, bits, s) == Next(s.(pc := DistCode(s.pc.fin, s.pc.t, LENGTH_BASE[s.pc.sym - 257] + v),
                                          pos := s.pos + LENGTH_EXTRA[s.pc.sym - 257]))
  {
    hide LENGTH_BASE, LENGTH_EXTRA, GetBits, DecodeSym, StepZlib, StepHead, StepStored, StepSizes, StepLens, StepCopy;
  }

  lemma StepDistBits(cfg: Config, bits: Bits, s: State, v: nat)
    requires s.pc.DistBits? && s.pc.sym < 30
    requires GetBits(bits, s.pos, DIST_EXTRA[s.pc.sym]) == Some(v)
    requires 1 <= DIST_BASE[s.pc.sym] + v <= |s.out|
    ensures Step(cfg, bits, s) == Next(s.(pc := Copy(s.pc.fin, s.pc.t, s.pc.len, DIST_BASE[s.pc.sym] + v),
                                          pos := s.pos + DIST_EXTRA[s.pc.sym]))
  {
    hide GetBits, DecodeSym, StepZlib, StepHead, StepStored, StepSizes, StepLens, StepSymbol;
  }

  lemma RunLength(cfg: Config, bits: Bits, s: State, m: nat)
    requires s.pc.Symbol? && UsableTables(s.pc.t) && m < 256
    requires LenSym(m) < |s.pc.t.lit| && s.pc.t.lit[LenSym(m)] > 0
    requires At(bits, s.pos, LengthBits(s.pc.t, m))
    ensures Reaches(cfg, bits, s,
            s.(pc := DistCode(s.pc.fin, s.pc.t, m + MIN_MATCH), pos := s.pos + |LengthBits(s.pc.t, m)|))
  {
    hide Feasible, Reaches, Code, DecodeSym, GetBits, LenSym, LenExtra, Pow2;
    LengthAlphabet(m);
    var t, sym, n := s.pc.t, LenSym(m), LenExtra(m);
    var v := m % Pow2(n);
    LowValue(m, n);
    AtSplit(bits, s.pos, Code(t.lit, sym), Low(m, n));
    DecodeSymAt(t.lit, bits, s.pos, sym);
    var s1 := s.(pc := LenBits(s.pc.fin, t, sym), pos := s.pos + t.lit[sym]);
    assert Step(cfg, bits, s) == Next(s1);
    ReachesStep(cfg, bits, s, s1);
    GetBitsAt(bits, s1.pos, v, n);
    var s2 := s1.(pc := DistCode(s.pc.fin, t, m + MIN_MATCH), pos := s1.pos + n);
    StepLenBits(cfg, bits, s1, v);
    ReachesStep(cfg, bits, s1, s2);
    ReachesTrans(cfg, bits, s, s1, s2);
  }

  lemma RunDistance(cfg: Config, bits: Bits, s: State, d: nat)
    requires s.pc.DistCode? && UsableTables(s.pc.t) && d < WINDOW && d < |s.out|
    requires DistSym(d) < |s.pc.t.dist| && s.pc.t.dist[DistSym(d)] > 0
    requires At(bits, s.pos, DistanceBits(s.pc.t, d))
    ensures Reaches(cfg, bits, s,
            s.(pc := Copy(s.pc.fin, s.pc.t, s.pc.len, d + 1), pos := s.pos + |DistanceBits(s.pc.t, d)|))
  {
    hide Feasible, Reaches, Code, DecodeSym, GetBits, DistSym, DistExtra, Pow2;
    DistanceAlphabet(d);
    var t, sym, n := s.pc.t, DistSym(d), DistExtra(d);
    LowValue(d, n);
    AtSplit(bits, s.pos, Code(t.dist, sym), Low(d, n));
    DecodeSymAt(t.dist, bits, s.pos, sym);
    var s1 := s.(pc := DistBits(s.pc.fin, t, s.pc.len, sym), pos := s.pos + t.dist[sym]);
    assert Step(cfg, bits, s) == Next(s1);
    ReachesStep(cfg, bits, s, s1);
    GetBitsAt(bits, s1.pos, d % Pow2(n), n);
    var s2 := s1.(pc := Copy(s.pc.fin, t, s.pc.len, d + 1), pos := s1.pos + n);
    StepDistBits(cfg, bits, s1, d % Pow2(n));
    ReachesStep(cfg, bits, s1, s2);
    ReachesTrans(cfg, bits, s, s1, s2);
  }

  lemma RunMatch(cfg: Config, bits: Bits, s: State, k: Token)
    requires s.pc.Symbol? && UsableTables(s.pc.t) && k.Match? && Codable(s.pc.t, k) && ValidToken(k, |s.out|)
    requires At(bits, s.pos, TokenBits(s.pc.t, k))
    ensures Reaches(cfg, bits, s, s.(pos := s.pos + |TokenBits(s.pc.t, k)|, out := Apply(s.out, k)))
  {
    hide Feasible, Reaches, LenSym, DistSym, LengthBits, DistanceBits, At, CopyBytes, Code;
    var t, m, d := s.pc.t, k.len - MIN_MATCH, k.dist - 1;
    AtSplit(bits, s.pos, LengthBits(t, m), DistanceBits(t, d));
    RunLength(cfg, bits, s, m);
    var s1 := s.(pc := DistCode(s.pc.fin, t, k.len), pos := s.pos + |LengthBits(t, m)|);
    RunDistance(cfg, bits, s1, d);
    var s2 := s1.(pc := Copy(s.pc.fin, t, k.len, k.dist), pos := s1.pos + |DistanceBits(t, d)|);
    RunCopy(cfg, bits, s2, k.len);
    var s3 := s2.(pc := s.pc, out := CopyBytes(s.out, k.dist, k.len));
    ReachesTrans(cfg, bits, s, s1, s2);
    ReachesTrans(cfg, bits, s, s2, s3);
  }

  lemma RunToken(cfg: Config, bits: Bits, s: State, k: Token)
    requires s.pc.Symbol? && UsableTables(s.pc.t) && Codable(s.pc.t, k) && ValidToken(k, |s.out|)
    requires At(bits, s.pos, TokenBits(s.pc.t, k))
    ensures Reaches(cfg, bits, s, s.(pos := s.pos + |TokenBits(s.pc.t, k)|, out := Apply(s.out, k)))
  {
    hide Reaches, UsableTables, TokenBits;
    if k.Literal? {
      RunLiteral(cfg, bits, s, k.b);
    } else {
      RunMatch(cfg, bits, s, k);
    }
  }

  lemma {:induction false} ValidInit(ks: seq<Token>, out: seq<byte>)
    requires ks != [] && ValidTokens(ks, |out|)
    ensures var r := ks[..|ks| - 1];
            ValidTokens(r, |out|) && ValidToken(ks[|ks| - 1], |Expand(out, r)|)
            && Expand(out, ks) == Apply(Expand(out, r), ks[|ks| - 1])
    decreases |ks|
  {
    var r := ks[..|ks| - 1];
    if |ks| == 1 {
      assert ks[1..] == [];
    } else {
      ValidInit(ks[1..], Apply(out, ks[0]));
      assert ks[1..][..|ks| - 2] == r[1..];
    }
  }

  /** Running a list of tokens. */
  lemma {:induction false} RunTokens(cfg: Config, bits: Bits, s: State, ks: seq<Token>)
    requires s.pc.Symbol? && UsableTables(s.pc.t) && AllCodable(s.pc.t, ks) && ValidTokens(ks, |s.out|)
    requires At(bits, s.pos, TokensBits(s.pc.t, ks))
    ensures Reaches(cfg, bits, s, s.(pos := s.pos + |TokensBits(s.pc.t, ks)|, out := Expand(s.out, ks)))
    decreases |ks|
  {
    hide Reaches, UsableTables, TokenBits, Codable, ValidTokens, Expand, Apply;
    if ks == [] {
      NothingExpands(s.out);
      ReachesSelf(cfg, bits, s);
    } else {
      var r, k := ks[..|ks| - 1], ks[|ks| - 1];
      ValidInit(ks, s.out);
      var t := s.pc.t;
      AtSplit(bits, s.pos, TokensBits(t, r), TokenBits(t, k));
      RunTokens(cfg, bits, s, r);
      var s1 := s.(pos := s.pos + |TokensBits(t, r)|, out := Expand(s.out, r));
      RunToken(cfg, bits, s1, k);
      var s2 := s1.(pos := s1.pos + |TokenBits(t, k)|, out := Apply(s1.out, k));
      ReachesTrans(cfg, bits, s, s1, s2);
    }
  }

  lemma NothingExpands(out: seq<byte>)
    ensures ValidTokens([], |out|) && Expand(out, []) == out
  {
  }

  // ---- block bodies

  /** The tokens and the end-of-block code. */
  function BodyBits(t: Tables, ks: seq<Token>): Bits
    requires AllCodable(t, ks) && |t.lit| > 256
  {
    TokensBits(t, ks) + Code(t.lit, 256)
  }

  /** A block body leads to the next block, having appended the expansion of its tokens, and stops
      right behind the end-of-block code. */
  lemma RunBody(cfg: Config, bits: Bits, s: State, ks: seq<Token>)
    requires s.pc.Symbol? && UsableTables(s.pc.t) && AllCodable(s.pc.t, ks) && ValidTokens(ks, |s.out|)
    requires |s.pc.t.lit| > 256 && s.pc.t.lit[256] > 0 && At(bits, s.pos, BodyBits(s.pc.t, ks))
    ensures Reaches(cfg, bits, s, NextBlock(cfg, s.pc.fin,
                    s.(pos := s.pos + |BodyBits(s.pc.t, ks)|, out := Expand(s.out, ks))))
  {
    hide Reaches, Feasible, TokensBits, Codable, ValidTokens, Expand, DecodeSym, Code, NextBlock;
    var t := s.pc.t;
    AtSplit(bits, s.pos, TokensBits(t, ks), Code(t.lit, 256));
    RunTokens(cfg, bits, s, ks);
    var s1 := s.(pos := s.pos + |TokensBits(t, ks)|, out := Expand(s.out, ks));
    DecodeSymAt(t.lit, bits, s1.pos, 256);
    var s2 := NextBlock(cfg, s.pc.fin, s1.(pos := s1.pos + t.lit[256]));
    NextBlockFields(cfg, s.pc.fin, s1, s1.pos + t.lit[256], s1.pc);
    assert Step(cfg, bits, s1) == Next(s2);
    ReachesStep(cfg, bits, s1, s2);
    ReachesTrans(cfg, bits, s, s1, s2);
  }

  /** NextBlock does not look at the state it leaves. */
  lemma NextBlockFields(cfg: Config, fin: bool, s: State, p: nat, pc: Pc)
    ensures NextBlock(cfg, fin, s.(pos := p)) == NextBlock(cfg, fin, s.(pos := p, pc := pc))
  {
  }
}
