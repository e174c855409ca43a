/** The numbers of the DEFLATE format by the rules of RFC 1951 from which its tables are made. */
module FormatRules {
  import opened Bits
  import opened Canonical
  import opened Tokens
  import opened Reference
  import opened CodeLengthRle
  import opened Bytes
  import opened FlushParts

  // ---- section 3.2.5: lengths and distances

  /** Lengths: eight symbols of one length each, then four symbols for each number of extra bits, and 258. */
  ghost predicate LengthIs(sym: nat)
    requires 257 <= sym <= 285
  {
    var k := sym - 261;
    if sym < 265 then LENGTH_BASE[sym - 257] == sym - 254 && LENGTH_EXTRA[sym - 257] == 0
    else if sym < 285 then
      && LENGTH_EXTRA[sym - 257] == k / 4
      && LENGTH_BASE[sym - 257] == 3 + (4 + k % 4) * Pow2(k / 4)
    else LENGTH_BASE[sym - 257] == 258 && LENGTH_EXTRA[sym - 257] == 0
  }

  lemma ShortLength(sym: nat)
    requires 257 <= sym < 273
    ensures LengthIs(sym)
  {
    SmallPowers();
    hide Pow2;
  }

  lemma LongLength(sym: nat)
    requires 273 <= sym <= 285
    ensures LengthIs(sym)
  {
    SmallPowers();
    hide Pow2;
  }

  lemma LengthRule(sym: nat)
    requires 257 <= sym <= 285
    ensures LengthIs(sym)
  {
    if sym < 273 { ShortLength(sym); } else { LongLength(sym); }
  }

  /** Distances: four symbols of one distance each, then two symbols for each number of extra bits. */
  lemma DistanceRule(sym: nat)
    requires sym < 30
    ensures if sym < 4 then DIST_BASE[sym] == sym + 1 && DIST_EXTRA[sym] == 0
            else DIST_EXTRA[sym] == sym / 2 - 1 && DIST_BASE[sym] == 1 + (2 + sym % 2) * Pow2(sym / 2 - 1)
  {
    SmallPowers();
    hide Pow2;
  }

  // ---- section 3.2.6: the fixed codes

  lemma {:induction false} FixedCounts(n: nat)
    requires n <= 288
    ensures Count(StaticLit(), 7, n) == if n <= 256 then 0 else if n <= 280 then n - 256 else 24
    ensures Count(StaticLit(), 8, n) == if n <= 144 then n else if n <= 280 then 144 else n - 136
    ensures Count(StaticLit(), 9, n) == if n <= 144 then 0 else if n <= 256 then n - 144 else 112
    ensures forall l :: 0 <= l < 7 ==> Count(StaticLit(), l, n) == 0
  {
    if n > 0 { FixedCounts(n - 1); }
  }

  lemma FixedFirst()
    ensures FirstCode(StaticLit(), 7) == 0 && FirstCode(StaticLit(), 8) == 48 && FirstCode(StaticLit(), 9) == 400
  {
    hide Count, StaticLit;
    FixedCounts(288);
    var f := StaticLit();
    assert FirstCode(f, 1) == 0 && FirstCode(f, 2) == 0;
    assert FirstCode(f, 3) == 0 && FirstCode(f, 4) == 0;
    assert FirstCode(f, 5) == 0 && FirstCode(f, 6) == 0;
  }

  /** The table of the section: which bits, from 00110000 on, from 110010000 on, from 0000000 on and from
      11000000 on, stand for which symbols. */
  lemma FixedCodes(i: nat)
    requires i < 288
    ensures StaticLit()[i] == if 144 <= i <= 255 then 9 else if 256 <= i <= 279 then 7 else 8
    ensures CodeNumber(StaticLit(), i) ==
              if i <= 143 then 0x30 + i else if i <= 255 then 0x190 + i - 144
              else if i <= 279 then i - 256 else 0xC0 + i - 280
  {
    hide Count, FirstCode;
    FixedFirst();
    FixedCounts(i);
  }

  lemma {:induction false} FixedDistanceCounts(n: nat)
    requires n <= 32
    ensures Count(StaticDist(), 5, n) == n && forall l :: 0 <= l < 5 ==> Count(StaticDist(), l, n) == 0
  {
    if n > 0 { FixedDistanceCounts(n - 1); }
  }

  /** Distances have codes of five bits, in order. */
  lemma FixedDistances(i: nat)
    requires i < 32
    ensures StaticDist()[i] == 5 && CodeNumber(StaticDist(), i) == i
  {
    hide Count, StaticDist;
    FixedDistanceCounts(32);
    FixedDistanceCounts(i);
    var f := StaticDist();
    assert f[i] == 5 by { DistanceSize(i); }
    assert FirstCode(f, 1) == 0 && FirstCode(f, 2) == 0;
    assert FirstCode(f, 3) == 0 && FirstCode(f, 4) == 0;
  }

  lemma DistanceSize(i: nat)
    requires i < 32
    ensures StaticDist()[i] == 5
  {
  }

  // ---- section 3.2.7: dynamic blocks

  /** Code 16 repeats the length before it 3 to 6 times, code 17 stands for 3 to 10 zeros and code 18 for 11 to
      138, in 2, 3 and 7 extra bits. */
  lemma RunCodes(lens: seq<nat>, v: nat)
    ensures ExtraBits(16) == 2 && ExtraBits(17) == 3 && ExtraBits(18) == 7
    ensures lens != [] ==>
              var r := Append(lens, Op(16, v));
              && |r| == |lens| + 3 + v && r[..|lens|] == lens
              && forall i :: |lens| <= i < |r| ==> r[i] == lens[|lens| - 1]
    ensures forall code :: 17 <= code <= 18 ==>
              var r := Append(lens, Op(code, v));
              && |r| == |lens| + (if code == 17 then 3 else 11) + v && r[..|lens|] == lens
              && forall i :: |lens| <= i < |r| ==> r[i] == 0
    ensures forall code :: 0 <= code < 16 ==> Append(lens, Op(code, v)) == lens + [code]
  {
  }

  /** The three numbers in front of a dynamic header: 257 more literal and length codes, one more distance code
      and four more lengths than the numbers say, in 5, 5 and 4 bits. */
  lemma HeaderNumbers(cfg: Config, bits: Bits, s: State)
    requires s.pc.Sizes? && s.pc.got == [] && s.pos + 14 <= |bits|
    ensures var nlit := 257 + ValueOf(bits[s.pos..s.pos + 5]);
            var ndist := 1 + ValueOf(bits[s.pos + 5..s.pos + 10]);
            var nlen := 4 + ValueOf(bits[s.pos + 10..s.pos + 14]);
            Reaches(cfg, bits, s, s.(pc := LenLens(s.pc.fin, nlit, ndist, nlen, []), pos := s.pos + 14))
  {
    hide Reaches, ValueOf;
    var a, b, c := ValueOf(bits[s.pos..s.pos + 5]), ValueOf(bits[s.pos + 5..s.pos + 10]),
        ValueOf(bits[s.pos + 10..s.pos + 14]);
    var s1 := s.(pc := Sizes(s.pc.fin, [257 + a]), pos := s.pos + 5);
    var s2 := s.(pc := Sizes(s.pc.fin, [257 + a, 1 + b]), pos := s.pos + 10);
    var s3 := s.(pc := LenLens(s.pc.fin, 257 + a, 1 + b, 4 + c, []), pos := s.pos + 14);
    assert [] + [a + 257] == [257 + a] && [257 + a] + [b + 1] == [257 + a, 1 + b];
    NumberStep(cfg, bits, s, s1, a);
    NumberStep(cfg, bits, s1, s2, b);
    LastNumber(cfg, bits, s2, c);
    ReachesStep(cfg, bits, s, s1);
    ReachesStep(cfg, bits, s1, s2);
    ReachesStep(cfg, bits, s2, s3);
    ReachesTrans(cfg, bits, s, s1, s2);
    ReachesTrans(cfg, bits, s, s2, s3);
  }

  lemma NumberStep(cfg: Config, bits: Bits, s: State, t: State, v: nat)
    requires s.pc.Sizes? && |s.pc.got| < 2 && GetBits(bits, s.pos, 5) == Some(v)
    requires t == s.(pc := Sizes(s.pc.fin, s.pc.got + [v + if s.pc.got == [] then 257 else 1]), pos := s.pos + 5)
    ensures Step(cfg, bits, s) == Next(t)
  {
    hide GetBits;
  }

  lemma LastNumber(cfg: Config, bits: Bits, s: State, v: nat)
    requires s.pc.Sizes? && |s.pc.got| == 2 && GetBits(bits, s.pos, 4) == Some(v)
    ensures Step(cfg, bits, s)
            == Next(s.(pc := LenLens(s.pc.fin, s.pc.got[0], s.pc.got[1], 4 + v, []), pos := s.pos + 4))
  {
    hide GetBits;
  }

  // ---- section 3.1.1: the order of bits

  /** Numbers begin with their least significant bit. */
  lemma {:induction false} LeastFirst(v: nat, n: nat, i: nat)
    requires i < n
    ensures BitsOf(v, n)[i] == ((v / Pow2(i)) % 2 == 1)
  {
    if i > 0 {
      LeastFirst(v / 2, n - 1, i - 1);
      HalfThenDivide(v, Pow2(i - 1));
    }
  }

  /** Bytes come one after another, each with its least significant bit first. */
  lemma {:induction false} ByteOrder(s: seq<byte>, i: nat, j: nat)
    requires i < |s| && j < 8
    ensures ByteBits(s)[8 * i + j] == ((s[i] / Pow2(j)) % 2 == 1)
    decreases |s|
  {
    hide BitsOf, Pow2;
    if i < |s| - 1 {
      ByteOrder(s[..|s| - 1], i, j);
    } else {
      LeastFirst(s[i], 8, j);
    }
  }

  /** Huffman codes begin with their most significant bit. */
  lemma {:induction false} MostFirst(v: nat, n: nat, i: nat)
    requires i < n
    ensures MsbBits(v, n)[i] == ((v / Pow2(n - 1 - i)) % 2 == 1)
  {
    if i < n - 1 {
      MostFirst(v / 2, n - 1, i);
      HalfThenDivide(v, Pow2(n - 2 - i));
    }
  }

  // ---- section 3.2.3: block headers

  /** The final flag and the two bits of the type: 00 stored, 01 fixed, 10 dynamic, 11 an error. */
  lemma BlockTypes(cfg: Config, bits: Bits, s: State)
    requires s.pc.Head? && s.pos + 3 <= |bits|
    ensures var fin, lo, hi, o := bits[s.pos], bits[s.pos + 1], bits[s.pos + 2], Step(cfg, bits, s);
            && o.Next? && o.s.out == s.out
            && (!hi && !lo ==> o.s.pc == StoredHead(fin, []) && o.s.pos % 8 == 0 && s.pos + 3 <= o.s.pos < s.pos + 11)
            && (!hi && lo ==> o.s.pc == Symbol(fin, Tables(StaticLit(), StaticDist())) && o.s.pos == s.pos + 3)
            && (hi && !lo ==> o.s.pc == Sizes(fin, []) && o.s.pos == s.pos + 3)
            && (hi && lo ==> o.s.pc == Failed)
  {
    hide StaticLit, StaticDist, Step, ValueOf;
    ThreeBits(bits, s.pos);
    HeadStepIs(cfg, bits, s);
  }

  lemma HeadStepIs(cfg: Config, bits: Bits, s: State)
    requires s.pc.Head?
    ensures Step(cfg, bits, s) == StepHead(cfg, bits, s)
  {
    hide StepHead;
  }

  lemma ThreeBits(bits: Bits, pos: nat)
    requires pos + 3 <= |bits|
    ensures ValueOf(bits[pos..pos + 3]) == Bit(bits[pos]) + 2 * Bit(bits[pos + 1]) + 4 * Bit(bits[pos + 2])
  {
    var b := bits[pos..pos + 3];
    assert ValueOf(b) == Bit(b[0]) + 2 * ValueOf(b[1..]);
    assert ValueOf(b[1..]) == Bit(b[1]) + 2 * ValueOf(b[2..]) && b[1..][1..] == b[2..];
    assert ValueOf(b[2..]) == Bit(b[2]) + 2 * ValueOf(b[3..]) && b[2..][1..] == b[3..];
  }

  /** Section 3.2.4: the length of a stored block in two bytes, least significant first, and its complement. */
  lemma StoredLengths(raw: seq<byte>)
    requires |raw| == 4
    ensures !BadStored(raw) <==> raw[2] == 255 - raw[0] && raw[3] == 255 - raw[1]
  {
  }

  // ---- RFC 1950

  /** Section 2.2: method 8, no preset dictionary, and a multiple of 31; a window of more than 32768 bytes is
      refused where the output is a window of that size. */
  lemma ZlibHeader(cfg: Config, cmf: byte, flg: byte)
    ensures !BadHeader(cfg, cmf, flg) <==>
              && cmf % 16 == 8 && (flg / 32) % 2 == 0 && ((cmf as int) * 256 + flg) % 31 == 0
              && (cfg.flat || Pow2(8 + cmf / 16) <= 32768)
  {
    SmallPowers();
    WindowBits(cmf / 16);
  }

  lemma WindowBits(k: nat)
    requires k < 16
    ensures Pow2(8 + k) <= 32768 <==> k <= 7
  {
    SmallPowers();
    if k > 7 { Pow2Monotone(16, 8 + k); }
  }

  /** The check value is sent most significant byte first. */
  lemma CheckOrder(v: nat)
    requires v < 0x1_0000_0000
    ensures var b := BigEndian(v);
            |b| == 4 && v == (b[0] as int) * 0x100_0000 + (b[1] as int) * 0x1_0000 + (b[2] as int) * 0x100 + b[3]
  {
  }

  // ---- section 2: matches

  /** A match of len bytes at a distance of dist makes every byte that it appends the one dist before, also
      where the match overlaps itself. */
  lemma {:induction false} MatchCopies(cfg: Config, bits: Bits, s: State) returns (t: State)
    requires s.pc.Copy? && 1 <= s.pc.dist <= |s.out|
    ensures Reaches(cfg, bits, s, t) && t.pc == Symbol(s.pc.fin, s.pc.t) && t.pos == s.pos
    ensures |t.out| == |s.out| + s.pc.len && t.out[..|s.out|] == s.out
    ensures forall i :: |s.out| <= i < |t.out| ==> t.out[i] == t.out[i - s.pc.dist]
    decreases s.pc.len
  {
    hide Reaches;
    if s.pc.len == 0 {
      t := s.(pc := Symbol(s.pc.fin, s.pc.t));
      CopyEnds(cfg, bits, s);
      ReachesStep(cfg, bits, s, t);
    } else {
      var u := State(Copy(s.pc.fin, s.pc.t, s.pc.len - 1, s.pc.dist), s.pos, s.out + [s.out[|s.out| - s.pc.dist]]);
      CopyGoesOn(cfg, bits, s, u);
      ReachesStep(cfg, bits, s, u);
      t := MatchCopies(cfg, bits, u);
      ReachesTrans(cfg, bits, s, u, t);
      assert t.out[..|s.out|] == t.out[..|u.out|][..|s.out|];
      assert t.out[|s.out|] == u.out[|s.out|];
    }
  }

  lemma CopyEnds(cfg: Config, bits: Bits, s: State)
    requires s.pc.Copy? && s.pc.len == 0
    ensures Step(cfg, bits, s) == Next(s.(pc := Symbol(s.pc.fin, s.pc.t)))
  {
  }

  lemma CopyGoesOn(cfg: Config, bits: Bits, s: State, u: State)
    requires s.pc.Copy? && s.pc.len > 0 && 1 <= s.pc.dist <= |s.out|
    requires u == State(Copy(s.pc.fin, s.pc.t, s.pc.len - 1, s.pc.dist), s.pos, s.out + [s.out[|s.out| - s.pc.dist]])
    ensures Step(cfg, bits, s) == Next(u)
  {
  }
}
