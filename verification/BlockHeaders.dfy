/** The three kinds of blocks as bits, and what the reference machine makes of them. */
module BlockHeaders {
  import opened Bytes
  import opened Bits
  import opened Canonical
  import opened InflateTable
  import opened Tokens
  import opened Reference
  import opened CodeLengthRle
  import opened BlockFormat

  /** The final flag and the kind of a block. */
  function KindBits(fin: bool, kind: nat): (b: Bits)
    ensures |b| == 3
  {
    [fin] + BitsOf(kind, 2)
  }

  lemma KindValue(bits: Bits, pos: nat, fin: bool, kind: nat)
    requires kind < 4 && At(bits, pos, KindBits(fin, kind))
    ensures GetBits(bits, pos, 3) == Some(Bit(fin) + 2 * kind)
  {
    hide BitsOf;
    var x := KindBits(fin, kind);
    assert x[1..] == BitsOf(kind, 2);
    SmallPowers();
    ValueOfBitsOf(kind, 2);
  }

  // ---- static blocks

  lemma {:induction false} StaticLitBelow(n: nat)
    requires n <= 288
    ensures Below(StaticLit(), 16, 0, n) ==
            if n <= 144 then n * 128 else if n <= 256 then 18432 + (n - 144) * 64
            else if n <= 280 then 25600 + (n - 256) * 256 else 31744 + (n - 280) * 128
  {
    SmallPowers();
    if n > 0 { StaticLitBelow(n - 1); }
  }

  lemma {:induction false} StaticDistBelow(n: nat)
    requires n <= 32
    ensures Below(StaticDist(), 16, 0, n) == n * 1024
  {
    SmallPowers();
    if n > 0 { StaticDistBelow(n - 1); }
  }

  lemma Pow15()
    ensures Pow2(15) == 32768
  {
    SmallPowers();
    assert Pow2(15) == 2 * Pow2(14);
    assert Pow2(14) == 2 * Pow2(13);
  }

  /** The fixed codes are complete. */
  lemma StaticComplete()
    ensures Complete(StaticLit()) && Complete(StaticDist())
  {
    hide Pow2, Below;
    Pow15();
    StaticLitBelow(288);
    StaticDistBelow(32);
  }

  function StaticTables(): Tables {
    Tables(StaticLit(), StaticDist())
  }

  /** Under the fixed codes every token has a code. */
  lemma StaticCodable(k: Token)
    requires k.Match? ==> MIN_MATCH <= k.len <= MAX_MATCH && 1 <= k.dist <= WINDOW
    ensures Codable(StaticTables(), k)
  {
    hide LenSym, DistSym;
    if k.Match? {
      LengthAlphabet(k.len - MIN_MATCH);
      DistanceAlphabet(k.dist - 1);
    }
  }

  lemma RunStaticHead(cfg: Config, bits: Bits, s: State, fin: bool)
    requires s.pc.Head? && At(bits, s.pos, KindBits(fin, 1))
    ensures Reaches(cfg, bits, s, s.(pc := Symbol(fin, StaticTables()), pos := s.pos + 3))
  {
    hide Reaches, GetBits, KindBits, StaticLit, StaticDist;
    KindValue(bits, s.pos, fin, 1);
    ReachesStep(cfg, bits, s, s.(pc := Symbol(fin, StaticTables()), pos := s.pos + 3));
  }

  // ---- stored blocks

  /** Padding to the next byte boundary. */
  function Padding(pos: nat): (b: Bits)
    ensures |b| == Align(pos) - pos
  {
    Zeros((8 - pos % 8) % 8)
  }

  /** A stored block that starts at position pos. */
  function StoredBits(fin: bool, pos: nat, data: seq<byte>): Bits
    requires |data| <= 65535
  {
    KindBits(fin, 0) + Padding(pos + 3) + BitsOf(|data|, 16) + BitsOf(65535 - |data|, 16) + ByteBits(data)
  }

  /** A 16-bit number as two bytes. */
  lemma TwoBytes(v: nat)
    requires v <= 65535
    ensures BitsOf(v, 16) == BitsOf(v % 256, 8) + BitsOf(v / 256, 8)
  {
    SplitAt(v, 8, 16);
    HighByte(v);
    SmallPowers();
    LowBits(v, 8);
  }

  /** v without its n low bits. */
  function High(v: nat, n: nat): nat {
    if n == 0 then v else High(v, n - 1) / 2
  }

  lemma {:induction false} SplitAt(v: nat, n: nat, m: nat)
    requires n <= m
    ensures BitsOf(v, m) == BitsOf(v, n) + BitsOf(High(v, n), m - n)
    decreases n
  {
    hide BitsOf;
    if n == 0 {
      BitsOfNone(v);
    } else {
      SplitAt(v, n - 1, m);
      HighBit(v, n - 1);
      BitsOfFirst(High(v, n - 1), m - (n - 1));
    }
  }

  lemma {:induction false} HighBit(v: nat, n: nat)
    ensures BitsOf(v, n + 1) == BitsOf(v, n) + [High(v, n) % 2 == 1]
    decreases n
  {
    if n > 0 {
      HighBit(v / 2, n - 1);
      HighNext(v, n);
    }
  }

  lemma {:induction false} HighNext(v: nat, n: nat)
    requires n > 0
    ensures High(v, n) == High(v / 2, n - 1)
  {
    if n > 1 {
      HighNext(v, n - 1);
    }
  }

  lemma HighByte(v: nat)
    ensures High(v, 8) == v / 256
  {
    assert High(v, 1) == v / 2;
    assert High(v, 2) == v / 4;
    assert High(v, 3) == v / 8;
    assert High(v, 4) == v / 16;
    assert High(v, 5) == v / 32;
    assert High(v, 6) == v / 64;
    assert High(v, 7) == v / 128;
  }

  lemma BitsOfNone(v: nat)
    ensures BitsOf(v, 0) == []
  {
  }

  lemma BitsOfFirst(v: nat, n: nat)
    requires n > 0
    ensures BitsOf(v, n) == [v % 2 == 1] + BitsOf(v / 2, n - 1)
  {
  }

  /** The low bits depend on the remainder only. */
  lemma {:induction false} LowBits(v: nat, n: nat)
    ensures BitsOf(v, n) == BitsOf(v % Pow2(n), n)
  {
    var a, b := BitsOf(v, n), BitsOf(v % Pow2(n), n);
    ValueOfLow(v, n);
    ValueOfBitsOf(v % Pow2(n), n);
    ValueInjective(a, b);
  }

  lemma {:induction false} ValueOfLow(v: nat, n: nat)
    ensures ValueOf(BitsOf(v, n)) == v % Pow2(n)
  {
    if n > 0 {
      ValueOfLow(v / 2, n - 1);
      assert BitsOf(v, n)[1..] == BitsOf(v / 2, n - 1);
      ModDouble(v, Pow2(n - 1));
    }
  }

  lemma RunStoredByte(cfg: Config, bits: Bits, s: State, b: byte)
    requires s.pc.StoredHead? && |s.pc.raw| < 3 && At(bits, s.pos, BitsOf(b, 8))
    ensures Reaches(cfg, bits, s, s.(pc := StoredHead(s.pc.fin, s.pc.raw + [b]), pos := s.pos + 8))
  {
    hide Reaches, GetByte, BitsOf;
    GetByteAt(bits, s.pos, b);
    ReachesStep(cfg, bits, s, s.(pc := StoredHead(s.pc.fin, s.pc.raw + [b]), pos := s.pos + 8));
  }

  /** The length and its complement. */
  lemma RunStoredHead(cfg: Config, bits: Bits, s: State, n: nat)
    requires s.pc.StoredHead? && s.pc.raw == [] && n <= 65535
    requires At(bits, s.pos, BitsOf(n, 16) + BitsOf(65535 - n, 16))
    ensures Reaches(cfg, bits, s, s.(pc := Stored(s.pc.fin, n), pos := s.pos + 32))
  {
    hide Reaches, GetByte, BitsOf;
    var m := 65535 - n;
    TwoBytes(n);
    TwoBytes(m);
    AtSplit(bits, s.pos, BitsOf(n, 16), BitsOf(m, 16));
    AtSplit(bits, s.pos, BitsOf(n % 256, 8), BitsOf(n / 256, 8));
    AtSplit(bits, s.pos + 16, BitsOf(m % 256, 8), BitsOf(m / 256, 8));
    var fin := s.pc.fin;
    var s1 := s.(pc := StoredHead(fin, [] + [n % 256]), pos := s.pos + 8);
    RunStoredByte(cfg, bits, s, n % 256);
    var s2 := s1.(pc := StoredHead(fin, s1.pc.raw + [n / 256]), pos := s1.pos + 8);
    RunStoredByte(cfg, bits, s1, n / 256);
    var s3 := s2.(pc := StoredHead(fin, s2.pc.raw + [m % 256]), pos := s2.pos + 8);
    RunStoredByte(cfg, bits, s2, m % 256);
    GetByteAt(bits, s3.pos, m / 256);
    var s4 := s3.(pc := Stored(fin, n), pos := s3.pos + 8);
    LastStoredByte(cfg, bits, s3, n);
    ReachesStep(cfg, bits, s3, s4);
    ReachesTrans(cfg, bits, s, s1, s2);
    ReachesTrans(cfg, bits, s, s2, s3);
    ReachesTrans(cfg, bits, s, s3, s4);
  }

  lemma LastStoredByte(cfg: Config, bits: Bits, s: State, n: nat)
    requires n <= 65535 && s.pc.StoredHead?
    requires s.pc.raw == [n % 256] + [n / 256] + [(65535 - n) % 256]
    requires GetByte(bits, s.pos) == Some((65535 - n) / 256)
    ensures Step(cfg, bits, s) == Next(s.(pc := Stored(s.pc.fin, n), pos := s.pos + 8))
  {
    hide GetByte;
    var r := s.pc.raw + [(65535 - n) / 256];
    assert r[0] == n % 256 && r[1] == n / 256 && r[2] == (65535 - n) % 256 && r[3] == (65535 - n) / 256;
  }

  /** The stored bytes. */
  lemma {:induction false} RunStoredData(cfg: Config, bits: Bits, s: State, data: seq<byte>)
    requires s.pc.Stored? && s.pc.left >= |data| && At(bits, s.pos, ByteBits(data))
    ensures Reaches(cfg, bits, s,
            s.(pc := Stored(s.pc.fin, s.pc.left - |data|), pos := s.pos + 8 * |data|, out := s.out + data))
    decreases |data|
  {
    hide Reaches, GetByte, BitsOf;
    if data == [] {
      ReachesSelf(cfg, bits, s);
      assert s.out + data == s.out;
    } else {
      var r, b := data[..|data| - 1], data[|data| - 1];
      AtSplit(bits, s.pos, ByteBits(r), BitsOf(b, 8));
      RunStoredData(cfg, bits, s, r);
      var left := s.pc.left - |r|;
      var s1 := s.(pc := Stored(s.pc.fin, left), pos := s.pos + 8 * |r|, out := s.out + r);
      GetByteAt(bits, s1.pos, b);
      var s2 := s1.(pc := StoredEmit(s.pc.fin, left, b), pos := s1.pos + 8);
      ReachesStep(cfg, bits, s1, s2);
      var s3 := s2.(pc := Stored(s.pc.fin, left - 1), out := s1.out + [b]);
      ReachesStep(cfg, bits, s2, s3);
      ReachesTrans(cfg, bits, s, s1, s2);
      ReachesTrans(cfg, bits, s, s2, s3);
      assert s1.out + [b] == s.out + data;
    }
  }

  /** A stored block yields its bytes. */
  lemma RunStored(cfg: Config, bits: Bits, s: State, fin: bool, data: seq<byte>)
    requires s.pc.Head? && |data| <= 65535 && At(bits, s.pos, StoredBits(fin, s.pos, data))
    ensures Reaches(cfg, bits, s,
            NextBlock(cfg, fin, s.(pos := s.pos + |StoredBits(fin, s.pos, data)|, out := s.out + data)))
  {
    hide Reaches, GetBits, KindBits, BitsOf, ByteBits, Padding, At, NextBlock;
    var k, p, n, c, d := KindBits(fin, 0), Padding(s.pos + 3), BitsOf(|data|, 16), BitsOf(65535 - |data|, 16),
        ByteBits(data);
    assert k + p + n + c + d == k + (p + ((n + c) + d));
    AtSplit(bits, s.pos, k, p + ((n + c) + d));
    AtSplit(bits, s.pos + 3, p, (n + c) + d);
    AtSplit(bits, s.pos + 3 + |p|, n + c, d);
    KindValue(bits, s.pos, fin, 0);
    var s1 := s.(pc := StoredHead(fin, []), pos := Align(s.pos + 3));
    ReachesStep(cfg, bits, s, s1);
    RunStoredHead(cfg, bits, s1, |data|);
    var s2 := s1.(pc := Stored(fin, |data|), pos := s1.pos + 32);
    RunStoredData(cfg, bits, s2, data);
    var s3 := s2.(pc := Stored(fin, 0), pos := s2.pos + 8 * |data|, out := s.out + data);
    var s4 := NextBlock(cfg, fin, s3);
    ReachesStep(cfg, bits, s3, s4);
    NextBlockFields(cfg, fin, s.(out := s.out + data), s3.pos, Stored(fin, 0));
    ReachesTrans(cfg, bits, s, s1, s2);
    ReachesTrans(cfg, bits, s, s2, s3);
    ReachesTrans(cfg, bits, s, s3, s4);
  }
}
