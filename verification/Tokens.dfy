/** LZ tokens, their expansion, and the length and distance alphabets of section 3.2.5 of RFC 1951
    as the tables of the compressor (by value) and of the decompressor (by symbol) give them. */
module Tokens {
  import opened Bytes
  import opened Bits

  datatype Token = Literal(b: byte) | Match(len: nat, dist: nat)

  const MIN_MATCH: nat := 3
  const MAX_MATCH: nat := 258
  const WINDOW: nat := 32768

  /** A token that may follow the output out. */
  predicate ValidToken(t: Token, produced: nat) {
    t.Match? ==> MIN_MATCH <= t.len <= MAX_MATCH && 1 <= t.dist <= WINDOW && t.dist <= produced
  }

  /** Copying byte by byte from dist behind the end, so that a copy may overlap itself. */
  function CopyBytes(out: seq<byte>, dist: nat, n: nat): (r: seq<byte>)
    requires 1 <= dist <= |out|
    ensures |r| == |out| + n && r[..|out|] == out
    decreases n
  {
    if n == 0 then out else CopyBytes(out + [out[|out| - dist]], dist, n - 1)
  }

  function Produces(t: Token): nat {
    if t.Literal? then 1 else t.len
  }

  function Apply(out: seq<byte>, t: Token): (r: seq<byte>)
    requires ValidToken(t, |out|)
    ensures |r| == |out| + Produces(t) && r[..|out|] == out
  {
    if t.Literal? then out + [t.b] else CopyBytes(out, t.dist, t.len)
  }

  predicate ValidTokens(ts: seq<Token>, produced: nat) {
    ts == [] || (ValidToken(ts[0], produced) && ValidTokens(ts[1..], produced + Produces(ts[0])))
  }

  /** The output after a list of tokens. */
  function Expand(out: seq<byte>, ts: seq<Token>): (r: seq<byte>)
    requires ValidTokens(ts, |out|)
    ensures |r| >= |out| && r[..|out|] == out
    decreases |ts|
  {
    if ts == [] then out else Expand(Apply(out, ts[0]), ts[1..])
  }

  lemma {:induction false} ExpandSnoc(out: seq<byte>, ts: seq<Token>, t: Token)
    requires ValidTokens(ts, |out|) && ValidToken(t, |Expand(out, ts)|)
    ensures ValidTokens(ts + [t], |out|) && Expand(out, ts + [t]) == Apply(Expand(out, ts), t)
    decreases |ts|
  {
    if ts == [] {
      assert ts + [t] == [t];
      assert [t][1..] == [];
    } else {
      ExpandSnoc(Apply(out, ts[0]), ts[1..], t);
      assert (ts + [t])[1..] == ts[1..] + [t];
    }
  }

  // ---- tables of the compressor, indexed by match_len - 3 and match_dist - 1

  function LenSym(m: nat): nat
    requires m < 256
  {
    if m < 8 then 257 + m
    else if m < 16 then 265 + (m - 8) / 2
    else if m < 32 then 269 + (m - 16) / 4
    else if m < 64 then 273 + (m - 32) / 8
    else if m < 128 then 277 + (m - 64) / 16
    else if m < 255 then 281 + (m - 128) / 32
    else 285
  }

  function LenExtra(m: nat): nat
    requires m < 256
  {
    if m < 8 then 0 else if m < 16 then 1 else if m < 32 then 2 else if m < 64 then 3
    else if m < 128 then 4 else if m < 255 then 5 else 0
  }

  function SmallDistSym(d: nat): nat
    requires d < 512
  {
    if d < 4 then d
    else if d < 8 then 4 + (d - 4) / 2
    else if d < 16 then 6 + (d - 8) / 4
    else if d < 32 then 8 + (d - 16) / 8
    else if d < 64 then 10 + (d - 32) / 16
    else if d < 128 then 12 + (d - 64) / 32
    else if d < 256 then 14 + (d - 128) / 64
    else 16 + (d - 256) / 128
  }

  function SmallDistExtra(d: nat): nat
    requires d < 512
  {
    if d < 4 then 0 else if d < 8 then 1 else if d < 16 then 2 else if d < 32 then 3
    else if d < 64 then 4 else if d < 128 then 5 else if d < 256 then 6 else 7
  }

  /** Indexed by the high byte of match_dist - 1, which is at least 2 here. */
  function LargeDistSym(h: nat): nat
    requires 2 <= h < 128
  {
    if h < 4 then 16 + h
    else if h < 8 then 20 + (h - 4) / 2
    else if h < 16 then 22 + (h - 8) / 4
    else if h < 32 then 24 + (h - 16) / 8
    else if h < 64 then 26 + (h - 32) / 16
    else 28 + (h - 64) / 32
  }

  function LargeDistExtra(h: nat): nat
    requires 2 <= h < 128
  {
    if h < 4 then 8 else if h < 8 then 9 else if h < 16 then 10 else if h < 32 then 11
    else if h < 64 then 12 else 13
  }

  function DistSym(d: nat): nat
    requires d < WINDOW
  {
    if d < 512 then SmallDistSym(d) else LargeDistSym(d / 256)
  }

  function DistExtra(d: nat): nat
    requires d < WINDOW
  {
    if d < 512 then SmallDistExtra(d) else LargeDistExtra(d / 256)
  }

  // ---- tables of the decompressor, indexed by symbol

  const LENGTH_BASE: seq<nat> :=
      [3, 4, 5, 6, 7, 8, 9, 10, 11, 13, 15, 17, 19, 23, 27, 31, 35, 43, 51, 59, 67, 83, 99, 115, 131, 163, 195, 227,
      258, 0, 0]
  const LENGTH_EXTRA: seq<nat> :=
      [0, 0, 0, 0, 0, 0, 0, 0, 1, 1, 1, 1, 2, 2, 2, 2, 3, 3, 3, 3, 4, 4, 4, 4, 5, 5, 5, 5, 0, 0, 0]
  const DIST_BASE: seq<nat> :=
      [1, 2, 3, 4, 5, 7, 9, 13, 17, 25, 33, 49, 65, 97, 129, 193, 257, 385, 513, 769, 1025, 1537, 2049, 3073, 4097,
      6145, 8193, 12289, 16385, 24577, 0, 0]
  const DIST_EXTRA: seq<nat> :=
      [0, 0, 0, 0, 1, 1, 2, 2, 3, 3, 4, 4, 5, 5, 6, 6, 7, 7, 8, 8, 9, 9, 10, 10, 11, 11, 12, 12, 13, 13, 0, 0]

  lemma SmallPowers()
    ensures Pow2(0) == 1 && Pow2(1) == 2 && Pow2(2) == 4 && Pow2(3) == 8 && Pow2(4) == 16 && Pow2(5) == 32
    ensures Pow2(6) == 64 && Pow2(7) == 128 && Pow2(8) == 256 && Pow2(9) == 512 && Pow2(10) == 1024
    ensures Pow2(11) == 2048 && Pow2(12) == 4096 && Pow2(13) == 8192
  {
    assert Pow2(5) == 32;
    assert Pow2(9) == 512;
  }

  lemma ShortLengths(m: nat)
    requires m < 16
    ensures 257 <= LenSym(m) <= 285
    ensures LENGTH_EXTRA[LenSym(m) - 257] == LenExtra(m) <= 5
    ensures LENGTH_BASE[LenSym(m) - 257] + m % Pow2(LenExtra(m)) == m + MIN_MATCH
  {
    SmallPowers();
    hide Pow2;
  }

  lemma MediumLengths(m: nat)
    requires 16 <= m < 64
    ensures 257 <= LenSym(m) <= 285
    ensures LENGTH_EXTRA[LenSym(m) - 257] == LenExtra(m) <= 5
    ensures LENGTH_BASE[LenSym(m) - 257] + m % Pow2(LenExtra(m)) == m + MIN_MATCH
  {
    SmallPowers();
    hide Pow2;
  }

  lemma LongLengths(m: nat)
    requires 64 <= m < 256
    ensures 257 <= LenSym(m) <= 285
    ensures LENGTH_EXTRA[LenSym(m) - 257] == LenExtra(m) <= 5
    ensures LENGTH_BASE[LenSym(m) - 257] + m % Pow2(LenExtra(m)) == m + MIN_MATCH
  {
    SmallPowers();
    hide Pow2;
  }

  /** Symbol, extra bits and base of a length belong together. */
  lemma LengthAlphabet(m: nat)
    requires m < 256
    ensures 257 <= LenSym(m) <= 285
    ensures LENGTH_EXTRA[LenSym(m) - 257] == LenExtra(m) <= 5
    ensures LENGTH_BASE[LenSym(m) - 257] + m % Pow2(LenExtra(m)) == m + MIN_MATCH
  {
    if m < 16 { ShortLengths(m); } else if m < 64 { MediumLengths(m); } else { LongLengths(m); }
  }

  lemma TinyDistances(d: nat)
    requires d < 64
    ensures SmallDistSym(d) < 30
    ensures DIST_EXTRA[SmallDistSym(d)] == SmallDistExtra(d) <= 13
    ensures DIST_BASE[SmallDistSym(d)] + d % Pow2(SmallDistExtra(d)) == d + 1
  {
    SmallPowers();
    hide Pow2;
  }

  lemma SmallDistances(d: nat)
    requires 64 <= d < 512
    ensures SmallDistSym(d) < 30
    ensures DIST_EXTRA[SmallDistSym(d)] == SmallDistExtra(d) <= 13
    ensures DIST_BASE[SmallDistSym(d)] + d % Pow2(SmallDistExtra(d)) == d + 1
  {
    SmallPowers();
    hide Pow2;
  }

  lemma LargeDistances(d: nat)
    requires 512 <= d < WINDOW
    ensures LargeDistSym(d / 256) < 30
    ensures DIST_EXTRA[LargeDistSym(d / 256)] == LargeDistExtra(d / 256) <= 13
    ensures DIST_BASE[LargeDistSym(d / 256)] + d % Pow2(LargeDistExtra(d / 256)) == d + 1
  {
    SmallPowers();
    hide Pow2;
  }

  lemma DistanceAlphabet(d: nat)
    requires d < WINDOW
    ensures DistSym(d) < 30
    ensures DIST_EXTRA[DistSym(d)] == DistExtra(d) <= 13
    ensures DIST_BASE[DistSym(d)] + d % Pow2(DistExtra(d)) == d + 1
  {
    if d < 64 { TinyDistances(d); } else if d < 512 { SmallDistances(d); } else { LargeDistances(d); }
  }
}
