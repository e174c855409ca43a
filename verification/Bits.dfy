/** Bit lists and the numbers they denote.
    Deflate packs numbers least significant bit first (BitsOf, ValueOf) and Huffman codes most
    significant bit first (MsbBits, MsbValue); section 3.1.1 of RFC 1951. */
module Bits {
  import opened Bytes

  type Bits = seq<bool>

  function Pow2(n: nat): (p: nat)
    ensures p > 0
  {
    if n == 0 then 1 else 2 * Pow2(n - 1)
  }

  function Bit(b: bool): nat {
    if b then 1 else 0
  }

  /** The n low bits of v, least significant first. */
  function BitsOf(v: nat, n: nat): (b: Bits)
    ensures |b| == n
  {
    if n == 0 then [] else [v % 2 == 1] + BitsOf(v / 2, n - 1)
  }

  function ValueOf(b: Bits): nat {
    if b == [] then 0 else Bit(b[0]) + 2 * ValueOf(b[1..])
  }

  /** The n low bits of v, most significant first. */
  function MsbBits(v: nat, n: nat): (b: Bits)
    ensures |b| == n
  {
    if n == 0 then [] else MsbBits(v / 2, n - 1) + [v % 2 == 1]
  }

  function MsbValue(b: Bits): nat {
    if b == [] then 0 else 2 * MsbValue(b[..|b| - 1]) + Bit(b[|b| - 1])
  }

  function ByteBits(bytes: seq<byte>): (b: Bits)
    ensures |b| == 8 * |bytes|
  {
    if bytes == [] then [] else ByteBits(bytes[..|bytes| - 1]) + BitsOf(bytes[|bytes| - 1], 8)
  }

  lemma {:induction false} Pow2Add(a: nat, b: nat)
    ensures Pow2(a + b) == Pow2(a) * Pow2(b)
  {
    if a > 0 {
      Pow2Add(a - 1, b);
      assert 2 * (Pow2(a - 1) * Pow2(b)) == (2 * Pow2(a - 1)) * Pow2(b);
    } else {
      assert Pow2(0 + b) == 1 * Pow2(b);
    }
  }

  lemma {:induction false} Pow2Monotone(a: nat, b: nat)
    requires a <= b
    ensures Pow2(a) <= Pow2(b)
    decreases b
  {
    if a < b { Pow2Monotone(a, b - 1); }
  }

  lemma {:induction false} ValueBound(b: Bits)
    ensures ValueOf(b) < Pow2(|b|)
  {
    if b != [] { ValueBound(b[1..]); }
  }

  lemma {:induction false} ValueOfBitsOf(v: nat, n: nat)
    requires v < Pow2(n)
    ensures ValueOf(BitsOf(v, n)) == v
  {
    if n > 0 {
      ValueOfBitsOf(v / 2, n - 1);
      assert BitsOf(v, n)[1..] == BitsOf(v / 2, n - 1);
    }
  }

  lemma {:induction false} BitsOfValueOf(b: Bits)
    ensures BitsOf(ValueOf(b), |b|) == b
  {
    if b != [] {
      BitsOfValueOf(b[1..]);
      var v := ValueOf(b);
      assert v % 2 == Bit(b[0]) && v / 2 == ValueOf(b[1..]);
    }
  }

  lemma {:induction false} ValueOfConcat(a: Bits, b: Bits)
    ensures ValueOf(a + b) == ValueOf(a) + Pow2(|a|) * ValueOf(b)
  {
    if a == [] {
      assert a + b == b;
    } else {
      ValueOfConcat(a[1..], b);
      assert (a + b)[1..] == a[1..] + b;
      assert Pow2(|a|) * ValueOf(b) == 2 * (Pow2(|a| - 1) * ValueOf(b));
    }
  }

  /** Equal values of equally many bits are equal bit lists. */
  lemma ValueInjective(a: Bits, b: Bits)
    requires |a| == |b| && ValueOf(a) == ValueOf(b)
    ensures a == b
  {
    BitsOfValueOf(a);
    BitsOfValueOf(b);
  }

  lemma DivModUnique(v: nat, m: nat, q: nat, r: nat)
    requires m > 0 && r < m && v == r + m * q
    ensures v / m == q && v % m == r
  {
    var e := v / m - q;
    assert v == m * (v / m) + v % m;
    assert m * e == r - v % m by { assert m * e == m * (v / m) - m * q; }
    SmallMultiple(m, e);
  }

  lemma SmallMultiple(m: int, e: int)
    requires -m < m * e < m
    ensures e == 0
  {
  }

  /** Masking and shifting a bit buffer take its first k bits and the others. */
  lemma MaskAndShift(b: Bits, k: nat)
    requires k <= |b|
    ensures ValueOf(b) % Pow2(k) == ValueOf(b[..k])
    ensures ValueOf(b) / Pow2(k) == ValueOf(b[k..])
  {
    assert b == b[..k] + b[k..];
    ValueOfConcat(b[..k], b[k..]);
    ValueBound(b[..k]);
    DivModUnique(ValueOf(b), Pow2(k), ValueOf(b[k..]), ValueOf(b[..k]));
  }

  /** Or-ing v into a buffer of |b| bits appends n bits. */
  lemma AppendValue(b: Bits, v: nat, n: nat)
    requires v < Pow2(n)
    ensures ValueOf(b + BitsOf(v, n)) == ValueOf(b) + Pow2(|b|) * v
  {
    ValueOfConcat(b, BitsOf(v, n));
    ValueOfBitsOf(v, n);
  }

  // ---- products as repeated addition, which keep proofs about weights linear

  ghost function Mul(c: nat, w: nat): nat {
    if c == 0 then 0 else Mul(c - 1, w) + w
  }

  lemma {:induction false} MulIsProduct(c: nat, w: nat)
    ensures Mul(c, w) == c * w
  {
    if c > 0 {
      MulIsProduct(c - 1, w);
      assert (c - 1) * w + w == c * w;
    }
  }

  lemma {:induction false} MulAdd(a: nat, b: nat, w: nat)
    ensures Mul(a + b, w) == Mul(a, w) + Mul(b, w)
    decreases b
  {
    if b > 0 { MulAdd(a, b - 1, w); }
  }

  lemma {:induction false} MulDouble(a: nat, w: nat)
    ensures Mul(2 * a, w) == Mul(a, 2 * w) == 2 * Mul(a, w)
  {
    if a > 0 {
      MulDouble(a - 1, w);
      assert Mul(2 * a, w) == Mul(2 * a - 1, w) + w == Mul(2 * (a - 1), w) + w + w;
    }
  }

  lemma {:induction false} MulMonotone(a: nat, b: nat, w: nat)
    requires a <= b
    ensures Mul(a, w) <= Mul(b, w)
    decreases b
  {
    if a < b { MulMonotone(a, b - 1, w); }
  }

  lemma {:induction false} MulMonotone2(a: nat, v: nat, w: nat)
    requires v <= w
    ensures Mul(a, v) <= Mul(a, w)
  {
    if a > 0 { MulMonotone2(a - 1, v, w); }
  }

  lemma CancelMul(a: nat, b: nat, w: nat)
    requires w > 0 && Mul(a, w) <= Mul(b, w)
    ensures a <= b
  {
    if a > b {
      MulMonotone(b + 1, a, w);
      assert false;
    }
  }

  lemma MulPow2(a: nat, b: nat)
    ensures Mul(Pow2(a), Pow2(b)) == Pow2(a + b)
  {
    MulIsProduct(Pow2(a), Pow2(b));
    Pow2Add(a, b);
  }

  lemma QuotientInterval(v: nat, w: nat, c: nat)
    requires w > 0
    ensures v / w == c <==> Mul(c, w) <= v < Mul(c, w) + w
  {
    MulIsProduct(c, w);
    if c * w <= v < c * w + w {
      DivModUnique(v, w, c, v - c * w);
    }
  }

  // ---- most significant bit first

  lemma {:induction false} MsbBound(b: Bits)
    ensures MsbValue(b) < Pow2(|b|)
  {
    if b != [] { MsbBound(b[..|b| - 1]); }
  }

  lemma {:induction false} MsbValueOfMsbBits(v: nat, n: nat)
    requires v < Pow2(n)
    ensures MsbValue(MsbBits(v, n)) == v
  {
    if n > 0 {
      MsbValueOfMsbBits(v / 2, n - 1);
      assert MsbBits(v, n)[..n - 1] == MsbBits(v / 2, n - 1);
    }
  }

  lemma LastBit(x: nat, b: bool)
    ensures (2 * x + Bit(b)) / 2 == x && ((2 * x + Bit(b)) % 2 == 1 <==> b)
  {
  }

  lemma MsbBitsStep(v: nat, n: nat)
    requires n > 0
    ensures MsbBits(v, n) == MsbBits(v / 2, n - 1) + [v % 2 == 1]
  {
  }

  lemma {:induction false} MsbBitsOfMsbValue(b: Bits)
    ensures MsbBits(MsbValue(b), |b|) == b
  {
    if b != [] {
      var a := b[..|b| - 1];
      MsbBitsOfMsbValue(a);
      LastBit(MsbValue(a), b[|b| - 1]);
      MsbBitsStep(MsbValue(b), |b|);
      assert b == a + [b[|b| - 1]];
    }
  }

  /** The first l bits of a bit list are the quotient by the weight of the others. */
  lemma {:induction false} MsbPrefix(b: Bits, l: nat)
    requires l <= |b|
    ensures MsbValue(b) / Pow2(|b| - l) == MsbValue(b[..l])
    decreases |b|
  {
    if l == |b| {
      assert b[..l] == b;
    } else {
      var a := b[..|b| - 1];
      MsbPrefix(a, l);
      assert a[..l] == b[..l];
      var m := Pow2(|a| - l);
      assert Pow2(|b| - l) == 2 * m;
      HalfThenDivide(MsbValue(b), m);
      assert MsbValue(b) / 2 == MsbValue(a);
    }
  }

  lemma HalfThenDivide(v: nat, m: nat)
    requires m > 0
    ensures v / (2 * m) == (v / 2) / m
  {
    var h := v / 2;
    var q, r := h / m, h % m;
    assert h == m * q + r;
    assert v == (2 * r + v % 2) + (2 * m) * q;
    DivModUnique(v, 2 * m, q, 2 * r + v % 2);
  }

  lemma Halve(v: nat, m: nat)
    requires m > 0
    ensures (v / m) / 2 == v / (2 * m)
  {
    var q := v / m;
    assert v == m * q + v % m;
    var h, r := q / 2, q % 2;
    assert q == 2 * h + r;
    HalveProduct(m, h, r);
    assert r * m + v % m < 2 * m by { if r == 0 {} else { assert r == 1; } }
    DivModUnique(v, 2 * m, h, r * m + v % m);
  }

  lemma HalveProduct(m: nat, h: nat, r: nat)
    ensures m * (2 * h + r) == r * m + (2 * m) * h
  {
  }

  lemma ModDouble(v: nat, m: nat)
    requires m > 0
    ensures v % (2 * m) == v % 2 + 2 * ((v / 2) % m)
  {
    var h := v / 2;
    assert h == m * (h / m) + h % m;
    ModDoubleSum(m, h / m, h % m, v % 2);
    DivModUnique(v, 2 * m, h / m, v % 2 + 2 * (h % m));
  }

  lemma ModDoubleSum(m: nat, q: nat, r: nat, b: nat)
    ensures 2 * (m * q + r) + b == (b + 2 * r) + (2 * m) * q
  {
  }

  // ---- reversal

  function Reverse(b: Bits): (r: Bits)
    ensures |r| == |b|
  {
    if b == [] then [] else Reverse(b[1..]) + [b[0]]
  }

  lemma {:induction false} ReverseLsb(v: nat, n: nat)
    ensures Reverse(BitsOf(v, n)) == MsbBits(v, n)
  {
    if n > 0 {
      ReverseLsb(v / 2, n - 1);
      assert BitsOf(v, n)[1..] == BitsOf(v / 2, n - 1);
    }
  }

  lemma {:induction false} ReverseValue(b: Bits)
    ensures ValueOf(Reverse(b)) == MsbValue(b)
  {
    if b != [] {
      var a := b[..|b| - 1];
      ReverseValue(a);
      ReverseSnoc(a, b[|b| - 1]);
      assert b == a + [b[|b| - 1]];
      assert Reverse(b) == [b[|b| - 1]] + Reverse(a);
      assert Reverse(b)[1..] == Reverse(a);
    }
  }

  lemma {:induction false} ReverseSnoc(a: Bits, x: bool)
    ensures Reverse(a + [x]) == [x] + Reverse(a)
  {
    if a != [] {
      ReverseSnoc(a[1..], x);
      assert (a + [x])[1..] == a[1..] + [x];
    }
  }

  /** The loop that reverses a code: n times, double and add the next low bit. */
  function ReverseCode(code: nat, n: nat): nat {
    MsbValue(BitsOf(code, n))
  }

  /** Written least significant bit first, a reversed code is the code most significant bit first. */
  lemma ReversedCodeBits(code: nat, n: nat)
    ensures ReverseCode(code, n) < Pow2(n)
    ensures BitsOf(ReverseCode(code, n), n) == MsbBits(code, n)
  {
    var b := BitsOf(code, n);
    MsbBound(b);
    ReverseValue(b);
    ReverseLsb(code, n);
    BitsOfValueOf(Reverse(b));
  }

  lemma {:induction false} BitsOfSnoc(v: nat, n: nat)
    ensures BitsOf(v, n + 1) == BitsOf(v, n) + [(v / Pow2(n)) % 2 == 1]
  {
    if n > 0 {
      BitsOfSnoc(v / 2, n - 1);
      HalfThenDivide(v, Pow2(n - 1));
    }
  }

  lemma ByteBitsSnoc(a: seq<byte>, x: byte)
    ensures ByteBits(a + [x]) == ByteBits(a) + BitsOf(x, 8)
  {
    hide BitsOf;
    assert (a + [x])[..|a|] == a;
  }

  lemma {:induction false} ByteBitsConcat(a: seq<byte>, b: seq<byte>)
    ensures ByteBits(a + b) == ByteBits(a) + ByteBits(b)
    decreases |b|
  {
    hide BitsOf;
    if b == [] {
      assert a + b == a;
    } else {
      var c := a + b;
      assert c[..|c| - 1] == a + b[..|b| - 1];
      ByteBitsConcat(a, b[..|b| - 1]);
      ByteBitsSnoc(c[..|c| - 1], b[|b| - 1]);
      ByteBitsSnoc(b[..|b| - 1], b[|b| - 1]);
      assert c == c[..|c| - 1] + [b[|b| - 1]] && b == b[..|b| - 1] + [b[|b| - 1]];
    }
  }
}
