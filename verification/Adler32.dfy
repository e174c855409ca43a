/** The Adler-32 checksum of miniz, which reduces its two sums modulo 65521 only once every 5552
    bytes, against the definition that reduces after every byte (section 2.2 of RFC 1950). */
module Adler32 {
  import opened Bytes

  const BASE: nat := 65521
  const BLOCK: nat := 5552

  datatype Sums = Sums(s1: nat, s2: nat)

  predicate Reduced(s: Sums) {
    s.s1 < BASE && s.s2 < BASE
  }

  /** One byte, reduced at once: the definition of the checksum. */
  function Step(s: Sums, b: byte): (t: Sums)
    ensures Reduced(t)
  {
    var a := (s.s1 + b) % BASE;
    Sums(a, (s.s2 + a) % BASE)
  }

  function Checksum(s: Sums, data: seq<byte>): (t: Sums)
    requires Reduced(s)
    ensures Reduced(t)
  {
    if data == [] then s else Step(Checksum(s, data[..|data| - 1]), data[|data| - 1])
  }

  function Pack(s: Sums): nat {
    s.s2 * 0x1_0000 + s.s1
  }

  function Unpack(adler: nat): Sums {
    Sums(adler % 0x1_0000, adler / 0x1_0000)
  }

  lemma PackUnpack(s: Sums)
    requires Reduced(s)
    ensures Unpack(Pack(s)) == s && Pack(s) < 0x1_0000_0000
  {
  }

  /** The sums of n bytes from position base, never reduced. */
  ghost function RawSums(s: Sums, data: seq<byte>, base: nat, n: nat): Sums
    requires base + n <= |data|
  {
    if n == 0 then s else
      var t := RawSums(s, data, base, n - 1);
      var a := t.s1 + data[base + n - 1];
      Sums(a, t.s2 + a)
  }

  /** Reducing once at the end of a stretch gives what reducing after every byte gives. */
  lemma {:induction false} DeferredReduction(s: Sums, data: seq<byte>, base: nat, n: nat)
    requires base + n <= |data| && Reduced(s)
    ensures var r := RawSums(s, data, base, n);
            Checksum(s, data[base..base + n]) == Sums(r.s1 % BASE, r.s2 % BASE)
  {
    if n > 0 {
      DeferredReduction(s, data, base, n - 1);
      var d := data[base..base + n];
      assert d[..|d| - 1] == data[base..base + (n - 1)];
      assert d[|d| - 1] == data[base + n - 1];
      var t := RawSums(s, data, base, n - 1);
      ReducedStep(t, data[base + n - 1]);
    } else {
      assert data[base..base + n] == [];
    }
  }

  lemma ModAbsorbs(x: nat, y: nat)
    ensures (x % BASE + y) % BASE == (x + y) % BASE
  {
    var q := x / BASE;
    assert x == q * BASE + x % BASE;
  }

  lemma ReducedStep(t: Sums, b: byte)
    ensures Step(Sums(t.s1 % BASE, t.s2 % BASE), b) == Sums((t.s1 + b) % BASE, (t.s2 + (t.s1 + b)) % BASE)
  {
    ModAbsorbs(t.s1, b);
    ModAbsorbs(t.s2, (t.s1 + b) % BASE);
    ModAbsorbs(t.s1 + b, t.s2);
  }

  /** The plain sums of section 2.2 of RFC 1950: of the bytes, and of the bytes each times the number of bytes
      from it on. */
  function PlainSum(data: seq<byte>): nat {
    if data == [] then 0 else PlainSum(data[..|data| - 1]) + data[|data| - 1] as nat
  }

  function WeightedSum(data: seq<byte>): nat {
    if data == [] then 0 else WeightedSum(data[..|data| - 1]) + PlainSum(data)
  }

  lemma {:induction false} SumsOfData(data: seq<byte>)
    ensures Checksum(Sums(1, 0), data) == Sums((1 + PlainSum(data)) % BASE, (|data| + WeightedSum(data)) % BASE)
  {
    if data != [] {
      var r, b := data[..|data| - 1], data[|data| - 1];
      SumsOfData(r);
      ReducedStep(Sums(1 + PlainSum(r), |r| + WeightedSum(r)), b);
    }
  }

  /** The checksum from the start in closed form, with its numbers: one and the sum of the bytes, and the sum of
      all those, each modulo 65521; the second one in the upper half. */
  lemma AdlerOfData(data: seq<byte>)
    ensures Reduced(Unpack(1))
    ensures Pack(Checksum(Unpack(1), data)) ==
              (|data| + WeightedSum(data)) % 65521 * 65536 + (1 + PlainSum(data)) % 65521
  {
    hide Checksum, WeightedSum, PlainSum;
    assert Unpack(1) == Sums(1, 0);
    SumsOfData(data);
  }

  /** Every byte weighs as many times as there are bytes from it on. */
  lemma {:induction false} WeightedSumFirst(x: byte, data: seq<byte>)
    ensures PlainSum([x] + data) == x as nat + PlainSum(data)
    ensures WeightedSum([x] + data) == (|data| + 1) * x as nat + WeightedSum(data)
    decreases |data|
  {
    if data == [] {
      assert [x] + data == [x] && [x][..0] == [];
    } else {
      var r := data[..|data| - 1];
      WeightedSumFirst(x, r);
      assert ([x] + data)[..|data|] == [x] + r;
    }
  }

  /** The largest second sum n bytes can build from reduced sums. */
  ghost function MaxSecond(n: nat): nat {
    if n == 0 then BASE - 1 else MaxSecond(n - 1) + (BASE - 1) + 255 * n
  }

  lemma {:induction false} MaxSecondClosed(n: nat)
    ensures 2 * MaxSecond(n) == 2 * (BASE - 1) * (n + 1) + 255 * (n * n + n)
  {
    if n > 0 {
      MaxSecondClosed(n - 1);
      var m := n - 1;
      assert n * n + n == m * m + m + 2 * n;
    }
  }

  lemma {:induction false} MaxSecondMonotone(n: nat, m: nat)
    requires n <= m
    ensures MaxSecond(n) <= MaxSecond(m)
  {
    if n < m { MaxSecondMonotone(n, m - 1); }
  }

  /** Within one block neither sum leaves 32 bits. */
  lemma {:induction false} RawSumsFit(s: Sums, data: seq<byte>, base: nat, n: nat)
    requires base + n <= |data| && Reduced(s) && n <= BLOCK
    ensures RawSums(s, data, base, n).s1 <= BASE - 1 + 255 * n
    ensures RawSums(s, data, base, n).s2 <= MaxSecond(n) < 0x1_0000_0000
  {
    MaxSecondMonotone(n, BLOCK);
    MaxSecondClosed(BLOCK);
    if n > 0 { RawSumsFit(s, data, base, n - 1); }
  }

  /** Checksumming x and then y is checksumming their concatenation. */
  lemma {:induction false} Concatenation(s: Sums, x: seq<byte>, y: seq<byte>)
    requires Reduced(s)
    ensures Checksum(Checksum(s, x), y) == Checksum(s, x + y)
    decreases |y|
  {
    if y == [] {
      assert x + y == x;
    } else {
      var z := x + y;
      assert z[..|z| - 1] == x + y[..|y| - 1];
      Concatenation(s, x, y[..|y| - 1]);
    }
  }

  /** The same law on the packed values callers hold. */
  lemma PackedConcatenation(adler: nat, x: seq<byte>, y: seq<byte>)
    requires Reduced(Unpack(adler))
    ensures Reduced(Unpack(Pack(Checksum(Unpack(adler), x))))
    ensures Pack(Checksum(Unpack(Pack(Checksum(Unpack(adler), x))), y)) == Pack(Checksum(Unpack(adler), x + y))
  {
    PackUnpack(Checksum(Unpack(adler), x));
    Concatenation(Unpack(adler), x, y);
  }

  /** The inner loop over one block: eight bytes at a time, then the rest. The sums are 32-bit
      words, so verification shows that no addition wraps. */
  method SumBlock(data: array<byte>, base: nat, len: nat, a1: uint32, a2: uint32) returns (s1: uint32, s2: uint32)
    requires base + len <= data.Length && len <= BLOCK
    requires Reduced(Sums(a1 as nat, a2 as nat))
    ensures Sums(s1 as nat, s2 as nat) == RawSums(Sums(a1 as nat, a2 as nat), data[..], base, len)
  {
    ghost var s := Sums(a1 as nat, a2 as nat);
    s1, s2 := a1, a2;
    var i := 0;
    while i + 7 < len
      invariant i <= len
      invariant Sums(s1 as nat, s2 as nat) == RawSums(s, data[..], base, i)
    {
      var stop := i + 8;
      while i < stop
        invariant i <= stop <= len
        invariant Sums(s1 as nat, s2 as nat) == RawSums(s, data[..], base, i)
      {
        RawSumsFit(s, data[..], base, i + 1);
        s1 := s1 + data[base + i] as uint32;
        s2 := s2 + s1;
        i := i + 1;
      }
    }
    while i < len
      invariant i <= len
      invariant Sums(s1 as nat, s2 as nat) == RawSums(s, data[..], base, i)
    {
      RawSumsFit(s, data[..], base, i + 1);
      s1 := s1 + data[base + i] as uint32;
      s2 := s2 + s1;
      i := i + 1;
    }
  }

  /** Checksumming one more block of an input. */
  lemma NextBlock(start: Sums, data: seq<byte>, from: nat, ptr: nat, len: nat)
    requires from <= ptr && ptr + len <= |data| && Reduced(start)
    ensures var r := RawSums(Checksum(start, data[from..ptr]), data, ptr, len);
            Checksum(start, data[from..ptr + len]) == Sums(r.s1 % BASE, r.s2 % BASE)
  {
    DeferredReduction(Checksum(start, data[from..ptr]), data, ptr, len);
    Concatenation(start, data[from..ptr], data[ptr..ptr + len]);
    assert data[from..ptr] + data[ptr..ptr + len] == data[from..ptr + len];
  }

  /** What is left is whole blocks once the odd first block is done. */
  ghost predicate WholeBlocks(left: nat) {
    exists k: nat :: left == k * BLOCK
  }

  lemma FirstBlock(left: nat)
    ensures left % BLOCK <= left && WholeBlocks(left - left % BLOCK)
  {
    assert left == (left / BLOCK) * BLOCK + left % BLOCK;
  }

  lemma LaterBlock(left: nat)
    requires WholeBlocks(left) && left > 0
    ensures left >= BLOCK && WholeBlocks(left - BLOCK)
  {
    var k: nat :| left == k * BLOCK;
    assert k >= 1;
    assert left - BLOCK == (k - 1) * BLOCK;
  }

  /** mz_adler32 over len bytes from a pointer: the first block has len % 5552 bytes, every later one
      5552. */
  method Adler(adler: nat, data: array?<byte>, from: nat, len: nat) returns (r: nat)
    requires adler < 0x1_0000_0000 && Reduced(Unpack(adler)) && (data != null ==> from + len <= data.Length)
    ensures data == null ==> r == 1
    ensures data != null ==> r == Pack(Checksum(Unpack(adler), data[from..from + len])) < 0x1_0000_0000
  {
    if data == null {
      return 1;
    }
    ghost var start := Unpack(adler);
    var s1, s2 := (adler % 0x1_0000) as uint32, (adler / 0x1_0000) as uint32;
    var left: nat := len;
    var blockLen: nat := left % BLOCK;
    var ptr := from;
    FirstBlock(left);
    assert data[from..from] == [];
    while left > 0
      invariant 0 <= left <= len && ptr + left == from + len && from <= ptr
      invariant 0 <= blockLen <= BLOCK
      invariant left > 0 ==> blockLen <= left && WholeBlocks(left - blockLen)
      invariant Reduced(Sums(s1 as nat, s2 as nat))
      invariant Sums(s1 as nat, s2 as nat) == Checksum(start, data[from..ptr])
      decreases left, BLOCK - blockLen
    {
      s1, s2 := SumBlock(data, ptr, blockLen, s1, s2);
      NextBlock(start, data[..], from, ptr, blockLen);
      assert data[..][from..ptr] == data[from..ptr] && data[..][from..ptr + blockLen] == data[from..ptr + blockLen];
      s1, s2 := s1 % (BASE as uint32), s2 % (BASE as uint32);
      left := left - blockLen;
      ptr := ptr + blockLen;
      if left > 0 {
        LaterBlock(left);
      }
      blockLen := BLOCK;
    }
    PackUnpack(Sums(s1 as nat, s2 as nat));
    r := Pack(Sums(s1 as nat, s2 as nat));
  }
}
