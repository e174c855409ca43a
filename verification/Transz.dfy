/** Random access to text that is kept as separately compressed blocks, through a cache of one block. */
module Transz {
  import opened Bytes
  import opened Bits
  import opened Tokens
  import opened Reference
  import opened DecodeRuns
  import opened WholeInflate

  // ---- one block

  /** tinfl_decompress_mem_to_mem without flags: raw deflate, all or nothing. */
  method DecompressMemToMem(outBuf: array<byte>, outLen: nat, src: array<byte>) returns (ok: bool, size: nat)
    requires outLen <= outBuf.Length && outBuf != src && Decided(FlatBuffer(false), ByteBits(src[..]))
    modifies outBuf
    ensures size <= outLen && (ok ==> Inflates(false, src[..], outBuf[..size]))
    ensures forall text: seq<byte> :: Inflates(false, src[..], text) && |text| <= outLen ==> ok
  {
    hide Inflates, Decided, ByteBits;
    assert src[0..] == src[..];
    var status, inSize, outSize := Inflate(false, src, 0, outBuf, outLen);
    assert src[0..] == src[..];
    ok, size := status.Finished?, outSize;
  }

  // ---- the file

  /** size_t has 32 bits. */
  const SIZE := 0x1_0000_0000

  const CACHE := 4096

  /** An index kept in an int, and compared with a size_t again. */
  function AsInt(i: nat): int {
    if i % SIZE < SIZE / 2 then i % SIZE else i % SIZE - SIZE
  }

  function AsSize(a: int): (r: nat)
    ensures r < SIZE
  {
    a % SIZE
  }

  lemma IndexKept(i: nat)
    requires i < SIZE
    ensures AsSize(AsInt(i)) == i && AsSize(-1) == SIZE - 1
  {
  }

  /** luat_transz_data_t. A fragment is two header bytes and a compressed block. */
  datatype Source = Source(totalSize: nat, blockSize: nat, packed: bool, fragments: seq<nat>, datas: seq<byte>)

  /** Where fragment i starts. */
  function StartOf(fragments: seq<nat>, i: nat): (r: nat)
    requires i <= |fragments|
  {
    if i == 0 then 0 else StartOf(fragments, i - 1) + fragments[i - 1]
  }

  function Lesser(a: nat, b: nat): nat {
    if a < b then a else b
  }

  /** Block i of the text; the last one may be shorter. */
  function BlockText(text: seq<byte>, size: nat, i: nat): seq<byte>
    requires i * size <= |text|
  {
    text[i * size..Lesser(i * size + size, |text|)]
  }

  /** Fragment i is the compressed block i. */
  ghost predicate FragmentOk(src: Source, text: seq<byte>, i: nat)
    requires i * src.blockSize <= |text|
  {
    && i < |src.fragments| && 2 <= src.fragments[i] <= CACHE + 2
    && StartOf(src.fragments, i) + src.fragments[i] <= |src.datas|
    && Inflates(false, src.datas[StartOf(src.fragments, i) + 2..StartOf(src.fragments, i) + src.fragments[i]],
    BlockText(text, src.blockSize, i))
  }

  /** The data source stands for the text. */
  ghost predicate Represents(src: Source, text: seq<byte>) {
    && |text| == src.totalSize < SIZE
    && if !src.packed then |text| <= |src.datas| && src.datas[..|text|] == text
       else 1 <= src.blockSize <= CACHE && forall i: nat :: i * src.blockSize < |text| ==> FragmentOk(src, text, i)
  }

  /** The bytes asked for, as far as there are any. */
  function Slice(text: seq<byte>, offset: nat, len: nat): seq<byte> {
    if offset < |text| then text[offset..Lesser(offset + len, |text|)] else []
  }

  /** The length luat_transz_read goes on with, where the sum of offset and length can wrap around. */
  function Clipped(total: nat, offset: nat, len: nat): nat
    requires offset < total
  {
    if (offset + len) % SIZE >= total then total - offset else len
  }

  /** The clipped length is right exactly where the sum does not wrap to something below the size. */
  lemma ClippedRight(total: nat, offset: nat, len: nat)
    requires offset < total < SIZE && len < SIZE
    ensures Clipped(total, offset, len) == Lesser(len, total - offset) <==>
              (offset + len < SIZE || offset + len - SIZE >= total)
  {
  }

  /** A request that reaches over the end of the address space is not clipped. */
  lemma WrappedRequest()
    ensures Clipped(100, 50, SIZE - 10) == SIZE - 10 && Lesser(SIZE - 10, 100 - 50) == 50
  {
  }

  lemma BlockLength(text: seq<byte>, size: nat, i: nat)
    requires i * size < |text| && size > 0
    ensures 0 < |BlockText(text, size, i)| <= size
  {
  }

  lemma SubSlice(s: seq<byte>, p: nat, q: nat, a: nat, b: nat)
    requires p <= q <= |s| && a <= b <= q - p
    ensures s[p..q][a..b] == s[p + a..p + b]
  {
    forall k | 0 <= k < b - a
      ensures s[p..q][a..b][k] == s[p + a..p + b][k]
    {
    }
  }

  // ---- reading

  /** memcpy */
  method CopyInto(dst: array<byte>, at: nat, src: array<byte>, from: nat, n: nat)
    requires at + n <= dst.Length && from + n <= src.Length && dst != src
    modifies dst
    ensures dst[..at] == old(dst[..at]) && dst[at..at + n] == src[from..from + n] && dst[at + n..] == old(dst[at + n..])
  {
    forall i | 0 <= i < n {
      dst[at + i] := src[from + i];
    }
  }

  class Reader {
    const src: Source
    /** cache->buff and cache->addr */
    const buff: array<byte>
    var addr: int
    /** What the data source stands for. */
    ghost const text: seq<byte>

    /** The cache holds nothing, or the block with index `addr`. */
    ghost predicate Valid()
      reads this, buff
    {
      && Represents(src, text) && buff.Length == CACHE
      && (AsSize(addr) == SIZE - 1 || (src.packed && Cached(AsSize(addr))))
    }

    ghost predicate Cached(i: nat)
      reads buff
    {
      && i * src.blockSize < |text| && |BlockText(text, src.blockSize, i)| <= buff.Length
      && buff[..|BlockText(text, src.blockSize, i)|] == BlockText(text, src.blockSize, i)
    }

    constructor (source: Source, ghost t: seq<byte>)
      requires Represents(source, t)
      ensures Valid() && src == source && text == t && fresh(buff)
    {
      src, text, addr := source, t, -1;
      buff := new byte[CACHE];
    }

    /** Decompresses block i into the cache unless it is there already. */
    method Load(i: nat)
      requires Valid() && src.packed && i * src.blockSize < |text|
      modifies this, buff
      ensures Valid() && Cached(i)
    {
      hide Inflates, BlockText, Decided;
      assert FragmentOk(src, text, i);
      IndexSmall(i, src.blockSize);
      IndexKept(i);
      var start := 0;
      for j := 0 to i
        invariant start == StartOf(src.fragments, j)
      {
        start := start + src.fragments[j];
      }
      if AsSize(addr) != i {
        var n := src.fragments[i] - 2;
        var scratch := new byte[n](k requires 0 <= k < n => src.datas[start + 2 + k]);
        assert scratch[..] == src.datas[start + 2..start + 2 + n];
        InflatesDecided(false, scratch[..], BlockText(text, src.blockSize, i));
        BlockLength(text, src.blockSize, i);
        var ok, size := DecompressMemToMem(buff, src.blockSize, scratch);
        InflatesOnce(false, scratch[..], BlockText(text, src.blockSize, i), buff[..size]);
        addr := if ok then AsInt(i) else -1;
      }
    }

    lemma IndexSmall(i: nat, size: nat)
      requires i * size < SIZE && size > 0
      ensures i < SIZE
    {
    }

    /** luat_transz_read */
    method Read(dst: array<byte>, from: nat, len: nat) returns (count: nat)
      requires Valid() && dst != buff && len <= dst.Length && len < SIZE
               && (from + len < SIZE || from + len - SIZE >= |text|)
      modifies this, buff, dst
      ensures Valid() && count <= dst.Length
      ensures dst[..count] == Slice(text, from, len) && dst[count..] == old(dst[count..])
    {
      hide Cached, FragmentOk, BlockText;
      if len == 0 || from >= src.totalSize {
        return 0;
      }
      var left: nat := if (from + len) % SIZE >= src.totalSize then src.totalSize - from else len;
      assert left == Clipped(|text|, from, len);
      ClippedRight(|text|, from, len);
      if !src.packed {
        forall i | 0 <= i < left {
          dst[i] := src.datas[from + i];
        }
        SubSlice(src.datas, 0, |text|, from, from + left);
        assert src.datas[0..|text|] == text;
        assert dst[..left] == src.datas[from..from + left];
        assert old(dst[..])[left..] == old(dst[left..]);
        assert dst[left..] == old(dst[..])[left..];
        return left;
      }
      ReadBlocks(dst, from, left);
      count := left;
    }

    /** The blocks that hold the piece, one after the other. */
    method ReadBlocks(dst: array<byte>, from: nat, len: nat)
      requires Valid() && src.packed && dst != buff && len <= dst.Length && from + len <= |text|
      modifies this, buff, dst
      ensures Valid() && dst[..len] == text[from..from + len] && dst[len..] == old(dst[len..])
    {
      hide Valid, BlockText;
      var offset, left, at := from, len, 0;
      while left > 0
        invariant Valid() && offset + left == from + len && at == offset - from && 0 <= at <= len
        invariant dst[..at] == text[from..offset] && dst[at..] == old(dst[..])[at..]
        decreases left
      {
        ghost var before, was := dst[..], at;
        BlockSize();
        var i, skip := offset / src.blockSize, offset % src.blockSize;
        Quotient(offset, src.blockSize);
        Load(i);
        var n := Piece(dst, i, skip, left, at);
        offset, at, left := offset + n, at + n, left - n;
        assert dst[..at] == dst[..was] + dst[was..at];
        assert dst[at..] == before[was..][n..];
      }
      assert old(dst[..])[len..] == old(dst[len..]);
    }

    lemma BlockSize()
      requires Valid() && src.packed
      ensures src.blockSize > 0
    {
    }

    /** One memcpy: the rest of the block from `skip`, or as much of it as is wanted. */
    method Piece(dst: array<byte>, i: nat, skip: nat, left: nat, at: nat) returns (n: nat)
      requires Valid() && Cached(i) && dst != buff && skip < src.blockSize
      requires 0 < left && i * src.blockSize + skip + left <= |text| && at + left <= dst.Length
      modifies dst
      ensures Valid() && 0 < n <= left
      ensures dst[..at] == old(dst[..at]) && dst[at + n..] == old(dst[..])[at + n..]
      ensures dst[at..at + n] == text[i * src.blockSize + skip..i * src.blockSize + skip + n]
    {
      hide Valid, Cached, BlockText;
      if skip == 0 {
        n := if left > src.blockSize then src.blockSize else left;
      } else {
        n := if skip + left > src.blockSize then src.blockSize - skip else left;
      }
      InBlock(i, skip, n);
      CopyInto(dst, at, buff, skip, n);
      assert old(dst[..])[at + n..] == old(dst[at + n..]);
    }

    lemma Quotient(offset: nat, size: nat)
      requires size > 0
      ensures offset / size * size + offset % size == offset && 0 <= offset % size < size && offset / size >= 0
    {
    }

    lemma InBlock(i: nat, skip: nat, n: nat)
      requires Cached(i) && skip + n <= src.blockSize && i * src.blockSize + skip + n <= |text|
      ensures skip + n <= buff.Length
      ensures buff[skip..skip + n] == text[i * src.blockSize + skip..i * src.blockSize + skip + n]
    {
      var b := BlockText(text, src.blockSize, i);
      InText(src.blockSize, i, skip, n);
      SubSlice(buff[..], 0, |b|, skip, skip + n);
      assert buff[..|b|] == buff[..][0..|b|] && buff[..][skip..skip + n] == buff[skip..skip + n];
    }

    lemma InText(size: nat, i: nat, skip: nat, n: nat)
      requires skip + n <= size && i * size + skip + n <= |text|
      ensures skip + n <= |BlockText(text, size, i)|
      ensures BlockText(text, size, i)[skip..skip + n] == text[i * size + skip..i * size + skip + n]
    {
      var p: nat := i * size;
      var q := Lesser(p + size, |text|);
      SubSlice(text, p, q, skip, skip + n);
    }
  }
}
