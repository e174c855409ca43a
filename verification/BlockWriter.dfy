/** Writing one block: tdefl_start_dynamic_block, tdefl_start_static_block, tdefl_compress_lz_codes
    and tdefl_compress_block. */
module BlockWriter {
  import opened Bytes
  import opened Bits
  import opened Canonical
  import opened InflateTable
  import opened BuildTable
  import opened Tokens
  import opened Reference
  import opened CodeLengthRle
  import opened BlockFormat
  import opened BlockHeaders
  import opened DynamicBlock
  import opened BitWriter
  import opened LzBuffer
  import opened HuffmanCodes
  import opened Trimming

  /** One row of m_huff_code_sizes and m_huff_codes. */
  datatype Codebook = Codebook(sizes: seq<nat>, codes: seq<nat>)

  ghost predicate BookOk(b: Codebook) {
    Feasible(b.sizes) && CodesOf(b.sizes, b.codes)
  }

  ghost predicate HasCode(b: Codebook, s: nat) {
    s < |b.sizes| && b.sizes[s] > 0
  }

  lemma CodeFitsPut(b: Codebook, s: nat)
    requires BookOk(b) && HasCode(b, s)
    ensures s < |b.codes| && b.codes[s] < Pow2(b.sizes[s]) && b.sizes[s] <= 15
    ensures BitsOf(b.codes[s], b.sizes[s]) == Code(b.sizes, s)
  {
    hide Code, ValueOf, BitsOf, Pow2;
    ValueBound(Code(b.sizes, s));
    BitsOfValueOf(Code(b.sizes, s));
  }

  method PutCode(w: Writer, b: Codebook, s: nat)
    requires w.Valid() && BookOk(b) && HasCode(b, s)
    modifies w`cur, w`written, w`bitBuffer, w`bitsIn, w.buf
    ensures w.Valid() && w.Stream() == old(w.Stream()) + Code(b.sizes, s) && old(w.written) <= w.written
  {
    CodeFitsPut(b, s);
    hide *;
    w.PutBits(b.codes[s], b.sizes[s]);
  }

  method OptimizeTable(counts: seq<nat>, limit: nat) returns (b: Codebook)
    requires 1 <= limit <= 15 && |counts| <= Pow2(limit) && CountTotal(counts, |counts|) <= 65535
    ensures TableFor(counts, b.sizes, limit) && BookOk(b) && Accepted(b.sizes) && NearMinimum(counts, b.sizes, limit)
  {
    hide Pow2, CountTotal, Complete, Lonely, Feasible, CodesOf, NearMinimum;
    var sizes := new nat[|counts|](_ => 0);
    var codes := new nat[|counts|](_ => 0);
    DynamicTable(counts, limit, sizes, codes);
    b := Codebook(sizes[..], codes[..]);
    AcceptedIsFeasible(b.sizes);
  }

  // ---- dynamic header

  function FlatOne(op: Op): seq<nat> {
    if op.code >= 16 then [op.code, op.extra] else [op.code]
  }

  /** Reading the packed array code by code. */
  lemma {:induction false} FlatAt(ops: seq<Op>, k: nat)
    requires k < |ops|
    ensures Flat(ops[..k + 1]) == Flat(ops[..k]) + FlatOne(ops[k]) && Flat(ops[..k + 1]) <= Flat(ops)
    decreases |ops|
  {
    var r := ops[..|ops| - 1];
    assert ops[..k + 1][..k] == ops[..k];
    if k < |r| {
      FlatAt(r, k);
      assert r[..k] == ops[..k] && r[..k + 1] == ops[..k + 1];
      assert Flat(r) <= Flat(ops);
    } else {
      assert ops[..k + 1] == ops;
    }
  }

  lemma FlatEnds(ops: seq<Op>, k: nat)
    requires k <= |ops|
    ensures |Flat(ops[..k])| < |Flat(ops)| <==> k < |ops|
  {
    if k < |ops| {
      FlatAt(ops, k);
    } else {
      assert ops[..k] == ops;
    }
  }

  lemma OpsBitsStep(lens: seq<nat>, ops: seq<Op>, k: nat)
    requires OpsCodable(lens, ops) && k < |ops|
    ensures OpsCodable(lens, ops[..k]) && OpsCodable(lens, ops[..k + 1])
    ensures OpsBits(lens, ops[..k + 1]) == OpsBits(lens, ops[..k]) + OpBits(lens, ops[k])
  {
    hide OpBits, OpCodable;
    assert ops[..k + 1][..k] == ops[..k];
  }

  /** One run-length code with its extra bits. */
  method PutOp(w: Writer, b: Codebook, code: nat, extra: nat, ghost op: Op)
    requires w.Valid() && BookOk(b) && OpCodable(b.sizes, op) && code == op.code && extra == op.extra
    modifies w`cur, w`written, w`bitBuffer, w`bitsIn, w.buf
    ensures w.Valid() && w.Stream() == old(w.Stream()) + OpBits(b.sizes, op) && old(w.written) <= w.written
  {
    hide Code, BookOk, BitsOf, Pow2;
    OpExtraFits(op);
    ghost var s := w.Stream();
    PutCode(w, b, code);
    ghost var x := BitsOf(op.extra, ExtraBits(op.code));
    if code >= 16 {
      w.PutBits(extra, ExtraBits(code));
    } else {
      NoBits(op.extra);
      assert w.Stream() == w.Stream() + x;
    }
    assert (s + Code(b.sizes, code)) + x == s + (Code(b.sizes, code) + x);
  }

  lemma NoBits(v: nat)
    ensures BitsOf(v, 0) == []
  {
  }

  /** The entries of the packed array for code k. */
  lemma PackedAt(packed: seq<nat>, ops: seq<Op>, k: nat, index: nat)
    requires packed == Flat(ops) && k <= |ops| && index == |Flat(ops[..k])|
    ensures index < |packed| <==> k < |ops|
    ensures k < |ops| ==>
              && packed[index] == ops[k].code && |Flat(ops[..k + 1])| == index + |FlatOne(ops[k])| <= |packed|
              && (ops[k].code >= 16 ==> packed[index + 1] == ops[k].extra)
  {
    FlatEnds(ops, k);
    if k < |ops| {
      FlatAt(ops, k);
      var f := Flat(ops[..k + 1]);
      assert f[index..] == FlatOne(ops[k]);
      assert packed[index] == f[index] == f[index..][0];
      if ops[k].code >= 16 {
        assert packed[index + 1] == f[index + 1] == f[index..][1];
      }
    }
  }

  method PutOps(w: Writer, b: Codebook, packed: seq<nat>, ghost ops: seq<Op>)
    requires w.Valid() && BookOk(b) && OpsCodable(b.sizes, ops) && packed == Flat(ops)
    modifies w`cur, w`written, w`bitBuffer, w`bitsIn, w.buf
    ensures w.Valid() && w.Stream() == old(w.Stream()) + OpsBits(b.sizes, ops) && old(w.written) <= w.written
  {
    hide Flat, OpBits, OpsBits, BookOk, w.Valid, w.Stream;
    var index := 0;
    ghost var k := 0;
    ghost var s := w.Stream();
    NoOpsBits(b.sizes, ops);
    while index < |packed|
      invariant k <= |ops| && index == |Flat(ops[..k])|
      invariant w.Valid() && OpsCodable(b.sizes, ops[..k]) && w.Stream() == s + OpsBits(b.sizes, ops[..k])
      invariant old(w.written) <= w.written
      decreases |ops| - k
    {
      PackedAt(packed, ops, k, index);
      OpsBitsStep(b.sizes, ops, k);
      OpHere(b.sizes, ops, k);
      var code := packed[index];
      index := index + 1;
      var extra := 0;
      if code >= 16 {
        extra := packed[index];
        index := index + 1;
      }
      PutOp(w, b, code, extra, ops[k]);
      JoinBits(s, OpsBits(b.sizes, ops[..k]), OpBits(b.sizes, ops[k]));
      k := k + 1;
    }
    PackedAt(packed, ops, k, index);
    assert ops[..k] == ops;
  }

  lemma OpHere(lens: seq<nat>, ops: seq<Op>, k: nat)
    requires OpsCodable(lens, ops) && k < |ops|
    ensures OpCodable(lens, ops[k]) && (ops[k].code < 16 ==> ops[k].extra == 0)
  {
    assert OpOk(ops[k]);
  }

  lemma JoinBits(s: Bits, x: Bits, y: Bits)
    ensures s + x + y == s + (x + y)
  {
  }

  lemma NoOpsBits(lens: seq<nat>, ops: seq<Op>)
    ensures Flat(ops[..0]) == [] && OpsCodable(lens, ops[..0]) && OpsBits(lens, ops[..0]) == []
  {
    assert ops[..0] == [];
  }

  /** The largest n for which something below n is left: where trailing zeros begin. */
  method TrimZeros(sizes: seq<nat>, max: nat, min: nat) returns (n: nat)
    requires 0 < min <= max && ZeroFrom(sizes, max)
    ensures min <= n <= max && ZeroFrom(sizes, n) && (n == min || sizes[n - 1] != 0)
  {
    n := max;
    while n > min
      invariant min <= n <= max && ZeroFrom(sizes, n)
    {
      if sizes[n - 1] != 0 {
        break;
      }
      n := n - 1;
    }
  }

  /** The symbol sent at place i. */
  function Sending(i: nat): (s: nat)
    requires i < 19
    ensures s < 19
  {
    OrderInRange(i);
    ORDER[i]
  }

  lemma NoneBehind(lens: seq<nat>, n: nat)
    requires |lens| == 19 && n <= 19 && forall i :: n <= i < 19 ==> lens[Sending(i)] == 0
    ensures OnlyFirst(lens, n)
  {
    forall j | 0 <= j < 19 && RANK[j] >= n
      ensures lens[j] == 0
    {
      OrderRank(j);
      assert lens[Sending(RANK[j])] == 0;
    }
  }

  /** How many lengths of the code-length code must be sent. */
  method CountLenLens(lens: seq<nat>) returns (n: nat)
    requires |lens| == 19
    ensures 4 <= n <= 19 && OnlyFirst(lens, n) && (n == 4 || lens[Sending(n - 1)] != 0)
  {
    hide *;
    var k := 18;
    while k >= 0
      invariant -1 <= k <= 18
      invariant forall i :: k < i < 19 ==> lens[Sending(i)] == 0
    {
      if lens[Sending(k)] != 0 {
        break;
      }
      k := k - 1;
    }
    n := if k + 1 > 4 then k + 1 else 4;
    NoneBehind(lens, n);
  }

  lemma LenLensStep(lens: seq<nat>, i: nat)
    requires |lens| == 19 && i < 19 && forall i :: 0 <= i < 19 ==> lens[i] < 8
    ensures lens[Sending(i)] < Pow2(3)
    ensures LenLensBits(lens, i + 1) == LenLensBits(lens, i) + BitsOf(lens[Sending(i)], 3)
  {
    hide BitsOf, Pow2;
    SmallLens(lens, i + 1);
  }

  method PutLenLens(w: Writer, lens: seq<nat>, n: nat)
    requires w.Valid() && |lens| == 19 && n <= 19 && forall i :: 0 <= i < 19 ==> lens[i] < 8
    modifies w`cur, w`written, w`bitBuffer, w`bitsIn, w.buf
    ensures w.Valid() && w.Stream() == old(w.Stream()) + LenLensBits(lens, n) && old(w.written) <= w.written
  {
    hide ORDER, BitsOf, w.Valid, w.Stream, Sent, Pow2, Sending;
    var i := 0;
    ghost var s := w.Stream();
    while i < n
      invariant i <= n && w.Valid() && w.Stream() == s + LenLensBits(lens, i) && old(w.written) <= w.written
    {
      LenLensStep(lens, i);
      w.PutBits(lens[Sending(i)], 3);
      assert s + LenLensBits(lens, i) + BitsOf(lens[Sending(i)], 3) == s
             + (LenLensBits(lens, i) + BitsOf(lens[Sending(i)], 3));
      i := i + 1;
    }
  }

  /** The codes used by a packed vector have lengths. */
  lemma PackedCodable(ops: seq<Op>, packed: seq<nat>, counts: seq<nat>, done: seq<nat>, lens: seq<nat>)
    requires Packing(ops, packed, counts, done) && TableFor(counts, lens, 7)
    ensures OpsCodable(lens, ops)
  {
    hide Complete, Lonely, ExpandOps, Flat, Occurrences;
    forall i | 0 <= i < |ops|
      ensures OpCodable(lens, ops[i])
    {
      OpsAreOk([], ops, i);
      OccursPositive(ops, i);
    }
  }

  lemma {:induction false} OpsAreOk(lens: seq<nat>, ops: seq<Op>, i: nat)
    requires Expandable(lens, ops) && i < |ops|
    ensures OpOk(ops[i])
    decreases |ops|
  {
    if i > 0 { OpsAreOk(Append(lens, ops[0]), ops[1..], i - 1); }
  }

  lemma {:induction false} OccurrencesTotal(ops: seq<Op>, counts: seq<nat>, n: nat)
    requires n <= 19 == |counts| && forall c: nat :: c < 19 ==> counts[c] == Occurrences(ops, c)
    ensures CountTotal(counts, n) <= |ops|
    decreases |ops|
  {
    if ops == [] {
      NoTotal(counts, n);
    } else {
      var r, c := ops[..|ops| - 1], ops[|ops| - 1].code;
      var before: seq<nat> := seq(19, i requires 0 <= i < 19 => Occurrences(r, i));
      OccurrencesTotal(r, before, n);
      if c < 19 {
        assert counts == before[c := before[c] + 1];
        TotalUpdate(before, c, before[c] + 1, n);
      } else {
        assert counts == before;
      }
    }
  }

  lemma {:induction false} NoTotal(counts: seq<nat>, n: nat)
    requires n <= |counts| && forall i :: 0 <= i < |counts| ==> counts[i] == 0
    ensures CountTotal(counts, n) == 0
  {
    if n > 0 { NoTotal(counts, n - 1); }
  }

  // ---- starting a block

  /** The table of the code-length code and what is sent through it. */
  lemma LensTable(ops: seq<Op>, packed: seq<nat>, counts: seq<nat>, done: seq<nat>)
    requires Packing(ops, packed, counts, done) && |done| <= 320
    ensures |counts| == 19 && CountTotal(counts, 19) <= 65535 && 19 <= Pow2(7)
  {
    SmallPowers();
    hide CountTotal, Pow2, Flat, Occurrences;
    OccurrencesTotal(ops, counts, 19);
  }

  lemma LimitedBelow(counts: seq<nat>, lens: seq<nat>)
    requires TableFor(counts, lens, 7)
    ensures forall i :: 0 <= i < |lens| ==> lens[i] < 8
  {
  }

  lemma Fits15()
    ensures 288 <= Pow2(15)
  {
    Pow15();
  }

  /** The symbols without counts at the end of an alphabet have no lengths. */
  lemma UnusedEnd(counts: seq<nat>, lens: seq<nat>, n: nat)
    requires TableFor(counts, lens, 15) && n + 2 == |counts| && counts[n] == 0 && counts[n + 1] == 0
    ensures ZeroFrom(lens, n)
  {
    hide Complete, Lonely;
  }

  /** What the header of a dynamic block says about the tables behind it. */
  ghost predicate HeaderFor(h: Header, lit: Codebook, dist: Codebook) {
    && HeaderOk(h) && ZeroFrom(lit.sizes, h.nlit) && ZeroFrom(dist.sizes, h.ndist)
    && h.tables == Tables(lit.sizes[..h.nlit], dist.sizes[..h.ndist])
  }

  /** Nothing is sent that need not be: no unused symbols at the end, the codes of the runs for the lengths,
      and for these codes nearly the best lengths. */
  ghost predicate Compact(h: Header) {
    && 257 <= h.nlit <= |h.tables.lit| && (h.nlit == 257 || h.tables.lit[h.nlit - 1] != 0)
    && 1 <= h.ndist <= |h.tables.dist| && (h.ndist == 1 || h.tables.dist[h.ndist - 1] != 0)
    && h.ops == RunCoded(h.tables.lit + h.tables.dist)
    && |h.lens| == 19 && NearMinimum(OpCounts(h.ops), h.lens, 7)
    && 4 <= h.nlen <= 19 && (h.nlen == 4 || h.lens[Sending(h.nlen - 1)] != 0)
  }

  function OpCounts(ops: seq<Op>): (c: seq<nat>)
    ensures |c| == 19
  {
    seq(19, i requires 0 <= i < 19 => Occurrences(ops, i))
  }

  lemma HeaderCompact(h: Header, lit: seq<nat>, dist: seq<nat>, packed: seq<nat>, counts: seq<nat>)
    requires h.nlit <= |lit| && h.ndist <= |dist| && h.tables == Tables(lit[..h.nlit], dist[..h.ndist])
    requires 257 <= h.nlit && (h.nlit == 257 || lit[h.nlit - 1] != 0)
    requires 1 <= h.ndist && (h.ndist == 1 || dist[h.ndist - 1] != 0)
    requires Packing(h.ops, packed, counts, lit[..h.nlit] + dist[..h.ndist])
    requires h.ops == RunCoded(lit[..h.nlit] + dist[..h.ndist]) && |h.lens| == 19 && NearMinimum(counts, h.lens, 7)
    requires 4 <= h.nlen <= 19 && (h.nlen == 4 || h.lens[Sending(h.nlen - 1)] != 0)
    ensures Compact(h)
  {
    hide NearMinimum, RunCoded, Occurrences, Flat, Expandable, ExpandOps;
    assert counts == OpCounts(h.ops);
  }

  lemma HeaderGood(lit: Codebook, dist: Codebook, h: Header, packed: seq<nat>, counts: seq<nat>)
    requires BookOk(lit) && BookOk(dist) && Accepted(lit.sizes) && Accepted(dist.sizes)
    requires ZeroFrom(lit.sizes, h.nlit) && ZeroFrom(dist.sizes, h.ndist)
    requires 257 <= h.nlit <= 286 && 1 <= h.ndist <= 30 && 4 <= h.nlen <= 19
    requires h.tables == Tables(lit.sizes[..h.nlit], dist.sizes[..h.ndist])
    requires Packing(h.ops, packed, counts, h.tables.lit + h.tables.dist)
    requires TableFor(counts, h.lens, 7) && Accepted(h.lens) && Feasible(h.lens) && OnlyFirst(h.lens, h.nlen)
    ensures HeaderFor(h, lit, dist)
  {
    hide Accepted, Feasible, OpCodable, Flat, Occurrences, Expandable, ExpandOps, OnlyFirst, CodesOf;
    AcceptedTrim(lit.sizes, h.nlit);
    AcceptedTrim(dist.sizes, h.ndist);
    PackedCodable(h.ops, packed, counts, h.tables.lit + h.tables.dist, h.lens);
    LimitedBelow(counts, h.lens);
  }

  /** Sizes of all lengths to be packed. */
  lemma SizesBelow16(a: seq<nat>, b: seq<nat>)
    requires WellFormed(a) && WellFormed(b)
    ensures forall i :: 0 <= i < |a + b| ==> (a + b)[i] < 16
  {
  }

  /** The counts of a block: one end-of-block code besides the tokens. */
  ghost predicate BlockCounts(litCount: seq<nat>, distCount: seq<nat>) {
    && |litCount| == 288 && |distCount| == 32
    && CountTotal(litCount, 288) < 65535 && CountTotal(distCount, 32) <= 65535
    && litCount[256] == litCount[286] == litCount[287] == 0 && distCount[30] == distCount[31] == 0
  }

  /** The two codes of a block take nearly as little room as any for its counts. */
  ghost predicate NearTables(litCount: seq<nat>, distCount: seq<nat>, lit: Codebook, dist: Codebook) {
    && |litCount| == |lit.sizes| == 288 && |distCount| == |dist.sizes| == 32
    && NearMinimum(litCount[256 := 1], lit.sizes, 15) && NearMinimum(distCount, dist.sizes, 15)
  }

  method DynamicBooks(litCount: seq<nat>, distCount: seq<nat>) returns (lit: Codebook, dist: Codebook)
    requires BlockCounts(litCount, distCount)
    ensures BookOk(lit) && BookOk(dist) && Accepted(lit.sizes) && Accepted(dist.sizes)
    ensures TableFor(litCount[256 := 1], lit.sizes, 15) && TableFor(distCount, dist.sizes, 15)
    ensures ZeroFrom(lit.sizes, 286) && ZeroFrom(dist.sizes, 30)
    ensures NearTables(litCount, distCount, lit, dist)
  {
    hide CountTotal, BookOk, Accepted, TableFor, ZeroFrom, Pow2, NearMinimum;
    Fits15();
    TotalUpdate(litCount, 256, 1, 288);
    lit := OptimizeTable(litCount[256 := 1], 15);
    dist := OptimizeTable(distCount, 15);
    UnusedEnd(litCount[256 := 1], lit.sizes, 286);
    UnusedEnd(distCount, dist.sizes, 30);
    TableSize(litCount[256 := 1], lit.sizes);
    TableSize(distCount, dist.sizes);
  }

  lemma TableSize(counts: seq<nat>, lens: seq<nat>)
    requires TableFor(counts, lens, 15)
    ensures |lens| == |counts|
  {
  }

  method PutSizes(w: Writer, nlit: nat, ndist: nat, nlen: nat, ghost h: Header)
    requires w.Valid() && 257 <= nlit <= 286 && 1 <= ndist <= 30 && 4 <= nlen <= 19
    requires h.nlit == nlit && h.ndist == ndist && h.nlen == nlen
    modifies w`cur, w`written, w`bitBuffer, w`bitsIn, w.buf
    ensures w.Valid() && w.Stream() == old(w.Stream()) + BitsOf(2, 2) + SizesBits(h) && old(w.written) <= w.written
  {
    SmallPowers();
    hide Pow2, BitsOf, w.Valid, w.Stream;
    ghost var s := w.Stream();
    ghost var a, b, c := BitsOf(nlit - 257, 5), BitsOf(ndist - 1, 5), BitsOf(nlen - 4, 4);
    w.PutBits(2, 2);
    w.PutBits(nlit - 257, 5);
    w.PutBits(ndist - 1, 5);
    w.PutBits(nlen - 4, 4);
    assert s + BitsOf(2, 2) + a + b + c == s + BitsOf(2, 2) + (a + b + c);
  }

  /** tdefl_start_dynamic_block */
  method StartDynamicBlock(w: Writer, litCount: seq<nat>, distCount: seq<nat>)
    returns (lit: Codebook, dist: Codebook, ghost h: Header)
    requires w.Valid() && BlockCounts(litCount, distCount)
    modifies w`cur, w`written, w`bitBuffer, w`bitsIn, w.buf
    ensures BookOk(lit) && BookOk(dist) && HeaderFor(h, lit, dist) && NearTables(litCount, distCount, lit, dist)
    ensures TableFor(litCount[256 := 1], lit.sizes, 15) && TableFor(distCount, dist.sizes, 15) && Compact(h)
    ensures w.Valid() && w.Stream() == old(w.Stream()) + BitsOf(2, 2) + HeaderBits(h) && old(w.written) <= w.written
  {
    hide BookOk, Accepted, Feasible, TableFor, ZeroFrom, Packing, OnlyFirst, CountTotal, Pow2, BitsOf, w.Valid,
         w.Stream, HeaderFor, WellFormed,
         SizesBits, LenLensBits, OpsBits, NearMinimum, NearTables, RunCoded, Sending, Compact;
    lit, dist := DynamicBooks(litCount, distCount);
    var nlit := TrimZeros(lit.sizes, 286, 257);
    var ndist := TrimZeros(dist.sizes, 30, 1);
    TrimmedOk(lit, nlit);
    TrimmedOk(dist, ndist);
    var toPack := lit.sizes[..nlit] + dist.sizes[..ndist];
    SizesBelow16(lit.sizes[..nlit], dist.sizes[..ndist]);
    ghost var ops;
    var packed, counts;
    packed, counts, ops := PackCodeLengths(toPack);
    LensTable(ops, packed, counts, toPack);
    var book := OptimizeTable(counts, 7);
    LensBook(counts, book);
    var nlen := CountLenLens(book.sizes);
    h := Header(nlit, ndist, nlen, book.sizes, ops, Tables(lit.sizes[..nlit], dist.sizes[..ndist]));
    HeaderGood(lit, dist, h, packed, counts);
    HeaderParts(h, lit, dist);
    HeaderCompact(h, lit.sizes, dist.sizes, packed, counts);
    PackedFlat(ops, packed, counts, toPack);
    ghost var s := w.Stream();
    PutSizes(w, nlit, ndist, nlen, h);
    PutLenLens(w, book.sizes, nlen);
    PutOps(w, book, packed, ops);
    assert s + BitsOf(2, 2) + SizesBits(h) + LenLensBits(h.lens, nlen) + OpsBits(h.lens, ops)
        == s + BitsOf(2, 2) + HeaderBits(h);
  }

  lemma TrimmedOk(b: Codebook, n: nat)
    requires BookOk(b) && ZeroFrom(b.sizes, n)
    ensures n <= |b.sizes| && WellFormed(b.sizes[..n])
  {
  }

  lemma LensBook(counts: seq<nat>, b: Codebook)
    requires |counts| == 19 && TableFor(counts, b.sizes, 7) && BookOk(b)
    ensures |b.sizes| == 19 && Feasible(b.sizes) && forall i :: 0 <= i < 19 ==> b.sizes[i] < 8
  {
  }

  lemma PackedFlat(ops: seq<Op>, packed: seq<nat>, counts: seq<nat>, done: seq<nat>)
    requires Packing(ops, packed, counts, done)
    ensures packed == Flat(ops)
  {
  }

  lemma HeaderParts(h: Header, lit: Codebook, dist: Codebook)
    requires HeaderFor(h, lit, dist)
    ensures OpsCodable(h.lens, h.ops)
  {
  }

  /** The fixed lengths of section 3.2.6 of RFC 1951. */
  method StaticSizes() returns (lit: seq<nat>, dist: seq<nat>)
    ensures lit == StaticLit() && dist == StaticDist()
  {
    var sizes := new nat[288](_ => 0);
    var i := 0;
    while i <= 143
      invariant 0 <= i <= 144 && forall k :: 0 <= k < i ==> sizes[k] == StaticLit()[k]
    {
      sizes[i] := 8;
      i := i + 1;
    }
    while i <= 255
      invariant 144 <= i <= 256 && forall k :: 0 <= k < i ==> sizes[k] == StaticLit()[k]
    {
      sizes[i] := 9;
      i := i + 1;
    }
    while i <= 279
      invariant 256 <= i <= 280 && forall k :: 0 <= k < i ==> sizes[k] == StaticLit()[k]
    {
      sizes[i] := 7;
      i := i + 1;
    }
    while i <= 287
      invariant 280 <= i <= 288 && forall k :: 0 <= k < i ==> sizes[k] == StaticLit()[k]
    {
      sizes[i] := 8;
      i := i + 1;
    }
    lit, dist := sizes[..], seq(32, _ => 5);
  }

  method OptimizeStatic(sizes: seq<nat>) returns (b: Codebook)
    requires Feasible(sizes)
    ensures b.sizes == sizes && BookOk(b)
  {
    var codes := new nat[|sizes|](_ => 0);
    StaticTable(sizes, codes);
    b := Codebook(sizes, codes[..]);
  }

  /** tdefl_start_static_block */
  method StartStaticBlock(w: Writer) returns (lit: Codebook, dist: Codebook)
    requires w.Valid()
    modifies w`cur, w`written, w`bitBuffer, w`bitsIn, w.buf
    ensures BookOk(lit) && BookOk(dist) && Tables(lit.sizes, dist.sizes) == StaticTables()
    ensures w.Valid() && w.Stream() == old(w.Stream()) + BitsOf(1, 2) && old(w.written) <= w.written
  {
    SmallPowers();
    hide Feasible, BookOk, BitsOf, Pow2, w.Valid, w.Stream, StaticLit, StaticDist;
    var litSizes, distSizes := StaticSizes();
    StaticFeasible();
    lit := OptimizeStatic(litSizes);
    dist := OptimizeStatic(distSizes);
    w.PutBits(1, 2);
  }

  lemma StaticFeasible()
    ensures Feasible(StaticLit()) && Feasible(StaticDist())
  {
    hide StaticLit, StaticDist, Pow2;
    StaticComplete();
  }
}
