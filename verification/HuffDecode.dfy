/** TINFL_HUFF_DECODE: decoding one symbol with the lookup and tree tables. */
module HuffDecode {
  import opened Bytes
  import opened Bits
  import opened Canonical
  import opened DecodeTrie
  import opened InflateTable
  import opened BuildTable
  import opened DecodeTable
  import opened BlockFormat
  import opened BitReader

  // ---- what the tables hold for the bits of a code

  /** The tables of a vector of lengths, as sequences. */
  ghost predicate TablesOf(lookup: seq<int>, tree: seq<int>, node: Nodes, lens: Lengths) {
    Feasible(lens) && |lens| <= 512 && exists next :: Trie(lookup, tree, node, LeavesBelow(lens, |lens|), next)
  }

  ghost predicate CodeOf(lens: Lengths, s: nat, c: Bits) {
    s < |lens| && lens[s] > 0 && c == Code(lens, s)
  }

  lemma CodeIsLeafOf(lens: Lengths, s: nat, c: Bits)
    requires Feasible(lens) && CodeOf(lens, s, c)
    ensures c in LeavesBelow(lens, |lens|) && LeavesBelow(lens, |lens|)[c] == s
  {
    hide Code, Feasible;
    CodeIsLeaf(lens, |lens|, s);
  }

  /** A short code fills all lookup slots it starts. */
  lemma ShortEntry(lookup: seq<int>, tree: seq<int>, node: Nodes, lens: Lengths, s: nat, c: Bits, p: Bits)
    requires TablesOf(lookup, tree, node, lens) && CodeOf(lens, s, c) && |c| <= FAST_BITS == |p| && c <= p
    ensures |lookup| == FAST_SIZE && ValueOf(p) < FAST_SIZE && lookup[ValueOf(p)] == Packed(|c|, s)
  {
    hide TreeOk, LeavesOk, NodesOk, Feasible, CodeOf, ValueOf;
    CodeIsLeafOf(lens, s, c);
    assert Prefix(c, p);
  }

  /** A long code leads to its inner nodes and then to its symbol. */
  lemma LongEntry(lookup: seq<int>, tree: seq<int>, node: Nodes, lens: Lengths, s: nat, c: Bits)
    requires TablesOf(lookup, tree, node, lens) && CodeOf(lens, s, c) && |c| > FAST_BITS
    ensures |lookup| == FAST_SIZE && ValueOf(c[..FAST_BITS]) < FAST_SIZE
    ensures c[..FAST_BITS] in node && lookup[ValueOf(c[..FAST_BITS])] == node[c[..FAST_BITS]] < 0
  {
    hide TreeOk, Feasible, CodeOf, ValueOf;
    CodeIsLeafOf(lens, s, c);
  }

  lemma TreeEntry(lookup: seq<int>, tree: seq<int>, node: Nodes, lens: Lengths, s: nat, c: Bits, k: nat)
    requires TablesOf(lookup, tree, node, lens) && CodeOf(lens, s, c) && FAST_BITS <= k < |c| && c[..k] in node
    ensures var i := -node[c[..k]] - 1 + Bit(c[k]);
            0 <= i < |tree| && if k + 1 < |c| then c[..k + 1] in node && tree[i] == node[c[..k + 1]] < 0
                else tree[i] == s
  {
    hide LookupOk, Feasible, CodeOf, ValueOf, TreeOk, LeavesOk, NodesOk;
    CodeIsLeafOf(lens, s, c);
    var leaf := LeavesBelow(lens, |lens|);
    var next :| Trie(lookup, tree, node, leaf, next);
    var q := c[..k + 1];
    assert Parent(q) == c[..k];
    EntryAt(tree, node, leaf, next, q);
    NodeOrLeaf(node, leaf, c, k + 1);
    if k + 1 < |c| {
      NodeNumber(node, next, q);
    } else {
      assert q == c;
    }
  }

  lemma NodeOrLeaf(node: Nodes, leaf: Leaves, c: Bits, k: nat)
    requires LeavesOk(node, leaf) && c in leaf && FAST_BITS <= k <= |c|
    ensures c[..k] in node <==> k < |c|
  {
    if k == |c| {
      assert c[..k] == c && Prefix(c, c);
    }
  }

  lemma NegativeNode(node: Nodes, lens: Lengths, p: Bits, lookup: seq<int>, tree: seq<int>)
    requires TablesOf(lookup, tree, node, lens) && |p| == FAST_BITS && p in node && ValueOf(p) < |lookup|
    ensures lookup[ValueOf(p)] < 0
  {
    hide TreeOk, LeavesOk, Feasible, ValueOf;
  }

  /** A lookup entry that carries a length comes from a code of that length. */
  lemma EntryHasCode(lookup: seq<int>, tree: seq<int>, node: Nodes, lens: Lengths, p: Bits) returns (k: nat)
    requires TablesOf(lookup, tree, node, lens) && |p| == FAST_BITS
    requires |lookup| == FAST_SIZE && ValueOf(p) < FAST_SIZE && lookup[ValueOf(p)] / 512 > 0
    ensures k < |lens| && lens[k] > 0 && lens[k] == lookup[ValueOf(p)] / 512 && Code(lens, k) <= p
  {
    hide TreeOk, LeavesOk, Feasible, Code, ValueOf;
    var leaf := LeavesBelow(lens, |lens|);
    assert p !in node by {
      if p in node { NegativeNode(node, lens, p, lookup, tree); }
    }
    assert !Unreached(leaf, p);
    var c :| c in leaf && Prefix(c, p);
    LeafIsCode(lens, |lens|, c);
    k := leaf[c];
    PackedParts(|c|, k);
  }

  lemma PackedParts(len: nat, sym: nat)
    requires sym < 512
    ensures Packed(len, sym) / 512 == len && Packed(len, sym) % 512 == sym && Packed(len, sym) >= 0
  {
  }

  // ---- bits of the bit buffer

  lemma {:induction false} ZerosHaveNoValue(n: nat)
    ensures ValueOf(Zeros(n)) == 0
  {
    if n > 0 {
      ZerosHaveNoValue(n - 1);
      assert Zeros(n)[1..] == Zeros(n - 1);
    }
  }

  /** The bits at hand, followed by zeros. */
  ghost function Padded(bitBuf: nat, numBits: nat): (p: Bits)
    ensures |p| == numBits + 15
  {
    BitsOf(bitBuf, numBits) + Zeros(15)
  }

  lemma PaddedValue(bitBuf: nat, numBits: nat)
    requires bitBuf < Pow2(numBits)
    ensures ValueOf(Padded(bitBuf, numBits)) == bitBuf
  {
    hide BitsOf, ValueOf, Pow2;
    ZerosHaveNoValue(15);
    ValueOfBitsOf(bitBuf, numBits);
    ValueOfConcat(BitsOf(bitBuf, numBits), Zeros(15));
  }

  lemma LowTenBits(bitBuf: nat, numBits: nat)
    requires bitBuf < Pow2(numBits)
    ensures bitBuf % FAST_SIZE == ValueOf(Padded(bitBuf, numBits)[..FAST_BITS])
  {
    hide BitsOf, ValueOf, Pow2, Padded;
    PaddedValue(bitBuf, numBits);
    MaskAndShift(Padded(bitBuf, numBits), FAST_BITS);
    TenPower();
  }

  lemma TenPower()
    ensures Pow2(FAST_BITS) == FAST_SIZE
  {
    assert Pow2(5) == 32;
  }

  lemma NextBit(bitBuf: nat, numBits: nat, k: nat)
    requires bitBuf < Pow2(numBits) && k < numBits
    ensures (bitBuf / Pow2(k)) % 2 == Bit(BitsOf(bitBuf, numBits)[k])
  {
    hide BitsOf, Pow2;
    ValueOfBitsOf(bitBuf, numBits);
    MaskAndShift(BitsOf(bitBuf, numBits), k);
  }

  // ---- walking the tree

  /** The walk of the fast path: until a symbol is found. */
  method Walk(t: Table, bitBuf: nat, numBits: nat, start: int, ghost lens: Lengths, ghost s: nat)
      returns (temp: int, codeLen: nat)
    requires t.Shape() && TablesOf(t.lookup[..], t.tree[..], t.node, lens) && bitBuf < Pow2(numBits)
    requires s < |lens| && lens[s] > 0 && FAST_BITS < lens[s] <= numBits && Code(lens, s) <= BitsOf(bitBuf, numBits)
    requires Code(lens, s)[..FAST_BITS] in t.node && start == t.node[Code(lens, s)[..FAST_BITS]]
    ensures temp == s && codeLen == lens[s]
  {
    hide TablesOf, Pow2, BitsOf, Code;
    ghost var c, b := Code(lens, s), BitsOf(bitBuf, numBits);
    temp, codeLen := start, FAST_BITS;
    while true
      invariant FAST_BITS <= codeLen < |c| && c[..codeLen] in t.node && temp == t.node[c[..codeLen]]
      decreases |c| - codeLen
    {
      NextBit(bitBuf, numBits, codeLen);
      TreeEntry(t.lookup[..], t.tree[..], t.node, lens, s, c, codeLen);
      assert b[codeLen] == c[codeLen];
      temp := t.tree[-temp - 1 + (bitBuf / Pow2(codeLen)) % 2];
      codeLen := codeLen + 1;
      if temp >= 0 {
        assert codeLen == |c|;
        return;
      }
    }
  }

  /** The symbol that starts the bit buffer. */
  method Lookup(t: Table, bitBuf: nat, numBits: nat, ghost lens: Lengths, ghost s: nat) returns (sym: nat, codeLen: nat)
    requires t.Shape() && TablesOf(t.lookup[..], t.tree[..], t.node, lens) && bitBuf < Pow2(numBits)
    requires s < |lens| && lens[s] > 0 && lens[s] <= numBits && Code(lens, s) <= BitsOf(bitBuf, numBits)
    ensures sym == s && codeLen == lens[s]
  {
    hide TablesOf, Pow2, BitsOf, Code, ValueOf, Packed;
    ghost var c, p := Code(lens, s), Padded(bitBuf, numBits);
    LowTenBits(bitBuf, numBits);
    SymSmall(t.lookup[..], t.tree[..], t.node, lens, s);
    var temp := t.lookup[bitBuf % FAST_SIZE];
    if lens[s] <= FAST_BITS {
      assert c <= p[..FAST_BITS];
      ShortEntry(t.lookup[..], t.tree[..], t.node, lens, s, c, p[..FAST_BITS]);
      PackedParts(|c|, s);
    } else {
      assert p[..FAST_BITS] == c[..FAST_BITS];
      LongEntry(t.lookup[..], t.tree[..], t.node, lens, s, c);
    }
    if temp >= 0 {
      codeLen, sym := temp / 512, temp % 512;
    } else {
      var found;
      found, codeLen := Walk(t, bitBuf, numBits, temp, lens, s);
      sym := found;
    }
  }

  lemma SymSmall(lookup: seq<int>, tree: seq<int>, node: Nodes, lens: Lengths, s: nat)
    requires TablesOf(lookup, tree, node, lens) && s < |lens|
    ensures s < 512
  {
  }

  // ---- the slow path near the end of the input

  /** How the code at the current position relates to the bits at hand. */
  ghost predicate Expected(lens: Lengths, s: nat, b: Bits) {
    s < |lens| && lens[s] > 0 && if lens[s] <= |b| then Code(lens, s) <= b else b <= Code(lens, s)
  }

  /** The walk of the slow path, with the bits at hand only. */
  method TryWalk(t: Table, bitBuf: nat, numBits: nat, start: int, ghost lens: Lengths, ghost s: nat) returns (temp: int)
    requires t.Shape() && TablesOf(t.lookup[..], t.tree[..], t.node, lens) && bitBuf < Pow2(numBits)
             && numBits > FAST_BITS
    requires Expected(lens, s, BitsOf(bitBuf, numBits)) && lens[s] > FAST_BITS
    requires Code(lens, s)[..FAST_BITS] in t.node && start == t.node[Code(lens, s)[..FAST_BITS]]
    ensures temp >= 0 <==> lens[s] <= numBits
  {
    hide TablesOf, Pow2, BitsOf, Code;
    ghost var c, b := Code(lens, s), BitsOf(bitBuf, numBits);
    var codeLen := FAST_BITS;
    temp := start;
    while true
      invariant FAST_BITS <= codeLen < |c| && codeLen < numBits && c[..codeLen] in t.node
                && temp == t.node[c[..codeLen]]
      decreases |c| - codeLen
    {
      NextBit(bitBuf, numBits, codeLen);
      TreeEntry(t.lookup[..], t.tree[..], t.node, lens, s, c, codeLen);
      assert b[codeLen] == c[codeLen];
      temp := t.tree[-temp - 1 + (bitBuf / Pow2(codeLen)) % 2];
      codeLen := codeLen + 1;
      if !(temp < 0 && numBits >= codeLen + 1) {
        return;
      }
    }
  }

  /** Whether the bits at hand hold a whole code. */
  method Enough(t: Table, bitBuf: nat, numBits: nat, ghost lens: Lengths, ghost s: nat) returns (yes: bool)
    requires t.Shape() && TablesOf(t.lookup[..], t.tree[..], t.node, lens) && bitBuf < Pow2(numBits)
    requires Expected(lens, s, BitsOf(bitBuf, numBits))
    ensures yes <==> lens[s] <= numBits
  {
    hide TablesOf, Pow2, BitsOf, Code, ValueOf, Packed;
    ghost var p := Padded(bitBuf, numBits);
    LowTenBits(bitBuf, numBits);
    TenBits(p[..FAST_BITS]);
    LookupSize(t.lookup[..], t.tree[..], t.node, lens);
    SlotCases(t.lookup[..], t.tree[..], t.node, lens, s, bitBuf, numBits);
    var temp := t.lookup[bitBuf % FAST_SIZE];
    if temp >= 0 {
      var codeLen := temp / 512;
      return codeLen > 0 && numBits >= codeLen;
    } else if numBits > FAST_BITS {
      temp := TryWalk(t, bitBuf, numBits, temp, lens, s);
      return temp >= 0;
    } else {
      return false;
    }
  }

  lemma LookupSize(lookup: seq<int>, tree: seq<int>, node: Nodes, lens: Lengths)
    requires TablesOf(lookup, tree, node, lens)
    ensures |lookup| == FAST_SIZE
  {
  }

  /** What the lookup slot of the padded bits can be. */
  lemma SlotCases(lookup: seq<int>, tree: seq<int>, node: Nodes, lens: Lengths, s: nat, bitBuf: nat, numBits: nat)
    requires TablesOf(lookup, tree, node, lens) && Expected(lens, s, BitsOf(bitBuf, numBits)) && |lookup| == FAST_SIZE
    requires ValueOf(Padded(bitBuf, numBits)[..FAST_BITS]) < FAST_SIZE
    ensures var e := lookup[ValueOf(Padded(bitBuf, numBits)[..FAST_BITS])];
            && (e >= 0 ==> (e / 512 > 0 && numBits >= e / 512 <==> lens[s] <= numBits))
            && (e < 0 && numBits > FAST_BITS ==>
              lens[s] > FAST_BITS && Code(lens, s)[..FAST_BITS] in node && e == node[Code(lens, s)[..FAST_BITS]])
            && (e < 0 && numBits <= FAST_BITS ==> lens[s] > numBits)
  {
    hide TablesOf, Code, ValueOf, Packed, BitsOf;
    var c, b := Code(lens, s), BitsOf(bitBuf, numBits);
    var p := Padded(bitBuf, numBits)[..FAST_BITS];
    if lens[s] <= numBits {
      if lens[s] <= FAST_BITS {
        assert c <= p;
        ShortEntry(lookup, tree, node, lens, s, c, p);
        SymSmall(lookup, tree, node, lens, s);
        PackedParts(|c|, s);
      } else {
        assert p == c[..FAST_BITS];
        LongEntry(lookup, tree, node, lens, s, c);
      }
    } else {
      TooShort(lookup, tree, node, lens, s, b, p);
    }
  }

  /** With only part of the code at hand, no entry claims to be decodable. */
  lemma TooShort(lookup: seq<int>, tree: seq<int>, node: Nodes, lens: Lengths, s: nat, b: Bits, p: Bits)
    requires TablesOf(lookup, tree, node, lens) && s < |lens| && lens[s] > |b| && b <= Code(lens, s)
             && |lookup| == FAST_SIZE
    requires |p| == FAST_BITS && (if |b| <= FAST_BITS then b <= p else p <= b) && ValueOf(p) < FAST_SIZE
    ensures var e := lookup[ValueOf(p)];
            && (e / 512 > 0 ==> e / 512 > |b|)
            && (|b| > FAST_BITS ==>
              e < 0 && Code(lens, s)[..FAST_BITS] in node && e == node[Code(lens, s)[..FAST_BITS]])
  {
    hide TablesOf, Code, ValueOf;
    var c, e := Code(lens, s), lookup[ValueOf(p)];
    if |b| > FAST_BITS {
      assert p == c[..FAST_BITS];
      LongEntry(lookup, tree, node, lens, s, c);
    } else if e / 512 > 0 {
      var k := EntryHasCode(lookup, tree, node, lens, p);
      if lens[k] <= |b| {
        assert Code(lens, k) <= c;
        NoInnerCode(lookup, tree, node, lens, s, k);
      }
    }
  }

  lemma NoInnerCode(lookup: seq<int>, tree: seq<int>, node: Nodes, lens: Lengths, s: nat, k: nat)
    requires TablesOf(lookup, tree, node, lens) && s < |lens| && k < |lens| && lens[s] > 0 && lens[k] > 0
    requires Code(lens, k) <= Code(lens, s)
    ensures k == s
  {
    hide Code;
    PrefixFree(lens, k, s);
  }

  // ---- the macro

  lemma BuiltTables(t: Table, lens: Lengths)
    requires t.Decodes(lens) && |lens| <= 512
    ensures t.Shape() && TablesOf(t.lookup[..], t.tree[..], t.node, lens) && Feasible(lens)
  {
    hide Trie, AllInner, Complete, Lonely;
    AcceptedIsFeasible(lens);
  }

  /** The code of s stands at this position of the whole stream. */
  ghost predicate CodeAt(lens: Lengths, full: Bits, pos: nat, s: nat) {
    s < |lens| && 0 < lens[s] <= 15 && At(full, pos, Code(lens, s))
  }

  /** The code of s comes next, and the input is a part of the whole stream. */
  ghost predicate Ahead(r: BitSource, lens: Lengths, full: Bits, s: nat)
    reads r
  {
    r.Received() <= full && r.Pos() >= 0 && CodeAt(lens, full, r.Pos(), s)
  }

  lemma AheadExpected(r: BitSource, lens: Lengths, full: Bits, s: nat)
    requires r.Holds() && Ahead(r, lens, full, s)
    ensures Expected(lens, s, BitsOf(r.bitBuf, r.numBits))
  {
    hide Pow2, BitsOf, Code, ByteBits;
    var p, n, l := r.Pos(), r.numBits, lens[s];
    var c, b := Code(lens, s), BitsOf(r.bitBuf, n);
    assert |r.Received()| >= r.Seen();
    assert b == r.Received()[p..p + n] == full[p..p + n];
    assert c == full[p..p + l];
    if l <= n {
      assert b[..l] == full[p..p + l];
    } else {
      assert c[..n] == full[p..p + n];
    }
  }

  /** TINFL_HUFF_BITBUF_FILL */
  method Fill(r: BitSource, t: Table, ghost lens: Lengths, ghost full: Bits, ghost s: nat) returns (ok: bool)
    requires r.Holds() && t.Shape() && TablesOf(t.lookup[..], t.tree[..], t.node, lens) && Ahead(r, lens, full, s)
             && r.numBits < 15
    modifies r`inCur, r`numBits, r`bitBuf
    ensures r.Holds() && r.Pos() == old(r.Pos()) && (ok ==> lens[s] <= r.numBits)
    ensures r.numBits > old(r.numBits) ==> r.numBits - 8 < lens[s]
    ensures !ok ==> r.inCur == r.inBuf.Length && r.numBits < lens[s]
  {
    hide TablesOf, Pow2, BitsOf, Code, ByteBits, At, Expected;
    while true
      invariant r.Holds() && r.Pos() == old(r.Pos()) && r.numBits < 15 && Ahead(r, lens, full, s)
      invariant r.numBits > old(r.numBits) ==> r.numBits - 8 < lens[s]
      decreases r.inBuf.Length - r.inCur
    {
      AheadExpected(r, lens, full, s);
      var yes := Enough(t, r.bitBuf, r.numBits, lens, s);
      if yes {
        return true;
      }
      if r.inCur >= r.inBuf.Length {
        return false;
      }
      r.LoadByte();
      if r.numBits >= 15 {
        return true;
      }
    }
  }

  /** TINFL_HUFF_DECODE: the symbol whose code comes next, or no more input and less than a code at hand. */
  method Decode(r: BitSource, t: Table, ghost lens: Lengths, ghost full: Bits, ghost s: nat)
      returns (ok: bool, sym: nat)
    requires r.Holds() && t.Decodes(lens) && |lens| <= 512 && Ahead(r, lens, full, s)
    modifies r`inCur, r`numBits, r`bitBuf
    ensures r.Holds() && (ok ==> sym == s && r.Pos() == old(r.Pos()) + lens[s])
    ensures !ok ==> r.inCur == r.inBuf.Length && r.Pos() == old(r.Pos()) && |r.Received()| - r.Pos() < lens[s]
  {
    hide TablesOf, Pow2, BitsOf, Code, ByteBits, At, Expected, t.Decodes;
    BuiltTables(t, lens);
    sym := 0;
    if r.numBits < 15 {
      if r.inBuf.Length - r.inCur < 2 {
        ok := Fill(r, t, lens, full, s);
        if !ok {
          return;
        }
      } else {
        r.LoadByte();
        r.LoadByte();
      }
    }
    AheadExpected(r, lens, full, s);
    ExpectedCode(lens, s, BitsOf(r.bitBuf, r.numBits));
    var codeLen;
    sym, codeLen := Lookup(t, r.bitBuf, r.numBits, lens, s);
    var _ := r.Take(codeLen);
    ok := true;
  }

  lemma ExpectedCode(lens: Lengths, s: nat, b: Bits)
    requires Expected(lens, s, b) && lens[s] <= |b|
    ensures Code(lens, s) <= b
  {
  }
}
