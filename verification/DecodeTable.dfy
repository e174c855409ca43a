/** One of the three decoding tables of the decompressor. */
module DecodeTable {
  import opened Bytes
  import opened Bits
  import opened Canonical
  import opened DecodeTrie
  import opened InflateTable
  import opened BuildTable

  /** The tree array is large enough for any accepted vector of this many symbols. */
  predicate TreeRoom(treeLen: nat, symbols: nat) {
    treeLen >= 2 * symbols && treeLen >= 10
  }

  ghost predicate Accepted(lens: Lengths) {
    WellFormed(lens) && (Complete(lens) || Lonely(lens))
  }

  lemma NodeLengths(node: Nodes, next: int)
    requires NodesOk(node, next)
    ensures forall p :: p in node ==> |p| >= FAST_BITS
    ensures -next - 1 == 2 * |node|
  {
  }

  /** There is room for one more node as long as the nodes are inner strings. */
  lemma NodesFit(lens: Lengths, node: Nodes, next: int, q: Bits, treeLen: nat)
    requires Accepted(lens) && TreeRoom(treeLen, |lens|)
    requires AllInner(lens, node) && Inner(lens, q) && q !in node
    requires |q| >= FAST_BITS && NodesOk(node, next)
    ensures -next < treeLen
  {
    var ps := node.Keys + {q};
    assert |ps| == |node| + 1;
    hide Complete, WellFormed, Lonely, Inner, NodesOk;
    NodeLengths(node, next);
    if Complete(lens) {
      FewInner(lens, ps);
    } else {
      FewInnerLonely(lens, ps);
    }
  }

  lemma PrefixOfPrefix(d: Bits, c: Bits, k: nat)
    requires k <= |c|
    ensures Prefix(d, c[..k]) ==> Prefix(d, c)
  {
  }

  lemma ShorterUnreached(leaf: Leaves, c: Bits, k: nat)
    requires k <= |c| && forall d :: d in leaf ==> !Prefix(d, c)
    ensures Unreached(leaf, c[..k])
  {
    forall d | d in leaf
      ensures !Prefix(d, c[..k])
    {
      PrefixOfPrefix(d, c, k);
    }
  }

  /** The lookup slot of a fresh long code is either empty or holds the node of its first ten bits. */
  lemma TopSlot(lookup: seq<int>, tree: seq<int>, node: Nodes, leaf: Leaves, next: int, c: Bits)
    requires Trie(lookup, tree, node, leaf, next) && |c| > FAST_BITS && Fresh(node, leaf, c)
    ensures var p := c[..FAST_BITS];
            && ValueOf(p) < |lookup| && Unreached(leaf, p)
            && (lookup[ValueOf(p)] == 0 <==> p !in node)
            && (p in node ==> lookup[ValueOf(p)] == node[p])
  {
    hide TreeOk, LeavesOk;
    ShorterUnreached(leaf, c, FAST_BITS);
    TenBits(c[..FAST_BITS]);
  }

  lemma EntryAt(tree: seq<int>, node: Nodes, leaf: Leaves, next: int, q: Bits)
    requires TreeOk(tree, node, leaf, next) && |q| > FAST_BITS && Parent(q) in node
    ensures 0 <= SlotOf(node, q) < |tree| && tree[SlotOf(node, q)] == Entry(node, leaf, q)
  {
  }

  /** The same one level further down the tree. */
  lemma InnerSlot(lookup: seq<int>, tree: seq<int>, node: Nodes, leaf: Leaves, next: int, c: Bits, k: nat)
    requires Trie(lookup, tree, node, leaf, next) && Fresh(node, leaf, c)
    requires FAST_BITS <= k && k + 1 < |c| && c[..k] in node
    ensures var q := c[..k + 1]; var s := Slot(node[c[..k]], c[k]);
            && Parent(q) == c[..k] && SlotOf(node, q) == s && 0 <= s < |tree| && Unreached(leaf, q)
            && (tree[s] == 0 <==> q !in node)
            && (q in node ==> tree[s] == node[q])
  {
    hide TreeOk, LookupOk, LeavesOk, NodesOk;
    var q := c[..k + 1];
    assert Parent(q) == c[..k];
    ShorterUnreached(leaf, c, k + 1);
    EntryAt(tree, node, leaf, next, q);
    assert Prefix(q, c);
    if q in node { NodeNumber(node, next, q); }
  }

  lemma InnerOfCode(lens: Lengths, s: nat, k: nat)
    requires s < |lens| && k < lens[s]
    ensures Inner(lens, Code(lens, s)[..k])
  {
    assert Prefix(Code(lens, s)[..k], Code(lens, s));
  }

  /** A fresh code stays fresh when one of its own inner strings becomes a node. */
  lemma FreshKept(node: Nodes, leaf: Leaves, c: Bits, k: nat, t: int)
    requires Fresh(node, leaf, c) && k < |c|
    ensures Fresh(node[c[..k] := t], leaf, c)
  {
  }

  lemma BitAt(c: Bits, k: nat, rev: nat)
    requires 0 < k < |c| && rev == ValueOf(c[k - 1..])
    ensures rev / 2 == ValueOf(c[k..]) && (rev / 2) % 2 == Bit(c[k])
  {
    assert c[k - 1..][1..] == c[k..];
  }

  class Table {
    const lookup: array<int>
    const tree: array<int>
    ghost var node: Nodes
    ghost var lens: Lengths

    constructor (treeLen: nat)
      ensures fresh(lookup) && fresh(tree) && tree.Length == treeLen && lookup.Length == FAST_SIZE
      ensures lookup != tree
    {
      lookup := new int[FAST_SIZE];
      tree := new int[treeLen];
    }

    ghost predicate Shape()
    {
      lookup.Length == FAST_SIZE && lookup != tree
    }

    /** The tables hold the codes of the first m symbols. */
    ghost predicate Holds(m: nat, next: int)
      reads this, lookup, tree
    {
      && Shape() && m <= |lens| && Accepted(lens) && TreeRoom(tree.Length, |lens|)
      && AllInner(lens, node)
      && Trie(lookup[..], tree[..], node, LeavesBelow(lens, m), next)
    }

    /** The tables decode the code given by these lengths. */
    ghost predicate Decodes(ls: Lengths)
      reads this, lookup, tree
    {
      lens == ls && exists next :: Holds(|ls|, next)
    }

    method Clear()
      requires Shape()
      modifies lookup, tree
      ensures forall i :: 0 <= i < lookup.Length ==> lookup[i] == 0
      ensures forall i :: 0 <= i < tree.Length ==> tree[i] == 0
    {
      forall i | 0 <= i < lookup.Length { lookup[i] := 0; }
      forall i | 0 <= i < tree.Length { tree[i] := 0; }
    }

    /** Every lookup slot whose low bits are the reversed code receives the symbol. */
    method FillShort(m: nat, len: nat, code: nat, ghost next: int)
      requires Holds(m, next) && m < |lens| && lens[m] == len && 0 < len <= FAST_BITS
      requires code == ValueOf(Code(lens, m))
      modifies lookup
      ensures Holds(m + 1, next)
    {
      hide Trie, Code, AllInner, Accepted, Fresh;
      ghost var c := Code(lens, m);
      NextCodeFresh(lens, node, m);
      ghost var before, ts, leaf := lookup[..], tree[..], LeavesBelow(lens, m);
      ValueBound(c);
      FillCongruent(lookup, code, len, m);
      SlotsOfCode(before, lookup[..], c, m);
      assert tree[..] == ts;
      AddShort(before, lookup[..], ts, node, leaf, next, c, m);
    }

    /** One step down the tree for the next bit of a code, making a node where there is none. */
    method Descend(treeCur: int, bit: nat, treeNext: int, ghost m: nat, ghost k: nat) returns (cur: int, next: int)
      requires Holds(m, treeNext) && m < |lens| && FAST_BITS <= k && k + 1 < lens[m]
      requires Fresh(node, LeavesBelow(lens, m), Code(lens, m))
      requires Code(lens, m)[..k] in node && treeCur == node[Code(lens, m)[..k]]
      requires bit == Bit(Code(lens, m)[k])
      modifies this`node, tree
      ensures Holds(m, next)
      ensures Fresh(node, LeavesBelow(lens, m), Code(lens, m))
      ensures forall p :: p in old(node) ==> p in node
      ensures Code(lens, m)[..k + 1] in node && cur == node[Code(lens, m)[..k + 1]]
    {
      hide Trie, Code, AllInner, Accepted, Fresh, LeavesBelow, Inner, Unreached;
      ghost var c, leaf := Code(lens, m), LeavesBelow(lens, m);
      ghost var ls, ts := lookup[..], tree[..];
      InnerSlot(ls, ts, node, leaf, treeNext, c, k);
      var slot := -(treeCur - bit) - 1;
      if tree[slot] == 0 {
        ghost var q := c[..k + 1];
        RoomForNode(lens, ls, ts, node, m, treeNext, q, k + 1);
        AddInner(ls, ts, node, leaf, treeNext, q);
        FreshKept(node, leaf, c, k + 1, treeNext);
        tree[slot] := treeNext;
        assert tree[..] == ts[slot := treeNext] && lookup[..] == ls;
        cur := treeNext;
        next := treeNext - 2;
        node := node[q := treeNext];
      } else {
        cur := tree[slot];
        next := treeNext;
      }
    }

    method EnterTop(m: nat, code: nat, treeNext0: int) returns (treeCur: int, treeNext: int)
      requires Holds(m, treeNext0) && m < |lens| && lens[m] > FAST_BITS
      requires code == ValueOf(Code(lens, m))
      requires Fresh(node, LeavesBelow(lens, m), Code(lens, m))
      modifies this`node, lookup
      ensures Holds(m, treeNext)
      ensures Fresh(node, LeavesBelow(lens, m), Code(lens, m))
      ensures Code(lens, m)[..FAST_BITS] in node && treeCur == node[Code(lens, m)[..FAST_BITS]]
    {
      hide Trie, Code, AllInner, Accepted, Fresh, LeavesBelow, Inner, Unreached;
      ghost var c, leaf := Code(lens, m), LeavesBelow(lens, m);
      ghost var p := c[..FAST_BITS];
      ghost var ls, ts := lookup[..], tree[..];
      LowTen(c);
      TopSlot(ls, ts, node, leaf, treeNext0, c);
      var slot := code % FAST_SIZE;
      treeCur := lookup[slot];
      treeNext := treeNext0;
      if treeCur == 0 {
        RoomForNode(lens, ls, ts, node, m, treeNext, p, FAST_BITS);
        AddTop(ls, ts, node, leaf, treeNext, p);
        FreshKept(node, leaf, c, FAST_BITS, treeNext);
        lookup[slot] := treeNext;
        assert lookup[..] == ls[slot := treeNext] && tree[..] == ts;
        node := node[p := treeNext];
        treeCur := treeNext;
        treeNext := treeNext - 2;
      }
    }

    /** A code longer than ten bits: lookup slot, path of nodes, leaf. */
    method InsertLong(m: nat, len: nat, code: nat, treeNext0: int) returns (treeNext: int)
      requires Holds(m, treeNext0) && m < |lens| && lens[m] == len && len > FAST_BITS
      requires code == ValueOf(Code(lens, m))
      modifies this`node, lookup, tree
      ensures Holds(m + 1, treeNext)
    {
      hide Trie, Code, AllInner, Accepted, Fresh, Inner;
      ghost var c := Code(lens, m);
      NextCodeFresh(lens, node, m);
      var treeCur;
      treeCur, treeNext := EnterTop(m, code, treeNext0);
      var rev := code / 512;
      DropNine(c);
      var j := len;
      ghost var k := FAST_BITS;
      while j > FAST_BITS + 1
        invariant FAST_BITS < j <= len && k == FAST_BITS + len - j
        invariant Holds(m, treeNext) && Fresh(node, LeavesBelow(lens, m), c)
        invariant forall i :: FAST_BITS <= i <= k ==> c[..i] in node
        invariant treeCur == node[c[..k]]
        invariant rev == ValueOf(c[k - 1..])
      {
        BitAt(c, k, rev);
        rev := rev / 2;
        treeCur, treeNext := Descend(treeCur, rev % 2, treeNext, m, k);
        j := j - 1;
        k := k + 1;
      }
      BitAt(c, k, rev);
      rev := rev / 2;
      SetLeaf(treeCur, rev % 2, m, treeNext);
    }

    method SetLeaf(treeCur: int, bit: nat, m: nat, ghost next: int)
      requires Holds(m, next) && m < |lens| && lens[m] > FAST_BITS
      requires Fresh(node, LeavesBelow(lens, m), Code(lens, m))
      requires forall i :: FAST_BITS <= i < lens[m] ==> Code(lens, m)[..i] in node
      requires treeCur == node[Code(lens, m)[..lens[m] - 1]] && bit == Bit(Code(lens, m)[lens[m] - 1])
      modifies tree
      ensures Holds(m + 1, next)
    {
      hide Trie, Code, AllInner, Accepted, Fresh;
      ghost var c, leaf := Code(lens, m), LeavesBelow(lens, m);
      ghost var ls, ts := lookup[..], tree[..];
      AddLong(ls, ts, node, leaf, next, c, m);
      assert Parent(c) == c[..lens[m] - 1];
      var slot := -(treeCur - bit) - 1;
      tree[slot] := m;
      assert tree[..] == ts[slot := m] && lookup[..] == ls;
    }

    /** Builds the tables; fails exactly when the lengths are neither complete nor a single code. */
    method Build(ls: seq<nat>) returns (ok: bool)
      requires Shape() && WellFormed(ls) && TreeRoom(tree.Length, |ls|)
      modifies this, lookup, tree
      ensures ok <==> Complete(ls) || Lonely(ls)
      ensures ok ==> Decodes(ls)
    {
      hide Trie, Complete, Lonely, TreeRoom;
      Clear();
      var nextCode, total, used := FirstCodes(ls);
      TotalIsKraft(ls);
      LonelyMeansOne(ls);
      if total != 65536 && used > 1 {
        return false;
      }
      lens := ls;
      node := map[];
      EmptyTrie(lookup[..], tree[..]);
      var treeNext := -1;
      var sym := 0;
      while sym < |ls|
        invariant sym <= |ls| && lens == ls && Holds(sym, treeNext)
        invariant NextCodes(ls, nextCode, sym)
      {
        treeNext, nextCode := AddSymbol(sym, ls[sym], nextCode, treeNext);
        sym := sym + 1;
      }
      ok := true;
    }

    method AddSymbol(sym: nat, size: nat, nextCode0: seq<nat>, treeNext0: int)
        returns (treeNext: int, nextCode: seq<nat>)
      requires Holds(sym, treeNext0) && sym < |lens| && size == lens[sym] && NextCodes(lens, nextCode0, sym)
      modifies this`node, lookup, tree
      ensures Holds(sym + 1, treeNext) && NextCodes(lens, nextCode, sym + 1)
    {
      hide Trie, Code, AllInner, Complete, Lonely, FirstCode, TreeRoom;
      treeNext, nextCode := treeNext0, nextCode0;
      if size > 0 {
        var curCode := nextCode[size];
        nextCode := nextCode[size := curCode + 1];
        var rev := ReverseBits(curCode, size);
        AcceptedIsFeasible(lens);
        RevIsCode(lens, sym);
        if size <= FAST_BITS {
          FillShort(sym, size, rev, treeNext);
        } else {
          treeNext := InsertLong(sym, size, rev, treeNext);
        }
      }
    }
  }

  /** The next code of every length before symbol m is placed. */
  ghost predicate NextCodes(ls: Lengths, nextCode: seq<nat>, m: nat)
    requires m <= |ls|
  {
    && |nextCode| == 17
    && forall l :: 1 <= l <= MAX_LEN ==> nextCode[l] == FirstCode(ls, l) + Count(ls, l, m)
  }

  lemma NextCodeFresh(lens: Lengths, node: Nodes, m: nat)
    requires Accepted(lens) && m < |lens| && lens[m] > 0 && AllInner(lens, node)
    ensures Fresh(node, LeavesBelow(lens, m), Code(lens, m))
  {
    AcceptedIsFeasible(lens);
    NextIsFresh(lens, node, m);
  }

  /** What a new node for the first k bits of the code of m needs and keeps. */
  lemma RoomForNode(lens: Lengths, lookup: seq<int>, tree: seq<int>, node: Nodes, m: nat, next: int, q: Bits, k: nat)
    requires m < |lens| && FAST_BITS <= k < lens[m] && q == Code(lens, m)[..k] && q !in node
    requires Accepted(lens) && TreeRoom(|tree|, |lens|) && AllInner(lens, node)
    requires Trie(lookup, tree, node, LeavesBelow(lens, m), next)
    ensures -next < |tree|
    ensures AllInner(lens, node[q := next])
  {
    hide Accepted, TreeRoom, Code, LeavesBelow;
    InnerOfCode(lens, m, k);
    NodesFit(lens, node, next, q, |tree|);
  }

  lemma LowTen(c: Bits)
    requires |c| > FAST_BITS
    ensures ValueOf(c) % FAST_SIZE == ValueOf(c[..FAST_BITS])
  {
    MaskAndShift(c, FAST_BITS);
    assert Pow2(10) == 1024;
  }

  lemma DropNine(c: Bits)
    requires |c| > FAST_BITS
    ensures ValueOf(c) / 512 == ValueOf(c[9..])
  {
    MaskAndShift(c, 9);
    assert Pow2(9) == 512;
  }

  /** Writes the packed symbol to every index congruent to the reversed code. */
  method FillCongruent(lookup: array<int>, code: nat, len: nat, sym: nat)
    requires lookup.Length == FAST_SIZE && code < Pow2(len)
    modifies lookup
    ensures forall r :: 0 <= r < FAST_SIZE ==>
              lookup[r] == if r % Pow2(len) == code then Packed(len, sym) else old(lookup[r])
  {
    hide Pow2;
    var rev := code;
    var stride := Pow2(len);
    Remainder(code, stride);
    forall r: nat | r < code
      ensures r % stride != code
    {
      Remainder(r, stride);
    }
    while rev < FAST_SIZE
      invariant rev % stride == code && rev >= 0
      invariant forall r :: 0 <= r < FAST_SIZE ==>
                  lookup[r] == if r % stride == code && r < rev then Packed(len, sym) else old(lookup[r])
      decreases FAST_SIZE - rev
    {
      lookup[rev] := Packed(len, sym);
      NextCongruent(rev, stride);
      rev := rev + stride;
    }
  }

  lemma SlotsOfCode(before: seq<int>, after: seq<int>, c: Bits, sym: nat)
    requires |before| == |after| == FAST_SIZE && |c| <= FAST_BITS
    requires forall r :: 0 <= r < FAST_SIZE ==>
               after[r] == if r % Pow2(|c|) == ValueOf(c) then Packed(|c|, sym) else before[r]
    ensures forall p: Bits :: |p| == FAST_BITS ==> ValueOf(p) < FAST_SIZE
    ensures forall p: Bits :: |p| == FAST_BITS ==>
              after[ValueOf(p)] == if Prefix(c, p) then Packed(|c|, sym) else before[ValueOf(p)]
  {
    hide Pow2, ValueOf;
    AllTenBits();
    forall p: Bits | |p| == FAST_BITS
      ensures after[ValueOf(p)] == if Prefix(c, p) then Packed(|c|, sym) else before[ValueOf(p)]
    {
      StartsWith(c, p);
    }
  }

  lemma Remainder(v: nat, m: nat)
    requires v < m
    ensures v % m == v
  {
    DivModUnique(v, m, 0, v);
  }

  /** The numbers congruent to r modulo m are m apart. */
  lemma NextCongruent(r: nat, m: nat)
    requires m > 0
    ensures (r + m) % m == r % m
    ensures forall x: nat :: r < x < r + m ==> x % m != r % m
  {
    var q, d := r / m, r % m;
    assert r == d + m * q;
    assert r + m == d + m * (q + 1);
    DivModUnique(r + m, m, q + 1, d);
    forall x: nat | r < x < r + m
      ensures x % m != d
    {
      CongruentApart(r, x, m);
    }
  }

  lemma CongruentApart(r: nat, x: nat, m: nat)
    requires m > 0 && r < x < r + m
    ensures x % m != r % m
  {
    if x % m == r % m {
      var e := x / m - r / m;
      assert x == m * (x / m) + x % m && r == m * (r / m) + r % m;
      assert m * e == m * (x / m) - m * (r / m);
      SmallMultiple(m, e);
      assert false;
    }
  }

  /** An index starts with the bits c exactly when its low |c| bits have the value of c. */
  lemma StartsWith(c: Bits, p: Bits)
    requires |c| <= |p|
    ensures Prefix(c, p) <==> ValueOf(p) % Pow2(|c|) == ValueOf(c)
  {
    hide Pow2, ValueOf;
    MaskAndShift(p, |c|);
    var q := p[..|c|];
    assert Prefix(c, p) <==> q == c;
    if ValueOf(q) == ValueOf(c) {
      ValueInjective(q, c);
    }
  }

  /** Number of codes per length, first code per length, running total and number of used symbols. */
  method FirstCodes(ls: seq<nat>) returns (nextCode: seq<nat>, total: nat, used: nat)
    requires WellFormed(ls)
    ensures NextCodes(ls, nextCode, 0)
    ensures total == FirstCode(ls, MAX_LEN + 1)
    ensures used == NumUsed(ls, |ls|)
  {
    hide Count, NumUpTo, NumUsed;
    var totalSyms := CountLengths(ls);
    NothingCounted(ls);
    used, total := 0, 0;
    var next: seq<nat> := seq(17, _ => 0);
    var i := 1;
    NumUpToEnds(ls, |ls|);
    while i <= MAX_LEN
      invariant 1 <= i <= 16 && |next| == 17
      invariant forall l :: 1 <= l <= i ==> next[l] == FirstCode(ls, l)
      invariant total == FirstCode(ls, i)
      invariant used == NumUpTo(ls, i - 1, |ls|)
    {
      NumUpToNext(ls, i - 1, |ls|);
      used := used + totalSyms[i];
      total := 2 * (total + totalSyms[i]);
      next := next[i + 1 := total];
      i := i + 1;
    }
    nextCode := next;
  }

  lemma NothingCounted(ls: Lengths)
    ensures forall l :: Count(ls, l, 0) == 0
  {
  }

  method CountLengths(ls: seq<nat>) returns (totalSyms: seq<nat>)
    requires WellFormed(ls)
    ensures |totalSyms| == 16
    ensures forall l :: 0 <= l < 16 ==> totalSyms[l] == Count(ls, l, |ls|)
  {
    totalSyms := seq(16, _ => 0);
    var i := 0;
    while i < |ls|
      invariant i <= |ls| && |totalSyms| == 16
      invariant forall l :: 0 <= l < 16 ==> totalSyms[l] == Count(ls, l, i)
    {
      totalSyms := totalSyms[ls[i] := totalSyms[ls[i]] + 1];
      i := i + 1;
    }
  }
}
