/** The two-level decoding table of tinfl: a lookup array indexed by the next ten bits, and a tree
    array for longer codes. A negative entry is a node: node t owns the slots -t-1 and -t, one for
    each next bit. Nodes are numbered -1, -3, -5, ... in the order they are made.
    The abstraction is a trie over bit strings: `node` maps each inner string of ten bits or more to
    its number, `leaf` maps each code to its symbol. */
module DecodeTrie {
  import opened Bits

  const FAST_BITS: nat := 10
  const FAST_SIZE: nat := 1024

  type Nodes = map<Bits, int>
  type Leaves = map<Bits, nat>

  function Parent(q: Bits): Bits
    requires |q| > 0
  {
    q[..|q| - 1]
  }

  /** The tree slot of a node for one next bit. */
  function Slot(node: int, b: bool): int {
    -node - 1 + Bit(b)
  }

  /** The slot in which the entry of the string q is kept. */
  ghost function SlotOf(node: Nodes, q: Bits): int
    requires |q| > 0 && Parent(q) in node
  {
    Slot(node[Parent(q)], q[|q| - 1])
  }

  ghost function Entry(node: Nodes, leaf: Leaves, q: Bits): int {
    if q in node then node[q] else if q in leaf then leaf[q] else 0
  }

  /** Entry of the lookup array for a code of at most ten bits. */
  function Packed(len: nat, sym: nat): int {
    len * 512 + sym
  }

  ghost predicate Prefix(a: Bits, b: Bits) {
    a <= b
  }

  ghost predicate NodesOk(node: Nodes, next: int) {
    && next < 0 && next % 2 == 1
    && (forall p :: p in node ==> |p| >= FAST_BITS && next < node[p] < 0 && node[p] % 2 == 1)
    && (forall p, q :: p in node && q in node && node[p] == node[q] ==> p == q)
    && (forall p :: p in node && |p| > FAST_BITS ==> Parent(p) in node)
    && -next - 1 == 2 * |node|
  }

  /** Codes stay apart from the nodes, and the inner strings of a long code are nodes. */
  ghost predicate LeavesOk(node: Nodes, leaf: Leaves) {
    && (forall c, p :: c in leaf && p in node ==> !Prefix(c, p))
    && (forall c, k :: c in leaf && FAST_BITS <= k < |c| ==> c[..k] in node)
  }

  ghost predicate LookupOk(lookup: seq<int>, node: Nodes, leaf: Leaves) {
    && |lookup| == FAST_SIZE
    && (forall p: Bits :: |p| == FAST_BITS ==> ValueOf(p) < FAST_SIZE)
    && (forall p :: p in node && |p| == FAST_BITS ==> lookup[ValueOf(p)] == node[p])
    && (forall c, p: Bits :: c in leaf && |p| == FAST_BITS && Prefix(c, p) ==>
          lookup[ValueOf(p)] == Packed(|c|, leaf[c]))
    && (forall p: Bits :: |p| == FAST_BITS && p !in node && Unreached(leaf, p) ==> lookup[ValueOf(p)] == 0)
  }

  ghost predicate Unreached(leaf: Leaves, p: Bits) {
    forall c :: c in leaf ==> !Prefix(c, p)
  }

  ghost predicate TreeOk(tree: seq<int>, node: Nodes, leaf: Leaves, next: int) {
    && (forall p :: p in node ==> 0 <= Slot(node[p], false) < Slot(node[p], true) < |tree|)
    && (forall q: Bits {:trigger Parent(q)} :: |q| > FAST_BITS && Parent(q) in node ==>
          tree[SlotOf(node, q)] == Entry(node, leaf, q))
    && (forall j :: 0 <= j < |tree| && j >= -next - 1 ==> tree[j] == 0)
  }

  ghost predicate Trie(lookup: seq<int>, tree: seq<int>, node: Nodes, leaf: Leaves, next: int) {
    && NodesOk(node, next)
    && LeavesOk(node, leaf)
    && LookupOk(lookup, node, leaf)
    && TreeOk(tree, node, leaf, next)
  }

  /** c is neither a prefix nor an extension of a known code, and no node extends it. */
  ghost predicate Fresh(node: Nodes, leaf: Leaves, c: Bits) {
    && (forall d :: d in leaf ==> !Prefix(d, c) && !Prefix(c, d))
    && (forall p :: p in node ==> !Prefix(c, p))
  }

  lemma TenBits(p: Bits)
    requires |p| == FAST_BITS
    ensures ValueOf(p) < FAST_SIZE
  {
    ValueBound(p);
    assert Pow2(10) == 1024;
  }

  lemma TenBitsInjective(p: Bits, q: Bits)
    requires |p| == |q| && ValueOf(p) == ValueOf(q)
    ensures p == q
  {
    ValueInjective(p, q);
  }

  lemma AllTenBits()
    ensures forall p: Bits :: |p| == FAST_BITS ==> ValueOf(p) < FAST_SIZE
  {
    forall p: Bits | |p| == FAST_BITS
      ensures ValueOf(p) < FAST_SIZE
    {
      TenBits(p);
    }
  }

  lemma EmptyTrie(lookup: seq<int>, tree: seq<int>)
    requires |lookup| == FAST_SIZE
    requires forall j :: 0 <= j < |lookup| ==> lookup[j] == 0
    requires forall j :: 0 <= j < |tree| ==> tree[j] == 0
    ensures Trie(lookup, tree, map[], map[], -1)
  {
    AllTenBits();
  }

  // ---- adding a node

  lemma KeysAdd(node: Nodes, q: Bits, t: int)
    requires q !in node
    ensures |node[q := t]| == |node| + 1
  {
    assert node[q := t].Keys == node.Keys + {q};
  }

  lemma NodesAdd(node: Nodes, next: int, q: Bits)
    requires NodesOk(node, next) && q !in node && |q| >= FAST_BITS
    requires |q| > FAST_BITS ==> Parent(q) in node
    ensures NodesOk(node[q := next], next - 2)
  {
    var m := node[q := next];
    KeysAdd(node, q, next);
    forall p | p in m && |p| > FAST_BITS
      ensures Parent(p) in m
    {
      if p != q { assert p in node; }
    }
  }

  lemma LeavesAddNode(node: Nodes, leaf: Leaves, next: int, q: Bits)
    requires LeavesOk(node, leaf) && Unreached(leaf, q)
    ensures LeavesOk(node[q := next], leaf)
  {
  }

  lemma LookupAddTop(lookup: seq<int>, node: Nodes, leaf: Leaves, next: int, q: Bits)
    requires LookupOk(lookup, node, leaf) && |q| == FAST_BITS && Unreached(leaf, q) && q !in node
    ensures ValueOf(q) < |lookup|
    ensures LookupOk(lookup[ValueOf(q) := next], node[q := next], leaf)
  {
    var l := lookup[ValueOf(q) := next];
    forall p: Bits | |p| == FAST_BITS && p != q
      ensures l[ValueOf(p)] == lookup[ValueOf(p)]
    {
      if ValueOf(p) == ValueOf(q) { TenBitsInjective(p, q); }
    }
  }

  lemma LookupAddInner(lookup: seq<int>, node: Nodes, leaf: Leaves, next: int, q: Bits)
    requires LookupOk(lookup, node, leaf) && |q| > FAST_BITS
    ensures LookupOk(lookup, node[q := next], leaf)
  {
  }

  lemma TreeAddTop(tree: seq<int>, node: Nodes, leaf: Leaves, next: int, q: Bits)
    requires NodesOk(node, next) && TreeOk(tree, node, leaf, next) && LeavesOk(node, leaf)
    requires |q| == FAST_BITS && q !in node && Unreached(leaf, q)
    requires -next < |tree|
    ensures TreeOk(tree, node[q := next], leaf, next - 2)
  {
    var m := node[q := next];
    forall r: Bits {:trigger Parent(r)} | |r| > FAST_BITS && Parent(r) in m
      ensures 0 <= SlotOf(m, r) < |tree| && tree[SlotOf(m, r)] == Entry(m, leaf, r)
    {
      NewNodeHasNoChildren(node, leaf, next, q, r);
    }
  }

  /** Below a new node there is neither a node nor a code yet. */
  lemma NewNodeHasNoChildren(node: Nodes, leaf: Leaves, next: int, q: Bits, r: Bits)
    requires NodesOk(node, next) && LeavesOk(node, leaf)
    requires |q| >= FAST_BITS && q !in node
    requires |r| > FAST_BITS
    ensures Parent(r) == q ==> r !in node && r !in leaf
  {
    if r in leaf {
      assert r[..|r| - 1] in node;
    }
  }

  lemma TreeAddInner(tree: seq<int>, node: Nodes, leaf: Leaves, next: int, q: Bits)
    requires NodesOk(node, next) && TreeOk(tree, node, leaf, next) && LeavesOk(node, leaf)
    requires |q| > FAST_BITS && q !in node && Unreached(leaf, q) && Parent(q) in node
    requires -next < |tree|
    ensures 0 <= SlotOf(node, q) < |tree|
    ensures TreeOk(tree[SlotOf(node, q) := next], node[q := next], leaf, next - 2)
  {
    var s := SlotOf(node, q);
    SlotsApart(node, next, q, q);
    var m, t := node[q := next], tree[s := next];
    forall r: Bits {:trigger Parent(r)} | |r| > FAST_BITS && Parent(r) in m
      ensures 0 <= SlotOf(m, r) < |t| && t[SlotOf(m, r)] == Entry(m, leaf, r)
    {
      TreeAddInnerAt(tree, node, leaf, next, q, r);
    }
  }

  lemma TreeAddInnerAt(tree: seq<int>, node: Nodes, leaf: Leaves, next: int, q: Bits, r: Bits)
    requires NodesOk(node, next) && TreeOk(tree, node, leaf, next) && LeavesOk(node, leaf)
    requires |q| > FAST_BITS && q !in node && Parent(q) in node
    requires 0 <= SlotOf(node, q) < |tree| && -next < |tree|
    requires |r| > FAST_BITS && Parent(r) in node[q := next]
    ensures var m := node[q := next];
            0 <= SlotOf(m, r) < |tree| && tree[SlotOf(node, q) := next][SlotOf(m, r)] == Entry(m, leaf, r)
  {
    NewNodeHasNoChildren(node, leaf, next, q, r);
    if Parent(r) == q {
      SlotsApart(node, next, q, q);
    } else {
      SlotsApart(node, next, q, r);
    }
  }

  lemma SlotParity(a: int, b: bool, c: int, d: bool)
    requires a % 2 == 1 && c % 2 == 1 && Slot(a, b) == Slot(c, d)
    ensures a == c && b == d
  {
  }

  lemma NodeNumber(node: Nodes, next: int, p: Bits)
    requires NodesOk(node, next) && p in node
    ensures next + 2 <= node[p] < 0 && node[p] % 2 == 1
  {
  }

  lemma SameNumber(node: Nodes, next: int, p: Bits, q: Bits)
    requires NodesOk(node, next) && p in node && q in node && node[p] == node[q]
    ensures p == q
  {
  }

  /** Different strings have different slots. */
  lemma SlotsApart(node: Nodes, next: int, q: Bits, r: Bits)
    requires NodesOk(node, next) && |q| > 0 && |r| > 0 && Parent(q) in node && Parent(r) in node
    ensures SlotOf(node, q) == SlotOf(node, r) ==> q == r
    ensures SlotOf(node, q) < -next - 1
  {
    hide NodesOk;
    NodeNumber(node, next, Parent(q));
    NodeNumber(node, next, Parent(r));
    if SlotOf(node, q) == SlotOf(node, r) {
      SlotParity(node[Parent(q)], q[|q| - 1], node[Parent(r)], r[|r| - 1]);
      SameNumber(node, next, Parent(q), Parent(r));
      assert q == Parent(q) + [q[|q| - 1]];
      assert r == Parent(r) + [r[|r| - 1]];
    }
  }

  /** A lookup slot that is still empty receives a new node. */
  lemma AddTop(lookup: seq<int>, tree: seq<int>, node: Nodes, leaf: Leaves, next: int, q: Bits)
    requires Trie(lookup, tree, node, leaf, next)
    requires |q| == FAST_BITS && q !in node && Unreached(leaf, q) && -next < |tree|
    ensures ValueOf(q) < |lookup|
    ensures Trie(lookup[ValueOf(q) := next], tree, node[q := next], leaf, next - 2)
  {
    NodesAdd(node, next, q);
    LeavesAddNode(node, leaf, next, q);
    LookupAddTop(lookup, node, leaf, next, q);
    TreeAddTop(tree, node, leaf, next, q);
  }

  /** A tree slot that is still empty receives a new node. */
  lemma AddInner(lookup: seq<int>, tree: seq<int>, node: Nodes, leaf: Leaves, next: int, q: Bits)
    requires Trie(lookup, tree, node, leaf, next)
    requires |q| > FAST_BITS && Parent(q) in node && q !in node && Unreached(leaf, q) && -next < |tree|
    ensures 0 <= SlotOf(node, q) < |tree|
    ensures Trie(lookup, tree[SlotOf(node, q) := next], node[q := next], leaf, next - 2)
  {
    NodesAdd(node, next, q);
    LeavesAddNode(node, leaf, next, q);
    LookupAddInner(lookup, node, leaf, next, q);
    TreeAddInner(tree, node, leaf, next, q);
  }

  // ---- adding a code

  lemma TreeAddLeaf(tree: seq<int>, node: Nodes, leaf: Leaves, next: int, c: Bits, sym: nat)
    requires NodesOk(node, next) && TreeOk(tree, node, leaf, next)
    requires Fresh(node, leaf, c) && |c| > FAST_BITS && Parent(c) in node
    ensures 0 <= SlotOf(node, c) < |tree|
    ensures TreeOk(tree[SlotOf(node, c) := sym], node, leaf[c := sym], next)
  {
    var t, l := tree[SlotOf(node, c) := sym], leaf[c := sym];
    assert c !in node by { assert Prefix(c, c); }
    SlotsApart(node, next, c, c);
    forall r: Bits {:trigger Parent(r)} | |r| > FAST_BITS && Parent(r) in node
      ensures t[SlotOf(node, r)] == Entry(node, l, r)
    {
      SlotsApart(node, next, c, r);
    }
  }

  lemma LookupAddLong(lookup: seq<int>, node: Nodes, leaf: Leaves, c: Bits, sym: nat)
    requires LookupOk(lookup, node, leaf) && |c| > FAST_BITS
    ensures LookupOk(lookup, node, leaf[c := sym])
  {
    var l := leaf[c := sym];
    forall p: Bits | |p| == FAST_BITS && p !in node && Unreached(l, p)
      ensures Unreached(leaf, p)
    {
      forall d | d in leaf
        ensures !Prefix(d, p)
      {
        assert d in l;
      }
    }
  }

  lemma LeavesAdd(node: Nodes, leaf: Leaves, c: Bits, sym: nat)
    requires LeavesOk(node, leaf) && Fresh(node, leaf, c)
    requires forall k :: FAST_BITS <= k < |c| ==> c[..k] in node
    ensures LeavesOk(node, leaf[c := sym])
  {
  }

  /** A code longer than ten bits ends in a tree slot. */
  lemma AddLong(lookup: seq<int>, tree: seq<int>, node: Nodes, leaf: Leaves, next: int, c: Bits, sym: nat)
    requires Trie(lookup, tree, node, leaf, next) && Fresh(node, leaf, c) && |c| > FAST_BITS
    requires forall k :: FAST_BITS <= k < |c| ==> c[..k] in node
    ensures Parent(c) in node && 0 <= SlotOf(node, c) < |tree|
    ensures Trie(lookup, tree[SlotOf(node, c) := sym], node, leaf[c := sym], next)
  {
    assert Parent(c) == c[..|c| - 1];
    LeavesAdd(node, leaf, c, sym);
    LookupAddLong(lookup, node, leaf, c, sym);
    TreeAddLeaf(tree, node, leaf, next, c, sym);
  }

  lemma TreeAddShort(tree: seq<int>, node: Nodes, leaf: Leaves, next: int, c: Bits, sym: nat)
    requires NodesOk(node, next) && TreeOk(tree, node, leaf, next) && |c| <= FAST_BITS
    ensures TreeOk(tree, node, leaf[c := sym], next)
  {
  }

  lemma LookupAddShort(lookup: seq<int>, after: seq<int>, node: Nodes, leaf: Leaves, c: Bits, sym: nat)
    requires LookupOk(lookup, node, leaf) && Fresh(node, leaf, c) && |c| <= FAST_BITS
    requires |after| == |lookup|
    requires forall p: Bits :: |p| == FAST_BITS ==>
               after[ValueOf(p)] == if Prefix(c, p) then Packed(|c|, sym) else lookup[ValueOf(p)]
    ensures LookupOk(after, node, leaf[c := sym])
  {
    var l := leaf[c := sym];
    forall d, p: Bits | d in l && |p| == FAST_BITS && Prefix(d, p)
      ensures after[ValueOf(p)] == Packed(|d|, l[d])
    {
      if d != c && Prefix(c, p) {
        PrefixesOfOne(c, d, p);
      }
    }
    forall p: Bits | |p| == FAST_BITS && p !in node && Unreached(l, p)
      ensures after[ValueOf(p)] == 0
    {
      assert c in l;
      forall d | d in leaf
        ensures !Prefix(d, p)
      {
        assert d in l;
      }
      assert Unreached(leaf, p);
    }
  }

  lemma PrefixesOfOne(c: Bits, d: Bits, p: Bits)
    requires Prefix(c, p) && Prefix(d, p)
    ensures Prefix(c, d) || Prefix(d, c)
  {
  }

  /** A code of at most ten bits fills every lookup slot whose index starts with it. */
  lemma AddShort(lookup: seq<int>, after: seq<int>, tree: seq<int>, node: Nodes, leaf: Leaves, next: int, c: Bits,
      sym: nat)
    requires Trie(lookup, tree, node, leaf, next) && Fresh(node, leaf, c) && |c| <= FAST_BITS
    requires |after| == |lookup|
    requires forall p: Bits :: |p| == FAST_BITS ==>
               after[ValueOf(p)] == if Prefix(c, p) then Packed(|c|, sym) else lookup[ValueOf(p)]
    ensures Trie(after, tree, node, leaf[c := sym], next)
  {
    LookupAddShort(lookup, after, node, leaf, c, sym);
    TreeAddShort(tree, node, leaf, next, c, sym);
  }
}
