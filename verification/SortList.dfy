/** sort_list of cJSON_Utils: merge sort of a child chain by relinking its nodes. */
module SortList {
  import opened Bytes
  import opened ZipIndex

  datatype Key = NoKey | Key(name: Name)

  class Node {
    var next: Node?
    var prev: Node?
    const key: Key

    constructor (k: Key)
      ensures key == k && next == null && prev == null
    {
      key := k;
      next, prev := null, null;
    }
  }

  // ---- comparing

  function Sorting(s: Name, caseSensitive: bool): Name {
    if caseSensitive then s else Fold(s)
  }

  /** What compare_strings says of two keys: a missing key compares greater. */
  function Order(a: Key, b: Key, caseSensitive: bool): int {
    if a.NoKey? || b.NoKey? then 1
    else if Less(Sorting(a.name, caseSensitive), Sorting(b.name, caseSensitive)) then -1
    else if Sorting(a.name, caseSensitive) == Sorting(b.name, caseSensitive) then 0
    else 1
  }

  /** The sign of a comparison of two names that agree up to place i: the first difference decides, and a
      proper prefix is smaller. */
  ghost predicate SignAt(r: int, a: Name, b: Name, i: nat) {
    i <= |a| && i <= |b| && a[..i] == b[..i] ==>
      && (i < |a| && i < |b| && a[i] < b[i] ==> r < 0)
      && (i < |a| && i < |b| && a[i] > b[i] ==> r > 0)
      && (i == |a| < |b| ==> r < 0)
      && (i == |b| < |a| ==> r > 0)
      && (i == |a| == |b| ==> r == 0)
  }

  /** compare_strings: strcmp, or a loop that folds case. Names hold no zero byte. */
  method CompareStrings(string1: Key, string2: Key, caseSensitive: bool) returns (r: int)
    ensures string1.Key? && string2.Key? && caseSensitive ==> forall i :: SignAt(r, string1.name, string2.name, i)
    ensures string1.Key? && string2.Key? && !caseSensitive ==>
              forall i :: SignAt(r, Fold(string1.name), Fold(string2.name), i)
    ensures string1.NoKey? || string2.NoKey? ==> r == 1
    ensures r < 0 <==> Order(string1, string2, caseSensitive) < 0
    ensures r == 0 <==> Order(string1, string2, caseSensitive) == 0
  {
    if string1.NoKey? || string2.NoKey? {
      return 1;
    }
    var a, b := Sorting(string1.name, caseSensitive), Sorting(string2.name, caseSensitive);
    var i := 0;
    while i < |a| && i < |b| && a[i] == b[i]
      invariant i <= |a| && i <= |b| && a[..i] == b[..i]
    {
      i := i + 1;
    }
    FirstDifference(a, b, i);
    LessTotal(a, b);
    OneDifference(a, b, i);
    r := if i < |a| && i < |b| then a[i] - b[i] else |a| - |b|;
  }

  /** The names agree up to place k and no further. */
  predicate Parting(a: Name, b: Name, k: nat) {
    k <= |a| && k <= |b| && a[..k] == b[..k] && (k == |a| || k == |b| || a[k] != b[k])
  }

  /** There is one first difference. */
  lemma OneDifference(a: Name, b: Name, i: nat)
    requires Parting(a, b, i)
    ensures forall k: nat :: Parting(a, b, k) ==> k == i
  {
    forall k: nat | Parting(a, b, k)
      ensures k == i
    {
    }
  }

  /** The key of x comes no later in the alphabet than that of y. */
  ghost predicate KeysAhead(x: Node, y: Node, caseSensitive: bool) {
    && x.key.Key? && y.key.Key?
    && if caseSensitive then Ahead(x.key.name, y.key.name) else Ahead(Fold(x.key.name), Fold(y.key.name))
  }

  /** The order of the list is the alphabetical one. */
  lemma InOrderIsAhead(x: Node, y: Node, cs: bool)
    requires x.key.Key? && y.key.Key?
    ensures InOrder(x, y, cs) <==> KeysAhead(x, y, cs)
  {
    hide Less, Ahead, Fold;
    LessTotal(Sorting(x.key.name, cs), Sorting(y.key.name, cs));
    LessIsAhead(Sorting(x.key.name, cs), Sorting(y.key.name, cs));
  }

  /** x comes no later than y. */
  predicate InOrder(x: Node, y: Node, caseSensitive: bool) {
    Order(x.key, y.key, caseSensitive) <= 0
  }

  lemma OrderTotal(x: Node, y: Node, cs: bool)
    requires x.key.Key? && y.key.Key?
    ensures InOrder(x, x, cs) && (InOrder(x, y, cs) || InOrder(y, x, cs))
    ensures Order(x.key, y.key, cs) >= 0 ==> InOrder(y, x, cs)
  {
    LessTotal(Sorting(x.key.name, cs), Sorting(y.key.name, cs));
    LessTotal(Sorting(x.key.name, cs), Sorting(x.key.name, cs));
  }

  lemma OrderTransitive(x: Node, y: Node, z: Node, cs: bool)
    requires InOrder(x, y, cs) && InOrder(y, z, cs)
    ensures InOrder(x, z, cs)
  {
    var a, b, c := Sorting(x.key.name, cs), Sorting(y.key.name, cs), Sorting(z.key.name, cs);
    LessTransitive(a, b, c);
    LessTotal(a, b);
    LessTotal(b, c);
    LessTotal(a, c);
  }

  // ---- chains

  ghost predicate Distinct(s: seq<Node>) {
    forall i, j :: 0 <= i < j < |s| ==> s[i] != s[j]
  }

  ghost function NodesOf(s: seq<Node>): set<Node> {
    set n | n in s
  }

  /** Inside the chain next and prev are mutually inverse. */
  ghost predicate Linked(s: seq<Node>)
    reads NodesOf(s)
  {
    forall i :: 0 < i < |s| ==> Neighbours(s[i - 1], s[i])
  }

  ghost predicate Neighbours(x: Node, y: Node)
    reads x, y
  {
    x.next == y && y.prev == x
  }

  /** A whole chain; the head's prev may be anything. */
  ghost predicate Chain(s: seq<Node>)
    reads NodesOf(s)
  {
    Distinct(s) && Linked(s) && (s != [] ==> s[|s| - 1].next == null)
  }

  ghost function Head(s: seq<Node>): Node? {
    if s == [] then null else s[0]
  }

  ghost predicate Named(s: seq<Node>) {
    forall i :: 0 <= i < |s| ==> s[i].key.Key?
  }

  ghost predicate Ordered(s: seq<Node>, cs: bool) {
    forall i, j :: 0 <= i < j < |s| ==> InOrder(s[i], s[j], cs)
  }

  /** Every node of s comes no later than every node of t. */
  ghost predicate AllBefore(s: seq<Node>, t: seq<Node>, cs: bool) {
    forall i, j :: 0 <= i < |s| && 0 <= j < |t| ==> InOrder(s[i], t[j], cs)
  }

  lemma ChainNext(s: seq<Node>, i: nat)
    requires Chain(s) && i < |s|
    ensures s[i].next == Head(s[i + 1..]) && (i > 0 ==> s[i].prev == s[i - 1])
  {
    if i + 1 < |s| { assert Neighbours(s[i + 1 - 1], s[i + 1]); }
    if i > 0 { assert Neighbours(s[i - 1], s[i]); }
  }

  lemma ChainTail(s: seq<Node>)
    requires Chain(s) && s != []
    ensures Chain(s[1..])
  {
    forall i | 0 < i < |s[1..]|
      ensures Neighbours(s[1..][i - 1], s[1..][i])
    {
      assert Neighbours(s[i + 1 - 1], s[i + 1]);
    }
  }

  lemma {:induction false} AdjacentOrdered(s: seq<Node>, cs: bool, i: nat, j: nat)
    requires i < j < |s| && forall k :: 0 < k < |s| ==> InOrder(s[k - 1], s[k], cs)
    ensures InOrder(s[i], s[j], cs)
    decreases j
  {
    hide InOrder;
    assert InOrder(s[j - 1], s[j], cs);
    if i < j - 1 {
      AdjacentOrdered(s, cs, i, j - 1);
      OrderTransitive(s[i], s[j - 1], s[j], cs);
    }
  }

  /** The test for a list that is sorted already. */
  method IsSorted(list: Node, cs: bool, ghost s: seq<Node>) returns (sorted: bool)
    requires Chain(s) && s != [] && list == s[0]
    ensures sorted ==> Ordered(s, cs)
  {
    hide InOrder, Order, Neighbours;
    var current := list;
    ghost var k := 0;
    while current.next != null
      invariant Chain(s) && k < |s| && current == s[k] && forall i :: 0 < i <= k ==> InOrder(s[i - 1], s[i], cs)
      decreases |s| - k
    {
      ChainNext(s, k);
      var c := CompareStrings(current.key, current.next.key, cs);
      if c >= 0 {
        return false;
      }
      SmallerInOrder(s[k], s[k + 1], cs);
      current := current.next;
      k := k + 1;
    }
    ChainNext(s, k);
    sorted := true;
    forall i, j | 0 <= i < j < |s|
      ensures InOrder(s[i], s[j], cs)
    {
      AdjacentOrdered(s, cs, i, j);
    }
  }

  lemma SmallerInOrder(x: Node, y: Node, cs: bool)
    ensures Order(x.key, y.key, cs) < 0 ==> InOrder(x, y, cs)
  {
  }

  /** Two pointers, one twice as fast, find the middle. */
  method Middle(list: Node, ghost s: seq<Node>) returns (second: Node, ghost m: nat)
    requires Chain(s) && |s| >= 2 && list == s[0]
    ensures 0 < m < |s| && m == (|s| + 1) / 2 && second == s[(|s| + 1) / 2]
  {
    hide Chain;
    var slow: Node? := list;
    var current: Node? := list;
    m := 0;
    while current != null
      invariant Chain(s) && m <= |s| && slow == Head(s[m..]) && 2 * m <= |s| + 1
                && (current == if 2 * m < |s| then s[2 * m] else null)
      decreases |s| + 1 - m
    {
      ChainNext(s, m);
      ChainNext(s, 2 * m);
      slow := slow.next;
      current := current.next;
      if current != null {
        ChainNext(s, 2 * m + 1);
        current := current.next;
      }
      m := m + 1;
    }
    second := slow;
  }

  /** Cutting a chain in two. */
  method Split(second: Node, ghost s: seq<Node>, ghost m: nat)
    requires Chain(s) && 0 < m < |s| && second == s[m]
    modifies NodesOf(s)
    ensures Chain(s[..m]) && Chain(s[m..]) && multiset(s) == multiset(s[..m]) + multiset(s[m..])
  {
    ChainNext(s, m);
    var before := second.prev;
    LinkedParts(s, m);
    before.next := null;
    second.prev := null;
    assert s == s[..m] + s[m..];
    forall i | 0 < i < m
      ensures Neighbours(s[..m][i - 1], s[..m][i])
    {
    }
    forall i | 0 < i < |s[m..]|
      ensures Neighbours(s[m..][i - 1], s[m..][i])
    {
    }
  }

  lemma LinkedParts(s: seq<Node>, m: nat)
    requires Chain(s) && 0 < m < |s|
    ensures forall i :: 0 < i < m ==> Neighbours(s[..m][i - 1], s[..m][i])
    ensures forall i :: 0 < i < |s[m..]| ==> Neighbours(s[m..][i - 1], s[m..][i])
  {
    forall i | 0 < i < |s[m..]|
      ensures Neighbours(s[m..][i - 1], s[m..][i])
    {
      assert Neighbours(s[m + i - 1], s[m + i]);
    }
  }

  // ---- merging

  /** Between two steps of the merge: the finished part, and the rests of both lists. */
  ghost predicate Merging(done: seq<Node>, ra: seq<Node>, rb: seq<Node>)
    reads NodesOf(done), NodesOf(ra), NodesOf(rb)
  {
    Distinct(done + ra + rb) && Linked(done) && Chain(ra) && Chain(rb)
  }

  /** Keys in order so far, and nothing finished comes after anything left. */
  ghost predicate MergedSoFar(done: seq<Node>, ra: seq<Node>, rb: seq<Node>, cs: bool) {
    && Named(ra) && Named(rb) && Ordered(done, cs) && Ordered(ra, cs) && Ordered(rb, cs)
    && AllBefore(done, ra, cs) && AllBefore(done, rb, cs)
  }

  lemma DistinctParts(a: seq<Node>, b: seq<Node>)
    requires Distinct(a + b)
    ensures forall i, j :: 0 <= i < |a| && 0 <= j < |b| ==> a[i] != b[j]
  {
    forall i, j | 0 <= i < |a| && 0 <= j < |b|
      ensures a[i] != b[j]
    {
      assert (a + b)[i] == a[i] && (a + b)[|a| + j] == b[j];
    }
  }

  /** The nodes of three lists without a node in common. */
  lemma Apart(done: seq<Node>, rest: seq<Node>, other: seq<Node>)
    requires Distinct(done + rest + other) && rest != []
    ensures Distinct(done) && forall i :: 0 <= i < |done| ==> done[i] != rest[0]
    ensures forall i :: 0 < i < |rest| ==> rest[i] != rest[0] && (done != [] ==> rest[i] != done[|done| - 1])
    ensures forall i :: 0 <= i < |other| ==> other[i] != rest[0] && (done != [] ==> other[i] != done[|done| - 1])
  {
    var all, n := done + rest + other, |done|;
    forall i, j | 0 <= i < j < |done|
      ensures done[i] != done[j]
    {
      assert all[i] == done[i] && all[j] == done[j];
    }
    assert all[n] == rest[0] && (n > 0 ==> all[n - 1] == done[n - 1]);
    forall i | 0 <= i < |done|
      ensures done[i] != rest[0]
    {
      assert all[i] == done[i];
    }
    forall i | 0 < i < |rest|
      ensures rest[i] != rest[0] && (done != [] ==> rest[i] != done[|done| - 1])
    {
      assert all[n + i] == rest[i];
    }
    forall i | 0 <= i < |other|
      ensures other[i] != rest[0] && (done != [] ==> other[i] != done[|done| - 1])
    {
      assert all[n + |rest| + i] == other[i];
    }
  }

  lemma PairsOf(s: seq<Node>)
    requires Linked(s)
    ensures forall i :: 0 < i < |s| ==> s[i - 1].next == s[i] && s[i].prev == s[i - 1]
  {
    forall i | 0 < i < |s|
      ensures s[i - 1].next == s[i] && s[i].prev == s[i - 1]
    {
      assert Neighbours(s[i - 1], s[i]);
    }
  }

  lemma FromPairs(s: seq<Node>)
    requires forall i :: 0 < i < |s| ==> s[i - 1].next == s[i] && s[i].prev == s[i - 1]
    ensures Linked(s)
  {
  }

  method LinkNodes(tail: Node, x: Node, ghost done: seq<Node>)
    requires Linked(done) && Distinct(done) && done != [] && tail == done[|done| - 1] && x !in done
    modifies x, tail
    ensures Linked(done + [x]) && x.next == old(x.next)
  {
    hide Linked;
    PairsOf(done);
    tail.next := x;
    x.prev := tail;
    FromPairs(done + [x]);
  }

  /** Linking x behind the finished part; x is the head of rest, the other list is not touched. */
  method LinkBehind(tail: Node, x: Node, ghost done: seq<Node>, ghost rest: seq<Node>, ghost other: seq<Node>)
    requires Merging(done, rest, other) && rest != [] && x == rest[0] && done != [] && tail == done[|done| - 1]
    modifies x, tail
    ensures Merging(done + [x], rest[1..], other) && x.next == old(x.next)
  {
    hide Distinct, Neighbours, Chain;
    Apart(done, rest, other);
    ChainTail(rest);
    assert {x, tail} !! NodesOf(rest[1..]) && {x, tail} !! NodesOf(other);
    PairsOf(done);
    LinkNodes(tail, x, done);
    assert done + rest + other == (done + [x]) + rest[1..] + other;
  }

  /** The first node needs no link. */
  lemma FirstLinked(rest: seq<Node>, other: seq<Node>)
    requires Merging([], rest, other) && rest != []
    ensures Merging([rest[0]], rest[1..], other) && [] + [rest[0]] == [rest[0]]
  {
    hide Distinct;
    ChainTail(rest);
    assert [] + rest + other == [rest[0]] + rest[1..] + other;
  }

  /** The heads of the two rests are different nodes. */
  lemma HeadsDiffer(done: seq<Node>, ra: seq<Node>, rb: seq<Node>)
    requires Merging(done, ra, rb) && ra != [] && rb != []
    ensures ra[0] != rb[0]
  {
    hide Linked;
    Apart(done, ra, rb);
  }

  /** Swapping the roles of the two rests. */
  lemma MergingSwap(done: seq<Node>, ra: seq<Node>, rb: seq<Node>)
    requires Merging(done, ra, rb)
    ensures Merging(done, rb, ra)
  {
    var all, sw := done + ra + rb, done + rb + ra;
    forall i, j | 0 <= i < j < |sw|
      ensures sw[i] != sw[j]
    {
      var p := Place(|done|, |ra|, |rb|, i);
      var q := Place(|done|, |ra|, |rb|, j);
      assert all[p] == sw[i] && all[q] == sw[j];
    }
  }

  function Place(d: nat, a: nat, b: nat, i: nat): nat {
    if i < d then i else if i < d + b then i + a else i - b
  }

  /** Taking the smaller head keeps the order. */
  lemma MergeOrder(done: seq<Node>, ra: seq<Node>, rb: seq<Node>, cs: bool)
    requires MergedSoFar(done, ra, rb, cs) && ra != [] && (rb != [] ==> InOrder(ra[0], rb[0], cs))
    ensures MergedSoFar(done + [ra[0]], ra[1..], rb, cs)
  {
    hide InOrder;
    var x := ra[0];
    var s := done + [x];
    forall i, j | 0 <= i < j < |s|
      ensures InOrder(s[i], s[j], cs)
    {
    }
    forall i, j | 0 <= i < |s| && 0 <= j < |rb|
      ensures InOrder(s[i], rb[j], cs)
    {
      if i == |done| && j > 0 { OrderTransitive(x, rb[0], rb[j], cs); }
    }
  }

  lemma MergedSwap(done: seq<Node>, ra: seq<Node>, rb: seq<Node>, cs: bool)
    ensures MergedSoFar(done, ra, rb, cs) == MergedSoFar(done, rb, ra, cs)
  {
  }

  lemma StartMerge(a: seq<Node>, b: seq<Node>, cs: bool)
    requires Chain(a) && Chain(b) && Distinct(a + b)
    ensures Merging([], a, b)
    ensures Named(a) && Named(b) && Ordered(a, cs) && Ordered(b, cs) ==> MergedSoFar([], a, b, cs)
  {
    assert [] + a + b == a + b;
  }

  lemma HeadsCompared(done: seq<Node>, ra: seq<Node>, rb: seq<Node>, cs: bool)
    requires MergedSoFar(done, ra, rb, cs) && ra != [] && rb != []
    ensures Order(ra[0].key, rb[0].key, cs) < 0 ==> InOrder(ra[0], rb[0], cs)
    ensures Order(ra[0].key, rb[0].key, cs) >= 0 ==> InOrder(rb[0], ra[0], cs)
  {
    OrderTotal(ra[0], rb[0], cs);
  }

  lemma RestOrdered(done: seq<Node>, ra: seq<Node>, cs: bool)
    requires MergedSoFar(done, ra, [], cs)
    ensures Ordered(done + ra, cs)
  {
    hide InOrder;
  }

  /** Appending what is left of one list. */
  method AppendRest(tail: Node, x: Node, ghost done: seq<Node>, ghost rest: seq<Node>)
    requires Merging(done, rest, []) && rest != [] && done != [] && x == rest[0] && tail == done[|done| - 1]
    modifies tail, x
    ensures Chain(done + rest)
  {
    hide Distinct, Neighbours;
    Apart(done, rest, []);
    assert done + rest + [] == done + rest;
    PairsOf(rest);
    LinkNodes(tail, x, done);
    LinkedRest(done, rest);
  }

  lemma LinkedRest(done: seq<Node>, rest: seq<Node>)
    requires rest != [] && Distinct(done + rest) && Linked(done + [rest[0]]) && rest[|rest| - 1].next == null
    requires forall i :: 0 < i < |rest| ==> rest[i - 1].next == rest[i] && rest[i].prev == rest[i - 1]
    ensures Chain(done + rest)
  {
    var s, d := done + rest, done + [rest[0]];
    forall i | 0 < i < |s|
      ensures Neighbours(s[i - 1], s[i])
    {
      if i < |d| {
        assert Neighbours(d[i - 1], d[i]);
      } else {
        var k := i - |done|;
        assert s[i - 1] == rest[k - 1] && s[i] == rest[k];
      }
    }
  }

  /** Taking the head of one rest: it is linked behind the finished part, if there is one. */
  method TakeHead(head: Node?, tail: Node?, x: Node, ghost done: seq<Node>, ghost rest: seq<Node>,
      ghost other: seq<Node>) returns (next: Node?)
    requires Merging(done, rest, other) && rest != [] && x == rest[0] && head == Head(done)
    requires if done == [] then tail == null else tail == done[|done| - 1]
    modifies x, NodesOf(done)
    ensures Merging(done + [x], rest[1..], other) && next == Head(rest[1..])
  {
    hide Distinct, Linked, Chain;
    FollowChain(done, rest, other);
    if head == null {
      FirstLinked(rest, other);
    } else {
      assert tail in done;
      LinkBehind(tail, x, done, rest, other);
    }
    next := x.next;
  }

  /** Taking one node from the front of a rest. */
  lemma TakeNodes(s: seq<Node>, ra: seq<Node>, rb: seq<Node>, all: multiset<Node>)
    requires multiset(s) + multiset(ra) + multiset(rb) == all && ra != []
    ensures multiset(s + [ra[0]]) + multiset(ra[1..]) + multiset(rb) == all
  {
    assert ra == [ra[0]] + ra[1..];
  }

  lemma InAll(s: seq<Node>, ra: seq<Node>, rb: seq<Node>, a: seq<Node>, b: seq<Node>)
    requires multiset(s) + multiset(ra) + multiset(rb) == multiset(a) + multiset(b)
    ensures NodesOf(s) + NodesOf(ra) + NodesOf(rb) <= NodesOf(a) + NodesOf(b)
  {
    forall n | n in s || n in ra || n in rb
      ensures n in a || n in b
    {
      assert n in multiset(s) || n in multiset(ra) || n in multiset(rb);
      assert n in multiset(a) + multiset(b);
    }
  }

  /** One step of the merge. */
  method MergeStep(head: Node?, tail: Node?, first0: Node, second0: Node, cs: bool, ghost ord: bool,
                   ghost s0: seq<Node>, ghost a: seq<Node>, ghost b: seq<Node>)
    returns (smaller: Node, first: Node?, second: Node?, ghost ra: seq<Node>, ghost rb: seq<Node>)
    requires Merging(s0, a, b) && a != [] && b != [] && first0 == a[0] && second0 == b[0] && head == Head(s0)
    requires (if s0 == [] then tail == null else tail == s0[|s0| - 1]) && (ord ==> MergedSoFar(s0, a, b, cs))
    modifies NodesOf(s0) + NodesOf(a) + NodesOf(b)
    ensures Merging(s0 + [smaller], ra, rb) && first == Head(ra) && second == Head(rb)
            && (ord ==> MergedSoFar(s0 + [smaller], ra, rb, cs))
    ensures multiset(s0 + [smaller]) + multiset(ra) + multiset(rb) == multiset(s0) + multiset(a) + multiset(b)
    ensures |ra| + |rb| < |a| + |b| && (ra != [] || rb != [])
  {
    hide Distinct, Linked, Chain, InOrder, Named, Ordered, MergedSoFar, Order, Merging;
    var c := CompareStrings(first0.key, second0.key, cs);
    smaller := if c < 0 then first0 else second0;
    if ord { HeadsCompared(s0, a, b, cs); }
    HeadsDiffer(s0, a, b);
    first, second, ra, rb := first0, second0, a, b;
    ghost var all := multiset(s0) + multiset(a) + multiset(b);
    if first == smaller {
      first := TakeHead(head, tail, smaller, s0, a, b);
      if ord { MergeOrder(s0, a, b, cs); }
      TakeNodes(s0, a, b, all);
      ra := a[1..];
    } else {
      MergingSwap(s0, a, b);
      second := TakeHead(head, tail, smaller, s0, b, a);
      MergingSwap(s0 + [smaller], b[1..], a);
      if ord {
        MergedSwap(s0, a, b, cs);
        MergeOrder(s0, b, a, cs);
        MergedSwap(s0 + [b[0]], b[1..], a, cs);
      }
      TakeNodes(s0, b, a, all);
      rb := b[1..];
    }
  }

  /** The second loop of sort_list, and appending what is left of one list. */
  method Merge(first0: Node, second0: Node, cs: bool, ghost a: seq<Node>, ghost b: seq<Node>)
      returns (result: Node, ghost s: seq<Node>)
    requires Chain(a) && Chain(b) && Distinct(a + b) && a != [] && b != [] && first0 == a[0] && second0 == b[0]
    modifies NodesOf(a) + NodesOf(b)
    ensures Chain(s) && s != [] && result == s[0] && multiset(s) == multiset(a) + multiset(b)
    ensures Named(a) && Named(b) && Ordered(a, cs) && Ordered(b, cs) ==> Ordered(s, cs)
  {
    hide Distinct, Linked, Chain, InOrder, Named, Ordered, MergedSoFar, Order, Merging;
    ghost var ord := Named(a) && Named(b) && Ordered(a, cs) && Ordered(b, cs);
    var first: Node?, second: Node?, head: Node?, tail: Node? := first0, second0, null, null;
    ghost var ra, rb := a, b;
    s := [];
    StartMerge(a, b, cs);
    while first != null && second != null
      invariant Merging(s, ra, rb) && first == Head(ra) && second == Head(rb) && (ra != [] || rb != [])
                && (s == [] ==> ra != [] && rb != [])
      invariant head == Head(s) && (if s == [] then tail == null else tail == s[|s| - 1])
      invariant multiset(s) + multiset(ra) + multiset(rb) == multiset(a) + multiset(b)
      invariant ord ==> MergedSoFar(s, ra, rb, cs)
      decreases |ra| + |rb|
    {
      InAll(s, ra, rb, a, b);
      tail, first, second, ra, rb := MergeStep(head, tail, first, second, cs, ord, s, ra, rb);
      s := s + [tail];
      if head == null {
        head := tail;
      }
    }
    result := head;
    InAll(s, ra, rb, a, b);
    assert tail in NodesOf(s) && (first != null ==> first in NodesOf(ra)) && (second != null ==> second in NodesOf(rb));
    if first != null {
      AppendRest(tail, first, s, ra);
      if ord { RestOrdered(s, ra, cs); }
      s := s + ra;
    } else {
      MergingSwap(s, ra, rb);
      if ord {
        MergedSwap(s, ra, rb, cs);
        RestOrdered(s, rb, cs);
      }
      AppendRest(tail, second, s, rb);
      s := s + rb;
    }
  }

  lemma FollowChain(done: seq<Node>, rest: seq<Node>, other: seq<Node>)
    requires Merging(done, rest, other) && rest != []
    ensures rest[0].next == Head(rest[1..])
  {
    hide Distinct, Linked;
    ChainNext(rest, 0);
  }

  lemma SplitDisjoint(s: seq<Node>, m: nat)
    requires Distinct(s) && m <= |s|
    ensures s[..m] + s[m..] == s && forall i, j :: 0 <= i < m && m <= j < |s| ==> s[i] != s[j]
  {
  }

  lemma NoneIn(s: seq<Node>, m: nat)
    requires Distinct(s) && m <= |s|
    ensures NodesOf(s[..m]) !! NodesOf(s[m..]) && NodesOf(s[..m]) + NodesOf(s[m..]) == NodesOf(s)
  {
    assert s == s[..m] + s[m..];
  }

  lemma ChainDistinct(a: seq<Node>, b: seq<Node>)
    requires Chain(a) && Chain(b)
    ensures Distinct(a) && Distinct(b)
  {
    hide Distinct, Linked;
  }

  /** Permuted chains stay apart. */
  lemma StillApart(a: seq<Node>, b: seq<Node>, x: seq<Node>, y: seq<Node>)
    requires Distinct(a + b) && Distinct(x) && Distinct(y) && multiset(x) == multiset(a) && multiset(y) == multiset(b)
    ensures Distinct(x + y)
  {
    DistinctParts(a, b);
    forall i, j | 0 <= i < j < |x + y|
      ensures (x + y)[i] != (x + y)[j]
    {
      if i < |x| && j >= |x| {
        assert x[i] in multiset(x) && y[j - |x|] in multiset(y);
        assert x[i] in a && y[j - |x|] in b;
      }
    }
  }

  lemma NamedPermuted(a: seq<Node>, b: seq<Node>)
    requires multiset(a) == multiset(b) && Named(a)
    ensures Named(b)
  {
    forall i | 0 <= i < |b|
      ensures b[i].key.Key?
    {
      assert b[i] in multiset(b);
      assert b[i] in a;
    }
  }

  lemma NamedParts(s: seq<Node>, m: nat)
    requires Named(s) && m <= |s|
    ensures Named(s[..m]) && Named(s[m..])
  {
  }

  lemma SameNodes(a: seq<Node>, b: seq<Node>)
    requires multiset(a) == multiset(b)
    ensures |a| == |b| && NodesOf(a) == NodesOf(b)
  {
    assert |multiset(a)| == |a| && |multiset(b)| == |b|;
    forall n
      ensures n in a <==> n in b
    {
      assert n in multiset(a) <==> n in multiset(b);
    }
  }

  /** sort_list: a chain of exactly the same nodes, in the order of their keys. */
  method SortList(list: Node?, cs: bool, ghost s: seq<Node>) returns (result: Node?, ghost t: seq<Node>)
    requires Chain(s) && list == Head(s)
    modifies NodesOf(s)
    ensures Chain(t) && result == Head(t) && multiset(t) == multiset(s)
    ensures Named(s) ==> Ordered(t, cs)
    ensures Named(s) ==> forall i, k :: 0 <= i < k < |t| ==> KeysAhead(t[i], t[k], cs)
    decreases |s|
  {
    hide Distinct, Linked, InOrder, Named, Ordered, Chain, Order, KeysAhead;
    if list != null { ChainNext(s, 0); }
    if list == null || list.next == null {
      ShortOrdered(s, cs);
      AllAhead(s, s, cs);
      return list, s;
    }
    var sorted := IsSorted(list, cs, s);
    if sorted {
      AllAhead(s, s, cs);
      return list, s;
    }
    var second, m := Middle(list, s);
    ghost var a, b := s[..m], s[m..];
    ChainDistinct(s, s);
    SplitDisjoint(s, m);
    NoneIn(s, m);
    Split(second, s, m);
    var first': Node?, second': Node?;
    ghost var x, y;
    first', x := SortList(list, cs, a);
    SameNodes(a, x);
    second', y := SortList(second, cs, b);
    SameNodes(b, y);
    ChainDistinct(x, y);
    StillApart(a, b, x, y);
    if Named(s) {
      NamedParts(s, m);
      NamedPermuted(a, x);
      NamedPermuted(b, y);
    }
    result, t := Merge(first', second', cs, x, y);
    AllAhead(s, t, cs);
  }

  lemma AllAhead(s: seq<Node>, t: seq<Node>, cs: bool)
    requires multiset(s) == multiset(t) && (Named(s) ==> Ordered(t, cs))
    ensures Named(s) ==> forall i, k :: 0 <= i < k < |t| ==> KeysAhead(t[i], t[k], cs)
  {
    hide InOrder, KeysAhead;
    if Named(s) {
      NamedPermuted(s, t);
      forall i, k | 0 <= i < k < |t|
        ensures KeysAhead(t[i], t[k], cs)
      {
        InOrderIsAhead(t[i], t[k], cs);
      }
    }
  }

  lemma ShortOrdered(s: seq<Node>, cs: bool)
    requires |s| <= 1
    ensures Ordered(s, cs)
  {
  }
}
