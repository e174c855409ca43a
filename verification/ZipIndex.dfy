/** The name index of a ZIP archive: heap sort of the central directory by case-folded name, binary
    search in it, and the linear scan it must agree with. A directory is the sequence of its names. */
module ZipIndex {
  import opened Bytes

  type Name = seq<byte>

  /** MZ_TOLOWER */
  function ToLower(b: byte): (r: byte)
    ensures 'A' as int <= b <= 'Z' as int ==> r - b == 'a' as int - 'A' as int
    ensures r != b ==> 'A' as int <= b <= 'Z' as int
  {
    if 65 <= b <= 90 then b + 32 else b
  }

  function Fold(s: Name): (r: Name)
    ensures |r| == |s| && forall i :: 0 <= i < |s| ==> r[i] == ToLower(s[i])
  {
    seq(|s|, i requires 0 <= i < |s| => ToLower(s[i]))
  }

  /** Lexicographic order; a proper prefix comes first. */
  predicate Less(a: Name, b: Name) {
    if a == [] || b == [] then |a| < |b|
    else a[0] < b[0] || (a[0] == b[0] && Less(a[1..], b[1..]))
  }

  /** Up to place i the names agree, and there a ends, or has the smaller byte. */
  predicate AheadAt(a: Name, b: Name, i: nat) {
    i <= |a| && i <= |b| && a[..i] == b[..i] && (i == |a| || (i < |b| && a[i] < b[i]))
  }

  /** In alphabetical order. */
  ghost predicate Ahead(a: Name, b: Name) {
    exists i: nat :: AheadAt(a, b, i)
  }

  /** The order is the alphabetical one: the first difference decides, and a proper prefix comes first. */
  lemma {:induction false} LessIsAhead(a: Name, b: Name)
    ensures !Less(b, a) <==> Ahead(a, b)
  {
    if a == [] {
      assert AheadAt(a, b, 0);
    } else if b == [] || a[0] != b[0] {
      if a[0..0] == b[0..0] && Less(a, b) {
        assert AheadAt(a, b, 0);
      }
      forall i: nat | AheadAt(a, b, i)
        ensures Less(a, b)
      {
      }
      LessTotal(a, b);
    } else {
      LessIsAhead(a[1..], b[1..]);
      forall i: nat | AheadAt(a[1..], b[1..], i)
        ensures AheadAt(a, b, i + 1)
      {
        assert a[..i + 1] == [a[0]] + a[1..][..i] && b[..i + 1] == [b[0]] + b[1..][..i];
      }
      forall i: nat | AheadAt(a, b, i)
        ensures i > 0 && AheadAt(a[1..], b[1..], i - 1)
      {
        assert a[1..][..i - 1] == a[..i][1..] && b[1..][..i - 1] == b[..i][1..];
      }
    }
  }

  /** Two names are the same when case is folded exactly if they differ in the case of letters only. */
  lemma FoldedEqual(a: Name, b: Name)
    ensures Fold(a) == Fold(b) <==> |a| == |b| && forall i :: 0 <= i < |a| ==> SameLetter(a[i], b[i])
  {
    if |a| == |b| && forall i :: 0 <= i < |a| ==> SameLetter(a[i], b[i]) {
      forall i | 0 <= i < |a|
        ensures Fold(a)[i] == Fold(b)[i]
      {
        assert SameLetter(a[i], b[i]);
      }
    }
    if Fold(a) == Fold(b) {
      forall i | 0 <= i < |a|
        ensures SameLetter(a[i], b[i])
      {
        assert Fold(a)[i] == Fold(b)[i];
      }
    }
  }

  /** The same byte, or a letter in the other case. */
  predicate SameLetter(x: byte, y: byte) {
    || x == y
    || ('A' as int <= x <= 'Z' as int && y == x + 32)
    || ('A' as int <= y <= 'Z' as int && x == y + 32)
  }

  lemma {:induction false} LessTotal(a: Name, b: Name)
    ensures Less(a, b) || Less(b, a) || a == b
    ensures !(Less(a, b) && Less(b, a)) && !Less(a, a)
  {
    if a != [] && b != [] {
      LessTotal(a[1..], b[1..]);
      LessTotal(a[1..], a[1..]);
      assert a == [a[0]] + a[1..] && b == [b[0]] + b[1..];
    } else if a != [] {
      LessTotal(a[1..], a[1..]);
    }
  }

  lemma {:induction false} LessTransitive(a: Name, b: Name, c: Name)
    ensures !Less(b, a) && !Less(c, b) ==> !Less(c, a)
  {
    if a != [] && b != [] && c != [] { LessTransitive(a[1..], b[1..], c[1..]); }
  }

  /** The comparison loops: the first difference decides, then the lengths. */
  lemma {:induction false} FirstDifference(a: Name, b: Name, n: nat)
    requires n <= |a| && n <= |b| && a[..n] == b[..n]
    requires (n < |a| && n < |b| && a[n] != b[n]) || n == |a| || n == |b|
    ensures Less(a, b) <==> if n < |a| && n < |b| then a[n] < b[n] else |a| < |b|
    ensures a == b <==> n == |a| == |b|
  {
    if n > 0 {
      assert a[0] == a[..n][0] == b[..n][0] == b[0];
      assert a[1..][..n - 1] == a[..n][1..] && b[1..][..n - 1] == b[..n][1..];
      FirstDifference(a[1..], b[1..], n - 1);
      assert a == [a[0]] + a[1..] && b == [b[0]] + b[1..];
    }
  }

  type Directory = seq<Name>

  /** Entry x comes no later than entry y. */
  predicate Le(dir: Directory, x: nat, y: nat) {
    x < |dir| && y < |dir| && !Less(Fold(dir[y]), Fold(dir[x]))
  }

  lemma LeTotal(dir: Directory, x: nat, y: nat)
    requires x < |dir| && y < |dir|
    ensures Le(dir, x, y) || Le(dir, y, x)
    ensures Le(dir, x, x)
  {
    LessTotal(Fold(dir[x]), Fold(dir[y]));
    LessTotal(Fold(dir[x]), Fold(dir[x]));
  }

  lemma LeTransitive(dir: Directory, x: nat, y: nat, z: nat)
    requires Le(dir, x, y) && Le(dir, y, z)
    ensures Le(dir, x, z)
  {
    LessTransitive(Fold(dir[x]), Fold(dir[y]), Fold(dir[z]));
  }

  /** How far two names agree when case is folded. */
  method Agreement(l: Name, r: Name) returns (n: nat)
    ensures n <= |l| && n <= |r| && Fold(l)[..n] == Fold(r)[..n]
    ensures (n < |l| && n < |r| && ToLower(l[n]) != ToLower(r[n])) || n == |l| || n == |r|
  {
    n := 0;
    while n < |l| && n < |r|
      invariant n <= |l| && n <= |r| && Fold(l)[..n] == Fold(r)[..n]
    {
      if ToLower(l[n]) != ToLower(r[n]) {
        break;
      }
      n := n + 1;
    }
  }

  /** mz_zip_reader_filename_less */
  method FilenameLess(dir: Directory, l: nat, r: nat) returns (less: bool)
    requires l < |dir| && r < |dir|
    ensures less <==> !Le(dir, r, l)
  {
    var n := Agreement(dir[l], dir[r]);
    FirstDifference(Fold(dir[l]), Fold(dir[r]), n);
    less := if n == |dir[l]| || n == |dir[r]| then |dir[l]| < |dir[r]| else ToLower(dir[l][n]) < ToLower(dir[r][n]);
  }

  // ---- heap sort

  ghost predicate Entries(dir: Directory, a: seq<nat>) {
    forall i :: 0 <= i < |a| ==> a[i] < |dir|
  }

  function Parent(c: nat): nat
    requires c > 0
  {
    (c - 1) / 2
  }

  /** Node c is no larger than its parent. */
  ghost predicate BelowParent(dir: Directory, a: seq<nat>, c: nat) {
    0 < c < |a| && Le(dir, a[c], a[Parent(c)])
  }

  /** The nodes from lo on are no smaller than their children below hi. */
  ghost predicate Heap(dir: Directory, a: seq<nat>, lo: nat, hi: nat) {
    hi <= |a| && forall c :: 0 < c < hi && Parent(c) >= lo ==> BelowParent(dir, a, c)
  }

  /** The children of root are no larger than entry x. */
  ghost predicate ChildrenUpTo(dir: Directory, a: seq<nat>, hi: nat, root: nat, x: nat) {
    hi <= |a| && forall c :: 0 < c < hi && Parent(c) == root ==> Le(dir, a[c], x)
  }

  /** The same but for the children of root, which are no larger than root's parent. */
  ghost predicate HeapBut(dir: Directory, a: seq<nat>, lo: nat, hi: nat, root: nat) {
    && hi <= |a| && lo <= root < hi
    && (forall c :: 0 < c < hi && Parent(c) >= lo && Parent(c) != root ==> BelowParent(dir, a, c))
    && (root > 0 && Parent(root) >= lo ==> ChildrenUpTo(dir, a, hi, root, a[Parent(root)]))
  }

  method Swap(a: array<nat>, i: nat, j: nat)
    requires i < a.Length && j < a.Length
    modifies a
    ensures a[..] == old(a[..])[i := old(a[j])][j := old(a[i])]
    ensures multiset(a[..]) == multiset(old(a[..]))
  {
    a[i], a[j] := a[j], a[i];
  }

  lemma SwapDown(dir: Directory, a: seq<nat>, b: seq<nat>, lo: nat, hi: nat, root: nat, child: nat)
    requires HeapBut(dir, a, lo, hi, root) && 0 < child < hi && Parent(child) == root && Entries(dir, a)
    requires b == a[root := a[child]][child := a[root]]
    requires Le(dir, a[root], a[child])
    requires ChildrenUpTo(dir, a, hi, root, a[child])
    ensures HeapBut(dir, b, lo, hi, child) && Entries(dir, b)
  {
    hide Le;
    forall c | 0 < c < hi && Parent(c) >= lo && Parent(c) != child
      ensures BelowParent(dir, b, c)
    {
      if c == child || Parent(c) == root {
        assert Le(dir, a[c], a[child]);
      } else if c == root {
        assert Le(dir, a[child], a[Parent(root)]);
      } else {
        assert BelowParent(dir, a, c);
      }
    }
    forall c | 0 < c < hi && Parent(c) == child
      ensures Le(dir, b[c], b[root])
    {
      assert BelowParent(dir, a, c);
      assert b[c] == a[c] && Le(dir, a[c], a[child]);
    }
  }

  lemma HeapDone(dir: Directory, a: seq<nat>, lo: nat, hi: nat, root: nat)
    requires HeapBut(dir, a, lo, hi, root) && ChildrenUpTo(dir, a, hi, root, a[root])
    ensures Heap(dir, a, lo, hi)
  {
    hide Le;
  }

  /** The larger child of root. */
  method LargerChild(dir: Directory, a: array<nat>, root: nat, size: nat) returns (child: nat)
    requires 2 * root + 1 < size <= a.Length && Entries(dir, a[..])
    ensures root < child < size && Parent(child) == root && ChildrenUpTo(dir, a[..], size, root, a[child])
  {
    hide Le;
    child := 2 * root + 1;
    assert a[child] == a[..][child];
    LeTotal(dir, a[child], a[child]);
    if child + 1 < size {
      assert a[child + 1] == a[..][child + 1];
      LeTotal(dir, a[child], a[child + 1]);
      LeTotal(dir, a[child + 1], a[child + 1]);
      var less := FilenameLess(dir, a[child], a[child + 1]);
      if less {
        child := child + 1;
      }
    }
  }

  /** Sifting down: the inner loop of both phases. */
  method SiftDown(dir: Directory, a: array<nat>, start: nat, size: nat)
    requires start < size <= a.Length && Entries(dir, a[..]) && Heap(dir, a[..], start + 1, size)
    modifies a
    ensures Entries(dir, a[..]) && Heap(dir, a[..], start, size)
    ensures multiset(a[..]) == multiset(old(a[..])) && a[size..] == old(a[size..])
  {
    hide Le, Heap, HeapBut, ChildrenUpTo;
    var root := start;
    BeginSift(dir, a[..], start, size);
    while true
      invariant start <= root < size && Entries(dir, a[..]) && HeapBut(dir, a[..], start, size, root)
      invariant multiset(a[..]) == multiset(old(a[..])) && a[size..] == old(a[size..])
      decreases size - root
    {
      if 2 * root + 1 >= size {
        NoChildren(dir, a[..], size, root);
        break;
      }
      var child := LargerChild(dir, a, root, size);
      assert a[..][root] == a[root] && a[..][child] == a[child];
      LeTotal(dir, a[root], a[child]);
      var less := FilenameLess(dir, a[root], a[child]);
      if !less {
        ChildrenBelow(dir, a[..], size, root, child);
        break;
      }
      ghost var before := a[..];
      Swap(a, root, child);
      SwapDown(dir, before, a[..], start, size, root, child);
      assert a[size..] == before[size..];
      root := child;
    }
    HeapDone(dir, a[..], start, size, root);
  }

  lemma BeginSift(dir: Directory, a: seq<nat>, start: nat, size: nat)
    requires start < size <= |a| && Heap(dir, a, start + 1, size)
    ensures HeapBut(dir, a, start, size, start)
  {
    hide Le;
  }

  lemma ChildrenBelow(dir: Directory, a: seq<nat>, size: nat, root: nat, child: nat)
    requires size <= |a| && root < size && child < size && Le(dir, a[child], a[root])
             && ChildrenUpTo(dir, a, size, root, a[child])
    ensures ChildrenUpTo(dir, a, size, root, a[root])
  {
    hide Le;
    forall c | 0 < c < size && Parent(c) == root
      ensures Le(dir, a[c], a[root])
    {
      LeTransitive(dir, a[c], a[child], a[root]);
    }
  }

  lemma NoChildren(dir: Directory, a: seq<nat>, size: nat, root: nat)
    requires size <= |a| && root < size <= 2 * root + 1
    ensures ChildrenUpTo(dir, a, size, root, a[root])
  {
  }

  /** The root of a heap is its largest entry. */
  lemma {:induction false} HeapMax(dir: Directory, a: seq<nat>, hi: nat, i: nat)
    requires Heap(dir, a, 0, hi) && Entries(dir, a) && i < hi
    ensures Le(dir, a[i], a[0])
  {
    hide Le;
    if i == 0 {
      LeTotal(dir, a[0], a[0]);
    } else {
      HeapMax(dir, a, hi, Parent(i));
      assert BelowParent(dir, a, i);
      LeTransitive(dir, a[i], a[Parent(i)], a[0]);
    }
  }

  /** The tail from k on is sorted, and nothing before it is larger than anything in it. */
  ghost predicate SortedTail(dir: Directory, a: seq<nat>, k: nat) {
    k <= |a| && forall i, j :: 0 <= i < j < |a| && k <= j ==> Le(dir, a[i], a[j])
  }

  ghost predicate Sorted(dir: Directory, a: seq<nat>) {
    forall i, j :: 0 <= i < j < |a| ==> Le(dir, a[i], a[j])
  }

  lemma Cancel(x: multiset<nat>, y: multiset<nat>, z: multiset<nat>)
    requires x + z == y + z
    ensures x == y
  {
    assert x == (x + z) - z && y == (y + z) - z;
  }

  /** Rearranging the front keeps the tail sorted. */
  lemma FrontRearranged(dir: Directory, a: seq<nat>, b: seq<nat>, k: nat)
    requires SortedTail(dir, a, k) && |b| == |a| && b[k..] == a[k..] && multiset(b) == multiset(a)
    ensures SortedTail(dir, b, k)
  {
    hide Le;
    assert a == a[..k] + a[k..] && b == b[..k] + b[k..];
    assert multiset(a) == multiset(a[..k]) + multiset(a[k..]) && multiset(b) == multiset(b[..k]) + multiset(b[k..]);
    assert multiset(a[..k]) == multiset(b[..k]) by { Cancel(multiset(a[..k]), multiset(b[..k]), multiset(a[k..])); }
    forall i, j | 0 <= i < j < |b| && k <= j
      ensures Le(dir, b[i], b[j])
    {
      assert b[j] == b[k..][j - k] == a[k..][j - k] == a[j];
      if i < k {
        assert b[..k][i] in multiset(b[..k]);
        assert b[i] in multiset(a[..k]);
        var p :| 0 <= p < k && a[..k][p] == b[i];
        assert a[p] == b[i];
      } else {
        assert b[i] == b[k..][i - k] == a[k..][i - k] == a[i];
      }
    }
  }

  /** Moving the largest entry of the front to its end. */
  lemma MoveMax(dir: Directory, a: seq<nat>, b: seq<nat>, end: nat)
    requires 0 < end < |a| && Heap(dir, a, 0, end + 1) && Entries(dir, a) && SortedTail(dir, a, end + 1)
    requires b == a[end := a[0]][0 := a[end]]
    ensures SortedTail(dir, b, end) && Heap(dir, b, 1, end)
  {
    hide Le;
    forall i, j | 0 <= i < j < |b| && end <= j
      ensures Le(dir, b[i], b[j])
    {
      if j == end {
        HeapMax(dir, a, end + 1, if i == 0 then end else i);
      }
    }
    forall c | 0 < c < end && Parent(c) >= 1
      ensures BelowParent(dir, b, c)
    {
      assert BelowParent(dir, a, c);
      assert b[c] == a[c] && b[Parent(c)] == a[Parent(c)];
    }
  }

  lemma TailEntries(dir: Directory, a: seq<nat>, b: seq<nat>)
    requires Entries(dir, a) && multiset(a) == multiset(b)
    ensures Entries(dir, b)
  {
    forall i | 0 <= i < |b|
      ensures b[i] < |dir|
    {
      assert b[i] in multiset(b);
      assert b[i] in a;
    }
  }

  /** mz_zip_reader_sort_central_dir_offsets_by_filename: sorts the indices by case-folded name. */
  method SortByFilename(dir: Directory, a: array<nat>)
    requires a.Length == |dir| && Entries(dir, a[..])
    modifies a
    ensures Sorted(dir, a[..]) && multiset(a[..]) == multiset(old(a[..])) && Entries(dir, a[..])
    ensures Alphabetical(dir, a[..])
  {
    hide Le, Heap, SortedTail, Alphabetical;
    var size := a.Length;
    if size <= 1 {
      SortedIsAlphabetical(dir, a[..]);
      return;
    }
    var start := (size - 2) / 2;
    NoParents(dir, a[..], start + 1);
    while true
      invariant 0 <= start < size && Entries(dir, a[..]) && Heap(dir, a[..], start + 1, size)
                && multiset(a[..]) == multiset(old(a[..]))
      decreases start
    {
      SiftDown(dir, a, start, size);
      if start == 0 {
        break;
      }
      start := start - 1;
    }
    var end := size - 1;
    EmptyTail(dir, a[..]);
    while end > 0
      invariant 0 <= end < size && Entries(dir, a[..]) && Heap(dir, a[..], 0, end + 1)
                && SortedTail(dir, a[..], end + 1)
      invariant multiset(a[..]) == multiset(old(a[..]))
    {
      PopMax(dir, a, end);
      end := end - 1;
    }
    AllSorted(dir, a[..]);
    SortedIsAlphabetical(dir, a[..]);
  }

  /** One round of the second phase. */
  method PopMax(dir: Directory, a: array<nat>, end: nat)
    requires 0 < end < a.Length && Entries(dir, a[..]) && Heap(dir, a[..], 0, end + 1)
             && SortedTail(dir, a[..], end + 1)
    modifies a
    ensures Entries(dir, a[..]) && Heap(dir, a[..], 0, end) && SortedTail(dir, a[..], end)
            && multiset(a[..]) == multiset(old(a[..]))
  {
    hide Le, Heap, SortedTail;
    ghost var before := a[..];
    Swap(a, end, 0);
    TailEntries(dir, before, a[..]);
    MoveMax(dir, before, a[..], end);
    ghost var mid := a[..];
    SiftDown(dir, a, 0, end);
    assert a[end..] == a[..][end..] && mid[end..] == a[end..];
    FrontRearranged(dir, mid, a[..], end);
  }

  lemma NoParents(dir: Directory, a: seq<nat>, k: nat)
    requires |a| >= 2 && k == (|a| - 2) / 2 + 1
    ensures Heap(dir, a, k, |a|)
  {
    hide Le;
  }

  lemma EmptyTail(dir: Directory, a: seq<nat>)
    ensures SortedTail(dir, a, |a|)
  {
  }

  lemma AllSorted(dir: Directory, a: seq<nat>)
    requires SortedTail(dir, a, 1)
    ensures Sorted(dir, a)
  {
    hide Le;
  }

  /** The names follow each other alphabetically, the case of letters aside. */
  ghost predicate Alphabetical(dir: Directory, a: seq<nat>)
    requires Entries(dir, a)
  {
    forall p, q :: 0 <= p < q < |a| ==> Ahead(Fold(dir[a[p]]), Fold(dir[a[q]]))
  }

  lemma SortedIsAlphabetical(dir: Directory, a: seq<nat>)
    requires Entries(dir, a) && Sorted(dir, a)
    ensures Alphabetical(dir, a)
  {
    hide Less, Ahead;
    forall p, q | 0 <= p < q < |a|
      ensures Ahead(Fold(dir[a[p]]), Fold(dir[a[q]]))
    {
      assert Le(dir, a[p], a[q]);
      LessIsAhead(Fold(dir[a[p]]), Fold(dir[a[q]]));
    }
  }

  // ---- lookup

  ghost predicate Matches(dir: Directory, i: nat, name: Name) {
    i < |dir| && Fold(dir[i]) == Fold(name)
  }

  /** mz_zip_filename_compare */
  method FilenameCompare(dir: Directory, l: nat, r: Name) returns (comp: int)
    requires l < |dir|
    ensures comp < 0 <==> Less(Fold(dir[l]), Fold(r))
    ensures comp == 0 <==> Fold(dir[l]) == Fold(r)
  {
    var n := Agreement(dir[l], r);
    FirstDifference(Fold(dir[l]), Fold(r), n);
    comp := if n == |dir[l]| || n == |r| then |dir[l]| - |r| else ToLower(dir[l][n]) - ToLower(r[n]);
  }

  /** An entry before the name, or behind it, and with it all entries on that side. */
  lemma OneSide(dir: Directory, a: seq<nat>, name: Name, m: nat, p: nat)
    requires Sorted(dir, a) && Entries(dir, a) && m < |a| && p < |a|
    ensures Less(Fold(dir[a[m]]), Fold(name)) && p <= m ==> !Matches(dir, a[p], name)
    ensures Less(Fold(name), Fold(dir[a[m]])) && m <= p ==> !Matches(dir, a[p], name)
  {
    LessTotal(Fold(dir[a[m]]), Fold(dir[a[m]]));
    LessTotal(Fold(dir[a[m]]), Fold(name));
    if p < m { assert Le(dir, a[p], a[m]); }
    if m < p { assert Le(dir, a[m], a[p]); }
  }

  /** mz_zip_locate_file_binary_search on the sorted indices */
  method BinarySearch(dir: Directory, indices: array<nat>, name: Name) returns (found: bool, index: nat)
    requires indices.Length == |dir| && Entries(dir, indices[..]) && Sorted(dir, indices[..])
    requires forall i :: 0 <= i < |dir| ==> i in indices[..]
    ensures found ==> Matches(dir, index, name)
    ensures !found ==> forall i :: 0 <= i < |dir| ==> !Matches(dir, i, name)
  {
    hide Sorted, Less, Matches;
    index := 0;
    ghost var a := indices[..];
    var l, h := 0, |dir| - 1;
    while l <= h
      invariant 0 <= l && h < |dir| && l <= h + 1
      invariant forall p :: 0 <= p < |dir| && (p < l || h < p) ==> !Matches(dir, a[p], name)
      decreases h - l + 1
    {
      var m := l + (h - l) / 2;
      var fileIndex := indices[m];
      assert fileIndex == a[m];
      var comp := FilenameCompare(dir, fileIndex, name);
      if comp == 0 {
        MatchFound(dir, fileIndex, name);
        return true, fileIndex;
      }
      LessTotal(Fold(dir[fileIndex]), Fold(name));
      forall p | 0 <= p < |dir|
        ensures comp < 0 && p <= m ==> !Matches(dir, a[p], name)
        ensures comp > 0 && m <= p ==> !Matches(dir, a[p], name)
      {
        OneSide(dir, a, name, m, p);
      }
      if comp < 0 {
        l := m + 1;
      } else {
        h := m - 1;
      }
    }
    found := false;
    forall i | 0 <= i < |dir|
      ensures !Matches(dir, i, name)
    {
      assert i in a;
    }
  }

  lemma MatchFound(dir: Directory, i: nat, name: Name)
    requires i < |dir| && Fold(dir[i]) == Fold(name)
    ensures Matches(dir, i, name)
  {
  }

  /** The linear scan of mz_zip_reader_locate_file_v2 without flags and comment: the first match. */
  method Scan(dir: Directory, name: Name) returns (found: bool, index: nat)
    requires forall i :: 0 <= i < |dir| ==> |dir[i]| <= 65535
    ensures found ==> Matches(dir, index, name) && forall i :: 0 <= i < index ==> !Matches(dir, i, name)
    ensures !found ==> forall i :: 0 <= i < |dir| ==> !Matches(dir, i, name)
  {
    index := 0;
    if |name| > 65535 {
      return false, 0;
    }
    var fileIndex := 0;
    while fileIndex < |dir|
      invariant fileIndex <= |dir| && forall i :: 0 <= i < fileIndex ==> !Matches(dir, i, name)
    {
      if |dir[fileIndex]| >= |name| && |dir[fileIndex]| == |name| {
        var equal := StringEqual(name, dir[fileIndex]);
        if equal {
          return true, fileIndex;
        }
      }
      fileIndex := fileIndex + 1;
    }
    found := false;
  }

  /** mz_zip_string_equal without MZ_ZIP_FLAG_CASE_SENSITIVE */
  method StringEqual(a: Name, b: Name) returns (equal: bool)
    requires |a| == |b|
    ensures equal <==> Fold(a) == Fold(b)
  {
    var i := 0;
    while i < |a|
      invariant i <= |a| && forall k :: 0 <= k < i ==> ToLower(a[k]) == ToLower(b[k])
    {
      if ToLower(a[i]) != ToLower(b[i]) {
        assert Fold(a)[i] != Fold(b)[i];
        return false;
      }
      i := i + 1;
    }
    equal := true;
  }

  /** The identity list that the reader starts from. */
  ghost predicate Unsorted(a: seq<nat>) {
    forall i :: 0 <= i < |a| ==> a[i] == i
  }

  lemma PermutationCovers(n: nat, a: seq<nat>, b: seq<nat>)
    requires |a| == n && Unsorted(a) && multiset(a) == multiset(b)
    ensures forall i :: 0 <= i < n ==> i in b
  {
    forall i | 0 <= i < n
      ensures i in b
    {
      assert a[i] == i;
      assert i in multiset(a);
    }
  }

  /** Building the index and then searching it finds a name exactly when the scan does, which is when some
      entry has it; both return such an entry, and the scan the first. */
  method IndexedLocate(dir: Directory, name: Name) returns (found: bool, index: nat, scanFound: bool, scanIndex: nat)
    requires forall i :: 0 <= i < |dir| ==> |dir[i]| <= 65535
    ensures found == scanFound && (found <==> exists i :: 0 <= i < |dir| && Matches(dir, i, name))
    ensures found ==> Matches(dir, index, name) && Matches(dir, scanIndex, name)
    ensures found ==> forall i :: 0 <= i < scanIndex ==> !Matches(dir, i, name)
  {
    hide Matches, Sorted;
    var indices := new nat[|dir|](i => i);
    ghost var before := indices[..];
    SortByFilename(dir, indices);
    PermutationCovers(|dir|, before, indices[..]);
    found, index := BinarySearch(dir, indices, name);
    scanFound, scanIndex := Scan(dir, name);
    if found { MatchInside(dir, index, name); }
    if scanFound { MatchInside(dir, scanIndex, name); }
  }

  lemma MatchInside(dir: Directory, i: nat, name: Name)
    requires Matches(dir, i, name)
    ensures i < |dir|
  {
  }
}
