/** Construction of the decoding tables of tinfl from a vector of code lengths, and the decoding of
    one symbol with them. */
module InflateTable {
  import opened Bytes
  import opened Bits
  import opened Canonical
  import opened DecodeTrie

  /** The codes of the symbols below m. */
  ghost function LeavesBelow(lens: Lengths, m: nat): Leaves
    requires m <= |lens|
  {
    if m == 0 then map[]
    else if lens[m - 1] > 0 then LeavesBelow(lens, m - 1)[Code(lens, m - 1) := m - 1]
    else LeavesBelow(lens, m - 1)
  }

  lemma {:induction false} LeafIsCode(lens: Lengths, m: nat, c: Bits)
    requires m <= |lens| && c in LeavesBelow(lens, m)
    ensures var s := LeavesBelow(lens, m)[c]; s < m && lens[s] > 0 && Code(lens, s) == c
  {
    if c !in LeavesBelow(lens, m - 1) || (lens[m - 1] > 0 && c == Code(lens, m - 1)) {
    } else {
      LeafIsCode(lens, m - 1, c);
    }
  }

  lemma {:induction false} CodeIsLeaf(lens: Lengths, m: nat, s: nat)
    requires Feasible(lens) && s < m <= |lens| && lens[s] > 0
    ensures Code(lens, s) in LeavesBelow(lens, m) && LeavesBelow(lens, m)[Code(lens, s)] == s
  {
    if s < m - 1 {
      CodeIsLeaf(lens, m - 1, s);
      if lens[m - 1] > 0 && Code(lens, m - 1) == Code(lens, s) {
        PrefixFree(lens, s, m - 1);
      }
    }
  }

  /** p is a proper prefix of the code of some symbol. */
  ghost predicate Inner(lens: Lengths, p: Bits) {
    exists s :: 0 <= s < |lens| && lens[s] > |p| && Prefix(p, Code(lens, s))
  }

  ghost predicate AllInner(lens: Lengths, node: Nodes) {
    forall p :: p in node ==> Inner(lens, p)
  }

  lemma CodeNotInner(lens: Lengths, s: nat, p: Bits)
    requires Feasible(lens) && s < |lens| && lens[s] > 0 && Inner(lens, p)
    ensures !Prefix(Code(lens, s), p)
  {
    var k :| 0 <= k < |lens| && lens[k] > |p| && Prefix(p, Code(lens, k));
    if Prefix(Code(lens, s), p) {
      PrefixFree(lens, s, k);
    }
  }

  /** The code of the next symbol is fresh. */
  lemma NextIsFresh(lens: Lengths, node: Nodes, m: nat)
    requires Feasible(lens) && m < |lens| && lens[m] > 0 && AllInner(lens, node)
    ensures Fresh(node, LeavesBelow(lens, m), Code(lens, m))
  {
    var c, leaf := Code(lens, m), LeavesBelow(lens, m);
    forall d | d in leaf
      ensures !Prefix(d, c) && !Prefix(c, d)
    {
      LeafIsCode(lens, m, d);
      if Prefix(d, c) { PrefixFree(lens, leaf[d], m); }
      if Prefix(c, d) { PrefixFree(lens, m, leaf[d]); }
    }
    forall p | p in node
      ensures !Prefix(c, p)
    {
      CodeNotInner(lens, m, p);
    }
  }

  // ---- how many nodes there can be

  ghost function Ones(n: nat): (b: Bits)
    ensures |b| == n
  {
    if n == 0 then [] else Ones(n - 1) + [true]
  }

  /** Strings that end in a zero and then ones only have one such end. */
  lemma {:induction false} TailUnique(p: Bits, q: Bits, i: nat, j: nat)
    requires p + [false] + Ones(i) == q + [false] + Ones(j)
    ensures p == q
    decreases i
  {
    var x, y := p + [false] + Ones(i), q + [false] + Ones(j);
    assert x[|x| - 1] == y[|y| - 1];
    if i == 0 {
      assert j == 0;
      assert x[..|x| - 1] == p && y[..|y| - 1] == q;
    } else {
      assert j > 0;
      assert x[..|x| - 1] == p + [false] + Ones(i - 1);
      assert y[..|y| - 1] == q + [false] + Ones(j - 1);
      TailUnique(p, q, i - 1, j - 1);
    }
  }

  lemma {:induction false} PrefixOfOnes(n: nat, k: nat)
    requires k <= n
    ensures Ones(n)[..k] == Ones(k)
  {
    if k < n {
      PrefixOfOnes(n - 1, k);
      assert Ones(n)[..k] == Ones(n - 1)[..k];
    } else {
      assert Ones(n)[..n] == Ones(n);
    }
  }

  /** The last symbol below the zero child of p. */
  ghost predicate LastLeft(lens: Lengths, p: Bits, s: nat) {
    && s < |lens| && lens[s] > |p|
    && Code(lens, s) == p + [false] + Ones(lens[s] - |p| - 1)
  }

  lemma InnerHasLastLeft(lens: Lengths, p: Bits) returns (s: nat)
    requires Complete(lens) && Inner(lens, p)
    ensures LastLeft(lens, p, s)
  {
    var k :| 0 <= k < |lens| && lens[k] > |p| && Prefix(p, Code(lens, k));
    var b := p + [false] + Ones(MAX_LEN - |p| - 1);
    s := CompleteDecodes(lens, b);
    if lens[s] <= |p| {
      assert Prefix(Code(lens, s), p);
      CodeNotInner(lens, s, p);
    }
    PrefixOfOnes(MAX_LEN - |p| - 1, lens[s] - |p| - 1);
    assert b[..lens[s]] == p + [false] + Ones(MAX_LEN - |p| - 1)[..lens[s] - |p| - 1];
  }

  lemma LastLeftInjective(lens: Lengths, p: Bits, q: Bits, s: nat)
    requires LastLeft(lens, p, s) && LastLeft(lens, q, s)
    ensures p == q
  {
    TailUnique(p, q, lens[s] - |p| - 1, lens[s] - |q| - 1);
  }

  /** The symbols that are the last below the zero child of a string in ps, collected one by one. */
  lemma {:induction false} LastLefts(lens: Lengths, ps: set<Bits>) returns (ss: set<nat>)
    requires Complete(lens) && forall p :: p in ps ==> Inner(lens, p)
    ensures |ss| == |ps|
    ensures forall s :: s in ss ==> exists p :: p in ps && LastLeft(lens, p, s)
    decreases |ps|
  {
    if ps == {} {
      ss := {};
    } else {
      var p :| p in ps;
      var rest := LastLefts(lens, ps - {p});
      var s := InnerHasLastLeft(lens, p);
      if s in rest {
        var q :| q in ps - {p} && LastLeft(lens, q, s);
        LastLeftInjective(lens, p, q, s);
      }
      ss := rest + {s};
    }
  }

  ghost function Symbols(n: nat): (ss: set<nat>)
    ensures |ss| == n
    ensures forall s: nat :: s in ss <==> s < n
  {
    if n == 0 then {} else Symbols(n - 1) + {n - 1}
  }

  lemma SubsetSize(a: set<nat>, b: set<nat>)
    requires a <= b
    ensures |a| <= |b|
    decreases |a|
  {
    if a != {} {
      var x :| x in a;
      SubsetSize(a - {x}, b - {x});
    }
  }

  /** A complete code has fewer inner strings than symbols. */
  lemma FewInner(lens: Lengths, ps: set<Bits>)
    requires Complete(lens) && forall p :: p in ps ==> Inner(lens, p)
    ensures |ps| < |lens|
  {
    var ss := LastLefts(lens, ps);
    var top := CompleteDecodes(lens, Ones(MAX_LEN));
    if top in ss {
      var p :| p in ps && LastLeft(lens, p, top);
      PrefixOfOnes(MAX_LEN, lens[top]);
      OnesHaveNoZero(lens[top], |p|);
    }
    forall s | s in ss
      ensures s in Symbols(|lens|) - {top}
    {
      var p :| p in ps && LastLeft(lens, p, s);
    }
    SubsetSize(ss, Symbols(|lens|) - {top});
  }

  lemma {:induction false} OnesHaveNoZero(n: nat, k: nat)
    requires k < n
    ensures Ones(n)[k]
  {
    if k < n - 1 { OnesHaveNoZero(n - 1, k); }
  }

  /** At most one symbol has a code. */
  ghost predicate Lonely(lens: Lengths) {
    forall i, j :: 0 <= i < |lens| && 0 <= j < |lens| && lens[i] > 0 && lens[j] > 0 ==> i == j
  }

  lemma {:induction false} FewInnerLonely(lens: Lengths, ps: set<Bits>)
    requires WellFormed(lens) && Lonely(lens)
    requires forall p :: p in ps ==> |p| >= FAST_BITS && Inner(lens, p)
    ensures |ps| <= 5
  {
    if ps != {} {
      var p0 :| p0 in ps;
      var s :| 0 <= s < |lens| && lens[s] > |p0| && Prefix(p0, Code(lens, s));
      var c := Code(lens, s);
      forall p | p in ps
        ensures 10 <= |p| < |c| <= MAX_LEN && p == c[..|p|]
      {
        var t :| 0 <= t < |lens| && lens[t] > |p| && Prefix(p, Code(lens, t));
        assert t == s;
      }
      PrefixesOfOneCode(c, ps, 10);
    }
  }

  /** Prefixes of one string differ in length. */
  lemma {:induction false} PrefixesOfOneCode(c: Bits, ps: set<Bits>, k: nat)
    requires |c| <= MAX_LEN && k <= MAX_LEN
    requires forall p :: p in ps ==> k <= |p| < |c| && p == c[..|p|]
    ensures |ps| <= MAX_LEN - k
    decreases MAX_LEN - k
  {
    if k < |c| {
      PrefixesOfOneCode(c, ps - {c[..k]}, k + 1);
    } else {
      assert ps == {} by {
        if p :| p in ps { }
      }
    }
  }
}
