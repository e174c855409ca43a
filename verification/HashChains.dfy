/** The hash chains of the compressor: from a hash of three bytes to the last position that has it, and
    from each position to the last one before it with the same hash. */
module HashChains {
  import opened Bytes
  import opened Window

  const HASH_SIZE: nat := 32768

  /** hash << TDEFL_LZ_HASH_SHIFT ^ c, kept to 15 bits */
  function HashStep(h: bv15, c: byte): bv15 {
    Mix(h, c as bv15)
  }

  function Mix(h: bv15, c: bv15): bv15 {
    (h << 5) ^ c
  }

  /** The hash of two bytes. */
  function Hash2(a: byte, b: byte): bv15 {
    HashStep(a as bv15, b)
  }

  /** The hash of three bytes. */
  function Hash3(a: byte, b: byte, c: byte): bv15 {
    HashStep(Hash2(a, b), c)
  }

  /** A hash is an index of the hash table. */
  function Index(h: bv15): (i: nat)
    ensures i < HASH_SIZE
  {
    h as nat
  }

  /** Equal but for the bits that the next step shifts out. */
  predicate Alike(g: bv15, h: bv15) {
    g << 5 == h << 5
  }

  /** Adding a byte to the hash of three bytes drops the first of them. */
  lemma Rolling(h: bv15, a: byte, b: byte, c: byte)
    requires Alike(h, Hash2(a, b))
    ensures HashStep(h, c) == Hash3(a, b, c) && Alike(HashStep(h, c), Hash2(b, c))
  {
    hide Mix, Alike;
    ShiftedOut(h, a as bv15, b as bv15, c as bv15);
  }

  lemma ShiftedOut(h: bv15, a: bv15, b: bv15, c: bv15)
    requires Alike(h, Mix(a, b))
    ensures Mix(h, c) == Mix(Mix(a, b), c) && Alike(Mix(h, c), Mix(b, c))
  {
  }

  /** The hash of the three bytes at q. */
  function Hash(src: seq<byte>, q: nat): (h: nat)
    requires q + 2 < |src|
    ensures h < HASH_SIZE
  {
    Index(Hash3(src[q], src[q + 1], src[q + 2]))
  }

  /** The last position from lo on and before q whose hash is h, or -1. */
  function Last(src: seq<byte>, lo: nat, q: nat, h: nat): int
    requires q <= lo || q + 2 <= |src|
    decreases q
  {
    if q <= lo then -1 else if Hash(src, q - 1) == h then q - 1 else Last(src, lo, q - 1, h)
  }

  lemma {:induction false} LastIsLast(src: seq<byte>, lo: nat, q: nat, h: nat)
    requires q <= lo || q + 2 <= |src|
    ensures var r := Last(src, lo, q, h);
            && (r == -1 || (lo <= r < q && Hash(src, r) == h))
            && (forall x: nat :: lo <= x < q && r < x ==> Hash(src, x) != h)
    decreases q
  {
    hide Hash3, Index;
    if q > lo && Hash(src, q - 1) != h { LastIsLast(src, lo, q - 1, h); }
  }

  lemma {:induction false} LastStays(src: seq<byte>, more: seq<byte>, lo: nat, q: nat, h: nat)
    requires q <= lo || q + 2 <= |src|
    ensures Last(src + more, lo, q, h) == Last(src, lo, q, h)
    decreases q
  {
    hide Hash3, Index;
    if q > lo && Hash(src, q - 1) != h { LastStays(src, more, lo, q - 1, h); }
  }

  /** How a position is entered: in 16 bits, 0 standing for none. */
  function Code(q: int): (c: nat)
    ensures c < 65536
  {
    if q < 0 then 0 else q % 65536
  }

  /** The chains of the positions from lo on and before ready. Only the last DICT links are kept. */
  ghost predicate Chained(hash: seq<nat>, next: seq<nat>, src: seq<byte>, lo: nat, ready: nat) {
    && |hash| == HASH_SIZE && |next| == DICT && lo <= ready && (ready == lo || ready + 2 <= |src|)
    && (forall h: nat :: h < HASH_SIZE ==> hash[h] == Code(Last(src, lo, ready, h)))
    && (forall q: nat :: lo <= q < ready <= q + DICT ==> LinkAt(next, src, lo, q))
  }

  ghost predicate LinkAt(next: seq<nat>, src: seq<byte>, lo: nat, q: nat)
    requires |next| == DICT && q + 2 < |src|
  {
    next[q % DICT] == Code(Last(src, lo, q, Hash(src, q)))
  }

  lemma NothingChained(hash: seq<nat>, next: seq<nat>, src: seq<byte>, lo: nat)
    requires |hash| == HASH_SIZE && |next| == DICT && forall h: nat :: h < HASH_SIZE ==> hash[h] == 0
    ensures Chained(hash, next, src, lo, lo)
  {
  }

  lemma ChainedMore(hash: seq<nat>, next: seq<nat>, src: seq<byte>, more: seq<byte>, lo: nat, ready: nat)
    requires Chained(hash, next, src, lo, ready)
    ensures Chained(hash, next, src + more, lo, ready)
  {
    hide Last, Hash3, Code;
    forall h: nat | h < HASH_SIZE
      ensures hash[h] == Code(Last(src + more, lo, ready, h))
    {
      LastStays(src, more, lo, ready, h);
    }
    forall q: nat | lo <= q < ready <= q + DICT
      ensures LinkAt(next, src + more, lo, q)
    {
      assert LinkAt(next, src, lo, q);
      LastStays(src, more, lo, q, Hash(src, q));
    }
  }

  /** Entering the next position extends the chains. */
  lemma Entered(hash: seq<nat>, next: seq<nat>, src: seq<byte>, lo: nat, ready: nat)
    requires Chained(hash, next, src, lo, ready) && ready + 2 < |src|
    ensures var h := Hash(src, ready);
            Chained(hash[h := ready % 65536], next[ready % DICT := hash[h]], src, lo, ready + 1)
  {
    hide Last, Hash3;
    var h := Hash(src, ready);
    var hash', next' := hash[h := ready % 65536], next[ready % DICT := hash[h]];
    forall g: nat | g < HASH_SIZE
      ensures hash'[g] == Code(Last(src, lo, ready + 1, g))
    {
      LastNext(src, lo, ready, g);
    }
    forall q: nat | lo <= q < ready + 1 <= q + DICT
      ensures LinkAt(next', src, lo, q)
    {
      if q < ready {
        assert LinkAt(next, src, lo, q);
        if q % DICT == ready % DICT { SameSlot(q, ready); }
      }
    }
  }

  lemma LastNext(src: seq<byte>, lo: nat, q: nat, h: nat)
    requires lo <= q && q + 2 < |src|
    ensures Last(src, lo, q + 1, h) == if Hash(src, q) == h then q else Last(src, lo, q, h)
  {
    hide Hash3, Index;
  }

  // ---- what a search along a chain is to find

  /** How many positions from q on and before p have hash h. */
  function Count(src: seq<byte>, q: nat, p: nat, h: nat): nat
    requires p + 2 <= |src|
    decreases p - q
  {
    if q >= p then 0 else Count(src, q + 1, p, h) + if Hash(src, q) == h then 1 else 0
  }

  lemma {:induction false} CountNone(src: seq<byte>, r: nat, q: nat, p: nat, h: nat)
    requires r <= q <= p && p + 2 <= |src| && forall x: nat :: r <= x < q ==> Hash(src, x) != h
    ensures Count(src, r, p, h) == Count(src, q, p, h)
    decreases q - r
  {
    hide Hash3, Index;
    if r < q { CountNone(src, r + 1, q, p, h); }
  }

  lemma {:induction false} CountFalls(src: seq<byte>, r: nat, q: nat, p: nat, h: nat)
    requires r <= q <= p && p + 2 <= |src|
    ensures Count(src, r, p, h) >= Count(src, q, p, h)
    decreases q - r
  {
    hide Hash3, Index;
    if r < q { CountFalls(src, r + 1, q, p, h); }
  }

  /** A position that the chain of p leads to within the distance and the number of probes: it has the
      hash of p, and neither it nor a closer one with that hash has the number that stands for none. */
  ghost predicate InReach(src: seq<byte>, lo: nat, p: nat, maxDist: nat, probes: nat, q: nat) {
    && lo <= q < p <= q + maxDist && p + 2 < |src| && Hash(src, q) == Hash(src, p)
    && Count(src, q, p, Hash(src, p)) <= probes
    && (forall x: nat :: q <= x < p && Hash(src, x) == Hash(src, p) ==> x % 65536 != 0)
  }

  /** No position in reach has a longer match, and no closer one has one as long. */
  ghost predicate Best(src: seq<byte>, lo: nat, p: nat, maxDist: nat, probes: nat, len: nat, dist: nat) {
    forall q: nat :: InReach(src, lo, p, maxDist, probes, q) ==> Beaten(src, p, q, len, dist)
  }

  ghost predicate Beaten(src: seq<byte>, p: nat, q: nat, len: nat, dist: nat)
    requires q < p
  {
    !RealMatch(src, p, p - q, len + 1) && (p - q < dist ==> !RealMatch(src, p, p - q, len))
  }

  /** A match of three bytes or more is on the chain. */
  lemma MatchHashes(src: seq<byte>, p: nat, dist: nat, len: nat)
    requires RealMatch(src, p, dist, len) && len >= 3
    ensures Hash(src, p - dist) == Hash(src, p)
  {
    hide Hash3, Index;
    assert src[p] == src[p - dist] && src[p + 1] == src[p + 1 - dist] && src[p + 2] == src[p + 2 - dist];
  }

  /** Of all matches of three bytes or more in the dictionary, none with fewer than probes others of its
      hash in front of it is longer than the best one, unless a position on the way stands for none. */
  lemma NoneLonger(src: seq<byte>, lo: nat, p: nat, maxDist: nat, probes: nat, len: nat, dist: nat, other: nat, n: nat)
    requires Best(src, lo, p, maxDist, probes, len, dist) && RealMatch(src, p, other, n) && n >= 3
    requires other <= maxDist && lo + other <= p && Count(src, p - other, p, Hash(src, p)) <= probes
    requires forall x: nat :: p - other <= x < p && Hash(src, x) == Hash(src, p) ==> x % 65536 != 0
    ensures n <= len && (n == len ==> dist <= other)
  {
    hide Hash3, Index;
    MatchHashes(src, p, other, n);
    assert InReach(src, lo, p, maxDist, probes, p - other);
    assert Beaten(src, p, p - other, len, dist);
  }
}
