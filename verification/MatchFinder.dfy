/** tdefl_find_match on the dictionary and its hash chains. */
module MatchFinder {
  import opened Bytes
  import opened Window
  import opened HashChains

  /** The 16-bit difference of two positions. */
  function Distance(pos: nat, next: nat): (d: nat)
    ensures d < 65536
  {
    (pos - next) % 65536
  }

  lemma ProbeSlot(pos: nat, next: nat)
    requires Distance(pos, next) <= pos
    ensures next % DICT == (pos - Distance(pos, next)) % DICT
  {
    var d := Distance(pos, next);
    var k := (pos - next) / 65536;
    assert pos - next == 65536 * k + d;
    assert pos - d == next + DICT * (2 * k);
    ModMultiple(next, pos - d, 2 * k);
  }

  lemma ModMultiple(a: nat, b: nat, k: int)
    requires b == a + DICT * k
    ensures a % DICT == b % DICT
  {
  }

  /** What the search looks at: the match at p, in a dictionary of maxDist bytes that holds the chains of
      the positions from lo on. */
  datatype Quest = Quest(src: seq<byte>, lo: nat, p: nat, maxDist: nat, probes: nat)

  /** The links of the dictionary. */
  ghost predicate Linked(next: seq<nat>, t: Quest) {
    && |next| == DICT && t.p + 2 < |t.src| && t.lo <= t.p && t.maxDist <= DICT
    && forall q: nat :: t.lo <= q <= t.p <= q + t.maxDist ==> LinkAt(next, t.src, t.lo, q)
  }

  /** Where the search is: at a position of the chain, or somewhere else when the chain is used up. */
  datatype Place = Place(live: bool, at: nat)

  /** A place on the chain lies in the dictionary; at least used positions come before it. */
  ghost predicate OnChain(t: Quest, s: Place, slot: nat, used: nat) {
    s.live ==>
      && t.p + 2 < |t.src| && t.lo <= s.at <= t.p <= s.at + t.maxDist && slot == s.at % DICT
      && Hash(t.src, s.at) == Hash(t.src, t.p) && used <= Count(t.src, s.at, t.p, Hash(t.src, t.p))
  }

  function From(s: Place): nat {
    if s.live then s.at else 0
  }

  /** The positions in reach from one on have been compared. */
  ghost predicate Seen(t: Quest, from: nat, len: nat, dist: nat) {
    forall q: nat :: InReach(t.src, t.lo, t.p, t.maxDist, t.probes, q) && from <= q ==> Beaten(t.src, t.p, q, len, dist)
  }

  /** Positions in reach before a place on the chain come after it on the chain. */
  lemma {:induction false} Later(t: Quest, at: nat, q: nat)
    requires InReach(t.src, t.lo, t.p, t.maxDist, t.probes, q) && q < at <= t.p && t.lo <= at
             && Hash(t.src, at) == Hash(t.src, t.p)
    ensures var r := Last(t.src, t.lo, at, Hash(t.src, at));
            && q <= r < at && Hash(t.src, r) == Hash(t.src, t.p) && Code(r) != 0
    ensures Count(t.src, at, t.p, Hash(t.src, t.p)) < t.probes
  {
    hide Hash, Last;
    var h := Hash(t.src, t.p);
    LastIsLast(t.src, t.lo, at, h);
    CountFalls(t.src, q + 1, at, t.p, h);
    assert Count(t.src, q, t.p, h) == Count(t.src, q + 1, t.p, h) + 1;
  }

  /** The link of a place leads to the next position of the chain, or nothing in reach is left. */
  lemma {:induction false} Follow(t: Quest, s: Place, slot: nat, used: nat, next: seq<nat>, len: nat, dist: nat)
    returns (to: Place)
    requires slot < DICT && t.maxDist <= t.p
    requires |next| == DICT && (s.live ==> Linked(next, t)) && OnChain(t, s, slot, used)
    requires Seen(t, From(s), len, dist) && (s.live ==> dist <= t.p - s.at)
    ensures var c := next[slot];
            var d := Distance(t.p, c);
            if c == 0 || d > t.maxDist then Seen(t, 0, len, dist)
            else
              && OnChain(t, to, c % DICT, used + 1) && (to.live ==> d == t.p - to.at > 0 && dist <= d)
              && Seen(t, if to.live then to.at + 1 else 0, len, dist)
  {
    hide Hash, Last, Count, Beaten;
    to := Place(false, 0);
    if s.live {
      var h := Hash(t.src, t.p);
      var r, c := Last(t.src, t.lo, s.at, h), next[slot];
      assert LinkAt(next, t.src, t.lo, s.at);
      LastIsLast(t.src, t.lo, s.at, h);
      forall q: nat | InReach(t.src, t.lo, t.p, t.maxDist, t.probes, q) && q < s.at
        ensures q <= r && c != 0 && t.p - r <= t.maxDist
      {
        Later(t, s.at, q);
      }
      if r >= 0 && t.p - r <= t.maxDist {
        NextOnChain(t, s, used);
        to := Place(true, r);
      }
    }
  }

  lemma NextOnChain(t: Quest, s: Place, used: nat)
    requires s.live && OnChain(t, s, s.at % DICT, used) && t.maxDist <= DICT
    requires var r := Last(t.src, t.lo, s.at, Hash(t.src, t.p)); r >= 0 && t.p - r <= t.maxDist
    ensures var r: nat := Last(t.src, t.lo, s.at, Hash(t.src, t.p));
            && Distance(t.p, Code(r)) == t.p - r > 0 && Code(r) % DICT == r % DICT
            && OnChain(t, Place(true, r), r % DICT, used + 1)
  {
    hide Hash, Last;
    var h := Hash(t.src, t.p);
    var r: nat := Last(t.src, t.lo, s.at, h);
    LastIsLast(t.src, t.lo, s.at, h);
    CountNone(t.src, r + 1, s.at, t.p, h);
    assert Count(t.src, r, t.p, h) == Count(t.src, r + 1, t.p, h) + 1;
    CodeBack(t.p, r);
  }

  lemma CodeBack(p: nat, r: nat)
    requires r < p <= r + DICT
    ensures Distance(p, Code(r)) == p - r && Code(r) % DICT == r % DICT
  {
    var k := r / 65536;
    assert r == 65536 * k + Code(r);
    ModMultiple(Code(r), r, 2 * k);
    assert p - Code(r) == 65536 * k + (p - r);
  }

  /** When the probes run out, nothing in reach is left either. */
  lemma {:induction false} ProbesOut(t: Quest, s: Place, slot: nat, used: nat, len: nat, dist: nat)
    requires OnChain(t, s, slot, used) && Seen(t, From(s), len, dist) && used >= t.probes
    ensures Seen(t, 0, len, dist)
  {
    hide Hash, Last, Count, Beaten;
    forall q: nat | InReach(t.src, t.lo, t.p, t.maxDist, t.probes, q)
      ensures From(s) <= q
    {
      if q < From(s) { Later(t, s.at, q); }
    }
  }

  /** A position has been compared, and its match is not longer. */
  lemma OneMore(t: Quest, s: Place, len: nat, dist: nat)
    requires s.live ==> s.at < t.p && dist <= t.p - s.at && !RealMatch(t.src, t.p, t.p - s.at, len + 1)
    requires Seen(t, if s.live then s.at + 1 else 0, len, dist)
    ensures Seen(t, From(s), len, dist)
  {
    hide RealMatch, InReach;
  }

  /** Its match is longer than all before. */
  lemma OneBetter(t: Quest, s: Place, len: nat, dist: nat, len': nat, dist': nat)
    requires len < len' && (s.live ==> s.at < t.p && dist' == t.p - s.at)
    requires Seen(t, if s.live then s.at + 1 else 0, len, dist)
    requires !RealMatch(t.src, t.p, dist', len' + 1)
    ensures Seen(t, From(s), len', dist')
  {
    hide Hash, Count;
    forall q: nat | InReach(t.src, t.lo, t.p, t.maxDist, t.probes, q) && From(s) <= q
      ensures Beaten(t.src, t.p, q, len', dist')
    {
      if !s.live || s.at < q {
        assert Beaten(t.src, t.p, q, len, dist);
        Shorter(t.src, t.p, t.p - q, len + 1, len' + 1);
        Shorter(t.src, t.p, t.p - q, len + 1, len');
      }
    }
  }

  lemma Shorter(src: seq<byte>, p: nat, dist: nat, len: nat, more: nat)
    requires len <= more && !RealMatch(src, p, dist, len)
    ensures !RealMatch(src, p, dist, more)
  {
  }

  lemma SeenAll(t: Quest, len: nat, dist: nat)
    requires Seen(t, 0, len, dist)
    ensures Best(t.src, t.lo, t.p, t.maxDist, t.probes, len, dist)
  {
    hide InReach, Beaten;
  }

  lemma NoneFits(t: Quest, len: nat)
    requires t.p + len >= |t.src|
    ensures Best(t.src, t.lo, t.p, t.maxDist, t.probes, len, 0)
  {
    hide Hash, Count;
    forall q: nat | InReach(t.src, t.lo, t.p, t.maxDist, t.probes, q)
      ensures Beaten(t.src, t.p, q, len, 0)
    {
    }
  }

  /** At the greatest length nothing further away matters. */
  lemma WholeLookahead(t: Quest, s: Place, len: nat, dist: nat)
    requires Seen(t, From(s), len, dist) && (s.live ==> dist <= t.p - s.at) && t.p + len >= |t.src|
    ensures Best(t.src, t.lo, t.p, t.maxDist, t.probes, len, dist)
  {
    hide Hash, Count;
    forall q: nat | InReach(t.src, t.lo, t.p, t.maxDist, t.probes, q)
      ensures Beaten(t.src, t.p, q, len, dist)
    {
    }
  }

  lemma AtStart(next: seq<nat>, t: Quest, len: nat)
    requires Linked(next, t)
    ensures OnChain(t, Place(true, t.p), t.p % DICT, 0) && Seen(t, t.p, len, 0)
  {
    hide Hash, Count;
  }

  lemma LookaheadBytes(d: seq<byte>, t: Quest, len: nat)
    requires t.maxDist <= t.p && Holds(d, t.src, t.p - t.maxDist) && 1 <= len < 258 && t.p + len < |t.src|
    ensures t.p % DICT + len < |d|
    ensures d[t.p % DICT + len] == t.src[t.p + len] && d[t.p % DICT + len - 1] == t.src[t.p + len - 1]
  {
    hide Holds;
    ReadThrough(d, t.src, t.p - t.maxDist, t.p, len);
    ReadThrough(d, t.src, t.p - t.maxDist, t.p, len - 1);
  }

  lemma HoldsLength(d: seq<byte>, src: seq<byte>, lo: nat)
    requires Holds(d, src, lo)
    ensures |d| == DICT + MIRROR
  {
  }

  // ---- the search

  datatype Probed = NoMore | Miss(pos: nat, dist: nat) | Hit(pos: nat, dist: nat)

  /** TDEFL_PROBE: follows the hash chain by one link. */
  method Probe(dict: array<byte>, next: array<nat>, probePos: nat, lookaheadPos: nat, maxDist: nat, matchLen: nat,
      c0: byte, c1: byte,
      ghost t: Quest, ghost s: Place, ghost used: nat, ghost best: nat)
    returns (r: Probed, ghost to: Place)
    requires dict.Length == DICT + MIRROR && next.Length == DICT && probePos < DICT && 1 <= matchLen < 258
    requires maxDist == t.maxDist <= t.p == lookaheadPos && t.p + matchLen < |t.src|
             && Holds(dict[..], t.src, t.p - maxDist)
    requires c0 == t.src[t.p + matchLen] && c1 == t.src[t.p + matchLen - 1]
    requires (s.live ==> Linked(next[..], t)) && OnChain(t, s, probePos, used)
    requires Seen(t, From(s), matchLen, best) && (s.live ==> best <= t.p - s.at)
    ensures r.NoMore? ==> Seen(t, 0, matchLen, best)
    ensures !r.NoMore? ==> r.dist <= maxDist && r.pos == (t.p - r.dist) % DICT && OnChain(t, to, r.pos, used + 1)
                           && (to.live ==> r.dist == t.p - to.at > 0 && best <= r.dist)
                           && Seen(t, if to.live then to.at + 1 else 0, matchLen, best)
    ensures r.Miss? ==> Seen(t, From(to), matchLen, best)
  {
    hide Distance, Seen, OnChain, Holds, Linked, RealMatch;
    var nextProbePos := next[probePos];
    to := Follow(t, s, probePos, used, next[..], matchLen, best);
    if nextProbePos == 0 || Distance(lookaheadPos, nextProbePos) > maxDist {
      r := NoMore;
      return;
    }
    var dist := Distance(lookaheadPos, nextProbePos);
    ProbeSlot(t.p, nextProbePos);
    var pos := nextProbePos % DICT;
    if dict[pos + matchLen] == c0 && dict[pos + matchLen - 1] == c1 {
      r := Hit(pos, dist);
      return;
    }
    if to.live {
      Differ(dict[..], t, dist, matchLen);
      OneMore(t, to, matchLen, best);
    }
    r := Miss(pos, dist);
  }

  /** The two bytes that a probe looks at differ: no longer match is there. */
  lemma Differ(d: seq<byte>, t: Quest, dist: nat, len: nat)
    requires 1 <= dist <= t.maxDist <= t.p && 1 <= len < 258 && t.p + len < |t.src|
    requires Holds(d, t.src, t.p - t.maxDist)
    requires var pos := (t.p - dist) % DICT;
             pos + len < |d| && (d[pos + len] != t.src[t.p + len] || d[pos + len - 1] != t.src[t.p + len - 1])
    ensures !RealMatch(t.src, t.p, dist, len + 1)
  {
    hide Holds;
    ReadThrough(d, t.src, t.p - t.maxDist, t.p - dist, len);
    ReadThrough(d, t.src, t.p - t.maxDist, t.p - dist, len - 1);
    if RealMatch(t.src, t.p, dist, len + 1) { LastTwo(t.src, t.p, dist, len + 1); }
  }

  lemma LastTwo(src: seq<byte>, p: nat, dist: nat, len: nat)
    requires RealMatch(src, p, dist, len) && len >= 2
    ensures src[p + len - 1] == src[p + len - 1 - dist] && src[p + len - 2] == src[p + len - 2 - dist]
  {
  }

  /** The inner loop: until a probe agrees in its last two bytes, or there are no more probes. */
  method ProbeChain(dict: array<byte>, next: array<nat>, from: nat, probes: nat, lookaheadPos: nat, maxDist: nat,
      matchLen: nat, c0: byte, c1: byte, ghost t: Quest, ghost s: Place, ghost best: nat)
    returns (r: Probed, left: nat, ghost to: Place)
    requires dict.Length == DICT + MIRROR && next.Length == DICT && from < DICT && 1 <= matchLen < 258
    requires maxDist == t.maxDist <= t.p == lookaheadPos && t.p + matchLen < |t.src|
             && Holds(dict[..], t.src, t.p - maxDist)
    requires c0 == t.src[t.p + matchLen] && c1 == t.src[t.p + matchLen - 1]
    requires 0 < probes <= t.probes + 1
    requires Linked(next[..], t) && OnChain(t, s, from, t.probes + 1 - probes)
    requires Seen(t, From(s), matchLen, best) && (s.live ==> best <= t.p - s.at)
    ensures !r.Miss? && left < probes && (r.Hit? ==> left > 0)
    ensures r.NoMore? ==> Seen(t, 0, matchLen, best)
    ensures r.Hit? ==> r.dist <= maxDist && r.pos == (t.p - r.dist) % DICT && OnChain(t, to, r.pos, t.probes + 1 - left)
                       && (to.live ==> r.dist == t.p - to.at > 0 && best <= r.dist)
                       && Seen(t, if to.live then to.at + 1 else 0, matchLen, best)
  {
    hide Seen, OnChain, Holds, Linked;
    var probePos: nat := from;
    left, to := probes, s;
    while true
      invariant probePos < DICT && 0 < left <= probes && OnChain(t, to, probePos, t.probes + 1 - left)
      invariant Seen(t, From(to), matchLen, best) && (to.live ==> best <= t.p - to.at)
      decreases left
    {
      left := left - 1;
      if left == 0 {
        ProbesOut(t, to, probePos, t.probes, matchLen, best);
        r := NoMore;
        return;
      }
      var k := 0;
      while k < 3
        invariant probePos < DICT && k <= 3
        invariant OnChain(t, to, probePos, t.probes - left + if k > 0 then 1 else 0)
        invariant Seen(t, From(to), matchLen, best) && (to.live ==> best <= t.p - to.at)
      {
        ghost var used := t.probes - left;
        FewerUsed(t, to, probePos, used + if k > 0 then 1 else 0, used);
        r, to := Probe(dict, next, probePos, lookaheadPos, maxDist, matchLen, c0, c1, t, to, used, best);
        if !r.Miss? {
          return;
        }
        probePos := r.pos;
        k := k + 1;
      }
    }
  }

  lemma FewerUsed(t: Quest, s: Place, slot: nat, used: nat, less: nat)
    requires OnChain(t, s, slot, used) && less <= used
    ensures OnChain(t, s, slot, less)
  {
    hide Hash, Count;
  }

  /** The agreement is a match, and no longer one is there. */
  lemma AgreementIsMatch(d: seq<byte>, src: seq<byte>, lo: nat, p: nat, dist: nat, n: nat)
    requires Holds(d, src, lo) && lo <= p - dist && 1 <= dist && p + n <= |src| && n <= 258
    requires d[p % DICT..p % DICT + n] == d[(p - dist) % DICT..(p - dist) % DICT + n]
    requires p + n < |src| ==> n < 258 && d[p % DICT + n] != d[(p - dist) % DICT + n]
    ensures RealMatch(src, p, dist, n) && !RealMatch(src, p, dist, n + 1)
  {
    forall i | p <= i < p + n
      ensures src[i] == src[i - dist]
    {
      ReadThrough(d, src, lo, p, i - p);
      assert d[p % DICT..p % DICT + n][i - p] == d[(p - dist) % DICT..(p - dist) % DICT + n][i - p];
      ReadThrough(d, src, lo, p - dist, i - p);
    }
    if p + n < |src| {
      ReadThrough(d, src, lo, p, n);
      ReadThrough(d, src, lo, p - dist, n);
    }
  }

  /** How far the bytes at pos and at probePos agree: the longest match at that distance. */
  method Agreement(dict: array<byte>, pos: nat, probePos: nat, max: nat, ghost t: Quest, ghost dist: nat)
    returns (n: nat)
    requires t.maxDist <= t.p && Holds(dict[..], t.src, t.p - t.maxDist) && 1 <= dist <= t.maxDist
    requires pos == t.p % DICT && probePos == (t.p - dist) % DICT && max <= 258 && t.p + max == |t.src|
    ensures n <= max && RealMatch(t.src, t.p, dist, n) && !RealMatch(t.src, t.p, dist, n + 1)
  {
    hide Holds, RealMatch;
    HoldsLength(dict[..], t.src, t.p - t.maxDist);
    n := 0;
    while n < max
      invariant n <= max && dict[pos..pos + n] == dict[probePos..probePos + n]
    {
      if dict[pos + n] != dict[probePos + n] {
        break;
      }
      n := n + 1;
    }
    AgreementIsMatch(dict[..], t.src, t.p - t.maxDist, t.p, dist, n);
  }

  /** tdefl_find_match: the longest match longer than start among the positions that the chain leads to
      within the probes, and the closest one of that length. What is found is a real match inside the
      dictionary even where the chain has been lost. */
  method FindMatch(dict: array<byte>, next: array<nat>, lookaheadPos: nat, maxDist: nat, maxMatchLen: nat,
      maxProbes: nat, start: nat, ghost src: seq<byte>, ghost lo: nat)
    returns (matchDist: nat, matchLen: nat)
    requires next.Length == DICT && 2 <= start < 257 && maxMatchLen <= 258 && maxProbes > 0
    requires maxDist <= lookaheadPos && lookaheadPos + maxMatchLen == |src|
             && Holds(dict[..], src, lookaheadPos - maxDist)
    requires maxMatchLen > 2 ==> Linked(next[..], Quest(src, lo, lookaheadPos, maxDist, maxProbes - 1))
    ensures (matchDist == 0 && matchLen == start)
            || (start < matchLen <= maxMatchLen && 1 <= matchDist <= maxDist
            && RealMatch(src, lookaheadPos, matchDist, matchLen))
    ensures Best(src, lo, lookaheadPos, maxDist, maxProbes - 1, matchLen, matchDist)
  {
    hide Distance, Seen, OnChain, Linked, Holds, RealMatch, Best;
    ghost var t := Quest(src, lo, lookaheadPos, maxDist, maxProbes - 1);
    var pos := lookaheadPos % DICT;
    matchDist, matchLen := 0, start;
    HoldsLength(dict[..], src, lookaheadPos - maxDist);
    var c0, c1 := dict[pos + matchLen], dict[pos + matchLen - 1];
    if maxMatchLen <= matchLen {
      NoneFits(t, matchLen);
      return;
    }
    LookaheadBytes(dict[..], t, matchLen);
    var probePos: nat, probesLeft: nat := pos, maxProbes;
    ghost var place := Place(true, lookaheadPos);
    AtStart(next[..], t, matchLen);
    while true
      invariant probePos < DICT && start <= matchLen < maxMatchLen && 0 < probesLeft <= maxProbes
      invariant (matchDist == 0 && matchLen == start)
                || (start < matchLen && 1 <= matchDist <= maxDist && RealMatch(src, lookaheadPos, matchDist, matchLen))
      invariant c0 == src[lookaheadPos + matchLen] && c1 == src[lookaheadPos + matchLen - 1]
      invariant OnChain(t, place, probePos, maxProbes - probesLeft)
      invariant Seen(t, From(place), matchLen, matchDist) && (place.live ==> matchDist <= lookaheadPos - place.at)
      decreases probesLeft
    {
      var r;
      r, probesLeft, place :=
        ProbeChain(dict, next, probePos, probesLeft, lookaheadPos, maxDist, matchLen, c0, c1, t, place, matchDist);
      if r.NoMore? || r.dist == 0 {
        SeenAll(t, matchLen, matchDist);
        return;
      }
      probePos := r.pos;
      var probeLen := Agreement(dict, pos, probePos, maxMatchLen, t, r.dist);
      if probeLen > matchLen {
        OneBetter(t, place, matchLen, matchDist, probeLen, r.dist);
        matchDist, matchLen := r.dist, probeLen;
        if matchLen == maxMatchLen {
          WholeLookahead(t, place, matchLen, matchDist);
          return;
        }
        LookaheadBytes(dict[..], t, matchLen);
        c0, c1 := dict[pos + matchLen], dict[pos + matchLen - 1];
      } else {
        Shorter(src, lookaheadPos, r.dist, probeLen + 1, matchLen + 1);
        OneMore(t, place, matchLen, matchDist);
      }
    }
  }
}
