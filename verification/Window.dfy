/** The dictionary of the compressor: a ring of 32768 bytes whose first 257 bytes are mirrored behind
    its end, so that matches can be compared without wrapping. */
module Window {
  import opened Bytes
  import opened Tokens

  const DICT: nat := 32768
  const MIRROR: nat := 257

  /** The ring holds the bytes of src from lo on. */
  ghost predicate Holds(d: seq<byte>, src: seq<byte>, lo: nat) {
    && |d| == DICT + MIRROR && lo <= |src| <= lo + DICT
    && forall p: nat :: lo <= p < |src| ==> HoldsAt(d, src, p)
  }

  ghost predicate HoldsAt(d: seq<byte>, src: seq<byte>, p: nat)
    requires |d| == DICT + MIRROR && p < |src|
  {
    d[p % DICT] == src[p] && (p % DICT < MIRROR ==> d[DICT + p % DICT] == src[p])
  }

  lemma ModAdd(p: nat, i: nat)
    requires i <= MIRROR
    ensures (p + i) % DICT == if p % DICT + i < DICT then p % DICT + i else p % DICT + i - DICT
  {
  }

  /** Reading past the end of the ring reads the mirror. */
  lemma ReadThrough(d: seq<byte>, src: seq<byte>, lo: nat, p: nat, i: nat)
    requires Holds(d, src, lo) && lo <= p && p + i < |src| && i <= MIRROR
    ensures p % DICT + i < |d| && d[p % DICT + i] == src[p + i]
  {
    ModAdd(p, i);
    assert HoldsAt(d, src, p + i);
  }

  lemma SameSlot(p: nat, q: nat)
    requires p % DICT == q % DICT && p <= q < p + DICT
    ensures p == q
  {
  }

  /** One more byte: it replaces the byte DICT before it. */
  lemma Store(d: seq<byte>, e: seq<byte>, src: seq<byte>, lo: nat, c: byte)
    requires Holds(d, src, lo) && |e| == |d|
    requires forall j :: 0 <= j < |d| && j != |src| % DICT && j != DICT + |src| % DICT ==> e[j] == d[j]
    requires e[|src| % DICT] == c && (|src| % DICT < MIRROR ==> e[DICT + |src| % DICT] == c)
    ensures forall lo': nat :: lo <= lo' <= |src| + 1 <= lo' + DICT ==> Holds(e, src + [c], lo')
  {
    var s := src + [c];
    forall p: nat | lo <= p < |s| && |s| <= p + DICT
      ensures HoldsAt(e, s, p)
    {
      if p < |src| {
        assert HoldsAt(d, src, p);
        if p % DICT == |src| % DICT { SameSlot(p, |src|); }
      }
    }
  }

  lemma Forget(d: seq<byte>, src: seq<byte>, lo: nat, lo': nat)
    requires Holds(d, src, lo) && lo <= lo' <= |src|
    ensures Holds(d, src, lo')
  {
  }

  // ---- matches

  /** The len bytes at p repeat those dist before. */
  ghost predicate RealMatch(src: seq<byte>, p: nat, dist: nat, len: nat) {
    1 <= dist <= p && p + len <= |src| && forall i :: p <= i < p + len ==> src[i] == src[i - dist]
  }

  lemma MatchStays(src: seq<byte>, more: seq<byte>, p: nat, dist: nat, len: nat)
    requires RealMatch(src, p, dist, len)
    ensures RealMatch(src + more, p, dist, len)
  {
  }

  /** Copying a real match reproduces the source. */
  lemma {:induction false} CopyIsSource(src: seq<byte>, p: nat, dist: nat, len: nat)
    requires RealMatch(src, p, dist, len)
    ensures CopyBytes(src[..p], dist, len) == src[..p + len]
    decreases len
  {
    if len > 0 {
      assert src[..p] + [src[..p][p - dist]] == src[..p + 1];
      CopyIsSource(src, p + 1, dist, len - 1);
    }
  }
}
