/** The dictionary part of tdefl_compressor: look-ahead, hash chains and the choice of a match. */
module Dictionary {
  import opened Bytes
  import opened Tokens
  import opened Window
  import opened LazyParse
  import opened HashChains
  import opened MatchFinder

  /** The compressor flags that decide how the input is parsed and written; probes are m_max_probes. */
  datatype Options = Options(zlib: bool, level: nat, greedy: bool, rle: bool, filter: bool, fixed: bool, raw: bool,
      probes: (nat, nat))

  predicate OptionsOk(o: Options) {
    o.probes.0 > 0 && o.probes.1 > 0
  }

  function Least(a: int, b: int): int {
    if a < b then a else b
  }

  function Most(a: int, b: int): int {
    if a > b then a else b
  }

  class Dict {
    const dict: array<byte>
    const next: array<nat>
    const hash: array<nat>
    var lookaheadPos: nat
    var lookaheadSize: nat
    var dictSize: nat
    /** Everything taken from the input so far. */
    ghost var src: seq<byte>
    /** The hash chains hold the positions from here on. */
    ghost var origin: nat

    ghost predicate Shape()
      reads {}
    {
      dict.Length == DICT + MIRROR && next.Length == DICT && hash.Length == HASH_SIZE && next != hash
    }

    ghost predicate Positions()
      reads this
    {
      && dictSize <= lookaheadPos && lookaheadPos + lookaheadSize == |src|
      && dictSize + lookaheadSize <= DICT && lookaheadSize <= MAX_MATCH
    }

    ghost predicate Valid()
      reads this, dict
    {
      Shape() && Positions() && Holds(dict[..], src, lookaheadPos - dictSize)
    }

    /** Every position with two more bytes behind it has been entered into the hash chains. The dictionary
        reaches back to the first of them, or almost as far as there is room. */
    ghost predicate Chains()
      reads this, next, hash
    {
      && Shape() && origin <= |src| && origin + dictSize <= lookaheadPos
      && (origin + dictSize == lookaheadPos || dictSize + MAX_MATCH >= DICT)
      && Chained(hash[..], next[..], src, origin, Most(origin, |src| - 2))
    }

    constructor ()
      ensures Valid() && Chains() && src == [] && origin == 0 && lookaheadPos == 0 && lookaheadSize == 0
      ensures fresh(dict) && fresh(next) && fresh(hash)
    {
      dict := new byte[DICT + MIRROR](_ => 0);
      next := new nat[DICT](_ => 0);
      hash := new nat[HASH_SIZE](_ => 0);
      lookaheadPos, lookaheadSize, dictSize := 0, 0, 0;
      src, origin := [], 0;
    }

    /** Full flush: later matches do not reach back. */
    method Forget()
      requires Valid() && lookaheadSize == 0
      modifies this`dictSize, this`origin, next, hash
      ensures Valid() && dictSize == 0 && Chains() && origin == |src|
    {
      forall i | 0 <= i < next.Length { next[i] := 0; }
      forall i | 0 <= i < hash.Length { hash[i] := 0; }
      dictSize := 0;
      origin := |src|;
    }

    /** While the look-ahead is filled: the ring holds the dictionary but for what has been overwritten. */
    ghost predicate Kept()
      reads this`src, this`lookaheadPos, this`dictSize, dict
    {
      && Shape() && dictSize <= lookaheadPos <= |src| <= lookaheadPos + DICT
      && Holds(dict[..], src, Most(lookaheadPos - dictSize, |src| - DICT))
    }

    /** The positions before ready are in the hash chains. */
    ghost predicate Enrolled(ready: nat)
      reads this`src, this`origin, next, hash
    {
      Chained(hash[..], next[..], src, origin, ready)
    }

    /** Stores the next byte, twice if it belongs to the mirrored part. */
    method StoreByte(c: byte, dstPos: nat, ghost ready: nat)
      requires Kept() && |src| < lookaheadPos + DICT && dstPos == |src| % DICT && Enrolled(ready)
      modifies this`src, dict
      ensures src == old(src) + [c] && Kept() && Enrolled(ready)
    {
      hide Holds, Chained;
      ghost var before, s := dict[..], src;
      ChainedMore(hash[..], next[..], src, [c], origin, ready);
      dict[dstPos] := c;
      if dstPos < MIRROR {
        dict[DICT + dstPos] := c;
      }
      src := src + [c];
      ghost var lo := Most(lookaheadPos - dictSize, |s| - DICT);
      Store(before, dict[..], s, lo, c);
      ghost var lo' := Most(lookaheadPos - dictSize, |src| - DICT);
      assert lo <= lo' <= |s| + 1 <= lo' + DICT;
    }

    /** Enters a position into the hash chains. */
    method Insert(insPos: nat, h: bv15)
      requires Shape() && Enrolled(insPos) && insPos + 2 < |src| && Index(h) == Hash(src, insPos)
      modifies next, hash
      ensures Enrolled(insPos + 1)
    {
      hide Chained, Hash, Index;
      Entered(hash[..], next[..], src, origin, insPos);
      ghost var hash', next' := hash[..][Index(h) := insPos % 65536], next[..][insPos % DICT := hash[Index(h)]];
      next[insPos % DICT] := hash[Index(h)];
      hash[Index(h)] := insPos % 65536;
      assert hash[..] == hash' && next[..] == next';
    }

    /** h is a hash but for the bits that the next step shifts out: that of the last two bytes. */
    ghost predicate Begun(h: bv15, p: nat)
      reads this`src
    {
      p + 2 == |src| && Alike(h, Hash2(src[p], src[p + 1]))
    }

    /** Stores a byte and enters the position two bytes before it. */
    method AddByte(c: byte, dstPos: nat, insPos: nat, h: bv15) returns (h': bv15)
      requires Kept() && |src| < lookaheadPos + DICT && dstPos == |src| % DICT
      requires Begun(h, insPos) && Enrolled(insPos)
      modifies this`src, dict, next, hash
      ensures src == old(src) + [c] && Kept() && Begun(h', insPos + 1) && Enrolled(insPos + 1)
    {
      hide Holds, Enrolled, HashStep, Hash2, Hash3, Index, Alike, Kept;
      Rolling(h, src[insPos], src[insPos + 1], c);
      KeptShape();
      StoreByte(c, dstPos, insPos);
      KeptShape();
      h' := HashStep(h, c);
      Insert(insPos, h');
    }

    lemma KeptShape()
      requires Kept()
      ensures Shape() && lookaheadPos <= |src|
    {
      hide Holds;
    }

    /** Reads on until the look-ahead is full, when at least two bytes are known. */
    method FillFast(input: array<byte>, srcPos: nat) returns (n: nat)
      requires Valid() && Chains() && lookaheadSize + dictSize >= 2 && srcPos <= input.Length && input != dict
      modifies this`src, this`lookaheadSize, dict, next, hash
      ensures n == Least(input.Length - srcPos, MAX_MATCH - old(lookaheadSize))
              && lookaheadSize == old(lookaheadSize) + n
      ensures src == old(src) + input[srcPos..srcPos + n] && input[..] == old(input[..])
      ensures Kept() && Enrolled(Most(origin, |src| - 2))
    {
      hide Holds, Chains, Begun, Kept, Enrolled, Hash2;
      var dstPos: nat, insPos: nat := (lookaheadPos + lookaheadSize) % DICT, lookaheadPos + lookaheadSize - 2;
      var h := Hash2(dict[insPos % DICT], dict[(insPos + 1) % DICT]);
      StartFast(h);
      n := Least(input.Length - srcPos, MAX_MATCH - lookaheadSize);
      lookaheadSize := lookaheadSize + n;
      ghost var s := src;
      var i := 0;
      while i < n
        invariant 0 <= i <= n && src == s + input[srcPos..srcPos + i] && input[..] == old(input[..])
        invariant dstPos == |src| % DICT && insPos == |src| - 2 && Begun(h, insPos)
                  && lookaheadSize == old(lookaheadSize) + n
        invariant Kept() && Enrolled(insPos)
      {
        var c := input[srcPos + i];
        assert input[srcPos..srcPos + i] + [c] == input[srcPos..srcPos + i + 1];
        h := AddByte(c, dstPos, insPos, h);
        NextSlot(|s| + i);
        dstPos := (dstPos + 1) % DICT;
        insPos := insPos + 1;
        i := i + 1;
      }
    }

    lemma StartFast(h: bv15)
      requires Valid() && Chains() && lookaheadSize + dictSize >= 2
      requires var p: nat := |src| - 2; h == Hash2(dict[p % DICT], dict[(p + 1) % DICT])
      ensures Kept() && Enrolled(|src| - 2) && Begun(h, |src| - 2) && origin <= |src| - 2
    {
      hide Holds, Chained, HashStep, Hash2, Index;
      ByteAt(|src| - 2);
      ByteAt(|src| - 1);
    }

    lemma NextSlot(p: nat)
      ensures (p % DICT + 1) % DICT == (p + 1) % DICT
    {
    }

    /** The same at the start of the data, where hashing begins with the third byte. */
    method FillSlow(input: array<byte>, srcPos: nat) returns (n: nat)
      requires Valid() && Chains() && lookaheadSize + dictSize < 2 && srcPos <= input.Length && input != dict
      modifies this`src, this`lookaheadSize, dict, next, hash
      ensures n == Least(input.Length - srcPos, MAX_MATCH - old(lookaheadSize))
              && lookaheadSize == old(lookaheadSize) + n
      ensures src == old(src) + input[srcPos..srcPos + n] && input[..] == old(input[..])
      ensures Kept() && Enrolled(Most(origin, |src| - 2))
    {
      hide Holds, Chained, Kept, Enrolled;
      ghost var s, size := src, lookaheadSize;
      n := 0;
      StartSlow();
      while srcPos + n < input.Length && lookaheadSize < MAX_MATCH
        invariant 0 <= n <= input.Length - srcPos && lookaheadSize == size + n <= MAX_MATCH
        invariant src == s + input[srcPos..srcPos + n] && input[..] == old(input[..])
        invariant origin + dictSize == lookaheadPos && lookaheadPos + lookaheadSize == |src|
        invariant Kept() && Enrolled(Most(origin, |src| - 2))
        decreases input.Length - n
      {
        var c := input[srcPos + n];
        assert input[srcPos..srcPos + n] + [c] == input[srcPos..srcPos + n + 1];
        n := n + 1;
        StoreByte(c, (lookaheadPos + lookaheadSize) % DICT, Most(origin, |src| - 2));
        lookaheadSize := lookaheadSize + 1;
        EnterThird(c);
      }
    }

    lemma StartSlow()
      requires Valid() && Chains()
      ensures Kept() && Enrolled(Most(origin, |src| - 2))
      ensures lookaheadSize + dictSize < 2 ==> origin + dictSize == lookaheadPos
    {
      hide Holds, Chained;
    }

    /** Enters the position two bytes before the byte just stored, if there is one. */
    method EnterThird(c: byte)
      requires Kept() && lookaheadPos + lookaheadSize == |src| && lookaheadSize > 0 && src[|src| - 1] == c
      requires origin + dictSize == lookaheadPos && Enrolled(Most(origin, |src| - 3)) && lookaheadSize <= MAX_MATCH
      modifies next, hash
      ensures Kept() && Enrolled(Most(origin, |src| - 2))
    {
      hide Holds, Chained, HashStep, Hash2, Index;
      if lookaheadSize + dictSize >= MIN_MATCH {
        var insPos: nat := lookaheadPos + (lookaheadSize - 1) - 2;
        Recent(insPos);
        Recent(insPos + 1);
        var h := HashStep(Hash2(dict[insPos % DICT], dict[(insPos + 1) % DICT]), c);
        Insert(insPos, h);
      }
    }

    lemma Recent(p: nat)
      requires Kept() && lookaheadPos - dictSize <= p < |src| && |src| <= p + DICT
      ensures dict[p % DICT] == src[p]
    {
      hide Holds;
      ReadThrough(dict[..], src, Most(lookaheadPos - dictSize, |src| - DICT), p, 0);
    }

    /** Fills the look-ahead; the dictionary gives up what was overwritten. */
    method Fill(input: array<byte>, srcPos: nat) returns (n: nat)
      requires Valid() && Chains() && srcPos <= input.Length && input != dict
      modifies this`src, this`lookaheadSize, this`dictSize, dict, next, hash
      ensures Valid() && Chains() && n == Least(input.Length - srcPos, MAX_MATCH - old(lookaheadSize))
              && lookaheadSize == old(lookaheadSize) + n
      ensures src == old(src) + input[srcPos..srcPos + n] && input[..] == old(input[..])
      ensures dictSize == Least(DICT - lookaheadSize, old(dictSize))
    {
      hide Holds, Chained;
      if lookaheadSize + dictSize >= MIN_MATCH - 1 {
        n := FillFast(input, srcPos);
      } else {
        n := FillSlow(input, srcPos);
      }
      dictSize := Least(DICT - lookaheadSize, dictSize);
    }

    /** Steps over n bytes. */
    method Move(n: nat)
      requires Valid() && n <= lookaheadSize
      modifies this`lookaheadPos, this`lookaheadSize, this`dictSize
      ensures Valid() && (old(Chains()) ==> Chains())
      ensures lookaheadPos == old(lookaheadPos) + n && lookaheadSize == old(lookaheadSize) - n
      ensures dictSize == Least(old(dictSize) + n, DICT) <= old(dictSize) + n
    {
      hide Chained;
      ghost var lo := lookaheadPos - dictSize;
      lookaheadPos := lookaheadPos + n;
      lookaheadSize := lookaheadSize - n;
      dictSize := Least(dictSize + n, DICT);
      Window.Forget(dict[..], src, lo, lookaheadPos - dictSize);
    }

    /** A byte of the look-ahead or of the dictionary. */
    lemma ByteAt(p: nat)
      requires Valid() && lookaheadPos - dictSize <= p < |src|
      ensures dict[p % DICT] == src[p]
    {
      ReadThrough(dict[..], src, lookaheadPos - dictSize, p, 0);
    }

    /** Run-length matches: only distance 1 is tried. */
    method RunMatch() returns (len: nat, dist: nat)
      requires Valid() && dictSize > 0
      ensures LongestRun(src, lookaheadPos, len, dist) && len <= lookaheadSize
    {
      hide Holds;
      var curPos := lookaheadPos % DICT;
      var c := dict[(curPos - 1) % DICT];
      Before(lookaheadPos);
      ByteAt(lookaheadPos - 1);
      len := 0;
      while len < lookaheadSize
        invariant len <= lookaheadSize && forall i :: lookaheadPos <= i < lookaheadPos + len ==> src[i] == c
      {
        ReadThrough(dict[..], src, lookaheadPos - dictSize, lookaheadPos, len);
        if dict[curPos + len] != c {
          break;
        }
        len := len + 1;
      }
      RunIsMatch(src, lookaheadPos, len, c);
      RunEnds(src, lookaheadPos, len);
      if len < MIN_MATCH {
        len, dist := 0, 0;
      } else {
        dist := 1;
      }
    }

    lemma Before(p: nat)
      requires p > 0
      ensures (p % DICT - 1) % DICT == (p - 1) % DICT
    {
    }

    /** The match for the current byte, and the cases in which it is not worth taking. */
    method ChooseMatch(o: Options, saved: Saved)
      returns (len: nat, dist: nat, ghost foundLen: nat, ghost foundDist: nat)
      requires Valid() && Chains() && OptionsOk(o) && lookaheadSize > 0
      requires saved.len > 0 ==> MIN_MATCH <= saved.len < 128
      ensures Candidate(src, lookaheadPos, saved, len, dist) && len <= Most(lookaheadSize, Most(saved.len, 2))
      ensures dist > 0 ==> len <= lookaheadSize && dist <= dictSize
      ensures Searched(o, src, origin, lookaheadPos, dictSize, saved, foundLen, foundDist)
      ensures (len, dist) == if Worthless(o, lookaheadPos, foundLen, foundDist) then (0, 0) else (foundLen, foundDist)
    {
      hide Holds, RealMatch, Chained, Linked, Best;
      len, dist := if saved.len > 0 then saved.len else MIN_MATCH - 1, 0;
      var curPos := lookaheadPos % DICT;
      if o.rle || o.raw {
        if dictSize > 0 && !o.raw {
          len, dist := RunMatch();
        }
      } else {
        var probes := if len >= 32 then o.probes.1 else o.probes.0;
        if lookaheadSize > 2 { LinksThere(probes - 1); }
        dist, len := FindMatch(dict, next, lookaheadPos, dictSize, lookaheadSize, probes, len, src, origin);
      }
      foundLen, foundDist := len, dist;
      if (len == MIN_MATCH && dist >= 8 * 1024) || curPos == dist || (o.filter && len <= 5) {
        len, dist := 0, 0;
      }
    }

    /** The links of the whole dictionary are kept. */
    lemma LinksThere(probes: nat)
      requires Valid() && Chains() && lookaheadSize > 2
      ensures Linked(next[..], Quest(src, origin, lookaheadPos, dictSize, probes))
    {
      hide Holds;
    }
  }

  /** The longest run of the byte before p, if it has three bytes or more. */
  ghost predicate LongestRun(src: seq<byte>, p: nat, len: nat, dist: nat) {
    if dist == 0 then len == 0 && !RealMatch(src, p, 1, MIN_MATCH)
    else dist == 1 && len >= MIN_MATCH && RealMatch(src, p, 1, len) && !RealMatch(src, p, 1, len + 1)
  }

  /** What is found at p with the source from lo on in the hash chains: with run lengths only the longest
      run, with raw blocks only nothing, and otherwise the best match longer than a saved one. */
  ghost predicate Searched(o: Options, src: seq<byte>, lo: nat, p: nat, maxDist: nat, saved: Saved, len: nat,
      dist: nat)
    requires OptionsOk(o)
  {
    var start: nat := if saved.len > 0 then saved.len else MIN_MATCH - 1;
    if o.raw || (o.rle && maxDist == 0) then len == start && dist == 0
    else if o.rle then LongestRun(src, p, len, dist)
    else
      && Best(src, lo, p, maxDist, (if start >= 32 then o.probes.1 else o.probes.0) - 1, len, dist)
      && (if dist == 0 then len == start else len > start && dist <= maxDist && RealMatch(src, p, dist, len))
  }

  /** Short matches far away, or at a distance that is the place in the ring, or short ones when filtering. */
  predicate Worthless(o: Options, p: nat, len: nat, dist: nat) {
    (len == MIN_MATCH && dist >= 8192) || dist == p % DICT || (o.filter && len <= 5)
  }

  /** The step of the parser when this has been found at p. */
  function Chosen(o: Options, c: byte, p: nat, saved: Saved, len: nat, dist: nat): Decision {
    var eager := o.greedy || o.rle;
    if Worthless(o, p, len, dist) then Decide(saved, c, 0, 0, eager) else Decide(saved, c, len, dist, eager)
  }

  /** A run of one byte is a match at distance 1. */
  lemma RunIsMatch(src: seq<byte>, p: nat, len: nat, c: byte)
    requires 1 <= p && p + len <= |src| && src[p - 1] == c && forall i :: p <= i < p + len ==> src[i] == c
    ensures RealMatch(src, p, 1, len)
  {
  }

  /** A run that has ended is not a longer match at distance 1. */
  lemma RunEnds(src: seq<byte>, p: nat, len: nat)
    requires 1 <= p && RealMatch(src, p, 1, len) && (p + len < |src| ==> src[p + len] != src[p - 1])
    ensures !RealMatch(src, p, 1, len + 1)
    ensures len < MIN_MATCH ==> !RealMatch(src, p, 1, MIN_MATCH)
  {
    RunSame(src, p, len);
  }

  lemma {:induction false} RunSame(src: seq<byte>, p: nat, len: nat)
    requires RealMatch(src, p, 1, len)
    ensures len > 0 ==> src[p + len - 1] == src[p - 1]
    decreases len
  {
    if len > 0 {
      RunSame(src, p, len - 1);
      assert src[p + len - 1] == src[p + len - 2];
    }
  }
}
