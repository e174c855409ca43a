/** Leaving out the zero lengths at the end of a table changes neither its codes nor its quality. */
module Trimming {
  import opened Bits
  import opened Canonical
  import opened InflateTable
  import opened Tokens
  import opened Reference
  import opened BlockFormat

  ghost predicate ZeroFrom(lens: Lengths, n: nat) {
    n <= |lens| && forall i :: n <= i < |lens| ==> lens[i] == 0
  }

  function Smaller(a: nat, b: nat): nat {
    if a < b then a else b
  }

  lemma {:induction false} BelowTrim(lens: Lengths, n: nat, l: nat, i: nat, m: nat)
    requires ZeroFrom(lens, n) && m <= |lens|
    ensures Below(lens, l, i, m) == Below(lens[..n], l, i, Smaller(m, n))
  {
    if m > 0 { BelowTrim(lens, n, l, i, m - 1); }
  }

  lemma {:induction false} CountTrim(lens: Lengths, n: nat, l: nat, m: nat)
    requires ZeroFrom(lens, n) && m <= |lens| && l > 0
    ensures Count(lens, l, m) == Count(lens[..n], l, Smaller(m, n))
  {
    if m > 0 { CountTrim(lens, n, l, m - 1); }
  }

  lemma {:induction false} FirstCodeTrim(lens: Lengths, n: nat, l: nat)
    requires ZeroFrom(lens, n)
    ensures FirstCode(lens, l) == FirstCode(lens[..n], l)
  {
    hide Count;
    if l > 1 {
      FirstCodeTrim(lens, n, l - 1);
      CountTrim(lens, n, l - 1, |lens|);
    }
  }

  lemma CodeTrim(lens: Lengths, n: nat, i: nat)
    requires ZeroFrom(lens, n) && i < n && lens[i] > 0
    ensures Code(lens, i) == Code(lens[..n], i)
  {
    hide Count, FirstCode;
    FirstCodeTrim(lens, n, lens[i]);
    CountTrim(lens, n, lens[i], i);
  }

  lemma AcceptedTrim(lens: Lengths, n: nat)
    requires ZeroFrom(lens, n) && Accepted(lens)
    ensures Accepted(lens[..n]) && (Feasible(lens) ==> Feasible(lens[..n]))
  {
    hide Pow2, Below;
    BelowTrim(lens, n, MAX_LEN + 1, 0, |lens|);
  }

  lemma TokenTrim(t: Tables, nlit: nat, ndist: nat, k: Token)
    requires ZeroFrom(t.lit, nlit) && ZeroFrom(t.dist, ndist) && Codable(t, k)
    ensures var u := Tables(t.lit[..nlit], t.dist[..ndist]); Codable(u, k) && TokenBits(u, k) == TokenBits(t, k)
  {
    hide Code, Low, LenSym, DistSym, LenExtra, DistExtra;
    match k
    case Literal(b) =>
      CodeTrim(t.lit, nlit, b);
    case Match(len, dist) =>
      CodeTrim(t.lit, nlit, LenSym(len - MIN_MATCH));
      CodeTrim(t.dist, ndist, DistSym(dist - 1));
  }

  lemma {:induction false} TokensTrim(t: Tables, nlit: nat, ndist: nat, ks: seq<Token>)
    requires ZeroFrom(t.lit, nlit) && ZeroFrom(t.dist, ndist) && AllCodable(t, ks)
    ensures var u := Tables(t.lit[..nlit], t.dist[..ndist]); AllCodable(u, ks) && TokensBits(u, ks) == TokensBits(t, ks)
  {
    hide TokenBits, Codable, ZeroFrom;
    if ks != [] {
      TokensTrim(t, nlit, ndist, ks[..|ks| - 1]);
      TokenTrim(t, nlit, ndist, ks[|ks| - 1]);
      var u := Tables(TrimmedLens(t.lit, nlit), TrimmedLens(t.dist, ndist));
      forall i | 0 <= i < |ks|
        ensures Codable(u, ks[i])
      {
        if i < |ks| - 1 { assert ks[..|ks| - 1][i] == ks[i]; }
      }
    }
  }

  function TrimmedLens(lens: Lengths, n: nat): Lengths
    requires ZeroFrom(lens, n)
  {
    lens[..n]
  }

  lemma BodyTrim(t: Tables, nlit: nat, ndist: nat, ks: seq<Token>)
    requires ZeroFrom(t.lit, nlit) && ZeroFrom(t.dist, ndist) && AllCodable(t, ks)
    requires nlit > 256 && t.lit[256] > 0
    ensures var u := Tables(t.lit[..nlit], t.dist[..ndist]);
            AllCodable(u, ks) && u.lit[256] > 0 && BodyBits(u, ks) == BodyBits(t, ks)
  {
    hide Code, TokensBits;
    TokensTrim(t, nlit, ndist, ks);
    CodeTrim(t.lit, nlit, 256);
  }
}
