/** What the parser keeps true: the recorded tokens expand to the source, but for one pending byte. */
module LazyParse {
  import opened Bytes
  import opened Tokens
  import opened Window
  import opened LzBuffer

  /** The tokens of the current block stand for the total bytes from dictPos on. */
  ghost predicate Emitted(src: seq<byte>, dictPos: nat, total: nat, ks: seq<Token>) {
    && dictPos + total <= |src| && ValidTokens(ks, dictPos)
    && Expand(src[..dictPos], ks) == src[..dictPos + total]
  }

  lemma NothingEmitted(src: seq<byte>, dictPos: nat)
    requires dictPos <= |src|
    ensures Emitted(src, dictPos, 0, [])
  {
  }

  lemma EmittedMore(src: seq<byte>, more: seq<byte>, dictPos: nat, total: nat, ks: seq<Token>)
    requires Emitted(src, dictPos, total, ks)
    ensures Emitted(src + more, dictPos, total, ks)
  {
    var s := src + more;
    assert s[..dictPos] == src[..dictPos] && s[..dictPos + total] == src[..dictPos + total];
  }

  lemma EmitLiteral(src: seq<byte>, dictPos: nat, total: nat, ks: seq<Token>, b: byte)
    requires Emitted(src, dictPos, total, ks) && dictPos + total < |src| && b == src[dictPos + total]
    ensures Emitted(src, dictPos, total + 1, ks + [Literal(b)])
  {
    hide Expand, ValidTokens;
    ExpandSnoc(src[..dictPos], ks, Literal(b));
    assert src[..dictPos + total] + [b] == src[..dictPos + total + 1];
  }

  lemma EmitMatch(src: seq<byte>, dictPos: nat, total: nat, ks: seq<Token>, len: nat, dist: nat)
    requires Emitted(src, dictPos, total, ks) && RealMatch(src, dictPos + total, dist, len)
    requires MIN_MATCH <= len <= MAX_MATCH && dist <= WINDOW
    ensures Emitted(src, dictPos, total + len, ks + [Match(len, dist)])
  {
    hide Expand, ValidTokens, CopyBytes, RealMatch;
    MatchInside(src, dictPos + total, dist, len);
    ExpandSnoc(src[..dictPos], ks, Match(len, dist));
    CopyIsSource(src, dictPos + total, dist, len);
    assert src[..dictPos + total + len] == src[..(dictPos + total) + len];
  }

  lemma MatchInside(src: seq<byte>, p: nat, dist: nat, len: nat)
    requires RealMatch(src, p, dist, len)
    ensures 1 <= dist <= p && p + len <= |src|
  {
  }

  /** m_saved_lit, m_saved_match_len and m_saved_match_dist; length 0 means that nothing is saved. */
  datatype Saved = Saved(lit: byte, len: nat, dist: nat)

  /** A saved match is a real one at the byte before pos. */
  ghost predicate SavedOk(src: seq<byte>, pos: nat, s: Saved) {
    s.len > 0 ==>
      && MIN_MATCH <= s.len < 128 && s.dist <= WINDOW && pos > 0 && pos <= |src|
      && RealMatch(src, pos - 1, s.dist, s.len) && s.lit == src[pos - 1]
  }

  lemma SavedMore(src: seq<byte>, more: seq<byte>, pos: nat, s: Saved)
    requires SavedOk(src, pos, s)
    ensures SavedOk(src + more, pos, s)
  {
    if s.len > 0 { MatchStays(src, more, pos - 1, s.dist, s.len); }
  }

  function Pending(s: Saved): nat {
    if s.len > 0 then 1 else 0
  }

  /** The state between two steps of the parser, at most one byte of which is pending. */
  ghost predicate Parsed(src: seq<byte>, dictPos: nat, total: nat, ks: seq<Token>, pos: nat, s: Saved) {
    Emitted(src, dictPos, total, ks) && SavedOk(src, pos, s) && dictPos + total + Pending(s) == pos
  }

  lemma ParsedMore(src: seq<byte>, more: seq<byte>, dictPos: nat, total: nat, ks: seq<Token>, pos: nat, s: Saved)
    requires Parsed(src, dictPos, total, ks, pos, s)
    ensures Parsed(src + more, dictPos, total, ks, pos, s)
  {
    hide Emitted, SavedOk;
    EmittedMore(src, more, dictPos, total, ks);
    SavedMore(src, more, pos, s);
  }

  /** What one step decides: tokens to record, the new saved match and how far to move. */
  datatype Decision = Decision(tokens: seq<Token>, saved: Saved, move: nat)

  /** The lazy and greedy parsing rules for the match found at the current byte c. */
  function Decide(s: Saved, c: byte, len: nat, dist: nat, eager: bool): Decision {
    if s.len > 0 then
      if len > s.len then
        if len >= 128 then Decision([Literal(s.lit), Match(len, dist)], s.(len := 0), len)
        else Decision([Literal(s.lit)], Saved(c, len, dist), 1)
      else Decision([Match(s.len, s.dist)], s.(len := 0), s.len - 1)
    else if dist == 0 then Decision([Literal(c)], s, 1)
    else if eager || len >= 128 then Decision([Match(len, dist)], s, len)
    else Decision([], Saved(c, len, dist), 1)
  }

  /** Lazy parsing: a short match is held back for one byte. If the next byte has a longer one, the byte goes
      out as a literal and the longer match is taken or held back itself; if not, the match is taken, and the
      two steps together move over it. */
  lemma LazyWaits(c: byte, len: nat, dist: nat, c': byte, len': nat, dist': nat, s: Saved, eager: bool)
    requires s.len == 0 && 1 <= len < 128 && dist > 0
    ensures var first := Decide(s, c, len, dist, false);
            var after := Decide(first.saved, c', len', dist', eager);
            && first.tokens == [] && first.move == 1
            && (len' <= len ==>
                  after.tokens == [Match(len, dist)] && first.move + after.move == len && Pending(after.saved) == 0)
            && (len' > len ==> after.tokens != [] && after.tokens[0] == Literal(c))
            && (len' > len && len' >= 128 ==>
                  after.tokens[1..] == [Match(len', dist')] && after.move == len' && Pending(after.saved) == 0)
            && (len < len' < 128 ==>
                  after.tokens[1..] == [] && after.move == 1 && after.saved == Saved(c', len', dist'))
  {
  }

  /** Without lazy parsing, and for long matches, what is found is recorded at once. */
  lemma EagerTakes(c: byte, len: nat, dist: nat, s: Saved, eager: bool)
    requires s.len == 0
    ensures var d := Decide(s, c, len, dist, eager);
            && (dist == 0 ==> d.tokens == [Literal(c)] && d.move == 1)
            && (dist > 0 && (eager || len >= 128) ==> d.tokens == [Match(len, dist)] && d.move == len)
            && (Pending(d.saved) == 1 ==> dist > 0 && !eager && len < 128)
  {
  }

  /** What the match at pos may be: nothing better than before, or a real match in the window. */
  ghost predicate Candidate(src: seq<byte>, pos: nat, s: Saved, len: nat, dist: nat) {
    || (dist == 0 && (s.len > 0 ==> len <= s.len))
    || (dist > 0 && MIN_MATCH <= len <= MAX_MATCH && dist <= WINDOW && RealMatch(src, pos, dist, len))
  }

  /** Every step keeps the parse faithful to the source. */
  lemma StepParses(src: seq<byte>, dictPos: nat, total: nat, ks: seq<Token>, pos: nat, s: Saved, len: nat, dist: nat,
      eager: bool)
    requires Parsed(src, dictPos, total, ks, pos, s) && pos < |src| && Candidate(src, pos, s, len, dist)
    ensures var d := Decide(s, src[pos], len, dist, eager);
            AllRecordable(d.tokens) && 1 <= d.move && pos + d.move <= |src|
            && Parsed(src, dictPos, total + Produced(d.tokens), ks + d.tokens, pos + d.move, d.saved)
  {
    hide Emitted, RealMatch;
    var d := Decide(s, src[pos], len, dist, eager);
    if s.len > 0 && len > s.len && len >= 128 {
      MatchInside(src, pos, dist, len);
      EmitLiteral(src, dictPos, total, ks, s.lit);
      EmitMatch(src, dictPos, total + 1, ks + [Literal(s.lit)], len, dist);
      assert (ks + [Literal(s.lit)]) + [Match(len, dist)] == ks + d.tokens;
      ProducedTwo(Literal(s.lit), Match(len, dist));
    } else if s.len > 0 && len > s.len {
      MatchInside(src, pos, dist, len);
      EmitLiteral(src, dictPos, total, ks, s.lit);
      ProducedOne(Literal(s.lit));
    } else if s.len > 0 {
      MatchInside(src, pos - 1, s.dist, s.len);
      EmitMatch(src, dictPos, total, ks, s.len, s.dist);
      ProducedOne(Match(s.len, s.dist));
    } else if dist == 0 {
      EmitLiteral(src, dictPos, total, ks, src[pos]);
      ProducedOne(Literal(src[pos]));
    } else if eager || len >= 128 {
      MatchInside(src, pos, dist, len);
      EmitMatch(src, dictPos, total, ks, len, dist);
      ProducedOne(Match(len, dist));
    } else {
      MatchInside(src, pos, dist, len);
      assert ks + [] == ks;
    }
  }

  /** A match that does not reach behind h is one in the source from h on. */
  lemma CandidateSince(src: seq<byte>, h: nat, pos: nat, s: Saved, len: nat, dist: nat)
    requires Candidate(src, pos, s, len, dist) && h <= pos <= |src| && dist + h <= pos
    ensures Candidate(src[h..], pos - h, s, len, dist)
  {
    if dist > 0 {
      var t := src[h..];
      forall i | pos - h <= i < pos - h + len
        ensures t[i] == t[i - dist]
      {
        assert src[i + h] == src[i + h - dist];
      }
    }
  }

  lemma CandidateNone(src: seq<byte>, h: nat, pos: nat, s: Saved, len: nat)
    requires Candidate(src, pos, s, len, 0) && h <= pos <= |src|
    ensures Candidate(src[h..], pos - h, s, len, 0)
  {
  }

  lemma ProducedOne(k: Token)
    ensures Produced([k]) == Produces(k)
  {
    assert [k][..0] == [];
  }

  lemma ProducedTwo(k: Token, l: Token)
    ensures Produced([k, l]) == Produces(k) + Produces(l)
  {
    assert [k, l][..1] == [k];
    ProducedOne(k);
  }
}
