/** m_lz_code_buf: literals and matches packed behind flag bytes, with the symbol counts kept beside. */
module LzBuffer {
  import opened Bytes
  import opened Bits
  import opened Tokens
  import opened Canonical
  import opened CodeLengthRle
  import opened HuffmanCodes

  const CODE_BUF: nat := 65536

  predicate Recordable(k: Token) {
    k.Match? ==> MIN_MATCH <= k.len <= MAX_MATCH && 1 <= k.dist <= WINDOW
  }

  predicate AllRecordable(ks: seq<Token>) {
    forall i :: 0 <= i < |ks| ==> Recordable(ks[i])
  }

  /** The bytes of one token. */
  function Payload(k: Token): (p: seq<byte>)
    requires Recordable(k)
    ensures |p| == if k.Literal? then 1 else 3
  {
    match k
    case Literal(b) => [b]
    case Match(len, dist) => [len - MIN_MATCH, (dist - 1) % 256, (dist - 1) / 256]
  }

  function Payloads(ks: seq<Token>): seq<byte>
    requires AllRecordable(ks)
  {
    if ks == [] then [] else Payload(ks[0]) + Payloads(ks[1..])
  }

  function Flags(ks: seq<Token>): (f: Bits)
    ensures |f| == |ks| && forall i :: 0 <= i < |ks| ==> f[i] == ks[i].Match?
  {
    seq(|ks|, i requires 0 <= i < |ks| => ks[i].Match?)
  }

  function FlagByte(ks: seq<Token>): byte
    requires |ks| <= 8
  {
    ValueBound(Flags(ks));
    SmallPowers();
    Pow2Monotone(|ks|, 8);
    ValueOf(Flags(ks))
  }

  /** Up to eight tokens behind their flag byte. */
  function Group(ks: seq<Token>): seq<byte>
    requires |ks| <= 8 && AllRecordable(ks)
  {
    [FlagByte(ks)] + Payloads(ks)
  }

  /** The finished buffer for a list of tokens. */
  function Codes(ks: seq<Token>): seq<byte>
    requires AllRecordable(ks)
  {
    if ks == [] then [] else if |ks| <= 8 then Group(ks) else Group(ks[..8]) + Codes(ks[8..])
  }

  lemma {:induction false} PayloadsSnoc(ks: seq<Token>, k: Token)
    requires AllRecordable(ks) && Recordable(k)
    ensures Payloads(ks + [k]) == Payloads(ks) + Payload(k)
  {
    hide Payload;
    if ks == [] {
      assert ks + [k] == [k] && [k][1..] == [];
    } else {
      PayloadsSnoc(ks[1..], k);
      assert (ks + [k])[1..] == ks[1..] + [k];
    }
  }

  /** Whole groups, then a last one. */
  lemma {:induction false} CodesGroup(ks: seq<Token>, g: seq<Token>)
    requires |ks| % 8 == 0 && 0 < |g| <= 8 && AllRecordable(ks) && AllRecordable(g)
    ensures Codes(ks + g) == Codes(ks) + Group(g)
    decreases |ks|
  {
    hide Group;
    var a := ks + g;
    if ks == [] {
      assert a == g;
    } else {
      assert a[..8] == ks[..8] && a[8..] == ks[8..] + g;
      CodesGroup(ks[8..], g);
      if |ks| == 8 {
        assert ks[8..] == [] && ks[..8] == ks;
      }
      assert Codes(a) == Group(ks[..8]) + (Codes(ks[8..]) + Group(g));
    }
  }

  lemma {:induction false} PayloadsLength(ks: seq<Token>)
    requires AllRecordable(ks)
    ensures |Payloads(ks)| >= |ks|
  {
    if ks != [] { PayloadsLength(ks[1..]); }
  }

  lemma {:induction false} CodesLength(ks: seq<Token>)
    requires AllRecordable(ks)
    ensures 8 * |Codes(ks)| >= 9 * |ks|
    decreases |ks|
  {
    if ks == [] {
    } else if |ks| <= 8 {
      PayloadsLength(ks);
    } else {
      PayloadsLength(ks[..8]);
      CodesLength(ks[8..]);
    }
  }

  // ---- counts

  /** The symbol of the literal and length alphabet that a token uses. */
  function LitUse(k: Token): (s: nat)
    requires Recordable(k)
    ensures s < 286 && s != 256
  {
    match k
    case Literal(b) => b
    case Match(len, _) => LengthAlphabet(len - MIN_MATCH); LenSym(len - MIN_MATCH)
  }

  function DistUse(k: Token): (s: nat)
    requires Recordable(k) && k.Match?
    ensures s < 30
  {
    DistanceAlphabet(k.dist - 1);
    DistSym(k.dist - 1)
  }

  function LitCounts(ks: seq<Token>): (c: seq<nat>)
    requires AllRecordable(ks)
    ensures |c| == 288
  {
    if ks == [] then Repeat(0, 288) else
      var c, u := LitCounts(ks[..|ks| - 1]), LitUse(ks[|ks| - 1]);
      c[u := c[u] + 1]
  }

  function DistCounts(ks: seq<Token>): (c: seq<nat>)
    requires AllRecordable(ks)
    ensures |c| == 32
  {
    if ks == [] then Repeat(0, 32) else
      var c, k := DistCounts(ks[..|ks| - 1]), ks[|ks| - 1];
      if k.Literal? then c else c[DistUse(k) := c[DistUse(k)] + 1]
  }

  lemma {:induction false} TotalUpdate(c: seq<nat>, i: nat, v: nat, n: nat)
    requires i < |c| && n <= |c|
    ensures CountTotal(c[i := v], n) == CountTotal(c, n) + if i < n then v - c[i] else 0
  {
    if n > 0 { TotalUpdate(c, i, v, n - 1); }
  }

  lemma {:induction false} TotalZero(k: nat, n: nat)
    requires n <= k
    ensures CountTotal(Repeat(0, k), n) == 0
  {
    if n > 0 { TotalZero(k, n - 1); }
  }

  /** Every symbol in use is counted, the unused end of the alphabet is not, and there is one count
      per token. */
  lemma {:induction false} LitCountsMean(ks: seq<Token>)
    requires AllRecordable(ks)
    ensures CountTotal(LitCounts(ks), 288) == |ks|
    ensures forall i :: 0 <= i < |ks| ==> LitCounts(ks)[LitUse(ks[i])] > 0
    ensures LitCounts(ks)[286] == 0 && LitCounts(ks)[287] == 0
  {
    hide LitUse, CountTotal;
    if ks == [] {
      TotalZero(288, 288);
    } else {
      var r := ks[..|ks| - 1];
      LitCountsMean(r);
      var u := LitUse(ks[|ks| - 1]);
      TotalUpdate(LitCounts(r), u, LitCounts(r)[u] + 1, 288);
      forall i | 0 <= i < |ks|
        ensures LitCounts(ks)[LitUse(ks[i])] > 0
      {
        if i < |r| { assert r[i] == ks[i]; }
      }
    }
  }

  lemma {:induction false} DistCountsMean(ks: seq<Token>)
    requires AllRecordable(ks)
    ensures CountTotal(DistCounts(ks), 32) <= |ks|
    ensures forall i :: 0 <= i < |ks| && ks[i].Match? ==> DistCounts(ks)[DistUse(ks[i])] > 0
    ensures DistCounts(ks)[30] == 0 && DistCounts(ks)[31] == 0
  {
    hide DistUse, CountTotal;
    if ks == [] {
      TotalZero(32, 32);
    } else {
      var r, k := ks[..|ks| - 1], ks[|ks| - 1];
      DistCountsMean(r);
      if k.Match? {
        TotalUpdate(DistCounts(r), DistUse(k), DistCounts(r)[DistUse(k)] + 1, 32);
      }
      forall i | 0 <= i < |ks| && ks[i].Match?
        ensures DistCounts(ks)[DistUse(ks[i])] > 0
      {
        if i < |r| { assert r[i] == ks[i]; }
      }
    }
  }

  function Produced(ks: seq<Token>): nat {
    if ks == [] then 0 else Produced(ks[..|ks| - 1]) + Produces(ks[|ks| - 1])
  }

  lemma {:induction false} ProducedConcat(a: seq<Token>, b: seq<Token>)
    ensures Produced(a + b) == Produced(a) + Produced(b)
    decreases |b|
  {
    if b == [] {
      assert a + b == a;
    } else {
      ProducedConcat(a, b[..|b| - 1]);
      assert (a + b)[..|a + b| - 1] == a + b[..|b| - 1];
    }
  }

  /** A token takes no more bytes than it stands for. */
  lemma {:induction false} PayloadsShort(ks: seq<Token>)
    requires AllRecordable(ks)
    ensures |ks| <= Produced(ks) && |Payloads(ks)| <= Produced(ks)
  {
    hide Payload;
    if ks != [] {
      PayloadsShort(ks[1..]);
      assert ks == [ks[0]] + ks[1..] && [ks[0]][..0] == [];
      ProducedConcat([ks[0]], ks[1..]);
      assert Recordable(ks[0]);
      PayloadShort(ks[0]);
    }
  }

  lemma PayloadShort(k: Token)
    requires Recordable(k)
    ensures |Payload(k)| <= Produces(k) && 1 <= Produces(k)
  {
  }

  /** The flag bytes besides. */
  lemma {:induction false} CodesShort(ks: seq<Token>)
    requires AllRecordable(ks)
    ensures 8 * |Codes(ks)| <= 9 * Produced(ks) + 7
    decreases |ks|
  {
    PayloadsShort(ks);
    if |ks| > 8 {
      PayloadsShort(ks[..8]);
      CodesShort(ks[8..]);
      assert ks == ks[..8] + ks[8..];
      ProducedConcat(ks[..8], ks[8..]);
    }
  }

  // ---- the flag byte under construction

  /** Shifting a flag byte and setting its high bit appends a flag. */
  lemma ShiftIn(b: byte, m: bool)
    ensures b / 2 + (if m then 128 else 0) < 256
    ensures BitsOf(b / 2 + (if m then 128 else 0), 8) == BitsOf(b, 8)[1..] + [m]
  {
    SmallPowers();
    hide Pow2;
    var rest := BitsOf(b, 8)[1..];
    assert rest == BitsOf(b / 2, 7);
    hide BitsOf;
    ValueOfBitsOf(b / 2, 7);
    ValueOfConcat(rest, [m]);
    assert ValueOf([m]) == Bit(m);
    BitsOfValueOf(rest + [m]);
  }

  /** The final shift drops what was in the byte before the first flag. */
  lemma ShiftOut(b: byte, flags: Bits)
    requires |flags| <= 8 && BitsOf(b, 8)[8 - |flags|..] == flags
    ensures b / Pow2(8 - |flags|) == ValueOf(flags)
  {
    SmallPowers();
    ValueOfBitsOf(b, 8);
    MaskAndShift(BitsOf(b, 8), 8 - |flags|);
  }

  /** What storing one more flag makes of the byte, and of the group when it is the eighth. */
  lemma OneMore(full: seq<Token>, part: seq<Token>, k: Token, b: byte, kept: seq<byte>, mid: seq<byte>, last: seq<byte>)
    requires AllRecordable(full) && AllRecordable(part) && Recordable(k) && |full| % 8 == 0 && |part| < 8
    requires kept == Codes(full) && mid == Payloads(part) && last == Payload(k)
    requires BitsOf(b, 8)[8 - |part|..] == Flags(part)
    ensures AllRecordable(part + [k]) && AllRecordable(full + (part + [k]))
    ensures var c := b / 2 + if k.Match? then 128 else 0;
            c < 256 && BitsOf(c, 8)[7 - |part|..] == Flags(part + [k])
            && (|part| == 7 ==> kept + [c] + (mid + last) == Codes(full + (part + [k])))
    ensures mid + last == Payloads(part + [k])
  {
    hide Codes, Payloads, BitsOf, Payload, Pow2, ValueOf, Flags, Recordable;
    var c, next := b / 2 + (if k.Match? then 128 else 0), part + [k];
    ShiftIn(b, k.Match?);
    PayloadsSnoc(part, k);
    FlagsSnoc(part, k);
    assert BitsOf(c, 8)[8 - |next|..] == BitsOf(b, 8)[8 - |part|..] + [k.Match?];
    if |part| == 7 {
      WholeGroup(full, next, c);
    }
  }

  lemma FlagsSnoc(part: seq<Token>, k: Token)
    ensures Flags(part + [k]) == Flags(part) + [k.Match?]
  {
  }

  lemma WholeGroup(full: seq<Token>, next: seq<Token>, c: byte)
    requires AllRecordable(full) && AllRecordable(next) && |full| % 8 == 0 && |next| == 8
    requires BitsOf(c, 8)[8 - |next|..] == Flags(next)
    ensures AllRecordable(full + next) && Codes(full) + [c] + Payloads(next) == Codes(full + next)
  {
    hide *;
    LastFlag(next, c);
    Both(full, next);
    CodesGroup(full, next);
    GroupIs(next);
    assert Codes(full) + [c] + Payloads(next) == Codes(full) + ([c] + Payloads(next));
  }

  lemma GroupIs(next: seq<Token>)
    requires |next| <= 8 && AllRecordable(next)
    ensures Group(next) == [FlagByte(next)] + Payloads(next)
  {
  }

  lemma Both(a: seq<Token>, b: seq<Token>)
    requires AllRecordable(a) && AllRecordable(b)
    ensures AllRecordable(a + b)
  {
  }

  lemma LastFlag(next: seq<Token>, c: byte)
    requires |next| == 8 && BitsOf(c, 8)[8 - |next|..] == Flags(next)
    ensures c == FlagByte(next)
  {
    hide BitsOf, ValueOf, Flags;
    ShiftOut(c, Flags(next));
    assert Pow2(0) == 1;
  }

  lemma NoPart(b: byte)
    ensures Payloads([]) == [] && BitsOf(b, 8)[8..] == Flags([])
  {
  }

  /** The used part b of the buffer: whole groups, a flag byte under construction, its tokens. */
  ghost predicate LaidOut(b: seq<byte>, flagsAt: nat, full: seq<Token>, part: seq<Token>) {
    && AllRecordable(full) && AllRecordable(part)
    && |full| % 8 == 0 && |part| < 8 && flagsAt < |b|
    && b[..flagsAt] == Codes(full) && b[flagsAt + 1..] == Payloads(part)
    && BitsOf(b[flagsAt], 8)[8 - |part|..] == Flags(part)
  }

  lemma LaidOutMore(b: seq<byte>, flagsAt: nat, full: seq<Token>, part: seq<Token>, k: Token, x: byte)
    requires LaidOut(b, flagsAt, full, part) && Recordable(k)
    ensures b[flagsAt] / 2 + (if k.Match? then 128 else 0) < 256
    ensures var r := (b + Payload(k))[flagsAt := b[flagsAt] / 2 + if k.Match? then 128 else 0];
            if |part| == 7 then LaidOut(r + [x], |r|, full + (part + [k]), [])
                else LaidOut(r, flagsAt, full, part + [k])
  {
    hide Codes, Payloads, BitsOf, Payload, Recordable, Flags;
    var next, c := part + [k], b[flagsAt] / 2 + if k.Match? then 128 else 0;
    OneMore(full, part, k, b[flagsAt], b[..flagsAt], b[flagsAt + 1..], Payload(k));
    var r := (b + Payload(k))[flagsAt := c];
    assert r[..flagsAt] == b[..flagsAt] && r[flagsAt + 1..] == b[flagsAt + 1..] + Payload(k);
    if |part| == 7 {
      assert r == b[..flagsAt] + [c] + (b[flagsAt + 1..] + Payload(k));
      assert (r + [x])[..|r|] == r && (r + [x])[|r| + 1..] == [];
      NoPart(x);
    }
  }

  class CodeBuffer {
    const buf: array<byte>
    var pos: nat
    var flagsAt: nat
    var flagsLeft: nat
    var totalBytes: nat
    var litCount: seq<nat>
    var distCount: seq<nat>
    /** The tokens of the whole groups, and those of the group being filled. */
    ghost var full: seq<Token>
    ghost var part: seq<Token>

    ghost function Tokens(): seq<Token>
      reads this`full, this`part
    {
      full + part
    }

    ghost predicate Bookkeeping()
      reads this`full, this`part, this`litCount, this`distCount, this`totalBytes
    {
      && AllRecordable(full + part)
      && litCount == LitCounts(full + part) && distCount == DistCounts(full + part)
      && totalBytes == Produced(full + part)
    }

    ghost predicate Layout()
      reads this`pos, this`flagsAt, this`flagsLeft, this`full, this`part, buf
    {
      pos <= buf.Length == CODE_BUF && flagsLeft == 8 - |part| && LaidOut(buf[..pos], flagsAt, full, part)
    }

    ghost predicate Holds()
      reads this, buf
    {
      Layout() && Bookkeeping()
    }

    /** A full buffer stands for many bytes. */
    lemma HoldsMuch()
      requires Holds()
      ensures 8 * pos <= 9 * totalBytes + 15
    {
      hide Codes, Payloads, BitsOf, Produced, LitCounts, DistCounts;
      CodesShort(full);
      PayloadsShort(part);
      ProducedConcat(full, part);
      assert buf[..pos][..flagsAt] == Codes(full) && buf[..pos][flagsAt + 1..] == Payloads(part);
    }

    constructor ()
      ensures Holds() && full == part == [] && fresh(buf) && pos == 1
    {
      buf := new byte[CODE_BUF](_ => 0);
      pos, flagsAt, flagsLeft, totalBytes := 1, 0, 8, 0;
      litCount, distCount := Repeat(0, 288), Repeat(0, 32);
      full, part := [], [];
    }

    /** Back to the empty buffer, whose first flag byte may hold anything. */
    method Reset()
      requires buf.Length == CODE_BUF
      modifies this
      ensures Holds() && full == part == [] && pos == 1 && totalBytes == 0
    {
      pos, flagsAt, flagsLeft, totalBytes := 1, 0, 8, 0;
      litCount, distCount := Repeat(0, 288), Repeat(0, 32);
      full, part := [], [];
    }

    /** The flag of a token whose bytes were just stored at at. */
    method PutFlag(m: bool, ghost k: Token, ghost at: nat)
      requires at <= pos < buf.Length == CODE_BUF && flagsLeft == 8 - |part| && Recordable(k) && k.Match? == m
      requires LaidOut(buf[..at], flagsAt, full, part) && buf[at..pos] == Payload(k)
      modifies this`pos, this`flagsAt, this`flagsLeft, this`full, this`part, buf
      ensures Layout() && Tokens() == old(Tokens()) + [k]
      ensures pos <= old(pos) + 1
    {
      hide LaidOut, Payload, Recordable;
      ghost var before, next := buf[..at], part + [k];
      LaidOutMore(before, flagsAt, full, part, k, buf[pos]);
      InFront(before, flagsAt, full, part);
      assert buf[..pos] == before + Payload(k);
      buf[flagsAt] := buf[flagsAt] / 2 + if m then 128 else 0;
      ghost var r := buf[..pos];
      flagsLeft := flagsLeft - 1;
      assert full + part + [k] == full + next;
      if flagsLeft == 0 {
        flagsLeft := 8;
        flagsAt := pos;
        pos := pos + 1;
        full, part := full + next, [];
        assert buf[..pos] == r + [buf[flagsAt]];
      } else {
        part := next;
      }
    }

    lemma InFront(b: seq<byte>, at: nat, full: seq<Token>, part: seq<Token>)
      requires LaidOut(b, at, full, part)
      ensures at < |b| && |part| < 8
    {
    }

    /** tdefl_record_literal */
    method RecordLiteral(lit: byte)
      requires Holds() && pos + 2 <= CODE_BUF
      modifies this, buf
      ensures Holds() && Tokens() == old(Tokens()) + [Literal(lit)] && pos <= old(pos) + 2
    {
      hide LaidOut, LitCounts, DistCounts, Produced;
      var k := Literal(lit);
      CountMore(full + part, k);
      totalBytes := totalBytes + 1;
      StorePayload(k);
      PutFlag(false, k, pos - 1);
      litCount := litCount[lit := litCount[lit] + 1];
    }

    /** The bytes of a token. */
    method StorePayload(k: Token)
      requires Recordable(k) && pos + |Payload(k)| < buf.Length
      modifies this`pos, buf
      ensures pos == old(pos) + |Payload(k)| && buf[..old(pos)] == old(buf[..pos]) && buf[old(pos)..pos] == Payload(k)
    {
      match k {
        case Literal(lit) =>
          buf[pos] := lit;
          pos := pos + 1;
        case Match(len, dist) =>
          buf[pos] := len - MIN_MATCH;
          buf[pos + 1] := (dist - 1) % 256;
          buf[pos + 2] := (dist - 1) / 256;
          pos := pos + 3;
      }
    }

    /** tdefl_record_match */
    method RecordMatch(len: nat, dist: nat)
      requires Holds() && pos + 4 <= CODE_BUF && Recordable(Match(len, dist))
      modifies this, buf
      ensures Holds() && Tokens() == old(Tokens()) + [Match(len, dist)] && pos <= old(pos) + 4
    {
      hide LaidOut, LitCounts, DistCounts, Produced, LenSym, DistSym, LenExtra, DistExtra;
      var k := Match(len, dist);
      CountMore(full + part, k);
      totalBytes := totalBytes + len;
      StorePayload(k);
      PutFlag(true, k, pos - 3);
      var s, l := DistUse(k), LitUse(k);
      distCount := distCount[s := distCount[s] + 1];
      litCount := litCount[l := litCount[l] + 1];
    }

    /** The first lines of tdefl_flush_block: completes the last group. */
    method Close() returns (end: nat)
      requires Holds()
      modifies buf
      ensures end <= CODE_BUF == buf.Length && buf[..end] == Codes(Tokens()) && Bookkeeping()
    {
      hide Codes, Payloads, BitsOf, Pow2, Bookkeeping, ValueOf, Flags;
      ghost var head, tail := buf[..flagsAt], buf[flagsAt + 1..pos];
      ShiftOut(buf[flagsAt], Flags(part));
      buf[flagsAt] := buf[flagsAt] / Pow2(flagsLeft);
      assert buf[..flagsAt] == head && buf[flagsAt + 1..pos] == tail;
      end := pos - if flagsLeft == 8 then 1 else 0;
      if part == [] {
        EmptyPart();
        assert full + part == full && |tail| == 0 && end == flagsAt;
      } else {
        assert buf[..end] == head + ([buf[flagsAt]] + tail);
        CodesGroup(full, part);
      }
    }

    lemma EmptyPart()
      ensures Payloads([]) == []
    {
    }
  }

  lemma CountMore(ks: seq<Token>, k: Token)
    requires AllRecordable(ks) && Recordable(k)
    ensures AllRecordable(ks + [k]) && Produced(ks + [k]) == Produced(ks) + Produces(k)
    ensures LitCounts(ks + [k]) == LitCounts(ks)[LitUse(k) := LitCounts(ks)[LitUse(k)] + 1]
    ensures DistCounts(ks + [k]) == if k.Literal? then DistCounts(ks)
            else DistCounts(ks)[DistUse(k) := DistCounts(ks)[DistUse(k)] + 1]
  {
    hide LitUse, DistUse;
    assert (ks + [k])[..|ks|] == ks;
  }
}
