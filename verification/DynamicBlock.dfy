/** Dynamic blocks: the header that transmits the code lengths (section 3.2.7 of RFC 1951). */
module DynamicBlock {
  import opened Bytes
  import opened Bits
  import opened Canonical
  import opened InflateTable
  import opened Tokens
  import opened Reference
  import opened CodeLengthRle
  import opened BlockFormat
  import opened BlockHeaders

  // ---- lengths of the code-length code

  /** Position of a code-length symbol in the sending order. */
  const RANK: seq<nat> := [3, 17, 15, 13, 11, 9, 7, 5, 4, 6, 8, 10, 12, 14, 16, 18, 0, 1, 2]

  lemma OrderRank(i: nat)
    requires i < 19
    ensures |ORDER| == |RANK| == 19 && ORDER[i] < 19 && RANK[i] < 19 && RANK[ORDER[i]] == i && ORDER[RANK[i]] == i
  {
  }

  lemma {:induction false} UnzigzagAt(got: seq<nat>, n: nat, j: nat)
    requires n <= |got| && n <= 19 && j < 19
    ensures Unzigzag(got, n)[j] == if RANK[j] < n then got[RANK[j]] else 0
  {
    hide RANK, ORDER;
    if n > 0 {
      UnzigzagAt(got, n - 1, j);
      OrderRank(n - 1);
      OrderRank(j);
    } else {
      OrderRank(j);
    }
  }

  /** The first n lengths in sending order. */
  function Sent(lens: seq<nat>, n: nat): (got: seq<nat>)
    requires |lens| == 19 && n <= 19
    ensures |got| == n
    ensures forall i :: 0 <= i < n ==> ORDER[i] < 19 && got[i] == lens[ORDER[i]]
  {
    seq(n, i requires 0 <= i < n => (OrderInRange(i); lens[ORDER[i]]))
  }

  /** What is sent at place k is the length of the symbol Place(k). */
  lemma SentPlaced(lens: seq<nat>, n: nat)
    requires |lens| == 19 && n <= 19
    ensures forall k :: 0 <= k < n ==> Sent(lens, n)[k] == lens[Place(k)]
  {
    hide Place, ORDER;
    OrderPlaces();
  }

  lemma OrderPlaces()
    ensures |ORDER| == 19 && forall i :: 0 <= i < 19 ==> ORDER[i] == Place(i)
  {
  }

  /** Number k of those received is the length of the symbol at place k, and the others have none. */
  lemma UnzigzagPlaced(got: seq<nat>, n: nat)
    requires n <= |got| && n <= 19
    ensures forall k :: 0 <= k < n ==> Unzigzag(got, n)[Place(k)] == got[k]
    ensures forall j :: 0 <= j < 19 && (forall k :: 0 <= k < n ==> Place(k) != j) ==> Unzigzag(got, n)[j] == 0
  {
    hide RANK, ORDER, Unzigzag, Place;
    OrderPlaces();
    forall k | 0 <= k < n
      ensures Unzigzag(got, n)[Place(k)] == got[k]
    {
      OrderRank(k);
      UnzigzagAt(got, n, Place(k));
    }
    forall j | 0 <= j < 19 && (forall k :: 0 <= k < n ==> Place(k) != j)
      ensures Unzigzag(got, n)[j] == 0
    {
      OrderRank(j);
      UnzigzagAt(got, n, j);
    }
  }

  // ---- what three-bit numbers of a header say

  /** The n numbers of three bits from this position on. */
  ghost function Triples(bits: Bits, pos: nat, n: nat): (v: seq<nat>)
    requires pos + 3 * n <= |bits|
    ensures |v| == n && forall k :: 0 <= k < n ==> v[k] == ValueOf(bits[pos + 3 * k..pos + 3 * k + 3])
  {
    if n == 0 then [] else Triples(bits, pos, n - 1) + [ValueOf(bits[pos + 3 * (n - 1)..pos + 3 * (n - 1) + 3])]
  }

  lemma {:induction false} ReceiveTriples(cfg: Config, bits: Bits, s: State, n: nat)
    requires s.pc.LenLens? && s.pc.got == [] && n < s.pc.nlen <= 19 && s.pos + 3 * s.pc.nlen <= |bits|
    ensures Reaches(cfg, bits, s,
            s.(pc := LenLens(s.pc.fin, s.pc.nlit, s.pc.ndist, s.pc.nlen, Triples(bits, s.pos, n)),
            pos := s.pos + 3 * n))
  {
    hide Reaches, ORDER, ValueOf, Unzigzag, Accepted;
    if n == 0 {
      ReachesSelf(cfg, bits, s);
    } else {
      ReceiveTriples(cfg, bits, s, n - 1);
      var s1 := s.(pc := LenLens(s.pc.fin, s.pc.nlit, s.pc.ndist, s.pc.nlen, Triples(bits, s.pos, n - 1)),
          pos := s.pos + 3 * (n - 1));
      var s2 := s.(pc := LenLens(s.pc.fin, s.pc.nlit, s.pc.ndist, s.pc.nlen, Triples(bits, s.pos, n)),
          pos := s.pos + 3 * n);
      assert GetBits(bits, s1.pos, 3) == Some(Triples(bits, s.pos, n)[n - 1]);
      ReachesStep(cfg, bits, s1, s2);
      ReachesTrans(cfg, bits, s, s1, s2);
    }
  }

  /** A header gives symbol Place(k) of the code-length code the k-th number of three bits as its length, and
      no length to the symbols not sent. */
  lemma LengthsReceived(cfg: Config, bits: Bits, s: State) returns (lens: seq<nat>)
    requires s.pc.LenLens? && s.pc.got == [] && 4 <= s.pc.nlen <= 19 && s.pos + 3 * s.pc.nlen <= |bits|
    ensures |lens| == 19
    ensures forall k :: 0 <= k < s.pc.nlen ==> lens[Place(k)] == ValueOf(bits[s.pos + 3 * k..s.pos + 3 * k + 3])
    ensures forall j :: 0 <= j < 19 && (forall k :: 0 <= k < s.pc.nlen ==> Place(k) != j) ==> lens[j] == 0
    ensures var pc := if Accepted(lens) then LenCodes(s.pc.fin, s.pc.nlit, s.pc.ndist, lens, []) else Failed;
            Reaches(cfg, bits, s, s.(pc := pc, pos := s.pos + 3 * s.pc.nlen))
  {
    hide Reaches, ORDER, ValueOf, Unzigzag, Accepted, Place;
    var n := s.pc.nlen;
    var got := Triples(bits, s.pos, n);
    lens := Unzigzag(got, n);
    UnzigzagPlaced(got, n);
    ReceiveTriples(cfg, bits, s, n - 1);
    var s1 := s.(pc := LenLens(s.pc.fin, s.pc.nlit, s.pc.ndist, s.pc.nlen, Triples(bits, s.pos, n - 1)),
        pos := s.pos + 3 * (n - 1));
    assert GetBits(bits, s1.pos, 3) == Some(got[n - 1]);
    var pc := if Accepted(lens) then LenCodes(s.pc.fin, s.pc.nlit, s.pc.ndist, lens, []) else Failed;
    var s2 := s.(pc := pc, pos := s.pos + 3 * n);
    ReachesStep(cfg, bits, s1, s2);
    ReachesTrans(cfg, bits, s, s1, s2);
  }

  /** The lengths behind the first n in sending order are zero. */
  predicate OnlyFirst(lens: seq<nat>, n: nat)
    requires |lens| == 19 && n <= 19
  {
    forall j :: 0 <= j < 19 && RANK[j] >= n ==> lens[j] == 0
  }

  lemma UnzigzagSent(lens: seq<nat>, n: nat)
    requires |lens| == 19 && n <= 19 && OnlyFirst(lens, n)
    ensures Unzigzag(Sent(lens, n), n) == lens
  {
    hide RANK, ORDER, Unzigzag;
    forall j | 0 <= j < 19
      ensures Unzigzag(Sent(lens, n), n)[j] == lens[j]
    {
      UnzigzagAt(Sent(lens, n), n, j);
      OrderRank(j);
    }
  }

  function LenLensBits(lens: seq<nat>, n: nat): (b: Bits)
    requires |lens| == 19 && n <= 19
    ensures |b| == 3 * n
  {
    if n == 0 then [] else LenLensBits(lens, n - 1) + BitsOf(Sent(lens, n)[n - 1], 3)
  }

  lemma SentStep(lens: seq<nat>, n: nat)
    requires |lens| == 19 && 0 < n <= 19
    ensures Sent(lens, n) == Sent(lens, n - 1) + [Sent(lens, n)[n - 1]]
  {
    hide ORDER;
  }

  /** All but the last length. */
  lemma {:induction false} RunLenLens(cfg: Config, bits: Bits, s: State, lens: seq<nat>, n: nat)
    requires s.pc.LenLens? && s.pc.got == [] && s.pc.nlen <= 19 && |lens| == 19 && n < s.pc.nlen
    requires forall i :: 0 <= i < 19 ==> lens[i] < 8
    requires At(bits, s.pos, LenLensBits(lens, n))
    ensures Reaches(cfg, bits, s,
            s.(pc := LenLens(s.pc.fin, s.pc.nlit, s.pc.ndist, s.pc.nlen, Sent(lens, n)), pos := s.pos + 3 * n))
    decreases n
  {
    hide Reaches, GetBits, ORDER, BitsOf;
    if n == 0 {
      assert Sent(lens, 0) == [];
      ReachesSelf(cfg, bits, s);
    } else {
      var v := Sent(lens, n)[n - 1];
      AtSplit(bits, s.pos, LenLensBits(lens, n - 1), BitsOf(v, 3));
      RunLenLens(cfg, bits, s, lens, n - 1);
      var s1 := s.(pc := LenLens(s.pc.fin, s.pc.nlit, s.pc.ndist, s.pc.nlen, Sent(lens, n - 1)),
          pos := s.pos + 3 * (n - 1));
      SmallLens(lens, n);
      GetBitsAt(bits, s1.pos, v, 3);
      SentStep(lens, n);
      var s2 := s1.(pc := LenLens(s.pc.fin, s.pc.nlit, s.pc.ndist, s.pc.nlen, Sent(lens, n)), pos := s1.pos + 3);
      ReachesStep(cfg, bits, s1, s2);
      ReachesTrans(cfg, bits, s, s1, s2);
    }
  }

  /** In a header written, the k-th number of three bits is the length of symbol Place(k). */
  lemma {:induction false} LenLensBitsAt(lens: seq<nat>, n: nat, k: nat)
    requires |lens| == 19 && k < n <= 19
    ensures LenLensBits(lens, n)[3 * k..3 * k + 3] == BitsOf(lens[Place(k)], 3)
  {
    hide ORDER, BitsOf, Place;
    OrderPlaces();
    if k < n - 1 {
      LenLensBitsAt(lens, n - 1, k);
      assert LenLensBits(lens, n)[3 * k..3 * k + 3] == LenLensBits(lens, n - 1)[3 * k..3 * k + 3];
    }
  }

  lemma SmallLens(lens: seq<nat>, n: nat)
    requires |lens| == 19 && 0 < n <= 19 && forall i :: 0 <= i < 19 ==> lens[i] < 8
    ensures Sent(lens, n)[n - 1] < Pow2(3)
  {
    SmallPowers();
    hide Pow2;
    OrderInRange(n - 1);
    var got := Sent(lens, n);
    assert got[n - 1] == lens[ORDER[n - 1]];
  }

  /** All lengths of the code-length code; the last one completes its table. */
  lemma RunAllLenLens(cfg: Config, bits: Bits, s: State, lens: seq<nat>)
    requires s.pc.LenLens? && s.pc.got == [] && 4 <= s.pc.nlen <= 19 && |lens| == 19
    requires (forall i :: 0 <= i < 19 ==> lens[i] < 8) && OnlyFirst(lens, s.pc.nlen) && Accepted(lens)
    requires At(bits, s.pos, LenLensBits(lens, s.pc.nlen))
    ensures Reaches(cfg, bits, s,
            s.(pc := LenCodes(s.pc.fin, s.pc.nlit, s.pc.ndist, lens, []), pos := s.pos + 3 * s.pc.nlen))
  {
    hide Reaches, GetBits, ORDER, BitsOf, Accepted, OnlyFirst, Unzigzag;
    var n := s.pc.nlen;
    var v := Sent(lens, n)[n - 1];
    AtSplit(bits, s.pos, LenLensBits(lens, n - 1), BitsOf(v, 3));
    RunLenLens(cfg, bits, s, lens, n - 1);
    var s1 := s.(pc := LenLens(s.pc.fin, s.pc.nlit, s.pc.ndist, s.pc.nlen, Sent(lens, n - 1)),
        pos := s.pos + 3 * (n - 1));
    SmallLens(lens, n);
    GetBitsAt(bits, s1.pos, v, 3);
    SentStep(lens, n);
    UnzigzagSent(lens, n);
    var s2 := s1.(pc := LenCodes(s.pc.fin, s.pc.nlit, s.pc.ndist, lens, []), pos := s1.pos + 3);
    ReachesStep(cfg, bits, s1, s2);
    ReachesTrans(cfg, bits, s, s1, s2);
  }

  // ---- run-length codes

  predicate OpCodable(lens: seq<nat>, op: Op) {
    |lens| == 19 && OpOk(op) && op.code < 19 && lens[op.code] > 0
  }

  function OpBits(lens: seq<nat>, op: Op): Bits
    requires OpCodable(lens, op)
  {
    Code(lens, op.code) + BitsOf(op.extra, ExtraBits(op.code))
  }

  predicate OpsCodable(lens: seq<nat>, ops: seq<Op>) {
    forall i :: 0 <= i < |ops| ==> OpCodable(lens, ops[i])
  }

  function OpsBits(lens: seq<nat>, ops: seq<Op>): Bits
    requires OpsCodable(lens, ops)
  {
    if ops == [] then [] else OpsBits(lens, ops[..|ops| - 1]) + OpBits(lens, ops[|ops| - 1])
  }

  lemma OpExtraFits(op: Op)
    requires OpOk(op)
    ensures op.extra < Pow2(ExtraBits(op.code))
  {
    SmallPowers();
  }

  lemma RunOp(cfg: Config, bits: Bits, s: State, op: Op)
    requires s.pc.LenCodes? && Feasible(s.pc.lens) && OpCodable(s.pc.lens, op)
    requires op.code == 16 ==> s.pc.got != []
    requires |s.pc.got| < s.pc.nlit + s.pc.ndist && At(bits, s.pos, OpBits(s.pc.lens, op))
    ensures Reaches(cfg, bits, s,
            s.(pc := LenCodes(s.pc.fin, s.pc.nlit, s.pc.ndist, s.pc.lens, Append(s.pc.got, op)),
            pos := s.pos + |OpBits(s.pc.lens, op)|))
  {
    hide Reaches, GetBits, DecodeSym, Feasible, Code, BitsOf, StepZlib, StepHead, StepStored, StepSizes, StepSymbol,
         StepCopy;
    var lens, c := s.pc.lens, op.code;
    AtSplit(bits, s.pos, Code(lens, c), BitsOf(op.extra, ExtraBits(c)));
    DecodeSymAt(lens, bits, s.pos, c);
    OpExtraFits(op);
    var s2 := s.(pc := LenCodes(s.pc.fin, s.pc.nlit, s.pc.ndist, s.pc.lens, Append(s.pc.got, op)),
        pos := s.pos + |OpBits(lens, op)|);
    if c < 16 {
      ReachesStep(cfg, bits, s, s2);
    } else {
      var s1 := s.(pc := LenRun(s.pc.fin, s.pc.nlit, s.pc.ndist, lens, s.pc.got, c), pos := s.pos + lens[c]);
      ReachesStep(cfg, bits, s, s1);
      GetBitsAt(bits, s1.pos, op.extra, ExtraBits(c));
      ReachesStep(cfg, bits, s1, s2);
      ReachesTrans(cfg, bits, s, s1, s2);
    }
  }

  lemma {:induction false} ExpandableInit(lens: seq<nat>, ops: seq<Op>)
    requires ops != [] && Expandable(lens, ops)
    ensures var r, op := ops[..|ops| - 1], ops[|ops| - 1];
            Expandable(lens, r) && OpOk(op) && (op.code == 16 ==> ExpandOps(lens, r) != [])
            && ExpandOps(lens, ops) == Append(ExpandOps(lens, r), op)
    decreases |ops|
  {
    var r := ops[..|ops| - 1];
    if |ops| == 1 {
      assert ops[1..] == [];
    } else {
      ExpandableInit(Append(lens, ops[0]), ops[1..]);
      assert ops[1..][..|ops| - 2] == r[1..];
    }
  }

  lemma AppendGrows(lens: seq<nat>, op: Op)
    requires op.code == 16 ==> lens != []
    ensures |Append(lens, op)| > |lens|
  {
  }

  lemma {:induction false} RunOps(cfg: Config, bits: Bits, s: State, ops: seq<Op>)
    requires s.pc.LenCodes? && s.pc.got == [] && Feasible(s.pc.lens) && OpsCodable(s.pc.lens, ops)
    requires Expandable([], ops) && |ExpandOps([], ops)| <= s.pc.nlit + s.pc.ndist
    requires At(bits, s.pos, OpsBits(s.pc.lens, ops))
    ensures Reaches(cfg, bits, s,
            s.(pc := LenCodes(s.pc.fin, s.pc.nlit, s.pc.ndist, s.pc.lens, ExpandOps([], ops)),
            pos := s.pos + |OpsBits(s.pc.lens, ops)|))
    decreases |ops|
  {
    hide Reaches, Feasible, OpBits, Append, Expandable, ExpandOps, Step;
    if ops == [] {
      NoOps();
      ReachesSelf(cfg, bits, s);
    } else {
      var lens := s.pc.lens;
      var r, op := ops[..|ops| - 1], ops[|ops| - 1];
      ExpandableInit([], ops);
      AppendGrows(ExpandOps([], r), op);
      AtSplit(bits, s.pos, OpsBits(lens, r), OpBits(lens, op));
      RunOps(cfg, bits, s, r);
      var s1 := s.(pc := LenCodes(s.pc.fin, s.pc.nlit, s.pc.ndist, lens, ExpandOps([], r)),
          pos := s.pos + |OpsBits(lens, r)|);
      RunOp(cfg, bits, s1, op);
      var s2 := s1.(pc := LenCodes(s.pc.fin, s.pc.nlit, s.pc.ndist, lens, Append(ExpandOps([], r), op)),
          pos := s1.pos + |OpBits(lens, op)|);
      ReachesTrans(cfg, bits, s, s1, s2);
    }
  }

  lemma NoOps()
    ensures Expandable([], []) && ExpandOps([], []) == []
  {
  }

  // ---- the whole header

  /** What a dynamic block transmits: the numbers of lengths, the code-length code, the run-length
      codes, and the tables they stand for. */
  datatype Header = Header(nlit: nat, ndist: nat, nlen: nat, lens: seq<nat>, ops: seq<Op>, tables: Tables)

  ghost predicate HeaderOk(h: Header) {
    && 257 <= h.nlit <= 288 && 1 <= h.ndist <= 32 && 4 <= h.nlen <= 19
    && |h.lens| == 19 && (forall i :: 0 <= i < 19 ==> h.lens[i] < 8) && OnlyFirst(h.lens, h.nlen)
    && Accepted(h.lens) && Feasible(h.lens) && OpsCodable(h.lens, h.ops)
    && |h.tables.lit| == h.nlit && |h.tables.dist| == h.ndist
    && Accepted(h.tables.lit) && Accepted(h.tables.dist)
    && Expandable([], h.ops) && ExpandOps([], h.ops) == h.tables.lit + h.tables.dist
  }

  function SizesBits(h: Header): (b: Bits)
    requires h.nlit >= 257 && h.ndist >= 1 && h.nlen >= 4
    ensures |b| == 14
  {
    BitsOf(h.nlit - 257, 5) + BitsOf(h.ndist - 1, 5) + BitsOf(h.nlen - 4, 4)
  }

  function HeaderBits(h: Header): Bits
    requires h.nlit >= 257 && h.ndist >= 1 && 4 <= h.nlen <= 19 && |h.lens| == 19 && OpsCodable(h.lens, h.ops)
  {
    SizesBits(h) + LenLensBits(h.lens, h.nlen) + OpsBits(h.lens, h.ops)
  }

  lemma RunSizes(cfg: Config, bits: Bits, s: State, h: Header)
    requires s.pc.Sizes? && s.pc.got == [] && 257 <= h.nlit <= 288 && 1 <= h.ndist <= 32 && 4 <= h.nlen <= 19
    requires At(bits, s.pos, SizesBits(h))
    ensures Reaches(cfg, bits, s, s.(pc := LenLens(s.pc.fin, h.nlit, h.ndist, h.nlen, []), pos := s.pos + 14))
  {
    hide Reaches, GetBits, BitsOf;
    SmallPowers();
    var a, b, c := BitsOf(h.nlit - 257, 5), BitsOf(h.ndist - 1, 5), BitsOf(h.nlen - 4, 4);
    AtSplit(bits, s.pos, a + b, c);
    AtSplit(bits, s.pos, a, b);
    GetBitsAt(bits, s.pos, h.nlit - 257, 5);
    GetBitsAt(bits, s.pos + 5, h.ndist - 1, 5);
    GetBitsAt(bits, s.pos + 10, h.nlen - 4, 4);
    var fin := s.pc.fin;
    assert [] + [h.nlit] == [h.nlit];
    var s1 := s.(pc := Sizes(fin, [h.nlit]), pos := s.pos + 5);
    ReachesStep(cfg, bits, s, s1);
    var s2 := s1.(pc := Sizes(fin, [h.nlit] + [h.ndist]), pos := s1.pos + 5);
    ReachesStep(cfg, bits, s1, s2);
    var s3 := s2.(pc := LenLens(fin, h.nlit, h.ndist, h.nlen, []), pos := s2.pos + 4);
    LastSize(cfg, bits, s2, h);
    ReachesStep(cfg, bits, s2, s3);
    ReachesTrans(cfg, bits, s, s1, s2);
    ReachesTrans(cfg, bits, s, s2, s3);
  }

  lemma LastSize(cfg: Config, bits: Bits, s: State, h: Header)
    requires s.pc.Sizes? && s.pc.got == [h.nlit] + [h.ndist] && h.nlen >= 4
    requires GetBits(bits, s.pos, 4) == Some(h.nlen - 4)
    ensures Step(cfg, bits, s) == Next(s.(pc := LenLens(s.pc.fin, h.nlit, h.ndist, h.nlen, []), pos := s.pos + 4))
  {
    hide GetBits;
    var g := s.pc.got + [h.nlen];
    assert g[0] == h.nlit && g[1] == h.ndist && g[2] == h.nlen;
  }

  lemma StepTables(cfg: Config, bits: Bits, s: State, t: Tables)
    requires s.pc.LenCodes? && s.pc.got == t.lit + t.dist && |t.lit| == s.pc.nlit && |t.dist| == s.pc.ndist
    requires Accepted(t.lit) && Accepted(t.dist)
    ensures Step(cfg, bits, s) == Next(s.(pc := Symbol(s.pc.fin, t)))
  {
    hide Accepted, DecodeSym;
    assert s.pc.got[..s.pc.nlit] == t.lit && s.pc.got[s.pc.nlit..] == t.dist;
  }

  /** A dynamic header is understood as its tables. */
  lemma RunDynamicHead(cfg: Config, bits: Bits, s: State, fin: bool, h: Header)
    requires s.pc.Head? && HeaderOk(h) && At(bits, s.pos, KindBits(fin, 2) + HeaderBits(h))
    ensures Reaches(cfg, bits, s, s.(pc := Symbol(fin, h.tables), pos := s.pos + 3 + |HeaderBits(h)|))
  {
    hide Reaches, GetBits, KindBits, SizesBits, LenLensBits, OpsBits, At, Accepted, Feasible, OpsCodable, OnlyFirst,
         Expandable, ExpandOps;
    var a, b, c := SizesBits(h), LenLensBits(h.lens, h.nlen), OpsBits(h.lens, h.ops);
    AtSplit(bits, s.pos, KindBits(fin, 2), (a + b) + c);
    AtSplit(bits, s.pos + 3, a + b, c);
    AtSplit(bits, s.pos + 3, a, b);
    KindValue(bits, s.pos, fin, 2);
    var s1 := s.(pc := Sizes(fin, []), pos := s.pos + 3);
    ReachesStep(cfg, bits, s, s1);
    RunSizes(cfg, bits, s1, h);
    var s2 := s1.(pc := LenLens(fin, h.nlit, h.ndist, h.nlen, []), pos := s1.pos + 14);
    ReachesTrans(cfg, bits, s, s1, s2);
    RunAllLenLens(cfg, bits, s2, h.lens);
    var s3 := s2.(pc := LenCodes(fin, h.nlit, h.ndist, h.lens, []), pos := s2.pos + 3 * h.nlen);
    ReachesTrans(cfg, bits, s, s2, s3);
    RunOps(cfg, bits, s3, h.ops);
    var s4 := s3.(pc := LenCodes(fin, h.nlit, h.ndist, h.lens, h.tables.lit + h.tables.dist), pos := s3.pos + |c|);
    ReachesTrans(cfg, bits, s, s3, s4);
    StepTables(cfg, bits, s4, h.tables);
    var s5 := s4.(pc := Symbol(fin, h.tables));
    ReachesStep(cfg, bits, s4, s5);
    ReachesTrans(cfg, bits, s, s4, s5);
  }
}
