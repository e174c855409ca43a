/** Run-length coding of the code lengths of a dynamic block (section 3.2.7 of RFC 1951). */
module CodeLengthRle {

  /** A code of the code-length alphabet with the value of its extra bits. */
  datatype Op = Op(code: nat, extra: nat)

  function ExtraBits(code: nat): nat {
    if code == 16 then 2 else if code == 17 then 3 else if code == 18 then 7 else 0
  }

  /** The smallest run of a repeat code. */
  function RunBase(code: nat): nat {
    if code == 18 then 11 else 3
  }

  predicate OpOk(op: Op) {
    if op.code < 16 then op.extra == 0
    else (op.code == 16 && op.extra < 4) || (op.code == 17 && op.extra < 8) || (op.code == 18 && op.extra < 128)
  }

  function Repeat(v: nat, n: nat): (s: seq<nat>)
    ensures |s| == n && forall i :: 0 <= i < n ==> s[i] == v
  {
    seq(n, _ => v)
  }

  /** What the decompressor appends for one code: 16 repeats the last length. */
  function Append(lens: seq<nat>, op: Op): seq<nat>
    requires op.code == 16 ==> lens != []
  {
    if op.code < 16 then lens + [op.code]
    else if op.code == 16 then lens + Repeat(lens[|lens| - 1], op.extra + 3)
    else lens + Repeat(0, op.extra + RunBase(op.code))
  }

  /** The codes can be expanded after lens. */
  predicate Expandable(lens: seq<nat>, ops: seq<Op>)
    decreases |ops|
  {
    ops == [] || (OpOk(ops[0]) && (ops[0].code == 16 ==> lens != []) && Expandable(Append(lens, ops[0]), ops[1..]))
  }

  function ExpandOps(lens: seq<nat>, ops: seq<Op>): (r: seq<nat>)
    requires Expandable(lens, ops)
    ensures |r| >= |lens| + |ops| && r[..|lens|] == lens
    decreases |ops|
  {
    if ops == [] then lens else ExpandOps(Append(lens, ops[0]), ops[1..])
  }

  lemma {:induction false} ExpandSnoc(lens: seq<nat>, ops: seq<Op>, op: Op)
    requires Expandable(lens, ops) && OpOk(op) && (op.code == 16 ==> ExpandOps(lens, ops) != [])
    ensures Expandable(lens, ops + [op]) && ExpandOps(lens, ops + [op]) == Append(ExpandOps(lens, ops), op)
    decreases |ops|
  {
    if ops == [] {
      assert [op][1..] == [] && ops + [op] == [op];
    } else {
      assert (ops + [op])[1..] == ops[1..] + [op];
      ExpandSnoc(Append(lens, ops[0]), ops[1..], op);
    }
  }

  /** The packed array: every repeat code is followed by its extra value. */
  function Flat(ops: seq<Op>): seq<nat> {
    if ops == [] then [] else
      Flat(ops[..|ops| - 1]) + if ops[|ops| - 1].code >= 16 then [ops[|ops| - 1].code, ops[|ops| - 1].extra]
          else [ops[|ops| - 1].code]
  }

  lemma FlatSnoc(ops: seq<Op>, op: Op)
    ensures Flat(ops + [op]) == Flat(ops) + if op.code >= 16 then [op.code, op.extra] else [op.code]
  {
    assert (ops + [op])[..|ops|] == ops;
  }

  /** How often a code occurs. */
  function Occurrences(ops: seq<Op>, code: nat): nat {
    if ops == [] then 0 else Occurrences(ops[..|ops| - 1], code) + if ops[|ops| - 1].code == code then 1 else 0
  }

  lemma OccurrencesSnoc(ops: seq<Op>, op: Op)
    ensures forall c: nat :: Occurrences(ops + [op], c) == Occurrences(ops, c) + if op.code == c then 1 else 0
  {
    assert (ops + [op])[..|ops|] == ops;
  }

  lemma {:induction false} OccursPositive(ops: seq<Op>, i: nat)
    requires i < |ops|
    ensures Occurrences(ops, ops[i].code) > 0
  {
    if i < |ops| - 1 { OccursPositive(ops[..|ops| - 1], i); }
  }

  /** The state between two lengths: ops expand to the lengths seen but for the pending run. */
  ghost predicate Packing(ops: seq<Op>, packed: seq<nat>, counts: seq<nat>, done: seq<nat>) {
    && Expandable([], ops) && ExpandOps([], ops) == done
    && packed == Flat(ops) && |packed| <= |done|
    && |counts| == 19 && (forall c: nat :: c < 19 ==> counts[c] == Occurrences(ops, c))
  }

  lemma RepeatSnoc(v: nat, n: nat)
    ensures Repeat(v, n + 1) == Repeat(v, n) + [v]
  {
  }

  lemma NoRun(done: seq<nat>, v: nat, rest: seq<nat>)
    ensures done + Repeat(v, 0) + rest == done + rest
  {
  }

  lemma NoZeros(done: seq<nat>)
    ensures done + Repeat(0, 0) == done
  {
  }

  // ---- which codes are used for a run

  /** How many lengths at the end are equal. */
  function Run(lens: seq<nat>): (n: nat)
    requires lens != []
    ensures 1 <= n <= |lens|
  {
    if |lens| > 1 && lens[|lens| - 2] == lens[|lens| - 1] then Run(lens[..|lens| - 1]) + 1 else 1
  }

  function Times(op: Op, n: nat): (s: seq<Op>)
    ensures |s| == n && forall i :: 0 <= i < n ==> s[i] == op
  {
    seq(n, _ => op)
  }

  /** Zeros: as many codes of 138 as fit, and the rest as one code if it is three or more. */
  function ZeroOps(n: nat): seq<Op> {
    Times(Op(18, 127), n / 138) + FewZeros(n % 138)
  }

  function FewZeros(n: nat): seq<Op> {
    if n < 3 then Times(Op(0, 0), n) else if n <= 10 then [Op(17, n - 3)] else [Op(18, n - 11)]
  }

  /** A length and its repetitions: as many codes of 6 as fit, and the rest as one code if it is three or more. */
  function SameOps(v: nat, n: nat): seq<Op>
    requires n > 0
  {
    [Op(v, 0)] + Times(Op(16, 3), (n - 1) / 6) + FewSame(v, (n - 1) % 6)
  }

  function FewSame(v: nat, n: nat): seq<Op> {
    if n < 3 then Times(Op(v, 0), n) else [Op(16, n - 3)]
  }

  /** The codes for a vector of lengths: those of its runs. */
  function RunCoded(lens: seq<nat>): seq<Op>
    decreases |lens|
  {
    if lens == [] then [] else
      var n, v := Run(lens), lens[|lens| - 1];
      RunCoded(lens[..|lens| - n]) + if v == 0 then ZeroOps(n) else SameOps(v, n)
  }

  /** The run at the end. */
  lemma {:induction false} RunAt(before: seq<nat>, v: nat, n: nat)
    requires n > 0 && (before != [] ==> before[|before| - 1] != v)
    ensures Run(before + Repeat(v, n)) == n
    decreases n
  {
    var s := before + Repeat(v, n);
    if n > 1 {
      RunAt(before, v, n - 1);
      assert s[..|s| - 1] == before + Repeat(v, n - 1);
    }
  }

  lemma RunCodedAt(before: seq<nat>, v: nat, n: nat)
    requires n > 0 && (before != [] ==> before[|before| - 1] != v)
    ensures RunCoded(before + Repeat(v, n)) == RunCoded(before) + if v == 0 then ZeroOps(n) else SameOps(v, n)
  {
    hide ZeroOps, SameOps, Run;
    RunAt(before, v, n);
    var s := before + Repeat(v, n);
    assert s[..|s| - n] == before;
  }

  lemma TimesSnoc(op: Op, n: nat)
    ensures Times(op, n + 1) == Times(op, n) + [op]
  {
  }

  /** The codes written for a run of n so far, without those of the pending rest. */
  function Begun(v: nat, n: nat): seq<Op> {
    if v == 0 then Times(Op(18, 127), n / 138)
    else if n == 0 then [] else [Op(v, 0)] + Times(Op(16, 3), (n - 1) / 6)
  }

  /** The length of the rest. */
  function Rest(v: nat, n: nat): nat {
    if v == 0 then n % 138 else if n == 0 then 0 else (n - 1) % 6
  }

  /** The longest rest, for which one code is just enough. */
  function Longest(v: nat): nat {
    if v == 0 then 138 else 6
  }

  function Few(v: nat, n: nat): seq<Op> {
    if v == 0 then FewZeros(n) else FewSame(v, n)
  }

  lemma BegunWhole(v: nat, n: nat)
    requires n > 0
    ensures Begun(v, n) + Few(v, Rest(v, n)) == if v == 0 then ZeroOps(n) else SameOps(v, n)
  {
  }

  /** One more of the same length: the rest grows, and is written when it is as long as a code can say. */
  lemma BegunMore(v: nat, n: nat)
    requires n > 0
    ensures Rest(v, n + 1) == (if Rest(v, n) + 1 == Longest(v) then 0 else Rest(v, n) + 1)
    ensures Begun(v, n + 1) == Begun(v, n) + if Rest(v, n + 1) == 0 then Few(v, Rest(v, n) + 1) else []
  {
    hide Times;
    if v == 0 {
      NextMultiple(n, 138);
      if n % 138 == 137 { TimesSnoc(Op(18, 127), n / 138); }
    } else {
      NextMultiple(n - 1, 6);
      if (n - 1) % 6 == 5 { TimesSnoc(Op(16, 3), (n - 1) / 6); }
    }
  }

  lemma NextMultiple(n: nat, k: nat)
    requires k == 138 || k == 6
    ensures (n + 1) % k == (if n % k + 1 == k then 0 else n % k + 1)
    ensures (n + 1) / k == n / k + if n % k + 1 == k then 1 else 0
  {
  }

  lemma BegunFirst(v: nat)
    ensures Begun(v, 1) == (if v == 0 then [] else [Op(v, 0)]) && Rest(v, 1) == (if v == 0 then 1 else 0)
  {
  }

  lemma NoFew(v: nat)
    ensures Few(v, 0) == []
  {
  }

  lemma FewOf(v: nat)
    ensures forall n: nat :: Few(v, n) == if v == 0 then FewZeros(n) else FewSame(v, n)
    ensures FewSame(v, 0) == FewZeros(0) == []
  {
  }

  lemma OneRepeat(v: nat)
    ensures Repeat(v, 1) == [v]
  {
  }

  /** When a run is over, its rest is written. */
  lemma RunOver(before: seq<nat>, v: nat, n: nat, ops: seq<Op>)
    requires n > 0 && (before != [] ==> before[|before| - 1] != v) && ops == RunCoded(before) + Begun(v, n)
    ensures ops + Few(v, Rest(v, n)) == RunCoded(before + Repeat(v, n))
  {
    hide RunCoded, Begun, Few, Rest, ZeroOps, SameOps;
    RunCodedAt(before, v, n);
    BegunWhole(v, n);
    assert RunCoded(before) + Begun(v, n) + Few(v, Rest(v, n)) == RunCoded(before) + (Begun(v, n) + Few(v, Rest(v, n)));
  }

  class Packer {
    /** The lengths before the current run, and how many it has so far. */
    ghost var before: seq<nat>
    ghost var run: nat
    var packed: seq<nat>
    var counts: seq<nat>
    var zCount: nat
    var repeatCount: nat
    var prev: nat
    ghost var ops: seq<Op>
    ghost var done: seq<nat>

    constructor ()
      ensures Holds() && Told() && done == [] && zCount == 0 && repeatCount == 0 && prev == 0xFF
    {
      packed, zCount, repeatCount, prev := [], 0, 0, 0xFF;
      counts := seq(19, _ => 0);
      ops, done := [], [];
      before, run := [], 0;
      new;
      assert Consumed() == [];
    }

    ghost predicate Holds()
      reads this`ops, this`packed, this`counts, this`done, this`prev, this`zCount, this`repeatCount
    {
      && Packing(ops, packed, counts, done)
      && (0 < prev < 16 ==> done != [] && done[|done| - 1] == prev && zCount == 0)
      && (repeatCount > 0 ==> 0 < prev < 16)
      && repeatCount < 6 && zCount < 138
    }

    /** Everything consumed so far: the finished part and the pending run. */
    ghost function Consumed(): seq<nat>
      reads this`done, this`prev, this`zCount, this`repeatCount
    {
      done + Repeat(prev, repeatCount) + Repeat(0, zCount)
    }

    /** The codes are those of the runs before the current one and what has been written of it. */
    ghost predicate Told()
      reads this
    {
      if run == 0 then before == [] && ops == [] && prev == 0xFF && repeatCount == zCount == 0
      else
        && (before != [] ==> before[|before| - 1] != prev) && Consumed() == before + Repeat(prev, run)
        && ops == RunCoded(before) + Begun(prev, run) && prev < 16
        && (if prev == 0 then repeatCount == 0 && zCount == Rest(0, run)
            else zCount == 0 && repeatCount == Rest(prev, run))
    }

    /** Appends one code to the packed array and counts it. */
    method Emit(op: Op)
      requires Packing(ops, packed, counts, done) && OpOk(op)
      requires op.code == 16 ==> done != []
      requires op.code < 19
      modifies this`packed, this`counts, this`ops, this`done
      ensures Packing(ops, packed, counts, done) && done == Append(old(done), op) && ops == old(ops) + [op]
    {
      hide Expandable, ExpandOps, Flat, Occurrences;
      ExpandSnoc([], ops, op);
      FlatSnoc(ops, op);
      OccurrencesSnoc(ops, op);
      counts := counts[op.code := counts[op.code] + 1];
      packed := packed + if op.code >= 16 then [op.code, op.extra] else [op.code];
      ops := ops + [op];
      done := Append(done, op);
    }

    /** Emits a literal code several times. */
    method EmitTimes(code: nat, n: nat)
      requires Packing(ops, packed, counts, done) && code < 16
      modifies this`packed, this`counts, this`ops, this`done
      ensures Packing(ops, packed, counts, done) && done == old(done) + Repeat(code, n)
      ensures ops == old(ops) + Times(Op(code, 0), n)
    {
      var i := 0;
      while i < n
        invariant i <= n
        invariant Packing(ops, packed, counts, done) && done == old(done) + Repeat(code, i)
        invariant ops == old(ops) + Times(Op(code, 0), i)
      {
        Emit(Op(code, 0));
        i := i + 1;
      }
    }

    /** TDEFL_RLE_PREV_CODE_SIZE */
    method FlushPrev()
      requires Packing(ops, packed, counts, done) && repeatCount <= 6
      requires repeatCount > 0 ==> done != [] && done[|done| - 1] == prev && prev < 16
      modifies this`packed, this`counts, this`ops, this`done, this`repeatCount
      ensures Packing(ops, packed, counts, done) && repeatCount == 0
      ensures ops == old(ops) + FewSame(prev, old(repeatCount))
      ensures done == old(done) + Repeat(prev, old(repeatCount))
    {
      if repeatCount > 0 {
        if repeatCount < 3 {
          EmitTimes(prev, repeatCount);
        } else {
          Emit(Op(16, repeatCount - 3));
        }
        repeatCount := 0;
      }
    }

    /** TDEFL_RLE_ZERO_CODE_SIZE */
    method FlushZeros()
      requires Packing(ops, packed, counts, done) && zCount <= 138
      modifies this`packed, this`counts, this`ops, this`done, this`zCount
      ensures Packing(ops, packed, counts, done) && zCount == 0
      ensures ops == old(ops) + FewZeros(old(zCount))
      ensures done == old(done) + Repeat(0, old(zCount))
    {
      if zCount > 0 {
        if zCount < 3 {
          EmitTimes(0, zCount);
        } else if zCount <= 10 {
          Emit(Op(17, zCount - 3));
        } else {
          Emit(Op(18, zCount - 11));
        }
        zCount := 0;
      }
    }

    /** The pending rest of the current run. */
    ghost function Pending(): nat
      reads this
    {
      if prev == 0 then zCount else repeatCount
    }

    /** One iteration of the packing loop. */
    method Add(codeSize: nat)
      requires Holds() && codeSize < 16 && (if prev == 0 then repeatCount == 0 else zCount == 0)
      modifies this`packed, this`counts, this`ops, this`done, this`repeatCount, this`zCount, this`prev
      ensures Holds() && Consumed() == old(Consumed()) + [codeSize] && prev == codeSize
      ensures if prev == 0 then repeatCount == 0 else zCount == 0
      ensures codeSize == old(prev) ==>
                && Pending() == (if old(Pending()) + 1 == Longest(prev) then 0 else old(Pending()) + 1)
                && ops == old(ops) + if Pending() == 0 then Few(prev, Longest(prev)) else []
      ensures codeSize != old(prev) ==>
                && Pending() == (if codeSize == 0 then 1 else 0)
                && ops == old(ops) + Few(old(prev), old(Pending())) + if codeSize == 0 then [] else [Op(codeSize, 0)]
    {
      hide Packing, Repeat, FewSame, FewZeros, Few, Times;
      FewOf(prev);
      FewOf(codeSize);
      if codeSize == 0 {
        PutZero();
        NoRun(done, codeSize, Repeat(0, zCount));
      } else {
        PutSize(codeSize);
        NoZeros(done + Repeat(codeSize, repeatCount));
      }
      prev := codeSize;
    }

    /** One iteration of the packing loop continues a run or starts the next one. */
    method Put(codeSize: nat)
      requires Holds() && Told() && codeSize < 16
      modifies this
      ensures Holds() && Told() && Consumed() == old(Consumed()) + [codeSize] && prev == codeSize
    {
      hide Holds, Consumed, Repeat, RunCoded, Begun, Rest, Few;
      ghost var v, n, b, o, was := prev, run, before, ops, Consumed();
      if n == 0 { NothingToldYet(was); }
      if n > 0 && codeSize != v { RunOver(b, v, n, o); }
      if n > 0 && codeSize == v { BegunMore(v, n); }
      BegunFirst(codeSize);
      NoFew(v);
      Add(codeSize);
      if n > 0 && codeSize == v {
        run := n + 1;
        RepeatSnoc(v, n);
        assert was + [v] == b + (Repeat(v, n) + [v]);
      } else {
        before, run := was, 1;
        OneRepeat(codeSize);
        assert n > 0 ==> was == b + Repeat(v, n) && was[|was| - 1] == v;
        assert ops == RunCoded(was) + Begun(codeSize, 1);
      }
    }

    method PutZero()
      requires Holds()
      modifies this`packed, this`counts, this`ops, this`done, this`repeatCount, this`zCount
      ensures Packing(ops, packed, counts, done) && repeatCount == 0
      ensures done + Repeat(0, zCount) == old(Consumed()) + [0]
      ensures zCount == if old(zCount) == 137 then 0 else old(zCount) + 1
      ensures ops == old(ops) + FewSame(prev, old(repeatCount)) + if old(zCount) == 137 then FewZeros(138) else []
    {
      hide Packing, FewSame, FewZeros;
      FlushPrev();
      zCount := zCount + 1;
      RepeatSnoc(0, zCount - 1);
      if zCount == 138 {
        FlushZeros();
      }
    }

    method PutSize(codeSize: nat)
      requires Holds() && 0 < codeSize < 16
      modifies this`packed, this`counts, this`ops, this`done, this`repeatCount, this`zCount
      ensures Packing(ops, packed, counts, done) && zCount == 0
      ensures done != [] && done[|done| - 1] == codeSize
      ensures done + Repeat(codeSize, repeatCount) == old(Consumed()) + [codeSize]
      ensures repeatCount == if codeSize != prev || old(repeatCount) == 5 then 0 else old(repeatCount) + 1
      ensures ops == old(ops) + FewZeros(old(zCount)) + if codeSize != prev then
                FewSame(prev, old(repeatCount)) + [Op(codeSize, 0)]
                else if old(repeatCount) == 5 then FewSame(prev, 6) else []
    {
      hide Packing, FewSame, FewZeros;
      FlushZeros();
      if codeSize != prev {
        FlushPrev();
        Emit(Op(codeSize, 0));
      } else {
        repeatCount := repeatCount + 1;
        RepeatSnoc(prev, repeatCount - 1);
        if repeatCount == 6 {
          FlushPrev();
        }
      }
    }

    lemma NothingToldYet(was: seq<nat>)
      requires Told() && Holds() && run == 0 && was == Consumed()
      ensures was == [] && ops == RunCoded([])
    {
      hide Expandable;
    }

    method Finish()
      requires Holds() && Told()
      modifies this`packed, this`counts, this`ops, this`done, this`repeatCount, this`zCount
      ensures Packing(ops, packed, counts, done) && done == old(Consumed()) && ops == RunCoded(old(Consumed()))
    {
      hide Packing, FewSame, FewZeros, RunCoded, Begun, Rest, Few, Repeat;
      ghost var was := Consumed();
      if run > 0 { RunOver(before, prev, run, ops); } else { NothingToldYet(was); }
      NoFew(prev);
      FewOf(prev);
      NoRun(done, prev, Repeat(0, zCount));
      NoZeros(done + Repeat(prev, repeatCount));
      if repeatCount > 0 {
        FlushPrev();
      } else {
        FlushZeros();
      }
    }
  }

  /** Packs a vector of code lengths. */
  method PackCodeLengths(sizes: seq<nat>) returns (packed: seq<nat>, counts: seq<nat>, ghost ops: seq<Op>)
    requires forall i :: 0 <= i < |sizes| ==> sizes[i] < 16
    ensures Packing(ops, packed, counts, sizes) && ops == RunCoded(sizes)
  {
    hide Packing, RunCoded;
    var p := new Packer();
    var i := 0;
    while i < |sizes|
      invariant i <= |sizes|
      invariant fresh(p) && p.Holds() && p.Told() && p.Consumed() == sizes[..i]
    {
      p.Put(sizes[i]);
      assert sizes[..i + 1] == sizes[..i] + [sizes[i]];
      i := i + 1;
    }
    p.Finish();
    assert sizes[..i] == sizes;
    packed, counts, ops := p.packed, p.counts, p.ops;
  }
}
