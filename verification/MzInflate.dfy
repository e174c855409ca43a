/** mz_inflate: the zlib-style interface, which decompresses into a dictionary of 32768 bytes and
    hands out what the caller has room for. */
module MzInflate {
  import opened Bytes
  import opened Bits
  import opened Tokens
  import opened Reference
  import opened OutWindow
  import opened DecodeRuns
  import I = Inflator
  import W = WholeInflate
  import StreamTheorems
  import Adler32

  datatype Flush = NoFlush | PartialFlush | SyncFlush | Finish | OtherFlush

  datatype Code = Okay | StreamEnd | DataError | BufError | StreamError

  function Lesser(a: nat, b: nat): nat {
    if a < b then a else b
  }

  /** The negative statuses. */
  predicate Failing(s: I.Status) {
    s.Failure? || s.AdlerMismatch? || s.CannotProgress?
  }

  /** The dictionary holds what was decompressed but not handed out yet. */
  ghost predicate Held(d: seq<byte>, ofs: nat, avail: nat, delivered: seq<byte>, out: seq<byte>) {
    && |d| == WINDOW && ofs < WINDOW && ofs + avail <= WINDOW
    && out == delivered + d[ofs..ofs + avail] && (ofs + avail) % WINDOW == |out| % WINDOW
  }

  /** Handing out n bytes. */
  lemma AfterHandOut(d: seq<byte>, ofs: nat, avail: nat, delivered: seq<byte>, out: seq<byte>, n: nat)
    requires Held(d, ofs, avail, delivered, out) && n <= avail
    ensures ofs + n <= |d| && Held(d, (ofs + n) % WINDOW, avail - n, delivered + d[ofs..ofs + n], out)
  {
    assert d[ofs..ofs + avail] == d[ofs..ofs + n] + d[ofs + n..ofs + avail];
    Slot(ofs, avail, n);
    if ofs + n == WINDOW {
      assert d[0..0] == d[WINDOW..WINDOW];
    }
  }

  lemma Slot(ofs: nat, avail: nat, n: nat)
    requires ofs < WINDOW && ofs + avail <= WINDOW && n <= avail
    ensures (ofs + n) % WINDOW == if ofs + n < WINDOW then ofs + n else 0
    ensures ((ofs + n) % WINDOW + avail - n) % WINDOW == (ofs + avail) % WINDOW
  {
  }

  method MemCpy(dst: array<byte>, dstOfs: nat, src: array<byte>, srcOfs: nat, n: nat)
    requires dst != src && dstOfs + n <= dst.Length && srcOfs + n <= src.Length
    modifies dst
    ensures dst[dstOfs..dstOfs + n] == src[..][srcOfs..srcOfs + n] && dst[..dstOfs] == old(dst[..dstOfs])
  {
    var i := 0;
    while i < n
      invariant 0 <= i <= n && dst[dstOfs..dstOfs + i] == src[..][srcOfs..srcOfs + i]
                && dst[..dstOfs] == old(dst[..dstOfs])
    {
      dst[dstOfs + i] := src[srcOfs + i];
      i := i + 1;
    }
  }

  class Stream {
    const decomp: I.Tinfl
    const dict: array<byte>
    var dictOfs: nat
    var dictAvail: nat
    var lastStatus: I.Status
    var firstCall: bool
    var hasFlushed: bool
    /** Everything handed out so far. */
    ghost var delivered: seq<byte>

    /** What was decompressed is what was handed out and what waits in the dictionary. */
    ghost predicate Waiting()
      reads this`dictOfs, this`dictAvail, this`delivered, dict, decomp.output
    {
      Held(dict[..], dictOfs, dictAvail, delivered, decomp.output.out)
    }

    ghost predicate Holds()
      reads this`dictOfs, this`dictAvail, this`delivered, dict
      reads decomp, decomp.input, decomp.input.inBuf, decomp.output, decomp.output.buf
      reads decomp.t0, decomp.t0.lookup, decomp.t0.tree, decomp.t1, decomp.t1.lookup, decomp.t1.tree, decomp.t2,
            decomp.t2.lookup, decomp.t2.tree
    {
      && decomp.Inv() && decomp.Idle() && decomp.CheckOk() && decomp.output.buf == dict && !decomp.output.flat
      && Waiting()
    }

    /** The last status says where the machine stands. */
    ghost predicate StatusOk()
      reads this`lastStatus, decomp`s, decomp`zAdler, decomp`checkAdler, decomp`live
      reads decomp.input, decomp.input.inBuf, decomp.output
    {
      && decomp.Means(lastStatus) && (!Failing(lastStatus) ==> decomp.live)
      && (lastStatus.AdlerMismatch? ==> decomp.s.pc.Done? && !decomp.Matches())
    }

    /** mz_inflateInit2, for a stream that the machine accepts or rejects */
    constructor (zlib: bool, ghost stream: Bits)
      requires Decided(Config(zlib, false), stream)
      ensures Holds() && StatusOk() && delivered == [] && decomp.full == stream && decomp.zlib == zlib
              && decomp.input.base == []
      ensures firstCall && !hasFlushed && !Failing(lastStatus) && fresh(decomp) && fresh(dict) && fresh(decomp.input)
              && fresh(decomp.output)
    {
      hide *;
      var d := new byte[WINDOW](_ => 0);
      var t := new I.Tinfl(zlib, false, d, stream);
      decomp, dict := t, d;
      dictOfs, dictAvail, lastStatus, firstCall, hasFlushed := 0, 0, I.NeedsMoreInput, true, false;
      delivered := [];
      new;
      Empty();
      StartsWaiting();
    }

    /** Before the first byte the machine waits for it. */
    lemma StartsWaiting()
      requires decomp.Inv() && decomp.Idle() && decomp.input.base == [] && decomp.point == I.Begin && decomp.live
      requires lastStatus.NeedsMoreInput?
      ensures StatusOk() && !Failing(lastStatus)
    {
      hide decomp.Behind, Mirrors, decomp.output.Holds;
      assert decomp.input.all == decomp.input.base;
    }

    lemma Empty()
      requires decomp.Inv() && decomp.Idle() && decomp.CheckOk() && decomp.output.buf == dict && !decomp.output.flat
               && dict.Length == WINDOW
      requires dictOfs == dictAvail == 0 && delivered == [] && decomp.output.out == []
      ensures Holds()
    {
      hide decomp.Inv, decomp.Idle, decomp.CheckOk;
      assert [] + dict[..][0..0] == [];
    }

    /** Hands out as much as the caller has room for. */
    method HandOut(nextOut: array<byte>, outOfs: nat) returns (n: nat)
      requires Holds() && StatusOk() && outOfs <= nextOut.Length && nextOut != dict && nextOut != decomp.input.inBuf
      modifies this`dictOfs, this`dictAvail, this`delivered, nextOut
      ensures Holds() && StatusOk()
      ensures n == Lesser(old(dictAvail), nextOut.Length - outOfs) && dictAvail == old(dictAvail) - n
      ensures delivered == old(delivered) + nextOut[outOfs..outOfs + n]
      ensures nextOut[..outOfs] == old(nextOut[..outOfs])
    {
      hide decomp.Inv, decomp.CheckOk, decomp.Idle, Held, StatusOk;
      InDict();
      n := Lesser(dictAvail, nextOut.Length - outOfs);
      AfterHandOut(dict[..], dictOfs, dictAvail, delivered, decomp.output.out, n);
      MemCpy(nextOut, outOfs, dict, dictOfs, n);
      delivered := delivered + nextOut[outOfs..outOfs + n];
      dictAvail := dictAvail - n;
      dictOfs := (dictOfs + n) % WINDOW;
    }

    lemma InDict()
      requires Waiting()
      ensures dict.Length == WINDOW && dictOfs < WINDOW && dictOfs + dictAvail <= WINDOW
      ensures (dictOfs + dictAvail) % WINDOW == |decomp.output.out| % WINDOW
      ensures decomp.output.out == delivered + dict[dictOfs..dictOfs + dictAvail]
    {
      assert dict[..][dictOfs..dictOfs + dictAvail] == dict[dictOfs..dictOfs + dictAvail];
    }

    /** One call of the decompressor into the free part of the dictionary. */
    method Refill(nextIn: array<byte>, inOfs: nat, hasMore: bool) returns (inBytes: nat)
      requires Holds() && StatusOk() && !Failing(lastStatus) && dictAvail == 0
      requires nextIn != dict && inOfs <= nextIn.Length && decomp.ReceivedWith(nextIn, inOfs) <= decomp.full
      modifies this`dictAvail, this`lastStatus, decomp, decomp.input, decomp.output, dict,
               decomp.t0, decomp.t0.lookup, decomp.t0.tree, decomp.t1, decomp.t1.lookup, decomp.t1.tree, decomp.t2,
               decomp.t2.lookup, decomp.t2.tree
      ensures Holds() && StatusOk() && decomp.full == old(decomp.full) && fresh(decomp.input.inBuf)
      ensures inOfs + inBytes <= nextIn.Length
              && decomp.input.base == old(decomp.input.base) + nextIn[inOfs..inOfs + inBytes]
      ensures lastStatus.HasMoreOutput? ==> dictOfs + dictAvail == WINDOW
      ensures lastStatus.NeedsMoreInput? ==> hasMore && inOfs + inBytes == nextIn.Length
      ensures lastStatus.CannotProgress? ==> !hasMore
    {
      hide decomp.Inv, decomp.CheckOk, decomp.ReceivedWith, decomp.Matches, Step;
      DictMirrors();
      InDict();
      assert delivered + [] == delivered;
      var outBytes;
      lastStatus, inBytes, outBytes := decomp.Decompress(nextIn, inOfs, dict, dictOfs, WINDOW, hasMore);
      dictAvail := outBytes;
      Cursor();
      assert dict[..][dictOfs..dictOfs + dictAvail] == dict[dictOfs..dictOfs + dictAvail];
    }

    lemma DictMirrors()
      requires Holds()
      ensures Mirrors(dict[..], false, decomp.output.out)
    {
      hide decomp.Rel, decomp.Behind, decomp.input.Holds, decomp.CheckOk, Mirrors;
    }

    lemma Cursor()
      requires decomp.Inv() && !decomp.output.flat
      ensures decomp.output.cur % WINDOW == |decomp.output.out| % WINDOW
    {
      hide decomp.Rel, decomp.Behind, decomp.input.Holds, Mirrors;
    }

    /** The rest of the input still continues the stream. */
    lemma RestContinues(base: seq<byte>, nextIn: array<byte>, first: nat, n: nat)
      requires first + n <= nextIn.Length && decomp.input.base == base + nextIn[first..first + n]
      requires ByteBits(base + nextIn[first..]) <= decomp.full
      ensures decomp.ReceivedWith(nextIn, first + n) <= decomp.full
    {
      hide ByteBits;
      assert base + nextIn[first..] == base + nextIn[first..first + n] + nextIn[first + n..];
    }

    ghost predicate CallOk(nextIn: array<byte>, inOfs: nat, nextOut: array<byte>, outOfs: nat)
      reads decomp.input`base, decomp.input`inBuf, decomp`full, nextIn
    {
      && nextIn != dict && nextOut != dict && nextIn != nextOut && nextOut != decomp.input.inBuf
      && inOfs <= nextIn.Length && outOfs <= nextOut.Length && decomp.ReceivedWith(nextIn, inOfs) <= decomp.full
    }

    /** Decompresses and hands out once. */
    method Turn(nextIn: array<byte>, inOfs: nat, nextOut: array<byte>, outOfs: nat, hasMore: bool)
        returns (inBytes: nat, n: nat)
      requires Holds() && StatusOk() && !Failing(lastStatus) && dictAvail == 0 && CallOk(nextIn, inOfs, nextOut, outOfs)
      modifies this`dictOfs, this`dictAvail, this`lastStatus, this`delivered, nextOut, decomp, decomp.input,
               decomp.output, dict,
               decomp.t0, decomp.t0.lookup, decomp.t0.tree, decomp.t1, decomp.t1.lookup, decomp.t1.tree, decomp.t2,
               decomp.t2.lookup, decomp.t2.tree
      ensures Holds() && StatusOk() && decomp.full == old(decomp.full) && fresh(decomp.input.inBuf)
      ensures inOfs + inBytes <= nextIn.Length && outOfs + n <= nextOut.Length
              && CallOk(nextIn, inOfs + inBytes, nextOut, outOfs + n)
      ensures decomp.input.base == old(decomp.input.base) + nextIn[inOfs..inOfs + inBytes]
      ensures delivered == old(delivered) + nextOut[outOfs..outOfs + n] && nextOut[..outOfs] == old(nextOut[..outOfs])
      ensures lastStatus.HasMoreOutput? ==> n > 0 || outOfs == nextOut.Length
      ensures dictAvail > 0 ==> outOfs + n == nextOut.Length
      ensures lastStatus.NeedsMoreInput? ==> hasMore && inOfs + inBytes == nextIn.Length
      ensures lastStatus.CannotProgress? ==> !hasMore
    {
      hide Holds, StatusOk, decomp.ReceivedWith;
      ghost var base := decomp.input.base;
      Receives(nextIn, inOfs);
      inBytes := Refill(nextIn, inOfs, hasMore);
      InDictNow();
      RestContinues(base, nextIn, inOfs, inBytes);
      n := HandOut(nextOut, outOfs);
    }

    lemma Receives(nextIn: array<byte>, inOfs: nat)
      requires inOfs <= nextIn.Length
      ensures decomp.ReceivedWith(nextIn, inOfs) == ByteBits(decomp.input.base + nextIn[inOfs..])
    {
    }

    lemma InDictNow()
      requires Holds()
      ensures dictOfs < WINDOW
    {
      hide decomp.Inv, decomp.CheckOk;
    }

    /** A call that finds bytes waiting hands out only those. */
    method GiveWaiting(nextIn: array<byte>, inStart: nat, nextOut: array<byte>, outStart: nat) returns (n: nat)
      requires Holds() && StatusOk() && dictAvail > 0 && CallOk(nextIn, inStart, nextOut, outStart)
      modifies this`dictOfs, this`dictAvail, this`delivered, nextOut
      ensures Holds() && StatusOk() && CallOk(nextIn, inStart, nextOut, outStart + n)
      ensures Exchanged(nextIn, inStart, 0, nextOut, outStart, n, decomp.input.base, old(delivered))
      ensures nextOut[..outStart] == old(nextOut[..outStart]) && (outStart < nextOut.Length ==> n > 0)
    {
      hide Holds, StatusOk, decomp.ReceivedWith;
      n := HandOut(nextOut, outStart);
      assert nextIn[inStart..inStart] == [];
      assert decomp.input.base + [] == decomp.input.base;
    }

    /** mz_inflate, except for a first call with MZ_FINISH */
    method Inflate(nextIn: array<byte>, inStart: nat, nextOut: array<byte>, outStart: nat, flushing: Flush)
      returns (code: Code, inUsed: nat, outUsed: nat)
      requires Holds() && StatusOk() && CallOk(nextIn, inStart, nextOut, outStart) && !(firstCall && flushing == Finish)
      modifies this, nextOut, decomp, decomp.input, decomp.output, dict,
               decomp.t0, decomp.t0.lookup, decomp.t0.tree, decomp.t1, decomp.t1.lookup, decomp.t1.tree, decomp.t2,
               decomp.t2.lookup, decomp.t2.tree
      ensures Holds() && StatusOk() && decomp.full == old(decomp.full)
      ensures Exchanged(nextIn, inStart, inUsed, nextOut, outStart, outUsed, old(decomp.input.base), old(delivered))
      ensures code == StreamError <==>
                flushing.OtherFlush? || (!Failing(old(lastStatus)) && old(hasFlushed) && flushing != Finish)
      ensures code != StreamError ==> (code == DataError <==> Failing(lastStatus))
      ensures code != StreamError && code != DataError ==>
                (code == StreamEnd <==> lastStatus.Finished? && dictAvail == 0)
      ensures code == BufError <==>
                && code != StreamError && code != DataError && old(dictAvail) == 0
                && if flushing == Finish then !(lastStatus.Finished? && dictAvail == 0)
                   else lastStatus.NeedsMoreInput? && inStart == nextIn.Length
      ensures code == BufError && flushing == Finish ==> outStart + outUsed == nextOut.Length
      ensures code == Okay && outStart < nextOut.Length ==> inUsed + outUsed > 0
      ensures lastStatus.CannotProgress? && !old(lastStatus).CannotProgress? ==> flushing == Finish
      ensures hasFlushed ==> old(hasFlushed) || flushing == Finish
      ensures CallOk(nextIn, inStart + inUsed, nextOut, outStart + outUsed)
      ensures nextOut[..outStart] == old(nextOut[..outStart])
    {
      hide Holds, StatusOk, CallOk, Exchanged;
      inUsed, outUsed := 0, 0;
      InBuffers(nextIn, inStart, nextOut, outStart);
      NothingExchanged(nextIn, inStart, nextOut, outStart);
      var flush := if flushing == PartialFlush then SyncFlush else flushing;
      if flush != NoFlush && flush != SyncFlush && flush != Finish {
        return StreamError, 0, 0;
      }
      firstCall := false;
      if Failing(lastStatus) {
        return DataError, 0, 0;
      }
      if hasFlushed && flush != Finish {
        return StreamError, 0, 0;
      }
      hasFlushed := hasFlushed || flush == Finish;
      if dictAvail > 0 {
        outUsed := GiveWaiting(nextIn, inStart, nextOut, outStart);
        code := if lastStatus.Finished? && dictAvail == 0 then StreamEnd else Okay;
        return;
      }
      code, inUsed, outUsed := Turns(nextIn, inStart, nextOut, outStart, flush);
    }

    lemma InBuffers(nextIn: array<byte>, inStart: nat, nextOut: array<byte>, outStart: nat)
      requires CallOk(nextIn, inStart, nextOut, outStart)
      ensures inStart <= nextIn.Length && outStart <= nextOut.Length
    {
    }

    /** What a call has taken and given so far. */
    ghost predicate Exchanged(nextIn: array<byte>, inStart: nat, inUsed: nat, nextOut: array<byte>, outStart: nat,
        outUsed: nat,
                              base: seq<byte>, given: seq<byte>)
      reads this`delivered, decomp.input`base, nextIn, nextOut
    {
      && inStart + inUsed <= nextIn.Length && decomp.input.base == base + nextIn[inStart..inStart + inUsed]
      && outStart + outUsed <= nextOut.Length && delivered == given + nextOut[outStart..outStart + outUsed]
    }

    /** One turn of the loop. */
    method NextTurn(nextIn: array<byte>, inStart: nat, inDone: nat, nextOut: array<byte>, outStart: nat, outDone: nat,
        hasMore: bool,
                    ghost base: seq<byte>, ghost given: seq<byte>)
      returns (inUsed: nat, outUsed: nat)
      requires Holds() && StatusOk() && !Failing(lastStatus) && dictAvail == 0
      requires Exchanged(nextIn, inStart, inDone, nextOut, outStart, outDone, base, given)
      requires CallOk(nextIn, inStart + inDone, nextOut, outStart + outDone)
      modifies this`dictOfs, this`dictAvail, this`lastStatus, this`delivered, nextOut, decomp, decomp.input,
               decomp.output, dict,
               decomp.t0, decomp.t0.lookup, decomp.t0.tree, decomp.t1, decomp.t1.lookup, decomp.t1.tree, decomp.t2,
               decomp.t2.lookup, decomp.t2.tree
      ensures Holds() && StatusOk() && decomp.full == old(decomp.full) && fresh(decomp.input.inBuf)
      ensures Exchanged(nextIn, inStart, inUsed, nextOut, outStart, outUsed, base, given)
              && CallOk(nextIn, inStart + inUsed, nextOut, outStart + outUsed)
      ensures lastStatus.HasMoreOutput? ==> outUsed > outDone || outStart + outUsed == nextOut.Length
      ensures dictAvail > 0 ==> outStart + outUsed == nextOut.Length
      ensures lastStatus.NeedsMoreInput? ==> hasMore && inStart + inUsed == nextIn.Length
      ensures (lastStatus.CannotProgress? ==> !hasMore) && inUsed >= inDone && outUsed >= outDone
      ensures nextOut[..outStart] == old(nextOut[..outStart])
    {
      hide Holds, StatusOk, decomp.ReceivedWith;
      assert nextOut[..outStart] == nextOut[..outStart + outDone][..outStart];
      ghost var head, p, q := nextOut[..outStart + outDone], inStart + inDone, outStart + outDone;
      var inBytes, n := Turn(nextIn, inStart + inDone, nextOut, outStart + outDone, hasMore);
      assert nextIn[inStart..p] + nextIn[p..p + inBytes] == nextIn[inStart..p + inBytes];
      assert nextOut[outStart..q] == head[outStart..];
      assert nextOut[outStart..q] + nextOut[q..q + n] == nextOut[outStart..q + n];
      inUsed, outUsed := inDone + inBytes, outDone + n;
      assert nextOut[..outStart] == nextOut[..outStart + outDone][..outStart];
    }

    lemma NothingExchanged(nextIn: array<byte>, inStart: nat, nextOut: array<byte>, outStart: nat)
      requires inStart <= nextIn.Length && outStart <= nextOut.Length
      ensures Exchanged(nextIn, inStart, 0, nextOut, outStart, 0, decomp.input.base, delivered)
    {
      assert nextIn[inStart..inStart] == [] && nextOut[outStart..outStart] == [];
      assert delivered + [] == delivered && decomp.input.base + [] == decomp.input.base;
    }

    lemma WithinBuffers(nextIn: array<byte>, inStart: nat, inUsed: nat, nextOut: array<byte>, outStart: nat,
        outUsed: nat, base: seq<byte>, given: seq<byte>)
      requires Exchanged(nextIn, inStart, inUsed, nextOut, outStart, outUsed, base, given)
      ensures inStart + inUsed <= nextIn.Length && outStart + outUsed <= nextOut.Length
    {
    }

    /** The loop of mz_inflate. */
    method Turns(nextIn: array<byte>, inStart: nat, nextOut: array<byte>, outStart: nat, flush: Flush)
      returns (code: Code, inUsed: nat, outUsed: nat)
      requires Holds() && StatusOk() && !Failing(lastStatus) && dictAvail == 0
      requires inStart <= nextIn.Length && outStart <= nextOut.Length && CallOk(nextIn, inStart, nextOut, outStart)
      modifies this`dictOfs, this`dictAvail, this`lastStatus, this`delivered, nextOut, decomp, decomp.input,
               decomp.output, dict,
               decomp.t0, decomp.t0.lookup, decomp.t0.tree, decomp.t1, decomp.t1.lookup, decomp.t1.tree, decomp.t2,
               decomp.t2.lookup, decomp.t2.tree
      ensures Holds() && StatusOk() && decomp.full == old(decomp.full)
      ensures Exchanged(nextIn, inStart, inUsed, nextOut, outStart, outUsed, old(decomp.input.base), old(delivered))
      ensures code != StreamError && (code == DataError <==> Failing(lastStatus))
      ensures code == StreamEnd <==> lastStatus.Finished? && dictAvail == 0
      ensures code == BufError <==>
                code != DataError && if flush == Finish then !(lastStatus.Finished? && dictAvail == 0)
                                     else lastStatus.NeedsMoreInput? && inStart == nextIn.Length
      ensures code == BufError && flush == Finish ==> outStart + outUsed == nextOut.Length
      ensures code == Okay && outStart < nextOut.Length ==> inUsed + outUsed > 0
      ensures lastStatus.CannotProgress? ==> flush == Finish
      ensures CallOk(nextIn, inStart + inUsed, nextOut, outStart + outUsed)
      ensures nextOut[..outStart] == old(nextOut[..outStart])
    {
      hide Holds, StatusOk, CallOk, Exchanged;
      inUsed, outUsed := 0, 0;
      var more := true;
      ghost var base, given := decomp.input.base, delivered;
      NothingExchanged(nextIn, inStart, nextOut, outStart);
      while more
        invariant Holds() && StatusOk() && !Failing(lastStatus) && decomp.full == old(decomp.full)
        invariant (more ==> dictAvail == 0) && nextOut[..outStart] == old(nextOut[..outStart])
        invariant !more ==>
                    && flush != Finish && (dictAvail > 0 ==> outStart + outUsed == nextOut.Length)
                    && (lastStatus.NeedsMoreInput? ==> inStart < nextIn.Length == inStart + inUsed)
                    && (lastStatus.HasMoreOutput? ==> outUsed > 0 || outStart + outUsed == nextOut.Length)
        invariant Exchanged(nextIn, inStart, inUsed, nextOut, outStart, outUsed, base, given)
                  && CallOk(nextIn, inStart + inUsed, nextOut, outStart + outUsed)
        invariant outStart + outUsed <= nextOut.Length
        decreases more, nextOut.Length - outUsed
      {
        inUsed, outUsed := NextTurn(nextIn, inStart, inUsed, nextOut, outStart, outUsed, flush != Finish, base, given);
        WithinBuffers(nextIn, inStart, inUsed, nextOut, outStart, outUsed, base, given);
        var availIn, availOut := nextIn.Length - (inStart + inUsed), nextOut.Length - (outStart + outUsed);
        if Failing(lastStatus) {
          return DataError, inUsed, outUsed;
        } else if lastStatus.NeedsMoreInput? && nextIn.Length == inStart {
          return BufError, inUsed, outUsed;
        } else if flush == Finish {
          if lastStatus.Finished? {
            code := if dictAvail > 0 then BufError else StreamEnd;
            return;
          } else if availOut == 0 {
            return BufError, inUsed, outUsed;
          }
        } else if lastStatus.Finished? || availIn == 0 || availOut == 0 || dictAvail > 0 {
          more := false;
        }
      }
      code := if lastStatus.Finished? && dictAvail == 0 then StreamEnd else Okay;
    }
  }

  // ---- what a run hands out

  /** The machine, with a window, accepts the stream: this is where it ends. */
  ghost predicate Accepts(zlib: bool, full: Bits, end: State) {
    && end.pc.Done? && Reaches(Config(zlib, false), full, Reference.Start(Config(zlib, false)), end)
    && (zlib ==> W.CheckIs(end.pc.check, end.out))
  }

  /** What a window accepts, flat decoding turns into the same text. */
  lemma AcceptedInflates(zlib: bool, bytes: seq<byte>, end: State)
    requires Accepts(zlib, ByteBits(bytes), end)
    ensures W.Inflates(zlib, bytes, end.out)
  {
    hide Reaches, ByteBits, W.CheckIs;
    StreamTheorems.FlatReaches(ByteBits(bytes), zlib, end);
    assert W.EndsWith(zlib, bytes, end, end.out);
  }

  lemma OneAccepted(zlib: bool, full: Bits, s: State, end: State)
    requires Ended(s) && Reaches(Config(zlib, false), full, Reference.Start(Config(zlib, false)), s)
    requires Accepts(zlib, full, end)
    ensures s == end
  {
    hide Reaches, Step, W.CheckIs;
    EndedStops(Config(zlib, false), full, s);
    EndedStops(Config(zlib, false), full, end);
    StuckUnique(Config(zlib, false), full, Reference.Start(Config(zlib, false)), s, end);
  }

  lemma AcceptedOnce(zlib: bool, full: Bits, a: State, b: State)
    requires Accepts(zlib, full, a) && Accepts(zlib, full, b)
    ensures a == b
  {
    hide Reaches, W.CheckIs;
    OneAccepted(zlib, full, a, b);
  }

  lemma MachineThere(m: Stream)
    requires m.Holds()
    ensures Decided(Config(m.decomp.zlib, false), m.decomp.full)
    ensures Reaches(Config(m.decomp.zlib, false), m.decomp.full, Reference.Start(Config(m.decomp.zlib, false)),
            m.decomp.s)
    ensures m.decomp.s.out == m.decomp.output.out == m.delivered + m.dict[..][m.dictOfs..m.dictOfs + m.dictAvail]
    ensures m.decomp.input.Received() == ByteBits(m.decomp.input.base)
    ensures m.decomp.Cfg() == Config(m.decomp.zlib, false)
  {
    hide m.decomp.Rel, Mirrors, Reaches, Decided, ByteBits, m.decomp.CheckOk;
    assert m.decomp.input.all == m.decomp.input.base;
  }

  /** At any time the bytes handed out, in order and once each, begin what decoding into one flat buffer
      gives. */
  lemma DeliveredBegins(m: Stream, f: I.Tinfl)
    requires m.Holds()
    requires f.Inv() && f.full == m.decomp.full && f.zlib == m.decomp.zlib && f.output.flat && Ended(f.s)
    ensures m.delivered <= f.output.out
  {
    hide m.decomp.Inv, f.Inv, m.decomp.CheckOk, m.decomp.Idle;
    StreamTheorems.WindowBeginsFlat(m.decomp, f);
  }

  /** At the end of the stream they are all of it. */
  lemma DeliveredIsFlat(m: Stream, f: I.Tinfl)
    requires m.Holds() && m.StatusOk() && m.dictAvail == 0 && m.lastStatus.Finished?
    requires f.Inv() && f.full == m.decomp.full && f.zlib == m.decomp.zlib && f.output.flat && Ended(f.s)
    ensures m.delivered == f.output.out && f.s.pc.Done?
  {
    hide m.decomp.Inv, f.Inv, m.decomp.CheckOk, m.decomp.Idle;
    assert m.dict[..][m.dictOfs..m.dictOfs + 0] == [];
    assert m.delivered + [] == m.delivered;
    StreamTheorems.WindowIsFlat(m.decomp, f);
  }

  lemma NothingWaiting(m: Stream)
    requires m.Holds()
    ensures m.dictOfs + m.dictAvail <= |m.dict[..]|
    ensures m.dictAvail == 0 ==> m.delivered == m.delivered + m.dict[..][m.dictOfs..m.dictOfs + m.dictAvail]
  {
    hide m.decomp.Inv, m.decomp.CheckOk, m.decomp.Idle;
  }

  /** What the last status says about the whole stream. */
  lemma StatusDecides(m: Stream)
    requires m.Holds() && m.StatusOk()
    ensures m.lastStatus.Finished? && m.dictAvail == 0 ==>
              Accepts(m.decomp.zlib, m.decomp.full, m.decomp.s) && m.delivered == m.decomp.s.out
    ensures m.lastStatus.Failure? || m.lastStatus.AdlerMismatch? ==>
              forall end :: !Accepts(m.decomp.zlib, m.decomp.full, end)
    ensures m.lastStatus.NeedsMoreInput? || m.lastStatus.CannotProgress? ==>
              ByteBits(m.decomp.input.base) != m.decomp.full
    ensures forall end :: Accepts(m.decomp.zlib, m.decomp.full, end) ==> m.delivered <= end.out
  {
    hide m.Holds, Reaches, Step, ByteBits, Decided, I.Shifted, Adler32.Checksum, Adler32.Pack, Adler32.Unpack, OwesByte;
    MachineThere(m);
    var zlib, full, s := m.decomp.zlib, m.decomp.full, m.decomp.s;
    NothingWaiting(m);
    forall end | Accepts(zlib, full, end)
      ensures m.delivered <= end.out && !m.lastStatus.Failure? && !m.lastStatus.AdlerMismatch?
    {
      OutputGrows(m.decomp.Cfg(), full, s, end);
      if Ended(s) { OneAccepted(zlib, full, s, end); }
    }
    if (m.lastStatus.NeedsMoreInput? || m.lastStatus.CannotProgress?) && ByteBits(m.decomp.input.base) == full {
      OnlyEnd(m.decomp.Cfg(), full, s);
      EndedStops(m.decomp.Cfg(), full, s);
      assert false;
    }
  }

  /** One more call, without flushing. */
  method CallAgain(m: Stream, nextIn: array<byte>, inStart: nat, inDone: nat, nextOut: array<byte>, outStart: nat,
      outDone: nat,
                   ghost base: seq<byte>, ghost given: seq<byte>)
    returns (code: Code, inUsed: nat, outUsed: nat)
    requires m.Holds() && m.StatusOk() && !m.hasFlushed && !Failing(m.lastStatus)
    requires m.Exchanged(nextIn, inStart, inDone, nextOut, outStart, outDone, base, given)
    requires m.CallOk(nextIn, inStart + inDone, nextOut, outStart + outDone)
    modifies m, nextOut, m.decomp, m.decomp.input, m.decomp.output, m.dict,
             m.decomp.t0, m.decomp.t0.lookup, m.decomp.t0.tree, m.decomp.t1, m.decomp.t1.lookup, m.decomp.t1.tree,
             m.decomp.t2, m.decomp.t2.lookup, m.decomp.t2.tree
    ensures m.Holds() && m.StatusOk() && !m.hasFlushed && m.decomp.full == old(m.decomp.full)
    ensures m.Exchanged(nextIn, inStart, inUsed, nextOut, outStart, outUsed, base, given)
    ensures m.CallOk(nextIn, inStart + inUsed, nextOut, outStart + outUsed)
    ensures code != StreamError && (code == DataError <==> Failing(m.lastStatus)) && !m.lastStatus.CannotProgress?
    ensures code == StreamEnd ==> m.lastStatus.Finished? && m.dictAvail == 0
    ensures code == BufError ==> m.lastStatus.NeedsMoreInput? && inStart + inUsed == nextIn.Length
    ensures code == Okay && outStart + outDone < nextOut.Length ==> inUsed + outUsed > inDone + outDone
    ensures inUsed >= inDone && outUsed >= outDone
  {
    hide m.Holds, m.StatusOk, m.decomp.ReceivedWith;
    ghost var p, q := inStart + inDone, outStart + outDone;
    ghost var head := nextOut[..q];
    var i, o;
    code, i, o := m.Inflate(nextIn, inStart + inDone, nextOut, outStart + outDone, NoFlush);
    assert nextIn[inStart..p] + nextIn[p..p + i] == nextIn[inStart..p + i];
    assert nextOut[outStart..q] == head[outStart..];
    assert nextOut[outStart..q] + nextOut[q..q + o] == nextOut[outStart..q + o];
    inUsed, outUsed := inDone + i, outDone + o;
  }

  /** With the whole stream at hand the input never runs out. */
  lemma AllReceived(m: Stream, nextIn: array<byte>, inStart: nat, inUsed: nat, nextOut: array<byte>, outStart: nat,
      outUsed: nat,
                    base: seq<byte>, given: seq<byte>)
    requires m.Holds() && m.StatusOk() && m.Exchanged(nextIn, inStart, inUsed, nextOut, outStart, outUsed, base, given)
    requires m.decomp.full == ByteBits(base + nextIn[inStart..])
    ensures inStart + inUsed == nextIn.Length ==> !m.lastStatus.NeedsMoreInput?
  {
    hide m.Holds, m.StatusOk, ByteBits, Accepts;
    StatusDecides(m);
    if inStart + inUsed == nextIn.Length {
      assert nextIn[inStart..] == nextIn[inStart..inStart + inUsed];
    }
  }

  /** The loop that mz_inflate is made for, once the whole stream is at hand: call it until it has no more
      to give or the room is used up. It ends, with the whole text of a valid stream if there is room for
      one byte more, and with an error only for an invalid one. */
  method InflateRest(m: Stream, nextIn: array<byte>, inStart: nat, nextOut: array<byte>, outStart: nat)
    returns (code: Code, outUsed: nat)
    requires m.Holds() && m.StatusOk() && !m.hasFlushed && !Failing(m.lastStatus)
    requires m.CallOk(nextIn, inStart, nextOut, outStart)
    requires m.decomp.ReceivedWith(nextIn, inStart) == m.decomp.full
    modifies m, nextOut, m.decomp, m.decomp.input, m.decomp.output, m.dict,
             m.decomp.t0, m.decomp.t0.lookup, m.decomp.t0.tree, m.decomp.t1, m.decomp.t1.lookup, m.decomp.t1.tree,
             m.decomp.t2, m.decomp.t2.lookup, m.decomp.t2.tree
    ensures m.Holds() && m.decomp.full == old(m.decomp.full)
    ensures outStart + outUsed <= nextOut.Length
    ensures m.delivered == old(m.delivered) + nextOut[outStart..outStart + outUsed]
    ensures code == StreamEnd || code == DataError || (code == Okay && outStart + outUsed == nextOut.Length)
    ensures code == StreamEnd ==>
              exists end :: Accepts(m.decomp.zlib, m.decomp.full, end) && m.delivered == end.out
    ensures code == DataError ==> forall end :: !Accepts(m.decomp.zlib, m.decomp.full, end)
    ensures forall end :: Accepts(m.decomp.zlib, m.decomp.full, end) ==>
              && m.delivered <= end.out
              && (|end.out| < |old(m.delivered)| + nextOut.Length - outStart ==>
                code == StreamEnd && m.delivered == end.out)
  {
    hide m.Holds, m.StatusOk, Accepts, ByteBits, m.Exchanged;
    ghost var base, given := m.decomp.input.base, m.delivered;
    ghost var whole := base + nextIn[inStart..];
    var inUsed := 0;
    code, outUsed := Okay, 0;
    m.NothingExchanged(nextIn, inStart, nextOut, outStart);
    while code == Okay && outStart + outUsed < nextOut.Length
      invariant m.Holds() && m.StatusOk() && m.decomp.full == ByteBits(whole) == old(m.decomp.full) && !m.hasFlushed
      invariant m.Exchanged(nextIn, inStart, inUsed, nextOut, outStart, outUsed, base, given)
      invariant m.CallOk(nextIn, inStart + inUsed, nextOut, outStart + outUsed) && nextIn[..] == old(nextIn[..])
      invariant code == Okay ==> !Failing(m.lastStatus)
      invariant code == DataError ==> m.lastStatus.Failure? || m.lastStatus.AdlerMismatch?
      invariant code == StreamEnd ==> m.lastStatus.Finished? && m.dictAvail == 0
      invariant code == StreamEnd || code == DataError || code == Okay
      decreases code == Okay, nextIn.Length - inUsed + nextOut.Length - outUsed
    {
      code, inUsed, outUsed := CallAgain(m, nextIn, inStart, inUsed, nextOut, outStart, outUsed, base, given);
      assert base + nextIn[inStart..] == whole;
      AllReceived(m, nextIn, inStart, inUsed, nextOut, outStart, outUsed, base, given);
    }
    StatusDecides(m);
    forall end | Accepts(m.decomp.zlib, m.decomp.full, end) && code == StreamEnd
      ensures end == m.decomp.s
    {
      AcceptedOnce(m.decomp.zlib, m.decomp.full, end, m.decomp.s);
    }
    Handed(m, nextIn, inStart, inUsed, nextOut, outStart, outUsed, base, given);
  }

  lemma Handed(m: Stream, nextIn: array<byte>, inStart: nat, inUsed: nat, nextOut: array<byte>, outStart: nat,
      outUsed: nat,
               base: seq<byte>, given: seq<byte>)
    requires m.Exchanged(nextIn, inStart, inUsed, nextOut, outStart, outUsed, base, given)
    ensures outStart + outUsed <= nextOut.Length && m.delivered == given + nextOut[outStart..outStart + outUsed]
  {
  }

  /** A first call of mz_inflate with MZ_FINISH: everything at once, straight into the caller's buffer. */
  method InflateAtOnce(zlib: bool, nextIn: array<byte>, inStart: nat, nextOut: array<byte>)
      returns (code: Code, inUsed: nat, outUsed: nat)
    requires inStart <= nextIn.Length && nextIn != nextOut && Decided(Config(zlib, true), ByteBits(nextIn[inStart..]))
    modifies nextOut
    ensures inStart + inUsed <= nextIn.Length && outUsed <= nextOut.Length
            && (code == StreamEnd || code == BufError || code == DataError)
    ensures code == StreamEnd ==> W.Inflates(zlib, nextIn[inStart..], nextOut[..outUsed])
    ensures code == BufError ==>
              outUsed == nextOut.Length && forall text :: W.Inflates(zlib, nextIn[inStart..], text) ==>
                |text| > nextOut.Length
    ensures code == DataError ==> forall text :: !W.Inflates(zlib, nextIn[inStart..], text)
  {
    hide Decided, ByteBits, W.Inflates;
    var status;
    status, inUsed, outUsed := W.Inflate(zlib, nextIn, inStart, nextOut, nextOut.Length);
    if status.Failure? || status.AdlerMismatch? || status.CannotProgress? {
      code := DataError;
    } else if !status.Finished? {
      code := BufError;
    } else {
      code := StreamEnd;
    }
  }
}
