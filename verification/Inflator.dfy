/** tinfl_decompress: the decompressor as a coroutine that can be suspended at any of its points and
    resumed with other input and output buffers. */
module Inflator {
  import opened Bytes
  import opened Bits
  import opened Canonical
  import opened InflateTable
  import opened Tokens
  import opened Reference
  import opened BlockFormat
  import opened BlockHeaders
  import opened CodeLengthRle
  import opened DecodeTrie
  import opened DecodeTable
  import opened HuffDecode
  import opened BitReader
  import opened OutWindow
  import opened DecodeRuns
  import opened InflateSteps
  import Adler32

  /** m_state: where the coroutine goes on. The numbers are those of the source. */
  datatype Point =
    | Begin            //  0
    | ZHdr0            //  1
    | ZHdr1            //  2
    | BlockHead        //  3
    | RawHeader        //  6, 7
    | RawBits          // 51
    | RawEmit          // 52
    | RawCopy          //  9, 38
    | TableSize        // 11
    | LenLen           // 14
    | LenCode          // 16
    | LenExtra         // 18
    | LitSymbol        // 23
    | LitEmit          // 24
    | LengthExtra      // 25
    | DistSymbol       // 26
    | DistExtra        // 27
    | CopyByte         // 53
    | CheckByte        // 41, 42
    | AtEnd            // 34
    | Rejected         // 10, 17, 21, 35, 36, 37, 39

  datatype Status = Finished | NeedsMoreInput | HasMoreOutput | Failure | AdlerMismatch | CannotProgress

  /** What one round of the coroutine comes to. */
  datatype Round = Going | Waits | NoRoom | Ends

  /** Points that can be left without taking or giving a byte come before those they lead to. */
  function Rank(p: Point): nat {
    if p.Begin? then 3 else if p.RawBits? then 2 else if p.RawCopy? || p.LenCode? then 1 else 0
  }

  /** m_z_adler32 after some bytes of the trailer; it starts at 1, which is shifted out. */
  function Shifted(check: seq<byte>): (a: nat)
    ensures a < 0x1_0000_0000
  {
    if check == [] then 1 else (Shifted(check[..|check| - 1]) * 256 + check[|check| - 1]) % 0x1_0000_0000
  }

  /** A step to a state of which the stream allows no other. */
  lemma Go(cfg: Config, full: Bits, s: State, t: State)
    requires OnTrack(cfg, full, s) && Step(cfg, full, s) == Next(t)
    ensures OnTrack(cfg, full, t) && !t.pc.Unspecified?
  {
    hide Reaches, Step, OnTrack;
    EndedHasNoNext(cfg, full, s);
    Continues(cfg, full, s);
    NeverUnspecified(cfg, full, t);
  }

  lemma EndedHasNoNext(cfg: Config, full: Bits, s: State)
    ensures Ended(s) ==> !Step(cfg, full, s).Next?
  {
    hide Step;
    if Ended(s) { EndedStops(cfg, full, s); }
  }

  lemma {:induction false} UnzigzagPrefix(got: seq<nat>, v: nat, n: nat)
    requires n <= |got| < 19
    ensures Unzigzag(got + [v], n) == Unzigzag(got, n)
  {
    hide ORDER;
    if n > 0 { UnzigzagPrefix(got, v, n - 1); }
  }

  /** The place of the next length of the code-length code. */
  function Dezigzag(i: nat): (j: nat)
    requires i < 19
    ensures j < 19
  {
    OrderInRange(i);
    ORDER[i]
  }

  lemma UnzigzagMore(got: seq<nat>, v: nat)
    requires |got| < 19
    ensures Unzigzag(got + [v], |got| + 1) == Unzigzag(got, |got|)[Dezigzag(|got|) := v]
  {
    hide ORDER;
    UnzigzagPrefix(got, v, |got|);
  }

  lemma {:induction false} UnzigzagSmall(got: seq<nat>, n: nat)
    requires n <= |got| && n <= 19 && forall i :: 0 <= i < |got| ==> got[i] < 8
    ensures WellFormed(Unzigzag(got, n))
  {
    hide ORDER;
    if n > 0 {
      UnzigzagSmall(got, n - 1);
      OrderInRange(n - 1);
    }
  }

  class Tinfl {
    const t0: Table
    const t1: Table
    const t2: Table
    const input: BitSource
    const output: Output
    const zlib: bool
    var point: Point
    var zhdr0: byte
    var fin: bool
    var raw: seq<byte>
    var sizes: seq<nat>
    var codeSize0: seq<nat>
    var codeSize1: seq<nat>
    var codeSize2: seq<nat>
    var lenCodes: seq<nat>
    var counter: nat
    var dist: nat
    var numExtra: nat
    var distFrom: nat
    var zAdler: nat
    var checkAdler: nat
    /** The lengths of the code-length code in the order received. */
    ghost var got2: seq<nat>
    /** The whole stream, of which more and more is received, and the state of the machine on it. */
    ghost var full: Bits
    ghost var s: State
    /** No call has failed so far. */
    ghost var live: bool

    ghost function Cfg(): Config
      reads output`flat
    {
      Config(zlib, output.flat)
    }

    ghost predicate Wired()
      reads input`inBuf, output`buf
    {
      && t0.Shape() && t1.Shape() && t2.Shape()
      && TreeRoom(t0.tree.Length, 288) && TreeRoom(t1.tree.Length, 32) && TreeRoom(t2.tree.Length, 19)
      && t0 != t1 && t1.lookup != t0.lookup && t1.lookup != t0.tree && t1.tree != t0.lookup && t1.tree != t0.tree
      && input.inBuf != output.buf
    }

    /** The tables decode these lengths. */
    ghost predicate Ready(t: Tables)
      reads t0, t0.lookup, t0.tree, t1, t1.lookup, t1.tree
    {
      t0.Decodes(t.lit) && t1.Decodes(t.dist) && |t.lit| <= 288 && |t.dist| <= 32
    }

    ghost predicate SizesOk()
      reads this`sizes
    {
      |sizes| == 3 && sizes[0] <= 288 && sizes[1] <= 32 && 4 <= sizes[2] <= 19
    }

    ghost predicate RelHeader()
      reads this`point, this`s, this`zhdr0, input`numBits, output`flat
    {
      match point
      case Begin => s == Reference.Start(Config(zlib, output.flat)) && input.numBits == 0
      case ZHdr0 => s.pc == Zlib([]) && input.numBits == 0
      case ZHdr1 => s.pc == Zlib([zhdr0]) && input.numBits == 0
      case _ => true
    }

    ghost predicate RelStored()
      reads this`point, this`s, this`fin, this`raw, this`counter, this`dist, input`numBits
    {
      match point
      case RawHeader => s.pc == StoredHead(fin, raw) && |raw| < 4
      case RawBits => s.pc == Stored(fin, counter)
      case RawEmit => s.pc.StoredEmit? && s.pc == StoredEmit(fin, counter, s.pc.b) && dist == s.pc.b && counter > 0
      case RawCopy => s.pc == Stored(fin, counter) && (counter > 0 ==> input.numBits == 0)
      case _ => true
    }

    ghost predicate RelSizes()
      reads this`point, this`s, this`fin, this`sizes, this`counter, this`got2, this`codeSize2
    {
      match point
      case TableSize => s.pc == Sizes(fin, sizes) && SomeSizes()
      case LenLen =>
        && SizesOk() && s.pc == LenLens(fin, sizes[0], sizes[1], sizes[2], got2) && counter == |got2| < sizes[2]
        && codeSize2 == Unzigzag(got2, |got2|) && forall i :: 0 <= i < |got2| ==> got2[i] < 8
      case _ => true
    }

    /** The code lengths of the two alphabets are being received. */
    ghost predicate Receiving()
      reads this`sizes, this`counter, this`lenCodes, this`codeSize2, t2, t2.lookup, t2.tree
    {
      && SizesOk() && t2.Decodes(codeSize2) && |codeSize2| == 19
      && counter == |lenCodes| <= 457 && forall i :: 0 <= i < |lenCodes| ==> lenCodes[i] < 16
    }

    ghost predicate RelLens()
      reads this`point, this`s, this`fin, this`sizes, this`counter, this`lenCodes, this`codeSize2, this`dist,
            this`numExtra, t2, t2.lookup, t2.tree
    {
      match point
      case LenCode => Receiving() && s.pc == LenCodes(fin, sizes[0], sizes[1], codeSize2, lenCodes)
      case LenExtra =>
        && Receiving() && s.pc == LenRun(fin, sizes[0], sizes[1], codeSize2, lenCodes, dist)
        && 16 <= dist <= 18 && (dist == 16 ==> lenCodes != []) && numExtra == ExtraBits(dist)
        && counter < sizes[0] + sizes[1]
      case _ => true
    }

    ghost predicate RelSymbol()
      reads this`point, this`s, this`fin, this`counter, this`numExtra, t0, t0.lookup, t0.tree, t1, t1.lookup, t1.tree
    {
      match point
      case LitSymbol => s.pc.Symbol? && s.pc.fin == fin && Ready(s.pc.t)
      case LitEmit => s.pc.Emit? && s.pc.fin == fin && Ready(s.pc.t) && counter == s.pc.b
      case LengthExtra =>
        && s.pc.LenBits? && s.pc.fin == fin && Ready(s.pc.t) && 257 <= s.pc.sym <= 287
        && counter == LENGTH_BASE[s.pc.sym - 257] && numExtra == LENGTH_EXTRA[s.pc.sym - 257] && numExtra > 0
      case _ => true
    }

    ghost predicate RelDist()
      reads this`point, this`s, this`fin, this`counter, this`numExtra, this`dist, this`distFrom, t0, t0.lookup,
            t0.tree, t1, t1.lookup, t1.tree, output`flat
    {
      match point
      case DistSymbol => s.pc.DistCode? && s.pc.fin == fin && Ready(s.pc.t) && counter == s.pc.len
      case DistExtra =>
        && s.pc.DistBits? && s.pc.fin == fin && Ready(s.pc.t) && counter == s.pc.len && s.pc.sym <= 31
        && dist == DIST_BASE[s.pc.sym] && numExtra == DIST_EXTRA[s.pc.sym] && numExtra > 0
      case CopyByte => Copying() && s.pc.len == counter + 1
      case _ => true
    }

    ghost predicate RelEnd()
      reads this`point, this`s, this`counter, this`zAdler, input`numBits
    {
      match point
      case BlockHead => s.pc == Head
      case CheckByte =>
        && zlib && s.pc.Trailer? && |s.pc.check| == counter < 4 && zAdler == Shifted(s.pc.check)
        && input.numBits == 0
      case AtEnd => s.pc.Done? && (zlib ==> zAdler == Shifted(s.pc.check)) && input.numBits == 0
      case Rejected => s.pc.Failed?
      case _ => true
    }

    /** How the coroutine's variables stand for the state of the machine. */
    ghost predicate Rel()
      reads this`point, this`s, this`zhdr0, this`fin, this`raw, this`counter, this`dist, this`sizes, this`got2,
            this`codeSize2, this`lenCodes,
            this`numExtra, this`distFrom, this`zAdler, input`numBits, t0, t0.lookup, t0.tree, t1, t1.lookup, t1.tree,
            t2, t2.lookup, t2.tree, output`flat
    {
      && (!point.CheckByte? && !point.AtEnd? && !point.Begin? ==> zAdler == 1)
      && match point
         case Begin => RelHeader()
         case ZHdr0 => RelHeader()
         case ZHdr1 => RelHeader()
         case RawHeader => RelStored()
         case RawBits => RelStored()
         case RawEmit => RelStored()
         case RawCopy => RelStored()
         case TableSize => RelSizes()
         case LenLen => RelSizes()
         case LenCode => RelLens()
         case LenExtra => RelLens()
         case LitSymbol => RelSymbol()
         case LitEmit => RelSymbol()
         case LengthExtra => RelSymbol()
         case DistSymbol => RelDist()
         case DistExtra => RelDist()
         case CopyByte => RelDist()
         case BlockHead => RelEnd()
         case CheckByte => RelEnd()
         case AtEnd => RelEnd()
         case Rejected => RelEnd()
    }

    ghost predicate SomeSizes()
      reads this`sizes, this`counter
    {
      && counter == |sizes| < 3 && (|sizes| > 0 ==> sizes[0] <= 288) && (|sizes| > 1 ==> sizes[1] <= 32)
    }

    /** In the middle of a match. */
    ghost predicate Copying()
      reads this`s, this`fin, this`dist, this`distFrom, t0, t0.lookup, t0.tree, t1, t1.lookup, t1.tree, output`flat
    {
      && s.pc.Copy? && s.pc.fin == fin && Ready(s.pc.t) && s.pc.dist == dist && 1 <= dist <= |s.out| && dist <= WINDOW
      && if output.flat then distFrom == |s.out| else distFrom % WINDOW == |s.out| % WINDOW
    }

    /** Of the bytes consumed by earlier calls less than a byte is left, or all that is left of them belongs
        to the item that the machine waits for. */
    ghost predicate Carried()
      reads this`s, this`full, input`base, output`flat
    {
      && ByteBits(input.base) <= full
      && (s.pos > 8 * |input.base| - 8 || Step(Cfg(), ByteBits(input.base), s) == Starved)
    }

    /** The input is part of the stream, and the machine's state on it is on track. */
    ghost predicate Behind()
      reads this`s, this`full, input`all, input`base, input`inBuf, output`buf, output`flat
    {
      Wired() && input.Received() <= full && OnTrack(Cfg(), full, s) && Carried()
    }

    /** Everything but the relation between the variables and the state of the machine. */
    ghost predicate Base()
      reads this`s, this`full, input, input.inBuf, output, output.buf
    {
      Behind() && input.Holds() && output.Holds() && s.pos == input.Pos() && s.out == output.out
    }

    ghost predicate Inv()
      reads this, input, input.inBuf, output, output.buf, t0, t0.lookup, t0.tree, t1, t1.lookup, t1.tree, t2,
            t2.lookup, t2.tree
    {
      Base() && Rel()
    }

    /** Bits to come and room left in the buffers of this call. */
    ghost function Left(): int
      reads input`all, input`base, input`inCur, input`inNext, input`numBits, output`end, output`cur
    {
      8 * |input.all| - input.Pos() + output.end - output.cur
    }

    /** The result of a round: it made progress, or the machine itself cannot go on. */
    twostate predicate Outcome(r: Round)
      reads this, input, input.inBuf, output, output.buf
    {
      match r
      case Going => Left() < old(Left()) || (Left() == old(Left()) && Rank(point) < Rank(old(point)))
      case Waits => input.inCur == input.inBuf.Length && Step(Cfg(), input.Received(), s) == Starved
      case NoRoom => output.cur == output.end && OwesByte(s)
      case Ends => Ended(s)
    }

    /** tinfl_init, for a stream that the machine accepts or rejects. */
    constructor (z: bool, flat: bool, outBuf: array<byte>, ghost stream: Bits)
      requires Decided(Config(z, flat), stream) && (!flat ==> outBuf.Length == WINDOW)
      ensures Inv() && zlib == z && output.flat == flat && full == stream && output.out == [] && point == Begin
              && input.base == []
      ensures fresh(t0) && fresh(t1) && fresh(t2) && fresh(input) && fresh(output) && output.buf == outBuf
      ensures fresh(t0.lookup) && fresh(t0.tree) && fresh(t1.lookup) && fresh(t1.tree) && fresh(t2.lookup)
              && fresh(t2.tree)
      ensures Idle() && fresh(input.inBuf) && live && CheckOk()
    {
      hide *;
      var a := new Table(576);
      var b := new Table(64);
      var c := new Table(38);
      var none := new byte[0];
      var inp := new BitSource(none);
      var outp := new Output(outBuf, flat);
      t0, t1, t2, input, output, zlib := a, b, c, inp, outp, z;
      point, zhdr0, fin, raw, sizes := Begin, 0, false, [], [];
      codeSize0, codeSize1, codeSize2, lenCodes := [], [], [], [];
      counter, dist, numExtra, distFrom, zAdler, checkAdler := 0, 0, 0, 0, 1, 1;
      got2, full, s, live := [], stream, Reference.Start(Config(z, flat)), true;
      new;
      Started();
    }

    lemma Started()
      requires t0.lookup.Length == t1.lookup.Length == t2.lookup.Length == FAST_SIZE
      requires t0.lookup != t0.tree && t1.lookup != t1.tree && t2.lookup != t2.tree
      requires t0.tree.Length == 576 && t1.tree.Length == 64 && t2.tree.Length == 38
      requires t0 != t1 && t1.lookup != t0.lookup && t1.lookup != t0.tree && t1.tree != t0.lookup && t1.tree != t0.tree
      requires input.inBuf != output.buf && input.Holds() && output.Holds() && input.inBuf.Length == 0
               && input.base == [] && input.inCur == input.inNext == 0 && input.numBits == 0
      requires Decided(Config(zlib, output.flat), full) && s == Reference.Start(Config(zlib, output.flat))
               && output.out == [] && point == Begin
      requires checkAdler == 1 && input.inNext == 0
      ensures Inv() && Idle() && CheckOk()
    {
      hide Reaches, Decided, Mirrors, Pow2, BitsOf;
      assert input.all == [];
      ReachesSelf(Cfg(), full, s);
    }

    /** m_check_adler32 covers all output. */
    ghost predicate CheckOk()
      reads this`checkAdler, this`live, output`out
    {
      Summed(output.out)
    }

    /** m_check_adler32 is a check value, and that of this data unless a call failed. */
    ghost predicate Summed(data: seq<byte>)
      reads this`checkAdler, this`live
    {
      && checkAdler < 0x1_0000_0000 && Adler32.Reduced(Adler32.Unpack(checkAdler))
      && (zlib && live ==> checkAdler == Adler32.Pack(Adler32.Checksum(Adler32.Unpack(1), data)))
    }

    // ---- steps of the machine

    ghost method Advance(t: State)
      requires Behind() && Step(Cfg(), full, s) == Next(t)
      modifies this`s
      ensures Behind() && s == t && !t.pc.Unspecified?
    {
      hide OnTrack, Step, Wired, ByteBits;
      Go(Cfg(), full, s, t);
      CarriedOn(t);
      s := t;
    }

    /** The item waited for takes all that earlier calls left. */
    lemma CarriedOn(t: State)
      requires Carried() && OnTrack(Cfg(), full, s) && Step(Cfg(), full, s) == Next(t) && !t.pc.Unspecified?
      ensures t.pos > 8 * |input.base| - 8
    {
      hide Reaches, Decided, Step, ByteBits;
      var n := 8 * |input.base|;
      assert full[..n] == ByteBits(input.base);
      if s.pos > n - 8 {
        StepForward(Cfg(), full, s);
      } else if t.pos <= n {
        TrackCodesOk(Cfg(), full, s);
        StepPart(Cfg(), full, n, s);
        assert false;
      }
    }

    lemma HaveByte(c: byte)
      requires Behind() && GetByte(input.Received(), s.pos) == Some(c)
      ensures GetByte(full, s.pos) == Some(c)
    {
      hide OnTrack, Wired, ByteBits, GetByte;
      ByteInFull(input.Received(), full, s.pos);
    }

    lemma HaveBits(n: nat, v: nat)
      requires Behind() && GetBits(input.Received(), s.pos, n) == Some(v)
      ensures GetBits(full, s.pos, n) == Some(v)
    {
      hide OnTrack, Wired, ByteBits, GetBits;
      BitsInFull(input.Received(), full, s.pos, n);
    }

    // ---- the relation, group by group

    lemma HeaderRel()
      requires RelHeader() && (point.Begin? || point.ZHdr0? || point.ZHdr1?) && (!point.Begin? ==> zAdler == 1)
      ensures Rel()
    {
      hide RelHeader;
    }

    lemma StoredRel()
      requires RelStored() && (point.RawHeader? || point.RawBits? || point.RawEmit? || point.RawCopy?) && zAdler == 1
      ensures Rel()
    {
      hide RelStored;
    }

    lemma SizesRel()
      requires RelSizes() && (point.TableSize? || point.LenLen?) && zAdler == 1
      ensures Rel()
    {
      hide RelSizes;
    }

    lemma LensRel()
      requires RelLens() && (point.LenCode? || point.LenExtra?) && zAdler == 1
      ensures Rel()
    {
      hide RelLens;
    }

    lemma SymbolRel()
      requires RelSymbol() && (point.LitSymbol? || point.LitEmit? || point.LengthExtra?) && zAdler == 1
      ensures Rel()
    {
      hide RelSymbol;
    }

    lemma DistRel()
      requires RelDist() && (point.DistSymbol? || point.DistExtra? || point.CopyByte?) && zAdler == 1
      ensures Rel()
    {
      hide RelDist;
    }

    lemma EndRel()
      requires RelEnd() && (point.CheckByte? || point.AtEnd? || ((point.BlockHead? || point.Rejected?) && zAdler == 1))
      ensures Rel()
    {
      hide RelEnd;
    }

    // ---- zlib header

    method BeginStep() returns (r: Round)
      requires Base() && point == Begin && RelHeader()
      modifies this`point, this`zAdler, this`counter, this`dist, this`numExtra
      ensures Inv() && Outcome(r)
    {
      hide input.Holds, output.Holds, Behind, Step, input.Received, Rel;
      zAdler, counter, dist, numExtra := 1, 0, 0, 0;
      if zlib {
        point := ZHdr0;
        HeaderRel();
      } else {
        point := BlockHead;
        EndRel();
      }
      r := Going;
    }

    /** The two bytes of the header. */
    method HeaderByte() returns (r: Round)
      requires Base() && (point == ZHdr0 || point == ZHdr1) && RelHeader() && zAdler == 1
      modifies this`point, this`zhdr0, this`s, input`inCur
      ensures Inv() && Outcome(r)
    {
      hide input.Holds, output.Holds, Behind, Step, GetByte, BadHeader, WrongHeader, input.Received, Rel;
      var ok, c := input.GetByte();
      if !ok {
        ByteStarved(Cfg(), input.Received(), s);
        HeaderRel();
        return Waits;
      }
      HaveByte(c);
      ZlibStep(Cfg(), full, s, c);
      Advance(Step(Cfg(), full, s).s);
      r := Going;
      if point == ZHdr0 {
        zhdr0 := c;
        point := ZHdr1;
        HeaderRel();
      } else {
        HeaderCheck(Cfg(), zhdr0, c);
        point := if WrongHeader(output.flat, zhdr0, c) then Rejected else BlockHead;
        EndRel();
      }
    }

    /** The checks on the header bytes; a window must be as large as they ask for. */
    function WrongHeader(flat: bool, cmf: byte, flg: byte): bool {
      || ((cmf as int) * 256 + flg) % 31 != 0 || (flg / 32) % 2 == 1 || cmf % 16 != 8
      || (!flat && (Pow2(8 + cmf / 16) > 32768 || WINDOW < Pow2(8 + cmf / 16)))
    }

    lemma HeaderCheck(cfg: Config, cmf: byte, flg: byte)
      ensures WrongHeader(cfg.flat, cmf, flg) == BadHeader(cfg, cmf, flg)
    {
      var k := cmf / 16;
      Pow15();
      if k > 7 { Pow2Monotone(16, 8 + k); } else { Pow2Monotone(8 + k, 15); }
    }

    // ---- block header

    /** Behind the last block no whole byte of an earlier call is left. */
    lemma NothingCarried()
      requires Carried() && (s.pc == Trailer([]) || s.pc == Done([])) && s.pos % 8 == 0
      ensures s.pos >= 8 * |input.base|
    {
      hide ByteBits;
    }

    /** Behind the last block: byte alignment, and bytes of the bit buffer that were read ahead go back, so
        that nothing is left in it. */
    method FinishBlocks()
      requires Behind() && input.Holds() && output.Holds() && zAdler == 1
      requires s.pc == (if zlib then Trailer([]) else Done([])) && s.pos == Align(input.Pos()) && s.out == output.out
      modifies this`point, this`counter, input`inCur, input`numBits, input`bitBuf
      ensures Inv() && Left() <= old(Left()) && (point.CheckByte? || point.AtEnd?) && input.numBits == 0
    {
      hide input.Holds, output.Holds, Behind, Step, input.Received, Align, Rel, Carried;
      CarriedNow();
      input.SkipToByte();
      NothingCarried();
      input.PutBack();
      if zlib {
        counter := 0;
        point := CheckByte;
      } else {
        point := AtEnd;
      }
      EndRel();
    }

    /** The end of a block: on to the next one, or past the last to the trailer. */
    method EndBlock(ghost u: State)
      requires Behind() && input.Holds() && output.Holds()
      requires Step(Cfg(), full, s) == Next(NextBlock(Cfg(), fin, u)) && u.pos == input.Pos() && u.out == output.out
      requires zAdler == 1
      modifies this`point, this`s, this`counter, input`inCur, input`numBits, input`bitBuf
      ensures Inv() && Left() <= old(Left()) && (point.BlockHead? || point.CheckByte? || point.AtEnd?)
    {
      hide input.Holds, output.Holds, Behind, Step, input.Received, Align, Rel;
      Advance(NextBlock(Cfg(), fin, u));
      if fin {
        FinishBlocks();
      } else {
        point := BlockHead;
        EndRel();
      }
    }

    /** Building the tables of the two alphabets; m_type counts down from 1 to 0. */
    method BuildBoth() returns (ok: bool)
      requires Wired() && WellFormed(codeSize0) && WellFormed(codeSize1) && |codeSize0| <= 288 && |codeSize1| <= 32
      modifies t0, t0.lookup, t0.tree, t1, t1.lookup, t1.tree
      ensures ok <==> Reference.Accepted(codeSize0) && Reference.Accepted(codeSize1)
      ensures ok ==> Ready(Tables(codeSize0, codeSize1))
    {
      hide Complete, Lonely, t0.Decodes;
      ok := t1.Build(codeSize1);
      if ok {
        ok := t0.Build(codeSize0);
      }
    }

    /** A block with the fixed codes. */
    method BeginFixed()
      requires Base() && zAdler == 1 && s.pc == Symbol(fin, StaticTables())
      modifies this`point, this`codeSize0, this`codeSize1, t0, t0.lookup, t0.tree, t1, t1.lookup, t1.tree
      ensures Inv() && Rank(point) == 0
    {
      hide input.Holds, output.Holds, Behind, Wired, Step, input.Received, Rel, StaticLit, StaticDist, WellFormed,
           Complete, Lonely, Ready;
      Wires();
      codeSize1 := StaticDist();
      codeSize0 := StaticLit();
      StaticOk();
      StaticWell();
      var ok := BuildBoth();
      point := LitSymbol;
      SymbolRel();
    }

    lemma CarriedNow()
      requires Behind()
      ensures Carried()
    {
      hide Carried;
    }

    lemma Wires()
      requires Behind()
      ensures Wired()
    {
      hide Wired;
    }

    lemma StaticWell()
      ensures WellFormed(StaticLit()) && WellFormed(StaticDist())
    {
    }

    /** A raw block: its header is byte-aligned. */
    method BeginRaw()
      requires Behind() && input.Holds() && output.Holds() && zAdler == 1
      requires s.pc == StoredHead(fin, []) && s.pos == Align(input.Pos()) && s.out == output.out
      modifies this`point, this`raw, input`numBits, input`bitBuf
      ensures Inv() && Left() <= old(Left()) && Rank(point) == 0
    {
      hide input.Holds, output.Holds, Behind, Step, input.Received, Rel, Align;
      input.SkipToByte();
      raw := [];
      point := RawHeader;
      StoredRel();
    }

    /** The end of a stream that is not accepted. */
    method Reject()
      requires Base() && s.pc.Failed? && zAdler == 1
      modifies this`point
      ensures Inv() && point == Rejected
    {
      hide input.Holds, output.Holds, Behind, Step, input.Received, Rel;
      point := Rejected;
      EndRel();
    }

    method BeginSizes()
      requires Base() && s.pc == Sizes(fin, []) && zAdler == 1
      modifies this`point, this`sizes, this`counter
      ensures Inv() && Rank(point) == 0
    {
      hide input.Holds, output.Holds, Behind, Step, input.Received, Rel;
      sizes, counter := [], 0;
      point := TableSize;
      SizesRel();
    }

    /** The three bits in front of a block. */
    method HeadStep() returns (r: Round)
      requires Base() && point == BlockHead && RelEnd() && zAdler == 1
      modifies this`point, this`fin, this`raw, this`sizes, this`counter, this`codeSize0, this`codeSize1, this`s,
               input`inCur, input`numBits, input`bitBuf, t0, t0.lookup, t0.tree, t1, t1.lookup, t1.tree
      ensures Inv() && Outcome(r)
    {
      hide input.Holds, output.Holds, Behind, Step, GetBits, input.Received, Rel, StaticLit, StaticDist, Align;
      var ok, v := input.GetBits(3);
      if !ok {
        BitsStarved(Cfg(), input.Received(), s);
        EndRel();
        return Waits;
      }
      HaveBits(3, v);
      InflateSteps.HeadStep(Cfg(), full, s, v);
      Advance(Step(Cfg(), full, s).s);
      fin := v % 2 == 1;
      var kind := v / 2;
      if kind == 0 {
        BeginRaw();
      } else if kind == 3 {
        Reject();
      } else if kind == 1 {
        BeginFixed();
      } else {
        KindSmall(v);
        BeginSizes();
      }
      r := Going;
    }

    lemma KindSmall(v: nat)
      requires v < Pow2(3)
      ensures v / 2 < 4
    {
      SmallPowers();
    }

    // ---- raw blocks

    /** A byte from the bit buffer if that is not empty, else from the input buffer. */
    method AnyByte() returns (ok: bool, c: byte)
      requires input.Holds()
      modifies input`inCur, input`numBits, input`bitBuf
      ensures input.Holds() && (!ok ==> input.inCur == input.inBuf.Length && input.Pos() == old(input.Pos()))
      ensures GetByte(input.Received(), old(input.Pos())) == if ok then Some(c) else None
      ensures ok ==> input.Pos() == old(input.Pos()) + 8
      ensures old(input.numBits) == 0 ==> input.numBits == 0
    {
      EightPower();
      hide input.Holds, input.Received, ValueOf, Pow2;
      if input.numBits != 0 {
        var v;
        ok, v := input.GetBits(8);
        c := if ok then v else 0;
      } else {
        ok, c := input.GetByte();
      }
    }

    lemma EightPower()
      ensures Pow2(8) == 256
    {
      SmallPowers();
    }

    /** The length of a raw block and its complement. */
    method RawHeaderStep() returns (r: Round)
      requires Base() && point == RawHeader && RelStored() && zAdler == 1
      modifies this`point, this`raw, this`counter, this`s, input`inCur, input`numBits, input`bitBuf
      ensures Inv() && Outcome(r)
    {
      hide input.Holds, output.Holds, Behind, Step, GetByte, input.Received, Rel, BadStored, Pair;
      var ok, c := AnyByte();
      if !ok {
        ByteStarved(Cfg(), input.Received(), s);
        StoredRel();
        return Waits;
      }
      HaveByte(c);
      StoredHeadStep(Cfg(), full, s, c);
      Advance(Step(Cfg(), full, s).s);
      raw := raw + [c];
      if |raw| < 4 {
        StoredRel();
      } else {
        RawLength();
      }
      r := Going;
    }

    method RawLength()
      requires Base() && |raw| == 4 && s.pc == (if BadStored(raw) then Failed else Stored(fin, Pair(raw[0], raw[1])))
               && zAdler == 1
      modifies this`point, this`counter
      ensures Inv()
    {
      hide input.Holds, output.Holds, Behind, Step, input.Received, Rel, BadStored, Pair;
      counter := Pair(raw[0], raw[1]);
      StoredCheck(raw);
      if counter != 0xFFFF - Pair(raw[2], raw[3]) {
        Reject();
      } else {
        point := RawBits;
        StoredRel();
      }
    }

    lemma StoredCheck(raw: seq<byte>)
      requires |raw| == 4
      ensures BadStored(raw) <==> Pair(raw[0], raw[1]) != 0xFFFF - Pair(raw[2], raw[3])
    {
    }

    /** Bytes of a raw block that are in the bit buffer already. */
    method RawBitsStep() returns (r: Round)
      requires Base() && point == RawBits && RelStored() && zAdler == 1
      modifies this`point, this`dist, this`s, input`inCur, input`numBits, input`bitBuf
      ensures Inv() && Outcome(r)
    {
      hide input.Holds, output.Holds, Behind, Step, GetByte, input.Received, Rel;
      r := Going;
      if counter > 0 && input.numBits > 0 {
        var ok, c := AnyByte();
        if !ok {
          ByteStarved(Cfg(), input.Received(), s);
          StoredRel();
          return Waits;
        }
        HaveByte(c);
        StoredStep(Cfg(), full, s, c);
        Advance(Step(Cfg(), full, s).s);
        dist := c;
        point := RawEmit;
      } else {
        point := RawCopy;
      }
      StoredRel();
    }

    method RawEmitStep() returns (r: Round)
      requires Base() && point == RawEmit && RelStored() && zAdler == 1
      modifies this`point, this`counter, this`s, output`cur, output`out, output.buf
      ensures Inv() && Outcome(r)
    {
      hide input.Holds, output.Holds, Step, input.Received, Rel, Behind;
      Unshared();
      if output.cur >= output.end {
        StoredRel();
        RoomKept();
        return NoRoom;
      }
      StoredEmitStep(Cfg(), full, s);
      output.Put(dist);
      Advance(Step(Cfg(), full, s).s);
      counter := counter - 1;
      point := RawBits;
      StoredRel();
      r := Going;
    }

    lemma Unshared()
      requires Behind()
      ensures input.inBuf != output.buf
    {
    }

    lemma RoomKept()
      requires output.Holds()
      ensures output.cur <= output.end
    {
    }

    /** One byte from the input buffer to the output buffer. */
    method CopyRawByte()
      requires Base() && s.pc == Stored(fin, counter) && counter > 0 && input.numBits == 0
      requires input.inCur < input.inBuf.Length && output.cur < output.end
      modifies this`counter, this`s, input`inCur, output`cur, output`out, output.buf
      ensures Base() && s.pc == Stored(fin, counter) && counter == old(counter) - 1 && input.numBits == 0
      ensures input.inCur == old(input.inCur) + 1 && output.cur == old(output.cur) + 1
              && input.Pos() == old(input.Pos()) + 8
    {
      hide input.Holds, output.Holds, Step, GetByte, input.Received, Rel, Behind;
      Unshared();
      var ok, c := input.GetByte();
      HaveByte(c);
      StoredStep(Cfg(), full, s, c);
      Advance(Step(Cfg(), full, s).s);
      StoredEmitStep(Cfg(), full, s);
      output.Put(c);
      Advance(Step(Cfg(), full, s).s);
      counter := counter - 1;
    }

    /** The rest of a raw block, as much as both buffers allow at a time. */
    method RawCopyStep() returns (r: Round)
      requires Base() && point == RawCopy && RelStored() && zAdler == 1
      modifies this`point, this`counter, this`s, input`inCur, input`numBits, input`bitBuf, output`cur, output`out,
               output.buf
      ensures Inv() && Outcome(r)
      ensures old(counter) > 0 ==> (r.Going? <==> old(output.cur < output.end && input.inCur < input.inBuf.Length))
      ensures old(counter) > 0 && r.Going? ==>
                old(counter) - counter
                == Lesser(Lesser(old(output.end - output.cur), old(input.inBuf.Length - input.inCur)), old(counter))
    {
      hide input.Holds, output.Holds, Step, Behind, GetByte, input.Received, Rel;
      if counter == 0 {
        StoredEndStep(Cfg(), full, s);
        EndBlock(s);
        return Going;
      }
      StoredRel();
      RoomKept();
      InputKept();
      if output.cur >= output.end {
        return NoRoom;
      }
      if input.inCur >= input.inBuf.Length {
        NoByte();
        ByteStarved(Cfg(), input.Received(), s);
        return Waits;
      }
      var n := Lesser(Lesser(output.end - output.cur, input.inBuf.Length - input.inCur), counter);
      ghost var pos, cur, end, len, inCur := input.Pos(), output.cur, output.end, input.inBuf.Length, input.inCur;
      var i := 0;
      while i < n
        invariant 0 <= i <= n && Base() && s.pc == Stored(fin, counter) && input.numBits == 0
                  && counter == old(counter) - i && point == RawCopy
        invariant input.inCur == inCur + i && output.cur == cur + i && input.Pos() == pos + 8 * i
        invariant n <= end - cur && n <= len - inCur && n <= old(counter)
      {
        CopyRawByte();
        i := i + 1;
      }
      StoredRel();
      r := Going;
    }

    function Lesser(a: nat, b: nat): nat {
      if a < b then a else b
    }

    lemma InputKept()
      requires input.Holds()
      ensures input.inCur <= input.inBuf.Length
    {
    }

    lemma NoByte()
      requires input.Holds() && input.inCur == input.inBuf.Length && input.numBits == 0
      ensures GetByte(input.Received(), input.Pos()) == None
    {
    }

    // ---- header of a dynamic block

    /** The three table sizes. */
    method TableSizeStep() returns (r: Round)
      requires Base() && point == TableSize && RelSizes() && zAdler == 1
      modifies this`point, this`sizes, this`counter, this`codeSize2, this`got2, this`s, input`inCur, input`numBits,
               input`bitBuf
      ensures Inv() && Outcome(r)
    {
      hide input.Holds, output.Holds, Behind, Step, GetBits, input.Received, Rel, SizeBits, SizeBase, Unzigzag, Repeat;
      SizeWidth(counter);
      var ok, v := input.GetBits(SizeBits(counter));
      if !ok {
        BitsStarved(Cfg(), input.Received(), s);
        SizesRel();
        return Waits;
      }
      HaveBits(SizeBits(counter), v);
      SizesStep(Cfg(), full, s, v);
      Advance(Step(Cfg(), full, s).s);
      StoreSize(v);
      r := Going;
    }

    method StoreSize(v: nat)
      requires Base() && point == TableSize && zAdler == 1 && SomeSizes() && v < Pow2(SizeBits(counter))
      requires var g := sizes + [v + SizeBase(counter)];
               s.pc == if |g| < 3 then Sizes(fin, g) else LenLens(fin, g[0], g[1], g[2], [])
      modifies this`point, this`sizes, this`counter, this`codeSize2, this`got2
      ensures Inv() && Rank(point) == 0
    {
      hide input.Holds, output.Holds, Behind, Step, input.Received, Rel, SizeBits, SizeBase, Unzigzag, Repeat, Pow2;
      SizeRange(counter, v);
      sizes := sizes + [v + SizeBase(counter)];
      counter := counter + 1;
      if counter == 3 {
        NothingSent();
        codeSize2 := Repeat(0, 19);
        got2, counter := [], 0;
        point := LenLen;
      }
      SizesRel();
    }

    lemma SizeWidth(k: nat)
      requires k < 3
      ensures 4 <= SizeBits(k) <= 5
    {
    }

    lemma SizeRange(k: nat, v: nat)
      requires k < 3 && v < Pow2(SizeBits(k))
      ensures v + SizeBase(k) <= (if k == 0 then 288 else if k == 1 then 32 else 19)
              && SizeBase(k) >= (if k == 2 then 4 else 1)
    {
      SmallPowers();
    }

    lemma NothingSent()
      ensures Unzigzag([], 0) == Repeat(0, 19)
    {
    }

    /** The lengths of the code-length code; after the last its table is built. */
    method LenLenStep() returns (r: Round)
      requires Base() && point == LenLen && RelSizes() && zAdler == 1
      modifies this`point, this`counter, this`codeSize2, this`got2, this`lenCodes, this`s, input`inCur, input`numBits,
               input`bitBuf,
               t2, t2.lookup, t2.tree
      ensures Inv() && Outcome(r)
    {
      hide input.Holds, output.Holds, Behind, Step, GetBits, input.Received, Rel, Unzigzag, Reference.Accepted;
      var ok, v := input.GetBits(3);
      if !ok {
        BitsStarved(Cfg(), input.Received(), s);
        SizesRel();
        return Waits;
      }
      HaveBits(3, v);
      LenLensStep(Cfg(), full, s, v);
      Advance(Step(Cfg(), full, s).s);
      StoreLenLen(v);
      r := Going;
    }

    method StoreLenLen(v: nat)
      requires Base() && point == LenLen && zAdler == 1 && v < Pow2(3) && SizesOk() && counter == |got2| < sizes[2]
      requires codeSize2 == Unzigzag(got2, |got2|) && forall i :: 0 <= i < |got2| ==> got2[i] < 8
      requires var g := got2 + [v];
               s.pc == if |g| < sizes[2] then LenLens(fin, sizes[0], sizes[1], sizes[2], g)
                       else if Reference.Accepted(Unzigzag(g, |g|)) then LenCodes(fin, sizes[0], sizes[1],
                           Unzigzag(g, |g|), []) else Failed
      modifies this`point, this`counter, this`codeSize2, this`got2, this`lenCodes, t2, t2.lookup, t2.tree
      ensures Inv() && Rank(point) <= 1
    {
      hide input.Holds, output.Holds, Behind, Step, input.Received, Rel, Unzigzag, Reference.Accepted, Pow2;
      LenSmall(v);
      UnzigzagMore(got2, v);
      codeSize2 := codeSize2[Dezigzag(counter) := v];
      got2 := got2 + [v];
      counter := counter + 1;
      if counter < sizes[2] {
        SizesRel();
      } else {
        BeginLens();
      }
    }

    lemma LenSmall(v: nat)
      requires v < Pow2(3)
      ensures v < 8
    {
      SmallPowers();
    }

    method BeginLens()
      requires Base() && SizesOk() && zAdler == 1 && |got2| <= 19 && codeSize2 == Unzigzag(got2, |got2|)
               && forall i :: 0 <= i < |got2| ==> got2[i] < 8
      requires s.pc == if Reference.Accepted(codeSize2) then LenCodes(fin, sizes[0], sizes[1], codeSize2, [])
               else Failed
      modifies this`point, this`counter, this`lenCodes, t2, t2.lookup, t2.tree
      ensures Inv() && Rank(point) <= 1
    {
      hide input.Holds, output.Holds, OnTrack, Step, input.Received, Rel, Unzigzag, Complete, Lonely, WellFormed,
           t2.Decodes;
      UnzigzagSmall(got2, |got2|);
      var ok := t2.Build(codeSize2);
      if ok {
        lenCodes, counter := [], 0;
        point := LenCode;
        LensRel();
      } else {
        Reject();
      }
    }

    /** On track, the code of a symbol comes next. */
    lemma NextSymbol() returns (sym: nat)
      requires Base() && Decoding(s.pc)
      ensures var lens := Uses(s.pc);
              Ahead(input, lens, full, sym) && CodeAt(lens, full, s.pos, sym) && Feasible(lens)
                  && DecodeSym(lens, full, s.pos) == Sym(sym, lens[sym])
    {
      hide input.Holds, output.Holds, OnTrack, Feasible, Code, DecodeSym, ByteBits, Uses, Decoding, At;
      sym := SymbolAhead(Cfg(), full, s);
    }

    /** The machine waits as well if less than the code is there. */
    lemma NoSymbol(sym: nat)
      requires Behind() && Decoding(s.pc) && CodeAt(Uses(s.pc), full, s.pos, sym) && Feasible(Uses(s.pc))
      requires |input.Received()| - s.pos < Uses(s.pc)[sym]
      ensures Step(Cfg(), input.Received(), s) == Starved
    {
      hide OnTrack, Feasible, Code, DecodeSym, ByteBits, Uses, Decoding, Step, At;
      SymbolStarved(Cfg(), input.Received(), full, s, sym);
    }

    lemma CodeParts(lens: Lengths, bits: Bits, pos: nat, sym: nat)
      requires CodeAt(lens, bits, pos, sym)
      ensures sym < |lens| && 0 < lens[sym] <= 15
    {
    }

    /** TINFL_HUFF_DECODE with the table for the current state of the machine. */
    method NextCode(t: Table, ghost lens: Lengths) returns (ok: bool, sym: nat)
      requires Base() && Decoding(s.pc) && Uses(s.pc) == lens && t.Decodes(lens) && |lens| <= 512
      modifies input`inCur, input`numBits, input`bitBuf
      ensures input.Holds() && Behind()
      ensures ok ==>
                sym < |lens| && lens[sym] > 0 && DecodeSym(lens, full, s.pos) == Sym(sym, lens[sym])
                && input.Pos() == old(input.Pos()) + lens[sym]
      ensures !ok ==>
                Base() && input.inCur == input.inBuf.Length && input.Pos() == old(input.Pos())
                && Step(Cfg(), input.Received(), s) == Starved
    {
      hide input.Holds, output.Holds, Behind, Step, input.Received, DecodeSym, Ahead, CodeAt, Feasible, t.Decodes,
           Uses, Decoding;
      ghost var code := NextSymbol();
      CodeParts(lens, full, s.pos, code);
      ok, sym := Decode(input, t, lens, full, code);
      if !ok {
        NoSymbol(code);
      }
    }

    /** One code of the code-length alphabet, or the end of the code lengths. */
    method LenCodeStep() returns (r: Round)
      requires Base() && point == LenCode && RelLens() && zAdler == 1
      modifies this`point, this`counter, this`dist, this`numExtra, this`lenCodes, this`codeSize0, this`codeSize1,
               this`s,
               input`inCur, input`numBits, input`bitBuf, t0, t0.lookup, t0.tree, t1, t1.lookup, t1.tree
      ensures Inv() && Outcome(r)
    {
      hide input.Holds, output.Holds, Behind, Step, input.Received, Rel, DecodeSym, t2.Decodes, Reference.Accepted,
           Ready, Ended, OwesByte;
      if counter < sizes[0] + sizes[1] {
        r := OneLenCode();
      } else {
        LensDoneStep(Cfg(), full, s);
        Advance(Step(Cfg(), full, s).s);
        EndLens();
        r := Going;
      }
    }

    method OneLenCode() returns (r: Round)
      requires Base() && point == LenCode && RelLens() && zAdler == 1 && counter < sizes[0] + sizes[1]
      modifies this`point, this`counter, this`dist, this`numExtra, this`lenCodes, this`s, input`inCur, input`numBits,
               input`bitBuf
      ensures Inv() && Outcome(r)
    {
      hide input.Holds, output.Holds, Behind, Step, input.Received, Rel, DecodeSym, t2.Decodes, Reference.Accepted,
           Ready, Ended, OwesByte;
      var ok, code := NextCode(t2, codeSize2);
      if !ok {
        LensRel();
        return Waits;
      }
      LenCodesStep(Cfg(), full, s, code, codeSize2[code]);
      Advance(Step(Cfg(), full, s).s);
      TakeLenCode(code);
      r := Going;
    }

    method TakeLenCode(code: nat)
      requires Base() && point == LenCode && zAdler == 1 && Receiving() && code < 19 && counter < sizes[0] + sizes[1]
      requires s.pc == if code < 16 then LenCodes(fin, sizes[0], sizes[1], codeSize2, lenCodes + [code])
                       else if code == 16 && lenCodes == [] then Failed
                       else LenRun(fin, sizes[0], sizes[1], codeSize2, lenCodes, code)
      modifies this`point, this`counter, this`dist, this`numExtra, this`lenCodes
      ensures Inv() && Rank(point) <= 1
    {
      hide input.Holds, output.Holds, Behind, Step, input.Received, Rel, t2.Decodes;
      dist := code;
      if dist < 16 {
        lenCodes := lenCodes + [dist];
        counter := counter + 1;
        LensRel();
      } else if dist == 16 && counter == 0 {
        Reject();
      } else {
        numExtra := ExtraBits(dist);
        point := LenExtra;
        LensRel();
      }
    }

    /** All code lengths are there. */
    method EndLens()
      requires Base() && point == LenCode && zAdler == 1 && Receiving() && counter >= sizes[0] + sizes[1]
      requires s.pc
               == if |lenCodes| == sizes[0] + sizes[1] && Reference.Accepted(lenCodes[..sizes[0]])
               && Reference.Accepted(lenCodes[sizes[0]..])
                       then Symbol(fin, Tables(lenCodes[..sizes[0]], lenCodes[sizes[0]..])) else Failed
      modifies this`point, this`codeSize0, this`codeSize1, t0, t0.lookup, t0.tree, t1, t1.lookup, t1.tree
      ensures Inv() && Rank(point) == 0
    {
      hide input.Holds, output.Holds, Behind, Step, input.Received, Rel, t2.Decodes, Reference.Accepted;
      if sizes[0] + sizes[1] != counter {
        Reject();
      } else {
        BuildDynamic();
      }
    }

    method BuildDynamic()
      requires Base() && zAdler == 1 && SizesOk() && |lenCodes| == sizes[0] + sizes[1] && forall i ::
                 0 <= i < |lenCodes| ==> lenCodes[i] < 16
      requires s.pc == if Reference.Accepted(lenCodes[..sizes[0]]) && Reference.Accepted(lenCodes[sizes[0]..])
                       then Symbol(fin, Tables(lenCodes[..sizes[0]], lenCodes[sizes[0]..])) else Failed
      modifies this`point, this`codeSize0, this`codeSize1, t0, t0.lookup, t0.tree, t1, t1.lookup, t1.tree
      ensures Inv() && Rank(point) == 0
    {
      hide input.Holds, output.Holds, Behind, Wired, Step, input.Received, Rel, Complete, Lonely, Ready,
           Reference.Accepted;
      Wires();
      codeSize0 := lenCodes[..sizes[0]];
      codeSize1 := lenCodes[sizes[0]..];
      var ok := BuildBoth();
      if ok {
        point := LitSymbol;
        SymbolRel();
      } else {
        Reject();
      }
    }

    /** The extra bits of a repeat code. */
    method LenExtraStep() returns (r: Round)
      requires Base() && point == LenExtra && RelLens() && zAdler == 1
      modifies this`point, this`counter, this`lenCodes, this`s, input`inCur, input`numBits, input`bitBuf
      ensures Inv() && Outcome(r)
    {
      hide input.Holds, output.Holds, Behind, Step, input.Received, Rel, GetBits, t2.Decodes, ExtraBits, Append;
      ExtraWidth(dist);
      var ok, v := input.GetBits(numExtra);
      if !ok {
        BitsStarved(Cfg(), input.Received(), s);
        LensRel();
        return Waits;
      }
      HaveBits(numExtra, v);
      LenRunStep(Cfg(), full, s, v);
      Advance(Step(Cfg(), full, s).s);
      StoreRun(v);
      r := Going;
    }

    method StoreRun(v: nat)
      requires Base() && point == LenExtra && zAdler == 1 && Receiving() && counter < sizes[0] + sizes[1]
      requires 16 <= dist <= 18 && (dist == 16 ==> lenCodes != []) && v < Pow2(ExtraBits(dist))
      requires s.pc == LenCodes(fin, sizes[0], sizes[1], codeSize2, Append(lenCodes, Op(dist, v)))
      modifies this`point, this`counter, this`lenCodes
      ensures Inv() && Rank(point) <= 1
    {
      hide input.Holds, output.Holds, Behind, Step, input.Received, Rel, t2.Decodes, ExtraBits, Append, Pow2;
      RunLength(lenCodes, dist, v);
      lenCodes := Append(lenCodes, Op(dist, v));
      counter := counter + v + RunBase(dist);
      point := LenCode;
      LensRel();
    }

    lemma ExtraWidth(code: nat)
      requires 16 <= code <= 18
      ensures 2 <= ExtraBits(code) <= 7
    {
    }

    /** A run stays inside m_len_codes. */
    lemma RunLength(lens: seq<nat>, code: nat, v: nat)
      requires 16 <= code <= 18 && v < Pow2(ExtraBits(code)) && |lens| < 320 && (code == 16 ==> lens != [])
               && forall i :: 0 <= i < |lens| ==> lens[i] < 16
      ensures |Append(lens, Op(code, v))| == |lens| + v + RunBase(code) <= 457
      ensures forall i :: 0 <= i < |Append(lens, Op(code, v))| ==> Append(lens, Op(code, v))[i] < 16
    {
      SmallPowers();
    }

    // ---- symbols

    lemma TablesReady(t: Tables)
      requires Ready(t)
      ensures t0.Decodes(t.lit) && t1.Decodes(t.dist) && |t.lit| <= 288 && |t.dist| <= 32
    {
      hide t0.Decodes;
    }

    /** Decodes one symbol; a literal is stored at once if there is room for it. */
    method OneSymbol(store: bool) returns (r: Round)
      requires Base() && point == LitSymbol && RelSymbol() && zAdler == 1 && (store ==> output.cur < output.end)
      modifies this`point, this`counter, this`numExtra, this`s, input`inCur, input`numBits, input`bitBuf, output`cur,
               output`out, output.buf
      ensures Inv() && Outcome(r) && (r.Going? || r.Waits?)
      ensures r.Going? && point == LitSymbol ==>
                Base() && RelSymbol() && zAdler == 1 && output.cur <= old(output.cur) + 1
    {
      hide input.Holds, output.Holds, Behind, Step, input.Received, Rel, RelSymbol;
      var ok := DecodeSymbol();
      if !ok {
        SymbolRel();
        return Waits;
      }
      if store && point == LitEmit {
        StoreLiteral();
      }
      r := Going;
    }

    lemma AtSymbol() returns (t: Tables)
      requires point == LitSymbol && RelSymbol()
      ensures s.pc == Symbol(fin, t) && Ready(t)
    {
      hide Ready;
      t := s.pc.t;
    }

    method DecodeSymbol() returns (ok: bool)
      requires Base() && point == LitSymbol && RelSymbol() && zAdler == 1
      modifies this`point, this`counter, this`numExtra, this`s, input`inCur, input`numBits, input`bitBuf
      ensures ok ==>
                Inv() && Left() < old(Left()) && (point == LitEmit ==> RelSymbol() && Base() && zAdler == 1)
                && point != LitSymbol
      ensures !ok ==>
                Base() && point == LitSymbol && RelSymbol() && input.inCur == input.inBuf.Length
                && Step(Cfg(), input.Received(), s) == Starved
    {
      hide input.Holds, output.Holds, Behind, Step, input.Received, Rel, DecodeSym, Ready, RelSymbol, t0.Decodes;
      ghost var t := AtSymbol();
      TablesReady(t);
      var sym;
      ok, sym := NextCode(t0, t.lit);
      if ok {
        TakeSymbol(sym, t, t.lit[sym]);
      }
    }

    /** A literal, length or end-of-block symbol. While four bytes of input and room for two bytes are
        left, two symbols are decoded in one round and literals need not wait for room. */
    method LitSymbolStep() returns (r: Round)
      requires Base() && point == LitSymbol && RelSymbol() && zAdler == 1
      modifies this`point, this`counter, this`numExtra, this`s, input`inCur, input`numBits, input`bitBuf, output`cur,
               output`out, output.buf
      ensures Inv() && Outcome(r)
    {
      hide input.Holds, output.Holds, Behind, Step, input.Received, Rel, RelSymbol;
      if input.inBuf.Length - input.inCur < 4 || output.end - output.cur < 2 {
        r := OneSymbol(false);
      } else {
        r := OneSymbol(true);
        if r.Going? && point == LitSymbol {
          r := OneSymbol(true);
        }
      }
    }

    method TakeSymbol(sym: nat, ghost t: Tables, ghost l: nat)
      requires Behind() && input.Holds() && output.Holds() && point == LitSymbol && zAdler == 1
               && s.pc == Symbol(fin, t) && Ready(t)
      requires sym < 288 && DecodeSym(t.lit, full, s.pos) == Sym(sym, l) && input.Pos() == s.pos + l
               && s.out == output.out
      modifies this`point, this`counter, this`numExtra, this`s, input`inCur, input`numBits, input`bitBuf
      ensures Inv() && Left() <= old(Left()) && (point == LitEmit ==> RelSymbol() && Base() && zAdler == 1)
              && point != LitSymbol
    {
      hide input.Holds, output.Holds, Behind, Step, input.Received, Rel, DecodeSym, Ready, RelSymbol, NextBlock;
      SymbolStep(Cfg(), full, s, sym, l);
      counter := sym;
      if counter == 256 {
        EndBlock(s.(pos := s.pos + l));
      } else {
        Advance(Step(Cfg(), full, s).s);
        if counter < 256 {
          BeginLiteral();
        } else {
          BeginLength();
        }
      }
    }

    method BeginLiteral()
      requires Base() && zAdler == 1 && s.pc.Emit? && s.pc.fin == fin && Ready(s.pc.t) && counter == s.pc.b
      modifies this`point
      ensures Inv() && point == LitEmit && RelSymbol()
    {
      hide input.Holds, output.Holds, Behind, Step, input.Received, Rel, Ready, LENGTH_BASE, LENGTH_EXTRA;
      point := LitEmit;
      SymbolRel();
    }

    /** The base of a length; the extra bits follow if there are any. */
    method BeginLength()
      requires Base() && zAdler == 1 && s.pc.LenBits? && s.pc.fin == fin && Ready(s.pc.t) && 257 <= s.pc.sym <= 287
               && counter == s.pc.sym
      modifies this`point, this`counter, this`numExtra, this`s
      ensures Inv() && (point.LengthExtra? || point.DistSymbol?)
    {
      hide input.Holds, output.Holds, Behind, Step, input.Received, Rel, Ready, GetBits, LENGTH_BASE, LENGTH_EXTRA;
      ExtraTables();
      numExtra := LENGTH_EXTRA[counter - 257];
      counter := LENGTH_BASE[counter - 257];
      if numExtra > 0 {
        point := LengthExtra;
        SymbolRel();
      } else {
        SkipExtra();
        BeginDistance();
      }
    }

    /** Without extra bits the machine takes an empty number. */
    ghost method SkipExtra()
      requires Base() && s.pc.LenBits? && 257 <= s.pc.sym <= 287 && |LENGTH_EXTRA| == |LENGTH_BASE| == 31
               && LENGTH_EXTRA[s.pc.sym - 257] == 0
      modifies this`s
      ensures Base() && s.pc == DistCode(old(s).pc.fin, old(s).pc.t, LENGTH_BASE[old(s).pc.sym - 257])
    {
      hide input.Holds, output.Holds, Behind, Step, input.Received, GetBits, LENGTH_BASE, LENGTH_EXTRA;
      PosInside();
      NoExtra(full, s.pos);
      LenBitsStep(Cfg(), full, s, 0);
      Advance(Step(Cfg(), full, s).s);
    }

    lemma PosInside()
      requires Base()
      ensures s.pos <= |full|
    {
    }

    method BeginDistance()
      requires Base() && zAdler == 1 && s.pc.DistCode? && s.pc.fin == fin && Ready(s.pc.t) && counter == s.pc.len
      modifies this`point
      ensures Inv() && point == DistSymbol
    {
      hide input.Holds, output.Holds, Behind, Step, input.Received, Rel, Ready, DIST_BASE, DIST_EXTRA;
      point := DistSymbol;
      DistRel();
    }

    lemma NoExtra(bits: Bits, pos: nat)
      requires pos <= |bits|
      ensures GetBits(bits, pos, 0) == Some(0)
    {
    }

    method StoreLiteral()
      requires Base() && point == LitEmit && RelSymbol() && zAdler == 1 && output.cur < output.end
      modifies this`point, this`s, output`cur, output`out, output.buf
      ensures Inv() && Base() && RelSymbol() && point == LitSymbol && output.cur == old(output.cur) + 1
    {
      hide input.Holds, output.Holds, Behind, Step, input.Received, Rel, Ready;
      Unshared();
      EmitStep(Cfg(), full, s);
      output.Put(counter);
      Advance(Step(Cfg(), full, s).s);
      point := LitSymbol;
      SymbolRel();
    }

    method LitEmitStep() returns (r: Round)
      requires Base() && point == LitEmit && RelSymbol() && zAdler == 1
      modifies this`point, this`s, output`cur, output`out, output.buf
      ensures Inv() && Outcome(r)
    {
      hide input.Holds, output.Holds, Behind, Step, input.Received, Rel, Ready;
      RoomKept();
      if output.cur >= output.end {
        SymbolRel();
        return NoRoom;
      }
      StoreLiteral();
      r := Going;
    }

    /** The number of extra bits of this state's length or distance, or that the machine waits for it. */
    method ExtraNumber(ghost n: nat) returns (ok: bool, v: nat)
      requires Base() && numExtra == n <= 24 && Wants(s.pc) == n
      requires (s.pc.LenBits? && 257 <= s.pc.sym <= 287) || (s.pc.DistBits? && s.pc.sym <= 31)
      modifies input`inCur, input`numBits, input`bitBuf
      ensures input.Holds() && Behind() && v < Pow2(n)
      ensures ok ==> GetBits(full, s.pos, n) == Some(v) && input.Pos() == old(input.Pos()) + n
      ensures !ok ==>
                Base() && input.inCur == input.inBuf.Length && input.Pos() == old(input.Pos())
                && Step(Cfg(), input.Received(), s) == Starved
    {
      hide input.Holds, output.Holds, Behind, Step, input.Received, GetBits, Wants, Pow2;
      ok, v := input.GetBits(numExtra);
      if ok {
        HaveBits(numExtra, v);
      } else {
        Pow2Positive(n);
        v := 0;
        BitsStarved(Cfg(), input.Received(), s);
      }
    }

    method LengthExtraStep() returns (r: Round)
      requires Base() && point == LengthExtra && RelSymbol() && zAdler == 1
      modifies this`point, this`counter, this`s, input`inCur, input`numBits, input`bitBuf
      ensures Inv() && Outcome(r)
    {
      hide input.Holds, output.Holds, Behind, Step, input.Received, Rel, Ready, GetBits, LENGTH_BASE, LENGTH_EXTRA;
      ExtraTables();
      ExtraSmall(s.pc.sym);
      var ok, v := ExtraNumber(numExtra);
      if !ok {
        SymbolRel();
        return Waits;
      }
      AddLength(v, s.pc.t, s.pc.sym);
      r := Going;
    }

    method AddLength(v: nat, ghost t: Tables, ghost sym: nat)
      requires |LENGTH_EXTRA| == |LENGTH_BASE| == 31 && 257 <= sym <= 287 && s.pc == LenBits(fin, t, sym) && Ready(t)
      requires Behind() && input.Holds() && output.Holds() && zAdler == 1 && s.out == output.out
               && counter == LENGTH_BASE[sym - 257]
      requires GetBits(full, s.pos, LENGTH_EXTRA[sym - 257]) == Some(v)
               && input.Pos() == s.pos + LENGTH_EXTRA[sym - 257]
      modifies this`point, this`counter, this`s
      ensures Inv() && point == DistSymbol
    {
      hide input.Holds, output.Holds, Behind, Step, input.Received, Rel, Ready, GetBits, LENGTH_BASE, LENGTH_EXTRA;
      LenBitsStep(Cfg(), full, s, v);
      Advance(Step(Cfg(), full, s).s);
      counter := counter + v;
      BeginDistance();
    }

    lemma ExtraSmall(sym: nat)
      ensures 257 <= sym <= 287 ==> LENGTH_EXTRA[sym - 257] <= 5
      ensures sym <= 31 ==> DIST_EXTRA[sym] <= 13
    {
    }

    // ---- matches

    /** A match of len bytes is still to be copied. */
    ghost predicate Matching(len: nat)
      reads this`s, this`fin, this`dist, t0, t0.lookup, t0.tree, t1, t1.lookup, t1.tree
    {
      s.pc.Copy? && s.pc == Copy(fin, s.pc.t, len, dist) && Ready(s.pc.t) && 1 <= dist <= |s.out| && dist <= WINDOW
    }

    /** m_dist_from_out_buf_start agrees with the amount of output. */
    ghost predicate Counted()
      reads this`s, this`distFrom, output`flat
    {
      if output.flat then distFrom == |s.out| else distFrom % WINDOW == |s.out| % WINDOW
    }

    /** The machine copies the byte that the coroutine puts. */
    method CopyThis(b: byte, ghost len: nat)
      requires Base() && Matching(len) && len > 0 && output.cur < output.end && b == s.out[|s.out| - dist]
      modifies this`s, output`cur, output`out, output.buf
      ensures Base() && Matching(len - 1) && output.cur == old(output.cur) + 1 && |s.out| == |old(s.out)| + 1
    {
      hide input.Holds, output.Holds, Behind, Step, input.Received, Ready;
      Unshared();
      CopyStep(Cfg(), full, s);
      output.Put(b);
      Advance(Step(Cfg(), full, s).s);
    }

    method EndCopy()
      requires Base() && Matching(0) && zAdler == 1
      modifies this`point, this`s
      ensures Inv() && point == LitSymbol
    {
      hide input.Holds, output.Holds, Behind, Step, input.Received, Rel, Ready, LENGTH_BASE, LENGTH_EXTRA;
      CopyEndStep(Cfg(), full, s);
      Advance(Step(Cfg(), full, s).s);
      point := LitSymbol;
      SymbolRel();
    }

    /** One byte of the slow loop. */
    method CopyOne(ghost len: nat)
      requires Base() && Matching(len) && len > 0 && Counted() && output.cur < output.end
      modifies this`s, this`distFrom, output`cur, output`out, output.buf
      ensures Base() && Matching(len - 1) && Counted() && output.cur == old(output.cur) + 1
    {
      hide input.Holds, output.Holds, Behind, Step, input.Received, Ready;
      var b := output.Back(distFrom, dist);
      output.NextIndex(distFrom, |s.out|);
      CopyThis(b, len);
      distFrom := distFrom + 1;
    }

    /** Byte by byte, as long as there is room. */
    method CopySlow() returns (r: Round)
      requires Base() && Matching(counter) && Counted() && zAdler == 1
      modifies this`point, this`counter, this`s, this`distFrom, output`cur, output`out, output.buf
      ensures Inv() && (r.Going? || r.NoRoom?) && (r.NoRoom? ==> output.cur == output.end && OwesByte(s))
      ensures Left() <= old(Left()) && (r.Going? ==> point == LitSymbol)
    {
      hide input.Holds, output.Holds, Behind, Step, input.Received, Rel, Matching, Counted;
      while counter > 0
        invariant Base() && Matching(counter) && Counted() && zAdler == 1 && Left() <= old(Left())
        decreases counter
      {
        counter := counter - 1;
        RoomKept();
        if output.cur >= output.end {
          point := CopyByte;
          Paused();
          return NoRoom;
        }
        CopyOne(counter + 1);
      }
      EndCopy();
      r := Going;
    }

    lemma Paused()
      requires Base() && Matching(counter + 1) && Counted() && point == CopyByte && zAdler == 1
      ensures Inv() && OwesByte(s)
    {
      hide input.Holds, output.Holds, Behind, Step, input.Received, Rel, Ready, DIST_BASE, DIST_EXTRA;
      DistRel();
    }

    /** One byte of the fast loop. */
    method CopyNear(src: nat, ghost len: nat)
      requires Base() && Matching(len) && len > 0 && output.cur < output.end && src + len <= output.end
      requires src == Index(output.flat, |s.out| - dist)
      modifies this`s, output`cur, output`out, output.buf
      ensures Base() && Matching(len - 1) && output.cur == old(output.cur) + 1
      ensures len > 1 ==> 1 <= dist <= |s.out| && src + 1 == Index(output.flat, |s.out| - dist)
    {
      hide input.Holds, output.Holds, Behind, Step, input.Received, Ready, Index;
      WindowEnd();
      if len > 1 { NextSource(output.flat, |s.out|, dist, src); }
      var b := output.Near(src, dist);
      CopyThis(b, len);
    }

    lemma WindowEnd()
      requires output.Holds()
      ensures output.flat || output.end == WINDOW
    {
    }

    /** The pointers of the fast loop; the source pointer counts only while there is something to copy. */
    ghost predicate Pointed(src: nat, len: nat)
      reads this`s, this`dist, output`cur, output`end, output`flat
    {
      output.cur + len <= output.end && src + len <= output.end
          && (len > 0 ==> dist <= |s.out| && src == Index(output.flat, |s.out| - dist))
    }

    method NearByte(src: nat, ghost len: nat)
      requires Base() && Matching(len) && Pointed(src, len) && len > 0
      modifies this`s, output`cur, output`out, output.buf
      ensures Base() && Matching(len - 1) && Pointed(src + 1, len - 1) && output.cur == old(output.cur) + 1
    {
      hide input.Holds, output.Holds, Behind, Step, input.Received, Ready, Index;
      CopyNear(src, len);
    }

    method ThreeBytes(src: nat, ghost len: nat)
      requires Base() && Matching(len) && Pointed(src, len) && len > 2
      modifies this`s, output`cur, output`out, output.buf
      ensures Base() && Matching(len - 3) && Pointed(src + 3, len - 3) && output.cur == old(output.cur) + 3
    {
      hide input.Holds, output.Holds, Behind, Step, input.Received, Matching, Pointed;
      NearByte(src, len);
      NearByte(src + 1, len - 1);
      NearByte(src + 2, len - 2);
    }

    /** Three bytes at a time, when neither pointer can reach the end of the buffer. */
    method CopyFast(start: nat)
      requires Base() && Matching(counter) && zAdler == 1 && Pointed(start, counter)
      modifies this`point, this`counter, this`s, output`cur, output`out, output.buf
      ensures Inv() && point == LitSymbol && Left() <= old(Left())
    {
      hide input.Holds, output.Holds, Behind, Step, input.Received, Rel, Matching, Pointed;
      var src := start;
      while counter > 2
        invariant Base() && Matching(counter) && zAdler == 1 && Pointed(src, counter) && Left() <= old(Left())
        decreases counter
      {
        ThreeBytes(src, counter);
        src := src + 3;
        counter := counter - 3;
      }
      if counter > 0 {
        NearByte(src, counter);
        if counter > 1 {
          NearByte(src + 1, counter - 1);
        }
      }
      EndCopy();
    }

    /** Resuming the slow loop, where a byte was about to be put. */
    method CopyByteStep() returns (r: Round)
      requires Base() && point == CopyByte && RelDist() && zAdler == 1
      modifies this`point, this`counter, this`s, this`distFrom, output`cur, output`out, output.buf
      ensures Inv() && Outcome(r)
    {
      hide input.Holds, output.Holds, Behind, Step, input.Received, Rel, Matching, Counted, RelDist;
      Resumed();
      RoomKept();
      if output.cur >= output.end {
        DistRel();
        return NoRoom;
      }
      CopyOne(counter + 1);
      r := CopySlow();
    }

    lemma Resumed()
      requires Base() && point == CopyByte && RelDist()
      ensures Matching(counter + 1) && Counted() && OwesByte(s)
    {
      hide input.Holds, output.Holds, Behind, Step, Ready;
    }

    /** The distance is known: it must lie inside the output; then the match is copied. */
    method BeginCopy() returns (r: Round)
      requires Base() && zAdler == 1 && dist <= WINDOW
      requires if s.pc.Failed? then output.flat && (dist == 0 || dist > |s.out|) else Matching(counter)
      modifies this`point, this`counter, this`s, this`distFrom, output`cur, output`out, output.buf
      ensures Inv() && (r.Going? || r.NoRoom?) && (r.NoRoom? ==> output.cur == output.end && OwesByte(s))
      ensures Left() <= old(Left()) && (r.Going? ==> Rank(point) == 0)
    {
      hide input.Holds, output.Holds, Behind, Step, input.Received, Rel, Matching, Index;
      distFrom := output.cur;
      CursorCounts();
      MatchFits(counter);
      if (dist == 0 || dist > distFrom || distFrom == 0) && output.flat {
        Reject();
        return Going;
      }
      SourceIndex(output.flat, distFrom, |s.out|, dist);
      var src: int := if output.flat then distFrom - dist else (distFrom - dist) % WINDOW;
      if Greater(output.cur, src) + counter > output.end {
        r := CopySlow();
      } else {
        CopyFast(src);
        r := Going;
      }
    }

    function Greater(a: int, b: int): int {
      if a > b then a else b
    }

    lemma CursorCounts()
      requires Base() && distFrom == output.cur
      ensures Counted()
    {
      hide Behind, input.Holds, Mirrors, input.Received;
    }

    lemma MatchFits(len: nat)
      ensures Matching(len) ==> 1 <= dist <= |s.out| && s.pc.Copy?
    {
      hide Ready;
    }

    method DistSymbolStep() returns (r: Round)
      requires Base() && point == DistSymbol && RelDist() && zAdler == 1
      modifies this`point, this`counter, this`dist, this`numExtra, this`s, this`distFrom, input`inCur, input`numBits,
               input`bitBuf,
               output`cur, output`out, output.buf
      ensures Inv() && Outcome(r)
    {
      hide input.Holds, output.Holds, Behind, Step, input.Received, Rel, DecodeSym, Ready, RelDist, t1.Decodes;
      ghost var t := AtDistance();
      TablesReady(t);
      var ok, sym := NextCode(t1, t.dist);
      if !ok {
        DistRel();
        return Waits;
      }
      DistCodeStep(Cfg(), full, s, sym, t.dist[sym]);
      Advance(Step(Cfg(), full, s).s);
      r := TakeDistance(sym, t);
    }

    lemma AtDistance() returns (t: Tables)
      requires point == DistSymbol && RelDist()
      ensures s.pc == DistCode(fin, t, counter) && Ready(t)
    {
      hide Ready;
      t := s.pc.t;
    }

    /** The base of a distance; the extra bits follow if there are any. */
    method TakeDistance(sym: nat, ghost t: Tables) returns (r: Round)
      requires Base() && zAdler == 1 && s.pc == DistBits(fin, t, counter, sym) && Ready(t) && sym < 32
      modifies this`point, this`counter, this`dist, this`numExtra, this`s, this`distFrom, output`cur, output`out,
               output.buf
      ensures Inv() && (r.Going? || r.NoRoom?) && (r.NoRoom? ==> output.cur == output.end && OwesByte(s))
      ensures Left() <= old(Left()) && (r.Going? ==> Rank(point) == 0)
    {
      hide input.Holds, output.Holds, Behind, Step, input.Received, Rel, Ready, DIST_BASE, DIST_EXTRA, GetBits;
      ExtraTables();
      numExtra := DIST_EXTRA[sym];
      dist := DIST_BASE[sym];
      if numExtra > 0 {
        point := DistExtra;
        DistRel();
        r := Going;
      } else {
        PosInside();
        NoExtra(full, s.pos);
        DistanceKnown(sym);
        DistBitsStep(Cfg(), full, s, 0);
        Advance(Step(Cfg(), full, s).s);
        r := BeginCopy();
      }
    }

    lemma DistanceKnown(sym: nat)
      requires sym <= 31
      ensures DIST_BASE[sym] <= WINDOW
    {
      Pow2Positive(DIST_EXTRA[sym]);
      DistanceRange(sym, 0);
    }

    lemma Pow2Positive(n: nat)
      ensures 0 < Pow2(n)
    {
    }

    method DistExtraStep() returns (r: Round)
      requires Base() && point == DistExtra && RelDist() && zAdler == 1
      modifies this`point, this`counter, this`dist, this`s, this`distFrom, input`inCur, input`numBits, input`bitBuf,
               output`cur, output`out, output.buf
      ensures Inv() && Outcome(r)
    {
      hide input.Holds, output.Holds, Behind, Step, input.Received, Rel, Ready, DIST_BASE, DIST_EXTRA, GetBits;
      ExtraTables();
      ExtraSmall(s.pc.sym);
      var ok, v := ExtraNumber(numExtra);
      if !ok {
        DistRel();
        return Waits;
      }
      r := AddDistance(v);
    }

    /** A distance with its extra bits is known; the match can be copied. */
    method AddDistance(v: nat) returns (r: Round)
      requires Behind() && input.Holds() && output.Holds() && s.out == output.out && zAdler == 1 && point == DistExtra
               && RelDist()
      requires GetBits(full, s.pos, numExtra) == Some(v) && v < Pow2(numExtra) && s.pos + numExtra == input.Pos()
      modifies this`point, this`counter, this`dist, this`s, this`distFrom, output`cur, output`out, output.buf
      ensures Inv() && (r.Going? || r.NoRoom?) && (r.NoRoom? ==> output.cur == output.end && OwesByte(s))
      ensures Left() <= old(Left()) && (r.Going? ==> Rank(point) == 0)
    {
      hide input.Holds, output.Holds, Behind, Step, input.Received, Rel, Ready, DIST_BASE, DIST_EXTRA, GetBits;
      ExtraTables();
      ExtraSmall(s.pc.sym);
      DistanceRange(s.pc.sym, v);
      DistBitsStep(Cfg(), full, s, v);
      Advance(Step(Cfg(), full, s).s);
      dist := dist + v;
      r := BeginCopy();
    }

    // ---- trailer

    method CheckStep() returns (r: Round)
      requires Base() && point == CheckByte && RelEnd()
      modifies this`point, this`counter, this`zAdler, this`s, input`inCur, input`numBits, input`bitBuf
      ensures Inv() && Outcome(r)
    {
      hide input.Holds, output.Holds, Behind, Step, input.Received, Rel, GetByte, Shifted;
      var ok, c := AnyByte();
      if !ok {
        ByteStarved(Cfg(), input.Received(), s);
        EndRel();
        return Waits;
      }
      HaveByte(c);
      ghost var check := s.pc.check;
      TrailerStep(Cfg(), full, s, c);
      Advance(Step(Cfg(), full, s).s);
      StoreCheck(c, check);
      r := Going;
    }

    method StoreCheck(c: byte, ghost check: seq<byte>)
      requires Base() && point == CheckByte && zlib && |check| == counter < 4 && zAdler == Shifted(check)
      requires input.numBits == 0
      requires s.pc == if counter < 3 then Trailer(check + [c]) else Done(check + [c])
      modifies this`point, this`counter, this`zAdler
      ensures Inv() && Rank(point) == 0
    {
      hide input.Holds, output.Holds, Behind, Step, input.Received, Rel, Shifted;
      ShiftedMore(check, c);
      zAdler := (zAdler * 256 + c) % 0x1_0000_0000;
      counter := counter + 1;
      if counter == 4 {
        point := AtEnd;
      }
      EndRel();
    }

    lemma ShiftedMore(check: seq<byte>, c: byte)
      ensures Shifted(check + [c]) == (Shifted(check) * 256 + c) % 0x1_0000_0000
    {
      assert (check + [c])[..|check|] == check;
    }

    // ---- the coroutine

    /** Goes on at the current point. */
    method Resume() returns (r: Round)
      requires Inv()
      modifies this, input`inCur, input`numBits, input`bitBuf, output`cur, output`out, output.buf,
               t0, t0.lookup, t0.tree, t1, t1.lookup, t1.tree, t2, t2.lookup, t2.tree
      ensures Inv() && Outcome(r) && full == old(full) && checkAdler == old(checkAdler) && live == old(live)
    {
      hide Base, RelHeader, RelStored, RelSizes, RelLens, RelSymbol, RelDist, RelEnd, Outcome, Step, Ended, OwesByte;
      match point {
        case Begin => r := BeginStep();
        case ZHdr0 => r := HeaderByte();
        case ZHdr1 => r := HeaderByte();
        case BlockHead => r := HeadStep();
        case RawHeader => r := RawHeaderStep();
        case RawBits => r := RawBitsStep();
        case RawEmit => r := RawEmitStep();
        case RawCopy => r := RawCopyStep();
        case TableSize => r := TableSizeStep();
        case LenLen => r := LenLenStep();
        case LenCode => r := LenCodeStep();
        case LenExtra => r := LenExtraStep();
        case LitSymbol => r := LitSymbolStep();
        case LitEmit => r := LitEmitStep();
        case LengthExtra => r := LengthExtraStep();
        case DistSymbol => r := DistSymbolStep();
        case DistExtra => r := DistExtraStep();
        case CopyByte => r := CopyByteStep();
        case CheckByte => r := CheckStep();
        case AtEnd => r := Ends; EndReached();
        case Rejected => r := Ends; EndReached();
      }
    }

    twostate lemma EndReached()
      requires point.AtEnd? || point.Rejected?
      requires RelEnd()
      ensures Outcome(Ends)
    {
    }

    /** Putting bytes back disturbs nothing the coroutine relies on. */
    method PutBack()
      requires Inv()
      modifies input`inCur, input`numBits, input`bitBuf
      ensures Inv() && (input.numBits < 8 || input.inCur == input.inNext)
    {
      hide input.Holds, output.Holds, Behind, input.Received, RelSizes, RelLens, RelSymbol, RelDist, Shifted;
      input.PutBack();
    }

    /** Between two calls no input buffer is held. */
    ghost predicate Idle()
      reads input`inBuf, input`inCur, input`inNext
    {
      input.inBuf.Length == input.inCur == input.inNext == 0
    }

    /** Everything consumed by earlier calls, followed by this input buffer. */
    ghost function ReceivedWith(inBuf: array<byte>, first: nat): Bits
      reads input`base, inBuf
      requires first <= inBuf.Length
    {
      ByteBits(input.base + inBuf[first..])
    }

    /** What this call leaves behind belongs to the item waited for, or is less than a byte. */
    ghost predicate Settled()
      reads this`s, input, input.inBuf, output`flat
      requires input.inNext <= input.inCur <= input.inBuf.Length
    {
      || s.pos > input.Seen() - 8
      || Step(Cfg(), ByteBits(input.base + input.inBuf[input.inNext..input.inCur]), s) == Starved
    }

    /** A call waits for more input, or gives back what it did not need. */
    lemma Settles()
      requires Inv() && input.inNext <= input.inCur <= input.inBuf.Length
      requires || (input.inCur == input.inBuf.Length && Step(Cfg(), input.Received(), s) == Starved)
               || input.numBits < 8 || input.inCur == input.inNext
      ensures Settled()
    {
      hide Rel, OnTrack, Wired, output.Holds, Mirrors, Pow2, BitsOf, Step, ByteBits;
      assert input.inBuf[input.inNext..input.inBuf.Length] == input.inBuf[input.inNext..];
      if input.inCur == input.inNext {
        assert input.base + input.inBuf[input.inNext..input.inCur] == input.base;
      }
    }

    /** Lets go of the input buffer; the status keeps its meaning. */
    method Detach(ghost status: Status)
      requires Inv() && input.inNext <= input.inCur <= input.inBuf.Length && Settled() && Means(status)
      modifies input
      ensures Inv() && Idle() && fresh(input.inBuf) && Means(status) && (s.pc.Done? ==> 8 * |input.base| == s.pos)
      ensures input.base == old(input.base) + old(input.inBuf)[old(input.inNext)..old(input.inCur)]
    {
      hide Inv, Settled, Step, input.Received, Matches, Shifted, OwesByte;
      LetGo();
      if s.pc.Done? { ConsumedAtEnd(); }
    }

    method LetGo()
      requires Inv() && input.inNext <= input.inCur <= input.inBuf.Length && Settled()
      modifies input
      ensures Inv() && Idle() && fresh(input.inBuf) && input.numBits == old(input.numBits)
      ensures input.base == old(input.base) + old(input.inBuf)[old(input.inNext)..old(input.inCur)]
      ensures old(input.inCur) == old(input.inBuf).Length ==> input.Received() == old(input.Received())
    {
      hide input.Holds, output.Holds, OnTrack, RelSizes, RelLens, RelSymbol, RelDist, RelEnd, RelHeader, RelStored,
           Mirrors, ByteBits;
      var none := new byte[0];
      WholeInput();
      ghost var kept, rest := input.base + input.inBuf[input.inNext..input.inCur], input.inBuf[input.inCur..];
      ByteBitsConcat(kept, rest);
      input.SetInput(none, 0);
      assert input.all == kept;
      assert input.base == kept;
      assert rest == [] ==> kept + rest == kept;
    }

    lemma WholeInput()
      requires input.Holds()
      ensures input.inNext <= input.inCur <= input.inBuf.Length
      ensures input.all == input.base + input.inBuf[input.inNext..input.inCur] + input.inBuf[input.inCur..]
    {
    }

    /** The room offered by the caller continues the earlier output. */
    ghost predicate RoomOk(outBuf: array<byte>, next: nat, last: nat)
      reads output, outBuf
    {
      && next <= last <= outBuf.Length && Mirrors(outBuf[..], output.flat, output.out)
      && if output.flat then next == |output.out| else last == WINDOW && next % WINDOW == |output.out| % WINDOW
    }

    method Enter(inBuf: array<byte>, first: nat, outBuf: array<byte>, next: nat, last: nat)
      requires Inv() && Idle() && inBuf != outBuf && first <= inBuf.Length && ReceivedWith(inBuf, first) <= full
               && RoomOk(outBuf, next, last)
      modifies input, output
      ensures Inv() && input.inBuf == inBuf && input.inNext == first && input.base == old(input.base)
              && output.buf == outBuf && output.start == next && output.end == last && output.before == old(output.out)
      ensures input.Received() == old(ReceivedWith(inBuf, first)) && output.out == old(output.out)
              && output.flat == old(output.flat)
    {
      hide input.Holds, output.Holds, OnTrack, RelSizes, RelLens, RelSymbol, RelDist, RelEnd, RelHeader, RelStored,
           Mirrors, ByteBits;
      assert input.inBuf[input.inNext..input.inCur] == [] && input.base + [] == input.base;
      input.SetInput(inBuf, first);
      output.SetRoom(outBuf, next, last);
    }

    /** The check value over the output of this call. */
    method SumOutput(next: nat)
      requires next == output.start && output.Holds() && Summed(output.before)
      modifies this`checkAdler
      ensures CheckOk()
    {
      hide Adler32.Checksum, Adler32.Pack, Adler32.Unpack, output.Holds, Adler32.Reduced;
      output.Filled();
      ghost var data := output.buf[output.start..output.cur];
      assert output.buf[output.start..output.start + (output.cur - output.start)] == data;
      OneReduced();
      Adler32.PackedConcatenation(1, output.before, data);
      SumReduced(checkAdler, data);
      checkAdler := Adler32.Adler(checkAdler, output.buf, next, output.cur - next);
    }

    lemma OneReduced()
      ensures Adler32.Reduced(Adler32.Unpack(1))
    {
    }

    lemma SumReduced(a: nat, data: seq<byte>)
      requires Adler32.Reduced(Adler32.Unpack(a))
      ensures Adler32.Reduced(Adler32.Unpack(Adler32.Pack(Adler32.Checksum(Adler32.Unpack(a), data))))
    {
      hide Adler32.Checksum, Adler32.Pack, Adler32.Unpack, Adler32.Reduced;
      Adler32.PackUnpack(Adler32.Checksum(Adler32.Unpack(a), data));
    }

    /** What a status tells the caller. */
    ghost predicate Means(status: Status)
      reads this`s, this`zAdler, this`checkAdler, this`live, input, input.inBuf, output
    {
      match status
      case NeedsMoreInput => input.inCur == input.inBuf.Length && Step(Cfg(), input.Received(), s) == Starved
      case CannotProgress => input.inCur == input.inBuf.Length && Step(Cfg(), input.Received(), s) == Starved
      case HasMoreOutput => output.cur == output.end && OwesByte(s)
      case Finished => s.pc.Done? && (zlib && live ==> Matches())
      case AdlerMismatch => s.pc.Done? && zlib && checkAdler != zAdler
      case Failure => s.pc.Failed?
    }

    /** The trailer is the Adler-32 of the output. */
    ghost predicate Matches()
      reads this`s, output`out
      requires s.pc.Done?
    {
      Shifted(s.pc.check) == Adler32.Pack(Adler32.Checksum(Adler32.Unpack(1), output.out))
    }

    /** Runs the coroutine until it cannot go on. */
    method Run() returns (r: Round)
      requires Inv()
      modifies this, input`inCur, input`numBits, input`bitBuf, output`cur, output`out, output.buf,
               t0, t0.lookup, t0.tree, t1, t1.lookup, t1.tree, t2, t2.lookup, t2.tree
      ensures Inv() && !r.Going? && full == old(full) && checkAdler == old(checkAdler) && live == old(live)
      ensures r.Waits? ==> input.inCur == input.inBuf.Length && Step(Cfg(), input.Received(), s) == Starved
      ensures r.NoRoom? ==> output.cur == output.end && OwesByte(s)
      ensures r.Ends? ==> Ended(s)
    {
      hide Base, Rel, Rank, Step, Left, input.Received;
      r := Going;
      while r.Going?
        invariant Inv() && full == old(full) && checkAdler == old(checkAdler) && live == old(live)
        invariant r.Waits? ==> input.inCur == input.inBuf.Length && Step(Cfg(), input.Received(), s) == Starved
        invariant r.NoRoom? ==> output.cur == output.end && OwesByte(s)
        invariant r.Ends? ==> Ended(s)
        decreases r.Going?, LeftOver(), Rank(point)
      {
        LeftPositive();
        r := Resume();
        LeftPositive();
      }
    }

    ghost function LeftOver(): nat
      reads input`all, input`base, input`inCur, input`inNext, input`numBits, output`end, output`cur
    {
      if Left() < 0 then 0 else Left()
    }

    lemma LeftPositive()
      requires Inv()
      ensures Left() >= 0 && LeftOver() == Left()
    {
      hide Rel, Behind, Mirrors, BitsOf, Pow2, input.Received;
    }

    /** The bytes read ahead are given back unless more input is needed. */
    method GiveBack(r: Round, hasMore: bool) returns (status: Status)
      requires Inv() && !r.Going?
      requires r.Waits? ==> input.inCur == input.inBuf.Length && Step(Cfg(), input.Received(), s) == Starved
      requires r.Ends? ==> Ended(s)
      modifies input`inCur, input`numBits, input`bitBuf
      ensures Inv() && input.inNext <= input.inCur <= input.inBuf.Length && Settled()
      ensures status == if r.Waits? then if hasMore then NeedsMoreInput else CannotProgress
                        else if r.NoRoom? then HasMoreOutput else if s.pc.Done? then Finished else Failure
      ensures r.Waits? ==> input.inCur == input.inBuf.Length
    {
      hide Base, Rel, Step, input.Received, Settled;
      Bounds();
      AtTheEnd();
      if r.Waits? {
        status := if hasMore then NeedsMoreInput else CannotProgress;
      } else {
        PutBack();
        status := if r.NoRoom? then HasMoreOutput else if point.AtEnd? then Finished else Failure;
      }
      Bounds();
      Settles();
    }

    /** The status of a round, and the check value over its output. */
    method Leave(r: Round, next: nat, hasMore: bool) returns (status: Status)
      requires Inv() && next == output.start && Summed(output.before) && !r.Going?
      requires r.Waits? ==> input.inCur == input.inBuf.Length && Step(Cfg(), input.Received(), s) == Starved
      requires r.NoRoom? ==> output.cur == output.end && OwesByte(s)
      requires r.Ends? ==> Ended(s)
      modifies this`checkAdler, this`live, input`inCur, input`numBits, input`bitBuf
      ensures Inv() && CheckOk() && Means(status) && (status.CannotProgress? ==> !hasMore)
              && (status.NeedsMoreInput? ==> hasMore)
      ensures live == (old(live) && (status.Finished? || status.NeedsMoreInput? || status.HasMoreOutput?))
      ensures old(live) && status.AdlerMismatch? ==> s.pc.Done? && !Matches()
      ensures output.out == output.before + output.buf[output.start..output.cur] && output.start <= output.cur
      ensures input.inNext <= input.inCur <= input.inBuf.Length && Settled()
      ensures status.NeedsMoreInput? || status.CannotProgress? ==> input.inCur == input.inBuf.Length
    {
      hide Base, Rel, Step, input.Received, Settled, Summed, Shifted, OwesByte;
      FilledNow();
      status := GiveBack(r, hasMore);
      AtTheEnd();
      status := CheckSum(status, next);
    }

    /** The check value goes on over the output of this call, and at the end is compared. */
    method CheckSum(found: Status, next: nat) returns (status: Status)
      requires Inv() && next == output.start && Summed(output.before) && !found.AdlerMismatch?
      requires output.Holds() && output.out == output.before + output.buf[output.start..output.cur]
      requires output.start <= output.cur <= output.buf.Length
      requires found.Finished? ==> s.pc.Done? && (zlib ==> zAdler == Shifted(s.pc.check))
      modifies this`checkAdler, this`live
      ensures Inv() && CheckOk()
      ensures live == (old(live) && (status.Finished? || status.NeedsMoreInput? || status.HasMoreOutput?))
      ensures status == if found.Finished? && zlib && checkAdler != zAdler then AdlerMismatch else found
      ensures old(live) && status.AdlerMismatch? ==> s.pc.Done? && !Matches()
      ensures status.Finished? && zlib && live ==> Matches()
    {
      hide Base, Rel, input.Received, Adler32.Checksum, Adler32.Pack, Adler32.Unpack, Shifted, output.Holds;
      status := found;
      if status.Finished? || status.NeedsMoreInput? || status.HasMoreOutput? {
        if zlib {
          SumOutput(next);
          if status.Finished? && checkAdler != zAdler {
            status := AdlerMismatch;
            live := false;
          }
        }
      } else {
        live := false;
      }
    }

    lemma FilledNow()
      requires Inv()
      ensures output.Holds() && output.start <= output.cur <= output.buf.Length
              && output.out == output.before + output.buf[output.start..output.cur]
    {
      hide Rel, Behind, input.Holds, output.Holds, input.Received;
      output.Filled();
    }

    lemma AtTheEnd()
      requires Inv()
      ensures output.Holds() && (Ended(s) ==> (s.pc.Done? <==> point.AtEnd?))
      ensures point.AtEnd? ==> s.pc.Done? && (zlib ==> zAdler == Shifted(s.pc.check))
    {
      hide input.Holds, output.Holds, Behind, input.Received, Ready, Receiving, Shifted, LENGTH_BASE, LENGTH_EXTRA,
           DIST_BASE, DIST_EXTRA;
    }

    /** Whatever lies behind the stream, at its end no byte of that is consumed. */
    lemma ConsumedAtEnd()
      requires Inv() && Idle() && s.pc.Done?
      ensures 8 * |input.base| == s.pos
    {
      hide input.Holds, output.Holds, Behind, input.Received, Ready, Receiving, Shifted, LENGTH_BASE, LENGTH_EXTRA,
           DIST_BASE, DIST_EXTRA;
    }

    lemma Bounds()
      requires Inv()
      ensures input.inNext <= input.inCur <= input.inBuf.Length && output.cur <= output.end
    {
      hide Rel, Behind, input.Received, Mirrors, BitsOf, Pow2;
    }

    /** tinfl_decompress: takes a piece of the stream and produces output into the room given. */
    method Decompress(inBuf: array<byte>, first: nat, outBuf: array<byte>, next: nat, last: nat, hasMore: bool)
      returns (status: Status, inSize: nat, outSize: nat)
      requires Inv() && Idle() && CheckOk() && inBuf != outBuf && first <= inBuf.Length
               && ReceivedWith(inBuf, first) <= full && RoomOk(outBuf, next, last)
      modifies this, input, output, outBuf, t0, t0.lookup, t0.tree, t1, t1.lookup, t1.tree, t2, t2.lookup, t2.tree
      ensures Inv() && Idle() && fresh(input.inBuf) && CheckOk() && full == old(full) && output.buf == outBuf
              && output.flat == old(output.flat)
      ensures first + inSize <= inBuf.Length && input.base == old(input.base) + inBuf[first..first + inSize]
      ensures Means(status) && (status.CannotProgress? ==> !hasMore) && (status.NeedsMoreInput? ==> hasMore)
      ensures s.pc.Done? ==> 8 * |input.base| == s.pos
      ensures status.NeedsMoreInput? || status.CannotProgress? ==> first + inSize == inBuf.Length
      ensures live == (old(live) && (status.Finished? || status.NeedsMoreInput? || status.HasMoreOutput?))
      ensures old(live) && status.AdlerMismatch? ==> s.pc.Done? && !Matches()
      ensures next + outSize == output.cur <= last == output.end
              && output.out == old(output.out) + outBuf[next..next + outSize]
    {
      hide Inv, Summed, Step, input.Received, ReceivedWith, RoomOk, Adler32.Checksum, Adler32.Pack, Adler32.Unpack,
           Shifted,
           Adler32.Reduced, OwesByte, Matches, Settled, Means;
      Enter(inBuf, first, outBuf, next, last);
      var r := Run();
      status := Leave(r, next, hasMore);
      Bounds();
      inSize, outSize := input.inCur - first, output.cur - next;
      Detach(status);
    }
  }
}
