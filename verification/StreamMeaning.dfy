/** What the bits written so far mean, whatever follows them. */
module StreamMeaning {
  import opened Bytes
  import opened Bits
  import opened Tokens
  import opened Reference
  import opened BlockFormat
  import opened BlockHeaders
  import opened LzBuffer
  import opened BlockCompressor

  /** Every stream that begins with these bits brings the decompressor into state t. */
  ghost predicate Leads(zlib: bool, stream: Bits, t: State) {
    forall bits: Bits, flat: bool :: stream <= bits ==> Brings(zlib, flat, bits, t)
  }

  ghost predicate Brings(zlib: bool, flat: bool, bits: Bits, t: State) {
    Reaches(Config(zlib, flat), bits, Start(Config(zlib, flat)), t)
  }

  /** The stream is a list of finished blocks that stand for out. */
  ghost predicate Encodes(zlib: bool, stream: Bits, out: seq<byte>) {
    Leads(zlib, stream, State(Head, |stream|, out))
  }

  lemma PrefixAt(stream: Bits, x: Bits, bits: Bits)
    requires stream + x <= bits
    ensures stream <= bits && At(bits, |stream|, x)
  {
    var y := stream + x;
    assert bits[..|y|] == y;
    assert bits[..|stream|] == y[..|stream|] == stream;
    assert bits[|stream|..|y|] == y[|stream|..] == x;
  }

  lemma LeadsMore(zlib: bool, stream: Bits, x: Bits, t: State)
    requires Leads(zlib, stream, t)
    ensures Leads(zlib, stream + x, t)
  {
    hide Brings;
    forall bits: Bits, flat: bool | stream + x <= bits
      ensures Brings(zlib, flat, bits, t)
    {
      PrefixAt(stream, x, bits);
    }
  }

  lemma NothingYet()
    ensures Encodes(false, [], [])
  {
    hide Reaches;
    forall bits: Bits, flat: bool | [] <= bits
      ensures Brings(false, flat, bits, State(Head, 0, []))
    {
      ReachesSelf(Config(false, flat), bits, Start(Config(false, flat)));
    }
  }

  /** The two header bytes of a zlib stream. */
  lemma HeaderLeads(cmf: byte, flg: byte)
    requires !BadHeader(Config(true, true), cmf, flg) && !BadHeader(Config(true, false), cmf, flg)
    ensures Encodes(true, BitsOf(cmf, 8) + BitsOf(flg, 8), [])
  {
    hide Reaches, BitsOf, GetByte, BadHeader;
    var x := BitsOf(cmf, 8) + BitsOf(flg, 8);
    forall bits: Bits, flat: bool | x <= bits
      ensures Brings(true, flat, bits, State(Head, 16, []))
    {
      assert [] + x == x;
      PrefixAt([], x, bits);
      AtSplit(bits, 0, BitsOf(cmf, 8), BitsOf(flg, 8));
      GetByteAt(bits, 0, cmf);
      GetByteAt(bits, 8, flg);
      var cfg := Config(true, flat);
      var s0, s1, s2 := Start(cfg), State(Zlib([cmf]), 8, []), State(Head, 16, []);
      assert !BadHeader(cfg, cmf, flg);
      ReachesStep(cfg, bits, s0, s1);
      ReachesStep(cfg, bits, s1, s2);
      ReachesTrans(cfg, bits, s0, s1, s2);
    }
  }

  /** Where a block leaves the decompressor that starts it at the end of the stream. */
  ghost function After(zlib: bool, fin: bool, pos: nat, out: seq<byte>): State {
    NextBlock(Config(zlib, true), fin, State(Head, pos, out))
  }

  lemma AfterIs(zlib: bool, flat: bool, fin: bool, pos: nat, out: seq<byte>)
    ensures After(zlib, fin, pos, out) == NextBlock(Config(zlib, flat), fin, State(Head, pos, out))
  {
  }

  /** A compressed block appends the expansion of its tokens. */
  lemma LeadsBlock(zlib: bool, stream: Bits, out: seq<byte>, fin: bool, head: BlockHead, ks: seq<Token>)
    requires Encodes(zlib, stream, out) && BlockOk(head, ks) && ValidTokens(ks, |out|)
    ensures var x := [fin] + BlockBits(head, ks);
            Leads(zlib, stream + x, After(zlib, fin, |stream| + |x|, Expand(out, ks)))
  {
    hide Reaches, BlockBits, BlockOk, ValidTokens, Expand, NextBlock;
    var x := [fin] + BlockBits(head, ks);
    var s := State(Head, |stream|, out);
    var t := After(zlib, fin, |stream| + |x|, Expand(out, ks));
    forall bits: Bits, flat: bool | stream + x <= bits
      ensures Brings(zlib, flat, bits, t)
    {
      PrefixAt(stream, x, bits);
      var cfg := Config(zlib, flat);
      assert Brings(zlib, flat, bits, s);
      BlockRoundTrip(cfg, bits, s, fin, head, ks);
      AfterIs(zlib, flat, fin, |stream| + |x|, Expand(out, ks));
      ReachesTrans(cfg, bits, Start(cfg), s, t);
    }
  }

  /** A stored block appends its bytes. */
  lemma LeadsStored(zlib: bool, stream: Bits, out: seq<byte>, fin: bool, data: seq<byte>)
    requires Encodes(zlib, stream, out) && |data| <= 65535
    ensures var x := StoredBits(fin, |stream|, data);
            Leads(zlib, stream + x, After(zlib, fin, |stream| + |x|, out + data))
  {
    hide Reaches, StoredBits, NextBlock;
    var x := StoredBits(fin, |stream|, data);
    var s := State(Head, |stream|, out);
    var t := After(zlib, fin, |stream| + |x|, out + data);
    forall bits: Bits, flat: bool | stream + x <= bits
      ensures Brings(zlib, flat, bits, t)
    {
      PrefixAt(stream, x, bits);
      var cfg := Config(zlib, flat);
      assert Brings(zlib, flat, bits, s);
      RunStored(cfg, bits, s, fin, data);
      AfterIs(zlib, flat, fin, |stream| + |x|, out + data);
      ReachesTrans(cfg, bits, Start(cfg), s, t);
    }
  }

  lemma NotFinal(zlib: bool, pos: nat, out: seq<byte>)
    ensures After(zlib, false, pos, out) == State(Head, pos, out)
  {
  }

  lemma Final(zlib: bool, pos: nat, out: seq<byte>)
    ensures After(zlib, true, pos, out) == State(if zlib then Trailer([]) else Done([]), Align(pos), out)
  {
  }

  /** One byte of the trailer. */
  lemma LeadsCheckByte(stream: Bits, out: seq<byte>, check: seq<byte>, c: byte)
    requires Leads(true, stream, State(Trailer(check), |stream|, out)) && |check| < 4
    ensures Leads(true, stream + BitsOf(c, 8),
                  State(if |check| < 3 then Trailer(check + [c]) else Done(check + [c]), |stream| + 8, out))
  {
    hide Reaches, BitsOf, GetByte;
    var s := State(Trailer(check), |stream|, out);
    var t := State(if |check| < 3 then Trailer(check + [c]) else Done(check + [c]), |stream| + 8, out);
    forall bits: Bits, flat: bool | stream + BitsOf(c, 8) <= bits
      ensures Brings(true, flat, bits, t)
    {
      PrefixAt(stream, BitsOf(c, 8), bits);
      var cfg := Config(true, flat);
      assert Brings(true, flat, bits, s);
      GetByteAt(bits, |stream|, c);
      ReachesStep(cfg, bits, s, t);
      ReachesTrans(cfg, bits, Start(cfg), s, t);
    }
  }
}
