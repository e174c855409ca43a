/** The meaning of a compressed stream, as a machine that takes bits one item at a time: zlib header
    (section 2.2 of RFC 1950), blocks (section 3.2.3 of RFC 1951) and trailer. Its states are the
    places where the decompressor can be suspended. */
module Reference {
  import opened Bytes
  import opened Bits
  import opened Canonical
  import opened InflateTable
  import opened CodeLengthRle
  import opened Tokens

  /** Whether a zlib wrapper is expected, and whether the output buffer is flat or a window. */
  datatype Config = Config(zlib: bool, flat: bool)

  datatype Tables = Tables(lit: seq<nat>, dist: seq<nat>)

  datatype Pc =
    | Zlib(head: seq<byte>)
    | Head
    | StoredHead(fin: bool, raw: seq<byte>)
    | Stored(fin: bool, left: nat)
    | StoredEmit(fin: bool, left: nat, b: byte)
    | Sizes(fin: bool, got: seq<nat>)
    | LenLens(fin: bool, nlit: nat, ndist: nat, nlen: nat, got: seq<nat>)
    | LenCodes(fin: bool, nlit: nat, ndist: nat, lens: seq<nat>, got: seq<nat>)
    | LenRun(fin: bool, nlit: nat, ndist: nat, lens: seq<nat>, got: seq<nat>, code: nat)
    | Symbol(fin: bool, t: Tables)
    | Emit(fin: bool, t: Tables, b: byte)
    | LenBits(fin: bool, t: Tables, sym: nat)
    | DistCode(fin: bool, t: Tables, len: nat)
    | DistBits(fin: bool, t: Tables, len: nat, sym: nat)
    | Copy(fin: bool, t: Tables, len: nat, dist: nat)
    | Trailer(check: seq<byte>)
    | Done(check: seq<byte>)
    | Failed
    | Unspecified

  /** pos counts bits taken; out is everything produced. */
  datatype State = State(pc: Pc, pos: nat, out: seq<byte>)

  datatype Outcome = Next(s: State) | Starved | Stop

  datatype Option<T> = None | Some(value: T)

  /** The next n bits as a number. */
  function GetBits(bits: Bits, pos: nat, n: nat): Option<nat> {
    if pos + n <= |bits| then Some(ValueOf(bits[pos..pos + n])) else None
  }

  /** The next byte. */
  function GetByte(bits: Bits, pos: nat): (r: Option<byte>)
    ensures r.Some? <==> pos + 8 <= |bits|
  {
    if pos + 8 <= |bits| then
      ValueBound(bits[pos..pos + 8]);
      SmallPowers();
      Some(ValueOf(bits[pos..pos + 8]))
    else None
  }

  function Align(pos: nat): nat {
    pos + (8 - pos % 8) % 8
  }

  /** The symbol whose code starts the remaining bits. */
  function FindSym(lens: Lengths, bits: Bits, pos: nat, n: nat): Option<nat>
    requires n <= |lens|
  {
    if n == 0 then None
    else if lens[n - 1] > 0 && pos + lens[n - 1] <= |bits|
            && bits[pos..pos + lens[n - 1]] == Code(lens, n - 1) then Some(n - 1)
    else FindSym(lens, bits, pos, n - 1)
  }

  datatype Decoded = Sym(sym: nat, len: nat) | NeedBits | NoCode

  /** One Huffman symbol. With 15 bits at hand a code must match. */
  function DecodeSym(lens: Lengths, bits: Bits, pos: nat): Decoded {
    match FindSym(lens, bits, pos, |lens|)
    case Some(s) => Sym(s, if s < |lens| then lens[s] else 0)
    case None => if pos + MAX_LEN <= |bits| then NoCode else NeedBits
  }

  ghost predicate Accepted(lens: Lengths) {
    WellFormed(lens) && (Complete(lens) || Lonely(lens))
  }

  const ORDER: seq<nat> := [16, 17, 18, 0, 8, 7, 9, 6, 10, 5, 11, 4, 12, 3, 13, 2, 14, 1, 15]

  /** The lengths of the code-length code, from the order they are sent in. */
  function Unzigzag(got: seq<nat>, n: nat): (lens: seq<nat>)
    requires n <= |got| && n <= 19
    ensures |lens| == 19
  {
    if n == 0 then Repeat(0, 19) else
      var l := Unzigzag(got, n - 1);
      OrderInRange(n - 1);
      l[ORDER[n - 1] := got[n - 1]]
  }

  /** The symbol at place i of the order, by the rule of section 3.2.7 of RFC 1951: the three repeat codes,
      zero, and then the lengths from 8 upwards and from 7 downwards in turn. */
  function Place(i: nat): (s: nat)
    requires i < 19
    ensures s < 19
  {
    if i < 3 then 16 + i
    else if i == 3 then 0
    else if i % 2 == 0 then 8 + (i - 4) / 2
    else 7 - (i - 5) / 2
  }

  lemma OrderInRange(i: nat)
    requires i < 19
    ensures ORDER[i] < 19 && ORDER[i] == Place(i)
  {
  }

  function StaticLit(): (lens: seq<nat>)
    ensures |lens| == 288
  {
    seq(288, i requires 0 <= i < 288 => if i <= 143 then 8 else if i <= 255 then 9 else if i <= 279 then 7 else 8)
  }

  function StaticDist(): (lens: seq<nat>)
    ensures |lens| == 32
  {
    seq(32, _ => 5)
  }

  /** The zlib header check. */
  predicate BadHeader(cfg: Config, cmf: byte, flg: byte) {
    || ((cmf as int) * 256 + flg) % 31 != 0 || (flg / 32) % 2 == 1 || cmf % 16 != 8
    || (!cfg.flat && cmf / 16 > 7)
  }

  function NextBlock(cfg: Config, fin: bool, s: State): State {
    if !fin then s.(pc := Head)
    else s.(pc := if cfg.zlib then Trailer([]) else Done([]), pos := Align(s.pos))
  }

  function SizeBits(k: nat): nat { if k < 2 then 5 else 4 }

  function SizeBase(k: nat): nat { if k == 0 then 257 else if k == 1 then 1 else 4 }

  ghost function StepZlib(cfg: Config, bits: Bits, s: State): Outcome
    requires s.pc.Zlib?
  {
    match GetByte(bits, s.pos)
    case None => Starved
    case Some(v) =>
      if s.pc.head == [] then Next(s.(pc := Zlib([v]), pos := s.pos + 8))
      else Next(s.(pc := if BadHeader(cfg, s.pc.head[0], v) then Failed else Head, pos := s.pos + 8))
  }

  ghost function StepHead(cfg: Config, bits: Bits, s: State): Outcome
    requires s.pc.Head?
  {
    match GetBits(bits, s.pos, 3)
    case None => Starved
    case Some(v) =>
      var fin, kind := v % 2 == 1, v / 2;
      if kind == 0 then Next(s.(pc := StoredHead(fin, []), pos := Align(s.pos + 3)))
      else if kind == 1 then Next(s.(pc := Symbol(fin, Tables(StaticLit(), StaticDist())), pos := s.pos + 3))
      else if kind == 2 then Next(s.(pc := Sizes(fin, []), pos := s.pos + 3))
      else Next(s.(pc := Failed, pos := s.pos + 3))
  }

  /** The stored length and its complement. */
  predicate BadStored(raw: seq<byte>)
    requires |raw| == 4
  {
    Pair(raw[0], raw[1]) + Pair(raw[2], raw[3]) != 65535
  }

  /** Two bytes, least significant first. */
  function Pair(lo: nat, hi: nat): nat {
    lo + 256 * hi
  }

  ghost function StepStored(cfg: Config, bits: Bits, s: State): Outcome
    requires s.pc.StoredHead? || s.pc.Stored? || s.pc.StoredEmit?
  {
    match s.pc
    case StoredHead(fin, raw) =>
      (match GetByte(bits, s.pos)
       case None => Starved
       case Some(v) =>
         var r := raw + [v];
         if |r| != 4 then Next(s.(pc := StoredHead(fin, r), pos := s.pos + 8))
         else if BadStored(r) then Next(s.(pc := Failed, pos := s.pos + 8))
         else Next(s.(pc := Stored(fin, Pair(r[0], r[1])), pos := s.pos + 8)))
    case Stored(fin, left) =>
      if left == 0 then Next(NextBlock(cfg, fin, s))
      else
        (match GetByte(bits, s.pos)
         case None => Starved
         case Some(v) => Next(s.(pc := StoredEmit(fin, left, v), pos := s.pos + 8)))
    case StoredEmit(fin, left, b) =>
      if left == 0 then Stop else Next(s.(pc := Stored(fin, left - 1), out := s.out + [b]))
  }

  ghost function StepSizes(cfg: Config, bits: Bits, s: State): Outcome
    requires s.pc.Sizes? || s.pc.LenLens?
  {
    match s.pc
    case Sizes(fin, got) =>
      var k := |got|;
      (match GetBits(bits, s.pos, SizeBits(k))
       case None => Starved
       case Some(v) =>
         var g := got + [v + SizeBase(k)];
         var p := s.pos + SizeBits(k);
         if k < 2 then Next(s.(pc := Sizes(fin, g), pos := p))
         else Next(s.(pc := LenLens(fin, g[0], g[1], g[2], []), pos := p)))
    case LenLens(fin, nlit, ndist, nlen, got) =>
      (match GetBits(bits, s.pos, 3)
       case None => Starved
       case Some(v) =>
         var g := got + [v];
         if |g| < nlen || |g| > 19 then Next(s.(pc := LenLens(fin, nlit, ndist, nlen, g), pos := s.pos + 3))
         else
           var lens := Unzigzag(g, |g|);
           Next(s.(pc := if Accepted(lens) then LenCodes(fin, nlit, ndist, lens, []) else Failed, pos := s.pos + 3)))
  }

  ghost function StepLens(cfg: Config, bits: Bits, s: State): Outcome
    requires s.pc.LenCodes? || s.pc.LenRun?
  {
    match s.pc
    case LenCodes(fin, nlit, ndist, lens, got) =>
      if |got| > nlit + ndist then Next(s.(pc := Failed))
      else if |got| == nlit + ndist then
        var t := Tables(got[..nlit], got[nlit..]);
        Next(s.(pc := if Accepted(t.lit) && Accepted(t.dist) then Symbol(fin, t) else Failed))
      else
        (match DecodeSym(lens, bits, s.pos)
         case NeedBits => Starved
         case NoCode => Next(s.(pc := Unspecified))
         case Sym(code, l) =>
           var p := s.pos + l;
           if code < 16 then Next(s.(pc := LenCodes(fin, nlit, ndist, lens, got + [code]), pos := p))
           else if code == 16 && got == [] then Next(s.(pc := Failed, pos := p))
           else Next(s.(pc := LenRun(fin, nlit, ndist, lens, got, code), pos := p)))
    case LenRun(fin, nlit, ndist, lens, got, code) =>
      (match GetBits(bits, s.pos, ExtraBits(code))
       case None => Starved
       case Some(v) =>
         if code == 16 && got == [] then Stop
         else Next(s.(pc := LenCodes(fin, nlit, ndist, lens, Append(got, Op(code, v))),
             pos := s.pos + ExtraBits(code))))
  }

  ghost function StepSymbol(cfg: Config, bits: Bits, s: State): Outcome
    requires s.pc.Symbol? || s.pc.Emit? || s.pc.LenBits? || s.pc.DistCode?
  {
    match s.pc
    case Symbol(fin, t) =>
      (match DecodeSym(t.lit, bits, s.pos)
       case NeedBits => Starved
       case NoCode => Next(s.(pc := Unspecified))
       case Sym(sym, l) =>
         var u := s.(pos := s.pos + l);
         if sym < 256 then Next(u.(pc := Emit(fin, t, sym)))
         else if sym == 256 then Next(NextBlock(cfg, fin, u))
         else Next(u.(pc := LenBits(fin, t, sym))))
    case Emit(fin, t, b) => Next(s.(pc := Symbol(fin, t), out := s.out + [b]))
    case LenBits(fin, t, sym) =>
      if sym < 257 || sym > 287 then Stop
      else
        var n := LENGTH_EXTRA[sym - 257];
        (match GetBits(bits, s.pos, n)
         case None => Starved
         case Some(v) => Next(s.(pc := DistCode(fin, t, LENGTH_BASE[sym - 257] + v), pos := s.pos + n)))
    case DistCode(fin, t, len) =>
      (match DecodeSym(t.dist, bits, s.pos)
       case NeedBits => Starved
       case NoCode => Next(s.(pc := Unspecified))
       case Sym(sym, l) => Next(s.(pc := DistBits(fin, t, len, sym), pos := s.pos + l)))
  }

  ghost function StepCopy(cfg: Config, bits: Bits, s: State): Outcome
    requires s.pc.DistBits? || s.pc.Copy? || s.pc.Trailer?
  {
    match s.pc
    case DistBits(fin, t, len, sym) =>
      if sym > 31 then Stop
      else
        var n := DIST_EXTRA[sym];
        (match GetBits(bits, s.pos, n)
         case None => Starved
         case Some(v) =>
           var dist := DIST_BASE[sym] + v;
           var bad := dist == 0 || dist > |s.out|;
           var pc' := if !bad then Copy(fin, t, len, dist) else if cfg.flat then Failed else Unspecified;
           Next(s.(pc := pc', pos := s.pos + n)))
    case Copy(fin, t, len, dist) =>
      if len == 0 then Next(s.(pc := Symbol(fin, t)))
      else if dist == 0 || dist > |s.out| then Stop
      else Next(s.(pc := Copy(fin, t, len - 1, dist), out := s.out + [s.out[|s.out| - dist]]))
    case Trailer(check) =>
      (match GetByte(bits, s.pos)
       case None => Starved
       case Some(v) =>
         var c := check + [v];
         Next(s.(pc := if |c| < 4 then Trailer(c) else Done(c), pos := s.pos + 8)))
  }

  /** One step of the machine on the bits received so far. */
  ghost function Step(cfg: Config, bits: Bits, s: State): Outcome {
    match s.pc
    case Zlib(_) => StepZlib(cfg, bits, s)
    case Head => StepHead(cfg, bits, s)
    case StoredHead(_, _) => StepStored(cfg, bits, s)
    case Stored(_, _) => StepStored(cfg, bits, s)
    case StoredEmit(_, _, _) => StepStored(cfg, bits, s)
    case Sizes(_, _) => StepSizes(cfg, bits, s)
    case LenLens(_, _, _, _, _) => StepSizes(cfg, bits, s)
    case LenCodes(_, _, _, _, _) => StepLens(cfg, bits, s)
    case LenRun(_, _, _, _, _, _) => StepLens(cfg, bits, s)
    case Symbol(_, _) => StepSymbol(cfg, bits, s)
    case Emit(_, _, _) => StepSymbol(cfg, bits, s)
    case LenBits(_, _, _) => StepSymbol(cfg, bits, s)
    case DistCode(_, _, _) => StepSymbol(cfg, bits, s)
    case DistBits(_, _, _, _) => StepCopy(cfg, bits, s)
    case Copy(_, _, _, _) => StepCopy(cfg, bits, s)
    case Trailer(_) => StepCopy(cfg, bits, s)
    case Done(_) => Stop
    case Failed => Stop
    case Unspecified => Stop
  }

  function Start(cfg: Config): State {
    State(if cfg.zlib then Zlib([]) else Head, 0, [])
  }

  /** n steps, or as many as there are. */
  ghost function Iter(cfg: Config, bits: Bits, s: State, n: nat): State
    decreases n
  {
    if n == 0 then s else
      match Step(cfg, bits, s)
      case Next(t) => Iter(cfg, bits, t, n - 1)
      case Starved => s
      case Stop => s
  }

  ghost predicate Reaches(cfg: Config, bits: Bits, s: State, t: State) {
    exists n: nat :: Iter(cfg, bits, s, n) == t
  }

  lemma ReachesSelf(cfg: Config, bits: Bits, s: State)
    ensures Reaches(cfg, bits, s, s)
  {
    assert Iter(cfg, bits, s, 0) == s;
  }

  lemma ReachesStep(cfg: Config, bits: Bits, s: State, t: State)
    requires Step(cfg, bits, s) == Next(t)
    ensures Reaches(cfg, bits, s, t)
  {
    hide Step;
    assert Iter(cfg, bits, t, 0) == t;
    assert Iter(cfg, bits, s, 1) == t;
  }

  lemma {:induction false} IterStuck(cfg: Config, bits: Bits, s: State, n: nat)
    requires !Step(cfg, bits, s).Next?
    ensures Iter(cfg, bits, s, n) == s
  {
  }

  lemma {:induction false} IterAdd(cfg: Config, bits: Bits, s: State, a: nat, b: nat)
    ensures Iter(cfg, bits, s, a + b) == Iter(cfg, bits, Iter(cfg, bits, s, a), b)
    decreases a
  {
    hide Step;
    if a > 0 {
      match Step(cfg, bits, s)
      case Next(t) => IterAdd(cfg, bits, t, a - 1, b);
      case Starved => IterStuck(cfg, bits, s, b);
      case Stop => IterStuck(cfg, bits, s, b);
    }
  }

  lemma ReachesTrans(cfg: Config, bits: Bits, s: State, t: State, u: State)
    requires Reaches(cfg, bits, s, t) && Reaches(cfg, bits, t, u)
    ensures Reaches(cfg, bits, s, u)
  {
    hide Iter;
    var a: nat :| Iter(cfg, bits, s, a) == t;
    var b: nat :| Iter(cfg, bits, t, b) == u;
    IterAdd(cfg, bits, s, a, b);
  }

  /** The machine is deterministic: where it can go no further is unique. */
  lemma StuckUnique(cfg: Config, bits: Bits, s: State, t: State, u: State)
    requires Reaches(cfg, bits, s, t) && !Step(cfg, bits, t).Next?
    requires Reaches(cfg, bits, s, u) && !Step(cfg, bits, u).Next?
    ensures t == u
  {
    hide Iter, Step;
    var a: nat :| Iter(cfg, bits, s, a) == t;
    var b: nat :| Iter(cfg, bits, s, b) == u;
    if a <= b {
      IterAdd(cfg, bits, s, a, b - a);
      IterStuck(cfg, bits, t, b - a);
    } else {
      IterAdd(cfg, bits, s, b, a - b);
      IterStuck(cfg, bits, u, a - b);
    }
  }
}
