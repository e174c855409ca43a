/** What a JSON string stands for, told apart from printer and parser: the escapes of section 7 of RFC 8259
    by their code points, and UTF-8 (section 3 of RFC 3629) by how it is decoded. */
module JsonStrings {
  import opened JsonText

  // ---- the escapes

  /** The letters that may follow a backslash, with the code points they stand for. */
  const LETTERS: seq<(char, nat)> := [
    ('"', 0x22), ('\\', 0x5C), ('/', 0x2F), ('b', 0x08), ('f', 0x0C), ('n', 0x0A), ('r', 0x0D), ('t', 0x09)
  ]

  /** One piece of the text of a string: a character that stands for itself, a letter behind a backslash, and
      one or two code units of UTF-16 in hexadecimal. */
  datatype Piece = Plain(c: char) | Letter(l: char) | Unit(h: string) | Pair(hi: string, lo: string)

  function PieceText(x: Piece): string {
    match x
    case Plain(c) => [c]
    case Letter(l) => ['\\', l]
    case Unit(h) => "\\u" + h
    case Pair(hi, lo) => "\\u" + hi + "\\u" + lo
  }

  // ---- hexadecimal digits

  predicate DigitIs(c: char, d: nat) {
    d < 16 && (c == "0123456789abcdef"[d] || c == "0123456789ABCDEF"[d])
  }

  /** Four digits, most significant first, are this number. */
  predicate HexIs(h: string, n: nat) {
    && |h| == 4 && n < 0x10000
    && DigitIs(h[0], n / 4096) && DigitIs(h[1], n / 256 % 16) && DigitIs(h[2], n / 16 % 16) && DigitIs(h[3], n % 16)
  }

  /** The code unit that four characters give: characters that are not four digits give zero. */
  ghost predicate UnitIs(h: string, n: nat) {
    |h| == 4 && (HexIs(h, n) || (n == 0 && forall m :: !HexIs(h, m)))
  }

  // ---- UTF-8

  /** A byte that continues a character: six bits. */
  predicate Continues(c: char) {
    0x80 <= c as int < 0xC0
  }

  function Six(c: char): nat
    requires Continues(c)
  {
    c as nat - 0x80
  }

  /** The code point that a byte sequence encodes, in the shortest form only. */
  function DecodeUtf8(u: string): Option<nat> {
    if |u| == 1 && u[0] as int < 0x80 then Some(u[0] as nat)
    else if |u| == 2 && 0xC0 <= u[0] as int < 0xE0 && Continues(u[1]) then
      Shortest(0x80, (u[0] as nat - 0xC0) * 0x40 + Six(u[1]))
    else if |u| == 3 && 0xE0 <= u[0] as int < 0xF0 && Continues(u[1]) && Continues(u[2]) then
      Shortest(0x800, (u[0] as nat - 0xE0) * 0x1000 + Six(u[1]) * 0x40 + Six(u[2]))
    else if |u| == 4 && 0xF0 <= u[0] as int < 0xF8 && Continues(u[1]) && Continues(u[2]) && Continues(u[3]) then
      Shortest(0x10000, (u[0] as nat - 0xF0) * 0x40000 + Six(u[1]) * 0x1000 + Six(u[2]) * 0x40 + Six(u[3]))
    else None
  }

  function Shortest(least: nat, code: nat): Option<nat> {
    if code < least then None else Some(code)
  }

  // ---- what a piece stands for

  ghost predicate Denotes(x: Piece, out: string) {
    match x
    case Plain(c) => c != '\\' && out == [c]
    case Letter(l) => exists i: nat :: i < |LETTERS| && LETTERS[i].0 == l && out == [LETTERS[i].1 as char]
    case Unit(h) => exists n: nat :: UnitIs(h, n) && !(0xD800 <= n < 0xE000) && DecodeUtf8(out) == Some(n)
    case Pair(hi, lo) =>
      exists m: nat, n: nat ::
        && UnitIs(hi, m) && 0xD800 <= m < 0xDC00 && UnitIs(lo, n) && 0xDC00 <= n < 0xE000
        && DecodeUtf8(out) == Some(0x10000 + (m - 0xD800) * 0x400 + (n - 0xDC00))
  }

  /** The text of a string from p up to end is read as these pieces, which stand for these bytes. The code
      units must lie before the end. */
  ghost predicate Reads(s: string, p: nat, end: nat, xs: seq<Piece>, outs: seq<string>)
    decreases |xs|
  {
    && |xs| == |outs|
    && if xs == [] then p >= end
       else
         && p < end && Lies(s, p, PieceText(xs[0])) && Denotes(xs[0], outs[0])
         && (xs[0].Unit? || xs[0].Pair? ==> p + |PieceText(xs[0])| <= end)
         && Reads(s, p + |PieceText(xs[0])|, end, xs[1..], outs[1..])
  }

  function Join(outs: seq<string>): string {
    if outs == [] then "" else outs[0] + Join(outs[1..])
  }

  // ---- the parser's functions mean this

  /** The parts of a code point, six bits each. */
  lemma SixBits(code: nat)
    ensures code == code / 0x40 * 0x40 + code % 0x40
    ensures code == code / 0x1000 * 0x1000 + code / 0x40 % 0x40 * 0x40 + code % 0x40
    ensures code == code / 0x40000 * 0x40000 + code / 0x1000 % 0x40 * 0x1000 + code / 0x40 % 0x40 * 0x40 + code % 0x40
  {
    var a := code / 0x40;
    var b := a / 0x40;
    var c := b / 0x40;
    assert code / 0x1000 == b && code / 0x40000 == c;
  }

  lemma TailIs(v: nat)
    ensures Continues(Tail(v)) && Six(Tail(v)) == v % 0x40
  {
  }

  lemma LeadIs(base: nat, v: nat)
    requires base + v < 0x100
    ensures (base + v) as char as int == base + v
  {
  }

  lemma Utf8Means(code: nat)
    requires code < 0x110000
    ensures DecodeUtf8(Utf8(code)) == Some(code)
  {
    hide Tail, Six, Continues;
    SixBits(code);
    TailIs(code);
    TailIs(code / 0x40);
    TailIs(code / 0x1000);
  }

  /** The shortest form is the only one. */
  lemma Utf8Only(u: string, code: nat)
    requires code < 0x110000 && DecodeUtf8(u) == Some(code)
    ensures u == Utf8(code)
  {
    if |u| == 2 {
      TwoOnly(u[0] as nat - 0xC0, Six(u[1]));
    } else if |u| == 3 {
      ThreeOnly(u[0] as nat - 0xE0, Six(u[1]), Six(u[2]));
    } else if |u| == 4 {
      FourOnly(u[0] as nat - 0xF0, Six(u[1]), Six(u[2]), Six(u[3]));
    }
  }

  lemma TwoOnly(a: nat, b: nat)
    requires b < 0x40
    ensures (a * 0x40 + b) / 0x40 == a && (a * 0x40 + b) % 0x40 == b
  {
  }

  lemma ThreeOnly(a: nat, b: nat, c: nat)
    requires b < 0x40 && c < 0x40
    ensures var n := a * 0x1000 + b * 0x40 + c; n / 0x1000 == a && n / 0x40 % 0x40 == b && n % 0x40 == c
  {
    TwoOnly(a * 0x40 + b, c);
    TwoOnly(a, b);
    var n := a * 0x1000 + b * 0x40 + c;
    assert n == (a * 0x40 + b) * 0x40 + c && n / 0x1000 == n / 0x40 / 0x40;
  }

  lemma FourOnly(a: nat, b: nat, c: nat, d: nat)
    requires b < 0x40 && c < 0x40 && d < 0x40
    ensures var n := a * 0x40000 + b * 0x1000 + c * 0x40 + d;
            n / 0x40000 == a && n / 0x1000 % 0x40 == b && n / 0x40 % 0x40 == c && n % 0x40 == d
  {
    var n := a * 0x40000 + b * 0x1000 + c * 0x40 + d;
    var m := a * 0x1000 + b * 0x40 + c;
    ThreeOnly(a, b, c);
    TwoOnly(m, d);
    assert n == m * 0x40 + d;
    assert n / 0x1000 == n / 0x40 / 0x40 && n / 0x40000 == n / 0x40 / 0x1000;
  }

  lemma DigitTables(d: nat)
    requires d < 16
    ensures "0123456789abcdef"[d] == if d < 10 then '0' + d as char else 'a' + (d - 10) as char
    ensures "0123456789ABCDEF"[d] == if d < 10 then '0' + d as char else 'A' + (d - 10) as char
  {
  }

  lemma DigitValue(c: char, d: nat)
    ensures DigitIs(c, d) <==> HexValue(c) == Some(d)
  {
    if d < 16 { DigitTables(d); }
  }

  lemma HexValueMeans(c: char)
    ensures match HexValue(c)
            case Some(d) => DigitIs(c, d) && forall e: nat :: DigitIs(c, e) ==> e == d
            case None => forall e: nat :: !DigitIs(c, e)
  {
    hide DigitIs, HexValue;
    forall e: nat
      ensures DigitIs(c, e) <==> HexValue(c) == Some(e)
    {
      DigitValue(c, e);
    }
  }

  /** Four hexadecimal digits, or zero. */
  lemma Hex4Means(s: string, p: nat, h: string)
    requires p + 4 <= |s| && h == s[p..p + 4]
    ensures UnitIs(h, Hex4(s, p)) && forall n: nat :: UnitIs(h, n) ==> n == Hex4(s, p)
  {
    hide DigitIs, HexValue;
    HexValueMeans(h[0]);
    HexValueMeans(h[1]);
    HexValueMeans(h[2]);
    HexValueMeans(h[3]);
    if HexValue(h[0]).Some? && HexValue(h[1]).Some? && HexValue(h[2]).Some? && HexValue(h[3]).Some? {
      Nibbles(HexValue(h[0]).value, HexValue(h[1]).value, HexValue(h[2]).value, HexValue(h[3]).value);
      assert HexIs(h, Hex4(s, p));
      forall n: nat | HexIs(h, n)
        ensures n == Hex4(s, p)
      {
        NibblesBack(n);
      }
    }
  }

  lemma Nibbles(a: nat, b: nat, c: nat, d: nat)
    requires a < 16 && b < 16 && c < 16 && d < 16
    ensures var n := 4096 * a + 256 * b + 16 * c + d;
            n < 0x10000 && n / 4096 == a && n / 256 % 16 == b && n / 16 % 16 == c && n % 16 == d
  {
    var n := 4096 * a + 256 * b + 16 * c + d;
    assert n / 16 == 256 * a + 16 * b + c && n / 256 == 16 * a + b && n / 4096 == a;
  }

  lemma NibblesBack(n: nat)
    requires n < 0x10000
    ensures n == 4096 * (n / 4096) + 256 * (n / 256 % 16) + 16 * (n / 16 % 16) + n % 16
    ensures n / 4096 < 16
  {
    var a := n / 16;
    var b := a / 16;
    assert n / 256 == b && n / 4096 == b / 16;
  }

  lemma EscapedMeans(l: char)
    ensures forall i: nat :: i < |LETTERS| && LETTERS[i].0 == l ==> Escaped(l) == Some(LETTERS[i].1 as char)
    ensures Escaped(l).Some? ==>
              l != 'u' && exists i: nat ::
                    i < |LETTERS| && LETTERS[i].0 == l && [Escaped(l).value] == [LETTERS[i].1 as char]
    ensures Escaped('u') == None
  {
    if l == '"' { assert LETTERS[0].0 == l; }
    if l == '\\' { assert LETTERS[1].0 == l; }
    if l == '/' { assert LETTERS[2].0 == l; }
    if l == 'b' { assert LETTERS[3].0 == l; }
    if l == 'f' { assert LETTERS[4].0 == l; }
    if l == 'n' { assert LETTERS[5].0 == l; }
    if l == 'r' { assert LETTERS[6].0 == l; }
    if l == 't' { assert LETTERS[7].0 == l; }
  }

  lemma LiesPart(s: string, p: nat, t: string, k: nat, n: nat)
    requires Lies(s, p, t) && k <= n <= |t|
    ensures p + n <= |s| && s[p + k..p + n] == t[k..n] && (k < n ==> s[p + k] == t[k])
  {
    forall i | k <= i < n
      ensures s[p + i] == t[i]
    {
      assert s[p..p + |t|][i] == t[i];
    }
    forall i | 0 <= i < n - k
      ensures s[p + k..p + n][i] == t[k..n][i]
    {
      assert s[p + (k + i)] == t[k + i];
    }
  }

  // ---- one piece

  lemma PlainStep(s: string, p: nat, end: nat, c: char)
    requires p < end < |s| && Lies(s, p, [c]) && c != '\\'
    ensures Unescape(s, p, end) == Before([c], Unescape(s, p + 1, end))
  {
    LiesPart(s, p, [c], 0, 1);
  }

  lemma LetterStep(s: string, p: nat, end: nat, l: char, out: string)
    requires p < end < |s| && Lies(s, p, PieceText(Letter(l))) && Denotes(Letter(l), out)
    ensures Unescape(s, p, end) == Before(out, Unescape(s, p + 2, end))
  {
    hide Escaped, Literal;
    LiesPart(s, p, ['\\', l], 0, 2);
    LiesPart(s, p, ['\\', l], 1, 2);
    EscapedMeans(l);
  }

  lemma UnitStep(s: string, p: nat, end: nat, h: string, out: string)
    requires p + 6 <= end < |s| && Lies(s, p, PieceText(Unit(h))) && Denotes(Unit(h), out) && |h| == 4
    ensures Unescape(s, p, end) == Before(out, Unescape(s, p + 6, end))
  {
    hide Hex4, Utf8, DecodeUtf8, UnitIs, Escaped;
    var t := PieceText(Unit(h));
    LiesPart(s, p, t, 0, 6);
    LiesPart(s, p, t, 1, 6);
    LiesPart(s, p, t, 2, 6);
    assert t[2..6] == h;
    Hex4Means(s, p + 2, h);
    Utf8Only(out, Hex4(s, p + 2));
  }

  lemma PairParts(hi: string, lo: string)
    requires |hi| == 4 && |lo| == 4
    ensures var t := PieceText(Pair(hi, lo));
            |t| == 12 && t[..2] == "\\u" && t[2..6] == hi && t[6..8] == "\\u" && t[8..12] == lo
  {
    var t := PieceText(Pair(hi, lo));
    assert t == ("\\u" + hi) + ("\\u" + lo);
  }

  lemma PairStep(s: string, p: nat, end: nat, hi: string, lo: string, out: string)
    requires p + 12 <= end < |s| && Lies(s, p, PieceText(Pair(hi, lo))) && Denotes(Pair(hi, lo), out)
    requires |hi| == 4 && |lo| == 4
    ensures Unescape(s, p, end) == Before(out, Unescape(s, p + 12, end))
  {
    hide Hex4, Utf8, DecodeUtf8, UnitIs, Escaped;
    var t := PieceText(Pair(hi, lo));
    LiesPart(s, p, t, 0, 12);
    LiesPart(s, p, t, 1, 12);
    LiesPart(s, p, t, 2, 6);
    LiesPart(s, p, t, 6, 12);
    LiesPart(s, p, t, 7, 12);
    LiesPart(s, p, t, 8, 12);
    PairParts(hi, lo);
    Hex4Means(s, p + 2, hi);
    Hex4Means(s, p + 8, lo);
    Utf8Only(out, 0x10000 + (Hex4(s, p + 2) - 0xD800) * 0x400 + (Hex4(s, p + 8) - 0xDC00));
  }

  lemma UnitSize(x: Piece, out: string)
    requires Denotes(x, out)
    ensures match x
            case Unit(h) => |h| == 4
            case Pair(hi, lo) => |hi| == 4 && |lo| == 4
            case _ => true
  {
  }

  lemma PieceStep(s: string, p: nat, end: nat, x: Piece, out: string)
    requires p < end < |s| && Lies(s, p, PieceText(x)) && Denotes(x, out)
    requires x.Unit? || x.Pair? ==> p + |PieceText(x)| <= end
    ensures Unescape(s, p, end) == Before(out, Unescape(s, p + |PieceText(x)|, end))
  {
    hide Unescape;
    UnitSize(x, out);
    match x
    case Plain(c) => PlainStep(s, p, end, c);
    case Letter(l) => LetterStep(s, p, end, l, out);
    case Unit(h) => UnitStep(s, p, end, h, out);
    case Pair(hi, lo) => PairStep(s, p, end, hi, lo, out);
  }

  // ---- whole strings

  /** However the text of a string is put together from pieces, it is read as what they stand for. */
  lemma {:induction false} PiecesRead(s: string, p: nat, end: nat, xs: seq<Piece>, outs: seq<string>)
    requires end < |s| && Reads(s, p, end, xs, outs)
    ensures Unescape(s, p, end) == Some(Join(outs))
    decreases |xs|
  {
    hide Denotes, Lies, PieceText;
    if xs == [] {
      hide Reads;
    } else {
      hide Unescape;
      PieceStep(s, p, end, xs[0], outs[0]);
      PiecesRead(s, p + |PieceText(xs[0])|, end, xs[1..], outs[1..]);
    }
  }

  /** The piece that the parser takes at p. */
  lemma PieceAt(s: string, p: nat, end: nat) returns (x: Piece, out: string)
    requires p < end < |s| && Unescape(s, p, end).Some?
    ensures Lies(s, p, PieceText(x)) && Denotes(x, out) && |PieceText(x)| > 0
    ensures x.Unit? || x.Pair? ==> p + |PieceText(x)| <= end
  {
    hide Hex4, Utf8, DecodeUtf8, UnitIs, Escaped;
    if s[p] != '\\' {
      x, out := Plain(s[p]), [s[p]];
    } else if s[p + 1] != 'u' {
      EscapedMeans(s[p + 1]);
      x, out := Letter(s[p + 1]), [Escaped(s[p + 1]).value];
    } else if Literal(s, p, end).value.1 == 6 {
      var h := s[p + 2..p + 6];
      x, out := UnitAt(s, p, h);
    } else {
      x, out := PairAt(s, p, end);
    }
  }

  lemma UnitAt(s: string, p: nat, h: string) returns (x: Piece, out: string)
    requires p + 6 <= |s| && s[p] == '\\' && s[p + 1] == 'u' && h == s[p + 2..p + 6]
    requires !(0xD800 <= Hex4(s, p + 2) < 0xE000)
    ensures x == Unit(h) && Lies(s, p, PieceText(x)) && Denotes(x, out)
  {
    hide Hex4, Utf8, DecodeUtf8, UnitIs;
    Hex4Means(s, p + 2, h);
    Utf8Means(Hex4(s, p + 2));
    x, out := Unit(h), Utf8(Hex4(s, p + 2));
    assert s[p..p + 6] == "\\u" + h;
  }

  lemma PairAt(s: string, p: nat, end: nat) returns (x: Piece, out: string)
    requires p + 12 <= end < |s| && s[p] == '\\' && s[p + 1] == 'u' && s[p + 6] == '\\' && s[p + 7] == 'u'
    requires 0xD800 <= Hex4(s, p + 2) < 0xDC00 && 0xDC00 <= Hex4(s, p + 8) < 0xE000
    ensures x.Pair? && Lies(s, p, PieceText(x)) && |PieceText(x)| == 12 && Denotes(x, out)
  {
    hide Hex4, Utf8, DecodeUtf8, UnitIs;
    var hi, lo := s[p + 2..p + 6], s[p + 8..p + 12];
    Hex4Means(s, p + 2, hi);
    Hex4Means(s, p + 8, lo);
    var code := 0x10000 + (Hex4(s, p + 2) - 0xD800) * 0x400 + (Hex4(s, p + 8) - 0xDC00);
    Utf8Means(code);
    x, out := Pair(hi, lo), Utf8(code);
    assert s[p..p + 12] == "\\u" + hi + "\\u" + lo;
  }

  /** Whatever is read is put together from pieces: a text with any other escape is rejected. */
  lemma {:induction false} ReadInPieces(s: string, p: nat, end: nat) returns (xs: seq<Piece>, outs: seq<string>)
    requires end < |s| && Unescape(s, p, end).Some?
    ensures Reads(s, p, end, xs, outs) && Unescape(s, p, end) == Some(Join(outs))
    decreases end - p
  {
    hide Denotes, Lies, PieceText;
    if p >= end {
      xs, outs := [], [];
    } else {
      var x, out := PieceAt(s, p, end);
      PieceStep(s, p, end, x, out);
      hide Unescape;
      var ys, rest := ReadInPieces(s, p + |PieceText(x)|, end);
      xs, outs := [x] + ys, [out] + rest;
      assert xs[1..] == ys && outs[1..] == rest;
    }
  }

  // ---- what the printer writes

  /** The piece that a character is printed as: its letter if it has one, four digits for the other control
      characters, and the character itself otherwise. A slash stays itself. */
  ghost predicate Shows(x: Piece, c: char) {
    match x
    case Letter(l) => l != '/' && exists i: nat :: i < |LETTERS| && LETTERS[i] == (l, c as nat)
    case Unit(h) =>
      && c as int < 0x20 && (forall i: nat :: i < |LETTERS| ==> LETTERS[i].1 != c as nat)
      && h == ['0', '0', "0123456789abcdef"[c as nat / 16], "0123456789abcdef"[c as nat % 16]]
    case Plain(d) => d == c && 0x20 <= c as int && c != '"' && c != '\\'
    case Pair(_, _) => false
  }

  function Texts(xs: seq<Piece>): string {
    if xs == [] then "" else PieceText(xs[0]) + Texts(xs[1..])
  }

  lemma LetterShown(l: char, c: char, i: nat)
    requires i < |LETTERS| && LETTERS[i] == (l, c as nat) && l != '/'
    ensures Shows(Letter(l), c)
  {
  }

  lemma OtherShown(c: char) returns (x: Piece)
    requires c != '"' && c != '\\' && c as int !in {8, 9, 10, 12, 13}
    ensures Shows(x, c) && PieceText(x) == EscapeChar(c)
  {
    if c as int < 0x20 {
      x := Unit(['0', '0', "0123456789abcdef"[c as nat / 16], "0123456789abcdef"[c as nat % 16]]);
      Digit(c as nat / 16);
      Digit(c as nat % 16);
    } else {
      x := Plain(c);
    }
  }

  lemma Digit(d: nat)
    requires d < 16
    ensures HexDigit(d) == "0123456789abcdef"[d]
  {
  }

  lemma CharShown(c: char) returns (x: Piece)
    ensures Shows(x, c) && PieceText(x) == EscapeChar(c)
  {
    hide Shows, HexDigit;
    if c == '"' {
      x := Letter('"');
      LetterShown('"', c, 0);
    } else if c == '\\' {
      x := Letter('\\');
      LetterShown('\\', c, 1);
    } else if c as int == 8 {
      x := Letter('b');
      LetterShown('b', c, 3);
    } else if c as int == 12 {
      x := Letter('f');
      LetterShown('f', c, 4);
    } else if c == '\n' {
      x := Letter('n');
      LetterShown('n', c, 5);
    } else if c == '\r' {
      x := Letter('r');
      LetterShown('r', c, 6);
    } else if c == '\t' {
      x := Letter('t');
      LetterShown('t', c, 7);
    } else {
      x := OtherShown(c);
    }
  }

  /** A printed string is put together from the pieces of its characters. */
  lemma {:induction false} StringShown(x: string) returns (xs: seq<Piece>)
    ensures |xs| == |x| && (forall i :: 0 <= i < |x| ==> Shows(xs[i], x[i])) && Escape(x) == Texts(xs)
  {
    hide EscapeChar, Shows, PieceText;
    if x == [] {
      xs := [];
    } else {
      var y := CharShown(x[0]);
      var ys := StringShown(x[1..]);
      xs := [y] + ys;
      assert xs[1..] == ys;
    }
  }

  /** A character has one way to be printed. */
  lemma ShownOnce(x: Piece, y: Piece, c: char)
    requires Shows(x, c) && Shows(y, c)
    ensures x == y
  {
  }
}
