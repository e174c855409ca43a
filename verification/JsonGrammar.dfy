/** The grammar of RFC 8259, as a relation between a piece of text and a value, and that the parser reads
    every text of the grammar as its value. */
module JsonGrammar {
  import opened JsonText
  import opened JsonStrings
  import opened Decimals
  import R = JsonRoundTrip

  // ---- section 2: spaces

  predicate IsSpace(c: char) {
    c == ' ' || c == '\t' || c == '\n' || c == '\r'
  }

  ghost predicate Space(s: string, p: nat, q: nat) {
    p <= q <= |s| && forall i :: p <= i < q ==> IsSpace(s[i])
  }

  // ---- section 6: numbers

  predicate AllDigits(t: string) {
    forall i :: 0 <= i < |t| ==> '0' <= t[i] <= '9'
  }

  function Decimal(t: string): nat
    requires AllDigits(t)
  {
    if t == "" then 0 else 10 * Decimal(t[..|t| - 1]) + (t[|t| - 1] as nat - '0' as nat)
  }

  function TenTo(n: nat): (r: real)
    ensures r > 0.0
  {
    if n == 0 then 1.0 else 10.0 * TenTo(n - 1)
  }

  datatype Exponent = NoExponent | Exponent(mark: char, sign: string, digits: string)

  datatype Numeral = Numeral(minus: bool, whole: string, frac: string, exp: Exponent)

  predicate ExponentOk(e: Exponent) {
    e.Exponent? ==>
      && (e.mark == 'e' || e.mark == 'E') && (e.sign == "" || e.sign == "+" || e.sign == "-")
      && e.digits != "" && AllDigits(e.digits)
  }

  predicate Digital(x: Numeral) {
    AllDigits(x.whole) && AllDigits(x.frac) && ExponentOk(x.exp)
  }

  /** No leading zeros; a fraction that is empty is absent. */
  predicate NumeralOk(x: Numeral) {
    Digital(x) && x.whole != "" && (x.whole[0] == '0' ==> |x.whole| == 1)
  }

  function ExponentText(e: Exponent): string {
    if e.NoExponent? then "" else [e.mark] + e.sign + e.digits
  }

  function NumeralText(x: Numeral): string {
    (if x.minus then "-" else "") + x.whole + (if x.frac == "" then "" else "." + x.frac) + ExponentText(x.exp)
  }

  function Scaled(size: real, e: Exponent): real
    requires ExponentOk(e)
  {
    if e.NoExponent? then size
    else if e.sign == "-" then size / TenTo(Decimal(e.digits))
    else size * TenTo(Decimal(e.digits))
  }

  lemma DigitsJoin(a: string, b: string)
    requires AllDigits(a) && AllDigits(b)
    ensures AllDigits(a + b)
  {
  }

  function NumeralValue(x: Numeral): real
    requires Digital(x)
  {
    DigitsJoin(x.whole, x.frac);
    var size := Decimal(x.whole + x.frac) as real / TenTo(|x.frac|);
    Scaled(if x.minus then -size else size, x.exp)
  }

  /** The int of a number: cut off towards zero, and the nearest int where it is out of range. */
  ghost predicate IntIs(x: real, n: int) {
    if x >= 2147483647.0 then n == 2147483647
    else if x <= -2147483648.0 then n == -2147483648
    else if x >= 0.0 then n as real <= x < n as real + 1.0
    else n as real - 1.0 < x <= n as real
  }

  /** A number of at most 63 characters, which is what the parser copies for strtod. */
  ghost predicate NumberAt(s: string, p: nat, q: nat, n: int) {
    p < q <= |s| && q - p <= 63
    && exists x: Numeral :: NumeralOk(x) && NumeralText(x) == s[p..q] && IntIs(NumeralValue(x), n)
  }

  lemma IntOfMeans(x: real, n: int)
    ensures IntIs(x, n) <==> IntOf(x) == n
  {
  }

  lemma {:induction false} DecimalIs(t: string)
    requires AllDigits(t)
    ensures NatOf(t) == Decimal(t)
  {
    if t != "" {
      DecimalIs(t[..|t| - 1]);
      assert '0' <= t[|t| - 1] <= '9';
    }
  }

  lemma {:induction false} TenToIs(n: nat)
    ensures Pow10(n) == TenTo(n)
  {
    if n > 0 { TenToIs(n - 1); }
  }

  lemma {:induction false} DigitsStop(t: string, p: nat, q: nat)
    requires p <= q <= |t| && (forall i :: p <= i < q ==> IsDigit(t[i])) && (q < |t| ==> !IsDigit(t[q]))
    ensures DigitsEnd(t, p) == q
    decreases q - p
  {
    if p < q { DigitsStop(t, p + 1, q); }
  }

  lemma SignedDigits(t: string, p: nat, e: Exponent)
    requires p <= |t| && ExponentOk(e) && e.Exponent? && t[p..] == ExponentText(e)
    ensures p + 1 + |e.sign| < |t| && t[p] == e.mark && t[p + 1 + |e.sign|..] == e.digits
    ensures t[p + 1] == if e.sign == "" then e.digits[0] else e.sign[0]
  {
    var x := t[p..];
    Slices([e.mark], e.sign, e.digits);
    assert x == [e.mark] + (e.sign + e.digits);
    assert t[p + 1 + |e.sign|..] == x[1 + |e.sign|..];
    assert t[p] == x[0] && t[p + 1] == x[1];
  }

  lemma ExponentRead(t: string, p: nat, e: Exponent)
    requires p <= |t| && ExponentOk(e) && t[p..] == ExponentText(e)
    ensures var r := JsonText.Exponent(t, p);
            r.0 == |t| && if e.NoExponent? then r == (|t|, true, 0)
                else r.1 == (e.sign != "-") && r.2 == Decimal(e.digits)
  {
    hide NatOf, DigitsEnd, Decimal;
    if e.Exponent? {
      SignedDigits(t, p, e);
      hide ExponentText;
      var from: nat := p + 1 + |e.sign|;
      assert t[from..|t|] == e.digits;
      DigitsAt(t, from, |t|, e.digits);
      DigitsStop(t, from, |t|);
      DecimalIs(e.digits);
    }
  }

  lemma Slices(a: string, b: string, c: string)
    ensures var t := a + (b + c); t[|a|..|a| + |b|] == b && t[|a| + |b|..] == c && t[..|a|] == a
  {
  }

  function FracText(x: Numeral): string {
    if x.frac == "" then "" else "." + x.frac
  }

  function MinusText(x: Numeral): string {
    if x.minus then "-" else ""
  }

  /** The parts of a numeral in its text. */
  lemma NumeralParts(x: Numeral)
    ensures var t, a := NumeralText(x), |MinusText(x)|;
            var b := a + |x.whole|;
            var c := b + |FracText(x)|;
            b <= c <= |t| && t[..a] == MinusText(x) && t[a..b] == x.whole && t[b..c] == FracText(x)
                && t[c..] == ExponentText(x.exp)
  {
    hide ExponentText;
    var m, w, f, e := MinusText(x), x.whole, FracText(x), ExponentText(x.exp);
    assert NumeralText(x) == m + (w + (f + e)) == (m + w) + (f + e);
    Slices(m, w, f + e);
    Slices(m + w, f, e);
  }

  lemma FracAt(t: string, b: nat, c: nat, x: Numeral)
    requires b <= c <= |t| && t[b..c] == FracText(x)
    ensures x.frac != "" ==> b < c && t[b] == '.' && t[b + 1..c] == x.frac
    ensures x.frac == "" ==> b == c
  {
    if x.frac != "" {
      assert t[b..c][0] == t[b] && t[b..c][1..] == t[b + 1..c];
    }
  }

  lemma NotDigitBehind(t: string, c: nat, e: Exponent)
    requires c <= |t| && ExponentOk(e) && t[c..] == ExponentText(e)
    ensures c < |t| ==> !IsDigit(t[c]) && t[c] != '.'
  {
    if c < |t| { assert t[c] == t[c..][0]; }
  }

  lemma DigitsAt(t: string, p: nat, q: nat, d: string)
    requires p <= q <= |t| && t[p..q] == d && AllDigits(d)
    ensures forall i :: p <= i < q ==> IsDigit(t[i])
  {
    forall i | p <= i < q
      ensures IsDigit(t[i])
    {
      assert t[i] == t[p..q][i - p];
    }
  }

  lemma SignAt(t: string, a: nat, x: Numeral)
    requires a == |MinusText(x)| && a < |t| && t[..a] == MinusText(x) && '0' <= t[a] <= '9'
    ensures x.minus ==> a == 1 && t[0] == '-'
    ensures !x.minus ==> a == 0 && t[0] != '-' && t[0] != '+'
  {
  }

  /** What Strtod makes of a text with these parts. */
  lemma StrtodParts(t: string, a: nat, b: nat, c: nat, minus: bool, e: nat, up: bool)
    requires a < b <= c <= |t| && a == (if minus then 1 else 0) && (minus ==> t[0] == '-')
    requires !minus ==> t[0] != '-' && t[0] != '+'
    requires DigitsEnd(t, a) == b && (b < c <==> b < |t| && t[b] == '.')
             && (b < c ==> DigitsEnd(t, b + 1) == c && b + 1 < c)
    requires JsonText.Exponent(t, c) == (|t|, up, e)
    ensures b == c ==> Strtod(t) == (|t|, Assembled(t[a..b], 0, minus, up, e))
    ensures b < c ==> Strtod(t) == (|t|, Assembled(t[a..b] + t[b + 1..c], c - b - 1, minus, up, e))
  {
    hide Assembled, DigitsEnd, JsonText.Exponent;
    assert t != [] && (t[0] == '-' || t[0] == '+' <==> minus);
    if b < c {
      assert |t[a..b] + t[b + 1..c]| - (b - a) == c - b - 1;
    } else {
      assert t[a..b] + "" == t[a..b];
      assert |t[a..b]| - (b - a) == 0;
    }
  }

  lemma PowZero()
    ensures Pow10(0) == 1.0
  {
  }

  /** strtod takes a numeral whole and finds its value. */
  lemma StrtodNumeral(x: Numeral)
    requires NumeralOk(x)
    ensures Strtod(NumeralText(x)) == (|NumeralText(x)|, NumeralValue(x))
  {
    hide NumeralText, NatOf, Decimal, DigitsEnd, JsonText.Exponent, Pow10, TenTo, Strtod, NumeralValue, Assembled;
    var t, a: nat := NumeralText(x), |MinusText(x)|;
    var b: nat := a + |x.whole|;
    var c: nat := b + |FracText(x)|;
    NumeralParts(x);
    FracAt(t, b, c, x);
    NotDigitBehind(t, c, x.exp);
    DigitsAt(t, a, b, x.whole);
    SignAt(t, a, x);
    DigitsStop(t, a, b);
    if x.frac != "" {
      DigitsAt(t, b + 1, c, x.frac);
      DigitsStop(t, b + 1, c);
    }
    ExponentRead(t, c, x.exp);
    var up := x.exp.NoExponent? || x.exp.sign != "-";
    var e: nat := if x.exp.NoExponent? then 0 else Decimal(x.exp.digits);
    StrtodParts(t, a, b, c, x.minus, e, up);
    if x.frac == "" {
      assert t[a..b] == x.whole + x.frac;
    } else {
      assert t[a..b] + t[b + 1..c] == x.whole + x.frac && c - b - 1 == |x.frac|;
    }
    ScaledIs(x, e, up);
  }

  lemma ScaledIs(x: Numeral, e: nat, up: bool)
    requires Digital(x) && up == (x.exp.NoExponent? || x.exp.sign != "-")
    requires e == if x.exp.NoExponent? then 0 else Decimal(x.exp.digits)
    ensures NumeralValue(x) == Assembled(x.whole + x.frac, |x.frac|, x.minus, up, e)
  {
    hide Decimal, NatOf, Pow10, TenTo;
    DigitsJoin(x.whole, x.frac);
    DecimalIs(x.whole + x.frac);
    TenToIs(|x.frac|);
    TenToIs(e);
    PowZero();
  }

  /** A number in a text is read as its int. */
  lemma NumberIsRead(s: string, p: nat, q: nat, n: int)
    requires NumberAt(s, p, q, n) && R.Delimited(s, q)
    ensures ParseNumber(s, p) == Some((n, q))
  {
    hide Strtod, IntOf, NumeralText, NumeralValue, IntIs, NumberRun;
    var x: Numeral :| NumeralOk(x) && NumeralText(x) == s[p..q] && IntIs(NumeralValue(x), n);
    NumeralChars(x);
    forall i | p <= i < q
      ensures NumberChar(s[i])
    {
      assert s[i] == s[p..q][i - p];
    }
    RunStops(s, p, q, 63);
    StrtodNumeral(x);
    IntOfMeans(NumeralValue(x), n);
  }

  lemma NumeralChars(x: Numeral)
    requires NumeralOk(x)
    ensures forall i :: 0 <= i < |NumeralText(x)| ==> NumberChar(NumeralText(x)[i])
  {
    var e := ExponentText(x.exp);
    assert forall i :: 0 <= i < |e| ==> NumberChar(e[i]);
    var f := FracText(x);
    assert forall i :: 0 <= i < |f| ==> NumberChar(f[i]);
    var m := MinusText(x);
    assert NumeralText(x) == m + x.whole + f + e;
    hide ExponentText, FracText, MinusText, NumeralText;
  }

  lemma {:induction false} RunStops(s: string, p: nat, q: nat, left: nat)
    requires p <= q <= |s| && q - p <= left && (forall i :: p <= i < q ==> NumberChar(s[i])) && R.Delimited(s, q)
    ensures NumberRun(s, p, left) == q - p
    decreases q - p
  {
    if p < q { RunStops(s, p + 1, q, left - 1); }
  }

  // ---- section 7: strings

  /** A piece of the grammar: control characters, quotes and backslashes are escaped, and digits are digits. */
  ghost predicate Proper(x: Piece) {
    match x
    case Plain(c) => c as int >= 0x20 && c != '"' && c != '\\'
    case Letter(_) => true
    case Unit(h) => exists n: nat :: HexIs(h, n)
    case Pair(hi, lo) => (exists n: nat :: HexIs(hi, n)) && (exists n: nat :: HexIs(lo, n))
  }

  /** The string as C sees it: up to the first zero byte. */
  ghost predicate CStringIs(whole: string, x: string) {
    x <= whole && NUL !in x && (|x| < |whole| ==> whole[|x|] == NUL)
  }

  ghost predicate StringAt(s: string, p: nat, q: nat, x: string) {
    && p + 2 <= q <= |s| && s[p] == '"' && s[q - 1] == '"'
    && exists xs: seq<Piece>, outs: seq<string> ::
         && Reads(s, p + 1, q - 1, xs, outs) && |Texts(xs)| == q - p - 2
         && (forall i :: 0 <= i < |xs| ==> Proper(xs[i])) && CStringIs(Join(outs), x)
  }

  lemma {:induction false} CStringMeans(whole: string, x: string)
    requires CStringIs(whole, x)
    ensures CString(whole) == x
  {
    if whole != [] && whole[0] != NUL {
      assert x != [] && x[0] == whole[0];
      CStringMeans(whole[1..], x[1..]);
    }
  }

  lemma HexPlain(h: string)
    requires exists n: nat :: HexIs(h, n)
    ensures |h| == 4 && forall i :: 0 <= i < 4 ==> h[i] != '"' && h[i] != '\\'
  {
    var n: nat :| HexIs(h, n);
    HexNibbles(n);
    DigitPlain(h[0], n / 4096);
    DigitPlain(h[1], n / 256 % 16);
    DigitPlain(h[2], n / 16 % 16);
    DigitPlain(h[3], n % 16);
  }

  lemma HexNibbles(n: nat)
    requires n < 0x10000
    ensures n / 4096 < 16
  {
  }

  lemma DigitPlain(c: char, d: nat)
    requires DigitIs(c, d)
    ensures c != '"' && c != '\\'
  {
    DigitTables(d);
  }

  lemma StringEndStep(s: string, p: nat)
    requires p < |s| && s[p] != '"'
    ensures s[p] != '\\' ==> StringEnd(s, p) == StringEnd(s, p + 1)
    ensures s[p] == '\\' && p + 1 < |s| ==> StringEnd(s, p) == StringEnd(s, p + 2)
  {
  }

  lemma {:induction false} StringEndOver(s: string, p: nat, h: string)
    requires Lies(s, p, h) && forall i :: 0 <= i < |h| ==> h[i] != '"' && h[i] != '\\'
    ensures StringEnd(s, p) == StringEnd(s, p + |h|)
    decreases |h|
  {
    if h != [] {
      LiesPart(s, p, h, 0, |h|);
      LiesPart(s, p, h, 1, |h|);
      StringEndStep(s, p);
      StringEndOver(s, p + 1, h[1..]);
    }
  }

  lemma LiesHalves(s: string, p: nat, a: string, b: string)
    requires Lies(s, p, a + b)
    ensures Lies(s, p, a) && Lies(s, p + |a|, b)
  {
    LiesPart(s, p, a + b, 0, |a|);
    LiesPart(s, p, a + b, |a|, |a + b|);
    assert (a + b)[..|a|] == a && (a + b)[|a|..] == b;
  }

  /** The search for the closing quote passes over a piece. */
  lemma StringEndPiece(s: string, p: nat, x: Piece)
    requires Lies(s, p, PieceText(x)) && Proper(x)
    ensures StringEnd(s, p) == StringEnd(s, p + |PieceText(x)|)
  {
    hide StringEnd, HexIs, Lies;
    match x
    case Plain(c) =>
      LiesPart(s, p, [c], 0, 1);
      StringEndStep(s, p);
    case Letter(l) =>
      LiesPart(s, p, ['\\', l], 0, 2);
      StringEndStep(s, p);
    case Unit(h) => StringEndUnit(s, p, h);
    case Pair(hi, lo) =>
      assert PieceText(x) == ("\\u" + hi) + ("\\u" + lo);
      LiesHalves(s, p, "\\u" + hi, "\\u" + lo);
      HexPlain(hi);
      StringEndUnit(s, p, hi);
      StringEndUnit(s, p + 6, lo);
  }

  lemma StringEndUnit(s: string, p: nat, h: string)
    requires Lies(s, p, "\\u" + h) && exists n: nat :: HexIs(h, n)
    ensures |h| == 4 && StringEnd(s, p) == StringEnd(s, p + 6)
  {
    hide StringEnd, HexIs;
    HexPlain(h);
    LiesPart(s, p, "\\u" + h, 0, 6);
    LiesHalves(s, p, "\\u", h);
    StringEndStep(s, p);
    StringEndOver(s, p + 2, h);
  }

  lemma EndHere(s: string, q: nat)
    requires q < |s| && s[q] == '"'
    ensures StringEnd(s, q) == Some(q)
  {
  }

  lemma ReadsFirst(s: string, p: nat, q: nat, xs: seq<Piece>, outs: seq<string>)
    requires Reads(s, p, q, xs, outs) && xs != []
    ensures |outs| == |xs| && Lies(s, p, PieceText(xs[0])) && Reads(s, p + |PieceText(xs[0])|, q, xs[1..], outs[1..])
    ensures Texts(xs) == PieceText(xs[0]) + Texts(xs[1..])
  {
    hide Lies, Denotes;
  }

  lemma {:induction false} StringEndFound(s: string, p: nat, q: nat, xs: seq<Piece>, outs: seq<string>)
    requires q < |s| && s[q] == '"' && Reads(s, p, q, xs, outs) && p + |Texts(xs)| == q
    requires forall i :: 0 <= i < |xs| ==> Proper(xs[i])
    ensures StringEnd(s, p) == Some(q)
    decreases |xs|
  {
    hide StringEnd, Proper, Lies, PieceText, Reads;
    if xs == [] {
      EndHere(s, q);
    } else {
      ReadsFirst(s, p, q, xs, outs);
      StringEndPiece(s, p, xs[0]);
      StringEndFound(s, p + |PieceText(xs[0])|, q, xs[1..], outs[1..]);
    }
  }

  /** A string in a text is read as what it stands for. */
  lemma StringIsRead(s: string, p: nat, q: nat, x: string)
    requires StringAt(s, p, q, x)
    ensures ParseString(s, p) == Some((x, q))
  {
    hide StringEnd, Unescape, Reads, Proper, Texts, CStringIs, CString;
    var xs: seq<Piece>, outs: seq<string> :|
      && Reads(s, p + 1, q - 1, xs, outs) && |Texts(xs)| == q - p - 2
      && (forall i :: 0 <= i < |xs| ==> Proper(xs[i])) && CStringIs(Join(outs), x);
    StringEndFound(s, p + 1, q - 1, xs, outs);
    PiecesRead(s, p + 1, q - 1, xs, outs);
    CStringMeans(Join(outs), x);
  }

  // ---- sections 3 to 5: values

  /** The text from p to q is this value. */
  ghost predicate ValueAt(s: string, p: nat, q: nat, v: Value)
    decreases v, Length(v) + 1
  {
    match v
    case Null => Lies(s, p, "null") && q == p + 4
    case Bool(b) => Lies(s, p, if b then "true" else "false") && q == if b then p + 4 else p + 5
    case Num(n) => NumberAt(s, p, q, n)
    case Str(x) => StringAt(s, p, q, x)
    case Arr(items) =>
      && p + 2 <= q <= |s| && s[p] == '[' && s[q - 1] == ']'
      && if items == [] then Space(s, p + 1, q - 1) else ElementsAt(s, p + 1, q - 1, v, 0)
    case Obj(members) =>
      && p + 2 <= q <= |s| && s[p] == '{' && s[q - 1] == '}'
      && if members == [] then Space(s, p + 1, q - 1) else MembersAt(s, p + 1, q - 1, v, 0)
  }

  /** The elements from place i on, with commas between them and spaces around them. */
  ghost predicate ElementsAt(s: string, p: nat, q: nat, v: Value, i: nat)
    requires v.Arr? && i < |v.items|
    decreases v, |v.items| - i
  {
    exists a: nat, b: nat, c: nat ::
      && Space(s, p, a) && ValueAt(s, a, b, v.items[i]) && Space(s, b, c)
      && if i + 1 == |v.items| then c == q else c < |s| && s[c] == ',' && ElementsAt(s, c + 1, q, v, i + 1)
  }

  /** A name, a colon and a value, with spaces around the colon and behind the value. */
  ghost predicate MemberAt(s: string, a: nat, c: nat, v: Value, i: nat)
    requires v.Obj? && i < |v.members|
    decreases v, |v.members| - i, 0
  {
    exists b: nat, e: nat, f: nat, g: nat ::
      && StringAt(s, a, b, v.members[i].key) && Space(s, b, e) && e < |s| && s[e] == ':'
      && Space(s, e + 1, f) && ValueAt(s, f, g, v.members[i].value) && Space(s, g, c)
  }

  ghost predicate MembersAt(s: string, p: nat, q: nat, v: Value, i: nat)
    requires v.Obj? && i < |v.members|
    decreases v, |v.members| - i, 1
  {
    exists a: nat, c: nat ::
      && Space(s, p, a) && MemberAt(s, a, c, v, i)
      && if i + 1 == |v.members| then c == q else c < |s| && s[c] == ',' && MembersAt(s, c + 1, q, v, i + 1)
  }

  // ---- reading values

  lemma {:induction false} SpaceSkipped(s: string, p: nat, q: nat)
    requires Space(s, p, q) && q < |s| && s[q] as int > 32
    ensures SkipSpace(s, p) == q
  {
    PastIs(s, p, q);
  }

  lemma {:induction false} PastIs(s: string, p: nat, q: nat)
    requires Space(s, p, q) && q < |s| && s[q] as int > 32
    ensures PastSpace(s, p) == q
    decreases q - p
  {
    if p < q { PastIs(s, p + 1, q); }
  }

  /** No value begins with a space or with a bracket that closes. */
  lemma ValueStart(s: string, p: nat, q: nat, v: Value)
    requires ValueAt(s, p, q, v)
    ensures p < q <= |s| && 32 < s[p] as int < 0x80 && s[p] != ']' && s[p] != '}'
  {
    hide ElementsAt, MembersAt, Reads, NumeralText;
    match v
    case Num(n) => NumberStart(s, p, q, n);
    case Null => LiesPart(s, p, "null", 0, 4);
    case Bool(b) => LiesPart(s, p, if b then "true" else "false", 0, if b then 4 else 5);
    case _ =>
  }

  lemma NumberStart(s: string, p: nat, q: nat, n: int)
    requires NumberAt(s, p, q, n)
    ensures p < q <= |s| && (s[p] == '-' || IsDigit(s[p]))
  {
    hide NumeralText, NumeralValue, IntIs;
    var x: Numeral :| NumeralOk(x) && NumeralText(x) == s[p..q] && IntIs(NumeralValue(x), n);
    NumeralParts(x);
    var t := NumeralText(x);
    assert s[p] == t[0];
    if !x.minus { assert t[0] == t[0..|x.whole|][0] == x.whole[0]; }
  }

  lemma Delimits(s: string, q: nat)
    requires q < |s| && (s[q] == ',' || s[q] == ']' || s[q] == '}' || IsSpace(s[q]))
    ensures R.Delimited(s, q)
  {
  }

  /** What follows a value inside brackets delimits it. */
  lemma SpaceDelimits(s: string, b: nat, c: nat)
    requires Space(s, b, c) && c < |s| && (s[c] == ',' || s[c] == ']' || s[c] == '}')
    ensures R.Delimited(s, b) && SkipSpace(s, b) == c
  {
    Delimits(s, b);
    SpaceSkipped(s, b, c);
  }

  lemma {:induction false} ValueIsRead(s: string, p: nat, q: nat, v: Value, d: nat)
    requires ValueAt(s, p, q, v) && R.Delimited(s, q) && d <= NESTING && R.Within(v, NESTING - d)
    ensures ParseValue(s, p, d) == Some((v, q))
    decreases v, Length(v) + 1
  {
    hide ElementsAt, MembersAt, NumberAt, StringAt, ParseItems, ParseMembers, ParseString, ParseNumber, SkipSpace,
         Lies, R.Within;
    ValueStart(s, p, q, v);
    match v
    case Null =>
    case Bool(b) => R.OtherWord(s, p, if b then "true" else "false");
    case Num(n) =>
      NumberStart(s, p, q, n);
      R.OtherWord(s, p, [s[p]]) by { One(s, p); }
      NumberIsRead(s, p, q, n);
    case Str(x) =>
      StringFirst(s, p, q, x);
      R.OtherWord(s, p, [s[p]]) by { One(s, p); }
      StringIsRead(s, p, q, x);
    case Arr(items) => ArrayIsRead(s, p, q, v, d);
    case Obj(members) => ObjectIsRead(s, p, q, v, d);
  }

  lemma One(s: string, p: nat)
    requires p < |s|
    ensures Lies(s, p, [s[p]])
  {
  }

  lemma StringFirst(s: string, p: nat, q: nat, x: string)
    requires StringAt(s, p, q, x)
    ensures p < |s| && s[p] == '"'
  {
    hide Reads;
  }

  lemma {:induction false} ArrayIsRead(s: string, p: nat, q: nat, v: Value, d: nat)
    requires v.Arr? && ValueAt(s, p, q, v) && d <= NESTING && R.Within(v, NESTING - d)
    ensures ParseValue(s, p, d) == Some((v, q))
    decreases v, Length(v), 1
  {
    hide ElementsAt, ParseItems, SkipSpace, Lies, ParseValue;
    R.ParsesArray(s, p, d);
    if v.items == [] {
      SpaceSkipped(s, p + 1, q - 1);
    } else {
      var a := ElementsStart(s, p + 1, q - 1, v, 0);
      ElementsRead(s, p + 1, q - 1, v, 0, d);
      SameItems(s, p + 1, a, d + 1);
      assert v.items[0..] == v.items;
    }
  }

  lemma SameItems(s: string, p: nat, a: nat, d: nat)
    requires p <= |s| && a <= |s| && SkipSpace(s, p) == a == SkipSpace(s, a)
    ensures ParseItems(s, p, d) == ParseItems(s, a, d)
  {
    hide SkipSpace, ParseValue;
  }

  /** Elements begin with a value, behind spaces. */
  lemma ElementsStart(s: string, p: nat, q: nat, v: Value, i: nat) returns (a: nat)
    requires v.Arr? && i < |v.items| && ElementsAt(s, p, q, v, i)
    ensures p <= a < |s| && SkipSpace(s, p) == a == SkipSpace(s, a) && s[a] != ']'
  {
    hide ValueAt, SkipSpace;
    var a': nat, b: nat, c: nat :|
      && Space(s, p, a') && ValueAt(s, a', b, v.items[i]) && Space(s, b, c)
      && if i + 1 == |v.items| then c == q else c < |s| && s[c] == ',' && ElementsAt(s, c + 1, q, v, i + 1);
    a := a';
    ValueStart(s, a, b, v.items[i]);
    SpaceSkipped(s, p, a);
    SpaceSkipped(s, a, a);
  }

  lemma {:induction false} ElementsRead(s: string, p: nat, q: nat, v: Value, i: nat, d: nat)
    requires v.Arr? && i < |v.items| && ElementsAt(s, p, q, v, i) && q < |s| && s[q] == ']'
    requires d < NESTING && R.Within(v, NESTING - d)
    ensures p <= |s| && ParseItems(s, p, d + 1) == Some((v.items[i..], q + 1))
    decreases v, |v.items| - i, 0
  {
    hide ValueAt, SkipSpace, ParseValue, Space;
    var a: nat, b: nat, c: nat :|
      && Space(s, p, a) && ValueAt(s, a, b, v.items[i]) && Space(s, b, c)
      && if i + 1 == |v.items| then c == q else c < |s| && s[c] == ',' && ElementsAt(s, c + 1, q, v, i + 1);
    hide ElementsAt;
    ValueStart(s, a, b, v.items[i]);
    SpaceSkipped(s, p, a);
    SpaceDelimits(s, b, c);
    Ordered(s, p, a);
    ValueIsRead(s, a, b, v.items[i], d + 1);
    if i + 1 < |v.items| {
      ElementsRead(s, c + 1, q, v, i + 1, d);
      assert [v.items[i]] + v.items[i + 1..] == v.items[i..];
    } else {
      assert [v.items[i]] == v.items[i..];
    }
  }

  lemma Ordered(s: string, p: nat, a: nat)
    requires Space(s, p, a)
    ensures p <= a <= |s|
  {
  }

  lemma ParsesObject(s: string, p: nat, d: nat)
    requires p < |s| && s[p] == '{' && d < NESTING
    ensures var q := SkipSpace(s, p + 1);
            ParseValue(s, p, d) ==
              if q < |s| && s[q] == '}' then Some((Obj([]), q + 1))
              else match ParseMembers(s, q, d + 1) case None => None case Some(x) => Some((Obj(x.0), x.1))
  {
    hide ParseMembers, SkipSpace;
    R.OtherWord(s, p, [s[p]]);
  }

  lemma {:induction false} ObjectIsRead(s: string, p: nat, q: nat, v: Value, d: nat)
    requires v.Obj? && ValueAt(s, p, q, v) && d <= NESTING && R.Within(v, NESTING - d)
    ensures ParseValue(s, p, d) == Some((v, q))
    decreases v, Length(v), 2
  {
    hide MembersAt, ParseMembers, SkipSpace, Lies, ParseValue;
    ParsesObject(s, p, d);
    if v.members == [] {
      SpaceSkipped(s, p + 1, q - 1);
    } else {
      var a := MembersStart(s, p + 1, q - 1, v, 0);
      MembersRead(s, p + 1, q - 1, v, 0, d);
      SameMembers(s, p + 1, a, d + 1);
      assert v.members[0..] == v.members;
    }
  }

  lemma SameMembers(s: string, p: nat, a: nat, d: nat)
    requires p <= |s| && a <= |s| && SkipSpace(s, p) == a == SkipSpace(s, a)
    ensures ParseMembers(s, p, d) == ParseMembers(s, a, d)
  {
    hide SkipSpace, ParseValue, ParseString;
  }

  lemma MembersStart(s: string, p: nat, q: nat, v: Value, i: nat) returns (a: nat)
    requires v.Obj? && i < |v.members| && MembersAt(s, p, q, v, i)
    ensures p <= a < |s| && SkipSpace(s, p) == a == SkipSpace(s, a) && s[a] != '}'
  {
    hide ValueAt, SkipSpace, StringAt;
    var a': nat, c: nat :|
      && Space(s, p, a') && MemberAt(s, a', c, v, i)
      && if i + 1 == |v.members| then c == q else c < |s| && s[c] == ',' && MembersAt(s, c + 1, q, v, i + 1);
    a := a';
    MemberFirst(s, p, a, c, v, i);
  }

  /** Where the parts of a member lie, and what the parser makes of what is around them. */
  lemma MemberParts(s: string, a: nat, c: nat, v: Value, i: nat) returns (b: nat, e: nat, f: nat, g: nat)
    requires v.Obj? && i < |v.members| && MemberAt(s, a, c, v, i) && c < |s| && (s[c] == ',' || s[c] == '}')
    ensures a <= |s| && b <= |s| && ParseString(s, a) == Some((v.members[i].key, b))
    ensures SkipSpace(s, b) == e < |s| && s[e] == ':' && SkipSpace(s, e + 1) == f
    ensures ValueAt(s, f, g, v.members[i].value) && R.Delimited(s, g) && g <= |s| && SkipSpace(s, g) == c
  {
    hide ValueAt, SkipSpace, StringAt, ParseString, Space;
    b, e, f, g :|
      && StringAt(s, a, b, v.members[i].key) && Space(s, b, e) && e < |s| && s[e] == ':'
      && Space(s, e + 1, f) && ValueAt(s, f, g, v.members[i].value) && Space(s, g, c);
    hide MemberAt;
    StringFirst(s, a, b, v.members[i].key);
    StringIsRead(s, a, b, v.members[i].key);
    SpaceSkipped(s, b, e);
    ValueStart(s, f, g, v.members[i].value);
    SpaceSkipped(s, e + 1, f);
    SpaceDelimits(s, g, c);
  }

  lemma {:induction false} MemberRead(s: string, a: nat, c: nat, v: Value, i: nat, d: nat) returns (g: nat)
    requires v.Obj? && i < |v.members| && MemberAt(s, a, c, v, i) && a <= |s| && SkipSpace(s, a) == a
    requires c < |s| && (s[c] == ',' || s[c] == '}') && d < NESTING && R.Within(v.members[i].value, NESTING - d - 1)
    ensures ParseMember(s, a, d + 1) == Some((v.members[i], g)) && g <= |s| && SkipSpace(s, g) == c
    decreases v, |v.members| - i, 0
  {
    hide ValueAt, SkipSpace, ParseString, ParseValue, ParseMember, MemberAt, R.Within;
    var b, e, f, g' := MemberParts(s, a, c, v, i);
    g := g';
    ValueIsRead(s, f, g, v.members[i].value, d + 1);
    ParsesMember(s, a, b, e, f, g, v.members[i].key, v.members[i].value, d + 1);
  }

  lemma ParsesMember(s: string, a: nat, b: nat, e: nat, f: nat, g: nat, key: string, x: Value, d: nat)
    requires a <= |s| && SkipSpace(s, a) == a && ParseString(s, a) == Some((key, b)) && b <= |s|
    requires SkipSpace(s, b) == e < |s| && s[e] == ':' && SkipSpace(s, e + 1) == f
             && ParseValue(s, f, d) == Some((x, g))
    ensures ParseMember(s, a, d) == Some((Member(key, x), g))
  {
    hide SkipSpace, ParseString, ParseValue;
  }

  lemma {:induction false} MembersRead(s: string, p: nat, q: nat, v: Value, i: nat, d: nat)
    requires v.Obj? && i < |v.members| && MembersAt(s, p, q, v, i) && q < |s| && s[q] == '}'
    requires d < NESTING && R.Within(v, NESTING - d)
    ensures p <= |s| && ParseMembers(s, p, d + 1) == Some((v.members[i..], q + 1))
    decreases v, |v.members| - i, 1
  {
    hide MemberAt, SkipSpace, ParseMember, Space;
    var a: nat, c: nat :|
      && Space(s, p, a) && MemberAt(s, a, c, v, i)
      && if i + 1 == |v.members| then c == q else c < |s| && s[c] == ',' && MembersAt(s, c + 1, q, v, i + 1);
    Ordered(s, p, a);
    MemberFirst(s, p, a, c, v, i);
    hide MembersAt;
    var g := MemberRead(s, a, c, v, i, d);
    SameMember(s, p, a, d + 1);
    if i + 1 < |v.members| {
      MembersRead(s, c + 1, q, v, i + 1, d);
      assert [v.members[i]] + v.members[i + 1..] == v.members[i..];
    } else {
      assert [v.members[i]] == v.members[i..];
    }
  }

  lemma MemberFirst(s: string, p: nat, a: nat, c: nat, v: Value, i: nat)
    requires v.Obj? && i < |v.members| && Space(s, p, a) && MemberAt(s, a, c, v, i)
    ensures p <= a < |s| && SkipSpace(s, p) == a == SkipSpace(s, a) && s[a] != '}'
  {
    hide ValueAt, SkipSpace, StringAt;
    var b: nat, e: nat, f: nat, g: nat :|
      && StringAt(s, a, b, v.members[i].key) && Space(s, b, e) && e < |s| && s[e] == ':'
      && Space(s, e + 1, f) && ValueAt(s, f, g, v.members[i].value) && Space(s, g, c);
    StringFirst(s, a, b, v.members[i].key);
    SpaceSkipped(s, p, a);
    SpaceSkipped(s, a, a);
  }

  lemma SameMember(s: string, p: nat, a: nat, d: nat)
    requires p <= |s| && a <= |s| && SkipSpace(s, p) == a == SkipSpace(s, a)
    ensures ParseMember(s, p, d) == ParseMember(s, a, d)
  {
    hide SkipSpace, ParseValue, ParseString;
  }

  // ---- nesting

  /** A value that is nested too deep is rejected. */
  lemma {:induction false} ValueTooDeep(s: string, p: nat, q: nat, v: Value, d: nat)
    requires ValueAt(s, p, q, v) && d <= NESTING && !R.Within(v, NESTING - d)
    ensures ParseValue(s, p, d) == None
    decreases v, Length(v) + 1
  {
    hide ElementsAt, MembersAt, NumberAt, StringAt, ParseItems, ParseMembers, ParseString, ParseNumber, SkipSpace, Lies;
    match v
    case Arr(items) =>
      R.OtherWord(s, p, [s[p]]) by { One(s, p); }
      if d < NESTING && items != [] {
        var a := ElementsStart(s, p + 1, q - 1, v, 0);
        ElementsTooDeep(s, p + 1, q - 1, v, 0, d);
        SameItems(s, p + 1, a, d + 1);
        R.ParsesArray(s, p, d);
      }
    case Obj(members) =>
      R.OtherWord(s, p, [s[p]]) by { One(s, p); }
      if d < NESTING && members != [] {
        var a := MembersStart(s, p + 1, q - 1, v, 0);
        MembersTooDeep(s, p + 1, q - 1, v, 0, d);
        SameMembers(s, p + 1, a, d + 1);
        ParsesObject(s, p, d);
      }
    case _ =>
  }

  lemma {:induction false} ElementsTooDeep(s: string, p: nat, q: nat, v: Value, i: nat, d: nat)
    requires v.Arr? && i < |v.items| && ElementsAt(s, p, q, v, i) && q < |s| && s[q] == ']'
    requires d < NESTING && exists k :: i <= k < |v.items| && !R.Within(v.items[k], NESTING - d - 1)
    ensures p <= |s| && ParseItems(s, p, d + 1) == None
    decreases v, |v.items| - i, 0
  {
    hide ValueAt, SkipSpace, ParseValue, Space, R.Within;
    var a: nat, b: nat, c: nat :|
      && Space(s, p, a) && ValueAt(s, a, b, v.items[i]) && Space(s, b, c)
      && if i + 1 == |v.items| then c == q else c < |s| && s[c] == ',' && ElementsAt(s, c + 1, q, v, i + 1);
    hide ElementsAt;
    ValueStart(s, a, b, v.items[i]);
    SpaceSkipped(s, p, a);
    SpaceDelimits(s, b, c);
    Ordered(s, p, a);
    if R.Within(v.items[i], NESTING - d - 1) {
      ValueIsRead(s, a, b, v.items[i], d + 1);
      ElementsTooDeep(s, c + 1, q, v, i + 1, d);
    } else {
      ValueTooDeep(s, a, b, v.items[i], d + 1);
    }
  }

  lemma {:induction false} MemberTooDeep(s: string, a: nat, c: nat, v: Value, i: nat, d: nat)
    requires v.Obj? && i < |v.members| && MemberAt(s, a, c, v, i) && a <= |s| && SkipSpace(s, a) == a
    requires c < |s| && (s[c] == ',' || s[c] == '}') && d < NESTING && !R.Within(v.members[i].value, NESTING - d - 1)
    ensures ParseMember(s, a, d + 1) == None
    decreases v, |v.members| - i, 0
  {
    hide ValueAt, SkipSpace, ParseString, ParseValue, MemberAt, R.Within;
    var b, e, f, g := MemberParts(s, a, c, v, i);
    ValueTooDeep(s, f, g, v.members[i].value, d + 1);
  }

  lemma {:induction false} MembersTooDeep(s: string, p: nat, q: nat, v: Value, i: nat, d: nat)
    requires v.Obj? && i < |v.members| && MembersAt(s, p, q, v, i) && q < |s| && s[q] == '}'
    requires d < NESTING && exists k :: i <= k < |v.members| && !R.Within(v.members[k].value, NESTING - d - 1)
    ensures p <= |s| && ParseMembers(s, p, d + 1) == None
    decreases v, |v.members| - i, 1
  {
    hide MemberAt, SkipSpace, ParseMember, Space, R.Within;
    var a: nat, c: nat :|
      && Space(s, p, a) && MemberAt(s, a, c, v, i)
      && if i + 1 == |v.members| then c == q else c < |s| && s[c] == ',' && MembersAt(s, c + 1, q, v, i + 1);
    Ordered(s, p, a);
    MemberFirst(s, p, a, c, v, i);
    hide MembersAt;
    SameMember(s, p, a, d + 1);
    if R.Within(v.members[i].value, NESTING - d - 1) {
      var g := MemberRead(s, a, c, v, i, d);
      MembersTooDeep(s, c + 1, q, v, i + 1, d);
    } else {
      MemberTooDeep(s, a, c, v, i, d);
    }
  }

  // ---- whole texts

  /** The first n characters are a JSON text: a value with spaces around it. */
  ghost predicate TextOf(s: string, n: nat, v: Value) {
    exists a: nat, b: nat :: Space(s, 0, a) && ValueAt(s, a, b, v) && Space(s, b, n)
  }

  lemma {:induction false} PastBlank(s: string, p: nat, q: nat)
    requires p <= q <= |s| && (forall i :: p <= i < q ==> s[i] as int <= 32) && (q < |s| ==> s[q] as int > 32)
    ensures PastSpace(s, p) == q
    decreases q - p
  {
    if p < q { PastBlank(s, p + 1, q); }
  }

  lemma NoBom(s: string, a: nat)
    requires Space(s, 0, a) && a < |s| && s[a] as int < 0x80
    ensures Bom(s) == 0
  {
  }

  lemma EndDelimits(s: string, b: nat, n: nat)
    requires Space(s, b, n) && n <= |s| && (n < |s| ==> s[n] == NUL)
    ensures R.Delimited(s, b)
  {
  }

  /** Every text of the grammar, with its terminator or without, is read as its value, exactly if the nesting
      limit is kept. */
  lemma TextIsRead(s: string, n: nat, v: Value)
    requires TextOf(s, n, v) && n <= |s| && (n < |s| ==> s[n] == NUL)
    ensures if R.Within(v, NESTING) then ParseText(s, false).Some? && ParseText(s, false).value.0 == v
            else ParseText(s, false) == None
  {
    hide ValueAt, ParseValue, R.Within, SkipSpace;
    var a: nat, b: nat :| Space(s, 0, a) && ValueAt(s, a, b, v) && Space(s, b, n);
    ValueStart(s, a, b, v);
    NoBom(s, a);
    SpaceSkipped(s, 0, a);
    EndDelimits(s, b, n);
    if R.Within(v, NESTING) {
      ValueIsRead(s, a, b, v, 0);
    } else {
      ValueTooDeep(s, a, b, v, 0);
    }
  }

  /** The same where the terminator must follow at once. */
  lemma StrictTextIsRead(s: string, n: nat, v: Value)
    requires TextOf(s, n, v) && n + 1 == |s| && s[n] == NUL
    ensures ParseText(s, true) == if R.Within(v, NESTING) then Some((v, n)) else None
  {
    hide ValueAt, ParseValue, R.Within, PastSpace;
    var a: nat, b: nat :| Space(s, 0, a) && ValueAt(s, a, b, v) && Space(s, b, n);
    ValueStart(s, a, b, v);
    NoBom(s, a);
    SpaceSkipped(s, 0, a);
    EndDelimits(s, b, n);
    PastBlank(s, b, |s|);
    if R.Within(v, NESTING) {
      ValueIsRead(s, a, b, v, 0);
    } else {
      ValueTooDeep(s, a, b, v, 0);
    }
  }

  // ---- what the printer writes is a text of the grammar

  lemma SpaceText(s: string, p: nat, w: string)
    requires Lies(s, p, w) && forall i :: 0 <= i < |w| ==> IsSpace(w[i])
    ensures Space(s, p, p + |w|)
  {
    forall i | p <= i < p + |w|
      ensures IsSpace(s[i])
    {
      LiesPart(s, p, w, i - p, |w|);
    }
  }

  lemma SpaceJoin(s: string, a: nat, b: nat, c: nat)
    requires Space(s, a, b) && Space(s, b, c)
    ensures Space(s, a, c)
  {
  }

  lemma LayoutSpace(format: bool, depth: nat)
    ensures forall i :: 0 <= i < |LineEnd(format)| ==> IsSpace(LineEnd(format)[i])
    ensures forall i :: 0 <= i < |Indent(format, depth)| ==> IsSpace(Indent(format, depth)[i])
  {
  }

  lemma NumberPrinted(s: string, p: nat, n: int)
    requires Lies(s, p, IntText(n)) && INT_MIN <= n <= INT_MAX
    ensures NumberAt(s, p, p + |IntText(n)|, n)
  {
    hide Digits, Decimal, NatOf;
    var m: nat := if n < 0 then -n else n;
    DigitsAre(m);
    assert R.Power(10) == 10000000000 by { assert R.Power(5) == 100000; }
    R.DigitsShort(m, 10);
    var x := Numeral(n < 0, Digits(m), "", NoExponent);
    var d := Digits(m);
    forall i | 0 <= i < |d|
      ensures '0' <= d[i] <= '9'
    {
      assert d[i] in d;
    }
    NoLeadingZero(m);
    assert NumeralText(x) == IntText(n);
    assert ExponentOk(x.exp) && AllDigits(x.frac) && NumeralOk(x);
    R.NatOfDigits(m);
    DecimalIs(d);
    assert d + "" == d && TenTo(0) == 1.0;
    assert NumeralValue(x) == n as real;
  }

  lemma NoLeadingZero(m: nat)
    ensures Digits(m) != "" && (Digits(m)[0] == '0' ==> |Digits(m)| == 1)
  {
    DigitsAre(m);
  }

  lemma ShownDenotes(x: Piece, c: char)
    requires Shows(x, c)
    ensures Denotes(x, [c]) && Proper(x)
  {
    match x
    case Unit(h) =>
      HexShown(c as nat);
      assert HexIs(h, c as nat) && DecodeUtf8([c]) == Some(c as nat);
      assert UnitIs(h, c as nat);
    case _ =>
  }

  lemma HexShown(n: nat)
    requires n < 0x20
    ensures n / 4096 == 0 && n / 256 % 16 == 0 && n / 16 % 16 == n / 16
  {
  }

  function Singles(x: string): (outs: seq<string>)
    ensures |outs| == |x| && forall i :: 0 <= i < |x| ==> outs[i] == [x[i]]
  {
    seq(|x|, i requires 0 <= i < |x| => [x[i]])
  }

  lemma {:induction false} JoinSingles(x: string)
    ensures Join(Singles(x)) == x
  {
    if x != [] {
      assert Singles(x)[1..] == Singles(x[1..]);
      JoinSingles(x[1..]);
    }
  }

  lemma {:induction false} PiecesStand(s: string, p: nat, x: string, xs: seq<Piece>)
    requires |xs| == |x| && (forall i :: 0 <= i < |x| ==> Shows(xs[i], x[i])) && Lies(s, p, Texts(xs))
    ensures Reads(s, p, p + |Texts(xs)|, xs, Singles(x)) && forall i :: 0 <= i < |xs| ==> Proper(xs[i])
    decreases |x|
  {
    hide Shows, Lies, Denotes, Proper, PieceText;
    if x != [] {
      ShownDenotes(xs[0], x[0]);
      PieceSize(xs[0]);
      LiesHalves(s, p, PieceText(xs[0]), Texts(xs[1..]));
      PiecesStand(s, p + |PieceText(xs[0])|, x[1..], xs[1..]);
      assert Singles(x)[1..] == Singles(x[1..]);
      forall i | 0 <= i < |xs|
        ensures Proper(xs[i])
      {
        if i > 0 { assert xs[i] == xs[1..][i - 1]; }
      }
    }
  }

  lemma PieceSize(x: Piece)
    ensures |PieceText(x)| > 0
  {
  }

  lemma StringPrinted(s: string, p: nat, x: string)
    requires Lies(s, p, Quote(x)) && NUL !in x
    ensures StringAt(s, p, p + |Quote(x)|, x)
  {
    hide Escape, Lies, Reads, Proper, Shows, Texts;
    var xs := StringShown(x);
    var t := Texts(xs);
    assert Quote(x) == "\"" + (t + "\"");
    LiesHalves(s, p, "\"", t + "\"");
    LiesHalves(s, p + 1, t, "\"");
    LiesPart(s, p, "\"", 0, 1);
    LiesPart(s, p + 1 + |t|, "\"", 0, 1);
    PiecesStand(s, p + 1, x, xs);
    JoinSingles(x);
    assert CStringIs(Join(Singles(x)), x);
  }

  /** A printed value is a text of the grammar for it. */
  lemma {:induction false} ValuePrinted(s: string, p: nat, v: Value, format: bool, depth: nat)
    requires Lies(s, p, Print(v, format, depth)) && R.Plain(v)
    ensures ValueAt(s, p, p + |Print(v, format, depth)|, v)
    decreases v, Length(v) + 2
  {
    hide ElementsAt, MembersAt, NumberAt, StringAt, Items, Members, Escape, Lies, Digits;
    match v
    case Num(n) => NumberPrinted(s, p, n);
    case Str(x) => StringPrinted(s, p, x);
    case Arr(items) => ArrayPrinted(s, p, v, format, depth);
    case Obj(members) => ObjectPrinted(s, p, v, format, depth);
    case _ =>
  }

  lemma {:induction false} ArrayPrinted(s: string, p: nat, v: Value, format: bool, depth: nat)
    requires v.Arr? && Lies(s, p, Print(v, format, depth)) && R.Plain(v)
    ensures ValueAt(s, p, p + |Print(v, format, depth)|, v)
    decreases v, Length(v) + 1
  {
    hide ElementsAt, Items, Lies, R.Plain;
    var t := Items(v, 0, format, depth + 1);
    assert Print(v, format, depth) == "[" + (t + "]");
    LiesHalves(s, p, "[", t + "]");
    LiesHalves(s, p + 1, t, "]");
    LiesPart(s, p, "[", 0, 1);
    LiesPart(s, p + 1 + |t|, "]", 0, 1);
    if v.items != [] {
      NoSpace(s, p + 1);
      ElementsPrinted(s, p + 1, p + 1, v, 0, format, depth + 1);
    } else {
      R.NoItems(v, format, depth + 1);
    }
  }

  lemma NoSpace(s: string, p: nat)
    requires p <= |s|
    ensures Space(s, p, p)
  {
  }

  /** Where the parts of printed elements lie. */
  lemma ElementLies(s: string, a: nat, v: Value, i: nat, format: bool, depth: nat) returns (b: nat)
    requires v.Arr? && i < |v.items| && R.Plain(v) && Lies(s, a, Items(v, i, format, depth))
    ensures R.Plain(v.items[i])
    ensures Lies(s, a, Print(v.items[i], format, depth)) && b == a + |Print(v.items[i], format, depth)| <= |s|
    ensures var sep := if i + 1 < |v.items| then Comma(format) else "";
            && Lies(s, b, sep) && Lies(s, b + |sep|, Items(v, i + 1, format, depth))
            && a + |Items(v, i, format, depth)| == b + |sep| + |Items(v, i + 1, format, depth)|
  {
    hide Items, Print, Lies, Comma;
    R.ItemsStart(v, i, format, depth);
    var x := Print(v.items[i], format, depth);
    var sep := if i + 1 < |v.items| then Comma(format) else "";
    var rest := Items(v, i + 1, format, depth);
    b := a + |x|;
    assert Items(v, i, format, depth) == x + (sep + rest);
    LiesHalves(s, a, x, sep + rest);
    LiesHalves(s, b, sep, rest);
    LiesPart(s, a, x, 0, |x|);
  }

  lemma {:induction false} ElementsPrinted(s: string, p: nat, a: nat, v: Value, i: nat, format: bool, depth: nat)
    requires v.Arr? && i < |v.items| && R.Plain(v) && Space(s, p, a) && Lies(s, a, Items(v, i, format, depth))
    ensures ElementsAt(s, p, a + |Items(v, i, format, depth)|, v, i)
    decreases v, |v.items| - i, 0
  {
    hide ValueAt, Items, Print, Lies, Comma, Space, R.Plain;
    var b := ElementLies(s, a, v, i, format, depth);
    ValuePrinted(s, a, v.items[i], format, depth);
    NoSpace(s, b);
    if i + 1 < |v.items| {
      CommaSpace(s, b, format);
      ElementsPrinted(s, b + 1, b + |Comma(format)|, v, i + 1, format, depth);
    } else {
      R.NoItems(v, format, depth);
    }
    assert Space(s, p, a) && ValueAt(s, a, b, v.items[i]) && Space(s, b, b);
  }

  lemma CommaSpace(s: string, b: nat, format: bool)
    requires Lies(s, b, Comma(format))
    ensures b < |s| && s[b] == ',' && Space(s, b + 1, b + |Comma(format)|)
  {
    hide Lies;
    var w := if format then " " else "";
    assert Comma(format) == "," + w;
    LiesHalves(s, b, ",", w);
    LiesPart(s, b, ",", 0, 1);
    SpaceText(s, b + 1, w);
  }

  /** Where the parts of a printed object lie. */
  lemma ObjectLies(s: string, p: nat, v: Value, format: bool, depth: nat) returns (m: nat, e: nat, end: nat)
    requires v.Obj? && Lies(s, p, Print(v, format, depth))
    ensures p < |s| && s[p] == '{' && m == p + 1 + |LineEnd(format)| && Lies(s, p + 1, LineEnd(format))
    ensures Lies(s, m, Members(v, 0, format, depth + 1)) && e == m + |Members(v, 0, format, depth + 1)|
    ensures Lies(s, e, Indent(format, depth)) && end == e + |Indent(format, depth)|
    ensures end < |s| && s[end] == '}' && p + |Print(v, format, depth)| == end + 1
  {
    hide Members, Lies, Print, LineEnd, Indent;
    R.ObjectParts(v, format, depth);
    var n, t, x := LineEnd(format), Members(v, 0, format, depth + 1), Indent(format, depth);
    m := p + 1 + |n|;
    e := m + |t|;
    end := e + |x|;
    LiesHalves(s, p, "{", n + (t + (x + "}")));
    LiesHalves(s, p + 1, n, t + (x + "}"));
    LiesHalves(s, m, t, x + "}");
    LiesHalves(s, e, x, "}");
    LiesPart(s, p, "{", 0, 1);
    LiesPart(s, end, "}", 0, 1);
  }

  lemma {:induction false} ObjectPrinted(s: string, p: nat, v: Value, format: bool, depth: nat)
    requires v.Obj? && Lies(s, p, Print(v, format, depth)) && R.Plain(v)
    ensures ValueAt(s, p, p + |Print(v, format, depth)|, v)
    decreases v, Length(v) + 1
  {
    hide MembersAt, Members, Lies, R.Plain, Print, Space, LineEnd, Indent;
    var m, e, end := ObjectLies(s, p, v, format, depth);
    LayoutSpace(format, depth);
    SpaceText(s, p + 1, LineEnd(format));
    SpaceText(s, e, Indent(format, depth));
    if v.members != [] {
      MembersPrinted(s, p + 1, m, end, v, 0, format, depth + 1);
    } else {
      R.NoMembers(v, format, depth + 1);
      SpaceJoin(s, p + 1, m, end);
    }
  }

  /** Where the parts of a printed member lie. */
  lemma MemberLies(s: string, m: nat, v: Value, i: nat, format: bool, depth: nat) returns (a: nat, g: nat)
    requires v.Obj? && i < |v.members| && Lies(s, m, Members(v, i, format, depth))
    ensures a == m + |Indent(format, depth)|
    ensures g == a + |Quote(v.members[i].key)| + |Colon(format)| + |Print(v.members[i].value, format, depth)|
    ensures Lies(s, m, Indent(format, depth)) && Lies(s, a, Quote(v.members[i].key))
    ensures Lies(s, a + |Quote(v.members[i].key)|, Colon(format))
    ensures Lies(s, a + |Quote(v.members[i].key)| + |Colon(format)|, Print(v.members[i].value, format, depth))
    ensures var sep := if i + 1 < |v.members| then "," else "";
            && Lies(s, g, sep) && Lies(s, g + |sep|, LineEnd(format))
            && Lies(s, g + |sep| + |LineEnd(format)|, Members(v, i + 1, format, depth))
            && m + |Members(v, i, format, depth)| == g + |sep| + |LineEnd(format)| + |Members(v, i + 1, format, depth)|
  {
    hide Members, Print, Lies, LineEnd, Indent, Colon, Quote;
    R.MembersStart(v, i, format, depth);
    var e, k, c, x := Indent(format, depth), Quote(v.members[i].key), Colon(format),
        Print(v.members[i].value, format, depth);
    var sep, n, rest := if i + 1 < |v.members| then "," else "", LineEnd(format), Members(v, i + 1, format, depth);
    LiesHalves(s, m, e, k + (c + (x + (sep + (n + rest)))));
    a := m + |e|;
    LiesHalves(s, a, k, c + (x + (sep + (n + rest))));
    LiesHalves(s, a + |k|, c, x + (sep + (n + rest)));
    LiesHalves(s, a + |k| + |c|, x, sep + (n + rest));
    g := a + |k| + |c| + |x|;
    LiesHalves(s, g, sep, n + rest);
    LiesHalves(s, g + |sep|, n, rest);
  }

  lemma {:induction false} MembersPrinted(s: string, p: nat, m: nat, q: nat, v: Value, i: nat, format: bool, depth: nat)
    requires v.Obj? && i < |v.members| && R.Plain(v) && Space(s, p, m) && Lies(s, m, Members(v, i, format, depth))
    requires Space(s, m + |Members(v, i, format, depth)|, q)
    ensures MembersAt(s, p, q, v, i)
    decreases v, |v.members| - i, 1
  {
    hide MemberAt, Members, Print, Lies, Space, LineEnd, Indent, Colon, Quote, R.Plain;
    var a, g := MemberLies(s, m, v, i, format, depth);
    var n := LineEnd(format);
    LayoutSpace(format, depth);
    SpaceText(s, m, Indent(format, depth));
    SpaceJoin(s, p, m, a);
    if i + 1 < |v.members| {
      LiesPart(s, g, ",", 0, 1);
      SpaceText(s, g + 1, n);
      NoSpace(s, g);
      MemberPrinted(s, a, g, v, i, format, depth);
      MembersPrinted(s, g + 1, g + 1 + |n|, q, v, i + 1, format, depth);
      assert Space(s, p, a) && MemberAt(s, a, g, v, i);
    } else {
      SpaceText(s, g, n);
      R.NoMembers(v, format, depth);
      SpaceJoin(s, g, g + |n|, q);
      MemberPrinted(s, a, q, v, i, format, depth);
      assert Space(s, p, a) && MemberAt(s, a, q, v, i);
    }
  }

  lemma MemberPlain(v: Value, i: nat)
    requires v.Obj? && i < |v.members| && R.Plain(v)
    ensures NUL !in v.members[i].key && R.Plain(v.members[i].value)
  {
  }

  lemma ColonSpace(s: string, b: nat, format: bool)
    requires Lies(s, b, Colon(format))
    ensures b < |s| && s[b] == ':' && Space(s, b + 1, b + |Colon(format)|)
  {
    hide Lies;
    var w := if format then "\t" else "";
    assert Colon(format) == ":" + w;
    LiesHalves(s, b, ":", w);
    LiesPart(s, b, ":", 0, 1);
    SpaceText(s, b + 1, w);
  }

  lemma {:induction false} MemberPrinted(s: string, a: nat, c: nat, v: Value, i: nat, format: bool, depth: nat)
    requires v.Obj? && i < |v.members| && R.Plain(v)
    requires var k, x := Quote(v.members[i].key), Print(v.members[i].value, format, depth);
             var g := a + |k| + |Colon(format)| + |x|;
             Lies(s, a, k) && Lies(s, a + |k|, Colon(format)) && Lies(s, a + |k| + |Colon(format)|, x) && Space(s, g, c)
    ensures MemberAt(s, a, c, v, i)
    decreases v, |v.members| - i, 0
  {
    hide ValueAt, StringAt, Print, Lies, Space, Quote, Colon, R.Plain;
    var k, x := Quote(v.members[i].key), Print(v.members[i].value, format, depth);
    var b: nat := a + |k|;
    var f: nat := b + |Colon(format)|;
    MemberPlain(v, i);
    StringPrinted(s, a, v.members[i].key);
    ColonSpace(s, b, format);
    NoSpace(s, b);
    ValuePrinted(s, f, v.members[i].value, format, depth);
    assert StringAt(s, a, b, v.members[i].key) && Space(s, b, b) && Space(s, b + 1, f)
           && ValueAt(s, f, f + |x|, v.members[i].value) && Space(s, f + |x|, c);
  }

  /** The printer writes JSON texts, formatted or not. */
  lemma PrintedIsText(v: Value, format: bool)
    requires R.Plain(v)
    ensures TextOf(Print(v, format, 0), |Print(v, format, 0)|, v)
  {
    hide ValueAt, Print;
    var t := Print(v, format, 0);
    assert Lies(t, 0, t);
    ValuePrinted(t, 0, v, format, 0);
    NoSpace(t, 0);
    NoSpace(t, |t|);
  }
}
