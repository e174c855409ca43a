/** What the parser accepts besides the texts of RFC 8259: the same grammar with looser leaves. */
module JsonAccepted {
  import opened JsonText
  import opened JsonStrings
  import opened Decimals
  import opened JsonGrammar
  import R = JsonRoundTrip

  // ---- the leaves

  /** Every character up to the space counts as a space. */
  ghost predicate LooseSpace(s: string, p: nat, q: nat) {
    p <= q <= |s| && forall i :: p <= i < q ==> s[i] as int <= 32
  }

  /** A numeral may have leading zeros, and a point without digits on one side. */
  ghost predicate LooseNumberAt(s: string, p: nat, q: nat, n: int) {
    p < q <= |s| && q - p <= 63
    && exists x: Numeral, dot: bool ::
         && Digital(x) && x.whole + x.frac != "" && (x.frac != "" ==> dot)
         && LooseText(x, dot) == s[p..q] && IntIs(NumeralValue(x), n)
  }

  function LooseText(x: Numeral, dot: bool): string {
    (if x.minus then "-" else "") + x.whole + (if dot then "." else "") + x.frac + ExponentText(x.exp)
  }

  /** No quote from p up to q but behind a backslash. */
  ghost predicate Unquoted(s: string, p: nat, q: nat)
    decreases q - p
  {
    && p <= q <= |s|
    && (p < q ==>
          if s[p] == '\\' then p + 2 <= q && Unquoted(s, p + 2, q) else s[p] != '"' && Unquoted(s, p + 1, q))
  }

  /** A string ends at its first quote, may hold control characters, and code units without digits. */
  ghost predicate LooseStringAt(s: string, p: nat, q: nat, x: string) {
    && p + 2 <= q <= |s| && s[p] == '"' && s[q - 1] == '"' && Unquoted(s, p + 1, q - 1)
    && StandsFor(s, p + 1, q - 1, x)
  }

  ghost predicate StandsFor(s: string, p: nat, end: nat, x: string) {
    exists xs: seq<Piece>, outs: seq<string> :: Reads(s, p, end, xs, outs) && CStringIs(Join(outs), x)
  }

  // ---- values

  /** The text from p to q is taken as this value. */
  ghost predicate LooseAt(s: string, p: nat, q: nat, v: Value)
    decreases v, Length(v) + 1
  {
    match v
    case Null => Lies(s, p, "null") && q == p + 4
    case Bool(b) => Lies(s, p, if b then "true" else "false") && q == if b then p + 4 else p + 5
    case Num(n) => LooseNumberAt(s, p, q, n)
    case Str(x) => LooseStringAt(s, p, q, x)
    case Arr(items) =>
      && p + 2 <= q <= |s| && s[p] == '[' && s[q - 1] == ']'
      && if items == [] then LooseSpace(s, p + 1, q - 1) else LooseElements(s, p + 1, q - 1, v, 0)
    case Obj(members) =>
      && p + 2 <= q <= |s| && s[p] == '{' && s[q - 1] == '}'
      && if members == [] then LooseSpace(s, p + 1, q - 1) else LooseMembers(s, p + 1, q - 1, v, 0)
  }

  /** The elements from place i on, with one comma between them. */
  ghost predicate LooseElements(s: string, p: nat, q: nat, v: Value, i: nat)
    requires v.Arr? && i < |v.items|
    decreases v, |v.items| - i
  {
    exists a: nat, b: nat, c: nat ::
      && LooseSpace(s, p, a) && LooseAt(s, a, b, v.items[i]) && LooseSpace(s, b, c)
      && if i + 1 == |v.items| then c == q else c < |s| && s[c] == ',' && LooseElements(s, c + 1, q, v, i + 1)
  }

  ghost predicate LooseMember(s: string, a: nat, g: nat, v: Value, i: nat)
    requires v.Obj? && i < |v.members|
    decreases v, |v.members| - i, 0
  {
    exists b: nat, e: nat, f: nat ::
      && LooseStringAt(s, a, b, v.members[i].key) && LooseSpace(s, b, e) && e < |s| && s[e] == ':'
      && LooseSpace(s, e + 1, f) && LooseAt(s, f, g, v.members[i].value)
  }

  ghost predicate LooseMembers(s: string, p: nat, q: nat, v: Value, i: nat)
    requires v.Obj? && i < |v.members|
    decreases v, |v.members| - i, 1
  {
    exists a: nat, g: nat, c: nat ::
      && LooseSpace(s, p, a) && LooseMember(s, a, g, v, i) && LooseSpace(s, g, c)
      && if i + 1 == |v.members| then c == q else c < |s| && s[c] == ',' && LooseMembers(s, c + 1, q, v, i + 1)
  }

  // ---- what is accepted: spaces, strings

  lemma {:induction false} PastLoose(s: string, p: nat)
    requires p <= |s|
    ensures LooseSpace(s, p, PastSpace(s, p))
    decreases |s| - p
  {
    if p < |s| && s[p] as int <= 32 { PastLoose(s, p + 1); }
  }

  lemma SkipLoose(s: string, p: nat)
    requires p <= |s|
    ensures LooseSpace(s, p, SkipSpace(s, p))
  {
    PastLoose(s, p);
  }

  lemma {:induction false} EndUnquoted(s: string, p: nat)
    requires StringEnd(s, p).Some?
    ensures Unquoted(s, p, StringEnd(s, p).value)
    decreases |s| - p
  {
    if s[p] == '"' {
    } else if s[p] == '\\' {
      EndUnquoted(s, p + 2);
    } else {
      EndUnquoted(s, p + 1);
    }
  }

  lemma {:induction false} CStringFound(whole: string)
    ensures CStringIs(whole, CString(whole))
  {
    if whole != [] && whole[0] != NUL { CStringFound(whole[1..]); }
  }

  lemma StringAccepted(s: string, p: nat, q: nat, x: string)
    requires ParseString(s, p) == Some((x, q))
    ensures LooseStringAt(s, p, q, x)
  {
    hide StringEnd, Unescape, Reads, CString, Unquoted, CStringIs;
    EndUnquoted(s, p + 1);
    var end := StringEnd(s, p + 1).value;
    var xs, outs := ReadInPieces(s, p + 1, end);
    CStringFound(Join(outs));
  }

  // ---- numbers

  lemma {:induction false} DigitsTaken(t: string, p: nat)
    requires p <= |t|
    ensures AllDigits(t[p..DigitsEnd(t, p)])
    decreases |t| - p
  {
    if p < |t| && IsDigit(t[p]) {
      DigitsTaken(t, p + 1);
      var q := DigitsEnd(t, p);
      assert t[p..q] == [t[p]] + t[p + 1..q];
    }
  }

  /** The exponent that is taken, if one is. */
  lemma ExponentTaken(t: string, p: nat) returns (e: JsonGrammar.Exponent)
    requires p <= |t|
    ensures var r := JsonText.Exponent(t, p);
            && ExponentOk(e) && t[p..r.0] == ExponentText(e)
            && r.1 == (e.NoExponent? || e.sign != "-")
            && r.2 == if e.NoExponent? then 0 else Decimal(e.digits)
  {
    hide NatOf, Decimal, DigitsEnd, AllDigits;
    var r := JsonText.Exponent(t, p);
    e := NoExponent;
    if p < r.0 {
      var from: nat := if p + 1 < |t| && (t[p + 1] == '-' || t[p + 1] == '+') then p + 2 else p + 1;
      e := MarkedExponent(t, p, from, r.0);
    } else {
      assert t[p..r.0] == "";
    }
  }

  lemma MarkedExponent(t: string, p: nat, from: nat, to: nat) returns (e: JsonGrammar.Exponent)
    requires p < |t| && (t[p] == 'e' || t[p] == 'E') && p + 1 <= from < to <= |t| && to == DigitsEnd(t, from)
    requires from == if p + 1 < |t| && (t[p + 1] == '-' || t[p + 1] == '+') then p + 2 else p + 1
    ensures e.Exponent? && ExponentOk(e) && t[p..to] == ExponentText(e) && Decimal(e.digits) == NatOf(t[from..to])
    ensures e.sign != "-" <==> t[p + 1] != '-'
  {
    hide NatOf, Decimal, DigitsEnd, AllDigits;
    DigitsTaken(t, from);
    DecimalIs(t[from..to]);
    var sign := if from == p + 1 then "" else [t[p + 1]];
    e := JsonGrammar.Exponent(t[p], sign, t[from..to]);
    Cut(t, p, from, to);
    Cut(t, p, p + 1, from);
    OneSlice(t, p);
    if from == p + 2 { OneSlice(t, p + 1); }
  }

  /** The numeral that strtod takes from a text which begins with a minus or a digit. */
  lemma NumeralTaken(t: string) returns (x: Numeral, dot: bool)
    requires t != [] && t[0] != '+' && Strtod(t).0 > 0
    ensures Digital(x) && x.whole + x.frac != "" && (x.frac != "" ==> dot)
    ensures LooseText(x, dot) == t[..Strtod(t).0] && NumeralValue(x) == Strtod(t).1
  {
    hide *;
    var minus := t[0] == '-';
    var start: nat := if minus then 1 else 0;
    var whole := DigitsEnd(t, start);
    dot := whole < |t| && t[whole] == '.';
    var end := if dot then DigitsEnd(t, whole + 1) else whole;
    DigitsTaken(t, start);
    if dot { DigitsTaken(t, whole + 1); }
    var e := ExponentTaken(t, end);
    var r := JsonText.Exponent(t, end);
    x := Numeral(minus, t[start..whole], if dot then t[whole + 1..end] else "", e);
    StrtodIs(t, start, whole, dot, end);
    NoDigits();
    IsDigital(x);
    ScaledIs(x, r.2, r.1);
    LooseTextIs(t, x, dot, start, whole, end, r.0);
  }

  lemma NoDigits()
    ensures AllDigits("")
  {
  }

  lemma IsDigital(x: Numeral)
    requires AllDigits(x.whole) && AllDigits(x.frac) && ExponentOk(x.exp)
    ensures Digital(x)
  {
  }

  lemma LooseTextIs(t: string, x: Numeral, dot: bool, start: nat, whole: nat, end: nat, last: nat)
    requires start <= whole <= end <= last <= |t| && (dot ==> whole < end && t[whole] == '.') && (!dot ==> whole == end)
    requires x.minus == (start == 1) && start <= 1 && (start == 1 ==> t[0] == '-') && x.whole == t[start..whole]
    requires x.frac == (if dot then t[whole + 1..end] else "") && t[end..last] == ExponentText(x.exp)
    ensures LooseText(x, dot) == t[..last]
  {
    hide ExponentText;
    var m, point := if x.minus then "-" else "", if dot then "." else "";
    assert t[..start] == m by { if start == 1 { OneSlice(t, 0); } }
    if dot {
      OneSlice(t, whole);
      Cut(t, whole, whole + 1, end);
    }
    Cut(t, 0, start, whole);
    Cut(t, 0, whole, end);
    Cut(t, 0, end, last);
    assert (m + x.whole) + (point + x.frac) == m + x.whole + point + x.frac;
  }

  lemma Cut(t: string, a: nat, b: nat, c: nat)
    requires a <= b <= c <= |t|
    ensures t[a..c] == t[a..b] + t[b..c]
  {
  }

  lemma OneSlice(t: string, p: nat)
    requires p < |t|
    ensures t[p..p + 1] == [t[p]]
  {
  }

  /** What strtod does with these parts. */
  lemma StrtodIs(t: string, start: nat, whole: nat, dot: bool, end: nat)
    requires t != [] && t[0] != '+' && start == (if t[0] == '-' then 1 else 0) && Strtod(t).0 > 0
    requires whole == DigitsEnd(t, start) && dot == (whole < |t| && t[whole] == '.')
    requires end == if dot then DigitsEnd(t, whole + 1) else whole
    ensures start <= whole <= end <= |t| && (dot ==> whole < end)
    ensures var frac := if dot then t[whole + 1..end] else "";
            var r := JsonText.Exponent(t, end);
            && t[start..whole] + frac != ""
            && Strtod(t) == (r.0, Assembled(t[start..whole] + frac, |frac|, t[0] == '-', r.1, r.2))
  {
    hide Assembled, DigitsEnd, JsonText.Exponent;
  }

  lemma NumberAccepted(s: string, p: nat, q: nat, n: int)
    requires p < |s| && (s[p] == '-' || IsDigit(s[p])) && ParseNumber(s, p) == Some((n, q))
    ensures LooseNumberAt(s, p, q, n)
  {
    hide Strtod, LooseText, NumeralValue, IntIs, IntOf;
    var t := s[p..p + NumberRun(s, p, 63)];
    var x, dot := NumeralTaken(t);
    IntOfMeans(NumeralValue(x), n);
    assert t[..Strtod(t).0] == s[p..q];
  }

  // ---- values

  /** Nothing is accepted in front of a space or at the end. */
  lemma StartsHere(s: string, p: nat, d: nat)
    requires p <= |s| && ParseValue(s, p, d).Some?
    ensures p < |s| && s[p] as int > 32
  {
    hide ParseItems, ParseMembers, ParseString, ParseNumber, SkipSpace;
  }

  lemma {:induction false} ValueAccepted(s: string, p: nat, d: nat)
    requires p <= |s| && ParseValue(s, p, d).Some? && d <= NESTING
    ensures var (v, q) := ParseValue(s, p, d).value; LooseAt(s, p, q, v) && R.Within(v, NESTING - d)
    decreases |s| - p, 1
  {
    hide ParseItems, ParseMembers, ParseString, ParseNumber, SkipSpace, LooseElements, LooseMembers, LooseStringAt,
         LooseNumberAt, LooseSpace;
    var (v, q) := ParseValue(s, p, d).value;
    match v
    case Null =>
    case Bool(b) =>
    case Str(x) => StringAccepted(s, p, q, x);
    case Num(n) => NumberAccepted(s, p, q, n);
    case Arr(items) => ArrayAccepted(s, p, d);
    case Obj(members) => ObjectAccepted(s, p, d);
  }

  lemma ArrayStarts(s: string, p: nat, d: nat)
    requires p <= |s| && ParseValue(s, p, d).Some? && ParseValue(s, p, d).value.0.Arr?
    ensures p < |s| && s[p] == '[' && d < NESTING
  {
    hide ParseItems, ParseMembers, ParseString, ParseNumber, SkipSpace, Lies;
  }

  lemma {:induction false} ArrayAccepted(s: string, p: nat, d: nat)
    requires p <= |s| && ParseValue(s, p, d).Some? && ParseValue(s, p, d).value.0.Arr?
    ensures var (v, q) := ParseValue(s, p, d).value; LooseAt(s, p, q, v) && R.Within(v, NESTING - d)
    decreases |s| - p, 0
  {
    hide ParseValue, ParseItems, SkipSpace, LooseElements, LooseSpace;
    ArrayStarts(s, p, d);
    R.ParsesArray(s, p, d);
    var a := SkipSpace(s, p + 1);
    SkipLoose(s, p + 1);
    if a < |s| && s[a] == ']' {
    } else {
      var (v, q) := ParseValue(s, p, d).value;
      assert v.items == v.items[0..];
      SomeItems(s, a, d + 1);
      ItemsAccepted(s, a, d + 1, v, 0);
      ElementsEarlier(s, p + 1, a, q - 1, v, 0);
    }
  }

  lemma ElementsEarlier(s: string, p: nat, a: nat, q: nat, v: Value, i: nat)
    requires v.Arr? && i < |v.items| && LooseSpace(s, p, a) && LooseElements(s, a, q, v, i)
    ensures LooseElements(s, p, q, v, i)
  {
    hide LooseAt, LooseSpace;
    var a': nat, b: nat, c: nat :|
      && LooseSpace(s, a, a') && LooseAt(s, a', b, v.items[i]) && LooseSpace(s, b, c)
      && if i + 1 == |v.items| then c == q else c < |s| && s[c] == ',' && LooseElements(s, c + 1, q, v, i + 1);
    SpaceJoined(s, p, a, a');
  }

  lemma SpaceJoined(s: string, p: nat, a: nat, b: nat)
    requires LooseSpace(s, p, a) && LooseSpace(s, a, b)
    ensures LooseSpace(s, p, b)
  {
  }

  lemma {:induction false} ItemsAccepted(s: string, p: nat, d: nat, v: Value, i: nat)
    requires p <= |s| && d <= NESTING && v.Arr? && i < |v.items|
    requires ParseItems(s, p, d).Some? && ParseItems(s, p, d).value.0 == v.items[i..]
    ensures var q: nat := ParseItems(s, p, d).value.1;
            && s[q - 1] == ']' && LooseElements(s, p, q - 1, v, i)
            && forall j :: i <= j < |v.items| ==> R.Within(v.items[j], NESTING - d)
    decreases |s| - p, 2
  {
    hide ParseValue, SkipSpace, LooseSpace, LooseAt, R.Within;
    var a := SkipSpace(s, p);
    SkipLoose(s, p);
    ValueAccepted(s, a, d);
    var b: nat := ParseValue(s, a, d).value.1;
    var c := SkipSpace(s, b);
    SkipLoose(s, b);
    assert ParseValue(s, a, d).value.0 == v.items[i..][0] == v.items[i];
    if s[c] == ',' {
      var y := ParseItems(s, c + 1, d).value;
      assert y.0 == v.items[i..][1..] == v.items[i + 1..];
      ItemsAccepted(s, c + 1, d, v, i + 1);
    } else {
      assert |v.items[i..]| == 1;
    }
  }

  lemma ObjectStarts(s: string, p: nat, d: nat)
    requires p <= |s| && ParseValue(s, p, d).Some? && ParseValue(s, p, d).value.0.Obj?
    ensures p < |s| && s[p] == '{' && d < NESTING
  {
    hide ParseItems, ParseMembers, ParseString, ParseNumber, SkipSpace, Lies;
  }

  lemma {:induction false} ObjectAccepted(s: string, p: nat, d: nat)
    requires p <= |s| && ParseValue(s, p, d).Some? && ParseValue(s, p, d).value.0.Obj?
    ensures var (v, q) := ParseValue(s, p, d).value; LooseAt(s, p, q, v) && R.Within(v, NESTING - d)
    decreases |s| - p, 0
  {
    hide ParseValue, ParseMembers, SkipSpace, LooseMembers, LooseSpace;
    ObjectStarts(s, p, d);
    ParsesObject(s, p, d) by { One(s, p); }
    var a := SkipSpace(s, p + 1);
    SkipLoose(s, p + 1);
    if a < |s| && s[a] == '}' {
    } else {
      var (v, q) := ParseValue(s, p, d).value;
      assert v.members == v.members[0..];
      SomeMembers(s, a, d + 1);
      MembersAccepted(s, a, d + 1, v, 0);
      MembersEarlier(s, p + 1, a, q - 1, v, 0);
    }
  }

  lemma MembersEarlier(s: string, p: nat, a: nat, q: nat, v: Value, i: nat)
    requires v.Obj? && i < |v.members| && LooseSpace(s, p, a) && LooseMembers(s, a, q, v, i)
    ensures LooseMembers(s, p, q, v, i)
  {
    hide LooseMember, LooseSpace;
    var a': nat, g: nat, c: nat :|
      && LooseSpace(s, a, a') && LooseMember(s, a', g, v, i) && LooseSpace(s, g, c)
      && if i + 1 == |v.members| then c == q else c < |s| && s[c] == ',' && LooseMembers(s, c + 1, q, v, i + 1);
    SpaceJoined(s, p, a, a');
  }

  lemma {:induction false} MembersAccepted(s: string, p: nat, d: nat, v: Value, i: nat)
    requires p <= |s| && d <= NESTING && v.Obj? && i < |v.members|
    requires ParseMembers(s, p, d).Some? && ParseMembers(s, p, d).value.0 == v.members[i..]
    ensures var q: nat := ParseMembers(s, p, d).value.1;
            && s[q - 1] == '}' && LooseMembers(s, p, q - 1, v, i)
            && forall j :: i <= j < |v.members| ==> R.Within(v.members[j].value, NESTING - d)
    decreases |s| - p, 2
  {
    hide ParseMember, SkipSpace, LooseSpace, LooseMember, R.Within;
    var m := ParseMember(s, p, d).value;
    assert m.0 == v.members[i..][0] == v.members[i];
    var a := MemberAccepted(s, p, d, v, i);
    var c := SkipSpace(s, m.1);
    SkipLoose(s, m.1);
    if s[c] == ',' {
      var y := ParseMembers(s, c + 1, d).value;
      assert y.0 == v.members[i..][1..] == v.members[i + 1..];
      MembersAccepted(s, c + 1, d, v, i + 1);
    } else {
      assert |v.members[i..]| == 1;
    }
  }

  lemma {:induction false} MemberAccepted(s: string, p: nat, d: nat, v: Value, i: nat) returns (a: nat)
    requires p <= |s| && d <= NESTING && v.Obj? && i < |v.members|
    requires ParseMember(s, p, d).Some? && ParseMember(s, p, d).value.0 == v.members[i]
    ensures LooseSpace(s, p, a) && LooseMember(s, a, ParseMember(s, p, d).value.1, v, i)
    ensures R.Within(v.members[i].value, NESTING - d)
    decreases |s| - p, 1
  {
    hide ParseValue, ParseString, SkipSpace, LooseSpace, LooseAt, LooseStringAt, R.Within;
    a := SkipSpace(s, p);
    SkipLoose(s, p);
    var (key, b) := ParseString(s, a).value;
    StringAccepted(s, a, b, key);
    var e := SkipSpace(s, b);
    SkipLoose(s, b);
    var f := SkipSpace(s, e + 1);
    SkipLoose(s, e + 1);
    ValueAccepted(s, f, d);
  }

  /** Whatever is accepted is a text of the looser grammar, within the nesting limit, behind at most a byte
      order mark; where a terminator is asked for, only spaces come before it. */
  lemma TextAccepted(s: string, strict: bool) returns (a: nat, b: nat)
    requires ParseText(s, strict).Some?
    ensures var (v, n) := ParseText(s, strict).value;
            && LooseSpace(s, Bom(s), a) && LooseAt(s, a, b, v) && R.Within(v, NESTING)
            && if strict then LooseSpace(s, b, n) && n < |s| && s[n] == NUL else n == b
  {
    hide ParseValue, SkipSpace, LooseSpace, LooseAt, R.Within;
    a := SkipSpace(s, Bom(s));
    SkipLoose(s, Bom(s));
    ValueAccepted(s, a, 0);
    b := ParseValue(s, a, 0).value.1;
    SkipLoose(s, b);
  }

  lemma SomeItems(s: string, p: nat, d: nat)
    requires p <= |s| && ParseItems(s, p, d).Some?
    ensures ParseItems(s, p, d).value.0 != []
  {
    hide ParseValue, SkipSpace;
  }

  lemma SomeMembers(s: string, p: nat, d: nat)
    requires p <= |s| && ParseMembers(s, p, d).Some?
    ensures ParseMembers(s, p, d).value.0 != []
  {
    hide ParseMember, SkipSpace;
  }
}
