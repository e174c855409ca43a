/** Parsing what was printed gives the value back. */
module JsonRoundTrip {
  import opened Decimals
  import opened JsonText

  // ---- text at a place

  lemma LiesSplit(s: string, p: nat, a: string, b: string)
    requires Lies(s, p, a + b)
    ensures Lies(s, p, a) && Lies(s, p + |a|, b)
  {
    var x := s[p..p + |a + b|];
    assert x[..|a|] == a && x[|a|..] == b;
    assert s[p..p + |a|] == x[..|a|];
    assert s[p + |a|..p + |a| + |b|] == x[|a|..];
  }

  lemma LiesAt(s: string, p: nat, t: string, i: nat)
    requires Lies(s, p, t) && i < |t|
    ensures s[p + i] == t[i]
  {
    assert s[p..p + |t|][i] == t[i];
  }

  // ---- spaces

  ghost predicate Blank(w: string) {
    forall i :: 0 <= i < |w| ==> w[i] as int <= 32
  }

  lemma {:induction false} SkipBlank(s: string, p: nat, w: string)
    requires Lies(s, p, w) && Blank(w) && p + |w| < |s| && s[p + |w|] as int > 32
    ensures SkipSpace(s, p) == p + |w|
  {
    PastBlank(s, p, w, 0);
  }

  lemma {:induction false} PastBlank(s: string, p: nat, w: string, i: nat)
    requires Lies(s, p, w) && Blank(w) && p + |w| < |s| && s[p + |w|] as int > 32 && i <= |w|
    ensures PastSpace(s, p + i) == p + |w|
    decreases |w| - i
  {
    if i < |w| {
      LiesAt(s, p, w, i);
      PastBlank(s, p, w, i + 1);
    }
  }

  lemma NoSpace(s: string, p: nat)
    requires p < |s| && s[p] as int > 32
    ensures SkipSpace(s, p) == p
  {
  }

  // ---- strings

  /** The bytes that the escape of a character is read back as. */
  lemma {:induction false} UnescapeChar(s: string, p: nat, end: nat, c: char)
    requires Lies(s, p, EscapeChar(c)) && p + |EscapeChar(c)| <= end < |s| && c != NUL
    ensures Unescape(s, p, end) == Before([c], Unescape(s, p + |EscapeChar(c)|, end))
  {
    var e := EscapeChar(c);
    LiesAt(s, p, e, 0);
    if |e| >= 2 { LiesAt(s, p, e, 1); }
    if |e| == 6 {
      LiesAt(s, p, e, 2);
      LiesAt(s, p, e, 3);
      LiesAt(s, p, e, 4);
      LiesAt(s, p, e, 5);
      assert Hex4(s, p + 2) == c as int;
      assert Utf8(c as int) == [c];
    }
  }

  lemma {:induction false} UnescapeString(s: string, p: nat, end: nat, x: string)
    requires Lies(s, p, Escape(x)) && p + |Escape(x)| == end < |s| && NUL !in x
    ensures Unescape(s, p, end) == Some(x)
    decreases x
  {
    hide EscapeChar, Lies;
    if x != [] {
      var e := EscapeChar(x[0]);
      LiesSplit(s, p, e, Escape(x[1..]));
      LiesRange(s, p, e);
      UnescapeChar(s, p, end, x[0]);
      UnescapeString(s, p + |e|, end, x[1..]);
      assert [x[0]] + x[1..] == x;
    }
  }

  lemma LiesRange(s: string, p: nat, t: string)
    requires Lies(s, p, t)
    ensures p + |t| <= |s|
  {
  }

  /** The quote that ends a printed string is found behind all escapes. */
  lemma {:induction false} EndAfter(s: string, p: nat, c: char)
    requires Lies(s, p, EscapeChar(c))
    ensures StringEnd(s, p) == StringEnd(s, p + |EscapeChar(c)|)
  {
    var e := EscapeChar(c);
    LiesAt(s, p, e, 0);
    if |e| >= 2 { LiesAt(s, p, e, 1); }
    if |e| == 6 {
      LiesAt(s, p, e, 2);
      LiesAt(s, p, e, 3);
      LiesAt(s, p, e, 4);
      LiesAt(s, p, e, 5);
      assert StringEnd(s, p + 2) == StringEnd(s, p + 3) == StringEnd(s, p + 4) == StringEnd(s, p + 5)
             == StringEnd(s, p + 6);
    }
  }

  lemma {:induction false} EndOfString(s: string, p: nat, x: string)
    requires Lies(s, p, Escape(x)) && p + |Escape(x)| < |s| && s[p + |Escape(x)|] == '"'
    ensures StringEnd(s, p) == Some(p + |Escape(x)|)
    decreases x
  {
    hide EscapeChar, Lies;
    if x != [] {
      var e := EscapeChar(x[0]);
      LiesSplit(s, p, e, Escape(x[1..]));
      EndAfter(s, p, x[0]);
      EndOfString(s, p + |e|, x[1..]);
    }
  }

  lemma {:induction false} CleanString(x: string)
    requires NUL !in x
    ensures CString(x) == x
  {
    if x != [] {
      CleanString(x[1..]);
    }
  }

  /** A printed string is read back. */
  lemma QuoteRead(s: string, p: nat, x: string)
    requires Lies(s, p, Quote(x)) && NUL !in x
    ensures ParseString(s, p) == Some((x, p + |Quote(x)|))
  {
    hide Lies, Escape, Unescape, StringEnd, CString;
    var e := Escape(x);
    assert Quote(x) == "\"" + (e + "\"");
    LiesSplit(s, p, "\"", e + "\"");
    LiesSplit(s, p + 1, e, "\"");
    LiesAt(s, p, "\"", 0);
    LiesAt(s, p + 1 + |e|, "\"", 0);
    LiesRange(s, p + 1 + |e|, "\"");
    LiesRange(s, p, "\"");
    EndOfString(s, p + 1, x);
    UnescapeString(s, p + 1, p + 1 + |e|, x);
    CleanString(x);
  }

  // ---- numbers

  ghost predicate Delimited(s: string, q: nat) {
    q <= |s| && (q < |s| ==> !NumberChar(s[q]))
  }

  lemma {:induction false} RunIs(s: string, p: nat, t: string, left: nat)
    requires Lies(s, p, t) && (forall c :: c in t ==> NumberChar(c)) && |t| < left && Delimited(s, p + |t|)
    ensures NumberRun(s, p, left) == |t|
    decreases t
  {
    if t != [] {
      assert t == [t[0]] + t[1..] && t[0] in t;
      LiesSplit(s, p, [t[0]], t[1..]);
      LiesAt(s, p, t, 0);
      assert forall c :: c in t[1..] ==> c in t;
      RunIs(s, p + 1, t[1..], left - 1);
    }
  }

  lemma {:induction false} AllDigits(t: string, p: nat)
    requires p <= |t| && forall i :: p <= i < |t| ==> IsDigit(t[i])
    ensures DigitsEnd(t, p) == |t|
    decreases |t| - p
  {
    if p < |t| {
      AllDigits(t, p + 1);
    }
  }

  lemma {:induction false} NatOfDigits(n: nat)
    ensures NatOf(Digits(n)) == n
  {
    DigitsAre(n);
    var d := Digits(n);
    if n >= 10 {
      NatOfDigits(n / 10);
      assert d[..|d| - 1] == Digits(n / 10);
    } else {
      assert d[..0] == [];
    }
  }

  lemma {:induction false} DigitsShort(n: nat, k: nat)
    requires n < Power(k) && k > 0
    ensures |Digits(n)| <= k
  {
    if n >= 10 {
      DigitsShort(n / 10, k - 1);
    }
  }

  function Power(k: nat): nat { if k == 0 then 1 else 10 * Power(k - 1) }

  /** strtod takes a printed integer whole. */
  lemma StrtodInt(n: int)
    ensures Strtod(IntText(n)) == (|IntText(n)|, n as real)
  {
    hide NatOf, Digits;
    var m: nat := if n < 0 then -n else n;
    var d, t := Digits(m), IntText(n);
    DigitsAre(m);
    NatOfDigits(m);
    var start: nat := if n < 0 then 1 else 0;
    assert t[start..] == d;
    forall i | start <= i < |t|
      ensures IsDigit(t[i])
    {
      assert t[i] == d[i - start] && d[i - start] in d;
    }
    assert IsDigit(t[start]);
    AllDigits(t, start);
    assert t[start..|t|] + "" == d;
    assert Pow10(0) == 1.0;
    assert Assembled(d, 0, n < 0, true, 0) == n as real;
  }

  lemma FloorInt(n: int)
    requires INT_MIN <= n <= INT_MAX
    ensures IntOf(n as real) == n
  {
  }

  lemma NumberRead(s: string, p: nat, n: int)
    requires Lies(s, p, IntText(n)) && INT_MIN <= n <= INT_MAX && Delimited(s, p + |IntText(n)|)
    ensures ParseNumber(s, p) == Some((n, p + |IntText(n)|))
  {
    hide Strtod, IntOf, Digits;
    var m: nat := if n < 0 then -n else n;
    var t := IntText(n);
    DigitsAre(m);
    assert Power(10) == 10000000000 by { assert Power(5) == 100000; }
    DigitsShort(m, 10);
    RunIs(s, p, t, 63);
    StrtodInt(n);
    FloorInt(n);
  }

  // ---- values

  /** Integers are ints, and strings are C strings. */
  ghost predicate Plain(v: Value) {
    match v
    case Num(n) => INT_MIN <= n <= INT_MAX
    case Str(s) => NUL !in s
    case Arr(items) => forall i :: 0 <= i < |items| ==> Plain(items[i])
    case Obj(members) => forall i :: 0 <= i < |members| ==> NUL !in members[i].key && Plain(members[i].value)
    case _ => true
  }

  /** Arrays and objects are nested at most this deep. */
  ghost predicate Within(v: Value, levels: nat) {
    match v
    case Arr(items) => levels > 0 && forall i :: 0 <= i < |items| ==> Within(items[i], levels - 1)
    case Obj(members) => levels > 0 && forall i :: 0 <= i < |members| ==> Within(members[i].value, levels - 1)
    case _ => true
  }

  /** No printed value begins with a space or a closing bracket. */
  lemma FirstChar(v: Value, format: bool, depth: nat)
    ensures var t := Print(v, format, depth); t != [] && t[0] as int > 32 && t[0] != ']' && t[0] != '}'
  {
    hide Items, Members, Escape, Tabs;
    match v
    case Num(n) =>
      var d := Digits(if n < 0 then -n else n);
      DigitsAre(if n < 0 then -n else n);
      assert d[0] in d;
    case _ =>
  }

  /** What is needed of a value to be read back at nesting depth d. */
  ghost predicate Readable(v: Value, d: nat) {
    Plain(v) && d <= NESTING && Within(v, NESTING - d)
  }

  lemma ItemReadable(v: Value, i: nat, d: nat)
    requires Readable(v, d) && v.Arr? && i < |v.items|
    ensures d < NESTING && Readable(v.items[i], d + 1)
  {
  }

  lemma MemberReadable(v: Value, i: nat, d: nat)
    requires Readable(v, d) && v.Obj? && i < |v.members|
    ensures d < NESTING && Readable(v.members[i].value, d + 1) && NUL !in v.members[i].key
  {
  }

  lemma CharLies(s: string, p: nat, c: char)
    requires Lies(s, p, [c])
    ensures p < |s| && s[p] == c
  {
    LiesAt(s, p, [c], 0);
  }

  lemma PrintedFirst(s: string, p: nat, v: Value, format: bool, depth: nat)
    requires Lies(s, p, Print(v, format, depth))
    ensures p < |s| && s[p] as int > 32 && s[p] != ']' && s[p] != '}'
  {
    hide Print;
    FirstChar(v, format, depth);
    LiesAt(s, p, Print(v, format, depth), 0);
  }

  /** A printed value is read back, whatever text follows it. */
  lemma {:induction false} ValueRead(s: string, p: nat, v: Value, format: bool, depth: nat, d: nat)
    requires Lies(s, p, Print(v, format, depth)) && Readable(v, d) && Delimited(s, p + |Print(v, format, depth)|)
    ensures ParseValue(s, p, d) == Some((v, p + |Print(v, format, depth)|))
    decreases v, Length(v) + 2
  {
    hide ParseItems, ParseMembers, Items, Members, ParseString, ParseNumber, Escape, Lies, Within, Plain, SkipSpace,
         Tabs, Digits;
    match v
    case Null => LiesAt(s, p, "null", 0);
    case Bool(b) => OtherWord(s, p, if b then "true" else "false");
    case Num(n) => ReadableLeaf(v, d); NumberValue(s, p, n, d);
    case Str(x) => ReadableLeaf(v, d); StringValue(s, p, x, d);
    case Arr(items) => ArrayValue(s, p, v, format, depth, d);
    case Obj(members) => ObjectValue(s, p, v, format, depth, d);
  }

  lemma ReadableLeaf(v: Value, d: nat)
    requires Readable(v, d)
    ensures v.Num? ==> INT_MIN <= v.n <= INT_MAX
    ensures v.Str? ==> NUL !in v.s
  {
  }

  lemma OtherWord(s: string, p: nat, w: string)
    requires Lies(s, p, w) && w != []
    ensures p < |s| && s[p] == w[0]
    ensures w[0] != 'n' ==> !Lies(s, p, "null")
    ensures w[0] != 'f' ==> !Lies(s, p, "false")
    ensures w[0] != 't' ==> !Lies(s, p, "true")
  {
    LiesAt(s, p, w, 0);
    if Lies(s, p, "null") { LiesAt(s, p, "null", 0); }
    if Lies(s, p, "false") { LiesAt(s, p, "false", 0); }
    if Lies(s, p, "true") { LiesAt(s, p, "true", 0); }
  }

  lemma NumberValue(s: string, p: nat, n: int, d: nat)
    requires Lies(s, p, IntText(n)) && INT_MIN <= n <= INT_MAX && Delimited(s, p + |IntText(n)|)
    ensures ParseValue(s, p, d) == Some((Num(n), p + |IntText(n)|))
  {
    hide ParseItems, ParseMembers, ParseString, ParseNumber, Lies, SkipSpace, Digits;
    var m: nat := if n < 0 then -n else n;
    DigitsAre(m);
    assert Digits(m)[0] in Digits(m);
    OtherWord(s, p, IntText(n));
    NumberRead(s, p, n);
  }

  lemma StringValue(s: string, p: nat, x: string, d: nat)
    requires Lies(s, p, Quote(x)) && NUL !in x
    ensures ParseValue(s, p, d) == Some((Str(x), p + |Quote(x)|))
  {
    hide ParseItems, ParseMembers, ParseString, ParseNumber, Lies, SkipSpace, Escape;
    OtherWord(s, p, Quote(x));
    QuoteRead(s, p, x);
  }

  // ---- arrays

  lemma {:induction false} ArrayValue(s: string, p: nat, v: Value, format: bool, depth: nat, d: nat)
    requires v.Arr? && Lies(s, p, Print(v, format, depth)) && Readable(v, d)
    ensures ParseValue(s, p, d) == Some((v, p + |Print(v, format, depth)|))
    decreases v, Length(v) + 1
  {
    hide ParseValue, ParseItems, Items, Lies, SkipSpace, Readable;
    var t := Items(v, 0, format, depth + 1);
    assert Print(v, format, depth) == "[" + (t + "]");
    LiesSplit(s, p, "[", t + "]");
    CharLies(s, p, '[');
    LiesRange(s, p + 1, t + "]");
    ReadableDepth(v, d);
    ParsesArray(s, p, d);
    if v.items == [] {
      NoItems(v, format, depth + 1);
      assert t + "]" == "]";
      CharLies(s, p + 1, ']');
      NoSpace(s, p + 1);
      EmptyArray(v);
    } else {
      ItemsAhead(s, p + 1, v, 0, format, depth + 1);
      ItemsRead(s, p + 1, p + 1, v, 0, format, depth + 1, d);
      assert v.items[0..] == v.items;
    }
  }

  lemma ParsesArray(s: string, p: nat, d: nat)
    requires p < |s| && s[p] == '[' && d < NESTING
    ensures var q := SkipSpace(s, p + 1);
            ParseValue(s, p, d) ==
              if q < |s| && s[q] == ']' then Some((Arr([]), q + 1))
              else match ParseItems(s, q, d + 1) case None => None case Some(x) => Some((Arr(x.0), x.1))
  {
    hide ParseItems, SkipSpace;
    OtherWord(s, p, [s[p]]);
  }

  /** Printed elements begin with neither a space nor a bracket that ends them. */
  lemma ItemsAhead(s: string, p: nat, v: Value, i: nat, format: bool, depth: nat)
    requires v.Arr? && i < |v.items| && Lies(s, p, Items(v, i, format, depth) + "]")
    ensures p < |s| && s[p] as int > 32 && s[p] != ']' && SkipSpace(s, p) == p
  {
    hide Items, Print, Lies, SkipSpace;
    ItemsStart(v, i, format, depth);
    var t, x := Items(v, i, format, depth), Print(v.items[i], format, depth);
    assert t + "]" == x + (t[|x|..] + "]");
    LiesSplit(s, p, x, t[|x|..] + "]");
    PrintedFirst(s, p, v.items[i], format, depth);
    NoSpace(s, p);
  }

  lemma EmptyArray(v: Value)
    requires v.Arr? && v.items == []
    ensures v == Arr([])
  {
  }

  lemma ReadableDepth(v: Value, d: nat)
    requires Readable(v, d) && (v.Arr? || v.Obj?)
    ensures d < NESTING
  {
  }

  lemma NoItems(v: Value, format: bool, depth: nat)
    requires v.Arr?
    ensures Items(v, |v.items|, format, depth) == ""
  {
  }

  lemma ItemsStart(v: Value, i: nat, format: bool, depth: nat)
    requires v.Arr? && i < |v.items|
    ensures Items(v, i, format, depth) ==
              Print(v.items[i], format, depth) + (if i + 1 < |v.items| then Comma(format) else "")
                  + Items(v, i + 1, format, depth)
    ensures Print(v.items[i], format, depth) <= Items(v, i, format, depth)
  {
    hide Print;
  }

  /** Printed elements are read back, with the bracket that ends them. */
  lemma {:induction false} ItemsRead(s: string, p: nat, q: nat, v: Value, i: nat, format: bool, depth: nat, d: nat)
    requires v.Arr? && i < |v.items| && Readable(v, d) && d < NESTING
    requires p <= |s| && SkipSpace(s, p) == q && Lies(s, q, Items(v, i, format, depth) + "]")
    ensures ParseItems(s, p, d + 1) == Some((v.items[i..], q + |Items(v, i, format, depth)| + 1))
    decreases v, |v.items| - i
  {
    hide ParseValue, Items, Print, Lies, SkipSpace, Readable, Comma;
    ItemReadable(v, i, d);
    ItemParts(s, q, v, i, format, depth);
    var x := v.items[i];
    var t := Print(x, format, depth);
    var r := q + |t|;
    ValueRead(s, q, x, format, depth, d + 1);
    if i + 1 < |v.items| {
      NextItem(s, r, v, i + 1, format, depth);
      ItemsRead(s, r + 1, r + |Comma(format)|, v, i + 1, format, depth, d);
      assert [x] + v.items[i + 1..] == v.items[i..];
    } else {
      assert [x] == v.items[i..];
    }
  }

  /** The text of an element and what follows it. */
  lemma ItemParts(s: string, q: nat, v: Value, i: nat, format: bool, depth: nat)
    requires v.Arr? && i < |v.items| && Lies(s, q, Items(v, i, format, depth) + "]")
    ensures var r := q + |Print(v.items[i], format, depth)|;
            Lies(s, q, Print(v.items[i], format, depth)) && Delimited(s, r) && r < |s| && SkipSpace(s, r) == r
            && if i + 1 < |v.items| then
                 s[r] == ',' && Lies(s, r, Comma(format))
                     && Lies(s, r + |Comma(format)|, Items(v, i + 1, format, depth) + "]")
                 && q + |Items(v, i, format, depth)| == r + |Comma(format)| + |Items(v, i + 1, format, depth)|
               else s[r] == ']' && q + |Items(v, i, format, depth)| == r
  {
    hide Items, Print, Lies, SkipSpace;
    ItemsStart(v, i, format, depth);
    var t := Print(v.items[i], format, depth);
    var rest := Items(v, i + 1, format, depth) + "]";
    var sep := if i + 1 < |v.items| then Comma(format) else "";
    assert Items(v, i, format, depth) + "]" == t + (sep + rest);
    LiesSplit(s, q, t, sep + rest);
    LiesSplit(s, q + |t|, sep, rest);
    var r := q + |t|;
    LiesRange(s, r + |sep|, rest);
    if i + 1 < |v.items| {
      LiesAt(s, r, sep, 0);
    } else {
      NoItems(v, format, depth);
      assert rest == "]";
      CharLies(s, r, ']');
    }
    NoSpace(s, r);
  }

  /** Behind a comma, the space of the formatted text is skipped. */
  lemma NextItem(s: string, r: nat, v: Value, i: nat, format: bool, depth: nat)
    requires v.Arr? && i < |v.items| && Lies(s, r, Comma(format))
             && Lies(s, r + |Comma(format)|, Items(v, i, format, depth) + "]")
    ensures r + 1 <= |s| && SkipSpace(s, r + 1) == r + |Comma(format)|
  {
    hide Items, Print, Lies, SkipSpace;
    var w := if format then " " else "";
    LiesRange(s, r, Comma(format));
    ItemsAhead(s, r + |Comma(format)|, v, i, format, depth);
    assert Comma(format) == "," + w;
    LiesSplit(s, r, ",", w);
    SkipBlank(s, r + 1, w);
  }

  // ---- objects

  lemma IndentBlank(format: bool, depth: nat)
    ensures Blank(Indent(format, depth))
  {
  }

  lemma ObjectParts(v: Value, format: bool, depth: nat)
    requires v.Obj?
    ensures Print(v, format, depth) ==
              "{" + (LineEnd(format) + (Members(v, 0, format, depth + 1) + (Indent(format, depth) + "}")))
  {
    hide Members, Tabs;
    var a, b, c := LineEnd(format), Members(v, 0, format, depth + 1), Indent(format, depth) + "}";
    assert "{" + a + b + Indent(format, depth) + "}" == "{" + (a + (b + c));
  }

  lemma MembersStart(v: Value, i: nat, format: bool, depth: nat)
    requires v.Obj? && i < |v.members|
    ensures Members(v, i, format, depth) ==
              Indent(format, depth)
                  + (Quote(v.members[i].key) + (Colon(format) + (Print(v.members[i].value, format, depth)
              + ((if i + 1 < |v.members| then "," else "") + (LineEnd(format) + Members(v, i + 1, format, depth))))))
  {
    hide Print, Quote, Indent;
    var a, b, c, e := Indent(format, depth), Quote(v.members[i].key), Colon(format),
        Print(v.members[i].value, format, depth);
    var f, g, h := if i + 1 < |v.members| then "," else "", LineEnd(format), Members(v, i + 1, format, depth);
    assert a + b + c + e + f + g + h == a + (b + (c + (e + (f + (g + h)))));
  }

  lemma NoMembers(v: Value, format: bool, depth: nat)
    requires v.Obj?
    ensures Members(v, |v.members|, format, depth) == ""
  {
  }

  lemma {:induction false} ObjectValue(s: string, p: nat, v: Value, format: bool, depth: nat, d: nat)
    requires v.Obj? && Lies(s, p, Print(v, format, depth)) && Readable(v, d)
    ensures ParseValue(s, p, d) == Some((v, p + |Print(v, format, depth)|))
    decreases v, Length(v) + 1
  {
    hide ParseValue, ParseMembers, Members, Print, Lies, SkipSpace, Readable, Indent, LineEnd, Blank;
    ObjectLies(s, p, v, format, depth);
    var w := Indent(format, depth);
    var q := p + 1 + |LineEnd(format)|;
    ReadableDepth(v, d);
    ParsesObject(s, p, d);
    if v.members == [] {
      NoMembers(v, format, depth + 1);
      EmptyObject(v);
      ToBrace(s, p + 1, format, depth);
    } else {
      MembersBegin(s, p + 1, v, format, depth + 1, w);
      MembersRead(s, q + |Indent(format, depth + 1)|, q, v, 0, format, depth + 1, d, w);
      assert v.members[0..] == v.members;
    }
  }

  lemma ObjectLies(s: string, p: nat, v: Value, format: bool, depth: nat)
    requires v.Obj? && Lies(s, p, Print(v, format, depth))
    ensures var a, t, w := LineEnd(format), Members(v, 0, format, depth + 1), Indent(format, depth);
            && p < |s| && s[p] == '{' && Lies(s, p + 1, a) && Lies(s, p + 1 + |a|, t + (w + "}")) && Blank(w)
            && |Print(v, format, depth)| == 1 + |a| + |t| + |w| + 1
            && (v.members == [] ==> Lies(s, p + 1, a + w) && Lies(s, p + 1 + |a + w|, "}"))
  {
    hide Members, Print, Lies, Indent, LineEnd, Blank;
    var a, t, w := LineEnd(format), Members(v, 0, format, depth + 1), Indent(format, depth);
    ObjectParts(v, format, depth);
    IndentBlank(format, depth);
    LiesSplit(s, p, "{", a + (t + (w + "}")));
    CharLies(s, p, '{');
    LiesSplit(s, p + 1, a, t + (w + "}"));
    if v.members == [] {
      NoMembers(v, format, depth + 1);
      assert a + (t + (w + "}")) == (a + w) + "}";
      LiesSplit(s, p + 1, a + w, "}");
    }
  }

  lemma EmptyObject(v: Value)
    requires v.Obj? && v.members == []
    ensures v == Obj([])
  {
  }

  lemma ParsesObject(s: string, p: nat, d: nat)
    requires p < |s| && s[p] == '{' && d < NESTING
    ensures var q := SkipSpace(s, p + 1);
            ParseValue(s, p, d) ==
              if q < |s| && s[q] == '}' then Some((Obj([]), q + 1))
              else match ParseMembers(s, q, d + 1) case None => None case Some(x) => Some((Obj(x.0), x.1))
  {
    hide ParseMembers, SkipSpace;
    OtherWord(s, p, [s[p]]);
  }

  lemma ToBrace(s: string, p: nat, format: bool, depth: nat)
    requires Lies(s, p, LineEnd(format) + Indent(format, depth))
             && Lies(s, p + |LineEnd(format) + Indent(format, depth)|, "}")
    ensures p <= |s| && SkipSpace(s, p) == p + |LineEnd(format) + Indent(format, depth)| < |s|
    ensures s[p + |LineEnd(format) + Indent(format, depth)|] == '}'
  {
    hide SkipSpace, Lies, Tabs;
    var w := LineEnd(format) + Indent(format, depth);
    IndentBlank(format, depth);
    CharLies(s, p + |w|, '}');
    SkipBlank(s, p, w);
  }

  /** After the bracket and the line end, the first quote follows. */
  lemma MembersBegin(s: string, p: nat, v: Value, format: bool, depth: nat, w: string)
    requires v.Obj? && v.members != [] && Lies(s, p, LineEnd(format))
    requires Lies(s, p + |LineEnd(format)|, Members(v, 0, format, depth) + (w + "}"))
    ensures var q := p + |LineEnd(format)| + |Indent(format, depth)|;
            p <= |s| && q < |s| && s[q] == '"' && SkipSpace(s, p) == q && SkipSpace(s, q) == q
  {
    AtQuote(s, p, v, 0, format, depth, w);
    NoSpace(s, p + |LineEnd(format)| + |Indent(format, depth)|);
  }

  /** The line end and the indentation in front of a member are skipped. */
  lemma AtQuote(s: string, p: nat, v: Value, i: nat, format: bool, depth: nat, w: string)
    requires v.Obj? && i < |v.members| && Lies(s, p, LineEnd(format))
    requires Lies(s, p + |LineEnd(format)|, Members(v, i, format, depth) + (w + "}"))
    ensures var q := p + |LineEnd(format)| + |Indent(format, depth)|;
            p <= |s| && q < |s| && s[q] == '"' && SkipSpace(s, p) == q
  {
    hide Members, Lies, SkipSpace, Tabs, Quote, Blank;
    var a, b := LineEnd(format), Indent(format, depth);
    var q := p + |a| + |b|;
    MembersStart(v, i, format, depth);
    var m := Members(v, i, format, depth);
    QuoteFirst(v.members[i].key);
    assert m + (w + "}") == b + (m[|b|..] + (w + "}"));
    LiesSplit(s, p + |a|, b, m[|b|..] + (w + "}"));
    LiesAt(s, q, m[|b|..] + (w + "}"), 0);
    LiesRange(s, q, m[|b|..] + (w + "}"));
    LiesRange(s, p, a);
    LiesJoin(s, p, a, b);
    BothBlank(format, depth);
    SkipBlank(s, p, a + b);
  }

  lemma BothBlank(format: bool, depth: nat)
    ensures Blank(LineEnd(format) + Indent(format, depth))
  {
    hide Tabs;
    IndentBlank(format, depth);
  }

  lemma LiesJoin(s: string, p: nat, a: string, b: string)
    requires Lies(s, p, a) && Lies(s, p + |a|, b)
    ensures Lies(s, p, a + b)
  {
    assert s[p..p + |a + b|] == s[p..p + |a|] + s[p + |a|..p + |a| + |b|];
  }

  lemma QuoteFirst(x: string)
    ensures Quote(x) != [] && Quote(x)[0] == '"'
  {
    hide Escape;
  }

  /** Name, colon and value of a printed member are read back. */
  lemma {:induction false} MemberRead(s: string, p: nat, q: nat, m: Member, format: bool, depth: nat, d: nat)
    requires p <= |s| && SkipSpace(s, p) == q && NUL !in m.key
    requires Lies(s, q, Quote(m.key)) && Lies(s, q + |Quote(m.key)|, Colon(format))
    requires var r := q + |Quote(m.key)| + |Colon(format)|;
             Lies(s, r, Print(m.value, format, depth))
                 && ParseValue(s, r, d) == Some((m.value, r + |Print(m.value, format, depth)|))
    ensures ParseMember(s, p, d) == Some((m, q + |Quote(m.key)| + |Colon(format)| + |Print(m.value, format, depth)|))
  {
    hide ParseValue, ParseString, Print, Lies, SkipSpace, Quote;
    QuoteRead(s, q, m.key);
    ColonRead(s, q + |Quote(m.key)|, m.value, format, depth);
  }

  /** What comes after a printed member does not go on a number, and what is skipped up to the comma or bracket. */
  lemma AfterMember(s: string, p: nat, last: bool, format: bool, w: string, rest: string)
    requires Lies(s, p, (if last then "" else ",") + (LineEnd(format) + rest)) && Blank(w) && (last ==> rest == w + "}")
    ensures Delimited(s, p) && p < |s|
    ensures var q := if last then p + |LineEnd(format)| + |w| else p;
            SkipSpace(s, p) == q < |s| && s[q] == if last then '}' else ','
  {
    hide Lies, SkipSpace;
    LiesRange(s, p, (if last then "" else ",") + (LineEnd(format) + rest));
    if last {
      var b := LineEnd(format) + w;
      assert "" + (LineEnd(format) + rest) == b + "}";
      LiesAt(s, p, b + "}", 0);
      LiesSplit(s, p, b, "}");
      CharLies(s, p + |b|, '}');
      SkipBlank(s, p, b);
    } else {
      LiesAt(s, p, "," + (LineEnd(format) + rest), 0);
      NoSpace(s, p);
    }
  }

  /** The text behind a printed member. */
  function Rest(v: Value, i: nat, format: bool, depth: nat, w: string): string
    requires v.Obj? && i < |v.members|
  {
    (if i + 1 == |v.members| then "" else ",") + (LineEnd(format) + (Members(v, i + 1, format, depth) + (w + "}")))
  }

  /** The text of a member, part by part. */
  lemma MemberParts(s: string, start: nat, v: Value, i: nat, format: bool, depth: nat, w: string)
    requires v.Obj? && i < |v.members| && Lies(s, start, Members(v, i, format, depth) + (w + "}"))
    ensures var m := v.members[i];
            var q := start + |Indent(format, depth)|;
            var k := q + |Quote(m.key)|;
            var r := k + |Colon(format)|;
            var e := r + |Print(m.value, format, depth)|;
            Lies(s, q, Quote(m.key)) && Lies(s, k, Colon(format)) && Lies(s, r, Print(m.value, format, depth))
                && Lies(s, e, Rest(v, i, format, depth, w))
            && start + |Members(v, i, format, depth)| + |w| + 1 == e + |Rest(v, i, format, depth, w)|
  {
    hide Members, Print, Lies, Quote, Colon, Indent, LineEnd;
    MembersStart(v, i, format, depth);
    var m := v.members[i];
    var a, b, c, t := Indent(format, depth), Quote(m.key), Colon(format), Print(m.value, format, depth);
    var x := Rest(v, i, format, depth, w);
    assert Members(v, i, format, depth) + (w + "}") == a + (b + (c + (t + x)));
    LiesSplit(s, start, a, b + (c + (t + x)));
    LiesSplit(s, start + |a|, b, c + (t + x));
    LiesSplit(s, start + |a| + |b|, c, t + x);
    LiesSplit(s, start + |a| + |b| + |c|, t, x);
  }

  /** Where the value of member i begins. */
  function ValueAt(start: nat, v: Value, i: nat, format: bool, depth: nat): nat
    requires v.Obj? && i < |v.members|
  {
    start + |Indent(format, depth)| + |Quote(v.members[i].key)| + |Colon(format)|
  }

  lemma ValueLies(s: string, start: nat, v: Value, i: nat, format: bool, depth: nat, w: string)
    requires v.Obj? && i < |v.members| && Blank(w) && Lies(s, start, Members(v, i, format, depth) + (w + "}"))
    ensures var r := ValueAt(start, v, i, format, depth);
            Lies(s, r, Print(v.members[i].value, format, depth))
                && Delimited(s, r + |Print(v.members[i].value, format, depth)|)
  {
    hide Members, Print, Lies, Blank, Quote, Colon, Indent, LineEnd, Delimited;
    MemberParts(s, start, v, i, format, depth, w);
    if i + 1 == |v.members| {
      NoMembers(v, format, depth);
      assert Members(v, i + 1, format, depth) + (w + "}") == w + "}";
    }
    AfterMember(s, ValueAt(start, v, i, format, depth) + |Print(v.members[i].value, format, depth)|,
        i + 1 == |v.members|, format, w,
                Members(v, i + 1, format, depth) + (w + "}"));
  }

  /** The member at place i, once its value has been read, and what follows it. */
  lemma MemberHere(s: string, p: nat, start: nat, v: Value, i: nat, format: bool, depth: nat, d: nat, w: string, e: nat)
    requires v.Obj? && i < |v.members| && Blank(w) && NUL !in v.members[i].key
    requires p <= |s| && SkipSpace(s, p) == start + |Indent(format, depth)|
    requires Lies(s, start, Members(v, i, format, depth) + (w + "}"))
    requires e == ValueAt(start, v, i, format, depth) + |Print(v.members[i].value, format, depth)|
    requires ParseValue(s, ValueAt(start, v, i, format, depth), d) == Some((v.members[i].value, e))
    ensures ParseMember(s, p, d) == Some((v.members[i], e)) && e < |s|
    ensures i + 1 == |v.members| ==>
              SkipSpace(s, e) == start + |Members(v, i, format, depth)| + |w| < |s| && s[SkipSpace(s, e)] == '}'
    ensures i + 1 < |v.members| ==>
              && SkipSpace(s, e) == e && s[e] == ','
              && SkipSpace(s, e + 1) == e + 1 + |LineEnd(format)| + |Indent(format, depth)|
              && Lies(s, e + 1 + |LineEnd(format)|, Members(v, i + 1, format, depth) + (w + "}"))
              && start + |Members(v, i, format, depth)| == e + 1 + |LineEnd(format)|
              + |Members(v, i + 1, format, depth)|
  {
    hide ParseMember, ParseValue, Members, Print, Lies, SkipSpace, Blank, Quote, Colon, Indent, LineEnd, Delimited;
    MemberParts(s, start, v, i, format, depth, w);
    MemberRead(s, p, start + |Indent(format, depth)|, v.members[i], format, depth, d);
    var rest := Members(v, i + 1, format, depth) + (w + "}");
    if i + 1 == |v.members| {
      NoMembers(v, format, depth);
      assert rest == w + "}";
      AfterMember(s, e, true, format, w, rest);
    } else {
      AfterMember(s, e, false, format, w, rest);
      LiesSplit(s, e, ",", LineEnd(format) + rest);
      LiesSplit(s, e + 1, LineEnd(format), rest);
      AtQuote(s, e + 1, v, i + 1, format, depth, w);
    }
  }

  /** Printed members are read back, with the bracket that ends them. */
  lemma {:induction false} MembersRead(s: string, p: nat, start: nat, v: Value, i: nat, format: bool, depth: nat,
      d: nat, w: string)
    requires v.Obj? && i < |v.members| && Readable(v, d) && d < NESTING && Blank(w)
    requires p <= |s| && SkipSpace(s, p) == start + |Indent(format, depth)|
    requires Lies(s, start, Members(v, i, format, depth) + (w + "}"))
    ensures ParseMembers(s, p, d + 1) == Some((v.members[i..], start + |Members(v, i, format, depth)| + |w| + 1))
    decreases v, |v.members| - i
  {
    hide ParseMember, ParseValue, Members, Print, Lies, SkipSpace, Readable, Blank, Quote, Colon, Indent, LineEnd,
         Delimited, Plain, Within, ValueAt;
    MemberReadable(v, i, d);
    var m, r := v.members[i], ValueAt(start, v, i, format, depth);
    var e := r + |Print(m.value, format, depth)|;
    ValueLies(s, start, v, i, format, depth, w);
    ValueRead(s, r, m.value, format, depth, d + 1);
    MemberHere(s, p, start, v, i, format, depth, d + 1, w, e);
    if i + 1 == |v.members| {
      assert [m] == v.members[i..];
    } else {
      MembersRead(s, e + 1, e + 1 + |LineEnd(format)|, v, i + 1, format, depth, d, w);
      assert [m] + v.members[i + 1..] == v.members[i..];
    }
  }

  // ---- nested too deep

  /** A printed value that is nested too deep is not read back. */
  lemma {:induction false} TooDeep(s: string, p: nat, v: Value, format: bool, depth: nat, d: nat)
    requires Lies(s, p, Print(v, format, depth)) && Plain(v) && d <= NESTING && !Within(v, NESTING - d)
    requires Delimited(s, p + |Print(v, format, depth)|)
    ensures p <= |s| && ParseValue(s, p, d) == None
    decreases v, Length(v) + 2
  {
    hide ParseValue, ParseItems, ParseMembers, Items, Members, Lies, SkipSpace, Tabs, Plain, Readable, Quote, Digits,
         Indent, LineEnd, Within, Print;
    NotLeaf(v, NESTING - d);
    if v.Arr? {
      assert Print(v, format, depth) == "["
             + (Items(v, 0, format, depth + 1) + "]") by { ArrayParts(v, format, depth); }
      LiesSplit(s, p, "[", Items(v, 0, format, depth + 1) + "]");
      CharLies(s, p, '[');
      if d == NESTING {
        NotNested(s, p, d);
      } else {
        ParsesArray(s, p, d);
        LevelDown(v, d);
        ItemsAhead(s, p + 1, v, 0, format, depth + 1);
        ItemsTooDeep(s, p + 1, p + 1, v, 0, format, depth + 1, d);
      }
    } else {
      ObjectLies(s, p, v, format, depth);
      if d == NESTING {
        NotNested(s, p, d);
      } else {
        ParsesObject(s, p, d);
        LevelDown(v, d);
        var w, q := Indent(format, depth), p + 1 + |LineEnd(format)|;
        MembersBegin(s, p + 1, v, format, depth + 1, w);
        MembersTooDeep(s, q + |Indent(format, depth + 1)|, q, v, 0, format, depth + 1, d, w);
      }
    }
  }

  lemma ArrayParts(v: Value, format: bool, depth: nat)
    requires v.Arr?
    ensures Print(v, format, depth) == "[" + (Items(v, 0, format, depth + 1) + "]")
  {
    hide Items;
  }

  lemma NotLeaf(v: Value, levels: nat)
    requires !Within(v, levels)
    ensures v.Arr? || v.Obj?
  {
  }

  lemma NotNested(s: string, p: nat, d: nat)
    requires p < |s| && (s[p] == '[' || s[p] == '{') && d == NESTING
    ensures ParseValue(s, p, d) == None
  {
    OtherWord(s, p, [s[p]]);
  }

  /** Some element or member from place i on is nested too deep, and the texts of all are plain. */
  ghost predicate DeepFrom(v: Value, i: nat, d: nat)
    requires d < NESTING
  {
    match v
    case Arr(items) =>
      (forall j :: 0 <= j < |items| ==> Plain(items[j])) && exists j ::
            i <= j < |items| && !Within(items[j], NESTING - d - 1)
    case Obj(ms) =>
      (forall j :: 0 <= j < |ms| ==> NUL !in ms[j].key && Plain(ms[j].value)) && exists j ::
            i <= j < |ms| && !Within(ms[j].value, NESTING - d - 1)
    case _ => false
  }

  lemma LevelDown(v: Value, d: nat)
    requires Plain(v) && d < NESTING && !Within(v, NESTING - d)
    ensures DeepFrom(v, 0, d) && (v.Arr? ==> v.items != []) && (v.Obj? ==> v.members != [])
  {
  }

  lemma DeepNext(v: Value, i: nat, d: nat)
    requires d < NESTING && DeepFrom(v, i, d)
    ensures v.Arr? ==>
              i < |v.items| && Plain(v.items[i])
              && (Within(v.items[i], NESTING - d - 1) ==> DeepFrom(v, i + 1, d) && i + 1 < |v.items|)
    ensures v.Obj? ==> i < |v.members| && Plain(v.members[i].value) && NUL !in v.members[i].key
                       && (Within(v.members[i].value, NESTING - d - 1) ==> DeepFrom(v, i + 1, d) && i + 1 < |v.members|)
  {
  }

  lemma {:induction false} ItemsTooDeep(s: string, p: nat, q: nat, v: Value, i: nat, format: bool, depth: nat, d: nat)
    requires v.Arr? && i < |v.items| && d < NESTING && DeepFrom(v, i, d)
    requires p <= |s| && SkipSpace(s, p) == q && Lies(s, q, Items(v, i, format, depth) + "]")
    ensures ParseItems(s, p, d + 1) == None
    decreases v, |v.items| - i
  {
    hide ParseValue, Items, Print, Lies, SkipSpace, DeepFrom, Comma, Plain, Within, Delimited;
    DeepNext(v, i, d);
    ItemParts(s, q, v, i, format, depth);
    var x := v.items[i];
    if Within(x, NESTING - d - 1) {
      var r := q + |Print(x, format, depth)|;
      ValueRead(s, q, x, format, depth, d + 1);
      NextItem(s, r, v, i + 1, format, depth);
      ItemsTooDeep(s, r + 1, r + |Comma(format)|, v, i + 1, format, depth, d);
    } else {
      TooDeep(s, q, x, format, depth, d + 1);
    }
  }

  lemma {:induction false} MembersTooDeep(s: string, p: nat, start: nat, v: Value, i: nat, format: bool, depth: nat,
      d: nat, w: string)
    requires v.Obj? && i < |v.members| && d < NESTING && DeepFrom(v, i, d) && Blank(w)
    requires p <= |s| && SkipSpace(s, p) == start + |Indent(format, depth)|
    requires Lies(s, start, Members(v, i, format, depth) + (w + "}"))
    ensures ParseMembers(s, p, d + 1) == None
    decreases v, |v.members| - i
  {
    hide ParseMember, ParseValue, Members, Print, Lies, SkipSpace, DeepFrom, Blank, Quote, Colon, Indent, LineEnd,
         Delimited, Plain, Within, ValueAt;
    DeepNext(v, i, d);
    var m, r := v.members[i], ValueAt(start, v, i, format, depth);
    var e := r + |Print(m.value, format, depth)|;
    ValueLies(s, start, v, i, format, depth, w);
    if Within(m.value, NESTING - d - 1) {
      ValueRead(s, r, m.value, format, depth, d + 1);
      MemberHere(s, p, start, v, i, format, depth, d + 1, w, e);
      MembersTooDeep(s, e + 1, e + 1 + |LineEnd(format)|, v, i + 1, format, depth, d, w);
    } else {
      TooDeep(s, r, m.value, format, depth, d + 1);
      ValueFails(s, p, start, v, i, format, depth, d + 1, w);
    }
  }

  lemma ValueFails(s: string, p: nat, start: nat, v: Value, i: nat, format: bool, depth: nat, d: nat, w: string)
    requires v.Obj? && i < |v.members| && Blank(w) && NUL !in v.members[i].key
    requires p <= |s| && SkipSpace(s, p) == start + |Indent(format, depth)|
    requires Lies(s, start, Members(v, i, format, depth) + (w + "}"))
    requires ValueAt(start, v, i, format, depth) <= |s| && ParseValue(s, ValueAt(start, v, i, format, depth), d) == None
    ensures ParseMember(s, p, d) == None
  {
    hide ParseMember, ParseValue, Members, Print, Lies, SkipSpace, Blank, Quote, Colon, Indent, LineEnd;
    MemberParts(s, start, v, i, format, depth, w);
    MemberFails(s, p, start + |Indent(format, depth)|, v.members[i], format, depth, d);
  }

  lemma MemberFails(s: string, p: nat, q: nat, m: Member, format: bool, depth: nat, d: nat)
    requires p <= |s| && SkipSpace(s, p) == q && NUL !in m.key
    requires Lies(s, q, Quote(m.key)) && Lies(s, q + |Quote(m.key)|, Colon(format))
    requires var r := q + |Quote(m.key)| + |Colon(format)|;
             Lies(s, r, Print(m.value, format, depth)) && ParseValue(s, r, d) == None
    ensures ParseMember(s, p, d) == None
  {
    hide ParseValue, ParseString, Print, Lies, SkipSpace, Quote;
    QuoteRead(s, q, m.key);
    ColonRead(s, q + |Quote(m.key)|, m.value, format, depth);
  }

  /** After the colon, the tab of the formatted text is skipped. */
  lemma ColonRead(s: string, c: nat, v: Value, format: bool, depth: nat)
    requires Lies(s, c, Colon(format)) && Lies(s, c + |Colon(format)|, Print(v, format, depth))
    ensures c < |s| && s[c] == ':' && SkipSpace(s, c) == c && SkipSpace(s, c + 1) == c + |Colon(format)|
  {
    hide Print, Lies, SkipSpace;
    var w := if format then "\t" else "";
    assert Colon(format) == ":" + w;
    LiesAt(s, c, Colon(format), 0);
    LiesRange(s, c, Colon(format));
    NoSpace(s, c);
    PrintedFirst(s, c + |Colon(format)|, v, format, depth);
    LiesSplit(s, c, ":", w);
    SkipBlank(s, c + 1, w);
  }

  // ---- whole texts

  /** Printing and parsing gives the value back exactly where the parser's nesting limit is kept: formatted
      or not, with or without the terminator in the length, and whether the terminator is asked for or not. */
  lemma PrintThenParse(v: Value, format: bool, terminated: bool, strict: bool)
    requires Plain(v) && (strict ==> terminated)
    ensures var t := Print(v, format, 0);
            ParseText(t + (if terminated then [NUL] else []), strict) == if Within(v, NESTING) then Some((v, |t|))
                else None
  {
    hide Print, ParseValue, Within, Plain;
    var t := Print(v, format, 0);
    var s := t + if terminated then [NUL] else [];
    assert s[0..|t|] == t;
    FirstChar(v, format, 0);
    NoBom(s, v, format);
    assert s[0] == t[0];
    NoSpace(s, 0);
    if Within(v, NESTING) {
      ValueRead(s, 0, v, format, 0, 0);
      if terminated {
        assert s[|t|] == NUL;
        assert PastSpace(s, |t| + 1) == |s|;
        assert PastSpace(s, |t|) == |s|;
      }
    } else {
      TooDeep(s, 0, v, format, 0, 0);
    }
  }

  lemma NoBom(s: string, v: Value, format: bool)
    requires Print(v, format, 0) <= s && Print(v, format, 0) != []
    ensures Bom(s) == 0
  {
    hide Items, Members, Escape, Tabs, Digits;
    match v
    case Num(n) =>
      DigitsAre(if n < 0 then -n else n);
      assert IntText(n)[0] == '-' || IntText(n)[0] in Digits(n);
    case _ =>
  }
}
