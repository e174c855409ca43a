/** JSON text (RFC 8259): what the printer writes for a value, and what the parser makes of any text. */
module JsonText {
  import opened Decimals

  datatype Value =
    | Null
    | Bool(b: bool)
    | Num(n: int)
    | Str(s: string)
    | Arr(items: seq<Value>)
    | Obj(members: seq<Member>)

  datatype Member = Member(key: string, value: Value)

  datatype Option<T> = None | Some(value: T)

  const NUL: char := '\0'

  const INT_MAX := 0x7FFF_FFFF
  const INT_MIN := -0x8000_0000

  /** CJSON_NESTING_LIMIT */
  const NESTING := 1000

  // ---- strings

  function HexDigit(d: nat): char
    requires d < 16
  {
    if d < 10 then '0' + d as char else 'a' + (d - 10) as char
  }

  /** One character as print_string_ptr writes it. */
  function EscapeChar(c: char): string {
    if c == '"' || c == '\\' then ['\\', c]
    else if c as int == 8 then "\\b"
    else if c as int == 12 then "\\f"
    else if c == '\n' then "\\n"
    else if c == '\r' then "\\r"
    else if c == '\t' then "\\t"
    else if c as int < 32 then ['\\', 'u', '0', '0', HexDigit(c as int / 16), HexDigit(c as int % 16)]
    else [c]
  }

  function Escape(s: string): string {
    if s == [] then [] else EscapeChar(s[0]) + Escape(s[1..])
  }

  function Quote(s: string): string {
    "\"" + Escape(s) + "\""
  }

  // ---- printing

  /** "%d" */
  function IntText(n: int): string {
    if n < 0 then "-" + Digits(-n) else Digits(n)
  }

  function Tabs(n: nat): string {
    seq(n, _ => '\t')
  }

  function Length(v: Value): nat {
    match v
    case Arr(items) => |items|
    case Obj(members) => |members|
    case _ => 0
  }

  /** A value as print_value writes it at this nesting depth. */
  function Print(v: Value, format: bool, depth: nat): string
    decreases v, Length(v) + 1
  {
    match v
    case Null => "null"
    case Bool(b) => if b then "true" else "false"
    case Num(n) => IntText(n)
    case Str(s) => Quote(s)
    case Arr(_) => "[" + Items(v, 0, format, depth + 1) + "]"
    case Obj(_) => "{" + LineEnd(format) + Members(v, 0, format, depth + 1) + Indent(format, depth) + "}"
  }

  function LineEnd(format: bool): string { if format then "\n" else "" }

  function Indent(format: bool, depth: nat): string { if format then Tabs(depth) else "" }

  function Comma(format: bool): string { if format then ", " else "," }

  function Colon(format: bool): string { if format then ":\t" else ":" }

  /** The elements from place i on. */
  function Items(v: Value, i: nat, format: bool, depth: nat): string
    requires v.Arr? && i <= |v.items|
    decreases v, |v.items| - i
  {
    if i == |v.items| then ""
    else Print(v.items[i], format, depth) + (if i + 1 < |v.items| then Comma(format) else "") + Items(v, i + 1,
        format, depth)
  }

  /** The members from place i on. */
  function Members(v: Value, i: nat, format: bool, depth: nat): string
    requires v.Obj? && i <= |v.members|
    decreases v, |v.members| - i
  {
    if i == |v.members| then ""
    else
      Indent(format, depth) + Quote(v.members[i].key) + Colon(format) + Print(v.members[i].value, format, depth)
      + (if i + 1 < |v.members| then "," else "") + LineEnd(format) + Members(v, i + 1, format, depth)
  }

  // ---- parsing: spaces, strings

  /** buffer_skip_whitespace. A space at the very end is not passed. */
  function SkipSpace(s: string, p: nat): (r: nat)
    requires p <= |s|
    ensures p <= r <= |s| && (p < |s| ==> r < |s|)
  {
    if p == |s| then p else if PastSpace(s, p) == |s| then |s| - 1 else PastSpace(s, p)
  }

  function PastSpace(s: string, p: nat): (r: nat)
    requires p <= |s|
    ensures p <= r <= |s|
    decreases |s| - p
  {
    if p < |s| && s[p] as int <= 32 then PastSpace(s, p + 1) else p
  }

  /** The place of the quote that ends the string which goes on at p. */
  function StringEnd(s: string, p: nat): (r: Option<nat>)
    ensures r.Some? ==> p <= r.value < |s| && s[r.value] == '"'
    decreases |s| - p
  {
    if p >= |s| then None
    else if s[p] == '"' then Some(p)
    else if s[p] == '\\' then (if p + 1 >= |s| then None else StringEnd(s, p + 2))
    else StringEnd(s, p + 1)
  }

  function HexValue(c: char): (r: Option<nat>)
    ensures r.Some? ==> r.value < 16
  {
    if '0' <= c <= '9' then Some((c - '0') as nat)
    else if 'A' <= c <= 'F' then Some(10 + (c - 'A') as nat)
    else if 'a' <= c <= 'f' then Some(10 + (c - 'a') as nat)
    else None
  }

  /** parse_hex4: 0 where a digit is missing. */
  function Hex4(s: string, p: nat): (r: nat)
    requires p + 4 <= |s|
    ensures r < 0x10000
  {
    match (HexValue(s[p]), HexValue(s[p + 1]), HexValue(s[p + 2]), HexValue(s[p + 3]))
    case (Some(a), Some(b), Some(c), Some(d)) => 4096 * a + 256 * b + 16 * c + d
    case _ => 0
  }

  /** A code point in UTF-8. */
  function Utf8(code: nat): (r: string)
    requires code < 0x110000
    ensures 1 <= |r| <= 4
  {
    if code < 0x80 then [code as char]
    else if code < 0x800 then [(0xC0 + code / 64) as char, Tail(code)]
    else if code < 0x10000 then [(0xE0 + code / 4096) as char, Tail(code / 64), Tail(code)]
    else [(0xF0 + code / 262144) as char, Tail(code / 4096), Tail(code / 64), Tail(code)]
  }

  function Tail(code: nat): char {
    (0x80 + code % 64) as char
  }

  /** utf16_literal_to_utf8 at p: the bytes written and the number of characters read. */
  function Literal(s: string, p: nat, end: nat): (r: Option<(string, nat)>)
    requires p <= end <= |s|
    ensures r.Some? ==> 6 <= r.value.1 && p + r.value.1 <= end
  {
    if end - p < 6 then None
    else
      var first := Hex4(s, p + 2);
      if 0xDC00 <= first <= 0xDFFF then None
      else if 0xD800 <= first <= 0xDBFF then
        if end - p < 12 || s[p + 6] != '\\' || s[p + 7] != 'u' then None
        else
          var second := Hex4(s, p + 8);
          if second < 0xDC00 || second > 0xDFFF then None
          else Some((Utf8(0x10000 + (first - 0xD800) * 1024 + (second - 0xDC00)), 12))
      else Some((Utf8(first), 6))
  }

  /** The character that a backslash and c stand for. */
  function Escaped(c: char): Option<char> {
    if c == 'b' then Some(8 as char)
    else if c == 'f' then Some(12 as char)
    else if c == 'n' then Some('\n')
    else if c == 'r' then Some('\r')
    else if c == 't' then Some('\t')
    else if c == '"' || c == '\\' || c == '/' then Some(c)
    else None
  }

  function Before(x: string, r: Option<string>): Option<string> {
    if r.Some? then Some(x + r.value) else None
  }

  /** The second loop of parse_string. */
  function Unescape(s: string, p: nat, end: nat): Option<string>
    requires end < |s|
    decreases end - p
  {
    if p >= end then Some("")
    else if s[p] != '\\' then Before([s[p]], Unescape(s, p + 1, end))
    else if s[p + 1] == 'u' then
      match Literal(s, p, end)
      case None => None
      case Some(l) => Before(l.0, Unescape(s, p + l.1, end))
    else
      match Escaped(s[p + 1])
      case None => None
      case Some(c) => Before([c], Unescape(s, p + 2, end))
  }

  /** What is left of the bytes as a C string. */
  function CString(s: string): string {
    if s == [] || s[0] == NUL then [] else [s[0]] + CString(s[1..])
  }

  /** parse_string: the string and where the text goes on. */
  function ParseString(s: string, p: nat): (r: Option<(string, nat)>)
    ensures r.Some? ==> p < r.value.1 <= |s|
  {
    if p >= |s| || s[p] != '"' then None
    else
      match StringEnd(s, p + 1)
      case None => None
      case Some(end) =>
        match Unescape(s, p + 1, end)
        case None => None
        case Some(out) => Some((CString(out), end + 1))
  }

  // ---- parsing: numbers

  predicate IsDigit(c: char) {
    '0' <= c <= '9'
  }

  predicate NumberChar(c: char) {
    IsDigit(c) || c == '+' || c == '-' || c == 'e' || c == 'E' || c == '.'
  }

  /** The characters copied for strtod, at most 63. */
  function NumberRun(s: string, p: nat, left: nat): (n: nat)
    requires p <= |s|
    ensures n <= left && p + n <= |s|
    decreases left
  {
    if left == 0 || p == |s| || !NumberChar(s[p]) then 0 else 1 + NumberRun(s, p + 1, left - 1)
  }

  /** The end of the digits that begin at p. */
  function DigitsEnd(t: string, p: nat): (r: nat)
    requires p <= |t|
    ensures p <= r <= |t|
    decreases |t| - p
  {
    if p < |t| && IsDigit(t[p]) then DigitsEnd(t, p + 1) else p
  }

  function NatOf(t: string): nat {
    if t == [] then 0 else 10 * NatOf(t[..|t| - 1]) + (if IsDigit(t[|t| - 1]) then (t[|t| - 1] - '0') as nat else 0)
  }

  function Pow10(n: nat): (r: real)
    ensures r > 0.0
  {
    if n == 0 then 1.0 else 10.0 * Pow10(n - 1)
  }

  /** The number of these digits, some of them behind the point, with a sign and an exponent. */
  function Assembled(digits: string, places: nat, minus: bool, up: bool, e: nat): real {
    var size := NatOf(digits) as real / Pow10(places);
    var value := if minus then -size else size;
    if up then value * Pow10(e) else value / Pow10(e)
  }

  /** strtod without rounding: how many characters it takes, 0 if it finds no number, and the value. */
  function Strtod(t: string): (r: (nat, real))
    ensures r.0 <= |t|
  {
    var start := if t != [] && (t[0] == '-' || t[0] == '+') then 1 else 0;
    var whole := DigitsEnd(t, start);
    var point := whole < |t| && t[whole] == '.';
    var end := if point then DigitsEnd(t, whole + 1) else whole;
    var count := whole - start + if point then end - whole - 1 else 0;
    if count == 0 then (0, 0.0)
    else
      var digits := t[start..whole] + if point then t[whole + 1..end] else "";
      var (last, up, e) := Exponent(t, end);
      (last, Assembled(digits, |digits| - (whole - start), t[0] == '-', up, e))
  }

  /** The exponent part, if there is one: where it ends, whether it is not negative, and its size. */
  function Exponent(t: string, p: nat): (r: (nat, bool, nat))
    requires p <= |t|
    ensures p <= r.0 <= |t|
  {
    if p < |t| && (t[p] == 'e' || t[p] == 'E') then
      var from := if p + 1 < |t| && (t[p + 1] == '-' || t[p + 1] == '+') then p + 2 else p + 1;
      var to := DigitsEnd(t, from);
      if to == from then (p, true, 0) else (to, t[p + 1] != '-', NatOf(t[from..to]))
    else (p, true, 0)
  }

  /** valueint: rounded towards zero, with saturation. */
  function IntOf(x: real): int {
    if x >= INT_MAX as real then INT_MAX
    else if x <= INT_MIN as real then INT_MIN
    else if x >= 0.0 then x.Floor else -((-x).Floor)
  }

  function ParseNumber(s: string, p: nat): (r: Option<(int, nat)>)
    requires p <= |s|
    ensures r.Some? ==> p < r.value.1 <= |s|
  {
    var t := s[p..p + NumberRun(s, p, 63)];
    var (n, x) := Strtod(t);
    if n == 0 then None else Some((IntOf(x), p + n))
  }

  // ---- parsing: values

  predicate Lies(s: string, p: nat, t: string) {
    p + |t| <= |s| && s[p..p + |t|] == t
  }

  /** parse_value */
  function ParseValue(s: string, p: nat, depth: nat): (r: Option<(Value, nat)>)
    requires p <= |s|
    ensures r.Some? ==> p < r.value.1 <= |s|
    decreases |s| - p, 1
  {
    if Lies(s, p, "null") then Some((Null, p + 4))
    else if Lies(s, p, "false") then Some((Bool(false), p + 5))
    else if Lies(s, p, "true") then Some((Bool(true), p + 4))
    else if p == |s| then None
    else if s[p] == '"' then
      match ParseString(s, p)
      case None => None
      case Some(x) => Some((Str(x.0), x.1))
    else if s[p] == '-' || IsDigit(s[p]) then
      match ParseNumber(s, p)
      case None => None
      case Some(x) => Some((Num(x.0), x.1))
    else if s[p] == '[' then
      if depth >= NESTING then None
      else
        var q := SkipSpace(s, p + 1);
        if q < |s| && s[q] == ']' then Some((Arr([]), q + 1))
        else
          match ParseItems(s, q, depth + 1)
          case None => None
          case Some(x) => Some((Arr(x.0), x.1))
    else if s[p] == '{' then
      if depth >= NESTING then None
      else
        var q := SkipSpace(s, p + 1);
        if q < |s| && s[q] == '}' then Some((Obj([]), q + 1))
        else
          match ParseMembers(s, q, depth + 1)
          case None => None
          case Some(x) => Some((Obj(x.0), x.1))
    else None
  }

  /** The rest of an array, from in front of an element on. */
  function ParseItems(s: string, p: nat, depth: nat): (r: Option<(seq<Value>, nat)>)
    requires p <= |s|
    ensures r.Some? ==> p < r.value.1 <= |s|
    decreases |s| - p, 2
  {
    match ParseValue(s, SkipSpace(s, p), depth)
    case None => None
    case Some(x) =>
      var q := SkipSpace(s, x.1);
      if q < |s| && s[q] == ',' then
        (match ParseItems(s, q + 1, depth)
         case None => None
         case Some(y) => Some(([x.0] + y.0, y.1)))
      else if q < |s| && s[q] == ']' then Some(([x.0], q + 1))
      else None
  }

  /** The rest of an object, from in front of a member on. */
  function ParseMembers(s: string, p: nat, depth: nat): (r: Option<(seq<Member>, nat)>)
    requires p <= |s|
    ensures r.Some? ==> p < r.value.1 <= |s|
    decreases |s| - p, 2
  {
    match ParseMember(s, p, depth)
    case None => None
    case Some(x) =>
      var q := SkipSpace(s, x.1);
      if q < |s| && s[q] == ',' then
        (match ParseMembers(s, q + 1, depth)
         case None => None
         case Some(y) => Some(([x.0] + y.0, y.1)))
      else if q < |s| && s[q] == '}' then Some(([x.0], q + 1))
      else None
  }

  /** Name, colon and value. */
  function ParseMember(s: string, p: nat, depth: nat): (r: Option<(Member, nat)>)
    requires p <= |s|
    ensures r.Some? ==> p < r.value.1 <= |s|
    decreases |s| - p, 1
  {
    match ParseString(s, SkipSpace(s, p))
    case None => None
    case Some(k) =>
      var q := SkipSpace(s, k.1);
      if q < |s| && s[q] == ':' then
        match ParseValue(s, SkipSpace(s, q + 1), depth)
        case None => None
        case Some(x) => Some((Member(k.0, x.0), x.1))
      else None
  }

  /** skip_utf8_bom */
  function Bom(s: string): (r: nat)
    ensures r <= |s|
  {
    if 4 < |s| && s[0] == 0xEF as char && s[1] == 0xBB as char && s[2] == 0xBF as char then 3 else 0
  }

  /** cJSON_ParseWithLengthOpts: the value and where parsing ended. */
  function ParseText(s: string, strict: bool): Option<(Value, nat)> {
    if s == [] then None
    else
      match ParseValue(s, SkipSpace(s, Bom(s)), 0)
      case None => None
      case Some(x) =>
        if !strict then Some(x)
        else
          var q := SkipSpace(s, x.1);
          if q < |s| && s[q] == NUL then Some((x.0, q)) else None
  }
}
