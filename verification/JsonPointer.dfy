/** JSON Pointer (sections 3 and 4 of RFC 6901): building the pointer of an item and finding the item
    of a pointer. Strings are C strings, so they hold no NUL. */
module JsonPointer {
  import opened ChildList
  import opened Decimals

  datatype Option<T> = None | Some(value: T)

  /** size_t has 32 bits. */
  const SIZE := 0x1_0000_0000

  const NUL: char := '\0'

  ghost predicate CString(s: string) {
    NUL !in s
  }

  /** The character at place i; the terminator at the end. */
  function CharAt(s: string, i: nat): char
    requires i <= |s|
  {
    if i < |s| then s[i] else NUL
  }

  // ---- tokens

  function EscapeChar(c: char): string {
    if c == '/' then "~1" else if c == '~' then "~0" else [c]
  }

  /** The reference token that stands for a key. */
  function Escape(s: string): string {
    if s == [] then [] else EscapeChar(s[0]) + Escape(s[1..])
  }

  /** The first reference token: everything up to the next '/'. */
  function Token(t: string): string {
    if t == [] || t[0] == '/' then [] else [t[0]] + Token(t[1..])
  }

  /** Nothing, or the next reference token. */
  predicate Ends(t: string) {
    t == [] || t[0] == '/'
  }

  /** What follows the first reference token. */
  function Skip(t: string): (r: string)
    ensures |r| <= |t| && Ends(r)
  {
    if Ends(t) then t else Skip(t[1..])
  }

  /** tolower */
  function Lower(c: char): char {
    if 'A' <= c <= 'Z' then c + ' ' else c
  }

  predicate SameChar(sensitive: bool, a: char, b: char) {
    if sensitive then a == b else Lower(a) == Lower(b)
  }

  predicate Same(sensitive: bool, a: string, b: string) {
    |a| == |b| && forall i :: 0 <= i < |a| ==> SameChar(sensitive, a[i], b[i])
  }

  lemma SameFirst(sensitive: bool, x: char, a: string, y: char, b: string)
    ensures Same(sensitive, [x] + a, [y] + b) <==> SameChar(sensitive, x, y) && Same(sensitive, a, b)
  {
    var u, v := [x] + a, [y] + b;
    if Same(sensitive, u, v) {
      assert SameChar(sensitive, u[0], v[0]);
      forall i | 0 <= i < |a|
        ensures SameChar(sensitive, a[i], b[i])
      {
        assert SameChar(sensitive, u[i + 1], v[i + 1]);
      }
    }
    if SameChar(sensitive, x, y) && Same(sensitive, a, b) {
      forall i | 0 <= i < |u|
        ensures SameChar(sensitive, u[i], v[i])
      {
        if i > 0 {
          assert SameChar(sensitive, a[i - 1], b[i - 1]);
        }
      }
    }
  }

  lemma SameExact(a: string, b: string)
    ensures Same(true, a, b) <==> a == b
  {
    if Same(true, a, b) {
      forall i | 0 <= i < |a|
        ensures a[i] == b[i]
      {
        assert SameChar(true, a[i], b[i]);
      }
    }
  }

  /** One more character of a token that is no '~' against one more of a key. */
  lemma PlainStep(sensitive: bool, t: string, name: string)
    requires !Ends(t) && t[0] != '~' && name != []
    ensures Same(sensitive, Token(t), Escape(name)) <==>
              SameChar(sensitive, name[0], t[0]) && Same(sensitive, Token(t[1..]), Escape(name[1..]))
  {
    var e := EscapeChar(name[0]) + Escape(name[1..]);
    SameFirst(sensitive, t[0], Token(t[1..]), e[0], e[1..]);
    assert e == [e[0]] + e[1..];
    if name[0] != '/' && name[0] != '~' {
      assert e[1..] == Escape(name[1..]);
    } else {
      assert e[0] == '~';
    }
  }

  /** An escape sequence against one more character of a key. */
  lemma EscapeStep(sensitive: bool, t: string, name: string)
    requires t != [] && t[0] == '~' && name != []
    ensures var good := (CharAt(t, 1) == '0' && name[0] == '~') || (CharAt(t, 1) == '1' && name[0] == '/');
            Same(sensitive, Token(t), Escape(name)) <==> good && Same(sensitive, Token(t[2..]), Escape(name[1..]))
  {
    var rest := Escape(name[1..]);
    var e := EscapeChar(name[0]) + rest;
    SameFirst(sensitive, t[0], Token(t[1..]), e[0], e[1..]);
    assert e == [e[0]] + e[1..];
    if name[0] == '/' || name[0] == '~' {
      var d := e[1];
      assert e[1..] == [d] + rest;
      if Ends(t[1..]) {
        assert Token(t[1..]) == [];
      } else {
        SameFirst(sensitive, t[1], Token(t[2..]), d, rest);
        assert t[1..][1..] == t[2..];
      }
    }
  }

  /** compare_pointers: whether the next token of the pointer stands for this key. */
  method ComparePointers(key: Text, pointer: string, at: nat, sensitive: bool) returns (r: bool)
    requires at <= |pointer| && CString(pointer) && (key.Text? ==> CString(key.chars))
    ensures r <==> key.Text? && Same(sensitive, Token(pointer[at..]), Escape(key.chars))
  {
    if key.NoText? {
      return false;
    }
    var name := key.chars;
    var n: nat, i: nat := 0, at;
    while CharAt(name, n) != NUL && CharAt(pointer, i) != NUL && CharAt(pointer, i) != '/'
      invariant n <= |name| && i <= |pointer|
      invariant Same(sensitive, Token(pointer[at..]), Escape(name)) <==>
                  Same(sensitive, Token(pointer[i..]), Escape(name[n..]))
      decreases |name| - n
    {
      ghost var t, m := pointer[i..], name[n..];
      assert CharAt(t, 1) == CharAt(pointer, i + 1);
      if CharAt(pointer, i) == '~' {
        EscapeStep(sensitive, t, m);
        if (CharAt(pointer, i + 1) != '0' || name[n] != '~') && (CharAt(pointer, i + 1) != '1' || name[n] != '/') {
          return false;
        } else {
          assert t[2..] == pointer[i + 2..];
          i := i + 1;
        }
      } else {
        PlainStep(sensitive, t, m);
        if (!sensitive && Lower(name[n]) != Lower(pointer[i])) || (sensitive && name[n] != pointer[i]) {
          return false;
        }
        assert t[1..] == pointer[i + 1..];
      }
      assert m[1..] == name[n + 1..];
      n, i := n + 1, i + 1;
    }
    BothEnd(sensitive, pointer[i..], name[n..]);
    r := (CharAt(pointer, i) != NUL && CharAt(pointer, i) != '/') == (CharAt(name, n) != NUL);
  }

  lemma BothEnd(sensitive: bool, t: string, name: string)
    requires Ends(t) || name == []
    ensures Same(sensitive, Token(t), Escape(name)) <==> Ends(t) && name == []
  {
  }

  // ---- writing a token

  /** pointer_encoded_length */
  method EncodedLength(source: string) returns (length: nat)
    requires CString(source)
    ensures length == |Escape(source)|
  {
    length := 0;
    var i := 0;
    while CharAt(source, i) != NUL
      invariant i <= |source| && length + |Escape(source[i..])| == |Escape(source)|
      decreases |source| - i
    {
      if source[i] == '~' || source[i] == '/' {
        length := length + 1;
      }
      assert source[i..][1..] == source[i + 1..];
      i, length := i + 1, length + 1;
    }
  }

  /** encode_string_as_pointer */
  method EncodeString(destination: array<char>, from: nat, source: string)
    requires CString(source) && from + |Escape(source)| < destination.Length
    modifies destination
    ensures destination[..from] == old(destination[..from])
    ensures destination[from..from + |Escape(source)|] == Escape(source) && destination[from + |Escape(source)|] == NUL
  {
    hide Escape, EscapeChar;
    ghost var e := Escape(source);
    assert source[0..] == source && e[0..] == e;
    var i: nat, d: nat := 0, from;
    while CharAt(source, i) != NUL
      invariant i <= |source| && from <= d && d - from <= |e| && e[d - from..] == Escape(source[i..])
      invariant forall k :: 0 <= k < from ==> destination[k] == old(destination[k])
      invariant forall k :: from <= k < d ==> destination[k] == e[k - from]
      decreases |source| - i
    {
      EscapeNext(e, d - from, source, i);
      if source[i] == '/' {
        destination[d] := '~';
        destination[d + 1] := '1';
        d := d + 1;
      } else if source[i] == '~' {
        destination[d] := '~';
        destination[d + 1] := '0';
        d := d + 1;
      } else {
        destination[d] := source[i];
      }
      d := d + 1;
      i := i + 1;
    }
    EscapeEmpty(source[i..]);
    destination[d] := NUL;
  }

  lemma EscapeEmpty(s: string)
    ensures s == [] ==> Escape(s) == []
  {
  }

  /** The escape of the next character of the key. */
  lemma EscapeNext(e: string, d: nat, source: string, i: nat)
    requires d <= |e| && i < |source| && e[d..] == Escape(source[i..])
    ensures if source[i] == '/' || source[i] == '~' then
              d + 2 <= |e| && e[d] == '~' && e[d + 1] == (if source[i] == '/' then '1' else '0')
                  && e[d + 2..] == Escape(source[i + 1..])
            else d < |e| && e[d] == source[i] && e[d + 1..] == Escape(source[i + 1..])
  {
    var x := EscapeChar(source[i]);
    assert source[i..][1..] == source[i + 1..];
    assert e[d..] == x + Escape(source[i + 1..]);
    assert |e| - d == |x| + |Escape(source[i + 1..])|;
    assert e[d..][0] == x[0] && e[d..][|x| - 1] == x[|x| - 1];
    assert e[d + |x|..] == e[d..][|x|..];
  }

  // ---- array indices

  /** How many characters at the start are not below '0'. */
  function Run(t: string): (n: nat)
    ensures n <= |t|
  {
    if t == [] || t[0] < '0' then 0 else 1 + Run(t[1..])
  }

  /** The number that the loop makes of these characters, digits or not, in size_t. */
  function Number(s: string): nat {
    if s == [] then 0 else (10 * Number(s[..|s| - 1]) + (s[|s| - 1] as int - '0' as int)) % SIZE
  }

  lemma {:induction false} RunAbove(t: string)
    ensures forall c :: c in t[..Run(t)] ==> c >= '0'
    ensures Run(t) < |t| ==> t[Run(t)] < '0'
  {
    if t != [] && t[0] >= '0' {
      RunAbove(t[1..]);
      assert t[..Run(t)] == [t[0]] + t[1..][..Run(t[1..])];
    }
  }

  /** The characters taken as the index: the loop looks at the first one only to see whether it is above '9'. */
  function IndexLength(t: string): (n: nat)
    ensures n <= |t|
  {
    if t == [] || t[0] > '9' then 0 else Run(t)
  }

  /** decode_array_index_from_pointer */
  function IndexOf(t: string): Option<nat> {
    if t != [] && t[0] == '0' && !Ends(t[1..]) then None
    else if !Ends(t[IndexLength(t)..]) then None
    else Some(Number(t[..IndexLength(t)]))
  }

  method DecodeIndex(pointer: string, at: nat) returns (r: Option<nat>)
    requires CString(pointer) && at <= |pointer|
    ensures r == IndexOf(pointer[at..])
  {
    ghost var t := pointer[at..];
    if CharAt(pointer, at) == '0' && CharAt(pointer, at + 1) != NUL && CharAt(pointer, at + 1) != '/' {
      return None;
    }
    var parsed: nat, position: nat := 0, 0;
    while CharAt(pointer, at + position) >= '0' && CharAt(pointer, at) <= '9'
      invariant at + position <= |pointer| && parsed == Number(t[..position])
      invariant if t == [] || t[0] > '9' then position == 0 else Run(t) == position + Run(t[position..])
      decreases |pointer| - at - position
    {
      assert t[position..][1..] == t[position + 1..];
      assert t[..position + 1][..position] == t[..position];
      parsed := (10 * parsed + (pointer[at + position] as int - '0' as int)) % SIZE;
      position := position + 1;
    }
    assert position == IndexLength(t);
    assert t[..position + 0] == t[..position];
    if CharAt(pointer, at + position) != NUL && CharAt(pointer, at + position) != '/' {
      return None;
    }
    r := Some(parsed);
  }

  /** The digits of a number are read back as that number, whatever pointer follows. */
  lemma {:induction false} DigitsRead(n: nat)
    requires n < SIZE
    ensures Number(Digits(n)) == n && Digits(n) != []
    ensures forall c :: c in Digits(n) ==> '0' <= c <= '9'
    ensures Digits(n)[0] == '0' ==> n == 0
  {
    if n >= 10 {
      DigitsRead(n / 10);
      var d := Digits(n);
      assert d[..|d| - 1] == Digits(n / 10);
    } else {
      assert Digits(n)[..0] == [];
    }
  }

  lemma {:induction false} RunOfDigits(d: string, rest: string)
    requires (forall c :: c in d ==> '0' <= c) && Ends(rest)
    ensures Run(d + rest) == |d|
  {
    if d == [] {
      assert d + rest == rest;
    } else {
      assert (d + rest)[1..] == d[1..] + rest;
      assert d[0] in d && forall c :: c in d[1..] ==> c in d;
      RunOfDigits(d[1..], rest);
    }
  }

  lemma IndexRead(n: nat, rest: string)
    requires n < SIZE && Ends(rest)
    ensures IndexOf(Digits(n) + rest) == Some(n)
  {
    hide Number;
    var d := Digits(n);
    var t := d + rest;
    DigitsRead(n);
    RunOfDigits(d, rest);
    assert t[0] == d[0] && t[..|d|] == d && t[|d|..] == rest;
    if d[0] == '0' {
      assert d == "0" && t[1..] == rest;
    }
  }

  /** What is taken as an index: nothing at all, "0", or a digit other than 0 and then anything not below '0'. */
  lemma IndexTokens(t: string)
    ensures IndexOf(t).Some? <==>
              (var k := Token(t);
               k == [] || k == "0" || ('1' <= k[0] <= '9' && forall c :: c in k ==> c >= '0'))
  {
    TokenOf(t);
    RunAbove(t);
    var k := Token(t);
    if k == [] {
      assert t == Skip(t) && t[0..] == t;
    } else if '1' <= k[0] <= '9' {
      if forall c :: c in k ==> c >= '0' {
        RunOfDigits(k, Skip(t));
        assert t[|k|..] == Skip(t);
      }
      var n := Run(t);
      if Ends(t[n..]) {
        assert t == t[..n] + t[n..];
        TokenThen(t[..n], t[n..]);
      }
    } else if k[0] == '0' {
      if Ends(t[1..]) {
        TokenThen("0", t[1..]);
        assert t == "0" + t[1..];
      }
    }
  }

  /** A letter after a digit is accepted, although it is no array index. */
  lemma LetterAsDigit()
    ensures IndexOf("1a") == Some(59)
  {
    assert IndexLength("1a") == 2 by {
      assert "1a"[1..] == "a";
      assert "a"[1..] == "";
    }
    assert "1a"[..2] == "1a" && "1a"[2..] == "" && "1a"[..1] == "1" && "1"[..0] == "";
  }

  lemma {:induction false} TokenOf(t: string)
    ensures t == Token(t) + Skip(t) && '/' !in Token(t)
  {
    if !Ends(t) {
      TokenOf(t[1..]);
    }
  }

  lemma {:induction false} TokenThen(k: string, rest: string)
    requires '/' !in k && Ends(rest)
    ensures Token(k + rest) == k && Skip(k + rest) == rest
  {
    if k == [] {
      assert k + rest == rest;
    } else {
      assert (k + rest)[1..] == k[1..] + rest;
      TokenThen(k[1..], rest);
    }
  }

  // ---- keys and tokens

  lemma {:induction false} EscapeClean(s: string)
    ensures '/' !in Escape(s) && (CString(s) ==> CString(Escape(s)))
  {
    if s != [] {
      EscapeClean(s[1..]);
    }
  }

  /** Two keys have the same token only if they are the same. */
  lemma {:induction false} EscapeInjective(sensitive: bool, a: string, b: string)
    ensures Same(sensitive, Escape(b), Escape(a)) <==> Same(sensitive, b, a)
  {
    hide Same, SameChar, Token;
    if a != [] && b != [] {
      EscapeInjective(sensitive, a[1..], b[1..]);
      SameFirst(sensitive, b[0], b[1..], a[0], a[1..]);
      assert [a[0]] + a[1..] == a && [b[0]] + b[1..] == b;
      EscapeOne(sensitive, a, b);
    } else {
      SameLength(sensitive, b, a);
      SameLength(sensitive, Escape(b), Escape(a));
    }
  }

  /** The first characters of two keys, and what their escapes have in common. */
  lemma EscapeOne(sensitive: bool, a: string, b: string)
    requires a != [] && b != []
    ensures Same(sensitive, Escape(b), Escape(a)) <==>
              SameChar(sensitive, b[0], a[0]) && Same(sensitive, Escape(b[1..]), Escape(a[1..]))
  {
    hide Same, SameChar, Token;
    var t := Escape(b);
    TokenOfEscape(b);
    TokenOfEscape(b[1..]);
    SameMark(sensitive, b[0], a[0]);
    if b[0] == '/' || b[0] == '~' {
      EscapeStep(sensitive, t, a);
      assert t[2..] == Escape(b[1..]);
    } else {
      PlainStep(sensitive, t, a);
      assert t[1..] == Escape(b[1..]);
    }
  }

  lemma SameMark(sensitive: bool, a: char, b: char)
    ensures SameChar(sensitive, a, b) <==> SameChar(sensitive, b, a)
    ensures a == '/' || a == '~' ==> (SameChar(sensitive, a, b) <==> a == b)
  {
  }

  lemma TokenOfEscape(s: string)
    ensures Token(Escape(s)) == Escape(s)
  {
    EscapeClean(s);
    TokenThen(Escape(s), "");
    assert Escape(s) + "" == Escape(s);
  }

  lemma SameLength(sensitive: bool, a: string, b: string)
    ensures Same(sensitive, a, b) ==> |a| == |b|
    ensures a == b ==> Same(sensitive, a, b)
  {
  }

  // ---- pointers into a value

  /** cJSON_IsArray */
  predicate IsArray(d: Data) {
    d.kind % 256 == 32
  }

  /** cJSON_IsObject */
  predicate IsObject(d: Data) {
    d.kind % 256 == 64
  }

  function KeyOf(j: Json): string {
    if j.data.key.Text? then j.data.key.chars else ""
  }

  /** The pointer that stands for a path of child numbers. */
  function PointerTo(j: Json, path: seq<nat>): Option<string>
    decreases path
  {
    if path == [] then Some("")
    else if path[0] >= |j.kids| then None
    else
      match PointerTo(j.kids[path[0]], path[1..])
      case None => None
      case Some(rest) =>
        if IsArray(j.data) then Some("/" + Digits(path[0]) + rest)
        else if IsObject(j.data) then Some("/" + Escape(KeyOf(j.kids[path[0]])) + rest)
        else None
  }

  predicate Named(kid: Json, t: string, sensitive: bool) {
    kid.data.key.Text? && Same(sensitive, Token(t), Escape(kid.data.key.chars))
  }

  /** The first child from place i on that the next token names, or the number of children. */
  function FirstNamed(kids: seq<Json>, t: string, sensitive: bool, i: nat): (r: nat)
    requires i <= |kids|
    ensures i <= r <= |kids| && (r < |kids| ==> Named(kids[r], t, sensitive))
    ensures forall k :: i <= k < r ==> !Named(kids[k], t, sensitive)
    decreases |kids| - i
  {
    if i == |kids| || Named(kids[i], t, sensitive) then i else FirstNamed(kids, t, sensitive, i + 1)
  }

  /** The child that the next token leads to. */
  function Select(j: Json, t: string, sensitive: bool): (r: Option<nat>)
    ensures r.Some? ==> r.value < |j.kids|
  {
    if IsArray(j.data) then
      match IndexOf(t)
      case None => None
      case Some(i) => if i < |j.kids| then Some(i) else None
    else if IsObject(j.data) then
      var k := FirstNamed(j.kids, t, sensitive, 0);
      if k < |j.kids| then Some(k) else None
    else None
  }

  function Under(k: nat, rest: Option<seq<nat>>): Option<seq<nat>> {
    if rest.Some? then Some([k] + rest.value) else None
  }

  /** The path that a pointer leads along. */
  function Resolve(j: Json, p: string, sensitive: bool): Option<seq<nat>>
    decreases |p|
  {
    if p == [] || p[0] != '/' then Some([])
    else
      match Select(j, p[1..], sensitive)
      case None => None
      case Some(k) => Under(k, Resolve(j.kids[k], Skip(p[1..]), sensitive))
  }

  /** Children of objects have keys. */
  ghost predicate Keyed(j: Json) {
    && (IsObject(j.data) ==> forall i :: 0 <= i < |j.kids| ==> HasKey(j.kids[i]))
    && forall i :: 0 <= i < |j.kids| ==> Keyed(j.kids[i])
  }

  ghost predicate HasKey(j: Json) {
    j.data.key.Text? && CString(j.data.key.chars)
  }

  /** No list has more children than size_t can count. */
  ghost predicate Sized(j: Json) {
    |j.kids| < SIZE && forall i :: 0 <= i < |j.kids| ==> Sized(j.kids[i])
  }

  /** No two children of an object have the same key. */
  ghost predicate DistinctKeys(j: Json, sensitive: bool) {
    && (IsObject(j.data) ==>
      forall a, b :: 0 <= a < b < |j.kids| ==> !Same(sensitive, KeyOf(j.kids[a]), KeyOf(j.kids[b])))
    && forall i :: 0 <= i < |j.kids| ==> DistinctKeys(j.kids[i], sensitive)
  }

  lemma PointerShape(j: Json, path: seq<nat>)
    ensures PointerTo(j, path).Some? ==> Ends(PointerTo(j, path).value)
  {
  }

  /** Looking up the pointer of a path leads along that path. */
  lemma {:induction false} PointerRoundTrip(j: Json, path: seq<nat>, sensitive: bool)
    requires Keyed(j) && Sized(j) && DistinctKeys(j, sensitive) && PointerTo(j, path).Some?
    ensures Resolve(j, PointerTo(j, path).value, sensitive) == Some(path)
    decreases path
  {
    hide IndexOf, Same, Escape, Digits, Token, Skip, PointerTo, Resolve, Select;
    if path == [] {
      NoToken(j, sensitive);
    } else {
      var k := path[0];
      SomeKid(j, path);
      PointerFirst(j, path);
      var kid := j.kids[k];
      var rest := PointerTo(kid, path[1..]).value;
      PointerRoundTrip(kid, path[1..], sensitive);
      PointerShape(kid, path[1..]);
      KidFacts(j, k);
      var token := if IsArray(j.data) then Digits(k) else Escape(KeyOf(kid));
      if IsArray(j.data) {
        DigitsRead(k);
        DigitToken(j, k, rest, sensitive);
      } else {
        EscapeClean(KeyOf(kid));
        TokenThen(token, rest);
        OnlyNamed(j, k, token + rest, sensitive);
      }
      TokenThen(token, rest);
      assert "/" + token + rest == "/" + (token + rest);
      ResolveFirst(j, token + rest, k, sensitive);
      assert [k] + path[1..] == path;
    }
  }

  lemma NoToken(j: Json, sensitive: bool)
    ensures PointerTo(j, []) == Some("") && Resolve(j, "", sensitive) == Some([])
  {
  }

  lemma SomeKid(j: Json, path: seq<nat>)
    requires path != [] && PointerTo(j, path).Some?
    ensures path[0] < |j.kids|
  {
  }

  lemma ResolveFirst(j: Json, t: string, k: nat, sensitive: bool)
    requires Select(j, t, sensitive) == Some(k)
    ensures Resolve(j, "/" + t, sensitive) == Under(k, Resolve(j.kids[k], Skip(t), sensitive))
  {
    hide Select, Skip;
    assert ("/" + t)[1..] == t;
  }

  /** The number of a child selects it. */
  lemma DigitToken(j: Json, k: nat, rest: string, sensitive: bool)
    requires IsArray(j.data) && k < |j.kids| && k < SIZE && Ends(rest)
    ensures Select(j, Digits(k) + rest, sensitive) == Some(k)
  {
    hide IndexOf, Digits;
    IndexRead(k, rest);
  }

  /** The escaped key of a child names this child and no other. */
  lemma OnlyNamed(j: Json, k: nat, t: string, sensitive: bool)
    requires IsObject(j.data) && !IsArray(j.data) && Keyed(j) && DistinctKeys(j, sensitive)
    requires k < |j.kids| && Token(t) == Escape(KeyOf(j.kids[k]))
    ensures Select(j, t, sensitive) == Some(k)
  {
    hide Same, Escape, Token;
    assert HasKey(j.kids[k]);
    SameLength(sensitive, Token(t), Token(t));
    assert Named(j.kids[k], t, sensitive);
    var r := FirstNamed(j.kids, t, sensitive, 0);
    if r < k {
      EscapeInjective(sensitive, KeyOf(j.kids[r]), KeyOf(j.kids[k]));
      SameSymmetric(sensitive, KeyOf(j.kids[k]), KeyOf(j.kids[r]));
    }
  }

  lemma SameSymmetric(sensitive: bool, a: string, b: string)
    ensures Same(sensitive, a, b) <==> Same(sensitive, b, a)
  {
  }

  // ---- pointers into a tree of items

  /** The path of child numbers leads from the item to the target. */
  ghost predicate Leads(item: Item, j: Json, path: seq<nat>, target: Item)
    requires Tree(item, j)
    reads item, item.repr
    decreases path
  {
    if path == [] then item == target
    else path[0] < |j.kids| && (TreeKids(item, j, path[0]); assert Below(item, path[0]); Leads(item.kids[path[0]],
        j.kids[path[0]], path[1..], target))
  }

  lemma LeadsInside(item: Item, j: Json, path: seq<nat>, target: Item)
    requires Tree(item, j) && Leads(item, j, path, target)
    ensures target in item.repr && (path != [] ==> target != item)
    decreases path
  {
    if path != [] {
      var k := path[0];
      TreeKids(item, j, k);
      assert Below(item, k);
      LeadsInside(item.kids[k], j.kids[k], path[1..], target);
    }
  }

  /** There is one path to an item. */
  lemma {:induction false} LeadsOnce(item: Item, j: Json, p: seq<nat>, q: seq<nat>, target: Item)
    requires Tree(item, j) && Leads(item, j, p, target) && Leads(item, j, q, target)
    ensures p == q
    decreases p
  {
    LeadsInside(item, j, p, target);
    LeadsInside(item, j, q, target);
    if p != [] {
      var a, b := p[0], q[0];
      TreeKids(item, j, a);
      TreeKids(item, j, b);
      LeadsInside(item.kids[a], j.kids[a], p[1..], target);
      LeadsInside(item.kids[b], j.kids[b], q[1..], target);
      LeadsOnce(item.kids[a], j.kids[a], p[1..], q[1..], target);
      assert [a] + p[1..] == p && [b] + q[1..] == q;
    }
  }

  /** A longer path, one child further down. */
  lemma {:induction false} LeadsOn(item: Item, j: Json, path: seq<nat>, mid: Item, m: Json, k: nat)
    requires Tree(item, j) && Leads(item, j, path, mid) && Tree(mid, m) && k < |m.kids|
    ensures |mid.kids| == |m.kids| && Tree(mid.kids[k], m.kids[k])
    ensures Leads(item, j, path + [k], mid.kids[k])
    decreases path
  {
    TreeKids(mid, m, k);
    if path == [] {
      TreeUnique(item, j, m);
      assert (path + [k])[1..] == [];
    } else {
      var a := path[0];
      TreeKids(item, j, a);
      LeadsOn(item.kids[a], j.kids[a], path[1..], mid, m, k);
      assert (path + [k])[1..] == path[1..] + [k];
    }
  }

  lemma LeadsFirst(item: Item, j: Json, path: seq<nat>, target: Item)
    requires Tree(item, j) && path != []
    ensures Leads(item, j, path, target) <==>
              path[0] < |j.kids| && |item.kids| == |j.kids| && Tree(item.kids[path[0]], j.kids[path[0]])
              && Leads(item.kids[path[0]], j.kids[path[0]], path[1..], target)
  {
    TreeKids(item, j, path[0]);
  }

  lemma LeadsNowhere(item: Item, j: Json, target: Item)
    requires Tree(item, j)
    ensures Leads(item, j, [], target) <==> item == target
  {
  }

  lemma KidFacts(j: Json, i: nat)
    requires Keyed(j) && Sized(j) && i < |j.kids|
    ensures Keyed(j.kids[i]) && Sized(j.kids[i]) && i < SIZE && (IsObject(j.data) ==> HasKey(j.kids[i]))
  {
  }

  lemma PointerFirst(j: Json, path: seq<nat>)
    requires path != [] && path[0] < |j.kids|
    ensures PointerTo(j, path) ==
              match PointerTo(j.kids[path[0]], path[1..])
              case None => None
              case Some(rest) =>
                if IsArray(j.data) then Some("/" + Digits(path[0]) + rest)
                else if IsObject(j.data) then Some("/" + Escape(KeyOf(j.kids[path[0]])) + rest)
                else None
  {
  }

  /** '/', the escaped key and the pointer below it, in a buffer of the length reckoned before. */
  method MemberPointer(key: string, rest: string) returns (p: string)
    requires CString(key) && CString(rest)
    ensures p == "/" + Escape(key) + rest
  {
    var n := EncodedLength(key);
    var full := new char[|rest| + n + 2];
    full[0] := '/';
    EncodeString(full, 1, key);
    assert full[..1] == "/" && full[..1 + n] == full[..1] + full[1..1 + n];
    ghost var start := full[..1 + n];
    forall i | 0 <= i < |rest| {
      full[1 + n + i] := rest[i];
    }
    full[1 + n + |rest|] := NUL;
    p := full[..1 + n + |rest|];
    assert p == start + rest;
  }

  /** cJSONUtils_FindPointerFromObjectTo */
  method FindPointer(root: Item, target: Item, ghost j: Json) returns (p: Option<string>, ghost path: seq<nat>)
    requires Tree(root, j) && Keyed(j) && Sized(j)
    ensures p.Some? ==> Leads(root, j, path, target) && PointerTo(j, path) == p && CString(p.value)
    ensures p.None? ==> forall q: seq<nat> :: Leads(root, j, q, target) ==> PointerTo(j, q) == None
    decreases j
  {
    hide Tree, Keyed, Sized, Leads, Digits, Escape, CString, IsArray, IsObject;
    Kind(root, j);
    LeadsNowhere(root, j, target);
    if root == target {
      assert CString("") by { EmptyClean(); }
      return Some(""), [];
    }
    var child := root.child;
    var index: nat := 0;
    TreeKids(root, j, 0);
    while child != null
      invariant index <= |j.kids| == |root.kids| && child == if index < |root.kids| then root.kids[index] else null
      invariant forall q: seq<nat> :: q != [] && q[0] < index && Leads(root, j, q, target) ==> PointerTo(j, q) == None
      decreases |j.kids| - index
    {
      TreeKids(root, j, index);
      KidFacts(j, index);
      Kind(child, j.kids[index]);
      ghost var rest;
      var found;
      found, rest := FindPointer(child, target, j.kids[index]);
      if found.Some? {
        path := [index] + rest;
        assert path[1..] == rest;
        LeadsFirst(root, j, path, target);
        p := OneStep(root.data, child.data.key, index, found.value, j, path);
        if p.None? {
          OtherPaths(root, j, path, target);
        }
        return;
      }
      NoneThere(root, j, index, target);
      TreeKids(root, j, index + 1);
      child := child.next;
      index := index + 1;
    }
    p, path := None, [];
    forall q: seq<nat> | Leads(root, j, q, target)
      ensures PointerTo(j, q) == None
    {
      if q != [] {
        LeadsFirst(root, j, q, target);
      }
    }
  }

  lemma Kind(item: Item, j: Json)
    requires Tree(item, j)
    ensures item.data == j.data
  {
  }

  lemma EmptyClean()
    ensures CString("")
  {
  }

  lemma NoneThere(root: Item, j: Json, k: nat, target: Item)
    requires Tree(root, j) && k < |j.kids| == |root.kids| && Tree(root.kids[k], j.kids[k])
    requires forall q: seq<nat> :: Leads(root.kids[k], j.kids[k], q, target) ==> PointerTo(j.kids[k], q) == None
    ensures forall q: seq<nat> :: q != [] && q[0] == k && Leads(root, j, q, target) ==> PointerTo(j, q) == None
  {
    hide Tree, Leads;
    forall q: seq<nat> | q != [] && q[0] == k && Leads(root, j, q, target)
      ensures PointerTo(j, q) == None
    {
      LeadsFirst(root, j, q, target);
    }
  }

  lemma OtherPaths(root: Item, j: Json, path: seq<nat>, target: Item)
    requires Tree(root, j) && Leads(root, j, path, target) && PointerTo(j, path) == None
    ensures forall q: seq<nat> :: Leads(root, j, q, target) ==> PointerTo(j, q) == None
  {
    hide Tree, Leads;
    forall q: seq<nat> | Leads(root, j, q, target)
      ensures PointerTo(j, q) == None
    {
      LeadsOnce(root, j, q, path, target);
    }
  }

  /** The pointer of a child in front of the pointer below it, if the parent can have children at all. */
  method OneStep(data: Data, key: Text, index: nat, below: string, ghost j: Json, ghost path: seq<nat>)
      returns (p: Option<string>)
    requires data == j.data && path != [] && path[0] == index < |j.kids| && index < SIZE
             && key == j.kids[index].data.key
    requires PointerTo(j.kids[index], path[1..]) == Some(below) && CString(below)
             && (IsObject(data) ==> HasKey(j.kids[index]))
    ensures p == PointerTo(j, path) && (p.Some? ==> CString(p.value))
  {
    hide PointerTo, Digits, Escape, CString;
    PointerFirst(j, path);
    if IsArray(data) {
      DigitsClean(index);
      StepClean(Digits(index), below);
      return Some("/" + Digits(index) + below);
    }
    if IsObject(data) {
      EscapeClean(key.chars);
      StepClean(Escape(key.chars), below);
      var s := MemberPointer(key.chars, below);
      return Some(s);
    }
    p := None;
  }

  lemma DigitsClean(n: nat)
    requires n < SIZE
    ensures CString(Digits(n))
  {
    DigitsRead(n);
  }

  lemma StepClean(token: string, below: string)
    requires CString(below)
    ensures CString(token) ==> CString("/" + token + below)
  {
  }

  // ---- looking up

  function Along(path: seq<nat>, rest: Option<seq<nat>>): Option<seq<nat>> {
    if rest.Some? then Some(path + rest.value) else None
  }

  lemma ResolveStep(j: Json, p: string, path: seq<nat>, sensitive: bool)
    requires p != [] && p[0] == '/'
    ensures match Select(j, p[1..], sensitive)
            case None => Resolve(j, p, sensitive) == None
            case Some(k) =>
              Along(path, Resolve(j, p, sensitive)) == Along(path + [k], Resolve(j.kids[k], Skip(p[1..]), sensitive))
  {
    hide Select, Skip;
    match Select(j, p[1..], sensitive)
    case None =>
    case Some(k) =>
      var rest := Resolve(j.kids[k], Skip(p[1..]), sensitive);
      if rest.Some? {
        assert path + ([k] + rest.value) == path + [k] + rest.value;
      }
  }

  /** The child that the next token leads to. */
  method SelectKid(current: Item, pointer: string, at: nat, sensitive: bool, ghost j: Json) returns (r: Item?)
    requires Tree(current, j) && CString(pointer) && KeysClean(j) && at <= |pointer|
    ensures match Select(j, pointer[at..], sensitive)
            case None => r == null
            case Some(k) => |current.kids| == |j.kids| && r == current.kids[k]
  {
    hide Tree, Same, IndexOf, Escape, Token, CString;
    KeysHere(j);
    Kind(current, j);
    TreeKids(current, j, 0);
    if IsArray(current.data) {
      var index := DecodeIndex(pointer, at);
      if index.None? {
        return null;
      }
      TreeList(current, j);
      r := GetArrayItem(current, index.value);
    } else if IsObject(current.data) {
      r := current.child;
      ghost var i: nat := 0;
      ghost var t := pointer[at..];
      while r != null
        invariant i <= |j.kids| == |current.kids| && r == if i < |current.kids| then current.kids[i] else null
        invariant FirstNamed(j.kids, t, sensitive, 0) == FirstNamed(j.kids, t, sensitive, i)
        decreases |j.kids| - i
      {
        TreeKids(current, j, i);
        TreeKids(current, j, i + 1);
        Kind(r, j.kids[i]);
        var here := ComparePointers(r.data.key, pointer, at, sensitive);
        if here {
          return;
        }
        r := r.next;
        i := i + 1;
      }
    } else {
      r := null;
    }
  }

  /** The keys below are C strings where there are any. */
  ghost predicate KeysClean(j: Json) {
    forall i :: 0 <= i < |j.kids| ==> KeyClean(j.kids[i].data.key) && KeysClean(j.kids[i])
  }

  ghost predicate KeyClean(key: Text) {
    key.Text? ==> CString(key.chars)
  }

  lemma KeysHere(j: Json)
    requires KeysClean(j)
    ensures forall i :: 0 <= i < |j.kids| ==> KeyClean(j.kids[i].data.key) && KeysClean(j.kids[i])
  {
  }

  lemma TreeList(item: Item, j: Json)
    requires Tree(item, j)
    ensures item.ListOk()
  {
  }

  /** The place of the next '/' or the end. */
  method SkipToken(pointer: string, from: nat) returns (i: nat)
    requires from <= |pointer| && CString(pointer)
    ensures from <= i <= |pointer| && pointer[i..] == Skip(pointer[from..])
  {
    i := from;
    while CharAt(pointer, i) != NUL && CharAt(pointer, i) != '/'
      invariant from <= i <= |pointer| && Skip(pointer[from..]) == Skip(pointer[i..])
      decreases |pointer| - i
    {
      SkipOne(pointer, i);
      i := i + 1;
    }
    SkipEnd(pointer, i);
  }

  /** get_item_from_pointer: the item at the end of the path that the pointer leads along. */
  method GetItem(root: Item, pointer: string, sensitive: bool, ghost j: Json) returns (r: Item?)
    requires Tree(root, j) && CString(pointer) && KeysClean(j)
    ensures match Resolve(j, pointer, sensitive)
            case None => r == null
            case Some(path) => r != null && Leads(root, j, path, r)
  {
    hide Tree, Leads, Resolve, Select, CString, Skip;
    var current: Item? := root;
    var i: nat := 0;
    ghost var path: seq<nat>, m := [], j;
    LeadsNowhere(root, j, root);
    StartWhole(j, pointer, sensitive);
    while CharAt(pointer, i) == '/' && current != null
      invariant i <= |pointer|
      invariant current != null ==> Tree(current, m) && KeysClean(m) && Leads(root, j, path, current)
      invariant Resolve(j, pointer, sensitive) == if current == null then None
                else Along(path, Resolve(m, pointer[i..], sensitive))
      decreases |pointer| - i
    {
      ghost var at, was := i, current;
      ResolveStep(m, pointer[i..], path, sensitive);
      i := i + 1;
      assert pointer[at..][1..] == pointer[i..];
      current := SelectKid(current, pointer, i, sensitive, m);
      assert Tree(was, m) && Leads(root, j, path, was);
      ghost var t := pointer[i..];
      if current != null {
        ghost var k := Select(m, t, sensitive).value;
        KeysHere(m);
        LeadsOn(root, j, path, was, m, k);
        path, m := path + [k], m.kids[k];
      }
      i := SkipToken(pointer, i);
    }
    if current != null {
      PointerDone(m, pointer[i..], path, sensitive);
    }
    r := current;
  }

  lemma StartWhole(j: Json, pointer: string, sensitive: bool)
    ensures Resolve(j, pointer, sensitive) == Along([], Resolve(j, pointer[0..], sensitive))
  {
    hide Resolve;
    assert pointer[0..] == pointer;
    var r := Resolve(j, pointer, sensitive);
    if r.Some? {
      assert [] + r.value == r.value;
    }
  }

  lemma SkipOne(pointer: string, i: nat)
    requires i < |pointer| && pointer[i] != '/'
    ensures Skip(pointer[i..]) == Skip(pointer[i + 1..])
  {
    assert pointer[i..][1..] == pointer[i + 1..];
  }

  lemma SkipEnd(pointer: string, i: nat)
    requires i <= |pointer| && CString(pointer) && (CharAt(pointer, i) == NUL || CharAt(pointer, i) == '/')
    ensures Skip(pointer[i..]) == pointer[i..]
  {
  }

  lemma PointerDone(j: Json, t: string, path: seq<nat>, sensitive: bool)
    requires t == [] || t[0] != '/'
    ensures Along(path, Resolve(j, t, sensitive)) == Some(path)
  {
    assert path + [] == path;
  }

  /** A path leads to one item. */
  lemma {:induction false} LeadsSame(item: Item, j: Json, path: seq<nat>, a: Item, b: Item)
    requires Tree(item, j) && Leads(item, j, path, a) && Leads(item, j, path, b)
    ensures a == b
    decreases path
  {
    hide Tree;
    if path != [] {
      LeadsFirst(item, j, path, a);
      LeadsFirst(item, j, path, b);
      LeadsSame(item.kids[path[0]], j.kids[path[0]], path[1..], a, b);
    }
  }

  /** Only arrays and objects have children. */
  ghost predicate Branching(j: Json) {
    && (j.kids != [] ==> IsArray(j.data) || IsObject(j.data))
    && forall i :: 0 <= i < |j.kids| ==> Branching(j.kids[i])
  }

  /** Every path to an item has a pointer, if only arrays and objects have children. */
  lemma {:induction false} LedPointer(item: Item, j: Json, path: seq<nat>, target: Item)
    requires Tree(item, j) && Branching(j) && Leads(item, j, path, target)
    ensures PointerTo(j, path).Some?
    decreases path
  {
    hide Tree, Digits, Escape, IsArray, IsObject;
    if path != [] {
      LeadsFirst(item, j, path, target);
      LedPointer(item.kids[path[0]], j.kids[path[0]], path[1..], target);
    }
  }

  /** Building the pointer of an item and looking it up gives the item back. There is one for exactly the
      items on a path that has a pointer, which is every item where only arrays and objects have children. */
  method FindAndGet(root: Item, target: Item, sensitive: bool, ghost j: Json) returns (p: Option<string>, r: Item?)
    requires Tree(root, j) && KeysClean(j) && Keyed(j) && Sized(j) && DistinctKeys(j, sensitive)
    ensures p.Some? ==> r == target && exists path :: Leads(root, j, path, target) && PointerTo(j, path) == p
    ensures p.None? ==> r == null && forall path :: Leads(root, j, path, target) ==> PointerTo(j, path).None?
    ensures Branching(j) ==> (p.Some? <==> exists path :: Leads(root, j, path, target))
  {
    hide Tree, Leads, PointerTo, Resolve, KeysClean, Keyed, Sized, DistinctKeys, Branching, CString;
    ghost var path;
    p, path := FindPointer(root, target, j);
    r := null;
    if p.Some? {
      r := GetItem(root, p.value, sensitive, j);
      PointerRoundTrip(j, path, sensitive);
      LeadsSame(root, j, path, r, target);
    } else if Branching(j) {
      forall q | Leads(root, j, q, target)
        ensures false
      {
        LedPointer(root, j, q, target);
      }
    }
  }
}
