/** Parsing JSON text into items. */
module JsonParser {
  import opened ChildList
  import opened JsonText
  import opened JsonRoundTrip
  import opened JsonPrinter

  // ---- what is built

  /** The items that parsing makes of a value. */
  function JsonOf(v: Value, key: Text): Json {
    match v
    case Null => Node(Plain(NULL, 0, NoText, key), [])
    case Bool(b) => Node(Plain(if b then TRUE else FALSE, if b then 1 else 0, NoText, key), [])
    case Num(n) => Node(Plain(NUMBER, n, NoText, key), [])
    case Str(s) => Node(Plain(STRING, 0, Text.Text(s), key), [])
    case Arr(items) =>
      Node(Plain(ARRAY, 0, NoText, key), seq(|items|, i requires 0 <= i < |items| => JsonOf(items[i], NoText)))
    case Obj(members) =>
      Node(Plain(OBJECT, 0, NoText, key),
           seq(|members|, i requires 0 <= i < |members| => JsonOf(members[i].value, Text.Text(members[i].key))))
  }

  function Plain(kind: nat, number: int, text: Text, key: Text): Data {
    Data(kind, false, false, number, text, key)
  }

  /** The items stand for the value. */
  lemma {:induction false} ViewOfParsed(v: Value, key: Text)
    ensures View(JsonOf(v, key)) == v
  {
    var j := JsonOf(v, key);
    match v
    case Arr(items) =>
      forall i | 0 <= i < |items|
        ensures View(j.kids[i]) == items[i]
      {
        ViewOfParsed(items[i], NoText);
      }
      assert View(j).items == items;
    case Obj(members) =>
      forall i | 0 <= i < |members|
        ensures Member(Chars(j.kids[i].data.key), View(j.kids[i])) == members[i]
      {
        ViewOfParsed(members[i].value, Text.Text(members[i].key));
      }
      assert View(j).members == members;
    case _ =>
  }

  // ---- room for the unescaped string

  /** The backslashes that the first loop of parse_string passes. */
  function Skipped(s: string, p: nat, end: nat): (n: nat)
    requires end <= |s|
    ensures p <= end ==> 2 * n <= end - p + 1
    decreases end - p
  {
    if p >= end then 0 else if s[p] == '\\' then 1 + Skipped(s, p + 2, end) else Skipped(s, p + 1, end)
  }

  /** Place a is one where the first loop stops on its way to the closing quote, at p or just behind it. */
  ghost predicate Aligned(s: string, p: nat, a: nat, end: nat) {
    p <= a <= p + 1 && a <= end && StringEnd(s, a) == Some(end)
  }

  lemma AlignedEven(s: string, p: nat, a: nat, end: nat)
    requires end < |s| && Aligned(s, p, a, end)
    ensures 2 * Skipped(s, a, end) <= end - a
    decreases end - a
  {
    if a < end {
      if s[a] == '\\' {
        AlignedEven(s, a + 2, a + 2, end);
      } else {
        AlignedEven(s, a + 1, a + 1, end);
      }
    }
  }

  /** The first such place at or after t, and how many backslashes can be passed on the way. */
  lemma {:induction false} AlignedNext(s: string, a: nat, t: nat, end: nat) returns (b: nat)
    requires end < |s| && a <= end && StringEnd(s, a) == Some(end) && a <= t <= end
    ensures Aligned(s, t, b, end) && 2 * (Skipped(s, a, end) - Skipped(s, b, end)) <= b - a
    decreases t - a
  {
    b := a;
    if a < t {
      if s[a] == '\\' && a + 1 == t {
        b := a + 2;
      } else {
        b := AlignedNext(s, if s[a] == '\\' then a + 2 else a + 1, t, end);
      }
    }
  }

  function Shifted(code: nat, n: nat): nat {
    if n == 0 then code else Shifted(code / 64, n - 1)
  }

  lemma Utf8Parts(code: nat)
    requires code < 0x110000
    ensures var u := Utf8(code);
            forall k :: 0 < k < |u| ==> u[k] == Tail(Shifted(code, |u| - 1 - k))
    ensures var u := Utf8(code);
            |u| == 1 || u[0] as int == (if |u| == 2 then 0xC0 else if |u| == 3 then 0xE0 else 0xF0)
                + Shifted(code, |u| - 1)
  {
    hide Tail;
    assert Shifted(code, 0) == code && Shifted(code / 64, 0) == code / 64
           && Shifted(code / 64 / 64, 0) == code / 64 / 64;
    assert Shifted(code, 1) == code / 64 && Shifted(code / 64, 1) == code / 64 / 64
           && Shifted(code / 64, 2) == Shifted(code / 64 / 64, 1);
    assert Shifted(code / 64 / 64, 1) == code / 64 / 64 / 64;
    assert Shifted(code, 2) == code / 4096 && Shifted(code, 3) == code / 262144;
  }

  lemma ShiftedMore(code: nat, n: nat)
    ensures Shifted(code, n + 1) == Shifted(code, n) / 64
  {
    if n > 0 {
      ShiftedMore(code / 64, n - 1);
    }
  }

  /** The end of utf16_literal_to_utf8: the bytes are written from the last one back. */
  method PutUtf8(output: array<char>, at: nat, code: nat) returns (length: nat)
    requires code < 0x110000 && at + |Utf8(code)| <= output.Length
    modifies output
    ensures length == |Utf8(code)| && output[..at + length] == old(output[..at]) + Utf8(code)
  {
    hide Tail;
    Utf8Parts(code);
    var mark: nat := 0;
    if code < 0x80 {
      length := 1;
    } else if code < 0x800 {
      length, mark := 2, 0xC0;
    } else if code < 0x10000 {
      length, mark := 3, 0xE0;
    } else {
      length, mark := 4, 0xF0;
    }
    var point, position := code, length - 1;
    while position > 0
      invariant 0 <= position < length && point == Shifted(code, length - 1 - position)
      invariant forall k :: 0 <= k < at ==> output[k] == old(output[k])
      invariant forall k :: position < k < length ==> output[at + k] == Utf8(code)[k]
      decreases position
    {
      output[at + position] := Tail(point);
      ShiftedMore(code, length - 1 - position);
      point := point / 64;
      position := position - 1;
    }
    ghost var u := Utf8(code);
    if length > 1 {
      output[at] := (mark + point) as char;
    } else {
      output[at] := (point % 128) as char;
    }
    assert output[at] == u[0];
    assert forall k :: 0 <= k < length ==> output[at + k] == u[k];
    assert output[..at] == old(output[..at]);
    assert output[at..at + length] == u;
    assert output[..at + length] == output[..at] + output[at..at + length];
  }

  // ---- the parser

  class ParseBuffer {
    const content: string
    var offset: nat
    /** How deeply nested the text at the offset is. */
    var depth: nat

    constructor (text: string)
      ensures content == text && offset == 0 && depth == 0
    {
      content, offset, depth := text, 0, 0;
    }

    /** buffer_skip_whitespace */
    method SkipWhitespace()
      requires offset <= |content|
      modifies this`offset
      ensures offset == SkipSpace(content, old(offset))
    {
      if offset == |content| {
        return;
      }
      while offset < |content| && content[offset] as int <= 32
        invariant old(offset) <= offset <= |content| && PastSpace(content, offset) == PastSpace(content, old(offset))
      {
        offset := offset + 1;
      }
      if offset == |content| {
        offset := offset - 1;
      }
    }

    /** Passes one character and the spaces behind it. */
    method Advance()
      requires offset < |content|
      modifies this`offset
      ensures offset == SkipSpace(content, old(offset) + 1)
    {
      offset := offset + 1;
      SkipWhitespace();
    }

    /** parse_number: the characters that can belong to a number are copied for strtod. */
    method ParseNumber(item: Item) returns (ok: bool)
      requires offset <= |content|
      modifies this`offset, item`data
      ensures match JsonText.ParseNumber(content, old(offset))
              case None => !ok
              case Some(x) => ok && offset == x.1 && item.data == Typed(old(item.data), NUMBER).(number := x.0)
    {
      hide Strtod, IntOf, NumberRun, NumberChar;
      var numberString: string := "";
      var i: nat := 0;
      while i < 63 && offset + i < |content| && NumberChar(content[offset + i])
        invariant offset == old(offset) && item.data == old(item.data)
        invariant i <= 63 && offset + i <= |content| && numberString == content[offset..offset + i]
        invariant NumberRun(content, offset, 63) == i + NumberRun(content, offset + i, 63 - i)
      {
        RunStep(content, offset + i, 63 - i);
        numberString := numberString + [content[offset + i]];
        i := i + 1;
      }
      RunStep(content, offset + i, 63 - i);
      assert NumberRun(content, offset, 63) == i;
      NumberParsed(content, offset, numberString);
      var (taken, number) := Strtod(numberString);
      if taken == 0 {
        return false;
      }
      item.data := Typed(item.data, NUMBER).(number := IntOf(number));
      offset := offset + taken;
      ok := true;
    }

    /** The first loop of parse_string: the closing quote, and how many backslashes are before it. */
    method FindEnd(start: nat) returns (end: JsonText.Option<nat>, skipped: nat)
      requires start <= |content|
      ensures end == StringEnd(content, start)
      ensures end.Some? ==> skipped == Skipped(content, start, end.value)
    {
      var p := start;
      skipped := 0;
      while p < |content| && content[p] != '"'
        invariant start <= p && StringEnd(content, start) == StringEnd(content, p)
        invariant match StringEnd(content, start)
                  case Some(e) => Skipped(content, start, e) == skipped + Skipped(content, p, e)
                  case None => true
        decreases |content| - p
      {
        if content[p] == '\\' {
          if p + 1 >= |content| {
            return JsonText.None, 0;
          }
          skipped := skipped + 1;
          p := p + 1;
        }
        p := p + 1;
      }
      end := if p < |content| then JsonText.Some(p) else JsonText.None;
    }

    /** parse_hex4 */
    method ParseHex4(p: nat) returns (h: nat)
      requires p + 4 <= |content|
      ensures h == Hex4(content, p)
    {
      h := 0;
      for i := 0 to 4
        invariant (forall k :: p <= k < p + i ==> HexValue(content[k]).Some?) && h == HexPrefix(content, p, i)
      {
        var d := HexValue(content[p + i]);
        if d.None? {
          assert p <= p + i < p + 4;
          return 0;
        }
        h := h + d.value;
        if i < 3 {
          h := 16 * h;
        }
      }
      HexWhole(content, p);
    }

    /** utf16_literal_to_utf8: how many characters are taken, 0 if the literal is not valid. */
    method PutLiteral(p: nat, end: nat, output: array<char>, at: nat) returns (taken: nat, written: nat)
      requires p <= end <= |content|
      requires Literal(content, p, end).Some? ==> at + |Literal(content, p, end).value.0| <= output.Length
      modifies output
      ensures match Literal(content, p, end)
              case None => taken == 0
              case Some(l) => taken == l.1 > 0 && written == |l.0| && output[..at + written] == old(output[..at]) + l.0
    {
      hide Utf8, Hex4;
      taken, written := 0, 0;
      if end - p < 6 {
        return;
      }
      var first := ParseHex4(p + 2);
      if 0xDC00 <= first <= 0xDFFF {
        return;
      }
      var code: nat;
      var length: nat;
      if 0xD800 <= first <= 0xDBFF {
        if end - (p + 6) < 6 {
          return;
        }
        if content[p + 6] != '\\' || content[p + 7] != 'u' {
          return;
        }
        var second := ParseHex4(p + 8);
        if second < 0xDC00 || second > 0xDFFF {
          return;
        }
        length, code := 12, 0x10000 + (first % 1024 * 1024 + second % 1024);
        assert first % 1024 == first - 0xD800 && second % 1024 == second - 0xDC00;
      } else {
        length, code := 6, first;
      }
      written := PutUtf8(output, at, code);
      taken := length;
    }

    /** What the second loop has done: the output so far fits with what is still to come. */
    ghost predicate Fitting(start: nat, end: nat, p: nat, a: nat, o: nat)
    {
      && start <= p && end < |content| && Aligned(content, p, a, end)
      && o + Skipped(content, start, end) <= p - start + Skipped(content, a, end)
    }

    lemma Room(start: nat, end: nat, p: nat, a: nat, o: nat)
      requires start <= end && Fitting(start, end, p, a, o)
      ensures o + Skipped(content, start, end) <= end - start
    {
      hide Skipped;
      AlignedEven(content, p, a, end);
    }

    lemma AfterLiteral(start: nat, end: nat, p: nat, a: nat, o: nat) returns (b: nat)
      requires start <= p < end && Fitting(start, end, p, a, o)
      ensures Literal(content, p, end).Some? ==>
                var l := Literal(content, p, end).value;
                Fitting(start, end, p + l.1, b, o + |l.0|) && o + |l.0| + Skipped(content, start, end) <= end - start
    {
      hide Skipped, Aligned, StringEnd;
      AlignedBounds(content, p, a, end);
      b := a;
      if Literal(content, p, end).Some? {
        LiteralSize(content, p, end);
        var t := p + Literal(content, p, end).value.1;
        b := AlignedNext(content, a, t, end);
        AlignedBounds(content, t, b, end);
        AlignedEven(content, t, b, end);
      }
    }

    /** One character or escape sequence. */
    method OneStep(start: nat, end: nat, p: nat, ghost a: nat, o: nat, output: array<char>)
        returns (ok: bool, q: nat, o': nat, ghost b: nat)
      requires start <= p < end && Fitting(start, end, p, a, o)
               && output.Length == end - start + 2 - Skipped(content, start, end)
      modifies output
      ensures !ok ==> Unescape(content, p, end) == JsonText.None
      ensures ok ==>
                p < q <= end + 1 && (q <= end ==> Fitting(start, end, q, b, o')) && o <= o' && o' + 2 <= output.Length
      ensures ok ==>
                output[..o] == old(output[..o])
                && Unescape(content, p, end) == Before(output[o..o'], Unescape(content, q, end))
    {
      hide Unescape, Skipped, StringEnd, Literal, Aligned, Escaped;
      UnescapeStep(content, p, end);
      Room(start, end, p, a, o);
      ok, q, o', b := true, p, o, a;
      ghost var before := output[..o];
      if content[p] != '\\' {
        b := AfterPlain(content, p, a, end);
        output[o] := content[p];
        q, o' := p + 1, o + 1;
        Room(start, end, q, b, o');
      } else if content[p + 1] == 'u' {
        b := AfterLiteral(start, end, p, a, o);
        var taken, written := PutLiteral(p, end, output, o);
        if taken == 0 {
          return false, p, o, a;
        }
        q, o' := p + taken, o + written;
      } else {
        var c := Escaped(content[p + 1]);
        if c.None? {
          return false, p, o, a;
        }
        b := AfterEscape(content, p, a, end);
        output[o] := c.value;
        q, o' := p + 2, o + 1;
        if q <= end {
          Room(start, end, q, b, o');
        }
      }
      assert output[..o] == before;
    }

    /** The second loop of parse_string, into a buffer that is as long as the first loop makes it. */
    method Decode(start: nat, end: nat, skipped: nat) returns (out: JsonText.Option<string>)
      requires start <= end < |content| && StringEnd(content, start) == JsonText.Some(end)
               && skipped == Skipped(content, start, end)
      ensures out == Unescape(content, start, end)
    {
      hide Unescape, Skipped, StringEnd, Literal, Aligned;
      SkippedRoom(content, start, end);
      var output := new char[end - start + 1 - skipped + 1];
      var p, o := start, 0;
      ghost var a := start;
      AlignedHere(content, start, end);
      NothingYet(content, start, end, output[..o]);
      while p < end
        invariant start <= p <= end + 1 && (p <= end ==> Fitting(start, end, p, a, o)) && o + 2 <= output.Length
        invariant Unescape(content, start, end) == Before(output[..o], Unescape(content, p, end))
        decreases end - p
      {
        ghost var was, at, done := o, p, output[..o];
        ghost var b;
        UnescapeStep(content, p, end);
        var ok;
        ok, p, o, b := OneStep(start, end, p, a, o, output);
        if !ok {
          return JsonText.None;
        }
        a := b;
        Further(done, output[was..o], Unescape(content, start, end), Unescape(content, at, end),
            Unescape(content, p, end));
        assert output[..o] == done + output[was..o];
      }
      UnescapeEnd(content, p, end);
      output[o] := NUL;
      assert output[..o] + "" == output[..o];
      out := JsonText.Some(output[..o]);
    }

    /** parse_string */
    method ParseString(item: Item) returns (ok: bool)
      modifies this`offset, item`data
      ensures match JsonText.ParseString(content, old(offset))
              case None => !ok
              case Some(x) => ok && offset == x.1 && item.data == Typed(old(item.data), STRING).(text := Text.Text(x.0))
    {
      hide Unescape, StringEnd, JsonText.CString;
      if offset >= |content| || content[offset] != '"' {
        return false;
      }
      var end, skipped := FindEnd(offset + 1);
      if end.None? {
        return false;
      }
      var out := Decode(offset + 1, end.value, skipped);
      if out.None? {
        return false;
      }
      item.data := Typed(item.data, STRING).(text := Text.Text(JsonText.CString(out.value)));
      offset := end.value + 1;
      ok := true;
    }

    // ---- values

    /** parse_value */
    method ParseValue(item: Item) returns (ok: bool)
      requires offset <= |content| && Empty(item)
      modifies this`offset, this`depth, item`data, item`child, item`kids, item`repr
      ensures match JsonText.ParseValue(content, old(offset), old(depth))
              case None => !ok
              case Some(x) =>
                ok && offset == x.1 && depth == old(depth) && Made(item, x.0, old(item.data.key))
                && fresh(item.repr - {item})
      decreases |content| - offset, 3
    {
      hide ParseItems, ParseMembers, JsonText.ParseString, JsonText.ParseNumber, Tree;
      if Lies(content, offset, "null") {
        item.data := Typed(item.data, NULL);
        offset := offset + 4;
        MadeLeaf(item);
        return true;
      }
      if Lies(content, offset, "false") {
        item.data := Typed(item.data, FALSE);
        offset := offset + 5;
        MadeLeaf(item);
        return true;
      }
      if Lies(content, offset, "true") {
        item.data := Typed(item.data, TRUE).(number := 1);
        offset := offset + 4;
        MadeLeaf(item);
        return true;
      }
      if offset < |content| && content[offset] == '"' {
        ok := ParseString(item);
        MadeLeaf(item);
        return;
      }
      if offset < |content| && (content[offset] == '-' || IsDigit(content[offset])) {
        ok := ParseNumber(item);
        MadeLeaf(item);
        return;
      }
      if offset < |content| && content[offset] == '[' {
        ok := ParseArray(item);
        return;
      }
      if offset < |content| && content[offset] == '{' {
        ok := ParseObject(item);
        return;
      }
      ok := false;
    }

    /** parse_array */
    method ParseArray(item: Item) returns (ok: bool)
      requires offset < |content| && content[offset] == '[' && Empty(item)
      modifies this`offset, this`depth, item`data, item`child, item`kids, item`repr
      ensures match ArrayAt(content, old(offset), old(depth))
              case None => !ok
              case Some(x) =>
                ok && offset == x.1 && depth == old(depth) && Made(item, x.0, old(item.data.key))
                && fresh(item.repr - {item})
      decreases |content| - offset, 2
    {
      hide Listed, ParseItems, Tree, All;
      if depth >= NESTING {
        return false;
      }
      depth := depth + 1;
      var head: Item?, current: Item? := null, null;
      ghost var c: seq<Item>, vs: seq<Value> := [], [];
      NothingListed();
      Advance();
      if offset < |content| && content[offset] == ']' {
        NothingListed();
      } else {
        if offset >= |content| {
          NoElement(content, depth);
          return false;
        }
        offset := offset - 1;
        ok, head, current, c, vs := ParseElements();
        if !ok {
          return false;
        }
      }
      ArrayKids(vs, item.data.key);
      ListedNodes(head, current, c, ElementsOf(vs));
      FinishList(item, ARRAY, head, current, c, JsonOf(Arr(vs), item.data.key));
      depth, offset := depth - 1, offset + 1;
      ok := true;
    }

    /** The loop over the elements, from the character in front of the first one to the closing bracket. */
    method ParseElements() returns (ok: bool, head: Item?, current: Item?, ghost c: seq<Item>, ghost vs: seq<Value>)
      requires offset + 1 < |content|
      modifies this`offset, this`depth
      ensures match ParseItems(content, old(offset) + 1, old(depth))
              case None => !ok
              case Some(x) => ok && offset + 1 == x.1 && depth == old(depth) && vs == x.0
      ensures ok ==> offset < |content| && Listed(head, current, c, ElementsOf(vs)) && fresh(All(c))
      decreases |content| - offset, 1
    {
      hide Listed, ParseItems, JsonText.ParseValue, Tree, All;
      head, current, c, vs := null, null, [], [];
      NothingListed();
      ghost var q, d := offset + 1, depth;
      NoneBefore(ParseItems(content, q, d));
      var going := true;
      while going
        invariant depth == d && offset <= |content| && Listed(head, current, c, ElementsOf(vs)) && fresh(All(c))
        invariant going ==>
                    old(offset) <= offset < |content|
                    && ParseItems(content, q, d) == With(vs, ParseItems(content, offset + 1, d))
        invariant !going ==>
                    ParseItems(content, q, d)
                    == With(vs, if offset < |content| && content[offset] == ']' then JsonText.Some(([], offset + 1))
                    else JsonText.None)
        decreases if going then |content| - offset + 1 else 0
      {
        ItemsStep(content, offset + 1, d, vs);
        ListedNodes(head, current, c, ElementsOf(vs));
        var last: Item;
        ghost var v;
        ok, head, last, v := ParseElement(head, current, c, vs);
        if !ok {
          return;
        }
        current, c, vs := last, c + [last], vs + [v];
        going := offset < |content| && content[offset] == ',';
      }
      if offset >= |content| || content[offset] != ']' {
        ok := false;
        return;
      }
      ok := true;
    }

    /** One element: a new item at the end of the list, filled from the text. */
    method ParseElement(head: Item?, current: Item?, ghost c: seq<Item>, ghost vs: seq<Value>)
        returns (ok: bool, head': Item?, item: Item, ghost v: Value)
      requires offset < |content| && Listed(head, current, c, ElementsOf(vs))
      modifies this`offset, this`depth, Nodes(c)`next
      ensures match JsonText.ParseValue(content, SkipSpace(content, old(offset) + 1), old(depth))
              case None => !ok
              case Some(x) => ok && offset == SkipSpace(content, x.1) && depth == old(depth) && v == x.0
      ensures ok ==> offset > old(offset) && Listed(head', item, c + [item], ElementsOf(vs + [v])) && fresh(item.repr)
                     && All(c + [item]) == old(All(c)) + item.repr
      decreases |content| - offset, 0
    {
      hide Listed, JsonText.ParseValue, Tree, All, HalfLinked, Distinct, Forest;
      v := Value.Null;
      head', item := LinkNew(head, current, c, ElementsOf(vs));
      NodesBelow(c, ElementsOf(vs));
      AllocatedBelow(c);
      Advance();
      assert Forest(c, ElementsOf(vs));
      AllocatedBelow(c);
      AllocatedBelow(c + [item]);
      ok := ParseValue(item);
      assert Forest(c, ElementsOf(vs));
      if !ok {
        return;
      }
      v := JsonText.ParseValue(content, SkipSpace(content, old(offset) + 1), old(depth)).value.0;
      SkipWhitespace();
      ElementsMore(vs, v);
      ListMore(c, ElementsOf(vs), item, JsonOf(v, NoText));
    }

    /** parse_object */
    method ParseObject(item: Item) returns (ok: bool)
      requires offset < |content| && content[offset] == '{' && Empty(item)
      modifies this`offset, this`depth, item`data, item`child, item`kids, item`repr
      ensures match ObjectAt(content, old(offset), old(depth))
              case None => !ok
              case Some(x) =>
                ok && offset == x.1 && depth == old(depth) && Made(item, x.0, old(item.data.key))
                && fresh(item.repr - {item})
      decreases |content| - offset, 2
    {
      hide Listed, ParseMembers, Tree, All;
      if depth >= NESTING {
        return false;
      }
      depth := depth + 1;
      var head: Item?, current: Item? := null, null;
      ghost var c: seq<Item>, ms: seq<Member> := [], [];
      Advance();
      if offset < |content| && content[offset] == '}' {
        NothingListed();
      } else {
        if offset >= |content| {
          NoMember(content, depth);
          return false;
        }
        offset := offset - 1;
        ok, head, current, c, ms := ParseMemberList();
        if !ok {
          return false;
        }
      }
      ObjectKids(ms, item.data.key);
      ListedNodes(head, current, c, MembersOf(ms));
      FinishList(item, OBJECT, head, current, c, JsonOf(Obj(ms), item.data.key));
      depth, offset := depth - 1, offset + 1;
      ok := true;
    }

    /** The loop over the members, from the character in front of the first one to the closing bracket. */
    method ParseMemberList() returns (ok: bool, head: Item?, current: Item?, ghost c: seq<Item>, ghost ms: seq<Member>)
      requires offset + 1 < |content|
      modifies this`offset, this`depth
      ensures match ParseMembers(content, old(offset) + 1, old(depth))
              case None => !ok
              case Some(x) => ok && offset + 1 == x.1 && depth == old(depth) && ms == x.0
      ensures ok ==> offset < |content| && Listed(head, current, c, MembersOf(ms)) && fresh(All(c))
      decreases |content| - offset, 1
    {
      hide Listed, ParseMembers, ParseMember, Tree, All;
      head, current, c, ms := null, null, [], [];
      NothingListed();
      ghost var q, d := offset + 1, depth;
      NoneBefore(ParseMembers(content, q, d));
      var going := true;
      while going
        invariant depth == d && offset <= |content| && Listed(head, current, c, MembersOf(ms)) && fresh(All(c))
        invariant going ==>
                    old(offset) <= offset < |content|
                    && ParseMembers(content, q, d) == With(ms, ParseMembers(content, offset + 1, d))
        invariant !going ==>
                    ParseMembers(content, q, d)
                    == With(ms, if offset < |content| && content[offset] == '}' then JsonText.Some(([], offset + 1))
                    else JsonText.None)
        decreases if going then |content| - offset + 1 else 0
      {
        MembersStep(content, offset + 1, d, ms);
        ListedNodes(head, current, c, MembersOf(ms));
        var last: Item;
        ghost var m;
        ok, head, last, m := ParseOneMember(head, current, c, ms);
        if !ok {
          return;
        }
        current, c, ms := last, c + [last], ms + [m];
        going := offset < |content| && content[offset] == ',';
      }
      if offset >= |content| || content[offset] != '}' {
        ok := false;
        return;
      }
      ok := true;
    }

    /** One member: a new item at the end of the list, with the name and then the value from the text. */
    method ParseOneMember(head: Item?, current: Item?, ghost c: seq<Item>, ghost ms: seq<Member>)
        returns (ok: bool, head': Item?, item: Item, ghost m: Member)
      requires offset < |content| && Listed(head, current, c, MembersOf(ms))
      modifies this`offset, this`depth, Nodes(c)`next
      ensures match ParseMember(content, old(offset) + 1, old(depth))
              case None => !ok
              case Some(x) => ok && offset == SkipSpace(content, x.1) && depth == old(depth) && m == x.0
      ensures ok ==> offset > old(offset) && Listed(head', item, c + [item], MembersOf(ms + [m])) && fresh(item.repr)
                     && All(c + [item]) == old(All(c)) + item.repr
      decreases |content| - offset, 0
    {
      hide Listed, JsonText.ParseString, JsonText.ParseValue, Tree, All, HalfLinked, Distinct, Forest;
      m := Member("", Value.Null);
      head', item := LinkNew(head, current, c, MembersOf(ms));
      NodesBelow(c, MembersOf(ms));
      AllocatedBelow(c);
      AllocatedBelow(c + [item]);
      ok := ParseName(item);
      if !ok {
        return;
      }
      assert Forest(c, MembersOf(ms));
      AllocatedBelow(c);
      AllocatedBelow(c + [item]);
      ok := ParseValue(item);
      if !ok {
        return;
      }
      assert Forest(c, MembersOf(ms));
      m := ParseMember(content, old(offset) + 1, old(depth)).value.0;
      SkipWhitespace();
      MembersMore(ms, m);
      ListMore(c, MembersOf(ms), item, JsonOf(m.value, Text.Text(m.key)));
    }

    /** The name of a member up to its value: the parsed string becomes the key. */
    method ParseName(item: Item) returns (ok: bool)
      requires offset < |content| && Empty(item)
      modifies this`offset, item`data
      ensures ok ==> Empty(item) && old(offset) < offset <= |content|
      ensures match JsonText.ParseString(content, SkipSpace(content, old(offset) + 1))
              case None => !ok
              case Some(k) =>
                var q := SkipSpace(content, k.1);
                if q < |content| && content[q] == ':' then ok && offset == SkipSpace(content,
                    q + 1) && item.data.key == Text.Text(k.0)
                else !ok
    {
      hide JsonText.ParseString;
      Advance();
      ok := ParseString(item);
      if !ok {
        return;
      }
      SkipWhitespace();
      item.data := item.data.(key := item.data.text, text := NoText);
      if offset >= |content| || content[offset] != ':' {
        return false;
      }
      Advance();
    }

    /** skip_utf8_bom */
    method SkipBom()
      requires offset == 0
      modifies this`offset
      ensures offset == Bom(content)
    {
      if 4 < |content| && content[0] == 0xEF as char && content[1] == 0xBB as char && content[2] == 0xBF as char {
        offset := 3;
      }
    }
  }

  /** cJSON_ParseWithLengthOpts. The length is that of `text`, with the terminator if it is counted. */
  method Parse(text: string, strict: bool) returns (item: Item?, end: nat)
    ensures match ParseText(text, strict)
            case None => item == null
            case Some(x) =>
              item != null && fresh(item.repr) && Made(item, x.0, NoText) && end == x.1 && item.next == null
              && item.prev == null
  {
    hide JsonText.ParseValue, Tree;
    end := 0;
    if |text| == 0 {
      return null, 0;
    }
    var buffer := new ParseBuffer(text);
    item := new Item(Plain(0, 0, NoText, NoText));
    buffer.SkipBom();
    buffer.SkipWhitespace();
    var ok := buffer.ParseValue(item);
    if !ok {
      return null, 0;
    }
    if strict {
      buffer.SkipWhitespace();
      if buffer.offset >= |text| || text[buffer.offset] != NUL {
        return null, 0;
      }
    }
    end := buffer.offset;
  }

  /** Printing an item and parsing the text makes items of the same shape with the same keys, strings and
      integers, exactly where the nesting limit of the parser is kept. */
  method PrintAndParse(item: Item, format: bool, ghost j: Json) returns (text: JsonText.Option<string>, copy: Item?)
    requires Tree(item, j) && Supported(j)
    ensures text.Some? <==> Printable(j) && |Print(View(j), format, 0)| + 2 <= INT_MAX
    ensures text.Some? ==> text.value == Print(View(j), format, 0)
    ensures copy != null <==> text.Some? && Within(View(j), NESTING)
    ensures copy != null ==>
              fresh(copy.repr) && Tree(copy, JsonOf(View(j), NoText)) && View(JsonOf(View(j), NoText)) == View(j)
  {
    hide Tree, Print, Printable, View, Supported, Within;
    text := PrintText(item, format, j);
    copy := null;
    if text.Some? {
      var end;
      copy, end := Parse(text.value + [NUL], true);
      SupportedPlain(j);
      PrintThenParse(View(j), format, true, true);
      ViewOfParsed(View(j), NoText);
    }
  }

  /** An item as cJSON_New_Item makes it, except for its key and the type. */
  ghost predicate Empty(item: Item)
    reads item
  {
    item.data.number == 0 && item.data.text == NoText && item.kids == [] && item.child == null && item.repr == {item}
  }

  /** The item is what parsing makes of the value. */
  ghost predicate Made(item: Item, v: Value, key: Text)
    reads item`data, item`child, item`kids, item`repr, item.repr - {item}
  {
    Tree(item, JsonOf(v, key))
  }

  lemma MadeLeaf(item: Item)
    requires item.kids == [] && item.child == null && item.repr == {item}
    ensures Tree(item, Node(item.data, []))
  {
  }

  /** The text of an array at p. */
  function ArrayAt(s: string, p: nat, depth: nat): JsonText.Option<(Value, nat)>
    requires p < |s|
  {
    if depth >= NESTING then JsonText.None
    else
      var q := SkipSpace(s, p + 1);
      if q < |s| && s[q] == ']' then JsonText.Some((Arr([]), q + 1))
      else match ParseItems(s, q, depth + 1) case None => JsonText.None case Some(x) => JsonText.Some((Arr(x.0), x.1))
  }

  /** The text of an object at p. */
  function ObjectAt(s: string, p: nat, depth: nat): JsonText.Option<(Value, nat)>
    requires p < |s|
  {
    if depth >= NESTING then JsonText.None
    else
      var q := SkipSpace(s, p + 1);
      if q < |s| && s[q] == '}' then JsonText.Some((Obj([]), q + 1))
      else match ParseMembers(s, q, depth + 1) case None => JsonText.None case Some(x) => JsonText.Some((Obj(x.0), x.1))
  }

  /** The items for the members of an object. */
  function MembersOf(ms: seq<Member>): seq<Json> {
    seq(|ms|, i requires 0 <= i < |ms| => JsonOf(ms[i].value, Text.Text(ms[i].key)))
  }

  lemma MembersMore(ms: seq<Member>, m: Member)
    ensures MembersOf(ms + [m]) == MembersOf(ms) + [JsonOf(m.value, Text.Text(m.key))]
  {
  }

  lemma ObjectKids(ms: seq<Member>, key: Text)
    ensures JsonOf(Obj(ms), key) == Node(Plain(OBJECT, 0, NoText, key), MembersOf(ms))
  {
  }

  lemma NoMember(s: string, depth: nat)
    ensures ParseMembers(s, |s|, depth) == JsonText.None
  {
  }

  lemma MembersStep(s: string, p: nat, depth: nat, ms: seq<Member>)
    requires p <= |s|
    ensures With(ms, ParseMembers(s, p, depth)) ==
              match ParseMember(s, p, depth)
              case None => JsonText.None
              case Some(x) =>
                var q := SkipSpace(s, x.1);
                if q < |s| && s[q] == ',' then With(ms + [x.0], ParseMembers(s, q + 1, depth))
                else With(ms + [x.0], if q < |s| && s[q] == '}' then JsonText.Some(([], q + 1)) else JsonText.None)
  {
    hide ParseMember;
    var v := ParseMember(s, p, depth);
    if v.Some? {
      var q := SkipSpace(s, v.value.1);
      if q < |s| && s[q] == ',' {
        var r := ParseMembers(s, q + 1, depth);
        if r.Some? {
          assert ms + ([v.value.0] + r.value.0) == ms + [v.value.0] + r.value.0;
        }
      } else {
        assert ms + [v.value.0] == ms + [v.value.0] + [];
      }
    }
  }

  // ---- the list being built

  /** The items for the elements of an array. */
  function ElementsOf(vs: seq<Value>): seq<Json> {
    seq(|vs|, i requires 0 <= i < |vs| => JsonOf(vs[i], NoText))
  }

  lemma ElementsMore(vs: seq<Value>, v: Value)
    ensures ElementsOf(vs + [v]) == ElementsOf(vs) + [JsonOf(v, NoText)]
  {
  }

  /** A list of parsed items whose head's prev is not set yet. */
  ghost predicate Listed(head: Item?, current: Item?, c: seq<Item>, js: seq<Json>)
    reads Nodes(c), All(c)
  {
    && |c| == |js| && Forest(c, js) && HalfLinked(c) && Distinct(c)
    && head == Head(c) && current == (if c == [] then null else c[|c| - 1])
  }

  lemma ArrayKids(vs: seq<Value>, key: Text)
    ensures JsonOf(Arr(vs), key) == Node(Plain(ARRAY, 0, NoText, key), ElementsOf(vs))
  {
  }

  lemma ListedNodes(head: Item?, current: Item?, c: seq<Item>, js: seq<Json>)
    requires Listed(head, current, c, js)
    ensures Nodes(c) <= All(c)
  {
    NodesBelow(c, js);
  }

  lemma NothingListed()
    ensures All([]) == {} && Listed(null, null, [], []) && ElementsOf([]) == [] && MembersOf([]) == []
  {
  }

  /** A new item behind the last one. */
  method LinkNew(head: Item?, current: Item?, ghost c: seq<Item>, ghost js: seq<Json>)
      returns (head': Item?, item: Item)
    requires Listed(head, current, c, js)
    modifies Nodes(c)`next
    ensures fresh(item) && Empty(item) && item.data.key == NoText && item !in All(c) && All(c) == old(All(c))
    ensures |c| == |js| && Forest(c, js) && HalfLinked(c + [item]) && Distinct(c + [item]) && head' == Head(c + [item])
  {
    hide Tree, Forest, HalfLinked, Distinct, NextOf, PrevOf, BackOf, All;
    NodesBelow(c, js);
    AllocatedBelow(c);
    HalfLinksOf(c);
    item := new Item(Plain(0, 0, NoText, NoText));
    assert item !in c by {
      assert forall n :: n in Nodes(c) ==> allocated(n);
    }
    AppendedDistinct(c, item);
    AddedAt(c, item, |c|);
    if head == null {
      head' := item;
    } else {
      assert current in Nodes(c);
      current.next := item;
      item.prev := current;
      head' := head;
    }
    ghost var t := c + [item];
    forall i | 0 <= i < |t|
      ensures t[i].next == NextOf(t, i) && t[i].prev == BackOf(t, i)
    {
      AddedAt(c, item, i);
      BackAdded(c, item, i);
      if i < |c| {
        assert c[i] in c && t[i] == c[i];
      }
    }
    FromHalfLinks(t);
  }

  lemma ListMore(c: seq<Item>, js: seq<Json>, n: Item, j: Json)
    requires |c| == |js| && Forest(c, js) && HalfLinked(c + [n]) && Distinct(c + [n]) && Tree(n, j) && n.repr !! All(c)
    ensures Listed(Head(c + [n]), n, c + [n], js + [j]) && All(c + [n]) == All(c) + n.repr
  {
    hide Tree, HalfLinked, Distinct, All;
    ForestLonger(c, js, j);
    ForestGrows(c, js + [j], n);
  }

  lemma ForestLonger(c: seq<Item>, js: seq<Json>, j: Json)
    requires |c| == |js| && Forest(c, js)
    ensures Forest(c, js + [j])
  {
    hide Tree, Apart;
  }

  function With<T>(xs: seq<T>, r: JsonText.Option<(seq<T>, nat)>): JsonText.Option<(seq<T>, nat)> {
    if r.Some? then JsonText.Some((xs + r.value.0, r.value.1)) else JsonText.None
  }

  lemma NoneBefore<T>(r: JsonText.Option<(seq<T>, nat)>)
    ensures With([], r) == r
  {
    if r.Some? {
      assert [] + r.value.0 == r.value.0;
    }
  }

  lemma NoElement(s: string, depth: nat)
    ensures ParseItems(s, |s|, depth) == JsonText.None
  {
  }

  lemma ItemsStep(s: string, p: nat, depth: nat, vs: seq<Value>)
    requires p <= |s|
    ensures With(vs, ParseItems(s, p, depth)) ==
              match JsonText.ParseValue(s, SkipSpace(s, p), depth)
              case None => JsonText.None
              case Some(x) =>
                var q := SkipSpace(s, x.1);
                if q < |s| && s[q] == ',' then With(vs + [x.0], ParseItems(s, q + 1, depth))
                else With(vs + [x.0], if q < |s| && s[q] == ']' then JsonText.Some(([], q + 1)) else JsonText.None)
  {
    hide JsonText.ParseValue;
    var v := JsonText.ParseValue(s, SkipSpace(s, p), depth);
    if v.Some? {
      var q := SkipSpace(s, v.value.1);
      if q < |s| && s[q] == ',' {
        var r := ParseItems(s, q + 1, depth);
        if r.Some? {
          assert vs + ([v.value.0] + r.value.0) == vs + [v.value.0] + r.value.0;
        }
      } else {
        assert vs + [v.value.0] == vs + [v.value.0] + [];
      }
    }
  }

  /** The end of parse_array and parse_object: the head's prev becomes the last item, and the parent gets the list. */
  method FinishList(item: Item, kind: nat, head: Item?, current: Item?, ghost c: seq<Item>, ghost j: Json)
    requires Listed(head, current, c, j.kids) && item !in All(c) && j.data == Plain(kind, 0, NoText, item.data.key)
    requires item.data.number == 0 && item.data.text == NoText
    modifies item`data, item`child, item`kids, item`repr, Nodes(c)`prev
    ensures Tree(item, j) && item.repr == {item} + old(All(c))
  {
    hide Tree, HalfLinked, Distinct, Forest, All;
    NodesBelow(c, j.kids);
    item.data := Typed(item.data, kind);
    item.child := head;
    CloseCopy(item, current, c, j);
  }

  function HexPrefix(s: string, p: nat, i: nat): nat
    requires i <= 4 && p + i <= |s| && forall k :: p <= k < p + i ==> HexValue(s[k]).Some?
  {
    if i == 0 then 0
    else (if i < 4 then 16 else 1) * (HexPrefix(s, p, i - 1) + HexValue(s[p + i - 1]).value)
  }

  lemma HexWhole(s: string, p: nat)
    requires p + 4 <= |s| && forall k :: p <= k < p + 4 ==> HexValue(s[k]).Some?
    ensures HexPrefix(s, p, 4) == Hex4(s, p)
  {
    hide HexValue;
    var a, b, c, d := HexValue(s[p]).value, HexValue(s[p + 1]).value, HexValue(s[p + 2]).value,
        HexValue(s[p + 3]).value;
    assert HexPrefix(s, p, 1) == 16 * a;
    assert HexPrefix(s, p, 2) == 16 * (16 * a + b);
    assert HexPrefix(s, p, 3) == 16 * (16 * (16 * a + b) + c);
  }

  lemma AlignedHere(s: string, p: nat, end: nat)
    requires p <= end && StringEnd(s, p) == JsonText.Some(end)
    ensures Aligned(s, p, p, end)
  {
  }

  lemma SkippedRoom(s: string, p: nat, end: nat)
    requires p <= end < |s| && StringEnd(s, p) == JsonText.Some(end)
    ensures 2 * Skipped(s, p, end) <= end - p
  {
    AlignedHere(s, p, end);
    AlignedEven(s, p, p, end);
  }

  lemma AlignedBounds(s: string, p: nat, a: nat, end: nat)
    requires Aligned(s, p, a, end)
    ensures p <= a <= p + 1 && a <= end && StringEnd(s, a) == JsonText.Some(end)
  {
  }

  lemma LiteralSize(s: string, p: nat, end: nat)
    requires p <= end <= |s| && Literal(s, p, end).Some?
    ensures var l := Literal(s, p, end).value;
            (l.1 == 6 && |l.0| <= 3) || (l.1 == 12 && |l.0| <= 4)
  {
    hide Hex4;
  }

  /** A character that is no backslash. */
  lemma AfterPlain(s: string, p: nat, a: nat, end: nat) returns (b: nat)
    requires p < end < |s| && Aligned(s, p, a, end) && s[p] != '\\'
    ensures Aligned(s, p + 1, b, end) && Skipped(s, b, end) == Skipped(s, a, end)
  {
    b := p + 1;
  }

  /** A backslash and the character behind it. */
  lemma AfterEscape(s: string, p: nat, a: nat, end: nat) returns (b: nat)
    requires p < end < |s| && Aligned(s, p, a, end) && s[p] == '\\'
    ensures p + 2 <= end ==> Aligned(s, p + 2, b, end) && Skipped(s, a, end) <= 1 + Skipped(s, b, end)
    ensures p + 2 > end ==> Skipped(s, a, end) == 0
  {
    b := if a == p + 1 && s[a] == '\\' then p + 3 else p + 2;
  }

  lemma NothingYet(s: string, p: nat, end: nat, out: string)
    requires end < |s| && out == ""
    ensures Unescape(s, p, end) == Before(out, Unescape(s, p, end))
  {
    hide Unescape;
    var r := Unescape(s, p, end);
    if r.Some? {
      assert out + r.value == r.value;
    }
  }

  lemma UnescapeEnd(s: string, p: nat, end: nat)
    requires end <= p && end < |s|
    ensures Unescape(s, p, end) == JsonText.Some("")
  {
  }

  lemma UnescapeStep(s: string, p: nat, end: nat)
    requires p < end < |s|
    ensures Unescape(s, p, end) ==
              if s[p] != '\\' then Before([s[p]], Unescape(s, p + 1, end))
              else if s[p + 1] == 'u' then
                match Literal(s, p, end)
                case None => JsonText.None
                case Some(l) => Before(l.0, Unescape(s, p + l.1, end))
              else
                match Escaped(s[p + 1])
                case None => JsonText.None
                case Some(c) => Before([c], Unescape(s, p + 2, end))
  {
    hide Literal, Escaped;
  }

  lemma Further(done: string, more: string, whole: JsonText.Option<string>, here: JsonText.Option<string>,
      rest: JsonText.Option<string>)
    requires whole == Before(done, here) && here == Before(more, rest)
    ensures whole == Before(done + more, rest)
  {
    if rest.Some? {
      assert done + (more + rest.value) == done + more + rest.value;
    }
  }

  lemma NumberParsed(s: string, p: nat, t: string)
    requires p <= |s| && t == s[p..p + NumberRun(s, p, 63)]
    ensures JsonText.ParseNumber(s, p) == if Strtod(t).0 == 0 then JsonText.None
            else JsonText.Some((IntOf(Strtod(t).1), p + Strtod(t).0))
  {
    hide Strtod, IntOf, NumberRun;
  }

  lemma RunStep(s: string, p: nat, left: nat)
    requires p <= |s|
    ensures NumberRun(s, p, left) == if left == 0 || p == |s| || !NumberChar(s[p]) then 0
            else 1 + NumberRun(s, p + 1, left - 1)
  {
  }

  /** The type field is set anew. */
  function Typed(d: Data, kind: nat): Data {
    d.(kind := kind, reference := false, constKey := false)
  }
}
