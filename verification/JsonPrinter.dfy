/** Rendering items as JSON text into a buffer that grows, or into one of fixed size. */
module JsonPrinter {
  import opened Decimals
  import opened ChildList
  import opened JsonText
  import opened JsonRoundTrip

  // ---- what items stand for

  const FALSE := 1
  const TRUE := 2
  const NULL := 4
  const NUMBER := 8
  const STRING := 16
  const ARRAY := 32
  const OBJECT := 64
  const RAW := 128

  function Kind(d: Data): nat {
    d.kind % 256
  }

  function Chars(t: Text): string {
    if t.Text? then t.chars else ""
  }

  /** Every item below, where it matters, has a kind that can be printed. */
  ghost predicate Printable(j: Json) {
    var k := Kind(j.data);
    k == FALSE || k == TRUE || k == NULL || k == NUMBER || k == STRING
    || ((k == ARRAY || k == OBJECT) && forall i :: 0 <= i < |j.kids| ==> Printable(j.kids[i]))
  }

  /** The value that an item and those below it stand for. */
  ghost function View(j: Json): Value {
    var k := Kind(j.data);
    if k == FALSE then Bool(false)
    else if k == TRUE then Bool(true)
    else if k == NUMBER then Num(j.data.number)
    else if k == STRING then Str(Chars(j.data.text))
    else if k == ARRAY then Arr(seq(|j.kids|, i requires 0 <= i < |j.kids| => View(j.kids[i])))
    else if k == OBJECT then
      Obj(seq(|j.kids|, i requires 0 <= i < |j.kids| => Member(Chars(j.kids[i].data.key), View(j.kids[i]))))
    else Null
  }

  /** Numbers are ints, texts and keys C strings, and there are no raw items. */
  ghost predicate Supported(j: Json) {
    && INT_MIN <= j.data.number <= INT_MAX && NUL !in Chars(j.data.text) && NUL !in Chars(j.data.key)
    && Kind(j.data) != RAW
    && forall i :: 0 <= i < |j.kids| ==> Supported(j.kids[i])
  }

  lemma {:induction false} SupportedPlain(j: Json)
    requires Supported(j)
    ensures Plain(View(j))
  {
    var v := View(j);
    forall i | 0 <= i < |j.kids|
      ensures Plain(View(j.kids[i])) && NUL !in Chars(j.kids[i].data.key)
    {
      SupportedPlain(j.kids[i]);
    }
    match v
    case Arr(items) =>
      forall i | 0 <= i < |items|
        ensures Plain(items[i])
      {
        assert items[i] == View(j.kids[i]);
      }
    case Obj(ms) =>
      forall i | 0 <= i < |ms|
        ensures NUL !in ms[i].key && Plain(ms[i].value)
      {
        assert ms[i] == Member(Chars(j.kids[i].data.key), View(j.kids[i]));
      }
    case _ =>
  }

  // ---- printed text holds no terminator

  lemma {:induction false} EscapeClean(x: string)
    requires NUL !in x
    ensures NUL !in Escape(x)
  {
    if x != [] {
      assert x[0] in x && forall c :: c in x[1..] ==> c in x;
      EscapeClean(x[1..]);
    }
  }

  lemma IntTextClean(n: int)
    ensures NUL !in IntText(n)
  {
    DigitsAre(if n < 0 then -n else n);
  }

  lemma {:induction false} PrintClean(v: Value, format: bool, depth: nat)
    requires Plain(v)
    ensures NUL !in Print(v, format, depth)
    decreases v, Length(v) + 1
  {
    hide Escape, Items, Members, Digits;
    match v
    case Num(n) => IntTextClean(n);
    case Str(s) => EscapeClean(s);
    case Arr(_) => ItemsClean(v, 0, format, depth + 1);
    case Obj(_) => MembersClean(v, 0, format, depth + 1);
    case _ =>
  }

  lemma {:induction false} ItemsClean(v: Value, i: nat, format: bool, depth: nat)
    requires v.Arr? && Plain(v) && i <= |v.items|
    ensures NUL !in Items(v, i, format, depth)
    decreases v, |v.items| - i
  {
    hide Print;
    if i < |v.items| {
      PrintClean(v.items[i], format, depth);
      ItemsClean(v, i + 1, format, depth);
    }
  }

  lemma {:induction false} MembersClean(v: Value, i: nat, format: bool, depth: nat)
    requires v.Obj? && Plain(v) && i <= |v.members|
    ensures NUL !in Members(v, i, format, depth)
    decreases v, |v.members| - i
  {
    hide Print, Escape;
    if i < |v.members| {
      PrintClean(v.members[i].value, format, depth);
      EscapeClean(v.members[i].key);
      MembersClean(v, i + 1, format, depth);
    }
  }

  // ---- the buffer

  class Printer {
    var buffer: array<char>
    var length: nat
    var offset: nat
    var depth: nat
    const noalloc: bool
    const format: bool
    /** The size that the buffer can have. */
    ghost const limit: nat

    ghost predicate Valid()
      reads this
    {
      && length == buffer.Length && length <= limit <= INT_MAX
      && (if noalloc then length == limit else limit == INT_MAX && length > 0)
      && (offset < length || (offset == 0 && length == 0))
    }

    /** What has been written and counted. */
    ghost function Written(): string
      reads this, buffer
      requires Valid()
    {
      buffer[..offset]
    }

    /** t is written after base, and terminated, whether it is counted yet or not. */
    ghost predicate Holds(base: string, t: string)
      reads this, buffer
    {
      && |base| + |t| + 2 <= buffer.Length && |base| <= offset <= |base| + |t|
      && buffer[..|base| + |t|] == base + t && buffer[|base| + |t|] == NUL
    }

    constructor (b: array<char>, fixed: bool, fmt: bool)
      requires b.Length <= INT_MAX && (!fixed ==> b.Length > 0)
      ensures Valid() && buffer == b && offset == 0 && depth == 0 && noalloc == fixed && format == fmt
      ensures limit == if fixed then b.Length else INT_MAX
    {
      buffer, length, offset, depth, noalloc, format := b, b.Length, 0, 0, fixed, fmt;
      limit := if fixed then b.Length else INT_MAX;
    }

    /** ensure: room for this many more characters and one. */
    method Ensure(needed: nat) returns (ok: bool)
      requires Valid()
      modifies this`buffer, this`length
      ensures Valid() && (buffer == old(buffer) || (!noalloc && fresh(buffer)))
      ensures ok <==> offset + needed + 1 <= limit
      ensures ok ==> offset + needed + 1 <= length
      ensures buffer[..offset] == old(buffer[..offset])
    {
      if length > 0 && offset >= length {
        return false;
      }
      if needed > INT_MAX {
        return false;
      }
      var total := needed + offset + 1;
      if total <= length {
        return true;
      }
      if noalloc {
        return false;
      }
      var newsize: nat;
      if total > INT_MAX / 2 {
        if total <= INT_MAX {
          newsize := INT_MAX;
        } else {
          return false;
        }
      } else {
        newsize := total * 2;
      }
      var newbuffer := new char[newsize];
      forall i | 0 <= i < offset + 1 {
        newbuffer[i] := buffer[i];
      }
      assert newbuffer[..offset] == buffer[..offset];
      length := newsize;
      buffer := newbuffer;
      ok := true;
    }

    /** Writes characters at a place in the buffer. */
    method Store(at: nat, t: string)
      requires at + |t| <= buffer.Length
      modifies buffer
      ensures buffer[..at + |t|] == old(buffer[..at]) + t
    {
      ghost var base := buffer[..at];
      forall i | 0 <= i < |t| {
        buffer[at + i] := t[i];
      }
      ghost var all := buffer[..at + |t|];
      assert |all| == |base + t|;
      forall k | 0 <= k < |all|
        ensures all[k] == (base + t)[k]
      {
        if k >= at {
          assert buffer[at + (k - at)] == t[k - at];
        }
      }
    }

    /** Writes a text at the offset, with or without terminator, after making room for it. */
    method Emit(t: string, needed: nat, ended: bool) returns (ok: bool)
      requires Valid() && |t| + (if ended then 1 else 0) <= needed
      modifies this`buffer, this`length, buffer
      ensures Valid() && (buffer == old(buffer) || (!noalloc && fresh(buffer)))
      ensures ok <==> offset + needed + 1 <= limit
      ensures ok ==> offset + needed + 1 <= length && buffer[..offset + |t|] == old(buffer[..offset]) + t
      ensures ok && ended ==> buffer[offset + |t|] == NUL
    {
      ok := Ensure(needed);
      if ok {
        Store(offset, t);
        if ended {
          Store(offset + |t|, [NUL]);
          Front(buffer[..offset + |t| + 1], offset + |t|, old(buffer[..offset]) + t, NUL);
        }
      }
    }

    lemma Front(all: string, n: nat, x: string, c: char)
      requires |all| == n + 1 && |x| == n && all == x + [c]
      ensures all[..n] == x && all[n] == c
    {
    }

    /** update_offset: counts what has been written up to the terminator. */
    method UpdateOffset(ghost base: string, ghost t: string)
      requires Valid() && Holds(base, t) && NUL !in t
      modifies this`offset
      ensures Valid() && offset == |base| + |t| && Written() == base + t
    {
      ghost var end := |base| + |t|;
      forall k | offset <= k < end
        ensures buffer[k] != NUL
      {
        assert buffer[..end][k] == (base + t)[k];
        assert t[k - |base|] in t;
      }
      var n := 0;
      while buffer[offset + n] != NUL
        invariant offset + n <= end
        decreases end - offset - n
      {
        n := n + 1;
      }
      offset := offset + n;
    }

    /** A text written whole at the offset. */
    lemma HoldsNow(base: string, t: string)
      requires Valid() && offset == |base| && offset + |t| + 2 <= length
      requires buffer[..offset + |t|] == base + t && buffer[offset + |t|] == NUL
      ensures Holds(base, t)
    {
    }

    // ---- numbers and strings

    /** print_number, where the number is an integer */
    method PrintNumber(n: int) returns (ok: bool)
      requires Valid() && INT_MIN <= n <= INT_MAX
      modifies this`buffer, this`length, this`offset, buffer
      ensures Valid() && (buffer == old(buffer) || (!noalloc && fresh(buffer)))
      ensures ok <==> old(offset) + |IntText(n)| + 2 <= limit
      ensures ok ==> Holds(old(Written()), IntText(n))
    {
      hide IntText;
      var text := IntText(n);
      IntTextShort(n);
      if |text| > 25 {
        return false;
      }
      ok := Emit(text, |text| + 1, true);
      if ok {
        offset := offset + |text|;
      }
    }

    /** print_string_ptr */
    method PrintString(text: Text) returns (ok: bool)
      requires Valid() && NUL !in Chars(text)
      modifies this`buffer, this`length, buffer
      ensures Valid() && (buffer == old(buffer) || (!noalloc && fresh(buffer)))
      ensures ok <==> offset + |Quote(Chars(text))| + 2 <= limit
      ensures ok ==> Holds(old(Written()), Quote(Chars(text)))
    {
      hide Escape;
      if text.NoText? {
        NoEscape();
        ok := Emit("\"\"", 3, true);
        return;
      }
      var input := text.chars;
      var more := CountEscapes(input);
      var n := |input| + more;
      ok := Ensure(n + 3);
      if ok {
        PutQuoted(input, more);
        HoldsNow(old(Written()), Quote(input));
      }
    }

    /** The quotes and the string between them, which is copied whole when nothing has to be escaped. */
    method PutQuoted(input: string, more: nat)
      requires Valid() && NUL !in input && |input| + more == |Escape(input)| && offset + |input| + more + 4 <= length
      modifies buffer
      ensures buffer[..offset + |Quote(input)|] == old(buffer[..offset]) + Quote(input)
              && buffer[offset + |Quote(input)|] == NUL
    {
      hide Escape, Quote;
      QuoteParts(input);
      var n := |input| + more;
      ghost var base := buffer[..offset];
      Store(offset, "\"");
      if more == 0 {
        Unescaped(input);
        Store(offset + 1, input);
      } else {
        WriteEscaped(offset + 1, input);
      }
      Join3(base, "\"", Escape(input), "\"");
      Store(offset + n + 1, "\"");
      Store(offset + n + 2, [NUL]);
      Front(buffer[..offset + n + 3], offset + n + 2, base + Quote(input), NUL);
    }

    /** The loop that copies a string and escapes what has to be. */
    method WriteEscaped(at: nat, input: string)
      requires NUL !in input && at + |Escape(input)| <= buffer.Length
      modifies buffer
      ensures buffer[..at + |Escape(input)|] == old(buffer[..at]) + Escape(input)
    {
      hide Escape, EscapeChar;
      ghost var e := Escape(input);
      var i: nat, q: nat := 0, at;
      assert input[0..] == input && e[0..] == e;
      while i < |input|
        invariant i <= |input| && at <= q && q - at <= |e| && e[q - at..] == Escape(input[i..])
        invariant forall k :: 0 <= k < at ==> buffer[k] == old(buffer[k])
        invariant forall k :: at <= k < q ==> buffer[k] == e[k - at]
        decreases |input| - i
      {
        NextEscape(e, q - at, input, i);
        var x := EscapeChar(input[i]);
        forall k | 0 <= k < |x| {
          buffer[q + k] := x[k];
        }
        q := q + |x|;
        i := i + 1;
      }
      NothingLeft(input[i..]);
    }

    // ---- values

    /** The text of an item. */
    ghost function TextOf(j: Json): string
      reads this`depth
    {
      Print(View(j), format, depth)
    }

    /** print_value */
    method PrintValue(item: Item, ghost j: Json) returns (ok: bool)
      requires Valid() && Tree(item, j) && Supported(j)
      modifies this, buffer
      ensures Valid() && (buffer == old(buffer) || (!noalloc && fresh(buffer)))
      ensures ok ==> Printable(j) && depth == old(depth) && Holds(old(Written()), old(TextOf(j)))
      ensures Printable(j) && old(offset) + |old(TextOf(j))| + 2 <= limit ==> ok
      decreases j, 3
    {
      hide Tree, Print, Written, Holds, Digits, Quote;
      DataOf(item, j);
      LeafFacts(j, format, depth);
      var kind := Kind(item.data);
      if kind == NULL {
        ok := Word("null", 5);
      } else if kind == FALSE {
        ok := Word("false", 6);
      } else if kind == TRUE {
        ok := Word("true", 5);
      } else if kind == NUMBER {
        ok := PrintNumber(item.data.number);
      } else if kind == STRING {
        ok := PrintString(item.data.text);
      } else if kind == ARRAY {
        ok := PrintArray(item, j);
      } else if kind == OBJECT {
        ok := PrintObject(item, j);
      } else {
        ok := false;
      }
    }

    /** A text that is not counted yet. */
    method Word(t: string, needed: nat) returns (ok: bool)
      requires Valid() && |t| + 1 == needed
      modifies this`buffer, this`length, buffer
      ensures Valid() && (buffer == old(buffer) || (!noalloc && fresh(buffer)))
      ensures ok <==> offset + |t| + 2 <= limit
      ensures ok ==> Holds(old(Written()), t)
    {
      ok := Emit(t, needed, true);
      if ok {
        HoldsNow(old(Written()), t);
      }
    }

    /** print_array */
    method PrintArray(item: Item, ghost j: Json) returns (ok: bool)
      requires Valid() && Tree(item, j) && Supported(j) && Kind(j.data) == ARRAY
      modifies this, buffer
      ensures Valid() && (buffer == old(buffer) || (!noalloc && fresh(buffer)))
      ensures ok ==> Printable(j) && depth == old(depth) && Holds(old(Written()), old(TextOf(j)))
      ensures Printable(j) && old(offset) + |old(TextOf(j))| + 2 <= limit ==> ok
      decreases j, 2
    {
      hide Tree, Print, Printable, View, Items, Supported, Holds;
      ghost var base, t := Written(), TextOf(j);
      ViewKids(j);
      ArrayParts(View(j), format, depth);
      ghost var whole := Items(View(j), 0, format, depth + 1);
      ok := Append("[", 1, false);
      if !ok {
        return;
      }
      depth := depth + 1;
      ok := PrintItems(item, j);
      if !ok {
        return;
      }
      Join3(base, "[", whole, "]");
      ok := CloseBracket(base, t);
    }

    /** The bracket behind the elements. */
    method CloseBracket(ghost base: string, ghost t: string) returns (ok: bool)
      requires Valid() && depth > 0 && |base| <= offset && base + t == Written() + "]"
      modifies this`buffer, this`length, this`depth, buffer
      ensures Valid() && (buffer == old(buffer) || (!noalloc && fresh(buffer)))
      ensures ok <==> |base| + |t| + 2 <= limit
      ensures ok ==> depth == old(depth) - 1 && Holds(base, t)
    {
      ok := Emit("]", 2, true);
      if ok {
        depth := depth - 1;
        HoldsBehind(base, t);
      }
    }

    method PrintItems(item: Item, ghost j: Json) returns (ok: bool)
      requires Valid() && Tree(item, j) && Supported(j) && Kind(j.data) == ARRAY && View(j).Arr?
      modifies this, buffer
      ensures Valid() && (buffer == old(buffer) || (!noalloc && fresh(buffer)))
      ensures ok ==>
                Printable(j) && depth == old(depth) && Written() == old(Written()) + Items(View(j), 0, format, depth)
      ensures Printable(j) && old(offset) + |Items(View(j), 0, format, old(depth))| + 2 <= limit ==> ok
      decreases j, 1
    {
      hide Tree, Print, Printable, View, Items, Supported;
      ghost var v, d := View(j), depth;
      ViewKids(j);
      var current := item.child;
      ghost var i: nat := 0;
      TreeKids(item, j, 0);
      while current != null
        invariant Valid() && (buffer == old(buffer) || (!noalloc && fresh(buffer))) && depth == d && Tree(item, j)
        invariant i <= |j.kids| == |item.kids| && current == if i < |item.kids| then item.kids[i] else null
        invariant forall k :: 0 <= k < i ==> Printable(j.kids[k])
        invariant Written() + Items(v, i, format, d) == old(Written()) + Items(v, 0, format, d)
        decreases |j.kids| - i
      {
        TreeKids(item, j, i);
        var last := current.next == null;
        ok := PrintItem(current, v, i, last, j.kids[i]);
        if !ok {
          NotPrintable(j, i);
          return;
        }
        assert Tree(item, j);
        TreeKids(item, j, i + 1);
        current := current.next;
        i := i + 1;
      }
      NoItems(v, format, d);
      AllPrintable(j);
      ok := true;
    }

    /** One element, with a comma unless it is the last. */
    method PrintItem(current: Item, ghost v: Value, ghost i: nat, last: bool, ghost kid: Json) returns (ok: bool)
      requires Valid() && Tree(current, kid) && Supported(kid)
      requires v.Arr? && i < |v.items| && v.items[i] == View(kid) && (last <==> i + 1 == |v.items|)
      modifies this, buffer
      ensures Valid() && (buffer == old(buffer) || (!noalloc && fresh(buffer)))
      ensures ok ==> Printable(kid) && depth == old(depth)
                     && Written() + Items(v, i + 1, format, old(depth)) == old(Written())
                     + Items(v, i, format, old(depth))
      ensures Printable(kid) && old(offset) + |Items(v, i, format, old(depth))| + 2 <= limit ==> ok
      decreases kid, 5
    {
      hide Tree, Print, Printable, View, Items, Supported, Holds;
      ItemsStart(v, i, format, depth);
      ghost var base, t := Written(), TextOf(kid);
      ghost var sep, rest := if last then "" else Comma(format), Items(v, i + 1, format, depth);
      ok := PrintCounted(current, kid);
      if ok && !last {
        ok := Append(Comma(format), if format then 3 else 2, true);
      }
      Join3(base, t, sep, rest);
      JoinEnd(base + t, rest);
    }

    /** An element's or member's value, counted. */
    method PrintCounted(current: Item, ghost kid: Json) returns (ok: bool)
      requires Valid() && Tree(current, kid) && Supported(kid)
      modifies this, buffer
      ensures Valid() && (buffer == old(buffer) || (!noalloc && fresh(buffer)))
      ensures ok ==> Printable(kid) && depth == old(depth) && Written() == old(Written()) + old(TextOf(kid))
      ensures Printable(kid) && old(offset) + |old(TextOf(kid))| + 2 <= limit ==> ok
      decreases kid, 4
    {
      hide Tree, Print, Printable, View, Supported, Holds;
      ghost var base, t := Written(), TextOf(kid);
      ok := PrintValue(current, kid);
      if ok {
        SupportedPlain(kid);
        PrintClean(View(kid), format, depth);
        UpdateOffset(base, t);
      }
    }

    /** Text that is counted at once. */
    method Append(t: string, needed: nat, ended: bool) returns (ok: bool)
      requires Valid() && |t| + (if ended then 1 else 0) <= needed
      modifies this`buffer, this`length, this`offset, buffer
      ensures Valid() && (buffer == old(buffer) || (!noalloc && fresh(buffer)))
      ensures ok <==> old(offset) + needed + 1 <= limit
      ensures ok ==> Written() == old(Written()) + t
    {
      ok := Emit(t, needed, ended);
      if ok {
        offset := offset + |t|;
      }
    }

    lemma HoldsBehind(base: string, t: string)
      requires Valid() && |base| <= offset <= |base| + |t| && |base| + |t| + 2 <= length
      requires buffer[..|base| + |t|] == base + t && buffer[|base| + |t|] == NUL
      ensures Holds(base, t)
    {
    }

    /** print_object */
    method PrintObject(item: Item, ghost j: Json) returns (ok: bool)
      requires Valid() && Tree(item, j) && Supported(j) && Kind(j.data) == OBJECT
      modifies this, buffer
      ensures Valid() && (buffer == old(buffer) || (!noalloc && fresh(buffer)))
      ensures ok ==> Printable(j) && depth == old(depth) && Holds(old(Written()), old(TextOf(j)))
      ensures Printable(j) && old(offset) + |old(TextOf(j))| + 2 <= limit ==> ok
      decreases j, 2
    {
      hide Tree, Print, Printable, View, Members, Supported, Holds, Tabs, LineEnd, Readable;
      ghost var base, t := Written(), TextOf(j);
      ViewKids(j);
      ObjectParts(View(j), format, depth);
      LineLength(format);
      ghost var whole, tail := Members(View(j), 0, format, depth + 1), Indent(format, depth) + "}";
      ok := Append("{" + LineEnd(format), if format then 3 else 2, false);
      if !ok {
        return;
      }
      depth := depth + 1;
      ok := PrintMembers(item, j);
      if !ok {
        return;
      }
      Join4(base, "{", LineEnd(format), whole, tail);
      ok := CloseBrace(base, t);
    }

    /** The bracket behind the members, on a line of its own. */
    method CloseBrace(ghost base: string, ghost t: string) returns (ok: bool)
      requires Valid() && depth > 0 && |base| <= offset && base + t == Written() + (Indent(format, depth - 1) + "}")
      modifies this`buffer, this`length, this`depth, buffer
      ensures Valid() && (buffer == old(buffer) || (!noalloc && fresh(buffer)))
      ensures ok <==> |base| + |t| + 2 <= limit
      ensures ok ==> depth == old(depth) - 1 && Holds(base, t)
    {
      ok := Emit(Indent(format, depth - 1) + "}", if format then depth + 1 else 2, true);
      if ok {
        depth := depth - 1;
        HoldsBehind(base, t);
      }
    }

    method PrintMembers(item: Item, ghost j: Json) returns (ok: bool)
      requires Valid() && Tree(item, j) && Supported(j) && Kind(j.data) == OBJECT && View(j).Obj?
      modifies this, buffer
      ensures Valid() && (buffer == old(buffer) || (!noalloc && fresh(buffer)))
      ensures ok ==>
                Printable(j) && depth == old(depth) && Written() == old(Written()) + Members(View(j), 0, format, depth)
      ensures Printable(j) && old(offset) + |Members(View(j), 0, format, old(depth))| + 2 <= limit ==> ok
      decreases j, 1
    {
      hide Tree, Print, Printable, View, Members, Supported;
      ghost var v, d := View(j), depth;
      ViewKids(j);
      var current := item.child;
      ghost var i: nat := 0;
      TreeKids(item, j, 0);
      while current != null
        invariant Valid() && (buffer == old(buffer) || (!noalloc && fresh(buffer))) && depth == d && Tree(item, j)
        invariant i <= |j.kids| == |item.kids| && current == if i < |item.kids| then item.kids[i] else null
        invariant forall k :: 0 <= k < i ==> Printable(j.kids[k])
        invariant Written() + Members(v, i, format, d) == old(Written()) + Members(v, 0, format, d)
        decreases |j.kids| - i
      {
        TreeKids(item, j, i);
        var last := current.next == null;
        ok := PrintMember(current, v, i, last, j.kids[i]);
        if !ok {
          NotPrintable(j, i);
          return;
        }
        assert Tree(item, j);
        TreeKids(item, j, i + 1);
        current := current.next;
        i := i + 1;
      }
      NoMembers(v, format, d);
      AllPrintable(j);
      ok := true;
    }

    /** Indentation, key, colon, value, a comma unless it is the last, and the end of the line. */
    method PrintMember(current: Item, ghost v: Value, ghost i: nat, last: bool, ghost kid: Json) returns (ok: bool)
      requires Valid() && Tree(current, kid) && Supported(kid)
      requires v.Obj? && i < |v.members| && v.members[i] == Member(Chars(kid.data.key), View(kid))
               && (last <==> i + 1 == |v.members|)
      modifies this, buffer
      ensures Valid() && (buffer == old(buffer) || (!noalloc && fresh(buffer)))
      ensures ok ==> Printable(kid) && depth == old(depth)
                     && Written() + Members(v, i + 1, format, old(depth)) == old(Written())
                     + Members(v, i, format, old(depth))
      ensures Printable(kid) && old(offset) + |Members(v, i, format, old(depth))| + 2 <= limit ==> ok
      decreases kid, 5
    {
      hide Tree, Print, Printable, View, Members, Supported, Holds, Tabs, Indent, Quote, LineEnd, Colon;
      LineLength(format);
      MembersStart(v, i, format, depth);
      ghost var base, t, q := Written(), TextOf(kid), Quote(Chars(kid.data.key));
      ok := PrintKey(current, kid);
      if ok {
        ok := PrintCounted(current, kid);
      }
      if ok {
        var n := (if format then 1 else 0) + (if last then 0 else 1);
        ok := Append((if last then "" else ",") + LineEnd(format), n + 1, true);
        ghost var comma := if last then "" else ",";
        JoinMember(base, Indent(format, depth), q, Colon(format), t, comma, LineEnd(format),
            Members(v, i + 1, format, depth));
      }
    }

    /** Indentation, key and colon. */
    method PrintKey(current: Item, ghost kid: Json) returns (ok: bool)
      requires Valid() && Tree(current, kid) && Supported(kid)
      modifies this`buffer, this`length, this`offset, buffer
      ensures Valid() && (buffer == old(buffer) || (!noalloc && fresh(buffer)))
      ensures ok ==> Written() == old(Written()) + Indent(format, depth) + Quote(Chars(kid.data.key)) + Colon(format)
      ensures old(offset) + |Indent(format, depth)| + |Quote(Chars(kid.data.key))| + |Colon(format)| + 2 <= limit ==> ok
    {
      hide Tree, Holds, Quote;
      DataOf(current, kid);
      if format {
        ok := Append(Tabs(depth), depth, false);
        if !ok {
          return;
        }
      }
      ghost var base := Written();
      ok := PrintString(current.data.key);
      if ok {
        QuoteClean(Chars(kid.data.key));
        UpdateOffset(base, Quote(Chars(kid.data.key)));
        ok := Append(Colon(format), if format then 2 else 1, false);
      }
    }
  }

  /** print, as cJSON_Print and cJSON_PrintUnformatted use it */
  method PrintText(item: Item, format: bool, ghost j: Json) returns (text: JsonText.Option<string>)
    requires Tree(item, j) && Supported(j)
    ensures text.Some? <==> Printable(j) && |Print(View(j), format, 0)| + 2 <= INT_MAX
    ensures text.Some? ==> text.value == Print(View(j), format, 0)
  {
    hide Tree, Print, Printable, View, Supported;
    var b := new char[256];
    var p := new Printer(b, false, format);
    ghost var t := Print(View(j), format, 0);
    var ok := p.PrintValue(item, j);
    if !ok {
      return JsonText.None;
    }
    SupportedPlain(j);
    PrintClean(View(j), format, 0);
    p.UpdateOffset("", t);
    text := JsonText.Some(p.buffer[..p.offset]);
    assert "" + t == t;
  }

  /** cJSON_PrintPreallocated: two characters more than the text are needed. */
  method PrintPreallocated(item: Item, b: array<char>, format: bool, ghost j: Json) returns (ok: bool)
    requires Tree(item, j) && Supported(j) && b.Length <= INT_MAX
    modifies b
    ensures ok <==> Printable(j) && |Print(View(j), format, 0)| + 2 <= b.Length
    ensures ok ==>
              b[..|Print(View(j), format, 0)|] == Print(View(j), format, 0) && b[|Print(View(j), format, 0)|] == NUL
  {
    hide Tree, Print, Printable, View, Supported;
    var p := new Printer(b, true, format);
    ghost var t := Print(View(j), format, 0);
    ok := p.PrintValue(item, j);
    assert "" + t == t;
  }

  lemma Join3(base: string, a: string, b: string, c: string)
    ensures base + a + b + c == base + (a + (b + c))
  {
  }

  lemma JoinEnd(x: string, rest: string)
    ensures x + "" + rest == x + rest
  {
  }

  lemma Join4(base: string, a: string, b: string, c: string, d: string)
    ensures base + (a + b) + c + d == base + (a + (b + (c + d)))
  {
  }

  lemma JoinMember(base: string, a: string, b: string, c: string, t: string, f: string, g: string, h: string)
    ensures base + a + b + c + t + (f + g) + h == base + (a + (b + (c + (t + (f + (g + h))))))
  {
  }

  lemma LineLength(format: bool)
    ensures |LineEnd(format)| == if format then 1 else 0
  {
  }

  lemma QuoteParts(x: string)
    ensures Quote(x) == "\"" + (Escape(x) + "\"") && |Quote(x)| == |Escape(x)| + 2
  {
  }

  lemma QuoteClean(x: string)
    requires NUL !in x
    ensures NUL !in Quote(x)
  {
    EscapeClean(x);
  }

  lemma ViewKids(j: Json)
    requires Kind(j.data) == ARRAY || Kind(j.data) == OBJECT
    ensures Kind(j.data) == ARRAY ==>
              View(j).Arr? && |View(j).items| == |j.kids| && forall i :: 0 <= i < |j.kids| ==>
                View(j).items[i] == View(j.kids[i])
    ensures Kind(j.data) == OBJECT ==> View(j).Obj? && |View(j).members| == |j.kids|
                                       && forall i :: 0 <= i < |j.kids| ==>
                                         View(j).members[i] == Member(Chars(j.kids[i].data.key), View(j.kids[i]))
    ensures Supported(j) ==> forall i :: 0 <= i < |j.kids| ==> Supported(j.kids[i])
  {
  }

  lemma NotPrintable(j: Json, i: nat)
    requires (Kind(j.data) == ARRAY || Kind(j.data) == OBJECT) && i < |j.kids|
    ensures !Printable(j.kids[i]) ==> !Printable(j)
  {
  }

  lemma AllPrintable(j: Json)
    requires (Kind(j.data) == ARRAY || Kind(j.data) == OBJECT) && forall i :: 0 <= i < |j.kids| ==> Printable(j.kids[i])
    ensures Printable(j)
  {
  }

  lemma DataOf(item: Item, j: Json)
    requires Tree(item, j)
    ensures item.data == j.data
  {
  }

  /** The texts of the kinds without children. */
  lemma LeafFacts(j: Json, format: bool, depth: nat)
    requires Supported(j)
    ensures var k := Kind(j.data);
            && (k == NULL ==> Print(View(j), format, depth) == "null")
            && (k == FALSE ==> Print(View(j), format, depth) == "false")
            && (k == TRUE ==> Print(View(j), format, depth) == "true")
            && (k == NUMBER ==>
              Print(View(j), format, depth) == IntText(j.data.number) && INT_MIN <= j.data.number <= INT_MAX)
            && (k == STRING ==>
              Print(View(j), format, depth) == Quote(Chars(j.data.text)) && NUL !in Chars(j.data.text))
  {
  }

  lemma IntTextShort(n: int)
    requires INT_MIN <= n <= INT_MAX
    ensures |IntText(n)| <= 11
  {
    hide Digits;
    assert Power(10) == 10000000000 by { assert Power(5) == 100000; }
    DigitsShort(if n < 0 then -n else n, 10);
  }

  lemma NoEscape()
    ensures Quote("") == "\"\""
  {
  }

  lemma NothingLeft(s: string)
    ensures s == [] ==> Escape(s) == []
  {
  }

  lemma NextEscape(e: string, d: nat, input: string, i: nat)
    requires d <= |e| && i < |input| && e[d..] == Escape(input[i..])
    ensures var x := EscapeChar(input[i]);
            d + |x| <= |e| && e[d + |x|..] == Escape(input[i + 1..]) && forall k :: 0 <= k < |x| ==> e[d + k] == x[k]
  {
    hide EscapeChar;
    var x := EscapeChar(input[i]);
    assert input[i..][1..] == input[i + 1..];
    assert e[d..] == x + Escape(input[i + 1..]);
    assert |e| - d == |x| + |Escape(input[i + 1..])|;
    forall k | 0 <= k < |x|
      ensures e[d + k] == x[k]
    {
      assert e[d..][k] == x[k];
    }
    assert e[d + |x|..] == e[d..][|x|..];
  }

  /** The first loop of print_string_ptr: how many characters escaping adds. */
  method CountEscapes(input: string) returns (more: nat)
    requires NUL !in input
    ensures |input| + more == |Escape(input)|
  {
    more := 0;
    var i := 0;
    while i < |input|
      invariant i <= |input| && i + more + |Escape(input[i..])| == |Escape(input)|
    {
      assert input[i..][1..] == input[i + 1..];
      var c := input[i];
      if c == '"' || c == '\\' || c as int == 8 || c as int == 12 || c == '\n' || c == '\r' || c == '\t' {
        more := more + 1;
      } else if c as int < 32 {
        more := more + 5;
      }
      i := i + 1;
    }
  }

  lemma {:induction false} Unescaped(x: string)
    requires |Escape(x)| == |x|
    ensures Escape(x) == x
  {
    if x != [] {
      EscapeGrows(x[1..]);
      Unescaped(x[1..]);
    }
  }

  lemma {:induction false} EscapeGrows(x: string)
    ensures |Escape(x)| >= |x|
  {
    if x != [] {
      EscapeGrows(x[1..]);
    }
  }
}
