/** How printed arrays and objects are laid out: their parts, joined. */
module JsonLayout {
  import opened JsonText

  /** The parts with sep between them. */
  function Join(parts: seq<string>, sep: string): string {
    if parts == [] then "" else if |parts| == 1 then parts[0] else parts[0] + sep + Join(parts[1..], sep)
  }

  function ItemTexts(items: seq<Value>, format: bool, depth: nat): (t: seq<string>)
    ensures |t| == |items| && forall i :: 0 <= i < |items| ==> t[i] == Print(items[i], format, depth)
  {
    seq(|items|, i requires 0 <= i < |items| => Print(items[i], format, depth))
  }

  lemma {:induction false} ItemsJoined(v: Value, i: nat, format: bool, depth: nat)
    requires v.Arr? && i <= |v.items|
    ensures Items(v, i, format, depth)
         == Join(ItemTexts(v.items[i..], format, depth), if format then ", " else ",")
    decreases |v.items| - i
  {
    hide Print;
    if i < |v.items| {
      var t, rest := ItemTexts(v.items[i..], format, depth), ItemTexts(v.items[i + 1..], format, depth);
      ItemsJoined(v, i + 1, format, depth);
      assert t[1..] == rest && t[0] == Print(v.items[i], format, depth);
    }
  }

  /** An array takes one line, whatever is in it: its elements with a comma, and a space if formatted. */
  lemma ArrayLayout(items: seq<Value>, format: bool, depth: nat)
    ensures Print(Arr(items), format, depth)
         == "[" + Join(ItemTexts(items, format, depth + 1), if format then ", " else ",") + "]"
  {
    ItemsJoined(Arr(items), 0, format, depth + 1);
    assert Arr(items).items[0..] == items;
  }

  /** The members, each on a line of its own if formatted, indented by a tab for every level. */
  function MemberTexts(members: seq<Member>, format: bool, depth: nat): (t: seq<string>)
    ensures |t| == |members|
    ensures forall i :: 0 <= i < |members| ==> t[i] == MemberText(members[i], format, depth)
  {
    seq(|members|, i requires 0 <= i < |members| => MemberText(members[i], format, depth))
  }

  function MemberText(m: Member, format: bool, depth: nat): string {
    if format then seq(depth, _ => '\t') + Quote(m.key) + ":\t" + Print(m.value, true, depth)
    else Quote(m.key) + ":" + Print(m.value, false, depth)
  }

  lemma MemberStart(m: Member, format: bool, depth: nat)
    ensures Indent(format, depth) + Quote(m.key) + Colon(format) + Print(m.value, format, depth)
         == MemberText(m, format, depth)
  {
    hide Print, Quote;
    if format { TabsAre(depth); }
  }

  lemma TabsAre(n: nat)
    ensures Tabs(n) == seq(n, _ => '\t')
  {
  }

  lemma ObjectParts(members: seq<Member>, format: bool, depth: nat)
    ensures Print(Obj(members), format, depth)
         == "{" + LineEnd(format) + Members(Obj(members), 0, format, depth + 1) + Indent(format, depth) + "}"
  {
    hide Members, Indent;
  }

  lemma {:induction false} MembersJoined(v: Value, i: nat, format: bool, depth: nat)
    requires v.Obj? && i < |v.members|
    ensures Members(v, i, format, depth)
         == Join(MemberTexts(v.members[i..], format, depth), if format then ",\n" else ",")
            + if format then "\n" else ""
    decreases |v.members| - i
  {
    hide Print, Quote, Indent, Colon;
    var t := MemberTexts(v.members[i..], format, depth);
    MemberStart(v.members[i], format, depth);
    assert t[0] == MemberText(v.members[i], format, depth);
    if i + 1 < |v.members| {
      MembersJoined(v, i + 1, format, depth);
      assert t[1..] == MemberTexts(v.members[i + 1..], format, depth);
      assert Members(v, i, format, depth)
          == t[0] + "," + LineEnd(format) + Members(v, i + 1, format, depth);
    } else {
      assert Members(v, i + 1, format, depth) == "";
    }
  }

  /** A formatted object takes a line for each member; without formatting nothing but the parts is written. */
  lemma ObjectLayout(members: seq<Member>, format: bool, depth: nat)
    ensures Print(Obj(members), format, depth) ==
            if !format then "{" + Join(MemberTexts(members, false, depth + 1), ",") + "}"
            else if members == [] then "{\n" + seq(depth, _ => '\t') + "}"
            else "{\n" + Join(MemberTexts(members, true, depth + 1), ",\n") + "\n" + seq(depth, _ => '\t') + "}"
  {
    hide Join, MemberTexts, Print, Members;
    TabsAre(depth);
    ObjectParts(members, format, depth);
    if members == [] {
      NothingJoined(format, depth + 1);
    } else {
      MembersJoined(Obj(members), 0, format, depth + 1);
      assert Obj(members).members[0..] == members;
    }
  }

  lemma NothingJoined(format: bool, depth: nat)
    ensures Join(MemberTexts([], format, depth), ",") == Members(Obj([]), 0, format, depth) == ""
  {
  }
}
