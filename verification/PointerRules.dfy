/** The text of a JSON pointer by the rules of RFC 6901, apart from the code that writes and reads it. */
module PointerRules {
  import opened ChildList
  import opened Decimals
  import P = JsonPointer
  import G = JsonGrammar
  import R = JsonRoundTrip

  /** Every '~' with mark behind it becomes one character. */
  function Replaced(t: string, mark: char, to: char): string {
    if |t| >= 2 && t[0] == '~' && t[1] == mark then [to] + Replaced(t[2..], mark, to)
    else if t == "" then "" else [t[0]] + Replaced(t[1..], mark, to)
  }

  /** Section 4: first ~1 is read as '/', then ~0 as '~'. */
  function Unescaped(t: string): string {
    Replaced(Replaced(t, '1', '/'), '0', '~')
  }

  lemma ReplacedFirst(c: char, t: string, mark: char, to: char)
    requires c != '~'
    ensures Replaced([c] + t, mark, to) == [c] + Replaced(t, mark, to)
  {
    assert ([c] + t)[1..] == t;
  }

  lemma ReplacedOther(c: char, t: string, mark: char, to: char)
    requires c != mark && c != '~'
    ensures Replaced(['~', c] + t, mark, to) == ['~', c] + Replaced(t, mark, to)
  {
    assert (['~', c] + t)[1..] == [c] + t;
    ReplacedFirst(c, t, mark, to);
  }

  lemma ReplacedMark(t: string, mark: char, to: char)
    ensures Replaced(['~', mark] + t, mark, to) == [to] + Replaced(t, mark, to)
  {
    assert (['~', mark] + t)[2..] == t;
  }

  /** An escaped key is read as the key. */
  lemma {:induction false} KeyMeans(s: string)
    ensures Unescaped(P.Escape(s)) == s
  {
    hide Replaced;
    if s == "" {
      Nothing();
    } else {
      KeyMeans(s[1..]);
      var c, rest := s[0], P.Escape(s[1..]);
      var half := Replaced(rest, '1', '/');
      assert s == [c] + s[1..];
      if c == '/' {
        ReplacedMark(rest, '1', '/');
        ReplacedFirst('/', half, '0', '~');
      } else if c == '~' {
        ReplacedOther('0', rest, '1', '/');
        ReplacedMark(half, '0', '~');
      } else {
        ReplacedFirst(c, rest, '1', '/');
        ReplacedFirst(c, half, '0', '~');
      }
    }
  }

  lemma Nothing()
    ensures Replaced("", '1', '/') == Replaced("", '0', '~') == ""
  {
  }

  /** A token that leads from j to its child k: the number of an element in decimal digits without leading
      zeros, or the name of a member, escaped. */
  ghost predicate TokenFor(j: Json, k: nat, t: string) {
    && k < |j.kids| && '/' !in t
    && (P.IsArray(j.data) ==>
          G.AllDigits(t) && t != "" && (t[0] == '0' ==> |t| == 1) && G.Decimal(t) == k)
    && (!P.IsArray(j.data) ==> P.IsObject(j.data) && Unescaped(t) == P.KeyOf(j.kids[k]))
  }

  /** Section 3: every token has a '/' in front. */
  ghost predicate PointerFor(j: Json, path: seq<nat>, p: string)
    decreases |path|
  {
    if path == [] then p == ""
    else
      exists t: string, rest: string ::
        p == "/" + t + rest && TokenFor(j, path[0], t) && PointerFor(j.kids[path[0]], path[1..], rest)
  }

  lemma IndexMeans(k: nat)
    ensures var t := Digits(k);
            && '/' !in t && G.AllDigits(t) && t != "" && (t[0] == '0' ==> |t| == 1) && G.Decimal(t) == k
  {
    hide Digits, G.Decimal;
    DigitsAre(k);
    var t := Digits(k);
    forall i | 0 <= i < |t|
      ensures '0' <= t[i] <= '9'
    {
      assert t[i] in t;
    }
    G.NoLeadingZero(k);
    R.NatOfDigits(k);
    G.DecimalIs(t);
  }

  /** The pointer of a path is written by these rules. */
  lemma {:induction false} PointerMeans(j: Json, path: seq<nat>)
    requires P.PointerTo(j, path).Some?
    ensures PointerFor(j, path, P.PointerTo(j, path).value)
    decreases |path|
  {
    hide Digits, P.Escape, Unescaped, G.Decimal, G.AllDigits;
    if path != [] {
      var kid := j.kids[path[0]];
      PointerMeans(kid, path[1..]);
      var rest := P.PointerTo(kid, path[1..]).value;
      IndexMeans(path[0]);
      KeyMeans(P.KeyOf(kid));
      P.EscapeClean(P.KeyOf(kid));
      var t := if P.IsArray(j.data) then Digits(path[0]) else P.Escape(P.KeyOf(kid));
      assert TokenFor(j, path[0], t);
      assert P.PointerTo(j, path).value == "/" + t + rest;
    }
  }
}
