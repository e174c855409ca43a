/** The output side of tinfl_decompress: a flat buffer that holds everything, or a window of 32768
    bytes that wraps around. */
module OutWindow {
  import opened Bytes
  import opened Tokens

  /** Where byte number k of the output lies. */
  function Index(flat: bool, k: nat): nat {
    if flat then k else k % WINDOW
  }

  /** The bytes that can still be copied from. */
  ghost predicate Mirrors(buf: seq<byte>, flat: bool, out: seq<byte>) {
    if flat then |out| <= |buf| && buf[..|out|] == out
    else |buf| == WINDOW && forall k: nat :: |out| - WINDOW <= k < |out| ==> WindowAt(buf, out, k)
  }

  ghost predicate WindowAt(buf: seq<byte>, out: seq<byte>, k: nat)
    requires |buf| == WINDOW && k < |out|
  {
    buf[k % WINDOW] == out[k]
  }

  lemma MirrorsPut(buf: seq<byte>, flat: bool, out: seq<byte>, b: byte)
    requires Mirrors(buf, flat, out) && Index(flat, |out|) < |buf|
    ensures Mirrors(buf[Index(flat, |out|) := b], flat, out + [b])
  {
    var i := Index(flat, |out|);
    var r, more := buf[i := b], out + [b];
    if flat {
      assert r[..|more|] == buf[..|out|] + [b];
    } else {
      forall k: nat | |more| - WINDOW <= k < |more|
        ensures WindowAt(r, more, k)
      {
        if k < |out| {
          assert WindowAt(buf, out, k);
          if k % WINDOW == i { SlotOnce(k, |out|); }
        }
      }
    }
  }

  lemma SlotOnce(k: nat, n: nat)
    requires k <= n && n < k + WINDOW && k % WINDOW == n % WINDOW
    ensures k == n
  {
  }

  lemma MirrorsAt(buf: seq<byte>, flat: bool, out: seq<byte>, dist: nat)
    requires Mirrors(buf, flat, out) && 1 <= dist <= |out| && dist <= WINDOW
    ensures Index(flat, |out| - dist) < |buf| && buf[Index(flat, |out| - dist)] == out[|out| - dist]
  {
    if flat {
      assert buf[..|out|][|out| - dist] == out[|out| - dist];
    } else {
      assert WindowAt(buf, out, |out| - dist);
    }
  }

  class Output {
    var buf: array<byte>
    var cur: nat
    var end: nat
    var flat: bool
    /** Everything produced since the start of the stream, and what of it earlier calls produced. */
    ghost var out: seq<byte>
    ghost var before: seq<byte>
    ghost var start: nat

    ghost predicate Holds()
      reads this, buf
    {
      && cur <= end <= buf.Length && Mirrors(buf[..], flat, out)
      && before <= out && cur == start + |out| - |before|
      && (if flat then cur == |out| else end == WINDOW && cur % WINDOW == |out| % WINDOW)
    }

    constructor (b: array<byte>, isFlat: bool)
      requires !isFlat ==> b.Length == WINDOW
      ensures Holds() && out == [] && cur == 0 && buf == b && flat == isFlat && end == b.Length
    {
      buf, cur, end, flat, out := b, 0, b.Length, isFlat, [];
      before, start := [], 0;
    }

    /** The room for one call. The caller keeps what was written before. */
    method SetRoom(b: array<byte>, next: nat, last: nat)
      requires next <= last <= b.Length && Mirrors(b[..], flat, out)
      requires if flat then next == |out| else last == WINDOW && next % WINDOW == |out| % WINDOW
      modifies this`buf, this`cur, this`end, this`before, this`start
      ensures Holds() && buf == b && cur == start == next && end == last && before == out
    {
      buf, cur, end := b, next, last;
      before, start := out, next;
    }

    method Put(b: byte)
      requires Holds() && cur < end
      modifies this`cur, this`out, buf
      ensures Holds() && out == old(out) + [b] && cur == old(cur) + 1
    {
      hide Mirrors;
      CurIndex();
      MirrorsPut(buf[..], flat, out, b);
      ghost var before := buf[..];
      buf[cur] := b;
      assert buf[..] == before[cur := b];
      cur := cur + 1;
      out := out + [b];
      NextIndex(old(cur), |old(out)|);
    }

    /** The part of the buffer that this call filled. */
    lemma Filled()
      requires Holds()
      ensures start <= cur <= buf.Length && out == before + buf[start..cur]
    {
      var n := |before|;
      forall i | 0 <= i < cur - start
        ensures buf[start..cur][i] == out[n..][i]
      {
        if flat {
          assert buf[..][..|out|][n + i] == out[n + i];
        } else {
          assert WindowAt(buf[..], out, n + i);
          SameSlot(start, n, i);
        }
      }
      assert out[n..] == buf[start..cur];
    }

    lemma SameSlot(a: nat, b: nat, i: nat)
      requires Holds() && !flat && a == start && b == |before| && i < cur - start
      ensures (b + i) % WINDOW == a + i
    {
      hide Mirrors;
      var n := cur - start;
      var k := cur / WINDOW - |out| / WINDOW;
      assert cur == |out| + WINDOW * k;
      Wraps(a + i, b + i, k);
    }

    lemma CurIndex()
      requires Holds() && cur < end
      ensures cur == Index(flat, |out|)
    {
      hide Mirrors;
    }

    lemma NextIndex(c: nat, n: nat)
      ensures c % WINDOW == n % WINDOW ==> (c + 1) % WINDOW == (n + 1) % WINDOW
    {
      if c % WINDOW == n % WINDOW {
        var k := c / WINDOW - n / WINDOW;
        assert c == n + WINDOW * k;
        Wraps(c + 1, n + 1, k);
      }
    }

    lemma Wraps(a: nat, b: nat, k: int)
      requires a == b + WINDOW * k
      ensures a % WINDOW == b % WINDOW
    {
    }

    /** The byte dist back, found from a counter that agrees with the output length. */
    method Back(distFrom: nat, dist: nat) returns (b: byte)
      requires Holds() && 1 <= dist <= |out| && dist <= WINDOW
      requires if flat then distFrom == |out| else distFrom % WINDOW == |out| % WINDOW
      ensures b == out[|out| - dist]
    {
      hide Mirrors;
      MirrorsAt(buf[..], flat, out, dist);
      SameBack(distFrom, |out|, dist);
      var i: int := if flat then distFrom - dist else (distFrom - dist) % WINDOW;
      b := buf[i];
    }

    lemma SameBack(a: nat, n: nat, dist: nat)
      requires dist <= n
      ensures a % WINDOW == n % WINDOW ==> (a - dist) % WINDOW == (n - dist) % WINDOW
    {
      if a % WINDOW == n % WINDOW {
        var k := a / WINDOW - n / WINDOW;
        assert a == n + WINDOW * k;
        WrapsInt(a - dist, n - dist, k);
      }
    }

    lemma WrapsInt(a: int, b: int, k: int)
      requires a == b + WINDOW * k
      ensures a % WINDOW == b % WINDOW
    {
    }

    /** The byte dist back, read through a pointer to it. */
    method Near(src: nat, ghost dist: nat) returns (b: byte)
      requires Holds() && 1 <= dist <= |out| && dist <= WINDOW && src == Index(flat, |out| - dist)
      ensures b == out[|out| - dist]
    {
      hide Mirrors;
      MirrorsAt(buf[..], flat, out, dist);
      b := buf[src];
    }
  }

  /** The pointer to the source of a match, while it does not reach the end of the window. */
  lemma NextSource(flat: bool, n: nat, dist: nat, src: nat)
    requires dist <= n && src == Index(flat, n - dist) && (flat || src + 1 < WINDOW)
    ensures src + 1 == Index(flat, n + 1 - dist)
  {
  }

  lemma SourceIndex(flat: bool, distFrom: nat, n: nat, dist: nat)
    requires 1 <= dist <= n && if flat then distFrom == n else distFrom % WINDOW == n % WINDOW
    ensures (if flat then distFrom - dist else (distFrom - dist) % WINDOW) == Index(flat, n - dist)
  {
    if !flat {
      var k := distFrom / WINDOW - n / WINDOW;
      assert distFrom == n + WINDOW * k;
      SameRemainder(distFrom - dist, n - dist, k);
    }
  }

  lemma SameRemainder(a: int, b: int, k: int)
    requires a == b + WINDOW * k
    ensures a % WINDOW == b % WINDOW
  {
  }
}
