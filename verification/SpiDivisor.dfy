/** The SPI clock divisor search of the EC618 driver.
    The bus clock is the peripheral clock divided by cpsr * scr, where cpsr is an even number in
    2..254 and scr a number in 1..256. */
module SpiDivisor {

  const U32: nat := 0x1_0000_0000

  /** Unsigned 32-bit subtraction: it wraps. */
  function Sub32(a: nat, b: nat): nat {
    (a - b) % U32
  }

  function Distance(a: nat, b: nat): (d: nat)
    ensures a <= b ==> a + d == b
    ensures b <= a ==> b + d == a
  {
    if a > b then a - b else b - a
  }

  /** The divisor pairs the hardware offers. */
  predicate Available(cpsr: nat, scr: nat) {
    cpsr % 2 == 0 && 2 <= cpsr <= 254 && 1 <= scr <= 256
  }

  /** The divisor a pair gives. */
  function Product(cpsr: nat, scr: nat): nat {
    cpsr * scr
  }

  /** No available pair is closer to div than the product p. */
  ghost predicate Nearest(div: nat, p: nat) {
    forall c: nat, s: nat {:trigger Available(c, s)} ::
      Available(c, s) ==> Distance(div, p) <= Distance(div, Product(c, s))
  }

  /** p is at least as close as every pair of row c whose scr is at least c/2. */
  ghost predicate RowCovered(div: nat, p: nat, c: nat) {
    forall s: nat :: c / 2 <= s <= 256 ==> Distance(div, p) <= Distance(div, Product(c, s))
  }

  /** Of the equally close products of row c, that of scr is the least. */
  ghost predicate RowTie(div: nat, c: nat, scr: nat) {
    forall s: nat :: c / 2 <= s <= 256 && Distance(div, Product(c, s)) == Distance(div, Product(c, scr)) ==> scr <= s
  }

  /** Of the equally close pairs in the rows before upto, the last row is taken and in it the least product; of
      the pairs that give div exactly, the first row. */
  ghost predicate Preferred(div: nat, cpsr: nat, scr: nat, upto: nat) {
    forall c: nat, s: nat {:trigger Product(c, s)} ::
      4 <= c < upto && c % 2 == 0 && c / 2 <= s <= 256
      && Distance(div, Product(c, s)) == Distance(div, Product(cpsr, scr)) ==>
        if Product(cpsr, scr) == div then cpsr <= c else c <= cpsr && (c == cpsr ==> scr <= s)
  }

  function Quotient(n: nat, d: nat): nat
    requires d > 0
  {
    n / d
  }

  /** Rounding up to an even number, in 32 bits. */
  function RoundToEven(q: nat): (div: nat)
    ensures div % 2 == 0
  {
    (q + q % 2) % U32
  }

  /** e is not below the integer quotient of clock and bps. */
  predicate Covers(e: nat, clock: nat, bps: nat) {
    clock < (e + 1) * bps
  }

  /** The divisor wanted for a bit rate: the least even number not below clock / bps. */
  ghost predicate LeastEven(div: nat, clock: nat, bps: nat) {
    div % 2 == 0 && Covers(div, clock, bps) && forall e: nat :: e % 2 == 0 && Covers(e, clock, bps) ==> div <= e
  }

  lemma QuotientBrackets(n: nat, d: nat)
    requires d > 0
    ensures Quotient(n, d) * d <= n < (Quotient(n, d) + 1) * d
  {
  }

  lemma {:induction false} CoversFrom(e: nat, clock: nat, bps: nat)
    requires bps > 0
    ensures Covers(e, clock, bps) <==> e >= Quotient(clock, bps)
  {
    hide Quotient;
    var q := Quotient(clock, bps);
    QuotientBrackets(clock, bps);
    if e >= q {
      Monotone(bps, q + 1, e + 1);
    } else {
      Monotone(bps, e + 1, q);
    }
  }

  /** Rounding the quotient finds that divisor, unless it wraps to zero, which takes the one quotient
      0xFFFFFFFF; it is zero otherwise only for a rate above the clock. */
  lemma RoundedIsLeast(clock: nat, bps: nat)
    requires 0 < bps < U32 && clock < U32
    ensures RoundToEven(Quotient(clock, bps)) == 0 <==> clock < bps || (clock == 0xFFFF_FFFF && bps == 1)
    ensures RoundToEven(Quotient(clock, bps)) > 0 ==> LeastEven(RoundToEven(Quotient(clock, bps)), clock, bps)
  {
    var q := Quotient(clock, bps);
    QuotientBrackets(clock, bps);
    QuotientSmall(clock, bps);
    forall e: nat
      ensures Covers(e, clock, bps) <==> e >= q
    {
      CoversFrom(e, clock, bps);
    }
    hide Quotient, Covers;
  }

  lemma QuotientSmall(clock: nat, bps: nat)
    requires 0 < bps && clock < U32
    ensures Quotient(clock, bps) <= clock && (Quotient(clock, bps) == 0 <==> clock < bps)
    ensures Quotient(clock, bps) == 0xFFFF_FFFF <==> clock == 0xFFFF_FFFF && bps == 1
  {
    hide Quotient;
    var q := Quotient(clock, bps);
    QuotientBrackets(clock, bps);
    Monotone(q, 1, bps);
    assert Product(q, 1) == q && Product(q, bps) == q * bps;
    if bps >= 2 {
      Monotone(q, 2, bps);
      assert Product(q, 2) == 2 * q;
    }
  }

  /** A bus clock with exactly the divisor wanted: never above the rate by more than one part in div, and
      above it exactly if the quotient is even and smaller than or equal to the remainder. */
  lemma RateReached(clock: nat, bps: nat, div: nat)
    requires bps > 0 && div > 0 && LeastEven(div, clock, bps)
    ensures Quotient(clock, div) * div < (div + 1) * bps
    ensures Quotient(clock, div) <= bps <==> clock < div * (bps + 1)
    ensures Quotient(clock, div) <= bps <==> Quotient(clock, bps) % 2 == 1 || clock % bps < Quotient(clock, bps)
  {
    var q, r := Quotient(clock, bps), clock % bps;
    QuotientBrackets(clock, div);
    CoversFrom(bps, clock, div);
    assert Covers(bps, clock, div) <==> Quotient(clock, div) <= bps;
    assert clock == q * bps + r;
    LeastIsNext(clock, bps, div);
    hide Quotient;
    if q % 2 == 1 {
      assert div * (bps + 1) == q * bps + bps + div;
    } else {
      assert div * (bps + 1) == q * bps + q;
    }
  }

  lemma LeastIsNext(clock: nat, bps: nat, div: nat)
    requires bps > 0 && LeastEven(div, clock, bps)
    ensures div == Quotient(clock, bps) + Quotient(clock, bps) % 2
  {
    hide Quotient, Covers;
    var q := Quotient(clock, bps);
    var e: nat := q + q % 2;
    CoversFrom(div, clock, bps);
    CoversFrom(e, clock, bps);
  }

  /** The bus can be faster than the rate asked for: 25.6 MHz for 20 MHz. */
  lemma RateExceeded()
    ensures LeastEven(2, 51_200_000, 20_000_000) && Quotient(51_200_000, 2) == 25_600_000
  {
    forall e: nat | e % 2 == 0 && Covers(e, 51_200_000, 20_000_000)
      ensures 2 <= e
    {
    }
  }

  lemma Monotone(c: nat, s: nat, t: nat)
    requires s <= t
    ensures Product(c, s) <= Product(c, t)
  {
  }

  lemma Successor(c: nat, s: nat)
    ensures Product(c, s + 1) == Product(c, s) + c
  {
  }

  lemma Bounded(c: nat, s: nat)
    requires c <= 254 && s <= 256
    ensures Product(c, s) <= 254 * 256
  {
    assert Product(c, s) <= Product(c, 256) by { Monotone(c, s, 256); }
  }

  lemma Doubled(s: nat)
    ensures Product(2, s) == 2 * s
  {
  }

  lemma PositiveProduct(c: nat, s: nat)
    requires c >= 1 && s >= 1
    ensures Product(c, s) > 0
  {
    Monotone(c, 1, s);
  }

  lemma Wraps(a: nat, b: nat)
    requires a < U32 && b < U32
    ensures Sub32(a, b) == if a >= b then a - b else a - b + U32
  {
  }

  /** For one row, the smallest product not below div and its predecessor bracket div. The
      comparison of the two differences is done in wrapping arithmetic; when the predecessor is
      itself above div (the search started there) the wrapped difference is huge and the left
      candidate is taken, which is the right one. */
  lemma RowChoice(div: nat, c: nat, left: nat, scr: nat)
    requires 4 <= c <= 254 && 2 <= left <= 256 && c / 2 <= left
    requires 512 < div < U32 && div <= Product(c, left)
    requires c / 2 < left ==> Product(c, left - 1) < div
    requires scr == if Sub32(Product(c, left), div) < Sub32(div, Product(c, left - 1)) then left else left - 1
    ensures 1 <= scr <= 256
    ensures RowCovered(div, Product(c, scr), c) && RowTie(div, c, scr)
  {
    var hi, lo := Product(c, left), Product(c, left - 1);
    Successor(c, left - 1);
    Bounded(c, left);
    Wraps(hi, div);
    Wraps(div, lo);
    forall s: nat | c / 2 <= s <= 256
      ensures Distance(div, Product(c, scr)) <= Distance(div, Product(c, s))
    {
      if s >= left {
        Monotone(c, left, s);
      } else {
        Monotone(c, s, left - 1);
      }
    }
    RowChoiceTie(div, c, left, scr);
  }

  lemma RowChoiceTie(div: nat, c: nat, left: nat, scr: nat)
    requires 4 <= c <= 254 && 2 <= left <= 256 && div <= Product(c, left)
    requires scr == left - 1 || (scr == left && (Product(c, left - 1) >= div ==> left == c / 2))
    requires scr == left && Product(c, left - 1) < div ==> Product(c, left) - div < div - Product(c, left - 1)
    requires scr == left - 1 && Product(c, left - 1) >= div ==> left == c / 2
    ensures RowTie(div, c, scr)
  {
    hide Product;
    forall s: nat | c / 2 <= s < scr
      ensures Distance(div, Product(c, s)) > Distance(div, Product(c, scr))
    {
      Monotone(c, s, left - 1);
      StrictlyMonotone(c, s, scr);
    }
  }

  lemma StrictlyMonotone(c: nat, s: nat, t: nat)
    requires s < t && c > 0
    ensures Product(c, s) < Product(c, t)
  {
    Successor(c, s);
    Monotone(c, s + 1, t);
  }

  /** Covering the rows 4..254 above the diagonal covers every pair: the matrix of products is
      symmetric, and row 2 and column 1 stay below 512. */
  lemma UpperTriangleSuffices(div: nat, p: nat)
    requires div > 512
    requires forall c: nat :: 4 <= c <= 254 && c % 2 == 0 ==> RowCovered(div, p, c)
    ensures Nearest(div, p)
  {
    forall c: nat, s: nat | Available(c, s)
      ensures Distance(div, p) <= Distance(div, Product(c, s))
    {
      PairCovered(div, p, c, s);
    }
  }

  lemma PairCovered(div: nat, p: nat, c: nat, s: nat)
    requires div > 512 && Available(c, s)
    requires forall c: nat :: 4 <= c <= 254 && c % 2 == 0 ==> RowCovered(div, p, c)
    ensures Distance(div, p) <= Distance(div, Product(c, s))
  {
    if c == 2 || s == 1 {
      assert Product(c, s) <= 512;
      assert RowCovered(div, p, 4);
      assert Product(4, 128) == 512;
    } else if c / 2 <= s {
      assert RowCovered(div, p, c);
    } else {
      Transposed(c, s);
      assert RowCovered(div, p, 2 * s);
    }
  }

  lemma Transposed(c: nat, s: nat)
    requires c % 2 == 0
    ensures Product(c, s) == Product(2 * s, c / 2)
  {
    var h := c / 2;
    assert c == 2 * h;
    assert (2 * h) * s == (2 * s) * h;
  }

  datatype Status = Ok | ParameterError

  class SpiResources {
    var cpsdvsr: nat   // CPSR register
    var scrField: nat  // SCR field of CR0: scr - 1
    var busSpeed: nat

    /** Binary search in row cpsr for the scr nearest to div / cpsr. */
    static method SearchRow(div: nat, cpsr: nat) returns (scr: nat)
      requires 512 < div < U32
      requires 4 <= cpsr <= 254 && cpsr % 2 == 0
      ensures 1 <= scr <= 256
      ensures RowCovered(div, Product(cpsr, scr), cpsr) && RowTie(div, cpsr, scr)
    {
      if div >= Product(cpsr, 256) {
        scr := 256;
        forall s: nat | cpsr / 2 <= s <= 256
          ensures Distance(div, Product(cpsr, scr)) <= Distance(div, Product(cpsr, s))
        {
          Monotone(cpsr, s, 256);
        }
        forall s: nat | cpsr / 2 <= s < 256
          ensures Product(cpsr, s) < Product(cpsr, 256)
        {
          StrictlyMonotone(cpsr, s, 256);
        }
        return;
      }
      var left, right := cpsr / 2, 256;
      while left <= right
        invariant cpsr / 2 <= left <= right + 1 <= 257
        invariant cpsr / 2 < left ==> Product(cpsr, left - 1) < div
        invariant div <= Product(cpsr, right + 1) || right == 256
        decreases right + 1 - left
      {
        var mid := (right + left) / 2;
        if div > Product(cpsr, mid) {
          left := mid + 1;
        } else {
          right := mid - 1;
        }
      }
      scr := if Sub32(Product(cpsr, left), div) < Sub32(div, Product(cpsr, right)) then left else right;
      RowChoice(div, cpsr, left, scr);
    }

    static lemma ExactIsNearest(div: nat)
      ensures Nearest(div, div)
    {
    }

    static lemma CoverImproves(div: nat, p: nat, q: nat, c: nat)
      requires RowCovered(div, p, c) && Distance(div, q) <= Distance(div, p)
      ensures RowCovered(div, q, c)
    {
      forall s: nat | c / 2 <= s <= 256
        ensures Distance(div, q) <= Distance(div, Product(c, s))
      {
        assert Distance(div, p) <= Distance(div, Product(c, s));
      }
    }

    static lemma NonePreferred(div: nat)
      ensures Preferred(div, 2, 1, 4)
    {
    }

    /** The next row is preferred to those before where it is as close, and an exact pair to all behind. */
    static lemma PreferNext(div: nat, cpsr: nat, bestCpsr: nat, bestScr: nat, scr: nat)
      requires 4 <= cpsr <= 254 && cpsr % 2 == 0 && Preferred(div, bestCpsr, bestScr, cpsr)
      requires Product(bestCpsr, bestScr) != div && RowCovered(div, Product(cpsr, scr), cpsr) && RowTie(div, cpsr, scr)
      requires forall c: nat :: 4 <= c < cpsr && c % 2 == 0 ==> RowCovered(div, Product(bestCpsr, bestScr), c)
      ensures var p, q := Product(bestCpsr, bestScr), Product(cpsr, scr);
              if Distance(div, p) >= Distance(div, q)
              then Preferred(div, cpsr, scr, if q == div then 256 else cpsr + 2)
              else Preferred(div, bestCpsr, bestScr, cpsr + 2)
    {
      hide Product;
      var p, q := Product(bestCpsr, bestScr), Product(cpsr, scr);
      if Distance(div, p) < Distance(div, q) {
        forall c: nat, s: nat | 4 <= c < cpsr + 2 && c % 2 == 0 && c / 2 <= s <= 256
                                && Distance(div, Product(c, s)) == Distance(div, p)
          ensures c <= bestCpsr && (c == bestCpsr ==> bestScr <= s)
        {
          assert c != cpsr;
        }
      } else if q == div {
        forall c: nat, s: nat | 4 <= c < cpsr && c % 2 == 0 && c / 2 <= s <= 256
          ensures Distance(div, Product(c, s)) != 0
        {
          assert RowCovered(div, p, c);
        }
      }
    }

    /** The loop over the rows, with its early exit on an exact divisor. */
    static method SearchAll(div: nat) returns (bestCpsr: nat, bestScr: nat)
      requires 512 < div < U32
      ensures Available(bestCpsr, bestScr)
      ensures Nearest(div, Product(bestCpsr, bestScr)) && Preferred(div, bestCpsr, bestScr, 256)
    {
      hide Product, Distance, RowCovered, Nearest, RowTie, Preferred;
      bestCpsr, bestScr := 2, 1;
      Doubled(1);
      NonePreferred(div);
      var bestDiv := 2;
      var cpsr := 4;
      while cpsr <= 254
        invariant 4 <= cpsr <= 256 && cpsr % 2 == 0
        invariant Available(bestCpsr, bestScr) && bestDiv == Product(bestCpsr, bestScr)
        invariant forall c: nat :: 4 <= c < cpsr && c % 2 == 0 ==> RowCovered(div, bestDiv, c)
        invariant Preferred(div, bestCpsr, bestScr, cpsr) && bestDiv != div
        decreases 256 - cpsr
      {
        var scr := SearchRow(div, cpsr);
        ghost var before := bestDiv;
        PreferNext(div, cpsr, bestCpsr, bestScr, scr);
        if Distance(div, bestDiv) >= Distance(div, Product(cpsr, scr)) {
          bestScr := scr;
          bestCpsr := cpsr;
          bestDiv := Product(bestCpsr, bestScr);
          if bestDiv == div {
            ExactIsNearest(div);
            return;
          }
        }
        forall c: nat | 4 <= c < cpsr + 2 && c % 2 == 0
          ensures RowCovered(div, bestDiv, c)
        {
          if c < cpsr {
            CoverImproves(div, before, bestDiv, c);
          } else {
            CoverImproves(div, Product(cpsr, scr), bestDiv, c);
          }
        }
        cpsr := cpsr + 2;
      }
      UpperTriangleSuffices(div, bestDiv);
    }

    /** SPI_SetBusSpeed. div is the divisor wanted. */
    method SetBusSpeed(clock: nat, bps: nat) returns (status: Status, ghost div: nat)
      requires clock < U32 && bps < U32
      modifies this
      ensures status == ParameterError <==> bps == 0 || bps > clock || (clock == 0xFFFF_FFFF && bps == 1)
      ensures status == ParameterError ==> unchanged(this)
      ensures status == Ok ==> LeastEven(div, clock, bps) && div > 0
      ensures status == Ok ==> Available(cpsdvsr, scrField + 1) && Nearest(div, cpsdvsr * (scrField + 1))
      ensures status == Ok && div > 512 ==> Preferred(div, cpsdvsr, scrField + 1, 256)
      ensures status == Ok && div <= 512 ==> cpsdvsr == 2
      ensures status == Ok && div <= 512 ==> cpsdvsr * (scrField + 1) == div
      ensures status == Ok ==> cpsdvsr * (scrField + 1) > 0 && busSpeed == clock / (cpsdvsr * (scrField + 1))
      ensures status == Ok && cpsdvsr * (scrField + 1) == div ==>
                busSpeed * div < (div + 1) * bps && (busSpeed <= bps <==> clock < div * (bps + 1))
    {
      div := 0;
      if bps == 0 {
        return ParameterError, 0;
      }
      var divisor := RoundToEven(Quotient(clock, bps));
      RoundedIsLeast(clock, bps);
      div := divisor;
      var bestCpsr, bestScr := 2, 1;
      if divisor == 0 {
        return ParameterError, 0;
      } else if divisor <= 512 {
        bestCpsr := 2;
        bestScr := divisor / 2;
        Doubled(bestScr);
        ExactIsNearest(divisor);
      } else {
        bestCpsr, bestScr := SearchAll(divisor);
      }
      RateReached(clock, bps, divisor);
      var product := Product(bestCpsr, bestScr);
      PositiveProduct(bestCpsr, bestScr);
      cpsdvsr := bestCpsr;
      scrField := bestScr - 1;
      busSpeed := Quotient(clock, product);
      status := Ok;
    }
  }
}
