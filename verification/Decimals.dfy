/** Numbers in decimal notation. */
module Decimals {

  function Digit(d: nat): char
    requires d < 10
  {
    '0' + d as char
  }

  /** "%lu", and "%d" without a sign */
  function Digits(n: nat): string {
    if n < 10 then [Digit(n)] else Digits(n / 10) + [Digit(n % 10)]
  }

  lemma {:induction false} DigitsAre(n: nat)
    ensures Digits(n) != [] && forall c :: c in Digits(n) ==> '0' <= c <= '9'
    ensures Digits(n)[0] == '0' ==> n == 0
  {
    if n >= 10 {
      DigitsAre(n / 10);
    }
  }
}
