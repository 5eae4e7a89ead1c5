// Decimal text of integers, as Python prints and reads it.
module Decimal {

  function Digit(d: int): char
    requires 0 <= d < 10
  {
    '0' + d as char
  }

  function NatText(n: nat): string {
    if n < 10 then [Digit(n)] else NatText(n / 10) + [Digit(n % 10)]
  }

  function IntText(n: int): string {
    if n < 0 then "-" + NatText(-n) else NatText(n)
  }

  function NatOf(s: string): int {
    if s == [] then 0 else 10 * NatOf(s[..|s| - 1]) + (s[|s| - 1] as int - '0' as int)
  }

  function IntOf(s: string): int
    requires s != []
  {
    if s[0] == '-' then -NatOf(s[1..]) else NatOf(s)
  }

  lemma {:induction false} NatRoundTrip(n: nat)
    ensures var t := NatText(n);
            t != [] && NatOf(t) == n && forall i :: 0 <= i < |t| ==> '0' <= t[i] <= '9'
  {
    if n >= 10 {
      NatRoundTrip(n / 10);
      assert NatText(n)[..|NatText(n)| - 1] == NatText(n / 10);
    } else {
      assert NatOf([]) == 0;
    }
  }
}
