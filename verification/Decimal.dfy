/** Decimal notation, as `%d` and `str` write it and `strconv.ParseInt` reads it. */
module Decimal {
  function Digits(n: nat): (d: seq<int>)
    ensures d != [] && forall i :: 0 <= i < |d| ==> 0 <= d[i] <= 9
  {
    if n < 10 then [n] else Digits(n / 10) + [n % 10]
  }

  function ValueOf(d: seq<int>): int
    decreases |d|
  {
    if d == [] then 0 else ValueOf(d[..|d| - 1]) * 10 + d[|d| - 1]
  }

  lemma {:induction false} DigitsRoundTrip(n: nat)
    ensures ValueOf(Digits(n)) == n
  {
    if n < 10 {
      assert [n][..0] == [];
    } else {
      DigitsRoundTrip(n / 10);
      var d := Digits(n);
      assert d[..|d| - 1] == Digits(n / 10);
    }
  }

  lemma DigitsInjective(m: nat, n: nat)
    requires Digits(m) == Digits(n)
    ensures m == n
  {
    DigitsRoundTrip(m);
    DigitsRoundTrip(n);
  }
}
