/** int2str: the decimal text of an unsigned number, and reading it back. */
module Decimal {
  import opened Sequences

  predicate IsDigit(c: char) {
    '0' <= c <= '9'
  }

  function DigitValue(c: char): nat
    requires IsDigit(c)
  {
    c as nat - '0' as nat
  }

  predicate AllDigits(s: string) {
    forall i :: 0 <= i < |s| ==> IsDigit(s[i])
  }

  /** The number a run of digits denotes. */
  function NumberOf(s: string): nat
    requires AllDigits(s)
  {
    if s == "" then 0 else 10 * NumberOf(s[..|s| - 1]) + DigitValue(s[|s| - 1])
  }

  function LastDigit(n: nat): char {
    ('0' as nat + n % 10) as char
  }

  /** The digits of n, most significant first; zero is one digit. */
  function DigitsOf(n: nat): (s: string)
    ensures AllDigits(s) && s != "" && NumberOf(s) == n
    ensures n > 0 ==> s[0] != '0'
  {
    var last := LastDigit(n);
    if n < 10 then
      assert [last][..0] == "";
      [last]
    else
      var front := DigitsOf(n / 10);
      assert (front + [last])[..|front|] == front;
      front + [last]
  }

  /** What int2str has still to write in front when n is left. */
  function Ahead(n: nat): string {
    if n == 0 then "" else DigitsOf(n)
  }

  lemma AheadStep(n: nat, s: string)
    ensures DigitsOf(n) == Ahead(n / 10) + [LastDigit(n)]
    ensures DigitsOf(n) + s == Ahead(n / 10) + ([LastDigit(n)] + s)
  {
    if n < 10 {
      assert "" + [LastDigit(n)] == [LastDigit(n)];
    }
    Regroup(Ahead(n / 10), [LastDigit(n)], s);
  }

  /** int2str fills its buffer from the right, one digit a round. */
  method Int2Str(n: nat) returns (s: string)
    ensures s == DigitsOf(n)
  {
    AheadStep(n, "");
    s := [LastDigit(n)];
    var l := n / 10;
    while l != 0
      invariant l >= 0 && DigitsOf(n) == Ahead(l) + s
    {
      AheadStep(l, s);
      s := [LastDigit(l)] + s;
      l := l / 10;
    }
  }
}
