/** Integers as Go's %d prints them. */
module Decimal {
  function Digits(n: nat): (s: string)
    ensures s != [] && forall c | c in s :: '0' <= c <= '9'
  {
    if n < 10 then [(n + '0' as int) as char]
    else Digits(n / 10) + [(n % 10 + '0' as int) as char]
  }

  function Text(i: int): (s: string)
    ensures s != [] && forall c | c in s :: '0' <= c <= '9' || c == '-'
  {
    if i < 0 then "-" + Digits(-i) else Digits(i)
  }

  /** The number a string of digits stands for. */
  function ValueOf(digits: string): int {
    if digits == "" then 0 else ValueOf(digits[..|digits| - 1]) * 10 + (digits[|digits| - 1] as int - '0' as int)
  }

  lemma {:induction false} DigitsReadBack(n: nat)
    ensures ValueOf(Digits(n)) == n
    ensures Digits(n)[0] != '0' || n == 0
  {
    if n < 10 {
      assert Digits(n)[..0] == "";
    } else {
      DigitsReadBack(n / 10);
      assert Digits(n)[..|Digits(n)| - 1] == Digits(n / 10);
    }
  }

  /** The text of a number is its digits without leading zeros, after a minus sign when it is negative. */
  lemma TextReadsBack(i: int)
    ensures i >= 0 ==> ValueOf(Text(i)) == i && (Text(i)[0] != '0' || i == 0)
    ensures i < 0 ==> Text(i)[0] == '-' && ValueOf(Text(i)[1..]) == -i && Text(i)[1] != '0'
  {
    DigitsReadBack(if i < 0 then -i else i);
    if i < 0 {
      assert Text(i)[1..] == Digits(-i);
    }
  }
}
