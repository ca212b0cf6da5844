/** Decimal numerals: Python's int() of ASCII digits and JavaScript's toString of a number. */
module Decimal {
  import opened Calendar

  function ParseInt(s: string): nat
    requires forall i :: 0 <= i < |s| ==> IsDigit(s[i])
  {
    if s == "" then 0 else 10 * ParseInt(s[..|s| - 1]) + DigitValue(s[|s| - 1])
  }

  function Digits(n: nat): string {
    if n < 10 then [Digit(n)] else Digits(n / 10) + [Digit(n % 10)]
  }

  lemma {:induction false} DigitsParse(n: nat)
    ensures |Digits(n)| >= 1
    ensures forall i :: 0 <= i < |Digits(n)| ==> IsDigit(Digits(n)[i])
    ensures ParseInt(Digits(n)) == n
  {
    var s := Digits(n);
    if n >= 10 {
      DigitsParse(n / 10);
      assert s[..|s| - 1] == Digits(n / 10);
    } else {
      assert s[..0] == "";
    }
  }

  function Power10(k: nat): nat { if k == 0 then 1 else 10 * Power10(k - 1) }

  lemma {:induction false} DigitsLength(n: nat, k: nat)
    requires k >= 1
    ensures |Digits(n)| <= k <==> n < Power10(k)
  {
    if n >= 10 && k >= 2 {
      DigitsLength(n / 10, k - 1);
    } else if n < 10 && k >= 2 {
      DigitsLength(n, k - 1);
      DigitsLength(0, k - 1);
    } else if n >= 10 {
      DigitsParse(n / 10);
    }
  }

  /** Places count by tens, leading zeros included. */
  lemma ParseIntByPlaces(s: string, c: char)
    requires (forall i :: 0 <= i < |s| ==> '0' <= s[i] <= '9') && '0' <= c <= '9'
    ensures ParseInt("") == 0 && ParseInt(s + [c]) == 10 * ParseInt(s) + (c as int - 48)
  {
    assert (s + [c])[..|s|] == s;
  }
}
