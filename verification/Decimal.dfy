/** Whole numbers as decimal text, as Python's `str` writes them. */
module Decimal {
  function Digit(n: nat): char
    requires n < 10
  {
    ('0' as int + n) as char
  }

  function Digits(n: nat): (text: string)
    ensures text != ""
  {
    if n < 10 then [Digit(n)] else Digits(n / 10) + [Digit(n % 10)]
  }

  function Str(n: int): string {
    if n < 0 then "-" + Digits(-n) else Digits(n)
  }

  /** The length of a number's text. */
  function DigitCount(n: nat): (count: nat)
    ensures count >= 1
  {
    if n < 10 then 1 else 1 + DigitCount(n / 10)
  }

  function StrLength(n: int): nat {
    if n < 0 then 1 + DigitCount(-n) else DigitCount(n)
  }

  lemma {:induction false} DigitsAreCounted(n: nat)
    ensures |Digits(n)| == DigitCount(n)
  {
    if n < 10 {
    } else {
      DigitsAreCounted(n / 10);
    }
  }

  lemma {:induction false} StrIsCounted(n: int)
    ensures |Str(n)| == StrLength(n)
  {
    DigitsAreCounted(if n < 0 then -n else n);
  }

  /** Two numbers never share a text. */
  lemma {:induction false} DigitsDiffer(a: nat, b: nat)
    requires Digits(a) == Digits(b)
    ensures a == b
  {
    var x, y := Digits(a), Digits(b);
    assert x[|x| - 1] == Digit(a % 10) && y[|y| - 1] == Digit(b % 10);
    if a >= 10 && b >= 10 {
      assert x[..|x| - 1] == Digits(a / 10) && y[..|y| - 1] == Digits(b / 10);
      DigitsDiffer(a / 10, b / 10);
    }
  }

  /** A larger number's text is no shorter. */
  lemma {:induction false} LongerWhenLarger(a: nat, b: nat)
    requires a <= b
    ensures DigitCount(a) <= DigitCount(b)
  {
    if a < 10 {
    } else {
      LongerWhenLarger(a / 10, b / 10);
    }
  }

  // ---------------------------------------------------------------- reading

  predicate IsDigit(c: char) {
    '0' <= c <= '9'
  }

  /** The number that decimal digits write, the last one counting ones. */
  function Reading(text: string): nat
    requires forall i :: 0 <= i < |text| ==> IsDigit(text[i])
  {
    if text == "" then 0
    else
      assert IsDigit(text[|text| - 1]);
      10 * Reading(text[..|text| - 1]) + (text[|text| - 1] as int - '0' as int)
  }

  /** A number's text reads as the number, in digits, and does not begin with a nought unless it is one. */
  lemma {:induction false} DigitsRead(n: nat)
    ensures forall i :: 0 <= i < |Digits(n)| ==> IsDigit(Digits(n)[i])
    ensures Reading(Digits(n)) == n && (Digits(n)[0] == '0' <==> n == 0)
  {
    if n < 10 {
      assert Digits(n)[..0] == "";
    } else {
      DigitsRead(n / 10);
      assert Digits(n)[..|Digits(n)| - 1] == Digits(n / 10);
    }
  }

  /** Below nought a minus sign stands in front. */
  lemma {:induction false} StrReads(n: int)
    ensures n >= 0 ==> Str(n) == Digits(n)
    ensures n < 0 ==> Str(n) == "-" + Digits(-n)
  {
  }
}
