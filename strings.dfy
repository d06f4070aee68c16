/**
 * The JavaScript string conversions that date keys and ISO timestamps are
 * built from: `String(n)` for an integer and `padStart(width, '0')`.
 */
module Strings {

  function DigitChar(n: int): char
    requires 0 <= n <= 9
  {
    "0123456789"[n]
  }

  /** The decimal digits of `n`, without leading zeros (`String(n)` for `n >= 0`). */
  function Decimal(n: nat): (s: string)
    ensures 1 <= |s|
    ensures n < 10 <==> |s| == 1
    decreases n
  {
    if n < 10 then [DigitChar(n)] else Decimal(n / 10) + [DigitChar(n % 10)]
  }

  /** `String(i)` for an integer `i`: a minus sign, then the digits of `|i|`. */
  function IntString(i: int): string
  {
    if i < 0 then "-" + Decimal(-i) else Decimal(i)
  }

  /** `s.padStart(width, c)`. */
  function PadStart(s: string, width: nat, c: char): (r: string)
    ensures |r| == if |s| >= width then |s| else width
    ensures r[|r| - |s|..] == s
    ensures forall k :: 0 <= k < |r| - |s| ==> r[k] == c
  {
    if |s| >= width then s else seq(width - |s|, _ => c) + s
  }

  /** Two digits, zero-padded: `String(n).padStart(2, '0')`. */
  function Pad2(n: nat): string
  {
    PadStart(Decimal(n), 2, '0')
  }

  lemma DigitCharInjective(a: int, b: int)
    requires 0 <= a <= 9 && 0 <= b <= 9
    ensures DigitChar(a) == DigitChar(b) <==> a == b
  {
  }

  /** A number below 100 pads to its tens digit followed by its units digit. */
  lemma Pad2Digits(n: nat)
    requires n <= 99
    ensures Pad2(n) == [DigitChar(n / 10), DigitChar(n % 10)]
  {
    if n >= 10 {
      assert Decimal(n) == Decimal(n / 10) + [DigitChar(n % 10)];
    }
  }

  lemma Pad2Injective(a: nat, b: nat)
    requires a <= 99 && b <= 99
    ensures Pad2(a) == Pad2(b) <==> a == b
  {
    Pad2Digits(a);
    Pad2Digits(b);
    if Pad2(a) == Pad2(b) {
      assert Pad2(a)[0] == Pad2(b)[0] && Pad2(a)[1] == Pad2(b)[1];
      DigitCharInjective(a / 10, b / 10);
      DigitCharInjective(a % 10, b % 10);
    }
  }

  /** Different numbers have different decimal forms. */
  lemma {:induction false} DecimalInjective(a: nat, b: nat)
    requires Decimal(a) == Decimal(b)
    ensures a == b
    decreases a
  {
    if a < 10 || b < 10 {
      assert |Decimal(a)| == 1 && |Decimal(b)| == 1;
      DigitCharInjective(a, b);
    } else {
      var sa, sb := Decimal(a), Decimal(b);
      assert sa[|sa| - 1] == DigitChar(a % 10) && sb[|sb| - 1] == DigitChar(b % 10);
      DigitCharInjective(a % 10, b % 10);
      assert Decimal(a / 10) == sa[..|sa| - 1] == sb[..|sb| - 1] == Decimal(b / 10);
      DecimalInjective(a / 10, b / 10);
    }
  }

  /** A decimal form never starts with a minus sign. */
  lemma {:induction false} DecimalFirstIsDigit(n: nat)
    ensures Decimal(n)[0] != '-'
    decreases n
  {
    if n >= 10 {
      DecimalFirstIsDigit(n / 10);
    }
  }

  lemma IntStringInjective(a: int, b: int)
    requires IntString(a) == IntString(b)
    ensures a == b
  {
    if a < 0 && b < 0 {
      assert Decimal(-a) == IntString(a)[1..] == IntString(b)[1..] == Decimal(-b);
      DecimalInjective(-a, -b);
    } else if a >= 0 && b >= 0 {
      DecimalInjective(a, b);
    } else if a < 0 {
      DecimalFirstIsDigit(b);
    } else {
      DecimalFirstIsDigit(a);
    }
  }

  /** Numbers from 1000 to 9999 have exactly four digits. */
  lemma DecimalFourDigits(n: nat)
    requires 1000 <= n <= 9999
    ensures |Decimal(n)| == 4
  {
    assert |Decimal(n / 1000)| == 1;
    assert |Decimal(n / 100)| == |Decimal(n / 100 / 10)| + 1;
    assert n / 100 / 10 == n / 1000;
    assert |Decimal(n / 10)| == |Decimal(n / 10 / 10)| + 1;
    assert n / 10 / 10 == n / 100;
  }

  /** The decimal form of a positive number starts with a digit from 1 to 9. */
  lemma {:induction false} DecimalLeadingDigit(n: nat)
    requires n >= 1
    ensures '1' <= Decimal(n)[0] <= '9'
    decreases n
  {
    if n >= 10 {
      DecimalLeadingDigit(n / 10);
      assert Decimal(n)[0] == Decimal(n / 10)[0];
    }
  }

  /** Numbers below 1000 have at most three digits. */
  lemma DecimalBelowThousand(n: nat)
    requires n < 1000
    ensures |Decimal(n)| <= 3
  {
    if n >= 10 {
      assert |Decimal(n)| == |Decimal(n / 10)| + 1;
      if n / 10 >= 10 {
        assert |Decimal(n / 10)| == |Decimal(n / 10 / 10)| + 1;
      }
    }
  }

  /** Numbers up to 99 pad to exactly two characters. */
  lemma Pad2Length(n: nat)
    requires n <= 99
    ensures |Pad2(n)| == 2
  {
    Pad2Digits(n);
  }
}
