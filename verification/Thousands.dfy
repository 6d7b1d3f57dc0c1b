/**
 * Python's `"{:,}".format(n)` for a natural number `n` (PEP 378): the decimal
 * digits of `n`, with a comma between each group of three counted from the right.
 */
module Thousands {

  predicate IsDigit(c: char) {
    '0' <= c <= '9'
  }

  predicate AllDigits(s: string) {
    forall i :: 0 <= i < |s| ==> IsDigit(s[i])
  }

  function DigitChar(d: nat): (c: char)
    requires d < 10
    ensures IsDigit(c)
  {
    ('0' as int + d) as char
  }

  function DigitValue(c: char): nat
    requires IsDigit(c)
  {
    c as int - '0' as int
  }

  /** `str(n)`: the plain decimal form, without leading zeros. */
  function Decimal(n: nat): (s: string)
    ensures 1 <= |s|
    ensures AllDigits(s)
  {
    if n < 10 then [DigitChar(n)] else Decimal(n / 10) + [DigitChar(n % 10)]
  }

  /** The number a string of decimal digits denotes. */
  function ValueOf(s: string): nat
    requires AllDigits(s)
  {
    if |s| == 0 then 0 else ValueOf(s[..|s| - 1]) * 10 + DigitValue(s[|s| - 1])
  }

  /** Reading back the decimal form gives the number; only zero starts with '0'. */
  lemma {:induction false} DecimalRoundTrip(n: nat)
    ensures ValueOf(Decimal(n)) == n
    ensures Decimal(n)[0] == '0' <==> n == 0
  {
    if n >= 10 {
      DecimalRoundTrip(n / 10);
      var s := Decimal(n);
      assert s[..|s| - 1] == Decimal(n / 10);
    }
  }

  /** Numbers below 1000 have at most three digits. */
  lemma {:induction false} DecimalShort(n: nat)
    requires n < 1000
    ensures |Decimal(n)| <= 3
  {
    if n >= 10 {
      DecimalShort(n / 10);
      if n >= 100 {
        assert n / 10 >= 10;
      } else {
        assert n / 10 < 10;
      }
    }
  }

  /** The three digits of `k`, with leading zeros: `"%03d" % k`. */
  function ThreeDigits(k: nat): (s: string)
    requires k < 1000
    ensures |s| == 3 && AllDigits(s)
  {
    [DigitChar(k / 100), DigitChar(k / 10 % 10), DigitChar(k % 10)]
  }

  /** `"{:,}".format(n)` */
  function Grouped(n: nat): string {
    if n < 1000 then Decimal(n) else Grouped(n / 1000) + "," + ThreeDigits(n % 1000)
  }

  /** The string with every comma removed. */
  function StripCommas(s: string): (r: string)
    ensures forall i :: 0 <= i < |r| ==> r[i] != ','
  {
    if |s| == 0 then ""
    else (if s[0] == ',' then "" else [s[0]]) + StripCommas(s[1..])
  }

  lemma {:induction false} StripCommasAppend(a: string, b: string)
    ensures StripCommas(a + b) == StripCommas(a) + StripCommas(b)
  {
    if |a| == 0 {
      assert a + b == b;
    } else {
      assert (a + b)[1..] == a[1..] + b;
      StripCommasAppend(a[1..], b);
    }
  }

  lemma {:induction false} StripCommasOfDigits(s: string)
    requires AllDigits(s)
    ensures StripCommas(s) == s
  {
    if |s| > 0 {
      StripCommasOfDigits(s[1..]);
    }
  }

  /**
   * The shape of a grouped number: one to three digits, then any number of
   * comma-separated groups of exactly three digits.
   */
  predicate WellGrouped(s: string)
    decreases |s|
  {
    if |s| <= 3 then 1 <= |s| && AllDigits(s)
    else |s| >= 5 && s[|s| - 4] == ',' && AllDigits(s[|s| - 3..]) && WellGrouped(s[..|s| - 4])
  }

  /** Peeling the last decimal digit three times peels the last group of three. */
  lemma DecimalLastGroup(n: nat)
    requires n >= 1000
    ensures Decimal(n) == Decimal(n / 1000) + ThreeDigits(n % 1000)
  {
    var q := n / 1000;
    var r := n % 1000;
    assert n == 1000 * q + r;
    assert n / 10 == 100 * q + r / 10;
    assert n / 10 / 10 == 10 * q + r / 100;
    assert n / 10 / 10 / 10 == q;
    assert n % 10 == r % 10;
    assert n / 10 % 10 == r / 10 % 10;
    assert n / 10 / 10 % 10 == r / 100;
    calc {
      Decimal(n);
      Decimal(n / 10) + [DigitChar(n % 10)];
      Decimal(n / 10 / 10) + [DigitChar(n / 10 % 10)] + [DigitChar(n % 10)];
      Decimal(q) + [DigitChar(n / 10 / 10 % 10)] + [DigitChar(n / 10 % 10)] + [DigitChar(n % 10)];
    }
  }

  /**
   * `"{:,}"` formatting is the decimal form with commas inserted: removing them
   * gives `str(n)` back, so the number can be read back.
   */
  lemma {:induction false} GroupedStripsToDecimal(n: nat)
    ensures StripCommas(Grouped(n)) == Decimal(n)
    ensures ValueOf(StripCommas(Grouped(n))) == n
  {
    if n < 1000 {
      StripCommasOfDigits(Decimal(n));
    } else {
      var head := Grouped(n / 1000);
      var tail := ThreeDigits(n % 1000);
      assert Grouped(n) == head + "," + tail;
      GroupedStripsToDecimal(n / 1000);
      StripCommasAppend(head + ",", tail);
      StripCommasAppend(head, ",");
      assert StripCommas(",") == "";
      StripCommasOfDigits(tail);
      assert StripCommas(Grouped(n)) == Decimal(n / 1000) + tail;
      DecimalLastGroup(n);
    }
    DecimalRoundTrip(n);
  }

  /** The first group has one to three digits and every later group exactly three. */
  lemma {:induction false} GroupedShape(n: nat)
    ensures WellGrouped(Grouped(n))
    ensures Grouped(n)[0] == '0' <==> n == 0
  {
    if n < 1000 {
      DecimalShort(n);
      DecimalRoundTrip(n);
    } else {
      GroupedShape(n / 1000);
      var s := Grouped(n);
      var head := Grouped(n / 1000);
      assert s == head + "," + ThreeDigits(n % 1000);
      assert s[..|s| - 4] == head;
      assert s[|s| - 3..] == ThreeDigits(n % 1000);
      GroupedLength(n / 1000);
    }
  }

  lemma {:induction false} GroupedLength(n: nat)
    ensures |Grouped(n)| >= 1
  {
    if n >= 1000 {
      GroupedLength(n / 1000);
    }
  }
}
