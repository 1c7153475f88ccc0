/**
 * The string operations the dashboards rely on: Python's `str()` of an
 * integer, the integer literals that `pandas.to_numeric` accepts, and
 * Python's code-point lexicographic string comparison (the order pandas
 * uses for string group keys).
 */
module Text {
  import opened Wrappers

  predicate IsDigit(c: char) { '0' <= c <= '9' }

  predicate AllDigits(s: string) { forall i :: 0 <= i < |s| ==> IsDigit(s[i]) }

  function DigitChar(d: nat): (c: char)
    requires d < 10
    ensures IsDigit(c)
  {
    ('0' as int + d) as char
  }

  function DigitValue(c: char): (d: nat)
    requires IsDigit(c)
    ensures d < 10
  {
    c as int - '0' as int
  }

  /** Decimal digits of a natural number, most significant first, no leading zeros. */
  function NatToString(n: nat): (s: string)
    ensures |s| > 0 && AllDigits(s)
    ensures (|s| == 1) == (n < 10)
  {
    if n < 10 then [DigitChar(n)] else NatToString(n / 10) + [DigitChar(n % 10)]
  }

  /** Python's `str(i)` for an integer. */
  function IntToString(i: int): (s: string)
    ensures |s| > 0
    ensures i >= 0 ==> AllDigits(s)
    ensures i < 0 ==> s[0] == '-' && AllDigits(s[1..])
  {
    if i < 0 then "-" + NatToString(-i) else NatToString(i)
  }

  /** Value of a string of decimal digits. */
  function DigitsValue(s: string): nat
    requires AllDigits(s)
  {
    if |s| == 0 then 0 else DigitsValue(s[..|s| - 1]) * 10 + DigitValue(s[|s| - 1])
  }

  /**
   * Integer literal as `pandas.to_numeric` reads it: an optional sign
   * followed by one or more decimal digits; anything else is not an integer.
   */
  function ParseInt(s: string): (o: Option<int>)
    ensures o.Some? <==> (|s| > 0 && AllDigits(s)) || (|s| > 1 && (s[0] == '-' || s[0] == '+') && AllDigits(s[1..]))
  {
    if |s| > 1 && (s[0] == '-' || s[0] == '+') && AllDigits(s[1..]) then
      Some(if s[0] == '-' then -(DigitsValue(s[1..]) as int) else DigitsValue(s[1..]))
    else if |s| > 0 && AllDigits(s) then
      Some(DigitsValue(s))
    else
      None
  }

  lemma {:induction false} DigitsOfNat(n: nat)
    ensures DigitsValue(NatToString(n)) == n
  {
    var s := NatToString(n);
    if n < 10 {
      assert s[..0] == [];
    } else {
      DigitsOfNat(n / 10);
      assert s[..|s| - 1] == NatToString(n / 10);
    }
  }

  /** Parsing Python's decimal rendering of an integer gives the integer back. */
  lemma ParseIntToString(i: int)
    ensures ParseInt(IntToString(i)) == Some(i)
  {
    var s := IntToString(i);
    if i < 0 {
      var t := NatToString(-i);
      assert s[1..] == t;
      DigitsOfNat(-i);
      assert |s| > 1 && s[0] == '-' && AllDigits(s[1..]);
      assert ParseInt(s) == Some(-(DigitsValue(t) as int));
    } else {
      DigitsOfNat(i);
      assert IsDigit(s[0]) && AllDigits(s);
      assert ParseInt(s) == Some(DigitsValue(s));
    }
  }

  /** Distinct integers have distinct decimal renderings. */
  lemma IntToStringInjective(a: int, b: int)
    requires IntToString(a) == IntToString(b)
    ensures a == b
  {
    ParseIntToString(a);
    ParseIntToString(b);
  }

  /** Python's `a < b` on strings: lexicographic by code point, a proper prefix first. */
  predicate StrLt(a: string, b: string): (lt: bool)
    ensures |a| < |b| && a == b[..|a|] ==> lt
    ensures lt && |b| <= |a| ==> a[..|b|] != b
  {
    if |a| == 0 then |b| > 0
    else |b| > 0 && (a[0] < b[0] || (a[0] == b[0] && StrLt(a[1..], b[1..])))
  }

  lemma {:induction false} StrLtIrreflexive(a: string)
    ensures !StrLt(a, a)
  {
    if |a| > 0 {
      StrLtIrreflexive(a[1..]);
    }
  }

  lemma {:induction false} StrLtTransitive(a: string, b: string, c: string)
    requires StrLt(a, b) && StrLt(b, c)
    ensures StrLt(a, c)
  {
    if |a| > 0 && a[0] == b[0] && b[0] == c[0] {
      StrLtTransitive(a[1..], b[1..], c[1..]);
    }
  }

  lemma {:induction false} StrLtTotal(a: string, b: string)
    requires a != b
    ensures StrLt(a, b) || StrLt(b, a)
  {
    if |a| > 0 && |b| > 0 && a[0] == b[0] {
      assert a == [a[0]] + a[1..] && b == [b[0]] + b[1..];
      StrLtTotal(a[1..], b[1..]);
    }
  }

  /** Comparing two strings that end in one more character each. */
  lemma {:induction false} StrLtSnoc(p: string, q: string, c: char, d: char)
    requires |p| == |q|
    ensures StrLt(p + [c], q + [d]) <==> StrLt(p, q) || (p == q && c < d)
  {
    if |p| > 0 {
      assert (p + [c])[1..] == p[1..] + [c];
      assert (q + [d])[1..] == q[1..] + [d];
      StrLtSnoc(p[1..], q[1..], c, d);
      if p[0] == q[0] && p[1..] == q[1..] {
        assert p == [p[0]] + p[1..] && q == [q[0]] + q[1..];
      }
    }
  }

  /**
   * For renderings of equal length (four-digit years, one-digit quarters)
   * the string order pandas sorts by after `astype(str)` is the numeric order.
   */
  lemma {:induction false} DecimalOrder(a: nat, b: nat)
    requires |NatToString(a)| == |NatToString(b)|
    ensures StrLt(NatToString(a), NatToString(b)) <==> a < b
  {
    if a < 10 || b < 10 {
      assert a < 10 && b < 10;
    } else {
      DecimalOrder(a / 10, b / 10);
      StrLtSnoc(NatToString(a / 10), NatToString(b / 10), DigitChar(a % 10), DigitChar(b % 10));
      if NatToString(a / 10) == NatToString(b / 10) {
        DigitsOfNat(a / 10);
        DigitsOfNat(b / 10);
      }
    }
  }

  /** Four-digit years render as four characters. */
  lemma FourDigits(n: int)
    requires 1000 <= n <= 9999
    ensures |IntToString(n)| == 4
  {
    assert |NatToString(n / 10 / 10 / 10)| == 1;
    assert NatToString(n / 10 / 10) == NatToString(n / 10 / 10 / 10) + [DigitChar(n / 10 / 10 % 10)];
    assert NatToString(n / 10) == NatToString(n / 10 / 10) + [DigitChar(n / 10 % 10)];
  }

  /** Non-negative numbers of one width compare as their `str()` renderings do. */
  lemma SameWidthOrder(a: int, b: int)
    requires 0 <= a && 0 <= b && |IntToString(a)| == |IntToString(b)|
    ensures StrLt(IntToString(a), IntToString(b)) <==> a < b
  {
    DecimalOrder(a, b);
  }

  /**
   * The year/quarter label of the quarter-wise user chart, `str(year) + " Q" + str(quarter)`:
   * its only space ends the year.
   */
  function YearQuarterLabel(year: int, quarter: int): (s: string)
    ensures |s| >= 4
    ensures |IntToString(year)| < |s| && s[|IntToString(year)|] == ' '
    ensures forall k :: 0 <= k < |s| && s[k] == ' ' ==> k == |IntToString(year)|
  {
    IntToString(year) + " Q" + IntToString(quarter)
  }

  /** Different quarters get different labels, so the label identifies the quarter. */
  lemma YearQuarterLabelInjective(y1: int, q1: int, y2: int, q2: int)
    requires YearQuarterLabel(y1, q1) == YearQuarterLabel(y2, q2)
    ensures y1 == y2 && q1 == q2
  {
    var a, b := IntToString(y1), IntToString(y2);
    var s := YearQuarterLabel(y1, q1);
    assert s == a + " Q" + IntToString(q1) && s == b + " Q" + IntToString(q2);
    // both years end at the label's only space
    assert s[|b|] == ' ';
    assert |a| == |b|;
    assert a == s[..|a|] == b;
    IntToStringInjective(y1, y2);
    assert IntToString(q1) == s[|a| + 2..] == IntToString(q2);
    IntToStringInjective(q1, q2);
  }
}
