/** JavaScript's conversions between integers and their decimal text, as used
    by the chapter keys of the static store: `n.toString()` and `parseInt(s)`. */
module Decimal {
  import opened Base

  predicate IsDigit(c: char) {
    '0' <= c <= '9'
  }

  predicate AllDigits(s: string) {
    forall i :: 0 <= i < |s| ==> IsDigit(s[i])
  }

  function DigitChar(d: nat): (c: char)
    requires d < 10
    ensures IsDigit(c)
  {
    ('0' as int + d) as char
  }

  function DigitValue(c: char): nat
    requires IsDigit(c)
  {
    c as int - '0' as int
  }

  /** The decimal digits of `n`, most significant first, without leading zeros. */
  function Digits(n: nat): (r: string)
    ensures |r| > 0 && AllDigits(r)
    ensures r[0] == '0' <==> n == 0
    ensures n < 10 <==> |r| == 1
    decreases n
  {
    if n < 10 then [DigitChar(n)] else Digits(n / 10) + [DigitChar(n % 10)]
  }

  /** `n.toString()` for an integer `n`: a minus sign for negatives, then the
      digits, with no leading zero except in "0" itself. */
  function ToDecimal(n: int): (r: string)
    ensures |r| > 0
    ensures n < 0 <==> r[0] == '-'
    ensures n < 0 ==> |r| > 1 && AllDigits(r[1..]) && r[1] != '0'
    ensures n >= 0 ==> AllDigits(r) && (r[0] == '0' <==> r == "0")
  {
    if n < 0 then "-" + Digits(-n) else Digits(n)
  }

  /** The number an all-digit string spells in base ten. */
  function DigitsValue(s: string): nat
    requires AllDigits(s)
    decreases |s|
  {
    if s == [] then 0 else DigitsValue(s[..|s| - 1]) * 10 + DigitValue(s[|s| - 1])
  }

  /** Length of the longest all-digit prefix of `s`. */
  function DigitRun(s: string): (k: nat)
    ensures k <= |s|
    ensures AllDigits(s[..k])
    ensures k < |s| ==> !IsDigit(s[k])
    decreases |s|
  {
    if |s| > 0 && IsDigit(s[0]) then
      var k := 1 + DigitRun(s[1..]);
      assert s[..k] == [s[0]] + s[1..][..k - 1];
      k
    else
      0
  }

  /** The white-space characters `parseInt` skips before the number (ASCII only). */
  predicate IsSpace(c: char) {
    c == ' ' || c == '\t' || c == '\n' || c == '\r' || c == '\U{000B}' || c == '\U{000C}'
  }

  /** Length of the white-space prefix of `s`. */
  function SpaceRun(s: string): (k: nat)
    ensures k <= |s|
    ensures forall i :: 0 <= i < k ==> IsSpace(s[i])
    ensures k < |s| ==> !IsSpace(s[k])
    decreases |s|
  {
    if |s| > 0 && IsSpace(s[0]) then 1 + SpaceRun(s[1..]) else 0
  }

  /** `parseInt(s)` with no radix: leading white space is skipped, one sign is
      read, then the longest run of decimal digits; `None` stands for `NaN`,
      the result when that run is empty. Characters after the run are ignored. */
  function ParseInt(s: string): (r: Option<int>)
    ensures |s| > 0 && AllDigits(s) ==> r == Some(DigitsValue(s))
    ensures r.Some? ==> exists i :: 0 <= i < |s| && IsDigit(s[i])
    ensures |s| == 0 || !(IsSpace(s[0]) || IsDigit(s[0]) || s[0] == '-' || s[0] == '+') ==> r.None?
  {
    var t := s[SpaceRun(s)..];
    var negative := |t| > 0 && t[0] == '-';
    var u := if |t| > 0 && (t[0] == '-' || t[0] == '+') then t[1..] else t;
    var k := DigitRun(u);
    assert |s| > 0 && AllDigits(s) ==> t == s && u == s && k == |s| && u[..k] == s by {
      if |s| > 0 && AllDigits(s) {
        assert !IsSpace(s[0]) && s[0..] == s;
      }
    }
    if k == 0 then None
    else
      var magnitude: int := DigitsValue(u[..k]);
      Some(if negative then -magnitude else magnitude)
  }

  lemma {:induction false} DigitsValueOfDigits(n: nat)
    ensures DigitsValue(Digits(n)) == n
    decreases n
  {
    var s := Digits(n);
    if n >= 10 {
      DigitsValueOfDigits(n / 10);
      assert s[..|s| - 1] == Digits(n / 10);
    }
  }

  /** `parseInt` reads back every integer `toString` writes. */
  lemma ParseIntOfDecimal(n: int)
    ensures ParseInt(ToDecimal(n)) == Some(n)
  {
    var s := ToDecimal(n);
    var d := if n < 0 then -n else n;
    var u := Digits(d);
    assert SpaceRun(s) == 0 by {
      assert s[0] == '-' || IsDigit(s[0]);
    }
    assert s[0..] == s;
    if n < 0 {
      assert s[1..] == u;
    } else {
      assert s == u && !(s[0] == '-' || s[0] == '+');
    }
    assert DigitRun(u) == |u|;
    assert u[..|u|] == u;
    DigitsValueOfDigits(d);
  }

  /** Distinct integers have distinct decimal texts. */
  lemma ToDecimalInjective(m: int, n: int)
    requires ToDecimal(m) == ToDecimal(n)
    ensures m == n
  {
    ParseIntOfDecimal(m);
    ParseIntOfDecimal(n);
  }
}
