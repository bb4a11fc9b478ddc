/** The part of JavaScript's `parseFloat` the colour rule depends on: skip
    leading white space, read an optional sign, the longest run of digits,
    and an optional fraction after a '.'; text without a digit there is NaN.
    Prices are exact `real`s here and NaN is `None`. */
module Price {
  import opened JsValues

  predicate IsSpace(c: char)
  {
    c == ' ' || c == '\t' || c == '\n' || c == '\r' || c == '\U{000B}' || c == '\U{000C}'
    || c == '\U{00A0}' || c == '\U{FEFF}'
  }

  predicate IsDigit(c: char)
  {
    '0' <= c <= '9'
  }

  predicate AllDigits(s: string)
  {
    forall i :: 0 <= i < |s| ==> IsDigit(s[i])
  }

  /** `s` with its leading white space removed. */
  function TrimStart(s: string): (r: string)
    ensures |r| <= |s| && r == s[|s| - |r|..]
    ensures r == [] || !IsSpace(r[0])
    ensures forall i :: 0 <= i < |s| - |r| ==> IsSpace(s[i])
  {
    if |s| > 0 && IsSpace(s[0]) then TrimStart(s[1..]) else s
  }

  /** The length of the longest prefix of `s` made of digits. */
  function DigitRun(s: string): (n: nat)
    ensures n <= |s|
    ensures AllDigits(s[..n])
    ensures n < |s| ==> !IsDigit(s[n])
  {
    if |s| > 0 && IsDigit(s[0]) then
      var n := 1 + DigitRun(s[1..]);
      assert s[..n] == [s[0]] + s[1..][..n - 1];
      n
    else 0
  }

  function DigitValue(c: char): nat
    requires IsDigit(c)
  {
    c as int - '0' as int
  }

  /** The number a string of decimal digits denotes (0 for the empty string). */
  function DigitsValue(ds: string): nat
    requires AllDigits(ds)
  {
    if ds == [] then 0 else DigitsValue(ds[..|ds| - 1]) * 10 + DigitValue(ds[|ds| - 1])
  }

  function Pow10(n: nat): (p: nat)
    ensures p >= 1
  {
    if n == 0 then 1 else 10 * Pow10(n - 1)
  }

  /** The digits after a leading '.' of `rest`, or "" if `rest` does not start with '.'. */
  function Fraction(rest: string): (f: string)
    ensures AllDigits(f)
  {
    if |rest| > 0 && rest[0] == '.' then rest[1..][..DigitRun(rest[1..])] else ""
  }

  /** The value of the decimal numeral `i.f`. */
  function DecimalValue(i: string, f: string): real
    requires AllDigits(i) && AllDigits(f)
  {
    DigitsValue(i) as real + DigitsValue(f) as real / Pow10(|f|) as real
  }

  /** An unsigned decimal prefix: digits, then optionally '.' and digits. */
  function ParseUnsigned(s: string): Option<real>
  {
    var n := DigitRun(s);
    var frac := Fraction(s[n..]);
    if n + |frac| == 0 then None
    else Some(DecimalValue(s[..n], frac))
  }

  /** An optional sign, then an unsigned decimal prefix. */
  function ParseSigned(t: string): Option<real>
  {
    if |t| > 0 && t[0] == '-' then
      (match ParseUnsigned(t[1..]) case None => None case Some(v) => Some(-v))
    else if |t| > 0 && t[0] == '+' then ParseUnsigned(t[1..])
    else ParseUnsigned(t)
  }

  /** `parseFloat(f)`; `parseFloat(undefined)` is NaN. */
  function ParseFloat(f: Field): Option<real>
  {
    match f
    case None => None
    case Some(s) => ParseSigned(TrimStart(s))
  }

  /** `a > b` on numbers that may be NaN: any comparison with NaN is false. */
  predicate Greater(a: Option<real>, b: Option<real>)
  {
    a.Some? && b.Some? && a.value > b.value
  }

  /** `a < b` on numbers that may be NaN. */
  predicate Less(a: Option<real>, b: Option<real>)
  {
    a.Some? && b.Some? && a.value < b.value
  }

  /** The digit run of `d + r` is `d` when `r` does not continue it. */
  lemma {:induction false} DigitRunStops(d: string, r: string)
    requires AllDigits(d)
    requires r == [] || !IsDigit(r[0])
    ensures DigitRun(d + r) == |d|
  {
    if d != [] {
      assert (d + r)[1..] == d[1..] + r;
      DigitRunStops(d[1..], r);
    }
  }

  /** Text that starts with a digit or '.' has no white space or sign to skip. */
  lemma ParseFloatUnsigned(s: string)
    requires |s| > 0 && (IsDigit(s[0]) || s[0] == '.')
    ensures ParseFloat(Some(s)) == ParseUnsigned(s)
  {
    assert !IsSpace(s[0]);
    assert TrimStart(s) == s;
  }

  /** The fraction of ".f r" is f when r does not continue the digits. */
  lemma FractionOf(f: string, r: string)
    requires AllDigits(f)
    requires r == [] || !IsDigit(r[0])
    ensures Fraction("." + f + r) == f
  {
    var tail := "." + f + r;
    assert tail[1..] == f + r;
    DigitRunStops(f, r);
    assert (f + r)[..|f|] == f;
  }

  /** `ParseUnsigned` reads the digits `i` and then the fraction of the rest. */
  lemma ParseUnsignedSplit(s: string, i: string, tail: string, f: string)
    requires s == i + tail
    requires AllDigits(i) && AllDigits(f) && |i| + |f| > 0
    requires tail == [] || !IsDigit(tail[0])
    requires Fraction(tail) == f
    ensures ParseUnsigned(s) == Some(DecimalValue(i, f))
  {
    DigitRunStops(i, tail);
    assert s[..|i|] == i;
    assert s[|i|..] == tail;
  }

  lemma ParseUnsignedDecimal(i: string, f: string, r: string)
    requires AllDigits(i) && AllDigits(f) && |i| + |f| > 0
    requires r == [] || !IsDigit(r[0])
    ensures ParseUnsigned(i + "." + f + r)
         == Some(DecimalValue(i, f))
  {
    var tail := "." + f + r;
    FractionOf(f, r);
    ParseUnsignedSplit(i + "." + f + r, i, tail, f);
  }

  /** Reading a price written as `i.f`, possibly followed by text that is not a
      digit, gives the exact decimal value `i + f / 10^|f|`. */
  lemma ParseDecimalText(i: string, f: string, r: string)
    requires AllDigits(i) && AllDigits(f) && |i| + |f| > 0
    requires r == [] || !IsDigit(r[0])
    ensures ParseFloat(Some(i + "." + f + r))
         == Some(DecimalValue(i, f))
  {
    var s := i + "." + f + r;
    assert s[0] == if |i| > 0 then i[0] else '.';
    ParseFloatUnsigned(s);
    ParseUnsignedDecimal(i, f, r);
  }

  /** The decimal rendering of a natural number, as `String(n)` gives it. */
  function NatText(n: nat): (s: string)
    ensures |s| > 0 && AllDigits(s)
  {
    if n < 10 then [('0' as int + n) as char] else NatText(n / 10) + [('0' as int + n % 10) as char]
  }

  lemma {:induction false} NatTextValue(n: nat)
    ensures DigitsValue(NatText(n)) == n
  {
    if n >= 10 {
      var s := NatText(n);
      assert s[..|s| - 1] == NatText(n / 10);
      NatTextValue(n / 10);
    }
  }

  /** Round trip: reading back the decimal text of a whole number gives that number. */
  lemma ParseNatText(n: nat)
    ensures ParseFloat(Some(NatText(n))) == Some(n as real)
  {
    assert DecimalValue(NatText(n), "") == DigitsValue(NatText(n)) as real;
    var s := NatText(n);
    ParseFloatUnsigned(s);
    DigitRunStops(s, "");
    assert s + "" == s;
    assert s[..|s|] == s;
    assert s[|s|..] == "";
    assert Fraction("") == "";
    NatTextValue(n);
  }

  predicate NoDigit(s: string)
  {
    forall i :: 0 <= i < |s| ==> !IsDigit(s[i])
  }

  /** Text in which no digit occurs has no unsigned number at its start. */
  lemma NoDigitUnsigned(u: string)
    requires NoDigit(u)
    ensures ParseUnsigned(u) == None
  {
    assert DigitRun(u) == 0;
    assert u[0..] == u;
    if |u| > 1 && u[0] == '.' {
      assert !IsDigit(u[1..][0]);
    }
  }

  lemma NoDigitSigned(t: string)
    requires NoDigit(t)
    ensures ParseSigned(t) == None
  {
    NoDigitUnsigned(t);
    if |t| > 0 {
      assert NoDigit(t[1..]) by {
        assert forall i :: 0 <= i < |t| - 1 ==> t[1..][i] == t[i + 1];
      }
      NoDigitUnsigned(t[1..]);
    }
  }

  /** Text in which no digit occurs reads as NaN. */
  lemma NoDigitIsNaN(s: string)
    requires NoDigit(s)
    ensures ParseFloat(Some(s)) == None
  {
    var t := TrimStart(s);
    assert NoDigit(t) by {
      assert forall i :: 0 <= i < |t| ==> t[i] == s[|s| - |t| + i];
    }
    NoDigitSigned(t);
  }
}
