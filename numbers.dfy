/**
 * JavaScript numbers as the source reads them from strings: `parseInt`
 * (decimal, or hexadecimal after `0x`) and `parseFloat` (sign, digits and one
 * decimal point; exponent notation and `Infinity` are not modelled).
 * `NaN` is a value of its own: every comparison with it is false.
 */
module Numbers {
  import opened Strings

  datatype JsNum = Num(r: real) | NaN {
    /** JavaScript truthiness: `0` and `NaN` are falsy. */
    predicate Truthy() {
      Num? && r != 0.0
    }

    /** Multiplication by a constant; `NaN` stays `NaN`. */
    function Times(k: real): JsNum {
      if NaN? then NaN else Num(r * k)
    }

    /** Multiplication of two numbers; `NaN` if either is. */
    function Mul(b: JsNum): JsNum {
      if NaN? || b.NaN? then NaN else Num(r * b.r)
    }

    /** `x || 0`: falsy values (`0`, `NaN`) become `0`. */
    function OrZero(): real {
      if Truthy() then r else 0.0
    }
  }

  function DigitValue(c: char): nat
    requires IsDigit(c)
  {
    (c as int) - ('0' as int)
  }

  predicate IsHexDigit(c: char) {
    IsDigit(c) || ('a' <= c <= 'f') || ('A' <= c <= 'F')
  }

  function HexDigitValue(c: char): (v: nat)
    requires IsHexDigit(c)
    ensures v < 16
  {
    if IsDigit(c) then DigitValue(c)
    else if 'a' <= c <= 'f' then (c as int) - ('a' as int) + 10
    else (c as int) - ('A' as int) + 10
  }

  /** Length of the longest prefix of decimal digits. */
  function DigitRun(s: string): (n: nat)
    ensures n <= |s|
    ensures forall i :: 0 <= i < n ==> IsDigit(s[i])
    ensures n < |s| ==> !IsDigit(s[n])
  {
    if s == [] || !IsDigit(s[0]) then 0 else 1 + DigitRun(s[1..])
  }

  /** Length of the longest prefix of hexadecimal digits. */
  function HexRun(s: string): (n: nat)
    ensures n <= |s|
    ensures forall i :: 0 <= i < n ==> IsHexDigit(s[i])
    ensures n < |s| ==> !IsHexDigit(s[n])
  {
    if s == [] || !IsHexDigit(s[0]) then 0 else 1 + HexRun(s[1..])
  }

  /** Value of a string of decimal digits, most significant first. */
  function DecValue(d: string): nat
    requires forall i :: 0 <= i < |d| ==> IsDigit(d[i])
  {
    if d == [] then 0 else DecValue(d[..|d| - 1]) * 10 + DigitValue(d[|d| - 1])
  }

  predicate IsDigitOrDot(c: char) {
    IsDigit(c) || c == '.'
  }

  /** Length of the longest prefix of `[\d.]` characters, the run a number pattern of the source takes. */
  function DigitDotRun(s: string): (n: nat)
    ensures n <= |s|
    ensures forall i :: 0 <= i < n ==> IsDigitOrDot(s[i])
    ensures n < |s| ==> !IsDigitOrDot(s[n])
  {
    if s == [] || !IsDigitOrDot(s[0]) then 0 else 1 + DigitDotRun(s[1..])
  }

  /** Value of a string of hexadecimal digits, most significant first. */
  function HexValue(d: string): nat
    requires forall i :: 0 <= i < |d| ==> IsHexDigit(d[i])
  {
    if d == [] then 0 else HexValue(d[..|d| - 1]) * 16 + HexDigitValue(d[|d| - 1])
  }

  function Pow10(n: nat): (p: nat)
    ensures p >= 1
  {
    if n == 0 then 1 else 10 * Pow10(n - 1)
  }

  /** `parseInt(s)` with no radix argument. */
  function ParseInt(s: string): JsNum {
    var t := s[LeadingSpaces(s)..];
    var neg := |t| > 0 && t[0] == '-';
    var u := if |t| > 0 && (t[0] == '-' || t[0] == '+') then t[1..] else t;
    var hex := |u| >= 2 && u[0] == '0' && (u[1] == 'x' || u[1] == 'X');
    if hex then
      var h := u[2..][..HexRun(u[2..])];
      if h == [] then NaN
      else Num(if neg then -(HexValue(h) as real) else HexValue(h) as real)
    else
      var d := u[..DigitRun(u)];
      if d == [] then NaN
      else Num(if neg then -(DecValue(d) as real) else DecValue(d) as real)
  }

  /** `parseFloat(s)`: the longest prefix of the form [sign] digits [. digits] or [sign] . digits. */
  function ParseFloat(s: string): JsNum {
    var t := s[LeadingSpaces(s)..];
    var neg := |t| > 0 && t[0] == '-';
    var u := if |t| > 0 && (t[0] == '-' || t[0] == '+') then t[1..] else t;
    var ip := u[..DigitRun(u)];
    var rest := u[DigitRun(u)..];
    var fp := if |rest| > 0 && rest[0] == '.' then rest[1..][..DigitRun(rest[1..])] else [];
    if ip == [] && fp == [] then NaN
    else
      var v := DecValue(ip) as real + (DecValue(fp) as real) / (Pow10(|fp|) as real);
      Num(if neg then -v else v)
  }

  /** Decimal digits of a natural number, without leading zeros. */
  function NatToString(n: nat): (s: string)
    ensures |s| >= 1
    ensures forall i :: 0 <= i < |s| ==> IsDigit(s[i])
    ensures n > 0 ==> s[0] != '0'
    ensures n == 0 ==> s == "0"
  {
    if n < 10 then ["0123456789"[n]]
    else NatToString(n / 10) + ["0123456789"[n % 10]]
  }

  /** `String(n)` for an integer. */
  function IntToString(n: int): string {
    if n < 0 then "-" + NatToString(-n) else NatToString(n)
  }

  lemma {:induction false} NatToStringValue(n: nat)
    ensures DecValue(NatToString(n)) == n
  {
    var s := NatToString(n);
    DigitChar(n % 10);
    if n >= 10 {
      NatToStringValue(n / 10);
      assert s[..|s| - 1] == NatToString(n / 10);
      assert DecValue(s) == DecValue(NatToString(n / 10)) * 10 + n % 10;
    }
  }

  lemma DigitChar(k: nat)
    requires k < 10
    ensures IsDigit("0123456789"[k]) && DigitValue("0123456789"[k]) == k
  {
  }

  lemma AllDigitsRun(s: string)
    requires forall i :: 0 <= i < |s| ==> IsDigit(s[i])
    ensures DigitRun(s) == |s|
  {
    if s != [] {
      AllDigitsRun(s[1..]);
    }
  }

  /** `parseInt(String(n)) === n` for every integer. */
  lemma ParseIntRoundTrip(n: int)
    ensures ParseInt(IntToString(n)) == Num(n as real)
  {
    if n >= 0 {
      assert IntToString(n) == NatToString(n) + [];
      ParseIntNat(n, []);
    } else {
      ParseIntNegative(-n);
    }
  }

  /** `parseInt` reads a negative integer back from its sign and digits. */
  lemma ParseIntNegative(m: nat)
    requires m > 0
    ensures ParseInt("-" + NatToString(m)) == Num(-(m as real))
  {
    var d := NatToString(m);
    var s := "-" + d;
    NatToStringValue(m);
    AllDigitsRun(d);
    assert LeadingSpaces(s) == 0 by {
      assert !IsSpace(s[0]);
    }
    assert s[0..] == s;
    assert s[1..] == d;
    assert d[..DigitRun(d)] == d;
  }

  /** The digit run of a digit string stops where the digits end. */
  lemma {:induction false} DigitRunPrefix(d: string, rest: string)
    requires forall i :: 0 <= i < |d| ==> IsDigit(d[i])
    requires rest == [] || !IsDigit(rest[0])
    ensures DigitRun(d + rest) == |d|
    decreases |d|
  {
    if d != [] {
      assert (d + rest)[1..] == d[1..] + rest;
      DigitRunPrefix(d[1..], rest);
    }
  }

  /**
   * `parseFloat` reads a natural number back from its decimal digits when
   * no digit, decimal point or exponent marker follows them.
   */
  lemma ParseFloatNat(n: nat, rest: string)
    requires rest == [] || (!IsDigit(rest[0]) && rest[0] != '.' && rest[0] != 'e' && rest[0] != 'E')
    ensures ParseFloat(NatToString(n) + rest) == Num(n as real)
  {
    var d := NatToString(n);
    var s := d + rest;
    NatToStringValue(n);
    DigitRunPrefix(d, rest);
    assert IsDigit(s[0]) && !IsSpace(s[0]);
    var t := s[LeadingSpaces(s)..];
    assert t == s;
    assert t[0] != '-' && t[0] != '+';
    assert DigitRun(t) == |d|;
    assert t[..DigitRun(t)] == d;
    assert t[DigitRun(t)..] == rest;
  }

  /**
   * `parseInt` reads a natural number back from its decimal digits, whatever
   * non-digit text follows, except that `0` followed by `x` or `X` is the
   * start of a hexadecimal numeral.
   */
  lemma ParseIntNat(n: nat, rest: string)
    requires rest == [] || (!IsDigit(rest[0]) && (n != 0 || (rest[0] != 'x' && rest[0] != 'X')))
    ensures ParseInt(NatToString(n) + rest) == Num(n as real)
  {
    var d := NatToString(n);
    var s := d + rest;
    NatToStringValue(n);
    DigitRunPrefix(d, rest);
    assert IsDigit(s[0]) && !IsSpace(s[0]);
    var t := s[LeadingSpaces(s)..];
    assert t == s;
    assert t[0] != '-' && t[0] != '+';
    assert |t| < 2 || t[0] != '0' || (t[1] != 'x' && t[1] != 'X') by {
      if n != 0 {
        assert t[0] == d[0] != '0';
      } else if |t| >= 2 {
        assert d == "0";
        assert t[1] == rest[0];
      }
    }
    assert t[..DigitRun(t)] == d;
  }
}
