/** The string operations the pages rely on from the JavaScript runtime:
    `String.prototype.replace` with a one-character string pattern,
    `String.prototype.toUpperCase`, and the conversion of an integral
    number to text that happens when JSX renders `{n}`. */
module Text {
  import opened Wrappers

  /** Position of the first occurrence of `c` in `s`, if any. */
  function IndexOf(s: string, c: char): (r: Option<nat>)
    ensures r.None? <==> c !in s
    ensures r.Some? ==> r.value < |s| && s[r.value] == c
    ensures r.Some? ==> forall j :: 0 <= j < r.value ==> s[j] != c
  {
    if |s| == 0 then None
    else if s[0] == c then Some(0)
    else
      match IndexOf(s[1..], c)
      case None => None
      case Some(i) => Some(i + 1)
  }

  /** `s.replace(from, to)` for one-character strings: JavaScript replaces
      only the FIRST occurrence when the pattern is a string. */
  function ReplaceFirst(s: string, from: char, to: char): (r: string)
    ensures |r| == |s|
  {
    if |s| == 0 then s
    else if s[0] == from then [to] + s[1..]
    else [s[0]] + ReplaceFirst(s[1..], from, to)
  }

  /** Reference description of `ReplaceFirst`: the string is unchanged when
      `from` does not occur, and otherwise exactly the first occurrence is
      overwritten while every later occurrence is kept. */
  lemma {:induction false} ReplaceFirstSpec(s: string, from: char, to: char)
    ensures from !in s ==> ReplaceFirst(s, from, to) == s
    ensures from in s ==>
      var i := IndexOf(s, from).value;
      ReplaceFirst(s, from, to) == s[..i] + [to] + s[i + 1..]
  {
    if |s| == 0 {
    } else if s[0] == from {
    } else {
      ReplaceFirstSpec(s[1..], from, to);
      if from in s {
        assert from in s[1..];
        var i := IndexOf(s[1..], from).value;
        assert s[..i + 1] == [s[0]] + s[1..][..i];
        assert s[i + 2..] == s[1..][i + 1..];
      } else {
        assert from !in s[1..];
      }
    }
  }

  /** Pointwise form of `ReplaceFirstSpec`: position `k` of the result is
      `to` exactly at the first occurrence of `from`, and `s[k]` elsewhere. */
  lemma ReplaceFirstPointwise(s: string, from: char, to: char, k: nat)
    requires k < |s|
    ensures ReplaceFirst(s, from, to)[k] ==
      (if IndexOf(s, from) == Some(k) then to else s[k])
  {
    ReplaceFirstSpec(s, from, to);
  }

  predicate IsLowerAscii(c: char) {
    'a' <= c <= 'z'
  }

  /** Upper-case counterpart of one character (ASCII letters only). */
  function UpperChar(c: char): (u: char)
    ensures !IsLowerAscii(u)
    ensures IsLowerAscii(c) ==> 'A' <= u <= 'Z' && u as int + 32 == c as int
    ensures !IsLowerAscii(c) ==> u == c
  {
    if IsLowerAscii(c) then (c as int - 32) as char else c
  }

  /** `s.toUpperCase()`: every lower-case letter is mapped to its capital,
      every other character is kept, and the length does not change. */
  function ToUpper(s: string): (r: string)
    ensures |r| == |s|
    ensures forall i :: 0 <= i < |s| ==> r[i] == UpperChar(s[i])
    ensures forall i :: 0 <= i < |r| ==> !IsLowerAscii(r[i])
  {
    if |s| == 0 then []
    else [UpperChar(s[0])] + ToUpper(s[1..])
  }

  predicate IsDigit(c: char) {
    '0' <= c <= '9'
  }

  predicate AllDigits(s: string) {
    forall i :: 0 <= i < |s| ==> IsDigit(s[i])
  }

  function DigitChar(d: nat): (c: char)
    requires d < 10
    ensures IsDigit(c)
  {
    ('0' as int + d) as char
  }

  function DigitValue(c: char): (d: nat)
    requires IsDigit(c)
    ensures d < 10
  {
    c as int - '0' as int
  }

  /** Decimal text of a natural number: at least one digit, only digits, and
      no leading zero unless the number is zero itself. */
  function NatToDecimal(n: nat): (r: string)
    ensures |r| >= 1
    ensures AllDigits(r)
    ensures |r| > 1 ==> r[0] != '0'
    ensures r[0] == '0' <==> n == 0
  {
    if n < 10 then [DigitChar(n)]
    else NatToDecimal(n / 10) + [DigitChar(n % 10)]
  }

  /** Value of a string of decimal digits (the empty string reads as 0). */
  function DecimalValue(s: string): nat
    requires AllDigits(s)
  {
    if |s| == 0 then 0
    else DecimalValue(s[..|s| - 1]) * 10 + DigitValue(s[|s| - 1])
  }

  /** Reading back the decimal text of `n` gives `n`. */
  lemma {:induction false} NatDecimalRoundTrip(n: nat)
    ensures DecimalValue(NatToDecimal(n)) == n
  {
    if n >= 10 {
      NatDecimalRoundTrip(n / 10);
      var s := NatToDecimal(n / 10) + [DigitChar(n % 10)];
      assert s[..|s| - 1] == NatToDecimal(n / 10);
    }
  }

  /** Text of an integral JavaScript number, as `String(n)` gives it for
      integers: a minus sign for negative values, then the decimal digits. */
  function IntToDecimal(n: int): (r: string)
    ensures |r| >= 1
    ensures r[0] == '-' <==> n < 0
    ensures var d := r[(if n < 0 then 1 else 0)..];
      |d| >= 1 && AllDigits(d) && (|d| > 1 ==> d[0] != '0') && (d[0] == '0' <==> n == 0)
    ensures IsCanonicalInt(r)
  {
    if n < 0 then
      var r := "-" + NatToDecimal(-n);
      assert r[1..] == NatToDecimal(-n);
      r
    else NatToDecimal(n)
  }

  /** The shape of `String(n)` for an integer `n`: an optional minus sign,
      then at least one digit, no leading zero, and no negative zero. */
  predicate IsCanonicalInt(t: string) {
    var d := if |t| > 0 && t[0] == '-' then t[1..] else t;
    && |d| >= 1
    && AllDigits(d)
    && (|d| > 1 ==> d[0] != '0')
    && (|t| > 0 && t[0] == '-' ==> d[0] != '0')
  }

  /** Inverse of `IntToDecimal`: an optional minus sign followed by at least
      one digit. */
  function ParseInt(s: string): Option<int> {
    if |s| >= 2 && s[0] == '-' && AllDigits(s[1..]) then
      var v: int := DecimalValue(s[1..]);
      Some(-v)
    else if |s| >= 1 && AllDigits(s) then Some(DecimalValue(s))
    else None
  }

  /** The text of every integer parses back to that integer. */
  lemma IntDecimalRoundTrip(n: int)
    ensures ParseInt(IntToDecimal(n)) == Some(n)
  {
    if n < 0 {
      var s := "-" + NatToDecimal(-n);
      assert s[1..] == NatToDecimal(-n);
      NatDecimalRoundTrip(-n);
    } else {
      NatDecimalRoundTrip(n);
    }
  }

  lemma DigitCharValue(c: char)
    requires IsDigit(c)
    ensures DigitChar(DigitValue(c)) == c
  {
  }

  /** A digit string without a leading zero denotes a positive number. */
  lemma {:induction false} LeadingDigitPositive(d: string)
    requires |d| >= 1 && AllDigits(d) && d[0] != '0'
    ensures DecimalValue(d) >= 1
  {
    if |d| > 1 {
      var p := d[..|d| - 1];
      assert p[0] == d[0];
      LeadingDigitPositive(p);
    }
  }

  /** A digit string without a leading zero is the decimal text of its own
      value: the decimal text of a number is the only such string for it. */
  lemma {:induction false} CanonicalDecimalUnique(d: string)
    requires |d| >= 1 && AllDigits(d) && (|d| > 1 ==> d[0] != '0')
    ensures NatToDecimal(DecimalValue(d)) == d
  {
    var k := DigitValue(d[|d| - 1]);
    DigitCharValue(d[|d| - 1]);
    if |d| == 1 {
      assert DecimalValue(d) == DecimalValue(d[..0]) * 10 + k;
    } else {
      var p := d[..|d| - 1];
      assert p[0] == d[0];
      LeadingDigitPositive(p);
      CanonicalDecimalUnique(p);
      var v := DecimalValue(d);
      assert v == DecimalValue(p) * 10 + k;
      assert v / 10 == DecimalValue(p) && v % 10 == k;
      assert d == p + [d[|d| - 1]];
    }
  }

  /** `IntToDecimal` is the only canonical text that parses to `n`, so the
      shape and the round trip together determine the text. */
  lemma IntToDecimalUnique(t: string, n: int)
    requires IsCanonicalInt(t) && ParseInt(t) == Some(n)
    ensures t == IntToDecimal(n)
  {
    if |t| > 0 && t[0] == '-' {
      var d := t[1..];
      CanonicalDecimalUnique(d);
      LeadingDigitPositive(d);
      assert t == "-" + d;
    } else {
      CanonicalDecimalUnique(t);
    }
  }
}
