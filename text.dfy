/**
 * Decimal text helpers shared by the codec, the generators and the
 * persistence sink: the rendering of `std::to_string` for integers, a model of
 * `std::stod` restricted to plain decimal digits, and splitting a record on a
 * separator character.
 */
module Text {

  /** Outcome of a conversion that can throw, as `std::stod` does. */
  datatype Result<T> = Ok(value: T) | Failure(reason: string)

  predicate IsDigit(c: char) {
    '0' <= c <= '9'
  }

  predicate AllDigits(s: string) {
    forall i :: 0 <= i < |s| ==> IsDigit(s[i])
  }

  function DigitValue(c: char): (d: nat)
    requires IsDigit(c)
    ensures d < 10
  {
    c as int - '0' as int
  }

  function DigitChar(d: nat): (c: char)
    requires d < 10
    ensures IsDigit(c) && DigitValue(c) == d
  {
    (d + '0' as int) as char
  }

  /** Decimal rendering of a natural number (`std::to_string` on a non-negative value). */
  function NatToString(n: nat): (s: string)
    ensures s != [] && AllDigits(s)
    ensures |s| == 1 <==> n < 10
    decreases n
  {
    if n < 10 then [DigitChar(n)] else NatToString(n / 10) + [DigitChar(n % 10)]
  }

  /**
   * `std::to_string` on a signed integer: the decimal digits of a non-negative
   * value denote that value; a negative value is a minus sign followed by the
   * digits of its magnitude.
   */
  function IntToString(n: int): (s: string)
    ensures n >= 0 ==> AllDigits(s) && DigitsValue(s) == n
    ensures n < 0 ==> |s| > 1 && s[0] == '-' && AllDigits(s[1..]) && DigitsValue(s[1..]) == -n
    ensures n >= 0 ==> s == NatToString(n)
    ensures n < 0 ==> s[1..] == NatToString(-n)
  {
    if n < 0 then
      NatToStringRoundTrip(-n);
      var s := "-" + NatToString(-n);
      assert s[1..] == NatToString(-n);
      s
    else
      NatToStringRoundTrip(n);
      NatToString(n)
  }

  /** The number a string of decimal digits denotes (leading zeros allowed). */
  function DigitsValue(s: string): nat
    requires AllDigits(s)
  {
    if s == [] then 0 else DigitsValue(s[..|s| - 1]) * 10 + DigitValue(s[|s| - 1])
  }

  lemma {:induction false} NatToStringRoundTrip(n: nat)
    ensures DigitsValue(NatToString(n)) == n
  {
    if n >= 10 {
      NatToStringRoundTrip(n / 10);
      var s := NatToString(n);
      assert s[..|s| - 1] == NatToString(n / 10);
    }
  }

  /** Leading zeros do not change the value of a digit string. */
  lemma {:induction false} LeadingZeroValue(s: string)
    requires AllDigits(s)
    ensures AllDigits("0" + s) && DigitsValue("0" + s) == DigitsValue(s)
  {
    var z := "0" + s;
    assert AllDigits(z) by {
      forall i | 0 <= i < |z| ensures IsDigit(z[i]) {
        if i > 0 { assert z[i] == s[i - 1]; }
      }
    }
    if s != [] {
      LeadingZeroValue(s[..|s| - 1]);
      assert z[..|z| - 1] == "0" + s[..|s| - 1];
    }
  }

  /** A character that is not a digit does not occur in a digit string. */
  lemma NonDigitAbsent(s: string, c: char)
    requires AllDigits(s) && !IsDigit(c)
    ensures c !in s
  {
    assert forall i :: 0 <= i < |s| ==> s[i] != c;
  }

  /** The longest prefix of `s` made of decimal digits. */
  function LeadingDigits(s: string): (d: string)
    ensures d <= s && AllDigits(d)
    ensures |d| < |s| ==> !IsDigit(s[|d|])
  {
    if s == [] || !IsDigit(s[0]) then [] else [s[0]] + LeadingDigits(s[1..])
  }

  lemma {:induction false} LeadingDigitsOfDigits(s: string)
    requires AllDigits(s)
    ensures LeadingDigits(s) == s
  {
    if s != [] {
      LeadingDigitsOfDigits(s[1..]);
    }
  }

  /**
   * `std::stod` on the decimal text the codec's buffers hold: the value of the
   * leading run of decimal digits. Text that does not start with a digit is
   * reported as `std::invalid_argument`. The other forms `std::stod` accepts
   * (leading white space, a sign, a decimal point, an exponent, `inf`, `nan`,
   * hexadecimal) are outside this model.
   */
  function ParseDecimal(s: string): (r: Result<nat>)
    ensures r.Ok? <==> s != [] && IsDigit(s[0])
  {
    var d := LeadingDigits(s);
    if d == [] then Failure("invalid_argument") else Ok(DigitsValue(d))
  }

  lemma ParseDecimalOfDigits(s: string)
    requires s != [] && AllDigits(s)
    ensures ParseDecimal(s) == Ok(DigitsValue(s))
  {
    LeadingDigitsOfDigits(s);
  }

  /** The pieces of `s` between occurrences of `sep` (always at least one piece). */
  function Split(s: string, sep: char): (parts: seq<string>)
    ensures |parts| >= 1
  {
    if s == [] then [""]
    else if s[0] == sep then [""] + Split(s[1..], sep)
    else var rest := Split(s[1..], sep); [[s[0]] + rest[0]] + rest[1..]
  }

  /** A piece free of the separator splits off as the first field. */
  lemma {:induction false} SplitField(a: string, sep: char, b: string)
    requires sep !in a
    ensures Split(a + [sep] + b, sep) == [a] + Split(b, sep)
  {
    if a != [] {
      SplitField(a[1..], sep, b);
      var s := a + [sep] + b;
      assert s[0] == a[0] && s[1..] == a[1..] + [sep] + b;
      assert [a[0]] + a[1..] == a;
    } else {
      assert a + [sep] + b == [sep] + b;
    }
  }

  lemma {:induction false} SplitNone(a: string, sep: char)
    requires sep !in a
    ensures Split(a, sep) == [a]
  {
    if a != [] {
      SplitNone(a[1..], sep);
      assert [a[0]] + a[1..] == a;
    }
  }

  /** A decimal rendering of a non-negative number contains no separator such as `,` or `/`. */
  lemma NumeralHasNo(n: nat, c: char)
    requires !IsDigit(c)
    ensures c !in IntToString(n)
  {
    NonDigitAbsent(IntToString(n), c);
  }

  /** A last piece free of the separator splits off as the last field. */
  lemma {:induction false} SplitLast(x: string, sep: char, z: string)
    requires sep !in z
    ensures Split(x + [sep] + z, sep) == Split(x, sep) + [z]
    decreases |x|
  {
    if x == [] {
      assert x + [sep] + z == [sep] + z;
      SplitNone(z, sep);
    } else {
      var u := x + [sep] + z;
      assert u[0] == x[0] && u[1..] == x[1..] + [sep] + z;
      SplitLast(x[1..], sep, z);
    }
  }

  /** Records of three to six separator-free fields, written with the separator between them, split back. */
  lemma SplitFields3(a: string, b: string, c: string, sep: char)
    requires sep !in a && sep !in b && sep !in c
    ensures Split(a + [sep] + b + [sep] + c, sep) == [a, b, c]
  {
    SplitNone(a, sep);
    SplitLast(a, sep, b);
    SplitLast(a + [sep] + b, sep, c);
  }

  lemma SplitFields4(a: string, b: string, c: string, d: string, sep: char)
    requires sep !in a && sep !in b && sep !in c && sep !in d
    ensures Split(a + [sep] + b + [sep] + c + [sep] + d, sep) == [a, b, c, d]
  {
    SplitFields3(a, b, c, sep);
    SplitLast(a + [sep] + b + [sep] + c, sep, d);
  }

  lemma SplitFields5(a: string, b: string, c: string, d: string, e: string, sep: char)
    requires sep !in a && sep !in b && sep !in c && sep !in d && sep !in e
    ensures Split(a + [sep] + b + [sep] + c + [sep] + d + [sep] + e, sep) == [a, b, c, d, e]
  {
    SplitFields4(a, b, c, d, sep);
    SplitLast(a + [sep] + b + [sep] + c + [sep] + d, sep, e);
  }

  lemma SplitFields6(a: string, b: string, c: string, d: string, e: string, f: string, sep: char)
    requires sep !in a && sep !in b && sep !in c && sep !in d && sep !in e && sep !in f
    ensures Split(a + [sep] + b + [sep] + c + [sep] + d + [sep] + e + [sep] + f, sep) == [a, b, c, d, e, f]
  {
    SplitFields5(a, b, c, d, e, sep);
    SplitLast(a + [sep] + b + [sep] + c + [sep] + d + [sep] + e, sep, f);
  }
}
