/** String primitives of the PHP runtime that the backend relies on: prefix and suffix
    trimming, explode/implode, ASCII lower-casing and decimal/hexadecimal text. Strings are
    sequences of characters; PHP's byte strings are modelled one character per byte. */
module Strings {

  /** The characters PHP's trim() removes by default: space, tab, LF, CR, NUL, vertical tab. */
  predicate IsTrimSpace(c: char) {
    c == ' ' || c == '\t' || c == '\n' || c == '\r' || c == '\0' || c == '\U{000B}'
  }

  /** The characters PCRE's `\s` matches: space, tab, LF, vertical tab, form feed, CR. */
  predicate IsRegexSpace(c: char) {
    c == ' ' || c == '\t' || c == '\n' || c == '\U{000B}' || c == '\U{000C}' || c == '\r'
  }

  function Repeat(c: char, n: nat): (r: string)
    ensures |r| == n && forall i :: 0 <= i < n ==> r[i] == c
  {
    if n == 0 then "" else [c] + Repeat(c, n - 1)
  }

  /** ltrim($s, $c) for a single character: drops every leading `c`. */
  function LTrim(s: string, c: char): (r: string)
    ensures |r| <= |s| && r == s[|s| - |r|..]
    ensures r == [] || r[0] != c
    ensures forall i :: 0 <= i < |s| - |r| ==> s[i] == c
  {
    if |s| > 0 && s[0] == c then LTrim(s[1..], c) else s
  }

  /** rtrim($s, $c) for a single character: drops every trailing `c`. */
  function RTrim(s: string, c: char): (r: string)
    ensures |r| <= |s| && r == s[..|r|]
    ensures r == [] || r[|r| - 1] != c
    ensures forall i :: |r| <= i < |s| ==> s[i] == c
  {
    if |s| > 0 && s[|s| - 1] == c then RTrim(s[..|s| - 1], c) else s
  }

  /** Trailing copies of '/' make no difference to rtrim of '/'. */
  lemma {:induction false} RTrimAppendSlashes(s: string, n: nat)
    ensures RTrim(s + Repeat('/', n), '/') == RTrim(s, '/')
  {
    if n > 0 {
      var t := s + Repeat('/', n);
      assert t[|t| - 1] == '/';
      assert t[..|t| - 1] == s + Repeat('/', n - 1) by {
        assert Repeat('/', n) == Repeat('/', n - 1) + ['/'] by { RepeatSnoc('/', n); }
      }
      RTrimAppendSlashes(s, n - 1);
    } else {
      assert s + Repeat('/', 0) == s;
    }
  }

  lemma {:induction false} RepeatSnoc(c: char, n: nat)
    requires n > 0
    ensures Repeat(c, n) == Repeat(c, n - 1) + [c]
  {
  }

  /** Leading copies of the trimmed character make no difference. */
  lemma {:induction false} LTrimRepeat(c: char, n: nat, s: string)
    ensures LTrim(Repeat(c, n) + s, c) == LTrim(s, c)
  {
    if n > 0 {
      RepeatStep(c, n, s);
      LTrimCons(c, Repeat(c, n - 1) + s);
      LTrimRepeat(c, n - 1, s);
    } else {
      RepeatNone(c, s);
    }
  }

  lemma RepeatStep(c: char, n: nat, s: string)
    requires n > 0
    ensures Repeat(c, n) + s == [c] + (Repeat(c, n - 1) + s)
  {
    assert Repeat(c, n) == [c] + Repeat(c, n - 1);
  }

  lemma RepeatNone(c: char, s: string)
    ensures Repeat(c, 0) + s == s
  {
    assert Repeat(c, 0) == [];
  }

  lemma LTrimCons(c: char, r: string)
    ensures LTrim([c] + r, c) == LTrim(r, c)
  {
    assert ([c] + r)[1..] == r;
  }

  /** ltrim twice is ltrim once. */
  lemma LTrimIdempotent(s: string, c: char)
    ensures LTrim(LTrim(s, c), c) == LTrim(s, c)
  {
  }

  function TrimLeft(s: string): (r: string)
    ensures |r| <= |s| && r == s[|s| - |r|..]
    ensures r == [] || !IsTrimSpace(r[0])
  {
    if |s| > 0 && IsTrimSpace(s[0]) then TrimLeft(s[1..]) else s
  }

  function TrimRight(s: string): (r: string)
    ensures |r| <= |s| && r == s[..|r|]
    ensures r == [] || !IsTrimSpace(r[|r| - 1])
  {
    if |s| > 0 && IsTrimSpace(s[|s| - 1]) then TrimRight(s[..|s| - 1]) else s
  }

  /** trim($s): both ends, default character set. */
  function Trim(s: string): (r: string)
    ensures |r| <= |s|
    ensures r == [] || (!IsTrimSpace(r[0]) && !IsTrimSpace(r[|r| - 1]))
  {
    TrimRight(TrimLeft(s))
  }

  /** Trimming a string with no space at either end leaves it unchanged. */
  lemma TrimIdentity(s: string)
    requires s == [] || (!IsTrimSpace(s[0]) && !IsTrimSpace(s[|s| - 1]))
    ensures Trim(s) == s
  {
  }

  /** `needle` occurs somewhere in `hay`: what `hay LIKE '%needle%'` tests when the needle has
      no wildcard characters (collation aside). */
  predicate IsInfix(needle: string, hay: string) {
    exists i :: 0 <= i <= |hay| && OccursAt(needle, hay, i)
  }

  predicate OccursAt(needle: string, hay: string, i: int) {
    0 <= i <= |hay| - |needle| && hay[i..i + |needle|] == needle
  }

  /** Index of the first occurrence of `c` in `s`, or |s| when there is none. */
  function IndexOf(s: string, c: char): (k: nat)
    ensures k <= |s|
    ensures forall i :: 0 <= i < k ==> s[i] != c
    ensures k < |s| ==> s[k] == c
  {
    if |s| == 0 then 0
    else if s[0] == c then 0
    else 1 + IndexOf(s[1..], c)
  }

  /** explode($sep, $s) with a one-character separator. */
  function Split(s: string, sep: char): (parts: seq<string>)
    ensures |parts| >= 1
    decreases |s|
  {
    var k := IndexOf(s, sep);
    if k == |s| then [s] else [s[..k]] + Split(s[k + 1..], sep)
  }

  /** No part of an explode result contains the separator. */
  lemma {:induction false} SplitPartsLackSep(s: string, sep: char)
    ensures forall p :: p in Split(s, sep) ==> sep !in p
    decreases |s|
  {
    var k := IndexOf(s, sep);
    assert sep !in s[..k];
    if k < |s| {
      SplitPartsLackSep(s[k + 1..], sep);
    }
  }

  /** implode($sep, $parts). */
  function Join(parts: seq<string>, sep: string): string
  {
    if |parts| == 0 then ""
    else if |parts| == 1 then parts[0]
    else parts[0] + sep + Join(parts[1..], sep)
  }

  lemma JoinCons(x: string, tail: seq<string>, sep: string)
    requires |tail| >= 1
    ensures Join([x] + tail, sep) == x + sep + Join(tail, sep)
  {
    assert ([x] + tail)[1..] == tail;
  }

  /** implode is the inverse of explode. */
  lemma {:induction false} JoinSplit(s: string, sep: char)
    ensures Join(Split(s, sep), [sep]) == s
    decreases |s|
  {
    var k := IndexOf(s, sep);
    if k < |s| {
      var rest := s[k + 1..];
      assert Split(s, sep) == [s[..k]] + Split(rest, sep);
      JoinSplit(rest, sep);
      JoinCons(s[..k], Split(rest, sep), [sep]);
      assert s == s[..k] + [sep] + rest;
    } else {
      assert Split(s, sep) == [s];
    }
  }

  /** Exploding a string that contains no separator yields that string alone. */
  lemma SplitNoSep(s: string, sep: char)
    requires sep !in s
    ensures Split(s, sep) == [s]
  {
    assert forall i :: 0 <= i < |s| ==> s[i] != sep;
  }

  /** explode of `a + sep + b` where `a` has no separator starts with `a`. */
  lemma SplitHead(a: string, sep: char, b: string)
    requires sep !in a
    ensures Split(a + [sep] + b, sep) == [a] + Split(b, sep)
  {
    var s := a + [sep] + b;
    assert forall i :: 0 <= i < |a| ==> s[i] == a[i] && a[i] != sep;
    assert s[|a|] == sep;
    var k := IndexOf(s, sep);
    assert k == |a|;
    assert s[..k] == a;
    assert s[k + 1..] == b;
  }

  predicate IsUpperAscii(c: char) { 'A' <= c <= 'Z' }

  function LowerChar(c: char): (r: char)
    ensures !IsUpperAscii(r)
  {
    if IsUpperAscii(c) then (c as int + 32) as char else c
  }

  /** strtolower: ASCII letters only, as in PHP 8. */
  function ToLower(s: string): (r: string)
    ensures |r| == |s|
    ensures forall i :: 0 <= i < |s| ==> r[i] == LowerChar(s[i])
  {
    if |s| == 0 then "" else [LowerChar(s[0])] + ToLower(s[1..])
  }

  /** Lower-casing twice is lower-casing once. */
  lemma ToLowerIdempotent(s: string)
    ensures ToLower(ToLower(s)) == ToLower(s)
  {
  }

  // ---------------------------------------------------------------------------
  // Decimal text

  predicate IsDigit(c: char) { '0' <= c <= '9' }

  function DigitChar(d: nat): (c: char)
    requires d < 10
    ensures IsDigit(c)
  {
    ('0' as int + d) as char
  }

  function DigitValue(c: char): (d: nat)
    requires IsDigit(c)
    ensures d < 10
  {
    c as int - '0' as int
  }

  /** Decimal text of a natural number, no leading zeros. */
  function NatToDecimal(n: nat): (r: string)
    ensures |r| >= 1
    ensures forall i :: 0 <= i < |r| ==> IsDigit(r[i])
    decreases n
  {
    if n < 10 then [DigitChar(n)] else NatToDecimal(n / 10) + [DigitChar(n % 10)]
  }

  /** (string)$i for an integer. */
  function IntToDecimal(i: int): (r: string)
    ensures |r| >= 1
    ensures forall k :: 0 <= k < |r| ==> IsDigit(r[k]) || (k == 0 && r[k] == '-')
  {
    if i < 0 then "-" + NatToDecimal(-i) else NatToDecimal(i)
  }

  predicate AllDigits(s: string) { forall i :: 0 <= i < |s| ==> IsDigit(s[i]) }

  /** Value of a digit string read from left to right. */
  function DigitsValue(s: string): nat
    requires forall i :: 0 <= i < |s| ==> IsDigit(s[i])
    decreases |s|
  {
    if |s| == 0 then 0 else DigitsValue(s[..|s| - 1]) * 10 + DigitValue(s[|s| - 1])
  }

  /** Length of the longest prefix of `s` made of decimal digits. */
  function DigitRun(s: string): (k: nat)
    ensures k <= |s|
    ensures forall i :: 0 <= i < k ==> IsDigit(s[i])
    ensures k < |s| ==> !IsDigit(s[k])
  {
    if |s| > 0 && IsDigit(s[0]) then 1 + DigitRun(s[1..]) else 0
  }

  /** The white space a PHP numeric string may start with: space, tab, LF, CR, vertical tab
      and form feed (the same set as PCRE's `\s`). */
  function SkipNumericSpace(s: string): (r: string)
    ensures |r| <= |s| && r == s[|s| - |r|..]
    ensures r == [] || !IsRegexSpace(r[0])
  {
    if |s| > 0 && IsRegexSpace(s[0]) then SkipNumericSpace(s[1..]) else s
  }

  function Pow10(n: nat): (r: nat)
    ensures r >= 1
  {
    if n == 0 then 1 else 10 * Pow10(n - 1)
  }

  /** m times ten to the power e, truncated toward zero (m is not negative). */
  function Scale(m: nat, e: int): nat
    decreases if e >= 0 then e else -e
  {
    if e == 0 then m else if e > 0 then Scale(m * 10, e - 1) else Scale(m / 10, e + 1)
  }

  /** The exponent a numeric string's mantissa is followed by: 'e' or 'E', an optional sign
      and at least one digit; 0 when the text does not start with one. */
  function ExponentAt(a: string): int
  {
    if |a| >= 2 && (a[0] == 'e' || a[0] == 'E') then
      if a[1] == '-' then -(LeadingDigits(a[2..]) as int)
      else if a[1] == '+' then LeadingDigits(a[2..])
      else LeadingDigits(a[1..])
    else 0
  }

  /** The value of the digits `b` starts with (0 when there are none). */
  function LeadingDigits(b: string): nat
  {
    DigitsValue(b[..DigitRun(b)])
  }

  /** The value of the unsigned numeric text `u` starts with, truncated toward zero: digits,
      optionally '.' and further digits (at least one digit in all), then optionally an
      exponent; 0 when it starts with neither a digit nor '.' and a digit. */
  function NumericValue(u: string): int
  {
    var i := DigitRun(u);
    if i < |u| && u[i] == '.' then DecimalValue(u[..i], u[i + 1..])
    else if i == 0 then 0
    else Scale(DigitsValue(u[..i]), ExponentAt(u[i..]))
  }

  /** The value of the digits `ip`, a '.' and the text `after` it: the fraction digits that
      `after` starts with and the exponent after them. */
  function DecimalValue(ip: string, after: string): int
    requires AllDigits(ip)
  {
    var f := DigitRun(after);
    if |ip| == 0 && f == 0 then 0
    else Scale(Mantissa(ip, after[..f]), ExponentAt(after[f..]) - f)
  }

  /** The digits before and after the '.' read as one whole number. */
  function Mantissa(ip: string, frac: string): nat
    requires AllDigits(ip) && AllDigits(frac)
  {
    DigitsValue(ip) * Pow10(|frac|) + DigitsValue(frac)
  }

  /** PHP 8's (int) cast of a string: leading white space, an optional sign, then the
      longest leading numeric text (integer, decimal or exponent form), truncated toward zero;
      whatever follows is ignored and text without a leading number gives 0. */
  function StringToInt(s: string): int
  {
    SignedValue(SkipNumericSpace(s))
  }

  /** The value of numeric text after an optional sign. */
  function SignedValue(t: string): int
  {
    var k := if |t| > 0 && (t[0] == '-' || t[0] == '+') then 1 else 0;
    var v := NumericValue(t[k..]);
    if k == 1 && t[0] == '-' then -v else v
  }

  /** A run of digits alone is read as its decimal value. */
  lemma NumericValueOfDigits(s: string)
    requires |s| > 0 && AllDigits(s)
    ensures NumericValue(s) == DigitsValue(s)
  {
    DigitRunAll(s);
    assert s[..|s|] == s;
    assert s[|s|..] == "";
  }

  /** The digit run of digits followed by a non-digit ends where the digits do. */
  lemma {:induction false} DigitRunUpTo(d: string, rest: string)
    requires AllDigits(d) && (rest == [] || !IsDigit(rest[0]))
    ensures DigitRun(d + rest) == |d|
  {
    if |d| > 0 {
      assert (d + rest)[1..] == d[1..] + rest;
      DigitRunUpTo(d[1..], rest);
    } else {
      assert d + rest == rest;
    }
  }

  /** Integer form: non-empty digits followed by text that is neither a digit nor '.' are
      their value scaled by the exponent that text starts with. */
  lemma NumericInteger(ip: string, rest: string)
    requires |ip| > 0 && AllDigits(ip)
    requires rest == [] || (!IsDigit(rest[0]) && rest[0] != '.')
    ensures NumericValue(ip + rest) == Scale(DigitsValue(ip), ExponentAt(rest))
  {
    var u := ip + rest;
    DigitRunUpTo(ip, rest);
    assert u[..|ip|] == ip && u[|ip|..] == rest;
  }

  /** Decimal form: digits, '.', digits (at least one digit in all) and then a non-digit are
      the value of all the digits, scaled down by the number of fraction digits and up by the
      exponent that follows. */
  lemma NumericDecimal(ip: string, frac: string, rest: string)
    requires AllDigits(ip) && AllDigits(frac) && |ip| + |frac| > 0
    requires rest == [] || !IsDigit(rest[0])
    ensures NumericValue(ip + "." + frac + rest)
            == Scale(Mantissa(ip, frac), ExponentAt(rest) - |frac|)
  {
    var u := ip + "." + frac + rest;
    DecimalSplit(ip, frac, rest);
    NumericValueAtDot(u, ip, frac + rest);
    DigitRunUpTo(frac, rest);
    DecimalValueOfParts(ip, frac, rest);
  }

  /** Where the digits of ip + "." + after end, and what lies on either side of the '.'. */
  lemma DecimalSplit(ip: string, frac: string, rest: string)
    requires AllDigits(ip)
    ensures var u := ip + "." + frac + rest;
      && DigitRun(u) == |ip| && |ip| < |u| && u[|ip|] == '.'
      && u[..|ip|] == ip && u[|ip| + 1..] == frac + rest
  {
    var u := ip + "." + frac + rest;
    assert u == ip + ("." + frac + rest);
    DigitRunUpTo(ip, "." + frac + rest);
    assert u == (ip + ".") + (frac + rest);
  }

  /** A text whose digits ip end at a '.' is read as ip and the text after the '.'. */
  lemma NumericValueAtDot(u: string, ip: string, after: string)
    requires AllDigits(ip) && DigitRun(u) == |ip| && |ip| < |u| && u[|ip|] == '.'
    requires u[..|ip|] == ip && u[|ip| + 1..] == after
    ensures NumericValue(u) == DecimalValue(ip, after)
  {
  }

  lemma DecimalValueOfParts(ip: string, frac: string, rest: string)
    requires AllDigits(ip) && AllDigits(frac) && |ip| + |frac| > 0
    requires DigitRun(frac + rest) == |frac|
    ensures DecimalValue(ip, frac + rest) == Scale(Mantissa(ip, frac), ExponentAt(rest) - |frac|)
  {
    var after := frac + rest;
    assert after[..|frac|] == frac;
    assert after[|frac|..] == rest;
  }

  /** An exponent of digits without a sign. */
  lemma ExponentOfDigits(e: char, d: string, rest: string)
    requires (e == 'e' || e == 'E') && |d| > 0 && AllDigits(d) && (rest == [] || !IsDigit(rest[0]))
    ensures ExponentAt([e] + d + rest) == DigitsValue(d)
  {
    var a := [e] + d + rest;
    assert a[1..] == d + rest && a[1] == d[0];
    ExponentUnsigned(a);
    LeadingDigitsOf(d, rest);
  }

  lemma ExponentUnsigned(a: string)
    requires |a| >= 2 && (a[0] == 'e' || a[0] == 'E') && IsDigit(a[1])
    ensures ExponentAt(a) == LeadingDigits(a[1..])
  {
  }

  /** The leading digits of digits followed by a non-digit are those digits. */
  lemma LeadingDigitsOf(d: string, rest: string)
    requires AllDigits(d) && (rest == [] || !IsDigit(rest[0]))
    ensures LeadingDigits(d + rest) == DigitsValue(d)
  {
    DigitRunUpTo(d, rest);
    assert (d + rest)[..|d|] == d;
  }

  lemma DigitsOne()
    ensures DigitsValue("1") == 1 && DigitsValue("2") == 2 && DigitsValue("5") == 5 && DigitsValue("9") == 9
    ensures DigitsValue("") == 0 && DigitsValue("12") == 12
  {
    assert "1"[..0] == "" && "2"[..0] == "" && "5"[..0] == "" && "9"[..0] == "" && "12"[..1] == "1";
  }

  lemma SpellForms()
    ensures ['e'] + "1" + "" == "e1" && "1" + "e1" == "1e1" && "2" + "." + "5" + "e1" == "2.5e1"
    ensures "1" + "." + "9" + "" == "1.9" && "-" + "1.9" == "-1.9" && "" + "." + "5" + "" == ".5"
    ensures "1" + "e" == "1e" && "12" + "abc" == "12abc" && [' '] + "12abc" == " 12abc"
  {
  }

  /** The exponent form: "2.5e1" is 25 ... */
  lemma DecimalWithExponent()
    ensures StringToInt("2.5e1") == 25
  {
    SpellForms();
    ExponentFormValues();
    ExponentOfDigits('e', "1", "");
    NumericDecimal("2", "5", "e1");
    StringToIntUnsigned("2.5e1");
  }

  /** ... and "1e1" is 10. */
  lemma IntegerWithExponent()
    ensures StringToInt("1e1") == 10
  {
    SpellForms();
    ExponentFormValues();
    ExponentOfDigits('e', "1", "");
    NumericInteger("1", "e1");
    StringToIntUnsigned("1e1");
  }

  lemma ExponentFormValues()
    ensures Scale(1, 1) == 10 && Mantissa("2", "5") == 25 && Scale(25, 0) == 25
  {
    DigitsOne();
  }

  /** The decimal form truncates toward zero: "1.9" is 1 and "-1.9" is -1. */
  lemma DecimalForms()
    ensures StringToInt("1.9") == 1
    ensures StringToInt("-1.9") == -1
  {
    SpellForms();
    DecimalFormValues();
    NumericDecimal("1", "9", "");
    StringToIntUnsigned("1.9");
    StringToIntMinus("1.9");
  }

  lemma DecimalFormValues()
    ensures Mantissa("1", "9") == 19 && Scale(19, -1) == 1
    ensures Mantissa("", "5") == 5 && Scale(5, -1) == 0
  {
    DigitsOne();
  }

  /** A fraction without integer digits counts: ".5" is 0. */
  lemma FractionOnlyForm()
    ensures StringToInt(".5") == 0
  {
    SpellForms();
    DecimalFormValues();
    NumericDecimal("", "5", "");
    StringToIntUnsigned(".5");
  }

  /** Text after the number is ignored, a lone 'e' is no exponent, and leading white space is
      skipped: "1e" is 1 and " 12abc" is 12. */
  lemma TrailingTextForms()
    ensures StringToInt("1e") == 1
    ensures StringToInt(" 12abc") == 12
  {
    SpellForms();
    DigitsOne();
    NumericInteger("1", "e");
    StringToIntUnsigned("1e");
    NumericInteger("12", "abc");
    StringToIntUnsigned("12abc");
    StringToIntSkipsSpace(' ', "12abc");
  }

  /** Leading white space makes no difference. */
  lemma StringToIntSkipsSpace(c: char, u: string)
    requires IsRegexSpace(c)
    ensures StringToInt([c] + u) == StringToInt(u)
  {
    assert ([c] + u)[1..] == u;
  }

  /** Text that starts with a digit or '.' is read without sign or white space. */
  lemma StringToIntUnsigned(u: string)
    requires |u| > 0 && (IsDigit(u[0]) || u[0] == '.')
    ensures StringToInt(u) == NumericValue(u)
  {
    assert !IsRegexSpace(u[0]) && u[0] != '-' && u[0] != '+';
  }

  /** A '-' before text that starts with a digit negates it. */
  lemma StringToIntMinus(u: string)
    requires |u| > 0 && IsDigit(u[0])
    ensures StringToInt("-" + u) == -NumericValue(u)
  {
    var t := "-" + u;
    assert SkipNumericSpace(t) == t && t[1..] == u;
  }

  lemma {:induction false} DigitsOfNat(n: nat)
    ensures DigitsValue(NatToDecimal(n)) == n
    decreases n
  {
    if n >= 10 {
      DigitsOfNat(n / 10);
      var s := NatToDecimal(n);
      assert s[..|s| - 1] == NatToDecimal(n / 10);
    }
  }

  lemma DigitRunAll(s: string)
    requires forall i :: 0 <= i < |s| ==> IsDigit(s[i])
    ensures DigitRun(s) == |s|
  {
    if |s| > 0 {
      DigitRunAll(s[1..]);
    }
  }

  /** Reading back the decimal text of an integer gives that integer. */
  lemma IntToDecimalRoundTrip(i: int)
    ensures StringToInt(IntToDecimal(i)) == i
  {
    if i < 0 {
      NegativeIntRoundTrip(i);
    } else {
      NatRoundTrip(i);
    }
  }

  lemma NegativeIntRoundTrip(i: int)
    requires i < 0
    ensures StringToInt(IntToDecimal(i)) == i
  {
    NegativeText(IntToDecimal(i), -i);
  }

  lemma NegativeText(s: string, n: nat)
    requires n > 0 && s == "-" + NatToDecimal(n)
    ensures StringToInt(s) == -(n as int)
  {
    NegativeRoundTrip(n);
  }

  lemma NatRoundTrip(n: nat)
    ensures StringToInt(NatToDecimal(n)) == n
  {
    var s := NatToDecimal(n);
    StringToIntUnsigned(s);
    NumericValueOfDigits(s);
    DigitsOfNat(n);
  }

  lemma NegativeRoundTrip(n: nat)
    requires n > 0
    ensures StringToInt("-" + NatToDecimal(n)) == -(n as int)
  {
    var d := NatToDecimal(n);
    StringToIntMinus(d);
    NumericValueOfDigits(d);
    DigitsOfNat(n);
  }

  /** Text that cannot continue a number: empty, or starting with something other than a
      digit, '.', or the 'e'/'E' of an exponent. */
  predicate EndsNumber(rest: string)
  {
    rest == [] || !(IsDigit(rest[0]) || rest[0] == '.' || rest[0] == 'e' || rest[0] == 'E')
  }

  /** An integer's decimal text followed by text that cannot continue a number reads back as
      that integer: the cast stops at the end of the number. */
  lemma IntToDecimalPrefix(i: int, rest: string)
    requires EndsNumber(rest)
    ensures StringToInt(IntToDecimal(i) + rest) == i
  {
    if i < 0 {
      NegativePrefix(IntToDecimal(i), -i, rest);
    } else {
      NatPrefix(i, rest);
    }
  }

  lemma NatPrefix(n: nat, rest: string)
    requires EndsNumber(rest)
    ensures StringToInt(NatToDecimal(n) + rest) == n
  {
    var d := NatToDecimal(n);
    StringToIntUnsigned(d + rest);
    NumericInteger(d, rest);
    NoExponent(rest);
    DigitsOfNat(n);
  }

  lemma NegativePrefix(s: string, n: nat, rest: string)
    requires n > 0 && s == "-" + NatToDecimal(n) && EndsNumber(rest)
    ensures StringToInt(s + rest) == -(n as int)
  {
    var d := NatToDecimal(n);
    assert s + rest == "-" + (d + rest);
    StringToIntMinus(d + rest);
    NumericInteger(d, rest);
    NoExponent(rest);
    DigitsOfNat(n);
  }

  lemma NoExponent(rest: string)
    requires EndsNumber(rest)
    ensures ExponentAt(rest) == 0
  {
  }

  /** Two-digit decimal text, zero padded, as format('H'), ('i') and ('s') write it. */
  function Pad2(n: nat): (r: string)
    requires n < 100
    ensures |r| == 2 && IsDigit(r[0]) && IsDigit(r[1])
  {
    [DigitChar(n / 10), DigitChar(n % 10)]
  }

  /** Reading back zero-padded two-digit text gives the number. */
  lemma Pad2RoundTrip(n: nat)
    requires n < 100
    ensures StringToInt(Pad2(n)) == n
  {
    var s := Pad2(n);
    var hi, lo := n / 10, n % 10;
    assert s == [DigitChar(hi), DigitChar(lo)];
    StringToIntUnsigned(s);
    NumericValueOfDigits(s);
    assert s[..1] == [DigitChar(hi)] && s[..1][..0] == [];
    assert DigitValue(DigitChar(hi)) == hi && DigitValue(DigitChar(lo)) == lo;
    assert DigitsValue(s[..1]) == hi;
    assert DigitsValue(s) == hi * 10 + lo;
  }

  // ---------------------------------------------------------------------------
  // Hexadecimal text

  predicate IsHexDigit(c: char) {
    IsDigit(c) || ('a' <= c <= 'f') || ('A' <= c <= 'F')
  }

  predicate IsHexString(s: string) {
    forall i :: 0 <= i < |s| ==> IsHexDigit(s[i])
  }

  function HexDigitValue(c: char): (d: nat)
    requires IsHexDigit(c)
    ensures d < 16
  {
    if IsDigit(c) then DigitValue(c)
    else if 'a' <= c <= 'f' then c as int - 'a' as int + 10
    else c as int - 'A' as int + 10
  }

  /** hexdec($s): the hex digits of s read as one number; any other character is skipped,
      and a text without hex digits reads as 0. */
  function HexDec(s: string): nat
    decreases |s|
  {
    if |s| == 0 then 0
    else if IsHexDigit(s[|s| - 1]) then HexDec(s[..|s| - 1]) * 16 + HexDigitValue(s[|s| - 1])
    else HexDec(s[..|s| - 1])
  }

  /** A text of at most two characters reads as a byte. */
  lemma HexDecTwoDigitsBound(s: string)
    requires |s| <= 2
    ensures HexDec(s) <= 255
  {
    if |s| == 2 {
      assert s[..1][..0] == [];
    } else if |s| == 1 {
      assert s[..0] == [];
    }
  }

  /** Lower-case hex digit for a value below 16. */
  function HexChar(d: nat): (c: char)
    requires d < 16
    ensures IsHexDigit(c) && HexDigitValue(c) == d
  {
    if d < 10 then DigitChar(d) else ('a' as int + d - 10) as char
  }

  predicate IsLowerHexDigit(c: char) { IsDigit(c) || ('a' <= c <= 'f') }

  /** Two-digit lower-case hex text of a byte, as bin2hex writes each byte. */
  function Hex2(n: nat): (r: string)
    requires n < 256
    ensures |r| == 2 && IsLowerHexDigit(r[0]) && IsLowerHexDigit(r[1])
  {
    [HexChar(n / 16), HexChar(n % 16)]
  }

  /** The bytes a random source hands out. */
  predicate Bytes(bs: seq<nat>) {
    forall i :: 0 <= i < |bs| ==> bs[i] < 256
  }

  /** bin2hex: two lower-case hex digits per byte. */
  function Bin2Hex(bs: seq<nat>): (r: string)
    requires Bytes(bs)
    ensures |r| == 2 * |bs|
    ensures forall i :: 0 <= i < |r| ==> IsLowerHexDigit(r[i])
  {
    if |bs| == 0 then ""
    else
      var h := Hex2(bs[0]);
      var rest := Bin2Hex(bs[1..]);
      assert forall i :: 2 <= i < |h + rest| ==> (h + rest)[i] == rest[i - 2];
      h + rest
  }

  /** substr($s, $start, $len) for a start and a length that are not negative: empty when the
      start is past the end, and cut short at the end. */
  function Substr(s: string, start: nat, len: nat): (r: string)
    ensures |r| <= len
    ensures start >= |s| ==> r == ""
    ensures start + len <= |s| ==> r == s[start..start + len]
    ensures start < |s| < start + len ==> r == s[start..]
  {
    if start >= |s| then "" else if start + len <= |s| then s[start..start + len] else s[start..]
  }

  /** stripos($s, $prefix) === 0 for an ASCII prefix: s starts with it, ignoring case. */
  predicate StartsWithIgnoringCase(s: string, prefix: string) {
    |prefix| <= |s| && ToLower(s[..|prefix|]) == ToLower(prefix)
  }

  /** hexdec reads back what Hex2 writes. */
  lemma HexDecHex2(n: nat)
    requires n < 256
    ensures IsHexString(Hex2(n)) && HexDec(Hex2(n)) == n
  {
    var s := Hex2(n);
    assert s[..1][..0] == [];
    assert s[..1] == [HexChar(n / 16)];
    assert HexDec(s[..1]) == n / 16;
    assert HexDec(s) == HexDec(s[..1]) * 16 + HexDigitValue(s[1]);
  }
}
