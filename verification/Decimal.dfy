/** The port printer of the wrappers and the two digit parsers that read its output back. */
module Decimal {
  import opened CStrings

  function DigitChar(d: nat): char
    requires d < 10
  {
    '0' + d as char
  }

  predicate IsDigit(c: char) {
    '0' <= c <= '9'
  }

  function DigitValue(c: char): (d: nat)
    requires IsDigit(c)
    ensures d < 10 && DigitChar(d) == c
  {
    c as int - '0' as int
  }

  /** The decimal digits of `n` without a leading zero; none at all for 0. */
  function Digits(n: nat): string {
    if n == 0 then "" else Digits(n / 10) + [DigitChar(n % 10)]
  }

  predicate AllDigits(s: string) {
    forall k | 0 <= k < |s| :: IsDigit(s[k])
  }

  /** The value of a digit string, most significant digit first. */
  function Value(s: string): nat
    requires AllDigits(s)
  {
    if s == "" then 0 else Value(s[..|s| - 1]) * 10 + DigitValue(s[|s| - 1])
  }

  predicate LeadingZeroFree(s: string) {
    AllDigits(s) && (s != "" ==> s[0] != '0')
  }

  lemma {:induction false} DigitsAreDigits(n: nat)
    ensures LeadingZeroFree(Digits(n)) && NUL !in Digits(n)
    ensures Digits(n) == "" <==> n == 0
  {
    if n == 0 {
    } else {
      DigitsAreDigits(n / 10);
      assert n / 10 == 0 ==> n % 10 == n;
    }
  }

  /** Which character each digit is, what it is worth alone, and that zeros in front do not count. */
  lemma DigitMeaning(d: nat, s: string)
    requires d < 10 && AllDigits(s)
    ensures DigitChar(d) == "0123456789"[d] && IsDigit(DigitChar(d)) && DigitValue(DigitChar(d)) == d
    ensures AllDigits([DigitChar(d)]) && Value([DigitChar(d)]) == d
    ensures AllDigits("0" + s) && Value("0" + s) == Value(s)
  {
    assert DigitChar(d) == "0123456789"[d] by {
      assert d == 0 || d == 1 || d == 2 || d == 3 || d == 4 || d == 5 || d == 6 || d == 7 || d == 8 || d == 9;
    }
    assert [DigitChar(d)][..0] == "";
    ZeroInFront(s);
  }

  lemma {:induction false} ZeroInFront(s: string)
    requires AllDigits(s)
    ensures AllDigits("0" + s) && Value("0" + s) == Value(s)
  {
    if s == "" {
      assert "0" + s == "0" && "0"[..0] == "";
    } else {
      ZeroInFront(s[..|s| - 1]);
      assert ("0" + s)[..|s|] == "0" + s[..|s| - 1];
    }
  }

  /** Parsing what was printed gives the number back. */
  lemma {:induction false} ValueOfDigits(n: nat)
    ensures AllDigits(Digits(n)) && Value(Digits(n)) == n
  {
    DigitsAreDigits(n);
    if n == 0 {
    } else {
      ValueOfDigits(n / 10);
      assert Digits(n)[..|Digits(n)| - 1] == Digits(n / 10);
    }
  }

  /** Printing what was parsed gives the digits back: the printed form is the only leading-zero-free one. */
  lemma {:induction false} DigitsOfValue(s: string)
    requires LeadingZeroFree(s)
    ensures Digits(Value(s)) == s
  {
    if s == "" {
    } else {
      var t, d := s[..|s| - 1], DigitValue(s[|s| - 1]);
      DigitsOfValue(t);
      assert s == t + [DigitChar(d)];
      DigitsAreDigits(Value(t));
      DigitsSnoc(Value(t), d);
    }
  }

  lemma DigitsSnoc(n: nat, d: nat)
    requires d < 10 && n * 10 + d > 0
    ensures Digits(n * 10 + d) == Digits(n) + [DigitChar(d)]
  {
    assert (n * 10 + d) / 10 == n && (n * 10 + d) % 10 == d;
  }

  function Pow10(k: nat): (p: nat)
    ensures p > 0
  {
    if k == 0 then 1 else 10 * Pow10(k - 1)
  }

  /** How many characters a number takes. */
  lemma {:induction false} DigitCount(n: nat, k: nat)
    ensures |Digits(n)| <= k <==> n < Pow10(k)
  {
    if k == 0 || n == 0 {
    } else {
      DigitCount(n / 10, k - 1);
      assert n / 10 < Pow10(k - 1) <==> n < 10 * Pow10(k - 1);
    }
  }

  /** The ten-byte `portStr` holds a number with its terminator exactly below 10^9. */
  lemma PortStrFits(n: nat)
    ensures |Digits(n)| + 1 <= 10 <==> n < 1_000_000_000
  {
    DigitCount(n, 9);
    assert Pow10(3) == 1000 && Pow10(6) == 1_000_000 && Pow10(9) == 1_000_000_000;
  }

  /** convertToString: one loop counts the digits, a second fills them in from the right. */
  method ConvertToString(str: array<char>, num: nat)
    requires |Digits(num)| < str.Length
    modifies str
    ensures str[..|Digits(num)| + 1] == Digits(num) + [NUL]
    ensures CStrAt(str[..], 0) == Digits(num)
    ensures str[|Digits(num)| + 1..] == old(str[|Digits(num)| + 1..])
  {
    ghost var all := Digits(num);
    var len, n := 0, num;
    while n != 0
      invariant len + |Digits(n)| == |all|
    {
      len := len + 1;
      n := n / 10;
    }
    var left := num;
    for i := 0 to len
      invariant Digits(left) == all[..len - i]
      invariant str[len - i..len] == all[len - i..]
      invariant str[len + 1..] == old(str[len + 1..])
    {
      var rem := left % 10;
      assert left != 0;
      assert all[..len - i] == Digits(left / 10) + [DigitChar(rem)];
      assert all[..len - (i + 1)] == all[..len - i][..len - (i + 1)];
      left := left / 10;
      str[len - (i + 1)] := DigitChar(rem);
      assert str[len - (i + 1)..len] == [DigitChar(rem)] + str[len - i..len];
    }
    str[len] := NUL;
    assert str[..len] == all;
    DigitsAreDigits(num);
    CStrAtIs(str[..], 0, all);
  }

  /** The leading run of digits. */
  function DigitRun(s: string): (r: string)
    ensures r <= s && AllDigits(r)
    ensures |r| < |s| ==> !IsDigit(s[|r|])
  {
    if s == "" || !IsDigit(s[0]) then "" else [s[0]] + DigitRun(s[1..])
  }

  lemma {:induction false} DigitRunOf(d: string, rest: string)
    requires AllDigits(d) && (rest != "" ==> !IsDigit(rest[0]))
    ensures DigitRun(d + rest) == d
  {
    if d == "" {
      assert d + rest == rest;
    } else {
      assert (d + rest)[1..] == d[1..] + rest;
      DigitRunOf(d[1..], rest);
    }
  }

  /** The test suite's strToInt: left to right, as long as there are digits. */
  method StrToInt(text: string) returns (n: nat)
    ensures n == Value(DigitRun(text))
  {
    n := 0;
    var i := 0;
    while i < |text| && IsDigit(text[i])
      invariant 0 <= i <= |text|
      invariant AllDigits(text[..i]) && n == Value(text[..i])
    {
      assert text[..i + 1][..i] == text[..i];
      n := n * 10;
      n := n + DigitValue(text[i]);
      i := i + 1;
    }
    assert text == text[..i] + text[i..];
    DigitRunOf(text[..i], text[i..]);
  }

  predicate IsSpace(c: char) {
    c == ' ' || '\t' <= c <= '\r'
  }

  /** atoi, section 7.20.1.2 of ISO/IEC 9899:1999, on numbers that an int can hold. */
  function Atoi(s: string): int {
    if s == "" then 0
    else if IsSpace(s[0]) then Atoi(s[1..])
    else if s[0] == '-' then (var v: int := Value(DigitRun(s[1..])); -v)
    else if s[0] == '+' then Value(DigitRun(s[1..]))
    else Value(DigitRun(s))
  }

  /** The port of an endpoint: abs(atoi(text)). */
  function PortOf(text: string): nat {
    var n := Atoi(text);
    if n < 0 then -n else n
  }

  lemma PortOfDigits(n: nat)
    ensures PortOf(Digits(n)) == n
  {
    DigitsAreDigits(n);
    ValueOfDigits(n);
    DigitRunOf(Digits(n), "");
    assert Digits(n) + "" == Digits(n);
  }

  lemma {:induction false} AtoiSkips(spaces: string, rest: string)
    requires forall k | 0 <= k < |spaces| :: IsSpace(spaces[k])
    ensures Atoi(spaces + rest) == Atoi(rest)
  {
    if spaces == "" {
      assert spaces + rest == rest;
    } else {
      assert (spaces + rest)[1..] == spaces[1..] + rest;
      AtoiSkips(spaces[1..], rest);
    }
  }

  /** Blanks, a sign, digits, and anything that is not a digit: the port is the digits' value whatever the sign. */
  lemma PortOfText(spaces: string, sign: string, d: string, rest: string)
    requires (forall k | 0 <= k < |spaces| :: IsSpace(spaces[k])) && sign in ["", "+", "-"]
    requires d != "" && AllDigits(d) && (rest != "" ==> !IsDigit(rest[0]))
    ensures PortOf(spaces + (sign + (d + rest))) == Value(d)
  {
    AtoiSkips(spaces, sign + (d + rest));
    DigitRunOf(d, rest);
    assert (d + rest)[0] == d[0];
    if sign == "" {
      assert sign + (d + rest) == d + rest;
    } else {
      assert (sign + (d + rest))[1..] == d + rest;
    }
  }
}
