/** Decimal text of integers: the `%d` / `to_s` formatting used to put ids into
    URLs and bodies, and Ruby's `String#to_i` used to read the keep count. */
module Decimal {

  predicate IsDigit(c: char) { '0' <= c <= '9' }

  predicate AllDigits(s: string) { forall i :: 0 <= i < |s| ==> IsDigit(s[i]) }

  function DigitValue(c: char): nat
    requires IsDigit(c)
  {
    c as int - '0' as int
  }

  function DigitChar(d: nat): (c: char)
    requires d < 10
    ensures IsDigit(c) && DigitValue(c) == d
  {
    ('0' as int + d) as char
  }

  /** The shortest decimal spelling of a natural number. */
  function NatDigits(n: nat): (s: string)
    ensures |s| > 0 && AllDigits(s)
    ensures s[0] == '0' ==> n == 0
  {
    if n < 10 then [DigitChar(n)] else NatDigits(n / 10) + [DigitChar(n % 10)]
  }

  /** `"%d" % [n]`, and `n.to_s`: an optional minus sign, then the digits. */
  function Format(n: int): string
  {
    if n < 0 then "-" + NatDigits(-n) else NatDigits(n)
  }

  /** The number a string of digits spells, most significant digit first. */
  function DigitsValue(s: string): nat
    requires AllDigits(s)
  {
    if s == [] then 0 else DigitsValue(s[..|s| - 1]) * 10 + DigitValue(s[|s| - 1])
  }

  /** The white space Ruby skips before a number: space, tab, LF, VT, FF, CR. */
  predicate IsSpace(c: char) { c == ' ' || 9 <= c as int <= 13 }

  function SkipSpaces(s: string): (t: string)
    ensures t == [] || !IsSpace(t[0])
  {
    if s != [] && IsSpace(s[0]) then SkipSpaces(s[1..]) else s
  }

  lemma {:induction false} SkipSpacesSuffix(s: string)
    ensures |SkipSpaces(s)| <= |s| && SkipSpaces(s) == s[|s| - |SkipSpaces(s)|..]
  {
    if s != [] && IsSpace(s[0]) {
      SkipSpacesSuffix(s[1..]);
    }
  }

  /** The longest run of digits that starts the string. */
  function DigitPrefix(s: string): (d: string)
    ensures AllDigits(d) && d <= s
    ensures |d| < |s| ==> !IsDigit(s[|d|])
  {
    if s != [] && IsDigit(s[0]) then [s[0]] + DigitPrefix(s[1..]) else []
  }

  /** The optional base-10 radix prefix `0d` / `0D`, which `to_i` skips. */
  function DropRadix(s: string): (t: string)
    ensures t == s || (|s| >= 2 && t == s[2..])
  {
    if |s| >= 2 && s[0] == '0' && (s[1] == 'd' || s[1] == 'D') then s[2..] else s
  }

  /** Ruby's `String#to_i` in base 10: leading white space is skipped, one sign
      is read, then an optional `0d` prefix, then the longest run of digits;
      anything else ends the number, and a string without digits reads as 0. */
  function ToI(s: string): int
  {
    var t := SkipSpaces(s);
    if t != [] && t[0] == '-' then -(DigitsValue(DigitPrefix(DropRadix(t[1..]))) as int)
    else if t != [] && t[0] == '+' then DigitsValue(DigitPrefix(DropRadix(t[1..])))
    else DigitsValue(DigitPrefix(DropRadix(t)))
  }

  lemma {:induction false} NatDigitsValue(n: nat)
    ensures DigitsValue(NatDigits(n)) == n
  {
    if n >= 10 {
      var s := NatDigits(n);
      assert s[..|s| - 1] == NatDigits(n / 10);
      NatDigitsValue(n / 10);
    }
  }

  lemma {:induction false} DigitPrefixOfDigits(s: string)
    requires AllDigits(s)
    ensures DigitPrefix(s) == s
  {
    if s != [] {
      DigitPrefixOfDigits(s[1..]);
    }
  }

  /** Reading back what `%d` wrote gives the number: `Format(n).to_i == n`. */
  lemma FormatRoundTrip(n: int)
    ensures ToI(Format(n)) == n
  {
    var m: nat := if n < 0 then -n else n;
    var d := NatDigits(m);
    NatDigitsValue(m);
    DigitPrefixOfDigits(d);
    assert DropRadix(d) == d by {
      assert |d| >= 2 ==> IsDigit(d[1]);
    }
    if n < 0 {
      assert Format(n) == "-" + d;
      assert SkipSpaces(Format(n)) == Format(n);
      assert Format(n)[1..] == d;
    } else {
      assert Format(n) == d;
      assert SkipSpaces(d) == d;
    }
  }

  predicate NoDigits(s: string) { forall i :: 0 <= i < |s| ==> !IsDigit(s[i]) }

  lemma NoDigitsSuffix(s: string, n: nat)
    requires NoDigits(s) && n <= |s|
    ensures NoDigits(s[n..])
  {
    assert forall i :: 0 <= i < |s| - n ==> s[n..][i] == s[n + i];
  }

  /** A text that contains no digit at all reads as 0. */
  lemma NoDigitsReadsZero(s: string)
    requires NoDigits(s)
    ensures ToI(s) == 0
  {
    var t := SkipSpaces(s);
    SkipSpacesSuffix(s);
    NoDigitsSuffix(s, |s| - |t|);
    var u := if t != [] && (t[0] == '-' || t[0] == '+') then t[1..] else t;
    if u != t {
      NoDigitsSuffix(t, 1);
    }
    assert u == [] || !IsDigit(u[0]);
    assert DropRadix(u) == u;
    assert DigitPrefix(u) == [];
  }

  /** The radix prefix is skipped: `"0d"` followed by the digits of `n` reads as `n`. */
  lemma RadixPrefixSkipped(n: nat)
    ensures ToI("0d" + NatDigits(n)) == n
  {
    var d := NatDigits(n);
    NatDigitsValue(n);
    DigitPrefixOfDigits(d);
    assert ("0d" + d)[2..] == d;
    assert SkipSpaces("0d" + d) == "0d" + d;
  }



  /** Distinct numbers have distinct decimal spellings. */
  lemma FormatInjective(a: int, b: int)
    requires Format(a) == Format(b)
    ensures a == b
  {
    FormatRoundTrip(a);
    FormatRoundTrip(b);
  }

  /** The spelling never contains a character other than a digit or a leading minus. */
  lemma FormatCharacters(n: int)
    ensures |Format(n)| > 0
    ensures forall i :: 0 <= i < |Format(n)| ==> IsDigit(Format(n)[i]) || (i == 0 && Format(n)[i] == '-')
  {
    if n < 0 {
      var d := NatDigits(-n);
      assert forall i :: 1 <= i < |Format(n)| ==> Format(n)[i] == d[i - 1];
    }
  }
}
