/** Decimal and hexadecimal numerals: what `std::to_string` and `0x%02X` print
    and what a run of digits denotes. */
module Numerals {

  /** The digit denoted by `c`, in any base up to 16; 99 when it denotes none. */
  function DigitOf(c: char): nat {
    if '0' <= c <= '9' then (c - '0') as int
    else if 'a' <= c <= 'f' then (c - 'a') as int + 10
    else if 'A' <= c <= 'F' then (c - 'A') as int + 10
    else 99
  }

  predicate IsDigit(c: char, base: nat) {
    DigitOf(c) < base
  }

  predicate AllDigits(s: string, base: nat) {
    forall i :: 0 <= i < |s| ==> IsDigit(s[i], base)
  }

  /** The number that a run of digits denotes, most significant digit first. */
  function DigitsValue(s: string, base: nat): nat {
    if s == "" then 0
    else DigitsValue(s[..|s| - 1], base) * base + DigitOf(s[|s| - 1])
  }

  function DecimalDigit(d: nat): char
    requires d < 10
  {
    '0' + d as char
  }

  function HexDigit(d: nat, upper: bool): char
    requires d < 16
  {
    if d < 10 then DecimalDigit(d) else (if upper then 'A' else 'a') + (d - 10) as char
  }

  function PrintNat(n: nat): string {
    if n < 10 then [DecimalDigit(n)] else PrintNat(n / 10) + [DecimalDigit(n % 10)]
  }

  /** `std::to_string(int)` */
  function PrintInt(n: int): string {
    if n < 0 then "-" + PrintNat(-n) else PrintNat(n)
  }

  /** One byte in hexadecimal, with upper-case or lower-case digits: the format `0x%02X` when both are upper-case. */
  function PrintHexByte(b: nat, upperHigh: bool, upperLow: bool): string
    requires b < 256
  {
    ['0', 'x', HexDigit(b / 16, upperHigh), HexDigit(b % 16, upperLow)]
  }

  /** The characters that are digits, and what each of them denotes: its place among these. */
  lemma DigitsExactly(c: char)
    ensures IsDigit(c, 10) <==> c in "0123456789"
    ensures IsDigit(c, 16) <==> c in "0123456789abcdef" || c in "0123456789ABCDEF"
    ensures IsDigit(c, 16) ==> c == "0123456789abcdef"[DigitOf(c)] || c == "0123456789ABCDEF"[DigitOf(c)]
  {
    if '0' <= c <= '9' {
      assert c == "0123456789abcdef"[c as int - '0' as int] == "0123456789"[c as int - '0' as int];
    } else if 'a' <= c <= 'f' {
      assert c == "0123456789abcdef"[c as int - 'a' as int + 10];
    } else if 'A' <= c <= 'F' {
      assert c == "0123456789ABCDEF"[c as int - 'A' as int + 10];
    }
  }

  lemma {:induction false} PrintNatDenotes(n: nat)
    ensures PrintNat(n) != "" && AllDigits(PrintNat(n), 10)
    ensures DigitsValue(PrintNat(n), 10) == n
  {
    if n < 10 {
      assert PrintNat(n)[..0] == "";
    } else {
      PrintNatDenotes(n / 10);
      var s := PrintNat(n);
      assert s[..|s| - 1] == PrintNat(n / 10);
    }
  }

  /** Both printed forms of a negative and a non-negative port differ, and within one sign
      the numeral determines the number. */
  lemma PrintIntInjective(m: int, n: int)
    requires PrintInt(m) == PrintInt(n)
    ensures m == n
  {
    PrintNatDenotes(if m < 0 then -m else m);
    PrintNatDenotes(if n < 0 then -n else n);
    assert m < 0 ==> PrintInt(m)[0] == '-' && PrintInt(m)[1..] == PrintNat(-m);
    assert n < 0 ==> PrintInt(n)[0] == '-' && PrintInt(n)[1..] == PrintNat(-n);
    assert !IsDigit('-', 10) && (n >= 0 ==> IsDigit(PrintInt(n)[0], 10)) && (m >= 0 ==> IsDigit(PrintInt(m)[0], 10));
  }

  lemma PrintHexByteDenotes(b: nat, upperHigh: bool, upperLow: bool)
    requires b < 256
    ensures AllDigits(PrintHexByte(b, upperHigh, upperLow)[2..], 16)
    ensures DigitsValue(PrintHexByte(b, upperHigh, upperLow)[2..], 16) == b
  {
    var s := PrintHexByte(b, upperHigh, upperLow)[2..];
    assert s == [HexDigit(b / 16, upperHigh), HexDigit(b % 16, upperLow)];
    assert s[..1] == [HexDigit(b / 16, upperHigh)];
    assert s[..1][..0] == "";
    assert DigitsValue(s[..1], 16) == DigitsValue("", 16) * 16 + DigitOf(HexDigit(b / 16, upperHigh));
  }
}
