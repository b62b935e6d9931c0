/** Decimal and hexadecimal numerals, as Rust's `to_string` writes and `parse` / `from_str_radix` read them. */
module Numerals {
  import opened Prelude

  function DigitChar(d: nat): (c: char)
    requires d < 10
  {
    "0123456789"[d]
  }

  function HexChar(d: nat): (c: char)
    requires d < 16
  {
    "0123456789abcdef"[d]
  }

  /** The last `width` hexadecimal digits of a number, with leading zeros. */
  function Hex(n: nat, width: nat): (s: string)
    ensures |s| == width
  {
    if width == 0 then "" else Hex(n / 16, width - 1) + [HexChar(n % 16)]
  }

  predicate IsDigit(c: char) {
    '0' <= c <= '9'
  }

  /** A non-empty text of the characters that numbers are written with. */
  predicate IsNumeral(s: string) {
    s != "" && forall i :: 0 <= i < |s| ==> IsNumeralChar(s[i])
  }

  predicate IsNumeralChar(c: char) {
    IsDigit(c) || c == '-' || c == '+' || c == '.' || c == 'e' || c == 'E'
  }

  predicate IsHexDigit(c: char) {
    IsDigit(c) || 'a' <= c <= 'f' || 'A' <= c <= 'F'
  }

  function DigitValue(c: char): (v: nat)
    requires IsHexDigit(c)
  {
    if IsDigit(c) then c as int - '0' as int
    else if 'a' <= c <= 'f' then c as int - 'a' as int + 10
    else c as int - 'A' as int + 10
  }

  function Decimal(n: nat): (s: string)
    ensures |s| > 0 && forall i :: 0 <= i < |s| ==> IsDigit(s[i])
  {
    if n < 10 then [DigitChar(n)] else Decimal(n / 10) + [DigitChar(n % 10)]
  }

  /** The number a digit string denotes in the given base. */
  function Numeral(s: string, base: nat): (n: nat)
    requires forall i :: 0 <= i < |s| ==> IsHexDigit(s[i])
  {
    if s == [] then 0
    else Numeral(s[..|s| - 1], base) * base + DigitValue(s[|s| - 1])
  }

  predicate AllDigits(s: string, base: nat) {
    forall i :: 0 <= i < |s| ==> IsHexDigit(s[i]) && (base <= 10 ==> IsDigit(s[i]))
  }

  /** Rust's unsigned integer parsers: one optional `+`, at least one digit, no overflow. */
  function ParseUnsigned(text: string, base: nat, max: nat): (r: Option<nat>)
    ensures r.Some? ==> r.value <= max
  {
    var s := if |text| > 1 && text[0] == '+' then text[1..] else text;
    if s != [] && AllDigits(s, base) && Numeral(s, base) <= max then Some(Numeral(s, base)) else None
  }

  lemma {:induction false} DecimalDenotes(n: nat)
    ensures Numeral(Decimal(n), 10) == n
  {
    if n < 10 {
      assert Decimal(n)[..0] == [];
    } else {
      DecimalDenotes(n / 10);
      assert Decimal(n)[..|Decimal(n)| - 1] == Decimal(n / 10);
    }
  }

  /** Reading back a printed number gives the number. */
  lemma ParseDecimal(n: nat, max: nat)
    requires n <= max
    ensures ParseUnsigned(Decimal(n), 10, max) == Some(n)
  {
    DecimalDenotes(n);
    assert IsDigit(Decimal(n)[0]);
  }

  function Pow16(n: nat): (p: nat)
    ensures p > 0
  {
    if n == 0 then 1 else Pow16(n - 1) * 16
  }

  lemma HexCharDenotes(d: nat)
    requires d < 16
    ensures IsHexDigit(HexChar(d)) && DigitValue(HexChar(d)) == d
  {}

  /** Hexadecimal digits denote the number they are written from, if it fits. */
  lemma {:induction false} HexDenotes(n: nat, width: nat)
    requires n < Pow16(width)
    ensures AllDigits(Hex(n, width), 16) && Numeral(Hex(n, width), 16) == n
  {
    hide HexChar, DigitValue, IsHexDigit;
    if width > 0 {
      HexDenotes(n / 16, width - 1);
      HexCharDenotes(n % 16);
      assert Hex(n, width)[..width - 1] == Hex(n / 16, width - 1);
    }
  }
}
