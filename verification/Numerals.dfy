/** Decimal and fixed-width hexadecimal numerals: the `{}` and `{:016x}` formats and their parsers. */
module Numerals {
  import opened Words
  import opened Utf8

  predicate IsDigit(c: char)
  {
    '0' <= c <= '9'
  }

  predicate IsLowerHex(c: char)
  {
    '0' <= c <= '9' || 'a' <= c <= 'f'
  }

  predicate AllDigits(s: string)
  {
    forall i :: 0 <= i < |s| ==> IsDigit(s[i])
  }

  predicate AllLowerHex(s: string)
  {
    forall i :: 0 <= i < |s| ==> IsLowerHex(s[i])
  }

  function DigitChar(d: nat): (c: char)
    requires d < 16
    ensures IsLowerHex(c) && (d < 10 ==> IsDigit(c)) && c as int < 0x80
  {
    if d < 10 then ('0' as int + d) as char else ('a' as int + (d - 10)) as char
  }

  /** The value of a digit in `char::to_digit(16)`, which also takes upper case. */
  function HexValue(c: char): (r: Option<nat>)
    ensures r.Some? ==> r.value < 16
  {
    if '0' <= c <= '9' then Some(c as int - '0' as int)
    else if 'a' <= c <= 'f' then Some(c as int - 'a' as int + 10)
    else if 'A' <= c <= 'F' then Some(c as int - 'A' as int + 10)
    else None
  }

  // ---------------------------------------------------------------------------------------------
  // Decimal
  // ---------------------------------------------------------------------------------------------

  function Decimal(n: nat): (s: string)
    ensures s != []
  {
    if n < 10 then [DigitChar(n)] else Decimal(n / 10) + [DigitChar(n % 10)]
  }

  function DecimalValue(s: string): (n: nat)
    requires AllDigits(s)
  {
    if s == [] then 0 else DecimalValue(s[..|s| - 1]) * 10 + (s[|s| - 1] as int - '0' as int)
  }

  /** `str::parse::<u64>`: an optional plus sign, at least one digit, no overflow. */
  function ParseU64(s: string): (r: Result<u64>)
  {
    var digits := if |s| > 1 && s[0] == '+' then s[1..] else s;
    if digits == [] || !AllDigits(digits) then Err
    else
      var n := DecimalValue(digits);
      if n < 0x1_0000_0000_0000_0000 then Ok(n) else Err
  }

  lemma {:induction false} DecimalRoundTrip(n: nat)
    ensures AllDigits(Decimal(n)) && DecimalValue(Decimal(n)) == n
    ensures Ascii(Decimal(n))
  {
    var s := Decimal(n);
    if n < 10 {
      assert DecimalValue(s) == DecimalValue(s[..0]) * 10 + n;
    } else {
      DecimalRoundTrip(n / 10);
      assert s[..|s| - 1] == Decimal(n / 10);
    }
  }

  lemma ParseU64OfDecimal(n: u64)
    ensures ParseU64(Decimal(n)) == Ok(n)
  {
    DecimalRoundTrip(n);
    assert IsDigit(Decimal(n)[0]);
  }

  /** A decimal numeral has no leading zero unless it is "0". */
  lemma {:induction false} DecimalHead(n: nat)
    ensures Decimal(n)[0] == '0' ==> n == 0
  {
    if n >= 10 {
      DecimalHead(n / 10);
    }
  }

  function Pow10(n: nat): (r: nat)
    ensures r > 0
  {
    if n == 0 then 1 else 10 * Pow10(n - 1)
  }

  lemma {:induction false} DecimalLength(n: nat, digits: nat)
    requires n < Pow10(digits) && digits > 0
    ensures |Decimal(n)| <= digits
  {
    if n >= 10 {
      assert Pow10(0) == 1;
      DecimalLength(n / 10, digits - 1);
    }
  }

  lemma DecimalLengthU64(n: u64)
    ensures |Decimal(n)| <= 20
  {
    assert Pow10(4) == 10_000;
    assert Pow10(8) == 100_000_000;
    assert Pow10(12) == 1_000_000_000_000;
    assert Pow10(16) == 10_000_000_000_000_000;
    assert Pow10(20) == 100_000_000_000_000_000_000;
    DecimalLength(n, 20);
  }

  // ---------------------------------------------------------------------------------------------
  // Hexadecimal
  // ---------------------------------------------------------------------------------------------

  function Hex(n: nat, width: nat): (s: string)
    ensures |s| == width
  {
    if width == 0 then "" else Hex(n / 16, width - 1) + [DigitChar(n % 16)]
  }

  /** `{:016x}`. */
  function Hex16(n: u64): (s: string)
    ensures |s| == 16
  {
    Hex(n, 16)
  }

  function HexNumber(s: string): (n: nat)
    requires AllLowerHex(s)
  {
    if s == [] then 0 else HexNumber(s[..|s| - 1]) * 16 + HexValue(s[|s| - 1]).value
  }

  function Pow16(n: nat): (r: nat)
    ensures r > 0
  {
    if n == 0 then 1 else 16 * Pow16(n - 1)
  }

  lemma Pow16Of16()
    ensures Pow16(16) == 0x1_0000_0000_0000_0000
  {
    assert Pow16(4) == 0x1_0000;
    assert Pow16(8) == 0x1_0000_0000;
    assert Pow16(12) == 0x1_0000_0000_0000;
  }

  lemma {:induction false} HexRoundTrip(n: nat, width: nat)
    requires n < Pow16(width)
    ensures AllLowerHex(Hex(n, width)) && HexNumber(Hex(n, width)) == n
    ensures Ascii(Hex(n, width))
  {
    if width > 0 {
      var s := Hex(n, width);
      assert s[..width - 1] == Hex(n / 16, width - 1);
      HexRoundTrip(n / 16, width - 1);
    }
  }

  lemma {:induction false} NumberHexRoundTrip(s: string)
    requires AllLowerHex(s)
    ensures HexNumber(s) < Pow16(|s|) && Hex(HexNumber(s), |s|) == s
  {
    if s != [] {
      var front, d := s[..|s| - 1], HexValue(s[|s| - 1]).value;
      NumberHexRoundTrip(front);
      var n := HexNumber(s);
      assert n / 16 == HexNumber(front) && n % 16 == d;
      assert s == front + [DigitChar(d)];
    }
  }

  /** `parse_hash_text`: exactly sixteen lower-case hexadecimal digits. */
  function ParseHashText(s: string): (r: Result<u64>)
  {
    if |Encode(s)| != 16 || !AllLowerHex(s) then Err
    else
      HashTextIsWord(s);
      Ok(HexNumber(s))
  }

  lemma HashTextIsWord(s: string)
    requires |Encode(s)| == 16 && AllLowerHex(s)
    ensures |s| == 16 && HexNumber(s) < 0x1_0000_0000_0000_0000
  {
    EncodeAscii(s);
    NumberHexRoundTrip(s);
    Pow16Of16();
  }

  /** The hash parser accepts exactly what `{:016x}` prints. */
  lemma ParseHashTextExact(s: string, h: u64)
    ensures ParseHashText(s) == Ok(h) <==> s == Hex16(h)
  {
    Pow16Of16();
    HexRoundTrip(h, 16);
    EncodeAscii(Hex16(h));
    if ParseHashText(s) == Ok(h) {
      HashTextIsWord(s);
      NumberHexRoundTrip(s);
    }
  }

  lemma Hex16Shape(h: u64)
    ensures AllLowerHex(Hex16(h)) && Ascii(Hex16(h))
  {
    Pow16Of16();
    HexRoundTrip(h, 16);
  }
}
