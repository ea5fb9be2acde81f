/** UTF-8 (RFC 3629): `str::as_bytes` and `str::from_utf8`. A Rust `String` is a Dafny `string`, both
    being sequences of Unicode scalar values. */
module Utf8 {
  import opened Words

  /** Section 3 of RFC 3629: one to four bytes per scalar value. */
  function EncodeChar(c: char): (r: seq<byte>)
    ensures 1 <= |r| <= 4
  {
    var n := c as int;
    if n < 0x80 then [n]
    else if n < 0x800 then [0xc0 + n / 0x40, 0x80 + n % 0x40]
    else if n < 0x1_0000 then [0xe0 + n / 0x1000, 0x80 + n / 0x40 % 0x40, 0x80 + n % 0x40]
    else [0xf0 + n / 0x4_0000, 0x80 + n / 0x1000 % 0x40, 0x80 + n / 0x40 % 0x40, 0x80 + n % 0x40]
  }

  function Encode(s: string): (r: seq<byte>)
    ensures |s| <= |r|
  {
    if s == [] then [] else EncodeChar(s[0]) + Encode(s[1..])
  }

  predicate Continuation(b: seq<byte>, i: nat)
  {
    i < |b| && 0x80 <= b[i] < 0xc0
  }

  /** The first scalar value of `b` and its width; overlong forms, surrogates and values beyond
      U+10FFFF are invalid. */
  function DecodeFirst(b: seq<byte>): (r: Option<(char, nat)>)
    requires b != []
    ensures r.Some? ==> 1 <= r.value.1 <= |b|
  {
    if b[0] < 0x80 then
      Some((b[0] as char, 1))
    else if 0xc2 <= b[0] < 0xe0 && Continuation(b, 1) then
      Some((((b[0] as int - 0xc0) * 0x40 + (b[1] as int - 0x80)) as char, 2))
    else if 0xe0 <= b[0] < 0xf0 && Continuation(b, 1) && Continuation(b, 2) then
      var n := (b[0] as int - 0xe0) * 0x1000 + (b[1] as int - 0x80) * 0x40 + (b[2] as int - 0x80);
      if n < 0x800 || 0xd800 <= n < 0xe000 then None else Some((n as char, 3))
    else if 0xf0 <= b[0] < 0xf5 && Continuation(b, 1) && Continuation(b, 2) && Continuation(b, 3) then
      var n := (b[0] as int - 0xf0) * 0x4_0000 + (b[1] as int - 0x80) * 0x1000 + (b[2] as int - 0x80) * 0x40 + (b[3] as int - 0x80);
      if n < 0x1_0000 || 0x11_0000 <= n then None else Some((n as char, 4))
    else None
  }

  function Decode(b: seq<byte>): (r: Option<string>)
  {
    if b == [] then Some("")
    else
      match DecodeFirst(b)
      case None => None
      case Some((c, width)) =>
        match Decode(b[width..])
        case None => None
        case Some(s) => Some([c] + s)
  }

  lemma DecodeFirstOfEncoded(c: char, rest: seq<byte>)
    ensures DecodeFirst(EncodeChar(c) + rest) == Some((c, |EncodeChar(c)|))
  {
    var n := c as int;
    if n >= 0x1_0000 {
      DecodeFirstOfFour(c, rest);
    } else if n >= 0x800 {
      DecodeFirstOfThree(c, rest);
    } else if n >= 0x80 {
      DecodeFirstOfTwo(c, rest);
    }
  }

  lemma DecodeFirstOfTwo(c: char, rest: seq<byte>)
    requires 0x80 <= c as int < 0x800
    ensures DecodeFirst(EncodeChar(c) + rest) == Some((c, |EncodeChar(c)|))
  {
    var n := c as int;
    assert n == n / 0x40 * 0x40 + n % 0x40;
  }

  lemma DecodeFirstOfThree(c: char, rest: seq<byte>)
    requires 0x800 <= c as int < 0x1_0000
    ensures DecodeFirst(EncodeChar(c) + rest) == Some((c, |EncodeChar(c)|))
  {
    var n := c as int;
    assert n / 0x40 == n / 0x1000 * 0x40 + n / 0x40 % 0x40;
    assert n == n / 0x40 * 0x40 + n % 0x40;
  }

  lemma DecodeFirstOfFour(c: char, rest: seq<byte>)
    requires c as int >= 0x1_0000
    ensures DecodeFirst(EncodeChar(c) + rest) == Some((c, |EncodeChar(c)|))
  {
    var n := c as int;
    assert n / 0x1000 == n / 0x4_0000 * 0x40 + n / 0x1000 % 0x40;
    assert n / 0x40 == n / 0x1000 * 0x40 + n / 0x40 % 0x40;
  }

  lemma Digits64(high: nat, low: nat)
    requires low < 0x40
    ensures (high * 0x40 + low) / 0x40 == high && (high * 0x40 + low) % 0x40 == low
    ensures (high * 0x40 + low) / 0x1000 == high / 0x40
    ensures (high * 0x40 + low) / 0x4_0000 == high / 0x1000
  {
  }

  lemma EncodeThree(x: nat, y: nat, z: nat)
    requires x < 0x10 && y < 0x40 && z < 0x40
    requires var n := (x * 0x40 + y) * 0x40 + z; 0x800 <= n && !(0xd800 <= n < 0xe000)
    ensures EncodeChar(((x * 0x40 + y) * 0x40 + z) as char) == [0xe0 + x, 0x80 + y, 0x80 + z]
  {
    Digits64(x * 0x40 + y, z);
    Digits64(x, y);
  }

  lemma EncodeFour(x: nat, y: nat, z: nat, w: nat)
    requires x < 5 && y < 0x40 && z < 0x40 && w < 0x40
    requires 0x1_0000 <= ((x * 0x40 + y) * 0x40 + z) * 0x40 + w < 0x11_0000
    ensures EncodeChar((((x * 0x40 + y) * 0x40 + z) * 0x40 + w) as char)
            == [0xf0 + x, 0x80 + y, 0x80 + z, 0x80 + w]
  {
    Digits64((x * 0x40 + y) * 0x40 + z, w);
    Digits64(x * 0x40 + y, z);
    Digits64(x, y);
  }

  lemma DecodeFirstSound(b: seq<byte>)
    requires b != [] && DecodeFirst(b).Some?
    ensures EncodeChar(DecodeFirst(b).value.0) == b[..DecodeFirst(b).value.1]
  {
    var (c, width) := DecodeFirst(b).value;
    if width == 3 {
      var x, y, z := b[0] as int - 0xe0, b[1] as int - 0x80, b[2] as int - 0x80;
      assert c as int == (x * 0x40 + y) * 0x40 + z;
      EncodeThree(x, y, z);
    } else if width == 4 {
      var x, y, z, w := b[0] as int - 0xf0, b[1] as int - 0x80, b[2] as int - 0x80, b[3] as int - 0x80;
      assert c as int == ((x * 0x40 + y) * 0x40 + z) * 0x40 + w;
      EncodeFour(x, y, z, w);
    }
  }

  /** Encoding is invertible by decoding. */
  lemma {:induction false} DecodeEncode(s: string)
    ensures Decode(Encode(s)) == Some(s)
  {
    if s != [] {
      var b, width := Encode(s), |EncodeChar(s[0])|;
      DecodeFirstOfEncoded(s[0], Encode(s[1..]));
      assert b[width..] == Encode(s[1..]);
      DecodeEncode(s[1..]);
      assert s == [s[0]] + s[1..];
    }
  }

  /** Decoding accepts nothing but encodings. */
  lemma {:induction false} EncodeDecode(b: seq<byte>)
    requires Decode(b).Some?
    ensures Encode(Decode(b).value) == b
  {
    hide DecodeFirst, EncodeChar;
    if b != [] {
      var (c, width) := DecodeFirst(b).value;
      DecodeFirstSound(b);
      EncodeDecode(b[width..]);
      assert Decode(b).value[1..] == Decode(b[width..]).value;
    }
  }

  lemma EncodeInjective(s: string, t: string)
    requires Encode(s) == Encode(t)
    ensures s == t
  {
    DecodeEncode(s);
    DecodeEncode(t);
  }

  lemma {:induction false} EncodeConcat(s: string, t: string)
    ensures Encode(s + t) == Encode(s) + Encode(t)
  {
    if s == [] {
      assert s + t == t;
    } else {
      assert (s + t)[1..] == s[1..] + t;
      EncodeConcat(s[1..], t);
    }
  }

  lemma EncodeSingle(c: char)
    ensures Encode([c]) == EncodeChar(c)
  {
    assert Encode([c][1..]) == [];
  }

  predicate Ascii(s: string)
  {
    forall i :: 0 <= i < |s| ==> s[i] as int < 0x80
  }

  /** ASCII text is encoded one byte per character. */
  lemma {:induction false} EncodeAscii(s: string)
    requires Ascii(s)
    ensures |Encode(s)| == |s|
    ensures forall i :: 0 <= i < |s| ==> Encode(s)[i] == s[i] as int
  {
    if s != [] {
      EncodeAscii(s[1..]);
      forall i | 0 <= i < |s|
        ensures Encode(s)[i] == s[i] as int
      {
        if i > 0 {
          assert s[1..][i - 1] == s[i];
          assert Encode(s)[i] == Encode(s[1..])[i - 1];
        }
      }
    }
  }

  /** An ASCII byte occurs in the encoding only where its character occurs in the text. */
  lemma {:induction false} AsciiByteInEncoding(s: string, b: byte)
    requires b < 0x80 && b in Encode(s)
    ensures b as char in s
  {
    if b in EncodeChar(s[0]) {
      assert s[0] == b as char;
    } else {
      AsciiByteInEncoding(s[1..], b);
      assert b as char == s[1..][0] || b as char in s[1..];
    }
  }

  lemma {:induction false} EncodeLength(s: string)
    ensures |Encode(s)| <= 4 * |s|
  {
    if s != [] {
      EncodeLength(s[1..]);
    }
  }
}
