/** The grammar of ledger lines, written as a relation between texts and what they denote, and the proof
    that the parser (src/ledger.rs, `FlatJsonParser`) accepts exactly this language, with these
    meanings: flat objects with distinct keys, in the notation of RFC 8259, with unsigned decimal
    numbers below 2^64 and no empty object. */
module JsonGrammar {
  import opened Words
  import opened Utf8
  import opened Numerals
  import opened Json
  import opened JsonRoundTrip

  // ---------------------------------------------------------------------------------------------
  // Strings: plain characters and escapes
  // ---------------------------------------------------------------------------------------------

  /** One written character of a string. */
  datatype Unit =
    | Plain(c: char)
    | Short(c: char, letter: byte)
    | Code(c: char, digits: seq<byte>)
    | Pair(c: char, high: seq<byte>, low: seq<byte>)

  /** The value of a hexadecimal digit of either case; 16 for any other byte. */
  function Nibble(b: byte): nat
  {
    if 48 <= b < 58 then b - 48 else if 97 <= b < 103 then b - 87 else if 65 <= b < 71 then b - 55 else 16
  }

  predicate FourHex(d: seq<byte>)
  {
    |d| == 4 && Nibble(d[0]) < 16 && Nibble(d[1]) < 16 && Nibble(d[2]) < 16 && Nibble(d[3]) < 16
  }

  function HexOf(d: seq<byte>): (n: nat)
    requires FourHex(d)
    ensures n < 0x1_0000
  {
    Nibble(d[0]) * 0x1000 + Nibble(d[1]) * 0x100 + Nibble(d[2]) * 0x10 + Nibble(d[3])
  }

  predicate ShortEscape(letter: byte, c: char)
  {
    || (letter == 34 && c == '\"') || (letter == 92 && c == '\\') || (letter == 47 && c == '/')
    || (letter == 98 && c as int == 8) || (letter == 102 && c as int == 12) || (letter == 110 && c as int == 10)
    || (letter == 114 && c as int == 13) || (letter == 116 && c as int == 9)
  }

  /** The unit denotes its character. */
  predicate Denotes(u: Unit)
  {
    match u
    case Plain(c) => c as int >= 0x20 && c != '\"' && c != '\\'
    case Short(c, letter) => ShortEscape(letter, c)
    case Code(c, digits) => FourHex(digits) && HexOf(digits) == c as int
    case Pair(c, high, low) =>
      && FourHex(high) && 0xd800 <= HexOf(high) < 0xdc00
      && FourHex(low) && 0xdc00 <= HexOf(low) < 0xe000
      && c as int == 0x1_0000 + (HexOf(high) - 0xd800) * 0x400 + (HexOf(low) - 0xdc00)
  }

  /** The bytes after the backslash. */
  function EscapeText(u: Unit): (r: seq<byte>)
    requires !u.Plain?
  {
    match u
    case Short(_, letter) => [letter]
    case Code(_, digits) => [117] + digits
    case Pair(_, high, low) => [117] + high + ([92, 117] + low)
  }

  function UnitText(u: Unit): (r: seq<byte>)
  {
    if u.Plain? then EncodeChar(u.c) else [92] + EscapeText(u)
  }

  function Texts(us: seq<Unit>): (r: seq<byte>)
  {
    if us == [] then [] else UnitText(us[0]) + Texts(us[1..])
  }

  function Chars(us: seq<Unit>): (r: string)
    ensures |r| == |us|
  {
    seq(|us|, i requires 0 <= i < |us| => us[i].c)
  }

  predicate AllDenote(us: seq<Unit>)
  {
    forall i :: 0 <= i < |us| ==> Denotes(us[i])
  }

  /** `s` begins with a string literal for `t`, and `rest` follows it. */
  ghost predicate StringText(s: seq<byte>, t: string, rest: seq<byte>)
  {
    exists us :: AllDenote(us) && Chars(us) == t && s == [34] + Texts(us) + [34] + rest
  }

  // --- escapes ---

  lemma NibbleIs(b: byte)
    ensures HexValue(b as char) == if Nibble(b) < 16 then Some(Nibble(b)) else None
  {
  }

  lemma HexExactly(s: seq<byte>)
    ensures ParseHexU16(s) == if |s| >= 4 && FourHex(s[..4]) then Ok((HexOf(s[..4]), s[4..])) else Err
  {
    if |s| >= 4 {
      NibbleIs(s[0]);
      NibbleIs(s[1]);
      NibbleIs(s[2]);
      NibbleIs(s[3]);
    }
  }

  lemma CodeSound(s: seq<byte>) returns (u: Unit)
    requires ParseUnicodeEscape(s).Ok?
    ensures !u.Plain? && Denotes(u)
    ensures var (c, rest) := ParseUnicodeEscape(s).value; u.c == c && [117] + s == EscapeText(u) + rest
  {
    hide ParseHexU16;
    HexExactly(s);
    var high, after := s[..4], s[4..];
    var first := HexOf(high);
    if 0xd800 <= first < 0xdc00 {
      HexExactly(after[2..]);
      var low := after[2..][..4];
      var rest := after[2..][4..];
      u := Pair(ParseUnicodeEscape(s).value.0, high, low);
      assert after == [92, 117] + low + rest;
      assert s == high + after;
    } else {
      u := Code(first as char, high);
      assert s == high + after;
    }
  }

  lemma CodeComplete(u: Unit, rest: seq<byte>)
    requires (u.Code? || u.Pair?) && Denotes(u)
    ensures ParseUnicodeEscape(EscapeText(u)[1..] + rest) == Ok((u.c, rest))
  {
    hide ParseHexU16, HexOf, FourHex;
    if u.Code? {
      var s := u.digits + rest;
      assert EscapeText(u)[1..] == u.digits;
      CodeLength(u.digits);
      HexExactly(s);
      assert s[..4] == u.digits && s[4..] == rest;
    } else {
      var after := [92, 117] + (u.low + rest);
      var s := u.high + after;
      assert EscapeText(u)[1..] + rest == s;
      CodeLength(u.high);
      CodeLength(u.low);
      HexExactly(s);
      assert s[..4] == u.high && s[4..] == after;
      HexExactly(after[2..]);
      assert after[2..] == u.low + rest;
      assert (u.low + rest)[..4] == u.low && (u.low + rest)[4..] == rest;
    }
  }

  lemma CodeLength(d: seq<byte>)
    requires FourHex(d)
    ensures |d| == 4
  {
  }

  lemma EscapeSound(s: seq<byte>) returns (u: Unit)
    requires ParseEscape(s).Ok?
    ensures !u.Plain? && Denotes(u)
    ensures var (c, rest) := ParseEscape(s).value; u.c == c && s == EscapeText(u) + rest
  {
    hide ParseUnicodeEscape;
    assert s == [s[0]] + s[1..];
    if s[0] == 117 {
      u := CodeSound(s[1..]);
    } else {
      u := Short(ParseEscape(s).value.0, s[0]);
    }
  }

  lemma EscapeComplete(u: Unit, rest: seq<byte>)
    requires !u.Plain? && Denotes(u)
    ensures ParseEscape(EscapeText(u) + rest) == Ok((u.c, rest))
  {
    hide ParseUnicodeEscape, HexOf, FourHex, ParseEscape;
    if u.Short? {
      ShortComplete(u, rest);
    } else {
      CodeComplete(u, rest);
      CodeStarts(EscapeText(u), rest);
    }
  }

  lemma ShortComplete(u: Unit, rest: seq<byte>)
    requires u.Short? && Denotes(u)
    ensures ParseEscape([u.letter] + rest) == Ok((u.c, rest))
  {
    hide ParseUnicodeEscape;
    assert ([u.letter] + rest)[1..] == rest;
  }

  lemma CodeStarts(text: seq<byte>, rest: seq<byte>)
    requires text != [] && text[0] == 117
    ensures ParseEscape(text + rest) == ParseUnicodeEscape(text[1..] + rest)
  {
    hide ParseUnicodeEscape;
    assert (text + rest)[1..] == text[1..] + rest;
  }

  // --- whole strings ---

  function PlainUnits(d: string): (us: seq<Unit>)
    ensures |us| == |d|
  {
    seq(|d|, i requires 0 <= i < |d| => Plain(d[i]))
  }

  lemma {:induction false} PlainTexts(d: string)
    ensures Texts(PlainUnits(d)) == Encode(d) && Chars(PlainUnits(d)) == d
  {
    hide EncodeChar;
    if d != [] {
      PlainTexts(d[1..]);
      assert PlainUnits(d)[1..] == PlainUnits(d[1..]);
    }
  }

  lemma PlainDenote(d: string)
    requires PlainBytes(Encode(d))
    ensures AllDenote(PlainUnits(d))
  {
    forall i | 0 <= i < |d|
      ensures Denotes(Plain(d[i]))
    {
      if d[i] as int < 0x80 {
        ByteOfAscii(d, i);
      }
    }
  }

  /** An ASCII character stands in the encoding as its own byte. */
  lemma {:induction false} ByteOfAscii(d: string, i: nat)
    requires i < |d| && d[i] as int < 0x80
    ensures d[i] as int in Encode(d)
    decreases i
  {
    if i == 0 {
      assert EncodeChar(d[0]) == [d[0] as int];
    } else {
      ByteOfAscii(d[1..], i - 1);
    }
  }

  lemma CharsConcat(a: seq<Unit>, b: seq<Unit>)
    ensures Chars(a + b) == Chars(a) + Chars(b)
  {
  }

  lemma {:induction false} TextsConcat(a: seq<Unit>, b: seq<Unit>)
    ensures Texts(a + b) == Texts(a) + Texts(b)
  {
    hide UnitText;
    if a == [] {
      assert a + b == b;
    } else {
      assert (a + b)[1..] == a[1..] + b;
      TextsConcat(a[1..], b);
    }
  }

  /** The chunk read so far, as units. */
  lemma ChunkUnits(chunk: seq<byte>, out: string) returns (us: seq<Unit>)
    requires PlainBytes(chunk) && Flush(chunk, out).Ok?
    ensures AllDenote(us) && Texts(us) == chunk && Flush(chunk, out).value == out + Chars(us)
  {
    hide Encode, Decode;
    var d := Decode(chunk).value;
    EncodeDecode(chunk);
    us := PlainUnits(d);
    PlainTexts(d);
    PlainDenote(d);
  }

  lemma {:induction false} BodySound(chunk: seq<byte>, s: seq<byte>, out: string) returns (us: seq<Unit>)
    requires PlainBytes(chunk) && ParseStringBody(chunk, s, out).Ok?
    ensures AllDenote(us)
    ensures var (t, rest) := ParseStringBody(chunk, s, out).value;
            t == out + Chars(us) && chunk + s == Texts(us) + ([34] + rest)
    decreases |s|
  {
    hide Flush, ParseEscape, EscapeText, Denotes, Texts, Chars, UnitText, PlainBytes;
    assert forall b: byte :: b >= 0x20 && b != QUOTE && b != BACKSLASH ==> PlainBytes(chunk + [b]) by {
      MorePlain(chunk);
    }
    NoBytes();
    if s[0] == QUOTE {
      us := ChunkUnits(chunk, out);
      assert s == [34] + s[1..];
    } else if s[0] == BACKSLASH {
      var before := ChunkUnits(chunk, out);
      var flushed := Flush(chunk, out).value;
      var u := EscapeSound(s[1..]);
      var (c, rest) := ParseEscape(s[1..]).value;
      var others := BodySound([], rest, flushed + [c]);
      assert [] + rest == rest;
      EscapeTexts(s, u, rest);
      us := before + ([u] + others);
      Joined(before, u, others, [34] + ParseStringBody(chunk, s, out).value.1, out);
    } else {
      assert chunk + s == chunk + [s[0]] + s[1..];
      us := BodySound(chunk + [s[0]], s[1..], out);
    }
  }

  lemma MorePlain(chunk: seq<byte>)
    requires PlainBytes(chunk)
    ensures forall b: byte :: b >= 0x20 && b != QUOTE && b != BACKSLASH ==> PlainBytes(chunk + [b])
  {
  }

  lemma NoBytes()
    ensures PlainBytes([])
  {
  }

  lemma Joined(before: seq<Unit>, u: Unit, others: seq<Unit>, end: seq<byte>, out: string)
    ensures var us := before + ([u] + others);
            && Texts(us) + end == Texts(before) + (UnitText(u) + (Texts(others) + end))
            && out + Chars(us) == out + Chars(before) + [u.c] + Chars(others)
  {
    hide Texts, Chars, UnitText;
    TextsConcat(before, [u] + others);
    TextsConcat([u], others);
    CharsConcat(before, [u] + others);
    CharsConcat([u], others);
    OneUnit(u);
    Associative(Texts(before), UnitText(u) + Texts(others), end);
    Associative(UnitText(u), Texts(others), end);
    Associative(out, Chars(before), [u.c] + Chars(others));
    Associative(out + Chars(before), [u.c], Chars(others));
  }

  lemma OneUnit(u: Unit)
    ensures Texts([u]) == UnitText(u) && Chars([u]) == [u.c]
  {
    hide UnitText;
    assert [u][1..] == [];
  }

  lemma EscapeTexts(s: seq<byte>, u: Unit, rest: seq<byte>)
    requires s != [] && s[0] == BACKSLASH && !u.Plain? && s[1..] == EscapeText(u) + rest
    ensures s == UnitText(u) + rest
  {
    hide EscapeText;
    assert s == [s[0]] + s[1..];
  }

  lemma {:induction false} BodyComplete(t: string, us: seq<Unit>, rest: seq<byte>, out: string)
    requires AllDenote(us)
    ensures ParseStringBody(Encode(t), Texts(us) + ([QUOTE] + rest), out) == Ok((out + t + Chars(us), rest))
    decreases |us|
  {
    hide EscapeText, Encode, ParseEscape;
    if us == [] {
      ClosingQuote(t, rest, out);
      assert Texts(us) + ([QUOTE] + rest) == [QUOTE] + rest;
      assert out + t + Chars(us) == out + t;
    } else {
      var u, after := us[0], Texts(us[1..]) + ([QUOTE] + rest);
      assert Denotes(u);
      Associative(UnitText(u), Texts(us[1..]), [QUOTE] + rest);
      assert Chars(us) == [u.c] + Chars(us[1..]);
      if u.Plain? {
        PlainUnitStep(t, u.c, after, out);
        BodyComplete(t + [u.c], us[1..], rest, out);
        assert out + (t + [u.c]) + Chars(us[1..]) == out + t + Chars(us);
      } else {
        EscapeUnitStep(t, u, after, out);
        assert Encode("") == [] by {
          NothingEncoded();
        }
        BodyComplete("", us[1..], rest, out + t + [u.c]);
        assert out + t + [u.c] + "" + Chars(us[1..]) == out + t + Chars(us);
      }
    }
  }

  lemma NothingEncoded()
    ensures Encode("") == []
  {
  }

  lemma PlainUnitStep(t: string, c: char, after: seq<byte>, out: string)
    requires Denotes(Plain(c))
    ensures ParseStringBody(Encode(t), EncodeChar(c) + after, out) == ParseStringBody(Encode(t + [c]), after, out)
  {
    EncodeSingle(c);
    assert PlainBytes(EncodeChar(c));
    BodyConsumes(Encode(t), EncodeChar(c), after, out);
    EncodeConcat(t, [c]);
  }

  lemma EscapeUnitStep(t: string, u: Unit, after: seq<byte>, out: string)
    requires !u.Plain? && Denotes(u)
    ensures ParseStringBody(Encode(t), UnitText(u) + after, out) == ParseStringBody([], after, out + t + [u.c])
  {
    hide EscapeText, Encode, Decode, ParseEscape, Denotes;
    DecodeEncode(t);
    EscapeComplete(u, after);
    var b := UnitText(u) + after;
    assert b[0] == BACKSLASH && b[1..] == EscapeText(u) + after;
  }

  /** The parser reads a string exactly where one is written. */
  lemma StringExactly(s: seq<byte>, t: string, rest: seq<byte>)
    ensures ParseString(s) == Ok((t, rest)) <==> StringText(s, t, rest)
  {
    hide ParseStringBody, Texts, Chars, AllDenote, Encode;
    if ParseString(s) == Ok((t, rest)) {
      var us := BodySound([], s[1..], "");
      assert [] + s[1..] == s[1..] && "" + Chars(us) == Chars(us);
      assert s == [34] + s[1..];
      assert s == [34] + Texts(us) + [34] + rest;
    }
    if StringText(s, t, rest) {
      var us :| AllDenote(us) && Chars(us) == t && s == [34] + Texts(us) + [34] + rest;
      NothingEncoded();
      BodyComplete("", us, rest, "");
      assert s[1..] == Texts(us) + ([QUOTE] + rest);
      assert "" + "" + Chars(us) == Chars(us);
    }
  }

  // ---------------------------------------------------------------------------------------------
  // Values
  // ---------------------------------------------------------------------------------------------

  predicate NoDigitNext(rest: seq<byte>)
  {
    rest == [] || !IsDigitByte(rest[0])
  }

  /** `s` begins with this value, and `rest` follows it. A number is its decimal form without leading
      zeros, and no further digit follows. */
  ghost predicate ValueText(s: seq<byte>, v: JsonValue, rest: seq<byte>)
  {
    match v
    case JNull => s == Encode("null") + rest
    case JBool(flag) => s == Encode(if flag then "true" else "false") + rest
    case JNumber(n) => s == Encode(Decimal(n)) + rest && NoDigitNext(rest)
    case JString(t) => StringText(s, t, rest)
  }

  lemma {:induction false} DigitsOnly(t: string)
    requires forall i :: 0 <= i < |Encode(t)| ==> IsDigitByte(Encode(t)[i])
    ensures AllDigits(t)
  {
    if t != [] {
      var first := EncodeChar(t[0]);
      assert Encode(t)[0] == first[0];
      assert first == [t[0] as int];
      assert forall i :: 0 <= i < |Encode(t[1..])| ==> Encode(t)[i + 1] == Encode(t[1..])[i];
      DigitsOnly(t[1..]);
    }
  }

  /** Digits without a leading zero are the decimal form of their value. */
  lemma {:induction false} DecimalOfValue(t: string)
    requires t != "" && AllDigits(t) && (t[0] == '0' ==> |t| == 1)
    ensures Decimal(DecimalValue(t)) == t && (t[0] != '0' ==> DecimalValue(t) > 0)
  {
    var d := t[|t| - 1] as int - '0' as int;
    assert DigitChar(d) == t[|t| - 1];
    if |t| == 1 {
      assert t[..0] == "";
      assert DecimalValue(t) == d;
    } else {
      var front := t[..|t| - 1];
      DecimalOfValue(front);
      assert front[0] == t[0];
      assert DecimalValue(t) == DecimalValue(front) * 10 + d;
      assert DecimalValue(t) / 10 == DecimalValue(front) && DecimalValue(t) % 10 == d;
      assert t == front + [t[|t| - 1]];
    }
  }

  lemma NumberSound(s: seq<byte>)
    requires s != [] && IsDigitByte(s[0]) && ParseNumber(s).Ok?
    ensures var (n, rest) := ParseNumber(s).value; s == Encode(Decimal(n)) + rest && NoDigitNext(rest)
  {
    hide Decode, Encode, Decimal, DecimalValue;
    var run := DigitRun(s);
    var text := Decode(s[..run]).value;
    EncodeDecode(s[..run]);
    DigitsOnly(text);
    assert run > 0;
    FirstDigit(text);
    assert s[..run][0] == s[0];
    if text[0] == '0' {
      SingleByte(text, run);
    }
    DecimalOfValue(text);
    assert s == s[..run] + s[run..];
  }

  lemma FirstDigit(text: string)
    requires AllDigits(text) && Encode(text) != []
    ensures text != "" && Encode(text)[0] == text[0] as int
  {
    assert text != "" by {
      assert Encode("") == [];
    }
    assert IsDigit(text[0]);
    assert EncodeChar(text[0]) == [text[0] as int];
  }

  lemma SingleByte(text: string, run: nat)
    requires AllDigits(text) && |Encode(text)| == run <= 1
    ensures |text| <= 1
  {
    EncodeAscii(text);
  }

  /** The parser reads a value exactly where one is written. */
  lemma ValueExactly(s: seq<byte>, v: JsonValue, rest: seq<byte>)
    ensures ParseValue(s) == Ok((v, rest)) <==> ValueText(s, v, rest)
  {
    if ParseValue(s) == Ok((v, rest)) {
      ValueSound(s);
    }
    if ValueText(s, v, rest) {
      ValueComplete(s, v, rest);
    }
  }

  lemma ValueSound(s: seq<byte>)
    requires ParseValue(s).Ok?
    ensures ValueText(s, ParseValue(s).value.0, ParseValue(s).value.1)
  {
    hide ParseString, ParseNumber, StringText, Encode, Decimal;
    EncodeLiterals();
    if s[0] == QUOTE {
      var (t, rest) := ParseString(s).value;
      StringExactly(s, t, rest);
    } else if TRUE_BYTES <= s {
      assert s == TRUE_BYTES + s[4..];
    } else if FALSE_BYTES <= s {
      assert s == FALSE_BYTES + s[5..];
    } else if NULL_BYTES <= s {
      assert s == NULL_BYTES + s[4..];
    } else {
      NumberSound(s);
    }
  }

  lemma ValueComplete(s: seq<byte>, v: JsonValue, rest: seq<byte>)
    requires ValueText(s, v, rest)
    ensures ParseValue(s) == Ok((v, rest))
  {
    hide ParseString, ParseNumber, Encode, Decimal;
    EncodeLiterals();
    match v
    case JNull => assert s[4..] == rest;
    case JBool(flag) => assert s[if flag then 4 else 5..] == rest;
    case JNumber(n) =>
      NumberRoundTrip(n, rest);
      assert Encode(Decimal(n)) != [];
      assert s[0] == Encode(Decimal(n))[0];
    case JString(t) =>
      StringExactly(s, t, rest);
      StringStarts(s, t, rest);
  }

  lemma StringStarts(s: seq<byte>, t: string, rest: seq<byte>)
    requires StringText(s, t, rest)
    ensures s != [] && s[0] == QUOTE
  {
    hide Texts;
  }

  // ---------------------------------------------------------------------------------------------
  // Space
  // ---------------------------------------------------------------------------------------------

  predicate AllSpaces(w: seq<byte>)
  {
    forall i :: 0 <= i < |w| ==> w[i] == 32 || w[i] == 9 || w[i] == 10 || w[i] == 13
  }

  /** `s` is any number of spaces, and then `r`. */
  predicate Spaced(s: seq<byte>, r: seq<byte>)
  {
    |r| <= |s| && s[|s| - |r|..] == r && AllSpaces(s[..|s| - |r|])
  }

  predicate NoSpaceNext(r: seq<byte>)
  {
    r == [] || !IsJsonSpace(r[0])
  }

  lemma {:induction false} SkipSound(s: seq<byte>)
    ensures Spaced(s, SkipSpace(s)) && NoSpaceNext(SkipSpace(s))
  {
    if s != [] && IsJsonSpace(s[0]) {
      SkipSound(s[1..]);
      SpacedMore(s, SkipSpace(s[1..]));
    }
  }

  lemma SpacedMore(s: seq<byte>, r: seq<byte>)
    requires s != [] && IsJsonSpace(s[0]) && Spaced(s[1..], r)
    ensures Spaced(s, r)
  {
    var n := |s| - |r|;
    assert s[..n] == [s[0]] + s[1..][..n - 1];
    assert s[n..] == s[1..][n - 1..];
  }

  lemma {:induction false} SkipComplete(s: seq<byte>, r: seq<byte>)
    requires Spaced(s, r) && NoSpaceNext(r)
    ensures SkipSpace(s) == r
  {
    if |s| > |r| {
      var n := |s| - |r|;
      assert s[..n][0] == s[0];
      assert s[1..][..n - 1] == s[..n][1..] && s[1..][n - 1..] == s[n..];
      SkipComplete(s[1..], r);
    } else {
      assert s[0..] == s;
    }
  }

  lemma SpacedTwice(a: seq<byte>, b: seq<byte>, c: seq<byte>)
    requires Spaced(a, b) && Spaced(b, c)
    ensures Spaced(a, c)
  {
    var n, m := |a| - |b|, |b| - |c|;
    assert a == a[..n] + b && b == b[..m] + c;
    assert a[..n + m] == a[..n] + b[..m] && a[n + m..] == c;
  }

  // ---------------------------------------------------------------------------------------------
  // Members and objects
  // ---------------------------------------------------------------------------------------------

  /** A member and where its parts begin: the key, what follows it, what follows the colon, the value,
      what follows the value. */
  datatype Layout = Layout(
    key: seq<byte>, afterKey: seq<byte>, afterColon: seq<byte>, value: seq<byte>, afterValue: seq<byte>)

  ghost predicate LaidOut(s: seq<byte>, m: Member, rest: seq<byte>, l: Layout)
  {
    && Spaced(s, l.key) && StringText(l.key, m.key, l.afterKey)
    && Spaced(l.afterKey, [58] + l.afterColon)
    && Spaced(l.afterColon, l.value) && ValueText(l.value, m.value, l.afterValue)
    && Spaced(l.afterValue, rest)
  }

  /** `s` begins with a member, spaces around its parts, and `rest` follows. */
  ghost predicate MemberText(s: seq<byte>, m: Member, rest: seq<byte>)
  {
    exists l :: LaidOut(s, m, rest, l)
  }

  /** Members separated by commas and closed by the brace. */
  ghost predicate MembersText(s: seq<byte>, ms: seq<Member>, rest: seq<byte>)
    decreases |ms|, 0
  {
    && ms != []
    && exists tail :: MemberText(s, ms[0], tail) && TailText(tail, ms[1..], rest)
  }

  ghost predicate TailText(tail: seq<byte>, ms: seq<Member>, rest: seq<byte>)
    decreases |ms|, 1
  {
    if ms == [] then tail == [125] + rest
    else tail != [] && tail[0] == 44 && MembersText(tail[1..], ms, rest)
  }

  /** An object: at least one member, no key twice, spaces anywhere between the tokens. */
  ghost predicate ObjectText(s: seq<byte>, ms: seq<Member>)
  {
    && DistinctKeys(ms)
    && exists inner, rest :: Spaced(s, [123] + inner) && MembersText(inner, ms, rest) && AllSpaces(rest)
  }

  lemma ValueStarts(s: seq<byte>, v: JsonValue, rest: seq<byte>)
    requires ValueText(s, v, rest)
    ensures s != [] && NoSpaceNext(s)
  {
    hide StringText, Encode, Decimal;
    EncodeLiterals();
    match v
    case JNull =>
    case JBool(_) =>
    case JNumber(n) =>
      NumberRoundTrip(n, rest);
      assert Encode(Decimal(n)) != [];
      assert s[0] == Encode(Decimal(n))[0];
    case JString(t) => StringStarts(s, t, rest);
  }

  lemma MemberSound(s: seq<byte>, values: map<string, JsonValue>) returns (m: Member)
    requires ParseMember(s, values).Ok?
    ensures var (values', rest) := ParseMember(s, values).value;
            && MemberText(s, m, rest) && NoSpaceNext(rest)
            && m.key !in values && values' == values[m.key := m.value]
  {
    hide ParseString, ParseValue, SkipSpace, StringText, ValueText, Spaced, NoSpaceNext;
    var key := SkipSpace(s);
    var (k, afterKey) := ParseString(key).value;
    var colon := SkipSpace(afterKey);
    var value := SkipSpace(colon[1..]);
    var (v, afterValue) := ParseValue(value).value;
    SkipSound(s);
    StringExactly(key, k, afterKey);
    SkipSound(afterKey);
    assert colon == [58] + colon[1..];
    SkipSound(colon[1..]);
    ValueExactly(value, v, afterValue);
    SkipSound(afterValue);
    m := Member(k, v);
    assert LaidOut(s, m, SkipSpace(afterValue), Layout(key, afterKey, colon[1..], value, afterValue));
  }

  lemma MemberComplete(s: seq<byte>, m: Member, rest: seq<byte>, values: map<string, JsonValue>)
    requires MemberText(s, m, rest) && NoSpaceNext(rest) && m.key !in values
    ensures ParseMember(s, values) == Ok((values[m.key := m.value], rest))
  {
    hide ParseString, ParseValue, SkipSpace, StringText, ValueText, Spaced;
    var l :| LaidOut(s, m, rest, l);
    StringStarts(l.key, m.key, l.afterKey);
    SkipComplete(s, l.key);
    StringExactly(l.key, m.key, l.afterKey);
    SkipComplete(l.afterKey, [58] + l.afterColon);
    ValueStarts(l.value, m.value, l.afterValue);
    SkipComplete(l.afterColon, l.value);
    assert ([58] + l.afterColon)[1..] == l.afterColon;
    ValueExactly(l.value, m.value, l.afterValue);
    SkipComplete(l.afterValue, rest);
  }

  predicate FreshKeys(ms: seq<Member>, values: map<string, JsonValue>)
  {
    DistinctKeys(ms) && forall i :: 0 <= i < |ms| ==> ms[i].key !in values
  }

  lemma FreshKeysStep(m: Member, ms: seq<Member>, values: map<string, JsonValue>)
    ensures FreshKeys([m] + ms, values) <==> m.key !in values && FreshKeys(ms, values[m.key := m.value])
  {
    if FreshKeys([m] + ms, values) {
      FreshTail(m, ms, values);
    }
    if m.key !in values && FreshKeys(ms, values[m.key := m.value]) {
      FreshHead(m, ms, values);
    }
  }

  lemma FreshTail(m: Member, ms: seq<Member>, values: map<string, JsonValue>)
    requires FreshKeys([m] + ms, values)
    ensures m.key !in values && FreshKeys(ms, values[m.key := m.value])
  {
    var all := [m] + ms;
    assert all[0] == m;
    forall i | 0 <= i < |ms|
      ensures ms[i].key != m.key && ms[i].key !in values
    {
      assert all[i + 1] == ms[i];
    }
    forall i, j | 0 <= i < j < |ms|
      ensures ms[i].key != ms[j].key
    {
      assert all[i + 1] == ms[i] && all[j + 1] == ms[j];
    }
  }

  lemma FreshHead(m: Member, ms: seq<Member>, values: map<string, JsonValue>)
    requires m.key !in values && FreshKeys(ms, values[m.key := m.value])
    ensures FreshKeys([m] + ms, values)
  {
    var all := [m] + ms;
    forall i, j | 0 <= i < j < |all|
      ensures all[i].key != all[j].key
    {
      assert all[j] == ms[j - 1];
      if i > 0 {
        assert all[i] == ms[i - 1];
      }
    }
  }

  lemma {:induction false} MembersSound(s: seq<byte>, values: map<string, JsonValue>) returns (ms: seq<Member>)
    requires ParseMembers(s, values).Ok?
    ensures var (values', rest) := ParseMembers(s, values).value;
            MembersText(s, ms, rest) && FreshKeys(ms, values) && values' == Insert(values, ms)
    decreases |s|
  {
    hide ParseMember, MemberText, FreshKeys, NoSpaceNext;
    var m := MemberSound(s, values);
    var (values', tail) := ParseMember(s, values).value;
    if tail[0] == 125 {
      ms := [m];
      NoneFresh(values');
      FreshKeysStep(m, [], values);
      assert [m] + [] == [m];
      assert tail == [125] + tail[1..];
      assert TailText(tail, ms[1..], tail[1..]);
      assert Insert(values', []) == values';
    } else {
      var others := MembersSound(tail[1..], values');
      ms := [m] + others;
      FreshKeysStep(m, others, values);
      assert ms[1..] == others;
      assert TailText(tail, ms[1..], ParseMembers(s, values).value.1);
    }
  }

  lemma NoneFresh(values: map<string, JsonValue>)
    ensures FreshKeys([], values)
  {
  }

  lemma {:induction false} MembersComplete(s: seq<byte>, ms: seq<Member>, rest: seq<byte>, values: map<string, JsonValue>)
    requires MembersText(s, ms, rest) && FreshKeys(ms, values)
    ensures ParseMembers(s, values) == Ok((Insert(values, ms), rest))
    decreases |ms|
  {
    hide ParseMember, MemberText, FreshKeys;
    var tail :| MemberText(s, ms[0], tail) && TailText(tail, ms[1..], rest);
    var values' := values[ms[0].key := ms[0].value];
    assert ms == [ms[0]] + ms[1..];
    FreshKeysStep(ms[0], ms[1..], values);
    MemberComplete(s, ms[0], tail, values);
    if |ms| == 1 {
      assert tail[1..] == rest;
      assert ms[1..] == [];
    } else {
      MembersComplete(tail[1..], ms[1..], rest, values');
    }
  }

  /** Spaces before the first member belong to it. */
  lemma MembersSpaced(a: seq<byte>, b: seq<byte>, ms: seq<Member>, rest: seq<byte>)
    requires Spaced(a, b) && MembersText(b, ms, rest)
    ensures MembersText(a, ms, rest)
  {
    hide StringText, ValueText, Spaced, TailText;
    var tail :| MemberText(b, ms[0], tail) && TailText(tail, ms[1..], rest);
    var l :| LaidOut(b, ms[0], tail, l);
    SpacedTwice(a, b, l.key);
    assert LaidOut(a, ms[0], tail, l);
  }

  lemma SkipTwice(s: seq<byte>, values: map<string, JsonValue>)
    ensures ParseMembers(SkipSpace(s), values) == ParseMembers(s, values)
  {
    hide SkipSpace, ParseString, ParseValue;
    SkipSound(s);
    SkippedStays(s);
  }

  lemma SkippedStays(s: seq<byte>)
    ensures SkipSpace(SkipSpace(s)) == SkipSpace(s)
  {
    SkipSound(s);
  }

  lemma MembersStart(s: seq<byte>, ms: seq<Member>, rest: seq<byte>)
    requires MembersText(s, ms, rest)
    ensures SkipSpace(s) != [] && SkipSpace(s)[0] == QUOTE
  {
    hide StringText, ValueText, Spaced, TailText;
    var tail :| MemberText(s, ms[0], tail) && TailText(tail, ms[1..], rest);
    var l :| LaidOut(s, ms[0], tail, l);
    StringStarts(l.key, ms[0].key, l.afterKey);
    SkipComplete(s, l.key);
  }

  lemma ObjectSound(s: seq<byte>) returns (ms: seq<Member>)
    requires ParseObject(s).Ok?
    ensures ObjectText(s, ms) && ParseObject(s).value == Insert(map[], ms)
  {
    hide ParseMembers, SkipSpace, MembersText, FreshKeys;
    var open := SkipSpace(s);
    var inner := open[1..];
    SkipSound(s);
    assert open == [123] + inner;
    SkipTwice(inner, map[]);
    ms := MembersSound(inner, map[]);
    var rest := ParseMembers(inner, map[]).value.1;
    SkipSound(rest);
    assert AllSpaces(rest) by {
      assert rest[..|rest|] == rest;
    }
    assert DistinctKeys(ms) by {
      FreshAreDistinct(ms);
    }
  }

  lemma FreshAreDistinct(ms: seq<Member>)
    ensures FreshKeys(ms, map[]) <==> DistinctKeys(ms)
  {
  }

  lemma ObjectComplete(s: seq<byte>, ms: seq<Member>)
    requires ObjectText(s, ms)
    ensures ParseObject(s) == Ok(Insert(map[], ms))
  {
    hide ParseMembers, SkipSpace, MembersText, FreshKeys, Spaced;
    var inner, rest :| Spaced(s, [123] + inner) && MembersText(inner, ms, rest) && AllSpaces(rest);
    SkipComplete(s, [123] + inner);
    assert ([123] + inner)[1..] == inner;
    MembersStart(inner, ms, rest);
    SkipTwice(inner, map[]);
    FreshAreDistinct(ms);
    MembersComplete(inner, ms, rest, map[]);
    AllSkipped(rest);
  }

  lemma AllSkipped(w: seq<byte>)
    requires AllSpaces(w)
    ensures SkipSpace(w) == []
  {
    assert w[..|w|] == w && w[|w|..] == [];
    SkipComplete(w, []);
  }

  /** The parser accepts exactly the objects of the grammar, and reads each as the map of its members. */
  lemma ObjectExactly(s: seq<byte>, values: map<string, JsonValue>)
    ensures ParseObject(s) == Ok(values) <==> exists ms :: ObjectText(s, ms) && values == Insert(map[], ms)
  {
    hide ParseObject, ObjectText, Insert;
    if ParseObject(s).Ok? {
      var ms := ObjectSound(s);
    }
    if ms :| ObjectText(s, ms) && values == Insert(map[], ms) {
      ObjectComplete(s, ms);
    }
  }
}
