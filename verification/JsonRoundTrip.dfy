/** Parsing undoes printing, for every string over all of Unicode and every member list. */
module JsonRoundTrip {
  import opened Words
  import opened Utf8
  import opened Numerals
  import opened Json

  // ---------------------------------------------------------------------------------------------
  // Strings
  // ---------------------------------------------------------------------------------------------

  lemma FourHexDigits(n: nat)
    ensures Hex(n, 4) == [DigitChar(n / 0x1000 % 16), DigitChar(n / 0x100 % 16), DigitChar(n / 16 % 16), DigitChar(n % 16)]
  {
    assert Hex(n / 0x1000, 1) == Hex(n / 0x1000 / 16, 0) + [DigitChar(n / 0x1000 % 16)];
    assert n / 0x100 / 16 == n / 0x1000 && n / 16 / 16 == n / 0x100;
    assert Hex(n / 0x100, 2) == Hex(n / 0x1000, 1) + [DigitChar(n / 0x100 % 16)];
    assert Hex(n / 16, 3) == Hex(n / 0x100, 2) + [DigitChar(n / 16 % 16)];
  }

  /** The seven short escapes of the printer. */
  lemma ShortEscapes()
    ensures EscapeChar('\"') == "\\\"" && EscapeChar('\\') == "\\\\"
    ensures EscapeChar('\n') == "\\n" && EscapeChar('\r') == "\\r" && EscapeChar('\t') == "\\t"
    ensures EscapeChar(8 as char) == "\\b" && EscapeChar(12 as char) == "\\f"
  {
  }

  /** Every other control character becomes two hexadecimal digits behind `\u00`. */
  lemma ControlEscapes(c: char)
    requires IsControl(c) && c !in "\n\r\t" && c as int != 8 && c as int != 12
    ensures EscapeChar(c) == "\\u00" + [DigitChar(c as int / 16), DigitChar(c as int % 16)]
  {
    hide Hex;
    var n := c as int;
    FourHexDigits(n);
    assert n / 0x1000 % 16 == 0 && n / 0x100 % 16 == 0 && n / 16 % 16 == n / 16;
    assert EscapeTail(c) == "u" + Hex(n, 4);
  }

  /** An object is printed without any space. */
  lemma ObjectForm(a: Member, b: Member)
    ensures PrintObject([a, b])
            == "{" + (("\"" + Escape(a.key) + "\"") + ":" + PrintValue(a.value)) + ","
               + ((("\"" + Escape(b.key) + "\"") + ":" + PrintValue(b.value)) + "}")
  {
    hide Escape, PrintValue;
    var ms := [a, b];
    assert ms[1..] == [b];
    assert PrintMembers([b]) == PrintMember(b) + "}";
    Associative("{" + PrintMember(a), ",", PrintMember(b) + "}");
    Associative("{", PrintMember(a) + ",", PrintMember(b) + "}");
    Associative("{", PrintMember(a), ",");
  }

  lemma FourDigitSum(n: nat)
    requires n < 0x1_0000
    ensures n / 0x1000 % 16 * 0x1000 + n / 0x100 % 16 * 0x100 + n / 16 % 16 * 0x10 + n % 16 == n
  {
    assert n / 0x1000 < 16;
    assert n / 0x100 == n / 0x1000 * 16 + n / 0x100 % 16;
    assert n / 16 == n / 0x100 * 16 + n / 16 % 16;
  }

  lemma ParseFourDigits(a: nat, b: nat, c: nat, d: nat, rest: seq<byte>)
    requires a < 16 && b < 16 && c < 16 && d < 16
    ensures ParseHexU16(Encode([DigitChar(a), DigitChar(b), DigitChar(c), DigitChar(d)]) + rest)
            == Ok((a * 0x1000 + b * 0x100 + c * 0x10 + d, rest))
  {
    var s := [DigitChar(a), DigitChar(b), DigitChar(c), DigitChar(d)];
    EncodeAscii(s);
    HexDigitValue(a);
    HexDigitValue(b);
    HexDigitValue(c);
    HexDigitValue(d);
    assert (Encode(s) + rest)[4..] == rest;
    assert Encode(s)[0] as char == s[0] && Encode(s)[1] as char == s[1];
    assert Encode(s)[2] as char == s[2] && Encode(s)[3] as char == s[3];
  }

  lemma HexU16RoundTrip(n: nat, rest: seq<byte>)
    requires n < 0x1_0000
    ensures ParseHexU16(Encode(Hex(n, 4)) + rest) == Ok((n, rest))
  {
    FourHexDigits(n);
    FourDigitSum(n);
    ParseFourDigits(n / 0x1000 % 16, n / 0x100 % 16, n / 16 % 16, n % 16, rest);
  }

  lemma HexDigitValue(d: nat)
    requires d < 16
    ensures HexValue(DigitChar(d)) == Some(d)
  {
  }

  lemma EscapeRoundTrip(c: char, rest: seq<byte>)
    requires IsEscaped(c)
    ensures ParseEscape(Encode(EscapeTail(c)) + rest) == Ok((c, rest))
  {
    var tail := EscapeTail(c);
    EncodeConcat([tail[0]], tail[1..]);
    EncodeSingle(tail[0]);
    assert tail == [tail[0]] + tail[1..];
    var s := Encode(tail) + rest;
    assert s[0] == tail[0] as int && s[1..] == Encode(tail[1..]) + rest;
    if |tail| == 1 {
      assert Encode(tail[1..]) == [] && s[1..] == rest;
    } else {
      assert tail[1..] == Hex(c as int, 4);
      HexU16RoundTrip(c as int, rest);
    }
  }

  predicate PlainBytes(w: seq<byte>)
  {
    forall i :: 0 <= i < |w| ==> w[i] >= 0x20 && w[i] != QUOTE && w[i] != BACKSLASH
  }

  lemma {:induction false} BodyConsumes(chunk: seq<byte>, w: seq<byte>, s: seq<byte>, out: string)
    requires PlainBytes(w)
    ensures ParseStringBody(chunk, w + s, out) == ParseStringBody(chunk + w, s, out)
    decreases |w|
  {
    if w == [] {
      assert w + s == s && chunk + w == chunk;
    } else {
      assert (w + s)[1..] == w[1..] + s;
      assert chunk + [w[0]] + w[1..] == chunk + w;
      BodyConsumes(chunk + [w[0]], w[1..], s, out);
    }
  }

  lemma PlainCharBytes(c: char)
    requires !IsEscaped(c)
    ensures PlainBytes(EncodeChar(c))
  {
  }

  /** One escaped character: the chunk so far and the character move to the output. */
  lemma EscapedStep(t: string, c: char, after: seq<byte>, out: string)
    requires IsEscaped(c)
    ensures ParseStringBody(Encode(t), Encode(EscapeChar(c)) + after, out) == ParseStringBody([], after, out + t + [c])
  {
    EncodeConcat("\\", EscapeTail(c));
    EncodeSingle('\\');
    var b := Encode(EscapeChar(c)) + after;
    assert b[0] == BACKSLASH && b[1..] == Encode(EscapeTail(c)) + after;
    EscapeRoundTrip(c, after);
    DecodeEncode(t);
  }

  /** One plain character: its bytes join the chunk. */
  lemma PlainStep(t: string, c: char, after: seq<byte>, out: string)
    requires !IsEscaped(c)
    ensures ParseStringBody(Encode(t), Encode(EscapeChar(c)) + after, out) == ParseStringBody(Encode(t + [c]), after, out)
  {
    EncodeSingle(c);
    PlainCharBytes(c);
    BodyConsumes(Encode(t), EncodeChar(c), after, out);
    EncodeConcat(t, [c]);
  }

  lemma ClosingQuote(t: string, rest: seq<byte>, out: string)
    ensures ParseStringBody(Encode(t), [QUOTE] + rest, out) == Ok((out + t, rest))
  {
    DecodeEncode(t);
    assert ([QUOTE] + rest)[1..] == rest;
  }

  lemma EscapeFirst(s: string, tail: seq<byte>)
    requires s != []
    ensures Encode(Escape(s)) + tail == Encode(EscapeChar(s[0])) + (Encode(Escape(s[1..])) + tail)
  {
    var first, others := Encode(EscapeChar(s[0])), Encode(Escape(s[1..]));
    assert Encode(Escape(s)) == first + others by {
      EncodeConcat(EscapeChar(s[0]), Escape(s[1..]));
    }
    Associative(first, others, tail);
  }

  lemma Associative<T>(a: seq<T>, b: seq<T>, c: seq<T>)
    ensures a + b + c == a + (b + c)
  {
  }

  /** `t` is the text already collected in the current chunk, `s` the text still to come. */
  lemma {:induction false} BodyRoundTrip(t: string, s: string, rest: seq<byte>, out: string)
    ensures ParseStringBody(Encode(t), Encode(Escape(s)) + ([QUOTE] + rest), out) == Ok((out + t + s, rest))
    decreases |s|
  {
    hide ParseStringBody, EscapeChar, IsEscaped;
    if s == [] {
      ClosingQuote(t, rest, out);
      assert Encode(Escape(s)) + ([QUOTE] + rest) == [QUOTE] + rest;
      assert out + t + s == out + t;
    } else {
      var c := s[0];
      var after := Encode(Escape(s[1..])) + ([QUOTE] + rest);
      EscapeFirst(s, [QUOTE] + rest);
      if IsEscaped(c) {
        EscapedStep(t, c, after, out);
        BodyRoundTrip("", s[1..], rest, out + t + [c]);
        assert out + t + [c] + "" + s[1..] == out + t + s;
      } else {
        PlainStep(t, c, after, out);
        BodyRoundTrip(t + [c], s[1..], rest, out);
        assert out + (t + [c]) + s[1..] == out + t + s;
      }
    }
  }

  lemma EncodeQuoted(s: string)
    ensures Encode(Quoted(s)) == [QUOTE] + Encode(Escape(s)) + [QUOTE]
  {
    EncodeConcat("\"" + Escape(s), "\"");
    EncodeConcat("\"", Escape(s));
    EncodeSingle('\"');
  }

  lemma AfterQuote(body: seq<byte>, rest: seq<byte>)
    ensures ([QUOTE] + body + [QUOTE] + rest)[0] == QUOTE
    ensures ([QUOTE] + body + [QUOTE] + rest)[1..] == body + ([QUOTE] + rest)
  {
  }

  /** A quoted string is read back, whatever follows it. */
  lemma StringRoundTrip(s: string, rest: seq<byte>)
    ensures ParseString(Encode(Quoted(s)) + rest) == Ok((s, rest))
  {
    assert Encode("") == [];
    hide ParseStringBody, Quoted, Escape, Encode;
    EncodeQuoted(s);
    AfterQuote(Encode(Escape(s)), rest);
    BodyRoundTrip("", s, rest, "");
    assert "" + "" + s == s;
  }

  // ---------------------------------------------------------------------------------------------
  // Values
  // ---------------------------------------------------------------------------------------------

  lemma {:induction false} DigitRunOf(w: seq<byte>, rest: seq<byte>)
    requires forall i :: 0 <= i < |w| ==> IsDigitByte(w[i])
    requires rest == [] || !IsDigitByte(rest[0])
    ensures DigitRun(w + rest) == |w|
  {
    if w != [] {
      assert (w + rest)[1..] == w[1..] + rest;
      DigitRunOf(w[1..], rest);
    }
  }

  lemma NumberRoundTrip(n: u64, rest: seq<byte>)
    requires rest == [] || !IsDigitByte(rest[0])
    ensures ParseNumber(Encode(Decimal(n)) + rest) == Ok((n, rest))
    ensures IsDigitByte(Encode(Decimal(n))[0])
  {
    DecimalRoundTrip(n);
    EncodeAscii(Decimal(n));
    var w := Encode(Decimal(n));
    assert forall i :: 0 <= i < |w| ==> IsDigitByte(w[i]) by {
      assert forall i :: 0 <= i < |w| ==> w[i] == Decimal(n)[i] as int && IsDigit(Decimal(n)[i]);
    }
    DigitRunOf(w, rest);
    DecimalHead(n);
    assert (w + rest)[..|w|] == w && (w + rest)[|w|..] == rest;
    DecodeEncode(Decimal(n));
    ParseU64OfDecimal(n);
  }

  lemma EncodeLiterals()
    ensures Encode("true") == TRUE_BYTES && Encode("false") == FALSE_BYTES && Encode("null") == NULL_BYTES
  {
    EncodeAscii("true");
    EncodeAscii("false");
    EncodeAscii("null");
  }

  lemma LiteralRoundTrip(v: JsonValue, rest: seq<byte>)
    requires v.JNull? || v.JBool?
    ensures ParseValue(Encode(PrintValue(v)) + rest) == Ok((v, rest))
    ensures Encode(PrintValue(v)) in {NULL_BYTES, TRUE_BYTES, FALSE_BYTES}
  {
    EncodeLiterals();
    var w := Encode(PrintValue(v));
    assert (w + rest)[..|w|] == w && (w + rest)[|w|..] == rest;
  }

  /** A printed value is read back when a comma or the closing brace follows, and does not begin with
      a space. */
  lemma ValueRoundTrip(v: JsonValue, rest: seq<byte>)
    requires rest != [] && (rest[0] == 44 || rest[0] == 125)
    ensures ParseValue(Encode(PrintValue(v)) + rest) == Ok((v, rest))
    ensures SkipSpace(Encode(PrintValue(v)) + rest) == Encode(PrintValue(v)) + rest
  {
    var b := Encode(PrintValue(v)) + rest;
    if v.JString? {
      EncodeQuoted(v.text);
      StringRoundTrip(v.text, rest);
    } else if v.JNumber? {
      NumberRoundTrip(v.number, rest);
      assert IsDigitByte(b[0]);
      assert !(TRUE_BYTES <= b) && !(FALSE_BYTES <= b) && !(NULL_BYTES <= b);
    } else {
      LiteralRoundTrip(v, rest);
    }
  }

  // ---------------------------------------------------------------------------------------------
  // Members
  // ---------------------------------------------------------------------------------------------

  lemma EncodeMember(m: Member)
    ensures Encode(PrintMember(m)) == Encode(Quoted(m.key)) + [58] + Encode(PrintValue(m.value))
  {
    EncodeConcat(Quoted(m.key) + ":", PrintValue(m.value));
    EncodeConcat(Quoted(m.key), ":");
    EncodeSingle(':');
  }

  /** The colon and the value after a key. */
  lemma AfterKeyRoundTrip(v: JsonValue, rest: seq<byte>)
    requires rest != [] && (rest[0] == 44 || rest[0] == 125)
    ensures var colon := [58] + (Encode(PrintValue(v)) + rest);
            SkipSpace(colon) == colon && ParseValue(SkipSpace(colon[1..])) == Ok((v, rest))
  {
    var tail := Encode(PrintValue(v)) + rest;
    assert ([58] + tail)[1..] == tail;
    ValueRoundTrip(v, rest);
  }

  lemma MemberRoundTrip(m: Member, rest: seq<byte>, values: map<string, JsonValue>)
    requires rest != [] && (rest[0] == 44 || rest[0] == 125)
    requires m.key !in values
    ensures ParseMember(Encode(PrintMember(m)) + rest, values) == Ok((values[m.key := m.value], rest))
  {
    hide Encode, ParseString, ParseValue, PrintValue, Quoted, PrintMember;
    EncodeMember(m);
    EncodeQuoted(m.key);
    var colon := [58] + (Encode(PrintValue(m.value)) + rest);
    var b := Encode(Quoted(m.key)) + colon;
    assert Encode(PrintMember(m)) + rest == b;
    assert SkipSpace(b) == b;
    StringRoundTrip(m.key, colon);
    AfterKeyRoundTrip(m.value, rest);
    assert SkipSpace(rest) == rest;
  }

  function Insert(values: map<string, JsonValue>, ms: seq<Member>): (r: map<string, JsonValue>)
    decreases |ms|
  {
    if ms == [] then values else Insert(values[ms[0].key := ms[0].value], ms[1..])
  }

  predicate DistinctKeys(ms: seq<Member>)
  {
    forall i, j :: 0 <= i < j < |ms| ==> ms[i].key != ms[j].key
  }

  lemma LastMemberStep(m: Member, rest: seq<byte>, values: map<string, JsonValue>)
    requires m.key !in values
    ensures ParseMembers(Encode(PrintMember(m) + "}") + rest, values) == Ok((values[m.key := m.value], rest))
  {
    hide Encode, ParseMember, PrintMember;
    EncodeConcat(PrintMember(m), "}");
    EncodeSingle('}');
    assert Encode(PrintMember(m) + "}") + rest == Encode(PrintMember(m)) + ([125] + rest);
    MemberRoundTrip(m, [125] + rest, values);
    assert ([125] + rest)[1..] == rest;
  }

  lemma MemberStep(m: Member, rest: seq<byte>, values: map<string, JsonValue>)
    requires m.key !in values
    ensures ParseMembers(Encode(PrintMember(m) + ",") + rest, values) == ParseMembers(rest, values[m.key := m.value])
  {
    hide Encode, ParseMember, PrintMember;
    EncodeConcat(PrintMember(m), ",");
    EncodeSingle(',');
    assert Encode(PrintMember(m) + ",") + rest == Encode(PrintMember(m)) + ([44] + rest);
    MemberRoundTrip(m, [44] + rest, values);
    assert ([44] + rest)[1..] == rest;
  }

  lemma {:induction false} MembersRoundTrip(ms: seq<Member>, rest: seq<byte>, values: map<string, JsonValue>)
    requires ms != [] && DistinctKeys(ms)
    requires forall i :: 0 <= i < |ms| ==> ms[i].key !in values
    ensures ParseMembers(Encode(PrintMembers(ms)) + rest, values) == Ok((Insert(values, ms), rest))
    decreases |ms|
  {
    hide Encode, ParseMembers, PrintMember;
    var values' := values[ms[0].key := ms[0].value];
    if |ms| == 1 {
      LastMemberStep(ms[0], rest, values);
      assert Insert(values', ms[1..]) == values';
    } else {
      EncodeConcat(PrintMember(ms[0]) + ",", PrintMembers(ms[1..]));
      var tail := Encode(PrintMembers(ms[1..])) + rest;
      assert Encode(PrintMembers(ms)) + rest == Encode(PrintMember(ms[0]) + ",") + tail;
      MemberStep(ms[0], tail, values);
      MembersRoundTrip(ms[1..], rest, values');
    }
  }

  lemma {:induction false} InsertKeeps(values: map<string, JsonValue>, ms: seq<Member>, key: string)
    requires key in values
    requires forall i :: 0 <= i < |ms| ==> ms[i].key != key
    ensures key in Insert(values, ms) && Insert(values, ms)[key] == values[key]
    decreases |ms|
  {
    if ms != [] {
      InsertKeeps(values[ms[0].key := ms[0].value], ms[1..], key);
    }
  }

  lemma {:induction false} InsertKeys(values: map<string, JsonValue>, ms: seq<Member>)
    ensures Insert(values, ms).Keys == values.Keys + set i | 0 <= i < |ms| :: ms[i].key
    decreases |ms|
  {
    if ms != [] {
      InsertKeys(values[ms[0].key := ms[0].value], ms[1..]);
      assert forall i :: 0 < i < |ms| ==> ms[i] == ms[1..][i - 1];
      assert forall i :: 0 <= i < |ms| - 1 ==> ms[1..][i] == ms[i + 1];
    }
  }

  lemma {:induction false} InsertFinds(values: map<string, JsonValue>, ms: seq<Member>, i: nat)
    requires i < |ms| && DistinctKeys(ms)
    ensures ms[i].key in Insert(values, ms) && Insert(values, ms)[ms[i].key] == ms[i].value
    decreases |ms|
  {
    var values' := values[ms[0].key := ms[0].value];
    if i == 0 {
      InsertKeeps(values', ms[1..], ms[0].key);
    } else {
      InsertFinds(values', ms[1..], i - 1);
    }
  }

  /** Parser and printer are inverse on objects with distinct keys. */
  lemma ObjectRoundTrip(ms: seq<Member>)
    requires ms != [] && DistinctKeys(ms)
    ensures ParseObject(Encode(PrintObject(ms))) == Ok(Insert(map[], ms))
  {
    EncodeConcat("{", PrintMembers(ms));
    EncodeSingle('{');
    var b := Encode(PrintObject(ms));
    var inner := Encode(PrintMembers(ms));
    assert b == [123] + inner && b[1..] == inner;
    EncodeMembersHead(ms);
    assert SkipSpace(b) == b && SkipSpace(inner) == inner;
    MembersRoundTrip(ms, [], map[]);
    assert inner + [] == inner;
  }

  lemma EncodeMembersHead(ms: seq<Member>)
    requires ms != []
    ensures Encode(PrintMembers(ms)) != [] && Encode(PrintMembers(ms))[0] == QUOTE
  {
    var text := PrintMembers(ms);
    assert text[0] == '\"' by {
      assert Quoted(ms[0].key)[0] == '\"';
      assert PrintMember(ms[0])[0] == '\"';
    }
    assert EncodeChar('\"') == [QUOTE];
  }
}
