/** The flat JSON dialect of ledger lines (src/ledger.rs): the printer's string escaping, the parser
    as a specification on the unread bytes, and their round trip. Strings and numbers are a strict
    subset of sections 7 and 6 of RFC 8259. */
module Json {
  import opened Words
  import opened Utf8
  import opened Numerals

  datatype JsonValue = JNull | JBool(flag: bool) | JNumber(number: u64) | JString(text: string)

  const QUOTE: byte := 34
  const BACKSLASH: byte := 92

  // ---------------------------------------------------------------------------------------------
  // Printing
  // ---------------------------------------------------------------------------------------------

  /** `char::is_control`: the Unicode category Cc. */
  predicate IsControl(c: char)
  {
    c as int < 0x20 || 0x7f <= c as int < 0xa0
  }

  predicate IsEscaped(c: char)
  {
    IsControl(c) || c == '\"' || c == '\\'
  }

  /** The characters after the backslash. */
  function EscapeTail(c: char): (r: string)
    requires IsEscaped(c)
    ensures 1 <= |r| <= 5
  {
    if c == '\"' then "\""
    else if c == '\\' then "\\"
    else if c == '\n' then "n"
    else if c == '\r' then "r"
    else if c == '\t' then "t"
    else if c as int == 8 then "b"
    else if c as int == 12 then "f"
    else "u" + Hex(c as int, 4)
  }

  function EscapeChar(c: char): (r: string)
    ensures 1 <= |r| <= 6
  {
    if IsEscaped(c) then "\\" + EscapeTail(c) else [c]
  }

  function Escape(s: string): (r: string)
  {
    if s == [] then "" else EscapeChar(s[0]) + Escape(s[1..])
  }

  method EscapeJson(value: string) returns (out: string)
    ensures out == Escape(value)
  {
    out := "";
    for i := 0 to |value|
      invariant out + Escape(value[i..]) == Escape(value)
    {
      assert value[i..][1..] == value[i + 1..];
      out := out + EscapeChar(value[i]);
    }
  }

  function Quoted(s: string): (r: string)
  {
    "\"" + Escape(s) + "\""
  }

  function PrintValue(v: JsonValue): (r: string)
  {
    match v
    case JNull => "null"
    case JBool(flag) => if flag then "true" else "false"
    case JNumber(n) => Decimal(n)
    case JString(s) => Quoted(s)
  }

  datatype Member = Member(key: string, value: JsonValue)

  function PrintMember(m: Member): (r: string)
  {
    Quoted(m.key) + ":" + PrintValue(m.value)
  }

  /** A non-empty list of members, comma separated and closed by the brace. */
  function PrintMembers(ms: seq<Member>): (r: string)
    requires ms != []
  {
    if |ms| == 1 then PrintMember(ms[0]) + "}" else PrintMember(ms[0]) + "," + PrintMembers(ms[1..])
  }

  function PrintObject(ms: seq<Member>): (r: string)
    requires ms != []
  {
    "{" + PrintMembers(ms)
  }

  // ---------------------------------------------------------------------------------------------
  // Parsing: each function takes the unread bytes and returns a value and what is left
  // ---------------------------------------------------------------------------------------------

  predicate IsJsonSpace(b: byte)
  {
    b == 32 || b == 9 || b == 13 || b == 10
  }

  predicate IsDigitByte(b: byte)
  {
    48 <= b < 58
  }

  function SkipSpace(s: seq<byte>): (r: seq<byte>)
    ensures |r| <= |s|
  {
    if s != [] && IsJsonSpace(s[0]) then SkipSpace(s[1..]) else s
  }

  /** Exactly four hexadecimal digits of either case. */
  function ParseHexU16(s: seq<byte>): (r: Result<(nat, seq<byte>)>)
    ensures r.Ok? ==> |r.value.1| <= |s| && r.value.0 < 0x1_0000
  {
    if |s| < 4 then Err
    else
      var a, b, c, d := HexValue(s[0] as char), HexValue(s[1] as char), HexValue(s[2] as char), HexValue(s[3] as char);
      if a.None? || b.None? || c.None? || d.None? then Err
      else Ok((a.value * 0x1000 + b.value * 0x100 + c.value * 0x10 + d.value, s[4..]))
  }

  /** After `\u`: one scalar value, possibly as a surrogate pair. */
  function ParseUnicodeEscape(s: seq<byte>): (r: Result<(char, seq<byte>)>)
    ensures r.Ok? ==> |r.value.1| <= |s|
  {
    match ParseHexU16(s)
    case Err => Err
    case Ok((first, rest)) =>
      if 0xd800 <= first < 0xdc00 then
        if |rest| < 2 || rest[0] != BACKSLASH || rest[1] != 117 then Err
        else
          (match ParseHexU16(rest[2..])
           case Err => Err
           case Ok((second, rest')) =>
             if !(0xdc00 <= second < 0xe000) then Err
             else Ok(((0x1_0000 + (first - 0xd800) * 0x400 + (second - 0xdc00)) as char, rest')))
      else if 0xdc00 <= first < 0xe000 then Err
      else Ok((first as char, rest))
  }

  /** After the backslash. */
  function ParseEscape(s: seq<byte>): (r: Result<(char, seq<byte>)>)
    ensures r.Ok? ==> |r.value.1| < |s|
  {
    if s == [] then Err
    else if s[0] == QUOTE then Ok(('\"', s[1..]))
    else if s[0] == BACKSLASH then Ok(('\\', s[1..]))
    else if s[0] == 47 then Ok(('/', s[1..]))
    else if s[0] == 98 then Ok((8 as char, s[1..]))
    else if s[0] == 102 then Ok((12 as char, s[1..]))
    else if s[0] == 110 then Ok(('\n', s[1..]))
    else if s[0] == 114 then Ok(('\r', s[1..]))
    else if s[0] == 116 then Ok(('\t', s[1..]))
    else if s[0] == 117 then ParseUnicodeEscape(s[1..])
    else Err
  }

  /** `push_utf8_chunk`: decoded raw bytes join the output. */
  function Flush(chunk: seq<byte>, out: string): (r: Result<string>)
  {
    match Decode(chunk) case None => Err case Some(t) => Ok(out + t)
  }

  /** At a backslash in `s[0]`: flush the raw chunk, then append the character of the escape. */
  function FlushAndEscape(chunk: seq<byte>, s: seq<byte>, out: string): (r: Result<(string, seq<byte>)>)
    requires s != []
    ensures r.Ok? ==> |r.value.1| < |s|
  {
    match Flush(chunk, out)
    case Err => Err
    case Ok(flushed) =>
      match ParseEscape(s[1..])
      case Err => Err
      case Ok((c, rest)) => Ok((flushed + [c], rest))
  }

  /** The rest of a string; `chunk` holds the raw bytes read since the last escape and `out` what was
      decoded before them. */
  function ParseStringBody(chunk: seq<byte>, s: seq<byte>, out: string): (r: Result<(string, seq<byte>)>)
    ensures r.Ok? ==> |r.value.1| < |s|
    decreases |s|
  {
    if s == [] then Err
    else if s[0] == QUOTE then
      (match Flush(chunk, out) case Err => Err case Ok(t) => Ok((t, s[1..])))
    else if s[0] == BACKSLASH then
      (match FlushAndEscape(chunk, s, out) case Err => Err case Ok((t, rest)) => ParseStringBody([], rest, t))
    else if s[0] < 0x20 then Err
    else ParseStringBody(chunk + [s[0]], s[1..], out)
  }

  function ParseString(s: seq<byte>): (r: Result<(string, seq<byte>)>)
    ensures r.Ok? ==> |r.value.1| < |s|
  {
    if s == [] || s[0] != QUOTE then Err else ParseStringBody([], s[1..], "")
  }

  /** The length of the leading run of digits. */
  function DigitRun(s: seq<byte>): (n: nat)
    ensures n <= |s|
    ensures forall i :: 0 <= i < n ==> IsDigitByte(s[i])
    ensures n < |s| ==> !IsDigitByte(s[n])
  {
    if s == [] || !IsDigitByte(s[0]) then 0 else 1 + DigitRun(s[1..])
  }

  /** Called at a digit. */
  function ParseNumber(s: seq<byte>): (r: Result<(u64, seq<byte>)>)
    ensures r.Ok? ==> |r.value.1| <= |s|
  {
    var run := DigitRun(s);
    if run > 1 && s[0] == 48 then Err
    else
      match Decode(s[..run])
      case None => Err
      case Some(text) => match ParseU64(text) case Err => Err case Ok(n) => Ok((n, s[run..]))
  }

  const TRUE_BYTES: seq<byte> := [116, 114, 117, 101]
  const FALSE_BYTES: seq<byte> := [102, 97, 108, 115, 101]
  const NULL_BYTES: seq<byte> := [110, 117, 108, 108]

  function ParseValue(s: seq<byte>): (r: Result<(JsonValue, seq<byte>)>)
    ensures r.Ok? ==> |r.value.1| <= |s|
  {
    if s == [] then Err
    else if s[0] == QUOTE then
      (match ParseString(s) case Err => Err case Ok((t, rest)) => Ok((JString(t), rest)))
    else if TRUE_BYTES <= s then Ok((JBool(true), s[4..]))
    else if FALSE_BYTES <= s then Ok((JBool(false), s[5..]))
    else if NULL_BYTES <= s then Ok((JNull, s[4..]))
    else if IsDigitByte(s[0]) then
      (match ParseNumber(s) case Err => Err case Ok((n, rest)) => Ok((JNumber(n), rest)))
    else Err
  }

  /** The value of one member: a key not seen before, a colon, a value, and the byte that follows. */
  function ParseMember(s: seq<byte>, values: map<string, JsonValue>)
    : (r: Result<(map<string, JsonValue>, seq<byte>)>)
    ensures r.Ok? ==> |r.value.1| < |s|
  {
    match ParseString(SkipSpace(s))
    case Err => Err
    case Ok((key, rest)) =>
      var colon := SkipSpace(rest);
      if key in values || colon == [] || colon[0] != 58 then Err
      else
        match ParseValue(SkipSpace(colon[1..]))
        case Err => Err
        case Ok((v, rest')) => Ok((values[key := v], SkipSpace(rest')))
  }

  function ParseMembers(s: seq<byte>, values: map<string, JsonValue>)
    : (r: Result<(map<string, JsonValue>, seq<byte>)>)
    ensures r.Ok? ==> |r.value.1| < |s|
    decreases |s|
  {
    match ParseMember(s, values)
    case Err => Err
    case Ok((values', rest)) =>
      if rest != [] && rest[0] == 125 then Ok((values', rest[1..]))
      else if rest != [] && rest[0] == 44 then ParseMembers(rest[1..], values')
      else Err
  }

  function ParseObject(s: seq<byte>): (r: Result<map<string, JsonValue>>)
  {
    var open := SkipSpace(s);
    if open == [] || open[0] != 123 then Err
    else
      var inner := SkipSpace(open[1..]);
      if inner != [] && inner[0] == 125 then Err
      else
        match ParseMembers(inner, map[])
        case Err => Err
        case Ok((values, rest)) => if SkipSpace(rest) == [] then Ok(values) else Err
  }
}
