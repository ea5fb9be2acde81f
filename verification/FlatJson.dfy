/** The cursor parser of src/ledger.rs: every method advances `position` exactly as its specification
    on the unread bytes says. After a failure the parser is dropped, so only its result counts. */
module FlatJson {
  import opened Words
  import opened Utf8
  import opened Numerals
  import J = Json

  class FlatJsonParser {
    const bytes: seq<byte>
    var position: nat

    ghost predicate Valid()
      reads this
    {
      position <= |bytes|
    }

    /** The unread bytes. */
    ghost function Rest(): (r: seq<byte>)
      requires Valid()
      reads this
    {
      bytes[position..]
    }

    /** `result` and the new cursor are what `spec` says. */
    ghost predicate Follows<T(!new)>(result: Result<T>, spec: Result<(T, seq<byte>)>)
      reads this
    {
      && Valid()
      && (match spec
          case Err => result.Err?
          case Ok((v, rest)) => result == Ok(v) && Rest() == rest)
    }

    constructor (input: string)
      ensures Valid() && position == 0 && bytes == Encode(input)
    {
      bytes := Encode(input);
      position := 0;
    }

    method ParseObject() returns (r: Result<map<string, J.JsonValue>>)
      requires Valid() && position == 0
      modifies this`position
      ensures r == J.ParseObject(bytes)
    {
      assert Rest() == bytes;
      SkipWhitespace();
      var open := NextByte();
      if open != Some(123) {
        return Err;
      }
      SkipWhitespace();
      var empty := ConsumeByte(125);
      if empty {
        return Err;
      }
      ghost var inner := Rest();
      var values: map<string, J.JsonValue> := map[];
      var done := false;
      while !done
        invariant Valid()
        invariant J.ParseMembers(inner, map[])
                  == if done then Ok((values, Rest())) else J.ParseMembers(Rest(), values)
        decreases |bytes| - position, !done
      {
        var more := ParseMember(values);
        if more.Err? {
          return Err;
        }
        values := more.value;
        done := ConsumeByte(125);
        if !done {
          var comma := NextByte();
          if comma != Some(44) {
            return Err;
          }
        }
      }
      SkipWhitespace();
      if position != |bytes| {
        return Err;
      }
      return Ok(values);
    }

    /** One turn of the object loop: a fresh key, a colon and a value, with spaces around them. */
    method ParseMember(values: map<string, J.JsonValue>) returns (r: Result<map<string, J.JsonValue>>)
      requires Valid()
      modifies this`position
      ensures Follows(r, J.ParseMember(old(Rest()), values)) && old(position) <= position
    {
      SkipWhitespace();
      var key := ParseString();
      if key.Err? || key.value in values {
        return Err;
      }
      SkipWhitespace();
      var colon := NextByte();
      if colon != Some(58) {
        return Err;
      }
      SkipWhitespace();
      var value := ParseValue();
      if value.Err? {
        return Err;
      }
      SkipWhitespace();
      return Ok(values[key.value := value.value]);
    }

    method ParseValue() returns (r: Result<J.JsonValue>)
      requires Valid()
      modifies this`position
      ensures Follows(r, J.ParseValue(old(Rest()))) && old(position) <= position
    {
      var b := PeekByte();
      if b == Some(34) {
        var s := ParseString();
        return match s case Err => Err case Ok(t) => Ok(J.JString(t));
      }
      var isTrue := ConsumeLiteral(J.TRUE_BYTES);
      if isTrue {
        return Ok(J.JBool(true));
      }
      var isFalse := ConsumeLiteral(J.FALSE_BYTES);
      if isFalse {
        return Ok(J.JBool(false));
      }
      var isNull := ConsumeLiteral(J.NULL_BYTES);
      if isNull {
        return Ok(J.JNull);
      }
      if b.Some? && J.IsDigitByte(b.value) {
        var n := ParseNumber();
        return match n case Err => Err case Ok(v) => Ok(J.JNumber(v));
      }
      return Err;
    }

    method ParseNumber() returns (r: Result<u64>)
      requires Valid() && position < |bytes| && J.IsDigitByte(bytes[position])
      modifies this`position
      ensures Follows(r, J.ParseNumber(old(Rest()))) && old(position) <= position
    {
      hide Decode, ParseU64, J.DigitRun;
      var start := position;
      if bytes[position] == 48 {
        position := position + 1;
        if position < |bytes| && J.IsDigitByte(bytes[position]) {
          DigitRunIs(bytes[start..], 1);
          return Err;
        }
      } else {
        while position < |bytes| && J.IsDigitByte(bytes[position])
          invariant start <= position <= |bytes|
          invariant forall i :: start <= i < position ==> J.IsDigitByte(bytes[i])
        {
          position := position + 1;
        }
      }
      ghost var s, n := bytes[start..], position - start;
      DigitRunIs(s, n);
      Slices(bytes, start, position);
      var text := Decode(bytes[start..position]);
      if text.None? {
        return Err;
      }
      return ParseU64(text.value);
    }

    method ParseString() returns (r: Result<string>)
      requires Valid()
      modifies this`position
      ensures Follows(r, J.ParseString(old(Rest()))) && old(position) <= position
      ensures r.Ok? ==> old(position) < position
    {
      var open := NextByte();
      if open != Some(34) {
        return Err;
      }
      assert bytes[position..position] == [];
      r := ParseStringBody();
    }

    method ParseStringBody() returns (r: Result<string>)
      requires Valid()
      modifies this`position
      ensures Follows(r, J.ParseStringBody(old(bytes[position..position]), old(bytes[position..]), ""))
      ensures old(position) <= position
    {
      hide J.Flush, J.FlushAndEscape;
      ghost var spec := J.ParseStringBody(bytes[position..position], bytes[position..], "");
      var out := "";
      var chunkStart := position;
      while true
        invariant old(position) <= chunkStart <= position <= |bytes|
        invariant spec == J.ParseStringBody(bytes[chunkStart..position], bytes[position..], out)
        decreases |bytes| - position
      {
        var next := PeekByte();
        if next.None? {
          return Err;
        }
        if next == Some(34) {
          r := PushUtf8Chunk(out, chunkStart, position);
          position := position + 1;
          return r;
        } else if next == Some(92) {
          var flushed := FlushAndEscape(out, chunkStart);
          if flushed.Err? {
            return Err;
          }
          out := flushed.value;
          chunkStart := position;
          assert bytes[chunkStart..position] == [];
        } else if next.value < 0x20 {
          return Err;
        } else {
          BodyPlain(bytes, chunkStart, position, out);
          position := position + 1;
        }
      }
    }

    /** At a backslash: the raw chunk goes to the output, then the character the escape stands for. */
    method FlushAndEscape(out: string, chunkStart: nat) returns (r: Result<string>)
      requires Valid() && chunkStart <= position < |bytes|
      modifies this`position
      ensures Follows(r, J.FlushAndEscape(bytes[chunkStart..old(position)], old(bytes[position..]), out))
      ensures old(position) < position
    {
      assert bytes[position..][1..] == bytes[position + 1..];
      var flushed := PushUtf8Chunk(out, chunkStart, position);
      position := position + 1;
      if flushed.Err? {
        return Err;
      }
      var c := ParseEscape();
      return match c case Err => Err case Ok(ch) => Ok(flushed.value + [ch]);
    }

    method PushUtf8Chunk(out: string, start: nat, end: nat) returns (r: Result<string>)
      requires start <= end <= |bytes|
      ensures r == J.Flush(bytes[start..end], out)
    {
      var chunk := Decode(bytes[start..end]);
      return match chunk case None => Err case Some(t) => Ok(out + t);
    }

    /** The byte after a backslash and what it announces. */
    method ParseEscape() returns (r: Result<char>)
      requires Valid()
      modifies this`position
      ensures Follows(r, J.ParseEscape(old(Rest()))) && old(position) <= position
    {
      var escaped := NextByte();
      if escaped.None? {
        return Err;
      }
      match escaped.value
      case 34 => return Ok('\"');
      case 92 => return Ok('\\');
      case 47 => return Ok('/');
      case 98 => return Ok(8 as char);
      case 102 => return Ok(12 as char);
      case 110 => return Ok('\n');
      case 114 => return Ok('\r');
      case 116 => return Ok('\t');
      case 117 =>
        r := ParseUnicodeEscape();
      case _ => return Err;
    }

    method ParseUnicodeEscape() returns (r: Result<char>)
      requires Valid()
      modifies this`position
      ensures Follows(r, J.ParseUnicodeEscape(old(Rest()))) && old(position) <= position
    {
      var first := ParseHexU16();
      if first.Err? {
        return Err;
      }
      if 0xd800 <= first.value < 0xdc00 {
        var backslash := NextByte();
        if backslash != Some(92) {
          return Err;
        }
        var u := NextByte();
        if u != Some(117) {
          return Err;
        }
        var second := ParseHexU16();
        if second.Err? || !(0xdc00 <= second.value < 0xe000) {
          return Err;
        }
        return Ok((0x1_0000 + (first.value - 0xd800) * 0x400 + (second.value - 0xdc00)) as char);
      } else if 0xdc00 <= first.value < 0xe000 {
        return Err;
      } else {
        return Ok(first.value as char);
      }
    }

    method ParseHexU16() returns (r: Result<nat>)
      requires Valid()
      modifies this`position
      ensures Follows(r, J.ParseHexU16(old(Rest()))) && old(position) <= position
      ensures r.Ok? ==> r.value < 0x1_0000
    {
      ghost var s := Rest();
      var value: nat := 0;
      for k := 0 to 4
        invariant position == old(position) + k <= |bytes|
        invariant forall i :: 0 <= i < k ==> HexValue(s[i] as char).Some?
        invariant k == 1 ==> value == HexValue(s[0] as char).value
        invariant k == 2 ==> value == HexValue(s[0] as char).value * 0x10 + HexValue(s[1] as char).value
        invariant k == 3 ==> value == HexValue(s[0] as char).value * 0x100 + HexValue(s[1] as char).value * 0x10
                                      + HexValue(s[2] as char).value
        invariant k == 4 ==> value == HexValue(s[0] as char).value * 0x1000 + HexValue(s[1] as char).value * 0x100
                                      + HexValue(s[2] as char).value * 0x10 + HexValue(s[3] as char).value
        invariant k == 0 ==> value == 0
      {
        var b := NextByte();
        if b.None? {
          return Err;
        }
        assert b.value == s[k];
        var digit := HexValue(b.value as char);
        if digit.None? {
          return Err;
        }
        value := value * 0x10 + digit.value;
      }
      return Ok(value);
    }

    method SkipWhitespace()
      requires Valid()
      modifies this`position
      ensures Valid() && Rest() == J.SkipSpace(old(Rest())) && old(position) <= position
    {
      while position < |bytes| && J.IsJsonSpace(bytes[position])
        invariant old(position) <= position <= |bytes|
        invariant J.SkipSpace(Rest()) == J.SkipSpace(old(Rest()))
      {
        assert Rest()[1..] == bytes[position + 1..];
        position := position + 1;
      }
    }

    method ConsumeLiteral(literal: seq<byte>) returns (consumed: bool)
      requires Valid()
      modifies this`position
      ensures Valid() && consumed == (literal <= old(Rest()))
      ensures Rest() == if consumed then old(Rest())[|literal|..] else old(Rest())
      ensures old(position) <= position
    {
      if position + |literal| <= |bytes| && bytes[position..position + |literal|] == literal {
        assert literal <= Rest();
        position := position + |literal|;
        return true;
      }
      return false;
    }

    method ConsumeByte(expected: byte) returns (consumed: bool)
      requires Valid()
      modifies this`position
      ensures Valid() && consumed == (old(Rest()) != [] && old(Rest())[0] == expected)
      ensures Rest() == if consumed then old(Rest())[1..] else old(Rest())
      ensures position == if consumed then old(position) + 1 else old(position)
    {
      var b := PeekByte();
      consumed := b == Some(expected);
      if consumed {
        position := position + 1;
      }
    }

    method PeekByte() returns (b: Option<byte>)
      requires Valid()
      ensures b == if Rest() == [] then None else Some(Rest()[0])
    {
      return if position < |bytes| then Some(bytes[position]) else None;
    }

    method NextByte() returns (b: Option<byte>)
      requires Valid()
      modifies this`position
      ensures Valid()
      ensures b == if old(Rest()) == [] then None else Some(old(Rest())[0])
      ensures Rest() == if b.None? then [] else old(Rest())[1..]
      ensures position == if b.None? then old(position) else old(position) + 1
    {
      b := PeekByte();
      if b.Some? {
        position := position + 1;
      }
    }
  }

  lemma Slices(s: seq<byte>, i: nat, j: nat)
    requires i <= j <= |s|
    ensures s[i..][..j - i] == s[i..j] && s[i..][j - i..] == s[j..]
  {
  }

  lemma BodyPlain(s: seq<byte>, i: nat, j: nat, out: string)
    requires i <= j < |s| && s[j] >= 0x20 && s[j] != J.QUOTE && s[j] != J.BACKSLASH
    ensures J.ParseStringBody(s[i..j], s[j..], out) == J.ParseStringBody(s[i..j + 1], s[j + 1..], out)
  {
    assert s[i..j] + [s[j]] == s[i..j + 1] && s[j..][1..] == s[j + 1..];
  }

  lemma {:induction false} DigitRunIs(s: seq<byte>, n: nat)
    requires n <= |s|
    requires forall i :: 0 <= i < n ==> J.IsDigitByte(s[i])
    ensures n < |s| && J.IsDigitByte(s[n]) ==> J.DigitRun(s) > n
    ensures n == |s| || !J.IsDigitByte(s[n]) ==> J.DigitRun(s) == n
  {
    if n > 0 {
      DigitRunIs(s[1..], n - 1);
    }
  }
}
