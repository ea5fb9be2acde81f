/** Framing of the child's standard output (src/runtime.rs, `read_protocol_frame`, `child_reader`). */
module Frames {
  import opened Words
  import opened Utf8
  import opened Lines
  import opened Protocol
  import opened WireLanguage

  datatype Frame = NoFrame | Frame(text: string) | BadFrame

  /** The bytes of one read, at most two more than a full line. */
  function FrameWindow(s: seq<byte>): (r: seq<byte>)
    ensures r <= s
  {
    if |s| > MAX_PROTOCOL_LINE + 2 then s[..MAX_PROTOCOL_LINE + 2] else s
  }

  function FrameLength(s: seq<byte>): (n: nat)
    ensures n <= |s| && (s != [] ==> n > 0)
  {
    LineLength(FrameWindow(s))
  }

  /** One frame from the front of the stream. */
  function ReadFrame(s: seq<byte>): (r: Frame)
    ensures r.NoFrame? <==> s == []
  {
    if s == [] then NoFrame
    else
      var n := FrameLength(s);
      if n > MAX_PROTOCOL_LINE + 1 || s[n - 1] != LF then BadFrame
      else
        match Decode(s[..n - 1])
        case None => BadFrame
        case Some(text) => Frame(text)
  }

  datatype ReaderMessage = Line(text: string) | Eof | Error

  /** The messages the reader thread sends for a whole output stream. */
  function Received(s: seq<byte>): (r: seq<ReaderMessage>)
    ensures r != []
    decreases |s|
  {
    match ReadFrame(s)
    case NoFrame => [Eof]
    case BadFrame => [Error]
    case Frame(text) => [Line(text)] + Received(s[FrameLength(s)..])
  }

  method ReadProtocolFrame(s: seq<byte>, position: nat) returns (frame: Frame, end: nat)
    requires position <= |s|
    ensures frame == ReadFrame(s[position..]) && end == position + FrameLength(s[position..])
  {
    hide Decode, LineLength;
    var rest := s[position..];
    var window := FrameWindow(rest);
    var n := ReadLine(window, 0);
    assert window[0..] == window;
    end := position + n;
    if n == 0 {
      return NoFrame, end;
    }
    if n > MAX_PROTOCOL_LINE + 1 || window[n - 1] != LF {
      return BadFrame, end;
    }
    assert window[..n - 1] == rest[..n - 1];
    var text := Decode(window[..n - 1]);
    frame := match text case None => BadFrame case Some(t) => Frame(t);
  }

  method ChildReader(output: seq<byte>) returns (messages: seq<ReaderMessage>)
    ensures messages == Received(output)
  {
    hide ReadFrame, FrameLength;
    messages := [];
    var position := 0;
    while true
      invariant 0 <= position <= |output|
      invariant messages + Received(output[position..]) == Received(output)
      decreases |output| - position
    {
      var frame, end := ReadProtocolFrame(output, position);
      assert output[position..][end - position..] == output[end..];
      match frame
      case NoFrame =>
        return messages + [Eof];
      case BadFrame =>
        return messages + [Error];
      case Frame(text) =>
        assert messages + [Line(text)] + Received(output[end..]) == messages + ([Line(text)] + Received(output[end..]));
        messages := messages + [Line(text)];
        position := end;
    }
  }

  // ---------------------------------------------------------------------------------------------
  // Exactness
  // ---------------------------------------------------------------------------------------------

  /** The reader sends lines and then exactly one terminal message, so a second end-of-file
      notification never happens. */
  lemma {:induction false} OneTerminalMessage(s: seq<byte>)
    ensures var r := Received(s);
            r != [] && !r[|r| - 1].Line? && forall i :: 0 <= i < |r| - 1 ==> r[i].Line?
    decreases |s|
  {
    hide ReadFrame, FrameLength;
    if ReadFrame(s).Frame? {
      assert FrameLength(s) > 0;
      OneTerminalMessage(s[FrameLength(s)..]);
    }
  }

  /** The bytes of lines sent one after the other. */
  function Framed(lines: seq<string>): (r: seq<byte>)
  {
    if lines == [] then [] else Encode(lines[0]) + [LF] + Framed(lines[1..])
  }

  function AsMessages(lines: seq<string>): (r: seq<ReaderMessage>)
    ensures |r| == |lines|
  {
    seq(|lines|, i requires 0 <= i < |lines| => Line(lines[i]))
  }

  predicate FitsFrame(line: string)
  {
    '\n' !in line && |Encode(line)| <= MAX_PROTOCOL_LINE
  }

  lemma FrameBytes(s: seq<byte>)
    requires ReadFrame(s).Frame?
    ensures FitsFrame(ReadFrame(s).text)
    ensures s == Encode(ReadFrame(s).text) + [LF] + s[FrameLength(s)..]
  {
    hide Encode, Decode, LineLength;
    var n, text := FrameLength(s), ReadFrame(s).text;
    EncodeDecode(s[..n - 1]);
    assert s[..n] == s[..n - 1] + [LF];
    assert s == s[..n] + s[n..];
    if '\n' in text {
      NewlineIsEncoded(text);
      assert false;
    }
  }

  lemma {:induction false} NewlineIsEncoded(text: string)
    requires '\n' in text
    ensures LF in Encode(text)
  {
    if text[0] == '\n' {
      assert EncodeChar('\n') == [LF];
      assert Encode(text)[0] == LF;
    } else {
      NewlineIsEncoded(text[1..]);
    }
  }

  lemma FrameOfLine(line: string, rest: seq<byte>)
    requires FitsFrame(line)
    ensures var s := Encode(line) + [LF] + rest;
            ReadFrame(s) == Frame(line) && FrameLength(s) == |Encode(line)| + 1 && s[FrameLength(s)..] == rest
  {
    hide Encode, Decode, LineLength;
    var b := Encode(line);
    var s, n := b + [LF] + rest, |b| + 1;
    forall i | 0 <= i < |b|
      ensures b[i] != LF
    {
      if b[i] == LF {
        AsciiByteInEncoding(line, LF);
        assert false;
      }
    }
    LineLengthIs(FrameWindow(s), n);
    assert s[..n - 1] == b;
    DecodeEncode(line);
  }

  /** The reader delivers some lines and then a clean end of file exactly when the output was these
      lines, byte for byte, each closed by a newline and within the limit. */
  lemma {:induction false} ReceivedExactly(s: seq<byte>, lines: seq<string>)
    ensures Received(s) == AsMessages(lines) + [Eof]
            <==> s == Framed(lines) && forall i :: 0 <= i < |lines| ==> FitsFrame(lines[i])
    decreases |lines|
  {
    hide ReadFrame, FrameLength, FitsFrame, Encode;
    if lines == [] {
      assert AsMessages(lines) + [Eof] == [Eof];
      if s != [] {
        assert Received(s)[0] != Eof;
      }
    } else {
      assert AsMessages(lines) == [Line(lines[0])] + AsMessages(lines[1..]);
      var expected := AsMessages(lines) + [Eof];
      assert expected[0] == Line(lines[0]) && expected[1..] == AsMessages(lines[1..]) + [Eof];
      if Received(s) == expected {
        assert ReadFrame(s) == Frame(lines[0]);
        FrameBytes(s);
        var rest := s[FrameLength(s)..];
        assert Received(rest) == Received(s)[1..];
        ReceivedExactly(rest, lines[1..]);
      }
      if s == Framed(lines) && forall i :: 0 <= i < |lines| ==> FitsFrame(lines[i]) {
        FrameOfLine(lines[0], Framed(lines[1..]));
        ReceivedExactly(Framed(lines[1..]), lines[1..]);
        assert Received(s) == [Line(lines[0])] + Received(Framed(lines[1..]));
      }
    }
  }

  /** A line within the limit, its newline included, stands at the front. */
  ghost predicate BeginsWithLine(s: seq<byte>)
  {
    exists line, rest :: FitsFrame(line) && s == Encode(line) + [LF] + rest
  }

  lemma FrameExactly(s: seq<byte>)
    ensures ReadFrame(s).Frame? <==> BeginsWithLine(s)
    ensures ReadFrame(s).BadFrame? <==> s != [] && !BeginsWithLine(s)
  {
    hide FitsFrame, Encode, ReadFrame, FrameLength;
    if ReadFrame(s).Frame? {
      FrameBytes(s);
    }
    if line, rest :| FitsFrame(line) && s == Encode(line) + [LF] + rest {
      FrameOfLine(line, rest);
    }
  }

  /** What follows the lines does not begin with one, and is not the end. */
  ghost predicate BreaksOff(s: seq<byte>, lines: seq<string>, bad: seq<byte>)
  {
    && s == Framed(lines) + bad && bad != [] && !BeginsWithLine(bad)
    && forall i :: 0 <= i < |lines| ==> FitsFrame(lines[i])
  }

  /** The reader delivers some lines and then an error exactly when the output was these lines and then
      bytes that are no line: too long, without a newline, or not UTF-8. */
  lemma {:induction false} ReceivedUpTo(s: seq<byte>, lines: seq<string>)
    ensures Received(s) == AsMessages(lines) + [Error] <==> exists bad :: BreaksOff(s, lines, bad)
    decreases |lines|
  {
    hide ReadFrame, FrameLength, FitsFrame, Encode, BeginsWithLine;
    FrameExactly(s);
    if lines == [] {
      assert AsMessages(lines) + [Error] == [Error];
      if Received(s) == [Error] {
        FirstMessage(s);
        assert Framed(lines) + s == s;
        assert BreaksOff(s, lines, s);
      }
      if bad :| BreaksOff(s, lines, bad) {
        assert Framed(lines) + bad == bad;
      }
    } else {
      assert AsMessages(lines) == [Line(lines[0])] + AsMessages(lines[1..]);
      var expected := AsMessages(lines) + [Error];
      assert expected[0] == Line(lines[0]) && expected[1..] == AsMessages(lines[1..]) + [Error];
      if Received(s) == expected {
        BreaksLater(s, lines);
      }
      if bad :| BreaksOff(s, lines, bad) {
        BrokeLater(s, lines, bad);
      }
    }
  }

  lemma FirstMessage(s: seq<byte>)
    ensures Received(s)[0].Line? <==> ReadFrame(s).Frame?
    ensures Received(s)[0].Error? <==> ReadFrame(s).BadFrame?
  {
    hide ReadFrame, FrameLength;
  }

  lemma BreaksLater(s: seq<byte>, lines: seq<string>)
    requires lines != [] && Received(s) == AsMessages(lines) + [Error]
    ensures exists bad :: BreaksOff(s, lines, bad)
    decreases |lines|, 0
  {
    hide ReadFrame, FrameLength, FitsFrame, Encode, BeginsWithLine;
    var expected := AsMessages(lines) + [Error];
    assert expected[0] == Line(lines[0]);
    assert ReadFrame(s) == Frame(lines[0]);
    FrameBytes(s);
    var rest := s[FrameLength(s)..];
    assert Received(rest) == Received(s)[1..];
    assert expected[1..] == AsMessages(lines[1..]) + [Error];
    ReceivedUpTo(rest, lines[1..]);
    var bad :| BreaksOff(rest, lines[1..], bad);
    assert s == Framed(lines) + bad;
    assert forall i :: 0 < i < |lines| ==> lines[i] == lines[1..][i - 1];
    assert BreaksOff(s, lines, bad);
  }

  lemma BrokeLater(s: seq<byte>, lines: seq<string>, bad: seq<byte>)
    requires lines != [] && BreaksOff(s, lines, bad)
    ensures Received(s) == AsMessages(lines) + [Error]
    decreases |lines|, 0
  {
    hide ReadFrame, FrameLength, FitsFrame, Encode, BeginsWithLine;
    var rest := Framed(lines[1..]) + bad;
    assert s == Encode(lines[0]) + [LF] + rest;
    FrameOfLine(lines[0], rest);
    assert BreaksOff(rest, lines[1..], bad);
    ReceivedUpTo(rest, lines[1..]);
    assert Received(s) == [Line(lines[0])] + Received(rest);
    assert AsMessages(lines) == [Line(lines[0])] + AsMessages(lines[1..]);
    assert [Line(lines[0])] + (AsMessages(lines[1..]) + [Error]) == AsMessages(lines) + [Error];
  }

  /** So any concatenation of printed messages is read back in order. */
  lemma MessagesAreFramed(messages: seq<Message>)
    ensures var lines := seq(|messages|, i requires 0 <= i < |messages| => Text(messages[i]));
            Received(Framed(lines)) == AsMessages(lines) + [Eof]
  {
    hide Text, Received, Framed, Encode;
    var lines := seq(|messages|, i requires 0 <= i < |messages| => Text(messages[i]));
    forall i | 0 <= i < |lines|
      ensures FitsFrame(lines[i])
    {
      MessageFits(messages[i]);
    }
    ReceivedExactly(Framed(lines), lines);
  }
}
