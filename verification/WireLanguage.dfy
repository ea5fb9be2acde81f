/** The wire language: what the strict parsers accept, and that no line has two meanings. */
module WireLanguage {
  import opened Words
  import opened Utf8
  import opened Numerals
  import opened Protocol

  // ---------------------------------------------------------------------------------------------
  // Tokens
  // ---------------------------------------------------------------------------------------------

  /** A token has characters and none of them is a space, a newline or beyond ASCII. */
  predicate IsToken(s: string)
  {
    s != "" && Ascii(s) && forall i :: 0 <= i < |s| ==> !IsWhitespace(s[i])
  }

  predicate AllTokens(t: seq<string>)
  {
    forall i :: 0 <= i < |t| ==> IsToken(t[i])
  }

  lemma {:induction false} TokenLengthIs(token: string, rest: string)
    requires forall i :: 0 <= i < |token| ==> !IsWhitespace(token[i])
    requires rest == "" || IsWhitespace(rest[0])
    ensures TokenLength(token + rest) == |token|
  {
    if token == "" {
      assert token + rest == rest;
    } else {
      assert (token + rest)[1..] == token[1..] + rest;
      TokenLengthIs(token[1..], rest);
    }
  }

  /** Splitting undoes joining. */
  lemma {:induction false} SplitJoin(t: seq<string>)
    requires AllTokens(t)
    ensures SplitWhitespace(Join(t)) == t
  {
    if t != [] {
      assert IsToken(t[0]);
      var rest := if |t| == 1 then "" else " " + Join(t[1..]);
      assert Join(t) == t[0] + rest;
      TokenLengthIs(t[0], rest);
      assert (t[0] + rest)[..|t[0]|] == t[0] && (t[0] + rest)[|t[0]|..] == rest;
      assert SplitWhitespace(Join(t)) == [t[0]] + SplitWhitespace(rest);
      if |t| == 1 {
        assert t == [t[0]];
      } else {
        SplitJoin(t[1..]);
        assert rest[1..] == Join(t[1..]);
        assert t == [t[0]] + t[1..];
      }
    }
  }

  lemma DigitsAreToken(s: string)
    requires s != "" && (AllDigits(s) || AllLowerHex(s))
    ensures IsToken(s)
  {
  }

  lemma NumberIsToken(n: u64, hexadecimal: bool)
    ensures IsToken(NumberToken(n, hexadecimal)) && |NumberToken(n, hexadecimal)| <= 20
  {
    DecimalRoundTrip(n);
    DecimalLengthU64(n);
    Hex16Shape(n);
    DigitsAreToken(NumberToken(n, hexadecimal));
  }

  lemma DirectionToken(m: Message)
    ensures IsToken(Direction(m)) && |Direction(m)| <= 20
  {
  }

  lemma OperationToken(m: Message)
    ensures IsToken(Operation(m)) && |Operation(m)| <= 20
  {
  }

  lemma HeaderTokens(m: Message)
    ensures AllTokens(Header(m)) && forall i :: 0 <= i < |Header(m)| ==> |Header(m)[i]| <= 20
  {
    hide Direction, Operation;
    assert IsToken(PROTOCOL_VERSION);
    DirectionToken(m);
    OperationToken(m);
  }

  lemma MessageTokens(m: Message)
    ensures AllTokens(Tokens(m))
    ensures forall i :: 0 <= i < |Tokens(m)| ==> |Tokens(m)[i]| <= 20
    ensures |Tokens(m)| == |Header(m)| + |Fields(m)| + 1 <= 15
  {
    hide NumberToken, Hex16, MessageChecksum;
    HeaderTokens(m);
    forall i | 0 <= i < |Fields(m)|
      ensures IsToken(Numbers(m)[i]) && |Numbers(m)[i]| <= 20
    {
      NumberIsToken(Fields(m)[i], i == 3 && CarriesDigest(m));
    }
    ChecksumIsToken(m);
  }

  lemma ChecksumIsToken(m: Message)
    ensures IsToken(Hex16(MessageChecksum(m)))
  {
    hide Hex16, MessageChecksum;
    Hex16Shape(MessageChecksum(m));
    DigitsAreToken(Hex16(MessageChecksum(m)));
  }

  /** The tokens of a printed message are the tokens it was printed from. */
  lemma SplitText(m: Message)
    ensures SplitWhitespace(Text(m)) == Tokens(m)
  {
    hide Tokens;
    MessageTokens(m);
    SplitJoin(Tokens(m));
  }

  lemma {:induction false} JoinEnds(t: seq<string>)
    requires t != [] && AllTokens(t)
    ensures Join(t) != "" && Join(t)[|Join(t)| - 1] != '\n'
  {
    assert IsToken(t[0]);
    if |t| > 1 {
      JoinEnds(t[1..]);
    } else {
      var c := t[0][|t[0]| - 1];
      assert !IsWhitespace(c);
    }
  }

  /** Trimming takes off exactly the newline that printing put on. */
  lemma TrimPrinted(m: Message)
    ensures TrimEndNewlines(Print(m)) == Text(m)
  {
    hide Tokens;
    MessageTokens(m);
    JoinEnds(Tokens(m));
    assert Print(m)[..|Print(m)| - 1] == Text(m);
  }

  lemma LineIsText(line: string, m: Message)
    requires line + "\n" == Print(m)
    ensures line == Text(m)
  {
    hide Text;
    assert (line + "\n")[..|line|] == line && Print(m)[..|Print(m)| - 1] == Text(m);
  }

  // ---------------------------------------------------------------------------------------------
  // Parsers
  // ---------------------------------------------------------------------------------------------

  /** Canonical decimal: exactly the printed form. */
  lemma ParseCanonicalExact(token: string, n: u64)
    ensures ParseCanonicalU64(token) == Ok(n) <==> token == Decimal(n)
  {
    DecimalRoundTrip(n);
    ParseU64OfDecimal(n);
  }

  lemma NumbersParse(m: Message)
    ensures forall i :: 0 <= i < |Fields(m)| && !(i == 3 && CarriesDigest(m))
                        ==> ParseCanonicalU64(Numbers(m)[i]) == Ok(Fields(m)[i])
  {
    hide ParseCanonicalU64;
    forall i | 0 <= i < |Fields(m)| && !(i == 3 && CarriesDigest(m))
      ensures ParseCanonicalU64(Numbers(m)[i]) == Ok(Fields(m)[i])
    {
      ParseCanonicalExact(Numbers(m)[i], Fields(m)[i]);
    }
  }

  /** The tokens after the header are the numbers of the message. */
  lemma TokenNumbers(m: Message)
    requires m.Request? || m.BoundRequest?
    ensures |Header(m)| == 3 && Tokens(m)[0] == PROTOCOL_VERSION
    ensures Tokens(m)[1] == Direction(m) && Tokens(m)[2] == Operation(m)
    ensures forall i :: 0 <= i < |Fields(m)| ==> ParseCanonicalU64(Tokens(m)[3 + i]) == Ok(Fields(m)[i])
  {
    hide ParseCanonicalU64, Numbers, Hex16, Fields, MessageChecksum, Direction, Operation;
    NumbersParse(m);
    NoDigest(m);
    assert |Header(m)| == 3;
    forall i | 0 <= i < |Fields(m)|
      ensures ParseCanonicalU64(Tokens(m)[3 + i]) == Ok(Fields(m)[i])
    {
      assert Tokens(m)[3 + i] == (Header(m) + Numbers(m))[3 + i] == Numbers(m)[i];
    }
  }

  lemma NoDigest(m: Message)
    requires m.Request? || m.BoundRequest?
    ensures !CarriesDigest(m)
  {
  }

  lemma RequestParses(m: Message)
    requires (m.Request? || m.BoundRequest?) && InBounds(m.request)
    ensures |Tokens(m)| >= 6 && (m.request.Work? ==> |Tokens(m)| >= 7)
    ensures RequestFromTokens(Tokens(m)) == Ok(m.request)
  {
    hide ParseCanonicalU64, Tokens;
    MessageTokens(m);
    TokenNumbers(m);
    var t := Tokens(m);
    assert ParseCanonicalU64(t[3 + 0]) == Ok(Fields(m)[0]) && ParseCanonicalU64(t[3 + 1]) == Ok(Fields(m)[1]);
    if m.request.Work? {
      assert ParseCanonicalU64(t[3 + 2]) == Ok(Fields(m)[2]);
    }
  }

  lemma AuthorityParses(m: Message)
    requires m.BoundRequest?
    ensures |Tokens(m)| == if m.request.Work? then 14 else 13
    ensures AuthorityFromTokens(if m.request.Work? then Tokens(m)[6..] else Tokens(m)[5..]) == Ok(m.authority)
  {
    hide ParseCanonicalU64, Tokens;
    MessageTokens(m);
    TokenNumbers(m);
    var t, n := Tokens(m), |RequestFields(m.request)|;
    forall i | 0 <= i < 7
      ensures ParseCanonicalU64(t[3 + n + i]) == Ok(AuthorityFields(m.authority)[i])
    {
      assert Fields(m)[n + i] == AuthorityFields(m.authority)[i];
      assert t[3 + n + i] == t[3 + (n + i)];
    }
    var a := t[3 + n..];
    forall i | 0 <= i < 7
      ensures ParseCanonicalU64(a[i]) == Ok(AuthorityFields(m.authority)[i])
    {
      assert a[i] == t[3 + n + i];
    }
    assert a == if m.request.Work? then t[6..] else t[5..];
    SevenNumbers(a, m.authority);
  }

  lemma SevenNumbers(a: seq<string>, authority: AuthoritySnapshot)
    requires |a| >= 7
    requires forall i :: 0 <= i < 7 ==> ParseCanonicalU64(a[i]) == Ok(AuthorityFields(authority)[i])
    ensures AuthorityFromTokens(a) == Ok(authority)
  {
    hide ParseCanonicalU64;
    assert ParseCanonicalU64(a[0]) == Ok(authority.bodyUid) && ParseCanonicalU64(a[1]) == Ok(authority.epoch);
    assert ParseCanonicalU64(a[2]) == Ok(authority.generation) && ParseCanonicalU64(a[3]) == Ok(authority.certificate);
    assert ParseCanonicalU64(a[4]) == Ok(authority.principalId) && ParseCanonicalU64(a[5]) == Ok(authority.resourceId);
    assert ParseCanonicalU64(a[6]) == Ok(authority.actionId);
  }

  /** Wire language, plain form: a line is accepted as a request exactly when it is the printed form
      of that request, in bounds, without its newline. */
  lemma RequestLanguage(line: string, r: ChildRequest)
    ensures ParseRequest(line) == Ok(r) <==> InBounds(r) && line + "\n" == Print(Request(r))
  {
    hide Tokens, SplitWhitespace, TrimEndNewlines, RequestFromTokens, Join;
    var m := Request(r);
    TrimPrinted(m);
    if InBounds(r) && line + "\n" == Print(m) {
      assert line == (line + "\n")[..|line|] == Print(m)[..|Text(m)|] == Text(m);
      SplitText(m);
      RequestParses(m);
      TokenNumbers(m);
      MessageTokens(m);
    }
    if ParseRequest(line) == Ok(r) {
      RequestFromTokensInBounds(SplitWhitespace(line));
    }
  }

  lemma RequestFromTokensInBounds(t: seq<string>)
    requires |t| >= 5 && (t[2] == "WORK" ==> |t| >= 6) && RequestFromTokens(t).Ok?
    ensures InBounds(RequestFromTokens(t).value)
  {
    hide ParseCanonicalU64;
  }

  /** Wire language, authority-bound form. */
  lemma BoundRequestLanguage(line: string, r: ChildRequest, a: AuthoritySnapshot)
    ensures ParseBoundRequest(line) == Ok((r, a)) <==> InBounds(r) && line + "\n" == Print(BoundRequest(r, a))
  {
    hide Tokens, SplitWhitespace, TrimEndNewlines, RequestFromTokens, AuthorityFromTokens, Join;
    var m := BoundRequest(r, a);
    TrimPrinted(m);
    if InBounds(r) && line + "\n" == Print(m) {
      assert line == (line + "\n")[..|line|] == Print(m)[..|Text(m)|] == Text(m);
      SplitText(m);
      RequestParses(m);
      AuthorityParses(m);
      TokenNumbers(m);
    }
    if ParseBoundRequest(line) == Ok((r, a)) {
      RequestFromTokensInBounds(SplitWhitespace(line));
    }
  }

  // ---------------------------------------------------------------------------------------------
  // No line has two meanings
  // ---------------------------------------------------------------------------------------------

  lemma HeaderDetermines(m: Message, n: Message)
    requires |Tokens(m)| == |Tokens(n)| && Tokens(m)[0] == Tokens(n)[0] && Tokens(m)[1] == Tokens(n)[1]
    requires !m.Hello? && !n.Hello? ==> Tokens(m)[2] == Tokens(n)[2]
    ensures Header(m) == Header(n) && |Fields(m)| == |Fields(n)| && CarriesDigest(m) == CarriesDigest(n)
    ensures m.Hello? == n.Hello? && m.Request? == n.Request? && m.Ack? == n.Ack?
    ensures m.BoundRequest? == n.BoundRequest? && m.BoundAck? == n.BoundAck?
    ensures Operation(m) == Operation(n)
  {
    hide Numbers, Hex16, Fields, MessageChecksum;
    assert Direction(m) == Direction(n);
    DirectionDetermines(m, n);
    FieldCount(m);
    FieldCount(n);
  }

  lemma DirectionDetermines(m: Message, n: Message)
    requires Direction(m) == Direction(n)
    ensures m.Hello? == n.Hello? && m.Request? == n.Request? && m.Ack? == n.Ack?
    ensures m.BoundRequest? == n.BoundRequest? && m.BoundAck? == n.BoundAck?
  {
  }

  lemma FieldCount(m: Message)
    ensures |Tokens(m)| == |Header(m)| + |Fields(m)| + 1
    ensures CarriesDigest(m) <==> (m.Ack? || m.BoundAck?) && Operation(m) == "WORK"
  {
    hide Header, Numbers, Hex16, Fields, MessageChecksum;
  }

  lemma NumberTokenInjective(a: u64, b: u64, hexadecimal: bool)
    requires NumberToken(a, hexadecimal) == NumberToken(b, hexadecimal)
    ensures a == b
  {
    DecimalRoundTrip(a);
    DecimalRoundTrip(b);
    ParseHashTextExact(Hex16(a), a);
    ParseHashTextExact(Hex16(b), b);
  }

  lemma FieldsDetermine(m: Message, n: Message)
    requires Fields(m) == Fields(n) && Operation(m) == Operation(n)
    requires m.Hello? == n.Hello? && m.Request? == n.Request? && m.Ack? == n.Ack?
    requires m.BoundRequest? == n.BoundRequest? && m.BoundAck? == n.BoundAck?
    ensures m == n
  {
    var f, g := Fields(m), Fields(n);
    match m
    case Hello(_) =>
      assert f[0] == g[0];
    case Request(r) =>
      SameRequest(r, n.request);
    case Ack(a) =>
      SameAck(a, n.ack);
    case BoundRequest(r, a) =>
      var k := |RequestFields(r)|;
      assert k == |RequestFields(n.request)|;
      assert f[..k] == RequestFields(r) && g[..k] == RequestFields(n.request);
      assert f[k..] == AuthorityFields(a) && g[k..] == AuthorityFields(n.authority);
      SameRequest(r, n.request);
      SameAuthority(a, n.authority);
    case BoundAck(c, a) =>
      var k := |AckFields(c)|;
      assert k == |AckFields(n.ack)|;
      assert f[..k] == AckFields(c) && g[..k] == AckFields(n.ack);
      assert f[k..] == AuthorityFields(a) && g[k..] == AuthorityFields(n.authority);
      SameAck(c, n.ack);
      SameAuthority(a, n.authority);
  }

  lemma SameRequest(r: ChildRequest, s: ChildRequest)
    requires RequestOperation(r) == RequestOperation(s) && RequestFields(r) == RequestFields(s)
    ensures r == s
  {
    var f, g := RequestFields(r), RequestFields(s);
    assert f[0] == g[0] && f[1] == g[1];
    if r.Work? {
      assert s.Work? && f[2] == g[2];
    }
  }

  lemma SameAck(a: ExpectedAck, b: ExpectedAck)
    requires AckOperation(a) == AckOperation(b) && AckFields(a) == AckFields(b)
    ensures a == b
  {
    var f, g := AckFields(a), AckFields(b);
    assert f[0] == g[0] && f[1] == g[1];
    if a.WorkAck? {
      assert b.WorkAck? && f[2] == g[2] && f[3] == g[3];
    }
  }

  lemma SameAuthority(a: AuthoritySnapshot, b: AuthoritySnapshot)
    requires AuthorityFields(a) == AuthorityFields(b)
    ensures a == b
  {
    var f, g := AuthorityFields(a), AuthorityFields(b);
    assert f[0] == g[0] && f[1] == g[1] && f[2] == g[2] && f[3] == g[3];
    assert f[4] == g[4] && f[5] == g[5] && f[6] == g[6];
  }

  /** All printers together are injective: no line is the form of two different messages, of one kind
      or of two. */
  lemma PrintInjective(m: Message, n: Message)
    requires Print(m) == Print(n)
    ensures m == n
  {
    hide Tokens, SplitWhitespace, Join, Header, Operation, Direction, Fields;
    assert Text(m) == Print(m)[..|Print(m)| - 1] == Print(n)[..|Print(n)| - 1] == Text(n);
    SplitText(m);
    SplitText(n);
    TokensInjective(m, n);
  }

  lemma TokensInjective(m: Message, n: Message)
    requires Tokens(m) == Tokens(n)
    ensures m == n
  {
    hide NumberToken, Hex16, MessageChecksum, Operation, Direction, Fields;
    MessageTokens(m);
    MessageTokens(n);
    HeaderDetermines(m, n);
    var k := |Header(m)|;
    forall i | 0 <= i < |Fields(m)|
      ensures Fields(m)[i] == Fields(n)[i]
    {
      assert Numbers(m)[i] == Tokens(m)[k + i] == Tokens(n)[k + i] == Numbers(n)[i];
      NumberTokenInjective(Fields(m)[i], Fields(n)[i], i == 3 && CarriesDigest(m));
    }
    assert Fields(m) == Fields(n);
    FieldsDetermine(m, n);
  }

  /** An acknowledgement line validates for one expectation only. So with the nonce growing from one
      transaction to the next, no acknowledgement of one validates for another. */
  lemma AckValidatesOnce(line: string, a: ExpectedAck, aa: AuthoritySnapshot, b: ExpectedAck, bb: AuthoritySnapshot)
    requires ValidateBoundAck(line, a, aa) && ValidateBoundAck(line, b, bb)
    ensures a == b && aa == bb
  {
    hide Tokens, Join, TrimEndNewlines;
    TrimPrinted(BoundAck(a, aa));
    TrimPrinted(BoundAck(b, bb));
    PrintInjective(BoundAck(a, aa), BoundAck(b, bb));
  }

  /** The same for plain acknowledgements, and no line validates in both forms. */
  lemma PlainAckValidatesOnce(line: string, a: ExpectedAck, b: ExpectedAck, c: ExpectedAck, cc: AuthoritySnapshot)
    requires ValidateAck(line, a)
    ensures ValidateAck(line, b) ==> a == b
    ensures !ValidateBoundAck(line, c, cc)
  {
    hide Tokens, Join, TrimEndNewlines;
    TrimPrinted(Ack(a));
    TrimPrinted(Ack(b));
    TrimPrinted(BoundAck(c, cc));
    if ValidateAck(line, b) {
      PrintInjective(Ack(a), Ack(b));
    }
    if ValidateBoundAck(line, c, cc) {
      PrintInjective(Ack(a), BoundAck(c, cc));
      assert false;
    }
  }

  // ---------------------------------------------------------------------------------------------
  // Sizes
  // ---------------------------------------------------------------------------------------------

  lemma {:induction false} JoinSize(t: seq<string>)
    requires AllTokens(t) && forall i :: 0 <= i < |t| ==> |t[i]| <= 20
    ensures |Join(t)| <= 21 * |t| && Ascii(Join(t))
    ensures forall i :: 0 <= i < |Join(t)| ==> Join(t)[i] != '\n'
  {
    if t != [] {
      assert IsToken(t[0]);
      JoinSize(t[1..]);
      forall i | 0 <= i < |t[0]|
        ensures t[0][i] != '\n'
      {
        assert !IsWhitespace(t[0][i]);
      }
    }
  }

  const MAX_PROTOCOL_LINE: nat := 1_024

  /** Every message is one ASCII line within the frame limit of the reader. */
  lemma MessageFits(m: Message)
    ensures Ascii(Text(m)) && |Encode(Text(m))| <= 315 <= MAX_PROTOCOL_LINE
    ensures forall i :: 0 <= i < |Text(m)| ==> Text(m)[i] != '\n'
  {
    hide Tokens, Join;
    MessageTokens(m);
    JoinSize(Tokens(m));
    EncodeAscii(Text(m));
  }
}
