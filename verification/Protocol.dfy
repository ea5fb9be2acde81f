/** The child wire protocol (src/protocol.rs): printers, checksums, strict parsers and acknowledgement
    validators, plain and authority-bound. */
module Protocol {
  import opened Words
  import opened Utf8
  import opened Numerals
  import Authority
  import Fnv

  const PROTOCOL_VERSION := "OSIA-R1R1/1"

  datatype ChildRequest =
    | Work(id: u64, nonce: u64, units: u64)
    | Rollback(id: u64, nonce: u64)
    | Probe(id: u64, nonce: u64)
    | Stop(id: u64, nonce: u64)

  datatype ExpectedAck =
    | WorkAck(id: u64, nonce: u64, actions: u64, digest: u64)
    | RollbackAck(id: u64, nonce: u64)
    | ProbeAck(id: u64, nonce: u64)
    | StopAck(id: u64, nonce: u64)

  datatype AuthoritySnapshot = AuthoritySnapshot(
    bodyUid: u64, epoch: u64, generation: u64, certificate: u64, principalId: u64, resourceId: u64, actionId: u64)

  /** Every line the two sides exchange. */
  datatype Message =
    | Hello(instanceId: u64)
    | Request(request: ChildRequest)
    | Ack(ack: ExpectedAck)
    | BoundRequest(request: ChildRequest, authority: AuthoritySnapshot)
    | BoundAck(ack: ExpectedAck, authority: AuthoritySnapshot)

  // ---------------------------------------------------------------------------------------------
  // Checksums
  // ---------------------------------------------------------------------------------------------

  function AsciiBytes(s: string): seq<byte>
  {
    Encode(s)
  }

  function SegmentHash(hash: u64, bytes: seq<byte>): (r: u64)
  {
    Fnv.Hash(bytes, Fnv.Hash(LittleEndian(|bytes|, 8), hash))
  }

  function FieldsHash(hash: u64, fields: seq<u64>): (r: u64)
    decreases |fields|
  {
    if fields == [] then hash else FieldsHash(Fnv.Hash(LittleEndian(fields[0], 8), hash), fields[1..])
  }

  function Checksum(direction: string, operation: string, fields: seq<u64>): (r: u64)
  {
    var version := SegmentHash(Fnv.FNV_OFFSET, AsciiBytes(PROTOCOL_VERSION));
    var named := SegmentHash(SegmentHash(version, AsciiBytes(direction)), AsciiBytes(operation));
    FieldsHash(Fnv.Hash(LittleEndian(|fields|, 8), named), fields)
  }

  method FnvSegment(seed: u64, bytes: seq<byte>) returns (hash: u64)
    ensures hash == SegmentHash(seed, bytes)
  {
    hash := Fnv.Fnv1a(LittleEndian(|bytes|, 8), seed);
    hash := Fnv.Fnv1a(bytes, hash);
  }

  method ProtocolChecksum(direction: string, operation: string, fields: seq<u64>) returns (hash: u64)
    ensures hash == Checksum(direction, operation, fields)
  {
    hash := Fnv.FNV_OFFSET;
    hash := FnvSegment(hash, AsciiBytes(PROTOCOL_VERSION));
    hash := FnvSegment(hash, AsciiBytes(direction));
    hash := FnvSegment(hash, AsciiBytes(operation));
    hash := Fnv.Fnv1a(LittleEndian(|fields|, 8), hash);
    for i := 0 to |fields|
      invariant FieldsHash(hash, fields[i..]) == Checksum(direction, operation, fields)
    {
      assert fields[i..][1..] == fields[i + 1..];
      hash := Fnv.Fnv1a(LittleEndian(fields[i], 8), hash);
    }
  }

  // ---------------------------------------------------------------------------------------------
  // Printing
  // ---------------------------------------------------------------------------------------------

  function Direction(m: Message): string
  {
    match m
    case Hello(_) => "HELLO"
    case Request(_) => "REQUEST"
    case Ack(_) => "ACK"
    case BoundRequest(_, _) => "BOUND_REQUEST"
    case BoundAck(_, _) => "BOUND_ACK"
  }

  function RequestOperation(r: ChildRequest): string
  {
    match r
    case Work(_, _, _) => "WORK"
    case Rollback(_, _) => "ROLLBACK"
    case Probe(_, _) => "PROBE"
    case Stop(_, _) => "STOP"
  }

  function AckOperation(a: ExpectedAck): string
  {
    match a
    case WorkAck(_, _, _, _) => "WORK"
    case RollbackAck(_, _) => "ROLLBACK"
    case ProbeAck(_, _) => "PROBE"
    case StopAck(_, _) => "STOP"
  }

  function Operation(m: Message): string
  {
    match m
    case Hello(_) => "INSTANCE"
    case Request(r) => RequestOperation(r)
    case BoundRequest(r, _) => RequestOperation(r)
    case Ack(a) => AckOperation(a)
    case BoundAck(a, _) => AckOperation(a)
  }

  function RequestFields(r: ChildRequest): seq<u64>
  {
    if r.Work? then [r.id, r.nonce, r.units] else [r.id, r.nonce]
  }

  function AckFields(a: ExpectedAck): seq<u64>
  {
    if a.WorkAck? then [a.id, a.nonce, a.actions, a.digest] else [a.id, a.nonce]
  }

  function AuthorityFields(a: AuthoritySnapshot): (r: seq<u64>)
    ensures |r| == 7
  {
    [a.bodyUid, a.epoch, a.generation, a.certificate, a.principalId, a.resourceId, a.actionId]
  }

  /** The numbers a message carries, which its checksum covers. */
  function Fields(m: Message): seq<u64>
  {
    match m
    case Hello(instanceId) => [instanceId]
    case Request(r) => RequestFields(r)
    case Ack(a) => AckFields(a)
    case BoundRequest(r, authority) => RequestFields(r) + AuthorityFields(authority)
    case BoundAck(a, authority) => AckFields(a) + AuthorityFields(authority)
  }

  predicate CarriesDigest(m: Message)
  {
    (m.Ack? || m.BoundAck?) && m.ack.WorkAck?
  }

  /** Numbers are decimal, only a work digest is sixteen hexadecimal digits. */
  function NumberToken(n: u64, hexadecimal: bool): string
  {
    if hexadecimal then Hex16(n) else Decimal(n)
  }

  function Header(m: Message): (r: seq<string>)
    ensures r != []
  {
    if m.Hello? then [PROTOCOL_VERSION, Direction(m)] else [PROTOCOL_VERSION, Direction(m), Operation(m)]
  }

  function Numbers(m: Message): (r: seq<string>)
    ensures |r| == |Fields(m)|
  {
    seq(|Fields(m)|, i requires 0 <= i < |Fields(m)| => NumberToken(Fields(m)[i], i == 3 && CarriesDigest(m)))
  }

  function MessageChecksum(m: Message): u64
  {
    Checksum(Direction(m), Operation(m), Fields(m))
  }

  function Tokens(m: Message): (r: seq<string>)
    ensures r != []
  {
    Header(m) + Numbers(m) + [Hex16(MessageChecksum(m))]
  }

  function Join(tokens: seq<string>): string
  {
    if tokens == [] then "" else if |tokens| == 1 then tokens[0] else tokens[0] + " " + Join(tokens[1..])
  }

  /** A message without its newline, and the line as sent. */
  function Text(m: Message): string
  {
    Join(Tokens(m))
  }

  function Print(m: Message): string
  {
    Text(m) + "\n"
  }

  // ---------------------------------------------------------------------------------------------
  // Parsing
  // ---------------------------------------------------------------------------------------------

  /** `char::is_whitespace`: the Unicode property White_Space. */
  predicate IsWhitespace(c: char)
  {
    var n := c as int;
    || 9 <= n <= 13 || n == 32 || n == 0x85 || n == 0xa0 || n == 0x1680 || 0x2000 <= n <= 0x200a
    || n == 0x2028 || n == 0x2029 || n == 0x202f || n == 0x205f || n == 0x3000
  }

  function TokenLength(s: string): (n: nat)
    ensures n <= |s|
    ensures forall i :: 0 <= i < n ==> !IsWhitespace(s[i])
    ensures n < |s| ==> IsWhitespace(s[n])
  {
    if s == [] || IsWhitespace(s[0]) then 0 else 1 + TokenLength(s[1..])
  }

  function SplitWhitespace(s: string): (r: seq<string>)
    decreases |s|
  {
    if s == [] then []
    else if IsWhitespace(s[0]) then SplitWhitespace(s[1..])
    else var n := TokenLength(s); [s[..n]] + SplitWhitespace(s[n..])
  }

  function ExactTokens(line: string, count: nat): (r: Result<seq<string>>)
    ensures r.Ok? ==> |r.value| == count
  {
    var tokens := SplitWhitespace(line);
    if |tokens| != count || Join(tokens) != line then Err else Ok(tokens)
  }

  function ParseCanonicalU64(token: string): (r: Result<u64>)
  {
    if token == "" || !AllDigits(token) then Err
    else
      var n :- ParseU64(token);
      if Decimal(n) != token then Err else Ok(n)
  }

  function TrimEndNewlines(s: string): (r: string)
  {
    if s != "" && s[|s| - 1] == '\n' then TrimEndNewlines(s[..|s| - 1]) else s
  }

  function AuthorityFromTokens(t: seq<string>): (r: Result<AuthoritySnapshot>)
    requires |t| >= 7
  {
    var bodyUid :- ParseCanonicalU64(t[0]);
    var epoch :- ParseCanonicalU64(t[1]);
    var generation :- ParseCanonicalU64(t[2]);
    var certificate :- ParseCanonicalU64(t[3]);
    var principalId :- ParseCanonicalU64(t[4]);
    var resourceId :- ParseCanonicalU64(t[5]);
    var actionId :- ParseCanonicalU64(t[6]);
    Ok(AuthoritySnapshot(bodyUid, epoch, generation, certificate, principalId, resourceId, actionId))
  }

  predicate InBounds(r: ChildRequest)
  {
    r.Work? ==> 1 <= r.units <= Authority.MAX_WORK_UNITS
  }

  /** The request named by the operation in `t[2]`, with its numbers from `t[3]` on. */
  function RequestFromTokens(t: seq<string>): (r: Result<ChildRequest>)
    requires |t| >= 5 && (t[2] == "WORK" ==> |t| >= 6)
  {
    var id :- ParseCanonicalU64(t[3]);
    var nonce :- ParseCanonicalU64(t[4]);
    if t[2] == "WORK" then
      var units :- ParseCanonicalU64(t[5]);
      if InBounds(Work(id, nonce, units)) then Ok(Work(id, nonce, units)) else Err
    else if t[2] == "ROLLBACK" then Ok(Rollback(id, nonce))
    else if t[2] == "PROBE" then Ok(Probe(id, nonce))
    else Ok(Stop(id, nonce))
  }

  predicate KnownOperation(s: string)
  {
    s == "WORK" || s == "ROLLBACK" || s == "PROBE" || s == "STOP"
  }

  /** The first three tokens name the version, the direction and a known operation. */
  predicate PrefixIs(line: string, direction: string)
  {
    var t := SplitWhitespace(line);
    |t| >= 3 && t[0] == PROTOCOL_VERSION && t[1] == direction && KnownOperation(t[2])
  }

  function ParseRequest(line: string): (r: Result<ChildRequest>)
  {
    if !PrefixIs(line, "REQUEST") then Err
    else
      var t :- ExactTokens(line, if SplitWhitespace(line)[2] == "WORK" then 7 else 6);
      var request :- RequestFromTokens(t);
      if TrimEndNewlines(Print(Request(request))) != line then Err else Ok(request)
  }

  function ParseBoundRequest(line: string): (r: Result<(ChildRequest, AuthoritySnapshot)>)
  {
    if !PrefixIs(line, "BOUND_REQUEST") then Err
    else
      var work := SplitWhitespace(line)[2] == "WORK";
      var t :- ExactTokens(line, if work then 14 else 13);
      var request :- RequestFromTokens(t);
      var authority :- AuthorityFromTokens(if work then t[6..] else t[5..]);
      if TrimEndNewlines(Print(BoundRequest(request, authority))) != line then Err else Ok((request, authority))
  }

  predicate ValidateAck(line: string, expected: ExpectedAck)
  {
    line == TrimEndNewlines(Print(Ack(expected)))
  }

  predicate ValidateBoundAck(line: string, expected: ExpectedAck, authority: AuthoritySnapshot)
  {
    line == TrimEndNewlines(Print(BoundAck(expected, authority)))
  }

  predicate ValidateHello(line: string, instanceId: u64)
  {
    line == TrimEndNewlines(Print(Hello(instanceId)))
  }
}
