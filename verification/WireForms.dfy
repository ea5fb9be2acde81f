/** The printed lines of the protocol, word for word (src/protocol.rs, the request, acknowledgement and
    greeting printers). */
module WireForms {
  import opened Words
  import opened Numerals
  import opened Protocol

  /** Words, each behind a single space. */
  function Spaced(tokens: seq<string>): (r: string)
  {
    if tokens == [] then "" else " " + tokens[0] + Spaced(tokens[1..])
  }

  function InDecimal(numbers: seq<u64>): (r: seq<string>)
    ensures |r| == |numbers|
  {
    seq(|numbers|, i requires 0 <= i < |numbers| => Decimal(numbers[i]))
  }

  /** The message is sent as the version, these names and these numerals, then the checksum over the
      direction, the operation and the numbers, and a newline. */
  predicate SentAs(m: Message, names: seq<string>, numerals: seq<string>, checksum: u64)
  {
    Print(m) == "OSIA-R1R1/1" + Spaced(names + numerals + [Hex16(checksum)]) + "\n"
  }

  lemma {:induction false} JoinSpaced(tokens: seq<string>)
    requires tokens != []
    ensures Join(tokens) == tokens[0] + Spaced(tokens[1..])
  {
    if |tokens| > 1 {
      JoinSpaced(tokens[1..]);
    }
  }

  lemma Line(m: Message, names: seq<string>, numerals: seq<string>)
    requires Header(m) == [PROTOCOL_VERSION] + names && Numbers(m) == numerals
    ensures SentAs(m, names, numerals, MessageChecksum(m))
  {
    hide Hex16, MessageChecksum, Header, Numbers, Join, Spaced;
    var t := Tokens(m);
    JoinSpaced(t);
    assert t[1..] == names + numerals + [Hex16(MessageChecksum(m))];
  }

  lemma AllDecimal(m: Message)
    requires !CarriesDigest(m)
    ensures Numbers(m) == InDecimal(Fields(m))
  {
    hide Fields;
  }

  lemma HelloLine(instanceId: u64)
    ensures SentAs(Hello(instanceId), ["HELLO"], InDecimal([instanceId]), Checksum("HELLO", "INSTANCE", [instanceId]))
  {
    hide Hex16, Checksum, SentAs, Decimal;
    var m := Hello(instanceId);
    AllDecimal(m);
    Line(m, ["HELLO"], InDecimal([instanceId]));
  }

  lemma PlainLine(m: Message, direction: string, operation: string, numbers: seq<u64>)
    requires !m.Hello? && !CarriesDigest(m)
    requires Direction(m) == direction && Operation(m) == operation && Fields(m) == numbers
    ensures SentAs(m, [direction, operation], InDecimal(numbers), Checksum(direction, operation, numbers))
  {
    hide Hex16, Checksum, SentAs, Decimal, Direction, Operation, Fields;
    AllDecimal(m);
    Line(m, [direction, operation], InDecimal(numbers));
  }

  lemma DigestLine(m: Message, direction: string, before: seq<u64>, digest: u64, after: seq<u64>)
    requires CarriesDigest(m) && Direction(m) == direction && Operation(m) == "WORK"
    requires |before| == 3 && Fields(m) == before + [digest] + after
    ensures SentAs(m, [direction, "WORK"], InDecimal(before) + [Hex16(digest)] + InDecimal(after),
                   Checksum(direction, "WORK", before + [digest] + after))
  {
    hide Hex16, Checksum, SentAs, Decimal, Direction, Operation, Fields;
    var numerals := InDecimal(before) + [Hex16(digest)] + InDecimal(after);
    forall i | 0 <= i < |numerals|
      ensures numerals[i] == Numbers(m)[i]
    {
    }
    assert Numbers(m) == numerals;
    Line(m, [direction, "WORK"], numerals);
  }

  /** The four plain requests. */
  lemma RequestLines(id: u64, nonce: u64, units: u64)
    ensures SentAs(Request(Work(id, nonce, units)), ["REQUEST", "WORK"], InDecimal([id, nonce, units]),
                   Checksum("REQUEST", "WORK", [id, nonce, units]))
    ensures SentAs(Request(Rollback(id, nonce)), ["REQUEST", "ROLLBACK"], InDecimal([id, nonce]),
                   Checksum("REQUEST", "ROLLBACK", [id, nonce]))
    ensures SentAs(Request(Probe(id, nonce)), ["REQUEST", "PROBE"], InDecimal([id, nonce]),
                   Checksum("REQUEST", "PROBE", [id, nonce]))
    ensures SentAs(Request(Stop(id, nonce)), ["REQUEST", "STOP"], InDecimal([id, nonce]),
                   Checksum("REQUEST", "STOP", [id, nonce]))
  {
    hide Checksum, SentAs, InDecimal;
    PlainLine(Request(Work(id, nonce, units)), "REQUEST", "WORK", [id, nonce, units]);
    PlainLine(Request(Rollback(id, nonce)), "REQUEST", "ROLLBACK", [id, nonce]);
    PlainLine(Request(Probe(id, nonce)), "REQUEST", "PROBE", [id, nonce]);
    PlainLine(Request(Stop(id, nonce)), "REQUEST", "STOP", [id, nonce]);
  }

  /** The four plain acknowledgements. */
  lemma AckLines(id: u64, nonce: u64, actions: u64, digest: u64)
    ensures SentAs(Ack(WorkAck(id, nonce, actions, digest)), ["ACK", "WORK"],
                   InDecimal([id, nonce, actions]) + [Hex16(digest)], Checksum("ACK", "WORK", [id, nonce, actions, digest]))
    ensures SentAs(Ack(RollbackAck(id, nonce)), ["ACK", "ROLLBACK"], InDecimal([id, nonce]),
                   Checksum("ACK", "ROLLBACK", [id, nonce]))
    ensures SentAs(Ack(ProbeAck(id, nonce)), ["ACK", "PROBE"], InDecimal([id, nonce]), Checksum("ACK", "PROBE", [id, nonce]))
    ensures SentAs(Ack(StopAck(id, nonce)), ["ACK", "STOP"], InDecimal([id, nonce]), Checksum("ACK", "STOP", [id, nonce]))
  {
    hide Checksum, SentAs, Decimal, Hex16;
    var before := [id, nonce, actions];
    DigestLine(Ack(WorkAck(id, nonce, actions, digest)), "ACK", before, digest, []);
    assert InDecimal(before) + [Hex16(digest)] + InDecimal([]) == InDecimal(before) + [Hex16(digest)];
    assert before + [digest] + [] == [id, nonce, actions, digest];
    PlainLine(Ack(RollbackAck(id, nonce)), "ACK", "ROLLBACK", [id, nonce]);
    PlainLine(Ack(ProbeAck(id, nonce)), "ACK", "PROBE", [id, nonce]);
    PlainLine(Ack(StopAck(id, nonce)), "ACK", "STOP", [id, nonce]);
  }

  /** The seven numbers of an authority snapshot, in the order of the wire. */
  function Seven(a: AuthoritySnapshot): (r: seq<u64>)
    ensures |r| == 7
  {
    [a.bodyUid, a.epoch, a.generation, a.certificate, a.principalId, a.resourceId, a.actionId]
  }

  /** The four bound requests. */
  lemma BoundRequestLines(id: u64, nonce: u64, units: u64, a: AuthoritySnapshot)
    ensures SentAs(BoundRequest(Work(id, nonce, units), a), ["BOUND_REQUEST", "WORK"],
                   InDecimal([id, nonce, units] + Seven(a)), Checksum("BOUND_REQUEST", "WORK", [id, nonce, units] + Seven(a)))
    ensures SentAs(BoundRequest(Rollback(id, nonce), a), ["BOUND_REQUEST", "ROLLBACK"],
                   InDecimal([id, nonce] + Seven(a)), Checksum("BOUND_REQUEST", "ROLLBACK", [id, nonce] + Seven(a)))
    ensures SentAs(BoundRequest(Probe(id, nonce), a), ["BOUND_REQUEST", "PROBE"],
                   InDecimal([id, nonce] + Seven(a)), Checksum("BOUND_REQUEST", "PROBE", [id, nonce] + Seven(a)))
    ensures SentAs(BoundRequest(Stop(id, nonce), a), ["BOUND_REQUEST", "STOP"],
                   InDecimal([id, nonce] + Seven(a)), Checksum("BOUND_REQUEST", "STOP", [id, nonce] + Seven(a)))
  {
    hide Checksum, SentAs, InDecimal;
    PlainLine(BoundRequest(Work(id, nonce, units), a), "BOUND_REQUEST", "WORK", [id, nonce, units] + Seven(a));
    PlainLine(BoundRequest(Rollback(id, nonce), a), "BOUND_REQUEST", "ROLLBACK", [id, nonce] + Seven(a));
    PlainLine(BoundRequest(Probe(id, nonce), a), "BOUND_REQUEST", "PROBE", [id, nonce] + Seven(a));
    PlainLine(BoundRequest(Stop(id, nonce), a), "BOUND_REQUEST", "STOP", [id, nonce] + Seven(a));
  }

  /** The four bound acknowledgements. */
  lemma BoundAckLines(id: u64, nonce: u64, actions: u64, digest: u64, a: AuthoritySnapshot)
    ensures SentAs(BoundAck(WorkAck(id, nonce, actions, digest), a), ["BOUND_ACK", "WORK"],
                   InDecimal([id, nonce, actions]) + [Hex16(digest)] + InDecimal(Seven(a)),
                   Checksum("BOUND_ACK", "WORK", [id, nonce, actions] + [digest] + Seven(a)))
    ensures SentAs(BoundAck(RollbackAck(id, nonce), a), ["BOUND_ACK", "ROLLBACK"], InDecimal([id, nonce] + Seven(a)),
                   Checksum("BOUND_ACK", "ROLLBACK", [id, nonce] + Seven(a)))
    ensures SentAs(BoundAck(ProbeAck(id, nonce), a), ["BOUND_ACK", "PROBE"], InDecimal([id, nonce] + Seven(a)),
                   Checksum("BOUND_ACK", "PROBE", [id, nonce] + Seven(a)))
    ensures SentAs(BoundAck(StopAck(id, nonce), a), ["BOUND_ACK", "STOP"], InDecimal([id, nonce] + Seven(a)),
                   Checksum("BOUND_ACK", "STOP", [id, nonce] + Seven(a)))
  {
    hide Checksum, SentAs, Decimal, Hex16, InDecimal;
    assert [id, nonce, actions, digest] + Seven(a) == [id, nonce, actions] + [digest] + Seven(a);
    DigestLine(BoundAck(WorkAck(id, nonce, actions, digest), a), "BOUND_ACK", [id, nonce, actions], digest, Seven(a));
    PlainLine(BoundAck(RollbackAck(id, nonce), a), "BOUND_ACK", "ROLLBACK", [id, nonce] + Seven(a));
    PlainLine(BoundAck(ProbeAck(id, nonce), a), "BOUND_ACK", "PROBE", [id, nonce] + Seven(a));
    PlainLine(BoundAck(StopAck(id, nonce), a), "BOUND_ACK", "STOP", [id, nonce] + Seven(a));
  }
}
