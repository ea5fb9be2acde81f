/** The closed system makes progress: with no fault, an admissible event always succeeds against the
    honest child. */
module Progress {
  import opened Words
  import opened Utf8
  import opened Numerals
  import opened Authority
  import opened LedgerEntries
  import opened LedgerWriter
  import opened Frames
  import opened RuntimeSpec
  import opened RuntimeEffects
  import opened RuntimeInvariant
  import opened RuntimeRuns
  import WireLanguage
  import P = Protocol
  import Workload

  /** The ledger is far from the last sequence number. */
  predicate Roomy(s: Rt)
  {
    |s.log| + 200 <= 0xffff_ffff_ffff_ffff
  }

  /** What a scheduler must avoid: a fault, a clock at the end of its range, and BEGIN while one is
      pending, which the runtime treats as an error. */
  predicate Admissible(s: Rt, ev: Event)
  {
    && Roomy(s)
    && (!ev.Begin? ==> ev.env.fault.NoFault? && ev.env.now + DEFAULT_LEASE_NS <= 0xffff_ffff_ffff_ffff)
    && (ev.Begin? ==> !s.transaction.pending)
  }

  lemma {:induction false} ThreeNames(names: seq<string>, a: string, b: string, c: string)
    requires a != b && a != c && b != c
    ensures Occurrences(names, a) + Occurrences(names, b) + Occurrences(names, c) <= |names|
  {
    if names != [] {
      ThreeNames(names[..|names| - 1], a, b, c);
    }
  }

  /** No counter can outgrow the ledger. */
  predicate Small(s: Rt)
  {
    var m, n := s.metrics, |s.log| + 100;
    && s.nonce <= n && s.actionCounter <= n && m.childActions <= n && m.allowedCommits <= n && m.rollbacks <= n
    && s.body.epoch <= n && s.body.generation <= n && s.body.certificate <= n
  }

  lemma GoodIsSmall(s: Rt)
    requires Good(s)
    ensures Small(s)
  {
    hide Authoritative, Numbered, Paired, OpenLog, Occurrences;
    ThreeNames(Names(s.log), "COMMIT", "QUARANTINE", "FUNCTIONAL_FRESHNESS_PROBE_ACCEPTED");
  }

  lemma ShortNames(e: AuditEvent)
    requires !e.ProbeRejected? && !e.ProbeRequest? && !e.ProbeAccepted?
    ensures |e.Name()| <= 21
  {
  }

  lemma ProbeNames()
    ensures |"FUNCTIONAL_FRESHNESS_PROBE_REJECTED"| == |"FUNCTIONAL_FRESHNESS_PROBE_ACCEPTED"| == 35
    ensures |"FUNCTIONAL_FRESHNESS_PROBE_REQUEST"| == 34
    ensures Ascii("FUNCTIONAL_FRESHNESS_PROBE_REJECTED") && Ascii("FUNCTIONAL_FRESHNESS_PROBE_ACCEPTED")
    ensures Ascii("FUNCTIONAL_FRESHNESS_PROBE_REQUEST")
  {
  }

  lemma NameFits(e: AuditEvent)
    ensures |Encode(e.Name())| <= MAX_EVENT_BYTES
  {
    hide Encode, Ascii;
    if e.ProbeRejected? || e.ProbeRequest? || e.ProbeAccepted? {
      ProbeNames();
      EncodeAscii(e.Name());
    } else {
      ShortNames(e);
      hide AuditEvent.Name;
      EncodeLength(e.Name());
    }
  }

  lemma AckDetailLength(id: u64, nonce: u64, actions: u64, digest: u64)
    ensures |AckDetail(id, nonce, actions, digest)| <= 200
  {
    hide Decimal, Hex16;
    DecimalLengthU64(id);
    DecimalLengthU64(nonce);
    DecimalLengthU64(actions);
  }

  lemma DecisionNameLength(d: Decision)
    ensures |d.Name()| <= 200
  {
  }

  lemma ProbeRequestDetailLength()
    ensures |ProbeRequest.Detail()| <= 200
  {
  }

  lemma ProbeAcceptedDetailLength()
    ensures |ProbeAccepted.Detail()| <= 200
  {
  }

  lemma LeaseDetailLength(e: AuditEvent)
    requires e.LeaseInstalled? || e.ProbeRejected?
    ensures |e.Detail()| <= 200
  {
  }

  lemma IsolationDetailLength(e: AuditEvent)
    requires e.Quarantined? || e.RollbackAccepted?
    ensures |e.Detail()| <= 200
  {
  }

  lemma CommitDetailLength(e: AuditEvent)
    requires e.BeginAction? || e.CommitDone? || e.Final? || e.ChildAckAccepted? || e.CommitBlocked?
    ensures |e.Detail()| <= 200
  {
    hide AckDetail, Decision.Name;
    if e.ChildAckAccepted? {
      AckDetailLength(e.id, e.nonce, e.actions, e.digest);
    } else if e.CommitBlocked? {
      DecisionNameLength(e.decision);
    }
  }

  lemma DetailLength(e: AuditEvent)
    requires !e.RollbackRejected? && !e.ProtocolRejected?
    ensures |e.Detail()| <= 200
  {
    hide AuditEvent.Detail;
    if e.ProbeRequest? {
      ProbeRequestDetailLength();
    } else if e.ProbeAccepted? {
      ProbeAcceptedDetailLength();
    } else if e.LeaseInstalled? || e.ProbeRejected? {
      LeaseDetailLength(e);
    } else if e.Quarantined? || e.RollbackAccepted? {
      IsolationDetailLength(e);
    } else {
      CommitDetailLength(e);
    }
  }

  lemma DetailFits(e: AuditEvent)
    requires !e.RollbackRejected? && !e.ProtocolRejected?
    ensures |Encode(e.Detail())| <= MAX_DETAIL_BYTES
  {
    hide Encode, AuditEvent.Detail;
    DetailLength(e);
    EncodeLength(e.Detail());
  }

  lemma RecordSucceeds(s: Rt, event: AuditEvent, lease: Option<SafetyLease>)
    requires OpenLog(s.log) && |s.log| < 0xffff_ffff_ffff_ffff
    requires !event.RollbackRejected? && !event.ProtocolRejected?
    ensures Record(s, event, lease).Done? && |Record(s, event, lease).rt.log| == |s.log| + 1
    ensures OpenLog(Record(s, event, lease).rt.log)
    ensures Record(s, event, lease).rt == s.(log := Record(s, event, lease).rt.log)
  {
    hide RecordedEntry, OpenLog, AuditEvent.Name, AuditEvent.Detail, AuditEvent.Verdict, Encode;
    NameFits(event);
    DetailFits(event);
    RecordedKeepsChain(s.log, event.Name(), event.Detail(), event.Verdict(), s.body, lease);
  }

  // ---------------------------------------------------------------------------------------------
  // Every admissible event succeeds once the child has answered
  // ---------------------------------------------------------------------------------------------

  function NextEpoch(s: Rt): Rt
    requires Roomy(s) && Small(s)
  {
    s.(body := s.body.(epoch := s.body.epoch + 1, generation := s.body.generation + 1))
  }

  function RollbackRequest(s: Rt): P.Message
    requires Roomy(s) && Small(s)
  {
    P.BoundRequest(P.Rollback(s.metrics.rollbacks + 1, s.nonce + 1), AuthorityOf(s))
  }

  /** The request that an event sends. */
  function Asked(s: Rt, ev: Event): (m: Option<P.Message>)
    requires Roomy(s) && Small(s)
    ensures m.Some? ==> m.value.BoundRequest?
  {
    match ev
    case Begin => None
    case Commit(env) =>
      if DecisionAt(s, env.now) == Allow then Some(P.BoundRequest(WorkRequest(s), AuthorityOf(s))) else None
    case Reset(_) =>
      Some(P.BoundRequest(P.Rollback(s.metrics.rollbacks + 1, s.nonce + 1), AuthorityOf(NextEpoch(s))))
    case Probe(_) =>
      if ProbeEligible(s) then Some(P.BoundRequest(P.Probe(s.body.certificate + 1, s.nonce + 1), AuthorityOf(s))) else None
    case LeaseTimeout(_) => Some(RollbackRequest(s))
  }

  /** The next line of the child is the answer to this request. */
  predicate Answered(c: Child, m: P.Message)
  {
    c.open && c.inbox != [] && c.inbox[0] == Line(Answer(m))
  }

  lemma ExchangeSucceeds(s: Rt, request: P.ChildRequest, ack: P.ExpectedAck, authority: P.AuthoritySnapshot)
    requires Answered(s.child, P.BoundRequest(request, authority)) && ack == AckOf(request) && authority == AuthorityOf(s)
    ensures Exchange(s, request, ack, NoFault).Done?
    ensures var r := Exchange(s, request, ack, NoFault).rt; r == s.(child := r.child)
  {
    hide P.Text, P.Print, P.TrimEndNewlines, Exchanged;
    WireLanguage.TrimPrinted(P.BoundAck(ack, authority));
    ExchangeEffect(s, request, ack, NoFault);
  }

  lemma BeginSucceeds(s: Rt)
    requires OpenLog(s.log) && Roomy(s) && !s.transaction.pending
    ensures BeginStep(s).Done?
  {
    hide Record, OpenLog;
    RecordSucceeds(s.(transaction := Transaction(true, s.active)), BeginAction, s.active);
  }

  lemma AcceptWorkSucceeds(s: Rt, id: u64, actions: u64, digest: u64)
    requires OpenLog(s.log) && Roomy(s) && s.metrics.allowedCommits < 0xffff_ffff_ffff_ffff
    ensures AcceptWork(s, id, actions, digest).Done?
  {
    hide Record, OpenLog;
    var s1 := s.(actionCounter := id,
                 metrics := s.metrics.(allowedCommits := s.metrics.allowedCommits + 1,
                                       childActions := actions,
                                       verifiedWorkAcks := Saturate(s.metrics.verifiedWorkAcks + 1)));
    RecordSucceeds(s1, ChildAckAccepted(id, s1.nonce, actions, digest), s1.active);
    var s2 := Record(s1, ChildAckAccepted(id, s1.nonce, actions, digest), s1.active).rt;
    RecordSucceeds(s2, CommitDone, s2.active);
  }

  lemma DispatchSucceeds(s: Rt, env: Env)
    requires OpenLog(s.log) && Roomy(s) && Small(s) && s.reflex == REFLEX && s.actionCounter == s.metrics.childActions
    requires env.fault.NoFault? && Answered(s.child, P.BoundRequest(WorkRequest(s), AuthorityOf(s)))
    ensures Dispatch(s, env).Done?
  {
    hide OpenLog, Exchange, AcceptWork, Answered, AuthorityOf, Workload.Digest, ProtocolRejection;
    var s1 := NextNonce(s).rt;
    SameSnapshot(s, s1);
    var id := s.actionCounter + 1;
    var digest := Workload.Digest(id, 5_000);
    var request, ack := P.Work(id, s1.nonce, 5_000), P.WorkAck(id, s1.nonce, id, digest);
    ExchangeSucceeds(s1, request, ack, AuthorityOf(s1));
    AcceptWorkSucceeds(Exchange(s1, request, ack, NoFault).rt, id, id, digest);
  }

  lemma CommitSucceeds(s: Rt, env: Env)
    requires OpenLog(s.log) && Roomy(s) && Small(s) && s.reflex == REFLEX && s.actionCounter == s.metrics.childActions
    requires env.fault.NoFault?
    requires DecisionAt(s, env.now) == Allow ==> Answered(s.child, P.BoundRequest(WorkRequest(s), AuthorityOf(s)))
    ensures CommitStep(s, env).Done?
  {
    hide Record, Dispatch, OpenLog, DecisionAt, Answered, AuthorityOf;
    var s1 := s.(transaction := if s.transaction.pending then IDLE else s.transaction);
    if DecisionAt(s, env.now) == Allow {
      SameSnapshot(s, s1);
      DispatchSucceeds(s1, env);
    } else {
      var s2 := s1.(metrics := s1.metrics.(blockedCommits := Saturate(s1.metrics.blockedCommits + 1),
                                           staleOrExpiredBlocked := Saturate(s1.metrics.staleOrExpiredBlocked + 1)));
      RecordSucceeds(s2, CommitBlocked(DecisionAt(s, env.now)), s2.active);
    }
  }

  lemma QuarantineSucceeds(s: Rt, onReset: bool, env: Env)
    requires OpenLog(s.log) && |s.log| + 100 <= 0xffff_ffff_ffff_ffff && env.fault.NoFault?
    requires s.nonce < 0xffff_ffff_ffff_ffff && s.metrics.rollbacks < 0xffff_ffff_ffff_ffff
    requires Answered(s.child, P.BoundRequest(P.Rollback(s.metrics.rollbacks + 1, s.nonce + 1), AuthorityOf(s)))
    ensures Quarantine(s, onReset, env).Done?
  {
    hide Record, OpenLog, Exchange, Answered, AuthorityOf;
    var s1 := Isolated(s);
    var s2 := s1.(metrics := s1.metrics.(rollbacks := s1.metrics.rollbacks + 1));
    RecordSucceeds(s2, Quarantined(onReset), None);
    var s4 := NextNonce(Record(s2, Quarantined(onReset), None).rt).rt;
    SameSnapshot(s, s4);
    var id := s4.metrics.rollbacks;
    var request, ack := P.Rollback(id, s4.nonce), P.RollbackAck(id, s4.nonce);
    ExchangeSucceeds(s4, request, ack, AuthorityOf(s4));
    var s5 := Exchange(s4, request, ack, NoFault).rt;
    RecordSucceeds(s5.(rollbackConfirmed := true, metrics := s5.metrics.(rollbackAcks := Saturate(s5.metrics.rollbackAcks + 1))),
                   RollbackAccepted, None);
  }

  lemma ReinstateSucceeds(s: Rt, certificate: u64, generation: u64, env: Env)
    requires OpenLog(s.log) && |s.log| + 100 <= 0xffff_ffff_ffff_ffff && s.reflex == REFLEX
    requires env.now + DEFAULT_LEASE_NS <= 0xffff_ffff_ffff_ffff
    ensures Reinstate(s, certificate, generation, env).Done?
  {
    hide Record, OpenLog, LeaseFor;
    var until := CheckedLeaseDeadline(env.now, s.reflex.leaseNs).value;
    var body := s.body.(certificate := certificate, generation := generation, quarantined := false);
    var s1 := s.(body := body, active := Some(LeaseFor(body, s.reflex, until)), rollbackConfirmed := false,
                 metrics := s.metrics.(probeRecoveries := Saturate(s.metrics.probeRecoveries + 1)));
    RecordSucceeds(s1, LeaseInstalled(true), s1.active);
    var s2 := Record(s1, LeaseInstalled(true), s1.active).rt;
    RecordSucceeds(s2, ProbeAccepted, s2.active);
  }

  lemma ProbeSucceeds(s: Rt, env: Env)
    requires OpenLog(s.log) && Roomy(s) && Small(s) && s.reflex == REFLEX && env.fault.NoFault?
    requires env.now + DEFAULT_LEASE_NS <= 0xffff_ffff_ffff_ffff
    requires ProbeEligible(s) ==>
               Answered(s.child, P.BoundRequest(P.Probe(s.body.certificate + 1, s.nonce + 1), AuthorityOf(s)))
    ensures ProbeStep(s, env).Done?
  {
    hide Record, OpenLog, Exchange, Reinstate, Answered, AuthorityOf;
    var s1 := s.(metrics := s.metrics.(probeRequests := Saturate(s.metrics.probeRequests + 1)));
    if !ProbeEligible(s1) {
      RecordSucceeds(s1, ProbeRejected, None);
    } else {
      var id, generation := s1.body.certificate + 1, s1.body.generation + 1;
      var s2 := NextNonce(s1).rt;
      RecordSucceeds(s2, ProbeRequest, None);
      var s3 := Record(s2, ProbeRequest, None).rt;
      SameSnapshot(s, s3);
      var request, ack := P.Probe(id, s3.nonce), P.ProbeAck(id, s3.nonce);
      ExchangeSucceeds(s3, request, ack, AuthorityOf(s3));
      ReinstateSucceeds(Exchange(s3, request, ack, NoFault).rt, id, generation, env);
    }
  }

  lemma StepSucceeds(s: Rt, ev: Event)
    requires Good(s) && Small(s) && Admissible(s, ev)
    requires Asked(s, ev).Some? ==> Answered(s.child, Asked(s, ev).value)
    ensures Step(s, ev).Done?
  {
    hide BeginStep, CommitStep, ResetStep, ProbeStep, Quarantine, Answered, OpenLog, Numbered, Paired, DecisionAt;
    match ev
    case Begin => BeginSucceeds(s);
    case Commit(env) => CommitSucceeds(s, env);
    case Reset(env) => ResetSucceeds(s, env);
    case Probe(env) => ProbeSucceeds(s, env);
    case LeaseTimeout(env) => QuarantineSucceeds(s, false, env);
  }

  lemma ResetSucceeds(s: Rt, env: Env)
    requires OpenLog(s.log) && Roomy(s) && Small(s) && env.fault.NoFault?
    requires Answered(s.child, P.BoundRequest(P.Rollback(s.metrics.rollbacks + 1, s.nonce + 1), AuthorityOf(NextEpoch(s))))
    ensures ResetStep(s, env).Done?
  {
    hide Quarantine, Answered, OpenLog, AuthorityOf;
    QuarantineSucceeds(NextEpoch(s), true, env);
  }

  /** The request was written and one message taken for it; without a request nothing happened. */
  predicate AfterTraffic(c: Child, c': Child, m: Option<P.Message>)
  {
    && (m.None? ==> c' == c)
    && (m.Some? ==> c.inbox != [] && c' == Child(c.inbox[1..], c.sent + [m.value], true))
  }

  /** A successful event has sent exactly what it asked, and taken one answer for it. */
  lemma AskedIsSent(s: Rt, ev: Event, r: Rt)
    requires Good(s) && Small(s) && Roomy(s) && Effect(s, ev, r)
    ensures AfterTraffic(s.child, r.child, Asked(s, ev))
  {
    hide Appended, P.ValidateBoundAck, DecisionAt, Workload.Digest, LeaseFor, AuthorityOf, Audited, Paired,
          WorkAccepted, Isolated;
  }
}
