/** What the child says later does not influence what happens now: an event that succeeds does the same
    with more messages waiting behind the ones it takes. */
module Foresight {
  import opened Words
  import opened Authority
  import opened LedgerWriter
  import opened Frames
  import opened RuntimeSpec
  import P = Protocol
  import Workload

  /** More messages for the parent to read. */
  function Feed(s: Rt, more: seq<ReaderMessage>): Rt
  {
    s.(child := s.child.(inbox := s.child.inbox + more))
  }

  function Fed(o: Outcome, more: seq<ReaderMessage>): Outcome
  {
    if o.Done? then Done(Feed(o.rt, more)) else Failed(Feed(o.rt, more))
  }

  lemma RecordFeeds(s: Rt, event: AuditEvent, lease: Option<SafetyLease>, more: seq<ReaderMessage>)
    ensures Record(Feed(s, more), event, lease) == Fed(Record(s, event, lease), more)
  {
    hide RecordedEntry, AuditEvent.Name, AuditEvent.Detail, AuditEvent.Verdict;
  }

  lemma ExchangeFeeds(s: Rt, request: P.ChildRequest, ack: P.ExpectedAck, fault: Fault, more: seq<ReaderMessage>)
    requires Exchange(s, request, ack, fault).Done?
    ensures Exchange(Feed(s, more), request, ack, fault) == Fed(Exchange(s, request, ack, fault), more)
  {
    hide P.ValidateBoundAck;
    var i := s.child.inbox;
    assert (i + more)[0] == i[0] && (i + more)[1..] == i[1..] + more;
  }

  lemma BeginFeeds(s: Rt, more: seq<ReaderMessage>)
    requires BeginStep(s).Done?
    ensures BeginStep(Feed(s, more)) == Fed(BeginStep(s), more)
  {
    hide Record;
    RecordFeeds(s.(transaction := Transaction(true, s.active)), BeginAction, s.active, more);
  }

  lemma AcceptWorkFeeds(s: Rt, id: u64, actions: u64, digest: u64, more: seq<ReaderMessage>)
    requires AcceptWork(s, id, actions, digest).Done?
    ensures AcceptWork(Feed(s, more), id, actions, digest) == Fed(AcceptWork(s, id, actions, digest), more)
  {
    hide Record;
    var s1 := s.(actionCounter := id,
                 metrics := s.metrics.(allowedCommits := s.metrics.allowedCommits + 1,
                                       childActions := actions,
                                       verifiedWorkAcks := Saturate(s.metrics.verifiedWorkAcks + 1)));
    var accepted := ChildAckAccepted(id, s1.nonce, actions, digest);
    RecordFeeds(s1, accepted, s1.active, more);
    var s2 := Record(s1, accepted, s1.active).rt;
    RecordFeeds(s2, CommitDone, s2.active, more);
  }

  lemma DispatchFeeds(s: Rt, env: Env, more: seq<ReaderMessage>)
    requires Dispatch(s, env).Done?
    ensures Dispatch(Feed(s, more), env) == Fed(Dispatch(s, env), more)
  {
    hide Exchange, AcceptWork, ProtocolRejection, Workload.Digest;
    var id, actions, units := s.actionCounter + 1, s.metrics.childActions + 1, s.reflex.instructions[0].units;
    var s1 := NextNonce(s).rt;
    var digest := Workload.Digest(id, units);
    var request, ack := P.Work(id, s1.nonce, units), P.WorkAck(id, s1.nonce, actions, digest);
    ExchangeFeeds(s1, request, ack, env.fault, more);
    AcceptWorkFeeds(Exchange(s1, request, ack, env.fault).rt, id, actions, digest, more);
  }

  lemma CommitFeeds(s: Rt, env: Env, more: seq<ReaderMessage>)
    requires CommitStep(s, env).Done?
    ensures CommitStep(Feed(s, more), env) == Fed(CommitStep(s, env), more)
  {
    hide Record, Dispatch, CommitDecision;
    var decision := DecisionAt(s, env.now);
    var s1 := s.(transaction := if s.transaction.pending then IDLE else s.transaction);
    if decision == Allow {
      DispatchFeeds(s1, env, more);
    } else {
      var s2 := s1.(metrics := s1.metrics.(blockedCommits := Saturate(s1.metrics.blockedCommits + 1),
                                           staleOrExpiredBlocked := Saturate(s1.metrics.staleOrExpiredBlocked + 1)));
      RecordFeeds(s2, CommitBlocked(decision), s2.active, more);
    }
  }

  lemma ConfirmRollbackFeeds(s: Rt, env: Env, more: seq<ReaderMessage>)
    requires ConfirmRollback(s, env).Done?
    ensures ConfirmRollback(Feed(s, more), env) == Fed(ConfirmRollback(s, env), more)
  {
    hide Record, Exchange;
    var request, ack := P.Rollback(s.metrics.rollbacks, s.nonce), P.RollbackAck(s.metrics.rollbacks, s.nonce);
    ExchangeFeeds(s, request, ack, env.fault, more);
    var s1 := Exchange(s, request, ack, env.fault).rt;
    RecordFeeds(s1.(rollbackConfirmed := true, metrics := s1.metrics.(rollbackAcks := Saturate(s1.metrics.rollbackAcks + 1))),
                RollbackAccepted, None, more);
  }

  lemma QuarantineFeeds(s: Rt, onReset: bool, env: Env, more: seq<ReaderMessage>)
    requires Quarantine(s, onReset, env).Done?
    ensures Quarantine(Feed(s, more), onReset, env) == Fed(Quarantine(s, onReset, env), more)
  {
    hide Record, ConfirmRollback;
    var s1 := Isolated(s);
    var s2 := s1.(metrics := s1.metrics.(rollbacks := s1.metrics.rollbacks + 1));
    RecordFeeds(s2, Quarantined(onReset), None, more);
    ConfirmRollbackFeeds(NextNonce(Record(s2, Quarantined(onReset), None).rt).rt, env, more);
  }

  lemma ReinstateFeeds(s: Rt, certificate: u64, generation: u64, env: Env, more: seq<ReaderMessage>)
    requires Reinstate(s, certificate, generation, env).Done?
    ensures Reinstate(Feed(s, more), certificate, generation, env) == Fed(Reinstate(s, certificate, generation, env), more)
  {
    hide Record, CheckedLeaseDeadline, LeaseFor;
    var until := CheckedLeaseDeadline(env.now, s.reflex.leaseNs).value;
    var body := s.body.(certificate := certificate, generation := generation, quarantined := false);
    var s1 := s.(body := body, active := Some(LeaseFor(body, s.reflex, until)), rollbackConfirmed := false,
                 metrics := s.metrics.(probeRecoveries := Saturate(s.metrics.probeRecoveries + 1)));
    RecordFeeds(s1, LeaseInstalled(true), s1.active, more);
    var s2 := Record(s1, LeaseInstalled(true), s1.active).rt;
    RecordFeeds(s2, ProbeAccepted, s2.active, more);
  }

  lemma ChallengeFeeds(s: Rt, certificate: u64, generation: u64, env: Env, more: seq<ReaderMessage>)
    requires Challenge(s, certificate, generation, env).Done?
    ensures Challenge(Feed(s, more), certificate, generation, env) == Fed(Challenge(s, certificate, generation, env), more)
  {
    hide Exchange, Reinstate, ProtocolRejection;
    var request, ack := P.Probe(certificate, s.nonce), P.ProbeAck(certificate, s.nonce);
    ExchangeFeeds(s, request, ack, env.fault, more);
    ReinstateFeeds(Exchange(s, request, ack, env.fault).rt, certificate, generation, env, more);
  }

  lemma ProbeFeeds(s: Rt, env: Env, more: seq<ReaderMessage>)
    requires ProbeStep(s, env).Done?
    ensures ProbeStep(Feed(s, more), env) == Fed(ProbeStep(s, env), more)
  {
    hide Record, Challenge;
    var s1 := s.(metrics := s.metrics.(probeRequests := Saturate(s.metrics.probeRequests + 1)));
    if !ProbeEligible(s1) {
      RecordFeeds(s1, ProbeRejected, None, more);
    } else {
      var id, generation := s1.body.certificate + 1, s1.body.generation + 1;
      var s2 := NextNonce(s1).rt;
      RecordFeeds(s2, ProbeRequest, None, more);
      ChallengeFeeds(Record(s2, ProbeRequest, None).rt, id, generation, env, more);
    }
  }

  lemma StepFeeds(s: Rt, ev: Event, more: seq<ReaderMessage>)
    requires Step(s, ev).Done?
    ensures Step(Feed(s, more), ev) == Fed(Step(s, ev), more)
  {
    hide BeginStep, CommitStep, Quarantine, ProbeStep;
    match ev
    case Begin => BeginFeeds(s, more);
    case Commit(env) => CommitFeeds(s, env, more);
    case Reset(env) =>
      QuarantineFeeds(s.(body := s.body.(epoch := s.body.epoch + 1, generation := s.body.generation + 1)), true, env, more);
    case Probe(env) => ProbeFeeds(s, env, more);
    case LeaseTimeout(env) => QuarantineFeeds(s, false, env, more);
  }
}
