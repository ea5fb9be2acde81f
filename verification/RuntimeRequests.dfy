/** What the runtime writes to its child, in every run and whatever comes of it: a request is written
    before its answer is read, so an event that fails may have sent one. */
module RuntimeRequests {
  import opened Words
  import opened Authority
  import opened LedgerWriter
  import opened Frames
  import opened RuntimeSpec
  import opened RuntimeEffects
  import opened RuntimeInvariant
  import P = Protocol
  import Workload

  /** Nothing is sent, or one bound request with the next nonce, and WORK only if allowed. */
  predicate Sends(s: Rt, r: Rt, work: bool)
  {
    && s.child.sent <= r.child.sent
    && |r.child.sent| <= |s.child.sent| + 1
    && (|r.child.sent| > |s.child.sent| ==> IsNext(s, r.child.sent[|s.child.sent|], work))
  }

  predicate IsNext(s: Rt, m: P.Message, work: bool)
  {
    m.BoundRequest? && m.request.nonce == s.nonce + 1 && (m.request.Work? ==> work)
  }

  lemma RecordSendsNothing(s: Rt, event: AuditEvent, lease: Option<SafetyLease>)
    ensures Record(s, event, lease).rt == s.(log := Record(s, event, lease).rt.log)
  {
    hide RecordedEntry, AuditEvent.Name, AuditEvent.Detail, AuditEvent.Verdict;
  }

  lemma ExchangeSends(s: Rt, request: P.ChildRequest, ack: P.ExpectedAck, fault: Fault)
    ensures var r := Exchange(s, request, ack, fault).rt;
            && r == s.(child := r.child)
            && (r.child.sent == s.child.sent || r.child.sent == s.child.sent + [P.BoundRequest(request, AuthorityOf(s))])
  {
    hide P.ValidateBoundAck, AuthorityOf;
  }

  lemma RejectionSendsNothing(s: Rt, reason: string)
    ensures ProtocolRejection(s, reason).child == s.child
  {
    hide Record;
    var s1 := Isolated(s);
    RecordSendsNothing(s1.(metrics := s1.metrics.(damage := 1)), ProtocolRejected(reason), None);
  }

  lemma AcceptSendsNothing(s: Rt, id: u64, actions: u64, digest: u64)
    ensures AcceptWork(s, id, actions, digest).rt.child == s.child
  {
    hide Record;
    if s.metrics.allowedCommits < 0xffff_ffff_ffff_ffff {
      var s1 := s.(actionCounter := id,
                   metrics := s.metrics.(allowedCommits := s.metrics.allowedCommits + 1,
                                         childActions := actions,
                                         verifiedWorkAcks := Saturate(s.metrics.verifiedWorkAcks + 1)));
      var accepted := ChildAckAccepted(id, s1.nonce, actions, digest);
      RecordSendsNothing(s1, accepted, s1.active);
      RecordSendsNothing(Record(s1, accepted, s1.active).rt, CommitDone, s1.active);
    }
  }

  lemma DispatchSends(s: Rt, env: Env)
    ensures Sends(s, Dispatch(s, env).rt, true)
  {
    hide Exchange, AcceptWork, ProtocolRejection, Workload.Digest, AuthorityOf;
    var m := s.metrics;
    if s.actionCounter < 0xffff_ffff_ffff_ffff && m.childActions < 0xffff_ffff_ffff_ffff && s.nonce < 0xffff_ffff_ffff_ffff
       && s.reflex.instructions != [] && s.reflex.instructions[0].Work? {
      var id, actions, units := s.actionCounter + 1, m.childActions + 1, s.reflex.instructions[0].units;
      var s1 := NextNonce(s).rt;
      var digest := Workload.Digest(id, units);
      var request, ack := P.Work(id, s1.nonce, units), P.WorkAck(id, s1.nonce, actions, digest);
      ExchangeSends(s1, request, ack, env.fault);
      var s2 := Exchange(s1, request, ack, env.fault).rt;
      RejectionSendsNothing(s2, env.errorText);
      AcceptSendsNothing(s2, id, actions, digest);
    }
  }

  lemma CommitSends(s: Rt, env: Env)
    ensures Sends(s, CommitStep(s, env).rt, DecisionAt(s, env.now) == Allow)
  {
    hide Record, Dispatch, CommitDecision;
    var decision := DecisionAt(s, env.now);
    var s1 := s.(transaction := if s.transaction.pending then IDLE else s.transaction);
    if decision == Allow {
      DispatchSends(s1, env);
    } else {
      var s2 := s1.(metrics := s1.metrics.(blockedCommits := Saturate(s1.metrics.blockedCommits + 1),
                                           staleOrExpiredBlocked := Saturate(s1.metrics.staleOrExpiredBlocked + 1)));
      RecordSendsNothing(s2, CommitBlocked(decision), s2.active);
    }
  }

  lemma ConfirmSends(s: Rt, env: Env)
    ensures var r := ConfirmRollback(s, env).rt;
            || r.child.sent == s.child.sent
            || r.child.sent == s.child.sent + [P.BoundRequest(P.Rollback(s.metrics.rollbacks, s.nonce), AuthorityOf(s))]
  {
    hide Record, Exchange, AuthorityOf;
    var request, ack := P.Rollback(s.metrics.rollbacks, s.nonce), P.RollbackAck(s.metrics.rollbacks, s.nonce);
    ExchangeSends(s, request, ack, env.fault);
    var s1 := Exchange(s, request, ack, env.fault).rt;
    var acked := s1.metrics.(rollbackAcks := Saturate(s1.metrics.rollbackAcks + 1));
    RecordSendsNothing(s1.(rollbackConfirmed := true, metrics := acked), RollbackAccepted, None);
    RecordSendsNothing(s1.(metrics := s1.metrics.(damage := 1)), RollbackRejected(env.errorText), None);
  }

  lemma QuarantineSends(s: Rt, onReset: bool, env: Env)
    ensures Sends(s, Quarantine(s, onReset, env).rt, false)
  {
    hide Record, ConfirmRollback, AuthorityOf;
    var s1 := Isolated(s);
    if s1.metrics.rollbacks < 0xffff_ffff_ffff_ffff {
      var s2 := s1.(metrics := s1.metrics.(rollbacks := s1.metrics.rollbacks + 1));
      RecordSendsNothing(s2, Quarantined(onReset), None);
      ConfirmSends(NextNonce(Record(s2, Quarantined(onReset), None).rt).rt, env);
    }
  }

  lemma ReinstateSendsNothing(s: Rt, certificate: u64, generation: u64, env: Env)
    ensures Reinstate(s, certificate, generation, env).rt.child == s.child
  {
    hide Record, CheckedLeaseDeadline, LeaseFor;
    if CheckedLeaseDeadline(env.now, s.reflex.leaseNs).Ok? {
      var until := CheckedLeaseDeadline(env.now, s.reflex.leaseNs).value;
      var body := s.body.(certificate := certificate, generation := generation, quarantined := false);
      var s1 := s.(body := body, active := Some(LeaseFor(body, s.reflex, until)), rollbackConfirmed := false,
                   metrics := s.metrics.(probeRecoveries := Saturate(s.metrics.probeRecoveries + 1)));
      RecordSendsNothing(s1, LeaseInstalled(true), s1.active);
      RecordSendsNothing(Record(s1, LeaseInstalled(true), s1.active).rt, ProbeAccepted, s1.active);
    }
  }

  lemma ChallengeSends(s: Rt, certificate: u64, generation: u64, env: Env)
    ensures var r := Challenge(s, certificate, generation, env).rt;
            || r.child.sent == s.child.sent
            || r.child.sent == s.child.sent + [P.BoundRequest(P.Probe(certificate, s.nonce), AuthorityOf(s))]
  {
    hide Exchange, Reinstate, ProtocolRejection, AuthorityOf;
    var request, ack := P.Probe(certificate, s.nonce), P.ProbeAck(certificate, s.nonce);
    ExchangeSends(s, request, ack, env.fault);
    var s1 := Exchange(s, request, ack, env.fault).rt;
    RejectionSendsNothing(s1, env.errorText);
    ReinstateSendsNothing(s1, certificate, generation, env);
  }

  lemma ProbeSends(s: Rt, env: Env)
    ensures Sends(s, ProbeStep(s, env).rt, false)
  {
    hide Record, Challenge, AuthorityOf;
    var s1 := s.(metrics := s.metrics.(probeRequests := Saturate(s.metrics.probeRequests + 1)));
    if !ProbeEligible(s1) {
      RecordSendsNothing(s1, ProbeRejected, None);
    } else if s1.body.certificate < 0xffff_ffff_ffff_ffff && s1.body.generation < 0xffff_ffff_ffff_ffff {
      var s2 := NextNonce(s1).rt;
      RecordSendsNothing(s2, ProbeRequest, None);
      ChallengeSends(Record(s2, ProbeRequest, None).rt, s1.body.certificate + 1, s1.body.generation + 1, env);
    }
  }

  /** An event sends at most one request, successful or not; it is WORK only for a COMMIT that the
      oracle allows. */
  lemma StepSends(s: Rt, ev: Event)
    ensures Sends(s, Step(s, ev).rt, ev.Commit? && DecisionAt(s, ev.env.now) == Allow)
  {
    hide BeginStep, CommitStep, ProbeStep, Quarantine, DecisionAt;
    match ev
    case Begin => BeginSends(s);
    case Commit(env) => CommitSends(s, env);
    case Reset(env) =>
      if s.body.epoch < 0xffff_ffff_ffff_ffff && s.body.generation < 0xffff_ffff_ffff_ffff {
        QuarantineSends(s.(body := s.body.(epoch := s.body.epoch + 1, generation := s.body.generation + 1)), true, env);
      }
    case Probe(env) => ProbeSends(s, env);
    case LeaseTimeout(env) => QuarantineSends(s, false, env);
  }

  lemma BeginSends(s: Rt)
    ensures Sends(s, BeginStep(s).rt, false)
  {
    hide Record;
    RecordSendsNothing(s.(transaction := Transaction(true, s.active)), BeginAction, s.active);
  }

  lemma CompleteSendsNothing(s: Rt)
    ensures Complete(s).rt.child == s.child
  {
    hide Record, SealedEntry;
    var s1 := s.(metrics := s.metrics.(damage := DamageOf(s.metrics)));
    RecordSendsNothing(s1, Final(s1.metrics.damage), s1.active);
  }

  lemma FinishSends(s: Rt, env: Env, exitOk: bool)
    ensures Sends(s, Finish(s, env, exitOk).rt, false)
  {
    hide Exchange, Complete, ProtocolRejection, AuthorityOf;
    var s1 := NextNonce(s).rt;
    var request, ack := P.Stop(s1.actionCounter, s1.nonce), P.StopAck(s1.actionCounter, s1.nonce);
    ExchangeSends(s1, request, ack, env.fault);
    var s2 := Dropped(Exchange(s1, request, ack, env.fault).rt);
    RejectionSendsNothing(s2, env.errorText);
    CompleteSendsNothing(s2);
  }

  lemma NewSendsNothing(inbox: seq<ReaderMessage>, pid: u64, env: Env)
    ensures New(inbox, pid, env).rt.child.sent == []
  {
    hide Record, CompilePolicy, P.ValidateHello;
    PolicyCompiles();
    if inbox != [] && CheckedLeaseDeadline(env.now, REFLEX.leaseNs).Ok? {
      var s0 := InitialState(REFLEX, inbox[1..]);
      var s1 := s0.(active := Some(LeaseFor(s0.body, s0.reflex, CheckedLeaseDeadline(env.now, s0.reflex.leaseNs).value)));
      RecordSendsNothing(s1, LeaseInstalled(false), s1.active);
    }
  }

  // ---------------------------------------------------------------------------------------------
  // Whole lives
  // ---------------------------------------------------------------------------------------------

  lemma SendsInOrder(s: Rt, r: Rt, work: bool)
    requires Numbered(s) && Sends(s, r, work)
    ensures InNonceOrder(r.child.sent)
  {
  }

  lemma GoodIsNumbered(s: Rt)
    requires Good(s)
    ensures Numbered(s) && InNonceOrder(s.child.sent)
  {
    hide Authoritative, Conserved, Audited, Paired;
  }

  lemma {:induction false} StepsInOrder(s: Rt, events: seq<Event>)
    requires Good(s)
    ensures InNonceOrder(Steps(s, events).rt.child.sent)
    decreases |events|
  {
    hide Good, Step, Effect, Numbered, InNonceOrder, Sends, DecisionAt;
    GoodIsNumbered(s);
    if events != [] {
      StepSends(s, events[0]);
      var ev := events[0];
      SendsInOrder(s, Step(s, ev).rt, ev.Commit? && DecisionAt(s, ev.env.now) == Allow);
      if Step(s, ev).Done? {
        StepKeeps(s, ev);
        StepsInOrder(Step(s, ev).rt, events[1..]);
      }
    }
  }

  /** Every request of a run, the one it failed at and STOP included, carries its place as nonce. */
  lemma RequestsInOrder(l: Life)
    ensures InNonceOrder(Live(l).rt.child.sent)
  {
    hide New, Steps, Finish, Received, Good, Numbered, Sends;
    NewSendsNothing(Received(l.output), l.pid, l.start);
    var s0 := New(Received(l.output), l.pid, l.start);
    if s0.Done? {
      StartsGood(Received(l.output), l.pid, l.start);
      StepsInOrder(s0.rt, l.events);
      var s1 := Steps(s0.rt, l.events);
      if s1.Done? {
        StepsKeep(s0.rt, l.events);
        GoodIsNumbered(s1.rt);
        FinishSends(s1.rt, l.stop, l.exitOk);
        SendsInOrder(s1.rt, Finish(s1.rt, l.stop, l.exitOk).rt, false);
      }
    }
  }
}
