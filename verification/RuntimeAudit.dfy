/** What every line of the runtime's ledger shows, in successful runs and in failed ones: a lease only
    for a body that is not quarantined and that it names field by field, and work only under a lease. */
module RuntimeAudit {
  import opened Words
  import opened Authority
  import opened LedgerEntries
  import opened LedgerChain
  import opened LedgerWriter
  import opened Frames
  import opened RuntimeSpec
  import opened RuntimeEffects
  import opened RuntimeInvariant
  import P = Protocol
  import Workload

  predicate ShowsLeaseOfBody(e: LedgerEntry)
  {
    && !e.quarantined
    && e.leaseBodyUid == Some(e.bodyUid) && e.leaseEpoch == Some(e.epoch)
    && e.leaseGeneration == Some(e.generation) && e.leaseCertificate == Some(e.certificate)
    && e.leasePrincipalId == Some(PRINCIPAL_ID) && e.leaseResourceId == Some(RESOURCE_ID)
    && e.leaseActionId == Some(ACTION_ID)
  }

  /** A line that shows a lease shows it for this very body; a line about work shows a lease, and ALLOW. */
  predicate Truthful(e: LedgerEntry)
  {
    && (e.leasePresent ==> ShowsLeaseOfBody(e))
    && (e.event == "COMMIT" || e.event == "CHILD_ACK_ACCEPTED" ==> e.leasePresent && e.decision == Allow.Code())
  }

  predicate AllTruthful(log: seq<LedgerEntry>)
  {
    forall i :: 0 <= i < |log| ==> Truthful(log[i])
  }

  /** The lease, if there is one, names the body. */
  predicate Sound(s: Rt)
  {
    && s.reflex == REFLEX
    && (s.active.Some? ==> !s.body.quarantined && s.active.value == LeaseFor(s.body, s.reflex, s.active.value.validUntilNs))
  }

  /** `e` shows this body and this lease. */
  predicate Shows(e: LedgerEntry, event: string, decision: Decision, body: BodyState, lease: Option<SafetyLease>)
  {
    && e.event == event && e.decision == decision.Code()
    && BodyState(e.bodyUid, e.epoch, e.generation, e.certificate, e.quarantined) == body
    && e.leasePresent == lease.Some?
    && (lease.Some? ==>
          && e.leaseBodyUid == Some(lease.value.bodyUid) && e.leaseEpoch == Some(lease.value.epoch)
          && e.leaseGeneration == Some(lease.value.generation) && e.leaseCertificate == Some(lease.value.certificate)
          && e.leaseValidUntilNs == Some(lease.value.validUntilNs) && e.leasePrincipalId == Some(lease.value.principalId)
          && e.leaseResourceId == Some(lease.value.resourceId) && e.leaseActionId == Some(lease.value.actionId))
  }

  lemma MadeShows(s: LedgerSnapshot)
    requires MakeEntry(s).Ok?
    ensures Shows(MakeEntry(s).value, s.event, s.decision, s.body, s.lease)
  {
    hide ExpectedHash, SnapshotFits;
  }

  /** Every ledger line repeats the body and lease it was written with, the deadline included. */
  lemma RecordedShows(log: seq<LedgerEntry>, event: string, detail: string, decision: Decision, body: BodyState,
                      lease: Option<SafetyLease>)
    requires RecordedEntry(log, event, detail, decision, body, lease).Ok?
    ensures Shows(RecordedEntry(log, event, detail, decision, body, lease).value, event, decision, body, lease)
  {
    hide MakeEntry, Shows;
    MadeShows(LedgerSnapshot(Event, |log| + 1, event, detail, decision, body, lease, None, None, LastHash(log, 0)));
  }

  lemma RecordTruthful(s: Rt, event: AuditEvent, lease: Option<SafetyLease>)
    requires Sound(s) && AllTruthful(s.log) && (lease.None? || lease == s.active)
    requires event.CommitDone? || event.ChildAckAccepted? ==> lease.Some?
    ensures AllTruthful(Record(s, event, lease).rt.log)
  {
    hide RecordedEntry, AuditEvent.Name, AuditEvent.Detail;
    var r := RecordedEntry(s.log, event.Name(), event.Detail(), event.Verdict(), s.body, lease);
    if r.Ok? {
      RecordedShows(s.log, event.Name(), event.Detail(), event.Verdict(), s.body, lease);
      TrackedNames(event);
    }
  }

  /** An operation that starts soundly with a truthful ledger leaves a truthful ledger, failed or not. */
  predicate KeepsTruth(s: Rt, r: Outcome)
  {
    Sound(s) && AllTruthful(s.log) ==> AllTruthful(r.rt.log)
  }

  lemma BeginTruthful(s: Rt)
    ensures KeepsTruth(s, BeginStep(s))
  {
    hide Record, AllTruthful;
    if Sound(s) && AllTruthful(s.log) {
      RecordTruthful(s.(transaction := Transaction(true, s.active)), BeginAction, s.active);
    }
  }

  lemma RejectionTruthful(s: Rt, reason: string)
    requires Sound(s) && AllTruthful(s.log)
    ensures AllTruthful(ProtocolRejection(s, reason).log)
  {
    hide Record, AllTruthful, LeaseFor;
    var s1 := Isolated(s);
    RecordTruthful(s1.(metrics := s1.metrics.(damage := 1)), ProtocolRejected(reason), None);
  }

  /** An exchange touches only the child. */
  lemma ExchangeTouchesChild(s: Rt, request: P.ChildRequest, ack: P.ExpectedAck, fault: Fault)
    ensures var r := Exchange(s, request, ack, fault); r.rt == s.(child := r.rt.child)
  {
    hide Transact;
  }

  lemma AcceptTruthful(s: Rt, id: u64, actions: u64, digest: u64)
    requires Sound(s) && AllTruthful(s.log) && s.active.Some?
    ensures AllTruthful(AcceptWork(s, id, actions, digest).rt.log)
  {
    hide Record, AllTruthful, LeaseFor;
    if s.metrics.allowedCommits < 0xffff_ffff_ffff_ffff {
      var s1 := s.(actionCounter := id,
                   metrics := s.metrics.(allowedCommits := s.metrics.allowedCommits + 1,
                                         childActions := actions,
                                         verifiedWorkAcks := Saturate(s.metrics.verifiedWorkAcks + 1)));
      var accepted := ChildAckAccepted(id, s1.nonce, actions, digest);
      RecordTruthful(s1, accepted, s1.active);
      RecordTouchesLog(s1, accepted, s1.active);
      RecordTruthful(Record(s1, accepted, s1.active).rt, CommitDone, s1.active);
    }
  }

  lemma RecordTouchesLog(s: Rt, event: AuditEvent, lease: Option<SafetyLease>)
    ensures var r := Record(s, event, lease); r.rt == s.(log := r.rt.log)
  {
    hide RecordedEntry;
  }

  lemma DispatchTruthful(s: Rt, env: Env)
    requires Sound(s) && AllTruthful(s.log) && s.active.Some?
    ensures AllTruthful(Dispatch(s, env).rt.log)
  {
    hide Exchange, AcceptWork, ProtocolRejection, AllTruthful, LeaseFor, Workload.Digest;
    if s.actionCounter < 0xffff_ffff_ffff_ffff && s.metrics.childActions < 0xffff_ffff_ffff_ffff {
      var id, actions := s.actionCounter + 1, s.metrics.childActions + 1;
      var s1 := NextNonce(s).rt;
      var digest := Workload.Digest(id, 5_000);
      var request, ack := P.Work(id, s1.nonce, 5_000), P.WorkAck(id, s1.nonce, actions, digest);
      ExchangeTouchesChild(s1, request, ack, env.fault);
      var s2 := Exchange(s1, request, ack, env.fault).rt;
      AcceptTruthful(s2, id, actions, digest);
      RejectionTruthful(s2, env.errorText);
    }
  }

  lemma CommitTruthful(s: Rt, env: Env)
    ensures KeepsTruth(s, CommitStep(s, env))
  {
    hide Record, Dispatch, AllTruthful, LeaseFor, Authorizes, CommitDecision;
    if Sound(s) && AllTruthful(s.log) {
      var s1 := s.(transaction := if s.transaction.pending then IDLE else s.transaction);
      CommitAllows(s.transaction, s.body, s.active, RequestAt(env.now));
      if DecisionAt(s, env.now) == Allow {
        DispatchTruthful(s1, env);
      } else {
        var s2 := s1.(metrics := s1.metrics.(blockedCommits := Saturate(s1.metrics.blockedCommits + 1),
                                             staleOrExpiredBlocked := Saturate(s1.metrics.staleOrExpiredBlocked + 1)));
        RecordTruthful(s2, CommitBlocked(DecisionAt(s, env.now)), s2.active);
      }
    }
  }

  lemma ConfirmTruthful(s: Rt, env: Env)
    requires Sound(s) && AllTruthful(s.log)
    ensures AllTruthful(ConfirmRollback(s, env).rt.log)
  {
    hide Record, Exchange, AllTruthful, LeaseFor;
    var id := s.metrics.rollbacks;
    var request, ack := P.Rollback(id, s.nonce), P.RollbackAck(id, s.nonce);
    ExchangeTouchesChild(s, request, ack, env.fault);
    var s1 := Exchange(s, request, ack, env.fault).rt;
    RecordTruthful(s1.(rollbackConfirmed := true, metrics := s1.metrics.(rollbackAcks := Saturate(s1.metrics.rollbackAcks + 1))),
                   RollbackAccepted, None);
    RecordTruthful(s1.(metrics := s1.metrics.(damage := 1)), RollbackRejected(env.errorText), None);
  }

  lemma QuarantineTruthful(s: Rt, onReset: bool, env: Env)
    requires s.reflex == REFLEX && AllTruthful(s.log)
    ensures AllTruthful(Quarantine(s, onReset, env).rt.log)
  {
    hide Record, ConfirmRollback, AllTruthful, LeaseFor;
    var s1 := Isolated(s);
    if s1.metrics.rollbacks < 0xffff_ffff_ffff_ffff {
      var s2 := s1.(metrics := s1.metrics.(rollbacks := s1.metrics.rollbacks + 1));
      RecordTruthful(s2, Quarantined(onReset), None);
      RecordTouchesLog(s2, Quarantined(onReset), None);
      ConfirmTruthful(NextNonce(Record(s2, Quarantined(onReset), None).rt).rt, env);
    }
  }

  lemma ReinstateTruthful(s: Rt, certificate: u64, generation: u64, env: Env)
    requires s.reflex == REFLEX && AllTruthful(s.log)
    ensures AllTruthful(Reinstate(s, certificate, generation, env).rt.log)
  {
    hide Record, AllTruthful, CheckedLeaseDeadline;
    if CheckedLeaseDeadline(env.now, s.reflex.leaseNs).Ok? {
      var until := CheckedLeaseDeadline(env.now, s.reflex.leaseNs).value;
      var body := s.body.(certificate := certificate, generation := generation, quarantined := false);
      var s1 := s.(body := body, active := Some(LeaseFor(body, s.reflex, until)), rollbackConfirmed := false,
                   metrics := s.metrics.(probeRecoveries := Saturate(s.metrics.probeRecoveries + 1)));
      RecordTruthful(s1, LeaseInstalled(true), s1.active);
      RecordTouchesLog(s1, LeaseInstalled(true), s1.active);
      RecordTruthful(Record(s1, LeaseInstalled(true), s1.active).rt, ProbeAccepted, s1.active);
    }
  }

  lemma ChallengeTruthful(s: Rt, certificate: u64, generation: u64, env: Env)
    requires Sound(s) && AllTruthful(s.log)
    ensures AllTruthful(Challenge(s, certificate, generation, env).rt.log)
  {
    hide Exchange, Reinstate, ProtocolRejection, AllTruthful, LeaseFor;
    var request, ack := P.Probe(certificate, s.nonce), P.ProbeAck(certificate, s.nonce);
    ExchangeTouchesChild(s, request, ack, env.fault);
    var s1 := Exchange(s, request, ack, env.fault).rt;
    ReinstateTruthful(s1, certificate, generation, env);
    RejectionTruthful(s1, env.errorText);
  }

  lemma ProbeTruthful(s: Rt, env: Env)
    ensures KeepsTruth(s, ProbeStep(s, env))
  {
    hide Record, Challenge, AllTruthful, LeaseFor;
    if Sound(s) && AllTruthful(s.log) {
      var s1 := s.(metrics := s.metrics.(probeRequests := Saturate(s.metrics.probeRequests + 1)));
      if !ProbeEligible(s1) {
        RecordTruthful(s1, ProbeRejected, None);
      } else if s1.body.certificate < 0xffff_ffff_ffff_ffff && s1.body.generation < 0xffff_ffff_ffff_ffff {
        var s2 := NextNonce(s1).rt;
        RecordTruthful(s2, ProbeRequest, None);
        RecordTouchesLog(s2, ProbeRequest, None);
        ChallengeTruthful(Record(s2, ProbeRequest, None).rt, s1.body.certificate + 1, s1.body.generation + 1, env);
      }
    }
  }

  lemma StepTruthful(s: Rt, ev: Event)
    ensures KeepsTruth(s, Step(s, ev))
  {
    hide BeginStep, CommitStep, ProbeStep, Quarantine, AllTruthful, LeaseFor;
    match ev
    case Begin => BeginTruthful(s);
    case Commit(env) => CommitTruthful(s, env);
    case Reset(env) =>
      if Sound(s) && AllTruthful(s.log) && s.body.epoch < 0xffff_ffff_ffff_ffff && s.body.generation < 0xffff_ffff_ffff_ffff {
        QuarantineTruthful(s.(body := s.body.(epoch := s.body.epoch + 1, generation := s.body.generation + 1)), true, env);
      }
    case Probe(env) => ProbeTruthful(s, env);
    case LeaseTimeout(env) =>
      if Sound(s) && AllTruthful(s.log) {
        QuarantineTruthful(s, false, env);
      }
  }

  lemma GoodIsSound(s: Rt)
    requires Good(s)
    ensures Sound(s)
  {
    hide Conserved, Numbered, Audited, Paired, LeaseFor;
  }

  lemma {:induction false} StepsTruthful(s: Rt, events: seq<Event>)
    requires Good(s) && AllTruthful(s.log)
    ensures AllTruthful(Steps(s, events).rt.log)
    decreases |events|
  {
    hide Good, Step, Effect, AllTruthful, Sound;
    if events != [] {
      GoodIsSound(s);
      StepTruthful(s, events[0]);
      if Step(s, events[0]).Done? {
        StepKeeps(s, events[0]);
        StepsTruthful(Step(s, events[0]).rt, events[1..]);
      }
    }
  }

  lemma CompleteTruthful(s: Rt)
    requires Sound(s) && AllTruthful(s.log)
    ensures AllTruthful(Complete(s).rt.log)
  {
    hide Record, SealedEntry, LeaseFor, Truthful;
    var s1 := s.(metrics := s.metrics.(damage := DamageOf(s.metrics)));
    RecordTruthful(s1, Final(s1.metrics.damage), s1.active);
    RecordTouchesLog(s1, Final(s1.metrics.damage), s1.active);
    var s2 := Record(s1, Final(s1.metrics.damage), s1.active).rt;
    if SealedEntry(s2.log, s2.body, s2.active).Ok? {
      SealTruthful(s2);
    }
  }

  lemma SealTruthful(s: Rt)
    requires Sound(s) && SealedEntry(s.log, s.body, s.active).Ok?
    ensures Truthful(SealedEntry(s.log, s.body, s.active).value)
  {
    hide MakeEntry;
    var prev := LastHash(s.log, 0);
    MadeShows(LedgerSnapshot(Seal, |s.log| + 1, SEAL_EVENT, SEAL_DETAIL, Allow, s.body, s.active, Some(|s.log|),
          Some(prev), prev));
    assert |SEAL_EVENT| == 11;
  }

  lemma FinishTruthful(s: Rt, env: Env, exitOk: bool)
    requires Sound(s) && AllTruthful(s.log)
    ensures AllTruthful(Finish(s, env, exitOk).rt.log)
  {
    hide Exchange, Complete, ProtocolRejection, AllTruthful, LeaseFor;
    var s1 := NextNonce(s).rt;
    var request, ack := P.Stop(s1.actionCounter, s1.nonce), P.StopAck(s1.actionCounter, s1.nonce);
    ExchangeTouchesChild(s1, request, ack, env.fault);
    var s2 := Dropped(Exchange(s1, request, ack, env.fault).rt);
    RejectionTruthful(s2, env.errorText);
    CompleteTruthful(s2);
  }

  lemma NewTruthful(inbox: seq<ReaderMessage>, pid: u64, env: Env)
    ensures AllTruthful(New(inbox, pid, env).rt.log)
  {
    hide Record, CompilePolicy, P.ValidateHello;
    PolicyCompiles();
    if inbox != [] && CheckedLeaseDeadline(env.now, REFLEX.leaseNs).Ok? {
      var s0 := InitialState(REFLEX, inbox[1..]);
      var s1 := s0.(active := Some(LeaseFor(s0.body, s0.reflex, CheckedLeaseDeadline(env.now, s0.reflex.leaseNs).value)));
      RecordTruthful(s1, LeaseInstalled(false), s1.active);
    }
  }

  /** Every ledger the runtime leaves, after a success or any failure, with any child: no line shows a
      lease for a quarantined body or for another body, and every line about work shows a lease. */
  lemma LedgerIsTruthful(l: Life)
    ensures AllTruthful(Live(l).rt.log)
  {
    hide New, Steps, Finish, Received, Good, AllTruthful, Sound;
    NewTruthful(Received(l.output), l.pid, l.start);
    var s0 := New(Received(l.output), l.pid, l.start);
    if s0.Done? {
      StartsGood(Received(l.output), l.pid, l.start);
      StepsTruthful(s0.rt, l.events);
      var s1 := Steps(s0.rt, l.events);
      if s1.Done? {
        StepsKeep(s0.rt, l.events);
        GoodIsSound(s1.rt);
        FinishTruthful(s1.rt, l.stop, l.exitOk);
      }
    }
  }
}
