/** What each event does when it succeeds, in closed form: the one exchange with the child it makes,
    the fields it changes and the ledger events it appends. The invariants are proved from these. */
module RuntimeEffects {
  import opened Words
  import opened Authority
  import opened LedgerEntries
  import opened LedgerWriter
  import opened RuntimeSpec
  import P = Protocol
  import Workload

  const REFLEX := ReflexProgram(1, [Work(5_000)], PRINCIPAL_ID, RESOURCE_ID, ACTION_ID, DEFAULT_LEASE_NS)

  /** The runtime's own policy always compiles. */
  lemma PolicyCompiles()
    ensures CompilePolicy(POLICY) == Ok(REFLEX) && Verified(REFLEX)
  {
    CompilePolicyExact(POLICY);
  }

  function Names(log: seq<LedgerEntry>): (r: seq<string>)
    ensures |r| == |log|
  {
    seq(|log|, i requires 0 <= i < |log| => log[i].event)
  }

  function NamesOf(events: seq<AuditEvent>): (r: seq<string>)
    ensures |r| == |events|
  {
    seq(|events|, i requires 0 <= i < |events| => events[i].Name())
  }

  /** The log grows by chained event entries for these events. */
  predicate Appended(log: seq<LedgerEntry>, log': seq<LedgerEntry>, events: seq<AuditEvent>)
  {
    OpenLog(log') && log <= log' && Names(log') == Names(log) + NamesOf(events) && |log'| <= 0xffff_ffff_ffff_ffff
  }

  /** One request is sent, and the next thing the child says is its valid acknowledgement. */
  predicate Exchanged(c: Child, c': Child, request: P.ChildRequest, ack: P.ExpectedAck, authority: P.AuthoritySnapshot)
  {
    && c.open && c.inbox != [] && c.inbox[0].Line?
    && P.ValidateBoundAck(c.inbox[0].text, ack, authority)
    && c' == Child(c.inbox[1..], c.sent + [P.BoundRequest(request, authority)], true)
  }

  lemma RecordEffect(s: Rt, event: AuditEvent, lease: Option<SafetyLease>)
    requires OpenLog(s.log)
    ensures var r := Record(s, event, lease);
            r.Done? ==> r.rt == s.(log := r.rt.log) && Appended(s.log, r.rt.log, [event])
  {
    hide RecordedEntry, OpenLog, AuditEvent.Name, AuditEvent.Detail, AuditEvent.Verdict;
    RecordedKeepsChain(s.log, event.Name(), event.Detail(), event.Verdict(), s.body, lease);
    var r := RecordedEntry(s.log, event.Name(), event.Detail(), event.Verdict(), s.body, lease);
    if r.Ok? {
      assert Names(s.log + [r.value]) == Names(s.log) + NamesOf([event]);
    }
  }

  lemma AppendedTwice(a: seq<LedgerEntry>, b: seq<LedgerEntry>, c: seq<LedgerEntry>, m: seq<AuditEvent>, n: seq<AuditEvent>)
    requires Appended(a, b, m) && Appended(b, c, n)
    ensures Appended(a, c, m + n)
  {
    hide OpenLog, AuditEvent.Name;
    assert NamesOf(m + n) == NamesOf(m) + NamesOf(n);
    assert Names(a) + NamesOf(m + n) == Names(a) + NamesOf(m) + NamesOf(n);
  }

  /** An exchange succeeds exactly when nothing fails and the child gives the expected answer. */
  lemma ExchangeEffect(s: Rt, request: P.ChildRequest, ack: P.ExpectedAck, fault: Fault)
    ensures var r := Exchange(s, request, ack, fault);
            && (r.Done? <==> fault.NoFault? && s.child.open && s.child.inbox != [] && s.child.inbox[0].Line?
                             && P.ValidateBoundAck(s.child.inbox[0].text, ack, AuthorityOf(s)))
            && (r.Done? ==> r.rt == s.(child := r.rt.child)
                            && Exchanged(s.child, r.rt.child, request, ack, AuthorityOf(s)))
  {
    hide P.ValidateBoundAck;
  }

  // ---------------------------------------------------------------------------------------------
  // The events
  // ---------------------------------------------------------------------------------------------

  predicate Began(s: Rt, r: Rt)
  {
    && !s.transaction.pending
    && r == s.(transaction := Transaction(true, s.active), log := r.log)
    && Appended(s.log, r.log, [BeginAction])
  }

  function WorkRequest(s: Rt): P.ChildRequest
    requires s.nonce < 0xffff_ffff_ffff_ffff && s.actionCounter < 0xffff_ffff_ffff_ffff
  {
    P.Work(s.actionCounter + 1, s.nonce + 1, 5_000)
  }

  function WorkAccepted(s: Rt): AuditEvent
    requires s.nonce < 0xffff_ffff_ffff_ffff && s.actionCounter < 0xffff_ffff_ffff_ffff
    requires s.metrics.childActions < 0xffff_ffff_ffff_ffff
  {
    ChildAckAccepted(s.actionCounter + 1, s.nonce + 1, s.metrics.childActions + 1,
          Workload.Digest(s.actionCounter + 1, 5_000))
  }

  /** An allowed COMMIT: one WORK request, acknowledged with the action count and digest expected. */
  predicate Worked(s: Rt, now: u64, r: Rt)
  {
    var m := s.metrics;
    && DecisionAt(s, now) == Allow
    && s.nonce < 0xffff_ffff_ffff_ffff && s.actionCounter < 0xffff_ffff_ffff_ffff
    && m.childActions < 0xffff_ffff_ffff_ffff && m.allowedCommits < 0xffff_ffff_ffff_ffff
    && Exchanged(s.child, r.child, WorkRequest(s),
                 P.WorkAck(s.actionCounter + 1, s.nonce + 1, m.childActions + 1, Workload.Digest(s.actionCounter + 1, 5_000)),
                 AuthorityOf(s))
    && r == s.(transaction := IDLE, child := r.child, nonce := s.nonce + 1, actionCounter := s.actionCounter + 1,
          log := r.log,
               metrics := m.(allowedCommits := m.allowedCommits + 1, childActions := m.childActions + 1,
                             verifiedWorkAcks := Saturate(m.verifiedWorkAcks + 1)))
    && Appended(s.log, r.log, [WorkAccepted(s), CommitDone])
  }

  predicate CommitRefused(s: Rt, now: u64, r: Rt)
  {
    && DecisionAt(s, now) != Allow
    && r == s.(transaction := if s.transaction.pending then IDLE else s.transaction, log := r.log,
               metrics := s.metrics.(blockedCommits := Saturate(s.metrics.blockedCommits + 1),
                                     staleOrExpiredBlocked := Saturate(s.metrics.staleOrExpiredBlocked + 1)))
    && Appended(s.log, r.log, [CommitBlocked(DecisionAt(s, now))])
  }

  /** The body is isolated and the child confirms the rollback. */
  predicate RolledBack(s: Rt, onReset: bool, r: Rt)
  {
    var s1 := Isolated(s);
    && s.metrics.rollbacks < 0xffff_ffff_ffff_ffff && s.nonce < 0xffff_ffff_ffff_ffff
    && Exchanged(s.child, r.child, P.Rollback(s.metrics.rollbacks + 1, s.nonce + 1),
                 P.RollbackAck(s.metrics.rollbacks + 1, s.nonce + 1), AuthorityOf(s))
    && r == s1.(child := r.child, nonce := s.nonce + 1, rollbackConfirmed := true, log := r.log,
                metrics := s1.metrics.(rollbacks := s.metrics.rollbacks + 1,
                                       rollbackAcks := Saturate(s.metrics.rollbackAcks + 1)))
    && Appended(s.log, r.log, [Quarantined(onReset), RollbackAccepted])
  }

  predicate WasReset(s: Rt, r: Rt)
  {
    && s.body.epoch < 0xffff_ffff_ffff_ffff && s.body.generation < 0xffff_ffff_ffff_ffff
    && RolledBack(s.(body := s.body.(epoch := s.body.epoch + 1, generation := s.body.generation + 1)), true, r)
  }

  predicate ProbeRefused(s: Rt, r: Rt)
  {
    && !ProbeEligible(s)
    && r == s.(metrics := s.metrics.(probeRequests := Saturate(s.metrics.probeRequests + 1)), log := r.log)
    && Appended(s.log, r.log, [ProbeRejected])
  }

  function Renewed(b: BodyState): BodyState
    requires b.certificate < 0xffff_ffff_ffff_ffff && b.generation < 0xffff_ffff_ffff_ffff
  {
    b.(certificate := b.certificate + 1, generation := b.generation + 1, quarantined := false)
  }

  /** The child answered a probe: the body comes back with a new certificate, generation and lease. */
  predicate Reinstated(s: Rt, now: u64, r: Rt)
  {
    && ProbeEligible(s)
    && s.body.certificate < 0xffff_ffff_ffff_ffff && s.body.generation < 0xffff_ffff_ffff_ffff
    && s.nonce < 0xffff_ffff_ffff_ffff
    && CheckedLeaseDeadline(now, s.reflex.leaseNs).Ok?
    && Exchanged(s.child, r.child, P.Probe(s.body.certificate + 1, s.nonce + 1),
                 P.ProbeAck(s.body.certificate + 1, s.nonce + 1), AuthorityOf(s))
    && r == s.(body := Renewed(s.body), child := r.child,
               active := Some(LeaseFor(Renewed(s.body), s.reflex, CheckedLeaseDeadline(now, s.reflex.leaseNs).value)),
               nonce := s.nonce + 1, rollbackConfirmed := false, log := r.log,
               metrics := s.metrics.(probeRequests := Saturate(s.metrics.probeRequests + 1),
                                     probeRecoveries := Saturate(s.metrics.probeRecoveries + 1)))
    && Appended(s.log, r.log, [ProbeRequest, LeaseInstalled(true), ProbeAccepted])
  }

  predicate Effect(s: Rt, ev: Event, r: Rt)
  {
    match ev
    case Begin => Began(s, r)
    case Commit(env) => Worked(s, env.now, r) || CommitRefused(s, env.now, r)
    case Reset(_) => WasReset(s, r)
    case Probe(env) => ProbeRefused(s, r) || Reinstated(s, env.now, r)
    case LeaseTimeout(_) => RolledBack(s, false, r)
  }

  // ---------------------------------------------------------------------------------------------
  // Every successful event has its effect
  // ---------------------------------------------------------------------------------------------

  lemma BeginEffect(s: Rt)
    requires OpenLog(s.log) && BeginStep(s).Done?
    ensures Began(s, BeginStep(s).rt)
  {
    hide Record, OpenLog, Appended;
    RecordEffect(s.(transaction := Transaction(true, s.active)), BeginAction, s.active);
  }

  lemma AcceptWorkEffect(s: Rt, id: u64, actions: u64, digest: u64)
    requires OpenLog(s.log) && AcceptWork(s, id, actions, digest).Done?
    ensures var r, m := AcceptWork(s, id, actions, digest).rt, s.metrics;
            && m.allowedCommits < 0xffff_ffff_ffff_ffff
            && r == s.(actionCounter := id, log := r.log,
                       metrics := m.(allowedCommits := m.allowedCommits + 1, childActions := actions,
                                     verifiedWorkAcks := Saturate(m.verifiedWorkAcks + 1)))
            && Appended(s.log, r.log, [ChildAckAccepted(id, s.nonce, actions, digest), CommitDone])
  {
    hide Record, OpenLog, Appended;
    var s1 := s.(actionCounter := id,
                 metrics := s.metrics.(allowedCommits := s.metrics.allowedCommits + 1,
                                       childActions := actions,
                                       verifiedWorkAcks := Saturate(s.metrics.verifiedWorkAcks + 1)));
    var accepted := ChildAckAccepted(id, s1.nonce, actions, digest);
    RecordEffect(s1, accepted, s1.active);
    var s2 := Record(s1, accepted, s1.active).rt;
    AppendedIsOpen(s1.log, s2.log, [accepted]);
    RecordEffect(s2, CommitDone, s2.active);
    AppendedTwice(s.log, s2.log, AcceptWork(s, id, actions, digest).rt.log, [accepted], [CommitDone]);
    assert [accepted] + [CommitDone] == [accepted, CommitDone];
  }

  lemma DispatchEffect(s: Rt, now: u64, env: Env)
    requires OpenLog(s.log) && s.reflex == REFLEX && DecisionAt(s, now) == Allow
    requires Dispatch(s.(transaction := IDLE), env).Done?
    ensures Worked(s, now, Dispatch(s.(transaction := IDLE), env).rt)
  {
    hide P.ValidateBoundAck, Exchange, Exchanged, OpenLog, Appended, Workload.Digest, ProtocolRejection,
          AcceptWork, DecisionAt, AuthorityOf;
    var s0, m := s.(transaction := IDLE), s.metrics;
    var id, actions := s.actionCounter + 1, m.childActions + 1;
    var s1 := NextNonce(s0).rt;
    assert AuthorityOf(s1) == AuthorityOf(s) by { SameSnapshot(s, s1); }
    var digest := Workload.Digest(id, 5_000);
    var request, ack := P.Work(id, s1.nonce, 5_000), P.WorkAck(id, s1.nonce, actions, digest);
    ExchangeEffect(s1, request, ack, env.fault);
    AcceptWorkEffect(Exchange(s1, request, ack, env.fault).rt, id, actions, digest);
  }

  lemma SameSnapshot(s: Rt, t: Rt)
    requires s.body.(quarantined := t.body.quarantined) == t.body && s.reflex == t.reflex
    ensures AuthorityOf(s) == AuthorityOf(t)
  {
  }

  lemma AppendedIsOpen(log: seq<LedgerEntry>, log': seq<LedgerEntry>, names: seq<AuditEvent>)
    requires Appended(log, log', names)
    ensures OpenLog(log') && |log'| == |log| + |names| <= 0xffff_ffff_ffff_ffff && Names(log') == Names(log) + NamesOf(names)
  {
    assert |Names(log')| == |Names(log)| + |NamesOf(names)|;
  }

  lemma CommitEffect(s: Rt, env: Env)
    requires OpenLog(s.log) && s.reflex == REFLEX && CommitStep(s, env).Done?
    requires !s.transaction.pending ==> s.transaction == IDLE
    ensures Worked(s, env.now, CommitStep(s, env).rt) || CommitRefused(s, env.now, CommitStep(s, env).rt)
  {
    hide Record, Dispatch, OpenLog, Appended, CommitDecision, Worked;
    var s1 := s.(transaction := if s.transaction.pending then IDLE else s.transaction);
    if DecisionAt(s, env.now) == Allow {
      CommitAllows(s.transaction, s.body, s.active, RequestAt(env.now));
      DispatchEffect(s, env.now, env);
    } else {
      var s2 := s1.(metrics := s1.metrics.(blockedCommits := Saturate(s1.metrics.blockedCommits + 1),
                                           staleOrExpiredBlocked := Saturate(s1.metrics.staleOrExpiredBlocked + 1)));
      RecordEffect(s2, CommitBlocked(DecisionAt(s, env.now)), s2.active);
    }
  }

  lemma ConfirmRollbackEffect(s: Rt, env: Env)
    requires OpenLog(s.log) && ConfirmRollback(s, env).Done?
    ensures var r := ConfirmRollback(s, env).rt;
            && Exchanged(s.child, r.child, P.Rollback(s.metrics.rollbacks, s.nonce),
                         P.RollbackAck(s.metrics.rollbacks, s.nonce), AuthorityOf(s))
            && r == s.(child := r.child, rollbackConfirmed := true, log := r.log,
                       metrics := s.metrics.(rollbackAcks := Saturate(s.metrics.rollbackAcks + 1)))
            && Appended(s.log, r.log, [RollbackAccepted])
  {
    hide P.ValidateBoundAck, Record, Exchange, Exchanged, OpenLog, Appended, AuthorityOf;
    var id := s.metrics.rollbacks;
    ExchangeEffect(s, P.Rollback(id, s.nonce), P.RollbackAck(id, s.nonce), env.fault);
    var s1 := Exchange(s, P.Rollback(id, s.nonce), P.RollbackAck(id, s.nonce), env.fault).rt;
    var s2 := s1.(rollbackConfirmed := true, metrics := s1.metrics.(rollbackAcks := Saturate(s1.metrics.rollbackAcks + 1)));
    RecordEffect(s2, RollbackAccepted, None);
  }

  lemma QuarantineEffect(s: Rt, onReset: bool, env: Env)
    requires OpenLog(s.log) && Quarantine(s, onReset, env).Done?
    ensures RolledBack(s, onReset, Quarantine(s, onReset, env).rt)
  {
    hide Record, ConfirmRollback, Exchanged, OpenLog, Appended, AuthorityOf;
    var s1 := Isolated(s);
    var s2 := s1.(metrics := s1.metrics.(rollbacks := s1.metrics.rollbacks + 1));
    RecordEffect(s2, Quarantined(onReset), None);
    var s3 := Record(s2, Quarantined(onReset), None).rt;
    AppendedIsOpen(s2.log, s3.log, [Quarantined(onReset)]);
    var s4 := NextNonce(s3).rt;
    ConfirmRollbackEffect(s4, env);
    SameSnapshot(s, s4);
    AppendedTwice(s.log, s3.log, Quarantine(s, onReset, env).rt.log, [Quarantined(onReset)], [RollbackAccepted]);
    assert [Quarantined(onReset)] + [RollbackAccepted] == [Quarantined(onReset), RollbackAccepted];
  }

  lemma ResetEffect(s: Rt, env: Env)
    requires OpenLog(s.log) && ResetStep(s, env).Done?
    ensures WasReset(s, ResetStep(s, env).rt)
  {
    hide Quarantine, OpenLog, RolledBack;
    QuarantineEffect(s.(body := s.body.(epoch := s.body.epoch + 1, generation := s.body.generation + 1)), true, env);
  }

  lemma ReinstateEffect(s: Rt, certificate: u64, generation: u64, env: Env)
    requires OpenLog(s.log) && Reinstate(s, certificate, generation, env).Done?
    ensures CheckedLeaseDeadline(env.now, s.reflex.leaseNs).Ok?
    ensures var r := Reinstate(s, certificate, generation, env).rt;
            var body := s.body.(certificate := certificate, generation := generation, quarantined := false);
            && r == s.(body := body, active := Some(LeaseFor(body, s.reflex, CheckedLeaseDeadline(env.now,
                  s.reflex.leaseNs).value)),
                       rollbackConfirmed := false, log := r.log,
                       metrics := s.metrics.(probeRecoveries := Saturate(s.metrics.probeRecoveries + 1)))
            && Appended(s.log, r.log, [LeaseInstalled(true), ProbeAccepted])
  {
    hide Record, OpenLog, Appended, LeaseFor, CheckedLeaseDeadline;
    var until := CheckedLeaseDeadline(env.now, s.reflex.leaseNs).value;
    var body := s.body.(certificate := certificate, generation := generation, quarantined := false);
    var s1 := s.(body := body, active := Some(LeaseFor(body, s.reflex, until)), rollbackConfirmed := false,
                 metrics := s.metrics.(probeRecoveries := Saturate(s.metrics.probeRecoveries + 1)));
    RecordEffect(s1, LeaseInstalled(true), s1.active);
    var s2 := Record(s1, LeaseInstalled(true), s1.active).rt;
    AppendedIsOpen(s1.log, s2.log, [LeaseInstalled(true)]);
    RecordEffect(s2, ProbeAccepted, s2.active);
    AppendedTwice(s1.log, s2.log, Reinstate(s, certificate, generation, env).rt.log,
                  [LeaseInstalled(true)], [ProbeAccepted]);
    assert [LeaseInstalled(true)] + [ProbeAccepted]
        == [LeaseInstalled(true), ProbeAccepted];
  }

  lemma ChallengeEffect(s: Rt, certificate: u64, generation: u64, env: Env)
    requires OpenLog(s.log) && Challenge(s, certificate, generation, env).Done?
    ensures CheckedLeaseDeadline(env.now, s.reflex.leaseNs).Ok?
    ensures var r := Challenge(s, certificate, generation, env).rt;
            var body := s.body.(certificate := certificate, generation := generation, quarantined := false);
            && Exchanged(s.child, r.child, P.Probe(certificate, s.nonce), P.ProbeAck(certificate, s.nonce), AuthorityOf(s))
            && r == s.(body := body, active := Some(LeaseFor(body, s.reflex, CheckedLeaseDeadline(env.now,
                  s.reflex.leaseNs).value)),
                       rollbackConfirmed := false, child := r.child, log := r.log,
                       metrics := s.metrics.(probeRecoveries := Saturate(s.metrics.probeRecoveries + 1)))
            && Appended(s.log, r.log, [LeaseInstalled(true), ProbeAccepted])
  {
    hide P.ValidateBoundAck, Exchange, Exchanged, OpenLog, Appended, Reinstate, LeaseFor, CheckedLeaseDeadline,
          ProtocolRejection, AuthorityOf;
    var request, ack := P.Probe(certificate, s.nonce), P.ProbeAck(certificate, s.nonce);
    ExchangeEffect(s, request, ack, env.fault);
    ReinstateEffect(Exchange(s, request, ack, env.fault).rt, certificate, generation, env);
  }

  lemma ProbeEffect(s: Rt, env: Env)
    requires OpenLog(s.log) && ProbeStep(s, env).Done?
    ensures ProbeRefused(s, ProbeStep(s, env).rt) || Reinstated(s, env.now, ProbeStep(s, env).rt)
  {
    hide Record, Challenge, Exchanged, OpenLog, Appended, LeaseFor, CheckedLeaseDeadline, AuthorityOf;
    var s1 := s.(metrics := s.metrics.(probeRequests := Saturate(s.metrics.probeRequests + 1)));
    if !ProbeEligible(s1) {
      RecordEffect(s1, ProbeRejected, None);
    } else {
      var id, generation := s1.body.certificate + 1, s1.body.generation + 1;
      var s2 := NextNonce(s1).rt;
      RecordEffect(s2, ProbeRequest, None);
      var s3 := Record(s2, ProbeRequest, None).rt;
      AppendedIsOpen(s2.log, s3.log, [ProbeRequest]);
      ChallengeEffect(s3, id, generation, env);
      SameSnapshot(s, s3);
      var r := Challenge(s3, id, generation, env).rt;
      var a, b := [ProbeRequest], [LeaseInstalled(true), ProbeAccepted];
      AppendedTwice(s.log, s3.log, r.log, a, b);
      assert a + b == [ProbeRequest, LeaseInstalled(true), ProbeAccepted];
    }
  }

  /** A successful event has exactly its closed-form effect. */
  lemma StepEffect(s: Rt, ev: Event)
    requires OpenLog(s.log) && s.reflex == REFLEX && Step(s, ev).Done?
    requires !s.transaction.pending ==> s.transaction == IDLE
    ensures Effect(s, ev, Step(s, ev).rt)
  {
    hide OpenLog, BeginStep, CommitStep, ResetStep, ProbeStep, Quarantine, Began, Worked, CommitRefused, WasReset,
         ProbeRefused, Reinstated, RolledBack;
    match ev
    case Begin => BeginEffect(s);
    case Commit(env) => CommitEffect(s, env);
    case Reset(env) => ResetEffect(s, env);
    case Probe(env) => ProbeEffect(s, env);
    case LeaseTimeout(env) => QuarantineEffect(s, false, env);
  }
}
