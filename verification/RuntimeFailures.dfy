/** Every failure of the runtime in closed form (src/runtime.rs, `record_protocol_rejection` and the
    failing branch of `quarantine`): when an event fails, and the whole state it leaves behind. */
module RuntimeFailures {
  import opened Words
  import opened Utf8
  import opened Authority
  import opened LedgerEntries
  import opened LedgerChain
  import opened LedgerWriter
  import opened Frames
  import opened RuntimeSpec
  import opened RuntimeEffects
  import opened RuntimeInvariant
  import opened RuntimeRuns
  import opened RuntimeAudit
  import opened RuntimeLines
  import opened Progress
  import WireLanguage
  import P = Protocol
  import Workload

  // ---------------------------------------------------------------------------------------------
  // One exchange
  // ---------------------------------------------------------------------------------------------

  /** Nothing goes wrong on the way, and the next line of the child is the answer. */
  predicate Replies(c: Child, m: P.Message, fault: Fault)
  {
    fault.NoFault? && Answered(c, m)
  }

  /** What a failed exchange leaves of the child: its input is closed. The request was written unless
      the write itself failed, and one message was taken unless none came. */
  function AfterLoss(c: Child, m: P.Message, fault: Fault): (r: Child)
  {
    if fault.WriteFails? then Child(c.inbox, c.sent, false)
    else Child(if fault.ReplyLost? || c.inbox == [] then c.inbox else c.inbox[1..], c.sent + [m], false)
  }

  lemma ExchangeExactly(s: Rt, request: P.ChildRequest, ack: P.ExpectedAck, authority: P.AuthoritySnapshot, fault: Fault)
    requires ack == AckOf(request) && authority == AuthorityOf(s) && s.child.open
    ensures var r, m := Exchange(s, request, ack, fault), P.BoundRequest(request, authority);
            && (r.Done? <==> Replies(s.child, m, fault))
            && r.rt == s.(child := r.rt.child)
            && (r.Failed? ==> r.rt.child == AfterLoss(s.child, m, fault))
            && (r.Done? ==> s.child.inbox != [] && r.rt.child == Child(s.child.inbox[1..], s.child.sent + [m], true))
  {
    hide P.Text, P.Print, P.TrimEndNewlines, AckOf, AuthorityOf;
    WireLanguage.TrimPrinted(P.BoundAck(ack, authority));
  }

  // ---------------------------------------------------------------------------------------------
  // What is left
  // ---------------------------------------------------------------------------------------------

  /** The body is quarantined as it stands, and no authority is left: no lease, no capture, no
      confirmed rollback. */
  predicate Shut(s: Rt, r: Rt)
  {
    && r.body == s.body.(quarantined := true)
    && r.active == None
    && r.transaction == Transaction(false, None)
    && !r.rollbackConfirmed
    && r.reflex == s.reflex && r.actionCounter == s.actionCounter
  }

  /** Damage is reported, and a quarantine is counted if the body was free; nothing else is. */
  predicate Damaged(m: Metrics, wasQuarantined: bool, m': Metrics)
  {
    m' == m.(damage := 1, quarantines := if wasQuarantined then m.quarantines else Saturate(m.quarantines + 1))
  }

  /** The failure is the last line of the log, with the quarantined body, no lease, and its own text; a
      text or a log too long leaves no line. */
  predicate Reports(log: seq<LedgerEntry>, log': seq<LedgerEntry>, name: string, text: string, body: BodyState)
  {
    if |log| < 0xffff_ffff_ffff_ffff && |Encode(text)| <= MAX_DETAIL_BYTES then
      && |log'| == |log| + 1 && log'[..|log|] == log
      && log'[|log|].kind.Event?
      && Shows(log'[|log|], name, BlockQuarantine, body, None)
      && log'[|log|].detail == text
    else log' == log
  }

  lemma RecordReports(s: Rt, event: AuditEvent)
    requires OpenLog(s.log) && (event.ProtocolRejected? || event.RollbackRejected?)
    ensures var r, name := Record(s, event, None).rt,
                    if event.ProtocolRejected? then "PROTOCOL_ACK_REJECTED" else "ROLLBACK_ACK_REJECTED";
            r == s.(log := r.log) && Reports(s.log, r.log, name, event.text, s.body)
  {
    hide RecordedEntry, OpenLog, Shows, Encode, AuditEvent.Name, AuditEvent.Detail, AuditEvent.Verdict;
    RejectionNames(event);
    Verdicts(event);
    Texts(event);
    NameFits(event);
    RecordedKeepsChain(s.log, event.Name(), event.Detail(), event.Verdict(), s.body, None);
    if Record(s, event, None).Done? {
      RecordTells(s, event, None);
      var lines := [AuditLine(event, s.body, None)];
      assert Tells(Record(s, event, None).rt.log[|s.log| + 0], lines[0]);
    }
  }

  lemma RejectionIs(s: Rt, reason: string)
    requires OpenLog(s.log)
    ensures var r := ProtocolRejection(s, reason);
            && Shut(s, r) && Damaged(s.metrics, s.body.quarantined, r.metrics)
            && r.nonce == s.nonce && r.child == s.child
            && Reports(s.log, r.log, "PROTOCOL_ACK_REJECTED", reason, r.body)
  {
    hide Record, Reports, OpenLog;
    var s1 := Isolated(s);
    RecordReports(s1.(metrics := s1.metrics.(damage := 1)), ProtocolRejected(reason));
  }

  // ---------------------------------------------------------------------------------------------
  // WORK
  // ---------------------------------------------------------------------------------------------

  /** An allowed COMMIT whose WORK was not acknowledged. */
  predicate WorkLost(s: Rt, env: Env, r: Rt)
    requires !AtLimit(s)
  {
    && Shut(s, r) && Damaged(s.metrics, s.body.quarantined, r.metrics) && r.nonce == s.nonce + 1
    && r.child == AfterLoss(s.child, P.BoundRequest(WorkRequest(s), AuthorityOf(s)), env.fault)
    && Reports(s.log, r.log, "PROTOCOL_ACK_REJECTED", env.errorText, r.body)
  }

  lemma WorkFails(s: Rt, env: Env)
    requires Good(s) && !AtLimit(s) && DecisionAt(s, env.now) == Allow
    requires !Replies(s.child, P.BoundRequest(WorkRequest(s), AuthorityOf(s)), env.fault)
    ensures CommitStep(s, env).Failed? && WorkLost(s, env, CommitStep(s, env).rt)
  {
    hide Exchange, ProtocolRejection, AcceptWork, DecisionAt, AuthorityOf, Workload.Digest, OpenLog, Reports, AfterLoss,
         Replies, TallyOf, Paired, LeaseFor, InNonceOrder;
    var s1 := s.(transaction := if s.transaction.pending then IDLE else s.transaction);
    var s2 := NextNonce(s1).rt;
    SameSnapshot(s, s2);
    var id := s.actionCounter + 1;
    var request, ack := P.Work(id, s2.nonce, 5_000), P.WorkAck(id, s2.nonce, id, Workload.Digest(id, 5_000));
    ExchangeExactly(s2, request, ack, AuthorityOf(s2), env.fault);
    RejectionIs(Exchange(s2, request, ack, env.fault).rt, env.errorText);
  }

  // ---------------------------------------------------------------------------------------------
  // ROLLBACK
  // ---------------------------------------------------------------------------------------------

  /** A quarantine whose ROLLBACK was not acknowledged. */
  predicate RollbackLost(s: Rt, onReset: bool, env: Env, r: Rt)
    requires s.nonce < 0xffff_ffff_ffff_ffff && s.metrics.rollbacks < 0xffff_ffff_ffff_ffff
  {
    var n := |s.log| + 1;
    && Shut(s, r) && Damaged(s.metrics.(rollbacks := s.metrics.rollbacks + 1), s.body.quarantined, r.metrics)
    && r.nonce == s.nonce + 1
    && r.child == AfterLoss(s.child, P.BoundRequest(P.Rollback(s.metrics.rollbacks + 1, s.nonce + 1), AuthorityOf(s)),
                            env.fault)
    && |r.log| >= n && LogTells(s.log, r.log[..n], [AuditLine(Quarantined(onReset), r.body, None)])
    && Reports(r.log[..n], r.log, "ROLLBACK_ACK_REJECTED", env.errorText, r.body)
  }

  lemma ConfirmFails(s: Rt, env: Env)
    requires OpenLog(s.log) && s.child.open
    requires !Replies(s.child, P.BoundRequest(P.Rollback(s.metrics.rollbacks, s.nonce), AuthorityOf(s)), env.fault)
    ensures ConfirmRollback(s, env).Failed?
    ensures var r := ConfirmRollback(s, env).rt;
            && r == s.(child := r.child, log := r.log, metrics := s.metrics.(damage := 1))
            && r.child == AfterLoss(s.child, P.BoundRequest(P.Rollback(s.metrics.rollbacks, s.nonce), AuthorityOf(s)),
                                    env.fault)
            && Reports(s.log, r.log, "ROLLBACK_ACK_REJECTED", env.errorText, s.body)
  {
    hide Exchange, Record, AuthorityOf, OpenLog, Reports, AfterLoss, Replies;
    var id := s.metrics.rollbacks;
    var request, ack := P.Rollback(id, s.nonce), P.RollbackAck(id, s.nonce);
    ExchangeExactly(s, request, ack, AuthorityOf(s), env.fault);
    var s1 := Exchange(s, request, ack, env.fault).rt;
    RecordReports(s1.(metrics := s1.metrics.(damage := 1)), RollbackRejected(env.errorText));
  }

  lemma RollbackFails(s: Rt, onReset: bool, env: Env)
    requires OpenLog(s.log) && s.child.open && |s.log| < 0xffff_ffff_ffff_ffff
    requires s.nonce < 0xffff_ffff_ffff_ffff && s.metrics.rollbacks < 0xffff_ffff_ffff_ffff
    requires !Replies(s.child, P.BoundRequest(P.Rollback(s.metrics.rollbacks + 1, s.nonce + 1), AuthorityOf(s)), env.fault)
    ensures Quarantine(s, onReset, env).Failed? && RollbackLost(s, onReset, env, Quarantine(s, onReset, env).rt)
  {
    hide Record, ConfirmRollback, AuthorityOf, OpenLog, Reports, AfterLoss, Replies, Tells;
    var s1 := Isolated(s);
    var s2 := s1.(metrics := s1.metrics.(rollbacks := s1.metrics.rollbacks + 1));
    RecordSucceeds(s2, Quarantined(onReset), None);
    RecordTells(s2, Quarantined(onReset), None);
    var s3 := Record(s2, Quarantined(onReset), None).rt;
    var s4 := NextNonce(s3).rt;
    SameSnapshot(s, s4);
    ConfirmFails(s4, env);
    var r := Quarantine(s, onReset, env).rt;
    ReportsAfter(s3.log, r.log, "ROLLBACK_ACK_REJECTED", env.errorText, s2.body);
  }

  lemma ReportsAfter(log: seq<LedgerEntry>, log': seq<LedgerEntry>, name: string, text: string, body: BodyState)
    requires Reports(log, log', name, text, body)
    ensures |log'| >= |log| && log'[..|log|] == log
  {
    hide Encode, Shows;
  }

  // ---------------------------------------------------------------------------------------------
  // PROBE
  // ---------------------------------------------------------------------------------------------

  /** An eligible probe that was not acknowledged. */
  predicate ProbeLost(s: Rt, env: Env, r: Rt)
    requires s.nonce < 0xffff_ffff_ffff_ffff && s.body.certificate < 0xffff_ffff_ffff_ffff
  {
    var n := |s.log| + 1;
    && Shut(s, r) && Damaged(s.metrics.(probeRequests := Saturate(s.metrics.probeRequests + 1)), true, r.metrics)
    && r.nonce == s.nonce + 1
    && r.child == AfterLoss(s.child, P.BoundRequest(P.Probe(s.body.certificate + 1, s.nonce + 1), AuthorityOf(s)), env.fault)
    && |r.log| >= n && LogTells(s.log, r.log[..n], [AuditLine(ProbeRequest, s.body, None)])
    && Reports(r.log[..n], r.log, "PROTOCOL_ACK_REJECTED", env.errorText, r.body)
  }

  /** An acknowledged probe whose new deadline does not fit: the body stays quarantined, without damage. */
  predicate ProbeExpired(s: Rt, r: Rt)
    requires s.nonce < 0xffff_ffff_ffff_ffff && s.body.certificate < 0xffff_ffff_ffff_ffff
  {
    var request := P.BoundRequest(P.Probe(s.body.certificate + 1, s.nonce + 1), AuthorityOf(s));
    && s.child.inbox != []
    && r == s.(nonce := s.nonce + 1, log := r.log,
               child := Child(s.child.inbox[1..], s.child.sent + [request], true),
               metrics := s.metrics.(probeRequests := Saturate(s.metrics.probeRequests + 1)))
    && LogTells(s.log, r.log, [AuditLine(ProbeRequest, s.body, None)])
  }

  predicate CanProbe(s: Rt)
  {
    && ProbeEligible(s) && |s.log| < 0xffff_ffff_ffff_ffff && s.nonce < 0xffff_ffff_ffff_ffff
    && s.body.certificate < 0xffff_ffff_ffff_ffff && s.body.generation < 0xffff_ffff_ffff_ffff
  }

  /** The state in which the probe is sent. */
  predicate Asking(s: Rt, env: Env, s3: Rt)
    requires CanProbe(s)
  {
    hide ProbeStep, Challenge, AuthorityOf, LogTells, OpenLog;
    && s3 == s.(nonce := s.nonce + 1, log := s3.log,
                metrics := s.metrics.(probeRequests := Saturate(s.metrics.probeRequests + 1)))
    && LogTells(s.log, s3.log, [AuditLine(ProbeRequest, s.body, None)])
    && OpenLog(s3.log)
    && ProbeStep(s, env) == Challenge(s3, s.body.certificate + 1, s.body.generation + 1, env)
    && AuthorityOf(s3) == AuthorityOf(s)
  }

  lemma ProbeSent(s: Rt, env: Env) returns (s3: Rt)
    requires OpenLog(s.log) && CanProbe(s)
    ensures Asking(s, env, s3)
  {
    hide Record, Challenge, AuthorityOf, OpenLog, Tells;
    var s1 := s.(metrics := s.metrics.(probeRequests := Saturate(s.metrics.probeRequests + 1)));
    var s2 := NextNonce(s1).rt;
    RecordSucceeds(s2, ProbeRequest, None);
    RecordTells(s2, ProbeRequest, None);
    s3 := Record(s2, ProbeRequest, None).rt;
    SameSnapshot(s, s3);
  }

  lemma ProbeFails(s: Rt, env: Env)
    requires Good(s) && CanProbe(s) && !Replies(s.child, ProbeAsked(s), env.fault)
    ensures ProbeStep(s, env).Failed? && ProbeLost(s, env, ProbeStep(s, env).rt)
  {
    hide ProbeStep, Exchange, Reinstate, ProtocolRejection, AuthorityOf, OpenLog, Reports, AfterLoss, Replies, LogTells,
         TallyOf, Paired, LeaseFor, InNonceOrder;
    var s3 := ProbeSent(s, env);
    var id := s.body.certificate + 1;
    var request, ack := P.Probe(id, s3.nonce), P.ProbeAck(id, s3.nonce);
    ExchangeExactly(s3, request, ack, AuthorityOf(s3), env.fault);
    var s4 := Exchange(s3, request, ack, env.fault).rt;
    RejectionIs(s4, env.errorText);
    var r := ProbeStep(s, env).rt;
    ReportsAfter(s3.log, r.log, "PROTOCOL_ACK_REJECTED", env.errorText, r.body);
    assert |s3.log| == |s.log| + 1 by {
      TellsLength(s.log, s3.log, [AuditLine(ProbeRequest, s.body, None)]);
    }
  }

  lemma TellsLength(log: seq<LedgerEntry>, log': seq<LedgerEntry>, lines: seq<AuditLine>)
    requires LogTells(log, log', lines)
    ensures |log'| == |log| + |lines|
  {
  }

  /** The request of an eligible probe. */
  function ProbeAsked(s: Rt): (m: P.Message)
    requires CanProbe(s)
  {
    P.BoundRequest(P.Probe(s.body.certificate + 1, s.nonce + 1), AuthorityOf(s))
  }

  lemma ProbeExpires(s: Rt, env: Env)
    requires Good(s) && CanProbe(s) && env.now + DEFAULT_LEASE_NS > 0xffff_ffff_ffff_ffff
    requires Replies(s.child, ProbeAsked(s), env.fault)
    ensures ProbeStep(s, env).Failed? && ProbeExpired(s, ProbeStep(s, env).rt)
  {
    hide ProbeStep, Exchange, ProtocolRejection, AuthorityOf, OpenLog, LogTells, TallyOf, Paired, LeaseFor, InNonceOrder,
         Replies, Reinstate, AfterLoss;
    var s3 := ProbeSent(s, env);
    var id := s.body.certificate + 1;
    var request, ack := P.Probe(id, s3.nonce), P.ProbeAck(id, s3.nonce);
    ExchangeExactly(s3, request, ack, AuthorityOf(s3), env.fault);
    NoNewDeadline(Exchange(s3, request, ack, env.fault).rt, id, s.body.generation + 1, env);
  }

  lemma NoNewDeadline(s: Rt, certificate: u64, generation: u64, env: Env)
    requires s.reflex == REFLEX && env.now + DEFAULT_LEASE_NS > 0xffff_ffff_ffff_ffff
    ensures Reinstate(s, certificate, generation, env) == Failed(s)
  {
  }

  // ---------------------------------------------------------------------------------------------
  // STOP
  // ---------------------------------------------------------------------------------------------

  function StopMessage(s: Rt): (m: P.Message)
    requires s.nonce < 0xffff_ffff_ffff_ffff
  {
    P.BoundRequest(P.Stop(s.actionCounter, s.nonce + 1), AuthorityOf(s))
  }

  /** The child acknowledges STOP, says nothing more and exits cleanly. */
  predicate StopsCleanly(s: Rt, env: Env, exitOk: bool)
    requires s.nonce < 0xffff_ffff_ffff_ffff
  {
    Replies(s.child, StopMessage(s), env.fault) && s.child.inbox[1..] == [Eof] && exitOk
  }

  /** A STOP that was not acknowledged, or an exit that was not clean: the child is gone. */
  predicate StopLost(s: Rt, env: Env, r: Rt)
    requires s.nonce < 0xffff_ffff_ffff_ffff
  {
    && Shut(s, r) && Damaged(s.metrics, s.body.quarantined, r.metrics) && r.nonce == s.nonce + 1
    && r.child == Child([], if env.fault.WriteFails? then s.child.sent else s.child.sent + [StopMessage(s)], false)
    && Reports(s.log, r.log, "PROTOCOL_ACK_REJECTED", env.errorText, r.body)
  }

  lemma StopFails(s: Rt, env: Env, exitOk: bool)
    requires Good(s) && s.nonce < 0xffff_ffff_ffff_ffff && !StopsCleanly(s, env, exitOk)
    ensures Finish(s, env, exitOk).Failed? && StopLost(s, env, Finish(s, env, exitOk).rt)
  {
    hide Exchange, ProtocolRejection, AuthorityOf, OpenLog, Reports, TallyOf, Paired, LeaseFor, InNonceOrder, Answered,
         Complete;
    var s1 := NextNonce(s).rt;
    SameSnapshot(s, s1);
    var request, ack := P.Stop(s1.actionCounter, s1.nonce), P.StopAck(s1.actionCounter, s1.nonce);
    ExchangeExactly(s1, request, ack, AuthorityOf(s1), env.fault);
    RejectionIs(Dropped(Exchange(s1, request, ack, env.fault).rt), env.errorText);
  }

  lemma CompleteSucceeds(s: Rt)
    requires OpenLog(s.log) && Roomy(s)
    ensures Complete(s).Done?
  {
    hide Record, OpenLog, SealedEntry;
    var s1 := s.(metrics := s.metrics.(damage := DamageOf(s.metrics)));
    RecordSucceeds(s1, Final(s1.metrics.damage), s1.active);
    var s2 := Record(s1, Final(s1.metrics.damage), s1.active).rt;
    SealedCompletesChain(s2.log, s2.body, s2.active);
  }

  lemma StopSucceeds(s: Rt, env: Env, exitOk: bool)
    requires Good(s) && Roomy(s) && s.nonce < 0xffff_ffff_ffff_ffff && StopsCleanly(s, env, exitOk)
    ensures Finish(s, env, exitOk).Done?
  {
    hide Exchange, ProtocolRejection, AuthorityOf, OpenLog, Reports, TallyOf, Paired, LeaseFor, InNonceOrder, Answered,
         Complete;
    var s1 := NextNonce(s).rt;
    SameSnapshot(s, s1);
    var request, ack := P.Stop(s1.actionCounter, s1.nonce), P.StopAck(s1.actionCounter, s1.nonce);
    ExchangeExactly(s1, request, ack, AuthorityOf(s1), env.fault);
    CompleteSucceeds(Dropped(Exchange(s1, request, ack, env.fault).rt));
  }

  /** The end of a run fails exactly when the child does not stop cleanly. */
  lemma FinishFailure(s: Rt, env: Env, exitOk: bool)
    requires Good(s) && Roomy(s)
    ensures s.nonce < 0xffff_ffff_ffff_ffff
    ensures Finish(s, env, exitOk).Failed? <==> !StopsCleanly(s, env, exitOk)
    ensures Finish(s, env, exitOk).Failed? ==> StopLost(s, env, Finish(s, env, exitOk).rt)
  {
    hide Good, Finish, StopsCleanly, StopLost;
    GoodIsSmall(s);
    if StopsCleanly(s, env, exitOk) {
      StopSucceeds(s, env, exitOk);
    } else {
      StopFails(s, env, exitOk);
    }
  }

  // ---------------------------------------------------------------------------------------------
  // Every failing event
  // ---------------------------------------------------------------------------------------------

  /** When an event fails: BEGIN while one is pending, and any other event that asks the child something
      it does not answer; an answered probe also when its deadline is beyond the clock. */
  predicate Fails(s: Rt, ev: Event)
    requires Roomy(s) && Small(s)
  {
    match ev
    case Begin => s.transaction.pending
    case Commit(env) => Unanswered(s, ev, env.fault)
    case Reset(env) => Unanswered(s, ev, env.fault)
    case LeaseTimeout(env) => Unanswered(s, ev, env.fault)
    case Probe(env) =>
      Unanswered(s, ev, env.fault) || (ProbeEligible(s) && env.now + DEFAULT_LEASE_NS > 0xffff_ffff_ffff_ffff)
  }

  predicate Unanswered(s: Rt, ev: Event, fault: Fault)
    requires Roomy(s) && Small(s)
  {
    Asked(s, ev).Some? && !Replies(s.child, Asked(s, ev).value, fault)
  }

  /** The state that each failing event leaves. */
  predicate FailedAs(s: Rt, ev: Event, r: Rt)
    requires Roomy(s) && Small(s)
  {
    match ev
    case Begin => r == s
    case Commit(env) => WorkLost(s, env, r)
    case Reset(env) => RollbackLost(NextEpoch(s), true, env, r)
    case LeaseTimeout(env) => RollbackLost(s, false, env, r)
    case Probe(env) => if Unanswered(s, ev, env.fault) then ProbeLost(s, env, r) else ProbeExpired(s, r)
  }

  lemma BeginFailure(s: Rt)
    requires Good(s) && Roomy(s) && Small(s)
    ensures BeginStep(s).Failed? <==> Fails(s, Begin)
    ensures BeginStep(s).Failed? ==> FailedAs(s, Begin, BeginStep(s).rt)
  {
    hide Record, OpenLog, Authoritative, Conserved, Numbered, TallyOf, Paired;
    if !s.transaction.pending {
      BeginSucceeds(s);
    }
  }

  lemma CommitFailure(s: Rt, env: Env)
    requires Good(s) && Roomy(s) && Small(s)
    ensures CommitStep(s, env).Failed? <==> Fails(s, Commit(env))
    ensures CommitStep(s, env).Failed? ==> FailedAs(s, Commit(env), CommitStep(s, env).rt)
  {
    hide CommitStep, DecisionAt, WorkLost, Answered, AuthorityOf, OpenLog, TallyOf, Paired, LeaseFor, InNonceOrder;
    if DecisionAt(s, env.now) != Allow {
      RefusalSucceeds(s, env);
    } else if Unanswered(s, Commit(env), env.fault) {
      WorkFails(s, env);
    } else {
      CommitSucceeds(s, env);
    }
  }

  lemma RefusalSucceeds(s: Rt, env: Env)
    requires OpenLog(s.log) && Roomy(s) && DecisionAt(s, env.now) != Allow
    ensures CommitStep(s, env).Done?
  {
    hide Record, OpenLog, DecisionAt;
    var s1 := s.(transaction := if s.transaction.pending then IDLE else s.transaction);
    var s2 := s1.(metrics := s1.metrics.(blockedCommits := Saturate(s1.metrics.blockedCommits + 1),
                                         staleOrExpiredBlocked := Saturate(s1.metrics.staleOrExpiredBlocked + 1)));
    RecordSucceeds(s2, CommitBlocked(DecisionAt(s, env.now)), s2.active);
  }

  lemma TimeoutFailure(s: Rt, env: Env)
    requires Good(s) && Roomy(s) && Small(s)
    ensures Quarantine(s, false, env).Failed? <==> Fails(s, LeaseTimeout(env))
    ensures Quarantine(s, false, env).Failed? ==> FailedAs(s, LeaseTimeout(env), Quarantine(s, false, env).rt)
  {
    hide Quarantine, RollbackLost, Answered, AuthorityOf, OpenLog, TallyOf, Paired, LeaseFor, InNonceOrder;
    if Unanswered(s, LeaseTimeout(env), env.fault) {
      RollbackFails(s, false, env);
    } else {
      QuarantineSucceeds(s, false, env);
    }
  }

  lemma ResetFailure(s: Rt, env: Env)
    requires Good(s) && Roomy(s) && Small(s)
    ensures ResetStep(s, env).Failed? <==> Fails(s, Reset(env))
    ensures ResetStep(s, env).Failed? ==> FailedAs(s, Reset(env), ResetStep(s, env).rt)
  {
    hide Quarantine, RollbackLost, Answered, AuthorityOf, OpenLog, TallyOf, Paired, LeaseFor, InNonceOrder;
    if Unanswered(s, Reset(env), env.fault) {
      RollbackFails(NextEpoch(s), true, env);
    } else {
      QuarantineSucceeds(NextEpoch(s), true, env);
    }
  }

  lemma ProbeFailure(s: Rt, env: Env)
    requires Good(s) && Roomy(s) && Small(s)
    ensures ProbeStep(s, env).Failed? <==> Fails(s, Probe(env))
    ensures ProbeStep(s, env).Failed? ==> FailedAs(s, Probe(env), ProbeStep(s, env).rt)
  {
    hide ProbeStep, ProbeLost, ProbeExpired, Answered, AuthorityOf, OpenLog, TallyOf, Paired, LeaseFor, InNonceOrder;
    if !ProbeEligible(s) {
      IneligibleSucceeds(s, env);
    } else if Unanswered(s, Probe(env), env.fault) {
      ProbeFails(s, env);
    } else if env.now + DEFAULT_LEASE_NS > 0xffff_ffff_ffff_ffff {
      ProbeExpires(s, env);
    } else {
      ProbeSucceeds(s, env);
    }
  }

  lemma IneligibleSucceeds(s: Rt, env: Env)
    requires OpenLog(s.log) && Roomy(s) && !ProbeEligible(s)
    ensures ProbeStep(s, env).Done?
  {
    hide Record, OpenLog;
    RecordSucceeds(s.(metrics := s.metrics.(probeRequests := Saturate(s.metrics.probeRequests + 1))), ProbeRejected, None);
  }

  /** An event fails exactly when it is one of those, and leaves exactly that state. */
  lemma StepFailure(s: Rt, ev: Event)
    requires Good(s) && Roomy(s)
    ensures Small(s)
    ensures Step(s, ev).Failed? <==> Fails(s, ev)
    ensures Step(s, ev).Failed? ==> FailedAs(s, ev, Step(s, ev).rt)
  {
    hide Good, BeginStep, CommitStep, ResetStep, ProbeStep, Quarantine, Fails, FailedAs, Small;
    GoodIsSmall(s);
    match ev
    case Begin => BeginFailure(s);
    case Commit(env) => CommitFailure(s, env);
    case Reset(env) => ResetFailure(s, env);
    case Probe(env) => ProbeFailure(s, env);
    case LeaseTimeout(env) => TimeoutFailure(s, env);
  }

  // ---------------------------------------------------------------------------------------------
  // Whole lives
  // ---------------------------------------------------------------------------------------------

  /** The events before number `k` succeed; that one fails and leaves `r`, unless the ledger has grown to
      the end of its sequence numbers before. */
  predicate FailsAt(s0: Rt, events: seq<Event>, k: nat, r: Rt)
  {
    hide Good, Step, Steps, Fails, FailedAs, Small;
    && k < |events|
    && Steps(s0, events[..k]).Done?
    && var s := Steps(s0, events[..k]).rt;
       Good(s) && (Roomy(s) && Small(s) ==> Fails(s, events[k]) && FailedAs(s, events[k], r))
  }

  lemma {:induction false} StepsFailure(s: Rt, events: seq<Event>) returns (k: nat)
    requires Good(s) && Steps(s, events).Failed?
    ensures FailsAt(s, events, k, Steps(s, events).rt)
    decreases |events|
  {
    hide Good, Step, Fails, FailedAs, Small, Roomy, Effect;
    if Step(s, events[0]).Failed? {
      k := 0;
      assert events[..0] == [];
      if Roomy(s) {
        StepFailure(s, events[0]);
      }
    } else {
      var s1 := Step(s, events[0]).rt;
      StepKeeps(s, events[0]);
      k := StepsFailure(s1, events[1..]);
      k := k + 1;
      assert events[..k][1..] == events[1..][..k - 1];
    }
  }

  /** A process that is not created has sent nothing, written nothing and holds no lease. */
  predicate StillBorn(r: Rt)
  {
    && r.log == [] && r.child.sent == [] && r.active == None && r.metrics == NO_METRICS
    && r.body == BodyState(0x0a51a, 1, 1, 100, false)
  }

  /** A process that is created holds its first lease, from now on for fifty milliseconds. */
  predicate Born(inbox: seq<ReaderMessage>, now: u64, r: Rt)
  {
    && inbox != [] && now + 50_000_000 <= 0xffff_ffff_ffff_ffff
    && r == Rt(BodyState(0x0a51a, 1, 1, 100, false), Some(SafetyLease(0x0a51a, 1, 1, 100, now + 50_000_000, 7, 11, 13)),
               Transaction(false, None), REFLEX, r.log, Child(inbox[1..], [], true), NO_METRICS, 0, 0, false)
    && LogTells([], r.log, [AuditLine(LeaseInstalled(false), r.body, r.active)])
  }

  /** A reinstated body gets a lease of the same length, and of its new epoch, generation and certificate. */
  lemma ReinstatedLease(s: Rt, now: u64, r: Rt)
    requires Good(s) && Reinstated(s, now, r)
    ensures now + 50_000_000 <= 0xffff_ffff_ffff_ffff
    ensures r.body == BodyState(s.body.bodyUid, s.body.epoch, s.body.generation + 1, s.body.certificate + 1, false)
    ensures r.active == Some(SafetyLease(s.body.bodyUid, s.body.epoch, s.body.generation + 1, s.body.certificate + 1,
                                         now + 50_000_000, 7, 11, 13))
  {
    hide Exchanged, Appended, TallyOf, Paired, OpenLog, Numbered;
  }

  /** A process is created exactly when nothing goes wrong at the start, the first line greets with this
      process and the deadline of the first lease fits. */
  lemma BirthExactly(inbox: seq<ReaderMessage>, pid: u64, env: Env)
    ensures New(inbox, pid, env).Failed? <==>
            !(env.fault.NoFault? && inbox != [] && inbox[0].Line? && P.ValidateHello(inbox[0].text, pid)
              && env.now + 50_000_000 <= 0xffff_ffff_ffff_ffff)
    ensures New(inbox, pid, env).Failed? ==> StillBorn(New(inbox, pid, env).rt)
    ensures New(inbox, pid, env).Done? ==> Born(inbox, env.now, New(inbox, pid, env).rt)
  {
    hide P.ValidateHello, Record, CompilePolicy, OpenLog, LogTells;
    PolicyCompiles();
    EmptyLogIsOpen();
    if New(inbox, pid, env).Done? {
      NewLines(inbox, pid, env);
    }
    if inbox != [] {
      var s0 := InitialState(REFLEX, inbox[1..]);
      if CheckedLeaseDeadline(env.now, s0.reflex.leaseNs).Ok? {
        var until := CheckedLeaseDeadline(env.now, s0.reflex.leaseNs).value;
        RecordSucceeds(s0.(active := Some(LeaseFor(s0.body, s0.reflex, until))), LeaseInstalled(false),
                       Some(LeaseFor(s0.body, s0.reflex, until)));
      }
    }
  }

  /** How a life may fail: at birth, at one of its events, or at its end. */
  ghost predicate LifeFails(l: Life, r: Rt)
  {
    hide New, Steps, Received, Good, StopsCleanly, StopLost, StillBorn, FailsAt;
    var s0 := New(Received(l.output), l.pid, l.start);
    if s0.Failed? then StillBorn(r)
    else if Steps(s0.rt, l.events).Failed? then exists k: nat :: FailsAt(s0.rt, l.events, k, r)
    else
      var s := Steps(s0.rt, l.events).rt;
      && Good(s)
      && (Roomy(s) && s.nonce < 0xffff_ffff_ffff_ffff ==>
            !StopsCleanly(s, l.stop, l.exitOk) && StopLost(s, l.stop, r))
  }

  /** Every failed life is accounted for: where it failed, why, and the whole state it left. */
  lemma LifeFailure(l: Life)
    requires Live(l).Failed?
    ensures LifeFails(l, Live(l).rt)
  {
    hide New, Steps, Finish, Received, Good, StopsCleanly, StopLost, StillBorn, FailsAt, Roomy;
    var s0 := New(Received(l.output), l.pid, l.start);
    BirthExactly(Received(l.output), l.pid, l.start);
    if s0.Done? {
      StartsGood(Received(l.output), l.pid, l.start);
      if Steps(s0.rt, l.events).Failed? {
        var k := StepsFailure(s0.rt, l.events);
      } else {
        StepsKeep(s0.rt, l.events);
        var s := Steps(s0.rt, l.events).rt;
        if Roomy(s) {
          FinishFailure(s, l.stop, l.exitOk);
        }
      }
    }
  }
}
