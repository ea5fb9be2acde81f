/** The ledger of a run line by line (src/runtime.rs, the calls of `ledger.record`): which line each event
    writes, with which verdict, text, body and lease. The whole ledger of a run that succeeds is a
    function of its events. */
module RuntimeLines {
  import opened Words
  import opened Numerals
  import opened Authority
  import opened LedgerEntries
  import opened LedgerChain
  import opened LedgerWriter
  import opened Frames
  import opened RuntimeSpec
  import opened RuntimeEffects
  import opened RuntimeInvariant
  import opened RuntimeRuns
  import opened RuntimeRequests
  import opened RuntimeAudit
  import P = Protocol
  import Workload

  /** An event of the audit log, with the body and the lease shown beside it. */
  datatype AuditLine = AuditLine(event: AuditEvent, body: BodyState, lease: Option<SafetyLease>)

  /** The entry is that line. */
  predicate Tells(e: LedgerEntry, l: AuditLine)
  {
    && e.kind.Event?
    && Shows(e, l.event.Name(), l.event.Verdict(), l.body, l.lease)
    && e.detail == l.event.Detail()
  }

  /** The log grows by these lines. */
  predicate LogTells(log: seq<LedgerEntry>, log': seq<LedgerEntry>, lines: seq<AuditLine>)
  {
    && log <= log'
    && |log'| == |log| + |lines|
    && forall i :: 0 <= i < |lines| ==> Tells(log'[|log| + i], lines[i])
  }

  // ---------------------------------------------------------------------------------------------
  // What the lines say
  // ---------------------------------------------------------------------------------------------

  /** The lines that say ALLOW, and the lines that say BLOCK_QUARANTINE. A blocked COMMIT carries its
      own decision, and the final line ALLOW only without damage. */
  lemma Verdicts(e: AuditEvent)
    ensures (e.LeaseInstalled? || e.BeginAction? || e.ChildAckAccepted? || e.CommitDone? || e.ProbeAccepted?) ==>
              e.Verdict() == Allow
    ensures (e.Quarantined? || e.RollbackAccepted? || e.RollbackRejected? || e.ProbeRejected? || e.ProbeRequest?
             || e.ProtocolRejected?) ==>
              e.Verdict() == BlockQuarantine
    ensures e.CommitBlocked? ==> e.Verdict() == e.decision
    ensures e.Final? ==> e.Verdict() == if e.damage == 0 then Allow else BlockAction
  {
  }

  /** The lines whose text depends on the run. */
  lemma Texts(e: AuditEvent)
    ensures e.CommitBlocked? ==> e.Detail() == e.decision.Name()
    ensures (e.RollbackRejected? || e.ProtocolRejected?) ==> e.Detail() == e.text
  {
    hide Decision.Name;
  }

  /** The two texts of a quarantine. */
  lemma QuarantineTexts()
    ensures Quarantined(true).Detail() == "epoch reset invalidated authority"
    ensures Quarantined(false).Detail() == "safety lease expired during silence"
  {
  }

  /** The text of the first lease, and that of a lease after a probe. */
  lemma LeaseText()
    ensures LeaseInstalled(false).Detail() == "PolicyIr lease duration applied with checked monotonic addition"
  {
  }

  lemma RenewedLeaseText()
    ensures LeaseInstalled(true).Detail() == "PolicyIr lease duration applied after functional challenge"
  {
  }

  /** The text of an accepted acknowledgement names what was acknowledged, the digest in hexadecimal. */
  lemma AckText(id: u64, nonce: u64, actions: u64, digest: u64)
    ensures ChildAckAccepted(id, nonce, actions, digest).Detail()
            == "WORK id=" + Decimal(id) + " nonce=" + Decimal(nonce) + " actions=" + Decimal(actions)
               + " digest=" + Hex16(digest)
  {
    hide Decimal, Hex16;
  }

  /** The names of the lines of a failure and of the end. */
  lemma RejectionNames(e: AuditEvent)
    ensures e.Name() == "PROTOCOL_ACK_REJECTED" <==> e.ProtocolRejected?
    ensures e.Name() == "ROLLBACK_ACK_REJECTED" <==> e.RollbackRejected?
    ensures e.Name() == "BEGIN_ACTION" <==> e.BeginAction?
    ensures e.Name() == "FINAL" <==> e.Final?
  {
  }

  // ---------------------------------------------------------------------------------------------
  // Recording
  // ---------------------------------------------------------------------------------------------

  lemma MadeTells(s: LedgerSnapshot)
    requires MakeEntry(s).Ok?
    ensures MakeEntry(s).value.kind == s.kind && MakeEntry(s).value.detail == s.detail
  {
    hide ExpectedHash, SnapshotFits;
  }

  lemma RecordTells(s: Rt, event: AuditEvent, lease: Option<SafetyLease>)
    requires Record(s, event, lease).Done?
    ensures var r := Record(s, event, lease).rt;
            r == s.(log := r.log) && LogTells(s.log, r.log, [AuditLine(event, s.body, lease)])
  {
    hide MakeEntry, Shows, AuditEvent.Name, AuditEvent.Detail, AuditEvent.Verdict;
    RecordedShows(s.log, event.Name(), event.Detail(), event.Verdict(), s.body, lease);
    MadeTells(LedgerSnapshot(Event, |s.log| + 1, event.Name(), event.Detail(), event.Verdict(), s.body, lease, None, None,
                             LastHash(s.log, 0)));
  }

  lemma TellsTwice(a: seq<LedgerEntry>, b: seq<LedgerEntry>, c: seq<LedgerEntry>, m: seq<AuditLine>, n: seq<AuditLine>)
    requires LogTells(a, b, m) && LogTells(b, c, n)
    ensures LogTells(a, c, m + n)
  {
    hide Tells;
    forall i | 0 <= i < |m + n|
      ensures Tells(c[|a| + i], (m + n)[i])
    {
      if i < |m| {
        assert c[|a| + i] == b[|a| + i];
      } else {
        assert c[|a| + i] == c[|b| + (i - |m|)];
      }
    }
  }

  lemma TwoLines(s: Rt, first: AuditEvent, second: AuditEvent, lease: Option<SafetyLease>)
    requires Record(s, first, lease).Done? && Record(Record(s, first, lease).rt, second, lease).Done?
    ensures var r := Record(Record(s, first, lease).rt, second, lease).rt;
            && r == s.(log := r.log)
            && LogTells(s.log, r.log, [AuditLine(first, s.body, lease), AuditLine(second, s.body, lease)])
  {
    hide Record, Tells;
    var s1 := Record(s, first, lease).rt;
    RecordTells(s, first, lease);
    RecordTells(s1, second, lease);
    var a, b := [AuditLine(first, s.body, lease)], [AuditLine(second, s.body, lease)];
    TellsTwice(s.log, s1.log, Record(s1, second, lease).rt.log, a, b);
    assert a + b == [AuditLine(first, s.body, lease), AuditLine(second, s.body, lease)];
  }

  // ---------------------------------------------------------------------------------------------
  // Events
  // ---------------------------------------------------------------------------------------------

  /** A counter that WORK needs is at its end. */
  predicate AtLimit(s: Rt)
  {
    || s.nonce == 0xffff_ffff_ffff_ffff || s.actionCounter == 0xffff_ffff_ffff_ffff
    || s.metrics.childActions == 0xffff_ffff_ffff_ffff
  }

  /** The lines of an event that leads from one state to another. */
  function LinesOf(s: Rt, ev: Event, r: Rt): (lines: seq<AuditLine>)
  {
    match ev
    case Begin => [AuditLine(BeginAction, s.body, s.active)]
    case Commit(env) =>
      if DecisionAt(s, env.now) == Allow then
        if AtLimit(s) then []
        else [AuditLine(WorkAccepted(s), s.body, s.active), AuditLine(CommitDone, s.body, s.active)]
      else [AuditLine(CommitBlocked(DecisionAt(s, env.now)), s.body, s.active)]
    case Reset(_) => [AuditLine(Quarantined(true), r.body, None), AuditLine(RollbackAccepted, r.body, None)]
    case LeaseTimeout(_) => [AuditLine(Quarantined(false), r.body, None), AuditLine(RollbackAccepted, r.body, None)]
    case Probe(_) =>
      if !ProbeEligible(s) then [AuditLine(ProbeRejected, s.body, None)]
      else
        [AuditLine(ProbeRequest, s.body, None), AuditLine(LeaseInstalled(true), r.body, r.active),
         AuditLine(ProbeAccepted, r.body, r.active)]
  }

  lemma BeginLines(s: Rt)
    requires BeginStep(s).Done?
    ensures LogTells(s.log, BeginStep(s).rt.log, [AuditLine(BeginAction, s.body, s.active)])
  {
    hide Record, LogTells;
    RecordTells(s.(transaction := Transaction(true, s.active)), BeginAction, s.active);
  }

  lemma AcceptLines(s: Rt, id: u64, actions: u64, digest: u64)
    requires AcceptWork(s, id, actions, digest).Done?
    ensures LogTells(s.log, AcceptWork(s, id, actions, digest).rt.log,
                     [AuditLine(ChildAckAccepted(id, s.nonce, actions, digest), s.body, s.active),
                      AuditLine(CommitDone, s.body, s.active)])
  {
    hide Record, LogTells;
    var s1 := s.(actionCounter := id,
                 metrics := s.metrics.(allowedCommits := s.metrics.allowedCommits + 1,
                                       childActions := actions,
                                       verifiedWorkAcks := Saturate(s.metrics.verifiedWorkAcks + 1)));
    var accepted := ChildAckAccepted(id, s1.nonce, actions, digest);
    RecordTouchesLog(s1, accepted, s1.active);
    TwoLines(s1, accepted, CommitDone, s1.active);
  }

  lemma DispatchLines(s: Rt, env: Env)
    requires s.reflex == REFLEX && Dispatch(s, env).Done?
    ensures !AtLimit(s)
    ensures LogTells(s.log, Dispatch(s, env).rt.log,
                     [AuditLine(WorkAccepted(s), s.body, s.active), AuditLine(CommitDone, s.body, s.active)])
  {
    hide Exchange, AcceptWork, ProtocolRejection, Workload.Digest, LogTells, AuthorityOf;
    var id, actions := s.actionCounter + 1, s.metrics.childActions + 1;
    var s1 := NextNonce(s).rt;
    var digest := Workload.Digest(id, 5_000);
    var request, ack := P.Work(id, s1.nonce, 5_000), P.WorkAck(id, s1.nonce, actions, digest);
    ExchangeTouchesChild(s1, request, ack, env.fault);
    AcceptLines(Exchange(s1, request, ack, env.fault).rt, id, actions, digest);
  }

  lemma CommitLines(s: Rt, env: Env)
    requires s.reflex == REFLEX && CommitStep(s, env).Done?
    ensures LogTells(s.log, CommitStep(s, env).rt.log, LinesOf(s, Commit(env), CommitStep(s, env).rt))
  {
    hide Record, Dispatch, DecisionAt, LogTells, Workload.Digest;
    var s1 := s.(transaction := if s.transaction.pending then IDLE else s.transaction);
    if DecisionAt(s, env.now) == Allow {
      DispatchLines(s1, env);
    } else {
      var s2 := s1.(metrics := s1.metrics.(blockedCommits := Saturate(s1.metrics.blockedCommits + 1),
                                           staleOrExpiredBlocked := Saturate(s1.metrics.staleOrExpiredBlocked + 1)));
      RecordTells(s2, CommitBlocked(DecisionAt(s, env.now)), s2.active);
    }
  }

  lemma QuarantineLines(s: Rt, onReset: bool, env: Env)
    requires Quarantine(s, onReset, env).Done?
    ensures var r := Quarantine(s, onReset, env).rt;
            LogTells(s.log, r.log, [AuditLine(Quarantined(onReset), r.body, None), AuditLine(RollbackAccepted, r.body, None)])
  {
    hide Record, Exchange, Tells, AuthorityOf;
    var s1 := Isolated(s);
    var s2 := s1.(metrics := s1.metrics.(rollbacks := s1.metrics.rollbacks + 1));
    RecordTells(s2, Quarantined(onReset), None);
    var s3 := Record(s2, Quarantined(onReset), None).rt;
    var s4 := NextNonce(s3).rt;
    var id := s4.metrics.rollbacks;
    var request, ack := P.Rollback(id, s4.nonce), P.RollbackAck(id, s4.nonce);
    ExchangeTouchesChild(s4, request, ack, env.fault);
    var s5 := Exchange(s4, request, ack, env.fault).rt;
    var s6 := s5.(rollbackConfirmed := true, metrics := s5.metrics.(rollbackAcks := Saturate(s5.metrics.rollbackAcks + 1)));
    RecordTells(s6, RollbackAccepted, None);
    var a, b := [AuditLine(Quarantined(onReset), s2.body, None)], [AuditLine(RollbackAccepted, s2.body, None)];
    TellsTwice(s.log, s3.log, Quarantine(s, onReset, env).rt.log, a, b);
    assert a + b == [AuditLine(Quarantined(onReset), s2.body, None), AuditLine(RollbackAccepted, s2.body, None)];
  }

  lemma ReinstateLines(s: Rt, certificate: u64, generation: u64, env: Env)
    requires Reinstate(s, certificate, generation, env).Done?
    ensures var r := Reinstate(s, certificate, generation, env).rt;
            LogTells(s.log, r.log,
                     [AuditLine(LeaseInstalled(true), r.body, r.active), AuditLine(ProbeAccepted, r.body, r.active)])
  {
    hide Record, LogTells, LeaseFor, CheckedLeaseDeadline;
    var until := CheckedLeaseDeadline(env.now, s.reflex.leaseNs).value;
    var body := s.body.(certificate := certificate, generation := generation, quarantined := false);
    var s1 := s.(body := body, active := Some(LeaseFor(body, s.reflex, until)), rollbackConfirmed := false,
                 metrics := s.metrics.(probeRecoveries := Saturate(s.metrics.probeRecoveries + 1)));
    RecordTouchesLog(s1, LeaseInstalled(true), s1.active);
    TwoLines(s1, LeaseInstalled(true), ProbeAccepted, s1.active);
  }

  lemma ProbeLines(s: Rt, env: Env)
    requires ProbeStep(s, env).Done?
    ensures LogTells(s.log, ProbeStep(s, env).rt.log, LinesOf(s, Probe(env), ProbeStep(s, env).rt))
  {
    hide Record, Exchange, Reinstate, ProtocolRejection, Tells, AuthorityOf, LeaseFor;
    var s1 := s.(metrics := s.metrics.(probeRequests := Saturate(s.metrics.probeRequests + 1)));
    if !ProbeEligible(s1) {
      RecordTells(s1, ProbeRejected, None);
    } else {
      var id, generation := s1.body.certificate + 1, s1.body.generation + 1;
      var s2 := NextNonce(s1).rt;
      RecordTells(s2, ProbeRequest, None);
      var s3 := Record(s2, ProbeRequest, None).rt;
      var request, ack := P.Probe(id, s3.nonce), P.ProbeAck(id, s3.nonce);
      ExchangeTouchesChild(s3, request, ack, env.fault);
      var s4 := Exchange(s3, request, ack, env.fault).rt;
      ReinstateLines(s4, id, generation, env);
      var r := ProbeStep(s, env).rt;
      var a := [AuditLine(ProbeRequest, s.body, None)];
      var b := [AuditLine(LeaseInstalled(true), r.body, r.active), AuditLine(ProbeAccepted, r.body, r.active)];
      TellsTwice(s.log, s3.log, r.log, a, b);
      assert a + b == LinesOf(s, Probe(env), r);
    }
  }

  /** Every event that succeeds writes exactly its lines: a COMMIT that is refused the one line that
      carries the decision it took. */
  lemma StepLines(s: Rt, ev: Event)
    requires s.reflex == REFLEX && Step(s, ev).Done?
    ensures LogTells(s.log, Step(s, ev).rt.log, LinesOf(s, ev, Step(s, ev).rt))
  {
    hide BeginStep, CommitStep, ProbeStep, Quarantine, LogTells, DecisionAt;
    match ev
    case Begin => BeginLines(s);
    case Commit(env) => CommitLines(s, env);
    case Reset(env) =>
      QuarantineLines(s.(body := s.body.(epoch := s.body.epoch + 1, generation := s.body.generation + 1)), true, env);
    case Probe(env) => ProbeLines(s, env);
    case LeaseTimeout(env) => QuarantineLines(s, false, env);
  }

  /** A refused COMMIT leaves one line: the decision it took, by code and by name, with the body and the
      lease it was taken for. */
  lemma BlockedLine(s: Rt, env: Env)
    requires s.reflex == REFLEX && CommitStep(s, env).Done? && DecisionAt(s, env.now) != Allow
    ensures var log, decision := CommitStep(s, env).rt.log, DecisionAt(s, env.now);
            && |log| == |s.log| + 1 && log[..|s.log|] == s.log
            && Shows(log[|s.log|], "COMMIT_BLOCKED", decision, s.body, s.active)
            && log[|s.log|].detail == decision.Name()
  {
    hide CommitStep, DecisionAt, Shows, AuditEvent.Name, AuditEvent.Detail, AuditEvent.Verdict, Decision.Name;
    CommitLines(s, env);
    var event := CommitBlocked(DecisionAt(s, env.now));
    TrackedNames(event);
    Verdicts(event);
    Texts(event);
    var log := CommitStep(s, env).rt.log;
    var lines := LinesOf(s, Commit(env), CommitStep(s, env).rt);
    assert lines == [AuditLine(event, s.body, s.active)];
    assert Tells(log[|s.log| + 0], lines[0]);
  }

  // ---------------------------------------------------------------------------------------------
  // Whole runs
  // ---------------------------------------------------------------------------------------------

  /** The lines of a run of events that all succeed. */
  function RunLines(s: Rt, events: seq<Event>): (lines: seq<AuditLine>)
    decreases |events|
  {
    hide Step, LinesOf;
    if events == [] then []
    else
      var r := Step(s, events[0]).rt;
      LinesOf(s, events[0], r) + RunLines(r, events[1..])
  }

  lemma {:induction false} StepsTell(s: Rt, events: seq<Event>)
    requires Good(s) && Steps(s, events).Done?
    ensures LogTells(s.log, Steps(s, events).rt.log, RunLines(s, events))
    decreases |events|
  {
    hide Step, LinesOf, Good, Effect, Tells;
    if events != [] {
      var r := Step(s, events[0]).rt;
      GoodHasReflex(s);
      StepLines(s, events[0]);
      StepKeeps(s, events[0]);
      StepsTell(r, events[1..]);
      TellsTwice(s.log, r.log, Steps(s, events).rt.log, LinesOf(s, events[0], r), RunLines(r, events[1..]));
    }
  }

  lemma GoodHasReflex(s: Rt)
    requires Good(s)
    ensures s.reflex == REFLEX
  {
    hide Conserved, Numbered, Audited, Paired, LeaseFor;
  }

  lemma NewLines(inbox: seq<ReaderMessage>, pid: u64, env: Env)
    requires New(inbox, pid, env).Done?
    ensures var r := New(inbox, pid, env).rt;
            LogTells([], r.log, [AuditLine(LeaseInstalled(false), r.body, r.active)])
  {
    hide Record, CompilePolicy, P.ValidateHello, LogTells, LeaseFor;
    PolicyCompiles();
    var s0 := InitialState(REFLEX, inbox[1..]);
    var until := CheckedLeaseDeadline(env.now, s0.reflex.leaseNs).value;
    var s1 := s0.(active := Some(LeaseFor(s0.body, s0.reflex, until)));
    RecordTells(s1, LeaseInstalled(false), s1.active);
  }

  /** The seal: the marker, ALLOW, and the last body and lease. */
  predicate ShowsSeal(e: LedgerEntry, body: BodyState, lease: Option<SafetyLease>)
  {
    e.kind.Seal? && Shows(e, SEAL_EVENT, Allow, body, lease) && e.detail == SEAL_DETAIL
  }

  lemma CompleteLines(s: Rt)
    requires Complete(s).Done?
    ensures var r, n := Complete(s).rt, |s.log| + 1;
            && |r.log| == n + 1
            && LogTells(s.log, r.log[..n], [AuditLine(Final(DamageOf(s.metrics)), s.body, s.active)])
            && ShowsSeal(r.log[n], s.body, s.active)
  {
    hide Record, MakeEntry, Tells, Shows;
    var s1 := s.(metrics := s.metrics.(damage := DamageOf(s.metrics)));
    RecordTells(s1, Final(s1.metrics.damage), s1.active);
    var s2 := Record(s1, Final(s1.metrics.damage), s1.active).rt;
    var prev := LastHash(s2.log, 0);
    var snapshot := LedgerSnapshot(Seal, |s2.log| + 1, SEAL_EVENT, SEAL_DETAIL, Allow, s2.body, s2.active, Some(|s2.log|),
                                   Some(prev), prev);
    MadeShows(snapshot);
    MadeTells(snapshot);
    assert Complete(s).rt.log[..|s.log| + 1] == s2.log;
  }

  lemma FinishLines(s: Rt, env: Env, exitOk: bool)
    requires Good(s) && Finish(s, env, exitOk).Done?
    ensures var r, n := Finish(s, env, exitOk).rt, |s.log| + 1;
            && |r.log| == n + 1
            && LogTells(s.log, r.log[..n], [AuditLine(Final(0), s.body, s.active)])
            && ShowsSeal(r.log[n], s.body, s.active)
  {
    hide Exchange, Complete, ProtocolRejection, AuthorityOf, Tells, ShowsSeal, LeaseFor, TallyOf, Paired, OpenLog;
    var s1 := NextNonce(s).rt;
    var request, ack := P.Stop(s1.actionCounter, s1.nonce), P.StopAck(s1.actionCounter, s1.nonce);
    ExchangeTouchesChild(s1, request, ack, env.fault);
    CompleteLines(Dropped(Exchange(s1, request, ack, env.fault).rt));
  }

  /** The lines of a whole run: the first lease, those of every event, and the final one. */
  function LedgerLines(s0: Rt, events: seq<Event>, r: Rt): (lines: seq<AuditLine>)
  {
    hide RunLines;
    [AuditLine(LeaseInstalled(false), s0.body, s0.active)] + RunLines(s0, events) + [AuditLine(Final(0), r.body, r.active)]
  }

  /** All but the last entry tell these lines, and the last one is the seal. */
  predicate LedgerTells(s0: Rt, events: seq<Event>, r: Rt)
  {
    hide LedgerLines, LogTells, ShowsSeal;
    && r.log != []
    && LogTells([], r.log[..|r.log| - 1], LedgerLines(s0, events, r))
    && ShowsSeal(r.log[|r.log| - 1], r.body, r.active)
  }

  lemma RunTells(s0: Rt, events: seq<Event>, stop: Env, exitOk: bool)
    requires Good(s0) && LogTells([], s0.log, [AuditLine(LeaseInstalled(false), s0.body, s0.active)])
    requires Steps(s0, events).Done? && Finish(Steps(s0, events).rt, stop, exitOk).Done?
    ensures LedgerTells(s0, events, Finish(Steps(s0, events).rt, stop, exitOk).rt)
  {
    hide Steps, Finish, Good, LogTells, ShowsSeal, RunLines;
    StepsTell(s0, events);
    StepsKeep(s0, events);
    var s1 := Steps(s0, events).rt;
    var r := Finish(s1, stop, exitOk).rt;
    FinishLines(s1, stop, exitOk);
    BodyAtEnd(s1, stop, exitOk);
    var a, b, c := [AuditLine(LeaseInstalled(false), s0.body, s0.active)], RunLines(s0, events),
                   [AuditLine(Final(0), r.body, r.active)];
    TellsTwice([], s0.log, s1.log, a, b);
    TellsTwice([], s1.log, r.log[..|s1.log| + 1], a + b, c);
  }

  lemma BodyAtEnd(s: Rt, stop: Env, exitOk: bool)
    requires Good(s) && Finish(s, stop, exitOk).Done?
    ensures var r := Finish(s, stop, exitOk).rt; r.body == s.body && r.active == s.active
  {
    hide Finish, Good, SealedChain, AuthorityOf;
    FinishEffect(s, stop, exitOk);
  }

  /** The whole ledger of a run that succeeds, from its events: the first lease, the lines of every event
      in order, the final line with verdict ALLOW, and the seal. */
  lemma LedgerTellsRun(l: Life)
    requires Live(l).Done?
    ensures LedgerTells(New(Received(l.output), l.pid, l.start).rt, l.events, Live(l).rt)
  {
    hide New, Steps, Finish, Received, Good, LedgerTells, LogTells;
    StartsGood(Received(l.output), l.pid, l.start);
    NewLines(Received(l.output), l.pid, l.start);
    RunTells(New(Received(l.output), l.pid, l.start).rt, l.events, l.stop, l.exitOk);
  }
}
