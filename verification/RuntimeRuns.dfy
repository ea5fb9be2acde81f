/** Whole lives of the runtime, from the creation of the child to the seal: conservation, the ledger
    file, and the exact transcript of an arbitrary child. */
module RuntimeRuns {
  import opened Words
  import opened Authority
  import opened LedgerEntries
  import opened LedgerChain
  import opened LedgerVerifier
  import opened LedgerWriter
  import opened LedgerIntegrity
  import opened Frames
  import opened WireLanguage
  import opened RuntimeSpec
  import opened RuntimeEffects
  import opened RuntimeInvariant
  import opened RuntimeRequests
  import P = Protocol
  import Workload

  // ---------------------------------------------------------------------------------------------
  // The transcript
  // ---------------------------------------------------------------------------------------------

  /** The one acknowledgement of a request: a WORK with identifier i is the i-th action. */
  function AckOf(r: P.ChildRequest): P.ExpectedAck
  {
    match r
    case Work(id, nonce, units) => P.WorkAck(id, nonce, id, Workload.Digest(id, units))
    case Rollback(id, nonce) => P.RollbackAck(id, nonce)
    case Probe(id, nonce) => P.ProbeAck(id, nonce)
    case Stop(id, nonce) => P.StopAck(id, nonce)
  }

  /** What a correct child says to a bound request. */
  function Answer(m: P.Message): string
  {
    if m.BoundRequest? then P.Text(P.BoundAck(AckOf(m.request), m.authority)) else ""
  }

  function Answers(sent: seq<P.Message>): (r: seq<string>)
    ensures |r| == |sent|
  {
    seq(|sent|, i requires 0 <= i < |sent| => Answer(sent[i]))
  }

  /** What was read so far is the exact answer to each request in order. */
  predicate Heard(inbox: seq<ReaderMessage>, c: Child)
  {
    inbox == AsMessages(Answers(c.sent)) + c.inbox
  }

  lemma HeardAnother(inbox: seq<ReaderMessage>, c: Child, c': Child, request: P.ChildRequest, authority: P.AuthoritySnapshot)
    requires Heard(inbox, c) && Exchanged(c, c', request, AckOf(request), authority)
    ensures Heard(inbox, c')
  {
    hide P.Text, P.Print, P.TrimEndNewlines, AckOf;
    TrimPrinted(P.BoundAck(AckOf(request), authority));
    var m := P.BoundRequest(request, authority);
    assert c.inbox[0] == Line(Answer(m));
    assert Answers(c.sent + [m]) == Answers(c.sent) + [Answer(m)];
    assert AsMessages(Answers(c.sent) + [Answer(m)]) == AsMessages(Answers(c.sent)) + [Line(Answer(m))];
    assert c.inbox == [c.inbox[0]] + c.inbox[1..];
  }

  /** The request of a successful event, if it makes one. */
  lemma Traffic(s: Rt, ev: Event, r: Rt) returns (request: P.ChildRequest, authority: P.AuthoritySnapshot)
    requires Good(s) && Effect(s, ev, r)
    ensures r.child == s.child || Exchanged(s.child, r.child, request, AckOf(request), authority)
  {
    hide Appended, Exchanged, DecisionAt, Workload.Digest, LeaseFor, AuthorityOf, Authoritative, Numbered, Audited, Paired,
         WorkAccepted;
    request, authority := P.Stop(0, 0), AuthorityOf(s);
    match ev
    case Begin =>
    case Commit(env) =>
      if Worked(s, env.now, r) {
        request := WorkRequest(s);
      }
    case Reset(_) =>
      request := P.Rollback(s.metrics.rollbacks + 1, s.nonce + 1);
      authority := AuthorityOf(s.(body := s.body.(epoch := s.body.epoch + 1, generation := s.body.generation + 1)));
    case Probe(env) =>
      if Reinstated(s, env.now, r) {
        request := P.Probe(s.body.certificate + 1, s.nonce + 1);
      }
    case LeaseTimeout(_) =>
      request := P.Rollback(s.metrics.rollbacks + 1, s.nonce + 1);
  }

  predicate Acknowledges(line: string, m: P.Message)
  {
    hide P.ValidateBoundAck;
    m.BoundRequest? && P.ValidateBoundAck(line, AckOf(m.request), m.authority)
  }

  /** No line acknowledges two requests of a run, STOP and the request a failed run ended with included. */
  lemma AcksNeverCross(l: Life, i: nat, j: nat, line: string)
    requires i < |Live(l).rt.child.sent| && j < |Live(l).rt.child.sent|
    requires Acknowledges(line, Live(l).rt.child.sent[i]) && Acknowledges(line, Live(l).rt.child.sent[j])
    ensures i == j
  {
    RequestsInOrder(l);
    hide Live;
    var sent := Live(l).rt.child.sent;
    OneRequestPerAck(line, sent[i], sent[j]);
  }

  lemma OneRequestPerAck(line: string, a: P.Message, b: P.Message)
    requires Acknowledges(line, a) && Acknowledges(line, b)
    ensures a.request.nonce == b.request.nonce
  {
    hide P.ValidateBoundAck, Workload.Digest;
    AckValidatesOnce(line, AckOf(a.request), a.authority, AckOf(b.request), b.authority);
    assert AckOf(a.request).nonce == a.request.nonce && AckOf(b.request).nonce == b.request.nonce;
  }

  lemma {:induction false} HeardThroughout(inbox: seq<ReaderMessage>, s: Rt, events: seq<Event>)
    requires Good(s) && Steps(s, events).Done? && Heard(inbox, s.child)
    ensures Good(Steps(s, events).rt) && Heard(inbox, Steps(s, events).rt.child)
    decreases |events|
  {
    hide Good, Step, Effect, Heard, Exchanged, AckOf;
    if events != [] {
      StepKeeps(s, events[0]);
      var r := Step(s, events[0]).rt;
      var request, authority := Traffic(s, events[0], r);
      if r.child != s.child {
        HeardAnother(inbox, s.child, r.child, request, authority);
      }
      HeardThroughout(inbox, r, events[1..]);
    }
  }

  // ---------------------------------------------------------------------------------------------
  // The end of a run
  // ---------------------------------------------------------------------------------------------

  function StopRequest(s: Rt): P.ChildRequest
    requires s.nonce < 0xffff_ffff_ffff_ffff
  {
    P.Stop(s.actionCounter, s.nonce + 1)
  }

  lemma CompleteEffect(s: Rt)
    requires OpenLog(s.log) && DamageOf(s.metrics) == 0 && s.metrics.damage == 0 && Complete(s).Done?
    ensures var r := Complete(s).rt;
            && r == s.(log := r.log)
            && SealedChain(r.log)
            && Names(r.log) == Names(s.log) + ["FINAL", SEAL_EVENT]
  {
    hide OpenLog, Record, SealedEntry, SealedChain, AuditEvent.Name;
    var s1 := s.(metrics := s.metrics.(damage := DamageOf(s.metrics)));
    RecordEffect(s1, Final(s1.metrics.damage), s1.active);
    var s2 := Record(s1, Final(s1.metrics.damage), s1.active).rt;
    SealedCompletesChain(s2.log, s2.body, s2.active);
    var e := SealedEntry(s2.log, s2.body, s2.active).value;
    SealEvent(s2.log, s2.body, s2.active);
    assert Names(s2.log + [e]) == Names(s2.log) + [SEAL_EVENT];
    FinalName(0);
    assert Names(s.log) + NamesOf([Final(0)]) + [SEAL_EVENT] == Names(s.log) + ["FINAL", SEAL_EVENT];
  }

  lemma FinishEffect(s: Rt, env: Env, exitOk: bool)
    requires Good(s) && Finish(s, env, exitOk).Done?
    ensures s.nonce < 0xffff_ffff_ffff_ffff
    ensures exists c :: Exchanged(s.child, c, StopRequest(s), AckOf(StopRequest(s)), AuthorityOf(s)) && c.inbox == [Eof]
    ensures var r := Finish(s, env, exitOk).rt;
            && r == s.(nonce := s.nonce + 1, child := r.child, log := r.log)
            && r.child == Child([], s.child.sent + [P.BoundRequest(StopRequest(s), AuthorityOf(s))], false)
            && SealedChain(r.log)
            && Names(r.log) == Names(s.log) + ["FINAL", SEAL_EVENT]
  {
    hide P.ValidateBoundAck, Exchange, OpenLog, ProtocolRejection, AuthorityOf, Complete, SealedChain, TallyOf,
          Paired, LeaseFor;
    var s1 := NextNonce(s).rt;
    var request, ack := StopRequest(s), AckOf(StopRequest(s));
    ExchangeEffect(s1, request, ack, env.fault);
    SameSnapshot(s, s1);
    CompleteEffect(Dropped(Exchange(s1, request, ack, env.fault).rt));
  }

  lemma SealEvent(log: seq<LedgerEntry>, body: BodyState, lease: Option<SafetyLease>)
    requires SealedEntry(log, body, lease).Ok?
    ensures SealedEntry(log, body, lease).value.event == SEAL_EVENT
  {
    hide SealFor, ChainFrom, OpenLog;
  }

  lemma FinalName(damage: u64)
    ensures NamesOf([Final(damage)]) == ["FINAL"]
  {
  }

  // ---------------------------------------------------------------------------------------------
  // A failure never leaves a sealed ledger
  // ---------------------------------------------------------------------------------------------

  /** Recording and exchanging, successful or not, leave an open ledger open. */
  predicate KeepsOpen(s: Rt, r: Outcome)
  {
    OpenLog(s.log) ==> OpenLog(r.rt.log)
  }

  lemma RecordsOpen()
    ensures forall s, event, lease :: KeepsOpen(s, Record(s, event, lease))
    ensures forall s, request, ack, fault :: Exchange(s, request, ack, fault).rt.log == s.log
  {
    hide OpenLog, RecordedEntry, AuditEvent.Name, AuditEvent.Detail, AuditEvent.Verdict, Transact;
    forall s: Rt, event: AuditEvent, lease: Option<SafetyLease> | OpenLog(s.log)
      ensures OpenLog(Record(s, event, lease).rt.log)
    {
      RecordedKeepsChain(s.log, event.Name(), event.Detail(), event.Verdict(), s.body, lease);
    }
  }

  lemma QuarantineOpen(s: Rt, onReset: bool, env: Env)
    ensures KeepsOpen(s, Quarantine(s, onReset, env))
  {
    hide OpenLog, Record, Exchange;
    RecordsOpen();
  }

  lemma CommitOpen(s: Rt, env: Env)
    ensures KeepsOpen(s, CommitStep(s, env))
  {
    hide OpenLog, Record, Exchange, DecisionAt, Workload.Digest;
    RecordsOpen();
  }

  lemma ProbeOpen(s: Rt, env: Env)
    ensures KeepsOpen(s, ProbeStep(s, env))
  {
    hide OpenLog, Record, Exchange, CheckedLeaseDeadline, LeaseFor;
    RecordsOpen();
  }

  lemma StepOpen(s: Rt, ev: Event)
    ensures KeepsOpen(s, Step(s, ev))
  {
    hide OpenLog, Record, CommitStep, ProbeStep, Quarantine;
    match ev
    case Begin => RecordsOpen();
    case Commit(env) => CommitOpen(s, env);
    case Reset(env) =>
      if s.body.epoch < 0xffff_ffff_ffff_ffff && s.body.generation < 0xffff_ffff_ffff_ffff {
        QuarantineOpen(s.(body := s.body.(epoch := s.body.epoch + 1, generation := s.body.generation + 1)), true, env);
      }
    case Probe(env) => ProbeOpen(s, env);
    case LeaseTimeout(env) => QuarantineOpen(s, false, env);
  }

  lemma {:induction false} StepsOpen(s: Rt, events: seq<Event>)
    ensures KeepsOpen(s, Steps(s, events))
    decreases |events|
  {
    hide OpenLog, Step;
    if events != [] {
      StepOpen(s, events[0]);
      StepsOpen(Step(s, events[0]).rt, events[1..]);
    }
  }

  lemma FinishOpen(s: Rt, env: Env, exitOk: bool)
    ensures Finish(s, env, exitOk).Failed? ==> KeepsOpen(s, Finish(s, env, exitOk))
  {
    hide OpenLog, Record, Exchange, SealedEntry;
    RecordsOpen();
  }

  lemma NewOpen(inbox: seq<ReaderMessage>, pid: u64, env: Env)
    ensures OpenLog(New(inbox, pid, env).rt.log)
  {
    hide OpenLog, Record, CompilePolicy, P.ValidateHello;
    PolicyCompiles();
    EmptyLogIsOpen();
    RecordsOpen();
  }

  /** The ledger file tells how the run ended: it passes verification exactly when the run succeeded,
      wherever and however a failed run stopped. */
  lemma LedgerTellsOutcome(l: Life)
    ensures Live(l).Done? <==> Verification(Render(Live(l).rt.log)).Passed()
  {
    hide OpenLog, SealedChain, New, Steps, Finish, Verification, Render, Good, Received;
    var s0 := New(Received(l.output), l.pid, l.start);
    NewOpen(Received(l.output), l.pid, l.start);
    if s0.Failed? {
      OpenIsRejected(s0.rt.log);
    } else {
      StepsOpen(s0.rt, l.events);
      var s1 := Steps(s0.rt, l.events);
      if s1.Failed? {
        OpenIsRejected(s1.rt.log);
      } else {
        FinishOpen(s1.rt, l.stop, l.exitOk);
        var s2 := Finish(s1.rt, l.stop, l.exitOk);
        if s2.Failed? {
          OpenIsRejected(s2.rt.log);
        } else {
          StartsGood(Received(l.output), l.pid, l.start);
          StepsKeep(s0.rt, l.events);
          FinishEffect(s1.rt, l.stop, l.exitOk);
          AcceptedReport(s2.rt.log);
        }
      }
    }
  }

  lemma OpenIsRejected(log: seq<LedgerEntry>)
    requires OpenLog(log)
    ensures !Verification(Render(log)).Passed()
  {
    hide Verification, Render, ChainFrom;
    if Verification(Render(log)).Passed() {
      var es := AcceptedEntries(Render(log));
      RenderInjective(log, es);
      assert false;
    }
  }

  // ---------------------------------------------------------------------------------------------
  // What a successful run guarantees
  // ---------------------------------------------------------------------------------------------

  /** The output is HELLO and then the exact bound acknowledgement of each request in order, the last
      of them for STOP; the requests carry the nonces 1, 2, 3 and so on. */
  predicate Transcript(output: seq<byte>, pid: u64, sent: seq<P.Message>)
  {
    output == Framed([P.Text(P.Hello(pid))] + Answers(sent)) && InOrder(sent)
  }

  predicate InOrder(sent: seq<P.Message>)
  {
    InNonceOrder(sent) && sent != [] && sent[|sent| - 1].request.Stop?
  }

  lemma HeardEverything(output: seq<byte>, pid: u64, sent: seq<P.Message>)
    requires Received(output) != [] && Received(output)[0].Line? && P.ValidateHello(Received(output)[0].text, pid)
    requires Received(output)[1..] == AsMessages(Answers(sent)) + [Eof]
    ensures output == Framed([P.Text(P.Hello(pid))] + Answers(sent))
  {
    hide Received, P.Text, P.Print, P.TrimEndNewlines, AckOf, Framed, FitsFrame;
    TrimPrinted(P.Hello(pid));
    var hello, inbox := P.Text(P.Hello(pid)), Received(output);
    var lines := [hello] + Answers(sent);
    assert AsMessages(lines) == [Line(hello)] + AsMessages(Answers(sent));
    assert inbox == [inbox[0]] + inbox[1..];
    assert inbox == AsMessages(lines) + [Eof];
    ReceivedExactly(output, lines);
  }

  lemma NothingHeard(inbox: seq<ReaderMessage>, c: Child)
    requires c.inbox == inbox && c.sent == []
    ensures Heard(inbox, c)
  {
    assert AsMessages(Answers([])) + inbox == inbox;
  }

  lemma AllHeard(inbox: seq<ReaderMessage>, s: Rt, c: Child)
    requires s.nonce < 0xffff_ffff_ffff_ffff && Heard(inbox, c) && c.inbox == [Eof]
    requires Exchanged(s.child, c, StopRequest(s), AckOf(StopRequest(s)), AuthorityOf(s))
    ensures inbox == AsMessages(Answers(c.sent)) + [Eof]
    ensures c.sent == s.child.sent + [P.BoundRequest(StopRequest(s), AuthorityOf(s))]
  {
    hide P.ValidateBoundAck, AckOf;
  }

  lemma HeardToTheEnd(s0: Rt, events: seq<Event>, stop: Env, exitOk: bool)
    requires Good(s0) && s0.child.sent == [] && Steps(s0, events).Done?
    requires Finish(Steps(s0, events).rt, stop, exitOk).Done?
    ensures var sent := Finish(Steps(s0, events).rt, stop, exitOk).rt.child.sent;
            s0.child.inbox == AsMessages(Answers(sent)) + [Eof] && InOrder(sent)
  {
    hide Steps, Finish, Authoritative, Conserved, Audited, Paired, AckOf, SealedChain, Heard, Exchanged,
          AuthorityOf, Answers, AsMessages;
    var inbox := s0.child.inbox;
    NothingHeard(inbox, s0.child);
    HeardThroughout(inbox, s0, events);
    var s := Steps(s0, events).rt;
    FinishEffect(s, stop, exitOk);
    var c :| Exchanged(s.child, c, StopRequest(s), AckOf(StopRequest(s)), AuthorityOf(s)) && c.inbox == [Eof];
    HeardAnother(inbox, s.child, c, StopRequest(s), AuthorityOf(s));
    AllHeard(inbox, s, c);
  }

  /** The complete output of the child of a successful run is determined byte for byte, whatever the
      child is. */
  lemma WholeTranscript(l: Life)
    requires Live(l).Done?
    ensures Transcript(l.output, l.pid, Live(l).rt.child.sent)
  {
    hide New, Steps, Finish, Received, Good, P.ValidateHello, Framed, Answers, AsMessages, InOrder;
    var inbox := Received(l.output);
    StartsGood(inbox, l.pid, l.start);
    HeardToTheEnd(New(inbox, l.pid, l.start).rt, l.events, l.stop, l.exitOk);
    HeardEverything(l.output, l.pid, Live(l).rt.child.sent);
  }

  /** A run that succeeds reports no damage: every allowed COMMIT is one verified action of the child,
      every rollback is acknowledged, every exchange but STOP is one of these or a recovery,
            every quarantine is closed by a recovery but the last one, and
      epoch, generation and certificate account for the recoveries. */
  lemma RunConserves(l: Life)
    requires Live(l).Done?
    ensures var r := Live(l).rt;
            var m := r.metrics;
            && m.damage == 0
            && r.actionCounter == m.childActions == m.allowedCommits == m.verifiedWorkAcks
            && m.rollbackAcks == m.rollbacks
            && r.nonce == m.allowedCommits + m.rollbacks + m.probeRecoveries + 1
            && m.quarantines - m.probeRecoveries == (if r.body.quarantined then 1 else 0)
            && r.body.generation - r.body.epoch == r.body.certificate - 100 == m.probeRecoveries
  {
    hide New, Steps, Finish, Received, Numbered, Audited, Paired, SealedChain;
    StartsGood(Received(l.output), l.pid, l.start);
    var s0 := New(Received(l.output), l.pid, l.start).rt;
    StepsKeep(s0, l.events);
    FinishEffect(Steps(s0, l.events).rt, l.stop, l.exitOk);
  }

  /** The ledger of a run that succeeds is a faithful audit log: counting its events gives the metrics,
      each COMMIT directly follows its acknowledgement, and the file passes verification with the
      right numbers of entries. */
  lemma LedgerAuditsRun(l: Life)
    requires Live(l).Done?
    ensures var r := Live(l).rt;
            && TallyOf(Names(r.log)) == TallyFrom(r.metrics)
            && Paired(Names(r.log))
            && SealedChain(r.log)
            && Verification(Render(r.log)) == Report(Saturate(|r.log|), Saturate(|r.log| - 1), r.log[|r.log| - 1].hash, [])
  {
    hide New, Steps, Finish, Received, Numbered, Authoritative, Conserved, SealedChain, OpenLog, TallyOf,
          Verification, Render, Paired;
    StartsGood(Received(l.output), l.pid, l.start);
    var s0 := New(Received(l.output), l.pid, l.start).rt;
    StepsKeep(s0, l.events);
    var s := Steps(s0, l.events).rt;
    FinishEffect(s, l.stop, l.exitOk);
    EndingUntracked(Names(s.log));
    AcceptedReport(Live(l).rt.log);
  }

  lemma EndingUntracked(names: seq<string>)
    ensures TallyOf(names + ["FINAL", SEAL_EVENT]) == TallyOf(names)
    ensures Paired(names) ==> Paired(names + ["FINAL", SEAL_EVENT])
  {
    var a, b := names + ["FINAL"], names + ["FINAL", SEAL_EVENT];
    assert b == a + [SEAL_EVENT];
    SnocUntracked(names, "FINAL");
    SnocUntracked(a, SEAL_EVENT);
    if Paired(names) {
      OnePaired(["FINAL"]);
      PairedConcat(names, ["FINAL"]);
      OnePaired([SEAL_EVENT]);
      PairedConcat(a, [SEAL_EVENT]);
    }
  }

  lemma SnocUntracked(names: seq<string>, n: string)
    requires n == "FINAL" || n == SEAL_EVENT
    ensures TallyOf(names + [n]) == TallyOf(names)
  {
    assert (names + [n])[..|names|] == names;
    assert |"COMMIT"| == 6 && |"CHILD_ACK_ACCEPTED"| == 18 && |"COMMIT_BLOCKED"| == 14 && |"QUARANTINE"| == 10;
    assert |"ROLLBACK_ACK_ACCEPTED"| == 21 && |"LEASE_INSTALLED"| == 15;
  }

  /** `wait_for_clean_exit` runs on this child: the run got past its events and the STOP acknowledgement. */
  predicate ReachesExit(l: Life, c: Child)
  {
    hide New, Steps, Exchange, Received;
    var s0 := New(Received(l.output), l.pid, l.start);
    && s0.Done?
    && Steps(s0.rt, l.events).Done?
    && AcknowledgedStop(Steps(s0.rt, l.events).rt, l.stop.fault, c)
  }

  predicate AcknowledgedStop(s: Rt, fault: Fault, c: Child)
  {
    hide Exchange, AckOf;
    && s.nonce < 0xffff_ffff_ffff_ffff
    && Exchange(NextNonce(s).rt, StopRequest(s), AckOf(StopRequest(s)), fault) == Done(NextNonce(s).rt.(child := c))
  }

  /** The branch for a second end-of-file notification is dead: whatever the child wrote, what is left
      to read when the runtime waits for its exit never holds two of them. */
  lemma NeverTwoEofs(l: Life, c: Child, i: nat, j: nat)
    requires ReachesExit(l, c) && i < j < |c.inbox|
    ensures !(c.inbox[i].Eof? && c.inbox[j].Eof?)
  {
    hide New, Steps, Received, Good, Exchange, Heard, AcknowledgedStop, P.ValidateHello;
    var inbox := Received(l.output);
    var s0 := New(inbox, l.pid, l.start).rt;
    StartsGood(inbox, l.pid, l.start);
    NothingHeard(inbox[1..], s0.child);
    HeardThroughout(inbox[1..], s0, l.events);
    var s := Steps(s0, l.events).rt;
    LeftAtExit(inbox[1..], s, l.stop.fault, c);
    EndsOnce(l.output, c.inbox, i, j);
  }

  lemma EndsOnce(output: seq<byte>, inbox: seq<ReaderMessage>, i: nat, j: nat)
    requires |inbox| <= |Received(output)[1..]| && i < j < |inbox|
    requires inbox == Received(output)[1..][|Received(output)[1..]| - |inbox|..]
    ensures !(inbox[i].Eof? && inbox[j].Eof?)
  {
    hide Received;
    OneTerminalMessage(output);
    var n := |Received(output)| - |inbox|;
    assert inbox[i] == Received(output)[n + i];
  }

  lemma LeftAtExit(inbox: seq<ReaderMessage>, s: Rt, fault: Fault, c: Child)
    requires Heard(inbox, s.child) && AcknowledgedStop(s, fault, c)
    ensures |c.inbox| <= |inbox| && c.inbox == inbox[|inbox| - |c.inbox|..]
  {
    hide Exchange, P.ValidateBoundAck, Answers;
    ExchangeEffect(NextNonce(s).rt, StopRequest(s), AckOf(StopRequest(s)), fault);
    var heard := AsMessages(Answers(s.child.sent));
    assert s.child.inbox == inbox[|heard|..];
    assert c.inbox == s.child.inbox[1..];
  }

  /** The runtime gets its result only through such a state, and then a single end of file is left. */
  lemma SuccessReachesExit(l: Life) returns (c: Child)
    requires Live(l).Done?
    ensures ReachesExit(l, c) && c.inbox == [Eof]
  {
    hide New, Steps, Received, Good, Exchange, P.ValidateHello, Complete, ProtocolRejection;
    var inbox := Received(l.output);
    StartsGood(inbox, l.pid, l.start);
    var s0 := New(inbox, l.pid, l.start).rt;
    StepsKeep(s0, l.events);
    var s := Steps(s0, l.events).rt;
    var s1 := NextNonce(s).rt;
    ExchangeEffect(s1, StopRequest(s), AckOf(StopRequest(s)), l.stop.fault);
    c := Exchange(s1, StopRequest(s), AckOf(StopRequest(s)), l.stop.fault).rt.child;
  }
}
