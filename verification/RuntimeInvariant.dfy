/** What holds after every event that succeeds, over every run of the runtime with any child: authority,
    conservation of the counters, the ledger as an audit log, and the transcript so far. */
module RuntimeInvariant {
  import opened Words
  import opened Authority
  import opened LedgerEntries
  import opened LedgerWriter
  import opened Frames
  import opened RuntimeSpec
  import opened RuntimeEffects
  import P = Protocol
  import Workload

  /** There is a lease exactly when the body is not quarantined; it names body and reflex field by
      field, and a capture that is still pending is empty or this very lease. */
  predicate Authoritative(s: Rt)
  {
    && s.reflex == REFLEX
    && s.rollbackConfirmed == s.body.quarantined
    && (s.active.Some? <==> !s.body.quarantined)
    && (s.active.Some? ==> s.active.value == LeaseFor(s.body, s.reflex, s.active.value.validUntilNs))
    && (!s.transaction.pending ==> s.transaction == IDLE)
    && (s.transaction.captured.Some? ==> s.transaction.captured == s.active)
  }

  predicate Conserved(s: Rt)
  {
    var m := s.metrics;
    && s.actionCounter == m.childActions == m.allowedCommits == m.verifiedWorkAcks
    && m.rollbackAcks == m.rollbacks
    && s.nonce == m.allowedCommits + m.rollbacks + m.probeRecoveries
    && m.quarantines - m.probeRecoveries == (if s.body.quarantined then 1 else 0)
    && m.quarantines <= m.rollbacks
    && s.body.generation - s.body.epoch == s.body.certificate - 100 == m.probeRecoveries
    && 1 <= s.body.epoch <= m.rollbacks + 1
    && m.damage == 0
  }

  /** The child has been sent one bound request per nonce, and its input is open. */
  predicate Numbered(s: Rt)
  {
    && s.child.open
    && s.nonce == |s.child.sent|
    && InNonceOrder(s.child.sent)
  }

  /** The i-th request carries the nonce i + 1. */
  predicate InNonceOrder(sent: seq<P.Message>)
  {
    forall i :: 0 <= i < |sent| ==> sent[i].BoundRequest? && sent[i].request.nonce == i + 1
  }

  // ---------------------------------------------------------------------------------------------
  // Counting ledger events
  // ---------------------------------------------------------------------------------------------

  function Occurrences(names: seq<string>, name: string): (n: nat)
    ensures n <= |names|
  {
    if names == [] then 0
    else Occurrences(names[..|names| - 1], name) + if names[|names| - 1] == name then 1 else 0
  }

  /** How often the ledger holds each event of interest, and how often the metrics say it should. */
  datatype Tally = Tally(
    commits: nat, workAcks: nat, blocked: nat, quarantines: nat, rollbackAcks: nat, leases: nat,
    probeRequests: nat, probesAccepted: nat, probesRejected: int)

  function TallyOf(names: seq<string>): (t: Tally)
  {
    Tally(Occurrences(names, "COMMIT"), Occurrences(names, "CHILD_ACK_ACCEPTED"), Occurrences(names, "COMMIT_BLOCKED"),
          Occurrences(names, "QUARANTINE"), Occurrences(names, "ROLLBACK_ACK_ACCEPTED"),
          Occurrences(names, "LEASE_INSTALLED"), Occurrences(names, "FUNCTIONAL_FRESHNESS_PROBE_REQUEST"),
          Occurrences(names, "FUNCTIONAL_FRESHNESS_PROBE_ACCEPTED"),
          Occurrences(names, "FUNCTIONAL_FRESHNESS_PROBE_REJECTED"))
  }

  function TallyFrom(m: Metrics): (t: Tally)
  {
    Tally(m.allowedCommits, m.verifiedWorkAcks, m.blockedCommits, m.rollbacks, m.rollbackAcks, m.probeRecoveries + 1,
          m.probeRecoveries, m.probeRecoveries, m.probeRequests - m.probeRecoveries)
  }

  /** The ledger is open, and counting its events reproduces the metrics. */
  predicate Audited(s: Rt)
  {
    && OpenLog(s.log)
    && |s.log| <= 0xffff_ffff_ffff_ffff
    && TallyOf(Names(s.log)) == TallyFrom(s.metrics)
    && s.metrics.staleOrExpiredBlocked == s.metrics.blockedCommits
  }

  /** Every COMMIT comes directly after a CHILD_ACK_ACCEPTED, and every one of those directly before a COMMIT. */
  predicate Paired(names: seq<string>)
  {
    && (forall i :: 0 <= i < |names| && names[i] == "COMMIT" ==> i > 0 && names[i - 1] == "CHILD_ACK_ACCEPTED")
    && (forall i :: 0 <= i < |names| && names[i] == "CHILD_ACK_ACCEPTED" ==> i + 1 < |names| && names[i + 1] == "COMMIT")
  }

  predicate Good(s: Rt)
  {
    Authoritative(s) && Conserved(s) && Numbered(s) && Audited(s) && Paired(Names(s.log))
  }

  lemma PairedConcat(a: seq<string>, b: seq<string>)
    requires Paired(a) && Paired(b)
    ensures Paired(a + b)
  {
    var c := a + b;
    forall i | 0 <= i < |c|
      ensures c[i] == "COMMIT" ==> i > 0 && c[i - 1] == "CHILD_ACK_ACCEPTED"
      ensures c[i] == "CHILD_ACK_ACCEPTED" ==> i + 1 < |c| && c[i + 1] == "COMMIT"
    {
      if i < |a| {
        assert c[i] == a[i];
      } else {
        assert c[i] == b[i - |a|];
      }
    }
  }

  function Add(t: Tally, e: AuditEvent): Tally
  {
    match e
    case CommitDone => t.(commits := t.commits + 1)
    case ChildAckAccepted(_, _, _, _) => t.(workAcks := t.workAcks + 1)
    case CommitBlocked(_) => t.(blocked := t.blocked + 1)
    case Quarantined(_) => t.(quarantines := t.quarantines + 1)
    case RollbackAccepted => t.(rollbackAcks := t.rollbackAcks + 1)
    case LeaseInstalled(_) => t.(leases := t.leases + 1)
    case ProbeRequest => t.(probeRequests := t.probeRequests + 1)
    case ProbeAccepted => t.(probesAccepted := t.probesAccepted + 1)
    case ProbeRejected => t.(probesRejected := t.probesRejected + 1)
    case _ => t
  }

  function AddAll(t: Tally, events: seq<AuditEvent>): Tally
    decreases |events|
  {
    if events == [] then t else AddAll(Add(t, events[0]), events[1..])
  }

  lemma OccurrencesSnoc(names: seq<string>, n: string, name: string)
    ensures Occurrences(names + [n], name) == Occurrences(names, name) + if n == name then 1 else 0
  {
    assert (names + [n])[..|names|] == names;
  }

  lemma AddEvent(names: seq<string>, e: AuditEvent)
    ensures TallyOf(names + [e.Name()]) == Add(TallyOf(names), e)
  {
    hide AuditEvent.Name, Occurrences;
    TrackedNames(e);
    OccurrencesSnoc(names, e.Name(), "COMMIT");
    OccurrencesSnoc(names, e.Name(), "CHILD_ACK_ACCEPTED");
    OccurrencesSnoc(names, e.Name(), "COMMIT_BLOCKED");
    OccurrencesSnoc(names, e.Name(), "QUARANTINE");
    OccurrencesSnoc(names, e.Name(), "ROLLBACK_ACK_ACCEPTED");
    OccurrencesSnoc(names, e.Name(), "LEASE_INSTALLED");
    OccurrencesSnoc(names, e.Name(), "FUNCTIONAL_FRESHNESS_PROBE_REQUEST");
    OccurrencesSnoc(names, e.Name(), "FUNCTIONAL_FRESHNESS_PROBE_ACCEPTED");
    OccurrencesSnoc(names, e.Name(), "FUNCTIONAL_FRESHNESS_PROBE_REJECTED");
  }

  lemma {:induction false} TallyAppended(names: seq<string>, events: seq<AuditEvent>)
    ensures TallyOf(names + NamesOf(events)) == AddAll(TallyOf(names), events)
    decreases |events|
  {
    hide TallyOf, Add, AuditEvent.Name;
    if events == [] {
      assert names + NamesOf(events) == names;
    } else {
      AddEvent(names, events[0]);
      assert names + NamesOf(events) == names + [events[0].Name()] + NamesOf(events[1..]);
      TallyAppended(names + [events[0].Name()], events[1..]);
    }
  }

  /** The tracked names tell the events apart. */
  lemma TrackedNames(e: AuditEvent)
    ensures e.Name() == "COMMIT" <==> e.CommitDone?
    ensures e.Name() == "CHILD_ACK_ACCEPTED" <==> e.ChildAckAccepted?
    ensures e.Name() == "COMMIT_BLOCKED" <==> e.CommitBlocked?
    ensures e.Name() == "QUARANTINE" <==> e.Quarantined?
    ensures e.Name() == "ROLLBACK_ACK_ACCEPTED" <==> e.RollbackAccepted?
    ensures e.Name() == "LEASE_INSTALLED" <==> e.LeaseInstalled?
    ensures e.Name() == "FUNCTIONAL_FRESHNESS_PROBE_ACCEPTED" <==> e.ProbeAccepted?
    ensures e.Name() == "FUNCTIONAL_FRESHNESS_PROBE_REQUEST" <==> e.ProbeRequest?
    ensures e.Name() == "FUNCTIONAL_FRESHNESS_PROBE_REJECTED" <==> e.ProbeRejected?
  {
  }

  // ---------------------------------------------------------------------------------------------
  // Every successful event keeps the invariant
  // ---------------------------------------------------------------------------------------------

  lemma AuthoritativeKept(s: Rt, ev: Event, r: Rt)
    requires Authoritative(s) && Effect(s, ev, r)
    ensures Authoritative(r)
  {
    hide Appended, Exchanged, CommitDecision, Workload.Digest;
    if ev.Commit? && Worked(s, ev.env.now, r) {
      CommitAllows(s.transaction, s.body, s.active, RequestAt(ev.env.now));
    }
  }

  lemma ConservedKept(s: Rt, ev: Event, r: Rt)
    requires Authoritative(s) && Conserved(s) && Effect(s, ev, r)
    ensures Conserved(r)
  {
    hide Appended, Exchanged, CommitDecision, Workload.Digest, LeaseFor;
  }

  lemma NumberedKept(s: Rt, ev: Event, r: Rt)
    requires Numbered(s) && Effect(s, ev, r)
    ensures Numbered(r)
  {
    hide Appended, P.ValidateBoundAck, CommitDecision, Workload.Digest, LeaseFor, Isolated;
  }

  /** The ledger events of a successful event. */
  function EventsOf(s: Rt, ev: Event, r: Rt): (es: seq<AuditEvent>)
    requires Effect(s, ev, r)
  {
    match ev
    case Begin => [BeginAction]
    case Commit(env) => if Worked(s, env.now, r) then [WorkAccepted(s),
          CommitDone] else [CommitBlocked(DecisionAt(s, env.now))]
    case Reset(_) => [Quarantined(true), RollbackAccepted]
    case Probe(env) => if ProbeRefused(s, r) then [ProbeRejected] else [ProbeRequest, LeaseInstalled(true), ProbeAccepted]
    case LeaseTimeout(_) => [Quarantined(false), RollbackAccepted]
  }

  lemma EventsAppended(s: Rt, ev: Event, r: Rt)
    requires Effect(s, ev, r)
    ensures Appended(s.log, r.log, EventsOf(s, ev, r))
  {
    hide Appended, Exchanged, DecisionAt, Workload.Digest, LeaseFor, Isolated, WorkAccepted;
  }

  lemma BlockedFits(log: seq<LedgerEntry>)
    ensures TallyOf(Names(log)).blocked <= |log|
    ensures TallyOf(Names(log)).probesRejected + TallyOf(Names(log)).probeRequests <= |log|
  {
    TwoNames(Names(log), "FUNCTIONAL_FRESHNESS_PROBE_REQUEST", "FUNCTIONAL_FRESHNESS_PROBE_REJECTED");
  }

  lemma {:induction false} TwoNames(names: seq<string>, a: string, b: string)
    requires a != b
    ensures Occurrences(names, a) + Occurrences(names, b) <= |names|
  {
    if names != [] {
      TwoNames(names[..|names| - 1], a, b);
    }
  }

  lemma AddUpToThree(t: Tally, es: seq<AuditEvent>)
    requires 1 <= |es| <= 3
    ensures AddAll(t, es) == if |es| == 1 then Add(t, es[0])
                             else if |es| == 2 then Add(Add(t, es[0]), es[1]) else Add(Add(Add(t, es[0]), es[1]), es[2])
  {
    hide Add;
    if |es| > 1 {
      assert es[1..][0] == es[1] && es[1..][1..] == es[2..];
      assert AddAll(Add(Add(t, es[0]), es[1]), es[2..]) == AddAll(t, es);
      if |es| > 2 {
        assert es[2..][0] == es[2] && es[2..][1..] == [];
      } else {
        assert es[2..] == [];
      }
    }
  }

  lemma AuditedKept(s: Rt, ev: Event, r: Rt)
    requires Good(s) && Effect(s, ev, r)
    ensures Audited(r)
  {
    hide Exchanged, DecisionAt, Workload.Digest, LeaseFor, TallyOf, OpenLog, AuditEvent.Name, Numbered, Authoritative,
         Paired, NamesOf;
    EventsAppended(s, ev, r);
    var es := EventsOf(s, ev, r);
    TallyAppended(Names(s.log), es);
    BlockedFits(r.log);
    AddUpToThree(TallyOf(Names(s.log)), es);
    match ev
    case Begin =>
    case Commit(env) =>
    case Reset(_) =>
    case Probe(_) =>
    case LeaseTimeout(_) =>
  }

  lemma PairedKept(s: Rt, ev: Event, r: Rt)
    requires Paired(Names(s.log)) && Effect(s, ev, r)
    ensures Paired(Names(r.log))
  {
    hide Exchanged, DecisionAt, Workload.Digest, LeaseFor, OpenLog, Paired, AuditEvent.Name, Effect, EventsOf;
    EventsAppended(s, ev, r);
    var es := EventsOf(s, ev, r);
    EventsPaired(s, ev, r);
    PairedConcat(Names(s.log), NamesOf(es));
  }

  lemma EventsPaired(s: Rt, ev: Event, r: Rt)
    requires Effect(s, ev, r)
    ensures Paired(NamesOf(EventsOf(s, ev, r)))
  {
    hide Exchanged, DecisionAt, Workload.Digest, LeaseFor, OpenLog, Appended, AuditEvent.Name, Isolated;
    var es := EventsOf(s, ev, r);
    forall i | 0 <= i < |es|
      ensures es[i].Name() == "COMMIT" <==> es[i].CommitDone?
      ensures es[i].Name() == "CHILD_ACK_ACCEPTED" <==> es[i].ChildAckAccepted?
    {
      TrackedNames(es[i]);
    }
  }

  /** Every event that succeeds keeps the invariant, whatever the child says. */
  lemma StepKeeps(s: Rt, ev: Event)
    requires Good(s) && Step(s, ev).Done?
    ensures Good(Step(s, ev).rt) && Effect(s, ev, Step(s, ev).rt)
  {
    hide Step, Effect, Numbered, Paired, Names, TallyOf, OpenLog, LeaseFor;
    StepEffect(s, ev);
    var r := Step(s, ev).rt;
    AuthoritativeKept(s, ev, r);
    ConservedKept(s, ev, r);
    NumberedKept(s, ev, r);
    AuditedKept(s, ev, r);
    PairedKept(s, ev, r);
  }

  lemma StartsGood(inbox: seq<ReaderMessage>, pid: u64, env: Env)
    requires New(inbox, pid, env).Done?
    ensures Good(New(inbox, pid, env).rt)
    ensures inbox != [] && inbox[0].Line? && P.ValidateHello(inbox[0].text, pid)
    ensures New(inbox, pid, env).rt.child == Child(inbox[1..], [], true)
    ensures New(inbox, pid, env).rt.transaction == IDLE
  {
    hide P.ValidateHello, Record, CompilePolicy, TallyOf, AuditEvent.Name, Paired, OpenLog;
    PolicyCompiles();
    var s0 := InitialState(REFLEX, inbox[1..]);
    var until := CheckedLeaseDeadline(env.now, s0.reflex.leaseNs).value;
    var s1 := s0.(active := Some(LeaseFor(s0.body, s0.reflex, until)));
    assert OpenLog(s0.log) by {
      EmptyLogIsOpen();
    }
    RecordEffect(s1, LeaseInstalled(false), s1.active);
    var r := Record(s1, LeaseInstalled(false), s1.active).rt;
    TallyAppended(Names(s1.log), [LeaseInstalled(false)]);
    AddUpToThree(TallyOf(Names(s1.log)), [LeaseInstalled(false)]);
    assert Names(r.log) == NamesOf([LeaseInstalled(false)]);
    assert TallyOf(Names(s1.log)) == Tally(0, 0, 0, 0, 0, 0, 0, 0, 0) by {
      NothingCounted();
    }
    TrackedNames(LeaseInstalled(false));
    assert Paired(Names(r.log)) by {
      OnePaired(Names(r.log));
    }
  }

  lemma EmptyLogIsOpen()
    ensures OpenLog([])
  {
  }

  lemma NothingCounted()
    ensures TallyOf(Names([])) == Tally(0, 0, 0, 0, 0, 0, 0, 0, 0)
  {
  }

  lemma OnePaired(names: seq<string>)
    requires |names| == 1 && names[0] != "COMMIT" && names[0] != "CHILD_ACK_ACCEPTED"
    ensures Paired(names)
  {
  }

  lemma {:induction false} StepsKeep(s: Rt, events: seq<Event>)
    requires Good(s) && Steps(s, events).Done?
    ensures Good(Steps(s, events).rt)
    decreases |events|
  {
    hide Good, Step, Effect;
    if events != [] {
      StepKeeps(s, events[0]);
      StepsKeep(Step(s, events[0]).rt, events[1..]);
    }
  }
}
