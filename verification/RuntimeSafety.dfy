/** Authority safety over whole runs of the runtime, with any child: what decisions COMMIT can take,
    which BEGIN every WORK request goes back to, and that a revoked lease stays revoked. */
module RuntimeSafety {
  import opened Words
  import opened Authority
  import opened RuntimeSpec
  import opened RuntimeEffects
  import opened RuntimeInvariant
  import opened RuntimeRequests
  import opened Frames
  import P = Protocol
  import Workload

  /** In a run COMMIT decides by the capture and the clock alone: seven of the ten reasons to block
      never occur, and the lease captured is always the active one. */
  lemma DecisionsInRun(s: Rt, now: u64)
    requires Good(s)
    ensures DecisionAt(s, now) ==
            if !s.transaction.pending || s.transaction.captured.None? then BlockNoLease
            else if now >= s.transaction.captured.value.validUntilNs then BlockExpired
            else Allow
    ensures s.transaction.captured.Some? ==>
            s.active.Some? && LeaseReplacementDecision(s.transaction.captured.value, s.active.value) == Allow
  {
    hide Conserved, Numbered, Audited, Paired;
  }

  // ---------------------------------------------------------------------------------------------
  // Traces
  // ---------------------------------------------------------------------------------------------

  /** The states of a run of successful events, from the first to the last. */
  function Trace(s: Rt, events: seq<Event>): (t: seq<Rt>)
    requires Steps(s, events).Done?
    ensures |t| == |events| + 1 && t[0] == s
    decreases |events|
  {
    if events == [] then [s] else [s] + Trace(Step(s, events[0]).rt, events[1..])
  }

  lemma {:induction false} TraceStep(s: Rt, events: seq<Event>, k: nat)
    requires Good(s) && Steps(s, events).Done? && k < |events|
    ensures var t := Trace(s, events);
            && Step(t[k], events[k]) == Done(t[k + 1])
            && Good(t[k]) && Good(t[k + 1]) && Effect(t[k], events[k], t[k + 1])
    decreases k
  {
    hide Good, Step, Effect;
    StepKeeps(s, events[0]);
    if k > 0 {
      TraceStep(Step(s, events[0]).rt, events[1..], k - 1);
    }
  }

  lemma {:induction false} TraceEnds(s: Rt, events: seq<Event>)
    requires Steps(s, events).Done?
    ensures Trace(s, events)[|events|] == Steps(s, events).rt
    decreases |events|
  {
    hide Step;
    if events != [] {
      TraceEnds(Step(s, events[0]).rt, events[1..]);
    }
  }

  // ---------------------------------------------------------------------------------------------
  // Every WORK has its own BEGIN
  // ---------------------------------------------------------------------------------------------

  /** The step puts a WORK request on the child's input. */
  predicate SendsWork(s: Rt, r: Rt)
  {
    && |r.child.sent| > |s.child.sent|
    && r.child.sent[|r.child.sent| - 1].BoundRequest?
    && r.child.sent[|r.child.sent| - 1].request.Work?
  }

  predicate Holds(s: Rt)
  {
    s.transaction.pending && s.transaction.captured.Some?
  }

  /** A state holding a capture was reached from a BEGIN, or from holding it, by refused probes only. */
  lemma HoldingBefore(s: Rt, ev: Event, r: Rt)
    requires Good(s) && Effect(s, ev, r) && Holds(r)
    ensures (ev.Begin? || (ev.Probe? && ProbeRefused(s, r) && Holds(s)))
    ensures r.body == s.body && r.active == s.active == r.transaction.captured
  {
    hide Appended, Exchanged, DecisionAt, Workload.Digest, LeaseFor, Conserved, Numbered, Audited, Paired, WorkAccepted;
  }

  predicate QuietBetween(t: seq<Rt>, events: seq<Event>, j: nat, k: nat)
    requires |t| == |events| + 1 && k <= |events|
  {
    forall i :: j < i < k ==> events[i].Probe? && ProbeRefused(t[i], t[i + 1])
  }

  lemma {:induction false} HoldingSince(s: Rt, events: seq<Event>, k: nat) returns (j: nat)
    requires Good(s) && !s.transaction.pending && Steps(s, events).Done? && k <= |events|
    requires Holds(Trace(s, events)[k])
    ensures j < k && events[j].Begin? && QuietBetween(Trace(s, events), events, j, k)
    ensures var t := Trace(s, events);
            t[j].body == t[k].body && t[j].active == t[k].active == t[k].transaction.captured
    decreases k
  {
    hide Good, Effect, ProbeRefused, Step, Steps, Trace;
    var t := Trace(s, events);
    assert k > 0;
    TraceStep(s, events, k - 1);
    HoldingBefore(t[k - 1], events[k - 1], t[k]);
    if events[k - 1].Begin? {
      j := k - 1;
    } else {
      j := HoldingSince(s, events, k - 1);
    }
  }

  /** After these events, `ev` is a COMMIT that goes back to the BEGIN at `j`: nothing but refused probes
      lies in between, body and lease are those of the BEGIN, and they authorize the request now. */
  predicate AuthorizedBy(s: Rt, events: seq<Event>, j: nat, ev: Event)
  {
    hide Steps, Trace, ProbeRefused, Authorizes;
    && Steps(s, events).Done? && j < |events| && events[j].Begin? && ev.Commit?
    && QuietBetween(Trace(s, events), events, j, |events|)
    && SameAuthority(Trace(s, events)[j], Trace(s, events)[|events|])
    && CanCommit(Trace(s, events)[|events|], ev.env.now)
  }

  predicate SameAuthority(s: Rt, r: Rt)
  {
    s.body == r.body && s.active == r.active
  }

  predicate CanCommit(s: Rt, now: u64)
  {
    s.active.Some? && Authorizes(s.body, s.active.value, RequestAt(now))
  }

  /** Run-level authority safety: whatever becomes of the event, if it puts a WORK request on the child's
      input, it is a COMMIT that some earlier BEGIN authorizes. */
  lemma WorkHasBegin(s: Rt, events: seq<Event>, ev: Event) returns (j: nat)
    requires Good(s) && !s.transaction.pending && Steps(s, events).Done?
    requires SendsWork(Steps(s, events).rt, Step(Steps(s, events).rt, ev).rt)
    ensures AuthorizedBy(s, events, j, ev)
  {
    hide Good, Effect, ProbeRefused, Step, Steps, Trace, CommitDecision;
    var r := Steps(s, events).rt;
    StepSends(r, ev);
    CommitAllows(r.transaction, r.body, r.active, RequestAt(ev.env.now));
    TraceEnds(s, events);
    j := HoldingSince(s, events, |events|);
  }

  /** No two WORK requests go back to the same BEGIN. */
  lemma BeginsAreDistinct(s: Rt, events: seq<Event>, k: nat, j: nat, ev: Event, j': nat)
    requires k < |events| && AuthorizedBy(s, events[..k], j, events[k])
    requires AuthorizedBy(s, events, j', ev)
    ensures j < k < j'
  {
    hide Steps, Trace, ProbeRefused, SameAuthority, CanCommit;
    if j' < k {
      assert false;
    }
  }

  // ---------------------------------------------------------------------------------------------
  // The same for whole lives
  // ---------------------------------------------------------------------------------------------

  /** The request with index `i` among those sent was written by the event at `k`. */
  predicate SentAt(s: Rt, events: seq<Event>, k: nat, sent: seq<P.Message>, i: nat)
  {
    hide Steps, Step;
    && k < |events| && i < |sent|
    && Steps(s, events[..k]).Done?
    && |Steps(s, events[..k]).rt.child.sent| == i
    && Step(Steps(s, events[..k]).rt, events[k]).rt.child.sent == sent[..i + 1]
  }

  lemma {:induction false} SentOnlyGrows(s: Rt, events: seq<Event>)
    ensures s.child.sent <= Steps(s, events).rt.child.sent
    decreases |events|
  {
    hide Step, DecisionAt;
    if events != [] {
      StepSends(s, events[0]);
      SentOnlyGrows(Step(s, events[0]).rt, events[1..]);
    }
  }

  lemma {:induction false} RequestOrigin(s: Rt, events: seq<Event>, i: nat) returns (k: nat)
    requires |s.child.sent| <= i < |Steps(s, events).rt.child.sent|
    ensures SentAt(s, events, k, Steps(s, events).rt.child.sent, i)
    decreases |events|
  {
    hide Step, DecisionAt;
    assert events != [];
    var s1, rest := Step(s, events[0]), events[1..];
    var sent := Steps(s, events).rt.child.sent;
    StepSends(s, events[0]);
    if i < |s1.rt.child.sent| {
      k := 0;
      SentOnlyGrows(s1.rt, rest);
      assert events[..0] == [];
      assert sent[..i + 1] == s1.rt.child.sent;
    } else {
      var m := RequestOrigin(s1.rt, rest, i);
      k := m + 1;
      assert events[..k][1..] == rest[..m] && events[..k][0] == events[0];
    }
  }

  lemma {:induction false} StepsConcat(s: Rt, a: seq<Event>, b: seq<Event>)
    requires Steps(s, a).Done?
    ensures Steps(s, a + b) == Steps(Steps(s, a).rt, b)
    decreases |a|
  {
    hide Step;
    if a == [] {
      assert a + b == b;
    } else {
      assert (a + b)[1..] == a[1..] + b;
      StepsConcat(Step(s, a[0]).rt, a[1..], b);
    }
  }

  /** A life and its state after `Runtime::new`. */
  predicate Created(l: Life, s0: Rt)
  {
    New(Received(l.output), l.pid, l.start) == Done(s0)
  }

  /** After the events a run sends at most STOP. */
  lemma EndSends(l: Life, s0: Rt)
    requires Created(l, s0)
    ensures Sends(Steps(s0, l.events).rt, Live(l).rt, false)
  {
    hide New, Steps, Finish, Received, IsNext;
    var s1 := Steps(s0, l.events);
    if s1.Done? {
      FinishSends(s1.rt, l.stop, l.exitOk);
    }
  }

  lemma BirthSends(l: Life)
    requires New(Received(l.output), l.pid, l.start).Failed?
    ensures Live(l).rt.child.sent == []
  {
    hide New, Steps, Finish, Received;
    NewSendsNothing(Received(l.output), l.pid, l.start);
  }

  /** Creation sends nothing and the end of a run only STOP, so WORK comes from the events. */
  lemma WorkIsFromEvents(l: Life, i: nat) returns (s0: Rt)
    requires i < |Live(l).rt.child.sent|
    requires Live(l).rt.child.sent[i].BoundRequest? && Live(l).rt.child.sent[i].request.Work?
    ensures Created(l, s0) && Good(s0) && s0.transaction == IDLE && s0.child.sent == []
    ensures i < |Steps(s0, l.events).rt.child.sent| && Steps(s0, l.events).rt.child.sent <= Live(l).rt.child.sent
  {
    hide Live, New, Steps, Received, Good, P.ValidateHello;
    var inbox := Received(l.output);
    if New(inbox, l.pid, l.start).Failed? {
      BirthSends(l);
      assert false;
    }
    s0 := New(inbox, l.pid, l.start).rt;
    StartsGood(inbox, l.pid, l.start);
    EndSends(l, s0);
  }

  /** Every WORK request of a life, successful or failed, with any child: it was written by a COMMIT of
      the events, and that COMMIT was authorized by an earlier BEGIN. */
  lemma EveryWorkAuthorized(l: Life, i: nat) returns (s0: Rt, k: nat, j: nat)
    requires i < |Live(l).rt.child.sent|
    requires Live(l).rt.child.sent[i].BoundRequest? && Live(l).rt.child.sent[i].request.Work?
    ensures Created(l, s0) && SentAt(s0, l.events, k, Live(l).rt.child.sent, i)
    ensures AuthorizedBy(s0, l.events[..k], j, l.events[k])
  {
    s0 := WorkIsFromEvents(l, i);
    hide Live, Created, Steps, Step, Good, AuthorizedBy, SentAt;
    k := RequestOrigin(s0, l.events, i);
    var sent := Live(l).rt.child.sent;
    SentEarlier(s0, l.events, k, Steps(s0, l.events).rt.child.sent, sent, i);
    WorkSent(s0, l.events, k, sent, i);
    j := WorkHasBegin(s0, l.events[..k], l.events[k]);
  }

  lemma SentEarlier(s: Rt, events: seq<Event>, k: nat, sent: seq<P.Message>, more: seq<P.Message>, i: nat)
    requires SentAt(s, events, k, sent, i) && sent <= more
    ensures k < |events| && Steps(s, events[..k]).Done? && SentAt(s, events, k, more, i)
  {
    hide Steps, Step;
    assert more[..i + 1] == sent[..i + 1];
  }

  lemma WorkSent(s: Rt, events: seq<Event>, k: nat, sent: seq<P.Message>, i: nat)
    requires SentAt(s, events, k, sent, i) && sent[i].BoundRequest? && sent[i].request.Work?
    ensures SendsWork(Steps(s, events[..k]).rt, Step(Steps(s, events[..k]).rt, events[k]).rt)
  {
    hide Steps, Step;
    assert sent[..i + 1][i] == sent[i];
  }

  /** And no two of them go back to the same BEGIN. */
  lemma WorksHaveOwnBegins(s0: Rt, events: seq<Event>, sent: seq<P.Message>, i: nat, k: nat, j: nat, i': nat, k': nat, j': nat)
    requires i < i' && SentAt(s0, events, k, sent, i) && SentAt(s0, events, k', sent, i')
    requires AuthorizedBy(s0, events[..k], j, events[k]) && AuthorizedBy(s0, events[..k'], j', events[k'])
    ensures j < k < j' < k'
  {
    hide Steps, Step, AuthorizedBy;
    if k' <= k {
      var between := events[..k][k'..];
      assert events[..k] == events[..k'] + between;
      StepsConcat(s0, events[..k'], between);
      SentOnlyGrows(Steps(s0, events[..k']).rt, between);
      assert false;
    }
    assert events[..k'][..k] == events[..k] && events[..k'][k] == events[k];
    BeginsAreDistinct(s0, events[..k'], k, j, events[k'], j');
    BeginIsEarlier(s0, events[..k'], j', events[k']);
  }

  lemma BeginIsEarlier(s: Rt, events: seq<Event>, j: nat, ev: Event)
    requires AuthorizedBy(s, events, j, ev)
    ensures j < |events|
  {
    hide Steps, Trace;
  }

  // ---------------------------------------------------------------------------------------------
  // A revoked lease stays revoked
  // ---------------------------------------------------------------------------------------------

  /** The body has moved on from the lease, or is isolated until it does. */
  predicate Revoked(s: Rt, lease: SafetyLease)
  {
    s.body.certificate > lease.certificate || (s.body.certificate == lease.certificate && s.body.quarantined)
  }

  /** Certificates and generations never go back, and both grow whenever the body is reinstated. */
  lemma BodyOnlyAdvances(s: Rt, ev: Event, r: Rt)
    requires Effect(s, ev, r)
    ensures s.body.certificate <= r.body.certificate && s.body.generation <= r.body.generation && s.body.epoch <= r.body.epoch
    ensures s.body.quarantined && !r.body.quarantined
            ==> s.body.certificate < r.body.certificate && s.body.generation < r.body.generation
  {
    hide Appended, Exchanged, DecisionAt, Workload.Digest, LeaseFor, WorkAccepted;
  }

  lemma LosesLease(s: Rt, ev: Event, r: Rt)
    requires Good(s) && Good(r) && Effect(s, ev, r) && s.active.Some? && r.active != s.active
    ensures Revoked(r, s.active.value)
  {
    hide Appended, Exchanged, DecisionAt, Workload.Digest, Conserved, Numbered, Audited, Paired, WorkAccepted;
  }

  lemma {:induction false} RevokedSince(s: Rt, events: seq<Event>, i: nat, j: nat, lease: SafetyLease)
    requires Good(s) && Steps(s, events).Done? && i <= j <= |events|
    requires Trace(s, events)[i].active == Some(lease) || Revoked(Trace(s, events)[i], lease)
    ensures Trace(s, events)[j].active == Some(lease) || Revoked(Trace(s, events)[j], lease)
    ensures Revoked(Trace(s, events)[i], lease) ==> Revoked(Trace(s, events)[j], lease)
    decreases j - i
  {
    hide Good, Effect, Step, Steps, Trace;
    if i < j {
      var t := Trace(s, events);
      TraceStep(s, events, i);
      BodyOnlyAdvances(t[i], events[i], t[i + 1]);
      if t[i].active == Some(lease) && t[i + 1].active != Some(lease) {
        LosesLease(t[i], events[i], t[i + 1]);
      }
      RevokedSince(s, events, i + 1, j, lease);
    }
  }

  /** Once a lease has stopped being the active one, it passes the oracle for no later body of the
      run and no request. */
  lemma RevokedForever(s: Rt, events: seq<Event>, i: nat, j: nat, k: nat, lease: SafetyLease, request: CommitRequest)
    requires Good(s) && Steps(s, events).Done? && i <= j <= k <= |events|
    requires Trace(s, events)[i].active == Some(lease) && Trace(s, events)[j].active != Some(lease)
    ensures ValidateCommit(Trace(s, events)[k].body, Some(lease), request) != Allow
    ensures Trace(s, events)[k].active != Some(lease)
  {
    hide Good, Step, Steps, Trace;
    RevokedSince(s, events, i, j, lease);
    RevokedSince(s, events, j, k, lease);
    var r := Trace(s, events)[k];
    if r.active == Some(lease) {
      TraceGood(s, events, k);
      LeaseIsCurrent(r);
      assert false;
    }
  }

  lemma TraceGood(s: Rt, events: seq<Event>, k: nat)
    requires Good(s) && Steps(s, events).Done? && k <= |events|
    ensures Good(Trace(s, events)[k])
  {
    hide Good, Step, Steps, Trace, Effect;
    if k > 0 {
      TraceStep(s, events, k - 1);
    }
  }

  lemma LeaseIsCurrent(s: Rt)
    requires Good(s) && s.active.Some?
    ensures !s.body.quarantined && s.active.value.certificate == s.body.certificate
  {
    hide Conserved, Numbered, Audited, Paired;
  }
}
