/** Runtime and honest child as one closed system: they stay in step event by event, and the whole life
    of the runtime against the honest child succeeds. */
module ClosedSystem {
  import opened Words
  import opened Utf8
  import opened Authority
  import opened LedgerWriter
  import opened Frames
  import opened Foresight
  import opened RuntimeSpec
  import opened RuntimeEffects
  import opened RuntimeInvariant
  import opened RuntimeRuns
  import opened ChildLoop
  import opened Lockstep
  import opened Progress
  import P = Protocol
  import Workload
  import WireLanguage

  // ---------------------------------------------------------------------------------------------
  // Event by event
  // ---------------------------------------------------------------------------------------------

  /** The parent, and the action counter of the child. */
  datatype Joint = Joint(rt: Rt, actions: u64)

  /** The parent handles one event; when that sends a request, the child reads the printed line and
      its reply is what the parent reads. None stands for any failure on either side. */
  function JointStep(j: Joint, ev: Event): (r: Option<Joint>)
    requires Roomy(j.rt) && Small(j.rt)
  {
    hide Step, Handle;
    match Asked(j.rt, ev)
    case None =>
      (match Step(j.rt, ev)
       case Failed(_) => None
       case Done(r) => Some(Joint(r, j.actions)))
    case Some(m) =>
      var h := Handle(j.actions, P.Text(m));
      if !h.reaction.Reply? then None
      else
        match Step(Feed(j.rt, [Line(P.Text(h.Message()))]), ev)
        case Failed(_) => None
        case Done(r) => Some(Joint(r, h.reaction.actions))
  }

  /** Both sides agree on the number of actions, and nothing is left to read. */
  predicate Locked(j: Joint)
  {
    Good(j.rt) && Ordered(j.rt) && j.rt.child.inbox == [] && j.actions == j.rt.metrics.childActions
  }

  lemma AskedIsServable(s: Rt, ev: Event)
    requires Good(s) && Ordered(s) && Roomy(s) && Small(s) && Asked(s, ev).Some?
    ensures Servable(Asked(s, ev).value, s.actionCounter)
  {
    hide DecisionAt, AuthorityOf, Authoritative, Conserved, Audited, Paired, AllServable, Works;
  }

  lemma FeedIsGood(s: Rt, more: seq<ReaderMessage>)
    ensures Good(s) ==> Good(Feed(s, more))
    ensures Ordered(s) ==> Ordered(Feed(s, more))
    ensures Small(s) == Small(Feed(s, more)) && Roomy(s) == Roomy(Feed(s, more))
  {
    hide TallyOf, Paired, OpenLog, AllServable, Works, LeaseFor;
  }

  lemma FeedAsksTheSame(s: Rt, more: seq<ReaderMessage>, ev: Event)
    requires Roomy(s) && Small(s) && Roomy(Feed(s, more)) && Small(Feed(s, more))
    ensures Asked(Feed(s, more), ev) == Asked(s, ev)
  {
    hide CommitDecision;
  }

  lemma ServedLikeThis(m: P.Message, actions: u64)
    requires Servable(m, actions)
    ensures Handle(actions, P.Text(m)).reaction.Reply?
    ensures P.Text(Handle(actions, P.Text(m)).Message()) == Answer(m)
    ensures Handle(actions, P.Text(m)).reaction.actions == actions + WorkWeight(m)
  {
    hide P.Text, Handle, Workload.Digest;
    BoundRequestHandled(m, actions);
  }

  /** Lockstep: while nothing fails, every admissible event succeeds on both sides. The request parses,
      its acknowledgement validates, and both counters of actions stay equal. */
  lemma StaysLocked(j: Joint, ev: Event)
    requires Locked(j) && Admissible(j.rt, ev) && Small(j.rt)
    ensures JointStep(j, ev).Some? && Locked(JointStep(j, ev).value)
  {
    hide Good, Ordered, Step, Effect, Handle, P.Text, Small, Roomy, Asked, Servable;
    CountersAgree(j.rt);
    if Asked(j.rt, ev).None? {
      StepSucceeds(j.rt, ev);
      Advances(j.rt, ev);
    } else {
      var m := Asked(j.rt, ev).value;
      AskedIsServable(j.rt, ev);
      ServedLikeThis(m, j.actions);
      var fed := Feed(j.rt, [Line(Answer(m))]);
      FedIsReady(j.rt, m, ev);
      StepSucceeds(fed, ev);
      Advances(fed, ev);
    }
  }

  lemma CountersAgree(s: Rt)
    requires Good(s)
    ensures s.actionCounter == s.metrics.childActions
  {
    hide Authoritative, Numbered, Audited, Paired;
  }

  lemma FedIsReady(s: Rt, m: P.Message, ev: Event)
    requires Good(s) && Ordered(s) && Small(s) && Admissible(s, ev) && s.child.inbox == []
    requires Asked(s, ev) == Some(m)
    ensures var fed := Feed(s, [Line(Answer(m))]);
            && Good(fed) && Ordered(fed) && Small(fed) && Admissible(fed, ev) && Asked(fed, ev) == Some(m)
            && Answered(fed.child, m) && |fed.child.inbox| == 1
            && fed.metrics == s.metrics && fed.actionCounter == s.actionCounter
  {
    hide Authoritative, Conserved, Audited, Paired, Ordered, Answer, Asked, Small;
    var more := [Line(Answer(m))];
    FeedIsGood(s, more);
    FeedAsksTheSame(s, more, ev);
  }

  lemma Advances(s: Rt, ev: Event)
    requires Good(s) && Ordered(s) && Small(s) && Roomy(s) && Step(s, ev).Done?
    ensures var r := Step(s, ev).rt;
            && Good(r) && Ordered(r)
            && AfterTraffic(s.child, r.child, Asked(s, ev))
            && r.metrics.childActions == s.metrics.childActions
                 + if Asked(s, ev).Some? then WorkWeight(Asked(s, ev).value) else 0
  {
    hide Good, Ordered, Step, Effect, Small, Roomy, Asked, AfterTraffic;
    StepKeeps(s, ev);
    var r := Step(s, ev).rt;
    OrderedKept(s, ev, r);
    AskedIsSent(s, ev, r);
    CountersAgree(s);
    CountersAgree(r);
    CountTraffic(s, ev, r);
  }

  lemma CountTraffic(s: Rt, ev: Event, r: Rt)
    requires Ordered(s) && Ordered(r) && Small(s) && Roomy(s) && AfterTraffic(s.child, r.child, Asked(s, ev))
    ensures r.actionCounter == s.actionCounter + if Asked(s, ev).Some? then WorkWeight(Asked(s, ev).value) else 0
  {
    hide Asked, AllServable;
    if Asked(s, ev).Some? {
      WorksSnoc(s.child.sent, Asked(s, ev).value);
    }
  }

  lemma {:induction false} WorksSnoc(sent: seq<P.Message>, m: P.Message)
    ensures Works(sent + [m]) == Works(sent) + WorkWeight(m)
    decreases |sent|
  {
    if sent == [] {
      assert sent + [m] == [m] && [m][1..] == [];
    } else {
      assert (sent + [m])[1..] == sent[1..] + [m];
      WorksSnoc(sent[1..], m);
    }
  }

  // ---------------------------------------------------------------------------------------------
  // Whole lives
  // ---------------------------------------------------------------------------------------------

  function JointRun(j: Joint, events: seq<Event>): (r: Option<Joint>)
    decreases |events|
  {
    hide JointStep, Roomy, Small;
    if events == [] then Some(j)
    else if !Roomy(j.rt) || !Small(j.rt) then None
    else
      match JointStep(j, events[0])
      case None => None
      case Some(j') => JointRun(j', events[1..])
  }

  /** Every event is admissible when its turn comes. */
  predicate AllAdmissible(j: Joint, events: seq<Event>)
    decreases |events|
  {
    hide JointStep, Small;
    events == []
    || (&& Admissible(j.rt, events[0])
        && (Small(j.rt) && JointStep(j, events[0]).Some? ==> AllAdmissible(JointStep(j, events[0]).value, events[1..])))
  }

  lemma RunUnfolds(j: Joint, events: seq<Event>)
    requires events != [] && Roomy(j.rt) && Small(j.rt) && JointStep(j, events[0]).Some?
    ensures JointRun(j, events) == JointRun(JointStep(j, events[0]).value, events[1..])
  {
    hide JointStep, Roomy, Small;
  }

  lemma {:induction false} RunStaysLocked(j: Joint, events: seq<Event>)
    requires Locked(j) && AllAdmissible(j, events)
    ensures JointRun(j, events).Some? && Locked(JointRun(j, events).value)
    decreases |events|
  {
    hide Good, Locked, JointStep, Small, JointRun, AllAdmissible, Admissible, Roomy;
    if events == [] {
      NoRun(j);
    } else {
      LockedIsGood(j);
      GoodIsSmall(j.rt);
      AdmissibleIsRoomy(j, events);
      StaysLocked(j, events[0]);
      RunUnfolds(j, events);
      RunStaysLocked(JointStep(j, events[0]).value, events[1..]);
    }
  }

  lemma NoRun(j: Joint)
    ensures JointRun(j, []) == Some(j)
  {
  }

  lemma LockedIsGood(j: Joint)
    requires Locked(j)
    ensures Good(j.rt)
  {
    hide Good, Ordered;
  }

  /** One joint event is one event of the runtime on a child that says the answer and then anything. */
  lemma JointStepIsReal(j: Joint, ev: Event, more: seq<ReaderMessage>)
    requires Locked(j) && Admissible(j.rt, ev) && Small(j.rt)
    ensures JointStep(j, ev).Some?
    ensures var r, asked := JointStep(j, ev).value.rt, Asked(j.rt, ev);
            var said := if asked.Some? then [Line(Answer(asked.value))] else [];
            && r.child.sent == j.rt.child.sent + (if asked.Some? then [asked.value] else [])
            && Step(Feed(j.rt, said + more), ev) == Done(Feed(r, more))
  {
    hide Good, Ordered, Step, Effect, Handle, P.Text, Small, Roomy, Asked, Servable;
    StaysLocked(j, ev);
    CountersAgree(j.rt);
    if Asked(j.rt, ev).None? {
      StepFeeds(j.rt, ev, more);
      Advances(j.rt, ev);
      assert [] + more == more;
    } else {
      var m := Asked(j.rt, ev).value;
      AskedIsServable(j.rt, ev);
      ServedLikeThis(m, j.actions);
      FedIsReady(j.rt, m, ev);
      var fed := Feed(j.rt, [Line(Answer(m))]);
      Advances(fed, ev);
      StepFeeds(fed, ev, more);
      assert j.rt.child.inbox + [Line(Answer(m))] + more == j.rt.child.inbox + ([Line(Answer(m))] + more);
    }
  }

  /** The runtime gets from s to r on the answers to the requests it sends in between, and then anything. */
  predicate IsReal(s: Rt, events: seq<Event>, r: Rt, more: seq<ReaderMessage>)
  {
    hide Steps;
    && s.child.sent <= r.child.sent
    && Steps(Feed(s, AsMessages(Answers(r.child.sent[|s.child.sent|..])) + more), events) == Done(Feed(r, more))
  }

  lemma RealStep(s: Rt, asked: Option<P.Message>, s1: Rt, ev: Event, events: seq<Event>, r: Rt, more: seq<ReaderMessage>)
    requires s1.child.sent == s.child.sent + if asked.Some? then [asked.value] else []
    requires IsReal(s1, events, r, more)
    requires var later := AsMessages(Answers(r.child.sent[|s1.child.sent|..]));
             var said := if asked.Some? then [Line(Answer(asked.value))] else [];
             Step(Feed(s, said + (later + more)), ev) == Done(Feed(s1, later + more))
    ensures IsReal(s, [ev] + events, r, more)
  {
    hide Step, Answer;
    AnswersSplit(s.child.sent, asked, r.child.sent);
    var later := AsMessages(Answers(r.child.sent[|s1.child.sent|..]));
    var said := if asked.Some? then [Line(Answer(asked.value))] else [];
    assert said + later + more == said + (later + more);
    assert ([ev] + events)[1..] == events;
  }

  lemma AdmissibleRoom(s: Rt, ev: Event)
    requires Admissible(s, ev)
    ensures Roomy(s)
  {
  }

  lemma RealFirst(j: Joint, ev: Event, events: seq<Event>, r: Rt, more: seq<ReaderMessage>)
    requires Locked(j) && Admissible(j.rt, ev) && Small(j.rt) && JointStep(j, ev).Some?
    requires IsReal(JointStep(j, ev).value.rt, events, r, more)
    ensures IsReal(j.rt, [ev] + events, r, more)
  {
    hide Good, Locked, JointStep, Small, Step, Answer, Asked, Admissible, Roomy, IsReal;
    AdmissibleRoom(j.rt, ev);
    var s1 := JointStep(j, ev).value.rt;
    ItsSuffix(s1, events, r, more);
    JointStepIsReal(j, ev, AsMessages(Answers(r.child.sent[|s1.child.sent|..])) + more);
    RealStep(j.rt, Asked(j.rt, ev), s1, ev, events, r, more);
  }

  /** The joint run is a run of the runtime on the answers to its own requests, and then anything. */
  lemma {:induction false} JointRunIsReal(j: Joint, events: seq<Event>, more: seq<ReaderMessage>)
    requires Locked(j) && AllAdmissible(j, events)
    ensures JointRun(j, events).Some? && IsReal(j.rt, events, JointRun(j, events).value.rt, more)
    decreases |events|
  {
    hide Good, Locked, JointStep, Small, Admissible, Roomy, IsReal, JointRun, AllAdmissible;
    if events == [] {
      NoRun(j);
      NothingIsReal(j.rt, more);
    } else {
      LockedIsGood(j);
      GoodIsSmall(j.rt);
      AdmissibleIsRoomy(j, events);
      StaysLocked(j, events[0]);
      RunUnfolds(j, events);
      JointRunIsReal(JointStep(j, events[0]).value, events[1..], more);
      RealFirst(j, events[0], events[1..], JointRun(j, events).value.rt, more);
      assert [events[0]] + events[1..] == events;
    }
  }

  lemma NothingIsReal(s: Rt, more: seq<ReaderMessage>)
    ensures IsReal(s, [], s, more)
  {
    assert AsMessages(Answers([])) + more == more;
  }

  lemma ItsSuffix(s: Rt, events: seq<Event>, r: Rt, more: seq<ReaderMessage>)
    requires IsReal(s, events, r, more)
    ensures |s.child.sent| <= |r.child.sent|
  {
    hide Steps;
  }

  lemma AdmissibleIsRoomy(j: Joint, events: seq<Event>)
    requires AllAdmissible(j, events) && events != []
    ensures Admissible(j.rt, events[0]) && Roomy(j.rt)
    ensures Small(j.rt) && JointStep(j, events[0]).Some? ==> AllAdmissible(JointStep(j, events[0]).value, events[1..])
  {
    hide JointStep, Small;
  }

  lemma AnswersSplit(before: seq<P.Message>, asked: Option<P.Message>, after: seq<P.Message>)
    requires before + (if asked.Some? then [asked.value] else []) <= after
    ensures before <= after
    ensures AsMessages(Answers(after[|before|..]))
            == (if asked.Some? then [Line(Answer(asked.value))] else [])
               + AsMessages(Answers(after[|before| + (if asked.Some? then 1 else 0)..]))
  {
    hide Answer;
    if asked.Some? {
      assert after[|before|] == asked.value;
      assert after[|before|..] == [asked.value] + after[|before| + 1..];
    }
  }

  /** The state after the greeting, with nothing more to read. */
  function Greeted(pid: u64, start: Env): (j: Joint)
  {
    Joint(New([Line(P.Text(P.Hello(pid)))], pid, start).rt, 0)
  }

  lemma GreetingSucceeds(pid: u64, start: Env, more: seq<ReaderMessage>)
    requires start.fault.NoFault? && start.now + DEFAULT_LEASE_NS <= 0xffff_ffff_ffff_ffff
    ensures New([Line(P.Text(P.Hello(pid)))] + more, pid, start) == Done(Feed(Greeted(pid, start).rt, more))
    ensures Locked(Greeted(pid, start)) && Greeted(pid, start).rt.child.sent == []
  {
    hide P.Text, P.Print, P.TrimEndNewlines, CompilePolicy, Record, OpenLog, Good;
    WireLanguage.TrimPrinted(P.Hello(pid));
    PolicyCompiles();
    EmptyLogIsOpen();
    var hello := Line(P.Text(P.Hello(pid)));
    assert ([hello] + more)[1..] == more && [hello][1..] == [];
    var s0 := InitialState(REFLEX, []);
    var s1 := s0.(active := Some(LeaseFor(s0.body, REFLEX, start.now + DEFAULT_LEASE_NS)));
    RecordSucceeds(s1, LeaseInstalled(false), s1.active);
    RecordFeeds(s1, LeaseInstalled(false), s1.active, more);
    StartsGood([hello], pid, start);
    assert [] + more == more;
    GreetedIsLocked(pid, start);
  }

  lemma GreetedIsLocked(pid: u64, start: Env)
    requires New([Line(P.Text(P.Hello(pid)))], pid, start).Done?
    ensures Locked(Greeted(pid, start))
  {
    hide P.Text, New, P.ValidateHello, Authoritative, Audited, Paired, Ordered;
    StartsGood([Line(P.Text(P.Hello(pid)))], pid, start);
    NothingAsked(Greeted(pid, start).rt);
  }

  lemma CompleteSucceeds(s: Rt)
    requires OpenLog(s.log) && Roomy(s)
    ensures Complete(s).Done?
  {
    hide OpenLog, Record, SealedEntry;
    var s1 := s.(metrics := s.metrics.(damage := DamageOf(s.metrics)));
    RecordSucceeds(s1, Final(s1.metrics.damage), s1.active);
    var s2 := Record(s1, Final(s1.metrics.damage), s1.active).rt;
    SealedCompletesChain(s2.log, s2.body, s2.active);
  }

  lemma FinishSucceeds(s: Rt, stop: Env)
    requires Good(s) && Small(s) && Roomy(s) && stop.fault.NoFault?
    requires s.child.inbox == [Line(Answer(P.BoundRequest(StopRequest(s), AuthorityOf(s)))), Eof]
    ensures Finish(s, stop, true).Done?
  {
    hide Answer, AuthorityOf, OpenLog, TallyOf, Paired, ProtocolRejection, Exchange, LeaseFor, Complete;
    var s1 := NextNonce(s).rt;
    SameSnapshot(s, s1);
    var request, ack := StopRequest(s), AckOf(StopRequest(s));
    ExchangeSucceeds(s1, request, ack, AuthorityOf(s1));
    ExchangeTakes(s1, request, ack);
    CompleteSucceeds(Dropped(Exchange(s1, request, ack, NoFault).rt));
  }

  lemma ExchangeTakes(s: Rt, request: P.ChildRequest, ack: P.ExpectedAck)
    requires Exchange(s, request, ack, NoFault).Done?
    ensures s.child.inbox != [] && Exchange(s, request, ack, NoFault).rt.child.inbox == s.child.inbox[1..]
  {
    hide P.ValidateBoundAck;
    ExchangeEffect(s, request, ack, NoFault);
  }

  /** The closed system succeeds: for every process identifier and every sequence of events that are
      admissible when their turn comes, there is an output of the child, the one the honest child
      writes on the bytes its parent sends, with which the whole life of the runtime succeeds. */
  lemma HonestRunSucceeds(pid: u64, start: Env, events: seq<Event>, stop: Env) returns (output: seq<byte>)
    requires start.fault.NoFault? && start.now + DEFAULT_LEASE_NS <= 0xffff_ffff_ffff_ffff && stop.fault.NoFault?
    requires AllAdmissible(Greeted(pid, start), events)
    requires JointRun(Greeted(pid, start), events).Some? ==> Roomy(JointRun(Greeted(pid, start), events).value.rt)
    ensures Live(Life(output, pid, start, events, stop, true)).Done?
    ensures var sent := Live(Life(output, pid, start, events, stop, true)).rt.child.sent;
            output == Encode(P.Print(P.Hello(pid))) + SessionFrom(Framed(Texts(sent)), 0).output
            && SessionFrom(Framed(Texts(sent)), 0).ok
  {
    hide Greeted, AllAdmissible, JointRun, Locked, New, Steps, Finish, Received, Roomy, Answer, AuthorityOf, Framed,
         P.Text, P.Print, Encode, SessionFrom, Good, Small, FitsFrame;
    var j := Greeted(pid, start);
    GreetingSucceeds(pid, start, []);
    RunStaysLocked(j, events);
    var s := JointRun(j, events).value.rt;
    LockedIsGood(JointRun(j, events).value);
    GoodIsSmall(s);
    SmallNonce(s);
    var stopMessage := P.BoundRequest(StopRequest(s), AuthorityOf(s));
    var ending := [Line(Answer(stopMessage)), Eof];
    JointRunIsReal(j, events, ending);
    var answers := Answers(s.child.sent);
    assert s.child.sent[0..] == s.child.sent;
    GreetingSucceeds(pid, start, AsMessages(answers) + ending);
    output := Framed([P.Text(P.Hello(pid))] + answers + [Answer(stopMessage)]);
    AllBound(s);
    OutputIsReceived(pid, s.child.sent, stopMessage);
    FedIsGoodToStop(JointRun(j, events).value, ending);
    FinishSucceeds(Feed(s, ending), stop);
    SuccessMeansHonest(Life(output, pid, start, events, stop, true));
  }

  lemma AllBound(s: Rt)
    requires Good(s)
    ensures forall i :: 0 <= i < |s.child.sent| ==> s.child.sent[i].BoundRequest?
  {
    hide Authoritative, Conserved, Audited, Paired;
  }

  lemma SmallNonce(s: Rt)
    requires Small(s) && Roomy(s)
    ensures s.nonce < 0xffff_ffff_ffff_ffff
  {
  }

  lemma FedIsGoodToStop(j: Joint, ending: seq<ReaderMessage>)
    requires Locked(j) && Small(j.rt) && Roomy(j.rt)
    ensures var fed := Feed(j.rt, ending);
            && Good(fed) && Small(fed) && Roomy(fed) && fed.child.inbox == ending
            && StopRequest(fed) == StopRequest(j.rt) && AuthorityOf(fed) == AuthorityOf(j.rt)
  {
    hide Good, Ordered;
    FeedIsGood(j.rt, ending);
    assert [] + ending == ending;
  }

  lemma OutputIsReceived(pid: u64, sent: seq<P.Message>, stop: P.Message)
    requires forall i :: 0 <= i < |sent| ==> sent[i].BoundRequest?
    requires stop.BoundRequest?
    ensures var hello := P.Text(P.Hello(pid));
            Received(Framed([hello] + Answers(sent) + [Answer(stop)]))
            == [Line(hello)] + (AsMessages(Answers(sent)) + [Line(Answer(stop)), Eof])
  {
    hide P.Text, Received, Framed, Encode, AckOf;
    var hello := P.Text(P.Hello(pid));
    var lines := [hello] + Answers(sent) + [Answer(stop)];
    forall i | 0 <= i < |lines|
      ensures FitsFrame(lines[i])
    {
      if i == 0 {
        WireLanguage.MessageFits(P.Hello(pid));
      } else {
        var m := if i <= |sent| then sent[i - 1] else stop;
        assert lines[i] == Answer(m);
        WireLanguage.MessageFits(P.BoundAck(AckOf(m.request), m.authority));
      }
    }
    ReceivedExactly(Framed(lines), lines);
    assert AsMessages(lines) + [Eof] == [Line(hello)] + (AsMessages(Answers(sent)) + [Line(Answer(stop)), Eof]);
  }
}
