/** Parent and honest child together. With no fault they stay in step for ever; and any child whose
    parent succeeded has written, byte for byte, what the honest child writes. */
module Lockstep {
  import opened Words
  import opened Utf8
  import opened Lines
  import opened LedgerChain
  import opened Frames
  import opened RuntimeSpec
  import opened RuntimeEffects
  import opened RuntimeInvariant
  import opened RuntimeRuns
  import opened ChildLoop
  import P = Protocol
  import Workload

  // ---------------------------------------------------------------------------------------------
  // The requests of a run number its actions
  // ---------------------------------------------------------------------------------------------

  function WorkWeight(m: P.Message): nat
  {
    if m.BoundRequest? && m.request.Work? then 1 else 0
  }

  function Works(sent: seq<P.Message>): nat
  {
    if sent == [] then 0 else WorkWeight(sent[0]) + Works(sent[1..])
  }

  /** A request the honest child can serve as its next one, other than STOP. */
  predicate Servable(m: P.Message, actions: nat)
  {
    && m.BoundRequest? && P.InBounds(m.request) && !m.request.Stop?
    && (m.request.Work? ==> actions < 0xffff_ffff_ffff_ffff && m.request.id == actions + 1)
  }

  predicate AllServable(sent: seq<P.Message>, actions: nat)
  {
    sent == [] || (Servable(sent[0], actions) && AllServable(sent[1..], actions + WorkWeight(sent[0])))
  }

  lemma {:induction false} ServableAppend(sent: seq<P.Message>, m: P.Message, actions: nat)
    requires AllServable(sent, actions) && Servable(m, actions + Works(sent))
    ensures AllServable(sent + [m], actions) && Works(sent + [m]) == Works(sent) + WorkWeight(m)
    decreases |sent|
  {
    if sent == [] {
      assert sent + [m] == [m] && [m][1..] == [];
    } else {
      assert (sent + [m])[1..] == sent[1..] + [m];
      ServableAppend(sent[1..], m, actions + WorkWeight(sent[0]));
    }
  }

  function Texts(messages: seq<P.Message>): (r: seq<string>)
    ensures |r| == |messages|
  {
    seq(|messages|, i requires 0 <= i < |messages| => P.Text(messages[i]))
  }

  /** The honest child's whole session on the requests of a parent. */
  lemma {:induction false} HonestSession(sent: seq<P.Message>, stop: P.Message, actions: u64)
    requires AllServable(sent, actions) && stop.BoundRequest? && stop.request.Stop?
    ensures SessionFrom(Framed(Texts(sent + [stop])), actions) == Session(Framed(Answers(sent + [stop])), true)
    decreases |sent|
  {
    hide P.Text, SessionFrom, Encode, Workload.Digest;
    var all := sent + [stop];
    assert Texts(all)[1..] == Texts(all[1..]) && Answers(all)[1..] == Answers(all[1..]);
    SessionStep(all[0], Framed(Texts(all[1..])), actions);
    if sent == [] {
      assert all[1..] == [];
      assert Framed(Answers(all)) == Encode(Answers(all)[0]) + [LF] + [];
    } else {
      assert all[1..] == sent[1..] + [stop];
      HonestSession(sent[1..], stop, actions + WorkWeight(sent[0]));
    }
  }

  /** The actions the child has been asked for are the ones counted. */
  predicate Ordered(s: Rt)
  {
    AllServable(s.child.sent, 0) && Works(s.child.sent) == s.actionCounter
  }

  lemma OrderedKept(s: Rt, ev: Event, r: Rt)
    requires Good(s) && Ordered(s) && Effect(s, ev, r)
    ensures Ordered(r)
  {
    hide Appended, P.ValidateBoundAck, DecisionAt, Workload.Digest, LeaseFor, AuthorityOf, Authoritative, Audited, Paired,
         WorkAccepted, AllServable, Works;
    if r.child != s.child {
      var m := r.child.sent[|s.child.sent|];
      assert r.child.sent == s.child.sent + [m];
      ServableAppend(s.child.sent, m, 0);
    }
  }

  lemma {:induction false} OrderedThroughout(s: Rt, events: seq<Event>)
    requires Good(s) && Ordered(s) && Steps(s, events).Done?
    ensures Ordered(Steps(s, events).rt)
    decreases |events|
  {
    hide Good, Step, Effect, Ordered;
    if events != [] {
      StepKeeps(s, events[0]);
      OrderedKept(s, events[0], Step(s, events[0]).rt);
      OrderedThroughout(Step(s, events[0]).rt, events[1..]);
    }
  }

  /** Whatever program the child was: if the run succeeded, its complete output is what the honest
      child writes on the bytes its parent sent, and the honest child would have ended well. */
  lemma SuccessMeansHonest(l: Life)
    requires Live(l).Done?
    ensures var input := Framed(Texts(Live(l).rt.child.sent));
            && l.output == Encode(P.Print(P.Hello(l.pid))) + SessionFrom(input, 0).output
            && SessionFrom(input, 0).ok
  {
    hide New, Steps, Finish, Received, Good, P.ValidateHello, Framed, Answers, AsMessages, P.Text, P.Print, SessionFrom,
         Ordered, Texts, Encode, InOrder;
    var inbox := Received(l.output);
    StartsGood(inbox, l.pid, l.start);
    var s0 := New(inbox, l.pid, l.start).rt;
    assert Ordered(s0) by {
      NothingAsked(s0);
    }
    OrderedThroughout(s0, l.events);
    var s := Steps(s0, l.events).rt;
    StepsKeep(s0, l.events);
    FinishSends(s, l.stop, l.exitOk);
    WholeTranscript(l);
    OrderedIsServable(s);
    HonestSession(s.child.sent, P.BoundRequest(StopRequest(s), AuthorityOf(s)), 0);
    HelloFirst(l.pid, Answers(Live(l).rt.child.sent));
  }

  lemma NothingAsked(s: Rt)
    requires Good(s) && s.child.sent == []
    ensures Ordered(s)
  {
    hide Authoritative, Audited, Paired;
  }

  lemma OrderedIsServable(s: Rt)
    requires Ordered(s)
    ensures AllServable(s.child.sent, 0)
  {
  }

  lemma FinishSends(s: Rt, env: Env, exitOk: bool)
    requires Good(s) && Finish(s, env, exitOk).Done?
    ensures s.nonce < 0xffff_ffff_ffff_ffff
    ensures Finish(s, env, exitOk).rt.child.sent == s.child.sent + [P.BoundRequest(StopRequest(s), AuthorityOf(s))]
  {
    hide Good, Finish, SealedChain;
    FinishEffect(s, env, exitOk);
  }

  lemma HelloFirst(pid: u64, lines: seq<string>)
    ensures Framed([P.Text(P.Hello(pid))] + lines) == Encode(P.Print(P.Hello(pid))) + Framed(lines)
  {
    hide P.Text, Encode;
    PrintedLine(P.Hello(pid));
    assert ([P.Text(P.Hello(pid))] + lines)[1..] == lines;
  }
}
