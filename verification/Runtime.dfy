/** The runtime as it works (src/runtime.rs): objects whose methods change state in place. Each method is
    tied to the function of RuntimeSpec that says what it does to the whole state. */
module Runtime {
  import opened Words
  import opened Authority
  import opened LedgerVerifier
  import opened LedgerChain
  import opened LedgerWriter
  import opened Frames
  import opened RuntimeRuns
  import S = RuntimeSpec
  import P = Protocol
  import Workload

  class ChildProcess {
    /** What the reader thread has sent and nobody has received. */
    var responses: seq<ReaderMessage>
    var inputOpen: bool
    /** The requests written so far. */
    ghost var sent: seq<P.Message>

    ghost function Value(): S.Child
      reads this
    {
      S.Child(responses, sent, inputOpen)
    }

    /** `spawn_program`: all the output the process will ever write goes through the reader. */
    constructor (output: seq<byte>)
      ensures Value() == S.Child(Received(output), [], true)
    {
      var messages := ChildReader(output);
      responses, inputOpen, sent := messages, true, [];
    }

    method ExpectHello(pid: u64, fault: S.Fault) returns (ok: bool)
      modifies this
      ensures ok == (fault == S.NoFault && old(responses) != [] && old(responses)[0].Line?
                     && P.ValidateHello(old(responses)[0].text, pid))
      ensures ok ==> Value() == old(Value()).(inbox := old(responses)[1..])
      ensures sent == old(sent)
    {
      hide P.ValidateHello;
      if fault != S.NoFault || responses == [] {
        inputOpen := false;
        return false;
      }
      var message := responses[0];
      responses := responses[1..];
      match message
      case Line(line) =>
        if !P.ValidateHello(line, pid) {
          inputOpen := false;
          return false;
        }
        return true;
      case Eof =>
        inputOpen := false;
        return false;
      case Error =>
        inputOpen := false;
        return false;
    }

    method TransactBound(command: P.Message, ack: P.ExpectedAck, authority: P.AuthoritySnapshot,
          fault: S.Fault) returns (ok: bool)
      modifies this
      ensures (ok, Value()) == S.Transact(old(Value()), command, ack, authority, fault)
    {
      hide P.ValidateBoundAck;
      if !inputOpen || fault.WriteFails? {
        inputOpen := false;
        return false;
      }
      sent := sent + [command];
      if fault.ReplyLost? || responses == [] {
        inputOpen := false;
        return false;
      }
      var message := responses[0];
      responses := responses[1..];
      match message
      case Line(line) =>
        if !P.ValidateBoundAck(line, ack, authority) {
          inputOpen := false;
          return false;
        }
        return true;
      case Eof =>
        inputOpen := false;
        return false;
      case Error =>
        inputOpen := false;
        return false;
    }

    /** Drains what is left to read: anything but a single end of file is an error. */
    method WaitForCleanExit(exitOk: bool) returns (ok: bool)
      modifies this
      ensures ok <==> S.CleanExit(old(Value()), exitOk)
      ensures sent == old(sent)
    {
      inputOpen := false;
      if !exitOk {
        return false;
      }
      var observedEof := false;
      while responses != []
        invariant sent == old(sent)
        invariant if observedEof then old(responses) == [Eof] + responses else old(responses) == responses
        decreases |responses|
      {
        var message := responses[0];
        responses := responses[1..];
        match message
        case Eof =>
          if observedEof {
            return false;
          }
          observedEof := true;
        case Line(_) =>
          return false;
        case Error =>
          return false;
      }
      return observedEof;
    }

    /** The handle goes out of scope. */
    method Drop()
      modifies this
      ensures Value() == old(Value()).(open := false, inbox := [])
    {
      inputOpen := false;
      responses := [];
    }
  }

  class Runtime {
    var body: BodyState
    var activeLease: Option<SafetyLease>
    const transaction: AuthorityTransaction
    const reflex: ReflexProgram
    const ledger: Ledger
    const child: ChildProcess
    var metrics: S.Metrics
    var actionCounter: u64
    var nonce: u64
    var rollbackConfirmed: bool

    ghost function State(): S.Rt
      reads this, transaction, ledger, child
    {
      S.Rt(body, activeLease, transaction.Value(), reflex, ledger.log, child.Value(), metrics, actionCounter,
            nonce, rollbackConfirmed)
    }

    ghost predicate Valid()
      reads this, ledger
    {
      ledger.Valid() && !ledger.isSealed
    }

    /** The state now, with the result of the method. */
    ghost function Ended(ok: bool): S.Outcome
      reads this, transaction, ledger, child
    {
      if ok then S.Done(State()) else S.Failed(State())
    }

    constructor (policy: ReflexProgram, file: Ledger, process: ChildProcess)
      requires file.Valid() && !file.isSealed
      ensures Valid() && fresh(transaction) && ledger == file && child == process
      ensures State() == S.InitialState(policy, process.responses).(log := file.log, child := process.Value())
    {
      var idle := new AuthorityTransaction();
      body := BodyState(0x0a51a, 1, 1, 100, false);
      activeLease := None;
      transaction := idle;
      reflex := policy;
      ledger := file;
      child := process;
      metrics := S.NO_METRICS;
      actionCounter, nonce, rollbackConfirmed := 0, 0, false;
    }

    method Record(event: S.AuditEvent, lease: Option<SafetyLease>) returns (ok: bool)
      requires Valid()
      modifies ledger
      ensures Valid() && Ended(ok) == S.Record(old(State()), event, lease)
    {
      hide RecordedEntry, S.AuditEvent.Name, S.AuditEvent.Detail, S.AuditEvent.Verdict;
      ok := ledger.Record(event.Name(), event.Detail(), event.Verdict(), body, lease);
    }

    method NextTransactionNonce() returns (ok: bool)
      modifies this`nonce
      ensures Ended(ok) == S.NextNonce(old(State()))
    {
      if nonce == 0xffff_ffff_ffff_ffff {
        return false;
      }
      nonce := nonce + 1;
      return true;
    }

    function AuthoritySnapshot(): P.AuthoritySnapshot
      reads this
    {
      P.AuthoritySnapshot(body.bodyUid, body.epoch, body.generation, body.certificate,
                          reflex.principalId, reflex.resourceId, reflex.actionId)
    }

    method Exchange(request: P.ChildRequest, ack: P.ExpectedAck, fault: S.Fault) returns (ok: bool)
      modifies child
      ensures Ended(ok) == S.Exchange(old(State()), request, ack, fault)
    {
      hide S.Transact;
      ok := child.TransactBound(P.BoundRequest(request, AuthoritySnapshot()), ack, AuthoritySnapshot(), fault);
    }

    method InstallLease(now: u64) returns (ok: bool)
      requires Valid()
      modifies this`activeLease, ledger
      ensures Valid() && Ended(ok) == S.InstallLease(old(State()), now)
    {
      hide S.Record, Ledger.Valid;
      var deadline := S.CheckedLeaseDeadline(now, reflex.leaseNs);
      if deadline.Err? {
        return false;
      }
      activeLease := Some(SafetyLease(body.bodyUid, body.epoch, body.generation, body.certificate, deadline.value,
                                      reflex.principalId, reflex.resourceId, reflex.actionId));
      ok := Record(S.LeaseInstalled(false), activeLease);
    }

    /** The first half of every isolation: quarantined, without lease, capture or confirmation. */
    method Isolate()
      modifies this, transaction
      ensures State() == S.Isolated(old(State()))
      ensures ledger.log == old(ledger.log)
    {
      if !body.quarantined {
        metrics := metrics.(quarantines := Saturate(metrics.quarantines + 1));
      }
      body := body.(quarantined := true);
      activeLease := None;
      var pending := transaction.Abort();
      rollbackConfirmed := false;
    }

    method RecordProtocolRejection(reason: string)
      requires Valid()
      modifies this, transaction, ledger
      ensures Valid() && State() == S.ProtocolRejection(old(State()), reason)
    {
      hide S.Record;
      Isolate();
      metrics := metrics.(damage := 1);
      var recorded := Record(S.ProtocolRejected(reason), None);
    }

    method ConfirmRollback(env: S.Env) returns (ok: bool)
      requires Valid()
      modifies this, ledger, child
      ensures Valid() && Ended(ok) == S.ConfirmRollback(old(State()), env)
    {
      hide S.Record, S.Exchange, Ledger.Valid;
      var id := metrics.rollbacks;
      ok := Exchange(P.Rollback(id, nonce), P.RollbackAck(id, nonce), env.fault);
      if ok {
        rollbackConfirmed := true;
        metrics := metrics.(rollbackAcks := Saturate(metrics.rollbackAcks + 1));
        ok := Record(S.RollbackAccepted, None);
      } else {
        metrics := metrics.(damage := 1);
        var recorded := Record(S.RollbackRejected(env.errorText), None);
      }
    }

    method Quarantine(onReset: bool, env: S.Env) returns (ok: bool)
      requires Valid()
      modifies this, transaction, ledger, child
      ensures Valid() && Ended(ok) == S.Quarantine(old(State()), onReset, env)
    {
      hide S.Record, S.ConfirmRollback, S.NextNonce, Ledger.Valid;
      Isolate();
      if metrics.rollbacks == 0xffff_ffff_ffff_ffff {
        return false;
      }
      metrics := metrics.(rollbacks := metrics.rollbacks + 1);
      ok := Record(S.Quarantined(onReset), None);
      if !ok {
        return false;
      }
      ok := NextTransactionNonce();
      if !ok {
        return false;
      }
      ok := ConfirmRollback(env);
    }

    method Begin() returns (ok: bool)
      requires Valid()
      modifies transaction, ledger
      ensures Valid() && Ended(ok) == S.BeginStep(old(State()))
    {
      hide S.Record, Ledger.Valid;
      ok := transaction.Begin(activeLease);
      if !ok {
        return false;
      }
      ok := Record(S.BeginAction, activeLease);
    }

    method AcceptWork(id: u64, actions: u64, digest: u64) returns (ok: bool)
      requires Valid()
      modifies this, ledger
      ensures Valid() && Ended(ok) == S.AcceptWork(old(State()), id, actions, digest)
    {
      hide S.Record, Ledger.Valid;
      if metrics.allowedCommits == 0xffff_ffff_ffff_ffff {
        return false;
      }
      metrics := metrics.(allowedCommits := metrics.allowedCommits + 1);
      actionCounter := id;
      metrics := metrics.(childActions := actions, verifiedWorkAcks := Saturate(metrics.verifiedWorkAcks + 1));
      ok := Record(S.ChildAckAccepted(id, nonce, actions, digest), activeLease);
      if !ok {
        return false;
      }
      ok := Record(S.CommitDone, activeLease);
    }

    method Dispatch(env: S.Env) returns (ok: bool)
      requires Valid()
      modifies this, transaction, ledger, child
      ensures Valid() && Ended(ok) == S.Dispatch(old(State()), env)
    {
      hide S.NextNonce, S.Exchange, S.AcceptWork, S.ProtocolRejection, Workload.Digest, Ledger.Valid;
      if actionCounter == 0xffff_ffff_ffff_ffff || metrics.childActions == 0xffff_ffff_ffff_ffff {
        return false;
      }
      if reflex.instructions == [] || !reflex.instructions[0].Work? {
        return false;
      }
      var id, actions, units := actionCounter + 1, metrics.childActions + 1, reflex.instructions[0].units;
      ok := NextTransactionNonce();
      if !ok {
        return false;
      }
      var digest := Workload.WorkDigest(id, units);
      ok := Exchange(P.Work(id, nonce, units), P.WorkAck(id, nonce, actions, digest), env.fault);
      if !ok {
        RecordProtocolRejection(env.errorText);
        return false;
      }
      ok := AcceptWork(id, actions, digest);
    }

    method Commit(env: S.Env) returns (ok: bool)
      requires Valid()
      modifies this, transaction, ledger, child
      ensures Valid() && Ended(ok) == S.CommitStep(old(State()), env)
    {
      hide S.Record, S.Dispatch, CommitDecision, Ledger.Valid;
      var request := CommitRequest(env.now, S.PRINCIPAL_ID, S.RESOURCE_ID, S.ACTION_ID);
      var decision := transaction.Commit(body, activeLease, request);
      if decision == Allow {
        ok := Dispatch(env);
      } else {
        metrics := metrics.(blockedCommits := Saturate(metrics.blockedCommits + 1));
        metrics := metrics.(staleOrExpiredBlocked := Saturate(metrics.staleOrExpiredBlocked + 1));
        ok := Record(S.CommitBlocked(decision), activeLease);
      }
    }

    method Reset(env: S.Env) returns (ok: bool)
      requires Valid()
      modifies this, transaction, ledger, child
      ensures Valid() && Ended(ok) == S.ResetStep(old(State()), env)
    {
      hide S.Quarantine, Ledger.Valid;
      if body.epoch == 0xffff_ffff_ffff_ffff {
        return false;
      }
      body := body.(epoch := body.epoch + 1);
      if body.generation == 0xffff_ffff_ffff_ffff {
        return false;
      }
      body := body.(generation := body.generation + 1);
      ok := Quarantine(true, env);
    }

    method Reinstate(certificate: u64, generation: u64, env: S.Env) returns (ok: bool)
      requires Valid()
      modifies this, ledger
      ensures Valid() && Ended(ok) == S.Reinstate(old(State()), certificate, generation, env)
    {
      hide S.Record, Ledger.Valid;
      var deadline := S.CheckedLeaseDeadline(env.now, reflex.leaseNs);
      if deadline.Err? {
        return false;
      }
      body := body.(certificate := certificate, generation := generation, quarantined := false);
      activeLease := Some(SafetyLease(body.bodyUid, body.epoch, body.generation, body.certificate, deadline.value,
                                      reflex.principalId, reflex.resourceId, reflex.actionId));
      rollbackConfirmed := false;
      metrics := metrics.(probeRecoveries := Saturate(metrics.probeRecoveries + 1));
      ok := Record(S.LeaseInstalled(true), activeLease);
      if !ok {
        return false;
      }
      ok := Record(S.ProbeAccepted, activeLease);
    }

    method Challenge(certificate: u64, generation: u64, env: S.Env) returns (ok: bool)
      requires Valid()
      modifies this, transaction, ledger, child
      ensures Valid() && Ended(ok) == S.Challenge(old(State()), certificate, generation, env)
    {
      hide S.Exchange, S.Reinstate, S.ProtocolRejection, Ledger.Valid;
      ok := Exchange(P.Probe(certificate, nonce), P.ProbeAck(certificate, nonce), env.fault);
      if !ok {
        RecordProtocolRejection(env.errorText);
        return false;
      }
      ok := Reinstate(certificate, generation, env);
    }

    method FunctionalFreshnessProbe(env: S.Env) returns (ok: bool)
      requires Valid()
      modifies this, transaction, ledger, child
      ensures Valid() && Ended(ok) == S.ProbeStep(old(State()), env)
    {
      hide S.Record, S.Challenge, S.NextNonce, Ledger.Valid;
      metrics := metrics.(probeRequests := Saturate(metrics.probeRequests + 1));
      if !body.quarantined || !rollbackConfirmed {
        ok := Record(S.ProbeRejected, None);
        return ok;
      }
      if body.certificate == 0xffff_ffff_ffff_ffff || body.generation == 0xffff_ffff_ffff_ffff {
        return false;
      }
      var certificate, generation := body.certificate + 1, body.generation + 1;
      ok := NextTransactionNonce();
      if !ok {
        return false;
      }
      ok := Record(S.ProbeRequest, None);
      if !ok {
        return false;
      }
      ok := Challenge(certificate, generation, env);
    }

    method Handle(ev: S.Event) returns (ok: bool)
      requires Valid()
      modifies this, transaction, ledger, child
      ensures Valid() && Ended(ok) == S.Step(old(State()), ev)
    {
      hide S.BeginStep, S.CommitStep, S.ResetStep, S.ProbeStep, S.Quarantine, Ledger.Valid;
      match ev
      case Begin => ok := Begin();
      case Commit(env) => ok := Commit(env);
      case Reset(env) => ok := Reset(env);
      case Probe(env) => ok := FunctionalFreshnessProbe(env);
      case LeaseTimeout(env) => ok := Quarantine(false, env);
    }

    method Complete() returns (ok: bool)
      requires Valid()
      modifies this, ledger
      ensures Ended(ok) == S.Complete(old(State())) && ledger.Valid()
      ensures ok ==> Verification(ledger.file).Passed()
    {
      hide S.Record, SealedEntry, Verification, OpenLog, SealedChain, Ledger.Valid;
      metrics := metrics.(damage :=
        if metrics.childActions != metrics.allowedCommits || metrics.verifiedWorkAcks != metrics.allowedCommits
           || metrics.rollbackAcks != metrics.rollbacks then 1 else 0);
      ok := Record(S.Final(metrics.damage), activeLease);
      if !ok {
        return false;
      }
      ok := ledger.SealLedger(body, activeLease);
    }

    method Finish(env: S.Env, exitOk: bool) returns (ok: bool)
      requires Valid()
      modifies this, transaction, ledger, child
      ensures Ended(ok) == S.Finish(old(State()), env, exitOk) && ledger.Valid()
      ensures ok ==> Verification(ledger.file).Passed()
    {
      hide S.Exchange, S.ProtocolRejection, S.Complete, S.NextNonce, Verification, Ledger.Valid;
      var stopId := actionCounter;
      ok := NextTransactionNonce();
      if !ok {
        return false;
      }
      ok := Exchange(P.Stop(stopId, nonce), P.StopAck(stopId, nonce), env.fault);
      if ok {
        ok := child.WaitForCleanExit(exitOk);
      }
      child.Drop();
      if !ok {
        RecordProtocolRejection(env.errorText);
        return false;
      }
      ok := Complete();
    }

    /** The main loop over the events the scheduler and the clock produce, then STOP and seal. */
    method Run(events: seq<S.Event>, stop: S.Env, exitOk: bool) returns (result: Result<S.Metrics>)
      requires Valid()
      modifies this, transaction, ledger, child
      ensures var s1 := S.Steps(old(State()), events);
              Ended(result.Ok?) == if s1.Done? then S.Finish(s1.rt, stop, exitOk) else s1
      ensures result.Ok? ==> result.value == metrics && Verification(ledger.file).Passed()
      ensures ledger.Valid()
    {
      hide S.Step, S.Finish, Verification;
      var handled := 0;
      while handled < |events|
        invariant 0 <= handled <= |events|
        invariant Valid() && S.Steps(State(), events[handled..]) == S.Steps(old(State()), events)
      {
        var ok := Handle(events[handled]);
        assert events[handled..][1..] == events[handled + 1..];
        if !ok {
          return Err;
        }
        handled := handled + 1;
      }
      assert events[handled..] == [];
      var ok := Finish(stop, exitOk);
      result := if ok then Ok(metrics) else Err;
    }
  }

  /** `Runtime::new`: compile the policy, create the ledger, spawn and greet the child, install the lease. */
  method New(output: seq<byte>, pid: u64, start: S.Env) returns (runtime: Runtime, ok: bool)
    ensures fresh(runtime) && fresh(runtime.transaction) && fresh(runtime.ledger) && fresh(runtime.child)
    ensures ok == S.New(Received(output), pid, start).Done?
    ensures ok ==> runtime.Valid() && runtime.State() == S.New(Received(output), pid, start).rt
    ensures !ok ==> runtime.ledger.Valid() && runtime.ledger.log == S.New(Received(output), pid, start).rt.log
  {
    hide S.InstallLease, P.ValidateHello, Received;
    var reflex := CompilePolicy(S.POLICY).value;
    var ledger := new Ledger();
    var child := new ChildProcess(output);
    ok := child.ExpectHello(pid, start.fault);
    runtime := new Runtime(reflex, ledger, child);
    if ok {
      ok := runtime.InstallLease(start.now);
    }
  }

  /** A whole life of the runtime: whatever the child writes, a result is returned exactly when the
      ledger file passes verification, and it reports no damage. */
  method LiveOnce(l: S.Life) returns (result: Result<S.Metrics>, file: seq<byte>)
    ensures file == Render(S.Live(l).rt.log) && result.Ok? == S.Live(l).Done?
    ensures result.Ok? <==> Verification(file).Passed()
    ensures result.Ok? ==> result.value == S.Live(l).rt.metrics && result.value.damage == 0
  {
    hide S.New, S.Steps, S.Finish, Verification, Received, Render, SealedChain, OpenLog;
    LedgerTellsOutcome(l);
    var runtime, ok := New(l.output, l.pid, l.start);
    result := Err;
    if ok {
      result := runtime.Run(l.events, l.stop, l.exitOk);
    }
    file := runtime.ledger.file;
    if result.Ok? {
      RunConserves(l);
    }
  }
}
