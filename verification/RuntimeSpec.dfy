/** The runtime state machine (src/runtime.rs) as functions on its whole state: what each event does to
    body, lease, transaction, counters, ledger and child. The environment chooses the clock readings,
    the faults and the error texts; the child is any stream of reader messages. */
module RuntimeSpec {
  import opened Words
  import opened Numerals
  import opened Authority
  import opened LedgerEntries
  import opened LedgerWriter
  import opened Frames
  import P = Protocol
  import Workload

  const PRINCIPAL_ID: u64 := 7
  const RESOURCE_ID: u64 := 11
  const ACTION_ID: u64 := 13
  const DEFAULT_LEASE_NS: u64 := 50_000_000

  const POLICY := PolicyIr(1, PRINCIPAL_ID, RESOURCE_ID, ACTION_ID, ExecuteChildWork(5_000), 100_000, DEFAULT_LEASE_NS, true)

  datatype Metrics = Metrics(
    allowedCommits: u64,
    blockedCommits: u64,
    staleOrExpiredBlocked: u64,
    childActions: u64,
    verifiedWorkAcks: u64,
    quarantines: u64,
    rollbacks: u64,
    rollbackAcks: u64,
    probeRequests: u64,
    probeRecoveries: u64,
    damage: u64)

  const NO_METRICS := Metrics(0, 0, 0, 0, 0, 0, 0, 0, 0, 0, 0)

  function AckDetail(id: u64, nonce: u64, actions: u64, digest: u64): string
  {
    "WORK id=" + Decimal(id) + " nonce=" + Decimal(nonce) + " actions=" + Decimal(actions) + " digest=" + Hex16(digest)
  }

  /** The entries the runtime writes to its ledger. */
  datatype AuditEvent =
    | LeaseInstalled(afterProbe: bool)
    | BeginAction
    | ChildAckAccepted(id: u64, nonce: u64, actions: u64, digest: u64)
    | CommitDone
    | CommitBlocked(decision: Decision)
    | Quarantined(onReset: bool)
    | RollbackAccepted
    | RollbackRejected(text: string)
    | ProbeRejected
    | ProbeRequest
    | ProbeAccepted
    | ProtocolRejected(text: string)
    | Final(damage: u64)
  {
    function Name(): string
    {
      match this
      case LeaseInstalled(_) => "LEASE_INSTALLED"
      case BeginAction => "BEGIN_ACTION"
      case ChildAckAccepted(_, _, _, _) => "CHILD_ACK_ACCEPTED"
      case CommitDone => "COMMIT"
      case CommitBlocked(_) => "COMMIT_BLOCKED"
      case Quarantined(_) => "QUARANTINE"
      case RollbackAccepted => "ROLLBACK_ACK_ACCEPTED"
      case RollbackRejected(_) => "ROLLBACK_ACK_REJECTED"
      case ProbeRejected => "FUNCTIONAL_FRESHNESS_PROBE_REJECTED"
      case ProbeRequest => "FUNCTIONAL_FRESHNESS_PROBE_REQUEST"
      case ProbeAccepted => "FUNCTIONAL_FRESHNESS_PROBE_ACCEPTED"
      case ProtocolRejected(_) => "PROTOCOL_ACK_REJECTED"
      case Final(_) => "FINAL"
    }

    function Detail(): string
    {
      match this
      case LeaseInstalled(afterProbe) =>
        if afterProbe then "PolicyIr lease duration applied after functional challenge"
        else "PolicyIr lease duration applied with checked monotonic addition"
      case BeginAction => "permit snapshot captured"
      case ChildAckAccepted(id, nonce, actions, digest) => AckDetail(id, nonce, actions, digest)
      case CommitDone => "child action dispatched and strict ACK validated"
      case CommitBlocked(decision) => decision.Name()
      case Quarantined(onReset) =>
        if onReset then "epoch reset invalidated authority" else "safety lease expired during silence"
      case RollbackAccepted => "strict version/id/nonce/checksum validation passed"
      case RollbackRejected(text) => text
      case ProbeRejected => "rollback ACK not confirmed; no reauthorization"
      case ProbeRequest =>
        "local child-process freshness/liveness challenge; not cryptographic or hardware attestation"
      case ProbeAccepted =>
        "functional child-process liveness/freshness only; no identity or hardware attestation"
      case ProtocolRejected(text) => text
      case Final(_) => "runtime complete with strict versioned child protocol"
    }

    function Verdict(): Decision
    {
      match this
      case LeaseInstalled(_) => Allow
      case BeginAction => Allow
      case ChildAckAccepted(_, _, _, _) => Allow
      case CommitDone => Allow
      case ProbeAccepted => Allow
      case CommitBlocked(decision) => decision
      case Final(damage) => if damage == 0 then Allow else BlockAction
      case _ => BlockQuarantine
    }
  }

  /** What may go wrong in one exchange with the child besides the child's own answer. */
  datatype Fault = NoFault | WriteFails | ReplyLost

  /** The environment of one event: a clock reading, a fault, and the text a failure is reported with. */
  datatype Env = Env(now: u64, fault: Fault, errorText: string)

  /** The child process as its parent sees it: the reader messages not yet taken, the requests written
      so far, and whether its standard input is still open. */
  datatype Child = Child(inbox: seq<ReaderMessage>, sent: seq<P.Message>, open: bool)

  datatype Rt = Rt(
    body: BodyState,
    active: Option<SafetyLease>,
    transaction: Transaction,
    reflex: ReflexProgram,
    log: seq<LedgerEntry>,
    child: Child,
    metrics: Metrics,
    actionCounter: u64,
    nonce: u64,
    rollbackConfirmed: bool)

  /** An `io::Result` together with the state that the operation leaves. */
  datatype Outcome = Done(rt: Rt) | Failed(rt: Rt)
  {
    predicate IsFailure() {
      Failed?
    }

    function PropagateFailure(): Outcome
      requires Failed?
    {
      this
    }

    function Extract(): Rt
      requires Done?
    {
      rt
    }
  }

  // ---------------------------------------------------------------------------------------------
  // Building blocks
  // ---------------------------------------------------------------------------------------------

  /** `ledger.record` of an event with the current body. */
  function Record(s: Rt, event: AuditEvent, lease: Option<SafetyLease>): (r: Outcome)
  {
    match RecordedEntry(s.log, event.Name(), event.Detail(), event.Verdict(), s.body, lease)
    case Err => Failed(s)
    case Ok(e) => Done(s.(log := s.log + [e]))
  }

  /** One request and its acknowledgement. Any failure terminates and reaps the child. */
  function Transact(c: Child, command: P.Message, ack: P.ExpectedAck, authority: P.AuthoritySnapshot,
        fault: Fault): (r: (bool, Child))
  {
    if !c.open || fault.WriteFails? then (false, c.(open := false))
    else
      var c1 := c.(sent := c.sent + [command]);
      if fault.ReplyLost? || c.inbox == [] then (false, c1.(open := false))
      else
        var c2 := c1.(inbox := c.inbox[1..]);
        if c.inbox[0].Line? && P.ValidateBoundAck(c.inbox[0].text, ack, authority) then (true, c2)
        else (false, c2.(open := false))
  }

  function AuthorityOf(s: Rt): P.AuthoritySnapshot
  {
    P.AuthoritySnapshot(s.body.bodyUid, s.body.epoch, s.body.generation, s.body.certificate,
                        s.reflex.principalId, s.reflex.resourceId, s.reflex.actionId)
  }

  /** Sends a bound request and takes its acknowledgement. */
  function Exchange(s: Rt, request: P.ChildRequest, ack: P.ExpectedAck, fault: Fault): (r: Outcome)
  {
    var (ok, child) := Transact(s.child, P.BoundRequest(request, AuthorityOf(s)), ack, AuthorityOf(s), fault);
    if ok then Done(s.(child := child)) else Failed(s.(child := child))
  }

  function CheckedLeaseDeadline(now: u64, duration: u64): (r: Result<u64>)
  {
    if !(MIN_LEASE_NS <= duration <= MAX_LEASE_NS) || now + duration > 0xffff_ffff_ffff_ffff then Err
    else Ok(now + duration)
  }

  function LeaseFor(body: BodyState, reflex: ReflexProgram, validUntilNs: u64): SafetyLease
  {
    SafetyLease(body.bodyUid, body.epoch, body.generation, body.certificate, validUntilNs,
                reflex.principalId, reflex.resourceId, reflex.actionId)
  }

  function InstallLease(s: Rt, now: u64): (r: Outcome)
  {
    match CheckedLeaseDeadline(now, s.reflex.leaseNs)
    case Err => Failed(s)
    case Ok(until) =>
      var s1 := s.(active := Some(LeaseFor(s.body, s.reflex, until)));
      Record(s1, LeaseInstalled(false), s1.active)
  }

  /** Leaves the body quarantined, without lease, transaction or rollback confirmation. */
  function Isolated(s: Rt): Rt
  {
    s.(body := s.body.(quarantined := true), active := None, transaction := IDLE, rollbackConfirmed := false,
       metrics := if s.body.quarantined then s.metrics
                  else s.metrics.(quarantines := Saturate(s.metrics.quarantines + 1)))
  }

  function ProtocolRejection(s: Rt, reason: string): (r: Rt)
  {
    var s1 := Isolated(s);
    Record(s1.(metrics := s1.metrics.(damage := 1)), ProtocolRejected(reason), None).rt
  }

  function NextNonce(s: Rt): (r: Outcome)
  {
    if s.nonce == 0xffff_ffff_ffff_ffff then Failed(s) else Done(s.(nonce := s.nonce + 1))
  }

  /** The ROLLBACK exchange of a quarantine. */
  function ConfirmRollback(s: Rt, env: Env): (r: Outcome)
  {
    var id := s.metrics.rollbacks;
    match Exchange(s, P.Rollback(id, s.nonce), P.RollbackAck(id, s.nonce), env.fault)
    case Done(s1) =>
      Record(s1.(rollbackConfirmed := true, metrics := s1.metrics.(rollbackAcks := Saturate(s1.metrics.rollbackAcks + 1))),
             RollbackAccepted, None)
    case Failed(s1) =>
      Failed(Record(s1.(metrics := s1.metrics.(damage := 1)),
                    RollbackRejected(env.errorText), None).rt)
  }

  function Quarantine(s: Rt, onReset: bool, env: Env): (r: Outcome)
  {
    var s1 := Isolated(s);
    if s1.metrics.rollbacks == 0xffff_ffff_ffff_ffff then Failed(s1)
    else
      var s2 := s1.(metrics := s1.metrics.(rollbacks := s1.metrics.rollbacks + 1));
      var s3 :- Record(s2, Quarantined(onReset), None);
      var s4 :- NextNonce(s3);
      ConfirmRollback(s4, env)
  }

  // ---------------------------------------------------------------------------------------------
  // Events
  // ---------------------------------------------------------------------------------------------

  function BeginStep(s: Rt): (r: Outcome)
  {
    if s.transaction.pending then Failed(s)
    else
      Record(s.(transaction := Transaction(true, s.active)), BeginAction, s.active)
  }

  function RequestAt(now: u64): CommitRequest
  {
    CommitRequest(now, PRINCIPAL_ID, RESOURCE_ID, ACTION_ID)
  }

  /** The decision of COMMIT in a state. */
  function DecisionAt(s: Rt, now: u64): Decision
  {
    CommitDecision(s.transaction, s.body, s.active, RequestAt(now))
  }

  /** The part of COMMIT after the acknowledgement. */
  function AcceptWork(s: Rt, id: u64, actions: u64, digest: u64): (r: Outcome)
  {
    if s.metrics.allowedCommits == 0xffff_ffff_ffff_ffff then Failed(s)
    else
      var s1 := s.(actionCounter := id,
                   metrics := s.metrics.(allowedCommits := s.metrics.allowedCommits + 1,
                                         childActions := actions,
                                         verifiedWorkAcks := Saturate(s.metrics.verifiedWorkAcks + 1)));
      var s2 :- Record(s1, ChildAckAccepted(id, s1.nonce, actions, digest), s1.active);
      Record(s2, CommitDone, s2.active)
  }

  /** The part of COMMIT after the decision to allow. */
  function Dispatch(s: Rt, env: Env): (r: Outcome)
  {
    var m := s.metrics;
    if s.actionCounter == 0xffff_ffff_ffff_ffff || m.childActions == 0xffff_ffff_ffff_ffff then Failed(s)
    else if s.reflex.instructions == [] || !s.reflex.instructions[0].Work? then Failed(s)
    else
      var id, actions, units := s.actionCounter + 1, m.childActions + 1, s.reflex.instructions[0].units;
      var s1 :- NextNonce(s);
      var digest := Workload.Digest(id, units);
      match Exchange(s1, P.Work(id, s1.nonce, units), P.WorkAck(id, s1.nonce, actions, digest), env.fault)
      case Failed(s2) => Failed(ProtocolRejection(s2, env.errorText))
      case Done(s2) => AcceptWork(s2, id, actions, digest)
  }

  function CommitStep(s: Rt, env: Env): (r: Outcome)
  {
    var decision := DecisionAt(s, env.now);
    var s1 := s.(transaction := if s.transaction.pending then IDLE else s.transaction);
    if decision == Allow then Dispatch(s1, env)
    else
      var s2 := s1.(metrics := s1.metrics.(blockedCommits := Saturate(s1.metrics.blockedCommits + 1),
                                           staleOrExpiredBlocked := Saturate(s1.metrics.staleOrExpiredBlocked + 1)));
      Record(s2, CommitBlocked(decision), s2.active)
  }

  function ResetStep(s: Rt, env: Env): (r: Outcome)
  {
    if s.body.epoch == 0xffff_ffff_ffff_ffff then Failed(s)
    else
      var s1 := s.(body := s.body.(epoch := s.body.epoch + 1));
      if s1.body.generation == 0xffff_ffff_ffff_ffff then Failed(s1)
      else
        Quarantine(s1.(body := s1.body.(generation := s1.body.generation + 1)), true, env)
  }

  /** The part of the probe after the acknowledgement: a new certificate, generation and lease. */
  function Reinstate(s: Rt, certificate: u64, generation: u64, env: Env): (r: Outcome)
  {
    match CheckedLeaseDeadline(env.now, s.reflex.leaseNs)
    case Err => Failed(s)
    case Ok(until) =>
      var body := s.body.(certificate := certificate, generation := generation, quarantined := false);
      var s1 := s.(body := body, active := Some(LeaseFor(body, s.reflex, until)), rollbackConfirmed := false,
                   metrics := s.metrics.(probeRecoveries := Saturate(s.metrics.probeRecoveries + 1)));
      var s2 :- Record(s1, LeaseInstalled(true), s1.active);
      Record(s2, ProbeAccepted, s2.active)
  }

  /** The PROBE exchange. */
  function Challenge(s: Rt, certificate: u64, generation: u64, env: Env): (r: Outcome)
  {
    match Exchange(s, P.Probe(certificate, s.nonce), P.ProbeAck(certificate, s.nonce), env.fault)
    case Failed(s1) => Failed(ProtocolRejection(s1, env.errorText))
    case Done(s1) => Reinstate(s1, certificate, generation, env)
  }

  predicate ProbeEligible(s: Rt)
  {
    s.body.quarantined && s.rollbackConfirmed
  }

  function ProbeStep(s: Rt, env: Env): (r: Outcome)
  {
    hide Record, NextNonce, Challenge;
    var s1 := s.(metrics := s.metrics.(probeRequests := Saturate(s.metrics.probeRequests + 1)));
    if !ProbeEligible(s1) then
      Record(s1, ProbeRejected, None)
    else if s1.body.certificate == 0xffff_ffff_ffff_ffff || s1.body.generation == 0xffff_ffff_ffff_ffff then Failed(s1)
    else
      var id, generation := s1.body.certificate + 1, s1.body.generation + 1;
      var s2 :- NextNonce(s1);
      var s3 :- Record(s2, ProbeRequest, None);
      Challenge(s3, id, generation, env)
  }

  datatype Event = Begin | Commit(env: Env) | Reset(env: Env) | Probe(env: Env) | LeaseTimeout(env: Env)

  function Step(s: Rt, ev: Event): (r: Outcome)
  {
    match ev
    case Begin => BeginStep(s)
    case Commit(env) => CommitStep(s, env)
    case Reset(env) => ResetStep(s, env)
    case Probe(env) => ProbeStep(s, env)
    case LeaseTimeout(env) => Quarantine(s, false, env)
  }

  /** The events of the main loop, up to the first failure. */
  function Steps(s: Rt, events: seq<Event>): (r: Outcome)
    decreases |events|
  {
    hide Step;
    if events == [] then Done(s)
    else
      var s1 :- Step(s, events[0]);
      Steps(s1, events[1..])
  }

  // ---------------------------------------------------------------------------------------------
  // Whole runs
  // ---------------------------------------------------------------------------------------------

  function InitialState(reflex: ReflexProgram, inbox: seq<ReaderMessage>): Rt
  {
    Rt(BodyState(0x0a51a, 1, 1, 100, false), None, IDLE, reflex, [], Child(inbox, [], true), NO_METRICS, 0, 0, false)
  }

  /** `Runtime::new`: the first message must be the greeting of this process. */
  function New(inbox: seq<ReaderMessage>, pid: u64, env: Env): (r: Outcome)
  {
    var reflex := CompilePolicy(POLICY).value;
    if env.fault != NoFault || inbox == [] || !inbox[0].Line? || !P.ValidateHello(inbox[0].text, pid) then
      Failed(InitialState(reflex, inbox))
    else InstallLease(InitialState(reflex, inbox[1..]), env.now)
  }

  /** The child leaves cleanly: nothing but the end of its output is left to read. */
  predicate CleanExit(c: Child, exitOk: bool)
  {
    exitOk && c.inbox == [Eof]
  }

  /** The handle of the child is gone, and with it what it had not delivered. */
  function Dropped(s: Rt): Rt
  {
    s.(child := s.child.(open := false, inbox := []))
  }

  function DamageOf(m: Metrics): u64
  {
    if m.childActions != m.allowedCommits || m.verifiedWorkAcks != m.allowedCommits || m.rollbackAcks != m.rollbacks
    then 1 else 0
  }

  /** The last entries, after the child has left. */
  function Complete(s: Rt): (r: Outcome)
  {
    var s1 := s.(metrics := s.metrics.(damage := DamageOf(s.metrics)));
    var s2 :- Record(s1, Final(s1.metrics.damage), s1.active);
    match SealedEntry(s2.log, s2.body, s2.active)
    case Err => Failed(s2)
    case Ok(e) => Done(s2.(log := s2.log + [e]))
  }

  /** From STOP to the seal. */
  function Finish(s: Rt, env: Env, exitOk: bool): (r: Outcome)
  {
    var s1 :- NextNonce(s);
    match Exchange(s1, P.Stop(s1.actionCounter, s1.nonce), P.StopAck(s1.actionCounter, s1.nonce), env.fault)
    case Failed(s2) => Failed(ProtocolRejection(Dropped(s2), env.errorText))
    case Done(s2) =>
      if !CleanExit(s2.child, exitOk) then Failed(ProtocolRejection(Dropped(s2), env.errorText)) else Complete(Dropped(s2))
  }

  /** A process from its creation to the end of `run`. */
  datatype Life = Life(output: seq<byte>, pid: u64, start: Env, events: seq<Event>, stop: Env, exitOk: bool)

  function Live(l: Life): (r: Outcome)
  {
    var s0 :- New(Received(l.output), l.pid, l.start);
    var s1 :- Steps(s0, l.events);
    Finish(s1, l.stop, l.exitOk)
  }
}
