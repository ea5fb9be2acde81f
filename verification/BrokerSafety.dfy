/** At-most-once over every schedule of incarnations, crashes and torn writes. A client consumes the
    attempt before it applies the effect, and records a result only after that, in one incarnation, as
    the experiments do; every other call may happen at any time. */
module BrokerSafety {
  import opened Words
  import opened Broker

  /** What the running client still owes: nothing, the effect it has just consumed the attempt for, or
      the result of the effect it has applied. */
  datatype Duty = Free | Armed | Applied

  datatype Process = Down | Up(duty: Duty)

  /** The disk, how many effects have happened, and the incarnation running, if any. */
  datatype System = System(disk: Disk, effects: nat, process: Process)

  const INITIAL := System(EMPTY_DISK, 0, Down)

  datatype Action =
    | Open(birth: Birth)
    | Call(op: Operation, fate: Fate)
    | ApplyEffect
    | Crash
    | Tear(bytes: seq<byte>)

  function DutyAfter(duty: Duty, op: Operation, report: Report): Duty
  {
    if report.Raised? then duty else if op.Consume? then Armed else if op.RecordResult? then Free else duty
  }

  /** One action. What is not possible in a state changes nothing. */
  function Next(s: System, a: Action): (r: System)
  {
    match a
    case Open(birth) =>
      if s.process.Up? then s
      else
        var (disk, report) := Opened(s.disk, birth);
        s.(disk := disk, process := if report.Returned? then Up(Free) else Down)
    case Call(op, fate) =>
      if s.process.Down? || s.disk.file.None? || (op.RecordResult? && !s.process.duty.Applied?) then s
      else
        var (disk, report) := Perform(s.disk, op, fate);
        s.(disk := disk, process := if report.Died? then Down else Up(DutyAfter(s.process.duty, op, report)))
    case ApplyEffect =>
      if s.process.Up? && s.process.duty.Armed? then s.(effects := s.effects + 1, process := Up(Applied)) else s
    case Crash => s.(process := Down)
    case Tear(bytes) =>
      if s.process.Up? || s.disk.file.None? || bytes == [] then s
      else s.(disk := s.disk.(file := Some(s.disk.file.value.(tail := s.disk.file.value.tail + bytes))))
  }

  function Run(s: System, actions: seq<Action>): (r: System)
    decreases |actions|
  {
    if actions == [] then s else Run(Next(s, actions[0]), actions[1..])
  }

  // ---------------------------------------------------------------------------------------------
  // The invariant
  // ---------------------------------------------------------------------------------------------

  /** How many effects a row of the attempt allows. */
  predicate EffectsFit(row: Option<Attempt>, effects: nat, process: Process)
  {
    match row
    case None => effects == 0
    case Some(a) =>
      match a.state
      case Prepared => effects == 0 && a.dispatchCount == 0
      case Consumed =>
        && a.dispatchCount == 1 && effects <= 1
        && (process == Up(Armed) ==> effects == 0)
        && (process == Up(Applied) ==> effects == 1)
      case Resulted => effects == 1 && a.dispatchCount == 1 && a.receipt.Some?
      case Terminated => effects == 1 && a.dispatchCount == 1 && a.receipt.Some?
      case Unknown(_) => false
  }

  /** The operations behind a row, in order. */
  function History(row: Option<Attempt>): seq<string>
  {
    match row
    case None => []
    case Some(a) =>
      match a.state
      case Prepared => ["PREPARED"]
      case Consumed => ["PREPARED", "CONSUMED_BEFORE_FIXTURE_NOOP"]
      case Resulted => ["PREPARED", "CONSUMED_BEFORE_FIXTURE_NOOP", "FIXTURE_NOOP_RESULT"]
      case Terminated => ["PREPARED", "CONSUMED_BEFORE_FIXTURE_NOOP", "FIXTURE_NOOP_RESULT", "TERMINAL"]
      case Unknown(_) => []
  }

  function Names(events: seq<EventRow>): (r: seq<string>)
    ensures |r| == |events|
  {
    seq(|events|, i requires 0 <= i < |events| => events[i].event)
  }

  predicate Consistent(f: File)
  {
    Chained(f.events) && Names(f.events) == History(f.attempt)
  }

  predicate Safe(s: System)
  {
    && (s.disk.file.None? ==> s.effects == 0 && s.process.Down? && s.disk.seal.None?)
    && (s.disk.file.Some? ==>
          Consistent(s.disk.file.value) && EffectsFit(s.disk.file.value.attempt, s.effects, s.process))
    && (s.process.Up? ==> SealMatches(s.disk))
    && (s.disk.seal.Some? ==> s.disk.seal.value.file.tail == [] && s.disk.seal.value.file.tables == 2)
    && (s.process.Up? && !s.process.duty.Free? ==>
          s.disk.file.value.attempt.Some? && s.disk.file.value.attempt.value.state.Consumed?)
  }

  lemma ChainedAppend(events: seq<EventRow>, name: string)
    requires Chained(events)
    ensures Chained(WithEvent(events, name)) && Names(WithEvent(events, name)) == Names(events) + [name]
  {
    hide Chained;
    var all := WithEvent(events, name);
    assert all[..|events|] == events;
    PrefixChained(all, |events|);
    assert all[..|events| + 1] == all;
  }

  lemma CommitConsistent(f: File, op: Operation)
    requires Consistent(f) && Committed(f, op).Ok?
    requires f.attempt.Some? ==> !f.attempt.value.state.Unknown?
    ensures Consistent(Committed(f, op).value)
  {
    hide Chained, WithEvent;
    ChainedAppend(f.events, op.EventName());
  }

  lemma CallSafe(s: System, op: Operation, fate: Fate)
    requires Safe(s)
    ensures Safe(Next(s, Call(op, fate)))
  {
    hide Chained, Consistent, WithEvent;
    if s.process.Up? && s.disk.file.Some? && Committed(s.disk.file.value, op).Ok? {
      CommitConsistent(s.disk.file.value, op);
    }
  }

  lemma OpenSafe(s: System, birth: Birth)
    requires Safe(s)
    ensures Safe(Next(s, Open(birth)))
  {
    hide WithEvent;
  }

  lemma OthersSafe(s: System, a: Action)
    requires Safe(s) && !a.Call? && !a.Open?
    ensures Safe(Next(s, a))
  {
    hide WithEvent, Chained;
  }

  lemma {:induction false} RunSafe(s: System, actions: seq<Action>)
    requires Safe(s)
    ensures Safe(Run(s, actions))
    decreases |actions|
  {
    hide Safe, Next;
    if actions != [] {
      match actions[0]
      {
        case Call(op, fate) => CallSafe(s, op, fate);
        case Open(birth) => OpenSafe(s, birth);
        case _ => OthersSafe(s, actions[0]);
      }
      RunSafe(Next(s, actions[0]), actions[1..]);
    }
  }

  lemma InitiallySafe()
    ensures Safe(INITIAL)
  {
  }

  // ---------------------------------------------------------------------------------------------
  // At most once
  // ---------------------------------------------------------------------------------------------

  /** Over any number of incarnations, with a crash between any two durable writes and any torn write,
      the effect happens at most once, and the row on disk bounds how often it happened. */
  lemma AtMostOnce(actions: seq<Action>)
    ensures var s := Run(INITIAL, actions);
            && s.effects <= 1
            && (s.disk.file.None? ==> s.effects == 0)
            && (s.disk.file.Some? ==>
                  match RecoveryFor(s.disk.file.value.attempt)
                  case NoAction => s.effects == 0
                  case AbortWithoutEffect => s.effects == 0
                  case BlockNoRedispatch => s.effects <= 1
                  case EmitTerminalOnly => s.effects == 1
                  case CompleteNoRedispatch => s.effects == 1
                  case FailClosed => false)
  {
    hide Run, Consistent;
    InitiallySafe();
    RunSafe(INITIAL, actions);
  }

  /** The ledger on disk always passes its own verification, and its event chain tells exactly the
      operations that led to its row. */
  lemma LedgerVerifies(actions: seq<Action>)
    ensures var s := Run(INITIAL, actions);
            s.disk.file.Some? ==> Verifies(s.disk.file.value)
                                  && Names(s.disk.file.value.events) == History(s.disk.file.value.attempt)
  {
    hide Run, Chained;
    InitiallySafe();
    RunSafe(INITIAL, actions);
  }

  /** The recovery action fits the event table: it names the last transaction committed, and with it
      the only operation that the broker would still commit. */
  ghost predicate ActionFits(f: File, action: RecoveryAction)
  {
    var names, last := Names(f.events), |f.events| - 1;
    && (action.NoAction? <==> names == [])
    && (action.NoAction? <==> Committed(f, Prepare).Ok?)
    && (action.AbortWithoutEffect? <==> names != [] && names[last] == "PREPARED")
    && (action.AbortWithoutEffect? <==> Committed(f, Consume).Ok?)
    && (action.BlockNoRedispatch? <==> names != [] && names[last] == "CONSUMED_BEFORE_FIXTURE_NOOP")
    && (forall receipt :: action.BlockNoRedispatch? <==> Committed(f, RecordResult(receipt)).Ok?)
    && (action.EmitTerminalOnly? <==> names != [] && names[last] == "FIXTURE_NOOP_RESULT")
    && (Committed(f, Terminal).Ok? <==> f.attempt.Some? && f.attempt.value.receipt != Some("") && action.EmitTerminalOnly?)
    && (action.CompleteNoRedispatch? <==> names != [] && names[last] == "TERMINAL")
    && (action.CompleteNoRedispatch? ==> forall op :: Committed(f, op).Err?)
    && !action.FailClosed?
  }

  /** In every run the recovery action tells exactly where the operation stands. */
  lemma RecoveryTellsStage(actions: seq<Action>)
    ensures var s := Run(INITIAL, actions);
            s.disk.file.Some? ==> ActionFits(s.disk.file.value, RecoveryFor(s.disk.file.value.attempt))
  {
    hide Run, Chained;
    InitiallySafe();
    RunSafe(INITIAL, actions);
  }

  // ---------------------------------------------------------------------------------------------
  // A crash in the window between COMMIT and seal blocks for ever
  // ---------------------------------------------------------------------------------------------

  /** Nobody runs, and the seal on disk is not that of the file. */
  predicate Blocked(s: System)
  {
    s.process.Down? && s.disk.file.Some? && !SealMatches(s.disk)
  }

  /** The same files, but for bytes that later torn writes have left behind the database. */
  predicate SameButTorn(d: Disk, e: Disk)
  {
    && d.seal == e.seal
    && d.file.Some? && e.file.Some? && d.file.value.(tail := []) == e.file.value.(tail := [])
  }

  lemma BlockedStep(s: System, a: Action)
    requires Safe(s) && Blocked(s)
    ensures Blocked(Next(s, a)) && Next(s, a).effects == s.effects && SameButTorn(s.disk, Next(s, a).disk)
  {
    hide Consistent;
  }

  /** Every later open fails, whatever happens: no incarnation comes up, no effect happens, and row,
      events and seal stay as they are. */
  lemma {:induction false} BlockedForever(s: System, actions: seq<Action>)
    requires Safe(s) && Blocked(s)
    ensures Blocked(Run(s, actions)) && Run(s, actions).effects == s.effects
    ensures SameButTorn(s.disk, Run(s, actions).disk)
    decreases |actions|
  {
    hide Safe, Next;
    if actions != [] {
      BlockedStep(s, actions[0]);
      RunSafe(s, [actions[0]]);
      assert [actions[0]][1..] == [];
      assert Run(s, [actions[0]]) == Run(Next(s, actions[0]), []);
      BlockedForever(Next(s, actions[0]), actions[1..]);
    }
  }

  /** The ways into that state: dying before the new seal, during creation, or a torn write. */
  lemma WindowBlocks(s: System, op: Operation)
    requires Safe(s) && s.process.Up? && Committed(s.disk.file.value, op).Ok?
    requires op.RecordResult? ==> s.process.duty.Applied?
    ensures Blocked(Next(s, Call(op, DiesBeforeSeal)))
  {
    hide Consistent;
    var f, g := s.disk.file.value, Committed(s.disk.file.value, op).value;
    assert |g.events| == |f.events| + 1;
  }

  lemma CreationBlocks(s: System, tables: nat)
    requires Safe(s) && s.disk.file.None?
    ensures Blocked(Next(s, Open(DiesWithTables(tables))))
  {
  }

  lemma TornBlocks(s: System, bytes: seq<byte>)
    requires Safe(s) && s.process.Down? && s.disk.file.Some? && bytes != []
    ensures Blocked(Next(s, Tear(bytes)))
  {
    hide Consistent;
  }

  /** An incarnation that is down comes up again exactly when none of this happened. */
  lemma OpensUnlessBlocked(s: System)
    requires Safe(s) && s.process.Down?
    ensures Next(s, Open(Completes)).process.Up? <==> !Blocked(s)
  {
    hide Consistent;
  }

  /** Without a crash the attempt completes with exactly one effect, and keeps the receipt. */
  lemma NominalCompletes(receipt: string)
    requires receipt != ""
    ensures var s := Run(INITIAL, CONSUMED_RUN + [ApplyEffect, Call(RecordResult(receipt), Survives),
          Call(Terminal, Survives)]);
            && s.effects == 1 && s.process == Up(Free) && s.disk.file.Some?
            && s.disk.file.value.attempt == Some(Attempt(Terminated, 1, Some(receipt)))
            && RecoveryFor(s.disk.file.value.attempt) == CompleteNoRedispatch
  {
    hide WithEvent;
    var rest := [ApplyEffect, Call(RecordResult(receipt), Survives), Call(Terminal, Survives)];
    RunConcat(INITIAL, CONSUMED_RUN, rest);
    RunThree(INITIAL, Open(Completes), Call(Prepare, Survives), Call(Consume, Survives));
    RunThree(Run(INITIAL, CONSUMED_RUN), ApplyEffect, Call(RecordResult(receipt), Survives), Call(Terminal, Survives));
    hide Run;
    var s := Next(Next(Next(INITIAL, Open(Completes)), Call(Prepare, Survives)), Call(Consume, Survives));
    assert s.process == Up(Armed) && s.effects == 0 && s.disk.file.Some?;
    assert s.disk.file.value.attempt == Some(Attempt(Consumed, 1, None));
  }

  // ---------------------------------------------------------------------------------------------
  // Why CONSUMED must block
  // ---------------------------------------------------------------------------------------------

  const CONSUMED_RUN: seq<Action> := [Open(Completes), Call(Prepare, Survives), Call(Consume, Survives)]

  /** The disk cannot tell whether the effect happened: two runs end with the very same disk, one
      without the effect and one with it. So neither redispatch nor completion would be safe. */
  lemma ConsumedIsAmbiguous()
    ensures var a, b := Run(INITIAL, CONSUMED_RUN + [Crash]), Run(INITIAL, CONSUMED_RUN + [ApplyEffect, Crash]);
            && a.disk == b.disk && a.process == b.process && a.disk.file.Some?
            && RecoveryFor(a.disk.file.value.attempt) == BlockNoRedispatch
            && a.effects == 0 && b.effects == 1
  {
    var s1 := Next(INITIAL, Open(Completes));
    var s2 := Next(s1, Call(Prepare, Survives));
    var s3 := Next(s2, Call(Consume, Survives));
    RunConcat(INITIAL, CONSUMED_RUN, [Crash]);
    RunConcat(INITIAL, CONSUMED_RUN, [ApplyEffect, Crash]);
    RunThree(INITIAL, Open(Completes), Call(Prepare, Survives), Call(Consume, Survives));
    RunTwo(s3, ApplyEffect, Crash);
    assert Run(s3, [Crash]) == Next(s3, Crash) by {
      assert [Crash][1..] == [];
    }
  }

  lemma {:induction false} RunConcat(s: System, a: seq<Action>, b: seq<Action>)
    ensures Run(s, a + b) == Run(Run(s, a), b)
    decreases |a|
  {
    hide Next;
    if a == [] {
      assert a + b == b;
    } else {
      assert (a + b)[1..] == a[1..] + b;
      RunConcat(Next(s, a[0]), a[1..], b);
    }
  }

  lemma RunNothing(s: System)
    ensures Run(s, []) == s
  {
  }

  /** The schedule with one more action. */
  ghost function Then(s: System, actions: seq<Action>, a: Action): (all: seq<Action>)
    ensures Run(s, all) == Next(Run(s, actions), a)
  {
    hide Next;
    RunConcat(s, actions, [a]);
    assert [a][1..] == [];
    assert Run(Run(s, actions), [a]) == Run(Next(Run(s, actions), a), []);
    actions + [a]
  }

  lemma RunTwo(s: System, a: Action, b: Action)
    ensures Run(s, [a, b]) == Next(Next(s, a), b)
  {
    hide Next;
    var s1 := Next(s, a);
    assert [a, b][1..] == [b] && [b][1..] == [];
    assert Run(s1, [b]) == Run(Next(s1, b), []);
  }

  lemma RunThree(s: System, a: Action, b: Action, c: Action)
    ensures Run(s, [a, b, c]) == Next(Next(Next(s, a), b), c)
  {
    hide Next;
    assert [a, b, c][1..] == [b, c];
    RunTwo(Next(s, a), b, c);
  }
}
