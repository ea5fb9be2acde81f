/** The durable one-shot ledger of the effect broker (experiments/common/oasi_broker.py): a database
    file and a seal file beside it, written one after the other. SHA-256 is an injective digest, so a
    digest is represented by what it was taken of. */
module Broker {
  import opened Words

  // ---------------------------------------------------------------------------------------------
  // The two files
  // ---------------------------------------------------------------------------------------------

  datatype AttemptState = Prepared | Consumed | Resulted | Terminated | Unknown(text: string)

  datatype Attempt = Attempt(state: AttemptState, dispatchCount: int, receipt: Option<string>)

  /** The digest of an event record, which contains the digest before it. */
  datatype RecordHash = Zero | RecordHash(event: string, previous: RecordHash)

  datatype EventRow = EventRow(event: string, previousHash: RecordHash, recordHash: RecordHash)

  /** The database file: how many of its two tables exist, the row of the one attempt, the event rows,
      and bytes that a torn write has left behind its last page. */
  datatype File = File(tables: nat, attempt: Option<Attempt>, events: seq<EventRow>, tail: seq<byte>)

  datatype Digest = Sha256(file: File)

  datatype Disk = Disk(file: Option<File>, seal: Option<Digest>)

  const EMPTY_DISK := Disk(None, None)

  predicate SealMatches(d: Disk)
  {
    d.file.Some? && d.seal == Some(Sha256(d.file.value))
  }

  // ---------------------------------------------------------------------------------------------
  // The four transactions
  // ---------------------------------------------------------------------------------------------

  datatype Operation = Prepare | Consume | RecordResult(receipt: string) | Terminal
  {
    function EventName(): string
    {
      match this
      case Prepare => "PREPARED"
      case Consume => "CONSUMED_BEFORE_FIXTURE_NOOP"
      case RecordResult(_) => "FIXTURE_NOOP_RESULT"
      case Terminal => "TERMINAL"
    }
  }

  /** The row after a transaction, or an error when its check of the row fails. */
  function NextAttempt(row: Option<Attempt>, op: Operation): (r: Result<Attempt>)
  {
    match op
    case Prepare =>
      if row.Some? then Err else Ok(Attempt(Prepared, 0, None))
    case Consume =>
      if row.None? || row.value.state != Prepared || row.value.dispatchCount != 0 then Err
      else Ok(row.value.(state := Consumed, dispatchCount := 1))
    case RecordResult(receipt) =>
      if row.None? || row.value.state != Consumed || row.value.dispatchCount != 1 then Err
      else Ok(row.value.(state := Resulted, receipt := Some(receipt)))
    case Terminal =>
      if row.None? || row.value.state != Resulted || row.value.dispatchCount != 1
         || row.value.receipt.None? || row.value.receipt.value == "" then Err
      else Ok(row.value.(state := Terminated))
  }

  function LastHash(events: seq<EventRow>): RecordHash
  {
    if events == [] then Zero else events[|events| - 1].recordHash
  }

  function WithEvent(events: seq<EventRow>, name: string): seq<EventRow>
  {
    var previous := LastHash(events);
    events + [EventRow(name, previous, RecordHash(name, previous))]
  }

  /** The file after the COMMIT of a transaction. */
  function Committed(f: File, op: Operation): (r: Result<File>)
  {
    var row :- NextAttempt(f.attempt, op);
    Ok(f.(attempt := Some(row), events := WithEvent(f.events, op.EventName())))
  }

  /** How far a call gets: the process may die before the COMMIT, or after it and before the new seal
      has replaced the old one. */
  datatype Fate = Survives | DiesBeforeCommit | DiesBeforeSeal

  datatype Report = Returned | Raised | Died

  function Perform(d: Disk, op: Operation, fate: Fate): (r: (Disk, Report))
    requires d.file.Some?
  {
    if fate.DiesBeforeCommit? then (d, Died)
    else
      match Committed(d.file.value, op)
      case Err => (d, Raised)
      case Ok(f) =>
        if fate.DiesBeforeSeal? then (d.(file := Some(f)), Died)
        else (Disk(Some(f), Some(Sha256(f))), Returned)
  }

  /** The creation of a ledger may be cut short by a crash after any of its durable writes. */
  datatype Birth = Completes | DiesWithTables(tables: nat)

  function WithTables(f: File, limit: nat): File
  {
    if f.tables < limit then f.(tables := limit) else f
  }

  function Opened(d: Disk, birth: Birth): (r: (Disk, Report))
  {
    if d.file.Some? then
      if SealMatches(d) then (d.(file := Some(WithTables(d.file.value, 2))), Returned) else (d, Raised)
    else if birth.DiesWithTables? then
      (d.(file := Some(File(if birth.tables < 2 then birth.tables else 2, None, [], []))), Died)
    else
      var f := File(2, None, [], []);
      (Disk(Some(f), Some(Sha256(f))), Returned)
  }

  // ---------------------------------------------------------------------------------------------
  // Verification and recovery
  // ---------------------------------------------------------------------------------------------

  /** Every event row repeats the hash before it and carries its own. */
  predicate Chained(events: seq<EventRow>)
  {
    forall i :: 0 <= i < |events| ==>
      && events[i].previousHash == LastHash(events[..i])
      && events[i].recordHash == RecordHash(events[i].event, LastHash(events[..i]))
  }

  predicate Verifies(f: File)
  {
    Chained(f.events) && (f.attempt.Some? ==> 0 <= f.attempt.value.dispatchCount <= 1)
  }

  datatype RecoveryAction =
    NoAction | AbortWithoutEffect | BlockNoRedispatch | EmitTerminalOnly | CompleteNoRedispatch | FailClosed

  function RecoveryFor(row: Option<Attempt>): RecoveryAction
  {
    match row
    case None => NoAction
    case Some(a) =>
      match a.state
      case Prepared => AbortWithoutEffect
      case Consumed => BlockNoRedispatch
      case Resulted => EmitTerminalOnly
      case Terminated => CompleteNoRedispatch
      case Unknown(_) => FailClosed
  }

  // ---------------------------------------------------------------------------------------------
  // The class
  // ---------------------------------------------------------------------------------------------

  class Storage {
    var file: Option<File>
    var seal: Option<Digest>

    ghost function Value(): Disk
      reads this
    {
      Disk(file, seal)
    }

    constructor ()
      ensures Value() == EMPTY_DISK
    {
      file, seal := None, None;
    }
  }

  class BrokerLedger {
    const storage: Storage

    constructor (s: Storage)
      ensures storage == s
    {
      storage := s;
    }

    method WriteSeal()
      requires storage.file.Some?
      modifies storage`seal
      ensures storage.Value() == old(storage.Value()).(seal := Some(Sha256(storage.file.value)))
    {
      storage.seal := Some(Sha256(storage.file.value));
    }

    method AppendEvent(f: File, name: string) returns (g: File)
      ensures g == f.(events := WithEvent(f.events, name))
    {
      var previous := if |f.events| == 0 then Zero else f.events[|f.events| - 1].recordHash;
      g := f.(events := f.events + [EventRow(name, previous, RecordHash(name, previous))]);
    }

    method PrepareAttempt(fate: Fate) returns (report: Report)
      requires storage.file.Some?
      modifies storage
      ensures (storage.Value(), report) == Perform(old(storage.Value()), Prepare, fate)
    {
      if fate.DiesBeforeCommit? {
        return Died;
      }
      var f := storage.file.value;
      if f.attempt.Some? {
        return Raised;
      }
      f := f.(attempt := Some(Attempt(Prepared, 0, None)));
      f := AppendEvent(f, "PREPARED");
      storage.file := Some(f);
      if fate.DiesBeforeSeal? {
        return Died;
      }
      WriteSeal();
      return Returned;
    }

    method ConsumeAttempt(fate: Fate) returns (report: Report)
      requires storage.file.Some?
      modifies storage
      ensures (storage.Value(), report) == Perform(old(storage.Value()), Consume, fate)
    {
      if fate.DiesBeforeCommit? {
        return Died;
      }
      var f := storage.file.value;
      if f.attempt.None? || f.attempt.value.state != Prepared || f.attempt.value.dispatchCount != 0 {
        return Raised;
      }
      f := f.(attempt := Some(f.attempt.value.(state := Consumed, dispatchCount := 1)));
      f := AppendEvent(f, "CONSUMED_BEFORE_FIXTURE_NOOP");
      storage.file := Some(f);
      if fate.DiesBeforeSeal? {
        return Died;
      }
      WriteSeal();
      return Returned;
    }

    method RecordReceipt(receipt: string, fate: Fate) returns (report: Report)
      requires storage.file.Some?
      modifies storage
      ensures (storage.Value(), report) == Perform(old(storage.Value()), RecordResult(receipt), fate)
    {
      if fate.DiesBeforeCommit? {
        return Died;
      }
      var f := storage.file.value;
      if f.attempt.None? || f.attempt.value.state != Consumed || f.attempt.value.dispatchCount != 1 {
        return Raised;
      }
      f := f.(attempt := Some(f.attempt.value.(state := Resulted, receipt := Some(receipt))));
      f := AppendEvent(f, "FIXTURE_NOOP_RESULT");
      storage.file := Some(f);
      if fate.DiesBeforeSeal? {
        return Died;
      }
      WriteSeal();
      return Returned;
    }

    method MarkTerminal(fate: Fate) returns (report: Report)
      requires storage.file.Some?
      modifies storage
      ensures (storage.Value(), report) == Perform(old(storage.Value()), Terminal, fate)
    {
      if fate.DiesBeforeCommit? {
        return Died;
      }
      var f := storage.file.value;
      if f.attempt.None? || f.attempt.value.state != Resulted || f.attempt.value.dispatchCount != 1
         || f.attempt.value.receipt.None? || f.attempt.value.receipt.value == "" {
        return Raised;
      }
      f := f.(attempt := Some(f.attempt.value.(state := Terminated)));
      f := AppendEvent(f, "TERMINAL");
      storage.file := Some(f);
      if fate.DiesBeforeSeal? {
        return Died;
      }
      WriteSeal();
      return Returned;
    }

    /** The tables are created one by one, each durably, and without a new seal. */
    method CreateTables(limit: nat)
      requires storage.file.Some?
      modifies storage`file
      ensures storage.file == Some(WithTables(old(storage.file.value), limit))
    {
      while storage.file.value.tables < limit
        invariant storage.file.Some?
        invariant WithTables(storage.file.value, limit) == WithTables(old(storage.file.value), limit)
        decreases limit - storage.file.value.tables
      {
        storage.file := Some(storage.file.value.(tables := storage.file.value.tables + 1));
      }
    }

    /** `__init__`: an existing ledger is opened only under a matching seal, a missing one is created. */
    method Open(birth: Birth) returns (report: Report)
      modifies storage
      ensures (storage.Value(), report) == Opened(old(storage.Value()), birth)
    {
      var existed := storage.file.Some?;
      if existed {
        if storage.seal.None? || storage.seal.value != Sha256(storage.file.value) {
          return Raised;
        }
      } else {
        storage.file := Some(File(0, None, [], []));
        if birth.DiesWithTables? {
          CreateTables(if birth.tables < 2 then birth.tables else 2);
          return Died;
        }
      }
      CreateTables(2);
      if !existed {
        WriteSeal();
      }
      return Returned;
    }

    method Recovery() returns (action: RecoveryAction)
      requires storage.file.Some?
      ensures action == RecoveryFor(storage.file.value.attempt)
    {
      var row := storage.file.value.attempt;
      match row
      case None => action := NoAction;
      case Some(a) =>
        match a.state
        case Prepared => action := AbortWithoutEffect;
        case Consumed => action := BlockNoRedispatch;
        case Resulted => action := EmitTerminalOnly;
        case Terminated => action := CompleteNoRedispatch;
        case Unknown(_) => action := FailClosed;
    }

    method Verify() returns (ok: bool)
      requires storage.file.Some?
      ensures ok <==> Verifies(storage.file.value)
    {
      var events := storage.file.value.events;
      var previous := Zero;
      for i := 0 to |events|
        invariant previous == LastHash(events[..i])
        invariant Chained(events[..i])
      {
        assert events[..i + 1][..i] == events[..i];
        var row := events[i];
        var expected := RecordHash(row.event, previous);
        if row.previousHash != previous || row.recordHash != expected {
          assert row.previousHash == LastHash(events[..i]) ==> row.recordHash != RecordHash(row.event, LastHash(events[..i]));
          return false;
        }
        PrefixChained(events, i);
        previous := row.recordHash;
      }
      assert events[..|events|] == events;
      var row := storage.file.value.attempt;
      if row.Some? && (row.value.dispatchCount < 0 || row.value.dispatchCount > 1) {
        return false;
      }
      return true;
    }
  }

  lemma PrefixChained(events: seq<EventRow>, i: nat)
    requires i < |events| && Chained(events[..i])
    requires events[i].previousHash == LastHash(events[..i])
    requires events[i].recordHash == RecordHash(events[i].event, LastHash(events[..i]))
    ensures Chained(events[..i + 1])
  {
    var p := events[..i + 1];
    forall j | 0 <= j < |p|
      ensures p[j].previousHash == LastHash(p[..j]) && p[j].recordHash == RecordHash(p[j].event, LastHash(p[..j]))
    {
      assert p[..j] == events[..j];
      if j < i {
        assert events[..i][..j] == events[..j];
        assert p[j] == events[..i][j];
      }
    }
  }

  /** The last record hash binds the whole chain: two verified chains that end in the same hash are equal. */
  lemma {:induction false} ChainBinds(a: seq<EventRow>, b: seq<EventRow>)
    requires Chained(a) && Chained(b) && LastHash(a) == LastHash(b)
    ensures a == b
    decreases |a|
  {
    hide Chained;
    if a != [] {
      LastRecord(a);
    }
    if b != [] {
      LastRecord(b);
    }
    if a != [] && b != [] {
      var m, n := |a| - 1, |b| - 1;
      ChainBinds(a[..m], b[..n]);
      SameRow(a, b);
      assert a == a[..m] + [a[m]] && b == b[..n] + [b[n]];
    }
  }

  lemma LastRecord(events: seq<EventRow>)
    requires Chained(events) && events != []
    ensures var n := |events| - 1;
            Chained(events[..n]) && LastHash(events) == RecordHash(events[n].event, LastHash(events[..n]))
  {
    PrefixVerifies(events, |events| - 1);
  }

  lemma SameRow(a: seq<EventRow>, b: seq<EventRow>)
    requires Chained(a) && Chained(b) && a != [] && b != []
    requires LastHash(a) == LastHash(b)
    ensures a[|a| - 1] == b[|b| - 1]
  {
  }

  lemma PrefixVerifies(events: seq<EventRow>, n: nat)
    requires n <= |events| && Chained(events)
    ensures Chained(events[..n])
  {
    forall i | 0 <= i < n
      ensures events[..n][..i] == events[..i]
    {
    }
  }
}
