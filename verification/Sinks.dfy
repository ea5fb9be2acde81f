/** The recovery policies the experiments compare (experiments/s5/experiment.py, experiments/s6/experiment.py):
    a coordinator that redispatches while its job is READY, over an append-only and over a deduplicating
    sink, and the one-shot broker over a sink that offers neither keys nor queries. */
module Sinks {
  import opened Words
  import opened Broker
  import B = BrokerSafety

  // ---------------------------------------------------------------------------------------------
  // Sinks
  // ---------------------------------------------------------------------------------------------

  const NOOP := "NOOP"

  datatype Effect = Effect(key: string, payload: string)

  datatype SinkState = SinkState(effects: seq<Effect>, dedup: map<string, string>)

  /** The sink after one `apply`, and whether an effect was inserted. */
  function Applied(s: SinkState, key: string, payload: string, idempotent: bool): (r: (SinkState, bool))
  {
    if idempotent && key in s.dedup then (s, false)
    else
      (SinkState(s.effects + [Effect(key, payload)], if idempotent then s.dedup[key := payload] else s.dedup), true)
  }

  class EffectSink {
    var effects: seq<Effect>
    var dedup: map<string, string>

    ghost function Value(): SinkState
      reads this
    {
      SinkState(effects, dedup)
    }

    constructor ()
      ensures Value() == SinkState([], map[])
    {
      effects, dedup := [], map[];
    }

    method Apply(key: string, payload: string, idempotent: bool) returns (inserted: bool)
      modifies this
      ensures (Value(), inserted) == Applied(old(Value()), key, payload, idempotent)
    {
      if idempotent {
        inserted := key !in dedup;
        if inserted {
          dedup := dedup[key := payload];
          effects := effects + [Effect(key, payload)];
        }
        return inserted;
      }
      effects := effects + [Effect(key, payload)];
      return true;
    }
  }

  class NonCooperativeSink {
    var effects: seq<string>

    constructor ()
      ensures effects == []
    {
      effects := [];
    }

    method Apply(payload: string)
      modifies this
      ensures effects == old(effects) + [payload]
    {
      effects := effects + [payload];
    }
  }

  // ---------------------------------------------------------------------------------------------
  // The coordinator's store
  // ---------------------------------------------------------------------------------------------

  datatype JobState = Ready | Done

  datatype JobsFile = JobsFile(jobs: map<string, JobState>, tail: seq<byte>)

  datatype JobsDigest = JobsSha256(file: JobsFile)

  datatype StoreDisk = StoreDisk(file: Option<JobsFile>, seal: Option<JobsDigest>)

  predicate StoreSealed(d: StoreDisk)
  {
    d.file.Some? && d.seal == Some(JobsSha256(d.file.value))
  }

  /** A new content of the database, and then its seal. */
  function Stored(d: StoreDisk, f: JobsFile, fate: Fate): (r: (StoreDisk, Report))
  {
    if fate.DiesBeforeCommit? then (d, Died)
    else if fate.DiesBeforeSeal? then (d.(file := Some(f)), Died)
    else (StoreDisk(Some(f), Some(JobsSha256(f))), Returned)
  }

  function StoreOpened(d: StoreDisk, fate: Fate): (r: (StoreDisk, Report))
  {
    if d.file.Some? then (d, if StoreSealed(d) then Returned else Raised)
    else Stored(d, JobsFile(map[], []), fate)
  }

  function JobPrepared(d: StoreDisk, key: string, fate: Fate): (r: (StoreDisk, Report))
  {
    if !StoreSealed(d) || key in d.file.value.jobs then (d, Raised)
    else Stored(d, d.file.value.(jobs := d.file.value.jobs[key := Ready]), fate)
  }

  function JobDone(d: StoreDisk, key: string, fate: Fate): (r: (StoreDisk, Report))
  {
    if !StoreSealed(d) || key !in d.file.value.jobs || d.file.value.jobs[key] != Ready then (d, Raised)
    else Stored(d, d.file.value.(jobs := d.file.value.jobs[key := Done]), fate)
  }

  function JobStateOf(d: StoreDisk, key: string): Option<JobState>
  {
    if d.file.Some? && key in d.file.value.jobs then Some(d.file.value.jobs[key]) else None
  }

  function Corrupted(d: StoreDisk, bytes: seq<byte>): (r: StoreDisk)
    requires d.file.Some?
  {
    d.(file := Some(d.file.value.(tail := d.file.value.tail + bytes)))
  }

  class StateStore {
    var file: Option<JobsFile>
    var seal: Option<JobsDigest>

    ghost function Value(): StoreDisk
      reads this
    {
      StoreDisk(file, seal)
    }

    constructor ()
      ensures Value() == StoreDisk(None, None)
    {
      file, seal := None, None;
    }

    method Write(f: JobsFile, fate: Fate) returns (report: Report)
      modifies this
      ensures (Value(), report) == Stored(old(Value()), f, fate)
    {
      if fate.DiesBeforeCommit? {
        return Died;
      }
      file := Some(f);
      if fate.DiesBeforeSeal? {
        return Died;
      }
      seal := Some(JobsSha256(f));
      return Returned;
    }

    method VerifySeal() returns (ok: bool)
      requires file.Some?
      ensures ok <==> StoreSealed(Value())
    {
      ok := seal.Some? && seal.value == JobsSha256(file.value);
    }

    method Open(fate: Fate) returns (report: Report)
      modifies this
      ensures (Value(), report) == StoreOpened(old(Value()), fate)
    {
      if file.Some? {
        var ok := VerifySeal();
        return if ok then Returned else Raised;
      }
      report := Write(JobsFile(map[], []), fate);
    }

    method PrepareJob(key: string, fate: Fate) returns (report: Report)
      requires file.Some?
      modifies this
      ensures (Value(), report) == JobPrepared(old(Value()), key, fate)
    {
      var ok := VerifySeal();
      if !ok || key in file.value.jobs {
        return Raised;
      }
      report := Write(file.value.(jobs := file.value.jobs[key := Ready]), fate);
    }

    method Corrupt(bytes: seq<byte>)
      requires file.Some?
      modifies this
      ensures Value() == Corrupted(old(Value()), bytes)
    {
      file := Some(file.value.(tail := file.value.tail + bytes));
    }

    method FinishJob(key: string, fate: Fate) returns (report: Report)
      requires file.Some?
      modifies this
      ensures (Value(), report) == JobDone(old(Value()), key, fate)
    {
      var ok := VerifySeal();
      if !ok || key !in file.value.jobs || file.value.jobs[key] != Ready {
        return Raised;
      }
      report := Write(file.value.(jobs := file.value.jobs[key := Done]), fate);
    }
  }

  /** A torn write behind a sealed database breaks the seal. */
  lemma CorruptionUnseals(d: StoreDisk, bytes: seq<byte>)
    requires StoreSealed(d) && bytes != []
    ensures !StoreSealed(Corrupted(d, bytes))
  {
    assert |d.file.value.tail + bytes| > |d.file.value.tail|;
  }

  // ---------------------------------------------------------------------------------------------
  // Rounds of crash and recovery
  // ---------------------------------------------------------------------------------------------

  /** One incarnation of the coordinator for one job, and where it dies. */
  datatype Round = Round(key: string, opening: Fate, preparing: Fate, diesReady: bool, diesApplied: bool, finishing: Fate)

  datatype Progress = Progress(store: StoreDisk, dispatched: seq<string>)

  /** From READY on: dispatch, then record the result. */
  function Dispatching(p: Progress, r: Round): (q: Progress)
  {
    if r.diesReady then p
    else
      var q := p.(dispatched := p.dispatched + [r.key]);
      if r.diesApplied then q else q.(store := JobDone(q.store, r.key, r.finishing).0)
  }

  function AfterRound(p: Progress, r: Round): (q: Progress)
  {
    var (store, report) := StoreOpened(p.store, r.opening);
    var ready := p.(store := store);
    if !report.Returned? then ready
    else
      match JobStateOf(store, r.key)
      case Some(Done) => ready
      case Some(Ready) => Dispatching(ready, r)
      case None =>
        var (prepared, report') := JobPrepared(store, r.key, r.preparing);
        if !report'.Returned? then ready.(store := prepared) else Dispatching(ready.(store := prepared), r)
  }

  function AfterRounds(p: Progress, rounds: seq<Round>): (q: Progress)
    decreases |rounds|
  {
    if rounds == [] then p else AfterRounds(AfterRound(p, rounds[0]), rounds[1..])
  }

  /** What the dispatches leave in a sink. */
  function SinkAfter(s: SinkState, dispatched: seq<string>, idempotent: bool): (r: SinkState)
    decreases |dispatched|
  {
    if dispatched == [] then s else SinkAfter(Applied(s, dispatched[0], NOOP, idempotent).0, dispatched[1..], idempotent)
  }

  const NOTHING := Progress(StoreDisk(None, None), [])
  const EMPTY_SINK := SinkState([], map[])

  function Keys(effects: seq<Effect>): (r: seq<string>)
    ensures |r| == |effects|
  {
    seq(|effects|, i requires 0 <= i < |effects| => effects[i].key)
  }

  function Occurrences(keys: seq<string>, key: string): (n: nat)
  {
    multiset(keys)[key]
  }

  // ---------------------------------------------------------------------------------------------
  // What holds after any number of rounds
  // ---------------------------------------------------------------------------------------------

  /** A job is dispatched only after it was prepared, and RESULT only after a dispatch. */
  ghost predicate Coordinated(p: Progress)
  {
    forall key ::
      && (JobStateOf(p.store, key) == None ==> key !in p.dispatched)
      && (JobStateOf(p.store, key) == Some(Done) ==> key in p.dispatched)
  }

  lemma RoundCoordinated(p: Progress, r: Round)
    requires Coordinated(p)
    ensures Coordinated(AfterRound(p, r))
    ensures p.dispatched <= AfterRound(p, r).dispatched
  {
    hide Dispatching;
    var ready := p.(store := StoreOpened(p.store, r.opening).0);
    if JobStateOf(ready.store, r.key) == Some(Ready) {
      DispatchCoordinated(ready, r);
    }
    var prepared := ready.(store := JobPrepared(ready.store, r.key, r.preparing).0);
    if JobStateOf(prepared.store, r.key) == Some(Ready) && Coordinated(prepared) {
      DispatchCoordinated(prepared, r);
    }
  }

  lemma DispatchCoordinated(p: Progress, r: Round)
    requires Coordinated(p) && JobStateOf(p.store, r.key) == Some(Ready)
    ensures Coordinated(Dispatching(p, r)) && p.dispatched <= Dispatching(p, r).dispatched
  {
  }

  /** No crash in the round. */
  predicate Undisturbed(r: Round)
  {
    r.opening.Survives? && r.preparing.Survives? && r.finishing.Survives? && !r.diesReady && !r.diesApplied
  }

  /** A round without a crash, on a sealed store or on none yet, ends with RESULT for its job and leaves
      every other job as it is. It dispatches once, or not at all if the job was done before. */
  lemma RoundCompletes(p: Progress, r: Round)
    requires Undisturbed(r) && (p.store.file.None? || StoreSealed(p.store))
    ensures var q := AfterRound(p, r);
            && StoreSealed(q.store)
            && JobStateOf(q.store, r.key) == Some(Done)
            && q.dispatched == p.dispatched + (if JobStateOf(p.store, r.key) == Some(Done) then [] else [r.key])
            && forall key :: key != r.key ==> JobStateOf(q.store, key) == JobStateOf(p.store, key)
  {
    var ready := p.(store := StoreOpened(p.store, r.opening).0);
    assert forall key :: JobStateOf(ready.store, key) == JobStateOf(p.store, key);
    if JobStateOf(ready.store, r.key) == None {
      var prepared := JobPrepared(ready.store, r.key, r.preparing).0;
      assert JobStateOf(prepared, r.key) == Some(Ready);
    }
  }

  lemma {:induction false} RoundsCoordinated(p: Progress, rounds: seq<Round>)
    requires Coordinated(p)
    ensures Coordinated(AfterRounds(p, rounds))
    decreases |rounds|
  {
    hide AfterRound, Coordinated;
    if rounds != [] {
      RoundCoordinated(p, rounds[0]);
      RoundsCoordinated(AfterRound(p, rounds[0]), rounds[1..]);
    }
  }

  lemma {:induction false} AppendOnlyKeys(s: SinkState, dispatched: seq<string>)
    ensures Keys(SinkAfter(s, dispatched, false).effects) == Keys(s.effects) + dispatched
    decreases |dispatched|
  {
    if dispatched != [] {
      AppendOnlyKeys(Applied(s, dispatched[0], NOOP, false).0, dispatched[1..]);
    }
  }

  /** The deduplicating sink has each key it remembers exactly once. */
  ghost predicate Deduplicated(s: SinkState)
  {
    forall key :: Occurrences(Keys(s.effects), key) == if key in s.dedup then 1 else 0
  }

  lemma ApplyDeduplicated(s: SinkState, key: string)
    requires Deduplicated(s)
    ensures Deduplicated(Applied(s, key, NOOP, true).0)
    ensures Applied(s, key, NOOP, true).0.dedup.Keys == s.dedup.Keys + {key}
  {
    var t := Applied(s, key, NOOP, true).0;
    if key !in s.dedup {
      assert Keys(t.effects) == Keys(s.effects) + [key];
    }
  }

  lemma {:induction false} DedupKeys(s: SinkState, dispatched: seq<string>)
    requires Deduplicated(s)
    ensures var t := SinkAfter(s, dispatched, true);
            Deduplicated(t) && forall key :: key in t.dedup <==> key in s.dedup || key in dispatched
    decreases |dispatched|
  {
    hide Applied, Deduplicated;
    if dispatched != [] {
      ApplyDeduplicated(s, dispatched[0]);
      DedupKeys(Applied(s, dispatched[0], NOOP, true).0, dispatched[1..]);
      assert forall key :: key in dispatched <==> key == dispatched[0] || key in dispatched[1..];
    }
  }

  lemma InitiallyCoordinated()
    ensures Coordinated(NOTHING)
  {
  }

  /** Append-only sink, any rounds of crash and recovery: it holds exactly the dispatches, in order, and
      for a job whose RESULT is recorded at least one. */
  lemma AppendOnlySink(rounds: seq<Round>, key: string)
    ensures var p := AfterRounds(NOTHING, rounds);
            var effects := SinkAfter(EMPTY_SINK, p.dispatched, false).effects;
            && Keys(effects) == p.dispatched
            && (JobStateOf(p.store, key) == Some(Done) ==> Occurrences(Keys(effects), key) >= 1)
            && (JobStateOf(p.store, key) == None ==> Occurrences(Keys(effects), key) == 0)
  {
    hide AfterRounds, SinkAfter;
    InitiallyCoordinated();
    RoundsCoordinated(NOTHING, rounds);
    var p := AfterRounds(NOTHING, rounds);
    AppendOnlyKeys(EMPTY_SINK, p.dispatched);
    assert Keys(EMPTY_SINK.effects) + p.dispatched == p.dispatched;
  }

  /** Deduplicating sink, any rounds: never more than one effect per key, and exactly one once the
      RESULT of the job is recorded. */
  lemma DeduplicatingSink(rounds: seq<Round>, key: string)
    ensures var p := AfterRounds(NOTHING, rounds);
            var effects := SinkAfter(EMPTY_SINK, p.dispatched, true).effects;
            && Occurrences(Keys(effects), key) == (if key in p.dispatched then 1 else 0)
            && (JobStateOf(p.store, key) == Some(Done) ==> Occurrences(Keys(effects), key) == 1)
            && (JobStateOf(p.store, key) == None ==> Occurrences(Keys(effects), key) == 0)
  {
    hide AfterRounds, SinkAfter;
    InitiallyCoordinated();
    RoundsCoordinated(NOTHING, rounds);
    DedupKeys(EMPTY_SINK, AfterRounds(NOTHING, rounds).dispatched);
  }

  /** A round that dies after the effect and before its result. */
  function LosesResult(key: string): Round
  {
    Round(key, Survives, Survives, false, true, Survives)
  }

  function Repeated(r: Round, n: nat): (s: seq<Round>)
    ensures |s| == n
  {
    seq(n, i => r)
  }

  lemma {:induction false} EveryRoundDispatches(p: Progress, key: string, n: nat)
    requires StoreSealed(p.store) && JobStateOf(p.store, key) == Some(Ready)
    ensures var q := AfterRounds(p, Repeated(LosesResult(key), n));
            q.store == p.store && q.dispatched == p.dispatched + Copies(key, n)
    decreases n
  {
    if n == 0 {
      assert p.dispatched + Copies(key, 0) == p.dispatched;
    } else {
      var r := LosesResult(key);
      var q := AfterRound(p, r);
      assert q == p.(dispatched := p.dispatched + [key]);
      assert Repeated(r, n)[1..] == Repeated(r, n - 1);
      EveryRoundDispatches(q, key, n - 1);
      assert p.dispatched + [key] + Copies(key, n - 1) == p.dispatched + Copies(key, n);
    }
  }

  function Copies(key: string, n: nat): (s: seq<string>)
    ensures |s| == n
  {
    seq(n, i => key)
  }

  /** Redispatching has no bound: n crashes between effect and result leave n effects in the
      append-only sink and one in the deduplicating sink, and the job is still READY. */
  lemma RedispatchIsUnbounded(key: string, n: nat)
    requires n > 0
    ensures var p := AfterRounds(NOTHING, Repeated(LosesResult(key), n));
            && JobStateOf(p.store, key) == Some(Ready)
            && |SinkAfter(EMPTY_SINK, p.dispatched, false).effects| == n
            && Occurrences(Keys(SinkAfter(EMPTY_SINK, p.dispatched, true).effects), key) == 1
  {
    hide SinkAfter;
    var r := LosesResult(key);
    var first := AfterRound(NOTHING, r);
    assert first.dispatched == [key];
    assert Repeated(r, n)[1..] == Repeated(r, n - 1);
    EveryRoundDispatches(first, key, n - 1);
    var p := AfterRounds(NOTHING, Repeated(r, n));
    assert p == AfterRounds(first, Repeated(r, n - 1));
    assert p.dispatched == [key] + Copies(key, n - 1);
    assert p.dispatched[0] == key;
    AppendOnlyKeys(EMPTY_SINK, p.dispatched);
    assert Keys(EMPTY_SINK.effects) + p.dispatched == p.dispatched;
    DedupKeys(EMPTY_SINK, p.dispatched);
  }

  /** Dying between the database and its seal stops the coordinator for good, too. */
  lemma {:induction false} UnsealedStoreStops(p: Progress, rounds: seq<Round>)
    requires p.store.file.Some? && !StoreSealed(p.store)
    ensures AfterRounds(p, rounds) == p
    decreases |rounds|
  {
    if rounds != [] {
      UnsealedStoreStops(p, rounds[1..]);
    }
  }

  // ---------------------------------------------------------------------------------------------
  // The scripts
  // ---------------------------------------------------------------------------------------------

  lemma SinkAfterOne(s: SinkState, key: string, idempotent: bool)
    ensures SinkAfter(s, [key], idempotent) == Applied(s, key, NOOP, idempotent).0
  {
    assert [key][1..] == [];
  }

  /** One incarnation of `run_coordinated` over the sink that knows keys. */
  method CoordinatedRound(store: StateStore, sink: EffectSink, idempotent: bool, r: Round, ghost before: seq<string>)
    returns (ghost after: seq<string>)
    modifies store, sink
    ensures Progress(store.Value(), after) == AfterRound(Progress(old(store.Value()), before), r)
    ensures before <= after && sink.Value() == SinkAfter(old(sink.Value()), after[|before|..], idempotent)
  {
    hide JobDone;
    after := before;
    var report := store.Open(r.opening);
    if !report.Returned? {
      return;
    }
    if r.key in store.file.value.jobs {
      if store.file.value.jobs[r.key] == Done {
        return;
      }
    } else {
      report := store.PrepareJob(r.key, r.preparing);
      if !report.Returned? {
        return;
      }
    }
    if r.diesReady {
      return;
    }
    var inserted := sink.Apply(r.key, NOOP, idempotent);
    after := before + [r.key];
    SinkAfterOne(old(sink.Value()), r.key, idempotent);
    assert after[|before|..] == [r.key];
    if r.diesApplied {
      return;
    }
    report := store.FinishJob(r.key, r.finishing);
  }

  lemma {:induction false} SinkAfterMore(s: SinkState, a: seq<string>, b: seq<string>, idempotent: bool)
    ensures SinkAfter(s, a + b, idempotent) == SinkAfter(SinkAfter(s, a, idempotent), b, idempotent)
    decreases |a|
  {
    hide Applied;
    if a == [] {
      assert a + b == b;
    } else {
      assert (a + b)[1..] == a[1..] + b;
      SinkAfterMore(Applied(s, a[0], NOOP, idempotent).0, a[1..], b, idempotent);
    }
  }

  /** Any number of incarnations over the sink that knows keys: in append-only mode every dispatch is an
      effect, in deduplicating mode every dispatched key has exactly one, and a job with its RESULT
      recorded was dispatched. */
  method CoordinatedRounds(rounds: seq<Round>, idempotent: bool)
    returns (store: StateStore, sink: EffectSink, ghost dispatched: seq<string>)
    ensures Progress(store.Value(), dispatched) == AfterRounds(NOTHING, rounds)
    ensures sink.Value() == SinkAfter(EMPTY_SINK, dispatched, idempotent)
    ensures !idempotent ==> Keys(sink.effects) == dispatched
    ensures idempotent ==> forall key :: Occurrences(Keys(sink.effects), key) == if key in dispatched then 1 else 0
    ensures forall key :: JobStateOf(store.Value(), key) == Some(Done) ==> Occurrences(Keys(sink.effects), key) >= 1
  {
    hide AfterRound, SinkAfter, AfterRounds;
    store := new StateStore();
    sink := new EffectSink();
    dispatched := [];
    SinkUntouched(EMPTY_SINK, idempotent);
    for i := 0 to |rounds|
      invariant fresh(store) && fresh(sink)
      invariant AfterRounds(Progress(store.Value(), dispatched), rounds[i..]) == AfterRounds(NOTHING, rounds)
      invariant sink.Value() == SinkAfter(EMPTY_SINK, dispatched, idempotent)
    {
      ghost var before := dispatched;
      RoundUnfolds(Progress(store.Value(), before), rounds[i..]);
      assert rounds[i..][1..] == rounds[i + 1..];
      dispatched := CoordinatedRound(store, sink, idempotent, rounds[i], before);
      assert dispatched == before + dispatched[|before|..];
      SinkAfterMore(EMPTY_SINK, before, dispatched[|before|..], idempotent);
    }
    RoundsEnd(Progress(store.Value(), dispatched), rounds[|rounds|..]);
    forall key
      ensures !idempotent ==> Keys(sink.effects) == dispatched
      ensures idempotent ==> Occurrences(Keys(sink.effects), key) == if key in dispatched then 1 else 0
      ensures JobStateOf(store.Value(), key) == Some(Done) ==> Occurrences(Keys(sink.effects), key) >= 1
    {
      if idempotent {
        DeduplicatingSink(rounds, key);
      } else {
        AppendOnlySink(rounds, key);
      }
    }
    if !idempotent {
      AppendOnlySink(rounds, "");
    }
  }

  lemma SinkUntouched(s: SinkState, idempotent: bool)
    ensures SinkAfter(s, [], idempotent) == s
  {
  }

  lemma RoundUnfolds(p: Progress, rounds: seq<Round>)
    requires rounds != []
    ensures AfterRounds(p, rounds) == AfterRounds(AfterRound(p, rounds[0]), rounds[1..])
  {
    hide AfterRound;
  }

  lemma RoundsEnd(p: Progress, rounds: seq<Round>)
    requires rounds == []
    ensures AfterRounds(p, rounds) == p
  {
  }

  /** The same incarnation over the sink that knows no keys: it counts one more effect per dispatch. */
  method BlindRound(store: StateStore, sink: NonCooperativeSink, r: Round, ghost before: seq<string>)
    returns (ghost after: seq<string>)
    modifies store, sink
    ensures Progress(store.Value(), after) == AfterRound(Progress(old(store.Value()), before), r)
    ensures before <= after && sink.effects == old(sink.effects) + Copies(NOOP, |after| - |before|)
  {
    hide JobDone;
    after := before;
    var report := store.Open(r.opening);
    if !report.Returned? {
      return;
    }
    if r.key in store.file.value.jobs {
      if store.file.value.jobs[r.key] == Done {
        return;
      }
    } else {
      report := store.PrepareJob(r.key, r.preparing);
      if !report.Returned? {
        return;
      }
    }
    if r.diesReady {
      return;
    }
    sink.Apply(NOOP);
    after := before + [r.key];
    if r.diesApplied {
      return;
    }
    report := store.FinishJob(r.key, r.finishing);
  }

  /** Any number of incarnations of the coordinator over the blind sink: as many effects as dispatches,
      and at least one once the RESULT of a job is recorded. */
  method BlindRounds(rounds: seq<Round>) returns (store: StateStore, sink: NonCooperativeSink, ghost dispatched: seq<string>)
    ensures Progress(store.Value(), dispatched) == AfterRounds(NOTHING, rounds)
    ensures sink.effects == Copies(NOOP, |dispatched|)
    ensures forall key :: JobStateOf(store.Value(), key) == Some(Done) ==> |sink.effects| >= 1
  {
    hide AfterRound;
    store := new StateStore();
    sink := new NonCooperativeSink();
    dispatched := [];
    for i := 0 to |rounds|
      invariant fresh(store) && fresh(sink)
      invariant AfterRounds(Progress(store.Value(), dispatched), rounds[i..]) == AfterRounds(NOTHING, rounds)
      invariant sink.effects == Copies(NOOP, |dispatched|)
    {
      assert rounds[i..][1..] == rounds[i + 1..];
      dispatched := BlindRound(store, sink, rounds[i], dispatched);
    }
    assert rounds[|rounds|..] == [];
    InitiallyCoordinated();
    RoundsCoordinated(NOTHING, rounds);
  }

  /** One incarnation of `run_oasi`, and where it dies. */
  datatype Plan = Plan(
    birth: Birth, preparing: Fate, consuming: Fate, diesArmed: bool, diesApplied: bool, recording: Fate, ending: Fate)

  const RECEIPT := "sha256(NOOP)"

  /** The broker's one-shot script. Each incarnation acts on what recovery reports, and is a schedule of
      the transition system whose safety is proved in BrokerSafety. */
  method RunOasi(storage: Storage, sink: NonCooperativeSink, plan: Plan) returns (ghost actions: seq<B.Action>)
    modifies storage, sink
    ensures B.Run(B.System(old(storage.Value()), old(|sink.effects|), B.Down), actions)
            == B.System(storage.Value(), |sink.effects|, B.Down)
  {
    hide Perform, Opened;
    ghost var start := B.System(storage.Value(), |sink.effects|, B.Down);
    var ledger := new BrokerLedger(storage);
    var report := ledger.Open(plan.birth);
    actions := B.Then(start, [], B.Open(plan.birth));
    if !report.Returned? {
      return;
    }
    OpenedHasFile(start.disk, plan.birth);
    var recovery := ledger.Recovery();
    if recovery.EmitTerminalOnly? {
      report := ledger.MarkTerminal(plan.ending);
      actions := B.Then(start, actions, B.Call(Terminal, plan.ending));
    } else if recovery.NoAction? {
      report := ledger.PrepareAttempt(plan.preparing);
      actions := B.Then(start, actions, B.Call(Prepare, plan.preparing));
      PerformKeepsFile();
      if report.Returned? {
        report := ledger.ConsumeAttempt(plan.consuming);
        actions := B.Then(start, actions, B.Call(Consume, plan.consuming));
        if report.Returned? && !plan.diesArmed {
          sink.Apply(NOOP);
          actions := B.Then(start, actions, B.ApplyEffect);
          if !plan.diesApplied {
            report := ledger.RecordReceipt(RECEIPT, plan.recording);
            actions := B.Then(start, actions, B.Call(RecordResult(RECEIPT), plan.recording));
            if report.Returned? {
              report := ledger.MarkTerminal(plan.ending);
              actions := B.Then(start, actions, B.Call(Terminal, plan.ending));
            }
          }
        }
      }
    }
    actions := B.Then(start, actions, B.Crash);
  }

  lemma OpenedHasFile(d: Disk, birth: Birth)
    requires Opened(d, birth).1.Returned?
    ensures Opened(d, birth).0.file.Some?
  {
  }

  lemma PerformKeepsFile()
    ensures forall d: Disk, op, fate | d.file.Some? :: Perform(d, op, fate).0.file.Some?
  {
  }

  /** Any number of incarnations of the broker, each dying wherever it does: at most one effect, and
      exactly one once the result is on disk. */
  method Incarnations(plans: seq<Plan>) returns (storage: Storage, sink: NonCooperativeSink)
    ensures |sink.effects| <= 1
    ensures storage.file.Some? && RecoveryFor(storage.file.value.attempt).EmitTerminalOnly? ==> |sink.effects| == 1
    ensures storage.file.Some? && RecoveryFor(storage.file.value.attempt).CompleteNoRedispatch? ==> |sink.effects| == 1
    ensures storage.file.Some? ==> Verifies(storage.file.value)
  {
    hide B.Run, B.Next, Verifies;
    storage := new Storage();
    sink := new NonCooperativeSink();
    ghost var all: seq<B.Action> := [];
    B.RunNothing(B.INITIAL);
    for i := 0 to |plans|
      invariant fresh(storage) && fresh(sink)
      invariant B.Run(B.INITIAL, all) == B.System(storage.Value(), |sink.effects|, B.Down)
    {
      ghost var more := RunOasi(storage, sink, plans[i]);
      B.RunConcat(B.INITIAL, all, more);
      all := all + more;
    }
    B.AtMostOnce(all);
    B.LedgerVerifies(all);
  }
}
