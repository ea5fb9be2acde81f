/** The append-only ledger writer (src/ledger.rs, `Ledger`) and its match with the verifier. The file
    is the sequence of bytes written; writes themselves do not fail here. */
module LedgerWriter {
  import opened Words
  import opened Utf8
  import opened Authority
  import opened LedgerEntries
  import opened LedgerLines
  import opened LedgerChain
  import opened LedgerVerifier

  /** The event entry that `record` appends to a log. */
  function RecordedEntry(log: seq<LedgerEntry>, event: string, detail: string, decision: Decision,
                         body: BodyState, lease: Option<SafetyLease>): (r: Result<LedgerEntry>)
  {
    if |log| >= 0xffff_ffff_ffff_ffff then Err
    else
      MakeEntry(LedgerSnapshot(Event, |log| + 1, event, detail, decision, body, lease, None, None, LastHash(log, 0)))
  }

  /** The seal that `seal` appends to a log of events. */
  function SealedEntry(log: seq<LedgerEntry>, body: BodyState, lease: Option<SafetyLease>): (r: Result<LedgerEntry>)
  {
    if log == [] || |log| >= 0xffff_ffff_ffff_ffff then Err
    else
      var prev := LastHash(log, 0);
      MakeEntry(LedgerSnapshot(Seal, |log| + 1, SEAL_EVENT, SEAL_DETAIL, Allow, body, lease, Some(|log|), Some(prev), prev))
  }

  /** A log that the writer may still append to. */
  predicate OpenLog(log: seq<LedgerEntry>)
  {
    ChainFrom(log, 0, 0) && AllEvents(log)
  }

  lemma RecordedKeepsChain(log: seq<LedgerEntry>, event: string, detail: string, decision: Decision,
                           body: BodyState, lease: Option<SafetyLease>)
    requires OpenLog(log)
    ensures var r := RecordedEntry(log, event, detail, decision, body, lease);
            && (r.Ok? <==> |log| < 0xffff_ffff_ffff_ffff && |Encode(event)| <= MAX_EVENT_BYTES
                           && |Encode(detail)| <= MAX_DETAIL_BYTES)
            && (r.Ok? ==> OpenLog(log + [r.value]) && r.value.event == event
                          && r.value.decision == decision.Code())
  {
    hide Encode, ExpectedHash, LedgerEntry.WellFormed, ChainFrom;
    if |log| < 0xffff_ffff_ffff_ffff {
      var s := LedgerSnapshot(Event, |log| + 1, event, detail, decision, body, lease, None, None, LastHash(log, 0));
      MakeEntryFits(s);
      if MakeEntry(s).Ok? {
        var e := MakeEntry(s).value;
        UnsignedFields(s, e);
        ChainAppend(log, e, 0, 0);
      }
    }
  }

  lemma UnsignedFields(s: LedgerSnapshot, e: LedgerEntry)
    requires e.Unhashed() == Unsigned(s)
    ensures e.kind == s.kind && e.seqNo == s.seqNo && e.prevHash == s.prevHash && e.event == s.event
    ensures e.detail == s.detail && e.decision == s.decision.Code()
    ensures e.sealedEventCount == s.sealedEventCount && e.sealedEventHash == s.sealedEventHash
  {
    assert e == e.Unhashed().(hash := e.hash);
  }

  lemma SealedCompletesChain(log: seq<LedgerEntry>, body: BodyState, lease: Option<SafetyLease>)
    requires OpenLog(log)
    ensures SealedEntry(log, body, lease).Ok? <==> log != [] && |log| < 0xffff_ffff_ffff_ffff
    ensures SealedEntry(log, body, lease).Ok? ==> SealedChain(log + [SealedEntry(log, body, lease).value])
  {
    hide Encode, ExpectedHash, LedgerEntry.WellFormed, ChainFrom;
    EncodeLength(SEAL_EVENT);
    EncodeLength(SEAL_DETAIL);
    if log != [] && |log| < 0xffff_ffff_ffff_ffff {
      var prev := LastHash(log, 0);
      var s := LedgerSnapshot(Seal, |log| + 1, SEAL_EVENT, SEAL_DETAIL, Allow, body, lease, Some(|log|), Some(prev), prev);
      MakeEntryFits(s);
      var e := MakeEntry(s).value;
      UnsignedFields(s, e);
      ChainAppend(log, e, 0, 0);
      var es := log + [e];
      assert es[..|es| - 1] == log && es[|es| - 1] == e;
    }
  }

  class Ledger {
    var file: seq<byte>
    var seqNo: u64
    var hash: u64
    var eventEntries: u64
    var isSealed: bool
    /** The entries written so far. */
    ghost var log: seq<LedgerEntry>

    ghost predicate Valid()
      reads this
    {
      && file == Render(log)
      && seqNo == |log|
      && hash == LastHash(log, 0)
      && (if isSealed then SealedChain(log) && eventEntries == |log| - 1
          else OpenLog(log) && eventEntries == |log|)
    }

    constructor ()
      ensures Valid() && !isSealed && log == []
    {
      file, seqNo, hash, eventEntries, isSealed := [], 0, 0, 0, false;
      log := [];
    }

    method Record(event: string, detail: string, decision: Decision, body: BodyState,
                  lease: Option<SafetyLease>) returns (ok: bool)
      requires Valid()
      modifies this
      ensures Valid() && isSealed == old(isSealed)
      ensures var r := RecordedEntry(old(log), event, detail, decision, body, lease);
              ok == (!isSealed && r.Ok?) && log == if ok then old(log) + [r.value] else old(log)
    {
      hide Encode, ExpectedHash, LedgerEntry.WellFormed, ChainFrom, WriteJson, Render, MakeEntry;
      if isSealed || seqNo == 0xffff_ffff_ffff_ffff || eventEntries == 0xffff_ffff_ffff_ffff {
        return false;
      }
      var entry := MakeEntry(LedgerSnapshot(Event, seqNo + 1, event, detail, decision, body, lease, None, None, hash));
      if entry.Err? {
        return false;
      }
      RecordedKeepsChain(log, event, detail, decision, body, lease);
      RenderAppend(log, entry.value);
      file := file + WriteJson(entry.value);
      seqNo := seqNo + 1;
      eventEntries := eventEntries + 1;
      hash := entry.value.hash;
      log := log + [entry.value];
      return true;
    }

    method SealLedger(body: BodyState, lease: Option<SafetyLease>) returns (ok: bool)
      requires Valid()
      modifies this
      ensures Valid()
      ensures var r := SealedEntry(old(log), body, lease);
              && ok == (!old(isSealed) && r.Ok?)
              && log == (if ok then old(log) + [r.value] else old(log))
              && isSealed == (old(isSealed) || ok)
      ensures ok ==> Verification(file) == Report(|log|, |log| - 1, hash, [])
    {
      hide Encode, ExpectedHash, LedgerEntry.WellFormed, ChainFrom, WriteJson, Render, MakeEntry, Verification;
      if isSealed || eventEntries == 0 || seqNo == 0xffff_ffff_ffff_ffff {
        return false;
      }
      SealedCompletesChain(log, body, lease);
      var entry := MakeEntry(LedgerSnapshot(Seal, seqNo + 1, SEAL_EVENT, SEAL_DETAIL, Allow, body, lease,
                                            Some(eventEntries), Some(hash), hash));
      if entry.Err? {
        return false;
      }
      RenderAppend(log, entry.value);
      file := file + WriteJson(entry.value);
      seqNo := seqNo + 1;
      hash := entry.value.hash;
      isSealed := true;
      log := log + [entry.value];
      AcceptedReport(log);
      return true;
    }
  }

  // ---------------------------------------------------------------------------------------------
  // What the writer can and cannot produce
  // ---------------------------------------------------------------------------------------------

  datatype RecordCall = RecordCall(
    event: string, detail: string, decision: Decision, body: BodyState, lease: Option<SafetyLease>)

  /** The log after a run of `record` calls, all of which succeed. */
  function RunRecords(calls: seq<RecordCall>): (r: Result<seq<LedgerEntry>>)
  {
    if calls == [] then Ok([])
    else
      var last := calls[|calls| - 1];
      var log :- RunRecords(calls[..|calls| - 1]);
      var e :- RecordedEntry(log, last.event, last.detail, last.decision, last.body, last.lease);
      Ok(log + [e])
  }

  function RunWriter(calls: seq<RecordCall>, body: BodyState, lease: Option<SafetyLease>): (r: Result<seq<LedgerEntry>>)
  {
    var log :- RunRecords(calls);
    var e :- SealedEntry(log, body, lease);
    Ok(log + [e])
  }

  lemma {:induction false} RunRecordsOpen(calls: seq<RecordCall>)
    requires RunRecords(calls).Ok?
    ensures OpenLog(RunRecords(calls).value) && |RunRecords(calls).value| == |calls|
    decreases |calls|
  {
    hide RecordedEntry, Linked;
    if calls != [] {
      var last := calls[|calls| - 1];
      RunRecordsOpen(calls[..|calls| - 1]);
      RecordedKeepsChain(RunRecords(calls[..|calls| - 1]).value, last.event, last.detail, last.decision, last.body,
            last.lease);
    }
  }

  function DecisionOf(code: byte): (d: Decision)
    requires code <= 10
    ensures d.Code() == code
  {
    if code == 0 then Allow
    else if code == 1 then BlockQuarantine
    else if code == 2 then BlockBodyUid
    else if code == 3 then BlockEpoch
    else if code == 4 then BlockGeneration
    else if code == 5 then BlockCertificate
    else if code == 6 then BlockExpired
    else if code == 7 then BlockPrincipal
    else if code == 8 then BlockResource
    else if code == 9 then BlockAction
    else BlockNoLease
  }

  function BodyOf(e: LedgerEntry): BodyState
  {
    BodyState(e.bodyUid, e.epoch, e.generation, e.certificate, e.quarantined)
  }

  function LeaseOf(e: LedgerEntry): Option<SafetyLease>
    requires e.WellFormed()
  {
    if !e.leasePresent then None
    else
      assert forall i :: 0 <= i < 8 ==> e.LeaseFields()[i].Some?;
      assert e.LeaseFields()[0].Some? && e.LeaseFields()[1].Some? && e.LeaseFields()[2].Some? && e.LeaseFields()[3].Some?;
      assert e.LeaseFields()[4].Some? && e.LeaseFields()[5].Some? && e.LeaseFields()[6].Some? && e.LeaseFields()[7].Some?;
      Some(SafetyLease(e.leaseBodyUid.value, e.leaseEpoch.value, e.leaseGeneration.value, e.leaseCertificate.value,
                       e.leaseValidUntilNs.value, e.leasePrincipalId.value, e.leaseResourceId.value,
                       e.leaseActionId.value))
  }

  function SnapshotOf(e: LedgerEntry): LedgerSnapshot
    requires e.WellFormed()
  {
    LedgerSnapshot(e.kind, e.seqNo, e.event, e.detail, DecisionOf(e.decision), BodyOf(e), LeaseOf(e),
                   e.sealedEventCount, e.sealedEventHash, e.prevHash)
  }

  lemma UnsignedOfSnapshot(e: LedgerEntry)
    requires e.WellFormed()
    ensures Unsigned(SnapshotOf(e)) == e.Unhashed()
  {
    var l := e.LeaseFields();
    assert forall i :: 0 <= i < 8 ==> l[i].Some? == e.leasePresent;
    assert l[0] == e.leaseBodyUid && l[1] == e.leaseEpoch && l[2] == e.leaseGeneration && l[3] == e.leaseCertificate;
    assert l[4] == e.leaseValidUntilNs && l[5] == e.leasePrincipalId && l[6] == e.leaseResourceId && l[7] == e.leaseActionId;
    assert e == e.Unhashed().(hash := e.hash);
  }

  /** Any linked entry is what the writer builds from its own snapshot. */
  lemma LinkedIsMade(e: LedgerEntry, n: nat, prev: u64)
    requires Linked(e, n, prev)
    ensures MakeEntry(SnapshotOf(e)) == Ok(e)
  {
    hide ExpectedHash;
    UnsignedOfSnapshot(e);
    assert e == e.Unhashed().(hash := e.hash);
    HashIgnoresHash(e.Unhashed(), e.hash);
    LinkedFits(e, n, prev);
  }

  lemma LinkedFits(e: LedgerEntry, n: nat, prev: u64)
    requires Linked(e, n, prev)
    ensures e.TextFits()
  {
    hide CanonicalBytes, Encode;
  }

  lemma {:induction false} OpenLogIsWritten(es: seq<LedgerEntry>) returns (calls: seq<RecordCall>)
    requires OpenLog(es) && |es| <= 0xffff_ffff_ffff_ffff
    ensures RunRecords(calls) == Ok(es)
    decreases |es|
  {
    hide Linked, MakeEntry, LeaseOf;
    if es == [] {
      calls := [];
    } else {
      var front, e := es[..|es| - 1], es[|es| - 1];
      assert es == front + [e];
      ChainAppend(front, e, 0, 0);
      var before := OpenLogIsWritten(front);
      LinkedParts(e, |es|, LastHash(front, 0));
      LinkedIsMade(e, |es|, LastHash(front, 0));
      var s := SnapshotOf(e);
      calls := before + [RecordCall(e.event, e.detail, s.decision, s.body, s.lease)];
      assert calls[..|calls| - 1] == before;
    }
  }

  lemma LinkedParts(e: LedgerEntry, n: nat, prev: u64)
    requires Linked(e, n, prev)
    ensures e.WellFormed() && e.seqNo == Saturate(n) && e.prevHash == prev
    ensures e.kind.Event? ==> e.sealedEventCount == None && e.sealedEventHash == None
  {
  }

  /** Writer and verifier match: below 2^64 entries, the sealed chains the verifier accepts are the
      runs of at least one `record` followed by `seal`, and the seal-only file, which `seal` refuses
      to write. */
  lemma WriterLanguage(es: seq<LedgerEntry>)
    requires |es| <= 0xffff_ffff_ffff_ffff
    ensures (exists calls, body, lease :: RunWriter(calls, body, lease) == Ok(es)) <==> SealedChain(es) && |es| >= 2
  {
    hide SealedChain, RunWriter;
    if SealedChain(es) && |es| >= 2 {
      var calls, body, lease := ChainIsWritten(es);
    }
    if calls, body, lease :| RunWriter(calls, body, lease) == Ok(es) {
      WrittenIsChain(calls, body, lease);
    }
  }

  lemma WrittenIsChain(calls: seq<RecordCall>, body: BodyState, lease: Option<SafetyLease>)
    requires RunWriter(calls, body, lease).Ok?
    ensures SealedChain(RunWriter(calls, body, lease).value) && |RunWriter(calls, body, lease).value| == |calls| + 1 >= 2
  {
    hide SealedEntry, Linked, SealFor, RecordedEntry;
    RunRecordsOpen(calls);
    SealedCompletesChain(RunRecords(calls).value, body, lease);
  }

  lemma ChainIsWritten(es: seq<LedgerEntry>) returns (calls: seq<RecordCall>, body: BodyState, lease: Option<SafetyLease>)
    requires SealedChain(es) && 2 <= |es| <= 0xffff_ffff_ffff_ffff
    ensures RunWriter(calls, body, lease) == Ok(es)
  {
    hide Linked, MakeEntry, LeaseOf, RunRecords;
    var front, e := es[..|es| - 1], es[|es| - 1];
    assert es == front + [e];
    ChainAppend(front, e, 0, 0);
    calls := OpenLogIsWritten(front);
    LinkedParts(e, |es|, LastHash(front, 0));
    LinkedIsMade(e, |es|, LastHash(front, 0));
    var s := SnapshotOf(e);
    body, lease := s.body, s.lease;
    assert s == LedgerSnapshot(Seal, |front| + 1, SEAL_EVENT, SEAL_DETAIL, Allow, body, lease,
                               Some(|front|), Some(LastHash(front, 0)), LastHash(front, 0));
  }

  /** The one accepted file no writer produces: a lone seal. */
  lemma SealOnlyIsAccepted(body: BodyState, lease: Option<SafetyLease>) returns (e: LedgerEntry)
    ensures SealedChain([e]) && Verification(Render([e])).Passed()
  {
    hide Encode, ExpectedHash, LedgerEntry.WellFormed;
    var s := LedgerSnapshot(Seal, 1, SEAL_EVENT, SEAL_DETAIL, Allow, body, lease, Some(0), Some(0), 0);
    EncodeLength(SEAL_EVENT);
    EncodeLength(SEAL_DETAIL);
    MakeEntryFits(s);
    e := MakeEntry(s).value;
    UnsignedFields(s, e);
    ChainAppend([], e, 0, 0);
    assert [] + [e] == [e];
    AcceptedReport([e]);
  }
}
