/** What the sealed chain protects: torn files, forged histories and altered verdicts. */
module LedgerIntegrity {
  import opened Words
  import opened Utf8
  import opened Lines
  import opened LedgerEntries
  import opened LedgerLines
  import opened LedgerChain
  import opened LedgerVerifier
  import opened LedgerWriter
  import Fnv

  // ---------------------------------------------------------------------------------------------
  // Torn files
  // ---------------------------------------------------------------------------------------------

  /** Anything after an accepted ledger spoils it. */
  lemma AcceptedThenMore(file: seq<byte>, more: seq<byte>)
    requires Verification(file).Passed() && more != []
    ensures !Verification(file + more).Passed()
  {
    hide VerifyFrom, Render, SealedFrom, Linked, SealFor;
    var es := AcceptedEntries(file);
    ChainVerifies(es, more, START, 0);
    AfterSealOnlyErrors(more, State(Saturate(|es|), Saturate(|es| - 1), es[|es| - 1].hash, true, []));
  }

  /** No accepted ledger is a proper prefix of another. */
  lemma NoAcceptedProperPrefix(prefix: seq<byte>, file: seq<byte>)
    requires prefix < file && Verification(file).Passed()
    ensures !Verification(prefix).Passed()
  {
    hide Verification;
    assert prefix + file[|prefix|..] == file;
    if Verification(prefix).Passed() {
      AcceptedThenMore(prefix, file[|prefix|..]);
    }
  }

  /** An accepted ledger ends with a newline. */
  lemma AcceptedEndsWithLf(file: seq<byte>)
    requires Verification(file).Passed()
    ensures file != [] && file[|file| - 1] == LF
  {
    hide Line, Verification, ChainFrom, SealFor, Render;
    var es := AcceptedEntries(file);
    var front, e := es[..|es| - 1], es[|es| - 1];
    assert es == front + [e];
    RenderAppend(front, e);
  }

  /** The length of the prefix up to and including the last newline, 0 if there is none. */
  function LastLineEnd(s: seq<byte>): (n: nat)
    ensures n <= |s| && (n > 0 ==> s[n - 1] == LF)
    ensures forall i :: n <= i < |s| ==> s[i] != LF
  {
    if s == [] then 0 else if s[|s| - 1] == LF then |s| else LastLineEnd(s[..|s| - 1])
  }

  /** Recovery as a function of the file: what is left, or nothing if it fails. */
  function Recovered(file: seq<byte>): (r: Result<seq<byte>>)
  {
    var n := LastLineEnd(file);
    if n > 0 && Verification(file[..n]).Passed() then Ok(file[..n]) else Err
  }

  /** The file a path names. */
  class LedgerFile {
    var bytes: seq<byte>

    constructor (bytes: seq<byte>)
      ensures this.bytes == bytes
    {
      this.bytes := bytes;
    }

    /** `recover_valid_prefix`: truncate to the last complete line if that much is a verified ledger. */
    method RecoverValidPrefix() returns (r: Result<Report>)
      modifies this
      ensures var n := LastLineEnd(old(bytes));
              && (r.Ok? <==> n > 0 && Verification(old(bytes)[..n]).Passed())
              && (r.Ok? ==> r.value == Verification(bytes) && bytes == old(bytes)[..n])
              && (r.Err? ==> bytes == old(bytes))
      ensures Recovered(old(bytes)) == if r.Ok? then Ok(bytes) else Err
    {
      hide Verification;
      var n := |bytes|;
      while n > 0 && bytes[n - 1] != LF
        invariant 0 <= n <= |bytes| && LastLineEnd(bytes) == LastLineEnd(bytes[..n])
      {
        assert bytes[..n][..n - 1] == bytes[..n - 1];
        n := n - 1;
      }
      assert LastLineEnd(bytes[..n]) == n;
      if n == 0 {
        return Err;
      }
      var report := VerifyReader(bytes[..n]);
      if !report.Passed() {
        return Err;
      }
      if n != |bytes| {
        bytes := bytes[..n];
      } else {
        assert bytes == bytes[..n];
      }
      return Ok(report);
    }
  }

  /** A torn append after an accepted ledger is undone exactly. */
  lemma RecoverTornAppend(file: seq<byte>, fragment: seq<byte>)
    requires Verification(file).Passed() && LF !in fragment
    ensures Recovered(file + fragment) == Ok(file)
  {
    hide Verification;
    AcceptedEndsWithLf(file);
    var s := file + fragment;
    assert forall i :: |file| <= i < |s| ==> s[i] in fragment;
    assert s[|file| - 1] == LF;
    assert LastLineEnd(s) == |file|;
    assert s[..|file|] == file;
  }

  /** A truncated ledger is never promoted: no proper prefix of an accepted file recovers. */
  lemma RecoverRejectsTruncation(prefix: seq<byte>, file: seq<byte>)
    requires prefix < file && Verification(file).Passed()
    ensures Recovered(prefix) == Err
  {
    hide Verification;
    var n := LastLineEnd(prefix);
    assert prefix[..n] < file;
    NoAcceptedProperPrefix(prefix[..n], file);
  }

  /** Recovering twice is recovering once, and recovery yields exactly an accepted prefix. */
  lemma RecoverIdempotent(file: seq<byte>)
    ensures Recovered(file).Ok? ==> Verification(Recovered(file).value).Passed() && Recovered(file).value <= file
    ensures Recovered(file).Ok? ==> Recovered(Recovered(file).value) == Recovered(file)
  {
    hide Verification;
    if Recovered(file).Ok? {
      RecoverTornAppend(Recovered(file).value, []);
      assert Recovered(file).value + [] == Recovered(file).value;
    }
  }

  // ---------------------------------------------------------------------------------------------
  // Binding
  // ---------------------------------------------------------------------------------------------

  /** Two entries with different canonical encodings and the same stored hash. */
  predicate Collision(d: LedgerEntry, e: LedgerEntry)
  {
    Encodable(d) && Encodable(e) && CanonicalBytes(d) != CanonicalBytes(e) && d.hash == e.hash
  }

  lemma EqualHashLinks(d: LedgerEntry, m: nat, p: u64, e: LedgerEntry, n: nat, q: u64)
    requires Linked(d, m, p) && Linked(e, n, q) && d.hash == e.hash
    ensures Collision(d, e) || (d == e && Saturate(m) == Saturate(n) && p == q)
  {
    hide Encode, LedgerEntry.WellFormed, Encodable;
    assert Encodable(d) && Encodable(e);
    if CanonicalBytes(d) == CanonicalBytes(e) {
      CanonicalInjective(d, e);
      assert d == d.Unhashed().(hash := d.hash) && e == e.Unhashed().(hash := e.hash);
    }
  }

  /** Walking back along two chains with the same last hash: they agree, or a collision shows. */
  lemma {:induction false} SameHashSameChain(ds: seq<LedgerEntry>, es: seq<LedgerEntry>)
    requires ChainFrom(ds, 0, 0) && ChainFrom(es, 0, 0) && ds != [] && es != []
    requires LastHash(ds, 0) == LastHash(es, 0)
    ensures ds == es || exists i, j :: 0 <= i < |ds| && 0 <= j < |es| && Collision(ds[i], es[j])
    decreases |ds|
  {
    hide Linked, Collision, ChainFrom;
    var d, e := ds[|ds| - 1], es[|es| - 1];
    var front, front' := ds[..|ds| - 1], es[..|es| - 1];
    assert ds == front + [d] && es == front' + [e];
    ChainAppend(front, d, 0, 0);
    ChainAppend(front', e, 0, 0);
    EqualHashLinks(d, |ds|, LastHash(front, 0), e, |es|, LastHash(front', 0));
    if !Collision(d, e) {
      assert Saturate(|ds|) == Saturate(|es|);
      if front != [] && front' != [] {
        SameHashSameChain(front, front');
        if i, j :| 0 <= i < |front| && 0 <= j < |front'| && Collision(front[i], front'[j]) {
          assert Collision(ds[i], es[j]);
        }
      }
    }
  }

  /** Chain binding: two accepted files with the same final hash are identical, or
      they contain two entries with different encodings and the same hash. */
  lemma FinalHashBindsFile(f: seq<byte>, g: seq<byte>)
    requires Verification(f).Passed() && Verification(g).Passed()
    requires Verification(f).finalHash == Verification(g).finalHash
    ensures f == g || exists ds, es, i, j :: SealedChain(ds) && f == Render(ds) && SealedChain(es) && g == Render(es)
                                             && 0 <= i < |ds| && 0 <= j < |es| && Collision(ds[i], es[j])
  {
    hide Verification, Render, Collision, SealFor, Linked;
    var ds := AcceptedEntries(f);
    var es := AcceptedEntries(g);
    AcceptedReport(ds);
    AcceptedReport(es);
    SameHashSameChain(ds, es);
  }

  lemma {:induction false} RenderLength(es: seq<LedgerEntry>)
    ensures |es| <= |Render(es)|
  {
    hide Line;
    if es != [] {
      RenderLength(es[1..]);
    }
  }

  // ---------------------------------------------------------------------------------------------
  // Altered verdicts
  // ---------------------------------------------------------------------------------------------

  lemma {:induction false} RenderInjective(ds: seq<LedgerEntry>, es: seq<LedgerEntry>)
    requires Render(ds) == Render(es)
    ensures ds == es
    decreases |ds|
  {
    hide WriteJson;
    if ds != [] && es != [] {
      OwnLineLength(ds[0], Render(ds[1..]));
      OwnLineLength(es[0], Render(es[1..]));
      var n := |WriteJson(ds[0])|;
      assert Render(ds)[..n] == WriteJson(ds[0]) && Render(es)[..n] == WriteJson(es[0]);
      assert Render(ds)[n..] == Render(ds[1..]) && Render(es)[n..] == Render(es[1..]);
      WriteJsonInjective(ds[0], es[0]);
      RenderInjective(ds[1..], es[1..]);
      assert ds == [ds[0]] + ds[1..] && es == [es[0]] + es[1..];
    } else {
      RenderLength(ds);
      RenderLength(es);
      assert |Render(ds)| == 0 ==> ds == [] && es == [];
      assert Render([]) == [];
    }
  }

  /** Some run of the writer, at least one `record` and a `seal`, leaves this file. */
  ghost predicate Written(file: seq<byte>)
  {
    exists calls, body, lease ::
      RunWriter(calls, body, lease).Ok? && Render(RunWriter(calls, body, lease).value) == file
  }

  /** Below 2^64 entries the lone seal is the only accepted ledger that no run of the writer leaves. */
  lemma OnlyLoneSealIsUnwritten(es: seq<LedgerEntry>)
    requires SealedChain(es) && |es| <= 0xffff_ffff_ffff_ffff
    ensures Verification(Render(es)).Passed()
    ensures Written(Render(es)) <==> !(|es| == 1 && es[0].kind.Seal?)
  {
    hide RunWriter, Verification, Render, Linked;
    AcceptedReport(es);
    WriterLanguage(es);
    if calls, body, lease :| RunWriter(calls, body, lease) == Ok(es) {
      assert Written(Render(es));
    }
    if calls, body, lease :| RunWriter(calls, body, lease).Ok? && Render(RunWriter(calls, body, lease).value) == Render(es) {
      RenderInjective(RunWriter(calls, body, lease).value, es);
      assert RunWriter(calls, body, lease) == Ok(es);
    }
  }

  /** Two entries that differ in the decision, or in the quarantine flag, and in nothing else. */
  predicate VerdictAltered(e: LedgerEntry, e': LedgerEntry)
  {
    e != e' && (e' == e.(decision := e'.decision) || e' == e.(quarantined := e'.quarantined))
  }

  /** The hash of an entry with an altered verdict is never the stored one. */
  lemma AlteredVerdictChangesHash(e: LedgerEntry, e': LedgerEntry)
    requires Encodable(e) && Encodable(e') && VerdictAltered(e, e')
    ensures ExpectedHash(e) != ExpectedHash(e')
  {
    hide Fnv.Hash, Encode, StringBytes, U64Bytes;
    var seed := Xor64(Fnv.FNV_OFFSET, e.prevHash);
    if e.decision != e'.decision {
      assert HeadBytes(e) == HeadBytes(e') && TailBytes(e) == TailBytes(e') by {
        SameLease(e, e');
      }
      var before, after := HeadBytes(e) + (StringBytes(e.event) + StringBytes(e.detail)), TailBytes(e);
      assert CanonicalBytes(e) == before + [e.decision] + after;
      assert CanonicalBytes(e') == before + [e'.decision] + after;
      Fnv.WindowChangesHash(before, [e.decision], [e'.decision], after, seed);
    } else {
      var before, w, w', after := AroundQuarantine(e, e');
      Fnv.WindowChangesHash(before, w, w', after, seed);
    }
  }

  lemma SameLease(e: LedgerEntry, e': LedgerEntry)
    requires Encodable(e) && Encodable(e') && e.leasePresent == e'.leasePresent && e.LeaseFields() == e'.LeaseFields()
    ensures LeaseBytes(e) == LeaseBytes(e')
  {
  }

  lemma AroundQuarantine(e: LedgerEntry, e': LedgerEntry)
    returns (before: seq<byte>, w: seq<byte>, w': seq<byte>, after: seq<byte>)
    requires Encodable(e) && Encodable(e') && e != e' && e' == e.(quarantined := e'.quarantined)
    ensures |w| == |w'| == 1 && w != w'
    ensures CanonicalBytes(e) == before + w + after && CanonicalBytes(e') == before + w' + after
  {
    hide Encode, StringBytes, U64Bytes, LeaseBytes, OptionalBytes;
    SameLease(e, e');
    assert HeadBytes(e) == HeadBytes(e');
    var body := U64Bytes(e.bodyUid) + U64Bytes(e.epoch) + U64Bytes(e.generation) + U64Bytes(e.certificate);
    var tail := LeaseBytes(e) + (OptionalBytes(e.sealedEventCount) + (OptionalBytes(e.sealedEventHash) + U64Bytes(e.prevHash)));
    before := HeadBytes(e) + (StringBytes(e.event) + (StringBytes(e.detail) + ([e.decision] + body)));
    w, w' := [Bit(e.quarantined)], [Bit(e'.quarantined)];
    after := [Bit(e.leasePresent)] + tail;
    assert w[0] != w'[0];
    assert BodyBytes(e) == body + [Bit(e.quarantined), Bit(e.leasePresent)];
    assert BodyBytes(e') == body + [Bit(e'.quarantined), Bit(e.leasePresent)];
    assert TailBytes(e) == body + w + after && TailBytes(e') == body + w' + after;
    assert CanonicalBytes(e) == before + w + after;
    assert CanonicalBytes(e') == before + w' + after;
  }

  /** Altering only the decision or only the quarantine flag of one entry of an accepted file, hash
      fields untouched, is always detected. */
  lemma AlteredVerdictRejected(es: seq<LedgerEntry>, i: nat, e': LedgerEntry)
    requires SealedChain(es) && i < |es| && VerdictAltered(es[i], e')
    ensures !Verification(Render(es[i := e'])).Passed()
  {
    hide Verification, Render, SealFor, Linked, VerdictAltered, ExpectedHash;
    var es' := es[i := e'];
    if Verification(Render(es')).Passed() {
      var ds := AcceptedEntries(Render(es'));
      RenderInjective(ds, es');
      LinkedAt(es, 0, 0, i);
      LinkedAt(es', 0, 0, i);
      LinkedHash(es[i]);
      LinkedHash(e');
      AlteredVerdictChangesHash(es[i], e');
      VerdictKeepsHash(es[i], e');
      assert false;
    }
  }

  lemma VerdictKeepsHash(e: LedgerEntry, e': LedgerEntry)
    requires VerdictAltered(e, e')
    ensures e.hash == e'.hash
  {
  }

  ghost predicate SomewhereLinked(e: LedgerEntry)
  {
    exists n: nat, prev: u64 :: Linked(e, n, prev)
  }

  lemma LinkedHash(e: LedgerEntry)
    requires SomewhereLinked(e)
    ensures Encodable(e) && ExpectedHash(e) == Ok(e.hash)
  {
    hide CanonicalBytes, Encodable;
  }

  lemma {:induction false} LinkedAt(es: seq<LedgerEntry>, n: nat, prev: u64, i: nat)
    requires ChainFrom(es, n, prev) && i < |es|
    ensures SomewhereLinked(es[i])
    decreases i
  {
    hide Linked;
    if i > 0 {
      LinkedAt(es[1..], n + 1, es[0].hash, i - 1);
    } else {
      assert Linked(es[0], n + 1, prev);
    }
  }
}
