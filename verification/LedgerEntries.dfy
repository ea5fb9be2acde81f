/** Ledger entries (src/ledger.rs): their canonical binary encoding and hash, the JSON line they are
    written as, and the parser of such lines. */
module LedgerEntries {
  import opened Words
  import opened Utf8
  import opened JsonRoundTrip
  import Fnv

  const LEDGER_SCHEMA := "osia-core-r1-r1-ledger-2"
  const MAX_EVENT_BYTES: nat := 128
  const MAX_DETAIL_BYTES: nat := 16_384

  datatype EntryKind = Event | Seal

  datatype LedgerEntry = LedgerEntry(
    kind: EntryKind,
    seqNo: u64,
    event: string,
    detail: string,
    decision: byte,
    bodyUid: u64,
    epoch: u64,
    generation: u64,
    certificate: u64,
    quarantined: bool,
    leasePresent: bool,
    leaseBodyUid: Option<u64>,
    leaseEpoch: Option<u64>,
    leaseGeneration: Option<u64>,
    leaseCertificate: Option<u64>,
    leaseValidUntilNs: Option<u64>,
    leasePrincipalId: Option<u64>,
    leaseResourceId: Option<u64>,
    leaseActionId: Option<u64>,
    sealedEventCount: Option<u64>,
    sealedEventHash: Option<u64>,
    prevHash: u64,
    hash: u64)
  {
    /** The eight optional lease fields in order. */
    function LeaseFields(): (r: seq<Option<u64>>)
      ensures |r| == 8
    {
      [leaseBodyUid, leaseEpoch, leaseGeneration, leaseCertificate, leaseValidUntilNs,
       leasePrincipalId, leaseResourceId, leaseActionId]
    }

    /** What `parse_entry` guarantees beyond the types. */
    predicate WellFormed()
    {
      && decision <= 10
      && (forall i :: 0 <= i < 8 ==> LeaseFields()[i].Some? == leasePresent)
      && sealedEventCount.Some? == sealedEventHash.Some? == kind.Seal?
    }

    predicate TextFits()
    {
      |Encode(event)| <= MAX_EVENT_BYTES && |Encode(detail)| <= MAX_DETAIL_BYTES
    }

    /** The entry without its own hash: what the hash covers. */
    function Unhashed(): LedgerEntry
    {
      this.(hash := 0)
    }
  }

  // ---------------------------------------------------------------------------------------------
  // Canonical bytes
  // ---------------------------------------------------------------------------------------------

  function Bit(b: bool): byte
  {
    if b then 1 else 0
  }

  function U64Bytes(n: u64): (r: seq<byte>)
    ensures |r| == 8
  {
    BigEndian(n, 8)
  }

  /** `push_string`: the UTF-8 length as a `u32`, then the bytes. */
  function StringBytes(s: string): (r: seq<byte>)
  {
    BigEndian(|Encode(s)|, 4) + Encode(s)
  }

  function OptionalBytes(o: Option<u64>): (r: seq<byte>)
  {
    match o case None => [0] case Some(n) => [1] + U64Bytes(n)
  }

  function HeadBytes(e: LedgerEntry): (r: seq<byte>)
    ensures |r| == |StringBytes(LEDGER_SCHEMA)| + 9
  {
    StringBytes(LEDGER_SCHEMA) + [Bit(e.kind.Seal?)] + U64Bytes(e.seqNo)
  }

  function BodyBytes(e: LedgerEntry): (r: seq<byte>)
    ensures |r| == 34
  {
    U64Bytes(e.bodyUid) + U64Bytes(e.epoch) + U64Bytes(e.generation) + U64Bytes(e.certificate)
    + [Bit(e.quarantined), Bit(e.leasePresent)]
  }

  function WordsBytes(fields: seq<Option<u64>>): (r: seq<byte>)
    requires forall i :: 0 <= i < |fields| ==> fields[i].Some?
    ensures |r| == 8 * |fields|
  {
    if fields == [] then [] else U64Bytes(fields[0].value) + WordsBytes(fields[1..])
  }

  function LeaseBytes(e: LedgerEntry): (r: seq<byte>)
    requires e.leasePresent ==> forall i :: 0 <= i < 8 ==> e.LeaseFields()[i].Some?
    ensures |r| == if e.leasePresent then 64 else 0
  {
    if e.leasePresent then WordsBytes(e.LeaseFields()) else []
  }

  predicate Encodable(e: LedgerEntry)
  {
    e.TextFits() && (e.leasePresent ==> forall i :: 0 <= i < 8 ==> e.LeaseFields()[i].Some?)
  }

  function TailBytes(e: LedgerEntry): (r: seq<byte>)
    requires Encodable(e)
  {
    BodyBytes(e)
    + (LeaseBytes(e)
       + (OptionalBytes(e.sealedEventCount) + (OptionalBytes(e.sealedEventHash) + U64Bytes(e.prevHash))))
  }

  /** Everything but the hash, length-prefixed and big-endian. */
  function CanonicalBytes(e: LedgerEntry): (r: seq<byte>)
    requires Encodable(e)
  {
    HeadBytes(e) + (StringBytes(e.event) + (StringBytes(e.detail) + ([e.decision] + TailBytes(e))))
  }

  function ExpectedHash(e: LedgerEntry): (r: Result<u64>)
  {
    if Encodable(e) then Ok(Fnv.Hash(CanonicalBytes(e), Xor64(Fnv.FNV_OFFSET, e.prevHash))) else Err
  }

  // --- injectivity ---

  lemma PeelFixed(a: seq<byte>, b: seq<byte>, x: seq<byte>, y: seq<byte>)
    requires |a| == |b| && a + x == b + y
    ensures a == b && x == y
  {
    assert (a + x)[..|a|] == a && (b + y)[..|a|] == b;
    assert (a + x)[|a|..] == x && (b + y)[|a|..] == y;
  }

  lemma PeelWord(m: u64, n: u64, x: seq<byte>, y: seq<byte>)
    requires U64Bytes(m) + x == U64Bytes(n) + y
    ensures m == n && x == y
  {
    PeelFixed(U64Bytes(m), U64Bytes(n), x, y);
    Pow256Of8();
    BigEndianInjective(m, n, 8);
  }

  lemma Pow256Of8()
    ensures Pow256(8) == 0x1_0000_0000_0000_0000 && Pow256(4) == 0x1_0000_0000
  {
    assert Pow256(2) == 0x1_0000;
    assert Pow256(4) == 0x1_0000_0000;
    assert Pow256(6) == 0x1_0000_0000_0000;
  }

  lemma PeelString(s: string, t: string, x: seq<byte>, y: seq<byte>)
    requires |Encode(s)| < 0x1_0000_0000 && |Encode(t)| < 0x1_0000_0000
    requires StringBytes(s) + x == StringBytes(t) + y
    ensures s == t && x == y
  {
    Associative(BigEndian(|Encode(s)|, 4), Encode(s), x);
    Associative(BigEndian(|Encode(t)|, 4), Encode(t), y);
    PeelFixed(BigEndian(|Encode(s)|, 4), BigEndian(|Encode(t)|, 4), Encode(s) + x, Encode(t) + y);
    Pow256Of8();
    BigEndianInjective(|Encode(s)|, |Encode(t)|, 4);
    PeelFixed(Encode(s), Encode(t), x, y);
    EncodeInjective(s, t);
  }

  lemma PeelOptional(o: Option<u64>, p: Option<u64>, x: seq<byte>, y: seq<byte>)
    requires OptionalBytes(o) + x == OptionalBytes(p) + y
    ensures o == p && x == y
  {
    assert (OptionalBytes(o) + x)[0] == Bit(o.Some?) && (OptionalBytes(p) + y)[0] == Bit(p.Some?);
    PeelFixed(OptionalBytes(o), OptionalBytes(p), x, y);
    if o.Some? {
      PeelFixed([1], [1], U64Bytes(o.value), U64Bytes(p.value));
      PeelWord(o.value, p.value, [], []);
    }
  }

  lemma {:induction false} WordsInjective(a: seq<Option<u64>>, b: seq<Option<u64>>)
    requires |a| == |b| && forall i :: 0 <= i < |a| ==> a[i].Some? && b[i].Some?
    requires WordsBytes(a) == WordsBytes(b)
    ensures a == b
  {
    if a != [] {
      PeelWord(a[0].value, b[0].value, WordsBytes(a[1..]), WordsBytes(b[1..]));
      WordsInjective(a[1..], b[1..]);
      assert a == [a[0]] + a[1..] && b == [b[0]] + b[1..];
    }
  }

  lemma BodyInjective(d: LedgerEntry, e: LedgerEntry)
    requires BodyBytes(d) == BodyBytes(e)
    ensures d.bodyUid == e.bodyUid && d.epoch == e.epoch && d.generation == e.generation
    ensures d.certificate == e.certificate && d.quarantined == e.quarantined && d.leasePresent == e.leasePresent
  {
    var x, y := [Bit(d.quarantined), Bit(d.leasePresent)], [Bit(e.quarantined), Bit(e.leasePresent)];
    var cx, cy := U64Bytes(d.certificate) + x, U64Bytes(e.certificate) + y;
    var gx, gy := U64Bytes(d.generation) + cx, U64Bytes(e.generation) + cy;
    var ex, ey := U64Bytes(d.epoch) + gx, U64Bytes(e.epoch) + gy;
    assert BodyBytes(d) == U64Bytes(d.bodyUid) + ex && BodyBytes(e) == U64Bytes(e.bodyUid) + ey;
    PeelWord(d.bodyUid, e.bodyUid, ex, ey);
    PeelWord(d.epoch, e.epoch, gx, gy);
    PeelWord(d.generation, e.generation, cx, cy);
    PeelWord(d.certificate, e.certificate, x, y);
    assert x[0] == y[0] && x[1] == y[1];
  }

  lemma TailInjective(d: LedgerEntry, e: LedgerEntry)
    requires Encodable(d) && Encodable(e) && d.WellFormed() && e.WellFormed()
    requires TailBytes(d) == TailBytes(e)
    ensures d.bodyUid == e.bodyUid && d.epoch == e.epoch && d.generation == e.generation
    ensures d.certificate == e.certificate && d.quarantined == e.quarantined && d.leasePresent == e.leasePresent
    ensures d.LeaseFields() == e.LeaseFields()
    ensures d.sealedEventCount == e.sealedEventCount && d.sealedEventHash == e.sealedEventHash
    ensures d.prevHash == e.prevHash
  {
    var hd, he := OptionalBytes(d.sealedEventHash) + U64Bytes(d.prevHash),
          OptionalBytes(e.sealedEventHash) + U64Bytes(e.prevHash);
    var cd, ce := OptionalBytes(d.sealedEventCount) + hd, OptionalBytes(e.sealedEventCount) + he;
    PeelFixed(BodyBytes(d), BodyBytes(e), LeaseBytes(d) + cd, LeaseBytes(e) + ce);
    BodyInjective(d, e);
    PeelFixed(LeaseBytes(d), LeaseBytes(e), cd, ce);
    LeaseInjective(d, e);
    PeelOptional(d.sealedEventCount, e.sealedEventCount, hd, he);
    PeelOptional(d.sealedEventHash, e.sealedEventHash, U64Bytes(d.prevHash), U64Bytes(e.prevHash));
    PeelWord(d.prevHash, e.prevHash, [], []);
  }

  lemma LeaseInjective(d: LedgerEntry, e: LedgerEntry)
    requires Encodable(d) && Encodable(e) && d.WellFormed() && e.WellFormed()
    requires d.leasePresent == e.leasePresent && LeaseBytes(d) == LeaseBytes(e)
    ensures d.LeaseFields() == e.LeaseFields()
  {
    if d.leasePresent {
      WordsInjective(d.LeaseFields(), e.LeaseFields());
    } else {
      assert forall i :: 0 <= i < 8 ==> d.LeaseFields()[i] == e.LeaseFields()[i];
    }
  }

  /** The canonical encoding determines the whole entry but its hash. */
  lemma CanonicalInjective(d: LedgerEntry, e: LedgerEntry)
    requires Encodable(d) && Encodable(e) && d.WellFormed() && e.WellFormed()
    requires CanonicalBytes(d) == CanonicalBytes(e)
    ensures d.Unhashed() == e.Unhashed()
  {
    var td, te := [d.decision] + TailBytes(d), [e.decision] + TailBytes(e);
    var sd, se := StringBytes(d.detail) + td, StringBytes(e.detail) + te;
    PeelFixed(HeadBytes(d), HeadBytes(e), StringBytes(d.event) + sd, StringBytes(e.event) + se);
    HeadInjective(d, e);
    PeelString(d.event, e.event, sd, se);
    PeelString(d.detail, e.detail, td, te);
    PeelFixed([d.decision], [e.decision], TailBytes(d), TailBytes(e));
    assert [d.decision][0] == [e.decision][0];
    TailInjective(d, e);
    assert forall i :: 0 <= i < 8 ==> d.LeaseFields()[i] == e.LeaseFields()[i];
    LeaseFieldsAgree(d, e);
  }

  lemma LeaseFieldsAgree(d: LedgerEntry, e: LedgerEntry)
    requires d.LeaseFields() == e.LeaseFields()
    ensures d.leaseBodyUid == e.leaseBodyUid && d.leaseEpoch == e.leaseEpoch
    ensures d.leaseGeneration == e.leaseGeneration && d.leaseCertificate == e.leaseCertificate
    ensures d.leaseValidUntilNs == e.leaseValidUntilNs && d.leasePrincipalId == e.leasePrincipalId
    ensures d.leaseResourceId == e.leaseResourceId && d.leaseActionId == e.leaseActionId
  {
    assert d.LeaseFields()[0] == e.LeaseFields()[0] && d.LeaseFields()[1] == e.LeaseFields()[1];
    assert d.LeaseFields()[2] == e.LeaseFields()[2] && d.LeaseFields()[3] == e.LeaseFields()[3];
    assert d.LeaseFields()[4] == e.LeaseFields()[4] && d.LeaseFields()[5] == e.LeaseFields()[5];
    assert d.LeaseFields()[6] == e.LeaseFields()[6] && d.LeaseFields()[7] == e.LeaseFields()[7];
  }

  lemma HeadInjective(d: LedgerEntry, e: LedgerEntry)
    requires HeadBytes(d) == HeadBytes(e)
    ensures d.kind == e.kind && d.seqNo == e.seqNo
  {
    var s := StringBytes(LEDGER_SCHEMA);
    PeelFixed(s + [Bit(d.kind.Seal?)], s + [Bit(e.kind.Seal?)], U64Bytes(d.seqNo), U64Bytes(e.seqNo));
    assert (s + [Bit(d.kind.Seal?)])[|s|] == (s + [Bit(e.kind.Seal?)])[|s|];
    PeelWord(d.seqNo, e.seqNo, [], []);
  }
}
