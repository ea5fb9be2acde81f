/** Sealed hash chains of entries, the file they are rendered to, and the shape of its lines. */
module LedgerChain {
  import opened Words
  import opened Utf8
  import opened Numerals
  import opened Authority
  import opened Json
  import opened JsonRoundTrip
  import opened LedgerEntries
  import opened LedgerLines

  const MAX_LINE_BYTES: nat := 131_072
  const SEAL_EVENT := "LEDGER_SEAL"
  const SEAL_DETAIL := "terminal seal"

  // ---------------------------------------------------------------------------------------------
  // Building entries
  // ---------------------------------------------------------------------------------------------

  datatype LedgerSnapshot = LedgerSnapshot(
    kind: EntryKind,
    seqNo: u64,
    event: string,
    detail: string,
    decision: Decision,
    body: BodyState,
    lease: Option<SafetyLease>,
    sealedEventCount: Option<u64>,
    sealedEventHash: Option<u64>,
    prevHash: u64)

  function LeaseWord(lease: Option<SafetyLease>, word: u64): Option<u64>
  {
    if lease.Some? then Some(word) else None
  }

  /** The entry of a snapshot before its hash is filled in. */
  function Unsigned(s: LedgerSnapshot): (e: LedgerEntry)
    ensures e.event == s.event && e.detail == s.detail && e.kind == s.kind && e.decision == s.decision.Code()
    ensures e.sealedEventCount == s.sealedEventCount && e.sealedEventHash == s.sealedEventHash
    ensures forall i :: 0 <= i < 8 ==> e.LeaseFields()[i].Some? == e.leasePresent
  {
    var l := if s.lease.Some? then s.lease.value else SafetyLease(0, 0, 0, 0, 0, 0, 0, 0);
    LedgerEntry(
      s.kind, s.seqNo, s.event, s.detail, s.decision.Code(), s.body.bodyUid, s.body.epoch, s.body.generation,
      s.body.certificate, s.body.quarantined, s.lease.Some?, LeaseWord(s.lease, l.bodyUid),
      LeaseWord(s.lease, l.epoch), LeaseWord(s.lease, l.generation), LeaseWord(s.lease, l.certificate),
      LeaseWord(s.lease, l.validUntilNs), LeaseWord(s.lease, l.principalId), LeaseWord(s.lease, l.resourceId),
      LeaseWord(s.lease, l.actionId), s.sealedEventCount, s.sealedEventHash, s.prevHash, 0)
  }

  predicate SnapshotFits(s: LedgerSnapshot)
  {
    |Encode(s.event)| <= MAX_EVENT_BYTES && |Encode(s.detail)| <= MAX_DETAIL_BYTES
  }

  /** `LedgerEntry::from_snapshot`. */
  function MakeEntry(s: LedgerSnapshot): (r: Result<LedgerEntry>)
  {
    if !SnapshotFits(s) then Err
    else
      var hash :- ExpectedHash(Unsigned(s));
      Ok(Unsigned(s).(hash := hash))
  }

  /** An entry is built exactly when the texts fit; it is well formed and carries its own hash. */
  lemma MakeEntryFits(s: LedgerSnapshot)
    requires s.sealedEventCount.Some? == s.sealedEventHash.Some? == s.kind.Seal?
    ensures MakeEntry(s).Ok? <==> SnapshotFits(s)
    ensures MakeEntry(s).Ok? ==>
              var e := MakeEntry(s).value;
              && e.WellFormed()
              && ExpectedHash(e) == Ok(e.hash)
              && e.Unhashed() == Unsigned(s)
  {
    hide CanonicalBytes, Encode;
    var e := Unsigned(s);
    if SnapshotFits(s) {
      assert Encodable(e);
      var e' := MakeEntry(s).value;
      assert e'.LeaseFields() == e.LeaseFields();
      HashIgnoresHash(e, ExpectedHash(e).value);
    }
  }

  lemma HashIgnoresHash(e: LedgerEntry, h: u64)
    ensures ExpectedHash(e.(hash := h)) == ExpectedHash(e)
  {
    var e' := e.(hash := h);
    assert Encodable(e) == Encodable(e') by {
      assert e'.LeaseFields() == e.LeaseFields();
    }
    if Encodable(e) {
      BytesIgnoreHash(e, e');
    }
  }

  lemma BytesIgnoreHash(e: LedgerEntry, e': LedgerEntry)
    requires Encodable(e) && Encodable(e') && e.Unhashed() == e'.Unhashed()
    ensures CanonicalBytes(e) == CanonicalBytes(e')
  {
    assert e == e'.(hash := e.hash);
    assert HeadBytes(e) == HeadBytes(e');
    assert BodyBytes(e) == BodyBytes(e');
    assert LeaseBytes(e) == LeaseBytes(e') by {
      assert e.LeaseFields() == e'.LeaseFields();
    }
  }

  // ---------------------------------------------------------------------------------------------
  // Chains
  // ---------------------------------------------------------------------------------------------

  /** Entry number `n` (from one) after an entry with hash `prev`. */
  predicate Linked(e: LedgerEntry, n: nat, prev: u64)
  {
    && e.WellFormed()
    && e.seqNo == Saturate(n)
    && e.prevHash == prev
    && ExpectedHash(e) == Ok(e.hash)
  }

  /** `n` entries come before, the last of them with hash `prev`. */
  predicate ChainFrom(es: seq<LedgerEntry>, n: nat, prev: u64)
  {
    es == [] || (Linked(es[0], n + 1, prev) && ChainFrom(es[1..], n + 1, es[0].hash))
  }

  function LastHash(es: seq<LedgerEntry>, prev: u64): (r: u64)
  {
    if es == [] then prev else es[|es| - 1].hash
  }

  predicate AllEvents(es: seq<LedgerEntry>)
  {
    forall i :: 0 <= i < |es| ==> es[i].kind.Event?
  }

  predicate SealFor(e: LedgerEntry, events: nat)
  {
    && e.kind.Seal?
    && e.event == SEAL_EVENT
    && e.detail == SEAL_DETAIL
    && e.decision == Allow.Code()
    && e.sealedEventCount == Some(Saturate(events))
    && e.sealedEventHash == Some(e.prevHash)
  }

  /** Chained events, then one seal that counts them and the `n` events before. */
  predicate SealedFrom(es: seq<LedgerEntry>, n: nat, prev: u64)
  {
    && es != []
    && ChainFrom(es, n, prev)
    && AllEvents(es[..|es| - 1])
    && SealFor(es[|es| - 1], n + |es| - 1)
  }

  /** A whole ledger. */
  predicate SealedChain(es: seq<LedgerEntry>)
  {
    SealedFrom(es, 0, 0)
  }

  lemma {:induction false} ChainAppend(es: seq<LedgerEntry>, e: LedgerEntry, n: nat, prev: u64)
    ensures ChainFrom(es + [e], n, prev)
            <==> ChainFrom(es, n, prev) && Linked(e, n + |es| + 1, LastHash(es, prev))
    decreases |es|
  {
    hide Linked;
    var all := es + [e];
    if es == [] {
      assert all[0] == e && all[1..] == [];
      assert ChainFrom(all[1..], n + 1, e.hash);
    } else {
      assert all[0] == es[0] && all[1..] == es[1..] + [e];
      ChainAppend(es[1..], e, n + 1, es[0].hash);
      assert LastHash(es[1..], es[0].hash) == LastHash(es, prev);
    }
  }

  function Render(es: seq<LedgerEntry>): (r: seq<byte>)
  {
    if es == [] then [] else WriteJson(es[0]) + Render(es[1..])
  }

  lemma {:induction false} RenderAppend(es: seq<LedgerEntry>, e: LedgerEntry)
    ensures Render(es + [e]) == Render(es) + WriteJson(e)
    decreases |es|
  {
    hide WriteJson;
    if es == [] {
      assert es + [e] == [e] && [e][1..] == [];
    } else {
      assert (es + [e])[1..] == es[1..] + [e];
      RenderAppend(es[1..], e);
    }
  }

  // ---------------------------------------------------------------------------------------------
  // The shape of a line: no control characters, and never too long
  // ---------------------------------------------------------------------------------------------

  predicate NoControl(s: string)
  {
    forall i :: 0 <= i < |s| ==> !IsControl(s[i])
  }

  lemma {:induction false} HexHasNoControl(n: nat, width: nat)
    ensures NoControl(Hex(n, width))
  {
    if width > 0 {
      HexHasNoControl(n / 16, width - 1);
    }
  }

  lemma {:induction false} EscapeHasNoControl(s: string)
    ensures NoControl(Escape(s))
    decreases |s|
  {
    if s != [] {
      EscapeHasNoControl(s[1..]);
      HexHasNoControl(s[0] as int, 4);
    }
  }

  lemma ValueHasNoControl(v: JsonValue)
    ensures NoControl(PrintValue(v))
  {
    if v.JNumber? {
      DecimalRoundTrip(v.number);
    } else if v.JString? {
      EscapeHasNoControl(v.text);
    }
  }

  lemma {:induction false} MembersHaveNoControl(ms: seq<Member>)
    requires ms != []
    ensures NoControl(PrintMembers(ms))
    decreases |ms|
  {
    EscapeHasNoControl(ms[0].key);
    ValueHasNoControl(ms[0].value);
    assert NoControl(PrintMember(ms[0]));
    if |ms| > 1 {
      MembersHaveNoControl(ms[1..]);
    }
  }

  /** A printed line has no raw C0 control byte, in particular no LF, and starts with the brace. */
  lemma LineShape(e: LedgerEntry)
    ensures forall i :: 0 <= i < |Encode(Line(e))| ==> Encode(Line(e))[i] >= 0x20
    ensures Encode(Line(e)) != [] && Encode(Line(e))[0] == 123
  {
    MembersHaveNoControl(Fields(e));
    var line := Line(e);
    assert NoControl(line);
    forall i | 0 <= i < |Encode(line)|
      ensures Encode(line)[i] >= 0x20
    {
      if Encode(line)[i] < 0x20 {
        AsciiByteInEncoding(line, Encode(line)[i]);
        assert false;
      }
    }
    assert EncodeChar('{') == [123];
    assert line[0] == '{';
  }

  lemma {:induction false} EscapeSize(s: string)
    ensures |Encode(Escape(s))| <= 6 * |Encode(s)|
    decreases |s|
  {
    if s != [] {
      EscapeSize(s[1..]);
      EncodeConcat(EscapeChar(s[0]), Escape(s[1..]));
      EscapeCharSize(s[0]);
    }
  }

  /** The worst case: one byte becomes six. */
  lemma EscapeCharSize(c: char)
    ensures |Encode(EscapeChar(c))| <= 6 * |EncodeChar(c)|
  {
    if IsEscaped(c) {
      HexIsAscii(c as int, 4);
      EncodeAscii(EscapeChar(c));
    } else {
      EncodeSingle(c);
    }
  }

  lemma {:induction false} HexIsAscii(n: nat, width: nat)
    ensures Ascii(Hex(n, width))
  {
    if width > 0 {
      HexIsAscii(n / 16, width - 1);
    }
  }

  function MemberSize(m: Member): nat
  {
    |Encode(PrintMember(m))| + 1
  }

  function Sizes(ms: seq<Member>): (r: seq<nat>)
    ensures |r| == |ms|
  {
    seq(|ms|, i requires 0 <= i < |ms| => MemberSize(ms[i]))
  }

  function Sum(sizes: seq<nat>): nat
  {
    if sizes == [] then 0 else sizes[0] + Sum(sizes[1..])
  }

  lemma {:induction false} MembersSize(ms: seq<Member>)
    requires ms != []
    ensures |Encode(PrintMembers(ms))| == Sum(Sizes(ms))
    decreases |ms|
  {
    hide Encode, PrintMember;
    assert Sizes(ms)[1..] == Sizes(ms[1..]);
    if |ms| == 1 {
      EncodeConcat(PrintMember(ms[0]), "}");
      EncodeSingle('}');
    } else {
      MembersSize(ms[1..]);
      EncodeConcat(PrintMember(ms[0]) + ",", PrintMembers(ms[1..]));
      EncodeConcat(PrintMember(ms[0]), ",");
      EncodeSingle(',');
    }
  }

  lemma {:induction false} SumBound(sizes: seq<nat>, bound: nat)
    requires forall i :: 0 <= i < |sizes| ==> sizes[i] <= bound
    ensures Sum(sizes) <= |sizes| * bound
  {
    if sizes != [] {
      SumBound(sizes[1..], bound);
    }
  }

  lemma {:induction false} SumConcat(a: seq<nat>, b: seq<nat>)
    ensures Sum(a + b) == Sum(a) + Sum(b)
  {
    if a == [] {
      assert a + b == b;
    } else {
      assert (a + b)[1..] == a[1..] + b;
      SumConcat(a[1..], b);
    }
  }

  function TextSize(v: JsonValue): nat
  {
    match v case JString(s) => |Encode(s)| case _ => 0
  }

  lemma MemberSizeBound(m: Member)
    ensures MemberSize(m) <= 6 * |Encode(m.key)| + 6 * TextSize(m.value) + 26
  {
    EncodeMember(m);
    EncodeQuoted(m.key);
    EscapeSize(m.key);
    match m.value
    case JString(s) =>
      EncodeQuoted(s);
      EscapeSize(s);
    case JNumber(n) =>
      DecimalLengthU64(n);
      DecimalRoundTrip(n);
      EncodeAscii(Decimal(n));
    case _ =>
      EncodeLiterals();
  }

  lemma SizesAddUp(sizes: seq<nat>)
    requires |sizes| == 24 && forall i :: 0 <= i < 24 ==> sizes[i] <= 506 + 6 * FieldTextLimit(i)
    ensures Sum(sizes) <= 24 * 1082 + 6 * (MAX_EVENT_BYTES + MAX_DETAIL_BYTES)
  {
    var a, b, c := sizes[..3], sizes[3..5], sizes[5..];
    assert b[1..] == [sizes[4]] && [sizes[4]][1..] == [];
    assert Sum([sizes[4]]) == sizes[4];
    assert Sum(b) == sizes[3] + Sum(b[1..]);
    SumBound(a, 1082);
    SumBound(c, 1082);
    SumConcat(a + b, c);
    SumConcat(a, b);
    assert sizes == a + b + c;
  }

  /** Every line the writer can produce, even with every byte of both texts escaped six-fold, is
      within the limit the verifier sets. */
  lemma LineFits(e: LedgerEntry)
    requires e.TextFits()
    ensures |WriteJson(e)| <= MAX_LINE_BYTES
  {
    forall i | 0 <= i < 24
      ensures MemberSize(Fields(e)[i]) <= 506 + 6 * FieldTextLimit(i)
    {
      FieldSize(e, i);
    }
    SizesAddUp(Sizes(Fields(e)));
    MembersSize(Fields(e));
    EncodeConcat("{", PrintMembers(Fields(e)));
    EncodeSingle('{');
  }

  function FieldTextLimit(i: nat): nat
  {
    if i == 3 then MAX_EVENT_BYTES else if i == 4 then MAX_DETAIL_BYTES else 96
  }

  lemma FieldSize(e: LedgerEntry, i: nat)
    requires i < 24 && e.TextFits()
    ensures MemberSize(Fields(e)[i]) <= 506 + 6 * FieldTextLimit(i)
  {
    hide Encode, MemberSize, TextSize, FieldTextLimit;
    MemberSizeBound(Fields(e)[i]);
    assert |KEYS[i]| <= 20;
    EncodeLength(KEYS[i]);
    FieldTextSize(e, i);
  }

  lemma FieldTextSize(e: LedgerEntry, i: nat)
    requires i < 24 && e.TextFits()
    ensures TextSize(FieldValues(e)[i]) <= FieldTextLimit(i)
  {
    if i < 12 {
      assert FieldValues(e)[i] == HeadValues(e)[i];
      HeadTextSize(e, i);
    } else if i < 20 {
      assert FieldValues(e)[i] == LeaseValues(e)[i - 12];
    } else {
      assert FieldValues(e)[i] == SealValues(e)[i - 20];
      SealTextSize(e, i - 20);
    }
  }

  lemma HeadTextSize(e: LedgerEntry, i: nat)
    requires i < 12 && e.TextFits()
    ensures TextSize(HeadValues(e)[i]) <= FieldTextLimit(i)
  {
    if i == 0 {
      EncodeLength(LEDGER_SCHEMA);
    } else if i == 1 {
      EncodeLength(KindText(e.kind));
    }
  }

  lemma SealTextSize(e: LedgerEntry, i: nat)
    requires i < 4
    ensures TextSize(SealValues(e)[i]) <= 64
  {
    EncodeLength(Hex16(e.prevHash));
    EncodeLength(Hex16(e.hash));
    if e.sealedEventHash.Some? {
      EncodeLength(Hex16(e.sealedEventHash.value));
    }
  }
}
