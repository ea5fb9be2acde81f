/** The two forms of a ledger entry written out flat (src/ledger.rs): the bytes its hash covers, piece by
    piece, and the members of its JSON line, key by key. */
module LedgerLayout {
  import opened Words
  import opened Utf8
  import opened Numerals
  import opened Json
  import opened JsonRoundTrip
  import opened LedgerEntries
  import opened LedgerLines
  import Fnv

  // ---------------------------------------------------------------------------------------------
  // The canonical bytes
  // ---------------------------------------------------------------------------------------------

  function Flat(pieces: seq<seq<byte>>): (r: seq<byte>)
  {
    if pieces == [] then [] else pieces[0] + Flat(pieces[1..])
  }

  lemma {:induction false} FlatConcat(a: seq<seq<byte>>, b: seq<seq<byte>>)
    ensures Flat(a + b) == Flat(a) + Flat(b)
  {
    if a == [] {
      assert a + b == b;
    } else {
      assert (a + b)[1..] == a[1..] + b;
      FlatConcat(a[1..], b);
    }
  }

  function Word(n: nat): seq<byte>
  {
    BigEndian(n, 8)
  }

  function Size(bytes: seq<byte>): seq<byte>
  {
    BigEndian(|bytes|, 4)
  }

  function Flag(b: bool): seq<byte>
  {
    if b then [1] else [0]
  }

  function Optional(o: Option<u64>): seq<seq<byte>>
  {
    if o.Some? then [[1], Word(o.value)] else [[0]]
  }

  /** The schema, the kind and the sequence number. */
  function HeadPieces(e: LedgerEntry): seq<seq<byte>>
  {
    var schema := Encode("osia-core-r1-r1-ledger-2");
    [Size(schema), schema, Flag(e.kind.Seal?), Word(e.seqNo)]
  }

  function TextPieces(s: string): seq<seq<byte>>
  {
    [Size(Encode(s)), Encode(s)]
  }

  function BodyPieces(e: LedgerEntry): seq<seq<byte>>
  {
    [Word(e.bodyUid), Word(e.epoch), Word(e.generation), Word(e.certificate), Flag(e.quarantined), Flag(e.leasePresent)]
  }

  function ValueOf(o: Option<u64>): u64
  {
    if o.Some? then o.value else 0
  }

  function LeasePieces(e: LedgerEntry): seq<seq<byte>>
  {
    if !e.leasePresent then []
    else
      [Word(ValueOf(e.leaseBodyUid)), Word(ValueOf(e.leaseEpoch)), Word(ValueOf(e.leaseGeneration)),
       Word(ValueOf(e.leaseCertificate)), Word(ValueOf(e.leaseValidUntilNs)), Word(ValueOf(e.leasePrincipalId)),
       Word(ValueOf(e.leaseResourceId)), Word(ValueOf(e.leaseActionId))]
  }

  function SealPieces(e: LedgerEntry): seq<seq<byte>>
  {
    Optional(e.sealedEventCount) + Optional(e.sealedEventHash) + [Word(e.prevHash)]
  }

  function Pieces(e: LedgerEntry): seq<seq<byte>>
  {
    HeadPieces(e) + TextPieces(e.event) + TextPieces(e.detail) + [[e.decision]] + BodyPieces(e) + LeasePieces(e)
    + SealPieces(e)
  }

  lemma FlatOne(a: seq<byte>)
    ensures Flat([a]) == a
  {
    assert [a][1..] == [] && a + [] == a;
  }

  lemma FlatTwo(a: seq<byte>, b: seq<byte>)
    ensures Flat([a, b]) == a + b
  {
    FlatOne(b);
    assert [a, b][1..] == [b];
  }

  lemma FlatHead(e: LedgerEntry)
    ensures Flat(HeadPieces(e)) == HeadBytes(e)
  {
    hide BigEndian, Encode;
    var p := HeadPieces(e);
    FlatTwo(p[0], p[1]);
    FlatTwo(p[2], p[3]);
    FlatConcat([p[0], p[1]], [p[2], p[3]]);
    assert p == [p[0], p[1]] + [p[2], p[3]];
  }

  lemma FlatBody(e: LedgerEntry)
    ensures Flat(BodyPieces(e)) == BodyBytes(e)
  {
    hide BigEndian;
    var p := BodyPieces(e);
    FlatTwo(p[0], p[1]);
    FlatTwo(p[2], p[3]);
    FlatTwo(p[4], p[5]);
    FlatConcat([p[0], p[1]], [p[2], p[3]]);
    FlatConcat([p[0], p[1]] + [p[2], p[3]], [p[4], p[5]]);
    assert p == [p[0], p[1]] + [p[2], p[3]] + [p[4], p[5]];
  }

  lemma {:induction false} FlatWords(fields: seq<Option<u64>>, pieces: seq<seq<byte>>)
    requires |fields| == |pieces| && forall i :: 0 <= i < |fields| ==> fields[i].Some? && pieces[i] == Word(fields[i].value)
    ensures Flat(pieces) == WordsBytes(fields)
  {
    hide BigEndian;
    if fields != [] {
      FlatWords(fields[1..], pieces[1..]);
    }
  }

  lemma FlatLease(e: LedgerEntry)
    requires Encodable(e)
    ensures Flat(LeasePieces(e)) == LeaseBytes(e)
  {
    hide BigEndian, Encode, Flat, WordsBytes;
    if e.leasePresent {
      var f := e.LeaseFields();
      assert forall i :: 0 <= i < 8 ==> f[i].Some?;
      assert f[0].Some? && f[1].Some? && f[2].Some? && f[3].Some? && f[4].Some? && f[5].Some? && f[6].Some? && f[7].Some?;
      FlatWords(f, LeasePieces(e));
    } else {
      FlatNothing();
    }
  }

  lemma FlatNothing()
    ensures Flat([]) == []
  {
  }

  lemma FlatOptional(o: Option<u64>)
    ensures Flat(Optional(o)) == OptionalBytes(o)
  {
    hide BigEndian;
    if o.Some? {
      FlatTwo([1], Word(o.value));
    } else {
      FlatOne([0]);
    }
  }

  lemma FlatSeal(e: LedgerEntry)
    ensures Flat(SealPieces(e)) == OptionalBytes(e.sealedEventCount) + OptionalBytes(e.sealedEventHash) + U64Bytes(e.prevHash)
  {
    hide BigEndian, Optional, OptionalBytes, Flat;
    FlatOptional(e.sealedEventCount);
    FlatOptional(e.sealedEventHash);
    FlatOne(Word(e.prevHash));
    FlatConcat(Optional(e.sealedEventCount), Optional(e.sealedEventHash));
    FlatConcat(Optional(e.sealedEventCount) + Optional(e.sealedEventHash), [Word(e.prevHash)]);
  }

  /** The hash covers these pieces in this order: the schema, the kind, the sequence number, both texts
      behind their sizes, the decision, the body, the lease if there is one, the seal fields behind
      their markers, and the hash before. */
  lemma CanonicalPieces(e: LedgerEntry)
    requires Encodable(e)
    ensures CanonicalBytes(e) == Flat(Pieces(e))
  {
    hide Flat, HeadPieces, BodyPieces, LeasePieces, SealPieces, HeadBytes, BodyBytes, LeaseBytes, OptionalBytes, U64Bytes,
         Encode, BigEndian;
    var a, b, c, d := HeadPieces(e), TextPieces(e.event), TextPieces(e.detail), [[e.decision]];
    FlatHead(e);
    FlatTwo(Size(Encode(e.event)), Encode(e.event));
    FlatTwo(Size(Encode(e.detail)), Encode(e.detail));
    FlatOne([e.decision]);
    FlatBody(e);
    FlatLease(e);
    FlatSeal(e);
    FlatConcat(a, b);
    FlatConcat(a + b, c);
    FlatConcat(a + b + c, d);
    FlatConcat(a + b + c + d, BodyPieces(e));
    FlatConcat(a + b + c + d + BodyPieces(e), LeasePieces(e));
    FlatConcat(a + b + c + d + BodyPieces(e) + LeasePieces(e), SealPieces(e));
  }

  /** The hash of an entry is FNV-1a over these pieces, from the offset xored with the hash before; there
      is none if a text is too long or a lease field is missing. */
  lemma EntryHash(e: LedgerEntry)
    ensures ExpectedHash(e)
            == if Encodable(e) then Ok(Fnv.Hash(Flat(Pieces(e)), Xor64(1_469_598_103_934_665_603, e.prevHash))) else Err
  {
    hide Fnv.Hash, CanonicalBytes, Pieces, Flat, Encodable, Xor64;
    if Encodable(e) {
      CanonicalPieces(e);
    }
  }

  // ---------------------------------------------------------------------------------------------
  // The members of the line
  // ---------------------------------------------------------------------------------------------

  function NumberOrNull(o: Option<u64>): JsonValue
  {
    if o.Some? then JNumber(o.value) else JNull
  }

  lemma FirstKeys()
    ensures KEYS[0] == "schema" && KEYS[1] == "kind" && KEYS[2] == "seq" && KEYS[3] == "event" && KEYS[4] == "detail"
    ensures KEYS[5] == "decision" && KEYS[6] == "body_uid" && KEYS[7] == "epoch"
  {
  }

  lemma MiddleKeys()
    ensures KEYS[8] == "generation" && KEYS[9] == "certificate" && KEYS[10] == "quarantined" && KEYS[11] == "lease_present"
    ensures KEYS[12] == "lease_body_uid" && KEYS[13] == "lease_epoch" && KEYS[14] == "lease_generation"
    ensures KEYS[15] == "lease_certificate"
  {
  }

  lemma LastKeys()
    ensures KEYS[16] == "lease_valid_until_ns" && KEYS[17] == "lease_principal_id" && KEYS[18] == "lease_resource_id"
    ensures KEYS[19] == "lease_action_id" && KEYS[20] == "sealed_event_count" && KEYS[21] == "sealed_event_hash"
    ensures KEYS[22] == "prev_hash" && KEYS[23] == "hash"
  {
  }

  /** The values under these keys, in order. */
  lemma ValuesAre(e: LedgerEntry)
    ensures var v := FieldValues(e);
            && v[1] == JString(if e.kind.Event? then "event" else "seal")
            && v[2] == JNumber(e.seqNo) && v[3] == JString(e.event) && v[4] == JString(e.detail)
            && v[5] == JNumber(e.decision) && v[6] == JNumber(e.bodyUid) && v[7] == JNumber(e.epoch)
            && v[8] == JNumber(e.generation) && v[9] == JNumber(e.certificate)
            && v[10] == JBool(e.quarantined) && v[11] == JBool(e.leasePresent)
  {
    hide Hex16, LeaseValues;
  }

  lemma MoreValuesAre(e: LedgerEntry)
    ensures var v := FieldValues(e);
            && v[12] == NumberOrNull(e.leaseBodyUid) && v[13] == NumberOrNull(e.leaseEpoch)
            && v[14] == NumberOrNull(e.leaseGeneration) && v[15] == NumberOrNull(e.leaseCertificate)
            && v[16] == NumberOrNull(e.leaseValidUntilNs) && v[17] == NumberOrNull(e.leasePrincipalId)
            && v[18] == NumberOrNull(e.leaseResourceId) && v[19] == NumberOrNull(e.leaseActionId)
            && v[20] == NumberOrNull(e.sealedEventCount)
            && v[21] == (if e.sealedEventHash.Some? then JString(Hex16(e.sealedEventHash.value)) else JNull)
            && v[22] == JString(Hex16(e.prevHash)) && v[23] == JString(Hex16(e.hash))
  {
    hide Hex16, HeadValues;
  }

  predicate Reads(m: map<string, JsonValue>, key: string, value: JsonValue)
  {
    key in m && m[key] == value
  }

  predicate ReadsEntry(m: map<string, JsonValue>, e: LedgerEntry)
  {
    && Reads(m, "kind", JString(if e.kind.Event? then "event" else "seal"))
    && Reads(m, "seq", JNumber(e.seqNo)) && Reads(m, "event", JString(e.event)) && Reads(m, "detail", JString(e.detail))
    && Reads(m, "decision", JNumber(e.decision))
  }

  predicate ReadsBody(m: map<string, JsonValue>, e: LedgerEntry)
  {
    && Reads(m, "body_uid", JNumber(e.bodyUid)) && Reads(m, "epoch", JNumber(e.epoch))
    && Reads(m, "generation", JNumber(e.generation)) && Reads(m, "certificate", JNumber(e.certificate))
    && Reads(m, "quarantined", JBool(e.quarantined)) && Reads(m, "lease_present", JBool(e.leasePresent))
  }

  predicate ReadsLease(m: map<string, JsonValue>, e: LedgerEntry)
  {
    && Reads(m, "lease_body_uid", NumberOrNull(e.leaseBodyUid)) && Reads(m, "lease_epoch", NumberOrNull(e.leaseEpoch))
    && Reads(m, "lease_generation", NumberOrNull(e.leaseGeneration))
    && Reads(m, "lease_certificate", NumberOrNull(e.leaseCertificate))
    && Reads(m, "lease_valid_until_ns", NumberOrNull(e.leaseValidUntilNs))
    && Reads(m, "lease_principal_id", NumberOrNull(e.leasePrincipalId))
    && Reads(m, "lease_resource_id", NumberOrNull(e.leaseResourceId))
    && Reads(m, "lease_action_id", NumberOrNull(e.leaseActionId))
  }

  predicate ReadsSeal(m: map<string, JsonValue>, e: LedgerEntry)
  {
    && Reads(m, "sealed_event_count", NumberOrNull(e.sealedEventCount))
    && Reads(m, "sealed_event_hash", if e.sealedEventHash.Some? then JString(Hex16(e.sealedEventHash.value)) else JNull)
    && Reads(m, "prev_hash", JString(Hex16(e.prevHash))) && Reads(m, "hash", JString(Hex16(e.hash)))
  }

  /** What any reader of the line finds under each of its keys. */
  lemma LineReads(e: LedgerEntry)
    ensures var r := ParseObject(Encode(Line(e)));
            && r.Ok?
            && r.value.Keys == (set k | k in KEYS)
            && ReadsEntry(r.value, e) && ReadsBody(r.value, e) && ReadsLease(r.value, e) && ReadsSeal(r.value, e)
  {
    hide Fields, Insert, ParseObject, PrintObject, Encode, Hex16, FieldValues, ReadsEntry, ReadsBody, ReadsLease, ReadsSeal;
    FieldKeys(e);
    ObjectRoundTrip(Fields(e));
    var m := Insert(map[], Fields(e));
    FieldLookup(e, m);
    ReadsFirst(e, m);
    ReadsMiddle(e, m);
    ReadsLast(e, m);
  }

  predicate ReadsFields(m: map<string, JsonValue>, e: LedgerEntry)
  {
    forall i :: 0 <= i < 24 ==> KEYS[i] in m && m[KEYS[i]] == FieldValues(e)[i]
  }

  lemma ReadsAt(e: LedgerEntry, m: map<string, JsonValue>, i: nat)
    requires ReadsFields(m, e) && i < 24
    ensures Reads(m, KEYS[i], FieldValues(e)[i])
  {
    hide FieldValues;
  }

  lemma ReadsFirst(e: LedgerEntry, m: map<string, JsonValue>)
    requires ReadsFields(m, e)
    ensures ReadsEntry(m, e)
  {
    hide FieldValues, Reads, ReadsFields;
    ReadsAt(e, m, 1);
    ReadsAt(e, m, 2);
    ReadsAt(e, m, 3);
    ReadsAt(e, m, 4);
    ReadsAt(e, m, 5);
    FirstKeys();
    ValuesAre(e);
  }

  lemma ReadsMiddle(e: LedgerEntry, m: map<string, JsonValue>)
    requires ReadsFields(m, e)
    ensures ReadsBody(m, e)
  {
    hide FieldValues, Reads, ReadsFields;
    ReadsAt(e, m, 6);
    ReadsAt(e, m, 7);
    ReadsAt(e, m, 8);
    ReadsAt(e, m, 9);
    ReadsAt(e, m, 10);
    ReadsAt(e, m, 11);
    FirstKeys();
    MiddleKeys();
    ValuesAre(e);
  }

  lemma ReadsLast(e: LedgerEntry, m: map<string, JsonValue>)
    requires ReadsFields(m, e)
    ensures ReadsLease(m, e) && ReadsSeal(m, e)
  {
    hide FieldValues, Reads, ReadsFields, Hex16;
    forall i | 12 <= i < 24
      ensures Reads(m, KEYS[i], FieldValues(e)[i])
    {
      ReadsAt(e, m, i);
    }
    MiddleKeys();
    LastKeys();
    MoreValuesAre(e);
  }

  // ---------------------------------------------------------------------------------------------
  // What parses as an entry
  // ---------------------------------------------------------------------------------------------

  lemma {:induction false} OptionalsFrom(f: seq<JsonValue>)
    requires RequireOptionals(f).Ok?
    ensures forall i :: 0 <= i < |f| ==> f[i] == OptionalNumber(RequireOptionals(f).value[i])
  {
    if f != [] {
      OptionalsFrom(f[1..]);
      var r := RequireOptionals(f).value;
      assert r[1..] == RequireOptionals(f[1..]).value;
      assert forall i :: 0 < i < |f| ==> f[i] == f[1..][i - 1] && r[i] == r[1..][i - 1];
    }
  }

  lemma HashFrom(v: JsonValue)
    ensures RequireHash(v).Ok? ==> v == JString(Hex16(RequireHash(v).value))
    ensures RequireOptionalHash(v).Ok? ==> v == OptionalHash(RequireOptionalHash(v).value)
  {
    hide Hex16, ParseHashText;
    if v.JString? && ParseHashText(v.text).Ok? {
      ParseHashTextExact(v.text, ParseHashText(v.text).value);
    }
  }

  lemma SealFrom(t: seq<JsonValue>)
    requires |t| == 4 && SealParses(t)
    ensures t == [OptionalNumber(RequireOptionalU64(t[0]).value), OptionalHash(RequireOptionalHash(t[1]).value),
                  JString(Hex16(RequireHash(t[2]).value)), JString(Hex16(RequireHash(t[3]).value))]
  {
    hide Hex16, RequireHash, RequireOptionalHash, OptionalHash;
    HashFrom(t[1]);
    HashFrom(t[2]);
    HashFrom(t[3]);
  }

  lemma HeadFrom(f: seq<JsonValue>, e: LedgerEntry)
    requires |f| == 12 && HeadParses(f)
    requires e.kind == ParseKind(f[1].text).value && e.seqNo == f[2].number && e.event == f[3].text
    requires e.detail == f[4].text && e.decision == f[5].number && e.bodyUid == f[6].number && e.epoch == f[7].number
    requires e.generation == f[8].number && e.certificate == f[9].number
    requires e.quarantined == f[10].flag && e.leasePresent == f[11].flag
    ensures f == HeadValues(e)
  {
    assert f[1].text == KindText(e.kind);
  }

  /** The fields of an entry that parses are the values it would be written with. */
  lemma FieldsFrom(f: seq<JsonValue>, l: seq<JsonValue>, t: seq<JsonValue>, e: LedgerEntry)
    requires |f| == 12 && |l| == 8 && |t| == 4 && EntryFromFields(f, l, t) == Ok(e)
    ensures f == HeadValues(e) && l == LeaseValues(e) && t == SealValues(e) && e.WellFormed()
  {
    hide HeadParses, SealParses, HeadValues, RequireOptionals, RequireHash, RequireOptionalHash, RequireOptionalU64, Hex16,
         OptionalHash, OptionalNumber;
    FromFieldsIsWellFormed(f, l, t);
    var lease := RequireOptionals(l).value;
    assert HeadParses(f) && SealParses(t) && RequireOptionals(l).Ok?;
    OptionalsFrom(l);
    SealFrom(t);
    assert e.LeaseFields() == lease;
    assert l == LeaseValues(e);
    assert t == SealValues(e);
    HeadTypes(f);
    HeadFrom(f, e);
  }

  lemma HeadTypes(f: seq<JsonValue>)
    requires |f| == 12 && HeadParses(f)
    ensures f[1].JString? && ParseKind(f[1].text).Ok? && f[2].JNumber? && f[3].JString? && f[4].JString?
    ensures f[5].JNumber? && f[6].JNumber? && f[7].JNumber? && f[8].JNumber? && f[9].JNumber? && f[10].JBool? && f[11].JBool?
  {
  }

  lemma SlicesOf(e: LedgerEntry)
    ensures var v := FieldValues(e); v[..12] == HeadValues(e) && v[12..20] == LeaseValues(e) && v[20..] == SealValues(e)
  {
    hide Hex16, HeadValues, LeaseValues, SealValues;
  }

  lemma SlicesAre(f: seq<JsonValue>, e: LedgerEntry)
    requires |f| == 24 && f[..12] == HeadValues(e) && f[12..20] == LeaseValues(e) && f[20..] == SealValues(e)
    ensures f == FieldValues(e)
  {
    hide Hex16, HeadValues, LeaseValues, SealValues;
    assert f == f[..12] + f[12..20] + f[20..];
  }

  /** A line parses as an entry exactly when it is an object with the twenty-four keys and no others, each
      value is the one the entry is written with, and the entry is well formed. */
  lemma EntryExactly(line: string, e: LedgerEntry)
    ensures ParsedEntry(line) == Ok(e) <==>
            && e.WellFormed()
            && ParseObject(Encode(line)).Ok?
            && ParseObject(Encode(line)).value.Keys == (set k | k in KEYS)
            && ReadsFields(ParseObject(Encode(line)).value, e)
  {
    hide ParseObject, EntryFromFields, FieldValues, LedgerEntry.WellFormed, HeadValues, LeaseValues, SealValues, Encode;
    if ParseObject(Encode(line)).Ok? && ParseObject(Encode(line)).value.Keys == (set k | k in KEYS) {
      var m := ParseObject(Encode(line)).value;
      assert forall i :: 0 <= i < 24 ==> KEYS[i] in m;
      var f := seq(24, i requires 0 <= i < 24 => m[KEYS[i]]);
      assert EntryFromValues(m) == EntryFromFields(f[..12], f[12..20], f[20..]);
      if ParsedEntry(line) == Ok(e) {
        FieldsFrom(f[..12], f[12..20], f[20..], e);
        SlicesAre(f, e);
      }
      if e.WellFormed() && ReadsFields(m, e) {
        assert f == FieldValues(e);
        SlicesOf(e);
        FromFieldValues(e);
      }
    }
  }
}
