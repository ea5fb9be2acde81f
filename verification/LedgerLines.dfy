/** The JSON line of a ledger entry: `write_json` and `parse_entry` (src/ledger.rs). */
module LedgerLines {
  import opened Words
  import opened Utf8
  import opened Numerals
  import opened Json
  import opened JsonRoundTrip
  import opened LedgerEntries
  import FlatJson

  const KEYS: seq<string> := [
    "schema", "kind", "seq", "event", "detail", "decision", "body_uid", "epoch", "generation",
    "certificate", "quarantined", "lease_present", "lease_body_uid", "lease_epoch",
    "lease_generation", "lease_certificate", "lease_valid_until_ns", "lease_principal_id",
    "lease_resource_id", "lease_action_id", "sealed_event_count", "sealed_event_hash", "prev_hash",
    "hash"]

  function KindText(k: EntryKind): string
  {
    match k case Event => "event" case Seal => "seal"
  }

  function OptionalNumber(o: Option<u64>): JsonValue
  {
    match o case None => JNull case Some(n) => JNumber(n)
  }

  function OptionalHash(o: Option<u64>): JsonValue
  {
    match o case None => JNull case Some(h) => JString(Hex16(h))
  }

  function HeadValues(e: LedgerEntry): (r: seq<JsonValue>)
    ensures |r| == 12
  {
    [JString(LEDGER_SCHEMA), JString(KindText(e.kind)), JNumber(e.seqNo), JString(e.event), JString(e.detail),
     JNumber(e.decision), JNumber(e.bodyUid), JNumber(e.epoch), JNumber(e.generation), JNumber(e.certificate),
     JBool(e.quarantined), JBool(e.leasePresent)]
  }

  function LeaseValues(e: LedgerEntry): (r: seq<JsonValue>)
    ensures |r| == 8
  {
    seq(8, i requires 0 <= i < 8 => OptionalNumber(e.LeaseFields()[i]))
  }

  function SealValues(e: LedgerEntry): (r: seq<JsonValue>)
    ensures |r| == 4
  {
    [OptionalNumber(e.sealedEventCount), OptionalHash(e.sealedEventHash), JString(Hex16(e.prevHash)),
     JString(Hex16(e.hash))]
  }

  function FieldValues(e: LedgerEntry): (r: seq<JsonValue>)
    ensures |r| == 24
  {
    HeadValues(e) + LeaseValues(e) + SealValues(e)
  }

  function Fields(e: LedgerEntry): (r: seq<Member>)
    ensures |r| == 24
  {
    seq(24, i requires 0 <= i < 24 => Member(KEYS[i], FieldValues(e)[i]))
  }

  /** The line without its newline. */
  function Line(e: LedgerEntry): (r: string)
  {
    PrintObject(Fields(e))
  }

  /** The bytes `write_json` appends to the file. */
  function WriteJson(e: LedgerEntry): (r: seq<byte>)
  {
    Encode(Line(e)) + [10]
  }

  // ---------------------------------------------------------------------------------------------
  // parse_entry
  // ---------------------------------------------------------------------------------------------

  function RequireOptionalU64(v: JsonValue): (r: Result<Option<u64>>)
  {
    match v case JNull => Ok(None) case JNumber(n) => Ok(Some(n)) case _ => Err
  }

  function RequireHash(v: JsonValue): (r: Result<u64>)
  {
    match v case JString(s) => ParseHashText(s) case _ => Err
  }

  function RequireOptionalHash(v: JsonValue): (r: Result<Option<u64>>)
  {
    match v
    case JNull => Ok(None)
    case JString(s) => var h :- ParseHashText(s); Ok(Some(h))
    case _ => Err
  }

  function RequireOptionals(f: seq<JsonValue>): (r: Result<seq<Option<u64>>>)
    ensures r.Ok? ==> |r.value| == |f|
  {
    if f == [] then Ok([])
    else
      var first :- RequireOptionalU64(f[0]);
      var others :- RequireOptionals(f[1..]);
      Ok([first] + others)
  }

  function ParseKind(s: string): (r: Result<EntryKind>)
  {
    if s == "event" then Ok(Event) else if s == "seal" then Ok(Seal) else Err
  }

  /** The twelve leading fields have their types, the schema is ours, the decision is in 0..=10. */
  predicate HeadParses(f: seq<JsonValue>)
    requires |f| == 12
  {
    && f[0] == JString(LEDGER_SCHEMA)
    && f[1].JString? && ParseKind(f[1].text).Ok?
    && f[2].JNumber? && f[3].JString? && f[4].JString?
    && f[5].JNumber? && f[5].number <= 10
    && f[6].JNumber? && f[7].JNumber? && f[8].JNumber? && f[9].JNumber?
    && f[10].JBool? && f[11].JBool?
  }

  predicate SealParses(t: seq<JsonValue>)
    requires |t| == 4
  {
    RequireOptionalU64(t[0]).Ok? && RequireOptionalHash(t[1]).Ok? && RequireHash(t[2]).Ok? && RequireHash(t[3]).Ok?
  }

  function EntryFromFields(f: seq<JsonValue>, l: seq<JsonValue>, t: seq<JsonValue>): (r: Result<LedgerEntry>)
    requires |f| == 12 && |l| == 8 && |t| == 4
  {
    if !HeadParses(f) || !SealParses(t) || RequireOptionals(l).Err? then Err
    else
      var kind, lease := ParseKind(f[1].text).value, RequireOptionals(l).value;
      var count, eventHash := RequireOptionalU64(t[0]).value, RequireOptionalHash(t[1]).value;
      if f[11].flag && exists i :: 0 <= i < 8 && lease[i].None? then Err
      else if !f[11].flag && exists i :: 0 <= i < 8 && lease[i].Some? then Err
      else if kind.Event? && (count.Some? || eventHash.Some?) then Err
      else if kind.Seal? && (count.None? || eventHash.None?) then Err
      else
        Ok(LedgerEntry(
             kind, f[2].number, f[3].text, f[4].text, f[5].number, f[6].number, f[7].number, f[8].number,
             f[9].number, f[10].flag, f[11].flag, lease[0], lease[1], lease[2], lease[3], lease[4], lease[5],
             lease[6], lease[7], count, eventHash, RequireHash(t[2]).value, RequireHash(t[3]).value))
  }

  function EntryFromValues(values: map<string, JsonValue>): (r: Result<LedgerEntry>)
  {
    if values.Keys != (set k | k in KEYS) then Err
    else
      assert forall i :: 0 <= i < 24 ==> KEYS[i] in values;
      var f := seq(24, i requires 0 <= i < 24 => values[KEYS[i]]);
      EntryFromFields(f[..12], f[12..20], f[20..])
  }

  function ParsedEntry(line: string): (r: Result<LedgerEntry>)
  {
    var values :- ParseObject(Encode(line));
    EntryFromValues(values)
  }

  method ParseEntry(line: string) returns (r: Result<LedgerEntry>)
    ensures r == ParsedEntry(line)
  {
    var parser := new FlatJson.FlatJsonParser(line);
    var values :- parser.ParseObject();
    r := EntryFromValues(values);
  }

  // ---------------------------------------------------------------------------------------------
  // Round trip
  // ---------------------------------------------------------------------------------------------

  /** Whatever parses is well formed. */
  lemma ParsedIsWellFormed(line: string)
    requires ParsedEntry(line).Ok?
    ensures ParsedEntry(line).value.WellFormed()
  {
    hide ParseObject, EntryFromFields, LedgerEntry.WellFormed;
    var values := ParseObject(Encode(line)).value;
    assert EntryFromValues(values).Ok?;
    assert forall i :: 0 <= i < 24 ==> KEYS[i] in values;
    var f := seq(24, i requires 0 <= i < 24 => values[KEYS[i]]);
    FromFieldsIsWellFormed(f[..12], f[12..20], f[20..]);
  }

  lemma FromFieldsIsWellFormed(f: seq<JsonValue>, l: seq<JsonValue>, t: seq<JsonValue>)
    requires |f| == 12 && |l| == 8 && |t| == 4 && EntryFromFields(f, l, t).Ok?
    ensures EntryFromFields(f, l, t).value.WellFormed()
  {
    var e, lease := EntryFromFields(f, l, t).value, RequireOptionals(l).value;
    assert e.LeaseFields() == lease;
  }

  lemma {:induction false} RequireOptionalsOf(f: seq<JsonValue>, fields: seq<Option<u64>>)
    requires |f| == |fields| && forall i :: 0 <= i < |f| ==> f[i] == OptionalNumber(fields[i])
    ensures RequireOptionals(f) == Ok(fields)
  {
    if f != [] {
      RequireOptionalsOf(f[1..], fields[1..]);
      assert fields == [fields[0]] + fields[1..];
    }
  }

  lemma HashesParse(e: LedgerEntry)
    ensures RequireHash(JString(Hex16(e.prevHash))) == Ok(e.prevHash)
    ensures RequireHash(JString(Hex16(e.hash))) == Ok(e.hash)
    ensures RequireOptionalHash(OptionalHash(e.sealedEventHash)) == Ok(e.sealedEventHash)
  {
    ParseHashTextExact(Hex16(e.prevHash), e.prevHash);
    ParseHashTextExact(Hex16(e.hash), e.hash);
    if e.sealedEventHash.Some? {
      ParseHashTextExact(Hex16(e.sealedEventHash.value), e.sealedEventHash.value);
    }
  }

  lemma FromFieldValues(e: LedgerEntry)
    requires e.WellFormed()
    ensures EntryFromFields(HeadValues(e), LeaseValues(e), SealValues(e)) == Ok(e)
  {
    hide Hex16, ParseHashText, Encode;
    HashesParse(e);
    RequireOptionalsOf(LeaseValues(e), e.LeaseFields());
    assert HeadParses(HeadValues(e)) && SealParses(SealValues(e));
  }

  lemma KeysDistinct()
    ensures forall i, j :: 0 <= i < j < |KEYS| ==> KEYS[i] != KEYS[j]
  {
  }

  lemma FieldKeys(e: LedgerEntry)
    ensures DistinctKeys(Fields(e))
    ensures Insert(map[], Fields(e)).Keys == (set k | k in KEYS)
  {
    var ms := Fields(e);
    KeysDistinct();
    InsertKeys(map[], ms);
    assert forall i :: 0 <= i < 24 ==> ms[i].key == KEYS[i];
  }

  lemma FieldLookup(e: LedgerEntry, values: map<string, JsonValue>)
    requires values == Insert(map[], Fields(e))
    ensures forall i :: 0 <= i < 24 ==> KEYS[i] in values && values[KEYS[i]] == FieldValues(e)[i]
  {
    FieldKeys(e);
    forall i | 0 <= i < 24
      ensures KEYS[i] in values && values[KEYS[i]] == FieldValues(e)[i]
    {
      InsertFinds(map[], Fields(e), i);
      assert Fields(e)[i].key == KEYS[i];
    }
  }

  lemma EntryFromInserted(e: LedgerEntry, values: map<string, JsonValue>)
    requires e.WellFormed() && values == Insert(map[], Fields(e))
    ensures EntryFromValues(values) == Ok(e)
  {
    FieldKeys(e);
    FieldLookup(e, values);
    var f := seq(24, i requires 0 <= i < 24 => values[KEYS[i]]);
    assert f[..12] == HeadValues(e) && f[12..20] == LeaseValues(e) && f[20..] == SealValues(e);
    FromFieldValues(e);
  }

  /** JSON round trip: the line of a well-formed entry parses to that entry. */
  lemma EntryRoundTrip(e: LedgerEntry)
    requires e.WellFormed()
    ensures ParsedEntry(Line(e)) == Ok(e)
  {
    FieldKeys(e);
    ObjectRoundTrip(Fields(e));
    EntryFromInserted(e, Insert(map[], Fields(e)));
  }

  lemma Hex16Injective(g: u64, h: u64)
    requires Hex16(g) == Hex16(h)
    ensures g == h
  {
    ParseHashTextExact(Hex16(g), g);
    ParseHashTextExact(Hex16(h), h);
  }

  lemma FieldValuesInjective(d: LedgerEntry, e: LedgerEntry)
    requires HeadValues(d) == HeadValues(e) && LeaseValues(d) == LeaseValues(e) && SealValues(d) == SealValues(e)
    ensures d == e
  {
    hide Hex16;
    var hd, he := HeadValues(d), HeadValues(e);
    assert forall i :: 0 <= i < 12 ==> hd[i] == he[i];
    assert hd[1] == he[1] && hd[2] == he[2] && hd[3] == he[3] && hd[4] == he[4] && hd[5] == he[5] && hd[6] == he[6];
    assert hd[7] == he[7] && hd[8] == he[8] && hd[9] == he[9] && hd[10] == he[10] && hd[11] == he[11];
    assert d.LeaseFields() == e.LeaseFields() by {
      forall i | 0 <= i < 8
        ensures d.LeaseFields()[i] == e.LeaseFields()[i]
      {
        assert LeaseValues(d)[i] == LeaseValues(e)[i];
      }
    }
    LeaseFieldsAgree(d, e);
    var sd, se := SealValues(d), SealValues(e);
    assert sd[0] == se[0] && sd[1] == se[1] && sd[2] == se[2] && sd[3] == se[3];
    Hex16Injective(d.prevHash, e.prevHash);
    Hex16Injective(d.hash, e.hash);
    if d.sealedEventHash.Some? {
      Hex16Injective(d.sealedEventHash.value, e.sealedEventHash.value);
    }
  }

  /** The printed line determines the entry, well formed or not. */
  lemma WriteJsonInjective(d: LedgerEntry, e: LedgerEntry)
    requires WriteJson(d) == WriteJson(e)
    ensures d == e
  {
    hide Fields, Insert, Encode, PrintObject, ParseObject, Hex16;
    assert WriteJson(d)[..|WriteJson(d)| - 1] == Encode(Line(d));
    assert WriteJson(e)[..|WriteJson(e)| - 1] == Encode(Line(e));
    FieldKeys(d);
    FieldKeys(e);
    ObjectRoundTrip(Fields(d));
    ObjectRoundTrip(Fields(e));
    FieldLookup(d, Insert(map[], Fields(d)));
    FieldLookup(e, Insert(map[], Fields(e)));
    var fd, fe := FieldValues(d), FieldValues(e);
    assert fd == fe;
    assert fd[..12] == HeadValues(d) && fd[12..20] == LeaseValues(d) && fd[20..] == SealValues(d);
    assert fe[..12] == HeadValues(e) && fe[12..20] == LeaseValues(e) && fe[20..] == SealValues(e);
    FieldValuesInjective(d, e);
  }
}
