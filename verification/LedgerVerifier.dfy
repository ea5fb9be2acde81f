/** The streaming verifier (src/ledger.rs, `verify_reader`) and the exact language it accepts. */
module LedgerVerifier {
  import opened Words
  import opened Utf8
  import opened Lines
  import opened Authority
  import opened LedgerEntries
  import opened LedgerLines
  import opened LedgerChain

  datatype VerifyError =
    | LineTooLong | MissingNewline | BlankLine | InvalidUtf8 | InvalidEntry | NonCanonicalJson
    | WrongSequence | WrongPreviousHash | WrongHash | NotCanonicalizable | EventAfterSeal
    | DuplicateSeal | InvalidSealMarker | SealNotAllow | WrongSealedCount | WrongSealedHash
    | EmptyLedger | SealMissing

  /** The loop variables of the verifier. */
  datatype State = State(
    entries: u64, eventEntries: u64, previousHash: u64, sealSeen: bool, errors: seq<VerifyError>)

  datatype Report = Report(entries: u64, eventEntries: u64, finalHash: u64, errors: seq<VerifyError>)
  {
    predicate Passed()
    {
      errors == [] && entries > 0
    }
  }

  const START := State(0, 0, 0, false, [])

  function When(condition: bool, error: VerifyError): (r: seq<VerifyError>)
    ensures r == [] <==> !condition
  {
    if condition then [error] else []
  }

  /** The checks on a parsed entry against its canonical line and the entries before it. */
  function EntryErrors(e: LedgerEntry, content: seq<byte>, v: State): (r: seq<VerifyError>)
  {
    When(Encode(Line(e)) != content, NonCanonicalJson)
    + When(e.seqNo != Saturate(v.entries + 1), WrongSequence)
    + When(e.prevHash != v.previousHash, WrongPreviousHash)
    + (match ExpectedHash(e)
       case Err => [NotCanonicalizable]
       case Ok(expected) => When(e.hash != expected, WrongHash))
    + KindErrors(e, v)
  }

  function KindErrors(e: LedgerEntry, v: State): (r: seq<VerifyError>)
  {
    match e.kind
    case Event => When(v.sealSeen, EventAfterSeal)
    case Seal =>
      When(v.sealSeen, DuplicateSeal)
      + When(e.event != SEAL_EVENT || e.detail != SEAL_DETAIL, InvalidSealMarker)
      + When(e.decision != Allow.Code(), SealNotAllow)
      + When(e.sealedEventCount != Some(v.eventEntries), WrongSealedCount)
      + When(e.sealedEventHash != Some(e.prevHash), WrongSealedHash)
  }

  function AfterEntry(e: LedgerEntry, content: seq<byte>, v: State): (r: State)
  {
    State(Saturate(v.entries + 1),
          if e.kind.Event? then Saturate(v.eventEntries + 1) else v.eventEntries,
          e.hash,
          v.sealSeen || e.kind.Seal?,
          v.errors + EntryErrors(e, content, v))
  }

  /** `u8::is_ascii_whitespace`. */
  predicate IsAsciiSpace(b: byte)
  {
    b == 32 || b == 9 || b == 10 || b == 12 || b == 13
  }

  predicate Blank(content: seq<byte>)
  {
    forall i :: 0 <= i < |content| ==> IsAsciiSpace(content[i])
  }

  function Content(line: seq<byte>): (r: seq<byte>)
    requires line != []
  {
    if line[|line| - 1] == LF then line[..|line| - 1] else line
  }

  /** One turn of the loop; the flag tells whether the loop goes on. */
  function AfterLine(line: seq<byte>, v: State): (r: (State, bool))
    requires line != []
  {
    if |line| > MAX_LINE_BYTES then (v.(errors := v.errors + [LineTooLong]), false)
    else
      var content := Content(line);
      var v1 := v.(errors := v.errors + When(line[|line| - 1] != LF, MissingNewline));
      if Blank(content) then (v1.(errors := v1.errors + [BlankLine]), true)
      else
        match Decode(content)
        case None => (v1.(errors := v1.errors + [InvalidUtf8]), false)
        case Some(text) =>
          match ParsedEntry(text)
          case Err => (v1.(errors := v1.errors + [InvalidEntry]), false)
          case Ok(e) => (AfterEntry(e, content, v1), true)
  }

  function VerifyFrom(s: seq<byte>, v: State): (r: State)
    decreases |s|
  {
    if s == [] then v
    else
      var n := LineLength(s);
      var (v', go) := AfterLine(s[..n], v);
      if go then VerifyFrom(s[n..], v') else v'
  }

  function Verification(file: seq<byte>): (r: Report)
  {
    var v := VerifyFrom(file, START);
    Report(v.entries, v.eventEntries, v.previousHash,
           v.errors + When(v.entries == 0, EmptyLedger) + When(!v.sealSeen, SealMissing))
  }

  method VerifyReader(file: seq<byte>) returns (report: Report)
    ensures report == Verification(file)
  {
    hide VerifyFrom, EntryErrors, Decode, ParsedEntry, Blank, LineLength;
    var errors: seq<VerifyError> := [];
    var entries: u64, eventEntries: u64, previousHash: u64 := 0, 0, 0;
    var sealSeen := false;
    var position := 0;
    while position < |file|
      invariant 0 <= position <= |file|
      invariant VerifyFrom(file[position..], State(entries, eventEntries, previousHash, sealSeen, errors))
                == VerifyFrom(file, START)
    {
      ghost var v := State(entries, eventEntries, previousHash, sealSeen, errors);
      var end := ReadLine(file, position);
      var bytes := file[position..end];
      ghost var (after, go) := AfterLine(bytes, v);
      VerifyStep(file, position, end, v);
      if |bytes| > MAX_LINE_BYTES {
        errors := errors + [LineTooLong];
        break;
      }
      ghost var content := Content(bytes);
      if bytes[|bytes| - 1] == LF {
        bytes := bytes[..|bytes| - 1];
      } else {
        errors := errors + [MissingNewline];
      }
      ghost var v1 := State(entries, eventEntries, previousHash, sealSeen, errors);
      assert bytes == content && v1 == v.(errors := v.errors + When(file[end - 1] != LF, MissingNewline));
      var blank := IsBlank(bytes);
      if blank {
        errors := errors + [BlankLine];
        assert go && after == State(entries, eventEntries, previousHash, sealSeen, errors);
        position := end;
        continue;
      }
      var line := Decode(bytes);
      if line.None? {
        errors := errors + [InvalidUtf8];
        break;
      }
      var parsed := ParseEntry(line.value);
      if parsed.Err? {
        errors := errors + [InvalidEntry];
        break;
      }
      var entry := parsed.value;
      errors := errors + EntryErrors(entry, bytes, State(entries, eventEntries, previousHash, sealSeen, errors));
      entries := Saturate(entries + 1);
      if entry.kind.Event? {
        eventEntries := Saturate(eventEntries + 1);
      } else {
        sealSeen := true;
      }
      previousHash := entry.hash;
      assert go && after == State(entries, eventEntries, previousHash, sealSeen, errors);
      position := end;
    }
    assert State(entries, eventEntries, previousHash, sealSeen, errors) == VerifyFrom(file, START) by {
      if position == |file| {
        VerifyEnd(file, State(entries, eventEntries, previousHash, sealSeen, errors));
      }
    }
    errors := errors + When(entries == 0, EmptyLedger) + When(!sealSeen, SealMissing);
    return Report(entries, eventEntries, previousHash, errors);
  }

  lemma VerifyStep(file: seq<byte>, position: nat, end: nat, v: State)
    requires position < |file| && end == position + LineLength(file[position..])
    ensures position < end <= |file|
    ensures var (after, go) := AfterLine(file[position..end], v);
            VerifyFrom(file[position..], v) == if go then VerifyFrom(file[end..], after) else after
  {
    hide AfterLine;
    var s := file[position..];
    assert s[..end - position] == file[position..end] && s[end - position..] == file[end..];
  }

  lemma VerifyNothing(v: State)
    ensures VerifyFrom([], v) == v
  {
  }

  lemma VerifyFirst(s: seq<byte>, v: State)
    requires s != []
    ensures var n := LineLength(s); var (after, go) := AfterLine(s[..n], v);
            VerifyFrom(s, v) == if go then VerifyFrom(s[n..], after) else after
  {
    hide AfterLine;
  }

  lemma VerifyEnd(file: seq<byte>, v: State)
    ensures VerifyFrom(file[|file|..], v) == v
  {
    assert file[|file|..] == [];
  }

  method IsBlank(content: seq<byte>) returns (blank: bool)
    ensures blank <==> Blank(content)
  {
    for i := 0 to |content|
      invariant forall j :: 0 <= j < i ==> IsAsciiSpace(content[j])
    {
      if !IsAsciiSpace(content[i]) {
        return false;
      }
    }
    return true;
  }

  // ---------------------------------------------------------------------------------------------
  // The accepted language
  // ---------------------------------------------------------------------------------------------

  lemma {:induction false} ErrorsOnlyGrow(s: seq<byte>, v: State)
    ensures v.errors <= VerifyFrom(s, v).errors
    decreases |s|
  {
    if s != [] {
      var n := LineLength(s);
      var (v', go) := AfterLine(s[..n], v);
      assert v.errors <= v'.errors;
      if go {
        ErrorsOnlyGrow(s[n..], v');
      }
    }
  }

  /** A line leaves no error exactly when it is the canonical line of an entry that links on and, if
      it is a seal, seals what came before. */
  predicate GoodLine(line: seq<byte>, e: LedgerEntry, v: State)
  {
    && line == WriteJson(e)
    && Linked(e, v.entries + 1, v.previousHash)
    && !v.sealSeen
    && (e.kind.Seal? ==> SealFor(e, v.eventEntries))
  }

  lemma NoEntryErrors(e: LedgerEntry, content: seq<byte>, v: State)
    requires e.WellFormed()
    ensures EntryErrors(e, content, v) == []
            <==> content == Encode(Line(e)) && Linked(e, v.entries + 1, v.previousHash)
                 && !v.sealSeen && (e.kind.Seal? ==> SealFor(e, v.eventEntries))
  {
    hide ExpectedHash, Line, Encode, LedgerEntry.WellFormed;
    assert KindErrors(e, v) == [] <==> !v.sealSeen && (e.kind.Seal? ==> SealFor(e, v.eventEntries));
  }

  lemma CleanLineIsGood(line: seq<byte>, v: State) returns (e: LedgerEntry)
    requires line != [] && v.errors == [] && AfterLine(line, v).0.errors == []
    ensures GoodLine(line, e, v)
    ensures AfterLine(line, v) == (AfterEntry(e, Encode(Line(e)), v), true)
  {
    hide EntryErrors, Line, Encode, Decode, ParsedEntry, Linked, SealFor, LedgerEntry.WellFormed;
    var content := Content(line);
    assert line[|line| - 1] == LF;
    assert !Blank(content) && Decode(content).Some?;
    var text := Decode(content).value;
    assert ParsedEntry(text).Ok?;
    e := ParsedEntry(text).value;
    ParsedIsWellFormed(text);
    assert v.(errors := v.errors + []) == v;
    NoEntryErrors(e, content, v);
    assert line == content + [LF];
  }

  lemma OwnLine(e: LedgerEntry)
    requires e.WellFormed() && e.TextFits()
    ensures var line := WriteJson(e);
            && line != [] && |line| <= MAX_LINE_BYTES && line[|line| - 1] == LF
            && Content(line) == Encode(Line(e))
            && !Blank(Content(line))
            && Decode(Content(line)) == Some(Line(e))
            && ParsedEntry(Line(e)) == Ok(e)
  {
    hide ParsedEntry, LedgerEntry.WellFormed, Line, Encode, Decode;
    LineShape(e);
    LineFits(e);
    assert !IsAsciiSpace(Encode(Line(e))[0]);
    assert Content(WriteJson(e)) == Encode(Line(e));
    DecodeEncode(Line(e));
    EntryRoundTrip(e);
  }

  lemma OwnLineLength(e: LedgerEntry, rest: seq<byte>)
    ensures LineLength(WriteJson(e) + rest) == |WriteJson(e)|
  {
    hide Line, Encode;
    LineShape(e);
    LineLengthIs(WriteJson(e) + rest, |WriteJson(e)|);
  }

  lemma GoodLineIsClean(line: seq<byte>, e: LedgerEntry, v: State)
    requires GoodLine(line, e, v)
    ensures line != [] && AfterLine(line, v) == (AfterEntry(e, Encode(Line(e)), v), true)
    ensures AfterEntry(e, Encode(Line(e)), v).errors == v.errors
  {
    hide EntryErrors, Line, Encode, Decode, ParsedEntry, SealFor, LedgerEntry.WellFormed, WriteJson, Blank;
    OwnLine(e);
    NoEntryErrors(e, Encode(Line(e)), v);
    assert v.(errors := v.errors + []) == v;
  }

  /** Nothing may follow a seal. */
  lemma AfterSealOnlyErrors(s: seq<byte>, v: State)
    requires v.sealSeen && s != []
    ensures VerifyFrom(s, v).errors != []
  {
    var n := LineLength(s);
    var (v', go) := AfterLine(s[..n], v);
    if v'.errors == [] {
      assert v.errors == [];
      var e := CleanLineIsGood(s[..n], v);
      assert false;
    }
    if go {
      ErrorsOnlyGrow(s[n..], v');
    }
  }

  /** The state after `n` good event lines. */
  predicate Before(v: State, n: nat)
  {
    v.entries == Saturate(n) && v.eventEntries == Saturate(n) && !v.sealSeen && v.errors == []
  }

  lemma SaturateStep(n: nat)
    ensures Saturate(Saturate(n) + 1) == Saturate(n + 1)
  {
  }

  lemma LinkedSaturates(e: LedgerEntry, n: nat, prev: u64)
    ensures Linked(e, Saturate(n) + 1, prev) == Linked(e, n + 1, prev)
  {
    SaturateStep(n);
  }

  lemma SealForSaturates(e: LedgerEntry, n: nat)
    ensures SealFor(e, Saturate(n)) == SealFor(e, n)
  {
    assert Saturate(Saturate(n)) == Saturate(n);
  }

  lemma SealedFromStep(es: seq<LedgerEntry>, n: nat, prev: u64)
    requires es != [] && es[0].kind.Event?
    ensures SealedFrom(es, n, prev) <==> Linked(es[0], n + 1, prev) && SealedFrom(es[1..], n + 1, es[0].hash)
  {
    hide Linked;
    if |es| > 1 {
      var front, back := es[..|es| - 1], es[1..][..|es[1..]| - 1];
      assert front == [es[0]] + back;
      assert AllEvents(front) <==> AllEvents(back) by {
        assert forall i :: 0 <= i < |back| ==> back[i] == front[i + 1];
      }
    }
  }

  lemma SealedFromSeal(es: seq<LedgerEntry>, n: nat, prev: u64)
    requires es != [] && es[0].kind.Seal?
    ensures SealedFrom(es, n, prev) <==> es == [es[0]] && Linked(es[0], n + 1, prev) && SealFor(es[0], n)
  {
    hide Linked;
    if |es| > 1 {
      assert es[..|es| - 1][0] == es[0];
      assert !AllEvents(es[..|es| - 1]);
    } else {
      assert es == [es[0]] && es[1..] == [];
      assert ChainFrom(es[1..], n + 1, es[0].hash);
    }
  }

  /** The first line of a cleanly verified file is an event after which verification goes on, or the
      seal that ends the file. */
  lemma FirstGoodLine(s: seq<byte>, v: State, n: nat) returns (e: LedgerEntry, v': State, rest: seq<byte>)
    requires Before(v, n)
    requires VerifyFrom(s, v).errors == [] && VerifyFrom(s, v).sealSeen
    ensures s == WriteJson(e) + rest && |rest| < |s|
    ensures Linked(e, n + 1, v.previousHash)
    ensures e.kind.Seal? ==> SealFor(e, n) && rest == []
    ensures e.kind.Event? ==> VerifyFrom(s, v) == VerifyFrom(rest, v') && Before(v', n + 1) && v'.previousHash == e.hash
  {
    hide Linked, SealFor, WriteJson, AfterEntry, AfterLine, VerifyFrom, LineLength, Line, Encode;
    if s == [] {
      VerifyNothing(v);
      assert false;
    }
    VerifyFirst(s, v);
    var k := LineLength(s);
    rest := s[k..];
    var go := AfterLine(s[..k], v).1;
    v' := AfterLine(s[..k], v).0;
    if go {
      ErrorsOnlyGrow(rest, v');
    }
    e := CleanLineIsGood(s[..k], v);
    GoodFirst(e, v, v', n);
    assert s == s[..k] + rest;
    if e.kind.Seal? && rest != [] {
      AfterSealOnlyErrors(rest, v');
    }
  }

  /** Soundness: clean verification exhibits the entries. */
  lemma {:induction false} VerifiedIsChain(s: seq<byte>, v: State, n: nat) returns (es: seq<LedgerEntry>)
    requires Before(v, n)
    requires VerifyFrom(s, v).errors == [] && VerifyFrom(s, v).sealSeen
    ensures SealedFrom(es, n, v.previousHash) && s == Render(es)
    decreases |s|
  {
    hide Linked, SealFor, WriteJson, SealedFrom, VerifyFrom, Before;
    var e, v', rest := FirstGoodLine(s, v, n);
    if e.kind.Seal? {
      es := [e];
      SealedFromSeal(es, n, v.previousHash);
      RenderOne(e);
      assert WriteJson(e) + [] == WriteJson(e);
    } else {
      var others := VerifiedIsChain(rest, v', n + 1);
      es := [e] + others;
      assert es[1..] == others;
      SealedFromStep(es, n, v.previousHash);
    }
  }

  lemma GoodFirst(e: LedgerEntry, v: State, v': State, n: nat)
    requires Before(v, n) && Linked(e, v.entries + 1, v.previousHash)
    requires e.kind.Seal? ==> SealFor(e, v.eventEntries)
    requires v' == AfterEntry(e, Encode(Line(e)), v) && v'.errors == []
    ensures Linked(e, n + 1, v.previousHash) && v'.previousHash == e.hash
    ensures if e.kind.Seal? then SealFor(e, n) && v'.sealSeen else Before(v', n + 1)
  {
    hide EntryErrors, LedgerEntry.WellFormed, ExpectedHash, Encode, Line;
    SaturateStep(n);
    SealForSaturates(e, n);
  }

  lemma RenderOne(e: LedgerEntry)
    ensures Render([e]) == WriteJson(e)
  {
    hide WriteJson;
    assert [e][1..] == [];
  }

  /** A good first line is consumed without error. */
  lemma GoodLineFirst(e: LedgerEntry, after: seq<byte>, v: State)
    requires GoodLine(WriteJson(e), e, v)
    ensures VerifyFrom(WriteJson(e) + after, v) == VerifyFrom(after, AfterEntry(e, Encode(Line(e)), v))
    ensures AfterEntry(e, Encode(Line(e)), v).errors == v.errors
  {
    hide Linked, SealFor, WriteJson, EntryErrors, AfterLine, VerifyFrom, LineLength, AfterEntry, GoodLine;
    var line := WriteJson(e);
    GoodLineIsClean(line, e, v);
    OwnLineLength(e, after);
    VerifyFirst(line + after, v);
    assert (line + after)[..|line|] == line && (line + after)[|line|..] == after;
  }

  /** The verifier's state after a chain that ends with a seal, when `n` events came before it. */
  function Sealed(es: seq<LedgerEntry>, n: nat): State
    requires es != []
  {
    State(Saturate(n + |es|), Saturate(n + |es| - 1), es[|es| - 1].hash, true, [])
  }

  lemma StateAfterGood(e: LedgerEntry, v: State, n: nat)
    requires Before(v, n) && AfterEntry(e, Encode(Line(e)), v).errors == []
    ensures var v' := AfterEntry(e, Encode(Line(e)), v);
            && v'.previousHash == e.hash
            && (e.kind.Seal? ==> v' == State(Saturate(n + 1), Saturate(n), e.hash, true, []))
            && (e.kind.Event? ==> Before(v', n + 1))
  {
    hide EntryErrors, Encode, Line;
    SaturateStep(n);
  }

  /** The first entry of a chain is read without error, and leaves the state for the rest of it. */
  lemma FirstVerifies(es: seq<LedgerEntry>, rest: seq<byte>, v: State, n: nat)
    requires es != [] && Before(v, n) && SealedFrom(es, n, v.previousHash)
    ensures var v' := AfterEntry(es[0], Encode(Line(es[0])), v);
            && VerifyFrom(Render(es) + rest, v) == VerifyFrom(Render(es[1..]) + rest, v')
            && (es[0].kind.Seal? ==> es[1..] == [] && v' == Sealed(es, n))
            && (es[0].kind.Event? ==> Before(v', n + 1) && SealedFrom(es[1..], n + 1, v'.previousHash))
  {
    hide Linked, SealFor, WriteJson, VerifyFrom, SealedFrom, Encode, Line, AfterEntry, GoodLine;
    var e := es[0];
    LinkedSaturates(e, n, v.previousHash);
    assert Render(es) + rest == WriteJson(e) + (Render(es[1..]) + rest);
    if e.kind.Seal? {
      SealedFromSeal(es, n, v.previousHash);
      SealForSaturates(e, n);
    } else {
      SealedFromStep(es, n, v.previousHash);
    }
    FirstIsGood(e, v);
    GoodLineFirst(e, Render(es[1..]) + rest, v);
    StateAfterGood(e, v, n);
  }

  lemma FirstIsGood(e: LedgerEntry, v: State)
    requires !v.sealSeen && Linked(e, v.entries + 1, v.previousHash)
    requires e.kind.Seal? ==> SealFor(e, v.eventEntries)
    ensures GoodLine(WriteJson(e), e, v)
  {
    hide Linked, SealFor, WriteJson;
  }

  /** Completeness: a rendered chain verifies cleanly, and what follows it is read in the state it
      leaves. */
  lemma {:induction false} ChainVerifies(es: seq<LedgerEntry>, rest: seq<byte>, v: State, n: nat)
    requires Before(v, n) && SealedFrom(es, n, v.previousHash)
    ensures es != [] && VerifyFrom(Render(es) + rest, v) == VerifyFrom(rest, Sealed(es, n))
    decreases |es|
  {
    hide Render, VerifyFrom, AfterEntry, Encode, Line, Before;
    FirstVerifies(es, rest, v, n);
    if es[0].kind.Seal? {
      assert Render([]) + rest == rest by {
        NothingRendered();
      }
    } else {
      ChainVerifies(es[1..], rest, AfterEntry(es[0], Encode(Line(es[0])), v), n + 1);
    }
  }

  lemma NothingRendered()
    ensures Render([]) == []
  {
  }

  /** The ledger language, both directions and with no bound on the file: the verifier passes a byte
      string exactly when it is the concatenation of the canonical lines of chained events followed
      by one seal. (Counters saturate at 2^64 - 1, in the entries as in the verifier.) */
  lemma AcceptedLanguage(file: seq<byte>)
    ensures Verification(file).Passed() <==> exists es :: SealedChain(es) && file == Render(es)
  {
    if Verification(file).Passed() {
      var es := AcceptedEntries(file);
    }
    if es :| SealedChain(es) && file == Render(es) {
      AcceptedReport(es);
    }
  }

  lemma AcceptedEntries(file: seq<byte>) returns (es: seq<LedgerEntry>)
    requires Verification(file).Passed()
    ensures SealedChain(es) && file == Render(es)
  {
    es := VerifiedIsChain(file, START, 0);
  }

  /** What the report of an accepted file says. */
  lemma AcceptedReport(es: seq<LedgerEntry>)
    requires SealedChain(es)
    ensures Verification(Render(es)) == Report(Saturate(|es|), Saturate(|es| - 1), es[|es| - 1].hash, [])
    ensures Verification(Render(es)).Passed()
  {
    hide Linked, SealFor, Render, VerifyFrom;
    ChainVerifies(es, [], START, 0);
    assert Render(es) + [] == Render(es);
    VerifyNothing(State(Saturate(|es|), Saturate(|es| - 1), es[|es| - 1].hash, true, []));
  }
}
