/** The verification report of every file, accepted or not (src/ledger.rs, `verify_reader`): which lines
    are read, what is counted, and exactly which errors are reported, told from the entries alone. */
module LedgerReports {
  import opened Words
  import opened Utf8
  import opened Lines
  import opened Json
  import opened JsonRoundTrip
  import opened Authority
  import opened LedgerEntries
  import opened LedgerLines
  import opened LedgerChain
  import opened LedgerVerifier
  import opened LedgerIntegrity
  import Fnv

  // ---------------------------------------------------------------------------------------------
  // What is read of a file
  // ---------------------------------------------------------------------------------------------

  /** A line that does not stop the reading; `whole` tells whether its newline is there. */
  datatype LineRead = BlankRead(whole: bool) | EntryRead(entry: LedgerEntry, canonical: bool, whole: bool)

  datatype Stop = AtEnd | AtLongLine | AtBadUtf8(whole: bool) | AtBadEntry(whole: bool)

  datatype Reading = Reading(lines: seq<LineRead>, stop: Stop)

  function ReadFile(s: seq<byte>): (r: Reading)
    decreases |s|
  {
    hide ParsedEntry, Decode;
    if s == [] then Reading([], AtEnd) else FirstOf(s, ReadFile(s[LineLength(s)..]))
  }

  /** ASCII white space: space, tab, line feed, form feed and carriage return. */
  predicate WhiteSpace(content: seq<byte>)
  {
    forall i :: 0 <= i < |content| ==> content[i] in {9, 10, 12, 13, 32}
  }

  lemma BlankIs(content: seq<byte>)
    ensures Blank(content) <==> WhiteSpace(content)
  {
  }

  /** What is read of a file of which `rest` is read after the first line. */
  function FirstOf(s: seq<byte>, rest: Reading): (r: Reading)
    requires s != []
  {
    hide ParsedEntry, Decode;
    var n := LineLength(s);
    var whole, content := s[n - 1] == LF, Content(s[..n]);
    if n > 131_072 then Reading([], AtLongLine)
    else if WhiteSpace(content) then Reading([BlankRead(whole)] + rest.lines, rest.stop)
    else
      match Decode(content)
      case None => Reading([], AtBadUtf8(whole))
      case Some(text) =>
        match ParsedEntry(text)
        case Err => Reading([], AtBadEntry(whole))
        case Ok(e) => Reading([EntryRead(e, content == Encode(Line(e)), whole)] + rest.lines, rest.stop)
  }

  function EntriesOf(lines: seq<LineRead>): (es: seq<LedgerEntry>)
  {
    if lines == [] then []
    else
      var last := lines[|lines| - 1];
      EntriesOf(lines[..|lines| - 1]) + if last.EntryRead? then [last.entry] else []
  }

  function EventCount(es: seq<LedgerEntry>): (n: nat)
    ensures n <= |es|
  {
    if es == [] then 0 else EventCount(es[..|es| - 1]) + if es[|es| - 1].kind.Event? then 1 else 0
  }

  predicate HasSeal(es: seq<LedgerEntry>)
  {
    exists i :: 0 <= i < |es| && es[i].kind.Seal?
  }

  // ---------------------------------------------------------------------------------------------
  // What is wrong with an entry
  // ---------------------------------------------------------------------------------------------

  /** The rule behind each kind of error about an entry, for the entries before it. */
  predicate Breaks(error: VerifyError, before: seq<LedgerEntry>, e: LedgerEntry, canonical: bool)
  {
    match error
    case NonCanonicalJson => !canonical
    case WrongSequence => e.seqNo != Saturate(|before| + 1)
    case WrongPreviousHash => e.prevHash != LastHash(before, 0)
    case NotCanonicalizable => !Encodable(e)
    case WrongHash => Encodable(e) && ExpectedHash(e) != Ok(e.hash)
    case EventAfterSeal => e.kind.Event? && HasSeal(before)
    case DuplicateSeal => e.kind.Seal? && HasSeal(before)
    case InvalidSealMarker => e.kind.Seal? && !(e.event == "LEDGER_SEAL" && e.detail == "terminal seal")
    case SealNotAllow => e.kind.Seal? && e.decision != 0
    case WrongSealedCount => e.kind.Seal? && e.sealedEventCount != Some(Saturate(EventCount(before)))
    case WrongSealedHash => e.kind.Seal? && e.sealedEventHash != Some(e.prevHash)
    case _ => false
  }

  /** `error` if its rule is broken. */
  function Check(error: VerifyError, before: seq<LedgerEntry>, e: LedgerEntry, canonical: bool): (r: seq<VerifyError>)
  {
    if Breaks(error, before, e, canonical) then [error] else []
  }

  /** What is wrong with an entry of either kind, in the order of the report. */
  function LinkBroken(before: seq<LedgerEntry>, e: LedgerEntry, canonical: bool): (r: seq<VerifyError>)
  {
    hide Breaks;
    Check(NonCanonicalJson, before, e, canonical) + Check(WrongSequence, before, e, canonical)
    + Check(WrongPreviousHash, before, e, canonical) + Check(NotCanonicalizable, before, e, canonical)
    + Check(WrongHash, before, e, canonical)
  }

  /** What is wrong with an event after a seal, or with a seal. */
  function KindBroken(before: seq<LedgerEntry>, e: LedgerEntry, canonical: bool): (r: seq<VerifyError>)
  {
    hide Breaks;
    Check(EventAfterSeal, before, e, canonical) + Check(DuplicateSeal, before, e, canonical)
    + Check(InvalidSealMarker, before, e, canonical) + Check(SealNotAllow, before, e, canonical)
    + Check(WrongSealedCount, before, e, canonical) + Check(WrongSealedHash, before, e, canonical)
  }

  function Broken(before: seq<LedgerEntry>, e: LedgerEntry, canonical: bool): (r: seq<VerifyError>)
  {
    hide LinkBroken, KindBroken;
    LinkBroken(before, e, canonical) + KindBroken(before, e, canonical)
  }

  lemma LinkBrokenExactly(before: seq<LedgerEntry>, e: LedgerEntry, canonical: bool, k: VerifyError)
    ensures k in LinkBroken(before, e, canonical)
            <==> Breaks(k, before, e, canonical)
                 && k in {NonCanonicalJson, WrongSequence, WrongPreviousHash, NotCanonicalizable, WrongHash}
  {
    hide Breaks;
  }

  lemma KindBrokenExactly(before: seq<LedgerEntry>, e: LedgerEntry, canonical: bool, k: VerifyError)
    ensures k in KindBroken(before, e, canonical)
            <==> Breaks(k, before, e, canonical)
                 && k in {EventAfterSeal, DuplicateSeal, InvalidSealMarker, SealNotAllow, WrongSealedCount, WrongSealedHash}
  {
    hide Breaks;
  }

  /** The errors about an entry are exactly the rules it breaks. */
  lemma BrokenExactly(before: seq<LedgerEntry>, e: LedgerEntry, canonical: bool, k: VerifyError)
    ensures k in Broken(before, e, canonical) <==> Breaks(k, before, e, canonical)
  {
    hide LinkBroken, KindBroken, Encodable, ExpectedHash, HasSeal, EventCount, LastHash;
    LinkBrokenExactly(before, e, canonical, k);
    KindBrokenExactly(before, e, canonical, k);
  }

  function LineErrors(before: seq<LedgerEntry>, line: LineRead): (r: seq<VerifyError>)
  {
    hide Broken;
    (if line.whole then [] else [MissingNewline])
    + if line.BlankRead? then [BlankLine] else Broken(before, line.entry, line.canonical)
  }

  /** The errors of all lines read, in order. */
  function LinesErrors(lines: seq<LineRead>): (r: seq<VerifyError>)
  {
    hide LineErrors, EntriesOf;
    if lines == [] then []
    else
      var front := lines[..|lines| - 1];
      LinesErrors(front) + LineErrors(EntriesOf(front), lines[|lines| - 1])
  }

  function StopErrors(stop: Stop): (r: seq<VerifyError>)
  {
    match stop
    case AtEnd => []
    case AtLongLine => [LineTooLong]
    case AtBadUtf8(whole) => (if whole then [] else [MissingNewline]) + [InvalidUtf8]
    case AtBadEntry(whole) => (if whole then [] else [MissingNewline]) + [InvalidEntry]
  }

  /** The report that belongs to what was read. */
  function ReportOf(r: Reading): (report: Report)
  {
    hide LinesErrors, EntriesOf;
    var es := EntriesOf(r.lines);
    Report(Saturate(|es|), Saturate(EventCount(es)), LastHash(es, 0),
           LinesErrors(r.lines) + StopErrors(r.stop)
           + (if es == [] then [EmptyLedger] else []) + (if HasSeal(es) then [] else [SealMissing]))
  }

  // ---------------------------------------------------------------------------------------------
  // Every report is that
  // ---------------------------------------------------------------------------------------------

  /** The loop variables after these lines. */
  function StateAfter(lines: seq<LineRead>): (v: State)
  {
    hide LinesErrors, EntriesOf;
    var es := EntriesOf(lines);
    State(Saturate(|es|), Saturate(EventCount(es)), LastHash(es, 0), HasSeal(es), LinesErrors(lines))
  }

  lemma SealMarkerRule(before: seq<LedgerEntry>, e: LedgerEntry, canonical: bool)
    ensures Breaks(InvalidSealMarker, before, e, canonical)
            <==> e.kind.Seal? && (e.event != SEAL_EVENT || e.detail != SEAL_DETAIL)
  {
  }

  lemma SealRules(before: seq<LedgerEntry>, e: LedgerEntry, v: State, canonical: bool)
    requires v.sealSeen == HasSeal(before) && v.eventEntries == Saturate(EventCount(before))
    ensures Breaks(EventAfterSeal, before, e, canonical) <==> e.kind.Event? && v.sealSeen
    ensures Breaks(DuplicateSeal, before, e, canonical) <==> e.kind.Seal? && v.sealSeen
    ensures Breaks(SealNotAllow, before, e, canonical) <==> e.kind.Seal? && e.decision != Allow.Code()
    ensures Breaks(WrongSealedCount, before, e, canonical)
            <==> e.kind.Seal? && e.sealedEventCount != Some(v.eventEntries)
    ensures Breaks(WrongSealedHash, before, e, canonical) <==> e.kind.Seal? && e.sealedEventHash != Some(e.prevHash)
  {
    hide HasSeal, EventCount, Saturate;
  }

  lemma KindErrorsAre(before: seq<LedgerEntry>, e: LedgerEntry, v: State, canonical: bool)
    requires v.sealSeen == HasSeal(before) && v.eventEntries == Saturate(EventCount(before))
    ensures KindErrors(e, v) == KindBroken(before, e, canonical)
  {
    hide HasSeal, EventCount, Saturate, Breaks;
    SealMarkerRule(before, e, canonical);
    SealRules(before, e, v, canonical);
  }

  lemma EntryErrorsAre(before: seq<LedgerEntry>, e: LedgerEntry, content: seq<byte>, v: State)
    requires v.entries == Saturate(|before|) && v.eventEntries == Saturate(EventCount(before))
    requires v.previousHash == LastHash(before, 0) && v.sealSeen == HasSeal(before)
    ensures EntryErrors(e, content, v) == Broken(before, e, content == Encode(Line(e)))
  {
    hide KindErrors, KindBroken, Encode, Line, CanonicalBytes, Encodable, HasSeal, EventCount, LastHash, Fnv.Hash;
    SaturateStep(|before|);
    KindErrorsAre(before, e, v, content == Encode(Line(e)));
  }

  lemma EntriesAppend(lines: seq<LineRead>, line: LineRead)
    ensures EntriesOf(lines + [line]) == EntriesOf(lines) + if line.EntryRead? then [line.entry] else []
    ensures LinesErrors(lines + [line]) == LinesErrors(lines) + LineErrors(EntriesOf(lines), line)
  {
    hide LineErrors;
    assert (lines + [line])[..|lines|] == lines;
  }

  lemma HasSealAppend(es: seq<LedgerEntry>, e: LedgerEntry)
    ensures HasSeal(es + [e]) <==> HasSeal(es) || e.kind.Seal?
    ensures EventCount(es + [e]) == EventCount(es) + if e.kind.Event? then 1 else 0
  {
    var all := es + [e];
    assert all[..|es|] == es && all[|es|] == e;
    assert HasSeal(es) ==> HasSeal(all) by {
      if i :| 0 <= i < |es| && es[i].kind.Seal? {
        assert all[i].kind.Seal?;
      }
    }
    if e.kind.Seal? {
      assert all[|es|].kind.Seal?;
    }
  }

  /** An entry line leads from the state after the lines before it to the state after it. */
  lemma EntryStep(done: seq<LineRead>, e: LedgerEntry, content: seq<byte>, whole: bool, v1: State)
    requires v1 == StateAfter(done).(errors := LinesErrors(done) + When(!whole, MissingNewline))
    ensures AfterEntry(e, content, v1)
            == StateAfter(done + [EntryRead(e, content == Encode(Line(e)), whole)])
  {
    hide EntryErrors, Broken, Encode, Line, EntriesOf, LinesErrors, EventCount, HasSeal;
    var es := EntriesOf(done);
    var line := EntryRead(e, content == Encode(Line(e)), whole);
    EntriesAppend(done, line);
    HasSealAppend(es, e);
    SaturateStep(|es|);
    SaturateStep(EventCount(es));
    EntryErrorsAre(es, e, content, v1);
    Associative(LinesErrors(done), When(!whole, MissingNewline), EntryErrors(e, content, v1));
  }

  lemma BlankStep(done: seq<LineRead>, whole: bool)
    ensures StateAfter(done + [BlankRead(whole)])
            == StateAfter(done).(errors := LinesErrors(done) + When(!whole, MissingNewline) + [BlankLine])
  {
    hide EntriesOf, LinesErrors, EventCount, HasSeal;
    EntriesAppend(done, BlankRead(whole));
    assert EntriesOf(done) + [] == EntriesOf(done);
    Associative(LinesErrors(done), When(!whole, MissingNewline), [BlankLine]);
  }

  /** The state in which the loop ends. */
  function StateAtEnd(lines: seq<LineRead>, stop: Stop): (v: State)
  {
    hide StateAfter, StopErrors;
    StateAfter(lines).(errors := StateAfter(lines).errors + StopErrors(stop))
  }

  /** Whether the first line lets the reading go on, and then what it is read as. */
  predicate GoesOn(s: seq<byte>)
    requires s != []
  {
    hide ParsedEntry, Decode;
    var content := Content(s[..LineLength(s)]);
    && LineLength(s) <= 131_072
    && (WhiteSpace(content) || (Decode(content).Some? && ParsedEntry(Decode(content).value).Ok?))
  }

  function FirstLine(s: seq<byte>): (read: LineRead)
    requires s != [] && GoesOn(s)
  {
    hide ParsedEntry, Decode;
    var n := LineLength(s);
    var whole, content := s[n - 1] == LF, Content(s[..n]);
    if WhiteSpace(content) then BlankRead(whole)
    else
      var e := ParsedEntry(Decode(content).value).value;
      EntryRead(e, content == Encode(Line(e)), whole)
  }

  lemma StopsReading(done: seq<LineRead>, s: seq<byte>, rest: Reading)
    requires s != [] && !GoesOn(s)
    ensures FirstOf(s, rest).lines == []
    ensures AfterLine(s[..LineLength(s)], StateAfter(done)) == (StateAtEnd(done, FirstOf(s, rest).stop), false)
  {
    hide StateAfter, AfterEntry, Encode, Line, Decode, ParsedEntry, Blank, WhiteSpace, LineLength, LinesErrors, EntriesOf;
    var n := LineLength(s);
    var content, whole := Content(s[..n]), s[n - 1] == LF;
    BlankIs(content);
    Associative(StateAfter(done).errors, When(!whole, MissingNewline), [InvalidUtf8]);
    Associative(StateAfter(done).errors, When(!whole, MissingNewline), [InvalidEntry]);
  }

  lemma ReadsOn(done: seq<LineRead>, s: seq<byte>, rest: Reading)
    requires s != [] && GoesOn(s)
    ensures FirstOf(s, rest) == Reading([FirstLine(s)] + rest.lines, rest.stop)
    ensures AfterLine(s[..LineLength(s)], StateAfter(done)) == (StateAfter(done + [FirstLine(s)]), true)
  {
    hide StateAfter, AfterEntry, Encode, Line, Decode, ParsedEntry, Blank, WhiteSpace, LineLength, LinesErrors, EntriesOf;
    var n := LineLength(s);
    var content, whole, v := Content(s[..n]), s[n - 1] == LF, StateAfter(done);
    BlankIs(content);
    ErrorsAfter(done);
    if WhiteSpace(content) {
      BlankStep(done, whole);
    } else {
      var e := ParsedEntry(Decode(content).value).value;
      EntryStep(done, e, content, whole, v.(errors := v.errors + When(!whole, MissingNewline)));
    }
  }

  lemma {:induction false} EveryLine(done: seq<LineRead>, s: seq<byte>)
    ensures VerifyFrom(s, StateAfter(done)) == StateAtEnd(done + ReadFile(s).lines, ReadFile(s).stop)
    decreases |s|
  {
    hide StateAfter, StateAtEnd, AfterLine, LineLength, VerifyFrom, ReadFile, FirstOf, FirstLine, GoesOn;
    if s == [] {
      VerifyNothing(StateAfter(done));
      NothingRead();
      assert done + [] == done;
      NothingStops(done);
    } else {
      var n := LineLength(s);
      var rest := s[n..];
      VerifyFirst(s, StateAfter(done));
      FirstRead(s);
      if GoesOn(s) {
        ReadsOn(done, s, ReadFile(rest));
        EveryLine(done + [FirstLine(s)], rest);
        Associative(done, [FirstLine(s)], ReadFile(rest).lines);
      } else {
        StopsReading(done, s, ReadFile(rest));
        assert done + [] == done;
      }
    }
  }

  lemma NothingStops(done: seq<LineRead>)
    ensures StateAtEnd(done, AtEnd) == StateAfter(done)
  {
    hide StateAfter;
    assert StateAfter(done).errors + [] == StateAfter(done).errors;
  }

  lemma NothingRead()
    ensures ReadFile([]) == Reading([], AtEnd)
  {
  }

  lemma FirstRead(s: seq<byte>)
    requires s != []
    ensures ReadFile(s) == FirstOf(s, ReadFile(s[LineLength(s)..]))
  {
    hide ParsedEntry, Decode, LineLength, Encode, Line, WhiteSpace;
  }

  lemma ErrorsAfter(done: seq<LineRead>)
    ensures StateAfter(done).errors == LinesErrors(done)
  {
  }

  /** The report of every file, accepted or not, told from what is read of it. */
  lemma ReportOfEveryFile(file: seq<byte>)
    ensures Verification(file) == ReportOf(ReadFile(file))
  {
    hide VerifyFrom, ReadFile, LinesErrors, StopErrors, EventCount, HasSeal, EntriesOf, LastHash;
    EveryLine([], file);
    NoLines();
    var r := ReadFile(file);
    assert [] + r.lines == r.lines;
    SaturateZero(|EntriesOf(r.lines)|);
  }

  lemma NoLines()
    ensures StateAfter([]) == START
  {
  }

  lemma SaturateZero(n: nat)
    ensures Saturate(n) == 0 <==> n == 0
  {
  }

  // ---------------------------------------------------------------------------------------------
  // Rendered entries, chained or not
  // ---------------------------------------------------------------------------------------------

  /** Entries whose lines the parser reads back. */
  predicate Readable(es: seq<LedgerEntry>)
  {
    forall i :: 0 <= i < |es| ==> es[i].WellFormed() && es[i].TextFits()
  }

  function OwnLines(es: seq<LedgerEntry>): (r: seq<LineRead>)
    ensures |r| == |es|
  {
    seq(|es|, i requires 0 <= i < |es| => EntryRead(es[i], true, true))
  }

  lemma {:induction false} ReadRendered(es: seq<LedgerEntry>)
    requires Readable(es)
    ensures ReadFile(Render(es)) == Reading(OwnLines(es), AtEnd)
    decreases |es|
  {
    hide WriteJson, ReadFile, FirstOf, LedgerEntry.WellFormed, LedgerEntry.TextFits;
    if es == [] {
      NothingRead();
    } else {
      ReadRendered(es[1..]);
      RenderedFirst(es[0], Render(es[1..]), Reading(OwnLines(es[1..]), AtEnd));
      assert OwnLines(es) == [EntryRead(es[0], true, true)] + OwnLines(es[1..]);
    }
  }

  lemma RenderedFirst(e: LedgerEntry, after: seq<byte>, rest: Reading)
    requires e.WellFormed() && e.TextFits() && ReadFile(after) == rest
    ensures ReadFile(WriteJson(e) + after) == Reading([EntryRead(e, true, true)] + rest.lines, rest.stop)
  {
    hide WriteJson, Encode, Line, Decode, ParsedEntry, ReadFile, Blank, WhiteSpace, LineLength, LedgerEntry.WellFormed,
         LedgerEntry.TextFits;
    OwnLine(e);
    BlankIs(Encode(Line(e)));
    OwnLineLength(e, after);
    var s, n := WriteJson(e) + after, |WriteJson(e)|;
    FirstRead(s);
    assert s[..n] == WriteJson(e) && s[n..] == after;
  }

  lemma {:induction false} EntriesOfOwn(es: seq<LedgerEntry>)
    ensures EntriesOf(OwnLines(es)) == es
    decreases |es|
  {
    hide LinesErrors, LineErrors, Encode, Line;
    if es == [] {
    } else {
      var front, e := es[..|es| - 1], es[|es| - 1];
      EntriesOfOwn(front);
      assert OwnLines(es) == OwnLines(front) + [EntryRead(e, true, true)];
      EntriesAppend(OwnLines(front), EntryRead(e, true, true));
    }
  }

  lemma OwnErrorsAppend(front: seq<LedgerEntry>, e: LedgerEntry)
    ensures LinesErrors(OwnLines(front + [e])) == LinesErrors(OwnLines(front)) + Broken(front, e, true)
  {
    hide Broken, EntriesOf, LinesErrors;
    assert OwnLines(front + [e]) == OwnLines(front) + [EntryRead(e, true, true)];
    EntriesAppend(OwnLines(front), EntryRead(e, true, true));
    EntriesOfOwn(front);
    assert [] + Broken(front, e, true) == Broken(front, e, true);
  }

  /** Some entry breaks the rule. */
  predicate SomewhereBroken(k: VerifyError, es: seq<LedgerEntry>)
  {
    exists i :: 0 <= i < |es| && Breaks(k, es[..i], es[i], true)
  }

  lemma {:induction false} OwnErrorsExactly(es: seq<LedgerEntry>, k: VerifyError)
    ensures k in LinesErrors(OwnLines(es)) <==> SomewhereBroken(k, es)
    decreases |es|
  {
    hide Breaks, Broken;
    if es == [] {
    } else {
      var front, e := es[..|es| - 1], es[|es| - 1];
      assert es == front + [e];
      OwnErrorsExactly(front, k);
      OwnErrorsAppend(front, e);
      BrokenExactly(front, e, true, k);
      SomewhereBrokenAppend(front, e, k);
    }
  }

  lemma SomewhereBrokenAppend(front: seq<LedgerEntry>, e: LedgerEntry, k: VerifyError)
    ensures SomewhereBroken(k, front + [e]) <==> SomewhereBroken(k, front) || Breaks(k, front, e, true)
  {
    hide Breaks;
    var es := front + [e];
    assert es[..|front|] == front && es[|front|] == e;
    assert forall i :: 0 <= i < |front| ==> es[..i] == front[..i] && es[i] == front[i];
    if SomewhereBroken(k, front) {
      var i :| 0 <= i < |front| && Breaks(k, front[..i], front[i], true);
      assert Breaks(k, es[..i], es[i], true);
    }
    if Breaks(k, front, e, true) {
      assert Breaks(k, es[..|front|], es[|front|], true);
    }
  }

  /** The report on any entries written one after the other, chained or not: all of them are counted,
      and an error is reported exactly when some entry breaks its rule. */
  lemma RenderedReport(es: seq<LedgerEntry>)
    requires es != [] && Readable(es)
    ensures var r := Verification(Render(es));
            && r.entries == Saturate(|es|)
            && r.eventEntries == Saturate(EventCount(es))
            && r.finalHash == es[|es| - 1].hash
            && forall k :: k in r.errors <==> SomewhereBroken(k, es) || (k == SealMissing && !HasSeal(es))
  {
    hide Verification, Render, LinesErrors, EntriesOf, SomewhereBroken, HasSeal, EventCount, Readable;
    RenderedErrors(es);
    forall k
      ensures k in Verification(Render(es)).errors <==> SomewhereBroken(k, es) || (k == SealMissing && !HasSeal(es))
    {
      OwnErrorsExactly(es, k);
    }
  }

  lemma ReportOfLines(lines: seq<LineRead>)
    requires EntriesOf(lines) != []
    ensures var es := EntriesOf(lines);
            ReportOf(Reading(lines, AtEnd))
            == Report(Saturate(|es|), Saturate(EventCount(es)), es[|es| - 1].hash,
                      LinesErrors(lines) + if HasSeal(es) then [] else [SealMissing])
  {
    hide LinesErrors, EntriesOf, HasSeal, EventCount, Saturate;
    var errors := LinesErrors(lines);
    assert errors + [] == errors && errors + [] + [] == errors;
  }

  lemma RenderedErrors(es: seq<LedgerEntry>)
    requires es != [] && Readable(es)
    ensures Verification(Render(es))
            == Report(Saturate(|es|), Saturate(EventCount(es)), es[|es| - 1].hash,
                      LinesErrors(OwnLines(es)) + if HasSeal(es) then [] else [SealMissing])
  {
    hide Verification, Render, LinesErrors, EntriesOf, HasSeal, EventCount, Readable, Saturate, ReadFile, ReportOf, OwnLines;
    ReportOfEveryFile(Render(es));
    ReadRendered(es);
    EntriesOfOwn(es);
    ReportOfLines(OwnLines(es));
  }

  // ---------------------------------------------------------------------------------------------
  // The report on an altered verdict
  // ---------------------------------------------------------------------------------------------

  lemma ChainIsReadable(es: seq<LedgerEntry>)
    requires SealedChain(es)
    ensures Readable(es)
  {
    hide SealFor, Linked, LedgerEntry.WellFormed, LedgerEntry.TextFits, ExpectedHash;
    forall i | 0 <= i < |es|
      ensures es[i].WellFormed() && es[i].TextFits()
    {
      LinkedAt(es, 0, 0, i);
      LinkedIsReadable(es[i]);
    }
  }

  lemma LinkedIsReadable(e: LedgerEntry)
    requires SomewhereLinked(e)
    ensures e.WellFormed() && e.TextFits()
  {
    hide CanonicalBytes, Encode;
  }

  /** No entry of a chain breaks a rule. */
  lemma ChainBreaksNothing(es: seq<LedgerEntry>, k: VerifyError, i: nat)
    requires SealedChain(es) && i < |es|
    ensures !Breaks(k, es[..i], es[i], true)
  {
    hide Verification, Render, Breaks, SealedChain, HasSeal, EventCount;
    assert es != [] by {
      ChainIsNotEmpty(es);
    }
    AcceptedReport(es);
    ChainIsReadable(es);
    RenderedReport(es);
    assert !SomewhereBroken(k, es);
  }

  lemma ChainIsNotEmpty(es: seq<LedgerEntry>)
    requires SealedChain(es)
    ensures es != [] && HasSeal(es)
  {
    assert es[|es| - 1].kind.Seal?;
  }

  lemma VerdictKeepsRest(e: LedgerEntry, e': LedgerEntry)
    requires VerdictAltered(e, e')
    ensures e'.hash == e.hash && e'.kind == e.kind && e'.TextFits() == e.TextFits() && Encodable(e') == Encodable(e)
    ensures e.WellFormed() && e'.decision <= 10 ==> e'.WellFormed()
  {
    hide Encode;
    assert e'.LeaseFields() == e.LeaseFields();
  }

  lemma AlteredKeepsRules(before: seq<LedgerEntry>, e: LedgerEntry, e': LedgerEntry, k: VerifyError)
    requires VerdictAltered(e, e') && k != WrongHash && k != SealNotAllow
    ensures Breaks(k, before, e', true) <==> Breaks(k, before, e, true)
  {
    hide Encodable, ExpectedHash, HasSeal, EventCount, LastHash, Saturate;
    VerdictKeepsRest(e, e');
  }

  lemma AlteredSealRule(before: seq<LedgerEntry>, e: LedgerEntry, e': LedgerEntry)
    requires VerdictAltered(e, e') && !Breaks(SealNotAllow, before, e, true)
    ensures Breaks(SealNotAllow, before, e', true) <==> e.kind.Seal? && e'.decision != e.decision
  {
    hide Encodable, ExpectedHash, HasSeal, EventCount, LastHash, Saturate;
  }

  lemma AlteredHashRule(before: seq<LedgerEntry>, e: LedgerEntry, e': LedgerEntry)
    requires VerdictAltered(e, e') && Encodable(e) && ExpectedHash(e) == Ok(e.hash)
    ensures Breaks(WrongHash, before, e', true)
  {
    hide Encodable, ExpectedHash, HasSeal, EventCount, LastHash, Saturate, VerdictAltered;
    VerdictKeepsRest(e, e');
    AlteredVerdictChangesHash(e, e');
  }

  /** What an altered verdict breaks: the hash, and on a seal with another decision the verdict of the seal. */
  function AlteredErrors(e: LedgerEntry, e': LedgerEntry): (r: seq<VerifyError>)
  {
    [WrongHash] + if e.kind.Seal? && e'.decision != e.decision then [SealNotAllow] else []
  }

  lemma AlteredBroken(es: seq<LedgerEntry>, i: nat, e': LedgerEntry)
    requires SealedChain(es) && i < |es| && VerdictAltered(es[i], e')
    ensures Broken(es[..i], e', true) == AlteredErrors(es[i], e')
  {
    hide Breaks, SealedChain, VerdictAltered, Linked, SealFor, Encodable, ExpectedHash, LinkBroken, KindBroken, ChainFrom;
    var before, e := es[..i], es[i];
    forall k
      ensures !Breaks(k, before, e, true)
      ensures k != WrongHash && k != SealNotAllow ==> !Breaks(k, before, e', true)
    {
      ChainBreaksNothing(es, k, i);
      if k != WrongHash && k != SealNotAllow {
        AlteredKeepsRules(before, e, e', k);
      }
    }
    AlteredSealRule(before, e, e');
    ChainCarriesHash(es, i);
    AlteredHashRule(before, e, e');
    OnlyHashBroken(before, e');
    OnlySealBroken(before, e');
  }

  lemma ChainCarriesHash(es: seq<LedgerEntry>, i: nat)
    requires SealedChain(es) && i < |es|
    ensures Encodable(es[i]) && ExpectedHash(es[i]) == Ok(es[i].hash)
  {
    hide Linked, SealFor, SomewhereLinked, Encodable, ExpectedHash;
    LinkedAt(es, 0, 0, i);
    LinkedHash(es[i]);
  }

  lemma OnlyHashBroken(before: seq<LedgerEntry>, e: LedgerEntry)
    requires Breaks(WrongHash, before, e, true)
    requires forall k :: k != WrongHash && k != SealNotAllow ==> !Breaks(k, before, e, true)
    ensures LinkBroken(before, e, true) == [WrongHash]
  {
    hide Breaks;
  }

  lemma OnlySealBroken(before: seq<LedgerEntry>, e: LedgerEntry)
    requires forall k :: k != WrongHash && k != SealNotAllow ==> !Breaks(k, before, e, true)
    ensures KindBroken(before, e, true) == if Breaks(SealNotAllow, before, e, true) then [SealNotAllow] else []
  {
    hide Breaks;
  }

  lemma {:induction false} EventCountKept(es: seq<LedgerEntry>, i: nat, e': LedgerEntry)
    requires i < |es| && e'.kind == es[i].kind
    ensures EventCount(es[i := e']) == EventCount(es) && (HasSeal(es[i := e']) <==> HasSeal(es))
    decreases |es|
  {
    hide HasSeal;
    var es' := es[i := e'];
    var front, front' := es[..|es| - 1], es'[..|es| - 1];
    if i < |es| - 1 {
      assert front' == front[i := e'];
      EventCountKept(front, i, e');
    } else {
      assert front' == front;
    }
    assert es == front + [es[|es| - 1]] && es' == front' + [es'[|es| - 1]];
    HasSealAppend(front, es[|es| - 1]);
    HasSealAppend(front', es'[|es| - 1]);
  }

  lemma RulesKept(before: seq<LedgerEntry>, before': seq<LedgerEntry>, e: LedgerEntry, k: VerifyError)
    requires |before| == |before'| && LastHash(before, 0) == LastHash(before', 0)
    requires HasSeal(before) == HasSeal(before') && EventCount(before) == EventCount(before')
    ensures Breaks(k, before, e, true) == Breaks(k, before', e, true)
  {
    hide Encodable, ExpectedHash, HasSeal, EventCount, LastHash, Saturate;
  }

  lemma NoneIsEmpty(errors: seq<VerifyError>)
    requires forall k :: k !in errors
    ensures errors == []
  {
    if errors != [] {
      SomeError(errors);
      assert false;
    }
  }

  lemma SomeError(errors: seq<VerifyError>)
    requires errors != []
    ensures exists k :: k in errors
  {
    assert errors[0] in errors;
  }

  /** The other entries of the chain break nothing next to the altered one. */
  lemma OthersUnbroken(es: seq<LedgerEntry>, i: nat, e': LedgerEntry, j: nat)
    requires SealedChain(es) && i < |es| && VerdictAltered(es[i], e') && j < |es| && j != i
    ensures Broken(es[i := e'][..j], es[j], true) == []
  {
    hide Breaks, SealedChain, VerdictAltered, HasSeal, EventCount, Broken;
    VerdictKeepsRest(es[i], e');
    var before, before' := es[..j], es[i := e'][..j];
    if j < i {
      assert before' == before;
    } else {
      assert before' == before[i := e'];
      EventCountKept(before, i, e');
    }
    var broken := Broken(before', es[j], true);
    forall k
      ensures k !in broken
    {
      RulesKept(before, before', es[j], k);
      ChainBreaksNothing(es, k, j);
      BrokenExactly(before', es[j], true, k);
    }
    NoneIsEmpty(broken);
  }

  lemma {:induction false} AlteredPrefix(es: seq<LedgerEntry>, i: nat, e': LedgerEntry, m: nat)
    requires SealedChain(es) && i < |es| && VerdictAltered(es[i], e') && m <= |es|
    ensures LinesErrors(OwnLines(es[i := e'][..m])) == if m <= i then [] else AlteredErrors(es[i], e')
    decreases m
  {
    hide Breaks, SealedChain, VerdictAltered, HasSeal, EventCount, Broken, LinesErrors, AlteredErrors;
    var es' := es[i := e'];
    if m == 0 {
      NothingBroken();
      assert es'[..0] == [];
    } else {
      AlteredPrefix(es, i, e', m - 1);
      assert es'[..m] == es'[..m - 1] + [es'[m - 1]];
      OwnErrorsAppend(es'[..m - 1], es'[m - 1]);
      if m - 1 == i {
        assert es'[..i] == es[..i];
        AlteredBroken(es, i, e');
      } else {
        OthersUnbroken(es, i, e', m - 1);
      }
    }
  }

  lemma NothingBroken()
    ensures LinesErrors(OwnLines([])) == []
  {
  }

  /** The exact report on an accepted ledger in which one decision, or one quarantine flag, was altered
      to another value the parser takes: every entry is still counted, the final hash is that of the
      untouched seal, and the only errors are the ones about the altered entry. */
  lemma AlteredVerdictReport(es: seq<LedgerEntry>, i: nat, e': LedgerEntry)
    requires SealedChain(es) && i < |es| && VerdictAltered(es[i], e') && e'.decision <= 10
    ensures Verification(Render(es[i := e'])) == Verification(Render(es)).(errors := AlteredErrors(es[i], e'))
  {
    hide Verification, Render, SealedChain, VerdictAltered, HasSeal, EventCount, LinesErrors, AlteredErrors,
         LedgerEntry.WellFormed, LedgerEntry.TextFits, Saturate;
    var es' := es[i := e'];
    ChainIsNotEmpty(es);
    ChainIsReadable(es);
    VerdictKeepsRest(es[i], e');
    assert Readable(es');
    EventCountKept(es, i, e');
    RenderedErrors(es);
    RenderedErrors(es');
    assert es'[..|es|] == es';
    AlteredPrefix(es, i, e', |es|);
    assert es'[|es| - 1].hash == es[|es| - 1].hash;
  }

  // --- a decision the parser does not take ---

  lemma BadDecisionFields(e: LedgerEntry)
    requires e.decision > 10
    ensures EntryFromFields(HeadValues(e), LeaseValues(e), SealValues(e)) == Err
  {
    assert HeadValues(e)[5] == JNumber(e.decision);
    assert !HeadParses(HeadValues(e));
  }

  lemma BadDecisionValues(e: LedgerEntry, values: map<string, JsonValue>)
    requires e.decision > 10 && values == Insert(map[], Fields(e))
    ensures EntryFromValues(values) == Err
  {
    hide EntryFromFields, Insert;
    FieldKeys(e);
    FieldLookup(e, values);
    var f := seq(24, i requires 0 <= i < 24 => values[KEYS[i]]);
    assert f[..12] == HeadValues(e) && f[12..20] == LeaseValues(e) && f[20..] == SealValues(e);
    BadDecisionFields(e);
  }

  lemma BadDecisionLine(e: LedgerEntry)
    requires e.decision > 10
    ensures ParsedEntry(Line(e)) == Err
  {
    hide Fields, Insert, ParseObject, EntryFromValues;
    FieldKeys(e);
    ObjectRoundTrip(Fields(e));
    BadDecisionValues(e, Insert(map[], Fields(e)));
  }

  lemma BadDecisionFirst(e: LedgerEntry, after: seq<byte>)
    requires e.decision > 10 && e.TextFits()
    ensures ReadFile(WriteJson(e) + after) == Reading([], AtBadEntry(true))
  {
    hide Encode, Line, Decode, ParsedEntry, ReadFile, LineLength, LedgerEntry.WellFormed, LedgerEntry.TextFits;
    LineShape(e);
    LineFits(e);
    OwnLineLength(e, after);
    var s, n := WriteJson(e) + after, |WriteJson(e)|;
    FirstRead(s);
    assert s[..n] == WriteJson(e) && Content(WriteJson(e)) == Encode(Line(e));
    assert !WhiteSpace(Encode(Line(e))) by {
      assert Encode(Line(e))[0] == 123;
    }
    DecodeEncode(Line(e));
    BadDecisionLine(e);
  }

  lemma {:induction false} ReadUpToBad(es: seq<LedgerEntry>, i: nat)
    requires i < |es| && Readable(es[..i]) && es[i].decision > 10 && es[i].TextFits()
    ensures ReadFile(Render(es)) == Reading(OwnLines(es[..i]), AtBadEntry(true))
    decreases |es|
  {
    hide WriteJson, ReadFile, FirstOf, LedgerEntry.WellFormed, LedgerEntry.TextFits;
    if i == 0 {
      BadDecisionFirst(es[0], Render(es[1..]));
    } else {
      assert es[1..][..i - 1] == es[..i][1..];
      ReadUpToBad(es[1..], i - 1);
      assert es[..i][0] == es[0];
      RenderedFirst(es[0], Render(es[1..]), ReadFile(Render(es[1..])));
      assert OwnLines(es[..i]) == [EntryRead(es[0], true, true)] + OwnLines(es[..i][1..]);
    }
  }

  lemma EventsBeforeSeal(es: seq<LedgerEntry>, i: nat)
    requires SealedChain(es) && i < |es|
    ensures !HasSeal(es[..i]) && EventCount(es[..i]) == i && es != []
  {
    hide Linked, SealFor;
    assert forall j :: 0 <= j < i ==> es[..|es| - 1][j] == es[j];
    AllEventsCount(es[..i]);
  }

  lemma {:induction false} AllEventsCount(es: seq<LedgerEntry>)
    requires AllEvents(es)
    ensures EventCount(es) == |es|
    decreases |es|
  {
    if es != [] {
      AllEventsCount(es[..|es| - 1]);
    }
  }

  /** With a decision no entry may have, reading stops at the altered entry. */
  lemma BadDecisionReport(es: seq<LedgerEntry>, i: nat, e': LedgerEntry)
    requires SealedChain(es) && i < |es| && VerdictAltered(es[i], e') && e'.decision > 10
    ensures Verification(Render(es[i := e']))
            == Report(Saturate(i), Saturate(i), LastHash(es[..i], 0),
                      [InvalidEntry] + (if i == 0 then [EmptyLedger] else []) + [SealMissing])
  {
    hide Verification, Render, SealedChain, VerdictAltered, HasSeal, EventCount, LinesErrors, LedgerEntry.WellFormed,
         LedgerEntry.TextFits, Saturate, LastHash, ReadFile;
    var es' := es[i := e'];
    ChainIsReadable(es);
    VerdictKeepsRest(es[i], e');
    assert es'[..i] == es[..i];
    ReadUpToBad(es', i);
    ReportOfEveryFile(Render(es'));
    EntriesOfOwn(es[..i]);
    EventsBeforeSeal(es, i);
    ChainPrefixIsClean(es, i);
  }

  lemma ChainPrefixIsClean(es: seq<LedgerEntry>, m: nat)
    requires SealedChain(es) && m <= |es|
    ensures LinesErrors(OwnLines(es[..m])) == []
  {
    hide Breaks, SealedChain, HasSeal, EventCount, Broken, LinesErrors;
    var errors := LinesErrors(OwnLines(es[..m]));
    forall k
      ensures k !in errors
    {
      OwnErrorsExactly(es[..m], k);
      if SomewhereBroken(k, es[..m]) {
        var i :| 0 <= i < m && Breaks(k, es[..m][..i], es[..m][i], true);
        assert es[..m][..i] == es[..i];
        ChainBreaksNothing(es, k, i);
        assert false;
      }
    }
    NoneIsEmpty(errors);
  }
}
