/** Which findings the layout checks report about any archive (tools/verify_archive.py), told entry by
    entry: each kind of finding has a condition of its own, and is reported exactly when it holds. */
module ArchiveReports {
  import opened Words
  import opened Archive

  // ---------------------------------------------------------------------------------------------
  // The end record
  // ---------------------------------------------------------------------------------------------

  /** What is wrong with an end record at this place. */
  predicate EndWrong(f: Finding, e: EndFields, at: nat, size: nat, startDir: nat, count: nat)
  {
    match f
    case TrailingBytes => at + 22 + e.commentSize != size
    case MultiDisk => !(e.disk == 0 && e.centralDisk == 0 && e.diskEntries == e.totalEntries)
    case EntryCount => e.totalEntries != count
    case DirectoryOffset => e.centralOffset != startDir
    case DirectorySize => e.centralOffset + e.centralSize != at
    case ArchiveComment => e.commentSize != 0
    case _ => false
  }

  lemma EndExactly(before: seq<Finding>, e: EndFields, at: nat, size: nat, startDir: nat, count: nat, f: Finding)
    ensures f in EndFindings(before, e, at, size, startDir, count)
            <==> f in before || EndWrong(f, e, at, size, startDir, count)
  {
  }

  /** What the checks of the end record report. */
  ghost predicate EocdWrong(f: Finding, data: seq<byte>, startDir: nat, count: nat)
  {
    match f
    case TooShort => |data| < 22
    case EndRecordMissing => |data| >= 22 && forall at: nat :: !EndRecordAt(data, at)
    case _ => exists at: nat :: EndRecordAt(data, at)
                                && EndWrong(f, UnpackEnd(data[at..at + 22]), at, |data|, startDir, count)
  }

  lemma EocdExactly(before: seq<Finding>, data: seq<byte>, startDir: nat, count: nat, f: Finding)
    ensures f in EocdFindings(before, data, startDir, count) <==> f in before || EocdWrong(f, data, startDir, count)
  {
    hide UnpackEnd, EndFindings, EndWrong, EndRecordAt, SignatureAt, RFind, TailOf;
    EndRecordFound(data);
    var tail := TailOf(data);
    var i := RFind(tail, |tail|);
    if |data| >= 22 && i.Some? && i.value + 22 <= |tail| {
      var at := |data| - |tail| + i.value;
      assert EndRecordAt(data, at);
      assert tail[i.value..i.value + 22] == data[at..at + 22];
      EndExactly(before, UnpackEnd(data[at..at + 22]), at, |data|, startDir, count, f);
      NeverMissing(f, UnpackEnd(data[at..at + 22]), at, |data|, startDir, count);
    } else {
      assert forall at: nat :: !EndRecordAt(data, at);
      if |data| < 22 {
        NoRecordInShort(data);
      }
    }
  }

  lemma NeverMissing(f: Finding, e: EndFields, at: nat, size: nat, startDir: nat, count: nat)
    ensures f.TooShort? || f.EndRecordMissing? ==> !EndWrong(f, e, at, size, startDir, count)
  {
  }

  lemma NoRecordInShort(data: seq<byte>)
    requires |data| < 22
    ensures forall at: nat :: !EndRecordAt(data, at)
  {
  }

  // ---------------------------------------------------------------------------------------------
  // The local headers
  // ---------------------------------------------------------------------------------------------

  /** The header of an entry, if the file has all of it. */
  function HeaderOf(data: seq<byte>, info: Info): (r: Option<LocalFields>)
  {
    var at := info.headerOffset;
    if at + 30 <= |data| then Some(UnpackLocal(data[at..at + 30])) else None
  }

  /** Where the entry after the first `i` should begin: where the one before ends, by its own header. */
  function ExpectedOffset(data: seq<byte>, infos: seq<Info>, i: nat): (r: nat)
    requires i <= |infos|
  {
    if i == 0 then 0
    else
      var info := infos[i - 1];
      match HeaderOf(data, info)
      case None => info.headerOffset
      case Some(h) => info.headerOffset + 30 + h.nameSize + h.extraSize + info.compressSize
  }

  /** What is wrong with the local header of an entry that the file has all of. */
  predicate HeaderWrong(f: Finding, data: seq<byte>, info: Info, h: LocalFields)
  {
    var at := info.headerOffset;
    match f
    case BadSignature(_) => h.signature != LOCAL_SIGNATURE
    case ExtractVersion(_) => !(h.extractVersion == 20 && info.extractVersion == 20)
    case FlagDrift(_) => !(h.flags == info.flagBits && (h.flags == 0 || h.flags == 0x800))
    case CompressionDrift(_) => !(h.compression == 8 && info.compressType == 8)
    case TimestampDrift(_) => !(h.modTime == 0 && h.modDate == 0x5d22)
    case SizeOrCrc(_) => !(h.crc == info.crc && h.compressedSize == info.compressSize && h.fileSize == info.fileSize)
    case NameMismatch(_) => ReadAt(data, at + 30, h.nameSize) != info.name
    case ExtraField(_) => h.extraSize != 0
    case _ => false
  }

  predicate IsAbout(f: Finding, i: nat)
  {
    match f
    case GapBefore(index) => index == i
    case TruncatedHeader(index) => index == i
    case BadSignature(index) => index == i
    case ExtractVersion(index) => index == i
    case FlagDrift(index) => index == i
    case CompressionDrift(index) => index == i
    case TimestampDrift(index) => index == i
    case SizeOrCrc(index) => index == i
    case NameMismatch(index) => index == i
    case ExtraField(index) => index == i
    case _ => false
  }

  /** What is wrong with an entry. */
  predicate EntryWrong(f: Finding, data: seq<byte>, infos: seq<Info>, i: nat)
    requires i < |infos|
  {
    hide HeaderWrong, IsAbout, UnpackLocal;
    var info := infos[i];
    && IsAbout(f, i)
    && (if f.GapBefore? then info.headerOffset != ExpectedOffset(data, infos, i)
        else if f.TruncatedHeader? then HeaderOf(data, info).None?
        else HeaderOf(data, info).Some? && HeaderWrong(f, data, info, HeaderOf(data, info).value))
  }

  /** What the checks of the entries from number `k` on report. */
  predicate LocalWrong(f: Finding, data: seq<byte>, infos: seq<Info>, k: nat, startDir: nat)
    requires k <= |infos|
  {
    || (f.GapBeforeDirectory? && ExpectedOffset(data, infos, |infos|) != startDir)
    || exists i :: k <= i < |infos| && EntryWrong(f, data, infos, i)
  }

  lemma ExpectedDosIs()
    ensures EXPECTED_DOS == (0, 0x5d22)
  {
  }

  lemma FormatExactly(before: seq<Finding>, data: seq<byte>, info: Info, i: nat, h: LocalFields, f: Finding)
    ensures f in FormatFindings(before, info, i, h) <==>
              f in before
              || ((f.BadSignature? || f.ExtractVersion? || f.FlagDrift? || f.CompressionDrift? || f.TimestampDrift?)
                  && IsAbout(f, i) && HeaderWrong(f, data, info, h))
  {
    hide ReadAt, DosDateTime;
    ExpectedDosIs();
  }

  lemma ContentExactly(before: seq<Finding>, data: seq<byte>, info: Info, i: nat, h: LocalFields, f: Finding)
    ensures f in ContentFindings(before, data, info, i, h) <==>
              f in before
              || ((f.SizeOrCrc? || f.NameMismatch? || f.ExtraField?) && IsAbout(f, i) && HeaderWrong(f, data, info, h))
  {
    hide DosDateTime, ReadAt;
  }

  lemma HeaderExactly(before: seq<Finding>, data: seq<byte>, info: Info, i: nat, h: LocalFields, f: Finding)
    ensures f in HeaderFindings(before, data, info, i, h) <==>
              f in before || (IsAbout(f, i) && HeaderWrong(f, data, info, h))
  {
    hide ReadAt, DosDateTime, FormatFindings, ContentFindings;
    FormatExactly(before, data, info, i, h, f);
    ContentExactly(FormatFindings(before, info, i, h), data, info, i, h, f);
    OnlyHeaderKinds(data, info, h, f);
  }

  lemma OnlyHeaderKinds(data: seq<byte>, info: Info, h: LocalFields, f: Finding)
    ensures HeaderWrong(f, data, info, h) ==>
              f.BadSignature? || f.ExtractVersion? || f.FlagDrift? || f.CompressionDrift? || f.TimestampDrift?
              || f.SizeOrCrc? || f.NameMismatch? || f.ExtraField?
  {
    hide ReadAt;
  }

  /** The findings about one entry, and where the next should begin. */
  lemma StepExactly(before: seq<Finding>, data: seq<byte>, infos: seq<Info>, k: nat, f: Finding)
    returns (after: seq<Finding>)
    requires k < |infos|
    ensures forall startDir: nat ::
              LocalFindings(before, data, infos[k..], k, ExpectedOffset(data, infos, k), startDir)
              == LocalFindings(after, data, infos[k + 1..], k + 1, ExpectedOffset(data, infos, k + 1), startDir)
    ensures f in after <==> f in before || EntryWrong(f, data, infos, k)
  {
    hide UnpackLocal, ReadAt, HeaderFindings, HeaderWrong;
    assert infos[k..][0] == infos[k] && infos[k..][1..] == infos[k + 1..];
    var info, cursor := infos[k], ExpectedOffset(data, infos, k);
    var f1 := Note(before, info.headerOffset != cursor, GapBefore(k));
    var header := ReadAt(data, info.headerOffset, 30);
    HeaderRead(data, info);
    if |header| != 30 {
      after := f1 + [TruncatedHeader(k)];
    } else {
      var h := UnpackLocal(header);
      after := HeaderFindings(f1, data, info, k, h);
      HeaderExactly(f1, data, info, k, h, f);
      OnlyHeaderKinds(data, info, h, f);
    }
  }

  lemma HeaderRead(data: seq<byte>, info: Info)
    ensures var header := ReadAt(data, info.headerOffset, 30);
            HeaderOf(data, info) == if |header| == 30 then Some(UnpackLocal(header)) else None
  {
    hide UnpackLocal;
  }

  lemma LocalWrongStep(f: Finding, data: seq<byte>, infos: seq<Info>, k: nat, startDir: nat)
    requires k < |infos|
    ensures LocalWrong(f, data, infos, k, startDir)
            <==> EntryWrong(f, data, infos, k) || LocalWrong(f, data, infos, k + 1, startDir)
  {
    hide EntryWrong, ExpectedOffset;
  }

  /** Each finding about the local headers is reported exactly when its condition holds. */
  lemma {:induction false} LocalExactly(before: seq<Finding>, data: seq<byte>, infos: seq<Info>, k: nat, startDir: nat,
                                        f: Finding)
    requires k <= |infos|
    ensures f in LocalFindings(before, data, infos[k..], k, ExpectedOffset(data, infos, k), startDir)
            <==> f in before || LocalWrong(f, data, infos, k, startDir)
    decreases |infos| - k
  {
    if k == |infos| {
      hide EntryWrong, ExpectedOffset;
      assert infos[k..] == [];
    } else {
      hide LocalFindings, EntryWrong, ExpectedOffset, LocalWrong;
      var after := StepExactly(before, data, infos, k, f);
      LocalExactly(after, data, infos, k + 1, startDir, f);
      LocalWrongStep(f, data, infos, k, startDir);
    }
  }

  /** The report on any archive: every finding of both checks, and only those. */
  lemma LayoutReport(data: seq<byte>, infos: seq<Info>, startDir: nat, f: Finding)
    ensures f in LocalFindings(EocdFindings([], data, startDir, |infos|), data, infos, 0, 0, startDir)
            <==> EocdWrong(f, data, startDir, |infos|) || LocalWrong(f, data, infos, 0, startDir)
  {
    hide LocalFindings, EocdFindings, EocdWrong, LocalWrong;
    var before := EocdFindings([], data, startDir, |infos|);
    EocdExactly([], data, startDir, |infos|, f);
    LocalExactly(before, data, infos, 0, startDir, f);
    assert infos[0..] == infos;
  }
}
