/** The layout checks of the release archive (tools/verify_archive.py), against the record formats of
    sections 4.3.7 and 4.3.16 of the PKWARE ZIP APPNOTE. The central directory is read by a library: its
    entries, their raw names and the offset where it starts are given. */
module Archive {
  import opened Words

  const EOCD_SIGNATURE: seq<byte> := [0x50, 0x4b, 0x05, 0x06]
  const LOCAL_SIGNATURE: seq<byte> := [0x50, 0x4b, 0x03, 0x04]
  const ZIP_DEFLATED := 8
  const UTF8_FLAG := 0x800

  datatype Timestamp = Timestamp(year: nat, month: nat, day: nat, hour: nat, minute: nat, second: nat)

  const EXPECTED_TIMESTAMP := Timestamp(2026, 9, 2, 0, 0, 0)

  /** An entry of the central directory; `name` is its file name as bytes. */
  datatype Info = Info(
    headerOffset: nat, extractVersion: nat, flagBits: nat, compressType: nat, crc: nat, compressSize: nat,
    fileSize: nat, name: seq<byte>)

  datatype Finding =
    | TooShort
    | EndRecordMissing
    | TrailingBytes
    | MultiDisk
    | EntryCount
    | DirectoryOffset
    | DirectorySize
    | ArchiveComment
    | GapBefore(index: nat)
    | TruncatedHeader(index: nat)
    | BadSignature(index: nat)
    | ExtractVersion(index: nat)
    | FlagDrift(index: nat)
    | CompressionDrift(index: nat)
    | TimestampDrift(index: nat)
    | SizeOrCrc(index: nat)
    | NameMismatch(index: nat)
    | ExtraField(index: nat)
    | GapBeforeDirectory

  // ---------------------------------------------------------------------------------------------
  // Little-endian fields
  // ---------------------------------------------------------------------------------------------

  function FromLittleEndian(s: seq<byte>): (r: nat)
  {
    if s == [] then 0 else s[0] + 0x100 * FromLittleEndian(s[1..])
  }

  /** `stream.seek(position); stream.read(count)`. */
  function ReadAt(data: seq<byte>, position: nat, count: nat): (r: seq<byte>)
    ensures |r| <= count && (position + count <= |data| ==> r == data[position..position + count])
  {
    if position >= |data| then []
    else if position + count > |data| then data[position..] else data[position..position + count]
  }

  function Field(record: seq<byte>, offset: nat, width: nat): (r: nat)
    requires offset + width <= |record|
  {
    FromLittleEndian(record[offset..offset + width])
  }

  /** Time and date of a timestamp in range, as two words. */
  function DosDateTime(t: Timestamp): (r: (nat, nat))
    requires t.year >= 1980
  {
    (t.hour * 0x800 + t.minute * 0x20 + t.second / 2, (t.year - 1980) * 0x200 + t.month * 0x20 + t.day)
  }

  const EXPECTED_DOS := DosDateTime(EXPECTED_TIMESTAMP)

  // ---------------------------------------------------------------------------------------------
  // The end record
  // ---------------------------------------------------------------------------------------------

  predicate SignatureAt(s: seq<byte>, i: nat)
  {
    i + 4 <= |s| && s[i..i + 4] == EOCD_SIGNATURE
  }

  /** The last place below a limit where the signature stands. */
  function RFind(s: seq<byte>, limit: nat): (r: Option<nat>)
    ensures r.Some? ==> r.value < limit && SignatureAt(s, r.value) && forall i :: r.value < i < limit ==> !SignatureAt(s, i)
    ensures r.None? ==> forall i :: 0 <= i < limit ==> !SignatureAt(s, i)
  {
    if limit == 0 then None else if SignatureAt(s, limit - 1) then Some(limit - 1) else RFind(s, limit - 1)
  }

  function TailOf(data: seq<byte>): (tail: seq<byte>)
    ensures |tail| <= |data| && tail == data[|data| - |tail|..]
  {
    if |data| <= 22 + 65535 then data else data[|data| - (22 + 65535)..]
  }

  /** `errors.append` under a condition. */
  function Note(findings: seq<Finding>, condition: bool, finding: Finding): (r: seq<Finding>)
  {
    if condition then findings + [finding] else findings
  }

  datatype EndFields = EndFields(
    disk: nat, centralDisk: nat, diskEntries: nat, totalEntries: nat, centralSize: nat, centralOffset: nat, commentSize: nat)

  function UnpackEnd(record: seq<byte>): EndFields
    requires |record| == 22
  {
    EndFields(Field(record, 4, 2), Field(record, 6, 2), Field(record, 8, 2), Field(record, 10, 2), Field(record, 12, 4),
              Field(record, 16, 4), Field(record, 20, 2))
  }

  /** The findings about an end record. */
  function EndFindings(before: seq<Finding>, e: EndFields, offset: nat, size: nat, startDir: nat,
        count: nat): (r: seq<Finding>)
  {
    var f1 := Note(before, offset + 22 + e.commentSize != size, TrailingBytes);
    var f2 := Note(f1, e.disk != 0 || e.centralDisk != 0 || e.diskEntries != e.totalEntries, MultiDisk);
    var f3 := Note(f2, e.totalEntries != count, EntryCount);
    var f4 := Note(f3, e.centralOffset != startDir, DirectoryOffset);
    var f5 := Note(f4, e.centralOffset + e.centralSize != offset, DirectorySize);
    Note(f5, e.commentSize != 0, ArchiveComment)
  }

  function EocdFindings(before: seq<Finding>, data: seq<byte>, startDir: nat, count: nat): (r: seq<Finding>)
  {
    if |data| < 22 then before + [TooShort]
    else
      var tail := TailOf(data);
      match RFind(tail, |tail|)
      case None => before + [EndRecordMissing]
      case Some(i) =>
        if i + 22 > |tail| then before + [EndRecordMissing]
        else EndFindings(before, UnpackEnd(tail[i..i + 22]), |data| - |tail| + i, |data|, startDir, count)
  }

  /** Where the end record stands: at the last signature of the file, if that is among the last 22 and
      65535 bytes and a whole record follows it. */
  predicate EndRecordAt(data: seq<byte>, at: nat)
  {
    && at + 22 <= |data| <= at + 22 + 65535
    && SignatureAt(data, at)
    && forall i :: at < i < |data| ==> !SignatureAt(data, i)
  }

  lemma TailSignature(data: seq<byte>, i: nat)
    requires i < |TailOf(data)|
    ensures SignatureAt(TailOf(data), i) <==> SignatureAt(data, |data| - |TailOf(data)| + i)
  {
    var tail := TailOf(data);
    var base := |data| - |tail|;
    if i + 4 <= |tail| {
      assert tail[i..i + 4] == data[base + i..base + i + 4];
    }
  }

  /** The search in the tail finds it. */
  lemma EndRecordFound(data: seq<byte>)
    ensures var tail := TailOf(data);
            var i := RFind(tail, |tail|);
            forall at: nat :: EndRecordAt(data, at) <==>
              |data| >= 22 && i.Some? && i.value + 22 <= |tail| && at == |data| - |tail| + i.value
  {
    hide SignatureAt;
    var tail := TailOf(data);
    var base := |data| - |tail|;
    forall i | 0 <= i < |tail|
      ensures SignatureAt(tail, i) <==> SignatureAt(data, base + i)
    {
      TailSignature(data, i);
    }
    var found := RFind(tail, |tail|);
    if found.Some? {
      assert forall i :: base + found.value < i < |data| ==> SignatureAt(data, i) == SignatureAt(tail, i - base);
    }
    forall at: nat | EndRecordAt(data, at)
      ensures found == Some(at - base)
    {
      assert SignatureAt(tail, at - base);
    }
  }

  method VerifyEocd(data: seq<byte>, startDir: nat, count: nat,
        before: seq<Finding>) returns (findings: seq<Finding>, offset: Option<nat>)
    ensures findings == EocdFindings(before, data, startDir, count)
    ensures forall at: nat :: offset == Some(at) <==> EndRecordAt(data, at)
  {
    hide Field, UnpackEnd, EndRecordAt;
    EndRecordFound(data);
    findings := before;
    if |data| < 22 {
      return findings + [TooShort], None;
    }
    var tail := TailOf(data);
    var i := RFind(tail, |tail|);
    if i.None? || i.value + 22 > |tail| {
      return findings + [EndRecordMissing], None;
    }
    var at := |data| - |tail| + i.value;
    var e := UnpackEnd(tail[i.value..i.value + 22]);
    if at + 22 + e.commentSize != |data| {
      findings := findings + [TrailingBytes];
    }
    if e.disk != 0 || e.centralDisk != 0 || e.diskEntries != e.totalEntries {
      findings := findings + [MultiDisk];
    }
    if e.totalEntries != count {
      findings := findings + [EntryCount];
    }
    if e.centralOffset != startDir {
      findings := findings + [DirectoryOffset];
    }
    if e.centralOffset + e.centralSize != at {
      findings := findings + [DirectorySize];
    }
    if e.commentSize != 0 {
      findings := findings + [ArchiveComment];
    }
    return findings, Some(at);
  }

  // ---------------------------------------------------------------------------------------------
  // The local headers
  // ---------------------------------------------------------------------------------------------

  predicate OnlyUtf8Flag(flags: nat)
  {
    flags == 0 || flags == UTF8_FLAG
  }

  datatype LocalFields = LocalFields(
    signature: seq<byte>, extractVersion: nat, flags: nat, compression: nat, modTime: nat, modDate: nat, crc: nat,
    compressedSize: nat, fileSize: nat, nameSize: nat, extraSize: nat)

  function UnpackLocal(header: seq<byte>): LocalFields
    requires |header| == 30
  {
    LocalFields(header[..4], Field(header, 4, 2), Field(header, 6, 2), Field(header, 8, 2), Field(header, 10, 2),
                Field(header, 12, 2), Field(header, 14, 4), Field(header, 18, 4), Field(header, 22, 4), Field(header, 26, 2),
                Field(header, 28, 2))
  }

  function FormatFindings(before: seq<Finding>, info: Info, index: nat, h: LocalFields): (r: seq<Finding>)
  {
    var f1 := Note(before, h.signature != LOCAL_SIGNATURE, BadSignature(index));
    var f2 := Note(f1, h.extractVersion != 20 || info.extractVersion != 20, ExtractVersion(index));
    var f3 := Note(f2, h.flags != info.flagBits || !OnlyUtf8Flag(h.flags), FlagDrift(index));
    var f4 := Note(f3, h.compression != ZIP_DEFLATED || h.compression != info.compressType, CompressionDrift(index));
    Note(f4, h.modTime != EXPECTED_DOS.0 || h.modDate != EXPECTED_DOS.1, TimestampDrift(index))
  }

  function ContentFindings(before: seq<Finding>, data: seq<byte>, info: Info, index: nat, h: LocalFields): (r: seq<Finding>)
  {
    var rawName := ReadAt(data, info.headerOffset + 30, h.nameSize);
    var rawExtra := ReadAt(data, info.headerOffset + 30 + |rawName|, h.extraSize);
    var drift := h.crc != info.crc || h.compressedSize != info.compressSize || h.fileSize != info.fileSize;
    var f1 := Note(before, drift, SizeOrCrc(index));
    var f2 := Note(f1, rawName != info.name, NameMismatch(index));
    Note(f2, rawExtra != [] || h.extraSize != 0, ExtraField(index))
  }

  /** The findings about one local header. */
  function HeaderFindings(before: seq<Finding>, data: seq<byte>, info: Info, index: nat, h: LocalFields): (r: seq<Finding>)
  {
    ContentFindings(FormatFindings(before, info, index, h), data, info, index, h)
  }

  function RecordEnd(info: Info, h: LocalFields): nat
  {
    info.headerOffset + 30 + h.nameSize + h.extraSize + info.compressSize
  }

  /** The findings about the headers of these entries, the first of which has this index, when the
      record before ends at the cursor. */
  function LocalFindings(before: seq<Finding>, data: seq<byte>, infos: seq<Info>, index: nat, cursor: nat,
        startDir: nat): (r: seq<Finding>)
    decreases |infos|
  {
    if infos == [] then Note(before, cursor != startDir, GapBeforeDirectory)
    else
      var info := infos[0];
      var f1 := Note(before, info.headerOffset != cursor, GapBefore(index));
      var header := ReadAt(data, info.headerOffset, 30);
      if |header| != 30 then
        LocalFindings(f1 + [TruncatedHeader(index)], data, infos[1..], index + 1, info.headerOffset, startDir)
      else
        var h := UnpackLocal(header);
        LocalFindings(HeaderFindings(f1, data, info, index, h), data, infos[1..], index + 1, RecordEnd(info, h), startDir)
  }

  method VerifyFormat(info: Info, index: nat, h: LocalFields, before: seq<Finding>) returns (findings: seq<Finding>)
    ensures findings == FormatFindings(before, info, index, h)
  {
    hide DosDateTime;
    findings := before;
    if h.signature != LOCAL_SIGNATURE {
      findings := findings + [BadSignature(index)];
    }
    if h.extractVersion != 20 || info.extractVersion != 20 {
      findings := findings + [ExtractVersion(index)];
    }
    if h.flags != info.flagBits || !OnlyUtf8Flag(h.flags) {
      findings := findings + [FlagDrift(index)];
    }
    if h.compression != ZIP_DEFLATED || h.compression != info.compressType {
      findings := findings + [CompressionDrift(index)];
    }
    if h.modTime != EXPECTED_DOS.0 || h.modDate != EXPECTED_DOS.1 {
      findings := findings + [TimestampDrift(index)];
    }
  }

  method VerifyHeader(data: seq<byte>, info: Info, index: nat, h: LocalFields,
        before: seq<Finding>) returns (findings: seq<Finding>)
    ensures findings == HeaderFindings(before, data, info, index, h)
  {
    hide ReadAt, FormatFindings;
    var rawName := ReadAt(data, info.headerOffset + 30, h.nameSize);
    var rawExtra := ReadAt(data, info.headerOffset + 30 + |rawName|, h.extraSize);
    findings := VerifyFormat(info, index, h, before);
    if h.crc != info.crc || h.compressedSize != info.compressSize || h.fileSize != info.fileSize {
      findings := findings + [SizeOrCrc(index)];
    }
    if rawName != info.name {
      findings := findings + [NameMismatch(index)];
    }
    if rawExtra != [] || h.extraSize != 0 {
      findings := findings + [ExtraField(index)];
    }
  }

  /** Where the data of an entry begins, after its name and extra field as the file itself counts them;
      nowhere if the file ends inside the header. */
  function DataOffset(data: seq<byte>, info: Info): (r: Option<nat>)
  {
    var at := info.headerOffset;
    if at + 30 > |data| then None else Some(at + 30 + Field(data, at + 26, 2) + Field(data, at + 28, 2))
  }

  lemma DataOffsetRead(data: seq<byte>, info: Info)
    ensures var header := ReadAt(data, info.headerOffset, 30);
            DataOffset(data, info)
            == if |header| != 30 then None
               else Some(info.headerOffset + 30 + UnpackLocal(header).nameSize + UnpackLocal(header).extraSize)
  {
    hide FromLittleEndian;
    var at, header := info.headerOffset, ReadAt(data, info.headerOffset, 30);
    if at + 30 <= |data| {
      assert header[26..28] == data[at + 26..at + 28] && header[28..30] == data[at + 28..at + 30];
    }
  }

  method VerifyLocalHeaders(data: seq<byte>, infos: seq<Info>, startDir: nat, before: seq<Finding>)
    returns (findings: seq<Finding>, dataOffsets: seq<Option<nat>>)
    ensures findings == LocalFindings(before, data, infos, 0, 0, startDir)
    ensures |dataOffsets| == |infos|
    ensures forall i :: 0 <= i < |infos| ==> dataOffsets[i] == DataOffset(data, infos[i])
  {
    hide HeaderFindings, UnpackLocal, ReadAt, DataOffset;
    findings, dataOffsets := before, [];
    var cursor: nat := 0;
    for i := 0 to |infos|
      invariant |dataOffsets| == i
      invariant forall j :: 0 <= j < i ==> dataOffsets[j] == DataOffset(data, infos[j])
      invariant LocalFindings(findings, data, infos[i..], i, cursor, startDir) == LocalFindings(before, data,
            infos, 0, 0, startDir)
    {
      var info := infos[i];
      assert infos[i..][0] == info && infos[i..][1..] == infos[i + 1..];
      if info.headerOffset != cursor {
        findings := findings + [GapBefore(i)];
        cursor := info.headerOffset;
      }
      var header := ReadAt(data, info.headerOffset, 30);
      DataOffsetRead(data, info);
      if |header| != 30 {
        findings := findings + [TruncatedHeader(i)];
        dataOffsets := dataOffsets + [None];
        continue;
      }
      var h := UnpackLocal(header);
      findings := VerifyHeader(data, info, i, h, findings);
      dataOffsets := dataOffsets + [Some(info.headerOffset + 30 + h.nameSize + h.extraSize)];
      cursor := info.headerOffset + 30 + h.nameSize + h.extraSize + info.compressSize;
    }
    assert infos[|infos|..] == [];
    if cursor != startDir {
      findings := findings + [GapBeforeDirectory];
    }
  }

  // ---------------------------------------------------------------------------------------------
  // No findings means an exact tiling
  // ---------------------------------------------------------------------------------------------

  /** What the local header of an entry must read: section 4.3.7 of the APPNOTE, with the release's
      fixed version, flags, method and time, and no extra field. */
  function ExpectedLocal(info: Info): LocalFields
  {
    LocalFields(LOCAL_SIGNATURE, 20, info.flagBits, ZIP_DEFLATED, EXPECTED_DOS.0, EXPECTED_DOS.1, info.crc,
                info.compressSize, info.fileSize, |info.name|, 0)
  }

  /** An entry the release allows stands at its offset: a header that reads as expected, and the name. */
  predicate RecordAt(data: seq<byte>, info: Info)
  {
    hide UnpackLocal, DosDateTime;
    var at := info.headerOffset;
    && info.extractVersion == 20 && OnlyUtf8Flag(info.flagBits) && info.compressType == ZIP_DEFLATED
    && at + 30 + |info.name| <= |data|
    && UnpackLocal(data[at..at + 30]) == ExpectedLocal(info)
    && data[at + 30..at + 30 + |info.name|] == info.name
  }

  function EndOf(info: Info): nat
  {
    info.headerOffset + 30 + |info.name| + info.compressSize
  }

  /** The records follow one another from the cursor on, and end where the directory starts. */
  predicate RecordsTile(data: seq<byte>, infos: seq<Info>, cursor: nat, startDir: nat)
    decreases |infos|
  {
    hide RecordAt;
    if infos == [] then cursor == startDir
    else
      && infos[0].headerOffset == cursor
      && RecordAt(data, infos[0])
      && RecordsTile(data, infos[1..], EndOf(infos[0]), startDir)
  }

  /** Records, directory and a 22-byte end record without comment, one directly after the other. */
  predicate Tiles(data: seq<byte>, infos: seq<Info>, startDir: nat)
  {
    && startDir + 22 <= |data|
    && RecordsTile(data, infos, 0, startDir)
    && SignatureAt(data, |data| - 22)
    && UnpackEnd(data[|data| - 22..]) == EndFields(0, 0, |infos|, |infos|, |data| - 22 - startDir, startDir, 0)
  }

  lemma {:induction false} RecordsEndAtDirectory(data: seq<byte>, infos: seq<Info>, cursor: nat, startDir: nat)
    requires RecordsTile(data, infos, cursor, startDir)
    ensures cursor <= startDir
    decreases |infos|
  {
    hide RecordAt;
    if infos != [] {
      RecordsEndAtDirectory(data, infos[1..], EndOf(infos[0]), startDir);
    }
  }

  lemma HeaderClean(before: seq<Finding>, data: seq<byte>, info: Info, index: nat, h: LocalFields)
    ensures HeaderFindings(before, data, info, index, h) == [] <==>
            && before == []
            && info.extractVersion == 20 && OnlyUtf8Flag(info.flagBits) && info.compressType == ZIP_DEFLATED
            && h.extraSize == 0 && h == ExpectedLocal(info).(nameSize := h.nameSize)
            && ReadAt(data, info.headerOffset + 30, h.nameSize) == info.name
  {
    hide ReadAt, DosDateTime;
    FormatClean(before, info, index, h);
    hide FormatFindings;
  }

  lemma FormatClean(before: seq<Finding>, info: Info, index: nat, h: LocalFields)
    ensures FormatFindings(before, info, index, h) == [] <==>
            && before == []
            && h.signature == LOCAL_SIGNATURE && h.extractVersion == info.extractVersion == 20
            && h.flags == info.flagBits && OnlyUtf8Flag(h.flags) && h.compression == info.compressType == ZIP_DEFLATED
            && h.modTime == EXPECTED_DOS.0 && h.modDate == EXPECTED_DOS.1
  {
    hide DosDateTime;
  }

  lemma {:induction false} LocalNeverCleans(before: seq<Finding>, data: seq<byte>, infos: seq<Info>, index: nat,
        cursor: nat, startDir: nat)
    requires LocalFindings(before, data, infos, index, cursor, startDir) == []
    ensures before == []
    decreases |infos|
  {
    hide UnpackLocal, ReadAt, HeaderFindings;
    if infos != [] {
      var info := infos[0];
      var f1 := Note(before, info.headerOffset != cursor, GapBefore(index));
      var header := ReadAt(data, info.headerOffset, 30);
      if |header| != 30 {
        LocalNeverCleans(f1 + [TruncatedHeader(index)], data, infos[1..], index + 1, info.headerOffset, startDir);
      } else {
        var h := UnpackLocal(header);
        LocalNeverCleans(HeaderFindings(f1, data, info, index, h), data, infos[1..], index + 1, RecordEnd(info, h), startDir);
        HeaderClean(f1, data, info, index, h);
      }
    }
  }

  /** The header checks are clean exactly when the records tile the part before the directory. */
  lemma {:induction false} LocalClean(data: seq<byte>, infos: seq<Info>, index: nat, cursor: nat, startDir: nat)
    requires startDir <= |data|
    ensures LocalFindings([], data, infos, index, cursor, startDir) == [] <==> RecordsTile(data, infos, cursor, startDir)
    decreases |infos|
  {
    hide UnpackLocal, ReadAt, HeaderFindings, RecordAt, DosDateTime;
    if infos != [] {
      var info := infos[0];
      var header := ReadAt(data, info.headerOffset, 30);
      var f1 := Note([], info.headerOffset != cursor, GapBefore(index));
      if |header| != 30 {
        ShortHeader(data, info);
        if LocalFindings([], data, infos, index, cursor, startDir) == [] {
          LocalNeverCleans(f1 + [TruncatedHeader(index)], data, infos[1..], index + 1, info.headerOffset, startDir);
        }
      } else {
        var h := UnpackLocal(header);
        FirstRecord(data, infos, index, cursor, startDir, h);
      }
    }
  }

  lemma ShortHeader(data: seq<byte>, info: Info)
    requires |ReadAt(data, info.headerOffset, 30)| != 30
    ensures !RecordAt(data, info)
  {
    hide UnpackLocal, DosDateTime;
  }

  lemma FirstRecord(data: seq<byte>, infos: seq<Info>, index: nat, cursor: nat, startDir: nat, h: LocalFields)
    requires startDir <= |data| && infos != []
    requires |ReadAt(data, infos[0].headerOffset, 30)| == 30 && h == UnpackLocal(ReadAt(data, infos[0].headerOffset, 30))
    ensures LocalFindings([], data, infos, index, cursor, startDir) == [] <==> RecordsTile(data, infos, cursor, startDir)
    decreases |infos|, 0
  {
    hide UnpackLocal, ReadAt, HeaderFindings, RecordAt, DosDateTime;
    var info, rest := infos[0], infos[1..];
    var f1 := Note([], info.headerOffset != cursor, GapBefore(index));
    var f2 := HeaderFindings(f1, data, info, index, h);
    HeaderClean(f1, data, info, index, h);
    if f2 == [] {
      LocalClean(data, rest, index + 1, RecordEnd(info, h), startDir);
      if RecordsTile(data, rest, RecordEnd(info, h), startDir) {
        RecordsEndAtDirectory(data, rest, RecordEnd(info, h), startDir);
        CleanRecord(data, info, h);
      }
      if RecordAt(data, info) {
        RecordReads(data, info);
      }
    } else {
      if LocalFindings([], data, infos, index, cursor, startDir) == [] {
        LocalNeverCleans(f2, data, rest, index + 1, RecordEnd(info, h), startDir);
      }
      if RecordAt(data, info) {
        RecordReads(data, info);
      }
    }
  }

  /** A header that reads as expected but for the size of the name, a name that matches, and an end
      inside the file: then the size is that of the name. */
  lemma CleanRecord(data: seq<byte>, info: Info, h: LocalFields)
    requires |ReadAt(data, info.headerOffset, 30)| == 30 && h == UnpackLocal(ReadAt(data, info.headerOffset, 30))
    requires info.extractVersion == 20 && OnlyUtf8Flag(info.flagBits) && info.compressType == ZIP_DEFLATED
    requires h.extraSize == 0 && h == ExpectedLocal(info).(nameSize := h.nameSize)
    requires ReadAt(data, info.headerOffset + 30, h.nameSize) == info.name && RecordEnd(info, h) <= |data|
    ensures RecordAt(data, info) && RecordEnd(info, h) == EndOf(info)
  {
    hide UnpackLocal, DosDateTime;
  }

  predicate HeaderReads(data: seq<byte>, info: Info)
  {
    hide ReadAt, DosDateTime, UnpackLocal;
    var header := ReadAt(data, info.headerOffset, 30);
    && |header| == 30
    && UnpackLocal(header) == ExpectedLocal(info) && RecordEnd(info, UnpackLocal(header)) == EndOf(info)
    && info.extractVersion == 20 && OnlyUtf8Flag(info.flagBits) && info.compressType == ZIP_DEFLATED
    && ReadAt(data, info.headerOffset + 30, |info.name|) == info.name
  }

  lemma RecordReads(data: seq<byte>, info: Info)
    requires RecordAt(data, info)
    ensures HeaderReads(data, info)
  {
    hide UnpackLocal, DosDateTime;
  }

  /** The signature stands nowhere after the start of the end record. */
  predicate LastSignature(data: seq<byte>)
    requires |data| >= 22
  {
    forall i :: |data| - 22 < i < |data| ==> !SignatureAt(data, i)
  }

  lemma EndClean(e: EndFields, offset: nat, size: nat, startDir: nat, count: nat)
    ensures EndFindings([], e, offset, size, startDir, count) == [] <==>
            offset + 22 == size && offset >= startDir && e == EndFields(0, 0, count, count, offset - startDir, startDir, 0)
  {
  }

  /** The end-record checks are clean exactly when the last 22 bytes are the end record that belongs to
      the entries and the directory offset, and no signature stands inside them. */
  lemma EocdClean(data: seq<byte>, startDir: nat, count: nat)
    ensures EocdFindings([], data, startDir, count) == [] <==>
            && startDir + 22 <= |data|
            && SignatureAt(data, |data| - 22) && LastSignature(data)
            && UnpackEnd(data[|data| - 22..]) == EndFields(0, 0, count, count, |data| - 22 - startDir, startDir, 0)
  {
    hide UnpackEnd, EndFindings, SignatureAt, TailOf;
    if |data| >= 22 {
      TailIsLong(data);
      var tail := TailOf(data);
      var base := |data| - |tail|;
      forall i | 0 <= i < |tail|
        ensures SignatureAt(tail, i) <==> SignatureAt(data, base + i)
      {
        TailSignature(data, i);
      }
      var found := RFind(tail, |tail|);
      if found.Some? && found.value + 22 <= |tail| {
        var at := base + found.value;
        var record := tail[found.value..found.value + 22];
        EndClean(UnpackEnd(record), at, |data|, startDir, count);
        assert at == |data| - 22 ==> record == data[|data| - 22..];
        assert forall i :: at < i < |data| ==> SignatureAt(data, i) == SignatureAt(tail, i - base);
      }
      if SignatureAt(data, |data| - 22) {
        assert SignatureAt(tail, |tail| - 22);
      }
    }
  }

  lemma TailIsLong(data: seq<byte>)
    requires |data| >= 22
    ensures |TailOf(data)| >= 22
  {
  }

  /** The layout checks find nothing exactly when the file is tiled: local records in entry order from
      the first byte, the central directory, the end record, no gap, no overlap, nothing left over. The
      one exception is an end record that contains its own signature again, which is always reported. */
  lemma CleanIsTiled(data: seq<byte>, infos: seq<Info>, startDir: nat)
    ensures LocalFindings(EocdFindings([], data, startDir, |infos|), data, infos, 0, 0, startDir) == []
            <==> Tiles(data, infos, startDir) && LastSignature(data)
  {
    hide EocdFindings, LocalFindings, RecordsTile, UnpackEnd, SignatureAt;
    EocdClean(data, startDir, |infos|);
    if EocdFindings([], data, startDir, |infos|) == [] {
      LocalClean(data, infos, 0, 0, startDir);
    } else if LocalFindings(EocdFindings([], data, startDir, |infos|), data, infos, 0, 0, startDir) == [] {
      LocalNeverCleans(EocdFindings([], data, startDir, |infos|), data, infos, 0, 0, startDir);
    }
  }

  /** The exception is real: the directory offset may spell the signature. */
  lemma SignatureInOffset(data: seq<byte>, infos: seq<Info>)
    requires Tiles(data, infos, 0x0605_4b50)
    ensures !LastSignature(data)
    ensures LocalFindings(EocdFindings([], data, 0x0605_4b50, |infos|), data, infos, 0, 0, 0x0605_4b50) != []
  {
    hide RecordsTile;
    var record := data[|data| - 22..];
    FourBytes(record[16..20]);
    assert data[|data| - 6..|data| - 2] == record[16..20];
    assert SignatureAt(data, |data| - 6);
    CleanIsTiled(data, infos, 0x0605_4b50);
  }

  lemma TwoBytesRead(a: byte, b: byte)
    ensures FromLittleEndian([a, b]) == a as int + 0x100 * b as int
  {
    assert [a, b][1..] == [b] && [b][1..] == [];
    assert FromLittleEndian([b]) == b;
  }

  lemma FourBytesRead(a: byte, b: byte, c: byte, d: byte)
    ensures FromLittleEndian([a, b, c, d]) == a as int + 0x100 * b as int + 0x1_0000 * c as int + 0x100_0000 * d as int
  {
    TwoBytesRead(c, d);
    assert [a, b, c, d][1..] == [b, c, d] && [b, c, d][1..] == [c, d];
  }

  const EXAMPLE_HEADER: seq<byte> :=
    [0x50, 0x4b, 0x03, 0x04, 20, 0, 0, 8, 8, 0, 0, 0, 0x22, 0x5d, 1, 2, 3, 4, 0x31, 0x4b, 0x05, 0x06, 5, 6, 7, 8, 1, 0, 0, 0]

  /** The directory: the central record of the one entry (section 4.3.12 of the APPNOTE), a regular file
      made on Unix with mode 644, and its name. */
  const EXAMPLE_DIRECTORY: seq<byte> :=
    [0x50, 0x4b, 0x01, 0x02, 20, 3, 20, 0, 0, 8, 8, 0, 0, 0, 0x22, 0x5d, 1, 2, 3, 4, 0x31, 0x4b, 0x05, 0x06, 5, 6, 7, 8,
     1, 0, 0, 0, 0, 0, 0, 0, 0, 0, 0, 0, 0xa4, 0x81, 0, 0, 0, 0, 0x61]

  const EXAMPLE_END: seq<byte> :=
    [0x50, 0x4b, 0x05, 0x06, 0, 0, 0, 0, 1, 0, 1, 0, 47, 0, 0, 0, 0x50, 0x4b, 0x05, 0x06, 0, 0]

  const EXAMPLE_INFO := Info(0, 20, UTF8_FLAG, ZIP_DEFLATED, 0x0403_0201, 0x0605_4b31, 0x0807_0605, [0x61])

  lemma ExampleFormatReads()
    ensures var h := EXAMPLE_HEADER;
            && h[..4] == LOCAL_SIGNATURE && Field(h, 4, 2) == 20 && Field(h, 6, 2) == 0x800 && Field(h, 8, 2) == 8
            && Field(h, 10, 2) == 0 && Field(h, 12, 2) == 23842
  {
    hide FromLittleEndian;
    var h := EXAMPLE_HEADER;
    assert h[4] == 20 && h[5] == 0 && h[6] == 0 && h[7] == 8;
    assert h[8] == 8 && h[9] == 0 && h[10] == 0 && h[11] == 0;
    assert h[4..6] == [20, 0] && h[6..8] == [0, 8] && h[8..10] == [8, 0] && h[10..12] == [0, 0] && h[12..14] == [0x22, 0x5d];
    TwoBytesRead(20, 0);
    TwoBytesRead(0, 8);
    TwoBytesRead(8, 0);
    TwoBytesRead(0, 0);
    TwoBytesRead(0x22, 0x5d);
  }

  lemma ExampleSizesRead()
    ensures var h := EXAMPLE_HEADER;
            && Field(h, 14, 4) == 0x0403_0201 && Field(h, 18, 4) == 0x0605_4b31 && Field(h, 22, 4) == 0x0807_0605
            && Field(h, 26, 2) == 1 && Field(h, 28, 2) == 0
  {
    hide FromLittleEndian;
    var h := EXAMPLE_HEADER;
    assert h[14..18] == [1, 2, 3, 4] && h[18..22] == [0x31, 0x4b, 0x05, 0x06] && h[22..26] == [5, 6, 7, 8];
    assert h[26..28] == [1, 0] && h[28..30] == [0, 0];
    TwoBytesRead(0, 0);
    TwoBytesRead(1, 0);
    FourBytesRead(1, 2, 3, 4);
    FourBytesRead(5, 6, 7, 8);
    FourBytesRead(0x31, 0x4b, 0x05, 0x06);
  }

  lemma ExampleHeaderReads()
    ensures UnpackLocal(EXAMPLE_HEADER) == ExpectedLocal(EXAMPLE_INFO)
  {
    hide Field;
    ExampleFormatReads();
    ExampleSizesRead();
  }

  lemma ExampleEndReads()
    ensures UnpackEnd(EXAMPLE_END) == EndFields(0, 0, 1, 1, 47, 0x0605_4b50, 0)
  {
    hide FromLittleEndian;
    var e := EXAMPLE_END;
    assert e[4..6] == [0, 0] && e[6..8] == [0, 0] && e[8..10] == [1, 0] && e[10..12] == [1, 0] && e[20..22] == [0, 0];
    assert e[12..16] == [47, 0, 0, 0] && e[16..20] == [0x50, 0x4b, 0x05, 0x06];
    TwoBytesRead(0, 0);
    TwoBytesRead(1, 0);
    FourBytesRead(47, 0, 0, 0);
    FourBytesRead(0x50, 0x4b, 0x05, 0x06);
  }

  /** A concrete archive: one entry, its central record, perfectly tiled, and still reported. */
  lemma TiledButReported() returns (data: seq<byte>)
    ensures Tiles(data, [EXAMPLE_INFO], 0x0605_4b50)
    ensures data[0x0605_4b50..|data| - 22] == EXAMPLE_DIRECTORY
    ensures LocalFindings(EocdFindings([], data, 0x0605_4b50, 1), data, [EXAMPLE_INFO], 0, 0, 0x0605_4b50) != []
  {
    hide UnpackLocal, UnpackEnd, DosDateTime, EocdFindings, LocalFindings;
    var content := seq<byte>(0x0605_4b31, i => 0);
    var front := EXAMPLE_HEADER + [0x61];
    data := front + content + EXAMPLE_DIRECTORY + EXAMPLE_END;
    assert data[0..30] == EXAMPLE_HEADER;
    assert data[30..31] == [0x61];
    ExampleHeaderReads();
    assert RecordsTile(data, [EXAMPLE_INFO], 0, 0x0605_4b50) by {
      assert [EXAMPLE_INFO][1..] == [];
    }
    assert data[|data| - 22..] == EXAMPLE_END;
    assert data[|data| - 22..|data| - 18] == EXAMPLE_END[..4];
    assert EXAMPLE_END[..4] == EOCD_SIGNATURE;
    ExampleEndReads();
    SignatureInOffset(data, [EXAMPLE_INFO]);
  }

  lemma FourBytes(s: seq<byte>)
    requires |s| == 4 && FromLittleEndian(s) == 0x0605_4b50
    ensures s == EOCD_SIGNATURE
  {
    assert s[1..][1..][1..][1..] == [];
    var a, b, c, d := s[0] as int, s[1..][0] as int, s[1..][1..][0] as int, s[1..][1..][1..][0] as int;
    assert FromLittleEndian(s[1..][1..][1..]) == d;
    assert FromLittleEndian(s[1..][1..]) == c + 0x100 * d;
    assert FromLittleEndian(s[1..]) == b + 0x100 * (c + 0x100 * d);
    assert s == [s[0], s[1..][0], s[1..][1..][0], s[1..][1..][1..][0]];
  }

  // ---------------------------------------------------------------------------------------------
  // A tiling covers every byte once
  // ---------------------------------------------------------------------------------------------

  /** The bytes of the records, one after the other. */
  function RecordBytes(data: seq<byte>, infos: seq<Info>): (r: seq<byte>)
  {
    if infos == [] then []
    else if EndOf(infos[0]) > |data| then []
    else data[infos[0].headerOffset..EndOf(infos[0])] + RecordBytes(data, infos[1..])
  }

  lemma {:induction false} RecordsCover(data: seq<byte>, infos: seq<Info>, cursor: nat, startDir: nat)
    requires RecordsTile(data, infos, cursor, startDir) && startDir <= |data|
    ensures cursor <= startDir && data[cursor..startDir] == RecordBytes(data, infos)
    decreases |infos|
  {
    hide RecordAt;
    if infos != [] {
      RecordsEndAtDirectory(data, infos[1..], EndOf(infos[0]), startDir);
      RecordsCover(data, infos[1..], EndOf(infos[0]), startDir);
      assert data[cursor..startDir] == data[cursor..EndOf(infos[0])] + data[EndOf(infos[0])..startDir];
    }
  }

  /** The file is the records in entry order, the directory and the end record, and nothing else. */
  lemma TilesCover(data: seq<byte>, infos: seq<Info>, startDir: nat)
    requires Tiles(data, infos, startDir)
    ensures data == RecordBytes(data, infos) + data[startDir..|data| - 22] + data[|data| - 22..]
  {
    hide RecordsTile, UnpackEnd, SignatureAt;
    RecordsCover(data, infos, 0, startDir);
    assert data == data[0..startDir] + data[startDir..|data| - 22] + data[|data| - 22..];
  }

  /** In a record the release allows, the data follows the name at once and ends with the record. */
  lemma RecordData(data: seq<byte>, info: Info)
    requires RecordAt(data, info)
    ensures DataOffset(data, info) == Some(info.headerOffset + 30 + |info.name|) == Some(EndOf(info) - info.compressSize)
  {
    hide UnpackLocal, DosDateTime, ReadAt, DataOffset;
    RecordReads(data, info);
    DataOffsetRead(data, info);
  }

  /** No two records overlap, and each ends before the directory. */
  lemma {:induction false} RecordsDisjoint(data: seq<byte>, infos: seq<Info>, cursor: nat, startDir: nat, i: nat, j: nat)
    requires RecordsTile(data, infos, cursor, startDir) && i <= j < |infos|
    ensures cursor <= infos[i].headerOffset && EndOf(infos[j]) <= startDir
    ensures i < j ==> EndOf(infos[i]) <= infos[j].headerOffset
    decreases |infos|
  {
    hide RecordAt;
    if j > 0 {
      RecordsDisjoint(data, infos[1..], EndOf(infos[0]), startDir, if i == 0 then j - 1 else i - 1, j - 1);
    } else {
      RecordsEndAtDirectory(data, infos[1..], EndOf(infos[0]), startDir);
    }
  }
}
