/** The wire checksum (src/protocol.rs, `protocol_checksum`): the bytes it covers, the changes it always
    detects, and what becomes of a line whose numbers were altered under a kept checksum. */
module WireChecksum {
  import opened Words
  import opened Utf8
  import opened Numerals
  import opened JsonRoundTrip
  import opened Protocol
  import opened WireLanguage
  import Fnv

  // ---------------------------------------------------------------------------------------------
  // What is covered
  // ---------------------------------------------------------------------------------------------

  function Segment(bytes: seq<byte>): (r: seq<byte>)
  {
    LittleEndian(|bytes|, 8) + bytes
  }

  function FieldBytes(fields: seq<u64>): (r: seq<byte>)
    ensures |r| == 8 * |fields|
  {
    if fields == [] then [] else LittleEndian(fields[0], 8) + FieldBytes(fields[1..])
  }

  function NameBytes(direction: string, operation: string): (r: seq<byte>)
  {
    Segment(Encode("OSIA-R1R1/1")) + Segment(Encode(direction)) + Segment(Encode(operation))
  }

  /** The version, the direction and the operation behind their lengths, then the number of fields and
      each field, all lengths and numbers as eight bytes, least significant first. */
  function Covered(direction: string, operation: string, fields: seq<u64>): (r: seq<byte>)
  {
    NameBytes(direction, operation) + LittleEndian(|fields|, 8) + FieldBytes(fields)
  }

  lemma SegmentIs(hash: u64, bytes: seq<byte>)
    ensures SegmentHash(hash, bytes) == Fnv.Hash(Segment(bytes), hash)
  {
    hide Fnv.Hash;
    Fnv.HashConcat(LittleEndian(|bytes|, 8), bytes, hash);
  }

  lemma {:induction false} FieldsAre(hash: u64, fields: seq<u64>)
    ensures FieldsHash(hash, fields) == Fnv.Hash(FieldBytes(fields), hash)
    decreases |fields|
  {
    hide LittleEndian;
    if fields != [] {
      hide Fnv.Hash;
      FieldsAre(Fnv.Hash(LittleEndian(fields[0], 8), hash), fields[1..]);
      Fnv.HashConcat(LittleEndian(fields[0], 8), FieldBytes(fields[1..]), hash);
    }
  }

  lemma NamesAre(direction: string, operation: string)
    ensures SegmentHash(SegmentHash(SegmentHash(Fnv.FNV_OFFSET, Encode("OSIA-R1R1/1")), Encode(direction)), Encode(operation))
            == Fnv.Hash(NameBytes(direction, operation), Fnv.FNV_OFFSET)
  {
    hide Fnv.Hash, SegmentHash, Segment, Encode;
    var v, d, o := Encode("OSIA-R1R1/1"), Encode(direction), Encode(operation);
    var h1 := SegmentHash(Fnv.FNV_OFFSET, v);
    SegmentIs(Fnv.FNV_OFFSET, v);
    SegmentIs(h1, d);
    SegmentIs(SegmentHash(h1, d), o);
    Fnv.HashConcat(Segment(v), Segment(d), Fnv.FNV_OFFSET);
    Fnv.HashConcat(Segment(v) + Segment(d), Segment(o), Fnv.FNV_OFFSET);
  }

  /** The checksum is the hash of all of that, in one piece. */
  lemma ChecksumCovers(direction: string, operation: string, fields: seq<u64>)
    ensures Checksum(direction, operation, fields) == Fnv.Hash(Covered(direction, operation, fields), Fnv.FNV_OFFSET)
  {
    hide Fnv.Hash, SegmentHash, FieldsHash, NameBytes, FieldBytes, LittleEndian, Encode;
    NamesAre(direction, operation);
    var names := NameBytes(direction, operation);
    var named := Fnv.Hash(names, Fnv.FNV_OFFSET);
    Fnv.HashConcat(names, LittleEndian(|fields|, 8), Fnv.FNV_OFFSET);
    Fnv.HashConcat(names + LittleEndian(|fields|, 8), FieldBytes(fields), Fnv.FNV_OFFSET);
    FieldsAre(Fnv.Hash(LittleEndian(|fields|, 8), named), fields);
  }

  // ---------------------------------------------------------------------------------------------
  // What it always detects
  // ---------------------------------------------------------------------------------------------

  /** The eight bytes of two words differ only inside three consecutive ones. */
  predicate NearWords(a: u64, b: u64)
  {
    exists p: nat :: p <= 5 && NearAt(LittleEndian(a, 8), LittleEndian(b, 8), p)
  }

  predicate NearAt(x: seq<byte>, y: seq<byte>, p: nat)
    requires |x| == |y| == 8 && p <= 5
  {
    x[..p] == y[..p] && x[p + 3..] == y[p + 3..]
  }

  lemma {:induction false} LittleEndianInjective(m: nat, n: nat, width: nat)
    requires m < Pow256(width) && n < Pow256(width) && LittleEndian(m, width) == LittleEndian(n, width)
    ensures m == n
  {
    if width > 0 {
      var x, y := LittleEndian(m, width), LittleEndian(n, width);
      assert x[0] == y[0];
      assert x[1..] == LittleEndian(m / 0x100, width - 1) && y[1..] == LittleEndian(n / 0x100, width - 1);
      LittleEndianInjective(m / 0x100, n / 0x100, width - 1);
    }
  }

  lemma Pow256Of8()
    ensures Pow256(8) == 0x1_0000_0000_0000_0000
  {
    assert Pow256(2) == 0x1_0000;
    assert Pow256(4) == 0x1_0000_0000;
    assert Pow256(6) == 0x1_0000_0000_0000;
  }

  lemma {:induction false} LittleEndianZero(width: nat)
    ensures LittleEndian(0, width) == seq(width, _ => 0)
  {
    if width > 0 {
      LittleEndianZero(width - 1);
    }
  }

  /** Two words below 2^24 are near, as are two that differ in one byte. */
  lemma SmallWordsAreNear(a: u64, b: u64)
    requires a < 0x100_0000 && b < 0x100_0000
    ensures NearWords(a, b)
  {
    var x, y := LittleEndian(a, 8), LittleEndian(b, 8);
    LowBytes(a);
    LowBytes(b);
    assert x[..0] == y[..0];
    assert NearAt(x, y, 0);
  }

  lemma LowBytes(a: nat)
    requires a < 0x100_0000
    ensures LittleEndian(a, 8)[3..] == seq(5, _ => 0)
  {
    LittleEndianZero(5);
    var a1, a2 := a / 0x100, a / 0x100 / 0x100;
    assert a2 / 0x100 == 0;
    assert LittleEndian(a2, 6) == [a2 % 0x100] + LittleEndian(0, 5);
    assert LittleEndian(a1, 7) == [a1 % 0x100] + LittleEndian(a2, 6);
    assert LittleEndian(a, 8) == [a % 0x100] + LittleEndian(a1, 7);
  }

  lemma {:induction false} FieldBytesSplit(fields: seq<u64>, k: nat)
    requires k < |fields|
    ensures FieldBytes(fields) == FieldBytes(fields[..k]) + LittleEndian(fields[k], 8) + FieldBytes(fields[k + 1..])
    decreases k
  {
    hide LittleEndian;
    if k == 0 {
      assert FieldBytes(fields[..0]) == [];
    } else {
      FieldBytesSplit(fields[1..], k - 1);
      assert fields[1..][..k - 1] == fields[..k][1..] && fields[1..][k..] == fields[k + 1..];
      assert FieldBytes(fields[..k]) == LittleEndian(fields[0], 8) + FieldBytes(fields[..k][1..]);
    }
  }

  /** One field changed, and only inside three of its bytes. */
  predicate OneFieldNear(f: seq<u64>, g: seq<u64>, k: nat)
  {
    k < |f| && |f| == |g| && f[k] != g[k] && g == f[k := g[k]] && NearWords(f[k], g[k])
  }

  lemma WindowOfWord(x: seq<byte>, y: seq<byte>, p: nat)
    requires |x| == |y| == 8 && p <= 5 && NearAt(x, y, p) && x != y
    ensures x == x[..p] + x[p..p + 3] + x[p + 3..] && y == x[..p] + y[p..p + 3] + x[p + 3..]
    ensures x[p..p + 3] != y[p..p + 3]
  {
    assert x == x[..p] + x[p..p + 3] + x[p + 3..] && y == y[..p] + y[p..p + 3] + y[p + 3..];
  }

  lemma Wrapped(a: seq<byte>, p: seq<byte>, w: seq<byte>, q: seq<byte>, d: seq<byte>)
    ensures a + (p + w + q) + d == a + p + w + (q + d)
  {
  }

  lemma WindowOfField(f: seq<u64>, g: seq<u64>, k: nat)
    returns (before: seq<byte>, w: seq<byte>, w': seq<byte>, after: seq<byte>)
    requires OneFieldNear(f, g, k)
    ensures |w| == |w'| == 3 && w != w'
    ensures FieldBytes(f) == before + w + after && FieldBytes(g) == before + w' + after
  {
    hide LittleEndian, FieldBytes, NearAt;
    FieldBytesSplit(f, k);
    FieldBytesSplit(g, k);
    assert g[..k] == f[..k] && g[k + 1..] == f[k + 1..];
    var x, y := LittleEndian(f[k], 8), LittleEndian(g[k], 8);
    var p: nat :| p <= 5 && NearAt(x, y, p);
    if x == y {
      Pow256Of8();
      LittleEndianInjective(f[k], g[k], 8);
      assert false;
    }
    WindowOfWord(x, y, p);
    w, w' := x[p..p + 3], y[p..p + 3];
    before, after := FieldBytes(f[..k]) + x[..p], x[p + 3..] + FieldBytes(f[k + 1..]);
    Wrapped(FieldBytes(f[..k]), x[..p], w, x[p + 3..], FieldBytes(f[k + 1..]));
    Wrapped(FieldBytes(f[..k]), x[..p], w', x[p + 3..], FieldBytes(f[k + 1..]));
  }

  /** One number altered inside three consecutive bytes alters the checksum. */
  lemma FieldChangesChecksum(direction: string, operation: string, f: seq<u64>, g: seq<u64>, k: nat)
    requires OneFieldNear(f, g, k)
    ensures Checksum(direction, operation, f) != Checksum(direction, operation, g)
  {
    hide Fnv.Hash, Checksum, FieldBytes, LittleEndian, OneFieldNear, NameBytes;
    ChecksumCovers(direction, operation, f);
    ChecksumCovers(direction, operation, g);
    var before, w, w', after := WindowOfField(f, g, k);
    var front := NameBytes(direction, operation) + LittleEndian(|f|, 8);
    assert |f| == |g| by {
      SameLength(f, g, k);
    }
    assert Covered(direction, operation, f) == front + before + w + after;
    assert Covered(direction, operation, g) == front + before + w' + after;
    Fnv.WindowChangesHash(front + before, w, w', after, Fnv.FNV_OFFSET);
  }

  lemma SameLength(f: seq<u64>, g: seq<u64>, k: nat)
    requires OneFieldNear(f, g, k)
    ensures |f| == |g|
  {
  }

  /** Two names that differ only inside a part of at most three bytes. */
  ghost predicate NearNames(a: string, b: string)
  {
    exists p, w, w', q ::
      && Encode(a) == p + w + q && Encode(b) == p + w' + q
      && |w| == |w'| <= 3 && w != w'
  }

  lemma Regrouped(a: seq<byte>, b: seq<byte>, p: seq<byte>, w: seq<byte>, q: seq<byte>, d: seq<byte>)
    ensures a + (b + (p + w + q)) + d == a + b + p + w + (q + d)
  {
  }

  lemma Flattened(a: seq<byte>, b: seq<byte>, c: seq<byte>, d: seq<byte>, e: seq<byte>)
    ensures a + b + c + d + e == a + b + (c + d + e)
  {
  }

  /** A direction altered inside three consecutive bytes alters the checksum. */
  lemma DirectionChangesChecksum(d: string, d': string, operation: string, fields: seq<u64>)
    requires NearNames(d, d')
    ensures Checksum(d, operation, fields) != Checksum(d', operation, fields)
  {
    hide Fnv.Hash, Checksum, FieldBytes, LittleEndian, Encode;
    ChecksumCovers(d, operation, fields);
    ChecksumCovers(d', operation, fields);
    var p, w, w', q :| Encode(d) == p + w + q && Encode(d') == p + w' + q && |w| == |w'| <= 3 && w != w';
    var version, size := Segment(Encode("OSIA-R1R1/1")), LittleEndian(|Encode(d)|, 8);
    var named, count, numbers := Segment(Encode(operation)), LittleEndian(|fields|, 8), FieldBytes(fields);
    var rest := named + count + numbers;
    Flattened(version, Segment(Encode(d)), named, count, numbers);
    Flattened(version, Segment(Encode(d')), named, count, numbers);
    Regrouped(version, size, p, w, q, rest);
    Regrouped(version, size, p, w', q, rest);
    Fnv.WindowChangesHash(version + size + p, w, w', q + rest, Fnv.FNV_OFFSET);
  }

  /** So does an operation. */
  lemma OperationChangesChecksum(direction: string, o: string, o': string, fields: seq<u64>)
    requires NearNames(o, o')
    ensures Checksum(direction, o, fields) != Checksum(direction, o', fields)
  {
    hide Fnv.Hash, Checksum, FieldBytes, LittleEndian, Encode;
    ChecksumCovers(direction, o, fields);
    ChecksumCovers(direction, o', fields);
    var p, w, w', q :| Encode(o) == p + w + q && Encode(o') == p + w' + q && |w| == |w'| <= 3 && w != w';
    var front, size := Segment(Encode("OSIA-R1R1/1")) + Segment(Encode(direction)), LittleEndian(|Encode(o)|, 8);
    var count, numbers := LittleEndian(|fields|, 8), FieldBytes(fields);
    Associative(front + Segment(Encode(o)), count, numbers);
    Associative(front + Segment(Encode(o')), count, numbers);
    Regrouped(front, size, p, w, q, count + numbers);
    Regrouped(front, size, p, w', q, count + numbers);
    Fnv.WindowChangesHash(front + size + p, w, w', q + (count + numbers), Fnv.FNV_OFFSET);
  }

  // ---------------------------------------------------------------------------------------------
  // Altered lines
  // ---------------------------------------------------------------------------------------------

  /** The line of a message with some checksum in place of its own. */
  function TextWith(m: Message, checksum: u64): (r: string)
  {
    Join(Header(m) + Numbers(m) + [Hex16(checksum)])
  }

  lemma OtherChecksumTokens(m: Message, checksum: u64)
    ensures SplitWhitespace(TextWith(m, checksum)) == Header(m) + Numbers(m) + [Hex16(checksum)]
  {
    hide NumberToken, Hex16, MessageChecksum, Header, Numbers, IsToken, Join, SplitWhitespace;
    MessageTokens(m);
    Hex16Shape(checksum);
    DigitsAreToken(Hex16(checksum));
    var t := Header(m) + Numbers(m) + [Hex16(checksum)];
    forall i | 0 <= i < |t|
      ensures IsToken(t[i])
    {
      if i < |t| - 1 {
        assert t[i] == Tokens(m)[i];
      }
    }
    SplitJoin(t);
  }

  /** Only its own checksum makes a line of it. */
  lemma OnlyOwnChecksum(m: Message, checksum: u64, n: Message)
    requires TextWith(m, checksum) == Text(n)
    ensures n == m && checksum == MessageChecksum(m)
  {
    hide NumberToken, Hex16, MessageChecksum, Header, Numbers, Join, SplitWhitespace, Operation, Direction, Fields;
    OtherChecksumTokens(m, checksum);
    SplitText(n);
    var t := Header(m) + Numbers(m) + [Hex16(checksum)];
    assert t == Tokens(n);
    SameFront(m, t, n);
    assert t[|t| - 1] == Tokens(n)[|t| - 1];
    ParseHashTextExact(Hex16(checksum), checksum);
    ParseHashTextExact(Hex16(checksum), MessageChecksum(n));
  }

  lemma SameFront(m: Message, t: seq<string>, n: Message)
    requires |t| == |Tokens(m)| == |Tokens(n)| && t[..|t| - 1] == Tokens(m)[..|t| - 1] && t == Tokens(n)
    ensures m == n
  {
    hide NumberToken, Hex16, MessageChecksum, Operation, Direction, Fields;
    MessageTokens(m);
    MessageTokens(n);
    var k := |Header(m)|;
    forall i | 0 <= i < |t| - 1
      ensures Tokens(m)[i] == Tokens(n)[i]
    {
      assert t[..|t| - 1][i] == Tokens(m)[..|t| - 1][i];
    }
    HeadersAgree(m, n);
    forall i | 0 <= i < |Fields(m)|
      ensures Fields(m)[i] == Fields(n)[i]
    {
      assert Numbers(m)[i] == Tokens(m)[k + i] == Tokens(n)[k + i] == Numbers(n)[i];
      NumberTokenInjective(Fields(m)[i], Fields(n)[i], i == 3 && CarriesDigest(m));
    }
    assert Fields(m) == Fields(n);
    FieldsDetermine(m, n);
  }

  lemma HeadersAgree(m: Message, n: Message)
    requires |Tokens(m)| == |Tokens(n)|
    requires forall i :: 0 <= i < |Tokens(m)| - 1 ==> Tokens(m)[i] == Tokens(n)[i]
    ensures Header(m) == Header(n) && |Fields(m)| == |Fields(n)| && CarriesDigest(m) == CarriesDigest(n)
    ensures m.Hello? == n.Hello? && m.Request? == n.Request? && m.Ack? == n.Ack?
    ensures m.BoundRequest? == n.BoundRequest? && m.BoundAck? == n.BoundAck?
    ensures Operation(m) == Operation(n)
  {
    hide Numbers, Tokens, MessageChecksum, Operation, Direction;
    MessageTokens(m);
    FieldsPresent(m);
    FieldsPresent(n);
    MessageTokens(n);
    HeaderDetermines(m, n);
  }

  lemma FieldsPresent(m: Message)
    ensures |Fields(m)| >= 1 && (!m.Hello? ==> |Header(m)| == 3 && |Fields(m)| >= 2)
    ensures |Header(m)| >= 2
  {
  }

  /** The same kind of message with one number altered, inside three of its bytes. */
  ghost predicate OneNumberAltered(m: Message, m': Message)
  {
    && Direction(m) == Direction(m') && Operation(m) == Operation(m')
    && exists k :: OneFieldNear(Fields(m), Fields(m'), k)
  }

  /** A line with one number altered under the kept checksum is no message at all: neither parser takes
      it, and it validates as no acknowledgement and no greeting. */
  lemma AlteredLineRefused(m: Message, m': Message)
    requires OneNumberAltered(m, m')
    ensures var line := TextWith(m', MessageChecksum(m));
            && ParseRequest(line) == Err
            && ParseBoundRequest(line) == Err
            && (forall a :: !ValidateAck(line, a))
            && (forall a, b :: !ValidateBoundAck(line, a, b))
            && (forall i :: !ValidateHello(line, i))
  {
    hide TextWith, MessageChecksum, Text, Fields, Operation, Direction, ParseRequest, ParseBoundRequest;
    var line := TextWith(m', MessageChecksum(m));
    ChecksumsDiffer(m, m');
    forall n
      ensures line != Text(n) && TrimEndNewlines(Print(n)) == Text(n)
    {
      TrimPrinted(n);
      if line == Text(n) {
        OnlyOwnChecksum(m', MessageChecksum(m), n);
        assert false;
      }
    }
    RefusedAsRequest(line);
  }

  lemma ChecksumsDiffer(m: Message, m': Message)
    requires OneNumberAltered(m, m')
    ensures MessageChecksum(m) != MessageChecksum(m')
  {
    hide Fields, Operation, Direction, Checksum;
    var k :| OneFieldNear(Fields(m), Fields(m'), k);
    FieldChangesChecksum(Direction(m), Operation(m), Fields(m), Fields(m'), k);
  }

  lemma RefusedAsRequest(line: string)
    requires forall n :: line != Text(n)
    ensures ParseRequest(line) == Err && ParseBoundRequest(line) == Err
  {
    hide Text, Print, ParseRequest, ParseBoundRequest;
    if ParseRequest(line).Ok? {
      var r := ParseRequest(line).value;
      RequestLanguage(line, r);
      LineIsText(line, Request(r));
      assert false;
    }
    if ParseBoundRequest(line).Ok? {
      var (r, a) := ParseBoundRequest(line).value;
      BoundRequestLanguage(line, r, a);
      LineIsText(line, BoundRequest(r, a));
      assert false;
    }
  }
}
