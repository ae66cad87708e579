/** The four fixed-layout records the ZIP writer of client/service-worker.js
    emits for a "stored" (uncompressed) archive whose entries carry a data
    descriptor: the local file header, the data descriptor, the central
    directory header and the end-of-central-directory record (sections 4.3.7,
    4.3.9, 4.3.12 and 4.3.16 of PKWARE's APPNOTE.TXT), with the MS-DOS packed
    modification time and date (section 4.4.6).

    Each record has a byte-sequence specification (a function) and a builder
    (a method writing into a fresh array as the source does); the lemmas read
    the fields back at their offsets. */
module ZipHeaders {
  import opened ZipBytes

  // ---------------------------------------------------------------------
  // Modification time.

  /** The local calendar fields the source reads from `new Date(mtime)`
      (`getSeconds`, `getMinutes`, `getHours`, `getDay`, `getMonth`,
      `getFullYear`), or an invalid date, for which every getter yields NaN. */
  datatype Mtime =
    | InvalidDate
    | LocalTime(seconds: int, minutes: int, hours: int, weekday: int, month: int, fullYear: int)

  /** The ranges the `Date` getters return in. */
  predicate WellFormed(m: Mtime)
  {
    m.LocalTime? ==>
      0 <= m.seconds < 60 && 0 <= m.minutes < 60 && 0 <= m.hours < 24 &&
      0 <= m.weekday < 7 && 0 <= m.month < 12
  }

  /** `(getSeconds() / 2) | (getMinutes() << 5) | (getHours() << 11)`: the `|`
      truncates the halved seconds, and the three parts occupy disjoint bits,
      so the value is their sum. For an invalid date every operand is NaN,
      which `|` turns into 0. */
  function DosTime(m: Mtime): (r: nat)
    requires WellFormed(m)
    ensures r < 0x1_0000
  {
    match m
    case InvalidDate => 0
    case LocalTime(s, mi, h, _, _, _) => s / 2 + 32 * mi + 2048 * h
  }

  /** The packed time holds the halved (truncated) seconds in bits 0-4, the
      minutes in bits 5-10 and the hours in bits 11-15 (APPNOTE.TXT section
      4.4.6); an invalid date packs as 0. */
  lemma DosTimeFields(m: Mtime)
    requires WellFormed(m)
    ensures var r := DosTime(m);
      (m.LocalTime? ==> r % 32 == m.seconds / 2 && r / 32 % 64 == m.minutes && r / 2048 == m.hours) &&
      (m.InvalidDate? ==> r == 0)
  {
    if m.LocalTime? {
      UnpackTime(m.seconds / 2, m.minutes, m.hours);
    }
  }

  /** Three fields packed as `a + 32*b + 2048*c`, with `a < 32` and `b < 64`,
      come back out by division and remainder. */
  lemma UnpackTime(a: int, b: int, c: int)
    requires 0 <= a < 32 && 0 <= b < 64 && 0 <= c
    ensures var r := a + 32 * b + 2048 * c;
      r % 32 == a && r / 32 % 64 == b && r / 2048 == c
  {
    var r := a + 32 * b + 2048 * c;
    var q := b + 64 * c;
    assert r == a + 32 * q;
    assert r / 32 == q;
    assert q / 64 == c;
  }

  /** `getDay() | (getMonth() << 5) | ((getFullYear() - 1980) << 9)`, truncated
      to 16 bits by `setUint16`. As written the low field is the day of the
      WEEK (0-6) and the month field is 0-based (0-11); the year field keeps
      the low seven bits of `year - 1980` in two's complement. */
  function DosDate(m: Mtime): (r: nat)
    requires WellFormed(m)
    ensures r < 0x1_0000
  {
    match m
    case InvalidDate => 0
    case LocalTime(_, _, _, wd, mo, y) => wd + 32 * mo + 512 * ((y - 1980) % 128)
  }

  /** The packed date holds the weekday in bits 0-4, the 0-based month in
      bits 5-8 and the low seven bits of `year - 1980` in bits 9-15; an
      invalid date packs as 0. */
  lemma DosDateFields(m: Mtime)
    requires WellFormed(m)
    ensures var r := DosDate(m);
      (m.LocalTime? ==> r % 32 == m.weekday && r / 32 % 16 == m.month && r / 512 == (m.fullYear - 1980) % 128) &&
      (m.InvalidDate? ==> r == 0)
  {
  }

  /** The day field the source writes is a weekday, never above 6, and the
      month field of a January file is 0: APPNOTE.TXT asks for the day of the
      month (1-31) and a 1-based month (1-12). */
  lemma DateFieldsAsWritten(m: Mtime)
    requires WellFormed(m) && m.LocalTime?
    ensures DosDate(m) % 32 <= 6
    ensures m.month == 0 ==> DosDate(m) / 32 % 16 == 0
  {
    DosDateFields(m);
  }

  // ---------------------------------------------------------------------
  // The constant parts of the records.

  /** "PK\x03\x04", "PK\x01\x02" and "PK\x05\x06". */
  const LocalSignature: seq<byte> := [0x50, 0x4B, 0x03, 0x04]
  const CentralSignature: seq<byte> := [0x50, 0x4B, 0x01, 0x02]
  const EndSignature: seq<byte> := [0x50, 0x4B, 0x05, 0x06]

  /** "Version: 1.0" (needed to extract). */
  const Version := 10
  /** General purpose flag bit 3, "data descriptor": `1 << 3`. */
  const DataDescriptorFlag := 8
  /** Compression method 0, stored. */
  const Stored := 0
  /** Version made by: 63, and host system 3 (UNIX). */
  const MadeBySpec := 63
  const MadeByUnix := 3

  const LocalHeaderFixedSize := 30
  const DataDescriptorSize := 12
  const CentralHeaderFixedSize := 46
  const EndRecordSize := 22

  // ---------------------------------------------------------------------
  // Byte-sequence specifications.

  /** The five 16-bit fields both headers carry in the same order: version
      needed to extract, general purpose flags, compression method, and the
      DOS modification time and date. */
  function CommonFields(m: Mtime): (r: seq<byte>)
    requires WellFormed(m)
    ensures |r| == 10
  {
    LE16(Version) + LE16(DataDescriptorFlag) + LE16(Stored) + LE16(DosTime(m)) + LE16(DosDate(m))
  }

  /** The bytes of `buildDataDescriptor(crc32, length)`: no signature, the CRC,
      then the same length as compressed and as uncompressed size. Both
      headers carry the same three fields in the same layout. */
  function DataDescriptor(crc: int, length: int): (r: seq<byte>)
    ensures |r| == DataDescriptorSize
  {
    LE32(crc) + LE32(length) + LE32(length)
  }

  /** The file name length and the (zero) extra field length. */
  function NameLengths(name: seq<byte>): (r: seq<byte>)
    ensures |r| == 4
  {
    LE16(|name|) + LE16(0)
  }

  /** The bytes of `buildLocalFileHeader(filename, mtime)`; `name` is the
      UTF-8 encoding of the file name. CRC and sizes are written as 0: with
      flag bit 3 set they follow the body in the data descriptor. */
  function LocalFileHeader(name: seq<byte>, m: Mtime): (r: seq<byte>)
    requires WellFormed(m)
    ensures |r| == LocalHeaderFixedSize + |name|
  {
    // The CRC, compressed size and uncompressed size, all zero; the three
    // 32-bit zeros have the layout of an empty data descriptor.
    LocalSignature + CommonFields(m) + DataDescriptor(0, 0) + NameLengths(name) + name
  }

  /** The bytes of `buildCentralDirectoryHeader(filename, mtime, crc32, length,
      localHeaderOffset)`: after the common fields and the CRC and sizes come
      the file comment length, the disk number and the internal attributes
      (all 0), the external attributes (0) and the local header's offset. */
  function CentralDirectoryHeader(name: seq<byte>, m: Mtime, crc: int, length: int, localOffset: int): (r: seq<byte>)
    requires WellFormed(m)
    ensures |r| == CentralHeaderFixedSize + |name|
  {
    CentralSignature + LE8(MadeBySpec) + LE8(MadeByUnix) + CommonFields(m) +
    DataDescriptor(crc, length) + NameLengths(name) +
    LE16(0) + LE16(0) + LE16(0) + LE32(0) + LE32(localOffset) +
    name
  }

  /** The bytes of `buildEndOfCentralDirectoryRecord(entries, length,
      centralDirectoryOffset)`. */
  function EndOfCentralDirectory(entries: int, size: int, cdOffset: int): (r: seq<byte>)
    ensures |r| == EndRecordSize
  {
    EndSignature + LE16(0) + LE16(0) + LE16(entries) + LE16(entries) +
    LE32(size) + LE32(cdOffset) + LE16(0)
  }

  // ---------------------------------------------------------------------
  // Reading the records back. The layout lemmas place each piece of a
  // concatenation at its offset without looking inside the pieces; the field
  // lemmas then read the little-endian values.

  /** A 16-bit field read inside a piece `p` placed at `i`. */
  lemma Field16(h: seq<byte>, i: nat, p: seq<byte>, j: nat)
    requires i + |p| <= |h| && h[i..i + |p|] == p && j + 2 <= |p|
    ensures U16At(h, i + j) == U16At(p, j)
  {
    assert h[i + j] == p[j] && h[i + j + 1] == p[j + 1];
  }

  /** A 32-bit field read inside a piece `p` placed at `i`. */
  lemma Field32(h: seq<byte>, i: nat, p: seq<byte>, j: nat)
    requires i + |p| <= |h| && h[i..i + |p|] == p && j + 4 <= |p|
    ensures U32At(h, i + j) == U32At(p, j)
  {
    assert h[i + j] == p[j] && h[i + j + 1] == p[j + 1] && h[i + j + 2] == p[j + 2] && h[i + j + 3] == p[j + 3];
  }

  // The field lemmas are first proved for symbolic field values and then
  // instantiated with the constants the source writes: the solver reads a
  // field far more cheaply when its value is not a literal it can evaluate.

  /** Five consecutive 16-bit fields read back. */
  lemma Five16(a: int, b: int, c: int, d: int, e: int)
    ensures var s := LE16(a) + LE16(b) + LE16(c) + LE16(d) + LE16(e);
      U16At(s, 0) == a % 0x1_0000 && U16At(s, 2) == b % 0x1_0000 && U16At(s, 4) == c % 0x1_0000 &&
      U16At(s, 6) == d % 0x1_0000 && U16At(s, 8) == e % 0x1_0000
  {
    var s := LE16(a) + LE16(b) + LE16(c) + LE16(d) + LE16(e);
    assert s[..2] == LE16(a) && s[2..4] == LE16(b) && s[4..6] == LE16(c);
    assert s[6..8] == LE16(d) && s[8..10] == LE16(e);
    Field16(s, 0, LE16(a), 0);
    Field16(s, 2, LE16(b), 0);
    Field16(s, 4, LE16(c), 0);
    Field16(s, 6, LE16(d), 0);
    Field16(s, 8, LE16(e), 0);
  }

  /** Two consecutive 16-bit fields read back. */
  lemma Two16(a: int, b: int)
    ensures var s := LE16(a) + LE16(b);
      U16At(s, 0) == a % 0x1_0000 && U16At(s, 2) == b % 0x1_0000
  {
    var s := LE16(a) + LE16(b);
    assert s[..2] == LE16(a) && s[2..4] == LE16(b);
    Field16(s, 0, LE16(a), 0);
    Field16(s, 2, LE16(b), 0);
  }

  /** The five common fields read back. */
  lemma CommonFieldsRead(m: Mtime)
    requires WellFormed(m)
    ensures var c := CommonFields(m);
      U16At(c, 0) == Version && U16At(c, 2) == DataDescriptorFlag && U16At(c, 4) == Stored &&
      U16At(c, 6) == DosTime(m) && U16At(c, 8) == DosDate(m)
  {
    Five16(Version, DataDescriptorFlag, Stored, DosTime(m), DosDate(m));
  }

  /** The data descriptor's three fields (APPNOTE.TXT section 4.3.9). */
  lemma DataDescriptorFields(crc: int, length: int)
    ensures var d := DataDescriptor(crc, length);
      U32At(d, 0) == crc % 0x1_0000_0000 &&
      U32At(d, 4) == length % 0x1_0000_0000 &&
      U32At(d, 8) == length % 0x1_0000_0000
  {
    var d := DataDescriptor(crc, length);
    assert d[..4] == LE32(crc) && d[4..8] == LE32(length) && d[8..12] == LE32(length);
    Field32(d, 0, LE32(crc), 0);
    Field32(d, 4, LE32(length), 0);
    Field32(d, 8, LE32(length), 0);
  }

  lemma LocalLayout(sig: seq<byte>, common: seq<byte>, sizes: seq<byte>, lengths: seq<byte>, name: seq<byte>)
    requires |sig| == 4 && |common| == 10 && |sizes| == 12 && |lengths| == 4
    ensures var h := sig + common + sizes + lengths + name;
      h[..4] == sig && h[4..14] == common && h[14..26] == sizes && h[26..30] == lengths && h[30..] == name
  {
  }

  /** A local file header with any CRC, sizes and extra length, read back. */
  lemma LocalShapeFields(name: seq<byte>, m: Mtime, crc: int, length: int, extra: int)
    requires WellFormed(m)
    ensures var h := LocalSignature + CommonFields(m) + DataDescriptor(crc, length) +
        (LE16(|name|) + LE16(extra)) + name;
      h[..4] == LocalSignature &&
      U16At(h, 4) == Version && U16At(h, 6) == DataDescriptorFlag && U16At(h, 8) == Stored &&
      U16At(h, 10) == DosTime(m) && U16At(h, 12) == DosDate(m) &&
      U32At(h, 14) == crc % 0x1_0000_0000 && U32At(h, 18) == length % 0x1_0000_0000 &&
      U32At(h, 22) == length % 0x1_0000_0000 &&
      U16At(h, 26) == |name| % 0x1_0000 && U16At(h, 28) == extra % 0x1_0000 &&
      h[30..] == name
  {
    var c, d, n := CommonFields(m), DataDescriptor(crc, length), LE16(|name|) + LE16(extra);
    var h := LocalSignature + c + d + n + name;
    LocalLayout(LocalSignature, c, d, n, name);
    CommonFieldsRead(m);
    Field16(h, 4, c, 0);
    Field16(h, 4, c, 2);
    Field16(h, 4, c, 4);
    Field16(h, 4, c, 6);
    Field16(h, 4, c, 8);
    DataDescriptorFields(crc, length);
    Field32(h, 14, d, 0);
    Field32(h, 14, d, 4);
    Field32(h, 14, d, 8);
    Two16(|name|, extra);
    Field16(h, 26, n, 0);
    Field16(h, 26, n, 2);
  }

  /** The local file header's fields, at the offsets APPNOTE.TXT section 4.3.7
      gives them: signature, version 10, flags 8, compression 0, the DOS time
      and date, zero CRC and sizes, the name length, a zero extra length and
      the name at offset 30. */
  lemma LocalFileHeaderFields(name: seq<byte>, m: Mtime)
    requires WellFormed(m)
    ensures var h := LocalFileHeader(name, m);
      h[..4] == LocalSignature &&
      U16At(h, 4) == Version && U16At(h, 6) == DataDescriptorFlag && U16At(h, 8) == Stored &&
      U16At(h, 10) == DosTime(m) && U16At(h, 12) == DosDate(m) &&
      U32At(h, 14) == 0 && U32At(h, 18) == 0 && U32At(h, 22) == 0 &&
      U16At(h, 26) == |name| % 0x1_0000 && U16At(h, 28) == 0 &&
      h[30..] == name
  {
    LocalShapeFields(name, m, 0, 0, 0);
  }

  lemma CentralLayout(sig: seq<byte>, spec: seq<byte>, host: seq<byte>, common: seq<byte>, sizes: seq<byte>,
                      lengths: seq<byte>, clen: seq<byte>, disk: seq<byte>, internal: seq<byte>,
                      external: seq<byte>, offset: seq<byte>, name: seq<byte>)
    requires |sig| == 4 && |spec| == 1 && |host| == 1 && |common| == 10 && |sizes| == 12
    requires |lengths| == 4 && |clen| == 2 && |disk| == 2 && |internal| == 2
    requires |external| == 4 && |offset| == 4
    ensures var h := sig + spec + host + common + sizes + lengths + clen + disk + internal + external + offset + name;
      h[..4] == sig && h[4..5] == spec && h[5..6] == host && h[6..16] == common && h[16..28] == sizes &&
      h[28..32] == lengths && h[32..34] == clen && h[34..36] == disk && h[36..38] == internal &&
      h[38..42] == external && h[42..46] == offset && h[46..] == name
  {
  }

  /** A central directory header with any values in its constant fields, read
      back. */
  lemma CentralShapeFields(name: seq<byte>, m: Mtime, crc: int, length: int, localOffset: int,
                           spec: int, host: int, extra: int, comment: int, disk: int, internal: int, external: int)
    requires WellFormed(m)
    ensures var h := CentralSignature + LE8(spec) + LE8(host) + CommonFields(m) +
        DataDescriptor(crc, length) + (LE16(|name|) + LE16(extra)) +
        LE16(comment) + LE16(disk) + LE16(internal) + LE32(external) + LE32(localOffset) + name;
      h[..4] == CentralSignature && h[4] as int == spec % 0x100 && h[5] as int == host % 0x100 &&
      U16At(h, 6) == Version && U16At(h, 8) == DataDescriptorFlag && U16At(h, 10) == Stored &&
      U16At(h, 12) == DosTime(m) && U16At(h, 14) == DosDate(m) &&
      U32At(h, 16) == crc % 0x1_0000_0000 &&
      U32At(h, 20) == length % 0x1_0000_0000 && U32At(h, 24) == length % 0x1_0000_0000 &&
      U16At(h, 28) == |name| % 0x1_0000 && U16At(h, 30) == extra % 0x1_0000 &&
      U16At(h, 32) == comment % 0x1_0000 && U16At(h, 34) == disk % 0x1_0000 &&
      U16At(h, 36) == internal % 0x1_0000 && U32At(h, 38) == external % 0x1_0000_0000 &&
      U32At(h, 42) == localOffset % 0x1_0000_0000 &&
      h[46..] == name
  {
    var c, d, n := CommonFields(m), DataDescriptor(crc, length), LE16(|name|) + LE16(extra);
    var h := CentralSignature + LE8(spec) + LE8(host) + c + d + n +
      LE16(comment) + LE16(disk) + LE16(internal) + LE32(external) + LE32(localOffset) + name;
    CentralLayout(CentralSignature, LE8(spec), LE8(host), c, d, n,
      LE16(comment), LE16(disk), LE16(internal), LE32(external), LE32(localOffset), name);
    assert h[4] == h[4..5][0] && h[5] == h[5..6][0];
    CommonFieldsRead(m);
    Field16(h, 6, c, 0);
    Field16(h, 6, c, 2);
    Field16(h, 6, c, 4);
    Field16(h, 6, c, 6);
    Field16(h, 6, c, 8);
    DataDescriptorFields(crc, length);
    Field32(h, 16, d, 0);
    Field32(h, 16, d, 4);
    Field32(h, 16, d, 8);
    Two16(|name|, extra);
    Field16(h, 28, n, 0);
    Field16(h, 28, n, 2);
    Field16(h, 32, LE16(comment), 0);
    Field16(h, 34, LE16(disk), 0);
    Field16(h, 36, LE16(internal), 0);
    Field32(h, 38, LE32(external), 0);
    Field32(h, 42, LE32(localOffset), 0);
  }

  /** The central directory header's fields, at the offsets APPNOTE.TXT
      section 4.3.12 gives them: signature, made-by 63 and 3 (UNIX), the
      common fields, the CRC and the length twice, the name length, zero
      extra length, comment length, disk number and attributes, the local
      header's offset, and the name at offset 46. */
  lemma CentralDirectoryHeaderFields(name: seq<byte>, m: Mtime, crc: int, length: int, localOffset: int)
    requires WellFormed(m)
    ensures var h := CentralDirectoryHeader(name, m, crc, length, localOffset);
      h[..4] == CentralSignature && h[4] as int == MadeBySpec && h[5] as int == MadeByUnix &&
      U16At(h, 6) == Version && U16At(h, 8) == DataDescriptorFlag && U16At(h, 10) == Stored &&
      U16At(h, 12) == DosTime(m) && U16At(h, 14) == DosDate(m) &&
      U32At(h, 16) == crc % 0x1_0000_0000 &&
      U32At(h, 20) == length % 0x1_0000_0000 && U32At(h, 24) == length % 0x1_0000_0000 &&
      U16At(h, 28) == |name| % 0x1_0000 && U16At(h, 30) == 0 && U16At(h, 32) == 0 &&
      U16At(h, 34) == 0 && U16At(h, 36) == 0 && U32At(h, 38) == 0 &&
      U32At(h, 42) == localOffset % 0x1_0000_0000 &&
      h[46..] == name
  {
    CentralShapeFields(name, m, crc, length, localOffset, MadeBySpec, MadeByUnix, 0, 0, 0, 0, 0);
  }

  lemma EndLayout(sig: seq<byte>, disk: seq<byte>, cdDisk: seq<byte>, here: seq<byte>, total: seq<byte>,
                  size: seq<byte>, offset: seq<byte>, clen: seq<byte>)
    requires |sig| == 4 && |disk| == 2 && |cdDisk| == 2 && |here| == 2 && |total| == 2
    requires |size| == 4 && |offset| == 4 && |clen| == 2
    ensures var e := sig + disk + cdDisk + here + total + size + offset + clen;
      e[..4] == sig && e[4..6] == disk && e[6..8] == cdDisk && e[8..10] == here &&
      e[10..12] == total && e[12..16] == size && e[16..20] == offset && e[20..22] == clen
  {
  }

  /** An end record with any disk numbers and comment length, read back. */
  lemma EndShapeFields(entries: int, size: int, cdOffset: int, disk: int, cdDisk: int, comment: int)
    ensures var e := EndSignature + LE16(disk) + LE16(cdDisk) + LE16(entries) + LE16(entries) +
        LE32(size) + LE32(cdOffset) + LE16(comment);
      e[..4] == EndSignature && U16At(e, 4) == disk % 0x1_0000 && U16At(e, 6) == cdDisk % 0x1_0000 &&
      U16At(e, 8) == entries % 0x1_0000 && U16At(e, 10) == entries % 0x1_0000 &&
      U32At(e, 12) == size % 0x1_0000_0000 && U32At(e, 16) == cdOffset % 0x1_0000_0000 &&
      U16At(e, 20) == comment % 0x1_0000
  {
    var e := EndSignature + LE16(disk) + LE16(cdDisk) + LE16(entries) + LE16(entries) +
      LE32(size) + LE32(cdOffset) + LE16(comment);
    EndLayout(EndSignature, LE16(disk), LE16(cdDisk), LE16(entries), LE16(entries),
      LE32(size), LE32(cdOffset), LE16(comment));
    Field16(e, 4, LE16(disk), 0);
    Field16(e, 6, LE16(cdDisk), 0);
    Field16(e, 8, LE16(entries), 0);
    Field16(e, 10, LE16(entries), 0);
    Field32(e, 12, LE32(size), 0);
    Field32(e, 16, LE32(cdOffset), 0);
    Field16(e, 20, LE16(comment), 0);
  }

  /** The end-of-central-directory record's fields (APPNOTE.TXT section
      4.3.16): zero disk numbers, the entry count twice, the directory's size
      and offset, and a zero comment length. */
  lemma EndOfCentralDirectoryFields(entries: int, size: int, cdOffset: int)
    ensures var e := EndOfCentralDirectory(entries, size, cdOffset);
      e[..4] == EndSignature && U16At(e, 4) == 0 && U16At(e, 6) == 0 &&
      U16At(e, 8) == entries % 0x1_0000 && U16At(e, 10) == entries % 0x1_0000 &&
      U32At(e, 12) == size % 0x1_0000_0000 && U32At(e, 16) == cdOffset % 0x1_0000_0000 &&
      U16At(e, 20) == 0
  {
    EndShapeFields(entries, size, cdOffset, 0, 0, 0);
  }

  /** For the same file name and modification time, the local and the central
      header agree on version, flags, compression, time, date and name. */
  lemma HeadersAgree(name: seq<byte>, m: Mtime, crc: int, length: int, localOffset: int)
    requires WellFormed(m)
    ensures var l, c := LocalFileHeader(name, m), CentralDirectoryHeader(name, m, crc, length, localOffset);
      U16At(l, 4) == U16At(c, 6) && U16At(l, 6) == U16At(c, 8) && U16At(l, 8) == U16At(c, 10) &&
      U16At(l, 10) == U16At(c, 12) && U16At(l, 12) == U16At(c, 14) &&
      U16At(l, 26) == U16At(c, 28) && l[30..] == c[46..]
  {
    LocalFileHeaderFields(name, m);
    CentralDirectoryHeaderFields(name, m, crc, length, localOffset);
  }

  // ---------------------------------------------------------------------
  // The builders: each fills a fresh `Uint8Array` of the record's size through
  // a moving offset, exactly as the source's local `write*` helpers do. The
  // runs of writes both headers share are grouped into helpers.

  /** The five `writeU16` calls for version, flags, compression, time and date. */
  method WriteCommonFields(w: HeaderWriter, m: Mtime)
    requires WellFormed(m) && w.Valid() && w.offset + 10 <= w.buf.Length
    modifies w, w.buf
    ensures w.Valid() && w.offset == old(w.offset) + 10
    ensures w.written == old(w.written) + CommonFields(m)
  {
    w.WriteU16(Version);
    w.WriteU16(DataDescriptorFlag);
    w.WriteU16(Stored);
    w.WriteU16(DosTime(m));
    w.WriteU16(DosDate(m));
  }

  /** The three `writeU32` calls for the CRC and the two sizes. */
  method WriteCrcAndSizes(w: HeaderWriter, crc: int, length: int)
    requires w.Valid() && w.offset + 12 <= w.buf.Length
    modifies w, w.buf
    ensures w.Valid() && w.offset == old(w.offset) + 12
    ensures w.written == old(w.written) + DataDescriptor(crc, length)
  {
    w.WriteU32(crc);
    w.WriteU32(length);
    w.WriteU32(length);
  }

  /** The `writeU16` calls for the file name length and the extra length. */
  method WriteNameLengths(w: HeaderWriter, name: seq<byte>)
    requires w.Valid() && w.offset + 4 <= w.buf.Length
    modifies w, w.buf
    ensures w.Valid() && w.offset == old(w.offset) + 4
    ensures w.written == old(w.written) + NameLengths(name)
  {
    w.WriteU16(|name|);
    w.WriteU16(0);
  }

  /** The writes both headers make between their leading bytes and their
      trailing fields: the common fields, the CRC and sizes, the name
      lengths. */
  method WriteSharedFields(w: HeaderWriter, m: Mtime, crc: int, length: int, name: seq<byte>)
    requires WellFormed(m) && w.Valid() && w.offset + 26 <= w.buf.Length
    modifies w, w.buf
    ensures w.Valid() && w.offset == old(w.offset) + 26
    ensures w.written == old(w.written) + CommonFields(m) + DataDescriptor(crc, length) + NameLengths(name)
  {
    WriteCommonFields(w, m);
    WriteCrcAndSizes(w, crc, length);
    WriteNameLengths(w, name);
  }

  /** The end record's four 16-bit counts: this disk's number, the number of
      the disk holding the directory, and the entry count twice. */
  method WriteEndCounts(w: HeaderWriter, entries: int)
    requires w.Valid() && w.offset + 8 <= w.buf.Length
    modifies w, w.buf
    ensures w.Valid() && w.offset == old(w.offset) + 8
    ensures w.written == old(w.written) + LE16(0) + LE16(0) + LE16(entries) + LE16(entries)
  {
    w.WriteU16(0);
    w.WriteU16(0);
    w.WriteU16(entries);
    w.WriteU16(entries);
  }

  /** The central header's writes after the name lengths: zero comment
      length, disk number and internal and external attributes, then the
      local header's offset. */
  method WriteCentralTrailer(w: HeaderWriter, localOffset: int)
    requires w.Valid() && w.offset + 14 <= w.buf.Length
    modifies w, w.buf
    ensures w.Valid() && w.offset == old(w.offset) + 14
    ensures w.written == old(w.written) + LE16(0) + LE16(0) + LE16(0) + LE32(0) + LE32(localOffset)
  {
    w.WriteU16(0);
    w.WriteU16(0);
    w.WriteU16(0);
    w.WriteU32(0);
    w.WriteU32(localOffset);
  }

  /** `buildLocalFileHeader(filename, mtime)`. */
  method BuildLocalFileHeader(name: seq<byte>, m: Mtime) returns (header: array<byte>)
    requires WellFormed(m)
    ensures fresh(header)
    ensures header[..] == LocalFileHeader(name, m)
  {
    var w := new HeaderWriter(LocalHeaderFixedSize + |name|);
    w.WriteBytes(LocalSignature);
    assert w.written == LocalSignature;
    WriteSharedFields(w, m, 0, 0, name);
    w.WriteBytes(name);
    header := w.buf;
    assert header[..] == w.written;
  }

  /** `buildDataDescriptor(crc32, length)`: three `setUint32` calls on a fresh
      12-byte array. */
  method BuildDataDescriptor(crc: int, length: int) returns (descriptor: array<byte>)
    ensures fresh(descriptor)
    ensures descriptor[..] == DataDescriptor(crc, length)
  {
    descriptor := new byte[DataDescriptorSize];
    SetUint32(descriptor, 0, crc);
    SetUint32(descriptor, 4, length);
    assert descriptor[..8] == LE32(crc) + LE32(length);
    SetUint32(descriptor, 8, length);
  }

  /** `buildCentralDirectoryHeader(filename, mtime, crc32, length,
      localHeaderOffset)`. */
  method BuildCentralDirectoryHeader(name: seq<byte>, m: Mtime, crc: int, length: int, localOffset: int)
    returns (header: array<byte>)
    requires WellFormed(m)
    ensures fresh(header)
    ensures header[..] == CentralDirectoryHeader(name, m, crc, length, localOffset)
  {
    var w := new HeaderWriter(CentralHeaderFixedSize + |name|);
    w.WriteBytes(CentralSignature);
    assert w.written == CentralSignature;
    w.WriteU8(MadeBySpec);
    w.WriteU8(MadeByUnix);
    WriteSharedFields(w, m, crc, length, name);
    ghost var head := w.written;
    WriteCentralTrailer(w, localOffset);
    w.WriteBytes(name);
    assert w.written == head + LE16(0) + LE16(0) + LE16(0) + LE32(0) + LE32(localOffset) + name;
    header := w.buf;
    assert header[..] == w.written;
  }

  /** `buildEndOfCentralDirectoryRecord(entries, length, centralDirectoryOffset)`. */
  method BuildEndOfCentralDirectoryRecord(entries: int, size: int, cdOffset: int) returns (record: array<byte>)
    ensures fresh(record)
    ensures record[..] == EndOfCentralDirectory(entries, size, cdOffset)
  {
    var w := new HeaderWriter(EndRecordSize);
    w.WriteBytes(EndSignature);
    assert w.written == EndSignature;
    WriteEndCounts(w, entries);
    w.WriteU32(size);
    w.WriteU32(cdOffset);
    w.WriteU16(0);
    record := w.buf;
    assert record[..] == w.written;
  }
}
