/** The archive `zipResponse` in client/service-worker.js streams: for every
    requested file, in order, its local file header, its body (piped through a
    CRC-32 transformer) and a data descriptor; then every central directory
    header, each pointing back at its local header; then the end record.

    The fetched bodies are inputs: a file's body is the sequence of chunks
    `fetch(url)` delivered. */
module ZipArchive {
  import opened ZipBytes
  import opened Crc32
  import opened ZipHeaders

  /** One element of `files` once its body has arrived: the UTF-8 bytes of
      `filename`, the calendar fields of `new Date(mtime)`, and the body's
      chunks. */
  datatype FileEntry = FileEntry(name: seq<byte>, mtime: Mtime, body: seq<seq<byte>>)

  predicate AllWellFormed(files: seq<FileEntry>)
  {
    forall i :: 0 <= i < |files| ==> WellFormed(files[i].mtime)
  }

  /** The bytes of a file's body. */
  function Content(f: FileEntry): seq<byte>
  {
    Flatten(f.body)
  }

  /** The value `crcStream.crc32()` returns once the body has gone through. */
  function EntryCrc(f: FileEntry): (r: int)
    ensures 0 <= r < 0x1_0000_0000
  {
    CrcAsWritten(Content(f)) as int
  }

  /** The number of bytes one file contributes before the central directory:
      `localHeader.length + length + dataDescriptor.length`. */
  function EntrySize(f: FileEntry): nat
  {
    LocalHeaderFixedSize + |f.name| + |Content(f)| + DataDescriptorSize
  }

  /** The sum of the entry sizes: the value of `offset` after these files. */
  function EntriesSize(files: seq<FileEntry>): nat
  {
    if files == [] then 0 else EntriesSize(files[..|files| - 1]) + EntrySize(files[|files| - 1])
  }

  /** The sum of the central header sizes: `centralDirectorySize`. */
  function CentralSize(files: seq<FileEntry>): nat
  {
    if files == [] then 0 else CentralSize(files[..|files| - 1]) + CentralHeaderFixedSize + |files[|files| - 1].name|
  }

  /** A file's local header, body and data descriptor. */
  function LocalEntry(f: FileEntry): (r: seq<byte>)
    requires WellFormed(f.mtime)
    ensures |r| == EntrySize(f)
  {
    LocalFileHeader(f.name, f.mtime) + Content(f) + DataDescriptor(EntryCrc(f), |Content(f)|)
  }

  /** The entry of every file, in order. */
  function Entries(files: seq<FileEntry>): (r: seq<seq<byte>>)
    requires AllWellFormed(files)
    ensures |r| == |files|
  {
    seq(|files|, k requires 0 <= k < |files| => LocalEntry(files[k]))
  }

  /** The entries of all files, back to back. */
  function LocalSection(files: seq<FileEntry>): seq<byte>
    requires AllWellFormed(files)
  {
    Flatten(Entries(files))
  }

  /** The central directory header `zipResponse` pushes for the last of
      `files`: its CRC and length, and the offset its local header was
      written at. */
  function CentralHeaders(files: seq<FileEntry>): (r: seq<seq<byte>>)
    requires AllWellFormed(files)
    ensures |r| == |files|
  {
    if files == [] then []
    else
      var init, f := files[..|files| - 1], files[|files| - 1];
      CentralHeaders(init) + [CentralDirectoryHeader(f.name, f.mtime, EntryCrc(f), |Content(f)|, EntriesSize(init))]
  }

  /** Everything `zipResponse` writes to the response stream. */
  function Archive(files: seq<FileEntry>): seq<byte>
    requires AllWellFormed(files)
  {
    LocalSection(files) + Flatten(CentralHeaders(files)) +
    EndOfCentralDirectory(|files|, CentralSize(files), EntriesSize(files))
  }

  // ---------------------------------------------------------------------
  // Layout of the archive.

  lemma AllWellFormedPrefix(files: seq<FileEntry>, k: nat)
    requires AllWellFormed(files) && k <= |files|
    ensures AllWellFormed(files[..k])
  {
  }

  /** The central directory's length is the sum of its headers' sizes. */
  lemma {:induction false} CentralLength(files: seq<FileEntry>)
    requires AllWellFormed(files)
    ensures |Flatten(CentralHeaders(files))| == CentralSize(files)
  {
    if files != [] {
      var init := files[..|files| - 1];
      CentralLength(init);
      var hs := CentralHeaders(files);
      assert hs[..|hs| - 1] == CentralHeaders(init);
    }
  }

  /** The `k`-th central header is built from the `k`-th file, with the sum of
      the entry sizes before it as its local header's offset. */
  lemma {:induction false} CentralHeaderAt(files: seq<FileEntry>, k: nat)
    requires AllWellFormed(files) && k < |files|
    ensures var f := files[k];
      CentralHeaders(files)[k] ==
        CentralDirectoryHeader(f.name, f.mtime, EntryCrc(f), |Content(f)|, EntriesSize(files[..k]))
  {
    var init := files[..|files| - 1];
    if k < |files| - 1 {
      CentralHeaderAt(init, k);
      assert init[..k] == files[..k];
    } else {
      assert init == files[..k];
    }
  }

  /** The entries of a prefix of the files are a prefix of the entries. */
  lemma EntriesPrefix(files: seq<FileEntry>, k: nat)
    requires AllWellFormed(files) && k <= |files|
    ensures Entries(files)[..k] == Entries(files[..k])
  {
  }

  /** The local section is as long as the entry sizes add up to. */
  lemma {:induction false} LocalSectionLength(files: seq<FileEntry>)
    requires AllWellFormed(files)
    ensures |LocalSection(files)| == EntriesSize(files)
  {
    if files != [] {
      var n := |files|;
      var init := files[..n - 1];
      LocalSectionLength(init);
      EntriesPrefix(files, n - 1);
      var es := Entries(files);
      assert es[..n] == es;
      FlattenStep(es, n - 1);
    }
  }

  /** One more file appends its entry to the local section. */
  lemma LocalSectionSnoc(files: seq<FileEntry>, i: nat)
    requires AllWellFormed(files) && i < |files|
    ensures LocalSection(files[..i + 1]) == LocalSection(files[..i]) + LocalEntry(files[i])
  {
    var es := Entries(files);
    EntriesPrefix(files, i);
    EntriesPrefix(files, i + 1);
    FlattenStep(es, i);
  }

  /** The `k`-th file's entry sits in the local section at the sum of the entry
      sizes before it. */
  lemma LocalEntryAt(files: seq<FileEntry>, k: nat)
    requires AllWellFormed(files) && k < |files|
    ensures EntriesSize(files[..k]) + EntrySize(files[k]) <= |LocalSection(files)|
    ensures LocalSection(files)[EntriesSize(files[..k])..EntriesSize(files[..k]) + EntrySize(files[k])]
      == LocalEntry(files[k])
  {
    FlattenAt(Entries(files), k);
    EntriesPrefix(files, k);
    LocalSectionLength(files[..k]);
  }

  /** The offset field of the `k`-th central header holds the sum of the
      entry sizes before it, reduced modulo 2^32 by `setUint32`. */
  lemma CentralOffsetField(files: seq<FileEntry>, k: nat)
    requires AllWellFormed(files) && k < |files|
    ensures |CentralHeaders(files)[k]| == CentralHeaderFixedSize + |files[k].name|
    ensures U32At(CentralHeaders(files)[k], 42) == EntriesSize(files[..k]) % 0x1_0000_0000
  {
    var f := files[k];
    CentralHeaderAt(files, k);
    CentralDirectoryHeaderFields(f.name, f.mtime, EntryCrc(f), |Content(f)|, EntriesSize(files[..k]));
  }

  /** Reading the offset field of the `k`-th central header and going there in
      the archive finds that file's local header, body and data descriptor,
      as long as the entries before it fit the 32-bit field. */
  lemma CentralOffsetFindsEntry(files: seq<FileEntry>, k: nat)
    requires AllWellFormed(files) && k < |files|
    requires EntriesSize(files[..k]) < 0x1_0000_0000
    ensures |CentralHeaders(files)[k]| == CentralHeaderFixedSize + |files[k].name|
    ensures var off := U32At(CentralHeaders(files)[k], 42);
      off + EntrySize(files[k]) <= |Archive(files)| &&
      Archive(files)[off..off + EntrySize(files[k])] == LocalEntry(files[k])
  {
    var off := EntriesSize(files[..k]);
    CentralOffsetField(files, k);
    Fits32(off);
    assert U32At(CentralHeaders(files)[k], 42) == off;
    ArchiveEntryAt(files, k);
  }

  /** Entry k of the archive starts at the sum of the earlier entry sizes. */
  lemma ArchiveEntryAt(files: seq<FileEntry>, k: nat)
    requires AllWellFormed(files) && k < |files|
    ensures var off := EntriesSize(files[..k]);
      off + EntrySize(files[k]) <= |Archive(files)| &&
      Archive(files)[off..off + EntrySize(files[k])] == LocalEntry(files[k])
  {
    var f := files[k];
    var off := EntriesSize(files[..k]);
    LocalEntryAt(files, k);
    LocalSectionLength(files);
    var l, a := LocalSection(files), Archive(files);
    var n := off + EntrySize(f);
    assert l[off..n] == LocalEntry(f);
    ThreeParts(l, Flatten(CentralHeaders(files)), EndOfCentralDirectory(|files|, CentralSize(files), EntriesSize(files)));
    assert a[..|l|] == l;
    SliceWithin(a, l, off, n);
    assert a[off..n] == l[off..n];
  }

  /** A file's entry: its local header, then the body unchanged, then the data
      descriptor holding the body's CRC and length. */
  lemma LocalEntryFields(f: FileEntry)
    requires WellFormed(f.mtime)
    ensures var e, h, n := LocalEntry(f), LocalHeaderFixedSize + |f.name|, |Content(f)|;
      e[..h] == LocalFileHeader(f.name, f.mtime) &&
      e[h..h + n] == Content(f) &&
      U32At(e, h + n) == EntryCrc(f) &&
      U32At(e, h + n + 4) == n % 0x1_0000_0000 && U32At(e, h + n + 8) == n % 0x1_0000_0000
  {
    var e, h, n := LocalEntry(f), LocalHeaderFixedSize + |f.name|, |Content(f)|;
    var d := DataDescriptor(EntryCrc(f), n);
    ThreeParts(LocalFileHeader(f.name, f.mtime), Content(f), d);
    DataDescriptorFields(EntryCrc(f), n);
    Field32(e, h + n, d, 0);
    Field32(e, h + n, d, 4);
    Field32(e, h + n, d, 8);
    Fits32(EntryCrc(f));
  }

  /** The central header of a file repeats the CRC and length its data
      descriptor carries. */
  lemma CentralMatchesDescriptor(files: seq<FileEntry>, k: nat)
    requires AllWellFormed(files) && k < |files|
    ensures |CentralHeaders(files)[k]| == CentralHeaderFixedSize + |files[k].name|
    ensures var c, e, h, n := CentralHeaders(files)[k], LocalEntry(files[k]),
        LocalHeaderFixedSize + |files[k].name|, |Content(files[k])|;
      U32At(c, 16) == U32At(e, h + n) &&
      U32At(c, 20) == U32At(e, h + n + 4) && U32At(c, 24) == U32At(e, h + n + 8)
  {
    var f := files[k];
    CentralHeaderAt(files, k);
    CentralDirectoryHeaderFields(f.name, f.mtime, EntryCrc(f), |Content(f)|, EntriesSize(files[..k]));
    LocalEntryFields(f);
  }

  /** The end record closes the archive; it counts every file, and gives the
      central directory's size and its offset, where the central directory
      indeed starts. */
  lemma EndRecordDescribesDirectory(files: seq<FileEntry>)
    requires AllWellFormed(files)
    ensures var a, cd := Archive(files), EntriesSize(files);
      |a| == cd + CentralSize(files) + EndRecordSize &&
      a[cd..cd + CentralSize(files)] == Flatten(CentralHeaders(files)) &&
      var e := a[|a| - EndRecordSize..];
      e[..4] == EndSignature &&
      U16At(e, 8) == |files| % 0x1_0000 && U16At(e, 10) == |files| % 0x1_0000 &&
      U32At(e, 12) == CentralSize(files) % 0x1_0000_0000 &&
      U32At(e, 16) == cd % 0x1_0000_0000
  {
    CentralLength(files);
    LocalSectionLength(files);
    var cd := EntriesSize(files);
    var e := EndOfCentralDirectory(|files|, CentralSize(files), cd);
    ThreeParts(LocalSection(files), Flatten(CentralHeaders(files)), e);
    EndOfCentralDirectoryFields(|files|, CentralSize(files), cd);
  }

  // ---------------------------------------------------------------------
  // The writer.

  /** The task `zipResponse` hands to `e.waitUntil`, with every `fetch`
      already answered: every file's entry, the central headers, and the end
      record. */
  method WriteArchive(files: seq<FileEntry>, lookup: array<bv32>) returns (writable: ByteStream)
    requires IsLookupTable(lookup) && AllWellFormed(files)
    ensures fresh(writable)
    ensures writable.Bytes() == Archive(files)
  {
    writable := new ByteStream();
    assert writable.Bytes() == [];
    var centralDirectoryHeaders, offset := WriteEntries(files, lookup, writable);
    assert writable.Bytes() == LocalSection(files);
    var centralDirectorySize := WriteCentralDirectory(centralDirectoryHeaders, writable);
    CentralLength(files);
    var endOfCentralDirectoryRecord :=
      BuildEndOfCentralDirectoryRecord(|centralDirectoryHeaders|, centralDirectorySize, offset);
    var end := endOfCentralDirectoryRecord[..];
    assert end == EndOfCentralDirectory(|files|, CentralSize(files), EntriesSize(files));
    writable.Write(end);
  }

  /** The loop over `files`: every file's entry in order, the central headers
      collected on the way, and the final `offset`. */
  method WriteEntries(files: seq<FileEntry>, lookup: array<bv32>, writable: ByteStream)
    returns (centralDirectoryHeaders: seq<seq<byte>>, offset: int)
    requires IsLookupTable(lookup) && AllWellFormed(files)
    modifies writable
    ensures writable.Bytes() == old(writable.Bytes()) + LocalSection(files)
    ensures centralDirectoryHeaders == CentralHeaders(files)
    ensures offset == EntriesSize(files)
  {
    ghost var before := writable.Bytes();
    centralDirectoryHeaders := [];
    offset := 0;
    for i := 0 to |files|
      invariant AllWellFormed(files[..i])
      invariant writable.Bytes() == before + LocalSection(files[..i])
      invariant offset == EntriesSize(files[..i])
      invariant centralDirectoryHeaders == CentralHeaders(files[..i])
    {
      var f := files[i];
      assert files[..i + 1][..i] == files[..i] && files[..i + 1][i] == f;
      AllWellFormedPrefix(files, i + 1);
      LocalSectionSnoc(files, i);
      ConcatAssoc(before, LocalSection(files[..i]), LocalEntry(f));
      var centralDirectoryHeader, size := WriteEntry(f, offset, lookup, writable);
      centralDirectoryHeaders := centralDirectoryHeaders + [centralDirectoryHeader];
      offset := offset + size;
    }
    assert files[..|files|] == files;
  }

  /** The loop over `centralDirectoryHeaders`: writes each header and sums
      their lengths into `centralDirectorySize`. */
  method WriteCentralDirectory(centralDirectoryHeaders: seq<seq<byte>>, writable: ByteStream)
    returns (centralDirectorySize: int)
    modifies writable
    ensures writable.Bytes() == old(writable.Bytes()) + Flatten(centralDirectoryHeaders)
    ensures centralDirectorySize == |Flatten(centralDirectoryHeaders)|
  {
    ghost var before := writable.Bytes();
    centralDirectorySize := 0;
    for k := 0 to |centralDirectoryHeaders|
      invariant writable.Bytes() == before + Flatten(centralDirectoryHeaders[..k])
      invariant centralDirectorySize == |Flatten(centralDirectoryHeaders[..k])|
    {
      FlattenStep(centralDirectoryHeaders, k);
      ConcatAssoc(before, Flatten(centralDirectoryHeaders[..k]), centralDirectoryHeaders[k]);
      writable.Write(centralDirectoryHeaders[k]);
      centralDirectorySize := centralDirectorySize + |centralDirectoryHeaders[k]|;
    }
    assert centralDirectoryHeaders[..|centralDirectoryHeaders|] == centralDirectoryHeaders;
  }

  /** One iteration of the loop over `files`: write the local header, pipe the
      body through a fresh `Crc32TransformStream` into the output, write the
      data descriptor, and return the central header for the file together
      with the amount `offset` grows by. */
  method WriteEntry(f: FileEntry, offset: int, lookup: array<bv32>, writable: ByteStream)
    returns (centralDirectoryHeader: seq<byte>, size: int)
    requires IsLookupTable(lookup) && WellFormed(f.mtime)
    modifies writable
    ensures writable.Bytes() == old(writable.Bytes()) + LocalEntry(f)
    ensures centralDirectoryHeader == CentralDirectoryHeader(f.name, f.mtime, EntryCrc(f), |Content(f)|, offset)
    ensures size == EntrySize(f)
  {
    ghost var before := writable.Bytes();
    var localHeader := BuildLocalFileHeader(f.name, f.mtime);
    writable.Write(localHeader[..]);
    var crcStream := PipeBody(f, lookup, writable);
    var length := crcStream.length;
    var crc32 := crcStream.Crc32();
    var dataDescriptor := BuildDataDescriptor(crc32 as int, length);
    writable.Write(dataDescriptor[..]);
    var header := BuildCentralDirectoryHeader(f.name, f.mtime, crc32 as int, length, offset);
    centralDirectoryHeader := header[..];
    size := localHeader.Length + length + dataDescriptor.Length;
    ConcatAssoc(before, localHeader[..], Content(f));
    ConcatAssoc(before, localHeader[..] + Content(f), dataDescriptor[..]);
  }

  /** `(await fetching).body.pipeThrough(crcStream).pipeTo(writable, { preventClose:
      true })`: every chunk of the body goes through a fresh transformer and
      on to the output unchanged. */
  method PipeBody(f: FileEntry, lookup: array<bv32>, writable: ByteStream) returns (crcStream: Crc32Transformer)
    requires IsLookupTable(lookup)
    modifies writable
    ensures fresh(crcStream) && crcStream.Valid() && crcStream.consumed == Content(f)
    ensures writable.Bytes() == old(writable.Bytes()) + Content(f)
  {
    crcStream := new Crc32Transformer(lookup);
    ghost var before := writable.Bytes();
    for j := 0 to |f.body|
      invariant crcStream.Valid()
      invariant crcStream.consumed == Flatten(f.body[..j])
      invariant writable.Bytes() == before + crcStream.consumed
    {
      FlattenStep(f.body, j);
      ConcatAssoc(before, crcStream.consumed, f.body[j]);
      crcStream.Transform(f.body[j], writable);
    }
    assert f.body[..|f.body|] == f.body;
  }
}
