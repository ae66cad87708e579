/** Byte-level primitives used by the ZIP writer of client/service-worker.js:
    the little-endian encodings a `DataView` performs (`setUint8`, `setUint16`,
    `setUint32` with `littleEndian = true`), `Uint8Array.set`, the moving-offset
    writer that `buildLocalFileHeader`, `buildCentralDirectoryHeader` and
    `buildEndOfCentralDirectoryRecord` close over (`buildDataDescriptor` writes
    at fixed offsets instead), and the writable stream the archive is written
    to. */
module ZipBytes {

  /** One element of a `Uint8Array`. */
  newtype byte = x: int | 0 <= x < 256

  /** The little-endian unsigned value of two bytes at `i`, as a ZIP reader sees it. */
  function U16At(s: seq<byte>, i: nat): nat
    requires i + 2 <= |s|
  {
    s[i] as int + 256 * s[i + 1] as int
  }

  /** The little-endian unsigned value of four bytes at `i`. */
  function U32At(s: seq<byte>, i: nat): nat
    requires i + 4 <= |s|
  {
    U16At(s, i) + 0x1_0000 * U16At(s, i + 2)
  }

  /** `DataView.setUint8(_, v)`: the value is reduced modulo 2^8 (ToUint8). */
  function LE8(v: int): (r: seq<byte>)
    ensures |r| == 1 && r[0] as int == v % 0x100
  {
    [(v % 0x100) as byte]
  }

  /** The two bytes `DataView.setUint16(_, v, true)` stores: v reduced modulo 2^16
      (ToUint16), low byte first. */
  function LE16(v: int): (r: seq<byte>)
    ensures |r| == 2 && U16At(r, 0) == v % 0x1_0000
  {
    var u := v % 0x1_0000;
    [(u % 0x100) as byte, (u / 0x100) as byte]
  }

  /** The four bytes `DataView.setUint32(_, v, true)` stores: v reduced modulo 2^32
      (ToUint32), low byte first. */
  function LE32(v: int): (r: seq<byte>)
    ensures |r| == 4 && U32At(r, 0) == v % 0x1_0000_0000
  {
    var u := v % 0x1_0000_0000;
    LE16(u % 0x1_0000) + LE16(u / 0x1_0000)
  }

  /** A value that fits 32 bits is unchanged by the reduction `setUint32` applies. */
  lemma Fits32(x: int)
    requires 0 <= x < 0x1_0000_0000
    ensures x % 0x1_0000_0000 == x
  {
  }

  /** `Uint8Array.set(bytes, pos)`: copies `bytes` into `a` starting at `pos`. */
  method Set(a: array<byte>, bytes: seq<byte>, pos: nat)
    requires pos + |bytes| <= a.Length
    modifies a
    ensures a[..] == old(a[..pos]) + bytes + old(a[pos + |bytes|..])
  {
    ghost var before := a[..];
    var i := 0;
    while i < |bytes|
      invariant 0 <= i <= |bytes|
      invariant forall k :: 0 <= k < a.Length ==>
        a[k] == if pos <= k < pos + i then bytes[k - pos] else before[k]
    {
      a[pos + i] := bytes[i];
      i := i + 1;
    }
    assert a[..] == before[..pos] + bytes + before[pos + |bytes|..];
  }

  /** `DataView.setUint8(pos, v)`. */
  method SetUint8(a: array<byte>, pos: nat, v: int)
    requires pos + 1 <= a.Length
    modifies a
    ensures a[..] == old(a[..pos]) + LE8(v) + old(a[pos + 1..])
  {
    Set(a, LE8(v), pos);
  }

  /** `DataView.setUint16(pos, v, true)`. */
  method SetUint16(a: array<byte>, pos: nat, v: int)
    requires pos + 2 <= a.Length
    modifies a
    ensures a[..] == old(a[..pos]) + LE16(v) + old(a[pos + 2..])
  {
    Set(a, LE16(v), pos);
  }

  /** `DataView.setUint32(pos, v, true)`. */
  method SetUint32(a: array<byte>, pos: nat, v: int)
    requires pos + 4 <= a.Length
    modifies a
    ensures a[..] == old(a[..pos]) + LE32(v) + old(a[pos + 4..])
  {
    Set(a, LE32(v), pos);
  }

  /** The state shared by the local `writeBytes`/`writeU8`/`writeU16`/`writeU32`
      helpers of `buildLocalFileHeader`, `buildCentralDirectoryHeader` and
      `buildEndOfCentralDirectoryRecord`: the record being filled and the moving
      `offset`. The ghost `written` is everything written so far. */
  class HeaderWriter {
    const buf: array<byte>
    var offset: nat
    ghost var written: seq<byte>

    ghost predicate Valid()
      reads this, buf
    {
      offset <= buf.Length && written == buf[..offset]
    }

    /** `new Uint8Array(size)` together with `let offset = 0`. */
    constructor (size: nat)
      ensures Valid() && fresh(buf)
      ensures buf.Length == size && offset == 0 && written == []
    {
      buf := new byte[size];
      offset := 0;
      written := [];
    }

    method WriteBytes(bytes: seq<byte>)
      requires Valid() && offset + |bytes| <= buf.Length
      modifies this, buf
      ensures Valid() && offset == old(offset) + |bytes|
      ensures written == old(written) + bytes
    {
      Set(buf, bytes, offset);
      offset := offset + |bytes|;
      written := written + bytes;
    }

    method WriteU8(v: int)
      requires Valid() && offset + 1 <= buf.Length
      modifies this, buf
      ensures Valid() && offset == old(offset) + 1
      ensures written == old(written) + LE8(v)
    {
      SetUint8(buf, offset, v);
      offset := offset + 1;
      written := written + LE8(v);
    }

    method WriteU16(v: int)
      requires Valid() && offset + 2 <= buf.Length
      modifies this, buf
      ensures Valid() && offset == old(offset) + 2
      ensures written == old(written) + LE16(v)
    {
      SetUint16(buf, offset, v);
      offset := offset + 2;
      written := written + LE16(v);
    }

    method WriteU32(v: int)
      requires Valid() && offset + 4 <= buf.Length
      modifies this, buf
      ensures Valid() && offset == old(offset) + 4
      ensures written == old(written) + LE32(v)
    {
      SetUint32(buf, offset, v);
      offset := offset + 4;
      written := written + LE32(v);
    }
  }

  /** The archive's writable stream (and, since `pipeThrough`/`pipeTo` only forward,
      the queue a `TransformStreamDefaultController` enqueues onto): the byte
      blocks in the order they were written. */
  class ByteStream {
    var blocks: seq<seq<byte>>

    constructor ()
      ensures blocks == []
    {
      blocks := [];
    }

    /** All bytes written so far, in order. */
    function Bytes(): seq<byte>
      reads this
    {
      Flatten(blocks)
    }

    /** `writer.write(block)` and `controller.enqueue(block)`. */
    method Write(block: seq<byte>)
      modifies this
      ensures blocks == old(blocks) + [block]
      ensures Bytes() == old(Bytes()) + block
    {
      blocks := blocks + [block];
      assert blocks[..|blocks| - 1] == old(blocks);
    }
  }

  /** The bytes of a sequence of blocks, in order. */
  function Flatten(blocks: seq<seq<byte>>): seq<byte>
  {
    if blocks == [] then [] else Flatten(blocks[..|blocks| - 1]) + blocks[|blocks| - 1]
  }

  /** Concatenation is associative. */
  lemma ConcatAssoc(a: seq<byte>, b: seq<byte>, c: seq<byte>)
    ensures a + (b + c) == a + b + c
  {
  }

  /** A slice inside a known prefix of `s` is that slice of the prefix. */
  lemma SliceWithin(s: seq<byte>, p: seq<byte>, i: nat, j: nat)
    requires |p| <= |s| && s[..|p|] == p && i <= j <= |p|
    ensures s[i..j] == p[i..j]
  {
    assert forall k :: i <= k < j ==> s[k] == s[..|p|][k];
  }

  /** The two parts of `a + b`, each at its offset. */
  lemma TwoParts(a: seq<byte>, b: seq<byte>)
    ensures (a + b)[..|a|] == a && (a + b)[|a|..|a| + |b|] == b
  {
  }

  /** The three parts of `a + b + c`, each at its offset. */
  lemma ThreeParts(a: seq<byte>, b: seq<byte>, c: seq<byte>)
    ensures var s := a + b + c;
      s[..|a|] == a && s[|a|..|a| + |b|] == b && s[|a| + |b|..|a| + |b| + |c|] == c
  {
  }

  /** Flattening one more block of a prefix appends that block. */
  lemma FlattenStep(blocks: seq<seq<byte>>, j: nat)
    requires j < |blocks|
    ensures Flatten(blocks[..j + 1]) == Flatten(blocks[..j]) + blocks[j]
  {
    assert blocks[..j + 1][..j] == blocks[..j];
  }

  /** Block `k` sits in the flattened blocks right after the blocks before it. */
  lemma {:induction false} FlattenAt(blocks: seq<seq<byte>>, k: nat)
    requires k < |blocks|
    ensures |Flatten(blocks[..k])| + |blocks[k]| <= |Flatten(blocks)|
    ensures Flatten(blocks)[|Flatten(blocks[..k])|..|Flatten(blocks[..k])| + |blocks[k]|] == blocks[k]
  {
    var n := |blocks|;
    var init := blocks[..n - 1];
    var f := Flatten(init);
    assert Flatten(blocks) == f + blocks[n - 1];
    TwoParts(f, blocks[n - 1]);
    if k < n - 1 {
      FlattenAt(init, k);
      assert init[..k] == blocks[..k] && init[k] == blocks[k];
      var off := |Flatten(blocks[..k])|;
      SliceWithin(Flatten(blocks), f, off, off + |blocks[k]|);
    } else {
      assert init == blocks[..k];
    }
  }
}
