/** The table-driven CRC-32 of client/service-worker.js: the 256-entry lookup
    table `crc32Lookup` (reflected polynomial 0xEDB88320, section 4.4.7 of
    PKWARE's APPNOTE.TXT) and the stateful `Crc32Transformer`, which folds every
    chunk of a file body into its `_crc` register and `length` counter and
    passes the chunk on unchanged.

    JavaScript evaluates these expressions on 64-bit floats, converting to
    signed (`^`, `&`) or unsigned (`>>>`) 32-bit integers at every bitwise
    operator; each conversion keeps the same 32 bits, so the register is a
    `bv32` here and the final `>>> 0` is the identity on those bits. */
module Crc32 {
  import opened ZipBytes

  /** The reflected CRC-32 polynomial. */
  const Polynomial: bv32 := 0xEDB8_8320

  /** The value the constructor gives `_crc` (service-worker.js:44). */
  const InitialRegister: bv32 := 0xDEBB_20E3

  /** The register a standard CRC-32 starts from (APPNOTE.TXT section 4.4.7). */
  const StandardInitialRegister: bv32 := 0xFFFF_FFFF

  /** One round of the table generator, `c = ((c & 1) * 0xedb88320) ^ (c >>> 1)`:
      the polynomial is mixed in exactly when the bit shifted out is set. */
  function Round(c: bv32): bv32
  {
    (c >> 1) ^ (Polynomial & (0 - (c & 1)))
  }

  /** `n` rounds starting from `c`. */
  function Rounds(c: bv32, n: nat): bv32
  {
    if n == 0 then c else Round(Rounds(c, n - 1))
  }

  /** Entry `i` of `crc32Lookup`: eight rounds starting from the index. */
  function TableEntry(i: int): bv32
    requires 0 <= i < 256
  {
    Rounds((i as bv8) as bv32, 8)
  }

  /** `a` holds exactly the table `crc32Lookup`. */
  ghost predicate IsLookupTable(a: array<bv32>)
    reads a
  {
    a.Length == 256 && forall i :: 0 <= i < 256 ==> a[i] == TableEntry(i)
  }

  /** Exclusive or of two registers. */
  function Xor(a: bv32, b: bv32): bv32
  {
    a ^ b
  }

  /** The low eight bits of a register. */
  function LowByte(c: bv32): bv8
  {
    (c & 0xff) as bv8
  }

  /** The table index `transform` reads: `(_crc ^ chunk[i]) & 0xff`. */
  function TableIndex(c: bv32, b: byte): (i: int)
    ensures 0 <= i < 256
  {
    LowByte(Xor(c, ByteBits(b))) as int
  }

  /** A byte as a register value (its high 24 bits clear). */
  function ByteBits(b: byte): bv32
  {
    b as bv32
  }

  /** One iteration of the loop in `transform`:
      `_crc = (_crc >>> 8) ^ crc32Lookup[(_crc ^ chunk[i]) & 0xff]`. */
  function Step(c: bv32, b: byte): bv32
  {
    Xor(ShiftByte(c), TableEntry(TableIndex(c, b)))
  }

  /** `c >>> 8`. */
  function ShiftByte(c: bv32): bv32
  {
    c >> 8
  }

  /** The register after folding `data` into `c`, first byte first. */
  function Update(c: bv32, data: seq<byte>): bv32
    decreases |data|
  {
    if data == [] then c else Update(Step(c, data[0]), data[1..])
  }

  /** What `crc32()` returns once `data` has gone through a fresh transformer:
      `~_crc >>> 0`. */
  function CrcAsWritten(data: seq<byte>): bv32
  {
    !Update(InitialRegister, data)
  }

  // ---------------------------------------------------------------------
  // Chunking: the register only depends on the concatenation of the chunks.

  /** Feeding `a` and then `b` leaves the same register as feeding `a + b`. */
  lemma {:induction false} UpdateConcat(c: bv32, a: seq<byte>, b: seq<byte>)
    ensures Update(c, a + b) == Update(Update(c, a), b)
    decreases |a|
  {
    if a != [] {
      assert (a + b)[1..] == a[1..] + b;
      UpdateConcat(Step(c, a[0]), a[1..], b);
    } else {
      assert a + b == b;
    }
  }

  /** The register over a list of chunks is the register over their bytes. */
  function UpdateChunks(c: bv32, chunks: seq<seq<byte>>): bv32
  {
    if chunks == [] then c else Update(UpdateChunks(c, chunks[..|chunks| - 1]), chunks[|chunks| - 1])
  }

  lemma {:induction false} UpdateChunksFlatten(c: bv32, chunks: seq<seq<byte>>)
    ensures UpdateChunks(c, chunks) == Update(c, Flatten(chunks))
  {
    if chunks != [] {
      var init := chunks[..|chunks| - 1];
      UpdateChunksFlatten(c, init);
      UpdateConcat(c, Flatten(init), chunks[|chunks| - 1]);
    }
  }

  /** Feeding `data[..i + 1]` is feeding `data[..i]` and then one more step. */
  lemma UpdateSnoc(c: bv32, data: seq<byte>, i: nat)
    requires i < |data|
    ensures Update(c, data[..i + 1]) == Step(Update(c, data[..i]), data[i])
  {
    assert data[..i + 1] == data[..i] + [data[i]];
    UpdateConcat(c, data[..i], [data[i]]);
  }

  /** Reading the table is computing the entry. */
  lemma LookupStep(table: array<bv32>, c: bv32, b: byte)
    requires IsLookupTable(table)
    ensures Xor(ShiftByte(c), table[TableIndex(c, b)]) == Step(c, b)
  {
  }

  // ---------------------------------------------------------------------
  // The table-driven step is the bitwise CRC-32 step. The lemmas below are
  // stated with `Xor` rather than `^`: the solver proves them far more cheaply
  // when the exclusive-or of two registers is a named term.

  lemma ShiftXor(x: bv32, y: bv32)
    ensures (x ^ y) >> 1 == (x >> 1) ^ (y >> 1)
  {
  }

  lemma LowBitXor(x: bv32, y: bv32)
    ensures (x ^ y) & 1 == (x & 1) ^ (y & 1)
  {
  }

  lemma RoundXorOddOdd(x: bv32, y: bv32)
    requires x & 1 == 1 && y & 1 == 1
    ensures Round(x ^ y) == Round(x) ^ Round(y)
  {
    ShiftXor(x, y);
    LowBitXor(x, y);
  }

  lemma RoundXorOddEven(x: bv32, y: bv32)
    requires x & 1 == 1 && y & 1 == 0
    ensures Round(x ^ y) == Round(x) ^ Round(y)
  {
    ShiftXor(x, y);
    LowBitXor(x, y);
  }

  lemma RoundXorEvenEven(x: bv32, y: bv32)
    requires x & 1 == 0 && y & 1 == 0
    ensures Round(x ^ y) == Round(x) ^ Round(y)
  {
    ShiftXor(x, y);
    LowBitXor(x, y);
  }

  /** A round is linear over GF(2). */
  lemma RoundXor(x: bv32, y: bv32)
    ensures Round(Xor(x, y)) == Xor(Round(x), Round(y))
  {
    if x & 1 == 1 && y & 1 == 1 {
      RoundXorOddOdd(x, y);
    } else if x & 1 == 1 {
      RoundXorOddEven(x, y);
    } else if y & 1 == 1 {
      RoundXorOddEven(y, x);
      assert y ^ x == x ^ y;
    } else {
      RoundXorEvenEven(x, y);
    }
  }

  /** So is any number of rounds. */
  lemma {:induction false} RoundsXor(x: bv32, y: bv32, n: nat)
    ensures Rounds(Xor(x, y), n) == Xor(Rounds(x, n), Rounds(y, n))
  {
    if n > 0 {
      RoundsXor(x, y, n - 1);
      RoundXor(Rounds(x, n - 1), Rounds(y, n - 1));
    }
  }

  /** Eight rounds written out. */
  function EightRounds(c: bv32): bv32
  {
    Round(Round(Round(Round(Round(Round(Round(Round(c))))))))
  }

  lemma RoundsIsEightRounds(x: bv32)
    ensures Rounds(x, 8) == EightRounds(x)
  {
    assert Rounds(x, 1) == Round(x);
    assert Rounds(x, 2) == Round(Round(x));
    assert Rounds(x, 3) == Round(Round(Round(x)));
    assert Rounds(x, 4) == Round(Round(Round(Round(x))));
    assert Rounds(x, 5) == Round(Round(Round(Round(Round(x)))));
    assert Rounds(x, 6) == Round(Round(Round(Round(Round(Round(x))))));
    assert Rounds(x, 7) == Round(Round(Round(Round(Round(Round(Round(x)))))));
  }

  /** The generator yields the standard reflected CRC-32 table: entry 128 is
      the polynomial itself, and entries 1 and 255 have their published values. */
  lemma TableSpotValues()
    ensures TableEntry(0) == 0 && TableEntry(128) == Polynomial
    ensures TableEntry(1) == 0x7707_3096 && TableEntry(255) == 0x2D02_EF8D
  {
    RoundsIsEightRounds(0);
    RoundsIsEightRounds(1);
    RoundsIsEightRounds(128);
    RoundsIsEightRounds(255);
  }

  /** With the low byte clear, no round mixes in the polynomial: eight rounds
      are a plain shift by eight. */
  lemma RoundsOfHigh(x: bv32)
    requires x & 0xff == 0
    ensures Rounds(x, 8) == ShiftByte(x)
  {
    RoundsIsEightRounds(x);
  }

  lemma ByteRoundTrip(j: bv8)
    ensures (j as int) as bv8 == j
  {
  }

  lemma ByteIsLow(b: byte)
    ensures HighBits(ByteBits(b)) == 0
  {
  }

  /** The high 24 bits of a register, in place. */
  function HighBits(t: bv32): bv32
  {
    t & 0xffff_ff00
  }

  /** The low 8 bits of a register, in place. */
  function LowBits(t: bv32): bv32
  {
    t & 0xff
  }

  lemma SplitIsXor(t: bv32)
    ensures t == Xor(HighBits(t), LowBits(t))
  {
  }

  /** The high part of `register ^ byte` goes through eight rounds as the
      register shifted right by eight. */
  lemma HighPart(c: bv32, low: bv32)
    requires HighBits(low) == 0
    ensures Rounds(HighBits(Xor(c, low)), 8) == ShiftByte(c)
  {
    HighOfXor(c, low);
    RoundsOfHigh(HighBits(Xor(c, low)));
  }

  lemma HighOfXor(c: bv32, low: bv32)
    requires HighBits(low) == 0
    ensures HighBits(Xor(c, low)) & 0xff == 0
    ensures ShiftByte(HighBits(Xor(c, low))) == ShiftByte(c)
  {
  }

  /** The table entry `transform` reads is eight rounds of the low part. */
  lemma LowPart(c: bv32, b: byte)
    ensures TableEntry(TableIndex(c, b)) == Rounds(LowBits(Xor(c, ByteBits(b))), 8)
  {
    var t := Xor(c, ByteBits(b));
    assert LowBits(t) == LowByte(t) as bv32;
    ByteRoundTrip(LowByte(t));
  }

  /** The table-driven `transform` step equals eight bitwise rounds of
      `register ^ byte`, the textbook definition of a reflected CRC step. */
  lemma StepIsBitwise(c: bv32, b: byte)
    ensures Step(c, b) == Rounds(Xor(c, ByteBits(b)), 8)
  {
    var t := Xor(c, ByteBits(b));
    SplitIsXor(t);
    RoundsXor(HighBits(t), LowBits(t), 8);
    ByteIsLow(b);
    HighPart(c, ByteBits(b));
    LowPart(c, b);
  }

  /** The reference bitwise CRC-32 register update, one byte at a time. */
  function BitwiseUpdate(c: bv32, data: seq<byte>): bv32
    decreases |data|
  {
    if data == [] then c else BitwiseUpdate(Rounds(Xor(c, ByteBits(data[0])), 8), data[1..])
  }

  lemma {:induction false} UpdateIsBitwise(c: bv32, data: seq<byte>)
    ensures Update(c, data) == BitwiseUpdate(c, data)
    decreases |data|
  {
    if data != [] {
      StepIsBitwise(c, data[0]);
      UpdateIsBitwise(Step(c, data[0]), data[1..]);
    }
  }

  /** The CRC-32 APPNOTE.TXT section 4.4.7 asks for: start from all ones,
      complement at the end. */
  function StandardCrc32(data: seq<byte>): bv32
  {
    !BitwiseUpdate(StandardInitialRegister, data)
  }

  // ---------------------------------------------------------------------
  // The register the source starts from is not the standard one.

  /** A round is injective: its top bit is the bit shifted out (the polynomial's
      top bit is set), and given that bit the rest can be undone. */
  lemma RoundInjective(x: bv32, y: bv32)
    requires x != y
    ensures Round(x) != Round(y)
  {
  }

  lemma {:induction false} RoundsInjective(x: bv32, y: bv32, n: nat)
    requires x != y
    ensures Rounds(x, n) != Rounds(y, n)
  {
    if n > 0 {
      RoundsInjective(x, y, n - 1);
      RoundInjective(Rounds(x, n - 1), Rounds(y, n - 1));
    }
  }

  lemma XorInjective(c: bv32, d: bv32, b: bv32)
    requires c != d
    ensures Xor(c, b) != Xor(d, b)
  {
  }

  /** One step maps different registers to different registers. */
  lemma StepKeepsDifference(c: bv32, d: bv32, b: byte)
    requires c != d
    ensures Step(c, b) != Step(d, b)
  {
    StepIsBitwise(c, b);
    StepIsBitwise(d, b);
    XorInjective(c, d, ByteBits(b));
    RoundsInjective(Xor(c, ByteBits(b)), Xor(d, ByteBits(b)), 8);
  }

  /** Two registers that differ stay different after any input. */
  lemma {:induction false} UpdateKeepsDifference(c: bv32, d: bv32, data: seq<byte>)
    requires c != d
    ensures Update(c, data) != Update(d, data)
    decreases |data|
  {
    if data != [] {
      StepKeepsDifference(c, d, data[0]);
      UpdateKeepsDifference(Step(c, data[0]), Step(d, data[0]), data[1..]);
    }
  }

  /** Because `_crc` starts at 0xdebb20e3 rather than 0xffffffff, the value
      `crc32()` reports differs from the standard CRC-32 for every input. */
  lemma AsWrittenNeverStandard(data: seq<byte>)
    ensures CrcAsWritten(data) != StandardCrc32(data)
  {
    UpdateKeepsDifference(InitialRegister, StandardInitialRegister, data);
    UpdateIsBitwise(StandardInitialRegister, data);
  }

  /** For empty input `crc32()` reports ~0xdebb20e3 = 0x2144DF1C, where the
      standard CRC-32 of no bytes is 0. */
  lemma EmptyInputCrc()
    ensures CrcAsWritten([]) == 0x2144_DF1C
    ensures StandardCrc32([]) == 0
  {
  }

  // ---------------------------------------------------------------------
  // The executable parts.

  /** `crc32Lookup`: `Uint32Array.from({ length: 256 }, (_, c) => { ... })`,
      eight rounds of `Round` per index. */
  method BuildLookupTable() returns (table: array<bv32>)
    ensures fresh(table) && IsLookupTable(table)
  {
    table := new bv32[256];
    for n := 0 to 256
      invariant forall i :: 0 <= i < n ==> table[i] == TableEntry(i)
    {
      var c: bv32 := (n as bv8) as bv32;
      for k := 0 to 8
        invariant c == Rounds((n as bv8) as bv32, k)
      {
        c := Round(c);
      }
      table[n] := c;
    }
  }

  /** `Crc32Transformer`. `consumed` is the ghost record of every byte that has
      gone through `transform`; `Valid()` ties the two real fields to it. The
      shared table is passed in rather than read from a global. */
  class Crc32Transformer {
    var crc: bv32
    var length: nat
    const lookup: array<bv32>
    ghost var consumed: seq<byte>

    ghost predicate Valid()
      reads this, lookup
    {
      IsLookupTable(lookup) && crc == Update(InitialRegister, consumed) && length == |consumed|
    }

    constructor (lookup: array<bv32>)
      requires IsLookupTable(lookup)
      ensures Valid() && this.lookup == lookup && consumed == []
      ensures crc == InitialRegister && length == 0
    {
      this.lookup := lookup;
      crc := InitialRegister;
      length := 0;
      consumed := [];
    }

    /** `transform(chunk, controller)`: folds every byte of `chunk` into the
        register, adds its length and enqueues it unchanged. */
    method Transform(chunk: seq<byte>, controller: ByteStream)
      requires Valid()
      modifies this, controller
      ensures Valid()
      ensures consumed == old(consumed) + chunk
      ensures crc == Update(old(crc), chunk)
      ensures length == old(length) + |chunk|
      ensures controller.blocks == old(controller.blocks) + [chunk]
      ensures controller.Bytes() == old(controller.Bytes()) + chunk
    {
      var i := 0;
      while i < |chunk|
        invariant 0 <= i <= |chunk|
        invariant crc == Update(old(crc), chunk[..i])
        invariant consumed == old(consumed) && length == old(length)
        invariant controller.blocks == old(controller.blocks)
      {
        UpdateSnoc(old(crc), chunk, i);
        LookupStep(lookup, crc, chunk[i]);
        crc := Xor(ShiftByte(crc), lookup[TableIndex(crc, chunk[i])]);
        i := i + 1;
      }
      assert chunk[..i] == chunk;
      UpdateConcat(InitialRegister, consumed, chunk);
      length := length + |chunk|;
      consumed := consumed + chunk;
      controller.Write(chunk);
    }

    /** `crc32()`: the (as-written) CRC of every byte transformed so far. */
    function Crc32(): (r: bv32)
      reads this, lookup
      requires Valid()
      ensures r == CrcAsWritten(consumed)
    {
      !crc
    }
  }
}
