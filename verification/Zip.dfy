/** The deterministic ZIP32 writer of package.rs, and a reader that follows sections 4.3.16 (end of central
    directory), 4.3.12 (central directory header) and 4.3.7 (local file header) of PKWARE's APPNOTE.TXT. */
module Zip {
  import opened Bytes
  import Crc32

  const PACKAGE_MAX_BYTES: nat := 256 * 1024 * 1024
  const LOCAL_SIGNATURE: nat := 0x0403_4b50
  const CENTRAL_SIGNATURE: nat := 0x0201_4b50
  const END_SIGNATURE: nat := 0x0605_4b50
  const LOCAL_SIZE: nat := 30
  const CENTRAL_SIZE: nat := 46
  const END_SIZE: nat := 22
  const EXECUTABLE_MODE: nat := 0x81ed   // 0o100755
  const REGULAR_MODE: nat := 0x81a4      // 0o100644

  /** One file of the package; a package is a list of them in ascending order of name, as the ordered map
      they are kept in yields them. */
  datatype Entry = Entry(name: seq<byte>, data: seq<byte>, executable: bool)

  // ---------------------------------------------------------------------------------------------
  // Little-endian integers
  // ---------------------------------------------------------------------------------------------

  /** Byte `i` of the little-endian form of `v`. */
  function ByteOf(v: nat, i: nat): byte {
    if i == 0 then v % 256 else ByteOf(v / 256, i - 1)
  }

  function Le(v: nat, size: nat): (r: seq<byte>)
    ensures |r| == size
  {
    seq(size, i requires 0 <= i < size => ByteOf(v, i))
  }

  function U16At(bytes: seq<byte>, at: nat): nat
    requires at + 2 <= |bytes|
  {
    (bytes[at] as nat) + 256 * (bytes[at + 1] as nat)
  }

  function U32At(bytes: seq<byte>, at: nat): nat
    requires at + 4 <= |bytes|
  {
    U16At(bytes, at) + 0x1_0000 * U16At(bytes, at + 2)
  }

  /** `size` bytes of `bytes` from `at` on are the little-endian form of `value`. */
  predicate FieldAt(bytes: seq<byte>, at: nat, size: nat, value: nat) {
    && at + size <= |bytes|
    && forall i :: 0 <= i < size ==> bytes[at + i] == ByteOf(value, i)
  }

  lemma Field16(bytes: seq<byte>, at: nat, value: nat)
    requires value < U16_LIMIT && FieldAt(bytes, at, 2, value)
    ensures U16At(bytes, at) == value
  {
    assert bytes[at + 0] == ByteOf(value, 0) && bytes[at + 1] == ByteOf(value, 1);
    assert ByteOf(value, 1) == ByteOf(value / 256, 0);
  }

  lemma Field32(bytes: seq<byte>, at: nat, value: nat)
    requires value < U32_LIMIT && FieldAt(bytes, at, 4, value)
    ensures U32At(bytes, at) == value
  {
    assert bytes[at + 0] == ByteOf(value, 0) && bytes[at + 1] == ByteOf(value, 1);
    assert bytes[at + 2] == ByteOf(value, 2) && bytes[at + 3] == ByteOf(value, 3);
    assert ByteOf(value, 1) == (value / 256) % 256;
    assert ByteOf(value, 2) == ByteOf(value / 256, 1) == (value / 256 / 256) % 256;
    assert ByteOf(value, 3) == ByteOf(value / 256, 2) == ByteOf(value / 256 / 256, 1);
    assert ByteOf(value / 256 / 256, 1) == (value / 256 / 256 / 256) % 256;
  }

  // ---------------------------------------------------------------------------------------------
  // The records, byte by byte
  // ---------------------------------------------------------------------------------------------

  function LocalByte(crc: nat, size: nat, nameLength: nat, i: nat): byte {
    if i < 4 then ByteOf(LOCAL_SIGNATURE, i)
    else if i < 6 then ByteOf(20, i - 4)
    else if i < 8 then ByteOf(0x0800, i - 6)
    else if i < 10 then ByteOf(0, i - 8)
    else if i < 12 then ByteOf(0, i - 10)
    else if i < 14 then ByteOf(0x0021, i - 12)
    else if i < 18 then ByteOf(crc, i - 14)
    else if i < 22 then ByteOf(size, i - 18)
    else if i < 26 then ByteOf(size, i - 22)
    else if i < 28 then ByteOf(nameLength, i - 26)
    else ByteOf(0, if i < 28 then 0 else i - 28)
  }

  function CentralByte(crc: nat, size: nat, nameLength: nat, mode: nat, offset: nat, i: nat): byte {
    if i < 4 then ByteOf(CENTRAL_SIGNATURE, i)
    else if i < 6 then ByteOf(3 * 256 + 20, i - 4)
    else if i < 8 then ByteOf(20, i - 6)
    else if i < 10 then ByteOf(0x0800, i - 8)
    else if i < 12 then ByteOf(0, i - 10)
    else if i < 14 then ByteOf(0, i - 12)
    else if i < 16 then ByteOf(0x0021, i - 14)
    else if i < 20 then ByteOf(crc, i - 16)
    else if i < 24 then ByteOf(size, i - 20)
    else if i < 28 then ByteOf(size, i - 24)
    else if i < 30 then ByteOf(nameLength, i - 28)
    else if i < 32 then ByteOf(0, i - 30)
    else if i < 34 then ByteOf(0, i - 32)
    else if i < 36 then ByteOf(0, i - 34)
    else if i < 38 then ByteOf(0, i - 36)
    else if i < 42 then ByteOf(mode * 0x1_0000, i - 38)
    else ByteOf(offset, if i < 42 then 0 else i - 42)
  }

  function Mode(e: Entry): nat { if e.executable then EXECUTABLE_MODE else REGULAR_MODE }

  function EndByte(count: nat, size: nat, offset: nat, i: nat): byte {
    if i < 4 then ByteOf(END_SIGNATURE, i)
    else if i < 6 then ByteOf(0, i - 4)
    else if i < 8 then ByteOf(0, i - 6)
    else if i < 10 then ByteOf(count, i - 8)
    else if i < 12 then ByteOf(count, i - 10)
    else if i < 16 then ByteOf(size, i - 12)
    else if i < 20 then ByteOf(offset, i - 16)
    else ByteOf(0, if i < 20 then 0 else i - 20)
  }

  function EndRecord(count: nat, size: nat, offset: nat): (r: seq<byte>)
    ensures |r| == END_SIZE
  {
    seq(END_SIZE, i requires 0 <= i < END_SIZE => EndByte(count, size, offset, i))
  }

  predicate IsLocalHeader(h: seq<byte>, crc: nat, size: nat, nameLength: nat) {
    && |h| == LOCAL_SIZE
    && FieldAt(h, 0, 4, LOCAL_SIGNATURE) && FieldAt(h, 4, 2, 20) && FieldAt(h, 6, 2, 0x0800)
    && FieldAt(h, 8, 2, 0) && FieldAt(h, 10, 2, 0) && FieldAt(h, 12, 2, 0x0021)
    && FieldAt(h, 14, 4, crc) && FieldAt(h, 18, 4, size) && FieldAt(h, 22, 4, size)
    && FieldAt(h, 26, 2, nameLength) && FieldAt(h, 28, 2, 0)
  }

  predicate IsCentralHeader(h: seq<byte>, crc: nat, size: nat, nameLength: nat, mode: nat, offset: nat) {
    && |h| == CENTRAL_SIZE
    && FieldAt(h, 0, 4, CENTRAL_SIGNATURE) && FieldAt(h, 4, 2, 3 * 256 + 20) && FieldAt(h, 6, 2, 20)
    && FieldAt(h, 8, 2, 0x0800) && FieldAt(h, 10, 2, 0) && FieldAt(h, 12, 2, 0) && FieldAt(h, 14, 2, 0x0021)
    && FieldAt(h, 16, 4, crc) && FieldAt(h, 20, 4, size) && FieldAt(h, 24, 4, size)
    && FieldAt(h, 28, 2, nameLength) && FieldAt(h, 30, 2, 0) && FieldAt(h, 32, 2, 0)
    && FieldAt(h, 34, 2, 0) && FieldAt(h, 36, 2, 0)
    && FieldAt(h, 38, 4, mode * 0x1_0000) && FieldAt(h, 42, 4, offset)
  }

  predicate IsEndRecord(h: seq<byte>, count: nat, size: nat, offset: nat) {
    && |h| == END_SIZE
    && FieldAt(h, 0, 4, END_SIGNATURE) && FieldAt(h, 4, 2, 0) && FieldAt(h, 6, 2, 0)
    && FieldAt(h, 8, 2, count) && FieldAt(h, 10, 2, count)
    && FieldAt(h, 12, 4, size) && FieldAt(h, 16, 4, offset) && FieldAt(h, 20, 2, 0)
  }

  lemma EndLayout(count: nat, size: nat, offset: nat)
    ensures IsEndRecord(EndRecord(count, size, offset), count, size, offset)
  {
  }

  lemma ModeBit(e: Entry)
    ensures (Mode(e) * 0x1_0000 / 0x1_0000 / 0x40 % 2 == 1) == e.executable
  {
    assert EXECUTABLE_MODE / 0x40 % 2 == 1 && REGULAR_MODE / 0x40 % 2 == 0;
  }

  // ---------------------------------------------------------------------------------------------
  // The writer's buffer
  // ---------------------------------------------------------------------------------------------

  /** A growing byte vector. */
  class Buffer {
    var bytes: seq<byte>

    constructor ()
      ensures bytes == []
    {
      bytes := [];
    }

    /** Appends an integer that is the next field of `record`, whose first `k` bytes lie behind `start`. */
    method WriteLe(value: nat, size: nat, ghost start: seq<byte>, ghost record: seq<byte>, ghost k: nat)
      requires FieldAt(record, k, size, value) && bytes == start + record[..k]
      modifies this
      ensures bytes == start + record[..k + size]
    {
      bytes := bytes + Le(value, size);
      assert record[..k + size] == record[..k] + Le(value, size);
    }

    method Write16(value: nat, ghost start: seq<byte>, ghost record: seq<byte>, ghost k: nat)
      requires value < U16_LIMIT && FieldAt(record, k, 2, value) && bytes == start + record[..k]
      modifies this
      ensures bytes == start + record[..k + 2]
    {
      WriteLe(value, 2, start, record, k);
    }

    method Write32(value: nat, ghost start: seq<byte>, ghost record: seq<byte>, ghost k: nat)
      requires value < U32_LIMIT && FieldAt(record, k, 4, value) && bytes == start + record[..k]
      modifies this
      ensures bytes == start + record[..k + 4]
    {
      WriteLe(value, 4, start, record, k);
    }

    method Extend(more: seq<byte>)
      modifies this
      ensures bytes == old(bytes) + more
    {
      bytes := bytes + more;
    }
  }

  method WriteLocalHeader(output: Buffer, crc: nat, size: nat, nameLength: nat, ghost h: seq<byte>)
    requires crc < U32_LIMIT && size < U32_LIMIT && nameLength < U16_LIMIT
    requires IsLocalHeader(h, crc, size, nameLength)
    modifies output
    ensures output.bytes == old(output.bytes) + h
  {
    ghost var start := output.bytes;
    assert start + h[..0] == start;
    output.Write32(LOCAL_SIGNATURE, start, h, 0);
    output.Write16(20, start, h, 4);
    output.Write16(0x0800, start, h, 6);
    output.Write16(0, start, h, 8);
    output.Write16(0, start, h, 10);
    output.Write16(0x0021, start, h, 12);
    output.Write32(crc, start, h, 14);
    output.Write32(size, start, h, 18);
    output.Write32(size, start, h, 22);
    output.Write16(nameLength, start, h, 26);
    output.Write16(0, start, h, 28);
    assert h[..LOCAL_SIZE] == h;
  }

  method WriteCentralHeader(central: Buffer, crc: nat, size: nat, nameLength: nat, mode: nat, offset: nat,
                            ghost h: seq<byte>)
    requires crc < U32_LIMIT && size < U32_LIMIT && nameLength < U16_LIMIT && mode < U16_LIMIT && offset < U32_LIMIT
    requires IsCentralHeader(h, crc, size, nameLength, mode, offset)
    modifies central
    ensures central.bytes == old(central.bytes) + h
  {
    ghost var start := central.bytes;
    assert start + h[..0] == start;
    central.Write32(CENTRAL_SIGNATURE, start, h, 0);
    central.Write16(3 * 256 + 20, start, h, 4);
    central.Write16(20, start, h, 6);
    central.Write16(0x0800, start, h, 8);
    central.Write16(0, start, h, 10);
    central.Write16(0, start, h, 12);
    central.Write16(0x0021, start, h, 14);
    central.Write32(crc, start, h, 16);
    central.Write32(size, start, h, 20);
    central.Write32(size, start, h, 24);
    central.Write16(nameLength, start, h, 28);
    central.Write16(0, start, h, 30);
    central.Write16(0, start, h, 32);
    central.Write16(0, start, h, 34);
    central.Write16(0, start, h, 36);
    central.Write32(mode * 0x1_0000, start, h, 38);
    central.Write32(offset, start, h, 42);
    assert h[..CENTRAL_SIZE] == h;
  }

  method WriteEnd(output: Buffer, count: nat, size: nat, offset: nat)
    requires count < U16_LIMIT && size < U32_LIMIT && offset < U32_LIMIT
    modifies output
    ensures output.bytes == old(output.bytes) + EndRecord(count, size, offset)
  {
    ghost var start, h := output.bytes, EndRecord(count, size, offset);
    EndLayout(count, size, offset);
    assert start + h[..0] == start;
    output.Write32(END_SIGNATURE, start, h, 0);
    output.Write16(0, start, h, 4);
    output.Write16(0, start, h, 6);
    output.Write16(count, start, h, 8);
    output.Write16(count, start, h, 10);
    output.Write32(size, start, h, 12);
    output.Write32(offset, start, h, 16);
    output.Write16(0, start, h, 20);
    assert h[..END_SIZE] == h;
  }

  datatype Outcome = Written(archive: seq<byte>) | BoundsError

  // ---------------------------------------------------------------------------------------------
  // What a reader sees
  // ---------------------------------------------------------------------------------------------

  /** The end record is the last place that carries its signature and a comment length that reaches exactly
      to the end of the archive. */
  predicate IsEnd(bytes: seq<byte>, at: nat) {
    && at + END_SIZE <= |bytes|
    && U32At(bytes, at) == END_SIGNATURE
    && at + END_SIZE + U16At(bytes, at + 20) == |bytes|
  }

  function FindEnd(bytes: seq<byte>, at: nat): (r: Option<nat>)
    ensures r.Some? ==> IsEnd(bytes, r.value)
  {
    if IsEnd(bytes, at) then Some(at) else if at == 0 then None else FindEnd(bytes, at - 1)
  }

  datatype Central = Central(name: seq<byte>, crc: nat, size: nat, executable: bool, offset: nat, next: nat)

  function ReadCentral(bytes: seq<byte>, at: nat): Option<Central> {
    if at + CENTRAL_SIZE > |bytes| || U32At(bytes, at) != CENTRAL_SIGNATURE then None
    else
      var method_, compressed := U16At(bytes, at + 10), U32At(bytes, at + 20);
      var size, nameLength := U32At(bytes, at + 24), U16At(bytes, at + 28);
      var next := at + CENTRAL_SIZE + nameLength + U16At(bytes, at + 30) + U16At(bytes, at + 32);
      if method_ != 0 || compressed != size || next > |bytes| then None
      else
        Some(Central(bytes[at + CENTRAL_SIZE..at + CENTRAL_SIZE + nameLength], U32At(bytes, at + 16), size,
                     U32At(bytes, at + 38) / 0x1_0000 / 0x40 % 2 == 1, U32At(bytes, at + 42), next))
  }

  /** `piece` lies in `bytes` at `at`. */
  predicate Lies(bytes: seq<byte>, at: nat, piece: seq<byte>) {
    at + |piece| <= |bytes| && bytes[at..at + |piece|] == piece
  }

  lemma LiesField(bytes: seq<byte>, at: nat, piece: seq<byte>, k: nat, size: nat, value: nat)
    requires Lies(bytes, at, piece) && FieldAt(piece, k, size, value)
    ensures FieldAt(bytes, at + k, size, value)
  {
    forall i | 0 <= i < size ensures bytes[at + k + i] == ByteOf(value, i) {
      assert bytes[at..at + |piece|][k + i] == piece[k + i];
    }
  }

  lemma Lies16(bytes: seq<byte>, at: nat, piece: seq<byte>, k: nat, value: nat)
    requires Lies(bytes, at, piece) && FieldAt(piece, k, 2, value) && value < U16_LIMIT
    ensures at + k + 2 <= |bytes| && U16At(bytes, at + k) == value
  {
    LiesField(bytes, at, piece, k, 2, value);
    Field16(bytes, at + k, value);
  }

  lemma Lies32(bytes: seq<byte>, at: nat, piece: seq<byte>, k: nat, value: nat)
    requires Lies(bytes, at, piece) && FieldAt(piece, k, 4, value) && value < U32_LIMIT
    ensures at + k + 4 <= |bytes| && U32At(bytes, at + k) == value
  {
    LiesField(bytes, at, piece, k, 4, value);
    Field32(bytes, at + k, value);
  }

  lemma LiesInside(bytes: seq<byte>, at: nat, piece: seq<byte>, k: nat, part: seq<byte>)
    requires Lies(bytes, at, piece) && Lies(piece, k, part)
    ensures Lies(bytes, at + k, part)
  {
    var whole := bytes[at..at + |piece|];
    forall i | 0 <= i < |part| ensures bytes[at + k + i] == part[i] {
      assert whole[k + i] == piece[k + i] == piece[k..k + |part|][i];
    }
  }

  lemma LiesInPrefix(a: seq<byte>, b: seq<byte>, at: nat, piece: seq<byte>)
    requires Lies(a, at, piece) && a <= b
    ensures Lies(b, at, piece)
  {
    assert b[..|a|] == a;
    assert b[at..at + |piece|] == a[at..at + |piece|];
  }

  lemma LiesAfter(a: seq<byte>, b: seq<byte>, at: nat, piece: seq<byte>)
    requires Lies(b, at, piece)
    ensures Lies(a + b, |a| + at, piece)
  {
    assert (a + b)[|a| + at..|a| + at + |piece|] == b[at..at + |piece|];
  }

  lemma LiesInThree(a: seq<byte>, b: seq<byte>, c: seq<byte>, at: nat, piece: seq<byte>)
    ensures Lies(a, at, piece) ==> Lies(a + b + c, at, piece)
    ensures Lies(b, at, piece) ==> Lies(a + b + c, |a| + at, piece)
  {
    if Lies(a, at, piece) {
      LiesInPrefix(a, a + b, at, piece);
      LiesInPrefix(a + b, a + b + c, at, piece);
    }
    if Lies(b, at, piece) {
      LiesAfter(a, b, at, piece);
      LiesInPrefix(a + b, a + b + c, |a| + at, piece);
    }
  }

  // ---------------------------------------------------------------------------------------------
  // The format
  // ---------------------------------------------------------------------------------------------

  type u32 = n: nat | n < U32_LIMIT

  /** The archive format for any 32-bit checksum; nothing below depends on which one it is. */
  datatype Format = Format(crc: seq<byte> -> u32) {

    function LocalHeader(e: Entry): (r: seq<byte>)
      ensures |r| == LOCAL_SIZE
    {
      seq(LOCAL_SIZE, i requires 0 <= i < LOCAL_SIZE => LocalByte(crc(e.data), |e.data|, |e.name|, i))
    }

    function CentralHeader(e: Entry, offset: nat): (r: seq<byte>)
      ensures |r| == CENTRAL_SIZE
    {
      seq(CENTRAL_SIZE, i requires 0 <= i < CENTRAL_SIZE =>
        CentralByte(crc(e.data), |e.data|, |e.name|, Mode(e), offset, i))
    }

    lemma LocalConstants(e: Entry)
      ensures
        var h := LocalHeader(e);
        && FieldAt(h, 0, 4, LOCAL_SIGNATURE) && FieldAt(h, 4, 2, 20) && FieldAt(h, 6, 2, 0x0800)
        && FieldAt(h, 8, 2, 0) && FieldAt(h, 10, 2, 0) && FieldAt(h, 12, 2, 0x0021)
    {
    }

    lemma LocalSizes(e: Entry)
      ensures
        var h := LocalHeader(e);
        && FieldAt(h, 14, 4, crc(e.data)) && FieldAt(h, 18, 4, |e.data|) && FieldAt(h, 22, 4, |e.data|)
        && FieldAt(h, 26, 2, |e.name|) && FieldAt(h, 28, 2, 0)
    {
    }

    lemma LocalLayout(e: Entry)
      ensures IsLocalHeader(LocalHeader(e), crc(e.data), |e.data|, |e.name|)
    {
      LocalConstants(e);
      LocalSizes(e);
    }

    lemma CentralConstants(e: Entry, offset: nat)
      ensures
        var h := CentralHeader(e, offset);
        && FieldAt(h, 0, 4, CENTRAL_SIGNATURE) && FieldAt(h, 4, 2, 3 * 256 + 20) && FieldAt(h, 6, 2, 20)
        && FieldAt(h, 8, 2, 0x0800) && FieldAt(h, 10, 2, 0) && FieldAt(h, 12, 2, 0) && FieldAt(h, 14, 2, 0x0021)
    {
    }

    lemma CentralSizes(e: Entry, offset: nat)
      ensures
        var h := CentralHeader(e, offset);
        && FieldAt(h, 16, 4, crc(e.data)) && FieldAt(h, 20, 4, |e.data|) && FieldAt(h, 24, 4, |e.data|)
        && FieldAt(h, 28, 2, |e.name|)
    {
    }

    lemma CentralTail(e: Entry, offset: nat)
      ensures
        var h := CentralHeader(e, offset);
        FieldAt(h, 30, 2, 0) && FieldAt(h, 32, 2, 0) && FieldAt(h, 34, 2, 0) && FieldAt(h, 36, 2, 0)
    {
    }

    lemma CentralPlace(e: Entry, offset: nat)
      ensures
        var h := CentralHeader(e, offset);
        FieldAt(h, 38, 4, Mode(e) * 0x1_0000) && FieldAt(h, 42, 4, offset)
    {
    }

    lemma CentralLayout(e: Entry, offset: nat)
      ensures IsCentralHeader(CentralHeader(e, offset), crc(e.data), |e.data|, |e.name|, Mode(e), offset)
    {
      CentralConstants(e, offset);
      CentralSizes(e, offset);
      CentralTail(e, offset);
      CentralPlace(e, offset);
    }

    function LocalRecord(e: Entry): seq<byte> { LocalHeader(e) + e.name + e.data }

    function CentralRecord(e: Entry, offset: nat): seq<byte> { CentralHeader(e, offset) + e.name }

    function LocalsTo(files: seq<Entry>, k: nat): seq<byte>
      requires k <= |files|
    {
      if k == 0 then [] else LocalsTo(files, k - 1) + LocalRecord(files[k - 1])
    }

    function CentralTo(files: seq<Entry>, k: nat): seq<byte>
      requires k <= |files|
    {
      if k == 0 then []
      else CentralTo(files, k - 1) + CentralRecord(files[k - 1], |LocalsTo(files, k - 1)|)
    }

    /** The archive of a list of files. */
    function Archive(files: seq<Entry>): seq<byte> {
      var locals, central := LocalsTo(files, |files|), CentralTo(files, |files|);
      locals + central + EndRecord(|files|, |central|, |locals|)
    }

    /** What ZIP32 and the package limit can hold. */
    predicate Representable(files: seq<Entry>) {
      && |files| < U16_LIMIT
      && (forall i :: 0 <= i < |files| ==> |files[i].name| < U16_LIMIT)
      && |Archive(files)| <= PACKAGE_MAX_BYTES
    }

    method WriteFile(output: Buffer, central: Buffer, e: Entry, offset: nat)
      requires output != central && offset == |output.bytes| < U32_LIMIT
      requires |e.name| < U16_LIMIT && |e.data| < U32_LIMIT
      modifies output, central
      ensures output.bytes == old(output.bytes) + LocalHeader(e) + e.name + e.data
      ensures central.bytes == old(central.bytes) + CentralHeader(e, offset) + e.name
    {
      LocalLayout(e);
      CentralLayout(e, offset);
      WriteLocalHeader(output, crc(e.data), |e.data|, |e.name|, LocalHeader(e));
      output.Extend(e.name);
      output.Extend(e.data);
      WriteCentralHeader(central, crc(e.data), |e.data|, |e.name|, Mode(e), offset, CentralHeader(e, offset));
      central.Extend(e.name);
    }

    /** The writer succeeds exactly on what ZIP32 and the package limit can hold. */
    method WriteZip(files: seq<Entry>) returns (outcome: Outcome)
      ensures outcome == if Representable(files) then Written(Archive(files)) else BoundsError
    {
      var output := new Buffer();
      var central := new Buffer();
      var k := 0;
      while k < |files|
        invariant k <= |files|
        invariant output != central
        invariant output.bytes == LocalsTo(files, k) && central.bytes == CentralTo(files, k)
        invariant forall i :: 0 <= i < k ==> |files[i].name| < U16_LIMIT
      {
        var e := files[k];
        var offset := |output.bytes|;
        if |e.name| >= U16_LIMIT {
          return BoundsError;
        }
        if |e.data| >= U32_LIMIT || offset >= U32_LIMIT {
          ArchiveIsLong(files, k);
          return BoundsError;
        }
        RecordsAppend(files, k);
        WriteFile(output, central, e, offset);
        k := k + 1;
      }
      var offset, size := |output.bytes|, |central.bytes|;
      if offset >= U32_LIMIT || size >= U32_LIMIT {
        return BoundsError;
      }
      output.Extend(central.bytes);
      if |files| >= U16_LIMIT {
        return BoundsError;
      }
      WriteEnd(output, |files|, size, offset);
      if |output.bytes| > PACKAGE_MAX_BYTES {
        return BoundsError;
      }
      return Written(output.bytes);
    }

    lemma RecordsAppend(files: seq<Entry>, k: nat)
      requires k < |files|
      ensures
        var e, locals, central := files[k], LocalsTo(files, k), CentralTo(files, k);
        && LocalsTo(files, k + 1) == locals + LocalHeader(e) + e.name + e.data
        && CentralTo(files, k + 1) == central + CentralHeader(e, |locals|) + e.name
    {
      var e, locals, central := files[k], LocalsTo(files, k), CentralTo(files, k);
      assert locals + LocalHeader(e) + e.name + e.data == locals + (LocalHeader(e) + e.name + e.data);
      assert central + CentralHeader(e, |locals|) + e.name == central + (CentralHeader(e, |locals|) + e.name);
    }

    lemma {:induction false} PrefixGrows(files: seq<Entry>, j: nat, k: nat)
      requires j <= k <= |files|
      ensures LocalsTo(files, j) <= LocalsTo(files, k)
      ensures CentralTo(files, j) <= CentralTo(files, k)
      decreases k
    {
      if j < k {
        PrefixGrows(files, j, k - 1);
      }
    }

    lemma ArchiveIsLong(files: seq<Entry>, k: nat)
      requires k < |files|
      ensures |Archive(files)| >= |LocalsTo(files, k)| + |files[k].data|
    {
      PrefixGrows(files, k + 1, |files|);
    }

    function HeaderTotal(files: seq<Entry>, k: nat): nat
      requires k <= |files|
    {
      if k == 0 then 0
      else
        HeaderTotal(files, k - 1) + (LOCAL_SIZE + |files[k - 1].name| + |files[k - 1].data|)
                                  + (CENTRAL_SIZE + |files[k - 1].name|)
    }

    lemma {:induction false} RecordTotals(files: seq<Entry>, k: nat)
      requires k <= |files|
      ensures |LocalsTo(files, k)| + |CentralTo(files, k)| == HeaderTotal(files, k)
    {
      if k > 0 {
        RecordTotals(files, k - 1);
      }
    }

    /** Length of an archive: thirty bytes, name and data for each file, forty-six and the name again, and
        twenty-two at the end. */
    lemma ArchiveLength(files: seq<Entry>)
      ensures |Archive(files)| == HeaderTotal(files, |files|) + END_SIZE
    {
      RecordTotals(files, |files|);
    }

    /** The data of a stored file, if its local header agrees with the directory and its checksum is right. */
    function ReadLocal(bytes: seq<byte>, c: Central): Option<seq<byte>> {
      var at := c.offset;
      if at + LOCAL_SIZE > |bytes| || U32At(bytes, at) != LOCAL_SIGNATURE then None
      else
        var nameLength := U16At(bytes, at + 26);
        var start := at + LOCAL_SIZE + nameLength + U16At(bytes, at + 28);
        if || U16At(bytes, at + 8) != 0 || U32At(bytes, at + 14) != c.crc
           || U32At(bytes, at + 18) != c.size || U32At(bytes, at + 22) != c.size
           || start + c.size > |bytes|
           || bytes[at + LOCAL_SIZE..at + LOCAL_SIZE + nameLength] != c.name
           || crc(bytes[start..start + c.size]) != c.crc
        then None
        else Some(bytes[start..start + c.size])
    }

    function Directory(bytes: seq<byte>): nat -> Option<Central> {
      (at: nat) => ReadCentral(bytes, at)
    }

    function Store(bytes: seq<byte>): Central -> Option<seq<byte>> {
      (c: Central) => ReadLocal(bytes, c)
    }

    /** Walks the directory from `at` on, fetching the data of every entry from the store; it has to end at `stop`. */
    static function ReadEntries(directory: nat -> Option<Central>, store: Central -> Option<seq<byte>>,
                                at: nat, count: nat, stop: nat): Option<seq<Entry>>
      decreases count
    {
      if count == 0 then if at == stop then Some([]) else None
      else
        match directory(at)
        case None => None
        case Some(c) =>
          match store(c)
          case None => None
          case Some(data) =>
            match ReadEntries(directory, store, c.next, count - 1, stop)
            case None => None
            case Some(rest) => Some([Entry(c.name, data, c.executable)] + rest)
    }

    /** Reads what an end record at `end` announces: one disk, on which the directory ends where the record begins. */
    static function ReadArchive(bytes: seq<byte>, end: nat, directory: nat -> Option<Central>,
                                store: Central -> Option<seq<byte>>): Option<seq<Entry>>
      requires end + END_SIZE <= |bytes|
    {
      var count, size, base := U16At(bytes, end + 10), U32At(bytes, end + 12), U32At(bytes, end + 16);
      if || U16At(bytes, end + 4) != 0 || U16At(bytes, end + 6) != 0
         || U16At(bytes, end + 8) != count || base + size != end
      then None
      else ReadEntries(directory, store, base, count, end)
    }

    function ReadZip(bytes: seq<byte>): Option<seq<Entry>> {
      if |bytes| < END_SIZE then None
      else
        match FindEnd(bytes, |bytes| - END_SIZE)
        case None => None
        case Some(end) => ReadArchive(bytes, end, Directory(bytes), Store(bytes))
    }

    lemma LocalParts(e: Entry)
      ensures Lies(LocalRecord(e), 0, LocalHeader(e))
      ensures Lies(LocalRecord(e), LOCAL_SIZE, e.name)
      ensures Lies(LocalRecord(e), LOCAL_SIZE + |e.name|, e.data)
    {
    }

    lemma CentralParts(e: Entry, offset: nat)
      ensures Lies(CentralRecord(e, offset), 0, CentralHeader(e, offset))
      ensures Lies(CentralRecord(e, offset), CENTRAL_SIZE, e.name)
    {
    }

    predicate LocalFields(bytes: seq<byte>, at: nat, e: Entry) {
      && at + LOCAL_SIZE <= |bytes|
      && U32At(bytes, at) == LOCAL_SIGNATURE && U16At(bytes, at + 8) == 0
      && U32At(bytes, at + 14) == crc(e.data)
      && U32At(bytes, at + 18) == |e.data| && U32At(bytes, at + 22) == |e.data|
      && U16At(bytes, at + 26) == |e.name| && U16At(bytes, at + 28) == 0
    }

    lemma LocalFieldsRead(bytes: seq<byte>, at: nat, e: Entry)
      requires |e.name| < U16_LIMIT && |e.data| < U32_LIMIT && Lies(bytes, at, LocalHeader(e))
      ensures LocalFields(bytes, at, e)
    {
      var h := LocalHeader(e);
      LocalLayout(e);
      Lies32(bytes, at, h, 0, LOCAL_SIGNATURE);
      Lies16(bytes, at, h, 8, 0);
      Lies32(bytes, at, h, 14, crc(e.data));
      Lies32(bytes, at, h, 18, |e.data|);
      Lies32(bytes, at, h, 22, |e.data|);
      Lies16(bytes, at, h, 26, |e.name|);
      Lies16(bytes, at, h, 28, 0);
    }

    /** Where a local record lies, the reader finds its data. */
    lemma LocalReads(bytes: seq<byte>, at: nat, e: Entry, c: Central)
      requires |e.name| < U16_LIMIT && |e.data| < U32_LIMIT
      requires Lies(bytes, at, LocalRecord(e))
      requires c.offset == at && c.name == e.name && c.crc == crc(e.data) && c.size == |e.data|
      ensures ReadLocal(bytes, c) == Some(e.data)
    {
      LocalPartsLie(bytes, at, e);
      LocalFieldsRead(bytes, at, e);
      LocalFieldsSuffice(bytes, at, e, c);
    }

    lemma LocalPartsLie(bytes: seq<byte>, at: nat, e: Entry)
      requires Lies(bytes, at, LocalRecord(e))
      ensures Lies(bytes, at, LocalHeader(e)) && Lies(bytes, at + LOCAL_SIZE, e.name)
      ensures Lies(bytes, at + LOCAL_SIZE + |e.name|, e.data)
    {
      LocalParts(e);
      ThreeLie(bytes, at, LocalRecord(e), LocalHeader(e), e.name, e.data);
    }

    lemma LocalFieldsSuffice(bytes: seq<byte>, at: nat, e: Entry, c: Central)
      requires LocalFields(bytes, at, e)
      requires Lies(bytes, at + LOCAL_SIZE, e.name) && Lies(bytes, at + LOCAL_SIZE + |e.name|, e.data)
      requires c.offset == at && c.name == e.name && c.crc == crc(e.data) && c.size == |e.data|
      ensures ReadLocal(bytes, c) == Some(e.data)
    {
      var start := at + LOCAL_SIZE + |e.name|;
      assert bytes[start..start + c.size] == e.data;
      assert bytes[at + LOCAL_SIZE..at + LOCAL_SIZE + |e.name|] == c.name;
    }

    function CentralOf(e: Entry, at: nat, offset: nat): Central {
      Central(e.name, crc(e.data), |e.data|, e.executable, offset, at + CENTRAL_SIZE + |e.name|)
    }

    predicate CentralFields(bytes: seq<byte>, at: nat, e: Entry, offset: nat) {
      && at + CENTRAL_SIZE <= |bytes|
      && U32At(bytes, at) == CENTRAL_SIGNATURE && U16At(bytes, at + 10) == 0
      && U32At(bytes, at + 16) == crc(e.data)
      && U32At(bytes, at + 20) == |e.data| && U32At(bytes, at + 24) == |e.data|
      && U16At(bytes, at + 28) == |e.name| && U16At(bytes, at + 30) == 0 && U16At(bytes, at + 32) == 0
      && U32At(bytes, at + 38) == Mode(e) * 0x1_0000 && U32At(bytes, at + 42) == offset
    }

    lemma CentralFieldsRead(bytes: seq<byte>, at: nat, e: Entry, offset: nat)
      requires |e.name| < U16_LIMIT && |e.data| < U32_LIMIT && offset < U32_LIMIT
      requires Lies(bytes, at, CentralHeader(e, offset))
      ensures CentralFields(bytes, at, e, offset)
    {
      var h := CentralHeader(e, offset);
      CentralLayout(e, offset);
      Lies32(bytes, at, h, 0, CENTRAL_SIGNATURE);
      Lies16(bytes, at, h, 10, 0);
      Lies32(bytes, at, h, 16, crc(e.data));
      Lies32(bytes, at, h, 20, |e.data|);
      Lies32(bytes, at, h, 24, |e.data|);
      Lies16(bytes, at, h, 28, |e.name|);
      Lies16(bytes, at, h, 30, 0);
      Lies16(bytes, at, h, 32, 0);
      Lies32(bytes, at, h, 38, Mode(e) * 0x1_0000);
      Lies32(bytes, at, h, 42, offset);
    }

    /** Where a central record lies, the reader finds name, checksum, size, executable bit and offset. */
    lemma CentralReads(bytes: seq<byte>, at: nat, e: Entry, offset: nat)
      requires |e.name| < U16_LIMIT && |e.data| < U32_LIMIT && offset < U32_LIMIT
      requires Lies(bytes, at, CentralRecord(e, offset))
      ensures ReadCentral(bytes, at) == Some(CentralOf(e, at, offset))
    {
      CentralParts(e, offset);
      LiesInside(bytes, at, CentralRecord(e, offset), 0, CentralHeader(e, offset));
      LiesInside(bytes, at, CentralRecord(e, offset), CENTRAL_SIZE, e.name);
      CentralFieldsRead(bytes, at, e, offset);
      CentralFieldsSuffice(bytes, at, e, offset);
    }

    lemma CentralFieldsSuffice(bytes: seq<byte>, at: nat, e: Entry, offset: nat)
      requires CentralFields(bytes, at, e, offset) && Lies(bytes, at + CENTRAL_SIZE, e.name)
      ensures ReadCentral(bytes, at) == Some(CentralOf(e, at, offset))
    {
      ModeBit(e);
    }

    predicate Placed(bytes: seq<byte>, base: nat, files: seq<Entry>, k: nat)
      requires k < |files|
    {
      && |files[k].name| < U16_LIMIT && |files[k].data| < U32_LIMIT && |LocalsTo(files, k)| < U32_LIMIT
      && Lies(bytes, |LocalsTo(files, k)|, LocalRecord(files[k]))
      && Lies(bytes, base + |CentralTo(files, k)|, CentralRecord(files[k], |LocalsTo(files, k)|))
    }

    lemma LocalPlace(files: seq<Entry>, k: nat)
      requires k < |files|
      ensures Lies(LocalsTo(files, |files|), |LocalsTo(files, k)|, LocalRecord(files[k]))
    {
      PrefixGrows(files, k + 1, |files|);
      var before, record := LocalsTo(files, k), LocalRecord(files[k]);
      assert (before + record)[|before|..] == record;
      LiesInPrefix(before + record, LocalsTo(files, |files|), |before|, record);
    }

    lemma CentralPlaceIn(files: seq<Entry>, k: nat)
      requires k < |files|
      ensures Lies(CentralTo(files, |files|), |CentralTo(files, k)|,
                   CentralRecord(files[k], |LocalsTo(files, k)|))
    {
      PrefixGrows(files, k + 1, |files|);
      var before, record := CentralTo(files, k), CentralRecord(files[k], |LocalsTo(files, k)|);
      assert (before + record)[|before|..] == record;
      LiesInPrefix(before + record, CentralTo(files, |files|), |before|, record);
    }

    /** Every central offset lands on the matching local header, and the directory lies where it should. */
    lemma RecordPlaces(files: seq<Entry>, k: nat)
      requires k < |files| && Representable(files)
      ensures Placed(Archive(files), |LocalsTo(files, |files|)|, files, k)
    {
      ArchiveIsLong(files, k);
      var locals, central := LocalsTo(files, |files|), CentralTo(files, |files|);
      var end := EndRecord(|files|, |central|, |locals|);
      LocalPlace(files, k);
      CentralPlaceIn(files, k);
      LiesInThree(locals, central, end, |LocalsTo(files, k)|, LocalRecord(files[k]));
      LiesInThree(locals, central, end, |CentralTo(files, k)|,
                  CentralRecord(files[k], |LocalsTo(files, k)|));
    }

    lemma EntryReads(bytes: seq<byte>, at: nat, e: Entry, offset: nat)
      requires |e.name| < U16_LIMIT && |e.data| < U32_LIMIT && offset < U32_LIMIT
      requires Lies(bytes, offset, LocalRecord(e)) && Lies(bytes, at, CentralRecord(e, offset))
      ensures ReadCentral(bytes, at) == Some(CentralOf(e, at, offset))
      ensures ReadLocal(bytes, CentralOf(e, at, offset)) == Some(e.data)
    {
      CentralReads(bytes, at, e, offset);
      LocalReads(bytes, offset, e, CentralOf(e, at, offset));
    }

    /** The directory read through `directory` and `store` is the list of files. */
    ghost predicate Readable(directory: nat -> Option<Central>, store: Central -> Option<seq<byte>>, base: nat,
                             files: seq<Entry>, k: nat)
      requires k < |files|
    {
      var c := CentralOf(files[k], base + |CentralTo(files, k)|, |LocalsTo(files, k)|);
      directory(base + |CentralTo(files, k)|) == Some(c) && store(c) == Some(files[k].data)
    }

    lemma {:induction false} EntriesRead(directory: nat -> Option<Central>, store: Central -> Option<seq<byte>>,
                                         base: nat, files: seq<Entry>, k: nat, stop: nat)
      requires k <= |files| && stop == base + |CentralTo(files, |files|)|
      requires forall j {:trigger Readable(directory, store, base, files, j)} ::
                 0 <= j < |files| ==> Readable(directory, store, base, files, j)
      ensures ReadEntries(directory, store, base + |CentralTo(files, k)|, |files| - k, stop) == Some(files[k..])
      decreases |files| - k
    {
      if k < |files| {
        assert Readable(directory, store, base, files, k);
        EntriesRead(directory, store, base, files, k + 1, stop);
        assert files[k..] == [files[k]] + files[k + 1..];
      }
    }

    lemma ReadablePlaces(bytes: seq<byte>, base: nat, files: seq<Entry>, k: nat)
      requires k < |files| && Placed(bytes, base, files, k)
      ensures Readable(Directory(bytes), Store(bytes), base, files, k)
    {
      EntryReads(bytes, base + |CentralTo(files, k)|, files[k], |LocalsTo(files, k)|);
    }

    /** The end record counts the files, and the directory it describes ends where it begins itself. */
    predicate EndSays(bytes: seq<byte>, end: nat, files: seq<Entry>) {
      && end + END_SIZE <= |bytes|
      && U16At(bytes, end + 4) == 0 && U16At(bytes, end + 6) == 0
      && U16At(bytes, end + 8) == U16At(bytes, end + 10) == |files|
      && U32At(bytes, end + 12) == |CentralTo(files, |files|)|
      && U32At(bytes, end + 16) == |LocalsTo(files, |files|)|
      && U32At(bytes, end + 12) + U32At(bytes, end + 16) == end
    }

    lemma EndReads(files: seq<Entry>)
      requires Representable(files)
      ensures
        var bytes := Archive(files);
        var at := |bytes| - END_SIZE;
        FindEnd(bytes, at) == Some(at) && EndSays(bytes, at, files)
    {
      var bytes := Archive(files);
      var at := |bytes| - END_SIZE;
      var locals, central := LocalsTo(files, |files|), CentralTo(files, |files|);
      var end := EndRecord(|files|, |central|, |locals|);
      EndLayout(|files|, |central|, |locals|);
      assert Lies(bytes, at, end);
      EndFields(bytes, at, end, |files|, |central|, |locals|);
    }

    static lemma EndFields(bytes: seq<byte>, at: nat, end: seq<byte>, count: nat, size: nat, offset: nat)
      requires Lies(bytes, at, end) && IsEndRecord(end, count, size, offset)
      requires count < U16_LIMIT && size < U32_LIMIT && offset < U32_LIMIT
      ensures at + END_SIZE <= |bytes| && U32At(bytes, at) == END_SIGNATURE
      ensures U16At(bytes, at + 4) == 0 && U16At(bytes, at + 6) == 0
      ensures U16At(bytes, at + 8) == count && U16At(bytes, at + 10) == count
      ensures U32At(bytes, at + 12) == size && U32At(bytes, at + 16) == offset && U16At(bytes, at + 20) == 0
    {
      Lies32(bytes, at, end, 0, END_SIGNATURE);
      Lies16(bytes, at, end, 4, 0);
      Lies16(bytes, at, end, 6, 0);
      Lies16(bytes, at, end, 8, count);
      Lies16(bytes, at, end, 10, count);
      Lies32(bytes, at, end, 12, size);
      Lies32(bytes, at, end, 16, offset);
      Lies16(bytes, at, end, 20, 0);
    }

    lemma RecordsRead(files: seq<Entry>, bytes: seq<byte>, base: nat)
      requires Representable(files) && bytes == Archive(files) && base == |LocalsTo(files, |files|)|
      ensures forall j {:trigger Readable(Directory(bytes), Store(bytes), base, files, j)} ::
                0 <= j < |files| ==> Readable(Directory(bytes), Store(bytes), base, files, j)
    {
      forall j | 0 <= j < |files| ensures Readable(Directory(bytes), Store(bytes), base, files, j) {
        RecordPlaces(files, j);
        ReadablePlaces(bytes, base, files, j);
      }
    }

    lemma EndIsFound(bytes: seq<byte>, end: nat, directory: nat -> Option<Central>,
                     store: Central -> Option<seq<byte>>, files: Option<seq<Entry>>)
      requires |bytes| == end + END_SIZE && FindEnd(bytes, end) == Some(end)
      requires directory == Directory(bytes) && store == Store(bytes)
      requires ReadArchive(bytes, end, directory, store) == files
      ensures ReadZip(bytes) == files
    {
    }

    /** A reader that follows the ZIP specification recovers exactly what was written: names, data,
        executable bits, order and checksums. */
    lemma RoundTrip(files: seq<Entry>)
      requires Representable(files)
      ensures ReadZip(Archive(files)) == Some(files)
    {
      var bytes, base := Archive(files), |LocalsTo(files, |files|)|;
      var end, directory, store := |bytes| - END_SIZE, Directory(bytes), Store(bytes);
      RecordsRead(files, bytes, base);
      EndReads(files);
      AllRead(bytes, end, directory, store, base, files);
      EndIsFound(bytes, end, directory, store, Some(files));
    }

    lemma AllRead(bytes: seq<byte>, end: nat, directory: nat -> Option<Central>,
                  store: Central -> Option<seq<byte>>, base: nat, files: seq<Entry>)
      requires EndSays(bytes, end, files) && base == |LocalsTo(files, |files|)|
      requires forall j {:trigger Readable(directory, store, base, files, j)} ::
                 0 <= j < |files| ==> Readable(directory, store, base, files, j)
      ensures ReadArchive(bytes, end, directory, store) == Some(files)
    {
      EntriesRead(directory, store, base, files, 0, end);
      assert files[0..] == files;
    }

    /** The fields of a local file header ... */
    static predicate HasLocalHeader(bytes: seq<byte>, at: nat, crc: nat, size: nat, nameLength: nat) {
      && at + 30 <= |bytes| && U32At(bytes, at) == 0x0403_4b50
      && U16At(bytes, at + 4) == 20 && U16At(bytes, at + 6) == 0x0800 && U16At(bytes, at + 8) == 0
      && U16At(bytes, at + 10) == 0 && U16At(bytes, at + 12) == 0x0021 && U32At(bytes, at + 14) == crc
      && U32At(bytes, at + 18) == size && U32At(bytes, at + 22) == size
      && U16At(bytes, at + 26) == nameLength && U16At(bytes, at + 28) == 0
    }

    /** ... and of a central one, whose attributes are a Unix mode. */
    static predicate HasCentralHeader(
      bytes: seq<byte>, at: nat, crc: nat, size: nat, nameLength: nat, mode: nat, offset: nat)
    {
      && at + 46 <= |bytes| && U32At(bytes, at) == 0x0201_4b50
      && U16At(bytes, at + 4) == 0x0314 && U16At(bytes, at + 6) == 20 && U16At(bytes, at + 8) == 0x0800
      && U16At(bytes, at + 10) == 0 && U16At(bytes, at + 12) == 0 && U16At(bytes, at + 14) == 0x0021
      && U32At(bytes, at + 16) == crc && U32At(bytes, at + 20) == size && U32At(bytes, at + 24) == size
      && U16At(bytes, at + 28) == nameLength && U16At(bytes, at + 30) == 0 && U16At(bytes, at + 32) == 0
      && U16At(bytes, at + 34) == 0 && U16At(bytes, at + 36) == 0
      && U32At(bytes, at + 38) == mode * 0x1_0000 && U32At(bytes, at + 42) == offset
    }

    /** Every field of every record of an archive: of the two headers of each file ... */
    lemma FieldsAreExact(files: seq<Entry>, k: nat, bytes: seq<byte>, offset: nat, at: nat)
      requires k < |files| && Representable(files) && bytes == Archive(files)
      requires offset == |LocalsTo(files, k)| && at == |LocalsTo(files, |files|)| + |CentralTo(files, k)|
      ensures FieldsAt(bytes, offset, at, files[k])
    {
      RecordPlaces(files, k);
      PlacedFields(bytes, offset, at, files[k]);
    }

    predicate FieldsAt(bytes: seq<byte>, offset: nat, at: nat, e: Entry) {
      && HasLocalHeader(bytes, offset, crc(e.data), |e.data|, |e.name|)
      && HasCentralHeader(bytes, at, crc(e.data), |e.data|, |e.name|, if e.executable then 0x81ed else 0x81a4, offset)
    }

    lemma PlacedFields(bytes: seq<byte>, offset: nat, at: nat, e: Entry)
      requires |e.name| < U16_LIMIT && |e.data| < U32_LIMIT && offset < U32_LIMIT
      requires Lies(bytes, offset, LocalRecord(e)) && Lies(bytes, at, CentralRecord(e, offset))
      ensures FieldsAt(bytes, offset, at, e)
    {
      LocalHasFields(bytes, offset, e);
      CentralHasFields(bytes, at, e, offset);
    }

    lemma LocalHasFields(bytes: seq<byte>, at: nat, e: Entry)
      requires |e.name| < U16_LIMIT && |e.data| < U32_LIMIT && Lies(bytes, at, LocalRecord(e))
      ensures HasLocalHeader(bytes, at, crc(e.data), |e.data|, |e.name|)
    {
      LocalPartsLie(bytes, at, e);
      LocalLayout(e);
      LocalFieldsAre(bytes, at, LocalHeader(e), crc(e.data), |e.data|, |e.name|);
    }

    lemma CentralHasFields(bytes: seq<byte>, at: nat, e: Entry, offset: nat)
      requires |e.name| < U16_LIMIT && |e.data| < U32_LIMIT && offset < U32_LIMIT
      requires Lies(bytes, at, CentralRecord(e, offset))
      ensures HasCentralHeader(bytes, at, crc(e.data), |e.data|, |e.name|,
                               if e.executable then 0x81ed else 0x81a4, offset)
    {
      CentralParts(e, offset);
      LiesInside(bytes, at, CentralRecord(e, offset), 0, CentralHeader(e, offset));
      CentralLayout(e, offset);
      CentralFieldsAre(bytes, at, CentralHeader(e, offset), crc(e.data), |e.data|, |e.name|, Mode(e), offset);
    }

    static lemma LocalFieldsAre(bytes: seq<byte>, at: nat, h: seq<byte>, crc: nat, size: nat, nameLength: nat)
      requires Lies(bytes, at, h) && IsLocalHeader(h, crc, size, nameLength)
      requires crc < U32_LIMIT && size < U32_LIMIT && nameLength < U16_LIMIT
      ensures HasLocalHeader(bytes, at, crc, size, nameLength)
    {
      Lies32(bytes, at, h, 0, LOCAL_SIGNATURE);
      Lies16(bytes, at, h, 4, 20);
      Lies16(bytes, at, h, 6, 0x0800);
      Lies16(bytes, at, h, 8, 0);
      Lies16(bytes, at, h, 10, 0);
      Lies16(bytes, at, h, 12, 0x0021);
      Lies32(bytes, at, h, 14, crc);
      Lies32(bytes, at, h, 18, size);
      Lies32(bytes, at, h, 22, size);
      Lies16(bytes, at, h, 26, nameLength);
      Lies16(bytes, at, h, 28, 0);
    }

    static lemma CentralFieldsAre(bytes: seq<byte>, at: nat, h: seq<byte>, crc: nat, size: nat, nameLength: nat,
                                  mode: nat, offset: nat)
      requires Lies(bytes, at, h) && IsCentralHeader(h, crc, size, nameLength, mode, offset)
      requires crc < U32_LIMIT && size < U32_LIMIT && nameLength < U16_LIMIT && mode < U16_LIMIT && offset < U32_LIMIT
      ensures HasCentralHeader(bytes, at, crc, size, nameLength, mode, offset)
    {
      Lies32(bytes, at, h, 0, CENTRAL_SIGNATURE);
      Lies16(bytes, at, h, 4, 3 * 256 + 20);
      Lies16(bytes, at, h, 6, 20);
      Lies16(bytes, at, h, 8, 0x0800);
      Lies16(bytes, at, h, 10, 0);
      Lies16(bytes, at, h, 12, 0);
      Lies16(bytes, at, h, 14, 0x0021);
      Lies32(bytes, at, h, 16, crc);
      Lies32(bytes, at, h, 20, size);
      Lies32(bytes, at, h, 24, size);
      Lies16(bytes, at, h, 28, nameLength);
      Lies16(bytes, at, h, 30, 0);
      Lies16(bytes, at, h, 32, 0);
      Lies16(bytes, at, h, 34, 0);
      Lies16(bytes, at, h, 36, 0);
      Lies32(bytes, at, h, 38, mode * 0x1_0000);
      Lies32(bytes, at, h, 42, offset);
    }

    /** ... and of the end record, which lies behind the directory that it describes. */
    lemma EndIsExact(files: seq<Entry>)
      requires Representable(files)
      ensures
        var bytes := Archive(files);
        var end := |bytes| - 22;
        && end >= 0 && bytes[end..end + 4] == [0x50, 0x4b, 5, 6]
        && U16At(bytes, end + 4) == 0 && U16At(bytes, end + 6) == 0
        && U16At(bytes, end + 8) == U16At(bytes, end + 10) == |files| && U16At(bytes, end + 20) == 0
        && U32At(bytes, end + 12) + U32At(bytes, end + 16) == end
        && U32At(bytes, end + 16) == |LocalsTo(files, |files|)|
    {
      EndReads(files);
      SignatureBytes(Archive(files), |Archive(files)| - END_SIZE);
    }

    static lemma SignatureBytes(bytes: seq<byte>, at: nat)
      requires at + 4 <= |bytes| && U32At(bytes, at) == END_SIGNATURE
      ensures bytes[at..at + 4] == [0x50, 0x4b, 5, 6]
    {
    }

    /** Two packages never share an archive. */
    lemma ArchiveIsInjective(a: seq<Entry>, b: seq<Entry>)
      requires Representable(a) && Representable(b) && Archive(a) == Archive(b)
      ensures a == b
    {
      RoundTrip(a);
      RoundTrip(b);
    }
  }

  lemma ThreeLie(bytes: seq<byte>, at: nat, whole: seq<byte>, header: seq<byte>, name: seq<byte>, data: seq<byte>)
    requires Lies(bytes, at, whole) && Lies(whole, 0, header) && Lies(whole, |header|, name)
    requires Lies(whole, |header| + |name|, data)
    ensures Lies(bytes, at, header) && Lies(bytes, at + |header|, name)
    ensures Lies(bytes, at + |header| + |name|, data)
  {
    LiesInside(bytes, at, whole, 0, header);
    LiesInside(bytes, at, whole, |header|, name);
    LiesInside(bytes, at, whole, |header| + |name|, data);
  }

  /** The archives the package writer produces. */
  const ZIP: Format := Format((data: seq<byte>) => Crc32.Checksum(data) as nat)

  /** They are read back exactly, and no two packages share one. */
  lemma PackagesRoundTrip(a: seq<Entry>, b: seq<Entry>)
    requires ZIP.Representable(a) && ZIP.Representable(b)
    ensures ZIP.ReadZip(ZIP.Archive(a)) == Some(a)
    ensures ZIP.Archive(a) == ZIP.Archive(b) <==> a == b
  {
    ZIP.RoundTrip(a);
    if ZIP.Archive(a) == ZIP.Archive(b) {
      ZIP.ArchiveIsInjective(a, b);
    }
  }

  function Number(x: bv32): nat { x as nat }

  function WordOf(n: nat): bv32
    requires n < U32_LIMIT
  {
    n as bv32
  }

  lemma NumberIsExact(x: bv32)
    ensures Number(x) < U32_LIMIT && WordOf(Number(x)) == x
  {
  }

  lemma NumberedChecksum(data: seq<byte>)
    ensures ZIP.crc(data) == Number(Crc32.Checksum(data))
  {
  }

  lemma ChecksumsDiffer(before: seq<byte>, v: seq<byte>, w: seq<byte>, after: seq<byte>)
    requires |v| == |w| <= 4 && v != w
    ensures ZIP.crc(before + v + after) != ZIP.crc(before + w + after)
  {
    NumberedChecksum(before + v + after);
    NumberedChecksum(before + w + after);
    Crc32.BurstIsDetected(before, v, w, after);
    NumberIsExact(Crc32.Checksum(before + v + after));
    NumberIsExact(Crc32.Checksum(before + w + after));
  }

  /** A file whose stored data were damaged inside four consecutive bytes, and nowhere else, is not read. */
  lemma DamageIsNoticed(bytes: seq<byte>, at: nat, name: seq<byte>, executable: bool, c: Central,
                        before: seq<byte>, v: seq<byte>, w: seq<byte>, after: seq<byte>)
    requires |v| == |w| <= 4 && v != w
    requires
      var e := Entry(name, before + v + after, executable);
      && |name| < U16_LIMIT && |e.data| < U32_LIMIT
      && Lies(bytes, at, ZIP.LocalHeader(e)) && Lies(bytes, at + LOCAL_SIZE, name)
      && Lies(bytes, at + LOCAL_SIZE + |name|, before + w + after)
      && c.offset == at && c.name == name && c.crc == ZIP.crc(e.data) && c.size == |e.data|
    ensures ZIP.ReadLocal(bytes, c) == None
  {
    var e := Entry(name, before + v + after, executable);
    ZIP.LocalFieldsRead(bytes, at, e);
    ChecksumsDiffer(before, v, w, after);
    OtherDataAreRefused(ZIP, bytes, at, e, c, before + w + after);
  }

  lemma OtherDataAreRefused(zip: Format, bytes: seq<byte>, at: nat, e: Entry, c: Central, data: seq<byte>)
    requires zip.LocalFields(bytes, at, e) && |data| == |e.data| && Lies(bytes, at + LOCAL_SIZE + |e.name|, data)
    requires c.offset == at && c.name == e.name && c.crc == zip.crc(e.data) != zip.crc(data) && c.size == |e.data|
    ensures zip.ReadLocal(bytes, c) == None
  {
    var start := at + LOCAL_SIZE + |e.name|;
    assert bytes[start..start + c.size] == data;
  }
}
