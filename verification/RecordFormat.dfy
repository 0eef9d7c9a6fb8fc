/** The recordio wire format: how a record is laid out in bytes, and what the reader
    makes of any bytes it is given. */
module RecordFormat {
  import opened Blocks

  datatype Meta = Meta(name: seq<byte>, data: seq<byte>)

  datatype Record = Record(metas: seq<Meta>, payload: seq<byte>)

  const MAX_NAME_SIZE: nat := 256
  const SIZE_LIMIT: nat := 0x8000_0000

  // "RDIO"
  const MAGIC: seq<byte> := [0x52, 0x44, 0x49, 0x4F]

  // ---------- Integers ----------

  function ByteOf(n: nat): byte {
    (n % 256) as byte
  }

  lemma {:induction false} ByteNext(b: byte)
    requires b != 255
    ensures (b + 1) as int == b as int + 1
  {
  }

  lemma {:induction false} ByteFor(n: nat) returns (b: byte)
    requires n < 256
    ensures b as int == n
  {
    b := 0;
    if n > 0 {
      var a := ByteFor(n - 1);
      ByteNext(a);
      b := a + 1;
    }
  }

  lemma {:induction false} ByteIs(n: nat)
    requires n < 256
    ensures (n as byte) as int == n
  {
    var b := ByteFor(n);
    assert (b as int) as byte == b;
  }

  lemma ByteRound(n: nat)
    requires n < 256
    ensures ByteOf(n) as int == n
  {
    assert n % 256 == n;
    ByteIs(n);
    hide *;
  }

  // Network byte order.
  function Net32(n: nat): (b: seq<byte>)
    ensures |b| == 4
  {
    [ByteOf(n / 0x100_0000), ByteOf(n / 0x1_0000), ByteOf(n / 0x100), ByteOf(n)]
  }

  function Host32(b: seq<byte>): (n: nat)
    requires |b| == 4
    ensures n < 0x1_0000_0000
  {
    ((b[0] as int * 256 + b[1] as int) * 256 + b[2] as int) * 256 + b[3] as int
  }

  // The bytes of a 32-bit variable in the memory of a little-endian machine.
  function Memory32(n: nat): (b: seq<byte>)
    ensures |b| == 4
  {
    [ByteOf(n), ByteOf(n / 0x100), ByteOf(n / 0x1_0000), ByteOf(n / 0x100_0000)]
  }

  lemma Digits(n: nat)
    requires n < 0x1_0000_0000
    ensures ((n / 0x100_0000 % 256 * 256 + n / 0x1_0000 % 256) * 256 + n / 0x100 % 256) * 256 + n % 256 == n
  {
  }

  lemma Net32Round(n: nat)
    requires n < 0x1_0000_0000
    ensures Host32(Net32(n)) == n
  {
    ByteRound(n / 0x100_0000 % 256);
    ByteRound(n / 0x1_0000 % 256);
    ByteRound(n / 0x100 % 256);
    ByteRound(n % 256);
    Digits(n);
  }

  // ---------- Checksum ----------

  function Half(c: byte): byte {
    if c & 1 == 1 then (c >> 1) ^ 0xB2 else c >> 1
  }

  // One entry of the CRC-8 table: polynomial 0x4D reflected, register inverted before
  // and after.
  function Crc8(c: byte): byte {
    Half(Half(Half(Half(Half(Half(Half(Half(c ^ 0xFF)))))))) ^ 0xFF
  }

  function Xor(x: byte, y: byte): byte {
    x ^ y
  }

  function Chain8(crc: byte, b: byte): byte {
    Crc8(Xor(crc, b))
  }

  function Checksum4(b: seq<byte>): byte
    requires |b| == 4
  {
    Chain8(Chain8(Chain8(Chain8(0, b[3]), b[2]), b[1]), b[0])
  }

  // Over the bytes of the size, lowest first.
  function SizeChecksum(n: nat): byte {
    Checksum4(Net32(n))
  }

  // ---------- Writing ----------

  function MetaSize(m: Meta): nat {
    5 + |m.name| + |m.data|
  }

  function MetasSize(metas: seq<Meta>): nat {
    if metas == [] then 0 else MetaSize(metas[0]) + MetasSize(metas[1..])
  }

  function DataSize(r: Record): nat {
    MetasSize(r.metas) + |r.payload|
  }

  // Record::ByteSize.
  function ByteSize(r: Record): nat {
    9 + DataSize(r)
  }

  // A size with the top bit telling whether metas follow.
  function Flagged(size: nat, more: bool): nat {
    size % SIZE_LIMIT + if more then SIZE_LIMIT else 0
  }

  // The name length is cut to one byte.
  function MetaHead(m: Meta, more: bool): seq<byte> {
    [ByteOf(|m.name|)] + m.name + Net32(Flagged(|m.data|, more))
  }

  function EncodeMetas(metas: seq<Meta>): seq<byte> {
    if metas == [] then []
    else MetaHead(metas[0], |metas| > 1) + metas[0].data + EncodeMetas(metas[1..])
  }

  function Header(size: nat, hasMetas: bool): (h: seq<byte>)
    ensures |h| == 9
  {
    MAGIC + Net32(Flagged(size, hasMetas)) + [SizeChecksum(Flagged(size, hasMetas))]
  }

  function Encode(r: Record): seq<byte> {
    Header(DataSize(r), r.metas != []) + EncodeMetas(r.metas) + r.payload
  }

  // ---------- Reading ----------

  // What a call leaves behind: 1 with a record, 0 when there are too few bytes, -1 on
  // bad bytes, ABORT when a CHECK fails.
  const ABORT: int := -2

  datatype Cut = Cut(rc: int, rec: Record, rest: seq<byte>, ncut: nat)

  function Take(c: seq<byte>, n: nat): (t: seq<byte>)
    ensures |t| == if n <= |c| then n else |c|
  {
    if n <= |c| then c[..n] else c
  }

  function Drop(c: seq<byte>, n: nat): (d: seq<byte>)
    ensures |d| == if n <= |c| then |c| - n else 0
  {
    if n <= |c| then c[n..] else []
  }

  predicate HasName(metas: seq<Meta>, name: seq<byte>) {
    exists i :: 0 <= i < |metas| && metas[i].name == name
  }

  // MutableMeta refuses the name.
  predicate Refused(metas: seq<Meta>, name: seq<byte>) {
    HasName(metas, name) || |name| > MAX_NAME_SIZE || name == []
  }

  // The loop over metas; `tmp` still holds the last size read.
  function CutMetas(c: seq<byte>, tmp: nat, size: nat, consumed: nat, metas: seq<Meta>, ncut: nat): Cut
    requires consumed <= size
    decreases |c|
  {
    if c == [] then Cut(ABORT, Record(metas, []), c, ncut) else
    var nameSize := c[0] as int;
    var name, c1 := Take(c[1..], nameSize), Drop(c[1..], nameSize);
    var b, c2 := Take(c1, 4), Drop(c1, 4);
    var tmp' := Host32(b + Memory32(tmp)[|b|..]);
    var metaSize := tmp' % SIZE_LIMIT;
    var total := consumed + 5 + nameSize + metaSize;
    if total > size || Refused(metas, name) then Cut(-1, Record(metas, []), c2, ncut + 5 + nameSize) else
    var metas' := metas + [Meta(name, Take(c2, metaSize))];
    var c3, ncut' := Drop(c2, metaSize), ncut + 5 + nameSize + metaSize;
    if tmp' >= SIZE_LIMIT then CutMetas(c3, tmp', size, total, metas', ncut')
    else Cut(1, Record(metas', Take(c3, size - total)), Drop(c3, size - total), ncut' + size - total)
  }

  function CutRecord(c: seq<byte>, rec: Record, ncut: nat, maxSize: nat): Cut {
    if |c| < 9 then Cut(0, rec, c, ncut) else
    if c[..4] != MAGIC then Cut(-1, rec, c, ncut) else
    var tmp := Host32(c[4..8]);
    var size := tmp % SIZE_LIMIT;
    if SizeChecksum(tmp) != c[8] || size > maxSize then Cut(-1, rec, c, ncut) else
    if |c| < size then Cut(0, rec, c, ncut) else
    if tmp >= SIZE_LIMIT then CutMetas(c[9..], tmp, size, 0, [], ncut + 9)
    else Cut(1, Record([], Take(c[9..], size)), Drop(c[9..], size), ncut + 9 + size)
  }
}
