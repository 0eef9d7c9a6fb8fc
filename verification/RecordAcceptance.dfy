/** Which bytes the record reader takes for a record, and that damage to a header is always
    noticed. */
module RecordAcceptance {
  import opened Blocks
  import opened RecordFormat
  import opened RecordRoundTrip

  // ---------- The header ----------

  // Nine bytes in front: "RDIO", the size with its flag, and the checksum of that.
  predicate GoodHeader(c: seq<byte>, maxSize: nat) {
    && |c| >= 9
    && c[0] == 0x52 && c[1] == 0x44 && c[2] == 0x49 && c[3] == 0x4F
    && c[8] == SizeChecksum(Host32(c[4..8]))
    && Host32(c[4..8]) % SIZE_LIMIT <= maxSize
  }

  // The record is not cut short.
  predicate Whole(c: seq<byte>) {
    |c| >= 9 && |c| >= 9 + Host32(c[4..8]) % SIZE_LIMIT
  }

  lemma {:induction false} MagicIs(c: seq<byte>)
    requires |c| >= 4
    ensures c[..4] == MAGIC <==> c[0] == 0x52 && c[1] == 0x44 && c[2] == 0x49 && c[3] == 0x4F
  {
    if c[..4] == MAGIC {
      assert c[0] == c[..4][0] && c[1] == c[..4][1] && c[2] == c[..4][2] && c[3] == c[..4][3];
    }
  }

  // A bad header is refused and nothing is touched; a good one waits for its bytes.
  lemma {:induction false} HeaderDecides(c: seq<byte>, rec: Record, ncut: nat, maxSize: nat)
    ensures var cut := CutRecord(c, rec, ncut, maxSize);
      && (cut.rc == 0 <==> |c| < 9 || (GoodHeader(c, maxSize) && |c| < Host32(c[4..8]) % SIZE_LIMIT))
      && (cut.rc == 1 ==> GoodHeader(c, maxSize))
      && (|c| >= 9 && !GoodHeader(c, maxSize) ==> cut == Cut(-1, rec, c, ncut))
      && (cut.rc == 0 ==> cut == Cut(0, rec, c, ncut))
  {
    hide SizeChecksum, Host32, CutMetas, Take, Drop;
    if |c| >= 9 {
      MagicIs(c);
      var tmp := Host32(c[4..8]);
      MetasKept(c[9..], tmp, tmp % SIZE_LIMIT, 0, [], ncut + 9);
    }
  }

  // ---------- The metas ----------

  lemma {:induction false} OneMoreName(metas: seq<Meta>, m: Meta)
    requires WellNamed(metas) && !Refused(metas, m.name)
    ensures WellNamed(metas + [m])
  {
    var all := metas + [m];
    forall i, j | 0 <= i < j < |all| ensures all[i].name != all[j].name {
      assert all[i] == metas[i];
    }
  }

  // Whatever the bytes, the names that come out are not empty and differ from each other.
  lemma {:induction false} NamesDiffer(c: seq<byte>, tmp: nat, size: nat, consumed: nat, metas: seq<Meta>, ncut: nat)
    requires consumed <= size && WellNamed(metas)
    ensures WellNamed(CutMetas(c, tmp, size, consumed, metas, ncut).rec.metas)
    decreases |c|
  {
    hide Host32, Memory32, Refused, Take, Drop, WellNamed;
    if c != [] {
      var nameSize := c[0] as int;
      var name, c1 := Take(c[1..], nameSize), Drop(c[1..], nameSize);
      var b, c2 := Take(c1, 4), Drop(c1, 4);
      var tmp' := Host32(b + Memory32(tmp)[|b|..]);
      var metaSize := tmp' % SIZE_LIMIT;
      var total := consumed + 5 + nameSize + metaSize;
      if total <= size && !Refused(metas, name) {
        var m := Meta(name, Take(c2, metaSize));
        OneMoreName(metas, m);
        if tmp' >= SIZE_LIMIT {
          NamesDiffer(Drop(c2, metaSize), tmp', size, total, metas + [m], ncut + 5 + nameSize + metaSize);
        }
      }
    }
  }

  // The flag and the size are all there is in a size field.
  lemma {:induction false} FieldIs(b: seq<byte>)
    requires |b| == 4
    ensures var n := Host32(b); b == Net32(Flagged(n % SIZE_LIMIT, n >= SIZE_LIMIT))
  {
    hide Net32, Host32;
    Host32Round(b);
  }

  // The bytes in front of `c` make up the meta `m`, with nothing cut short.
  predicate Leads(c: seq<byte>, m: Meta, more: bool, rest: seq<byte>) {
    c == MetaHead(m, more) + m.data + rest
  }

  lemma {:induction false} HeadRead(c: seq<byte>, nameSize: nat, tmp: nat)
    requires c != [] && nameSize == c[0] as int && 5 + nameSize <= |c|
    ensures var c1 := Drop(c[1..], nameSize); var b := Take(c1, 4);
      && |b| == 4 && b + Memory32(tmp)[4..] == b
      && c == [c[0]] + Take(c[1..], nameSize) + b + Drop(c1, 4)
      && |Drop(c1, 4)| == |c| - 5 - nameSize
  {
    hide Memory32;
  }

  lemma {:induction false} MetaRead(c: seq<byte>, name: seq<byte>, b: seq<byte>, c2: seq<byte>, n: nat)
    requires |c| > 0 && |name| == c[0] as int && |b| == 4 && c == [c[0]] + name + b + c2
    requires n == Host32(b) && n % SIZE_LIMIT <= |c2|
    ensures Leads(c, Meta(name, Take(c2, n % SIZE_LIMIT)), n >= SIZE_LIMIT, Drop(c2, n % SIZE_LIMIT))
  {
    hide Net32, Host32, Flagged, ByteOf;
    ByteBack(c[0]);
    FieldIs(b);
    assert c2 == Take(c2, n % SIZE_LIMIT) + Drop(c2, n % SIZE_LIMIT);
  }

  lemma {:induction false} FrontMeta(m: Meta, ms: seq<Meta>, c: seq<byte>, rest: seq<byte>, x: seq<byte>)
    requires Leads(c, m, ms != [], rest) && rest == EncodeMetas(ms) + x
    ensures c == EncodeMetas([m] + ms) + x && MetasSize([m] + ms) == MetaSize(m) + MetasSize(ms)
  {
    hide MetaHead;
    assert ([m] + ms)[1..] == ms;
  }

  // One turn of the loop that goes well, with nothing cut short.
  lemma {:induction false} TurnRead(c: seq<byte>, tmp: nat, size: nat, consumed: nat, metas: seq<Meta>, ncut: nat)
    returns (m: Meta, tmp': nat, rest: seq<byte>)
    requires consumed <= size && |c| >= size - consumed && CutMetas(c, tmp, size, consumed, metas, ncut).rc == 1
    ensures Leads(c, m, tmp' >= SIZE_LIMIT, rest) && |m.name| <= 255 && |rest| < |c|
    ensures consumed + MetaSize(m) <= size && |rest| >= size - consumed - MetaSize(m)
    ensures CutMetas(c, tmp, size, consumed, metas, ncut)
         == var left := size - consumed - MetaSize(m);
            if tmp' >= SIZE_LIMIT then CutMetas(rest, tmp', size, consumed + MetaSize(m), metas + [m], ncut + MetaSize(m))
            else Cut(1, Record(metas + [m], Take(rest, left)), Drop(rest, left), ncut + MetaSize(m) + left)
  {
    hide Host32, Memory32, Refused, Take, Drop, Leads;
    var nameSize := c[0] as int;
    var name, c1 := Take(c[1..], nameSize), Drop(c[1..], nameSize);
    var b, c2 := Take(c1, 4), Drop(c1, 4);
    tmp' := Host32(b + Memory32(tmp)[|b|..]);
    var n := tmp' % SIZE_LIMIT;
    HeadRead(c, nameSize, tmp);
    MetaRead(c, name, b, c2, tmp');
    m, rest := Meta(name, Take(c2, n)), Drop(c2, n);
  }

  // Metas that are read are the encoding of what is read.
  lemma {:induction false} MetasRead(c: seq<byte>, tmp: nat, size: nat, consumed: nat, metas: seq<Meta>, ncut: nat) returns (ms: seq<Meta>)
    requires consumed <= size && |c| >= size - consumed && CutMetas(c, tmp, size, consumed, metas, ncut).rc == 1
    ensures var cut := CutMetas(c, tmp, size, consumed, metas, ncut);
      && cut.rec.metas == metas + ms && ms != [] && ShortNames(ms)
      && c == EncodeMetas(ms) + (cut.rec.payload + cut.rest)
      && size == consumed + MetasSize(ms) + |cut.rec.payload| && cut.ncut == ncut + size - consumed
    decreases |c|
  {
    hide CutMetas, Take, Drop, EncodeMetas, MetasSize, Leads, MetaSize;
    var m, tmp', rest := TurnRead(c, tmp, size, consumed, metas, ncut);
    var total, x := consumed + MetaSize(m), CutMetas(c, tmp, size, consumed, metas, ncut);
    if tmp' >= SIZE_LIMIT {
      var more := MetasRead(rest, tmp', size, total, metas + [m], ncut + MetaSize(m));
      ms := [m] + more;
      FrontMeta(m, more, c, rest, x.rec.payload + x.rest);
      assert metas + [m] + more == metas + ms;
    } else {
      ms := [m];
      assert [m] + [] == [m];
      LastRead(rest, size - total);
      FrontMeta(m, [], c, rest, x.rec.payload + x.rest);
    }
  }

  lemma {:induction false} LastRead(c: seq<byte>, n: nat)
    requires n <= |c|
    ensures c == EncodeMetas([]) + (Take(c, n) + Drop(c, n)) && MetasSize([]) == 0
  {
  }

  // ---------- Whole records ----------

  lemma {:induction false} FlaggedBack(n: nat)
    requires n < 0x1_0000_0000
    ensures Flagged(n % SIZE_LIMIT, n >= SIZE_LIMIT) == n
  {
  }

  // A good header is the header of its size.
  lemma {:induction false} HeaderRead(c: seq<byte>, maxSize: nat)
    requires GoodHeader(c, maxSize)
    ensures var n := Host32(c[4..8]); c == Header(n % SIZE_LIMIT, n >= SIZE_LIMIT) + c[9..]
  {
    hide SizeChecksum, Host32, Net32, Flagged;
    FieldIs(c[4..8]);
    FlaggedBack(Host32(c[4..8]));
    assert c == MAGIC + c[4..8] + [c[8]] + c[9..];
  }

  lemma {:induction false} Regrouped(h: seq<byte>, m: seq<byte>, p: seq<byte>, rest: seq<byte>)
    ensures h + (m + (p + rest)) == h + m + p + rest
  {
  }

  // What comes out of uncut bytes is what they encode.
  lemma {:induction false} RecordRead(c: seq<byte>, rec: Record, ncut: nat, maxSize: nat)
    requires Whole(c) && CutRecord(c, rec, ncut, maxSize).rc == 1
    ensures var cut := CutRecord(c, rec, ncut, maxSize);
      Fits(cut.rec, maxSize) && c == Encode(cut.rec) + cut.rest && cut.ncut == ncut + ByteSize(cut.rec)
  {
    hide SizeChecksum, Host32, CutMetas, Take, Drop, EncodeMetas, MetasSize, Header, WellNamed;
    HeaderDecides(c, rec, ncut, maxSize);
    HeaderRead(c, maxSize);
    var tmp, cut := Host32(c[4..8]), CutRecord(c, rec, ncut, maxSize);
    var size := tmp % SIZE_LIMIT;
    NoneNamed();
    if tmp >= SIZE_LIMIT {
      var ms := MetasRead(c[9..], tmp, size, 0, [], ncut + 9);
      NamesDiffer(c[9..], tmp, size, 0, [], ncut + 9);
      assert [] + ms == ms;
    } else {
      LastRead(c[9..], size);
    }
    Regrouped(Header(size, cut.rec.metas != []), EncodeMetas(cut.rec.metas), cut.rec.payload, cut.rest);
  }

  lemma {:induction false} NoneNamed()
    ensures WellNamed([]) && ShortNames([])
  {
  }

  // The front of `c` is an encoded record within the limits.
  ghost predicate Encoded(c: seq<byte>, r: Record, tail: seq<byte>, maxSize: nat) {
    Fits(r, maxSize) && c == Encode(r) + tail
  }

  lemma {:induction false} EncodedIsWhole(r: Record, tail: seq<byte>)
    requires DataSize(r) < SIZE_LIMIT
    ensures Whole(Encode(r) + tail)
  {
    hide SizeChecksum, Host32, Net32, Flagged;
    var size, has := DataSize(r), r.metas != [];
    var body := EncodeMetas(r.metas) + r.payload + tail;
    assert Encode(r) + tail == Header(size, has) + body;
    HeaderParts(size, has, body);
    FlaggedParts(size, has);
    Net32Round(Flagged(size, has));
    EncodedSize(r.metas);
  }

  // For any bytes at all: a record comes out of them uncut exactly when they start with the
  // encoding of a record, and it is that record.
  lemma {:induction false} AcceptedExactly(c: seq<byte>, rec: Record, ncut: nat, maxSize: nat)
    ensures var cut := CutRecord(c, rec, ncut, maxSize);
      && (Whole(c) && cut.rc == 1 <==> exists r, tail :: Encoded(c, r, tail, maxSize))
      && forall r, tail :: Encoded(c, r, tail, maxSize) ==> cut == Cut(1, r, tail, ncut + ByteSize(r))
  {
    hide Encode, CutRecord, Whole;
    var cut := CutRecord(c, rec, ncut, maxSize);
    if Whole(c) && cut.rc == 1 {
      RecordRead(c, rec, ncut, maxSize);
      assert Encoded(c, cut.rec, cut.rest, maxSize);
    }
    forall r, tail | Encoded(c, r, tail, maxSize)
      ensures Whole(c) && cut == Cut(1, r, tail, ncut + ByteSize(r))
    {
      RoundTrip(r, tail, rec, ncut, maxSize);
      EncodedIsWhole(r, tail);
    }
  }

  // And of cut bytes: a good header and good names even then.
  lemma {:induction false} DeliveredNames(c: seq<byte>, rec: Record, ncut: nat, maxSize: nat)
    ensures var cut := CutRecord(c, rec, ncut, maxSize);
      cut.rc == 1 ==> GoodHeader(c, maxSize) && WellNamed(cut.rec.metas)
  {
    hide SizeChecksum, Host32, CutMetas, Take, Drop, WellNamed;
    HeaderDecides(c, rec, ncut, maxSize);
    NoneNamed();
    if |c| >= 9 {
      var tmp := Host32(c[4..8]);
      NamesDiffer(c[9..], tmp, tmp % SIZE_LIMIT, 0, [], ncut + 9);
    }
  }

  // ---------- Damage ----------

  // Any one byte of a header changed, the size, the checksum or the magic: the reader
  // refuses the record and leaves everything as it was.
  lemma {:induction false} DamageNoticed(r: Record, tail: seq<byte>, i: nat, b: byte, rec: Record, ncut: nat, maxSize: nat)
    requires i < 9 && b != Header(DataSize(r), r.metas != [])[i]
    ensures |Encode(r) + tail| >= 9
    ensures var c := (Encode(r) + tail)[i := b]; CutRecord(c, rec, ncut, maxSize) == Cut(-1, rec, c, ncut)
  {
    hide SizeChecksum, Host32, Net32, EncodeMetas, CutRecord;
    var n := Flagged(DataSize(r), r.metas != []);
    var h := Header(DataSize(r), r.metas != []);
    var c := (Encode(r) + tail)[i := b];
    assert c[..9] == h[i := b];
    var field := c[4..8];
    forall k | 0 <= k < 9 ensures c[k] == h[i := b][k] {
      assert c[k] == c[..9][k];
    }
    if 4 <= i < 8 {
      OneByteCaught(n, field, i - 4);
      assert h[8] == SizeChecksum(n);
    } else if i == 8 {
      assert field == Net32(n);
      Net32Round(n);
    }
    HeaderDecides(c, rec, ncut, maxSize);
  }

  // ---------- On the wire ----------

  lemma {:induction false} ChecksumEntries()
    ensures Crc8(0) == 0xEA && Crc8(1) == 0xD4 && Crc8(2) == 0x96
    ensures Crc8(4) == 0x12 && Crc8(8) == 0x7F && Crc8(16) == 0xA5
    ensures Crc8(32) == 0x74 && Crc8(64) == 0xB3 && Crc8(128) == 0x58
  {
  }

  lemma {:induction false} HalfAdds(x: byte, y: byte)
    ensures Half(Xor(x, y)) == Xor(Half(x), Half(y))
  {
  }

  function Eight(c: byte): byte {
    Half(Half(Half(Half(Half(Half(Half(Half(c))))))))
  }

  lemma {:induction false} EightAdds(x: byte, y: byte)
    ensures Eight(Xor(x, y)) == Xor(Eight(x), Eight(y))
  {
    hide Half, Xor;
    var x1, y1 := Half(x), Half(y);
    var x2, y2 := Half(x1), Half(y1);
    var x3, y3 := Half(x2), Half(y2);
    var x4, y4 := Half(x3), Half(y3);
    var x5, y5 := Half(x4), Half(y4);
    var x6, y6 := Half(x5), Half(y5);
    HalfAdds(x, y);
    HalfAdds(x1, y1);
    HalfAdds(x2, y2);
    HalfAdds(x3, y3);
    HalfAdds(x4, y4);
    HalfAdds(x5, y5);
    HalfAdds(x6, y6);
    HalfAdds(Half(x6), Half(y6));
  }

  lemma {:induction false} CrcIs(x: byte)
    ensures Crc8(x) == Xor(Eight(Xor(x, 0xFF)), 0xFF)
  {
    hide Half;
  }

  lemma {:induction false} XorRules(x: byte, y: byte, f: byte)
    ensures Xor(Xor(x, y), f) == Xor(Xor(Xor(x, f), Xor(y, f)), Xor(0, f))
  {
  }

  // The entries above determine the table: an entry is made up of those for the bits of
  // its index.
  lemma {:induction false} ChecksumAdds(x: byte, y: byte)
    ensures Crc8(Xor(x, y)) == Xor(Xor(Crc8(x), Crc8(y)), Crc8(0))
  {
    CrcIs(x);
    CrcIs(y);
    CrcIs(0);
    CrcIs(Xor(x, y));
    XorRules(x, y, 0xFF);
    hide Crc8, Eight, Xor;
    var a, b, c := Xor(x, 0xFF), Xor(y, 0xFF), Xor(0, 0xFF);
    EightAdds(Xor(a, b), c);
    EightAdds(a, b);
    Unflip(Eight(a), Eight(b), Eight(c));
  }

  lemma {:induction false} Unflip(a: byte, b: byte, c: byte)
    ensures Xor(Xor(Xor(a, b), c), 0xFF) == Xor(Xor(Xor(a, 0xFF), Xor(b, 0xFF)), Xor(c, 0xFF))
  {
  }

  // The highest byte first.
  lemma {:induction false} NetworkOrder(n: nat)
    requires n < 0x1_0000_0000
    ensures var b := Net32(n);
      n == 0x100_0000 * (b[0] as int) + 0x1_0000 * (b[1] as int) + 0x100 * (b[2] as int) + b[3] as int
  {
    Net32Round(n);
  }

  lemma {:induction false} NetSmall(b: byte)
    ensures Net32(b as int) == [0, 0, 0, b] && Net32(SIZE_LIMIT + b as int) == [0x80, 0, 0, b]
  {
    hide ByteOf;
    ByteBack(b);
    ByteBack(0);
    ByteBack(0x80);
    ByteAgain(b as int, SIZE_LIMIT);
  }

  lemma {:induction false} ByteAgain(n: nat, k: nat)
    requires n < 256 && k == SIZE_LIMIT
    ensures ByteOf(k + n) == ByteOf(n) && ByteOf((k + n) / 0x100) == ByteOf(0) && ByteOf((k + n) / 0x1_0000) == ByteOf(0)
    ensures ByteOf((k + n) / 0x100_0000) == ByteOf(0x80)
  {
    assert (k + n) / 0x100 % 256 == 0 && (k + n) / 0x1_0000 % 256 == 0 && (k + n) % 256 == n;
  }

  lemma {:induction false} ChecksumOf5()
    ensures Checksum4([0, 0, 0, 0x05]) == 0xFB
  {
    assert Crc8(0x05) == 0x2C;
    assert Crc8(0x2C) == 0x19;
    assert Crc8(0x19) == 0x0E;
    assert Crc8(0x0E) == 0xFB;
    hide Crc8;
  }

  lemma {:induction false} ChecksumOf17()
    ensures Checksum4([0x80, 0, 0, 0x11]) == 0x66
  {
    assert Crc8(0x11) == 0x9B;
    assert Crc8(0x9B) == 0xC0;
    assert Crc8(0xC0) == 0x01;
    assert Crc8(0x81) == 0x66;
    hide Crc8;
  }

  // A record without metas, and one with two; the first flag tells that metas follow, the
  // others that there is one more.
  lemma {:induction false} HelloBytes()
    ensures Encode(Record([], [0x68, 0x65, 0x6C, 0x6C, 0x6F])) ==
      [0x52, 0x44, 0x49, 0x4F, 0x00, 0x00, 0x00, 0x05, 0xFB,
       0x68, 0x65, 0x6C, 0x6C, 0x6F]
  {
    hide Net32, Checksum4;
    NetSmall(5);
    ChecksumOf5();
    NoMetas([]);
  }

  lemma {:induction false} MetaBytes()
    ensures Encode(Record([Meta([0x61], [0x78, 0x79]), Meta([0x62, 0x63], [])], [0x68, 0x69])) ==
      [0x52, 0x44, 0x49, 0x4F, 0x80, 0x00, 0x00, 0x11, 0x66,
       0x01, 0x61, 0x80, 0x00, 0x00, 0x02, 0x78, 0x79,
       0x02, 0x62, 0x63, 0x00, 0x00, 0x00, 0x00,
       0x68, 0x69]
  {
    hide Net32, Checksum4, ByteOf;
    NetSmall(0x11);
    NetSmall(2);
    NetSmall(0);
    ByteBack(1);
    ByteBack(2);
    ChecksumOf17();
  }
}
