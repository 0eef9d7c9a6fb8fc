/** What the record writer produces is what the record reader reads back: the round trip,
    and exactly which names and which partial inputs break it. */
module RecordRoundTrip {
  import opened Blocks
  import opened RecordFormat

  predicate Unique(metas: seq<Meta>) {
    forall i, j :: 0 <= i < j < |metas| ==> metas[i].name != metas[j].name
  }

  // What MutableMeta lets into a record.
  predicate WellNamed(metas: seq<Meta>) {
    Unique(metas) && forall i :: 0 <= i < |metas| ==> 1 <= |metas[i].name| <= MAX_NAME_SIZE
  }

  predicate ShortNames(metas: seq<Meta>) {
    forall i :: 0 <= i < |metas| ==> |metas[i].name| <= 255
  }

  lemma TakeDrop(a: seq<byte>, b: seq<byte>)
    ensures Take(a + b, |a|) == a && Drop(a + b, |a|) == b
  {
  }

  lemma {:induction false} FlaggedParts(size: nat, more: bool)
    requires size < SIZE_LIMIT
    ensures var n := Flagged(size, more); n < 0x1_0000_0000 && n % SIZE_LIMIT == size && (n >= SIZE_LIMIT <==> more)
  {
  }

  // The head of one meta, read off the front of what was written.
  lemma {:induction false} HeadParts(m: Meta, more: bool, x: seq<byte>, tmp: nat)
    requires |m.name| <= 255 && |m.data| < SIZE_LIMIT
    ensures var c := MetaHead(m, more) + x;
      && c != [] && c[0] as int == |m.name|
      && Take(c[1..], |m.name|) == m.name
      && var c1 := Drop(c[1..], |m.name|);
      && Take(c1, 4) + Memory32(tmp)[|Take(c1, 4)|..] == Net32(Flagged(|m.data|, more))
      && Drop(c1, 4) == x
  {
    ByteRound(|m.name|);
    var net := Net32(Flagged(|m.data|, more));
    var c := MetaHead(m, more) + x;
    assert c[1..] == m.name + (net + x);
    TakeDrop(m.name, net + x);
    TakeDrop(net, x);
    assert net + Memory32(tmp)[4..] == net;
  }

  lemma {:induction false} Suffix(all: seq<Meta>, k: nat)
    requires k < |all| && WellNamed(all)
    ensures !HasName(all[..k], all[k].name) && 1 <= |all[k].name| <= MAX_NAME_SIZE
  {
    assert forall i :: 0 <= i < k ==> all[..k][i] == all[i] && all[i].name != all[k].name;
  }

  lemma {:induction false} MetasTail(all: seq<Meta>, k: nat)
    requires k < |all|
    ensures EncodeMetas(all[k..]) == MetaHead(all[k], k + 1 < |all|) + all[k].data + EncodeMetas(all[k + 1..])
    ensures MetasSize(all[k..]) == MetaSize(all[k]) + MetasSize(all[k + 1..])
  {
    assert all[k..][1..] == all[k + 1..] && all[k..][0] == all[k];
  }

  lemma {:induction false} MetasRound(all: seq<Meta>, k: nat, payload: seq<byte>, tail: seq<byte>, tmp: nat, size: nat, consumed: nat, ncut: nat)
    requires k < |all| && WellNamed(all) && ShortNames(all) && size < SIZE_LIMIT
    requires size == consumed + MetasSize(all[k..]) + |payload|
    ensures CutMetas(EncodeMetas(all[k..]) + (payload + tail), tmp, size, consumed, all[..k], ncut)
         == Cut(1, Record(all, payload), tail, ncut + MetasSize(all[k..]) + |payload|)
    decreases |all| - k
  {
    hide MetaHead, Net32, Host32, EncodeMetas, Refused, MetasSize, Flagged, Memory32, Take, Drop;
    var m, more := all[k], k + 1 < |all|;
    MetasTail(all, k);
    var rest := EncodeMetas(all[k + 1..]) + (payload + tail);
    var c := EncodeMetas(all[k..]) + (payload + tail);
    assert c == MetaHead(m, more) + (m.data + rest);
    SizeFits(all, k);
    HeadParts(m, more, m.data + rest, tmp);
    FlaggedParts(|m.data|, more);
    Net32Round(Flagged(|m.data|, more));
    Suffix(all, k);
    Accepted(all, k);
    TakeDrop(m.data, rest);
    assert all[..k] + [Meta(m.name, m.data)] == all[..k + 1];
    if more {
      MetasRound(all, k + 1, payload, tail, Flagged(|m.data|, more), size, consumed + MetaSize(m), ncut + MetaSize(m));
    } else {
      LastMeta(all, k, payload, tail);
      TakeDrop(payload, tail);
      assert all[..k + 1] == all;
    }
  }

  lemma {:induction false} LastMeta(all: seq<Meta>, k: nat, payload: seq<byte>, tail: seq<byte>)
    requires k + 1 == |all|
    ensures EncodeMetas(all[k + 1..]) + (payload + tail) == payload + tail && MetasSize(all[k + 1..]) == 0
  {
    assert all[k + 1..] == [];
  }

  lemma {:induction false} SizeFits(all: seq<Meta>, k: nat)
    requires k < |all|
    ensures |all[k].data| + |all[k].name| + 5 <= MetasSize(all[k..])
  {
    MetasTail(all, k);
  }

  lemma {:induction false} Accepted(all: seq<Meta>, k: nat)
    requires k < |all| && WellNamed(all)
    ensures !Refused(all[..k], all[k].name)
  {
    Suffix(all, k);
  }

  lemma {:induction false} HeaderParts(size: nat, hasMetas: bool, body: seq<byte>)
    requires size < SIZE_LIMIT
    ensures var c := Header(size, hasMetas) + body;
      && c[..4] == MAGIC && c[4..8] == Net32(Flagged(size, hasMetas)) && c[8] == SizeChecksum(Flagged(size, hasMetas))
      && c[9..] == body && |c| == 9 + |body|
  {
    hide Net32, SizeChecksum, Flagged;
  }

  // Past a header that was written, the reader goes by the size and the flag alone.
  lemma {:induction false} Opened(size: nat, has: bool, body: seq<byte>, rec: Record, ncut: nat, maxSize: nat)
    requires size < SIZE_LIMIT && size <= maxSize
    ensures CutRecord(Header(size, has) + body, rec, ncut, maxSize)
         == if 9 + |body| < size then Cut(0, rec, Header(size, has) + body, ncut)
            else if has then CutMetas(body, Flagged(size, has), size, 0, [], ncut + 9)
            else Cut(1, Record([], Take(body, size)), Drop(body, size), ncut + 9 + size)
  {
    hide Header, Net32, Host32, SizeChecksum, Flagged, CutMetas, Take, Drop;
    HeaderParts(size, has, body);
    FlaggedParts(size, has);
    Net32Round(Flagged(size, has));
  }

  // Any record with unique names of 1 to 255 bytes that is within the limits is read
  // back from its bytes, whatever follows them, and the bytes that follow are left.
  lemma {:induction false} RoundTrip(r: Record, tail: seq<byte>, rec: Record, ncut: nat, maxSize: nat)
    requires WellNamed(r.metas) && ShortNames(r.metas)
    requires DataSize(r) < SIZE_LIMIT && DataSize(r) <= maxSize
    ensures CutRecord(Encode(r) + tail, rec, ncut, maxSize) == Cut(1, r, tail, ncut + ByteSize(r))
  {
    hide Header, EncodeMetas, Flagged, CutMetas, CutRecord, Take, Drop;
    var size, has := DataSize(r), r.metas != [];
    var body := EncodeMetas(r.metas) + (r.payload + tail);
    assert Encode(r) + tail == Header(size, has) + body;
    Opened(size, has, body, rec, ncut, maxSize);
    EncodedSize(r.metas);
    if has {
      assert r.metas[0..] == r.metas && r.metas[..0] == [];
      MetasRound(r.metas, 0, r.payload, tail, Flagged(size, has), size, 0, ncut + 9);
    } else {
      TakeDrop(r.payload, tail);
      NoMetas(r.payload + tail);
    }
  }

  lemma {:induction false} NoMetas(b: seq<byte>)
    ensures EncodeMetas([]) + b == b && MetasSize([]) == 0
  {
  }

  lemma {:induction false} EncodedSize(metas: seq<Meta>)
    ensures |EncodeMetas(metas)| == MetasSize(metas)
  {
    if metas != [] {
      EncodedSize(metas[1..]);
    }
  }

  // ByteSize is the number of bytes written.
  lemma {:induction false} ByteSizeExact(r: Record)
    ensures |Encode(r)| == ByteSize(r)
  {
    EncodedSize(r.metas);
  }

  // ---------- Names of 256 bytes ----------

  // A name of 256 bytes is written with length 0, and the reader refuses an empty name.
  lemma {:induction false} LongName(all: seq<Meta>, k: nat, j: nat, tail: seq<byte>, tmp: nat, size: nat, consumed: nat, ncut: nat)
    requires k <= j < |all| && WellNamed(all) && |all[j].name| == 256 && ShortNames(all[..j])
    requires consumed + MetasSize(all[k..]) <= size < SIZE_LIMIT
    ensures CutMetas(EncodeMetas(all[k..]) + tail, tmp, size, consumed, all[..k], ncut).rc == -1
    decreases |all| - k
  {
    hide MetaHead, Net32, Host32, EncodeMetas, MetasSize, Flagged, Memory32, Take, Drop;
    var m, more := all[k], k + 1 < |all|;
    MetasTail(all, k);
    var rest := EncodeMetas(all[k + 1..]) + tail;
    assert EncodeMetas(all[k..]) + tail == MetaHead(m, more) + (m.data + rest);
    SizeFits(all, k);
    if k == j {
      EmptyHead(m, more, m.data + rest);
    } else {
      assert all[..j][k] == m;
      HeadParts(m, more, m.data + rest, tmp);
      FlaggedParts(|m.data|, more);
      Net32Round(Flagged(|m.data|, more));
      Accepted(all, k);
      TakeDrop(m.data, rest);
      assert all[..k] + [Meta(m.name, m.data)] == all[..k + 1];
      LongName(all, k + 1, j, tail, Flagged(|m.data|, more), size, consumed + MetaSize(m), ncut + MetaSize(m));
    }
  }

  lemma {:induction false} EmptyHead(m: Meta, more: bool, rest: seq<byte>)
    requires |m.name| == 256
    ensures var c := MetaHead(m, more) + rest; c != [] && c[0] == 0 && Take(c[1..], 0) == []
  {
  }

  ghost function FirstLong(metas: seq<Meta>): (j: nat)
    requires !ShortNames(metas)
    ensures j < |metas| && |metas[j].name| > 255 && ShortNames(metas[..j])
  {
    if |metas[0].name| > 255 then 0 else
    assert !ShortNames(metas[1..]) by {
      var i :| 0 <= i < |metas| && |metas[i].name| > 255;
      assert metas[1..][i - 1] == metas[i];
    }
    var j := FirstLong(metas[1..]) + 1;
    assert forall i :: 0 < i < j ==> metas[..j][i] == metas[1..][..j - 1][i - 1];
    j
  }

  lemma NamedAt(metas: seq<Meta>, j: nat)
    requires WellNamed(metas) && j < |metas|
    ensures |metas[j].name| <= MAX_NAME_SIZE
  {
  }

  // Among the records MutableMeta can build, the ones that survive the round trip are
  // exactly those without a name of 256 bytes.
  lemma {:induction false} RoundTripExactly(r: Record, tail: seq<byte>, rec: Record, ncut: nat, maxSize: nat)
    requires WellNamed(r.metas) && DataSize(r) < SIZE_LIMIT && DataSize(r) <= maxSize
    ensures CutRecord(Encode(r) + tail, rec, ncut, maxSize) == Cut(1, r, tail, ncut + ByteSize(r)) <==> ShortNames(r.metas)
  {
    hide Header, EncodeMetas, MetasSize, WellNamed, Flagged, CutMetas, CutRecord, Take, Drop;
    if ShortNames(r.metas) {
      RoundTrip(r, tail, rec, ncut, maxSize);
    } else {
      var j := FirstLong(r.metas);
      var size, body := DataSize(r), EncodeMetas(r.metas) + (r.payload + tail);
      assert Encode(r) + tail == Header(size, true) + body;
      Opened(size, true, body, rec, ncut, maxSize);
      EncodedSize(r.metas);
      assert r.metas[0..] == r.metas && r.metas[..0] == [];
      NamedAt(r.metas, j);
      LongName(r.metas, 0, j, r.payload + tail, Flagged(size, true), size, 0, ncut + 9);
    }
  }

  // ---------- Streams of records ----------

  predicate Fits(r: Record, maxSize: nat) {
    WellNamed(r.metas) && ShortNames(r.metas) && DataSize(r) < SIZE_LIMIT && DataSize(r) <= maxSize
  }

  function EncodeAll(rs: seq<Record>): seq<byte> {
    if rs == [] then [] else Encode(rs[0]) + EncodeAll(rs[1..])
  }

  function TotalSize(rs: seq<Record>): nat {
    if rs == [] then 0 else ByteSize(rs[0]) + TotalSize(rs[1..])
  }

  // The records that calls of CutRecord deliver until one does not, and the state then.
  function CutAll(c: seq<byte>, rec: Record, ncut: nat, maxSize: nat): (seq<Record>, Cut)
    decreases |c|
  {
    var cut := CutRecord(c, rec, ncut, maxSize);
    if cut.rc == 1 && |cut.rest| < |c| then
      var (rs, last) := CutAll(cut.rest, cut.rec, cut.ncut, maxSize);
      ([cut.rec] + rs, last)
    else ([], cut)
  }

  // Any number of records written one after another are cut in order, and nothing more.
  lemma {:induction false} StreamRoundTrip(rs: seq<Record>, rec: Record, ncut: nat, maxSize: nat)
    requires forall i :: 0 <= i < |rs| ==> Fits(rs[i], maxSize)
    ensures CutAll(EncodeAll(rs), rec, ncut, maxSize)
         == (rs, Cut(0, if rs == [] then rec else rs[|rs| - 1], [], ncut + TotalSize(rs)))
    decreases |rs|
  {
    hide CutRecord, Encode;
    TooShort([], rec, ncut, maxSize);
    if rs != [] {
      RoundTrip(rs[0], EncodeAll(rs[1..]), rec, ncut, maxSize);
      ByteSizeExact(rs[0]);
      StreamRoundTrip(rs[1..], rs[0], ncut + ByteSize(rs[0]), maxSize);
      assert [rs[0]] + rs[1..] == rs;
    }
  }

  lemma {:induction false} TooShort(c: seq<byte>, rec: Record, ncut: nat, maxSize: nat)
    requires |c| < 9
    ensures CutRecord(c, rec, ncut, maxSize) == Cut(0, rec, c, ncut)
  {
  }

  // ---------- Partial input ----------

  lemma {:induction false} MetasKept(c: seq<byte>, tmp: nat, size: nat, consumed: nat, metas: seq<Meta>, ncut: nat)
    requires consumed <= size
    ensures metas <= CutMetas(c, tmp, size, consumed, metas, ncut).rec.metas
    ensures CutMetas(c, tmp, size, consumed, metas, ncut).rc != 0
    decreases |c|
  {
    hide Host32, Memory32, Refused, Take, Drop;
    if c != [] {
      var nameSize := c[0] as int;
      var name, c1 := Take(c[1..], nameSize), Drop(c[1..], nameSize);
      var b, c2 := Take(c1, 4), Drop(c1, 4);
      var tmp' := Host32(b + Memory32(tmp)[|b|..]);
      var metaSize := tmp' % SIZE_LIMIT;
      var total := consumed + 5 + nameSize + metaSize;
      if total <= size && !Refused(metas, name) && tmp' >= SIZE_LIMIT {
        MetasKept(Drop(c2, metaSize), tmp', size, total, metas + [Meta(name, Take(c2, metaSize))], ncut + 5 + nameSize + metaSize);
      }
    }
  }

  predicate Delivers(cut: Cut, r: Record) {
    cut.rc == 1 && cut.rec == r
  }

  // Reading one meta wrongly spoils the record.
  lemma {:induction false} WrongMeta(all: seq<Meta>, k: nat, payload: seq<byte>, c: seq<byte>, tmp: nat, size: nat, consumed: nat, ncut: nat)
    requires k < |all| && consumed <= size && c != []
    requires
      var c1 := Drop(c[1..], c[0] as int);
      var tmp' := Host32(Take(c1, 4) + Memory32(tmp)[|Take(c1, 4)|..]);
      || Take(c[1..], c[0] as int) != all[k].name
      || Take(Drop(c1, 4), tmp' % SIZE_LIMIT) != all[k].data
      || consumed + 5 + c[0] as int + tmp' % SIZE_LIMIT > size
    ensures !Delivers(CutMetas(c, tmp, size, consumed, all[..k], ncut), Record(all, payload))
  {
    hide Host32, Memory32, Refused, Take, Drop;
    var nameSize := c[0] as int;
    var name, c1 := Take(c[1..], nameSize), Drop(c[1..], nameSize);
    var b, c2 := Take(c1, 4), Drop(c1, 4);
    var tmp' := Host32(b + Memory32(tmp)[|b|..]);
    var metaSize := tmp' % SIZE_LIMIT;
    var total := consumed + 5 + nameSize + metaSize;
    var metas := all[..k] + [Meta(name, Take(c2, metaSize))];
    assert metas[k] == Meta(name, Take(c2, metaSize));
    if total <= size && tmp' >= SIZE_LIMIT {
      MetasKept(Drop(c2, metaSize), tmp', size, total, metas, ncut + 5 + nameSize + metaSize);
    }
  }

  // With part of a size field missing, bytes of the previous one stand in: its flag bit
  // makes the size at least 128.
  lemma {:induction false} StaleSize(b: seq<byte>, tmp: nat)
    requires |b| < 4 && SIZE_LIMIT <= tmp < 0x1_0000_0000
    ensures Host32(b + Memory32(tmp)[|b|..]) % SIZE_LIMIT >= 128
  {
    var x := b + Memory32(tmp)[|b|..];
    ByteRound(tmp / 0x100_0000 % 256);
    assert x[3] as int >= 128;
    var h := (x[0] as int * 256 + x[1] as int) * 256 + x[2] as int;
    LowByte(h, x[3] as int);
  }

  lemma {:induction false} LowByte(h: nat, d: nat)
    requires 128 <= d < 256
    ensures (h * 256 + d) % SIZE_LIMIT >= 128
  {
    assert (h * 256 + d) % SIZE_LIMIT == (h % 0x80_0000) * 256 + d;
  }

  // Metas cut short inside the head of meta `k`.
  lemma {:induction false} PartialHead(all: seq<Meta>, k: nat, payload: seq<byte>, n: nat, tmp: nat, size: nat, consumed: nat, ncut: nat)
    requires k < |all| && ShortNames(all) && SIZE_LIMIT <= tmp < 0x1_0000_0000
    requires var full := EncodeMetas(all[k..]) + payload; size == consumed + |full| && n < |full| <= n + 9
    requires n < 5 + |all[k].name|
    ensures !Delivers(CutMetas((EncodeMetas(all[k..]) + payload)[..n], tmp, size, consumed, all[..k], ncut), Record(all, payload))
  {
    hide Net32, Host32, EncodeMetas, Flagged, Memory32, CutMetas;
    var m, more := all[k], k + 1 < |all|;
    MetasTail(all, k);
    var full := EncodeMetas(all[k..]) + payload;
    var c := full[..n];
    if n == 0 {
      NoMetasLeft(c, tmp, size, consumed, all[..k], ncut);
    } else {
      ByteRound(|m.name|);
      assert c[0] == ByteOf(|m.name|);
      if n < 1 + |m.name| {
        assert |Take(c[1..], |m.name|)| < |m.name|;
      } else {
        var c1 := Drop(c[1..], |m.name|);
        assert |c1| == n - 1 - |m.name| < 4;
        StaleSize(c1, tmp);
      }
      WrongMeta(all, k, payload, c, tmp, size, consumed, ncut);
    }
  }

  lemma {:induction false} NoMetasLeft(c: seq<byte>, tmp: nat, size: nat, consumed: nat, metas: seq<Meta>, ncut: nat)
    requires c == [] && consumed <= size
    ensures CutMetas(c, tmp, size, consumed, metas, ncut).rc == ABORT
  {
  }

  // Metas or payload cut short: whatever the reader makes of them, it is not the record.
  lemma {:induction false} PartialMetas(all: seq<Meta>, k: nat, payload: seq<byte>, n: nat, tmp: nat, size: nat, consumed: nat, ncut: nat)
    requires k < |all| && WellNamed(all) && ShortNames(all) && SIZE_LIMIT <= tmp < 0x1_0000_0000
    requires var full := EncodeMetas(all[k..]) + payload; size == consumed + |full| < SIZE_LIMIT && n < |full| <= n + 9
    ensures !Delivers(CutMetas((EncodeMetas(all[k..]) + payload)[..n], tmp, size, consumed, all[..k], ncut), Record(all, payload))
    decreases |all| - k
  {
    hide MetaHead, Net32, Host32, EncodeMetas, Refused, Flagged, Memory32, Take, Drop, MetasSize;
    var m, more := all[k], k + 1 < |all|;
    MetasTail(all, k);
    HeadSize(m, more);
    var full := EncodeMetas(all[k..]) + payload;
    var c, h := full[..n], 5 + |m.name|;
    if n < h {
      PartialHead(all, k, payload, n, tmp, size, consumed, ncut);
      return;
    }
    var rest := EncodeMetas(all[k + 1..]) + payload;
    var x := (m.data + rest)[..n - h];
    assert c == MetaHead(m, more) + x;
    HeadParts(m, more, x, tmp);
    FlaggedParts(|m.data|, more);
    Net32Round(Flagged(|m.data|, more));
    if |x| < |m.data| {
      WrongMeta(all, k, payload, c, tmp, size, consumed, ncut);
      return;
    }
    var n' := n - h - |m.data|;
    assert x == m.data + rest[..n'];
    TakeDrop(m.data, rest[..n']);
    Accepted(all, k);
    assert all[..k] + [Meta(m.name, m.data)] == all[..k + 1];
    if more {
      PartialMetas(all, k + 1, payload, n', Flagged(|m.data|, more), size, consumed + MetaSize(m), ncut + MetaSize(m));
    } else {
      LastMeta(all, k, payload, []);
      assert rest == payload;
    }
  }

  lemma {:induction false} HeadSize(m: Meta, more: bool)
    ensures |MetaHead(m, more)| == 5 + |m.name|
  {
  }

  lemma {:induction false} BeyondHeader(r: Record, n: nat)
    requires 9 <= n <= |Encode(r)|
    ensures n - 9 <= |EncodeMetas(r.metas) + r.payload| == DataSize(r)
    ensures Encode(r)[..n] == Header(DataSize(r), r.metas != []) + (EncodeMetas(r.metas) + r.payload)[..n - 9]
  {
    hide Header, EncodeMetas, MetasSize;
    EncodedSize(r.metas);
  }

  lemma {:induction false} InGap(r: Record, n: nat, rec: Record, ncut: nat, maxSize: nat)
    requires Fits(r, maxSize) && 9 <= n <= |Encode(r)| && DataSize(r) <= n < ByteSize(r)
    ensures
      var cut := CutRecord(Encode(r)[..n], rec, ncut, maxSize);
      cut.rc != 0 && !Delivers(cut, r)
  {
    hide Header, EncodeMetas, Flagged, CutMetas, CutRecord, Take, Drop, Encode, MetasSize, WellNamed, ShortNames;
    var size, has, body := DataSize(r), r.metas != [], EncodeMetas(r.metas) + r.payload;
    BeyondHeader(r, n);
    Opened(size, has, body[..n - 9], rec, ncut, maxSize);
    if has {
      assert r.metas[0..] == r.metas && r.metas[..0] == [];
      FlaggedParts(size, has);
      PartialMetas(r.metas, 0, r.payload, n - 9, Flagged(size, has), size, 0, ncut + 9);
      MetasKept(body[..n - 9], Flagged(size, has), size, 0, [], ncut + 9);
    } else {
      NoMetas(r.payload);
    }
  }

  // The reader waits for, or delivers, a record of which `n` bytes have come exactly when
  // `n` is not in the gap left by comparing the bytes at hand, header included, with the
  // size of the data alone.
  lemma {:induction false} PartialExactly(r: Record, n: nat, rec: Record, ncut: nat, maxSize: nat)
    requires Fits(r, maxSize) && n <= |Encode(r)|
    ensures
      var cut := CutRecord(Encode(r)[..n], rec, ncut, maxSize);
      cut == Cut(0, rec, Encode(r)[..n], ncut) || Delivers(cut, r) <==> !(9 <= n && DataSize(r) <= n < ByteSize(r))
  {
    hide Header, EncodeMetas, CutMetas, CutRecord, Encode, MetasSize, WellNamed, ShortNames;
    ByteSizeExact(r);
    if n == ByteSize(r) {
      RoundTrip(r, [], rec, ncut, maxSize);
      assert Encode(r) + [] == Encode(r) == Encode(r)[..n];
    } else if n < 9 {
      TooShort(Encode(r)[..n], rec, ncut, maxSize);
    } else if DataSize(r) <= n {
      InGap(r, n, rec, ncut, maxSize);
    } else {
      BeyondHeader(r, n);
      Opened(DataSize(r), r.metas != [], (EncodeMetas(r.metas) + r.payload)[..n - 9], rec, ncut, maxSize);
    }
  }

  // ---------- Damaged sizes ----------

  lemma HalfInjective(x: byte, y: byte)
    requires x != y
    ensures Half(x) != Half(y)
  {
  }

  lemma Crc8Injective(x: byte, y: byte)
    requires x != y
    ensures Crc8(x) != Crc8(y)
  {
    hide Half;
    var x1, y1 := x ^ 0xFF, y ^ 0xFF;
    HalfInjective(x1, y1);
    HalfInjective(Half(x1), Half(y1));
    HalfInjective(Half(Half(x1)), Half(Half(y1)));
    HalfInjective(Half(Half(Half(x1))), Half(Half(Half(y1))));
    var x5, y5 := Half(Half(Half(Half(x1)))), Half(Half(Half(Half(y1))));
    HalfInjective(x5, y5);
    HalfInjective(Half(x5), Half(y5));
    HalfInjective(Half(Half(x5)), Half(Half(y5)));
    HalfInjective(Half(Half(Half(x5))), Half(Half(Half(y5))));
  }

  lemma XorDiffers(c: byte, d: byte, b: byte, e: byte)
    requires (c != d) != (b != e)
    ensures Xor(c, b) != Xor(d, e)
  {
    hide Xor;
    XorCancels(c, b);
    XorCancels(d, e);
    XorCancels(b, c);
    XorCancels(e, d);
  }

  lemma XorCancels(c: byte, b: byte)
    ensures Xor(Xor(c, b), c) == b && Xor(c, b) == Xor(b, c)
  {
  }

  lemma ChainSplits(c: byte, d: byte, b: byte, e: byte)
    requires (c != d) != (b != e)
    ensures Chain8(c, b) != Chain8(d, e)
  {
    hide Crc8, Xor;
    XorDiffers(c, d, b, e);
    Crc8Injective(Xor(c, b), Xor(d, e));
  }

  lemma OneByteChecked(a: seq<byte>, b: seq<byte>, i: nat)
    requires |a| == |b| == 4 && i < 4 && a[i] != b[i]
    requires forall j :: 0 <= j < 4 && j != i ==> a[j] == b[j]
    ensures Checksum4(a) != Checksum4(b)
  {
    hide Chain8;
    if i == 3 { ChainSplits(0, 0, a[3], b[3]); }
    var c0, d0 := Chain8(0, a[3]), Chain8(0, b[3]);
    if i >= 2 { ChainSplits(c0, d0, a[2], b[2]); }
    var c1, d1 := Chain8(c0, a[2]), Chain8(d0, b[2]);
    if i >= 1 { ChainSplits(c1, d1, a[1], b[1]); }
    var c2, d2 := Chain8(c1, a[1]), Chain8(d1, b[1]);
    ChainSplits(c2, d2, a[0], b[0]);
  }

  // A size field with exactly one byte changed never passes the checksum of the original.
  lemma OneByteCaught(n: nat, field: seq<byte>, i: nat)
    requires n < 0x1_0000_0000 && |field| == 4 && i < 4 && Net32(n)[i] != field[i]
    requires forall j :: 0 <= j < 4 && j != i ==> Net32(n)[j] == field[j]
    ensures SizeChecksum(Host32(field)) != SizeChecksum(n)
  {
    hide Checksum4, Net32, Host32;
    Host32Round(field);
    assert SizeChecksum(Host32(field)) == Checksum4(field);
    OneByteChecked(Net32(n), field, i);
  }

  lemma Host32Round(b: seq<byte>)
    requires |b| == 4
    ensures Net32(Host32(b)) == b
  {
    hide ByteOf, Net32;
    NetOf(b[0] as int, b[1] as int, b[2] as int, b[3] as int);
    ByteBack(b[0]);
    ByteBack(b[1]);
    ByteBack(b[2]);
    ByteBack(b[3]);
    assert b == [b[0], b[1], b[2], b[3]];
  }

  lemma ByteBack(b: byte)
    ensures ByteOf(b as int) == b
  {
    hide ByteOf;
    ByteRound(b as int);
    SameInt(ByteOf(b as int), b);
  }

  lemma SameInt(x: byte, y: byte)
    requires x as int == y as int
    ensures x == y
  {
  }

  lemma ByteMod(n: nat)
    ensures ByteOf(n % 256) == ByteOf(n)
  {
  }

  lemma NetOf(x: nat, y: nat, z: nat, w: nat)
    requires x < 256 && y < 256 && z < 256 && w < 256
    ensures Net32(((x * 256 + y) * 256 + z) * 256 + w) == [ByteOf(x), ByteOf(y), ByteOf(z), ByteOf(w)]
  {
    hide ByteOf;
    var n := ((x * 256 + y) * 256 + z) * 256 + w;
    Quotients(x, y, z, w);
    ByteMod(n / 0x100_0000);
    ByteMod(n / 0x1_0000);
    ByteMod(n / 0x100);
    ByteMod(n);
  }

  lemma Quotients(x: nat, y: nat, z: nat, w: nat)
    requires x < 256 && y < 256 && z < 256 && w < 256
    ensures
      var n := ((x * 256 + y) * 256 + z) * 256 + w;
      n / 0x100_0000 % 256 == x && n / 0x1_0000 % 256 == y && n / 0x100 % 256 == z && n % 256 == w
  {
  }
}
