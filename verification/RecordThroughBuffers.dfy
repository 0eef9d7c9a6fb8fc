/** The record writer and the record reader, one behind the other, on a real buffer. */
module RecordThroughBuffers {
  import opened Blocks
  import opened Ownership
  import opened BlockMemory
  import opened ThreadBlocks
  import opened IOBufs
  import opened Cutters
  import opened Areas
  import opened RecordFormat
  import opened RecordRoundTrip
  import opened RecordWriters
  import opened RecordReaders

  const NO_RECORD: Record := Record([], [])

  // The buffers of one record.
  datatype Item = Item(metas: seq<NamedMeta>, payload: IOBuf)

  ghost predicate AllReady(writer: RecordWriter, tls: ThreadLocal, items: seq<Item>, recs: seq<Record>)
    reads *
  {
    && writer.buf.With(tls) && |items| == |recs|
    && forall i :: 0 <= i < |items| ==>
      && writer.Ready(tls, items[i].metas, items[i].payload)
      && RecordWriter.Holds(items[i].metas, items[i].payload, recs[i])
  }

  // The records among the first `i` that are not too long.
  ghost function Short(recs: seq<Record>, i: nat): seq<Record>
    requires i <= |recs|
  {
    if i == 0 then [] else Short(recs, i - 1) + (if RecordWriter.TooLong(recs[i - 1]) then [] else [recs[i - 1]])
  }

  lemma {:induction false} ShortFit(recs: seq<Record>, i: nat, maxSize: nat)
    requires i <= |recs|
    requires forall j :: 0 <= j < |recs| && !RecordWriter.TooLong(recs[j]) ==> Fits(recs[j], maxSize)
    ensures forall j :: 0 <= j < |Short(recs, i)| ==> Fits(Short(recs, i)[j], maxSize)
  {
    hide Fits, RecordWriter.TooLong;
    if i > 0 {
      ShortFit(recs, i - 1, maxSize);
    }
  }

  lemma {:induction false} EncodeSnoc(rs: seq<Record>, r: Record)
    ensures EncodeAll(rs + [r]) == EncodeAll(rs) + Encode(r)
  {
    hide Encode;
    if rs == [] {
      assert EncodeAll([r]) == Encode(r) + EncodeAll([]);
    } else {
      EncodeSnoc(rs[1..], r);
      assert (rs + [r])[1..] == rs[1..] + [r];
      Assoc(Encode(rs[0]), EncodeAll(rs[1..]), Encode(r));
    }
  }

  // One record is written; the buffers of the others are as they were.
  method WriteOne(writer: RecordWriter, tls: ThreadLocal, items: seq<Item>, ghost recs: seq<Record>, i: nat) returns (rc: int)
    requires AllReady(writer, tls, items, recs) && i < |items| && |writer.buf.refs| <= MAX_REF_INDEX
    modifies writer.buf, writer.buf.Ring(), tls, writer.buf.mem
    ensures AllReady(writer, tls, items, recs)
    ensures fresh(writer.buf.Ring() - old(writer.buf.Ring())) && writer.buf.mem.oom >= old(writer.buf.mem.oom)
    ensures writer.buf.mem.oom == old(writer.buf.mem.oom) ==>
      writer.buf.Contents() == old(writer.buf.Contents()) + (if RecordWriter.TooLong(recs[i]) then [] else Encode(recs[i]))
  {
    hide Ok, Isolated, RecordWriter.Holds, RecordWriter.Ready, RecordWriter.TooLong, RecordWriter.AllHad,
      Encode, IOBuf.Shape, IOBuf.Contents;
    ghost var s, held := writer.buf.mem.blocks, writer.buf.mem.held;
    forall j | 0 <= j < |items|
      ensures writer.RingsApart(items[j].metas, items[j].payload)
      ensures writer.AllHad(items[j].metas, items[j].payload, recs[j], s, held)
    {
      writer.Apart(tls, items[j].metas, items[j].payload, recs[j]);
    }
    EarlyHandled(writer.buf.refs, tls.chain, s);
    ghost var room, ks;
    rc, room, ks := writer.WriteWithoutFlush(tls, items[i].metas, items[i].payload, recs[i]);
    assert writer.buf.With(tls) by { writer.ReadyWith(tls, items[i].metas, items[i].payload); }
    forall j | 0 <= j < |items|
      ensures writer.Ready(tls, items[j].metas, items[j].payload)
      ensures RecordWriter.Holds(items[j].metas, items[j].payload, recs[j])
    {
      writer.AllKept(tls, items[j].metas, items[j].payload, recs[j], s, held);
    }
  }

  lemma {:induction false} EarlyHandled(refs: seq<BlockRef>, ids: seq<BlockId>, s: Store)
    requires |refs| <= MAX_REF_INDEX
    ensures RecordWriter.Handled(refs, ids, s)
  {
  }

  // All records are written, those too long being refused, unless the buffer has more refs
  // than a handle can name.
  method WriteAll(writer: RecordWriter, tls: ThreadLocal, items: seq<Item>, ghost recs: seq<Record>) returns (n: nat)
    requires AllReady(writer, tls, items, recs)
    modifies writer.buf, writer.buf.Ring(), tls, writer.buf.mem
    ensures writer.buf.With(tls) && fresh(writer.buf.Ring() - old(writer.buf.Ring()))
    ensures n <= |recs| == |items| && (n < |recs| ==> |writer.buf.refs| > MAX_REF_INDEX)
    ensures writer.buf.mem.oom == old(writer.buf.mem.oom) ==>
      writer.buf.Contents() == old(writer.buf.Contents()) + EncodeAll(Short(recs, n))
  {
    hide Ok, Encode, IOBuf.Shape, IOBuf.Contents, IOBuf.With, RecordWriter.TooLong, IOBuf.RefNum, EncodeAll, AllReady;
    n := 0;
    ReadyIsValid(writer, tls, items, recs);
    ghost var c, oom := writer.buf.Contents(), writer.buf.mem.oom;
    assert c + EncodeAll([]) == c by { NothingWritten(c); }
    while n < |items|
      invariant AllReady(writer, tls, items, recs)
      invariant fresh(writer.buf.Ring() - old(writer.buf.Ring())) && writer.buf.mem.oom >= oom && n <= |recs| == |items|
      invariant writer.buf.mem.oom == oom ==> writer.buf.Contents() == c + EncodeAll(Short(recs, n))
    {
      ReadyIsValid(writer, tls, items, recs);
      if writer.buf.RefNum() > MAX_REF_INDEX {
        return;
      }
      ghost var done := Short(recs, n);
      var _ := WriteOne(writer, tls, items, recs, n);
      EncodeSnoc(done, recs[n]);
      Assoc(c, EncodeAll(done), Encode(recs[n]));
      assert done + [] == done;
      n := n + 1;
    }
    ReadyIsValid(writer, tls, items, recs);
  }

  lemma {:induction false} NothingWritten(c: seq<byte>)
    ensures c + EncodeAll([]) == c
  {
  }

  lemma {:induction false} ReadyIsValid(writer: RecordWriter, tls: ThreadLocal, items: seq<Item>, recs: seq<Record>)
    requires AllReady(writer, tls, items, recs)
    ensures writer.buf.With(tls) && writer.buf.Shape() && |items| == |recs|
  {
  }

  lemma {:induction false} MetasShorten(c: seq<byte>, tmp: nat, size: nat, consumed: nat, metas: seq<Meta>, ncut: nat)
    requires consumed <= size
    ensures |CutMetas(c, tmp, size, consumed, metas, ncut).rest| <= |c|
    decreases |c|
  {
    hide Host32, Memory32, Refused, RecordFormat.Take, Drop;
    if c != [] {
      var nameSize := c[0] as int;
      var name, c1 := RecordFormat.Take(c[1..], nameSize), Drop(c[1..], nameSize);
      var b, c2 := RecordFormat.Take(c1, 4), Drop(c1, 4);
      var tmp' := Host32(b + Memory32(tmp)[|b|..]);
      var metaSize := tmp' % SIZE_LIMIT;
      var total := consumed + 5 + nameSize + metaSize;
      if !(total > size || Refused(metas, name)) && tmp' >= SIZE_LIMIT {
        MetasShorten(Drop(c2, metaSize), tmp', size, total, metas + [Meta(name, RecordFormat.Take(c2, metaSize))], ncut + 5 + nameSize + metaSize);
      }
    }
  }

  // Every record takes bytes off the buffer.
  lemma {:induction false} RecordShortens(c: seq<byte>, rec: Record, ncut: nat, maxSize: nat)
    ensures var cut := RecordFormat.CutRecord(c, rec, ncut, maxSize); cut.rc == 1 ==> |cut.rest| < |c|
  {
    hide CutMetas, SizeChecksum, Host32, RecordFormat.Take, Drop;
    if |c| >= 9 {
      var tmp := Host32(c[4..8]);
      MetasShorten(c[9..], tmp, tmp % SIZE_LIMIT, 0, [], ncut + 9);
    }
  }

  // Records are cut until there is none.
  method ReadAll(reader: RecordReader, maxSize: nat) returns (back: seq<Record>, rc: int)
    requires reader.cutter.Valid()
    modifies reader, reader.cutter, reader.cutter.buf, reader.cutter.buf.Ring()
    modifies reader.cutter.buf.mem`blocks, reader.cutter.buf.mem`nblock, reader.cutter.buf.mem`held
    ensures reader.cutter.Valid() && rc != 1
    ensures var (rs, last) := CutAll(old(reader.cutter.Remaining()), NO_RECORD, old(reader.ncut), maxSize);
      && back == rs && rc == last.rc && reader.cutter.Remaining() == last.rest && reader.ncut == last.ncut
  {
    hide Isolated, IOBufCutter.Valid, IOBufCutter.Remaining, RecordFormat.CutRecord;
    back := [];
    var rec := NO_RECORD;
    ghost var all := CutAll(reader.cutter.Remaining(), rec, reader.ncut, maxSize);
    while true
      invariant reader.cutter.Valid() && reader.cutter.buf.Ring() <= old(reader.cutter.buf.Ring())
      invariant var more := CutAll(reader.cutter.Remaining(), rec, reader.ncut, maxSize);
        all.0 == back + more.0 && all.1 == more.1
      decreases |reader.cutter.Remaining()|
    {
      RecordShortens(reader.cutter.Remaining(), rec, reader.ncut, maxSize);
      ghost var more := CutAll(reader.cutter.Remaining(), rec, reader.ncut, maxSize);
      rc, rec := reader.CutRecord(rec, maxSize);
      if rc != 1 {
        return;
      }
      assert back + more.0 == back + [rec] + more.0[1..];
      back := back + [rec];
    }
  }

  lemma {:induction false} DropIs(c: seq<byte>, n: nat)
    ensures Min(n, |c|) <= |c| && c[Min(n, |c|)..] == Drop(c, n)
  {
  }

  // The bytes in front are dropped and a new reader takes the rest.
  method ReadBehind(buf: IOBuf, had: nat, maxSize: nat) returns (back: seq<Record>, rc: int)
    requires buf.Valid()
    modifies buf, buf.Ring(), buf.mem`blocks, buf.mem`nblock, buf.mem`held
    ensures var (rs, last) := CutAll(Drop(old(buf.Contents()), had), NO_RECORD, 0, maxSize); back == rs && rc == last.rc
  {
    hide Ok, Isolated, IOBuf.Shape, IOBuf.Contents, IOBuf.Valid, IOBufCutter.Valid, IOBufCutter.Remaining, CutAll, Drop, Min;
    ghost var c := buf.Contents();
    var popped := buf.PopFront(had);
    DropIs(c, had);
    var cutter := new IOBufCutter(buf);
    var reader := new RecordReader(cutter);
    back, rc := ReadAll(reader, maxSize);
  }

  // Any number of records, written behind any bytes and read from behind them; `refs` is
  // the buffer's queue after the last write. Unless an
  // allocation fails or the buffer gets too many refs, those not too long come back in
  // order, and nothing else.
  method WriteThenRead(writer: RecordWriter, tls: ThreadLocal, items: seq<Item>, ghost recs: seq<Record>, maxSize: nat)
    returns (n: nat, back: seq<Record>, rc: int, ghost refs: seq<BlockRef>)
    requires AllReady(writer, tls, items, recs)
    modifies writer.buf, writer.buf.Ring(), tls, writer.buf.mem
    ensures n <= |recs|
    ensures n < |recs| ==> |refs| > MAX_REF_INDEX
    ensures writer.buf.mem.oom == old(writer.buf.mem.oom)
      && (forall i :: 0 <= i < |recs| && !RecordWriter.TooLong(recs[i]) ==> Fits(recs[i], maxSize))
      ==> back == Short(recs, n) && rc == 0
  {
    hide Ok, Isolated, RecordWriter.TooLong, RecordFormat.CutRecord, Encode, IOBuf.Shape, IOBuf.Contents, Fits, AllReady, CutAll,
      EncodeAll;
    ReadyIsValid(writer, tls, items, recs);
    var had := writer.buf.Length();
    ghost var c := writer.buf.Contents();
    n := WriteAll(writer, tls, items, recs);
    refs := writer.buf.refs;
    back, rc := ReadBehind(writer.buf, had, maxSize);
    if writer.buf.mem.oom == old(writer.buf.mem.oom)
      && forall i :: 0 <= i < |recs| && !RecordWriter.TooLong(recs[i]) ==> Fits(recs[i], maxSize)
    {
      ShortFit(recs, n, maxSize);
      StreamRoundTrip(Short(recs, n), NO_RECORD, 0, maxSize);
    }
  }
}
