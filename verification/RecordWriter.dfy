/** RecordWriter::WriteWithoutFlush: a record is laid out in an IOBuf, its header left
    open until the size is known and filled in place afterwards. */
module RecordWriters {
  import opened Blocks
  import opened Ownership
  import opened BlockMemory
  import opened Cells
  import opened ThreadBlocks
  import opened IOBufs
  import opened Transfers
  import opened Areas
  import opened RecordFormat
  import opened RecordRoundTrip
  import opened TornRecords

  datatype NamedMeta = NamedMeta(name: seq<byte>, data: IOBuf)

  class RecordWriter {
    const buf: IOBuf

    constructor (buf: IOBuf)
      ensures this.buf == buf
    {
      this.buf := buf;
    }

    // The metas and the payload are buffers other than the writer's own.
    ghost predicate Ready(tls: ThreadLocal, metas: seq<NamedMeta>, payload: IOBuf)
      reads *
    {
      && buf.With(tls) && buf.Beside(payload)
      && forall i :: 0 <= i < |metas| ==> buf.Beside(metas[i].data)
    }

    static ghost predicate Holds(metas: seq<NamedMeta>, payload: IOBuf, rec: Record)
      reads *
    {
      && payload.Contents() == rec.payload && |rec.metas| == |metas|
      && forall i :: 0 <= i < |metas| ==> rec.metas[i] == Meta(metas[i].name, metas[i].data.Contents())
    }

    // A buffer that had these bytes when the blocks and their owners were `s` and `held`.
    ghost predicate Had(d: IOBuf, c: seq<byte>, s: Store, held: Owners)
      reads d, d.Ring()
    {
      && d != buf && d.mem == buf.mem && d.Shape() && d in held && held[d] == Queue(d.refs, d.RingObject())
      && Bytes(d.refs, s) == c
    }

    ghost predicate AllHad(metas: seq<NamedMeta>, payload: IOBuf, rec: Record, s: Store, held: Owners)
      reads payload, payload.Ring()
      reads set i | 0 <= i < |metas| :: metas[i].data
      reads set i, o | 0 <= i < |metas| && o in metas[i].data.Ring() :: o
    {
      && Had(payload, rec.payload, s, held) && |rec.metas| == |metas|
      && forall i :: 0 <= i < |metas| ==> rec.metas[i].name == metas[i].name && Had(metas[i].data, rec.metas[i].data, s, held)
    }

    ghost predicate RingsApart(metas: seq<NamedMeta>, payload: IOBuf)
      reads *
    {
      && payload != buf && buf.Ring() !! payload.Ring()
      && forall i :: 0 <= i < |metas| ==> metas[i].data != buf && buf.Ring() !! metas[i].data.Ring()
    }

    // Before the writer's buffer is changed.
    lemma {:induction false} Apart(tls: ThreadLocal, metas: seq<NamedMeta>, payload: IOBuf, rec: Record)
      requires Ready(tls, metas, payload) && Holds(metas, payload, rec)
      ensures RingsApart(metas, payload) && AllHad(metas, payload, rec, buf.mem.blocks, buf.mem.held)
    {
      hide Ok, IOBuf.Shape, Bytes;
      RingsDiffer(buf.mem.blocks, buf.mem.held, buf, payload);
      forall i | 0 <= i < |metas| ensures metas[i].data != buf && buf.Ring() !! metas[i].data.Ring() {
        RingsDiffer(buf.mem.blocks, buf.mem.held, buf, metas[i].data);
      }
    }

    // And after: the other buffers are as they were.
    lemma {:induction false} StillBeside(tls: ThreadLocal, d: IOBuf, c: seq<byte>, s: Store, held: Owners)
      requires buf.With(tls) && Had(d, c, s, held) && tls in held && held[tls].Chain?
      requires Isolated(s, held, buf.mem.blocks, buf.mem.held, {buf, tls})
      ensures buf.Beside(d) && d.Contents() == c
    {
      hide Ok, Isolated, IOBuf.Shape;
      OtherOwner(s, held, buf.mem.blocks, buf.mem.held, d, {buf, tls});
    }

    lemma {:induction false} AllKept(tls: ThreadLocal, metas: seq<NamedMeta>, payload: IOBuf, rec: Record, s: Store, held: Owners)
      requires buf.With(tls) && AllHad(metas, payload, rec, s, held) && tls in held && held[tls].Chain?
      requires Isolated(s, held, buf.mem.blocks, buf.mem.held, {buf, tls})
      ensures Ready(tls, metas, payload) && Holds(metas, payload, rec)
    {
      hide Ok, Isolated, IOBuf.Shape, IOBuf.Contents, IOBuf.Beside, IOBuf.With, Had;
      StillBeside(tls, payload, rec.payload, s, held);
      forall i | 0 <= i < |metas| ensures buf.Beside(metas[i].data) && metas[i].data.Contents() == rec.metas[i].data {
        StillBeside(tls, metas[i].data, rec.metas[i].data, s, held);
      }
    }

    // The header's place is known and nobody else refers to it.
    ghost predicate Open(area: nat, p: nat)
      reads buf, buf.mem
    {
      area != INVALID_AREA ==>
        && AreaSize(area) == 9 && Sole(buf.mem.held, buf, p, 9)
        && PointsAt(buf.refs, AreaIndex(area), AreaOffset(area), p)
    }

    // `k` bytes of the data are appended; fewer than all when an allocation failed, which
    // the writer does not notice.
    method Put(tls: ThreadLocal, metas: seq<NamedMeta>, payload: IOBuf, ghost rec: Record, data: seq<byte>,
               ghost area: nat, ghost p: nat) returns (ghost k: nat)
      requires Ready(tls, metas, payload) && Holds(metas, payload, rec) && Open(area, p)
      modifies buf, buf.Ring(), tls, buf.mem
      ensures Ready(tls, metas, payload) && Holds(metas, payload, rec) && Open(area, p)
      ensures fresh(buf.Ring() - old(buf.Ring()))
      ensures k <= |data| && buf.Contents() == old(buf.Contents()) + data[..k]
      ensures buf.mem.oom == old(buf.mem.oom) + (if k == |data| then 0 else 1)
      ensures Isolated(old(buf.mem.blocks), old(buf.mem.held), buf.mem.blocks, buf.mem.held, {buf, tls})
    {
      hide Ok, Isolated, Bytes, IOBuf.Shape, Sole, PointsAt, AreaIndex, AreaOffset, AreaSize, CellsOf, AllHad, Had, Ready, Holds;
      ghost var s, held, refs := buf.mem.blocks, buf.mem.held, buf.refs;
      ReadyWith(tls, metas, payload);
      Apart(tls, metas, payload, rec);
      ghost var c := buf.Contents();
      var rc := buf.Append(tls, data);
      k := |buf.Contents()| - |c|;
      assert data[..|data|] == data;
      AllKept(tls, metas, payload, rec, s, held);
      KeepsPointing(refs, buf.refs, area, p);
      if area != INVALID_AREA {
        SoleAfterAppend(s, held, buf.mem.blocks, buf.mem.held, buf, tls, p, 9);
      }
    }

    method PutBuf(tls: ThreadLocal, metas: seq<NamedMeta>, payload: IOBuf, ghost rec: Record, other: IOBuf,
                  ghost area: nat, ghost p: nat)
      requires Ready(tls, metas, payload) && Holds(metas, payload, rec) && Open(area, p) && buf.Beside(other)
      modifies buf, buf.Ring(), buf.mem`blocks, buf.mem`nblock, buf.mem`held
      ensures Ready(tls, metas, payload) && Holds(metas, payload, rec) && Open(area, p)
      ensures fresh(buf.Ring() - old(buf.Ring()))
      ensures buf.Contents() == old(buf.Contents()) + old(other.Contents())
      ensures Isolated(old(buf.mem.blocks), old(buf.mem.held), buf.mem.blocks, buf.mem.held, {buf, tls})
    {
      hide Ok, Isolated, Bytes, IOBuf.Shape, Sole, PointsAt, AreaIndex, AreaOffset, AreaSize, CellsOf, Extends, AllHad, Had, Ready,
        Holds;
      ghost var s, held, refs := buf.mem.blocks, buf.mem.held, buf.refs;
      ReadyWith(tls, metas, payload);
      Apart(tls, metas, payload, rec);
      AppendBuf(buf, other);
      OtherOwner(s, held, buf.mem.blocks, buf.mem.held, tls, {buf});
      if area != INVALID_AREA {
        SoleAfterShare(s, held, buf.mem.blocks, buf.mem.held, buf, other, p, 9);
        PointsStill(refs, buf.refs, AreaIndex(area), AreaOffset(area), p);
      }
      IsolatedMore(s, held, buf.mem.blocks, buf.mem.held, {buf}, {buf, tls});
      AllKept(tls, metas, payload, rec, s, held);
    }

    // The record does not fit: what was written of it is taken off again.
    method Withdraw(tls: ThreadLocal, metas: seq<NamedMeta>, payload: IOBuf, ghost rec: Record, oldSize: nat)
      requires Ready(tls, metas, payload) && Holds(metas, payload, rec) && oldSize <= |buf.Contents()|
      modifies buf, buf.Ring(), buf.mem`blocks, buf.mem`nblock, buf.mem`held
      ensures Ready(tls, metas, payload) && Holds(metas, payload, rec)
      ensures buf.Ring() <= old(buf.Ring())
      ensures buf.Contents() == old(buf.Contents())[..oldSize]
      ensures Isolated(old(buf.mem.blocks), old(buf.mem.held), buf.mem.blocks, buf.mem.held, {buf, tls})
    {
      hide Ok, Isolated, Bytes, IOBuf.Shape, IOBuf.Length;
      ghost var s, held := buf.mem.blocks, buf.mem.held;
      Apart(tls, metas, payload, rec);
      var n := buf.PopBack(buf.Length() - oldSize);
      OtherOwner(s, held, buf.mem.blocks, buf.mem.held, tls, {buf});
      IsolatedMore(s, held, buf.mem.blocks, buf.mem.held, {buf}, {buf, tls});
      AllKept(tls, metas, payload, rec, s, held);
    }

    lemma {:induction false} MetaReady(tls: ThreadLocal, metas: seq<NamedMeta>, payload: IOBuf, rec: Record)
      requires Ready(tls, metas, payload) && Holds(metas, payload, rec)
      ensures buf.Valid() && |rec.metas| == |metas|
      ensures forall i :: 0 <= i < |metas| ==> metas[i].data.Valid() && rec.metas[i].data == metas[i].data.Contents()
    {
    }

    // The body of the loop over metas, once the checks have passed.
    method WriteMeta(tls: ThreadLocal, metas: seq<NamedMeta>, payload: IOBuf, ghost rec: Record, i: nat,
                     ghost area: nat, ghost p: nat) returns (ghost k: nat)
      requires Ready(tls, metas, payload) && Holds(metas, payload, rec) && Open(area, p)
      requires i < |metas|
      modifies buf, buf.Ring(), tls, buf.mem
      ensures Ready(tls, metas, payload) && Holds(metas, payload, rec) && Open(area, p)
      ensures fresh(buf.Ring() - old(buf.Ring())) && |rec.metas| == |metas|
      ensures k <= 5 + |rec.metas[i].name| && buf.Contents() == old(buf.Contents()) + Piece(rec.metas, i, k)
      ensures buf.mem.oom == old(buf.mem.oom) + (if k == 5 + |rec.metas[i].name| then 0 else 1)
      ensures Isolated(old(buf.mem.blocks), old(buf.mem.held), buf.mem.blocks, buf.mem.held, {buf, tls})
    {
      hide Ok, Isolated, Bytes, IOBuf.Shape, IOBuf.Length, Open, Net32, Flagged, ByteOf, IOBuf.Contents;
      ghost var s, held, c := buf.mem.blocks, buf.mem.held, buf.Contents();
      var m := metas[i];
      var metabuf := [ByteOf(|m.name|)] + m.name + Net32(Flagged(m.data.Length(), i < |metas| - 1));
      assert metabuf == HeadOf(rec.metas, i);
      k := Put(tls, metas, payload, rec, metabuf, area, p);
      ghost var t, held', d := buf.mem.blocks, buf.mem.held, buf.Contents();
      PutBuf(tls, metas, payload, rec, m.data, area, p);
      IsolatedTrans(s, held, t, held', buf.mem.blocks, buf.mem.held, {buf, tls});
      Assoc(c, metabuf[..k], rec.metas[i].data);
    }

    // A name or a meta too long.
    static ghost predicate BadMeta(rec: Record, i: nat)
      requires i < |rec.metas|
    {
      |rec.metas[i].name| > MAX_NAME_SIZE || |rec.metas[i].data| >= SIZE_LIMIT
    }

    static ghost predicate AnyBad(rec: Record) {
      exists i :: 0 <= i < |rec.metas| && BadMeta(rec, i)
    }

    static lemma {:induction false} KsNone(rec: Record, c: seq<byte>)
      ensures Kept(rec.metas, []) && Whole(rec.metas, []) && c + Torn(rec.metas, [], 0) == c
    {
    }

    static lemma {:induction false} KsMore(rec: Record, ks: seq<nat>, k: nat)
      requires Kept(rec.metas, ks) && |ks| < |rec.metas| && k <= 5 + |rec.metas[|ks|].name|
      ensures Kept(rec.metas, ks + [k])
      ensures Whole(rec.metas, ks + [k]) <==> Whole(rec.metas, ks) && k == 5 + |rec.metas[|ks|].name|
      ensures Torn(rec.metas, ks + [k], |ks| + 1) == Torn(rec.metas, ks, |ks|) + Piece(rec.metas, |ks|, k)
    {
      hide Torn, Piece;
      TornMore(rec.metas, ks, k, |ks|);
      TornIs(rec.metas, ks + [k], |ks| + 1);
      assert (ks + [k])[|ks|] == k;
      assert forall i :: 0 <= i < |ks| ==> (ks + [k])[i] == ks[i];
    }

    method WriteMetas(tls: ThreadLocal, metas: seq<NamedMeta>, payload: IOBuf, ghost rec: Record, oldSize: nat,
                      ghost area: nat, ghost p: nat) returns (ok: bool, ghost ks: seq<nat>)
      requires Ready(tls, metas, payload) && Holds(metas, payload, rec) && Open(area, p) && oldSize <= |buf.Contents()|
      modifies buf, buf.Ring(), tls, buf.mem
      ensures Ready(tls, metas, payload) && Holds(metas, payload, rec)
      ensures fresh(buf.Ring() - old(buf.Ring())) && buf.mem.oom >= old(buf.mem.oom)
      ensures ok <==> !AnyBad(rec)
      ensures ok ==> Open(area, p) && |ks| == |rec.metas| && Kept(rec.metas, ks)
      ensures ok ==> buf.Contents() == old(buf.Contents()) + Torn(rec.metas, ks, |ks|)
      ensures ok ==> (buf.mem.oom == old(buf.mem.oom) <==> Whole(rec.metas, ks))
      ensures !ok ==> buf.Contents() == old(buf.Contents())[..oldSize]
      ensures Isolated(old(buf.mem.blocks), old(buf.mem.held), buf.mem.blocks, buf.mem.held, {buf, tls})
    {
      hide Ok, Isolated, Bytes, IOBuf.Shape, IOBuf.Length, Open, IOBuf.Contents, Ready, Holds, BadMeta, Piece, Torn, Kept, Whole;
      ghost var s, held, all := buf.mem.blocks, buf.mem.held, buf.Contents();
      IsolatedRefl(s, held, {buf, tls});
      ks := [];
      KsNone(rec, all);
      assert |rec.metas| == |metas| by { MetaReady(tls, metas, payload, rec); }
      for i := 0 to |metas|
        invariant Ready(tls, metas, payload) && Holds(metas, payload, rec) && Open(area, p)
        invariant fresh(buf.Ring() - old(buf.Ring())) && buf.mem.oom >= old(buf.mem.oom)
        invariant forall j :: 0 <= j < i ==> !BadMeta(rec, j)
        invariant |ks| == i && Kept(rec.metas, ks) && buf.Contents() == all + Torn(rec.metas, ks, i)
        invariant buf.mem.oom == old(buf.mem.oom) <==> Whole(rec.metas, ks)
        invariant Isolated(s, held, buf.mem.blocks, buf.mem.held, {buf, tls})
      {
        ghost var t, held' := buf.mem.blocks, buf.mem.held;
        MetaReady(tls, metas, payload, rec);
        assert BadMeta(rec, i) <==> |metas[i].name| > MAX_NAME_SIZE || |metas[i].data.Contents()| > 0x7FFF_FFFF by {
          MetaBad(metas, payload, rec, i);
        }
        if |metas[i].name| > MAX_NAME_SIZE || metas[i].data.Length() > 0x7FFF_FFFF {
          Shortened(all, Torn(rec.metas, ks, i), oldSize);
          Withdraw(tls, metas, payload, rec, oldSize);
          IsolatedTrans(s, held, t, held', buf.mem.blocks, buf.mem.held, {buf, tls});
          return false, ks;
        }
        var k := WriteMeta(tls, metas, payload, rec, i, area, p);
        IsolatedTrans(s, held, t, held', buf.mem.blocks, buf.mem.held, {buf, tls});
        KsMore(rec, ks, k);
        Assoc(all, Torn(rec.metas, ks, i), Piece(rec.metas, i, k));
        ks := ks + [k];
      }
      return true, ks;
    }

    static lemma Shortened(c: seq<byte>, more: seq<byte>, n: nat)
      requires n <= |c|
      ensures (c + more)[..n] == c[..n]
    {
    }

    static lemma {:induction false} MetaBad(metas: seq<NamedMeta>, payload: IOBuf, rec: Record, i: nat)
      requires Holds(metas, payload, rec) && i < |metas|
      ensures BadMeta(rec, i) <==> |metas[i].name| > MAX_NAME_SIZE || |metas[i].data.Contents()| > 0x7FFF_FFFF
    {
      assert rec.metas[i] == Meta(metas[i].name, metas[i].data.Contents());
    }

    // The handle of the header can name the ref it will be in.
    static predicate Handled(refs: seq<BlockRef>, ids: seq<BlockId>, s: Store) {
      FirstIndex(refs, Joins(refs, ids, s)) <= MAX_REF_INDEX
    }

    method ReserveHeader(tls: ThreadLocal, metas: seq<NamedMeta>, payload: IOBuf, ghost rec: Record)
      returns (area: nat, ghost room: seq<byte>)
      requires Ready(tls, metas, payload) && Holds(metas, payload, rec) && |buf.refs| < 0x1_0000_0000
      modifies buf, buf.Ring(), tls, buf.mem
      ensures Ready(tls, metas, payload) && Holds(metas, payload, rec) && Open(area, |old(buf.Contents())|)
      ensures fresh(buf.Ring() - old(buf.Ring())) && buf.mem.oom >= old(buf.mem.oom)
      ensures buf.Contents() == old(buf.Contents()) + room && |room| <= 9
      ensures buf.mem.oom == old(buf.mem.oom) <==> |room| == 9
      ensures area != INVALID_AREA <==> |room| == 9 && old(Handled(buf.refs, tls.chain, buf.mem.blocks))
      ensures |room| == 9 && old(HasRoom(tls.chain, buf.mem.blocks, 9)) ==>
        room == old(RoomBytes(tls.chain, buf.mem.blocks, 9))
      ensures Isolated(old(buf.mem.blocks), old(buf.mem.held), buf.mem.blocks, buf.mem.held, {buf, tls})
    {
      hide Ok, Isolated, Bytes, IOBuf.Shape, IOBuf.Contents, Sole, PointsAt, MakeArea, AreaIndex, AreaOffset, AreaSize, Grown,
        Joins, HasRoom, RoomBytes, Ready, Holds;
      ghost var s, held, c := buf.mem.blocks, buf.mem.held, buf.Contents();
      Apart(tls, metas, payload, rec);
      assert buf.With(tls) by { ReadyWith(tls, metas, payload); }
      JoinedOffset(buf, tls);
      HandledExactly(buf.refs, Joins(buf.refs, tls.chain, s));
      area := Reserve(buf, tls, 9);
      room := buf.Contents()[|c|..];
      AllKept(tls, metas, payload, rec, s, held);
    }

    lemma {:induction false} ReadyWith(tls: ThreadLocal, metas: seq<NamedMeta>, payload: IOBuf)
      requires Ready(tls, metas, payload)
      ensures buf.With(tls) && tls in buf.mem.held && buf.mem.held[tls].Chain?
    {
    }

    static lemma {:induction false} HandledExactly(refs: seq<BlockRef>, joined: bool)
      requires |refs| < 0x1_0000_0000 && FirstOffset(refs, joined) <= MAX_REF_OFFSET
      ensures MakeArea(FirstIndex(refs, joined), FirstOffset(refs, joined), 9) != INVALID_AREA
        <==> FirstIndex(refs, joined) <= MAX_REF_INDEX
    {
      hide MakeArea;
      var i, o := FirstIndex(refs, joined), FirstOffset(refs, joined);
      assert U32(i) == i && U32(o) == o && U32(9) == 9;
    }

    method FillHeader(tls: ThreadLocal, metas: seq<NamedMeta>, payload: IOBuf, ghost rec: Record, area: nat,
                      head: seq<byte>, ghost p: nat)
      requires Ready(tls, metas, payload) && Holds(metas, payload, rec) && Open(area, p) && |head| == 9
      modifies buf.mem`blocks
      ensures Ready(tls, metas, payload) && Holds(metas, payload, rec)
      ensures area == INVALID_AREA ==> buf.Contents() == old(buf.Contents())
      ensures area != INVALID_AREA ==>
        p + 9 <= |old(buf.Contents())| && buf.Contents() == Overwrite(old(buf.Contents()), p, head)
      ensures Isolated(old(buf.mem.blocks), old(buf.mem.held), buf.mem.blocks, buf.mem.held, {buf, tls})
    {
      hide Ok, Isolated, Bytes, IOBuf.Shape, Sole, PointsAt, AreaIndex, AreaOffset, AreaSize, Overwrite;
      ghost var s, held := buf.mem.blocks, buf.mem.held;
      Apart(tls, metas, payload, rec);
      var rc := UnsafeAssign(buf, area, head, p);
      OtherOwner(s, held, buf.mem.blocks, buf.mem.held, tls, {buf});
      IsolatedMore(s, held, buf.mem.blocks, buf.mem.held, {buf}, {buf, tls});
      AllKept(tls, metas, payload, rec, s, held);
    }

    static lemma {:induction false} LongData(ms: seq<Meta>, i: nat)
      requires i < |ms|
      ensures |ms[i].data| <= MetasSize(ms)
    {
      if i > 0 {
        LongData(ms[1..], i - 1);
      }
    }

    static lemma {:induction false} Framed(c: seq<byte>, room: seq<byte>, head: seq<byte>, metas: seq<byte>, payload: seq<byte>)
      requires |room| == 9 && |head| == 9
      ensures Overwrite(c + room + metas + payload, |c|, head) == c + head + metas + payload
    {
    }

    // Names too long or a record of 2^31 bytes or more.
    static ghost predicate TooLong(rec: Record) {
      || (exists i :: 0 <= i < |rec.metas| && |rec.metas[i].name| > MAX_NAME_SIZE)
      || DataSize(rec) >= SIZE_LIMIT
    }

    // A meta that is too long makes the record too long.
    static lemma {:induction false} BadIsLong(rec: Record)
      ensures AnyBad(rec) ==> TooLong(rec)
      ensures !AnyBad(rec) ==> (TooLong(rec) <==> DataSize(rec) >= SIZE_LIMIT)
    {
      hide MetasSize;
      forall i | 0 <= i < |rec.metas| && BadMeta(rec, i) ensures TooLong(rec) {
        LongData(rec.metas, i);
      }
      if !AnyBad(rec) {
        forall i | 0 <= i < |rec.metas| ensures |rec.metas[i].name| <= MAX_NAME_SIZE {
          assert !BadMeta(rec, i);
        }
      }
    }

    // What was found agrees with the record when nothing failed.
    static lemma {:induction false} FoundAll(rec: Record, room: seq<byte>, ks: seq<nat>)
      requires |room| == 9 && |ks| == |rec.metas| && Kept(rec.metas, ks) && Whole(rec.metas, ks)
      ensures FoundSize(room, Torn(rec.metas, ks, |ks|), rec.payload) == DataSize(rec)
    {
      hide EncodeMetas, MetasSize, Torn, Whole;
      TornExactly(rec.metas, ks, |ks|);
      NoneLeft(rec.metas);
      assert ks[..|ks|] == ks;
      EncodedSize(rec.metas);
    }

    // After the metas: the payload, the size check and the header.
    method Finish(tls: ThreadLocal, metas: seq<NamedMeta>, payload: IOBuf, ghost rec: Record, oldSize: nat, area: nat,
                  ghost c: seq<byte>, ghost room: seq<byte>, ghost torn: seq<byte>) returns (rc: int)
      requires Ready(tls, metas, payload) && Holds(metas, payload, rec) && Open(area, oldSize)
      requires oldSize == |c| && buf.Contents() == c + room + torn && (area != INVALID_AREA ==> |room| == 9)
      modifies buf, buf.Ring(), buf.mem`blocks, buf.mem`nblock, buf.mem`held
      ensures Ready(tls, metas, payload) && Holds(metas, payload, rec)
      ensures fresh(buf.Ring() - old(buf.Ring()))
      ensures rc == if 0 <= FoundSize(room, torn, rec.payload) < SIZE_LIMIT then 0 else -1
      ensures rc == -1 ==> buf.Contents() == c
      ensures rc == 0 ==>
        buf.Contents() == c + Front(room, FoundSize(room, torn, rec.payload), rec.metas != [], area != INVALID_AREA) + torn + rec.payload
      ensures Isolated(old(buf.mem.blocks), old(buf.mem.held), buf.mem.blocks, buf.mem.held, {buf, tls})
    {
      hide Ok, Isolated, Bytes, IOBuf.Shape, IOBuf.Length, IOBuf.Contents, Open, Header, Overwrite;
      ghost var s, held := buf.mem.blocks, buf.mem.held;
      IsolatedRefl(s, held, {buf, tls});
      if !payload.Empty() {
        PutBuf(tls, metas, payload, rec, payload, area, oldSize);
      }
      ghost var t, held', d := buf.mem.blocks, buf.mem.held, buf.Contents();
      assert d == c + room + torn + rec.payload;
      var left := buf.Length() - oldSize - 9;
      var dataSize := if left < 0 then left + 0x1_0000_0000_0000_0000 else left;
      if dataSize > 0x7FFF_FFFF {
        assert d[..oldSize] == c;
        Withdraw(tls, metas, payload, rec, oldSize);
        IsolatedTrans(s, held, t, held', buf.mem.blocks, buf.mem.held, {buf, tls});
        return -1;
      }
      if area != INVALID_AREA {
        Framed(c, room, Header(dataSize, metas != []), torn, rec.payload);
      }
      FillHeader(tls, metas, payload, rec, area, Header(dataSize, metas != []), oldSize);
      IsolatedTrans(s, held, t, held', buf.mem.blocks, buf.mem.held, {buf, tls});
      return 0;
    }

    // `room` is what was in the 9 bytes set aside for the header, or in as many of them as
    // there was memory for; `ks` says how much of each meta's head found memory. A refused
    // record leaves no trace. A written one is the encoding of the record exactly when no
    // allocation failed and there was a handle for the header, or the header was there by
    // chance; the metas and the payload are as they were.
    method WriteWithoutFlush(tls: ThreadLocal, metas: seq<NamedMeta>, payload: IOBuf, ghost rec: Record)
      returns (rc: int, ghost room: seq<byte>, ghost ks: seq<nat>)
      requires Ready(tls, metas, payload) && Holds(metas, payload, rec) && |buf.refs| < 0x1_0000_0000
      modifies buf, buf.Ring(), tls, buf.mem
      ensures Ready(tls, metas, payload) && Holds(metas, payload, rec)
      ensures fresh(buf.Ring() - old(buf.Ring())) && buf.mem.oom >= old(buf.mem.oom)
      ensures AnyBad(rec) ==> rc == -1
      ensures !AnyBad(rec) ==>
        && |room| <= 9 && |ks| == |rec.metas| && Kept(rec.metas, ks)
        && (buf.mem.oom == old(buf.mem.oom) <==> |room| == 9 && Whole(rec.metas, ks))
        && rc == if 0 <= FoundSize(room, Torn(rec.metas, ks, |ks|), rec.payload) < SIZE_LIMIT then 0 else -1
      ensures |room| == 9 && old(HasRoom(tls.chain, buf.mem.blocks, 9)) ==>
        room == old(RoomBytes(tls.chain, buf.mem.blocks, 9))
      ensures rc == -1 ==> buf.Contents() == old(buf.Contents())
      ensures rc == 0 ==>
        var torn := Torn(rec.metas, ks, |ks|);
        var handle := |room| == 9 && old(Handled(buf.refs, tls.chain, buf.mem.blocks));
        buf.Contents() == old(buf.Contents()) + Front(room, FoundSize(room, torn, rec.payload), rec.metas != [], handle) + torn + rec.payload
      ensures buf.mem.oom == old(buf.mem.oom) ==> (rc == -1 <==> TooLong(rec))
      ensures rc == 0 ==> (buf.Contents() == old(buf.Contents()) + Encode(rec) <==>
        && buf.mem.oom == old(buf.mem.oom)
        && (old(Handled(buf.refs, tls.chain, buf.mem.blocks)) || room == Header(DataSize(rec), rec.metas != [])))
      ensures Isolated(old(buf.mem.blocks), old(buf.mem.held), buf.mem.blocks, buf.mem.held, {buf, tls})
    {
      hide Ok, Isolated, Bytes, IOBuf.Shape, IOBuf.Length, IOBuf.Contents, Open, DataSize, Holds, Encode, Ready, TooLong, AnyBad,
        Torn, Whole, Kept, Handled, HasRoom, RoomBytes, Front, Header;
      assert buf.Valid() by { MetaReady(tls, metas, payload, rec); }
      ghost var s, held, c := buf.mem.blocks, buf.mem.held, buf.Contents();
      ghost var handled := Handled(buf.refs, tls.chain, s);
      var oldSize := buf.Length();
      var area: nat;
      BadIsLong(rec);
      area, room := ReserveHeader(tls, metas, payload, rec);
      ghost var t, held', oom := buf.mem.blocks, buf.mem.held, buf.mem.oom;
      var ok;
      ok, ks := WriteMetas(tls, metas, payload, rec, oldSize, area, oldSize);
      IsolatedTrans(s, held, t, held', buf.mem.blocks, buf.mem.held, {buf, tls});
      Shortened(c, room, oldSize);
      assert c[..|c|] == c;
      if !ok {
        return -1, room, ks;
      }
      if buf.mem.oom == old(buf.mem.oom) {
        FoundAll(rec, room, ks);
      }
      ghost var u, held'' := buf.mem.blocks, buf.mem.held;
      rc := Finish(tls, metas, payload, rec, oldSize, area, c, room, Torn(rec.metas, ks, |ks|));
      IsolatedTrans(s, held, u, held'', buf.mem.blocks, buf.mem.held, {buf, tls});
      if rc == 0 {
        WrittenExactly(c, rec, room, ks, |room| == 9 && handled);
      }
    }

    // A queue of 2^19 refs that the header's room does not extend: the write reports success
    // and the header is whatever was in the room.
    method HeaderMissing(tls: ThreadLocal, metas: seq<NamedMeta>, payload: IOBuf, ghost rec: Record) returns (rc: int)
      requires Ready(tls, metas, payload) && Holds(metas, payload, rec) && !TooLong(rec)
      requires |buf.refs| == MAX_REF_INDEX + 1 && !Joins(buf.refs, tls.chain, buf.mem.blocks)
      requires HasRoom(tls.chain, buf.mem.blocks, 9) && RoomBytes(tls.chain, buf.mem.blocks, 9)[0] != MAGIC[0]
      modifies buf, buf.Ring(), tls, buf.mem
      ensures buf.mem.oom == old(buf.mem.oom) ==> rc == 0 && buf.Contents() != old(buf.Contents()) + Encode(rec)
    {
      hide Ok, Isolated, Bytes, IOBuf.Shape, IOBuf.Contents, Holds, Encode, Ready, TooLong, AnyBad, Torn, Whole, Kept, DataSize,
        HasRoom, Net32, Flagged, SizeChecksum;
      ghost var room, ks;
      BadIsLong(rec);
      rc, room, ks := WriteWithoutFlush(tls, metas, payload, rec);
    }
  }
}
