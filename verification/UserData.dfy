/** append_user_data: bytes of the caller's become a block of their own, without copying. */
module UserBlocks {
  import opened Blocks
  import opened Ownership
  import opened BlockMemory
  import opened Chains
  import opened Rings
  import opened IOBufs

  // A new block with a ref to all of it at the back of a queue.
  lemma {:induction false} OwnBlockOk(s: Store, held: Owners, o: object, b: BlockId, data: seq<byte>, ring: object?)
    requires Ok(s, held) && o in held && held[o].Queue? && b != NULL && b !in s && 0 < |data| < CAP_LIMIT
    requires RingFree(held, o, ring)
    ensures var refs, r := held[o].refs, BlockRef(0, |data|, b);
      var t, held' := s[b := Block(1, true, |data|, |data|, NULL, data)], held[o := Queue(refs + [r], ring)];
      && !Merges(refs, r) && Ok(t, held') && Isolated(s, held, t, held', {o})
      && Bytes(refs + [r], t) == Bytes(refs, s) + data
  {
    hide Ok, Isolated, Bytes, Owned, RefsOk, RingFree, ApartFromOthers, BlocksOk;
    var refs, r := held[o].refs, BlockRef(0, |data|, b);
    var blk := Block(1, true, |data|, |data|, NULL, data);
    var t := s[b := blk];
    HeldOk(s, held, o);
    NotMerged(refs, r, s);
    OwnedMore(refs, r, held[o], ring);
    MoreRefsOk(refs, r, s, t);
    QueueApart(held, o, refs + [r], ring);
    NewBlockOk(s, held, o, Queue(refs + [r], ring), b, blk);
    BytesSnoc(refs, r, t);
    SameBytes(refs, s, t, b);
  }

  lemma {:induction false} NotMerged(refs: seq<BlockRef>, r: BlockRef, s: Store)
    requires RefsOk(refs, s) && r.block !in s
    ensures !Merges(refs, r)
  {
    if refs != [] {
      assert RefOk(refs[|refs| - 1], s);
    }
  }

  lemma {:induction false} OwnedMore(refs: seq<BlockRef>, r: BlockRef, h: Holding, ring: object?)
    requires h.Queue? && h.refs == refs
    ensures Owned(Queue(refs + [r], ring)) == Owned(h) + multiset{r.block}
  {
    assert IdsOf(refs + [r]) == IdsOf(refs) + [r.block];
  }

  lemma {:induction false} MoreRefsOk(refs: seq<BlockRef>, r: BlockRef, s: Store, t: Store)
    requires RefsOk(refs, s) && r.block in t && RefOk(r, t)
    requires forall b :: b in s ==> b in t && (b != r.block ==> t[b] == s[b]) && r.block !in s
    ensures RefsOk(refs + [r], t)
  {
    forall i | 0 <= i < |refs + [r]| ensures RefOk((refs + [r])[i], t) {
      if i < |refs| {
        assert RefOk(refs[i], s);
      }
    }
  }

  lemma {:induction false} SameBytes(refs: seq<BlockRef>, s: Store, t: Store, b: BlockId)
    requires RefsOk(refs, s) && b !in s && forall c :: c in s ==> c in t && t[c] == s[c]
    ensures Bytes(refs, t) == Bytes(refs, s)
  {
    forall i | 0 <= i < |refs| ensures Slice(refs[i], s) == Slice(refs[i], t) {
      assert RefOk(refs[i], s);
    }
    BytesSame(refs, s, t);
  }

  const MAX_USER_DATA: nat := 0xFFFF_FFFF - 100

  // Every ref lies in a live block.
  ghost predicate AllWithin(refs: seq<BlockRef>, s: Store) {
    forall i :: 0 <= i < |refs| ==>
      refs[i].block in s && refs[i].offset + refs[i].length <= |s[refs[i].block].data|
  }

  lemma {:induction false} WithinLength(refs: seq<BlockRef>, s: Store)
    requires AllWithin(refs, s)
    ensures |Bytes(refs, s)| == SumLengths(refs)
  {
    if refs != [] {
      forall i | 0 <= i < |refs[1..]|
        ensures refs[1..][i].block in s
        ensures refs[1..][i].offset + refs[1..][i].length <= |s[refs[1..][i].block].data|
      {
        assert refs[1..][i] == refs[i + 1];
      }
      WithinLength(refs[1..], s);
    }
  }

  lemma {:induction false} WithinWhenValid(buf: IOBuf)
    requires buf.Valid()
    ensures AllWithin(buf.refs, buf.mem.blocks) && NULL !in buf.mem.blocks
  {
    hide Ok;
    HeldOk(buf.mem.blocks, buf.mem.held, buf);
    forall i | 0 <= i < |buf.refs|
      ensures var r := buf.refs[i];
        r.block in buf.mem.blocks && r.offset + r.length <= |buf.mem.blocks[r.block].data|
    {
      assert RefOk(buf.refs[i], buf.mem.blocks);
    }
  }

  // A ref to all of a new block goes behind the others, with its bytes.
  lemma {:induction false} NewBlockBytes(refs: seq<BlockRef>, s: Store, b: BlockId, data: seq<byte>)
    requires AllWithin(refs, s) && b !in s
    ensures var r := BlockRef(0, |data|, b);
      var t := s[b := Block(1, true, |data|, |data|, NULL, data)];
      && PushRef(refs, r) == refs + [r] && Pushed(t, refs, r, true) == t
      && AllWithin(refs + [r], t) && Bytes(refs + [r], t) == Bytes(refs, s) + data
  {
    hide Bytes;
    var r := BlockRef(0, |data|, b);
    var t := s[b := Block(1, true, |data|, |data|, NULL, data)];
    BytesSnoc(refs, r, t);
    assert Slice(r, t) == data;
    forall i | 0 <= i < |refs| ensures Slice(refs[i], s) == Slice(refs[i], t) {
      assert refs[i].block in s;
    }
    BytesSame(refs, s, t);
  }

  lemma {:induction false} NewBlockFits(refs: seq<BlockRef>, s: Store, r: BlockRef)
    requires BlocksOk(s) && RefsOk(refs, s) && r.length < CAP_LIMIT
    ensures SwitchFits(refs, r)
  {
    if |refs| == 2 {
      assert RefOk(refs[0], s) && RefOk(refs[1], s);
      assert BlockOk(s[refs[0].block]) && BlockOk(s[refs[1].block]);
    }
  }

  // A ref to the start of a block is never taken for a ring.
  lemma {:induction false} NewBlockTells(refs: seq<BlockRef>, r: BlockRef)
    requires TellsApart(refs) && r.offset == 0
    ensures TellsApart(refs + [r])
  {
  }

  // A block around the caller's bytes, and a ref to all of it.
  method PushUserBlock(buf: IOBuf, data: seq<byte>) returns (b: BlockId)
    requires buf.Layout() && AllWithin(buf.refs, buf.mem.blocks)
    requires buf.mem.Tallied() && NULL !in buf.mem.blocks
    modifies buf, buf.Ring(), buf.mem`blocks, buf.mem`nblock, buf.mem`oom
    ensures buf.mem.Tallied() && buf.mem.oom == old(buf.mem.oom) + (if b == NULL then 1 else 0)
    ensures b == NULL ==> unchanged(buf) && unchanged(old(buf.Ring())) && buf.mem.blocks == old(buf.mem.blocks)
    ensures b != NULL ==>
      && b !in old(buf.mem.blocks)
      && buf.mem.blocks == old(buf.mem.blocks)[b := Block(1, true, |data|, |data|, NULL, data)]
      && buf.Layout() && buf.refs == old(buf.refs) + [BlockRef(0, |data|, b)]
      && (buf.Counted() <==> old(buf.Counted()) && SwitchFits(old(buf.refs), BlockRef(0, |data|, b)))
      && (buf.RawLength() == SumLengths(buf.refs) <==>
           old(buf.Counted()) && SwitchFits(old(buf.refs), BlockRef(0, |data|, b)) && LengthFits(buf.refs))
    ensures b != NULL && old(buf.view.Big?) ==> buf.RawLength() == old(buf.RawLength()) + |data|
    ensures b != NULL && old(buf.view.Small?) ==> buf.RawLength() == SumLengths(buf.refs) % 0x1_0000_0000
    ensures fresh(buf.Ring() - old(buf.Ring()))
  {
    hide Bytes, IOBuf.Stands, PushRef, Merges, Pushed, AllWithin, SumLengths, TellsApart, Magic, LengthOf, LengthFits, SwitchFits;
    ghost var s := buf.mem.blocks;
    b := buf.mem.CreateUserBlock(data);
    if b != NULL {
      NewBlockBytes(buf.refs, s, b, data);
      NewBlockTells(buf.refs, BlockRef(0, |data|, b));
      buf.PushBackRef(BlockRef(0, |data|, b), true);
    }
  }

  // The bytes go behind what is there; whether length() then counts them rightly
  // depends on the 32-bit sums of the inline view and of the switch to a ring.
  method AppendUserData(buf: IOBuf, data: seq<byte>) returns (rc: int)
    requires buf.Layout() && AllWithin(buf.refs, buf.mem.blocks)
    requires buf.mem.Tallied() && NULL !in buf.mem.blocks
    modifies buf, buf.Ring(), buf.mem
    ensures buf.Layout() && AllWithin(buf.refs, buf.mem.blocks) && fresh(buf.Ring() - old(buf.Ring()))
    ensures buf.mem.Tallied() && NULL !in buf.mem.blocks
    ensures rc == 0 || rc == -1
    ensures |data| > MAX_USER_DATA ==> rc == -1 && buf.mem.oom == old(buf.mem.oom)
    ensures |data| <= MAX_USER_DATA ==> buf.mem.oom == old(buf.mem.oom) + (if rc == -1 then 1 else 0)
    ensures rc == -1 ==> unchanged(buf) && buf.mem.blocks == old(buf.mem.blocks) && buf.mem.held == old(buf.mem.held)
    ensures rc == 0 ==>
      && |buf.refs| == |old(buf.refs)| + 1
      && buf.refs == old(buf.refs) + [BlockRef(0, |data|, buf.refs[|old(buf.refs)|].block)]
      && buf.Contents() == old(buf.Contents()) + data
    ensures rc == 0 && old(buf.view.Big?) ==> buf.RawLength() == old(buf.RawLength()) + |data|
    ensures rc == 0 && old(buf.view.Small?) ==> buf.RawLength() == |buf.Contents()| % 0x1_0000_0000
    ensures rc == 0 ==> (buf.RawLength() == |buf.Contents()| <==>
      if |buf.refs| <= 2 then |buf.Contents()| < 0x1_0000_0000
      else old(buf.Counted()) && SwitchFits(old(buf.refs), BlockRef(0, |data|, NULL)))
    ensures old(buf.Valid()) && 0 < |data| < CAP_LIMIT ==>
      && buf.Valid()
      && Isolated(old(buf.mem.blocks), old(buf.mem.held), buf.mem.blocks, buf.mem.held, {buf})
  {
    hide Ok, Isolated, Bytes, IOBuf.Stands, AllWithin, SumLengths, TellsApart, Magic, LengthOf, SwitchFits;
    ghost var s, held, refs := buf.mem.blocks, buf.mem.held, buf.refs;
    ShortIsSmall(buf);
    IsolatedRefl(s, held, {buf});
    if |data| > MAX_USER_DATA {
      return -1;
    }
    var b := PushUserBlock(buf, data);
    if b == NULL {
      return -1;
    }
    NewBlockBytes(refs, s, b, data);
    WithinLength(buf.refs, buf.mem.blocks);
    FitsAnywhere(refs, s, |data|, b);
    FitsOnlySwitching(buf, refs, BlockRef(0, |data|, b));
    buf.mem.held := held[buf := Queue(buf.refs, buf.RingObject())];
    if old(buf.Valid()) && 0 < |data| < CAP_LIMIT {
      HeldOk(s, held, buf);
      NewBlockFits(refs, s, BlockRef(0, |data|, b));
      OwnBlockOk(s, held, buf, b, data, buf.RingObject());
    }
    return 0;
  }

  // A new block extends no ref, wherever it is.
  lemma {:induction false} FitsAnywhere(refs: seq<BlockRef>, s: Store, n: nat, b: BlockId)
    requires AllWithin(refs, s) && b !in s && NULL !in s
    ensures SwitchFits(refs, BlockRef(0, n, b)) <==> SwitchFits(refs, BlockRef(0, n, NULL))
  {
  }

  lemma {:induction false} FitsOnlySwitching(buf: IOBuf, refs: seq<BlockRef>, r: BlockRef)
    requires buf.Stands() && buf.refs == refs + [r]
    ensures |buf.refs| <= 2 ==> SwitchFits(refs, r)
  {
  }

  // Two blocks of 2^31 bytes: length() says 0 with 4 GiB in the buffer.
  method WrapsInline(buf: IOBuf, a: seq<byte>, b: seq<byte>) returns (rc: int)
    requires buf.Layout() && buf.refs == [] && buf.mem.Tallied() && NULL !in buf.mem.blocks
    requires |a| == |b| == 0x8000_0000
    modifies buf, buf.Ring(), buf.mem
    ensures rc == 0 ==> buf.RawLength() == 0 && |buf.Contents()| == 0x1_0000_0000 && |buf.refs| == 2
  {
    hide Bytes, IOBuf.Layout, IOBuf.Valid, Isolated, AllWithin, Magic, LengthOf, SwitchFits, IOBuf.Counted;
    NoneWithin(buf.mem.blocks);
    ShortIsSmall(buf);
    rc := AppendUserData(buf, a);
    if rc == 0 {
      ShortIsSmall(buf);
      rc := AppendUserData(buf, b);
    }
  }

  // Three blocks make a ring.
  method ThreeBlocks(buf: IOBuf, a: seq<byte>, b: seq<byte>, c: seq<byte>) returns (rc: int)
    requires buf.Layout() && buf.refs == [] && buf.mem.Tallied() && NULL !in buf.mem.blocks
    modifies buf, buf.Ring(), buf.mem
    ensures buf.mem.Tallied() && NULL !in buf.mem.blocks && fresh(buf.Ring() - old(buf.Ring()))
    ensures buf.Layout() && AllWithin(buf.refs, buf.mem.blocks)
    ensures rc == 0 ==>
      && |buf.refs| == 3 && buf.view.Big? && buf.refs[0] == BlockRef(0, |a|, buf.refs[0].block)
      && |buf.Contents()| == |a| + |b| + |c| && buf.RawLength() == (|a| + |b| + |c|) % 0x1_0000_0000
  {
    hide Bytes, IOBuf.Layout, IOBuf.Valid, Isolated, AllWithin, Magic, LengthOf, SwitchFits, IOBuf.Counted;
    NoneWithin(buf.mem.blocks);
    ShortIsSmall(buf);
    rc := AppendUserData(buf, a);
    if rc == 0 {
      ShortIsSmall(buf);
      rc := AppendUserData(buf, b);
      ShortIsSmall(buf);
      if rc == 0 {
        rc := AppendUserData(buf, c);
        ShortIsSmall(buf);
      }
    }
  }

  // Three blocks whose sizes sum to 2^32: length() says 0 with 4 GiB in the buffer.
  method WrapsAtSwitch(buf: IOBuf, a: seq<byte>, b: seq<byte>, c: seq<byte>) returns (rc: int)
    requires buf.Layout() && buf.refs == [] && buf.mem.Tallied() && NULL !in buf.mem.blocks
    requires |a| == |b| == 0x7FFF_FFFF && |c| == 2
    modifies buf, buf.Ring(), buf.mem
    ensures rc == 0 ==> buf.RawLength() == 0 && |buf.Contents()| == 0x1_0000_0000
  {
    hide Bytes, IOBuf.Layout, AllWithin, Magic, LengthOf;
    rc := ThreeBlocks(buf, a, b, c);
  }

  lemma {:induction false} ShortIsSmall(buf: IOBuf)
    requires buf.Layout()
    ensures buf.view.Small? <==> |buf.refs| < 3
  {
  }

  lemma {:induction false} NoneWithin(s: Store)
    ensures AllWithin([], s) && Bytes([], s) == []
  {
  }

  // pop_front of less than the front ref, in a ring.
  method TrimRing(buf: IOBuf, n: nat)
    requires buf.Layout() && buf.view.Big? && buf.refs != [] && n < buf.refs[0].length
    requires n < buf.RawLength() && buf.refs[0].block != NULL
    modifies buf, buf.Ring()
    ensures buf.Layout() && buf.refs == old(buf.refs)[0 := TrimFront(old(buf.refs)[0], n)]
    ensures buf.view.Big? && buf.Ring() == old(buf.Ring())
  {
    hide PowerOfTwo, NoNulls, SumLengths, Magic;
    var r := buf.view.refs[buf.view.start];
    assert r == buf.refs[0];
    buf.ReplaceRingRef(0, TrimFront(r, n));
  }

  // The first step of other.append(buf).
  method ShareFirst(other: IOBuf, buf: IOBuf)
    requires buf != other && buf.mem == other.mem && buf.mem.Tallied() && NULL !in buf.mem.blocks
    requires buf.Layout() && buf.view.Big? && buf.refs != [] && AllWithin(buf.refs, buf.mem.blocks)
    requires other.Layout() && other.refs == []
    modifies other, other.Ring(), buf.mem`blocks, buf.mem`nblock
    ensures other.Stands() && other.refs == [buf.refs[0]] && |other.Contents()| == buf.refs[0].length
    ensures !TellsApart(other.refs) ==> other.RawLength() == 0
    ensures (other.IsSmall() <==> other.view.Small?) <==> TellsApart(other.refs)
  {
    hide PowerOfTwo, NoNulls, SumLengths, Magic, LengthOf, LengthFits, TellsApart, SwitchFits, Bytes;
    var r := buf.view.refs[buf.view.start];
    assert r == buf.refs[0];
    other.PushBackRef(r, false);
    BytesOne(r, other.mem.blocks);
  }

  // A ref into the second half of a large block, shared with an empty buffer: that takes its
  // inline refs for a ring, and length() says 0 with ten bytes in the buffer.
  method MisreadShare(buf: IOBuf, other: IOBuf, a: seq<byte>, b: seq<byte>, c: seq<byte>) returns (rc: int)
    requires buf != other && buf.mem == other.mem && buf.mem.Tallied() && NULL !in buf.mem.blocks
    requires buf.Layout() && other.Layout() && buf.refs == [] && other.refs == [] && buf.Ring() !! other.Ring()
    requires |a| == 0x8000_000A && |b| == |c| == 1
    modifies buf, buf.Ring(), other, other.Ring(), buf.mem
    ensures rc == 0 ==> other.view.Small? && !other.IsSmall() && other.RawLength() == 0 && |other.Contents()| == 10
  {
    hide Bytes, IOBuf.Stands, IOBuf.Valid, Isolated, AllWithin, LengthOf, SwitchFits, IOBuf.Counted, Magic, SumLengths;
    assert other !in buf.Ring() && buf.mem !in other.Ring();
    rc := ThreeBlocks(buf, a, b, c);
    if rc == 0 {
      TrimmedWithin(buf.refs, buf.mem.blocks, 0x8000_0000);
      TrimRing(buf, 0x8000_0000);
      ShareFirst(other, buf);
      OneIsSmall(other);
    }
  }

  lemma {:induction false} OneIsSmall(buf: IOBuf)
    requires buf.Stands() && |buf.refs| == 1
    ensures buf.view.Small?
  {
  }

  lemma {:induction false} TrimmedWithin(refs: seq<BlockRef>, s: Store, n: nat)
    requires AllWithin(refs, s) && refs != [] && n < refs[0].length && NULL !in s
    ensures AllWithin(refs[0 := TrimFront(refs[0], n)], s) && refs[0].block != NULL
  {
  }
}
