/** The buffer under a cutter may be appended to while cutting, its documentation says.
    This tells exactly when the appended bytes come out of the cutter. */
module CutterAppends {
  import opened Blocks
  import opened Ownership
  import opened BlockMemory
  import opened Cells
  import opened ThreadBlocks
  import opened IOBufs
  import opened Cutters

  // The cutter holds the only ref of its buffer.
  ghost predicate OnlyRefHeld(cutter: IOBufCutter)
    reads cutter, cutter.buf
  {
    cutter.block != NULL && |cutter.buf.refs| == 1
  }

  // `added` went behind `c`, and the front ref grew from `k` to `k'` bytes.
  lemma {:induction false} RestGrows(c: seq<byte>, added: seq<byte>, u: nat, w: nat, k: nat, k': nat)
    requires u + w <= k <= |c| && k <= k' <= |c| + |added| && (k' != k ==> k == |c|)
    ensures Rest(c + added, u, w, k') == Rest(c, u, w, k) + added[k' - k..]
  {
    var all := c + added;
    assert all[u..u + w] == c[u..u + w];
    if k' == k {
      assert all[k..] == c[k..] + added;
      assert added[0..] == added;
      Assoc(c[u..u + w], c[k..], added);
    } else {
      assert c[k..] == [] && all[k'..] == added[k' - k..];
    }
  }

  lemma {:induction false} FrontWithin(refs: seq<BlockRef>, s: Store)
    requires BlocksOk(s) && RefsOk(refs, s) && refs != []
    ensures refs[0].length <= |Bytes(refs, s)|
    ensures |refs| == 1 ==> refs[0].length == |Bytes(refs, s)|
  {
    assert RefOk(refs[0], s);
    FrontBytes(refs, s);
    NoBytes(s);
    assert |refs| == 1 ==> refs[1..] == [];
  }

  // What is left to cut of a buffer with these refs and contents.
  ghost function Left(cutter: IOBufCutter, refs: seq<BlockRef>, c: seq<byte>): seq<byte>
    requires cutter.block != NULL ==>
      && refs != [] && refs[0].offset <= cutter.data <= cutter.dataEnd <= refs[0].offset + refs[0].length
      && refs[0].length <= |c|
    reads cutter
  {
    if cutter.block == NULL then c
    else Rest(c, cutter.data - refs[0].offset, cutter.dataEnd - cutter.data, refs[0].length)
  }

  lemma {:induction false} LeftRemains(cutter: IOBufCutter)
    requires cutter.Valid()
    ensures cutter.block != NULL ==>
      var refs, c := cutter.buf.refs, cutter.buf.Contents();
      refs[0].length <= |c| && (|refs| == 1 ==> refs[0].length == |c|)
    ensures cutter.Remaining() == Left(cutter, cutter.buf.refs, cutter.buf.Contents())
  {
    hide Ok, Bytes, IOBuf.Shape, Rest, RefsOk, BlocksOk;
    if cutter.block != NULL {
      HeldOk(cutter.buf.mem.blocks, cutter.buf.mem.held, cutter.buf);
      FrontWithin(cutter.buf.refs, cutter.buf.mem.blocks);
    }
  }

  // What a cutter sees of bytes that went behind its buffer: all but those that made the
  // ref in its hands longer.
  lemma {:induction false} Seen(cutter: IOBufCutter, refs: seq<BlockRef>, c: seq<byte>, added: seq<byte>)
    requires cutter.block == NULL ==> cutter.data == cutter.dataEnd
    requires cutter.block != NULL ==>
      && refs != [] && refs[0].block == cutter.block
      && refs[0].offset <= cutter.data <= cutter.dataEnd <= refs[0].offset + refs[0].length
      && refs[0].length <= |c| && (|refs| == 1 ==> refs[0].length == |c|)
    requires cutter.buf.Valid() && Extends(refs, cutter.buf.refs) && cutter.buf.Contents() == c + added
    ensures cutter.Valid()
    ensures cutter.block == NULL ==> cutter.Remaining() == Left(cutter, refs, c) + added
    ensures cutter.block != NULL ==>
      var lost := cutter.buf.refs[0].length - refs[0].length;
      && 0 <= lost <= |added| && (lost != 0 ==> |refs| == 1)
      && cutter.Remaining() == Left(cutter, refs, c) + added[lost..]
  {
    hide Ok, Bytes, IOBuf.Shape, Rest;
    if cutter.block != NULL {
      LeftRemains(cutter);
      RestGrows(c, added, cutter.data - refs[0].offset, cutter.dataEnd - cutter.data, refs[0].length,
                cutter.buf.refs[0].length);
    }
  }

  // A ref pushed while cutting is seen by the cutter unless it makes the very ref it is in
  // the middle of longer.
  method PushWhileCutting(cutter: IOBufCutter, r: BlockRef)
    requires cutter.Valid() && RefOk(r, cutter.buf.mem.blocks)
    modifies cutter.buf, cutter.buf.Ring(), cutter.buf.mem`blocks, cutter.buf.mem`nblock, cutter.buf.mem`held
    ensures cutter.Valid() && fresh(cutter.buf.Ring() - old(cutter.buf.Ring()))
    ensures var seen := !old(OnlyRefHeld(cutter) && Merges(cutter.buf.refs, r));
      cutter.Remaining() == old(cutter.Remaining()) + (if seen then Slice(r, old(cutter.buf.mem.blocks)) else [])
    ensures cutter.buf.Contents() == old(cutter.buf.Contents()) + Slice(r, old(cutter.buf.mem.blocks))
  {
    hide Ok, Isolated, Bytes, IOBuf.Shape, Rest, Slice;
    ghost var refs, c, bytes := cutter.buf.refs, cutter.buf.Contents(), Slice(r, cutter.buf.mem.blocks);
    LeftRemains(cutter);
    SliceSize(r, cutter.buf.mem.blocks, cutter.buf.mem.held);
    ExtendsPush(cutter.buf.refs, r);
    assert cutter !in cutter.buf.Ring();
    cutter.buf.ShareRef(r);
    Seen(cutter, refs, c, bytes);
    assert bytes[0..] == bytes && bytes[|bytes|..] == [];
  }

  lemma {:induction false} SliceSize(r: BlockRef, s: Store, held: Owners)
    requires Ok(s, held) && RefOk(r, s)
    ensures |Slice(r, s)| == r.length > 0
  {
    assert BlockOk(s[r.block]);
  }

  // append() while cutting. All appended bytes come out of the cutter, in order, unless it
  // holds the only ref of its buffer and the thread's next block continues that ref; then
  // those are lost that go into this block.
  method AppendWhileCutting(cutter: IOBufCutter, tls: ThreadLocal, data: seq<byte>)
    returns (rc: int, ghost added: seq<byte>, ghost lost: nat)
    requires cutter.Valid() && cutter.buf.With(tls)
    modifies cutter.buf, cutter.buf.Ring(), tls, cutter.buf.mem
    ensures cutter.Valid() && cutter.buf.With(tls) && fresh(cutter.buf.Ring() - old(cutter.buf.Ring()))
    ensures (rc == 0 && added == data) || (rc == -1 && added < data)
    ensures cutter.buf.Contents() == old(cutter.buf.Contents()) + added
    ensures lost <= |added| && cutter.Remaining() == old(cutter.Remaining()) + added[lost..]
    ensures lost ==
      if old(OnlyRefHeld(cutter) && Joins(cutter.buf.refs, tls.chain, cutter.buf.mem.blocks))
      then Min(|added|, old(OpenRoom(tls.chain, cutter.buf.mem.blocks))) else 0
  {
    hide Ok, Isolated, Bytes, IOBuf.Shape, Rest, Joins, CellsOf, OpenRoom;
    ghost var refs, c := cutter.buf.refs, cutter.buf.Contents();
    LeftRemains(cutter);
    assert cutter !in cutter.buf.Ring();
    rc := cutter.buf.Append(tls, data);
    added := cutter.buf.Contents()[|c|..];
    Seen(cutter, refs, c, added);
    lost := if cutter.block == NULL then 0 else cutter.buf.refs[0].length - refs[0].length;
    assert added[0..] == added;
  }

  // A cutter in the middle of its buffer's only ref, and bytes pushed that extend the ref:
  // cutting everything hands out what was there before, and nothing is left to cut.
  method AppendLost(cutter: IOBufCutter, r: BlockRef) returns (b: seq<byte>)
    requires cutter.Valid() && OnlyRefHeld(cutter)
    requires RefOk(r, cutter.buf.mem.blocks) && Merges(cutter.buf.refs, r)
    modifies cutter, cutter.buf, cutter.buf.Ring(), cutter.buf.mem`blocks, cutter.buf.mem`nblock, cutter.buf.mem`held
    ensures cutter.Valid() && b == old(cutter.Remaining()) && cutter.Remaining() == []
    ensures r.length > 0
  {
    hide Ok, Isolated, Bytes, IOBuf.Shape, Rest, Slice;
    ghost var all := cutter.Remaining();
    PushWhileCutting(cutter, r);
    var n := cutter.RemainingBytes();
    b := cutter.CutBytes(n);
    assert all[..|all|] == all && all[|all|..] == [];
  }
}
