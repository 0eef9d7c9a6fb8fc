/** reserve and unsafe_assign: room set aside at the back of an IOBuf and filled later,
    in place, through a 64-bit handle. */
module Areas {
  import opened Blocks
  import opened Ownership
  import opened BlockMemory
  import opened Cells
  import opened Chains
  import opened ThreadBlocks
  import opened IOBufs

  const MAX_REF_INDEX: nat := 0x8_0000 - 1
  const MAX_REF_OFFSET: nat := 0x8000 - 1
  const MAX_AREA_SIZE: nat := 0x4000_0000 - 1
  const INVALID_AREA: nat := 0

  // What a uint32_t parameter makes of a size_t.
  function U32(n: nat): nat {
    n % 0x1_0000_0000
  }

  // The numbers, cut to 32 bits, have room in a handle.
  predicate FitsArea(index: nat, offset: nat, size: nat) {
    U32(index) <= MAX_REF_INDEX && U32(offset) <= MAX_REF_OFFSET && U32(size) <= MAX_AREA_SIZE
  }

  // 19 bits of ref index, 15 of offset in the ref, 30 of size.
  function MakeArea(index: nat, offset: nat, size: nat): (area: nat)
    ensures area < 0x1_0000_0000_0000_0000
    ensures FitsArea(index, offset, size) ==>
      AreaIndex(area) == U32(index) && AreaOffset(area) == U32(offset) && AreaSize(area) == U32(size)
    ensures area != INVALID_AREA <==>
      FitsArea(index, offset, size) && !(U32(index) == 0 && U32(offset) == 0 && U32(size) == 0)
  {
    var i, o, z := U32(index), U32(offset), U32(size);
    if i > MAX_REF_INDEX || o > MAX_REF_OFFSET || z > MAX_AREA_SIZE then INVALID_AREA
    else Packed(i, o, z); Pack(i, o, z)
  }

  function Pack(i: nat, o: nat, z: nat): nat {
    i * 0x2000_0000_0000 + o * 0x4000_0000 + z
  }

  lemma {:induction false} Packed(i: nat, o: nat, z: nat)
    requires i <= MAX_REF_INDEX && o <= MAX_REF_OFFSET && z <= MAX_AREA_SIZE
    ensures var area := Pack(i, o, z);
      && area < 0x1_0000_0000_0000_0000
      && AreaIndex(area) == i && AreaOffset(area) == o && AreaSize(area) == z
      && (area == 0 <==> i == 0 && o == 0 && z == 0)
  {
    hide AreaIndex, AreaOffset, AreaSize;
    PackedIndex(i, o, z);
    PackedOffset(i, o, z);
    PackedSize(i, o, z);
  }

  lemma {:induction false} PackedIndex(i: nat, o: nat, z: nat)
    requires i <= MAX_REF_INDEX && o <= MAX_REF_OFFSET && z <= MAX_AREA_SIZE
    ensures AreaIndex(Pack(i, o, z)) == i
  {
    assert Pack(i, o, z) / 0x2000_0000_0000 == i;
  }

  lemma {:induction false} PackedOffset(i: nat, o: nat, z: nat)
    requires o <= MAX_REF_OFFSET && z <= MAX_AREA_SIZE
    ensures AreaOffset(Pack(i, o, z)) == o
  {
    var y := i * 0x8000 + o;
    assert Pack(i, o, z) == y * 0x4000_0000 + z;
    assert Pack(i, o, z) / 0x4000_0000 == y;
  }

  lemma {:induction false} PackedSize(i: nat, o: nat, z: nat)
    requires z <= MAX_AREA_SIZE
    ensures AreaSize(Pack(i, o, z)) == z
  {
    var x, y := Pack(i, o, z), i * 0x8000 + o;
    assert x == y * 0x4000_0000 + z;
    assert x / 0x4000_0000 == y;
    assert x % 0x4000_0000 == x - 0x4000_0000 * (x / 0x4000_0000);
  }

  // A valid handle knows its size exactly when the size fits in 30 bits.
  lemma {:induction false} SizeExactly(index: nat, offset: nat, size: nat)
    requires MakeArea(index, offset, size) != INVALID_AREA
    ensures AreaSize(MakeArea(index, offset, size)) == size <==> size <= MAX_AREA_SIZE
  {
    hide MakeArea, AreaSize;
  }

  // reserve(2^32 + 9) gives a handle to the first 9 bytes.
  lemma {:induction false} ShortHandle(index: nat, offset: nat)
    requires index <= MAX_REF_INDEX && offset <= MAX_REF_OFFSET
    ensures var area := MakeArea(index, offset, 0x1_0000_0009); area != INVALID_AREA && AreaSize(area) == 9
  {
    hide MakeArea, AreaSize;
    assert U32(index) == index && U32(offset) == offset;
  }

  function AreaIndex(area: nat): nat {
    area / 0x2000_0000_0000 % 0x8_0000
  }

  function AreaOffset(area: nat): nat {
    area / 0x4000_0000 % 0x8000
  }

  function AreaSize(area: nat): nat {
    area % 0x4000_0000
  }

  // Position `p` of the buffer is `offset` bytes into the ref with this index.
  ghost predicate PointsAt(refs: seq<BlockRef>, index: nat, offset: nat, p: nat) {
    index < |refs| && offset < refs[index].length && SumLengths(refs[..index]) + offset == p
  }

  lemma {:induction false} PointsStill(a: seq<BlockRef>, b: seq<BlockRef>, index: nat, offset: nat, p: nat)
    requires Extends(a, b) && PointsAt(a, index, offset, p)
    ensures PointsAt(b, index, offset, p)
  {
    assert a[..index] == b[..index];
  }

  // The pushed bytes start where the buffer ended, merged into the back ref or not.
  lemma {:induction false} PointsAtPushed(refs: seq<BlockRef>, r: BlockRef)
    requires 0 < r.length
    ensures var refs' := PushRef(refs, r);
      var k := |refs'| - 1;
      refs' != [] && r.length <= refs'[k].length && PointsAt(refs', k, refs'[k].length - r.length, SumLengths(refs))
  {
    var refs' := PushRef(refs, r);
    var k := |refs'| - 1;
    if Merges(refs, r) {
      assert refs'[..k] == refs[..k] && refs == refs[..k] + [refs[k]];
      SumSnoc(refs[..k], refs[k]);
    } else {
      assert refs'[..k] == refs;
    }
  }

  // ---------- Cells of one buffer only ----------

  // The cells from position `p` on, `n` of them, are nowhere else: not in this buffer,
  // not in any other.
  ghost predicate Sole(held: Owners, o: object, p: nat, n: nat) {
    && o in held && held[o].Queue? && p + n <= |CellsOf(held[o].refs)|
    && SoleHere(CellsOf(held[o].refs), p, n)
    && SoleElsewhere(held, o, CellsOf(held[o].refs)[p..p + n])
  }

  ghost predicate SoleHere(c: seq<Cell>, p: nat, n: nat)
    requires p + n <= |c|
  {
    forall j, k :: 0 <= j < |c| && p <= k < p + n && j != k ==> c[j] != c[k]
  }

  ghost predicate SoleElsewhere(held: Owners, o: object, e: seq<Cell>) {
    forall q, x :: q in held && q != o && held[q].Queue? && x in e ==> x !in CellsOf(held[q].refs)
  }

  // Everyone but `o` and the chain `t` has what they had.
  lemma {:induction false} ElsewhereKept(s: Store, held: Owners, s': Store, held': Owners, o: object, t: object, e: seq<Cell>)
    requires Isolated(s, held, s', held', {o, t}) && SoleElsewhere(held, o, e)
    requires t in held' && (held'[t].Chain? || t == o)
    ensures SoleElsewhere(held', o, e)
  {
    forall q, x | q in held' && q != o && held'[q].Queue? && x in e ensures x !in CellsOf(held'[q].refs) {
      if q !in held {
        assert held'[q] == Queue([], null);
      }
    }
  }

  // Bytes added behind do not touch the cells set aside.
  lemma {:induction false} SoleGrown(a: seq<Cell>, b: seq<Cell>, p: nat, n: nat)
    requires p + n <= |a| && SoleHere(a, p, n) && Fresher(a, b)
    ensures SoleHere(b, p, n) && a[p..p + n] == b[p..p + n]
  {
    forall j, k | 0 <= j < |b| && p <= k < p + n && j != k ensures b[j] != b[k] {
      assert b[k] == a[k] && a[k] in a;
    }
  }

  lemma {:induction false} SoleAfterAppend(s: Store, held: Owners, s': Store, held': Owners, o: object, t: object, p: nat, n: nat)
    requires Sole(held, o, p, n) && Isolated(s, held, s', held', {o, t})
    requires t in held' && (held'[t].Chain? || t == o) && o in held' && held'[o].Queue?
    requires Fresher(CellsOf(held[o].refs), CellsOf(held'[o].refs))
    ensures Sole(held', o, p, n)
  {
    hide CellsOf, SoleElsewhere, Isolated;
    SoleGrown(CellsOf(held[o].refs), CellsOf(held'[o].refs), p, n);
    ElsewhereKept(s, held, s', held', o, t, CellsOf(held[o].refs)[p..p + n]);
  }

  // Sharing the refs of another buffer does not either.
  lemma {:induction false} SoleAfterShare(s: Store, held: Owners, s': Store, held': Owners, o: object, m: object, p: nat, n: nat)
    requires Sole(held, o, p, n) && Isolated(s, held, s', held', {o})
    requires m in held && m != o && held[m].Queue? && o in held' && held'[o].Queue?
    requires CellsOf(held'[o].refs) == CellsOf(held[o].refs) + CellsOf(held[m].refs)
    ensures Sole(held', o, p, n)
  {
    hide CellsOf, Isolated;
    var a, b, c := CellsOf(held[o].refs), CellsOf(held'[o].refs), CellsOf(held[m].refs);
    var e := a[p..p + n];
    assert b[p..p + n] == e;
    forall j, k | 0 <= j < |b| && p <= k < p + n && j != k ensures b[j] != b[k] {
      assert a[k] in e;
      if |a| <= j {
        assert b[j] == c[j - |a|] && b[j] in c;
      }
    }
    IsolatedMore(s, held, s', held', {o}, {o, o});
    ElsewhereKept(s, held, s', held', o, o, e);
  }

  // Cells beyond the size of a block extend the area.
  lemma {:induction false} SoleHerePush(a: seq<Cell>, x: seq<Cell>, p: nat, n: nat)
    requires p + n == |a| && SoleHere(a, p, n)
    requires forall c :: c in x ==> c !in a
    requires forall i, j :: 0 <= i < j < |x| ==> x[i] != x[j]
    ensures SoleHere(a + x, p, n + |x|)
  {
    var b := a + x;
    forall j, k | 0 <= j < |b| && p <= k < p + n + |x| && j != k ensures b[j] != b[k] {
      if |a| <= j && k < |a| {
        assert b[j] in x;
      } else if |a| <= k && j < |a| {
        assert b[k] in x;
      } else if |a| <= k && |a| <= j {
        assert b[j] == x[j - |a|] && b[k] == x[k - |a|];
      }
    }
  }

  lemma {:induction false} SoleElsewherePush(s: Store, held: Owners, o: object, e: seq<Cell>, r: BlockRef)
    requires Ok(s, held) && SoleElsewhere(held, o, e) && r.block in s && s[r.block].size <= r.offset
    ensures SoleElsewhere(held, o, e + RefCells(r))
  {
    forall q, x | q in held && q != o && held[q].Queue? && x in e + RefCells(r) ensures x !in CellsOf(held[q].refs) {
      if x !in e {
        HeldOk(s, held, q);
        BeyondSize(held[q].refs, s, r);
      }
    }
  }

  // The same, were `o` to hold `refs`, all of whose cells from `p` on are meant.
  ghost predicate SoleWith(held: Owners, o: object, refs: seq<BlockRef>, p: nat, n: nat) {
    && p + n == |CellsOf(refs)|
    && SoleHere(CellsOf(refs), p, n)
    && SoleElsewhere(held, o, CellsOf(refs)[p..p + n])
  }

  lemma {:induction false} SolePush(s: Store, held: Owners, o: object, p: nat, n: nat, r: BlockRef)
    requires Ok(s, held) && Sole(held, o, p, n) && p + n == |CellsOf(held[o].refs)|
    requires r.block in s && s[r.block].size <= r.offset
    ensures SoleWith(held, o, PushRef(held[o].refs, r), p, n + r.length)
  {
    hide CellsOf, PushRef, SoleElsewhere;
    HeldOk(s, held, o);
    BeyondSize(held[o].refs, s, r);
    CellsPush(held[o].refs, r);
    var a, x := CellsOf(held[o].refs), RefCells(r);
    SoleHerePush(a, x, p, n);
    SoleElsewherePush(s, held, o, a[p..p + n], r);
    assert (a + x)[p..p + n + r.length] == a[p..p + n] + x;
  }

  // ---------- reserve ----------

  lemma {:induction false} SoleAfterShareBlock(s: Store, held: Owners, s': Store, held': Owners, o: object, t: object, p: nat, n: nat)
    requires Sole(held, o, p, n) && Isolated(s, held, s', held', {t}) && o != t
    requires t in held' && held'[t].Chain?
    ensures Sole(held', o, p, n)
  {
    hide CellsOf, SoleElsewhere, SoleHere;
    OtherOwner(s, held, s', held', o, {t});
    IsolatedMore(s, held, s', held', {t}, {o, t});
    ElsewhereKept(s, held, s', held', o, t, CellsOf(held[o].refs)[p..p + n]);
  }

  // Where the first byte added behind `refs` will be.
  function FirstIndex(refs: seq<BlockRef>, joined: bool): nat {
    if joined && refs != [] then |refs| - 1 else |refs|
  }

  function FirstOffset(refs: seq<BlockRef>, joined: bool): nat {
    if joined && refs != [] then refs[|refs| - 1].length else 0
  }

  // The block in use has room for `n` bytes.
  predicate HasRoom(ids: seq<BlockId>, s: Store, n: nat) {
    var b := FirstOpen(ids, s);
    b != NULL && s[b].size + n <= s[b].cap == |s[b].data|
  }

  // The bytes that are there.
  function RoomBytes(ids: seq<BlockId>, s: Store, n: nat): (r: seq<byte>)
    requires HasRoom(ids, s, n)
    ensures |r| == n
  {
    var b := FirstOpen(ids, s);
    s[b].data[s[b].size..s[b].size + n]
  }

  // As much of the room as the thread's block has is added to the area.
  method ReserveRound(buf: IOBuf, tls: ThreadLocal, count: nat, ghost p: nat, ghost had: nat) returns (n: nat)
    requires buf.With(tls) && 0 < count
    requires Sole(buf.mem.held, buf, p, had) && p + had == |CellsOf(buf.refs)|
    modifies buf, buf.Ring(), tls, buf.mem
    ensures buf.With(tls) && fresh(buf.Ring() - old(buf.Ring()))
    ensures n <= count && buf.mem.oom == old(buf.mem.oom) + (if n == 0 then 1 else 0)
    ensures old(buf.Contents()) <= buf.Contents() && |buf.Contents()| == |old(buf.Contents())| + n
    ensures Grown(old(buf.refs), buf.refs)
    ensures Sole(buf.mem.held, buf, p, had + n) && p + had + n == |CellsOf(buf.refs)|
    ensures n > 0 ==> Pointed(old(buf.refs), buf.refs, n, old(Joins(buf.refs, tls.chain, buf.mem.blocks)))
    ensures n > 0 && old(HasRoom(tls.chain, buf.mem.blocks, count)) ==>
      n == count && buf.Contents() == old(buf.Contents()) + old(RoomBytes(tls.chain, buf.mem.blocks, count))
    ensures Isolated(old(buf.mem.blocks), old(buf.mem.held), buf.mem.blocks, buf.mem.held, {buf, tls})
  {
    hide Ok, Isolated, Bytes, IOBuf.Shape, Grown, PushRef, Sole, CellsOf, Pointed, Joins, Merges, IOBuf.With, IOBuf.Valid,
      IOBuf.Contents, SameRoom, FirstOpen, HasRoom, RoomBytes;
    ghost var s, held, refs, ids := buf.mem.blocks, buf.mem.held, buf.refs, tls.chain;
    buf.WithParts(tls);
    GrownRefl(refs);
    var b := buf.OpenBlock(tls);
    ghost var t, held' := buf.mem.blocks, buf.mem.held;
    buf.WithParts(tls);
    IsolatedMore(s, held, t, held', {tls}, {buf, tls});
    SoleAfterShareBlock(s, held, t, held', buf, tls, p, had);
    if b == NULL {
      return 0;
    }
    OpenedRoom(buf, tls, s, ids, b, count);
    n := ReserveIn(buf, tls, b, count, p, had);
    IsolatedTrans(s, held, t, held', buf.mem.blocks, buf.mem.held, {buf, tls});
  }

  // The block given is the first open one of the chain, or a new one.
  lemma {:induction false} OpenedRoom(buf: IOBuf, tls: ThreadLocal, s: Store, ids: seq<BlockId>, b: BlockId, count: nat)
    requires buf.With(tls) && b in buf.mem.blocks
    requires var open := FirstOpen(ids, s);
      if open != NULL then b == open && SameRoom(s[b], buf.mem.blocks[b]) else buf.mem.blocks[b].size == 0
    ensures Merges(buf.refs, BlockRef(buf.mem.blocks[b].size, 0, b)) <==> Joins(buf.refs, ids, s)
    ensures HasRoom(ids, s, count) ==> var blk := buf.mem.blocks[b];
      && Min(count, blk.cap - blk.size) == count && blk.size + count <= |blk.data|
      && blk.data[blk.size..blk.size + count] == RoomBytes(ids, s, count)
  {
    hide Ok, Bytes, IOBuf.Shape, Joins, Merges, FirstOpen;
    HeldOk(buf.mem.blocks, buf.mem.held, buf);
    JoinsExactly(buf.refs, ids, s, b, buf.mem.blocks, 0);
  }

  // The room is taken from block `b`; its bytes stay what they were.
  method ReserveIn(buf: IOBuf, tls: ThreadLocal, b: BlockId, count: nat, ghost p: nat, ghost had: nat) returns (n: nat)
    requires buf.With(tls) && 0 < count
    requires b in tls.chain && b in buf.mem.blocks && !buf.mem.blocks[b].Full()
    requires Sole(buf.mem.held, buf, p, had) && p + had == |CellsOf(buf.refs)|
    modifies buf, buf.Ring(), buf.mem`blocks, buf.mem`nblock, buf.mem`held
    ensures buf.With(tls) && fresh(buf.Ring() - old(buf.Ring()))
    ensures var blk := old(buf.mem.blocks)[b];
      && 0 < n == Min(count, blk.cap - blk.size) && blk.size + n <= |blk.data|
      && buf.Contents() == old(buf.Contents()) + blk.data[blk.size..blk.size + n]
    ensures Grown(old(buf.refs), buf.refs)
    ensures Sole(buf.mem.held, buf, p, had + n) && p + had + n == |CellsOf(buf.refs)|
    ensures Pointed(old(buf.refs), buf.refs, n, old(Merges(buf.refs, BlockRef(buf.mem.blocks[b].size, 0, b))))
    ensures Isolated(old(buf.mem.blocks), old(buf.mem.held), buf.mem.blocks, buf.mem.held, {buf, tls})
  {
    hide Ok, Isolated, Bytes, IOBuf.Shape, Grown, PushRef, Sole, CellsOf, Pointed, SoleWith, Filled;
    ghost var t, held' := buf.mem.blocks, buf.mem.held;
    RoomIn(t, held', tls, b);
    var size := buf.mem.blocks[b].size;
    n := Min(count, buf.mem.blocks[b].cap - size);
    ReservePrep(t, held', buf, b, n, p, had);
    buf.AppendChunk(b, buf.mem.blocks[b].data[size..size + n], tls);
    SoleAfterChunk(t, held', buf.mem.blocks, buf.mem.held, buf, tls, p, had + n);
  }

  lemma {:induction false} RoomIn(s: Store, held: Owners, t: object, b: BlockId)
    requires Ok(s, held) && t in held && held[t].Chain? && b in held[t].ids
    ensures b in s && s[b].size <= s[b].cap == |s[b].data| && !s[b].user
  {
    HeldChainOk(s, held, t);
  }

  lemma {:induction false} ReservePrep(s: Store, held: Owners, o: object, b: BlockId, n: nat, p: nat, had: nat)
    requires Ok(s, held) && Sole(held, o, p, had) && p + had == |CellsOf(held[o].refs)|
    requires b in s && !s[b].user && 0 < n && s[b].size + n <= s[b].cap
    ensures var refs, r := held[o].refs, BlockRef(s[b].size, n, b);
      Grown(refs, PushRef(refs, r)) && Pointed(refs, PushRef(refs, r), n, Merges(refs, r)) && SoleWith(held, o, PushRef(refs, r), p, had + n)
  {
    hide Ok, PushRef, CellsOf, SoleWith, Grown, Pointed, SoleHere, SoleElsewhere;
    var refs, r := held[o].refs, BlockRef(s[b].size, n, b);
    HeldOk(s, held, o);
    GrownPush(refs, s, r);
    PushPoints(refs, s, r);
    SolePush(s, held, o, p, had, r);
  }

  lemma {:induction false} SoleAfterChunk(s: Store, held: Owners, s': Store, held': Owners, o: object, t: object, p: nat, n: nat)
    requires Isolated(s, held, s', held', {o, t}) && o in held' && held'[o].Queue? && t in held' && held'[t].Chain?
    requires SoleWith(held, o, held'[o].refs, p, n)
    ensures Sole(held', o, p, n) && p + n == |CellsOf(held'[o].refs)|
  {
    hide Isolated;
    ElsewhereKept(s, held, s', held', o, t, CellsOf(held'[o].refs)[p..p + n]);
  }

  // The last `n` bytes of the back ref start where the queue `a` ended.
  ghost predicate Pointed(a: seq<BlockRef>, b: seq<BlockRef>, n: nat, joined: bool) {
    && b != [] && |b| - 1 == FirstIndex(a, joined)
    && b[|b| - 1].length == FirstOffset(a, joined) + n <= DEFAULT_CAP
    && PointsAt(b, FirstIndex(a, joined), FirstOffset(a, joined), SumLengths(a))
  }

  lemma {:induction false} PushPoints(refs: seq<BlockRef>, s: Store, r: BlockRef)
    requires BlocksOk(s) && RefsOk(refs, s) && 0 < r.length
    requires r.block in s && !s[r.block].user && r.offset + r.length <= s[r.block].cap
    ensures Pointed(refs, PushRef(refs, r), r.length, Merges(refs, r))
  {
    PointsAtPushed(refs, r);
    assert BlockOk(s[r.block]);
    if Merges(refs, r) {
      assert RefOk(refs[|refs| - 1], s);
    }
  }

  // `total` of `count` bytes are reserved behind the bytes `all`, which the refs `refs` held
  // when the thread's chain was `ids` and the blocks and their owners were `s` and `held`.
  ghost predicate Reserving(buf: IOBuf, tls: ThreadLocal, count: nat, total: nat, area: nat,
                            refs: seq<BlockRef>, ids: seq<BlockId>, s: Store, held: Owners, all: seq<byte>)
    reads buf, buf.Ring(), tls, buf.mem, tls.mem
  {
    var joined := Joins(refs, ids, s);
    && buf.With(tls) && total <= count && SumLengths(refs) == |all|
    && all <= buf.Contents() && |buf.Contents()| == |all| + total
    && Grown(refs, buf.refs)
    && Sole(buf.mem.held, buf, |all|, total) && |all| + total == |CellsOf(buf.refs)|
    && (total == 0 ==> buf.refs == refs && buf.mem.blocks == s && tls.chain == ids && buf.Contents() == all)
    && area == (if total == 0 then INVALID_AREA else MakeArea(FirstIndex(refs, joined), FirstOffset(refs, joined), count))
    && (total > 0 ==> PointsAt(buf.refs, FirstIndex(refs, joined), FirstOffset(refs, joined), |all|))
    && (total > 0 && HasRoom(ids, s, count) ==> total == count && buf.Contents() == all + RoomBytes(ids, s, count))
    && Isolated(s, held, buf.mem.blocks, buf.mem.held, {buf, tls})
  }

  lemma {:induction false} ReservingNone(buf: IOBuf, tls: ThreadLocal, count: nat)
    requires buf.With(tls)
    ensures Reserving(buf, tls, count, 0, INVALID_AREA, buf.refs, tls.chain, buf.mem.blocks, buf.mem.held, buf.Contents())
  {
    hide Ok, Isolated, Bytes, IOBuf.Shape, Grown, Sole, CellsOf, PointsAt, MakeArea, Joins, HasRoom, RoomBytes, Pointed, SumLengths;
    IsolatedRefl(buf.mem.blocks, buf.mem.held, {buf, tls});
    GrownRefl(buf.refs);
    SoleNone(buf);
    buf.LengthOk();
  }

  // One round of the loop; without a block nothing is added.
  method ReserveStep(buf: IOBuf, tls: ThreadLocal, count: nat, total: nat, area: nat,
                     ghost refs: seq<BlockRef>, ghost ids: seq<BlockId>, ghost s: Store, ghost held: Owners, ghost all: seq<byte>)
    returns (total': nat, area': nat)
    requires Reserving(buf, tls, count, total, area, refs, ids, s, held, all) && total < count
    modifies buf, buf.Ring(), tls, buf.mem
    ensures buf.With(tls) && fresh(buf.Ring() - old(buf.Ring()))
    ensures buf.mem.oom == old(buf.mem.oom) + (if total' == total then 1 else 0) && total <= total'
    ensures all <= buf.Contents() && |buf.Contents()| == |all| + total' && Grown(refs, buf.refs)
    ensures Isolated(s, held, buf.mem.blocks, buf.mem.held, {buf, tls})
    ensures total' > total ==> Reserving(buf, tls, count, total', area', refs, ids, s, held, all)
  {
    hide Ok, Isolated, Bytes, IOBuf.Shape, Grown, Sole, CellsOf, PointsAt, MakeArea, IOBuf.Contents, IOBuf.Valid, IOBuf.With,
      FirstIndex, FirstOffset, Joins, HasRoom, RoomBytes, Pointed, SumLengths;
    ghost var t, held', refs' := buf.mem.blocks, buf.mem.held, buf.refs;
    var n := ReserveRound(buf, tls, count - total, |all|, total);
    GrownTrans(refs, refs', buf.refs);
    IsolatedTrans(s, held, t, held', buf.mem.blocks, buf.mem.held, {buf, tls});
    total', area' := total + n, area;
    if n > 0 {
      buf.WithParts(tls);
      if total == 0 {
        area' := FirstArea(buf, n, count, refs', Joins(refs, ids, s));
      } else {
        ghost var joined := Joins(refs, ids, s);
        PointsLonger(refs', buf.refs, FirstIndex(refs, joined), FirstOffset(refs, joined), |all|);
      }
    }
  }

  lemma {:induction false} ReservingAll(buf: IOBuf, tls: ThreadLocal, count: nat, area: nat,
                                        refs: seq<BlockRef>, ids: seq<BlockId>, s: Store, held: Owners, all: seq<byte>)
    requires Reserving(buf, tls, count, count, area, refs, ids, s, held, all)
    requires FirstOffset(refs, Joins(refs, ids, s)) <= MAX_REF_OFFSET
    ensures HasRoom(ids, s, count) ==> buf.Contents() == all + RoomBytes(ids, s, count)
    ensures area != INVALID_AREA && |refs| < 0x1_0000_0000 ==>
      AreaSize(area) == U32(count) && PointsAt(buf.refs, AreaIndex(area), AreaOffset(area), |all|)
  {
    hide Ok, Isolated, Bytes, IOBuf.Shape, Grown, Sole, CellsOf, PointsAt, MakeArea, AreaIndex, AreaOffset, AreaSize,
      IOBuf.Contents, IOBuf.Valid, IOBuf.With, FirstIndex, FirstOffset, Joins, HasRoom, RoomBytes, U32, SumLengths;
    var joined := Joins(refs, ids, s);
    AreaParts(FirstIndex(refs, joined), FirstOffset(refs, joined), count);
    IndexWithin(refs, joined);
    NoRoomNeeded(buf, count, all, ids, s);
  }

  lemma {:induction false} ReservingParts(buf: IOBuf, tls: ThreadLocal, count: nat, total: nat, area: nat,
                                          refs: seq<BlockRef>, ids: seq<BlockId>, s: Store, held: Owners, all: seq<byte>)
    requires Reserving(buf, tls, count, total, area, refs, ids, s, held, all)
    ensures buf.With(tls) && total <= count && all <= buf.Contents() && |buf.Contents()| == |all| + total
    ensures Grown(refs, buf.refs) && Sole(buf.mem.held, buf, |all|, total)
    ensures area == if total == 0 then INVALID_AREA
      else MakeArea(FirstIndex(refs, Joins(refs, ids, s)), FirstOffset(refs, Joins(refs, ids, s)), count)
    ensures Isolated(s, held, buf.mem.blocks, buf.mem.held, {buf, tls})
  {
  }

  // The bytes added belong to this buffer alone. The handle stands for all of them when
  // their number fits in 30 bits; it is invalid exactly when memory ran out or a number,
  // cut to 32 bits, has no room in it (or all are zero).
  method Reserve(buf: IOBuf, tls: ThreadLocal, count: nat) returns (area: nat)
    requires buf.With(tls)
    modifies buf, buf.Ring(), tls, buf.mem
    ensures buf.With(tls) && fresh(buf.Ring() - old(buf.Ring()))
    ensures old(buf.Contents()) <= buf.Contents() && Grown(old(buf.refs), buf.refs)
    ensures buf.mem.oom == old(buf.mem.oom) || buf.mem.oom == old(buf.mem.oom) + 1
    ensures buf.mem.oom == old(buf.mem.oom) ==>
      && |buf.Contents()| == |old(buf.Contents())| + count
      && Sole(buf.mem.held, buf, |old(buf.Contents())|, count)
      && (old(HasRoom(tls.chain, buf.mem.blocks, count)) ==>
           buf.Contents() == old(buf.Contents()) + old(RoomBytes(tls.chain, buf.mem.blocks, count)))
    ensures var joined := old(Joins(buf.refs, tls.chain, buf.mem.blocks));
      && FirstOffset(old(buf.refs), joined) <= MAX_REF_OFFSET
      && area == if buf.mem.oom != old(buf.mem.oom) || count == 0 then INVALID_AREA
                 else MakeArea(FirstIndex(old(buf.refs), joined), FirstOffset(old(buf.refs), joined), count)
    ensures area != INVALID_AREA && |old(buf.refs)| < 0x1_0000_0000 ==>
      AreaSize(area) == U32(count) && PointsAt(buf.refs, AreaIndex(area), AreaOffset(area), |old(buf.Contents())|)
    ensures buf.mem.oom != old(buf.mem.oom) ==> |buf.Contents()| < |old(buf.Contents())| + count
    ensures Isolated(old(buf.mem.blocks), old(buf.mem.held), buf.mem.blocks, buf.mem.held, {buf, tls})
  {
    hide Ok, Isolated, Bytes, IOBuf.Shape, Grown, Sole, CellsOf, PointsAt, MakeArea, AreaIndex, AreaOffset, AreaSize,
      IOBuf.Contents, IOBuf.Valid, IOBuf.With, FirstIndex, FirstOffset, Joins, HasRoom, RoomBytes, U32, Reserving;
    buf.WithParts(tls);
    ghost var s, held, all, refs, ids := buf.mem.blocks, buf.mem.held, buf.Contents(), buf.refs, tls.chain;
    JoinedOffset(buf, tls);
    ReservingNone(buf, tls, count);
    area := INVALID_AREA;
    var total: nat := 0;
    while total < count
      invariant Reserving(buf, tls, count, total, area, refs, ids, s, held, all)
      invariant total <= count && fresh(buf.Ring() - old(buf.Ring())) && buf.mem.oom == old(buf.mem.oom)
    {
      var had := total;
      total, area := ReserveStep(buf, tls, count, total, area, refs, ids, s, held, all);
      if total == had {
        return INVALID_AREA;
      }
      ReservingParts(buf, tls, count, total, area, refs, ids, s, held, all);
    }
    ReservingParts(buf, tls, count, total, area, refs, ids, s, held, all);
    ReservingAll(buf, tls, count, area, refs, ids, s, held, all);
  }

  // make_area for the bytes just pushed.
  method FirstArea(buf: IOBuf, n: nat, count: nat, ghost refs: seq<BlockRef>, ghost joined: bool) returns (area: nat)
    requires buf.Valid() && Pointed(refs, buf.refs, n, joined)
    ensures area == MakeArea(FirstIndex(refs, joined), FirstOffset(refs, joined), count)
    ensures PointsAt(buf.refs, FirstIndex(refs, joined), FirstOffset(refs, joined), SumLengths(refs))
  {
    hide Ok, Bytes, IOBuf.Shape, MakeArea, IOBuf.RefNum, IOBuf.BackRef;
    area := MakeArea(buf.RefNum() - 1, buf.BackRef().length - n, count);
  }

  lemma {:induction false} IndexWithin(refs: seq<BlockRef>, joined: bool)
    ensures FirstIndex(refs, joined) <= |refs|
  {
  }

  lemma {:induction false} AreaParts(index: nat, offset: nat, count: nat)
    requires offset <= MAX_REF_OFFSET
    ensures var area := MakeArea(index, offset, count);
      area != INVALID_AREA && index < 0x1_0000_0000 ==>
        AreaIndex(area) == index && AreaOffset(area) == offset && AreaSize(area) == U32(count)
  {
    hide MakeArea, AreaIndex, AreaOffset, AreaSize;
    assert U32(offset) == offset && (index < 0x1_0000_0000 ==> U32(index) == index);
  }

  lemma {:induction false} PointsLonger(a: seq<BlockRef>, b: seq<BlockRef>, index: nat, offset: nat, p: nat)
    requires Grown(a, b) && PointsAt(a, index, offset, p)
    ensures PointsAt(b, index, offset, p)
  {
    PointsStill(a, b, index, offset, p);
  }

  lemma {:induction false} NoRoomNeeded(buf: IOBuf, count: nat, all: seq<byte>, ids: seq<BlockId>, s: Store)
    requires count == 0 ==> buf.Contents() == all
    ensures count == 0 && HasRoom(ids, s, count) ==> buf.Contents() == all + RoomBytes(ids, s, count)
  {
  }

  // A ref that appending would extend lies in a default block.
  lemma {:induction false} JoinedOffset(buf: IOBuf, tls: ThreadLocal)
    requires buf.With(tls)
    ensures FirstOffset(buf.refs, Joins(buf.refs, tls.chain, buf.mem.blocks)) <= MAX_REF_OFFSET
  {
    hide Ok, Bytes, IOBuf.Shape;
    var s, held, refs := buf.mem.blocks, buf.mem.held, buf.refs;
    if Joins(refs, tls.chain, s) {
      var b := FirstOpen(tls.chain, s);
      HeldOk(s, held, buf);
      assert RefOk(refs[|refs| - 1], s);
      RoomIn(s, held, tls, b);
      assert BlockOk(s[b]);
    }
  }

  lemma {:induction false} KeepsPointing(a: seq<BlockRef>, b: seq<BlockRef>, area: nat, p: nat)
    requires Grown(a, b)
    ensures PointsAt(a, AreaIndex(area), AreaOffset(area), p) ==> PointsAt(b, AreaIndex(area), AreaOffset(area), p)
  {
    if PointsAt(a, AreaIndex(area), AreaOffset(area), p) {
      PointsStill(a, b, AreaIndex(area), AreaOffset(area), p);
    }
  }

  lemma {:induction false} SoleNone(buf: IOBuf)
    requires buf.Valid()
    ensures Sole(buf.mem.held, buf, |buf.Contents()|, 0) && |CellsOf(buf.refs)| == |buf.Contents()|
  {
    hide Ok, Bytes, IOBuf.Shape;
    buf.LengthOk();
  }

  // The first bytes of room set aside are room set aside.
  lemma {:induction false} SolePart(held: Owners, o: object, p: nat, n: nat, m: nat)
    requires Sole(held, o, p, n) && m <= n
    ensures Sole(held, o, p, m)
  {
    hide CellsOf;
    var c := CellsOf(held[o].refs);
    var e, d := c[p..p + n], c[p..p + m];
    assert d <= e;
    PrefixMembers(d, e);
  }

  // ---------- unsafe_assign ----------

  lemma {:induction false} CellsAt(refs: seq<BlockRef>, i: nat, k: nat)
    requires i < |refs| && k < refs[i].length
    ensures SumLengths(refs[..i]) + k < |CellsOf(refs)|
    ensures CellsOf(refs)[SumLengths(refs[..i]) + k] == Cell(refs[i].block, refs[i].offset + k)
  {
    SumSplit(refs, i);
    var x, y := refs[..i], refs[i..];
    assert refs == x + y;
    CellsConcat(x, y);
    assert CellsOf(y) == RefCells(refs[i]) + CellsOf(y[1..]);
    hide CellsOf, SumLengths;
  }

  lemma {:induction false} OnlyThese(refs: seq<BlockRef>, i: nat, offset: nat, n: nat, p: nat, size: nat, q: nat)
    requires i < |refs| && offset + n <= refs[i].length && q == SumLengths(refs[..i]) + offset
    requires p + size <= |CellsOf(refs)| && SoleHere(CellsOf(refs), p, size) && p <= q && q + n <= p + size
    ensures OnlyAt(refs, refs[i].block, refs[i].offset + offset, n, q)
  {
    hide CellsOf, SumLengths;
    var c, b, at := CellsOf(refs), refs[i].block, refs[i].offset + offset;
    forall k | q <= k < q + n ensures c[k] == Cell(b, at + k - q) {
      CellsAt(refs, i, k - q + offset);
    }
    forall k | 0 <= k < q || q + n <= k < |c| ensures !Covers(b, at, n, c[k]) {
      if Covers(b, at, n, c[k]) {
        CoveredIndex(c, b, at, n, q, c[k]);
      }
    }
  }

  lemma {:induction false} CoveredIndex(c: seq<Cell>, b: BlockId, at: nat, n: nat, q: nat, x: Cell)
    requires q + n <= |c| && (forall k :: q <= k < q + n ==> c[k] == Cell(b, at + k - q)) && Covers(b, at, n, x)
    ensures var j := q + x.at - at; q <= j < q + n && c[j] == x
  {
  }

  lemma {:induction false} CoveredIn(c: seq<Cell>, b: BlockId, at: nat, n: nat, q: nat, x: Cell, p: nat, size: nat)
    requires q + n <= |c| && (forall k :: q <= k < q + n ==> c[k] == Cell(b, at + k - q)) && Covers(b, at, n, x)
    requires p <= q && q + n <= p + size <= |c|
    ensures x in c[p..p + size]
  {
    var j := q + x.at - at;
    assert c[p..p + size][j - p] == c[j];
  }

  lemma {:induction false} NotThese(held: Owners, o: object, p: nat, size: nat, b: BlockId, at: nat, n: nat, q: nat, x: object)
    requires Sole(held, o, p, size) && OnlyAt(held[o].refs, b, at, n, q) && p <= q && q + n <= p + size
    requires x in held && x != o && held[x].Queue?
    ensures NoneCovered(held[x].refs, b, at, n)
  {
    hide CellsOf;
    var c := CellsOf(held[o].refs);
    forall y | y in CellsOf(held[x].refs) ensures !Covers(b, at, n, y) {
      if Covers(b, at, n, y) {
        CoveredIn(c, b, at, n, q, y, p, size);
      }
    }
  }

  // Writing cells that only `o` has changes the bytes of `o` and of nobody else.
  lemma {:induction false} PokeSole(s: Store, held: Owners, o: object, p: nat, size: nat, b: BlockId, at: nat, bytes: seq<byte>, q: nat)
    requires Ok(s, held) && Sole(held, o, p, size)
    requires b in s && at + |bytes| <= s[b].size && p <= q && q + |bytes| <= p + size
    requires OnlyAt(held[o].refs, b, at, |bytes|, q)
    ensures at + |bytes| <= |s[b].data|
    ensures var t := Poke(s, b, at, bytes);
      && Ok(t, held) && Isolated(s, held, t, held, {o})
      && q + |bytes| <= |Bytes(held[o].refs, s)|
      && Bytes(held[o].refs, t) == Overwrite(Bytes(held[o].refs, s), q, bytes)
  {
    hide Bytes, CellsOf, OnlyAt;
    PokeKeepsOk(s, held, b, at, bytes);
    var t := Poke(s, b, at, bytes);
    HeldOk(s, held, o);
    PokeHere(held[o].refs, s, b, at, bytes, q);
    forall x | x in held && x != o ensures SameSight(held[x], s, t) {
      if held[x].Queue? {
        HeldOk(s, held, x);
        NotThese(held, o, p, size, b, at, |bytes|, q, x);
        PokeElsewhere(held[x].refs, s, b, at, bytes);
      }
    }
    hide Ok, Sole;
  }

  lemma OverwriteJoin(all: seq<byte>, p: nat, data: seq<byte>, done: nat, n: nat)
    requires p + |data| <= |all| && done + n <= |data|
    ensures Overwrite(Overwrite(all, p, data[..done]), p + done, data[done..done + n]) == Overwrite(all, p, data[..done + n])
  {
    assert data[..done] + data[done..done + n] == data[..done + n];
  }

  // One ref's share of the area is written.
  method AssignRound(buf: IOBuf, i: nat, offset: nat, piece: seq<byte>, ghost p: nat, ghost size: nat, ghost q: nat)
    requires buf.Valid() && Sole(buf.mem.held, buf, p, size)
    requires i < |buf.refs| && offset + |piece| <= buf.refs[i].length && q == SumLengths(buf.refs[..i]) + offset
    requires p <= q && q + |piece| <= p + size
    modifies buf.mem`blocks
    ensures buf.Valid() && buf.mem.held == old(buf.mem.held)
    ensures q + |piece| <= |old(buf.Contents())| && buf.Contents() == Overwrite(old(buf.Contents()), q, piece)
    ensures Isolated(old(buf.mem.blocks), buf.mem.held, buf.mem.blocks, buf.mem.held, {buf})
  {
    hide Ok, Isolated, Bytes, IOBuf.Shape, CellsOf, OnlyAt, SumLengths, SoleElsewhere, IOBuf.RefAt;
    ghost var s, held := buf.mem.blocks, buf.mem.held;
    HeldRefOk(s, held, buf, i);
    OnlyThese(buf.refs, i, offset, |piece|, p, size, q);
    var r := buf.RefAt(i);
    PokeSole(s, held, buf, p, size, r.block, r.offset + offset, piece, q);
    buf.mem.Write(r.block, r.offset + offset, piece);
    buf.StillValid();
  }

  // The data replaces exactly the bytes of the area.
  method UnsafeAssign(buf: IOBuf, area: nat, data: seq<byte>, ghost p: nat) returns (rc: int)
    requires buf.Valid()
    requires area != INVALID_AREA ==>
      && |data| == AreaSize(area) && Sole(buf.mem.held, buf, p, |data|)
      && PointsAt(buf.refs, AreaIndex(area), AreaOffset(area), p)
    modifies buf.mem`blocks
    ensures buf.Valid() && buf.mem.held == old(buf.mem.held)
    ensures rc == if area == INVALID_AREA then -1 else 0
    ensures rc == -1 ==> buf.mem.blocks == old(buf.mem.blocks)
    ensures rc == 0 ==> p + |data| <= |old(buf.Contents())| && buf.Contents() == Overwrite(old(buf.Contents()), p, data)
    ensures Isolated(old(buf.mem.blocks), buf.mem.held, buf.mem.blocks, buf.mem.held, {buf})
  {
    hide Ok, Isolated, Bytes, IOBuf.Shape, CellsOf, AreaIndex, AreaOffset, AreaSize, Overwrite, IOBuf.RefAt, IOBuf.RefNum;
    ghost var s, held, all := buf.mem.blocks, buf.mem.held, buf.Contents();
    IsolatedRefl(s, held, {buf});
    if area == INVALID_AREA {
      return -1;
    }
    SoleFits(buf, p, |data|);
    OverwriteNone(all, p, data);
    var i: nat, offset: nat := AreaIndex(area), AreaOffset(area);
    var done: nat := 0;
    while i < buf.RefNum()
      invariant buf.Valid() && buf.mem.held == held && buf.refs == old(buf.refs)
      invariant done <= |data| && i <= |buf.refs| && (done < |data| || i < |buf.refs|)
      invariant if i < |buf.refs| then offset < buf.refs[i].length else offset == 0
      invariant SumLengths(buf.refs[..i]) + offset == p + done
      invariant buf.Contents() == Overwrite(all, p, data[..done])
      invariant Isolated(s, held, buf.mem.blocks, held, {buf})
      decreases |buf.refs| - i
    {
      ghost var t := buf.mem.blocks;
      var nc := Min(|data| - done, buf.RefAt(i).length - offset);
      AssignRound(buf, i, offset, data[done..done + nc], p, |data|, p + done);
      IsolatedTrans(s, held, t, held, buf.mem.blocks, held, {buf});
      OverwriteJoin(all, p, data, done, nc);
      if |data| - done == nc {
        assert data[..done + nc] == data;
        return 0;
      }
      SumSplit(buf.refs, i);
      HeldOk(buf.mem.blocks, held, buf);
      i, offset, done := i + 1, 0, done + nc;
    }
    OverLong(buf, p, done, |data|);
    assert false;
  }

  lemma OverwriteNone(all: seq<byte>, p: nat, data: seq<byte>)
    requires p <= |all|
    ensures Overwrite(all, p, data[..0]) == all
  {
  }

  lemma {:induction false} SoleFits(buf: IOBuf, p: nat, n: nat)
    requires buf.Valid() && Sole(buf.mem.held, buf, p, n)
    ensures p + n <= |buf.Contents()|
  {
    hide Ok, Bytes, IOBuf.Shape, SoleHere, SoleElsewhere;
    buf.LengthOk();
  }

  // The area cannot reach past the last ref.
  lemma {:induction false} OverLong(buf: IOBuf, p: nat, done: nat, n: nat)
    requires buf.Valid() && Sole(buf.mem.held, buf, p, n)
    ensures SumLengths(buf.refs[..|buf.refs|]) >= p + n
  {
    hide Ok, Bytes, IOBuf.Shape, SoleHere, SoleElsewhere;
    assert buf.refs[..|buf.refs|] == buf.refs;
  }
}
