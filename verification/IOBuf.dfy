/** IOBuf: a byte buffer kept as a queue of refs into shared blocks. Up to two refs
    are inline; from three on they live in a ring array that doubles when full. */
module IOBufs {
  import opened Blocks
  import opened Ownership
  import opened BlockMemory
  import opened Cells
  import opened Chains
  import opened ThreadBlocks
  import opened Rings

  // The union of SmallView and BigView.
  datatype View =
    | Small(r0: BlockRef, r1: BlockRef)
    | Big(start: nat, refs: array<BlockRef>, nref: nat, capMask: nat, nbytes: nat)

  // The field that _small() looks at: the ring's mark, which overlays the offset of the
  // first inline ref, a number of 32 bits.
  function Magic(v: View): int {
    if v.Big? then -1 else
      var offset := v.r0.offset % 0x1_0000_0000;
      if offset < 0x8000_0000 then offset else offset - 0x1_0000_0000
  }

  // length() as it is computed. Two inline lengths are added in 32 bits; the ring's count
  // overlays the block pointer of the second inline ref.
  function LengthOf(v: View): nat {
    match v
    case Small(r0, r1) => if Magic(v) >= 0 then (r0.length + r1.length) % 0x1_0000_0000 else r1.block
    case Big(_, _, _, _, nbytes) => nbytes
  }

  // The offset of the first inline ref is not taken for the mark of a ring.
  predicate TellsApart(refs: seq<BlockRef>) {
    0 < |refs| <= 2 ==> refs[0].offset % 0x1_0000_0000 < 0x8000_0000
  }

  function SecondBlock(refs: seq<BlockRef>): BlockId {
    if |refs| == 2 then refs[1].block else NULL
  }

  // For up to two refs: their bytes are counted rightly in 32 bits or, should they be taken
  // for a ring, by chance.
  predicate LengthFits(refs: seq<BlockRef>) {
    |refs| <= 2 ==>
      if TellsApart(refs) then SumLengths(refs) < 0x1_0000_0000 else SecondBlock(refs) == SumLengths(refs)
  }

  lemma {:induction false} TellsOk(refs: seq<BlockRef>, s: Store)
    requires BlocksOk(s) && RefsOk(refs, s)
    ensures TellsApart(refs)
  {
    if refs != [] {
      assert RefOk(refs[0], s);
      assert BlockOk(s[refs[0].block]);
    }
  }

  function Unroll(cells: seq<BlockRef>, start: nat, nref: nat): (refs: seq<BlockRef>)
    requires start < |cells| && nref <= |cells|
    ensures |refs| == nref
    ensures forall i :: 0 <= i < nref ==> refs[i] == cells[Wrap(start + i, |cells| - 1)]
  {
    seq(nref, i requires 0 <= i < nref => cells[Wrap(start + i, |cells| - 1)])
  }

  lemma {:induction false} UnrollFromStart(cells: seq<BlockRef>, refs: seq<BlockRef>)
    requires 0 < |cells| && refs <= cells
    ensures Unroll(cells, 0, |refs|) == refs
  {
    forall i | 0 <= i < |refs| ensures Unroll(cells, 0, |refs|)[i] == refs[i] {
      assert Wrap(i, |cells| - 1) == i;
    }
  }

  // The ring with one slot overwritten.
  lemma {:induction false} UnrollSet(cells: seq<BlockRef>, start: nat, nref: nat, i: nat, r: BlockRef)
    requires start < |cells| && i < nref <= |cells|
    ensures Unroll(cells[Wrap(start + i, |cells| - 1) := r], start, nref) == Unroll(cells, start, nref)[i := r]
  {
  }

  lemma {:induction false} UnrollPush(cells: seq<BlockRef>, start: nat, nref: nat, r: BlockRef)
    requires start < |cells| && nref < |cells|
    ensures Unroll(cells[Wrap(start + nref, |cells| - 1) := r], start, nref + 1) == Unroll(cells, start, nref) + [r]
  {
  }

  lemma {:induction false} UnrollDropFront(cells: seq<BlockRef>, start: nat, nref: nat)
    requires start < |cells| && 0 < nref <= |cells|
    ensures Unroll(cells, Wrap(start + 1, |cells| - 1), nref - 1) == Unroll(cells, start, nref)[1..]
  {
  }

  lemma {:induction false} UnrollDropBack(cells: seq<BlockRef>, start: nat, nref: nat)
    requires start < |cells| && 0 < nref <= |cells|
    ensures Unroll(cells, start, nref - 1) == Unroll(cells, start, nref)[..nref - 1]
  {
  }

  predicate NoNulls(refs: seq<BlockRef>) {
    forall i :: 0 <= i < |refs| ==> refs[i].block != NULL
  }

  lemma {:induction false} SumSet(refs: seq<BlockRef>, i: nat, r: BlockRef)
    requires i < |refs|
    ensures SumLengths(refs[i := r]) + refs[i].length == SumLengths(refs) + r.length
  {
    if i == 0 {
      assert refs[i := r][1..] == refs[1..];
    } else {
      SumSet(refs[1..], i - 1, r);
      assert refs[i := r][1..] == refs[1..][i - 1 := r];
    }
  }

  lemma {:induction false} SumSnoc(refs: seq<BlockRef>, r: BlockRef)
    ensures SumLengths(refs + [r]) == SumLengths(refs) + r.length
  {
    SumConcat(refs, [r]);
    assert SumLengths([r]) == r.length + SumLengths([]);
  }

  function InlineRefs(r0: BlockRef, r1: BlockRef): seq<BlockRef> {
    if r0.block == NULL then [] else if r1.block == NULL then [r0] else [r0, r1]
  }

  lemma {:induction false} SumOfThree(a: BlockRef, b: BlockRef, c: BlockRef)
    ensures SumLengths([a, b, c]) == a.length + b.length + c.length
  {
    assert [a, b, c][1..] == [b, c] && [b, c][1..] == [c];
    assert SumLengths([c]) == c.length;
  }

  // The byte count of up to two refs.
  lemma {:induction false} SumInline(refs: seq<BlockRef>)
    ensures refs == [] ==> SumLengths(refs) == 0
    ensures |refs| == 1 ==> SumLengths(refs) == refs[0].length
    ensures |refs| == 2 ==> SumLengths(refs) == refs[0].length + refs[1].length
  {
    if |refs| == 2 {
      assert refs[1..] == [refs[1]];
      assert SumLengths([refs[1]]) == refs[1].length;
    }
  }

  lemma {:induction false} SumPush(refs: seq<BlockRef>, r: BlockRef)
    ensures SumLengths(PushRef(refs, r)) == SumLengths(refs) + r.length
  {
    if Merges(refs, r) {
      var k := |refs| - 1;
      SumSet(refs, k, refs[k].(length := refs[k].length + r.length));
    } else {
      SumSnoc(refs, r);
    }
  }

  lemma {:induction false} InlineLength(r0: BlockRef, r1: BlockRef, s: Store)
    requires BlocksOk(s) && RefsOk(InlineRefs(r0, r1), s)
    requires r0.block == NULL ==> r0.length == 0 && r1.block == NULL
    requires r1.block == NULL ==> r1.length == 0
    ensures (r0.length + r1.length) % 0x1_0000_0000 == SumLengths(InlineRefs(r0, r1))
  {
    var refs := InlineRefs(r0, r1);
    if |refs| > 0 {
      assert RefOk(refs[0], s);
    }
    if |refs| > 1 {
      assert RefOk(refs[1], s);
      assert refs[1..] == [r1];
      assert SumLengths([r1]) == r1.length;
    }
  }

  // The byte count taken when a third ref moves the queue to a ring: three 32-bit numbers
  // are added before the sum is widened.
  function SwitchCount(a: nat, b: nat, c: nat): nat {
    (a + b + c) % 0x1_0000_0000
  }

  // The sum does not wrap, should this ref be the third.
  predicate SwitchFits(refs: seq<BlockRef>, r: BlockRef) {
    |refs| == 2 && !Merges(refs, r) ==> refs[0].length + refs[1].length + r.length < 0x1_0000_0000
  }

  lemma {:induction false} ThreeFit(refs: seq<BlockRef>, r: BlockRef, s: Store)
    requires BlocksOk(s) && RefsOk(refs, s) && RefOk(r, s)
    ensures SwitchFits(refs, r)
  {
    if |refs| == 2 {
      assert RefOk(refs[0], s) && RefOk(refs[1], s);
      assert BlockOk(s[refs[0].block]) && BlockOk(s[refs[1].block]) && BlockOk(s[r.block]);
    }
  }

  lemma {:induction false} TellsPushed(refs: seq<BlockRef>, r: BlockRef, s: Store)
    requires BlocksOk(s) && RefsOk(refs, s) && RefOk(r, s)
    ensures TellsApart(PushRef(refs, r))
  {
    assert BlockOk(s[r.block]);
    if refs != [] {
      assert RefOk(refs[0], s);
      assert BlockOk(s[refs[0].block]);
    }
  }

  lemma {:induction false} TellsBehind(refs: seq<BlockRef>, s: Store)
    requires BlocksOk(s) && RefsOk(refs, s) && refs != []
    ensures TellsApart(refs[1..])
  {
    if |refs| > 1 {
      assert RefOk(refs[1], s);
      assert BlockOk(s[refs[1].block]);
    }
  }

  lemma {:induction false} RoomTells(refs: seq<BlockRef>, s: Store, b: BlockId, n: nat)
    requires BlocksOk(s) && RefsOk(refs, s) && b in s && s[b].size + n <= s[b].cap
    ensures TellsApart(PushRef(refs, BlockRef(s[b].size, n, b)))
  {
    assert BlockOk(s[b]);
    if refs != [] {
      assert RefOk(refs[0], s);
      assert BlockOk(s[refs[0].block]);
    }
  }

  lemma {:induction false} RoomOf(s: Store, b: BlockId)
    requires BlocksOk(s) && b in s
    ensures s[b].cap == |s[b].data|
  {
    assert BlockOk(s[b]);
  }

  lemma {:induction false} RoomFits(refs: seq<BlockRef>, s: Store, b: BlockId, n: nat)
    requires BlocksOk(s) && RefsOk(refs, s) && b in s && s[b].size + n <= s[b].cap
    ensures SwitchFits(refs, BlockRef(s[b].size, n, b))
  {
    if |refs| == 2 {
      assert RefOk(refs[0], s) && RefOk(refs[1], s);
      assert BlockOk(s[refs[0].block]) && BlockOk(s[refs[1].block]) && BlockOk(s[b]);
    }
  }

  lemma {:induction false} WithinOk(r: BlockRef, q: BlockRef, s: Store)
    requires RefOk(q, s) && Within(r, q)
    ensures RefOk(r, s) && r.block in s
  {
  }

  // The first `n` bytes of a ref, which are the first of the queue it heads.
  lemma {:induction false} ShortRef(r: BlockRef, n: nat, s: Store)
    requires BlocksOk(s) && RefOk(r, s) && 0 < n <= r.length
    ensures RefOk(r.(length := n), s) && n <= |Slice(r, s)| && Slice(r.(length := n), s) == Slice(r, s)[..n]
  {
    SliceTrims(r, n, s);
  }

  lemma {:induction false} SameQueue(h: Holding, s: Store, t: Store)
    requires SameSight(h, s, t)
    ensures h.Queue? ==> Bytes(h.refs, t) == Bytes(h.refs, s)
  {
  }

  lemma {:induction false} RefLives(r: BlockRef, s: Store)
    requires RefOk(r, s)
    ensures r.block in s
  {
  }

  // The store after a ref was pushed, sharing the block or moving one share in.
  function Pushed(s: Store, refs: seq<BlockRef>, r: BlockRef, move: bool): Store
    requires r.block in s
  {
    if Merges(refs, r) then (if move then Dec(s, r.block) else s)
    else (if move then s else Inc(s, r.block))
  }

  lemma {:induction false} PushedMoved(s: Store, refs: seq<BlockRef>, r: BlockRef)
    requires r.block in s
    ensures Pushed(s, refs, r, true) == if Merges(refs, r) then Dec(s, r.block) else s
  {
  }

  lemma {:induction false} PushedShared(s: Store, refs: seq<BlockRef>, r: BlockRef)
    requires r.block in s
    ensures Pushed(s, refs, r, false) == PushStore(s, refs, r)
  {
  }

  lemma {:induction false} WrittenThenSized(s: Store, refs: seq<BlockRef>, b: BlockId, bytes: seq<byte>)
    requires b in s && s[b].size + |bytes| <= |s[b].data|
    ensures var r := BlockRef(s[b].size, |bytes|, b);
      var t := Pushed(s[b := s[b].(data := Overwrite(s[b].data, s[b].size, bytes))], refs, r, false);
      b in t && t[b := t[b].(size := s[b].size + |bytes|)] == PushStore(Fill(s, b, bytes), refs, r)
  {
  }

  lemma DropDrop(all: seq<byte>, i: nat, j: nat)
    requires i + j <= |all|
    ensures all[i..][j..] == all[i + j..]
  {
  }

  lemma CutJoin<T>(all: seq<T>, out: seq<T>, i: nat, j: nat)
    requires i + j <= |all|
    ensures all[i..][j..] == all[i + j..]
    ensures (out + all[..i]) + all[i..][..j] == out + all[..i + j]
  {
    assert all[..i] + all[i..][..j] == all[..i + j];
  }

  lemma AppendJoin(data: seq<byte>, all: seq<byte>, i: nat, n: nat)
    requires i <= |data| && n <= |data[i..]|
    ensures (all + data[..i]) + data[i..][..n] == all + data[..i + n]
  {
    assert data[..i] + data[i..][..n] == data[..i + n];
    Assoc(all, data[..i], data[i..][..n]);
  }

  // The first `k` bytes of `c` have moved behind `o`.
  ghost predicate CutBy<T>(c: seq<T>, o: seq<T>, c': seq<T>, o': seq<T>, k: nat) {
    k <= |c| && c' == c[k..] && o' == o + c[..k]
  }

  lemma IsCutBy<T>(c: seq<T>, o: seq<T>, c': seq<T>, o': seq<T>, k: nat)
    requires k <= |c| && c' == c[k..] && o' == o + c[..k]
    ensures CutBy(c, o, c', o', k)
  {
  }

  lemma CutByNone<T>(c: seq<T>, o: seq<T>)
    ensures CutBy(c, o, c, o, 0)
  {
  }

  lemma CutByTrans<T>(c: seq<T>, o: seq<T>, c1: seq<T>, o1: seq<T>, c2: seq<T>, o2: seq<T>, j: nat, k: nat)
    requires CutBy(c, o, c1, o1, j) && CutBy(c1, o1, c2, o2, k)
    ensures CutBy(c, o, c2, o2, j + k) && |c1| == |c| - j && |c2| == |c| - j - k
  {
    CutJoin(c, o, j, k);
  }

  // The cells of the front ref, or of its first bytes, go over with it.
  lemma {:induction false} CellsMoved(refs: seq<BlockRef>, out: seq<BlockRef>)
    requires refs != []
    ensures CutBy(CellsOf(refs), CellsOf(out), CellsOf(refs[1..]), CellsOf(PushRef(out, refs[0])), refs[0].length)
  {
    hide PushRef;
    CellsPush(out, refs[0]);
    assert CellsOf(refs) == RefCells(refs[0]) + CellsOf(refs[1..]);
  }

  lemma {:induction false} FrontCells(refs: seq<BlockRef>)
    requires refs != []
    ensures CellsOf(refs) == RefCells(refs[0]) + CellsOf(refs[1..])
  {
  }

  lemma {:induction false} PartedCells(r: BlockRef, n: nat)
    requires n < r.length
    ensures RefCells(r) == RefCells(r.(length := n)) + RefCells(TrimFront(r, n))
  {
  }

  lemma {:induction false} CellsParted(refs: seq<BlockRef>, out: seq<BlockRef>, n: nat)
    requires refs != [] && n < refs[0].length
    ensures CutBy(CellsOf(refs), CellsOf(out), CellsOf(refs[0 := TrimFront(refs[0], n)]),
                  CellsOf(PushRef(out, refs[0].(length := n))), n)
  {
    hide PushRef, CellsOf, RefCells;
    var r, rest := refs[0], refs[0 := TrimFront(refs[0], n)];
    CellsPush(out, r.(length := n));
    assert rest[1..] == refs[1..];
    PartedCells(r, n);
    FrontCells(refs);
    FrontCells(rest);
  }

  // Bytes appended next will extend the last ref.
  predicate Joins(refs: seq<BlockRef>, ids: seq<BlockId>, s: Store) {
    var b := FirstOpen(ids, s);
    b != NULL && Merges(refs, BlockRef(s[b].size, 1, b))
  }

  lemma {:induction false} JoinsExactly(refs: seq<BlockRef>, ids: seq<BlockId>, s: Store, b: BlockId, t: Store, n: nat)
    requires RefsOk(refs, t) && b in t
    requires var open := FirstOpen(ids, s);
      if open != NULL then b == open && t[b].size == s[b].size else t[b].size == 0
    ensures Merges(refs, BlockRef(t[b].size, n, b)) <==> Joins(refs, ids, s)
  {
    if refs != [] {
      assert RefOk(refs[|refs| - 1], t);
    }
  }

  lemma {:induction false} JoinsOpen(refs: seq<BlockRef>, ids: seq<BlockId>, s: Store)
    ensures Joins(refs, ids, s) ==> FirstOpen(ids, s) != NULL
  {
  }

  lemma {:induction false} MergesAny(refs: seq<BlockRef>, r: BlockRef, n: nat)
    ensures Merges(refs, r.(length := n)) <==> Merges(refs, r)
  {
  }

  // How much the block that will be appended to can take.
  function OpenRoom(ids: seq<BlockId>, s: Store): nat {
    var b := FirstOpen(ids, s);
    if b != NULL then s[b].cap - s[b].size else 0
  }

  lemma {:induction false} OpenRoomIs(ids: seq<BlockId>, s: Store)
    ensures var b := FirstOpen(ids, s); b != NULL ==> b in s && OpenRoom(ids, s) == s[b].cap - s[b].size
  {
  }

  lemma {:induction false} SameRoomIs(s: Store, ids: seq<BlockId>, t: Store, b: BlockId)
    requires b in t && b in s && SameRoom(s[b], t[b])
    ensures t[b].size == s[b].size && t[b].cap == s[b].cap
  {
  }

  lemma {:induction false} RoomLeft(s: Store, b: BlockId)
    requires b in s && !s[b].Full()
    ensures s[b].size < s[b].cap
  {
  }

  lemma MinIs(a: nat, b: nat)
    ensures Min(a, b) == if a < b then a else b
  {
  }

  // Refs have been added to `a`, the first of them making its last ref `n` bytes longer or not.
  ghost predicate Settled(a: seq<BlockRef>, b: seq<BlockRef>, joined: bool, n: nat) {
    && Extends(a, b)
    && if joined then a != [] && b[|a| - 1].length == a[|a| - 1].length + n
       else |a| < |b| && (a != [] ==> a[|a| - 1] == b[|a| - 1])
  }

  lemma {:induction false} SettledPush(refs: seq<BlockRef>, r: BlockRef)
    ensures Settled(refs, PushRef(refs, r), Merges(refs, r), r.length)
  {
    ExtendsPush(refs, r);
  }

  lemma {:induction false} SettledMore(a: seq<BlockRef>, b: seq<BlockRef>, c: seq<BlockRef>, joined: bool, n: nat, m: nat)
    requires Settled(a, b, joined, n) && (b == c || Settled(b, c, false, m))
    ensures Settled(a, c, joined, n)
  {
    if b != c {
      ExtendsTrans(a, b, c);
      assert a != [] && |a| < |b| ==> c[|a| - 1] == b[|a| - 1];
    }
  }

  lemma {:induction false} SettledFirst(a: seq<BlockRef>, b: seq<BlockRef>, joined: bool, n: nat, first: nat)
    requires n != 0 ==> Settled(a, b, joined, n) && (joined ==> n == first)
    ensures n != 0 ==> Settled(a, b, joined, first)
  {
  }

  // The last ref is into a block without room, so that nothing will extend it.
  predicate LastFull(refs: seq<BlockRef>, s: Store) {
    refs != [] && var b := refs[|refs| - 1].block; b in s && s[b].Full()
  }

  lemma {:induction false} FullNeverJoins(refs: seq<BlockRef>, ids: seq<BlockId>, s: Store)
    requires LastFull(refs, s)
    ensures !Joins(refs, ids, s)
  {
  }

  lemma {:induction false} FilledUp(refs: seq<BlockRef>, r: BlockRef, s: Store, t: Store, bytes: seq<byte>)
    requires Filled(s, t, r.block, bytes) && |bytes| == s[r.block].cap - s[r.block].size
    ensures LastFull(PushRef(refs, r), t)
  {
  }

  function Min(a: nat, b: nat): nat {
    if a < b then a else b
  }

  class IOBuf {
    const mem: Memory
    var view: View

    // The queue of refs the view stands for.
    ghost var refs: seq<BlockRef>

    ghost function Ring(): set<object>
      reads this
    {
      if view.Big? then {view.refs} else {}
    }

    ghost function RingObject(): object?
      reads this
    {
      if view.Big? then view.refs else null
    }

    ghost predicate RingLayout()
      reads this, Ring()
      requires view.Big?
    {
      && 3 <= view.nref <= view.refs.Length == view.capMask + 1
      && PowerOfTwo(view.capMask + 1)
      && view.start < view.refs.Length
      && refs == Unroll(view.refs[..], view.start, view.nref)
      && NoNulls(refs)
    }

    // The ring's own count of its bytes is right.
    ghost predicate Counted()
      reads this
    {
      view.Big? ==> view.nbytes == SumLengths(refs)
    }

    ghost predicate InlineShape()
      reads this
      requires view.Small?
    {
      && (view.r0.block == NULL ==> view.r0 == NULL_REF && view.r1.block == NULL)
      && (view.r1.block == NULL ==> view.r1 == NULL_REF)
      && refs == InlineRefs(view.r0, view.r1)
    }

    // The view stands for the queue, whatever the ring's byte count says.
    ghost predicate Stands()
      reads this, Ring()
    {
      if view.Small? then InlineShape() else RingLayout()
    }

    // And _small() knows which view it is.
    ghost predicate Layout()
      reads this, Ring()
    {
      Stands() && TellsApart(refs)
    }

    ghost predicate Shape()
      reads this, Ring()
    {
      Layout() && Counted()
    }

    ghost predicate Valid()
      reads this, Ring(), mem
    {
      && mem.Valid()
      && Shape()
      && this in mem.held
      && mem.held[this] == Queue(refs, RingObject())
    }

    // The bytes in the buffer.
    ghost function Contents(): seq<byte>
      reads this, mem
    {
      Bytes(refs, mem.blocks)
    }

    // _small().
    predicate IsSmall()
      reads this
    {
      Magic(view) >= 0
    }

    // length(), right or wrong.
    function RawLength(): nat
      reads this
    {
      LengthOf(view)
    }

    // _small() tells the two views apart exactly while the first inline offset is below 2^31.
    lemma {:induction false} SmallTells()
      requires Stands()
      ensures (IsSmall() <==> view.Small?) <==> TellsApart(refs)
      ensures view.Small? <==> |refs| <= 2
    {
      hide PowerOfTwo, Unroll, NoNulls, SumLengths;
    }

    // When length() is right.
    lemma {:induction false} LengthExactly()
      requires Stands()
      ensures RawLength() == SumLengths(refs) <==> Counted() && LengthFits(refs)
      ensures view.Small? && TellsApart(refs) ==> RawLength() == SumLengths(refs) % 0x1_0000_0000
      ensures view.Small? && !TellsApart(refs) ==> RawLength() == SecondBlock(refs)
    {
      hide PowerOfTwo, Unroll, NoNulls, SumLengths;
      SmallTells();
      SumInline(refs);
    }

    // What validity is made of.
    lemma Parts()
      requires Valid()
      ensures mem.Valid() && Ok(mem.blocks, mem.held) && mem.Tallied() && NULL !in mem.blocks
      ensures Shape() && Layout() && Stands() && Counted() && TellsApart(refs)
      ensures this in mem.held && mem.held[this] == Queue(refs, RingObject()) && Contents() == Bytes(refs, mem.blocks)
    {
    }

    lemma Assembled()
      requires Ok(mem.blocks, mem.held) && mem.Tallied() && Stands() && Counted()
      requires this in mem.held && mem.held[this] == Queue(refs, RingObject())
      ensures Valid() && mem.Valid() && Shape() && Contents() == Bytes(refs, mem.blocks)
    {
      hide Ok, Bytes, Stands, TellsApart;
      HeldOk(mem.blocks, mem.held, this);
      TellsOk(refs, mem.blocks);
    }

    // The ring is the one this buffer had, or a new one.
    twostate lemma RingStillFree()
      requires old(Valid()) && fresh(Ring() - old(Ring()))
      ensures RingFree(old(mem.held), this, RingObject()) && mem !in Ring()
    {
      hide Ok, Bytes, Stands, TellsApart;
      HeldOk(old(mem.blocks), old(mem.held), this);
    }

    lemma ShapeParts()
      requires Shape()
      ensures Layout() && Stands() && Counted() && TellsApart(refs)
    {
    }

    lemma MakeShape()
      requires Stands() && Counted() && TellsApart(refs)
      ensures Shape() && Layout()
    {
    }

    lemma NotMember(o: IOBuf)
      ensures o !in Ring()
    {
    }

    lemma NotInRing()
      ensures mem !in Ring() && (RingObject() != null ==> RingObject() in Ring()) && (view.Big? ==> view.refs in Ring())
    {
    }

    twostate lemma StandsStill()
      requires old(Stands()) && unchanged(this) && (view.Big? ==> unchanged(view.refs))
      ensures Stands()
    {
      hide PowerOfTwo, Unroll, NoNulls, SumLengths;
    }

    // Steps of others leave this buffer valid.
    twostate lemma StillValid()
      requires old(Valid()) && mem.Valid() && unchanged(this) && (view.Big? ==> unchanged(view.refs))
      requires this in mem.held && mem.held[this] == old(mem.held)[this]
      ensures Valid()
    {
      hide Ok, PowerOfTwo, Unroll, NoNulls, SumLengths;
    }

    constructor (mem: Memory)
      requires mem.Valid()
      modifies mem`held
      ensures this.mem == mem
      ensures Valid() && Contents() == []
      ensures mem.held == old(mem.held)[this := Queue([], null)]
      ensures Isolated(old(mem.blocks), old(mem.held), mem.blocks, mem.held, {})
    {
      this.mem := mem;
      view := Small(NULL_REF, NULL_REF);
      refs := [];
      new;
      hide *;
      Join();
      Fresh();
    }

    lemma Fresh()
      requires mem.Valid() && view == Small(NULL_REF, NULL_REF) && refs == []
      requires this in mem.held && mem.held[this] == Queue([], null)
      ensures Valid() && Contents() == []
    {
      hide Ok;
    }

    ghost method Join()
      requires mem.Valid() && this !in mem.held
      modifies mem`held
      ensures mem.Valid() && mem.held == old(mem.held)[this := Queue([], null)]
      ensures Isolated(old(mem.blocks), old(mem.held), mem.blocks, mem.held, {})
    {
      JoinOk(mem.blocks, mem.held, this, Queue([], null));
      mem.held := mem.held[this := Queue([], null)];
    }

    // ---------- Pushing refs ----------

    method PushOrMoveBackRefToSmallView(r: BlockRef, move: bool)
      requires Stands() && view.Small?
      requires mem.Tallied() && NULL !in mem.blocks && r.block in mem.blocks
      modifies this, mem`blocks, mem`nblock
      ensures Stands() && refs == PushRef(old(refs), r)
      ensures view.Big? ==> view.nbytes == SumLengths(refs) % 0x1_0000_0000
      ensures Counted() <==> SwitchFits(old(refs), r)
      ensures mem.Tallied() && mem.blocks == Pushed(old(mem.blocks), old(refs), r, move)
      ensures fresh(Ring())
    {
      hide PowerOfTwo, Unroll, SumLengths, TellsApart;
      refs := PushRef(refs, r);
      var r0, r1 := view.r0, view.r1;
      if r0.block == NULL {
        view := Small(r, r1);
        if !move { mem.IncRef(r.block); }
        return;
      }
      if r1.block == NULL {
        if r0.block == r.block && r0.offset + r0.length == r.offset {
          view := Small(r0.(length := r0.length + r.length), r1);
          if move { mem.DecRef(r.block); }
          return;
        }
        view := Small(r0, r);
        if !move { mem.IncRef(r.block); }
        return;
      }
      if r1.block == r.block && r1.offset + r1.length == r.offset {
        view := Small(r0, r1.(length := r1.length + r.length));
        if move { mem.DecRef(r.block); }
        return;
      }
      ConvertToBigView(r);
      if !move { mem.IncRef(r.block); }
    }

    method ConvertToBigView(r: BlockRef)
      requires view.Small? && view.r0.block != NULL && view.r1.block != NULL && r.block != NULL
      requires refs == [view.r0, view.r1, r]
      modifies this`view
      ensures Stands() && view.Big? && fresh(view.refs)
      ensures view.nbytes == SumLengths(refs) % 0x1_0000_0000
      ensures Counted() <==> refs[0].length + refs[1].length + refs[2].length < 0x1_0000_0000
    {
      var r0, r1 := view.r0, view.r1;
      var newRefs := new BlockRef[INITIAL_CAP](_ => NULL_REF);
      newRefs[0], newRefs[1], newRefs[2] := r0, r1, r;
      assert [r0, r1, r] <= newRefs[..];
      UnrollFromStart(newRefs[..], [r0, r1, r]);
      SumOfThree(r0, r1, r);
      InitialCap();
      view := Big(0, newRefs, 3, INITIAL_CAP - 1, SwitchCount(r0.length, r1.length, r.length));
    }

    // Writing through a BlockRef& of the queue, with the byte count kept in step.
    method ReplaceRingRef(i: nat, r: BlockRef)
      requires Stands() && view.Big? && i < |refs| && r.block != NULL && refs[i].length <= view.nbytes + r.length
      modifies this, view.refs
      ensures Stands() && RingObject() == old(RingObject()) && Ring() == old(Ring())
      ensures refs == old(refs)[i := r] && view.nbytes == old(view.nbytes) + r.length - old(refs)[i].length
    {
      ghost var cells := view.refs[..];
      var k := Wrap(view.start + i, view.capMask);
      view := view.(nbytes := view.nbytes + r.length - view.refs[k].length);
      view.refs[k] := r;
      assert view.refs[..] == cells[k := r];
      UnrollSet(cells, view.start, view.nref, i, r);
      refs := refs[i := r];
    }

    method ReplaceRef(i: nat, r: BlockRef)
      requires Shape() && i < |refs| && r.block != NULL
      modifies this, Ring()
      ensures Stands() && Counted() && RingObject() == old(RingObject()) && Ring() == old(Ring())
      ensures refs == old(refs)[i := r]
    {
      hide PowerOfTwo, SumLengths;
      SmallTells();
      if IsSmall() {
        view := if i == 0 then Small(r, view.r1) else Small(view.r0, r);
        refs := refs[i := r];
      } else {
        SumSet(refs, i, r);
        SumSplit(refs, i);
        ReplaceRingRef(i, r);
      }
    }

    method AppendInPlace(r: BlockRef)
      requires Stands() && view.Big? && view.nref <= view.capMask && r.block != NULL
      modifies this, view.refs
      ensures Stands() && RingObject() == old(RingObject()) && Ring() == old(Ring())
      ensures refs == old(refs) + [r] && view.nbytes == old(view.nbytes) + r.length
    {
      ghost var cells := view.refs[..];
      var k := Wrap(view.start + view.nref, view.capMask);
      UnrollPush(cells, view.start, view.nref, r);
      view.refs[k] := r;
      assert view.refs[..] == cells[k := r];
      view := view.(nref := view.nref + 1, nbytes := view.nbytes + r.length);
      refs := refs + [r];
    }

    // A full ring is copied, unrolled, into one of twice the capacity.
    method AppendGrowing(r: BlockRef)
      requires Stands() && view.Big? && r.block != NULL
      modifies this
      ensures Stands() && view.Big? && fresh(view.refs)
      ensures refs == old(refs) + [r] && view.nbytes == old(view.nbytes) + r.length
      ensures view.capMask + 1 == 2 * (old(view.capMask) + 1)
    {
      hide PowerOfTwo, SumLengths;
      var newCap := 2 * (view.capMask + 1);
      var newRefs := new BlockRef[newCap](_ => NULL_REF);
      for i := 0 to view.nref
        invariant view == old(view) && refs == old(refs)
        invariant newRefs[..i] == refs[..i]
      {
        newRefs[i] := view.refs[Wrap(view.start + i, view.capMask)];
      }
      newRefs[view.nref] := r;
      refs := refs + [r];
      assert newRefs[..view.nref + 1] == refs;
      UnrollFromStart(newRefs[..], refs);
      Doubled(view.capMask + 1);
      view := Big(0, newRefs, view.nref + 1, newCap - 1, view.nbytes + r.length);
    }

    method PushToRing(r: BlockRef) returns (merged: bool)
      requires Stands() && view.Big? && r.block != NULL
      modifies this, view.refs
      ensures Stands() && view.Big? && fresh(Ring() - old(Ring()))
      ensures refs == PushRef(old(refs), r) && merged == Merges(old(refs), r)
      ensures view.nbytes == old(view.nbytes) + r.length
    {
      var back := view.refs[Wrap(view.start + view.nref - 1, view.capMask)];
      assert back == refs[view.nref - 1];
      merged := back.block == r.block && back.offset + back.length == r.offset;
      if merged {
        ReplaceRingRef(view.nref - 1, back.(length := back.length + r.length));
      } else if view.nref != view.capMask + 1 {
        AppendInPlace(r);
      } else {
        AppendGrowing(r);
      }
    }

    method PushOrMoveBackRefToBigView(r: BlockRef, move: bool)
      requires Stands() && view.Big?
      requires mem.Tallied() && NULL !in mem.blocks && r.block in mem.blocks
      modifies this, view.refs, mem`blocks, mem`nblock
      ensures Stands() && view.Big? && refs == PushRef(old(refs), r)
      ensures view.nbytes == old(view.nbytes) + r.length && (Counted() <==> old(Counted()))
      ensures mem.Tallied() && mem.blocks == Pushed(old(mem.blocks), old(refs), r, move)
      ensures fresh(Ring() - old(Ring()))
    {
      hide PowerOfTwo, Unroll, SumLengths, PushRef, Merges, NoNulls;
      SumPush(refs, r);
      var merged := PushToRing(r);
      if merged && move {
        mem.DecRef(r.block);
      } else if !merged && !move {
        mem.IncRef(r.block);
      }
    }

    // _push_back_ref and _move_back_ref.
    method PushBackRef(r: BlockRef, move: bool)
      requires Layout()
      requires mem.Tallied() && NULL !in mem.blocks && r.block in mem.blocks
      modifies this, Ring(), mem`blocks, mem`nblock
      ensures Stands() && refs == PushRef(old(refs), r)
      ensures (IsSmall() <==> view.Small?) <==> TellsApart(refs)
      ensures Counted() <==> old(Counted()) && SwitchFits(old(refs), r)
      ensures old(view.Big?) ==> RawLength() == old(RawLength()) + r.length
      ensures old(view.Small?) && TellsApart(refs) ==> RawLength() == SumLengths(refs) % 0x1_0000_0000
      ensures !TellsApart(refs) ==> RawLength() == SecondBlock(refs)
      ensures RawLength() == SumLengths(refs) <==> old(Counted()) && SwitchFits(old(refs), r) && LengthFits(refs)
      ensures mem.Tallied() && mem.blocks == Pushed(old(mem.blocks), old(refs), r, move)
      ensures fresh(Ring() - old(Ring()))
    {
      hide PowerOfTwo, SumLengths, PushRef, TellsApart, Unroll, NoNulls;
      SmallTells();
      if IsSmall() {
        PushOrMoveBackRefToSmallView(r, move);
      } else {
        PushOrMoveBackRefToBigView(r, move);
      }
      SmallTells();
      LengthExactly();
    }

    // ---------- Popping refs ----------

    method PopFrontOfRing()
      requires Stands() && Counted() && view.Big?
      modifies this
      ensures Stands() && Counted() && Ring() <= old(Ring())
      ensures refs == old(refs)[1..]
    {
      var start, nref := view.start, view.nref;
      assert view.refs[start] == refs[0];
      UnrollDropFront(view.refs[..], start, nref);
      if nref - 1 > 2 {
        view := view.(nref := nref - 1, start := Wrap(start + 1, view.capMask),
                      nbytes := view.nbytes - view.refs[start].length);
      } else {
        assert refs[1..] == [refs[1], refs[2]];
        view := Small(view.refs[Wrap(start + 1, view.capMask)], view.refs[Wrap(start + 2, view.capMask)]);
      }
      refs := refs[1..];
    }

    method PopFrontInline(moveout: bool) returns (rc: int)
      requires Stands() && view.Small? && mem.Tallied()
      requires !moveout && refs != [] ==> refs[0].block in mem.blocks
      modifies this, mem`blocks, mem`nblock
      ensures Stands() && view.Small? && mem.Tallied()
      ensures old(refs) == [] ==> rc == -1 && refs == [] && mem.blocks == old(mem.blocks)
      ensures old(refs) != [] ==>
        && rc == 0 && refs == old(refs)[1..]
        && mem.blocks == if moveout then old(mem.blocks) else Dec(old(mem.blocks), old(refs)[0].block)
    {
      if view.r0.block == NULL {
        return -1;
      }
      if !moveout { mem.DecRef(view.r0.block); }
      view := Small(view.r1, NULL_REF);
      refs := refs[1..];
      return 0;
    }

    // _pop_front_ref, and _moveout_front_ref when the share leaves with the ref.
    method PopFrontRef(moveout: bool) returns (rc: int)
      requires Shape() && mem.Tallied()
      requires !moveout && refs != [] ==> refs[0].block in mem.blocks
      modifies this, mem`blocks, mem`nblock
      ensures Stands() && Counted() && mem.Tallied() && Ring() <= old(Ring())
      ensures (IsSmall() <==> view.Small?) <==> TellsApart(refs)
      ensures RawLength() == SumLengths(refs) <==> LengthFits(refs)
      ensures old(refs) == [] ==> rc == -1 && refs == [] && mem.blocks == old(mem.blocks)
      ensures old(refs) != [] ==>
        && rc == 0 && refs == old(refs)[1..]
        && mem.blocks == if moveout then old(mem.blocks) else Dec(old(mem.blocks), old(refs)[0].block)
    {
      hide PowerOfTwo, SumLengths, TellsApart, NoNulls, LengthFits, LengthOf, Magic;
      SmallTells();
      if IsSmall() {
        rc := PopFrontInline(moveout);
      } else {
        assert view.refs[view.start] == refs[0];
        if !moveout { mem.DecRef(view.refs[view.start].block); }
        PopFrontOfRing();
        rc := 0;
      }
      SmallTells();
      LengthExactly();
    }

    method PopBackOfRing()
      requires Stands() && Counted() && view.Big?
      modifies this
      ensures Stands() && Counted() && Ring() <= old(Ring())
      ensures refs == old(refs)[..|old(refs)| - 1]
    {
      var start, nref := view.start, view.nref;
      var back := view.refs[Wrap(start + nref - 1, view.capMask)];
      UnrollDropBack(view.refs[..], start, nref);
      if nref - 1 > 2 {
        assert refs == refs[..nref - 1] + [back];
        SumSnoc(refs[..nref - 1], back);
        view := view.(nref := nref - 1, nbytes := view.nbytes - back.length);
      } else {
        assert refs[..nref - 1] == [refs[0], refs[1]];
        view := Small(view.refs[start], view.refs[Wrap(start + 1, view.capMask)]);
      }
      refs := refs[..nref - 1];
    }

    method PopBackInline() returns (rc: int)
      requires Stands() && view.Small? && mem.Tallied()
      requires refs != [] ==> refs[|refs| - 1].block in mem.blocks
      modifies this, mem`blocks, mem`nblock
      ensures Stands() && view.Small? && mem.Tallied()
      ensures old(refs) == [] ==> rc == -1 && refs == [] && mem.blocks == old(mem.blocks)
      ensures old(refs) != [] ==> var k := |old(refs)| - 1;
        && rc == 0 && refs == old(refs)[..k]
        && mem.blocks == Dec(old(mem.blocks), old(refs)[k].block)
    {
      if view.r1.block != NULL {
        mem.DecRef(view.r1.block);
        view := Small(view.r0, NULL_REF);
        refs := refs[..1];
        return 0;
      } else if view.r0.block != NULL {
        mem.DecRef(view.r0.block);
        view := Small(NULL_REF, view.r1);
        refs := [];
        return 0;
      }
      return -1;
    }

    method PopBackRef() returns (rc: int)
      requires Shape() && mem.Tallied()
      requires refs != [] ==> refs[|refs| - 1].block in mem.blocks
      modifies this, mem`blocks, mem`nblock
      ensures Stands() && Counted() && mem.Tallied() && Ring() <= old(Ring())
      ensures (IsSmall() <==> view.Small?) <==> TellsApart(refs)
      ensures RawLength() == SumLengths(refs) <==> LengthFits(refs)
      ensures old(refs) == [] ==> rc == -1 && refs == [] && mem.blocks == old(mem.blocks)
      ensures old(refs) != [] ==> var k := |old(refs)| - 1;
        && rc == 0 && refs == old(refs)[..k]
        && mem.blocks == Dec(old(mem.blocks), old(refs)[k].block)
    {
      hide PowerOfTwo, SumLengths, TellsApart, NoNulls, LengthFits, LengthOf, Magic;
      SmallTells();
      if IsSmall() {
        rc := PopBackInline();
      } else {
        var back := view.refs[Wrap(view.start + view.nref - 1, view.capMask)];
        assert back == refs[view.nref - 1];
        mem.DecRef(back.block);
        PopBackOfRing();
        rc := 0;
      }
      SmallTells();
      LengthExactly();
    }

    // ---------- One step on the queue, with ownership ----------

    method DropFrontRef()
      requires Valid() && refs != []
      modifies this, mem`blocks, mem`nblock, mem`held
      ensures Valid() && Ring() <= old(Ring())
      ensures refs == old(refs)[1..]
      ensures old(refs)[0].length <= |old(Contents())| && Contents() == old(Contents())[old(refs)[0].length..]
      ensures Isolated(old(mem.blocks), old(mem.held), mem.blocks, mem.held, {this})
    {
      hide *;
      ghost var s, held := mem.blocks, mem.held;
      Parts();
      HeldRefOk(s, held, this, 0);
      RefLives(refs[0], s);
      FrontBytes(refs, s);
      var _ := PopFrontRef(false);
      assert Ring() - old(Ring()) == {};
      RingStillFree();
      PopFrontOk(s, held, this, RingObject());
      mem.held := held[this := Queue(refs, RingObject())];
      Assembled();
    }

    method DropBackRef()
      requires Valid() && refs != []
      modifies this, mem`blocks, mem`nblock, mem`held
      ensures Valid() && Ring() <= old(Ring())
      ensures refs == old(refs)[..|old(refs)| - 1]
      ensures |old(Contents())| == |Contents()| + old(refs)[|old(refs)| - 1].length
      ensures Contents() <= old(Contents())
      ensures Isolated(old(mem.blocks), old(mem.held), mem.blocks, mem.held, {this})
    {
      hide *;
      ghost var s, held := mem.blocks, mem.held;
      Parts();
      HeldRefOk(s, held, this, |refs| - 1);
      RefLives(refs[|refs| - 1], s);
      BackBytes(refs, s);
      var _ := PopBackRef();
      assert Ring() - old(Ring()) == {};
      RingStillFree();
      PopBackOk(s, held, this, RingObject());
      mem.held := held[this := Queue(refs, RingObject())];
      Assembled();
    }

    method ShareRef(r: BlockRef)
      requires Valid() && RefOk(r, mem.blocks)
      modifies this, Ring(), mem`blocks, mem`nblock, mem`held
      ensures Valid() && fresh(Ring() - old(Ring()))
      ensures refs == PushRef(old(refs), r)
      ensures mem.blocks == PushStore(old(mem.blocks), old(refs), r)
      ensures Contents() == old(Contents()) + Slice(r, old(mem.blocks))
      ensures Isolated(old(mem.blocks), old(mem.held), mem.blocks, mem.held, {this})
    {
      hide *;
      ghost var s, held := mem.blocks, mem.held;
      Parts();
      HeldOk(s, held, this);
      RefLives(r, s);
      ThreeFit(refs, r, s);
      PushBackRef(r, false);
      RingStillFree();
      PushedShared(s, old(refs), r);
      PushOk(s, held, this, r, RingObject());
      mem.held := held[this := Queue(refs, RingObject())];
      Assembled();
    }

    // The i-th ref is narrowed within the bytes it covers.
    method NarrowRef(i: nat, r: BlockRef)
      requires Valid() && i < |refs|
      requires Within(r, refs[i])
      modifies this, Ring(), mem`held
      ensures Valid() && RingObject() == old(RingObject()) && Ring() == old(Ring())
      ensures refs == old(refs)[i := r]
      ensures Isolated(old(mem.blocks), old(mem.held), mem.blocks, mem.held, {this})
    {
      hide *;
      ghost var s, held := mem.blocks, mem.held;
      Parts();
      NotInRing();
      NarrowOk(s, held, this, i, r);
      ReplaceRef(i, r);
      NotInRing();
      mem.held := held[this := Queue(refs, RingObject())];
      Assembled();
    }

    method TrimFrontRef(n: nat)
      requires Valid() && refs != [] && n < refs[0].length
      modifies this, Ring(), mem`held
      ensures Valid() && RingObject() == old(RingObject()) && Ring() == old(Ring())
      ensures refs == old(refs)[0 := TrimFront(old(refs)[0], n)]
      ensures n < |old(Contents())| && Contents() == old(Contents())[n..]
      ensures Isolated(old(mem.blocks), old(mem.held), mem.blocks, mem.held, {this})
    {
      hide Isolated, Bytes, Ok, Shape;
      HeldRefOk(mem.blocks, mem.held, this, 0);
      TrimFrontBytes(refs, n, mem.blocks);
      var r := FrontRef();
      NarrowRef(0, TrimFront(r, n));
    }

    method TrimBackRef(n: nat)
      requires Valid() && refs != [] && n < refs[|refs| - 1].length
      modifies this, Ring(), mem`held
      ensures Valid() && RingObject() == old(RingObject()) && Ring() == old(Ring())
      ensures n < |old(Contents())| && Contents() == old(Contents())[..|old(Contents())| - n]
      ensures Isolated(old(mem.blocks), old(mem.held), mem.blocks, mem.held, {this})
    {
      hide Isolated, Bytes, Ok, Shape;
      HeldRefOk(mem.blocks, mem.held, this, |refs| - 1);
      TrimBackBytes(refs, n, mem.blocks);
      var r := BackRef();
      var nref := RefNum();
      NarrowRef(nref - 1, TrimBack(r, n));
    }

    // ---------- Bytes ----------

    lemma LengthOk()
      requires Valid()
      ensures |Contents()| == SumLengths(refs) == RawLength()
      ensures Contents() == [] <==> refs == []
    {
      hide Ok, Bytes, PowerOfTwo, Unroll, NoNulls, LengthOf, Magic, TellsApart;
      HeldOk(mem.blocks, mem.held, this);
      BytesLength(refs, mem.blocks);
      if view.Small? {
        InlineLength(view.r0, view.r1, mem.blocks);
      }
      LengthExactly();
      if refs != [] {
        HeldRefOk(mem.blocks, mem.held, this, 0);
        assert SumLengths(refs) == refs[0].length + SumLengths(refs[1..]);
      }
    }

    function Length(): (n: nat)
      requires Valid()
      reads this, Ring(), mem
      ensures n == |Contents()|
    {
      hide Ok, Bytes, Stands, LengthOf;
      LengthOk();
      RawLength()
    }

    predicate Empty()
      requires Valid()
      reads this, Ring(), mem
      ensures Empty() <==> Contents() == []
    {
      hide Ok, Bytes, PowerOfTwo, Unroll, NoNulls;
      LengthOk();
      SmallTells();
      if IsSmall() then view.r0.block == NULL else view.nbytes == 0
    }

    function RefNum(): (n: nat)
      requires Shape()
      reads this, Ring()
      ensures n == |refs|
    {
      SmallTells();
      if IsSmall()
      then (if view.r0.block != NULL then 1 else 0) + (if view.r1.block != NULL then 1 else 0)
      else view.nref
    }

    function RefAt(i: nat): (r: BlockRef)
      requires Shape() && i < |refs|
      reads this, Ring()
      ensures r == refs[i]
    {
      SmallTells();
      if IsSmall() then (if i == 0 then view.r0 else view.r1)
      else view.refs[Wrap(view.start + i, view.capMask)]
    }

    function FrontRef(): (r: BlockRef)
      requires Shape() && refs != []
      reads this, Ring()
      ensures r == refs[0]
    {
      SmallTells();
      if IsSmall() then view.r0 else view.refs[view.start]
    }

    function BackRef(): (r: BlockRef)
      requires Shape() && refs != []
      reads this, Ring()
      ensures r == refs[|refs| - 1]
    {
      SmallTells();
      if IsSmall() then (if view.r1.block != NULL then view.r1 else view.r0) else RefAt(view.nref - 1)
    }

    method Clear()
      requires Valid()
      modifies this, mem`blocks, mem`nblock, mem`held
      ensures Valid() && Contents() == [] && refs == [] && view == Small(NULL_REF, NULL_REF)
      ensures Isolated(old(mem.blocks), old(mem.held), mem.blocks, mem.held, {this})
    {
      hide Ok, Isolated, Stands;
      SmallTells();
      if IsSmall() {
        ClearInline();
      } else {
        ClearRing();
      }
    }

    method ClearInline()
      requires Valid() && view.Small?
      modifies this, mem`blocks, mem`nblock, mem`held
      ensures Valid() && refs == [] && view == Small(NULL_REF, NULL_REF)
      ensures Isolated(old(mem.blocks), old(mem.held), mem.blocks, mem.held, {this})
    {
      hide Ok, Isolated, Bytes, PowerOfTwo, Unroll, NoNulls, SumLengths;
      ghost var s, held := mem.blocks, mem.held;
      IsolatedRefl(s, held, {this});
      if view.r0.block != NULL {
        DropFrontRef();
        ghost var t, held' := mem.blocks, mem.held;
        if view.r0.block != NULL {
          DropFrontRef();
          IsolatedTrans(s, held, t, held', mem.blocks, mem.held, {this});
        }
      }
      EmptyView();
    }

    lemma EmptyView()
      requires Shape() && refs == []
      ensures view == Small(NULL_REF, NULL_REF)
    {
    }

    // The share of the i-th ref is given up; the view still shows it.
    method ReleaseAt(i: nat, ghost ring: object?)
      requires Stands() && view.Big? && i < |refs| && mem.Valid() && ring == RingObject()
      requires this in mem.held && mem.held[this] == Queue(refs[i..], ring)
      modifies mem`blocks, mem`nblock, mem`held
      ensures Stands() && mem.Valid() && mem.held == old(mem.held)[this := Queue(refs[i + 1..], ring)]
      ensures Isolated(old(mem.blocks), old(mem.held), mem.blocks, mem.held, {this})
    {
      hide Isolated, Bytes, Ok, PowerOfTwo, NoNulls, RingFree;
      ghost var s, held := mem.blocks, mem.held;
      var r := view.refs[Wrap(view.start + i, view.capMask)];
      assert refs[i..][0] == r && refs[i..][1..] == refs[i + 1..];
      HeldOk(s, held, this);
      PopFrontOk(s, held, this, ring);
      mem.DecRef(r.block);
      mem.held := held[this := Queue(refs[i + 1..], ring)];
    }

    lemma RingSize()
      requires Stands() && view.Big?
      ensures view.nref == |refs|
    {
    }

    method ClearRing()
      requires Valid() && view.Big?
      modifies this, mem`blocks, mem`nblock, mem`held
      ensures Valid() && refs == [] && view == Small(NULL_REF, NULL_REF)
      ensures Isolated(old(mem.blocks), old(mem.held), mem.blocks, mem.held, {this})
    {
      hide *;
      ghost var s, held, all, ring := mem.blocks, mem.held, refs, RingObject();
      Parts();
      RingSize();
      NotInRing();
      assert all[0..] == all;
      IsolatedRefl(s, held, {this});
      for i := 0 to view.nref
        invariant unchanged(this) && Stands() && refs == all && mem !in Ring()
        invariant mem.Valid() && this in mem.held && mem.held[this] == Queue(all[i..], ring)
        invariant Isolated(s, held, mem.blocks, mem.held, {this})
      {
        ghost var t, held' := mem.blocks, mem.held;
        ReleaseAt(i, ring);
        IsolatedTrans(s, held, t, held', mem.blocks, mem.held, {this});
      }
      ghost var t, held' := mem.blocks, mem.held;
      mem.Parts();
      assert all[view.nref..] == [];
      DetachRing(t, held', this);
      mem.held := held'[this := Queue([], null)];
      view := Small(NULL_REF, NULL_REF);
      refs := [];
      mem.Assembled();
      Fresh();
      IsolatedTrans(s, held, t, held', mem.blocks, mem.held, {this});
    }

    method PopFront(n: nat) returns (popped: nat)
      requires Valid()
      modifies this, Ring(), mem`blocks, mem`nblock, mem`held
      ensures Valid() && Ring() <= old(Ring())
      ensures popped == Min(n, |old(Contents())|)
      ensures Contents() == old(Contents())[popped..]
      ensures Isolated(old(mem.blocks), old(mem.held), mem.blocks, mem.held, {this})
    {
      hide Ok, Isolated, Bytes, Shape, Length, RefAt, BackRef, FrontRef;
      var len := Length();
      if n >= len {
        Clear();
        return len;
      }
      ghost var s, held, all := mem.blocks, mem.held, Contents();
      var left: nat := n;
      ghost var done: nat := 0;
      IsolatedRefl(s, held, {this});
      while left != 0
        invariant Valid() && Ring() <= old(Ring())
        invariant left + done == n < |all| && Contents() == all[done..]
        invariant Isolated(s, held, mem.blocks, mem.held, {this})
        decreases left
      {
        ghost var t, held' := mem.blocks, mem.held;
        SomeRef(refs, t);
        HeldRefOk(t, held', this, 0);
        var r := FrontRef();
        if r.length > left {
          DropDrop(all, done, left);
          TrimFrontRef(left);
          IsolatedTrans(s, held, t, held', mem.blocks, mem.held, {this});
          return n;
        }
        DropDrop(all, done, r.length);
        left, done := left - r.length, done + r.length;
        DropFrontRef();
        IsolatedTrans(s, held, t, held', mem.blocks, mem.held, {this});
      }
      return n;
    }

    method PopBack(n: nat) returns (popped: nat)
      requires Valid()
      modifies this, Ring(), mem`blocks, mem`nblock, mem`held
      ensures Valid() && Ring() <= old(Ring())
      ensures popped == Min(n, |old(Contents())|)
      ensures Contents() == old(Contents())[..|old(Contents())| - popped]
      ensures Isolated(old(mem.blocks), old(mem.held), mem.blocks, mem.held, {this})
    {
      hide Ok, Isolated, Bytes, Shape, Length, RefAt, BackRef, FrontRef;
      var len := Length();
      if n >= len {
        Clear();
        return len;
      }
      ghost var s, held, all := mem.blocks, mem.held, Contents();
      var left: nat := n;
      ghost var done: nat := 0;
      IsolatedRefl(s, held, {this});
      while left != 0
        invariant Valid() && Ring() <= old(Ring())
        invariant left + done == n < |all| && Contents() == all[..|all| - done]
        invariant Isolated(s, held, mem.blocks, mem.held, {this})
        decreases left
      {
        ghost var t, held' := mem.blocks, mem.held;
        SomeRef(refs, t);
        HeldRefOk(t, held', this, |refs| - 1);
        var r := BackRef();
        if r.length > left {
          TrimBackRef(left);
          IsolatedTrans(s, held, t, held', mem.blocks, mem.held, {this});
          return n;
        }
        left, done := left - r.length, done + r.length;
        DropBackRef();
        IsolatedTrans(s, held, t, held', mem.blocks, mem.held, {this});
      }
      return n;
    }

    // ---------- Between two buffers ----------

    ghost predicate Beside(other: IOBuf)
      reads this, Ring(), other, other.Ring(), mem, other.mem
    {
      other != this && other.mem == mem && Valid() && other.Valid()
    }

    lemma BesideParts(other: IOBuf)
      requires Beside(other)
      ensures other != this && other.mem == mem && Valid() && other.Valid()
      ensures Ring() !! other.Ring() && this !in other.Ring() && other !in Ring()
    {
      hide Ok, Bytes, Stands, TellsApart, SumLengths;
      RingsDiffer(mem.blocks, mem.held, this, other);
    }

    lemma MakeBeside(other: IOBuf)
      requires other != this && other.mem == mem && Valid() && other.Valid()
      ensures Beside(other)
    {
    }

    // _move_back_ref on `out`, then _moveout_front_ref here: the share travels along.
    method TransferRef(out: IOBuf, r: BlockRef)
      requires out != this && out.mem == mem && Shape() && out.Shape() && Ring() !! out.Ring()
      requires mem.Tallied() && NULL !in mem.blocks && refs != [] && r.block in mem.blocks && SwitchFits(out.refs, r)
      requires TellsApart(refs[1..]) && TellsApart(PushRef(out.refs, r))
      modifies this, out, out.Ring(), mem`blocks, mem`nblock
      ensures Shape() && out.Shape() && mem.Tallied() && Ring() !! out.Ring()
      ensures Ring() <= old(Ring()) && fresh(out.Ring() - old(out.Ring()))
      ensures refs == old(refs)[1..] && out.refs == PushRef(old(out.refs), r)
      ensures mem.blocks == Pushed(old(mem.blocks), old(out.refs), r, true)
    {
      hide Pushed, PushRef;
      out.PushBackRef(r, true);
      assert Shape();
      var _ := PopFrontRef(true);
    }

    // The front ref, or a part `r` of it, leaves for the back of `out`.
    method MoveFrontPart(out: IOBuf, r: BlockRef)
      requires Beside(out) && refs != [] && Within(r, refs[0])
      modifies this, out, out.Ring(), mem`blocks, mem`nblock, mem`held
      ensures Beside(out)
      ensures Ring() <= old(Ring()) && fresh(out.Ring() - old(out.Ring()))
      ensures refs == old(refs)[1..] && Contents() == Bytes(refs, old(mem.blocks))
      ensures out.refs == PushRef(old(out.refs), r)
      ensures out.Contents() == old(out.Contents()) + Slice(r, old(mem.blocks))
      ensures Isolated(old(mem.blocks), old(mem.held), mem.blocks, mem.held, {this, out})
    {
      hide *;
      ghost var s, held := mem.blocks, mem.held;
      BesideParts(out);
      Parts();
      out.Parts();
      HeldRefOk(s, held, this, 0);
      WithinOk(r, refs[0], s);
      HeldOk(s, held, this);
      HeldOk(s, held, out);
      ThreeFit(out.refs, r, s);
      TellsPushed(out.refs, r, s);
      TellsBehind(refs, s);
      TransferRef(out, r);
      ShapeParts();
      out.ShapeParts();
      assert Ring() - old(Ring()) == {};
      RingStillFree();
      out.RingStillFree();
      NotInRing();
      out.NotInRing();
      MovePartOk(s, held, this, out, r, RingObject(), out.RingObject());
      PushedMoved(s, old(out.refs), r);
      mem.held := held[out := Queue(out.refs, out.RingObject())][this := Queue(refs, RingObject())];
      Assembled();
      out.Assembled();
      MakeBeside(out);
    }

    method MoveFrontRef(out: IOBuf)
      requires Beside(out) && refs != []
      modifies this, out, out.Ring(), mem`blocks, mem`nblock, mem`held
      ensures Beside(out)
      ensures Ring() <= old(Ring()) && fresh(out.Ring() - old(out.Ring()))
      ensures refs == old(refs)[1..] && out.refs == PushRef(old(out.refs), old(refs)[0])
      ensures CutBy(old(Contents()), old(out.Contents()), Contents(), out.Contents(), old(refs)[0].length)
      ensures Isolated(old(mem.blocks), old(mem.held), mem.blocks, mem.held, {this, out})
    {
      hide Isolated, Bytes, Ok, Shape;
      HeldRefOk(mem.blocks, mem.held, this, 0);
      FrontBytes(refs, mem.blocks);
      MoveFrontPart(out, FrontRef());
    }

    lemma NonEmpty()
      requires Contents() != []
      ensures refs != []
    {
    }

    // One round of cutn: the front ref moves whole, or its first `most` bytes are shared.
    method CutRound(out: IOBuf, most: nat) returns (k: nat)
      requires Beside(out) && 0 < most <= |Contents()|
      modifies this, Ring(), out, out.Ring(), mem`blocks, mem`nblock, mem`held
      ensures Beside(out)
      ensures Ring() <= old(Ring()) && fresh(out.Ring() - old(out.Ring()))
      ensures 0 < k <= most
      ensures CutBy(old(Contents()), old(out.Contents()), Contents(), out.Contents(), k)
      ensures CutBy(CellsOf(old(refs)), CellsOf(old(out.refs)), CellsOf(refs), CellsOf(out.refs), k)
      ensures Isolated(old(mem.blocks), old(mem.held), mem.blocks, mem.held, {this, out})
    {
      hide Isolated, Contents, Ok, Shape, CutBy, CellsOf, PushRef;
      NonEmpty();
      HeldRefOk(mem.blocks, mem.held, this, 0);
      var r := FrontRef();
      if r.length <= most {
        CellsMoved(refs, out.refs);
        MoveFrontRef(out);
        k := r.length;
      } else {
        CellsParted(refs, out.refs, most);
        CopyFrontOut(out, most);
        k := most;
      }
    }

    method Cutn(out: IOBuf, n: nat) returns (cut: nat)
      requires Beside(out)
      modifies this, Ring(), out, out.Ring(), mem`blocks, mem`nblock, mem`held
      ensures Beside(out)
      ensures Ring() <= old(Ring()) && fresh(out.Ring() - old(out.Ring()))
      ensures cut == Min(n, |old(Contents())|)
      ensures CutBy(old(Contents()), old(out.Contents()), Contents(), out.Contents(), cut)
      ensures CutBy(CellsOf(old(refs)), CellsOf(old(out.refs)), CellsOf(refs), CellsOf(out.refs), cut)
      ensures Isolated(old(mem.blocks), old(mem.held), mem.blocks, mem.held, {this, out})
    {
      hide Isolated, Contents, Valid, Length, CutBy, CellsOf;
      var len := Length();
      hide Beside;
      cut := if n > len then len else n;
      ghost var s, held, all, outAll := mem.blocks, mem.held, Contents(), out.Contents();
      var left: nat := cut;
      ghost var done: nat := 0;
      IsolatedRefl(s, held, {this, out});
      CutByNone(all, outAll);
      ghost var cells, outCells := CellsOf(refs), CellsOf(out.refs);
      CutByNone(cells, outCells);
      while left != 0
        invariant Beside(out)
        invariant Ring() <= old(Ring()) && fresh(out.Ring() - old(out.Ring()))
        invariant left + done == cut <= |all| && |Contents()| == |all| - done
        invariant CutBy(all, outAll, Contents(), out.Contents(), done)
        invariant CutBy(cells, outCells, CellsOf(refs), CellsOf(out.refs), done)
        invariant Isolated(s, held, mem.blocks, mem.held, {this, out})
        decreases left
      {
        ghost var t, held', c, o := mem.blocks, mem.held, Contents(), out.Contents();
        ghost var cc, oc := CellsOf(refs), CellsOf(out.refs);
        var k := CutRound(out, left);
        CutByTrans(cells, outCells, cc, oc, CellsOf(refs), CellsOf(out.refs), done, k);
        CutByTrans(all, outAll, c, o, Contents(), out.Contents(), done, k);
        left, done := left - k, done + k;
        IsolatedTrans(s, held, t, held', mem.blocks, mem.held, {this, out});
      }
    }

    // The first `n` bytes of the front ref are shared with `out` and trimmed here.
    method CopyFrontOut(out: IOBuf, n: nat)
      requires Beside(out) && refs != [] && 0 < n < refs[0].length
      modifies this, Ring(), out, out.Ring(), mem`blocks, mem`nblock, mem`held
      ensures Beside(out)
      ensures Ring() <= old(Ring()) && fresh(out.Ring() - old(out.Ring()))
      ensures refs == old(refs)[0 := TrimFront(old(refs)[0], n)] && out.refs == PushRef(old(out.refs), old(refs)[0].(length := n))
      ensures CutBy(old(Contents()), old(out.Contents()), Contents(), out.Contents(), n)
      ensures Isolated(old(mem.blocks), old(mem.held), mem.blocks, mem.held, {this, out})
    {
      hide *;
      ghost var s, held, c, o := mem.blocks, mem.held, Contents(), out.Contents();
      BesideParts(out);
      Parts();
      out.Parts();
      var r := FrontRef();
      HeldRefOk(s, held, this, 0);
      FrontBytes(refs, s);
      ShortRef(r, n, s);
      NotInRing();
      out.ShareRef(r.(length := n));
      StandsStill();
      out.Parts();
      ghost var t, held' := mem.blocks, mem.held;
      OtherOwner(s, held, t, held', this, {out});
      Assembled();
      SameQueue(held[this], s, t);
      MakeBeside(out);
      BesideParts(out);
      out.NotInRing();
      label L:
      TrimFrontRef(n);
      out.StandsStill@L();
      Parts();
      OtherOwner(t, held', mem.blocks, mem.held, out, {this});
      out.Assembled();
      SameQueue(held'[out], t, mem.blocks);
      MakeBeside(out);
      IsolatedBoth(s, held, t, held', mem.blocks, mem.held, this, out);
      IsCutBy(c, o, Contents(), out.Contents(), n);
    }

    // ---------- Appending bytes ----------

    ghost predicate With(tls: ThreadLocal)
      reads this, Ring(), tls, mem, tls.mem
    {
      Valid() && tls.mem == mem && tls.Valid()
    }

    // Bytes go to the end of block `b`, a ref to them to the back of the queue, and
    // only then does the block's size grow.
    method WriteAndPush(b: BlockId, bytes: seq<byte>)
      requires Shape() && mem.Tallied() && NULL !in mem.blocks && b in mem.blocks
      requires mem.blocks[b].size + |bytes| <= |mem.blocks[b].data|
      requires SwitchFits(refs, BlockRef(mem.blocks[b].size, |bytes|, b))
      requires TellsApart(PushRef(refs, BlockRef(mem.blocks[b].size, |bytes|, b)))
      modifies this, Ring(), mem`blocks, mem`nblock
      ensures Shape() && mem.Tallied() && fresh(Ring() - old(Ring()))
      ensures refs == PushRef(old(refs), BlockRef(old(mem.blocks)[b].size, |bytes|, b))
      ensures mem.blocks == PushStore(Fill(old(mem.blocks), b, bytes), old(refs), BlockRef(old(mem.blocks)[b].size, |bytes|, b))
    {
      hide Stands, TellsApart, SumLengths, PushRef, Merges, Pushed, PushStore, Fill, Magic, LengthOf, LengthFits;
      var size := mem.blocks[b].size;
      WrittenThenSized(mem.blocks, refs, b, bytes);
      mem.Write(b, size, bytes);
      PushBackRef(BlockRef(size, |bytes|, b), false);
      mem.SetSize(b, size + |bytes|);
    }

    method AppendChunk(b: BlockId, bytes: seq<byte>, ghost owner: object)
      requires owner in mem.held && mem.held[owner].Chain? && b in mem.held[owner].ids
      requires Valid() && b in mem.blocks && bytes != [] && mem.blocks[b].size + |bytes| <= mem.blocks[b].cap
      modifies this, Ring(), mem`blocks, mem`nblock, mem`held
      ensures Valid() && fresh(Ring() - old(Ring()))
      ensures refs == PushRef(old(refs), BlockRef(old(mem.blocks)[b].size, |bytes|, b))
      ensures Contents() == old(Contents()) + bytes
      ensures owner in mem.held && mem.held[owner] == old(mem.held)[owner]
      ensures Filled(old(mem.blocks), mem.blocks, b, bytes)
      ensures Isolated(old(mem.blocks), old(mem.held), mem.blocks, mem.held, {this, owner})
    {
      hide *;
      ghost var s, held := mem.blocks, mem.held;
      Parts();
      HeldOk(s, held, this);
      RoomOf(s, b);
      RoomFits(refs, s, b, |bytes|);
      RoomTells(refs, s, b, |bytes|);
      WriteAndPush(b, bytes);
      ShapeParts();
      RingStillFree();
      FillPushOk(s, held, this, owner, b, bytes, RingObject());
      mem.held := held[this := Queue(refs, RingObject())];
      Assembled();
    }

    lemma WithParts(tls: ThreadLocal)
      requires With(tls)
      ensures Valid() && tls.mem == mem && tls.Valid() && tls in mem.held && mem.held[tls] == Chain(tls.chain)
      ensures tls !in Ring() && mem !in Ring()
    {
    }

    lemma MakeWith(tls: ThreadLocal)
      requires Valid() && tls.mem == mem && tls.Valid()
      ensures With(tls)
    {
    }

    // A block of the thread's to append to; this buffer is as it was.
    method OpenBlock(tls: ThreadLocal) returns (b: BlockId)
      requires With(tls)
      modifies tls, mem
      ensures With(tls) && Contents() == old(Contents()) && Ring() == old(Ring())
      ensures b == NULL ==> FirstOpen(old(tls.chain), old(mem.blocks)) == NULL
      ensures b != NULL ==> b in tls.chain && b in mem.blocks && !mem.blocks[b].Full()
      ensures b != NULL ==> var open := FirstOpen(old(tls.chain), old(mem.blocks));
        if open != NULL then b == open && SameRoom(old(mem.blocks)[b], mem.blocks[b]) else mem.blocks[b].size == 0
      ensures mem.oom == old(mem.oom) + (if b == NULL then 1 else 0)
      ensures this in mem.held && this in old(mem.held) && mem.held[this] == old(mem.held)[this]
      ensures Isolated(old(mem.blocks), old(mem.held), mem.blocks, mem.held, {tls})
    {
      hide *;
      WithParts(tls);
      Parts();
      ghost var s, held := mem.blocks, mem.held;
      b := tls.ShareBlock();
      tls.Parts();
      OtherOwner(s, held, mem.blocks, mem.held, this, {tls});
      StandsStill();
      Assembled();
      SameQueue(held[this], s, mem.blocks);
      MakeWith(tls);
    }

    // Bytes go into an open block of the thread's.
    method AppendOpen(tls: ThreadLocal, b: BlockId, bytes: seq<byte>)
      requires With(tls) && b in tls.chain && b in mem.blocks && bytes != [] && mem.blocks[b].size + |bytes| <= mem.blocks[b].cap
      modifies this, Ring(), mem`blocks, mem`nblock, mem`held
      ensures With(tls) && fresh(Ring() - old(Ring()))
      ensures refs == PushRef(old(refs), BlockRef(old(mem.blocks)[b].size, |bytes|, b))
      ensures Contents() == old(Contents()) + bytes
      ensures Grown(old(refs), refs) && Settled(old(refs), refs, old(Merges(refs, BlockRef(mem.blocks[b].size, 0, b))), |bytes|)
      ensures |bytes| == old(mem.blocks)[b].cap - old(mem.blocks)[b].size ==> LastFull(refs, mem.blocks)
      ensures Isolated(old(mem.blocks), old(mem.held), mem.blocks, mem.held, {this, tls})
    {
      hide *;
      ghost var s, had, r := mem.blocks, refs, BlockRef(mem.blocks[b].size, |bytes|, b);
      WithParts(tls);
      tls.Parts();
      Parts();
      HeldOk(s, mem.held, this);
      GrownPush(refs, s, r);
      SettledPush(refs, r);
      MergesAny(refs, r, 0);
      AppendChunk(b, bytes, tls);
      Parts();
      tls.Assembled();
      MakeWith(tls);
      if |bytes| == s[b].cap - s[b].size {
        FilledUp(had, r, s, mem.blocks, bytes);
      }
    }

    // One round of appending: as much of `bytes` as the thread's block can take.
    method AppendRound(tls: ThreadLocal, bytes: seq<byte>) returns (n: nat)
      requires With(tls) && bytes != []
      modifies this, Ring(), tls, mem
      ensures With(tls) && fresh(Ring() - old(Ring()))
      ensures n <= |bytes| && Contents() == old(Contents()) + bytes[..n]
      ensures Grown(old(refs), refs)
      ensures n == 0 ==> refs == old(refs) && !old(Joins(refs, tls.chain, mem.blocks))
      ensures n != 0 ==> Settled(old(refs), refs, old(Joins(refs, tls.chain, mem.blocks)), n)
      ensures n != 0 && old(Joins(refs, tls.chain, mem.blocks)) ==> n == Min(|bytes|, old(OpenRoom(tls.chain, mem.blocks)))
      ensures 0 < n < |bytes| ==> LastFull(refs, mem.blocks)
      ensures mem.oom == old(mem.oom) + (if n == 0 then 1 else 0)
      ensures Isolated(old(mem.blocks), old(mem.held), mem.blocks, mem.held, {this, tls})
    {
      hide Ok, Isolated, Bytes, Stands, Valid, With, Contents, Grown, Settled, Joins, Merges, LastFull, OpenRoom, FirstOpen,
        SameRoom, RefsOk, BlocksOk, RingFree, Block.Full;
      ghost var s, held, ids := mem.blocks, mem.held, tls.chain;
      GrownRefl(refs);
      JoinsOpen(refs, ids, s);
      OpenRoomIs(ids, s);
      var b := OpenBlock(tls);
      ghost var t, held' := mem.blocks, mem.held;
      IsolatedMore(s, held, t, held', {tls}, {this, tls});
      if b == NULL {
        assert bytes[..0] == [];
        return 0;
      }
      WithParts(tls);
      Parts();
      HeldOk(t, held', this);
      RoomLeft(t, b);
      var room := mem.blocks[b].cap - mem.blocks[b].size;
      n := if |bytes| < room then |bytes| else room;
      if FirstOpen(ids, s) != NULL {
        SameRoomIs(s, ids, t, b);
      }
      JoinsExactly(refs, ids, s, b, t, 0);
      AppendOpen(tls, b, bytes[..n]);
      IsolatedTrans(s, held, t, held', mem.blocks, mem.held, {this, tls});
      MinIs(|bytes|, room);
    }

    // append(data, count); on failure a prefix of the data has been appended.
    method Append(tls: ThreadLocal, data: seq<byte>) returns (rc: int)
      requires With(tls)
      modifies this, Ring(), tls, mem
      ensures With(tls) && fresh(Ring() - old(Ring()))
      ensures rc == 0 || rc == -1
      ensures Grown(old(refs), refs)
      ensures Contents() != old(Contents()) ==>
        Settled(old(refs), refs, old(Joins(refs, tls.chain, mem.blocks)), Min(|data|, old(OpenRoom(tls.chain, mem.blocks))))
      ensures Contents() == old(Contents()) ==> data == [] || !old(Joins(refs, tls.chain, mem.blocks))
      ensures rc == 0 ==> Contents() == old(Contents()) + data
      ensures rc == -1 ==> exists n :: 0 <= n < |data| && Contents() == old(Contents()) + data[..n]
      ensures mem.oom == old(mem.oom) + (if rc == -1 then 1 else 0)
      ensures Isolated(old(mem.blocks), old(mem.held), mem.blocks, mem.held, {this, tls})
    {
      hide Ok, Isolated, Bytes, Shape, Valid, Grown, Settled, Joins, LastFull, OpenRoom;
      GrownRefl(refs);
      ghost var s, held, all, joined := mem.blocks, mem.held, Contents(), Joins(refs, tls.chain, mem.blocks);
      ghost var first := Min(|data|, OpenRoom(tls.chain, s));
      IsolatedRefl(s, held, {this, tls});
      var done: nat := 0;
      while done < |data|
        invariant With(tls) && fresh(Ring() - old(Ring()))
        invariant done <= |data| && Contents() == all + data[..done]
        invariant mem.oom == old(mem.oom) && Grown(old(refs), refs)
        invariant if done == 0 then refs == old(refs) && s == mem.blocks && tls.chain == old(tls.chain)
                  else Settled(old(refs), refs, joined, first) && (done < |data| ==> LastFull(refs, mem.blocks))
        invariant Isolated(s, held, mem.blocks, mem.held, {this, tls})
      {
        ghost var t, held', refs' := mem.blocks, mem.held, refs;
        if done != 0 {
          FullNeverJoins(refs, tls.chain, t);
        }
        var n := AppendRound(tls, data[done..]);
        if done == 0 {
          SettledFirst(old(refs), refs, joined, n, first);
        } else {
          SettledMore(old(refs), refs', refs, joined, first, n);
        }
        GrownTrans(old(refs), refs', refs);
        IsolatedTrans(s, held, t, held', mem.blocks, mem.held, {this, tls});
        AppendJoin(data, all, done, n);
        if n == 0 {
          return -1;
        }
        done := done + n;
      }
      assert data[..done] == data;
      return 0;
    }
  }
}
