/** Operations between IOBufs that share or exchange whole runs of refs. */
module Transfers {
  import opened Blocks
  import opened Ownership
  import opened BlockMemory
  import opened Cells
  import opened Chains
  import opened Rings
  import opened IOBufs

  // The first `p` bytes of `c` have been added to `all`.
  ghost predicate Added(all: seq<byte>, c: seq<byte>, b: seq<byte>, p: nat) {
    p <= |c| && b == all + c[..p]
  }

  lemma AddedMore(all: seq<byte>, c: seq<byte>, b: seq<byte>, p: nat, n: nat)
    requires Added(all, c, b, p) && p + n <= |c|
    ensures Added(all, c, b + c[p..p + n], p + n)
  {
    assert c[..p] + c[p..p + n] == c[..p + n];
    Assoc(all, c[..p], c[p..p + n]);
  }

  lemma AddedNone(all: seq<byte>, c: seq<byte>)
    ensures Added(all, c, all, SumLengths([]))
  {
  }

  lemma AddedAll(all: seq<byte>, c: seq<byte>, b: seq<byte>)
    requires Added(all, c, b, |c|)
    ensures b == all + c
  {
    assert c[..|c|] == c;
  }

  // One more ref of `other` is shared with `buf`.
  method ShareOne(buf: IOBuf, other: IOBuf, i: nat)
    requires buf.Beside(other) && i < |other.refs|
    modifies buf, buf.Ring(), buf.mem`blocks, buf.mem`nblock, buf.mem`held
    ensures buf.Beside(other) && fresh(buf.Ring() - old(buf.Ring()))
    ensures other.refs == old(other.refs) && other.Contents() == old(other.Contents())
    ensures var p := SumLengths(other.refs[..i]);
      var n := other.refs[i].length;
      && p + n == SumLengths(other.refs[..i + 1]) <= |other.Contents()|
      && buf.Contents() == old(buf.Contents()) + other.Contents()[p..p + n]
    ensures buf.refs == PushRef(old(buf.refs), other.refs[i])
    ensures Isolated(old(buf.mem.blocks), old(buf.mem.held), buf.mem.blocks, buf.mem.held, {buf})
  {
    hide Ok, Isolated, Bytes, IOBuf.Shape;
    ghost var s, held := buf.mem.blocks, buf.mem.held;
    var r := other.RefAt(i);
    HeldRefOk(s, held, other, i);
    HeldOk(s, held, other);
    RefSlice(other.refs, i, s);
    SumSplit(other.refs, i);
    RingsDiffer(s, held, other, buf);
    assert buf.Ring() !! other.Ring();
    buf.ShareRef(r);
    OtherOwner(s, held, buf.mem.blocks, buf.mem.held, other, {buf});
  }

  lemma {:induction false} CellsNone(refs: seq<BlockRef>)
    ensures CellsOf([]) == [] && Extends(refs, refs)
  {
  }

  lemma {:induction false} CellsStep(start: seq<BlockRef>, refs: seq<BlockRef>, more: seq<BlockRef>, i: nat)
    requires i < |more| && Extends(start, refs) && CellsOf(refs) == CellsOf(start) + CellsOf(more[..i])
    ensures var refs' := PushRef(refs, more[i]);
      Extends(start, refs') && CellsOf(refs') == CellsOf(start) + CellsOf(more[..i + 1])
  {
    hide CellsOf;
    ExtendsPush(refs, more[i]);
    ExtendsTrans(start, refs, PushRef(refs, more[i]));
    CellsPush(refs, more[i]);
    assert more[..i + 1] == more[..i] + [more[i]];
    CellsSnoc(more[..i], more[i]);
    CellAssoc(CellsOf(start), CellsOf(more[..i]), RefCells(more[i]));
  }

  // append(const IOBuf&): the payload is shared rather than copied.
  method AppendBuf(buf: IOBuf, other: IOBuf)
    requires buf.Beside(other)
    modifies buf, buf.Ring(), buf.mem`blocks, buf.mem`nblock, buf.mem`held
    ensures buf.Beside(other) && fresh(buf.Ring() - old(buf.Ring()))
    ensures buf.Contents() == old(buf.Contents()) + old(other.Contents())
    ensures other.refs == old(other.refs) && other.Contents() == old(other.Contents())
    ensures Extends(old(buf.refs), buf.refs) && CellsOf(buf.refs) == CellsOf(old(buf.refs)) + CellsOf(other.refs)
    ensures Isolated(old(buf.mem.blocks), old(buf.mem.held), buf.mem.blocks, buf.mem.held, {buf})
  {
    hide Ok, Isolated, Bytes, IOBuf.Shape, IOBuf.RefNum, Extends, CellsOf, PushRef, Added;
    CellsNone(buf.refs);
    AddedNone(buf.Contents(), other.Contents());
    assert other.refs[..0] == [];
    ghost var s, held, all, c := buf.mem.blocks, buf.mem.held, buf.Contents(), other.Contents();
    IsolatedRefl(s, held, {buf});
    var nref := other.RefNum();
    for i := 0 to nref
      invariant buf.Beside(other) && fresh(buf.Ring() - old(buf.Ring()))
      invariant other.refs == old(other.refs) && other.Contents() == c
      invariant Added(all, c, buf.Contents(), SumLengths(other.refs[..i]))
      invariant Extends(old(buf.refs), buf.refs)
      invariant CellsOf(buf.refs) == CellsOf(old(buf.refs)) + CellsOf(other.refs[..i])
      invariant Isolated(s, held, buf.mem.blocks, buf.mem.held, {buf})
    {
      ghost var t, held', refs', b := buf.mem.blocks, buf.mem.held, buf.refs, buf.Contents();
      ShareOne(buf, other, i);
      CellsStep(old(buf.refs), refs', other.refs, i);
      IsolatedTrans(s, held, t, held', buf.mem.blocks, buf.mem.held, {buf});
      AddedMore(all, c, b, SumLengths(other.refs[..i]), other.refs[i].length);
    }
    assert other.refs[..nref] == other.refs;
    other.LengthOk();
    AddedAll(all, c, buf.Contents());
  }

  // The two views change places.
  method SwapViews(a: IOBuf, b: IOBuf)
    requires a != b && a.Stands() && a.Counted() && b.Stands() && b.Counted()
    modifies a, b
    ensures a.Stands() && a.Counted() && b.Stands() && b.Counted()
    ensures a.refs == old(b.refs) && b.refs == old(a.refs)
    ensures a.Ring() == old(b.Ring()) && b.Ring() == old(a.Ring())
    ensures a.RingObject() == old(b.RingObject()) && b.RingObject() == old(a.RingObject())
  {
    hide PowerOfTwo, Unroll, NoNulls, SumLengths;
    a.view, b.view := b.view, a.view;
    a.refs, b.refs := b.refs, a.refs;
  }

  // swap.
  method Swap(a: IOBuf, b: IOBuf)
    requires a.Beside(b)
    modifies a, b, a.mem`held
    ensures a.Beside(b)
    ensures a.refs == old(b.refs) && b.refs == old(a.refs)
    ensures a.Ring() == old(b.Ring()) && b.Ring() == old(a.Ring())
    ensures a.Contents() == old(b.Contents()) && b.Contents() == old(a.Contents())
    ensures Isolated(old(a.mem.blocks), old(a.mem.held), a.mem.blocks, a.mem.held, {a, b})
  {
    hide *;
    ghost var s, held := a.mem.blocks, a.mem.held;
    a.BesideParts(b);
    a.Parts();
    b.Parts();
    a.NotInRing();
    b.NotInRing();
    SwapOk(s, held, a, b);
    SwapViews(a, b);
    a.mem.held := held[a := held[b]][b := held[a]];
    a.Assembled();
    b.Assembled();
    a.MakeBeside(b);
  }

  // One more ref of `other` is moved to `buf`; `other` no longer accounts for it,
  // although its view still shows it.
  method MoveOne(buf: IOBuf, other: IOBuf, i: nat, ghost all: seq<BlockRef>, ghost ring: object?)
    requires buf != other && buf.mem == other.mem && buf.Valid() && buf.Ring() !! other.Ring()
    requires other.Shape() && other.refs == all && i < |all| && ring == other.RingObject()
    requires other in buf.mem.held && buf.mem.held[other] == Queue(all[i..], ring)
    modifies buf, buf.Ring(), buf.mem`blocks, buf.mem`nblock, buf.mem`held
    ensures buf.Valid() && fresh(buf.Ring() - old(buf.Ring()))
    ensures other.Shape() && other in buf.mem.held && buf.mem.held[other] == Queue(all[i + 1..], ring)
    ensures buf.refs == PushRef(old(buf.refs), all[i])
    ensures var c := Bytes(all[i..], old(buf.mem.blocks));
      && all[i].length <= |c|
      && buf.Contents() == old(buf.Contents()) + c[..all[i].length]
      && Bytes(all[i + 1..], buf.mem.blocks) == c[all[i].length..]
    ensures Isolated(old(buf.mem.blocks), old(buf.mem.held), buf.mem.blocks, buf.mem.held, {other, buf})
  {
    hide *;
    ghost var s, held := buf.mem.blocks, buf.mem.held;
    buf.Parts();
    other.ShapeParts();
    other.NotInRing();
    other.NotMember(buf);
    buf.NotMember(other);
    var r := other.RefAt(i);
    assert all[i..][0] == r && all[i..][1..] == all[i + 1..];
    HeldRefOk(s, held, other, 0);
    RefLives(r, s);
    HeldOk(s, held, buf);
    FrontBytes(all[i..], s);
    ThreeFit(buf.refs, r, s);
    buf.PushBackRef(r, true);
    buf.RingStillFree();
    buf.NotInRing();
    other.StandsStill();
    MoveOk(s, held, other, buf, ring, buf.RingObject());
    PushedMoved(s, old(buf.refs), r);
    buf.mem.held := held[buf := Queue(buf.refs, buf.RingObject())][other := Queue(all[i + 1..], ring)];
    buf.Assembled();
    other.MakeShape();
  }

  // append(Movable): the refs move over and `other` becomes empty.
  method AppendMovable(buf: IOBuf, other: IOBuf)
    requires buf.Beside(other)
    modifies buf, buf.Ring(), other, buf.mem`blocks, buf.mem`nblock, buf.mem`held
    ensures buf.Beside(other) && other.refs == [] && other.Contents() == []
    ensures buf.Contents() == old(buf.Contents()) + old(other.Contents())
    ensures CellsOf(buf.refs) == CellsOf(old(buf.refs)) + CellsOf(old(other.refs))
    ensures Isolated(old(buf.mem.blocks), old(buf.mem.held), buf.mem.blocks, buf.mem.held, {buf, other})
  {
    hide Ok, Isolated, Bytes, IOBuf.Shape, CellsOf;
    if buf.Empty() {
      NothingThere(buf);
      CellsNone(buf.refs);
      Swap(buf, other);
    } else {
      MoveAll(buf, other);
    }
  }

  lemma {:induction false} NothingThere(buf: IOBuf)
    requires buf.Valid() && buf.Contents() == []
    ensures buf.refs == []
  {
    hide Ok, Bytes, IOBuf.Shape;
    if buf.refs != [] {
      HeldRefOk(buf.mem.blocks, buf.mem.held, buf, 0);
      FrontBytes(buf.refs, buf.mem.blocks);
    }
  }

  // `i` of the refs `all` of `other`, which has the ring `ring`, have gone to `buf`, which had
  // `refs`; the blocks and their owners were `s` and `held`.
  ghost predicate Moving(buf: IOBuf, other: IOBuf, all: seq<BlockRef>, ring: object?, i: nat, refs: seq<BlockRef>, s: Store,
                         held: Owners)
    reads buf, buf.Ring(), buf.mem, other, other.Ring()
  {
    && i <= |all|
    && buf != other && buf.mem == other.mem && buf.Valid() && buf.Ring() !! other.Ring()
    && other.Shape() && other.refs == all && ring == other.RingObject()
    && other in buf.mem.held && buf.mem.held[other] == Queue(all[i..], ring)
    && buf.Contents() + Bytes(all[i..], buf.mem.blocks) == Bytes(refs, s) + Bytes(all, s)
    && Extends(refs, buf.refs) && CellsOf(buf.refs) == CellsOf(refs) + CellsOf(all[..i])
    && Isolated(s, held, buf.mem.blocks, buf.mem.held, {other, buf})
  }

  method MoveRound(buf: IOBuf, other: IOBuf, i: nat, ghost all: seq<BlockRef>, ghost ring: object?, ghost refs: seq<BlockRef>,
                   ghost s: Store, ghost held: Owners)
    requires Moving(buf, other, all, ring, i, refs, s, held) && i < |all|
    modifies buf, buf.Ring(), buf.mem`blocks, buf.mem`nblock, buf.mem`held
    ensures Moving(buf, other, all, ring, i + 1, refs, s, held) && fresh(buf.Ring() - old(buf.Ring()))
  {
    hide Ok, Isolated, Bytes, IOBuf.Shape, IOBuf.Valid, IOBuf.Contents, CellsOf, PushRef, Extends;
    ghost var t, held', b := buf.mem.blocks, buf.mem.held, buf.Contents();
    ghost var c := Bytes(all[i..], t);
    CellsStep(refs, buf.refs, all, i);
    MoveOne(buf, other, i, all, ring);
    IsolatedTrans(s, held, t, held', buf.mem.blocks, buf.mem.held, {other, buf});
    Assoc(b, c[..all[i].length], c[all[i].length..]);
    assert c == c[..all[i].length] + c[all[i].length..];
  }

  lemma {:induction false} MovingNone(buf: IOBuf, other: IOBuf)
    requires buf.Beside(other)
    ensures Moving(buf, other, other.refs, other.RingObject(), 0, buf.refs, buf.mem.blocks, buf.mem.held)
  {
    hide Ok, Isolated, Bytes, IOBuf.Stands, TellsApart, CellsOf, Extends;
    buf.BesideParts(other);
    CellsNone(buf.refs);
    assert other.refs[0..] == other.refs && other.refs[..0] == [];
    IsolatedRefl(buf.mem.blocks, buf.mem.held, {other, buf});
  }

  lemma {:induction false} MovedAll(buf: IOBuf, other: IOBuf, all: seq<BlockRef>, ring: object?, refs: seq<BlockRef>, s: Store,
                                    held: Owners)
    requires Moving(buf, other, all, ring, |all|, refs, s, held)
    ensures buf != other && buf.mem == other.mem && buf.Valid() && buf.Ring() !! other.Ring()
    ensures other in buf.mem.held && buf.mem.held[other] == Queue([], ring)
    ensures buf.Contents() == Bytes(refs, s) + Bytes(all, s) && CellsOf(buf.refs) == CellsOf(refs) + CellsOf(all)
    ensures Isolated(s, held, buf.mem.blocks, buf.mem.held, {buf, other})
  {
    hide Ok, Isolated, Bytes, IOBuf.Shape, IOBuf.Valid, IOBuf.Contents, CellsOf, Extends;
    assert all[|all|..] == [] && all[..|all|] == all;
    NoBytes(buf.mem.blocks);
    assert buf.Contents() + [] == buf.Contents();
    IsolatedMore(s, held, buf.mem.blocks, buf.mem.held, {other, buf}, {buf, other});
  }

  method MoveAll(buf: IOBuf, other: IOBuf)
    requires buf.Beside(other)
    modifies buf, buf.Ring(), other, buf.mem`blocks, buf.mem`nblock, buf.mem`held
    ensures buf.Beside(other) && other.refs == [] && other.Contents() == []
    ensures buf.Contents() == old(buf.Contents()) + old(other.Contents())
    ensures CellsOf(buf.refs) == CellsOf(old(buf.refs)) + CellsOf(old(other.refs))
    ensures Isolated(old(buf.mem.blocks), old(buf.mem.held), buf.mem.blocks, buf.mem.held, {buf, other})
  {
    hide Ok, Isolated, Bytes, IOBuf.Shape, IOBuf.Valid, IOBuf.Contents, IOBuf.Beside, CellsOf, Moving;
    ghost var s, held, refs, all, ring := buf.mem.blocks, buf.mem.held, buf.refs, other.refs, other.RingObject();
    buf.BesideParts(other);
    buf.Parts();
    other.Parts();
    MovingNone(buf, other);
    var nref := other.RefNum();
    for i := 0 to nref
      invariant Moving(buf, other, all, ring, i, refs, s, held) && fresh(buf.Ring() - old(buf.Ring()))
    {
      MoveRound(buf, other, i, all, ring, refs, s, held);
    }
    MovedAll(buf, other, all, ring, refs, s, held);
    ghost var t, held' := buf.mem.blocks, buf.mem.held;
    Reset(buf, other, ring);
    IsolatedTrans(s, held, t, held', buf.mem.blocks, buf.mem.held, {buf, other});
  }

  // The emptied source is constructed anew.
  method Reset(buf: IOBuf, other: IOBuf, ghost ring: object?)
    requires buf != other && buf.mem == other.mem && buf.Valid() && buf.Ring() !! other.Ring()
    requires other in buf.mem.held && buf.mem.held[other] == Queue([], ring)
    modifies other, buf.mem`held
    ensures buf.Beside(other) && other.refs == [] && other.Contents() == []
    ensures buf.refs == old(buf.refs) && buf.Contents() == old(buf.Contents())
    ensures Isolated(old(buf.mem.blocks), old(buf.mem.held), buf.mem.blocks, buf.mem.held, {buf, other})
  {
    hide *;
    ghost var s, held := buf.mem.blocks, buf.mem.held;
    buf.Parts();
    buf.NotInRing();
    buf.NotMember(other);
    DetachRing(s, held, other);
    other.view := Small(NULL_REF, NULL_REF);
    other.refs := [];
    buf.mem.held := held[other := Queue([], null)];
    buf.StandsStill();
    buf.Assembled();
    other.Fresh();
    buf.MakeBeside(other);
    IsolatedMore(s, held, s, buf.mem.held, {other}, {buf, other});
  }

  // The bytes a ref covers, read through its block, at their place in the buffer.
  lemma {:induction false} ReadOk(buf: IOBuf, i: nat, n: nat)
    requires buf.Valid() && i < |buf.refs| && n <= buf.refs[i].length
    ensures var r, p := buf.refs[i], SumLengths(buf.refs[..i]);
      && r.block in buf.mem.blocks && r.offset + n <= |buf.mem.blocks[r.block].data|
      && p + n <= |buf.Contents()|
      && buf.mem.blocks[r.block].data[r.offset..r.offset + n] == buf.Contents()[p..p + n]
  {
    hide Ok, Bytes, IOBuf.Shape;
    var s := buf.mem.blocks;
    HeldOk(s, buf.mem.held, buf);
    HeldRefOk(s, buf.mem.held, buf, i);
    RefSlice(buf.refs, i, s);
    var r, p := buf.refs[i], SumLengths(buf.refs[..i]);
    SliceTrims(r, n, s);
    SubSlice(buf.Contents(), p, p + r.length, p, p + n);
  }

  // One round of cutn(void*): the front ref, or its first `most` bytes, are copied out.
  method CutBytesRound(buf: IOBuf, most: nat) returns (b: seq<byte>)
    requires buf.Valid() && 0 < most <= |buf.Contents()|
    modifies buf, buf.Ring(), buf.mem`blocks, buf.mem`nblock, buf.mem`held
    ensures buf.Valid() && buf.Ring() <= old(buf.Ring())
    ensures 0 < |b| <= most && b == old(buf.Contents())[..|b|]
    ensures buf.Contents() == old(buf.Contents())[|b|..]
    ensures Isolated(old(buf.mem.blocks), old(buf.mem.held), buf.mem.blocks, buf.mem.held, {buf})
  {
    hide Ok, Isolated, Bytes, IOBuf.Shape;
    buf.LengthOk();
    HeldRefOk(buf.mem.blocks, buf.mem.held, buf, 0);
    assert buf.refs[..0] == [];
    var r := buf.FrontRef();
    if r.length <= most {
      ReadOk(buf, 0, r.length);
      b := buf.mem.blocks[r.block].data[r.offset..r.offset + r.length];
      buf.DropFrontRef();
    } else {
      ReadOk(buf, 0, most);
      b := buf.mem.blocks[r.block].data[r.offset..r.offset + most];
      buf.TrimFrontRef(most);
    }
  }

  // cutn(void*).
  method CutBytes(buf: IOBuf, n: nat) returns (b: seq<byte>)
    requires buf.Valid()
    modifies buf, buf.Ring(), buf.mem`blocks, buf.mem`nblock, buf.mem`held
    ensures buf.Valid() && buf.Ring() <= old(buf.Ring())
    ensures |b| == Min(n, |old(buf.Contents())|) && b == old(buf.Contents())[..|b|]
    ensures buf.Contents() == old(buf.Contents())[|b|..]
    ensures Isolated(old(buf.mem.blocks), old(buf.mem.held), buf.mem.blocks, buf.mem.held, {buf})
  {
    hide Isolated, IOBuf.Contents, IOBuf.Valid, IOBuf.Length;
    ghost var s, held, all := buf.mem.blocks, buf.mem.held, buf.Contents();
    IsolatedRefl(s, held, {buf});
    var len := buf.Length();
    var left: nat := if n > len then len else n;
    ghost var total := left;
    b := [];
    while left != 0
      invariant buf.Valid() && buf.Ring() <= old(buf.Ring())
      invariant left + |b| == total <= |all| && b == all[..|b|] && buf.Contents() == all[|b|..]
      invariant Isolated(s, held, buf.mem.blocks, buf.mem.held, {buf})
      decreases left
    {
      ghost var t, held' := buf.mem.blocks, buf.mem.held;
      var piece := CutBytesRound(buf, left);
      IsolatedTrans(s, held, t, held', buf.mem.blocks, buf.mem.held, {buf});
      CutJoin(all, [], |b|, |piece|);
      assert all[..|b| + |piece|] == all[..|b|] + all[|b|..][..|piece|];
      b := b + piece;
      left := left - |piece|;
    }
  }
}
