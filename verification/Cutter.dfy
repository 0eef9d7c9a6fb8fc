/** IOBufCutter: a cursor that cuts bytes off the front of an IOBuf. It keeps pointers
    into the front ref and takes the ref off the buffer only once it is exhausted. */
module Cutters {
  import opened Blocks
  import opened Ownership
  import opened BlockMemory
  import opened Rings
  import opened IOBufs
  import opened Transfers

  // `w` bytes from position `u` on, then everything from position `k` on.
  function Rest(c: seq<byte>, u: nat, w: nat, k: nat): (r: seq<byte>)
    requires u + w <= k <= |c|
    ensures |r| == w + |c| - k
  {
    c[u..u + w] + c[k..]
  }

  lemma RestSkip(c: seq<byte>, u: nat, w: nat, k: nat, n: nat)
    requires n <= w && u + w <= k <= |c|
    ensures Rest(c, u, w, k)[n..] == Rest(c, u + n, w - n, k)
    ensures Rest(c, u, w, k)[..n] == c[u..u + n]
  {
  }

  lemma RestTail(c: seq<byte>, u: nat, w: nat, k: nat)
    requires u + w <= k <= |c|
    ensures Rest(c, u, w, k)[w..] == c[k..]
  {
  }

  lemma RestAll(c: seq<byte>, k: nat)
    requires k <= |c|
    ensures Rest(c, 0, k, k) == c
  {
  }

  // `b` is the first `n` bytes of `r`, or all of it.
  predicate Copied(b: seq<byte>, r: seq<byte>, n: nat) {
    |b| == Min(n, |r|) && b == r[..|b|]
  }

  lemma HeadTail(r: seq<byte>, i: nat, j: nat)
    requires i + j <= |r|
    ensures r[..i] + r[i..][..j] == r[..i + j] && r[i..][j..] == r[i + j..]
  {
  }

  lemma FirstSum(refs: seq<BlockRef>)
    requires refs != []
    ensures SumLengths(refs[..1]) == refs[0].length
  {
    assert refs[..1] == [refs[0]];
    assert SumLengths([refs[0]]) == refs[0].length + SumLengths([]);
  }

  // Up to `n` bytes of the refs behind the front one.
  method CopyBehind(buf: IOBuf, n: nat) returns (b: seq<byte>)
    requires buf.Valid() && buf.refs != []
    ensures buf.Valid() && buf.refs != [] && buf.refs[0].length <= |buf.Contents()|
    ensures Copied(b, buf.Contents()[buf.refs[0].length..], n)
  {
    hide Ok, Bytes, IOBuf.Shape, IOBuf.RefNum, IOBuf.RefAt, Slice, RefOk, BlocksOk;
    ghost var c, k := buf.Contents(), buf.refs[0].length;
    HeldOk(buf.mem.blocks, buf.mem.held, buf);
    BytesLength(buf.refs, buf.mem.blocks);
    FirstSum(buf.refs);
    SumSplit(buf.refs, 0);
    b := [];
    var left: nat := n;
    var nref := buf.RefNum();
    var i := 1;
    while i < nref && left != 0
      invariant buf.Valid() && 1 <= i <= nref == |buf.refs|
      invariant left + |b| == n && k + |b| <= |c| && b == c[k..k + |b|]
      invariant left != 0 ==> k + |b| == SumLengths(buf.refs[..i])
    {
      SumSplit(buf.refs, i);
      var r := buf.RefAt(i);
      var nc := Min(left, r.length);
      ReadOk(buf, i, nc);
      assert c[k..k + |b|] + c[k + |b|..k + |b| + nc] == c[k..k + |b| + nc];
      b := b + buf.mem.blocks[r.block].data[r.offset..r.offset + nc];
      left := left - nc;
      i := i + 1;
    }
    assert buf.refs[..nref] == buf.refs;
    assert c[k..][..|b|] == c[k..k + |b|];
  }

  class IOBufCutter {
    const buf: IOBuf

    // The block of the front ref while the cutter holds it, and positions in its data.
    var block: BlockId
    var data: nat
    var dataEnd: nat

    ghost predicate Cursor()
      reads this, buf
    {
      if block == NULL then data == dataEnd
      else
        && buf.refs != [] && buf.refs[0].block == block
        && buf.refs[0].offset <= data <= dataEnd <= buf.refs[0].offset + buf.refs[0].length
    }

    ghost predicate Valid()
      reads this, buf, buf.Ring(), buf.mem
    {
      buf.Valid() && Cursor()
    }

    lemma {:induction false} UsedOk()
      requires Valid()
      ensures block != NULL ==>
        && buf.refs[0].length <= |buf.Contents()|
        && RefOk(buf.refs[0], buf.mem.blocks) && BlocksOk(buf.mem.blocks)
        && Slice(buf.refs[0], buf.mem.blocks) == buf.Contents()[..buf.refs[0].length]
        && Bytes(buf.refs[1..], buf.mem.blocks) == buf.Contents()[buf.refs[0].length..]
    {
      hide Ok, Bytes, IOBuf.Shape;
      if block != NULL {
        HeldRefOk(buf.mem.blocks, buf.mem.held, buf, 0);
        FrontBytes(buf.refs, buf.mem.blocks);
      }
    }

    // The bytes still to be cut: what is between the pointers, and the refs behind the front
    // one. The front ref may have grown since it was taken.
    ghost function Remaining(): (r: seq<byte>)
      requires Valid()
      reads this, buf, buf.Ring(), buf.mem
    {
      if block == NULL then buf.Contents() else
        UsedOk();
        Rest(buf.Contents(), data - buf.refs[0].offset, dataEnd - data, buf.refs[0].length)
    }

    lemma Parts()
      requires Valid()
      ensures buf.Valid() && Cursor() && data <= dataEnd && (block == NULL ==> Remaining() == buf.Contents() && data == dataEnd)
    {
    }

    lemma Assembled()
      requires buf.Valid() && Cursor()
      ensures Valid() && (block == NULL ==> Remaining() == buf.Contents())
    {
    }

    constructor (buf: IOBuf)
      requires buf.Valid()
      ensures this.buf == buf && Valid() && Remaining() == buf.Contents()
    {
      hide Ok, Bytes;
      this.buf := buf;
      block, data, dataEnd := NULL, 0, 0;
    }

    function RemainingBytes(): (n: nat)
      requires Valid()
      reads this, buf, buf.Ring(), buf.mem
      ensures n == |Remaining()|
    {
      UsedOk();
      if block != NULL then dataEnd - data + buf.Length() - buf.FrontRef().length else buf.Length()
    }

    // The cutter lets go of the front ref, taking it and what is left of it off the buffer.
    method GiveUpFront()
      requires Valid()
      modifies this, buf, buf.mem`blocks, buf.mem`nblock, buf.mem`held
      ensures Valid() && block == NULL && buf.Ring() <= old(buf.Ring())
      ensures old(dataEnd) - old(data) <= |old(Remaining())|
      ensures Remaining() == buf.Contents() == old(Remaining())[old(dataEnd) - old(data)..]
      ensures old(block) == NULL ==> unchanged(buf) && buf.mem.blocks == old(buf.mem.blocks)
      ensures Isolated(old(buf.mem.blocks), old(buf.mem.held), buf.mem.blocks, buf.mem.held, {buf})
    {
      hide Ok, Isolated, Bytes, IOBuf.Shape;
      UsedOk();
      IsolatedRefl(buf.mem.blocks, buf.mem.held, {buf});
      if block != NULL {
        RestTail(buf.Contents(), data - buf.refs[0].offset, dataEnd - data, buf.refs[0].length);
        buf.DropFrontRef();
      }
      assert this !in buf.Ring();
      block, data, dataEnd := NULL, 0, 0;
      assert buf.Shape();
    }

    method LoadNextRef() returns (ok: bool)
      requires Valid()
      modifies this, buf, buf.mem`blocks, buf.mem`nblock, buf.mem`held
      ensures Valid() && buf.Ring() <= old(buf.Ring())
      ensures old(dataEnd) - old(data) <= |old(Remaining())|
      ensures Remaining() == old(Remaining())[old(dataEnd) - old(data)..]
      ensures ok <==> Remaining() != []
      ensures ok ==> block != NULL && data < dataEnd == data + buf.refs[0].length && data == buf.refs[0].offset
      ensures old(block) == NULL ==> unchanged(buf) && buf.mem.blocks == old(buf.mem.blocks)
      ensures Isolated(old(buf.mem.blocks), old(buf.mem.held), buf.mem.blocks, buf.mem.held, {buf})
    {
      hide Ok, Isolated, Bytes, IOBuf.Shape, IOBuf.RefNum, IOBuf.FrontRef;
      GiveUpFront();
      buf.LengthOk();
      ok := buf.RefNum() != 0;
      if ok {
        TakeFront();
      }
    }

    method TakeFront()
      requires Valid() && block == NULL && buf.refs != []
      modifies this
      ensures Valid() && Remaining() == old(Remaining()) && block != NULL
      ensures data < dataEnd == data + buf.refs[0].length && data == buf.refs[0].offset
    {
      hide Ok, Isolated, Bytes, IOBuf.Shape, IOBuf.FrontRef, Rest;
      HeldRefOk(buf.mem.blocks, buf.mem.held, buf, 0);
      var r := buf.FrontRef();
      assert this !in buf.Ring();
      block, data, dataEnd := r.block, r.offset, r.offset + r.length;
      assert buf.Shape();
      UsedOk();
      RestAll(buf.Contents(), r.length);
    }

    // Advances within the front ref.
    method Skip(n: nat)
      requires Valid() && n <= dataEnd - data
      modifies this`data
      ensures Valid() && data == old(data) + n
      ensures n <= |old(Remaining())| && Remaining() == old(Remaining())[n..]
    {
      hide Ok, Isolated, Bytes, IOBuf.Shape, Rest;
      UsedOk();
      if block != NULL {
        RestSkip(buf.Contents(), data - buf.refs[0].offset, dataEnd - data, buf.refs[0].length, n);
      }
      assert this !in buf.Ring();
      data := data + n;
      assert buf.Shape();
    }

    // The next `n` bytes of the block in hand.
    lemma {:induction false} Window(n: nat)
      requires Valid() && block != NULL && n <= dataEnd - data
      ensures block in buf.mem.blocks && data + n <= |buf.mem.blocks[block].data|
      ensures n <= |Remaining()| && buf.mem.blocks[block].data[data..data + n] == Remaining()[..n]
    {
      hide Ok, Isolated, Bytes, IOBuf.Shape, Rest;
      UsedOk();
      var d, r := buf.mem.blocks[block].data, buf.refs[0];
      var u := data - r.offset;
      SubSlice(d, r.offset, r.offset + r.length, data, data + n);
      SubSlice(buf.Contents(), 0, r.length, u, u + n);
      RestSkip(buf.Contents(), u, dataEnd - data, r.length, n);
      assert buf.Contents()[0..r.length] == buf.Contents()[..r.length];
    }

    function Peek(n: nat): (b: seq<byte>)
      requires Valid() && n <= dataEnd - data
      reads this, buf, buf.Ring(), buf.mem
      ensures |b| == n <= |Remaining()| && b == Remaining()[..n]
    {
      if block == NULL then [] else Window(n); buf.mem.blocks[block].data[data..data + n]
    }

    method Cut1() returns (c: seq<byte>)
      requires Valid()
      modifies this, buf, buf.mem`blocks, buf.mem`nblock, buf.mem`held
      ensures Valid() && buf.Ring() <= old(buf.Ring())
      ensures |c| == Min(1, |old(Remaining())|) && c == old(Remaining())[..|c|]
      ensures Remaining() == old(Remaining())[|c|..]
      ensures old(block) == NULL ==> unchanged(buf) && buf.mem.blocks == old(buf.mem.blocks)
      ensures old(block) == NULL && |c| == 1 ==>
        block != NULL && data == buf.refs[0].offset + 1 && dataEnd == buf.refs[0].offset + buf.refs[0].length
      ensures Isolated(old(buf.mem.blocks), old(buf.mem.held), buf.mem.blocks, buf.mem.held, {buf})
    {
      hide Isolated, IOBuf.Valid, Remaining, Peek;
      IsolatedRefl(buf.mem.blocks, buf.mem.held, {buf});
      if data == dataEnd {
        var ok := LoadNextRef();
        if !ok {
          return [];
        }
      }
      c := Peek(1);
      Skip(1);
    }

    // fetch1: the next byte, which stays to be cut.
    method Fetch1() returns (c: seq<byte>)
      requires Valid()
      modifies this, buf, buf.mem`blocks, buf.mem`nblock, buf.mem`held
      ensures Valid() && buf.Ring() <= old(buf.Ring())
      ensures |c| == Min(1, |old(Remaining())|) && c == old(Remaining())[..|c|]
      ensures Remaining() == old(Remaining())
      ensures Isolated(old(buf.mem.blocks), old(buf.mem.held), buf.mem.blocks, buf.mem.held, {buf})
    {
      hide Isolated, IOBuf.Valid, Remaining, Peek;
      IsolatedRefl(buf.mem.blocks, buf.mem.held, {buf});
      if data == dataEnd {
        var ok := LoadNextRef();
        if !ok {
          return [];
        }
      }
      c := Peek(1);
    }

    // pop_front reports `n` even when fewer bytes were left.
    method PopFront(n: nat) returns (popped: nat)
      requires Valid()
      modifies this, buf, buf.mem`blocks, buf.mem`nblock, buf.mem`held
      ensures Valid() && buf.Ring() <= old(buf.Ring())
      ensures popped == n && Remaining() == old(Remaining())[Min(n, |old(Remaining())|)..]
      ensures Isolated(old(buf.mem.blocks), old(buf.mem.held), buf.mem.blocks, buf.mem.held, {buf})
    {
      hide Isolated, IOBuf.Valid, Remaining;
      ghost var s, held, all := buf.mem.blocks, buf.mem.held, Remaining();
      IsolatedRefl(s, held, {buf});
      var left: nat := n;
      ghost var done: nat := 0;
      while true
        invariant Valid() && buf.Ring() <= old(buf.Ring()) && data <= dataEnd
        invariant left + done == n && done <= |all| && Remaining() == all[done..]
        invariant Isolated(s, held, buf.mem.blocks, buf.mem.held, {buf})
        decreases |Remaining()|, if data == dataEnd then 1 else 0
      {
        var size := dataEnd - data;
        if left <= size {
          Skip(left);
          DropDrop(all, done, left);
          return n;
        }
        left := left - size;
        ghost var t, held' := buf.mem.blocks, buf.mem.held;
        var ok := LoadNextRef();
        IsolatedTrans(s, held, t, held', buf.mem.blocks, buf.mem.held, {buf});
        DropDrop(all, done, size);
        done := done + size;
        if !ok {
          return n;
        }
      }
    }

    method CopyTo(n: nat) returns (b: seq<byte>)
      requires Valid()
      modifies this, buf, buf.mem`blocks, buf.mem`nblock, buf.mem`held
      ensures Valid() && buf.Ring() <= old(buf.Ring())
      ensures |b| == Min(n, |old(Remaining())|) && b == old(Remaining())[..|b|]
      ensures Remaining() == old(Remaining())
      ensures Isolated(old(buf.mem.blocks), old(buf.mem.held), buf.mem.blocks, buf.mem.held, {buf})
    {
      hide Ok, Isolated, Bytes, Peek;
      IsolatedRefl(buf.mem.blocks, buf.mem.held, {buf});
      if n <= dataEnd - data {
        b := Peek(n);
        return;
      }
      if data == dataEnd {
        var ok := LoadNextRef();
        if !ok {
          return [];
        }
        if n <= dataEnd - data {
          b := Peek(n);
          return;
        }
      }
      b := CopyAcross(n);
    }

    // The rest of the block in hand, then the refs behind it.
    method CopyAcross(n: nat) returns (b: seq<byte>)
      requires Valid() && block != NULL && dataEnd - data < n
      ensures Valid() && Copied(b, Remaining(), n)
    {
      hide Ok, Bytes, IOBuf.Shape, Peek, Rest, Slice, RefOk, BlocksOk;
      UsedOk();
      var size := dataEnd - data;
      var head := Peek(size);
      var tail := CopyBehind(buf, n - size);
      RestTail(buf.Contents(), data - buf.refs[0].offset, size, buf.refs[0].length);
      HeadTail(Remaining(), size, |tail|);
      b := head + tail;
    }

    // cutn(void*).
    method CutBytes(n: nat) returns (b: seq<byte>)
      requires Valid()
      modifies this, buf, buf.Ring(), buf.mem`blocks, buf.mem`nblock, buf.mem`held
      ensures Valid() && buf.Ring() <= old(buf.Ring())
      ensures |b| == Min(n, |old(Remaining())|) && b == old(Remaining())[..|b|]
      ensures Remaining() == old(Remaining())[|b|..]
      ensures Isolated(old(buf.mem.blocks), old(buf.mem.held), buf.mem.blocks, buf.mem.held, {buf})
    {
      hide *;
      ghost var s, held, rem := buf.mem.blocks, buf.mem.held, Remaining();
      IsolatedRefl(s, held, {buf});
      MinIs(n, |rem|);
      if n == 0 {
        return [];
      }
      Parts();
      var size := dataEnd - data;
      if n <= size {
        b := Peek(n);
        Skip(n);
        return;
      }
      var head := Peek(size);
      GiveUpFront();
      ghost var t, held' := buf.mem.blocks, buf.mem.held;
      MinIs(n - size, |Remaining()|);
      var tail := CutFromBuffer(n - size);
      IsolatedTrans(s, held, t, held', buf.mem.blocks, buf.mem.held, {buf});
      b := head + tail;
      HeadTail(rem, size, |tail|);
    }

    // The rest of a cut is taken from the buffer itself.
    method CutFromBuffer(n: nat) returns (b: seq<byte>)
      requires Valid() && block == NULL
      modifies buf, buf.Ring(), buf.mem`blocks, buf.mem`nblock, buf.mem`held
      ensures Valid() && block == NULL && buf.Ring() <= old(buf.Ring())
      ensures |b| == Min(n, |old(Remaining())|) && b == old(Remaining())[..|b|]
      ensures Remaining() == old(Remaining())[|b|..]
      ensures Isolated(old(buf.mem.blocks), old(buf.mem.held), buf.mem.blocks, buf.mem.held, {buf})
    {
      hide Ok, Isolated, IOBuf.Valid, IOBuf.Contents;
      assert this !in buf.Ring();
      b := Transfers.CutBytes(buf, n);
    }

    ghost predicate Beside(out: IOBuf)
      reads this, buf, buf.Ring(), buf.mem, out, out.Ring(), out.mem
    {
      Valid() && buf.Beside(out)
    }

    // Steps of others leave this cutter where it was.
    twostate lemma RemainsSame()
      requires old(Valid()) && unchanged(this) && unchanged(buf) && buf.Valid() && buf.Contents() == old(buf.Contents())
      ensures Valid() && Remaining() == old(Remaining())
    {
      hide Ok, Bytes, IOBuf.Stands;
    }

    lemma {:induction false} WindowRef(n: nat)
      requires Valid() && 0 < n <= dataEnd - data
      ensures RefOk(BlockRef(data, n, block), buf.mem.blocks)
      ensures n <= |Remaining()| && Slice(BlockRef(data, n, block), buf.mem.blocks) == Remaining()[..n]
    {
      hide Ok, Bytes, IOBuf.Stands, Rest;
      UsedOk();
      Window(n);
    }

    lemma BesideParts(out: IOBuf)
      requires Beside(out)
      ensures Valid() && buf.Beside(out) && data <= dataEnd && this !in out.Ring() && this !in buf.Ring()
    {
    }

    lemma MakeBeside(out: IOBuf)
      requires Valid() && out != buf && out.mem == buf.mem && out.Valid()
      ensures Beside(out)
    {
    }

    // The next `n` bytes of the block in hand are shared with `out`.
    method ShareWindow(out: IOBuf, n: nat)
      requires Beside(out) && 0 < n <= dataEnd - data
      modifies this`data, out, out.Ring(), buf.mem`blocks, buf.mem`nblock, buf.mem`held
      ensures Beside(out) && fresh(out.Ring() - old(out.Ring()))
      ensures CutBy(old(Remaining()), old(out.Contents()), Remaining(), out.Contents(), n)
      ensures Isolated(old(buf.mem.blocks), old(buf.mem.held), buf.mem.blocks, buf.mem.held, {out})
    {
      hide *;
      BesideParts(out);
      buf.BesideParts(out);
      ghost var s, held, rem, o := buf.mem.blocks, buf.mem.held, Remaining(), out.Contents();
      Parts();
      buf.Parts();
      buf.NotInRing();
      WindowRef(n);
      var r := BlockRef(data, n, block);
      out.ShareRef(r);
      out.Parts();
      OtherOwner(s, held, buf.mem.blocks, buf.mem.held, buf, {out});
      buf.StandsStill();
      buf.Assembled();
      SameQueue(held[buf], s, buf.mem.blocks);
      RemainsSame();
      MakeBeside(out);
      BesideParts(out);
      out.NotInRing();
      label L:
      Skip(n);
      out.StandsStill@L();
      out.Assembled();
      MakeBeside(out);
      IsCutBy(rem, o, Remaining(), out.Contents(), n);
    }

    // What is left of the block in hand moves to `out`, with the share of the front ref.
    method MoveWindow(out: IOBuf)
      requires Beside(out) && block != NULL && data < dataEnd
      modifies this, buf, out, out.Ring(), buf.mem`blocks, buf.mem`nblock, buf.mem`held
      ensures Beside(out) && block == NULL
      ensures buf.Ring() <= old(buf.Ring()) && fresh(out.Ring() - old(out.Ring()))
      ensures CutBy(old(Remaining()), old(out.Contents()), Remaining(), out.Contents(), old(dataEnd) - old(data))
      ensures Isolated(old(buf.mem.blocks), old(buf.mem.held), buf.mem.blocks, buf.mem.held, {buf, out})
    {
      hide Ok, Isolated, Bytes, IOBuf.Shape, Slice;
      ghost var s := buf.mem.blocks;
      UsedOk();
      RestTail(buf.Contents(), data - buf.refs[0].offset, dataEnd - data, buf.refs[0].length);
      WindowSlice();
      var r := BlockRef(data, dataEnd - data, block);
      buf.MoveFrontPart(out, r);
      assert this !in out.Ring() && this !in buf.Ring();
      block, data, dataEnd := NULL, 0, 0;
      assert buf.Shape() && out.Shape();
    }

    lemma {:induction false} WindowSlice()
      requires Valid() && block != NULL
      ensures dataEnd - data <= |Remaining()|
      ensures Slice(BlockRef(data, dataEnd - data, block), buf.mem.blocks) == Remaining()[..dataEnd - data]
    {
      hide Ok, Bytes, IOBuf.Shape;
      UsedOk();
      Window(dataEnd - data);
    }

    // cutn(IOBuf*).
    method Cutn(out: IOBuf, n: nat) returns (cut: nat)
      requires Beside(out)
      modifies this, buf, buf.Ring(), out, out.Ring(), buf.mem`blocks, buf.mem`nblock, buf.mem`held
      ensures Beside(out)
      ensures cut == Min(n, |old(Remaining())|)
      ensures CutBy(old(Remaining()), old(out.Contents()), Remaining(), out.Contents(), cut)
      ensures Isolated(old(buf.mem.blocks), old(buf.mem.held), buf.mem.blocks, buf.mem.held, {buf, out})
    {
      hide Isolated, IOBuf.Valid, IOBuf.Contents, CutBy, Remaining;
      ghost var s, held, rem, o := buf.mem.blocks, buf.mem.held, Remaining(), out.Contents();
      IsolatedRefl(s, held, {buf, out});
      CutByNone(rem, o);
      if n == 0 {
        return 0;
      }
      var size := dataEnd - data;
      if n <= size {
        ShareWindow(out, n);
        IsolatedMore(s, held, buf.mem.blocks, buf.mem.held, {out}, {buf, out});
        CutByTrans(rem, o, rem, o, Remaining(), out.Contents(), 0, n);
        return n;
      }
      if size != 0 {
        MoveWindow(out);
      } else {
        LetGo(out);
      }
      ghost var t, held', rem1, o1 := buf.mem.blocks, buf.mem.held, Remaining(), out.Contents();
      cut := RestOf(out, n - size);
      IsolatedTrans(s, held, t, held', buf.mem.blocks, buf.mem.held, {buf, out});
      CutByTrans(rem, o, rem1, o1, Remaining(), out.Contents(), size, cut);
      cut := cut + size;
    }

    // An exhausted front ref is dropped; `out` is not affected.
    method LetGo(out: IOBuf)
      requires Beside(out) && data == dataEnd
      modifies this, buf, buf.mem`blocks, buf.mem`nblock, buf.mem`held
      ensures Beside(out) && block == NULL && buf.Ring() <= old(buf.Ring())
      ensures Remaining() == old(Remaining()) && out.Contents() == old(out.Contents())
      ensures Isolated(old(buf.mem.blocks), old(buf.mem.held), buf.mem.blocks, buf.mem.held, {buf, out})
    {
      hide *;
      BesideParts(out);
      buf.BesideParts(out);
      ghost var s, held, rem := buf.mem.blocks, buf.mem.held, Remaining();
      out.Parts();
      out.NotInRing();
      assert rem[0..] == rem;
      GiveUpFront();
      Parts();
      buf.Parts();
      OtherOwner(s, held, buf.mem.blocks, buf.mem.held, out, {buf});
      out.StandsStill();
      out.Assembled();
      SameQueue(held[out], s, buf.mem.blocks);
      IsolatedMore(s, held, buf.mem.blocks, buf.mem.held, {buf}, {buf, out});
      MakeBeside(out);
    }

    method RestOf(out: IOBuf, n: nat) returns (cut: nat)
      requires Beside(out) && block == NULL
      modifies buf, buf.Ring(), out, out.Ring(), buf.mem`blocks, buf.mem`nblock, buf.mem`held
      ensures Beside(out)
      ensures cut == Min(n, |old(Remaining())|)
      ensures CutBy(old(Remaining()), old(out.Contents()), Remaining(), out.Contents(), cut)
      ensures Isolated(old(buf.mem.blocks), old(buf.mem.held), buf.mem.blocks, buf.mem.held, {buf, out})
    {
      hide Ok, Isolated, IOBuf.Valid, IOBuf.Contents;
      assert this !in buf.Ring() && this !in out.Ring();
      cut := buf.Cutn(out, n);
    }

    // ~IOBufCutter: what is left of the front ref is written back to it. The bytes are right,
    // but a ring's own count of them is not adjusted.
    method Finish()
      requires Valid()
      modifies this, buf, buf.Ring(), buf.mem`blocks, buf.mem`nblock, buf.mem`held
      ensures buf.mem.Valid() && buf.Layout() && buf.Contents() == old(Remaining())
      ensures buf.RawLength() == if old(buf.view.Big? && data != dataEnd) then |old(buf.Contents())| else |buf.Contents()|
      ensures buf.Valid() <==> buf.RawLength() == |buf.Contents()|
      ensures buf.Valid() <==> old(buf.view.Small? || data == dataEnd || dataEnd - data == buf.refs[0].length)
      ensures Isolated(old(buf.mem.blocks), old(buf.mem.held), buf.mem.blocks, buf.mem.held, {buf})
    {
      hide *;
      Parts();
      buf.LengthOk();
      if data != dataEnd {
        WriteBack();
      } else {
        GiveUpFront();
        Parts();
        buf.Parts();
        buf.LengthOk();
        ghost var rem := old(Remaining());
        assert rem[0..] == rem;
      }
    }

    method WriteBack()
      requires Valid() && data != dataEnd
      modifies buf, buf.Ring(), buf.mem`held
      ensures buf.mem.Valid() && buf.Layout() && buf.Contents() == old(Remaining())
      ensures buf.RawLength() == if old(buf.view.Big?) then |old(buf.Contents())| else |buf.Contents()|
      ensures buf.Valid() <==> buf.RawLength() == |buf.Contents()|
      ensures buf.Valid() <==> old(buf.view.Small? || data == dataEnd || dataEnd - data == buf.refs[0].length)
      ensures Isolated(old(buf.mem.blocks), old(buf.mem.held), buf.mem.blocks, buf.mem.held, {buf})
    {
      hide Ok, Isolated, Bytes, IOBuf.Layout, SumLengths, Rest, Slice, IOBuf.RingObject;
      ghost var s, held, refs, ring := buf.mem.blocks, buf.mem.held, buf.refs, buf.RingObject();
      var r := BlockRef(data, dataEnd - data, block);
      UsedOk();
      WindowSlice();
      RestTail(buf.Contents(), data - refs[0].offset, dataEnd - data, refs[0].length);
      WrittenBack(refs, r, s, Remaining());
      buf.LengthOk();
      NarrowOk(s, held, buf, 0, r);
      OverwriteFront(buf, r);
      assert buf.mem !in buf.Ring();
      buf.mem.held := held[buf := Queue(buf.refs, ring)];
      CountedOk(buf);
    }
  }

  lemma {:induction false} WrittenBack(refs: seq<BlockRef>, r: BlockRef, s: Store, rem: seq<byte>)
    requires refs != [] && r.length <= |rem| && Slice(r, s) == rem[..r.length] && Bytes(refs[1..], s) == rem[r.length..]
    ensures Bytes(refs[0 := r], s) == rem
  {
    assert refs[0 := r][1..] == refs[1..];
  }

  // The front ref is written in place.
  method OverwriteFront(buf: IOBuf, r: BlockRef)
    requires buf.Layout() && buf.refs != [] && r.block != NULL
    modifies buf, buf.Ring()
    ensures buf.Stands() && buf.refs == old(buf.refs)[0 := r] && buf.RingObject() == old(buf.RingObject())
    ensures old(buf.view.Big?) ==> buf.view == old(buf.view)
    ensures old(buf.view.Small?) ==> buf.view.Small?
  {
    hide PowerOfTwo, SumLengths;
    buf.SmallTells();
    if buf.IsSmall() {
      buf.view := Small(r, buf.view.r1);
    } else {
      ghost var cells := buf.view.refs[..];
      UnrollSet(cells, buf.view.start, buf.view.nref, 0, r);
      buf.view.refs[buf.view.start] := r;
      assert buf.view.refs[..] == cells[buf.view.start := r];
    }
    buf.refs := buf.refs[0 := r];
  }

  // With everything else in order, a buffer is valid when length() is right.
  lemma {:induction false} CountedOk(buf: IOBuf)
    requires buf.mem.Valid() && buf.Stands()
    requires buf in buf.mem.held && buf.mem.held[buf] == Queue(buf.refs, buf.RingObject())
    ensures buf.Layout()
    ensures buf.Valid() <==> buf.RawLength() == |buf.Contents()|
    ensures buf.view.Small? ==> buf.RawLength() == |buf.Contents()|
  {
    hide Ok, Bytes, PowerOfTwo, Unroll, NoNulls, Magic, LengthOf, TellsApart;
    HeldOk(buf.mem.blocks, buf.mem.held, buf);
    BytesLength(buf.refs, buf.mem.blocks);
    TellsOk(buf.refs, buf.mem.blocks);
    buf.LengthExactly();
    if buf.view.Small? {
      buf.LengthOk();
    }
  }

  lemma {:induction false} SomeRemains(cutter: IOBufCutter)
    requires cutter.Valid() && cutter.block == NULL && cutter.buf.refs != []
    ensures |cutter.Remaining()| >= 1 && cutter.Remaining() == cutter.buf.Contents()
  {
    hide Ok, Bytes, IOBuf.Stands;
    cutter.buf.LengthOk();
  }

  // One byte cut out of a ring, and the cutter gone: length() counts it still.
  method MiscountAfterCut(cutter: IOBufCutter) returns (c: seq<byte>)
    requires cutter.Valid() && cutter.block == NULL && cutter.buf.view.Big?
    requires cutter.buf.refs != [] && cutter.buf.refs[0].length > 1
    modifies cutter, cutter.buf, cutter.buf.Ring(), cutter.buf.mem`blocks, cutter.buf.mem`nblock, cutter.buf.mem`held
    ensures |c| == 1 && old(cutter.buf.Contents()) == c + cutter.buf.Contents()
    ensures cutter.buf.RawLength() == |cutter.buf.Contents()| + 1 && !cutter.buf.Valid()
  {
    hide Ok, Isolated, Bytes, IOBuf.Layout;
    SomeRemains(cutter);
    c := cutter.Cut1();
    cutter.Finish();
  }
}
