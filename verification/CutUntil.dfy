/** cut_until: scanning the refs of an IOBuf for a delimiter, across block boundaries. */
module CutUntils {
  import opened Blocks
  import opened Ownership
  import opened BlockMemory
  import opened IOBufs
  import opened Delimiters
  import opened Wrappers

  lemma {:induction false} ByteOk(buf: IOBuf, i: nat, j: nat)
    requires buf.Valid() && i < |buf.refs| && j < buf.refs[i].length
    ensures var n := SumLengths(buf.refs[..i]) + j;
      var r := buf.refs[i];
      && n < SumLengths(buf.refs[..i + 1]) <= |buf.Contents()|
      && r.block in buf.mem.blocks && r.offset + j < |buf.mem.blocks[r.block].data|
      && buf.mem.blocks[r.block].data[r.offset + j] == buf.Contents()[n]
  {
    hide Ok, Bytes, IOBuf.Shape;
    HeldOk(buf.mem.blocks, buf.mem.held, buf);
    HeldRefOk(buf.mem.blocks, buf.mem.held, buf, i);
    RefSlice(buf.refs, i, buf.mem.blocks);
    SumSplit(buf.refs, i);
    var r := buf.refs[i];
    assert buf.mem.blocks[r.block].data[r.offset + j] == Slice(r, buf.mem.blocks)[j];
  }

  // Byte `j` of the `i`-th ref, at its place in the buffer.
  method ByteAt(buf: IOBuf, i: nat, j: nat) returns (b: byte)
    requires buf.Valid() && i < |buf.refs| && j < buf.refs[i].length
    ensures buf.Valid()
    ensures var n := SumLengths(buf.refs[..i]) + j; n < |buf.Contents()| && b == buf.Contents()[n]
  {
    hide Ok, Bytes, IOBuf.Shape, IOBuf.RefAt, SumLengths;
    ByteOk(buf, i, j);
    var r := buf.RefAt(i);
    b := buf.mem.blocks[r.block].data[r.offset + j];
  }

  // The index of the first `d` in the buffer, or -1.
  method FindChar(buf: IOBuf, d: byte) returns (n: int)
    requires buf.Valid()
    ensures n == -1 ==> d !in buf.Contents()
    ensures n != -1 ==> 0 <= n < |buf.Contents()| && buf.Contents()[n] == d && d !in buf.Contents()[..n]
  {
    hide Ok, Bytes, IOBuf.Shape, IOBuf.RefAt, IOBuf.RefNum;
    ghost var c := buf.Contents();
    var nref := buf.RefNum();
    n := 0;
    for i := 0 to nref
      invariant buf.Valid() && n == SumLengths(buf.refs[..i]) <= |c| && d !in c[..n]
    {
      HeldOk(buf.mem.blocks, buf.mem.held, buf);
      RefSlice(buf.refs, i, buf.mem.blocks);
      SumSplit(buf.refs, i);
      var length := buf.RefAt(i).length;
      ghost var base := n;
      for j := 0 to length
        invariant buf.Valid() && n == base + j <= |c| && d !in c[..n]
      {
        var b := ByteAt(buf, i, j);
        if b == d {
          return;
        }
        n := n + 1;
      }
    }
    assert buf.refs[..nref] == buf.refs;
    HeldOk(buf.mem.blocks, buf.mem.held, buf);
    BytesLength(buf.refs, buf.mem.blocks);
    assert c[..n] == c;
    return -1;
  }

  method PackDelim(d: seq<byte>) returns (dsig: bv64)
    ensures dsig == Pack(d)
  {
    hide Shift;
    dsig := 0;
    for i := 0 to |d|
      invariant dsig == Pack(d[..i])
    {
      assert d[..i + 1][..i] == d[..i];
      dsig := Shift(dsig, d[i]);
    }
    assert d[..|d|] == d;
  }

  // (1 << 8 * ndelim) - 1, but for eight bytes all ones.
  function SigMask(ndelim: nat): bv64
    requires 2 <= ndelim <= 8
  {
    if ndelim == 2 then ((1 as bv64) << 16) - 1
    else if ndelim == 3 then ((1 as bv64) << 24) - 1
    else if ndelim == 4 then ((1 as bv64) << 32) - 1
    else if ndelim == 5 then ((1 as bv64) << 40) - 1
    else if ndelim == 6 then ((1 as bv64) << 48) - 1
    else if ndelim == 7 then ((1 as bv64) << 56) - 1
    else ONES
  }

  lemma SigMaskIs(ndelim: nat)
    requires 2 <= ndelim <= 8
    ensures SigMask(ndelim) == Mask(ndelim)
  {
    MaskValues();
    hide Mask;
  }

  lemma {:induction false} SearchSome(c: seq<byte>, d: seq<byte>, n: nat)
    requires n < |c| && Hit(c, d, n) && forall m :: 0 <= m < n ==> !Hit(c, d, m)
    ensures Search(c, d, 0) == Some(n)
  {
  }

  lemma {:induction false} SearchNone(c: seq<byte>, d: seq<byte>)
    requires forall m :: 0 <= m < |c| ==> !Hit(c, d, m)
    ensures Search(c, d, 0) == None
  {
  }

  lemma {:induction false} RollNone(c: seq<byte>, mask: bv64)
    ensures Roll(c[..0], mask) == 0
  {
  }

  lemma {:induction false} RollStep(c: seq<byte>, n: nat, d: seq<byte>, sig: bv64, mask: bv64)
    requires n < |c| && mask == Mask(|d|) && sig == Roll(c[..n], mask)
    ensures And(Shift(sig, c[n]), mask) == Roll(c[..n + 1], mask)
    ensures Hit(c, d, n) <==> Roll(c[..n + 1], mask) == Pack(d)
  {
    hide And, Shift, Mask;
    assert c[..n + 1][..n] == c[..n];
  }

  // The signature runs over one ref, up to a match or to the end of the ref.
  method ScanRef(buf: IOBuf, i: nat, ghost d: seq<byte>, mask: bv64, dsig: bv64, sig0: bv64, n0: nat) returns (found: bool, n: nat, sig: bv64)
    requires buf.Valid() && i < |buf.refs| && mask == Mask(|d|) && dsig == Pack(d)
    requires n0 == SumLengths(buf.refs[..i]) <= |buf.Contents()| && sig0 == Roll(buf.Contents()[..n0], mask)
    requires forall m :: 0 <= m < n0 ==> !Hit(buf.Contents(), d, m)
    ensures buf.Valid() && n <= |buf.Contents()| && forall m :: 0 <= m < n ==> !Hit(buf.Contents(), d, m)
    ensures found ==> n < |buf.Contents()| && Hit(buf.Contents(), d, n)
    ensures !found ==> n == SumLengths(buf.refs[..i + 1]) && sig == Roll(buf.Contents()[..n], mask)
  {
    hide Ok, Bytes, IOBuf.Shape, Pack, Mask, Shift, And, Roll, Hit, IOBuf.RefAt;
    ghost var c := buf.Contents();
    HeldOk(buf.mem.blocks, buf.mem.held, buf);
    RefSlice(buf.refs, i, buf.mem.blocks);
    SumSplit(buf.refs, i);
    var length := buf.RefAt(i).length;
    n, sig := n0, sig0;
    for j := 0 to length
      invariant buf.Valid() && n == n0 + j <= |c| && sig == Roll(c[..n], mask)
      invariant forall m :: 0 <= m < n ==> !Hit(c, d, m)
    {
      var b := ByteAt(buf, i, j);
      RollStep(c, n, d, sig, mask);
      sig := And(Shift(sig, b), mask);
      if sig == dsig {
        return true, n, sig;
      }
      n := n + 1;
    }
    found := false;
  }

  // The index of the byte that completes the first match of the signature, or -1.
  method FindSignature(buf: IOBuf, ghost d: seq<byte>, ndelim: nat, dsig: bv64) returns (n: int)
    requires buf.Valid() && 2 <= |d| <= 8 && ndelim == |d| && dsig == Pack(d)
    ensures n == -1 ==> Search(buf.Contents(), d, 0) == None
    ensures n != -1 ==> 0 <= n < |buf.Contents()| && Search(buf.Contents(), d, 0) == Some(n)
  {
    hide Ok, Bytes, IOBuf.Shape, Pack, Mask, Roll, Hit, Search, SigMask, IOBuf.RefNum;
    ghost var c := buf.Contents();
    var mask := SigMask(ndelim);
    SigMaskIs(ndelim);
    var sig: bv64 := 0;
    RollNone(c, mask);
    var nref := buf.RefNum();
    n := 0;
    for i := 0 to nref
      invariant buf.Valid() && 0 <= n == SumLengths(buf.refs[..i]) <= |c| && sig == Roll(c[..n], mask)
      invariant forall m :: 0 <= m < n ==> !Hit(c, d, m)
    {
      var found;
      found, n, sig := ScanRef(buf, i, d, mask, dsig, sig, n);
      if found {
        SearchSome(c, d, n);
        return;
      }
    }
    assert buf.refs[..nref] == buf.refs;
    HeldOk(buf.mem.blocks, buf.mem.held, buf);
    BytesLength(buf.refs, buf.mem.blocks);
    SearchNone(c, d);
    return -1;
  }

  // Bytes before the match, as a 64-bit unsigned difference.
  function CutPoint(n: nat, ndelim: nat): nat
    requires ndelim <= 8
  {
    if ndelim <= n + 1 then n + 1 - ndelim else n + 1 + 0x1_0000_0000_0000_0000 - ndelim
  }

  // `out` gained what precedes the first occurrence of `d`, the buffer keeps what follows.
  ghost predicate CutAt(c: seq<byte>, o: seq<byte>, c': seq<byte>, o': seq<byte>, d: seq<byte>) {
    exists k: nat :: FirstAt(c, d, k) && o' == o + c[..k] && c' == c[k + |d|..]
  }

  // `out` gains the first `k` bytes and the next `skip` are dropped.
  ghost predicate Parted(c: seq<byte>, o: seq<byte>, c': seq<byte>, o': seq<byte>, k: nat, skip: nat) {
    && k <= |c| && o' == o + c[..k]
    && c' == c[k..][Min(skip, |c| - k)..]
  }

  method CutAndSkip(buf: IOBuf, out: IOBuf, k: nat, skip: nat)
    requires buf.Beside(out)
    modifies buf, buf.Ring(), out, out.Ring(), buf.mem`blocks, buf.mem`nblock, buf.mem`held
    ensures buf.Beside(out)
    ensures Parted(old(buf.Contents()), old(out.Contents()), buf.Contents(), out.Contents(), Min(k, |old(buf.Contents())|), skip)
    ensures Isolated(old(buf.mem.blocks), old(buf.mem.held), buf.mem.blocks, buf.mem.held, {buf, out})
  {
    hide Ok, Isolated, Bytes, IOBuf.Shape, IOBuf.Contents;
    ghost var s, held := buf.mem.blocks, buf.mem.held;
    var _ := buf.Cutn(out, k);
    ghost var t, held' := buf.mem.blocks, buf.mem.held;
    SkipBeside(buf, out, skip);
    IsolatedTrans(s, held, t, held', buf.mem.blocks, buf.mem.held, {buf, out});
  }

  // pop_front, seen from another buffer.
  method SkipBeside(buf: IOBuf, out: IOBuf, n: nat)
    requires buf.Beside(out)
    modifies buf, buf.Ring(), buf.mem`blocks, buf.mem`nblock, buf.mem`held
    ensures buf.Beside(out) && buf.Ring() <= old(buf.Ring())
    ensures buf.Contents() == old(buf.Contents())[Min(n, |old(buf.Contents())|)..] && out.Contents() == old(out.Contents())
    ensures Isolated(old(buf.mem.blocks), old(buf.mem.held), buf.mem.blocks, buf.mem.held, {buf, out})
  {
    hide Ok, Isolated, Bytes, IOBuf.Shape;
    ghost var s, held := buf.mem.blocks, buf.mem.held;
    RingsDiffer(s, held, out, buf);
    assert buf.Ring() !! out.Ring();
    var _ := buf.PopFront(n);
    OtherOwner(s, held, buf.mem.blocks, buf.mem.held, out, {buf});
    out.StillValid();
    IsolatedMore(s, held, buf.mem.blocks, buf.mem.held, {buf}, {buf, out});
  }

  lemma FirstByte(c: seq<byte>, d: byte, n: nat)
    requires n < |c| && c[n] == d && d !in c[..n]
    ensures FirstAt(c, [d], n)
  {
    forall j: nat | j < n ensures !OccursAt(c, [d], j) {
      assert c[j..j + 1] == [c[j]] && c[j] in c[..n];
    }
    assert c[n..n + 1] == [d];
  }

  method CutByChar(buf: IOBuf, out: IOBuf, d: byte) returns (rc: int)
    requires buf.Beside(out)
    modifies buf, buf.Ring(), out, out.Ring(), buf.mem`blocks, buf.mem`nblock, buf.mem`held
    ensures buf.Beside(out)
    ensures d !in old(buf.Contents()) ==> rc == -1 && buf.refs == old(buf.refs) && out.refs == old(out.refs) && buf.mem.blocks == old(buf.mem.blocks)
    ensures d in old(buf.Contents()) ==> rc == 0 && CutAt(old(buf.Contents()), old(out.Contents()), buf.Contents(), out.Contents(), [d])
    ensures Isolated(old(buf.mem.blocks), old(buf.mem.held), buf.mem.blocks, buf.mem.held, {buf, out})
  {
    hide Ok, Isolated, Bytes, IOBuf.Shape;
    ghost var c := buf.Contents();
    var n := FindChar(buf, d);
    if n == -1 {
      IsolatedRefl(buf.mem.blocks, buf.mem.held, {buf, out});
      return -1;
    }
    CutAndSkip(buf, out, n, 1);
    DropDrop(c, n, 1);
    FirstByte(c, d, n);
    return 0;
  }

  // For a delimiter of any bytes: what the signature search says is what is cut.
  method CutByDelim(buf: IOBuf, out: IOBuf, d: seq<byte>) returns (rc: int)
    requires buf.Beside(out) && 2 <= |d|
    modifies buf, buf.Ring(), out, out.Ring(), buf.mem`blocks, buf.mem`nblock, buf.mem`held
    ensures buf.Beside(out)
    ensures rc == if |d| <= 8 && |d| <= |old(buf.Contents())| && Search(old(buf.Contents()), d, 0).Some? then 0 else -1
    ensures rc == -1 ==> buf.refs == old(buf.refs) && out.refs == old(out.refs) && buf.mem.blocks == old(buf.mem.blocks)
    ensures rc == 0 ==> var c := old(buf.Contents());
      Parted(c, old(out.Contents()), buf.Contents(), out.Contents(), Min(CutPoint(Search(c, d, 0).value, |d|), |c|), |d|)
    ensures Isolated(old(buf.mem.blocks), old(buf.mem.held), buf.mem.blocks, buf.mem.held, {buf, out})
  {
    hide Ok, Isolated, Bytes, IOBuf.Shape, Search, IOBuf.Length;
    IsolatedRefl(buf.mem.blocks, buf.mem.held, {buf, out});
    if |d| > 8 || |d| > buf.Length() {
      return -1;
    }
    var dsig := PackDelim(d);
    var n := FindSignature(buf, d, |d|, dsig);
    if n == -1 {
      return -1;
    }
    CutAndSkip(buf, out, CutPoint(n, |d|), |d|);
    return 0;
  }

  lemma {:induction false} GoodCut(c: seq<byte>, o: seq<byte>, c': seq<byte>, o': seq<byte>, d: seq<byte>)
    requires Good(d) && |d| <= |c| && Search(c, d, 0).Some?
    requires Parted(c, o, c', o', Min(CutPoint(Search(c, d, 0).value, |d|), |c|), |d|)
    ensures CutAt(c, o, c', o', d)
  {
    hide Search;
    GoodIsCorrect(c, d);
    var k := Search(c, d, 0).value + 1 - |d|;
    DropDrop(c, k, |d|);
    assert FirstAt(c, d, k);
  }

  // cut_until with a std::string. For one byte, or a good delimiter, it cuts at the
  // first occurrence and fails exactly when there is none.
  method CutUntil(buf: IOBuf, out: IOBuf, d: seq<byte>) returns (rc: int)
    requires buf.Beside(out)
    modifies buf, buf.Ring(), out, out.Ring(), buf.mem`blocks, buf.mem`nblock, buf.mem`held
    ensures buf.Beside(out)
    ensures rc == 0 || rc == -1
    ensures d == [] || |d| > 8 ==> rc == -1
    ensures rc == -1 ==> buf.refs == old(buf.refs) && out.refs == old(out.refs) && buf.mem.blocks == old(buf.mem.blocks)
    ensures 2 <= |d| <= 8 ==> (rc == 0 <==> |d| <= |old(buf.Contents())| && Search(old(buf.Contents()), d, 0).Some?)
    ensures 2 <= |d| <= 8 && rc == 0 ==> var c := old(buf.Contents());
      Parted(c, old(out.Contents()), buf.Contents(), out.Contents(), Min(CutPoint(Search(c, d, 0).value, |d|), |c|), |d|)
    ensures |d| == 1 || Good(d) ==> (rc == -1 <==> Absent(old(buf.Contents()), d))
    ensures (|d| == 1 || Good(d)) && rc == 0 ==> CutAt(old(buf.Contents()), old(out.Contents()), buf.Contents(), out.Contents(), d)
    ensures Isolated(old(buf.mem.blocks), old(buf.mem.held), buf.mem.blocks, buf.mem.held, {buf, out})
  {
    hide Ok, Isolated, Bytes, IOBuf.Shape, Search;
    ghost var c, o := buf.Contents(), out.Contents();
    if |d| == 1 {
      AbsentByte(c, d[0]);
      assert d == [d[0]];
      rc := CutByChar(buf, out, d[0]);
    } else if |d| > 1 {
      rc := CutByDelim(buf, out, d);
      if Good(d) {
        if |d| <= |c| {
          GoodIsCorrect(c, d);
          if rc == 0 {
            GoodCut(c, o, buf.Contents(), out.Contents(), d);
          }
        }
      }
    } else {
      IsolatedRefl(buf.mem.blocks, buf.mem.held, {buf, out});
      rc := -1;
    }
  }

  lemma AbsentByte(c: seq<byte>, b: byte)
    ensures Absent(c, [b]) <==> b !in c
  {
    if b in c {
      var i :| 0 <= i < |c| && c[i] == b;
      assert c[i..i + 1] == [b] && OccursAt(c, [b], i);
    }
    forall j: nat | OccursAt(c, [b], j) ensures b in c {
      ByteThere(c, b, j);
    }
  }

  lemma ByteThere(c: seq<byte>, b: byte, j: nat)
    requires OccursAt(c, [b], j)
    ensures b in c
  {
    assert c[j..j + 1] == [c[j]];
  }
}
