/** The memory cell behind each byte of a buffer, and writing such cells in place. */
module Cells {
  import opened Blocks
  import opened Ownership

  datatype Cell = Cell(block: BlockId, at: nat)

  function RefCells(r: BlockRef): (c: seq<Cell>)
    ensures |c| == r.length
    ensures forall i :: 0 <= i < |c| ==> c[i] == Cell(r.block, r.offset + i)
  {
    seq(r.length, i requires 0 <= i < r.length => Cell(r.block, r.offset + i))
  }

  // The cells of a queue, one for each byte it stands for.
  function CellsOf(refs: seq<BlockRef>): (c: seq<Cell>)
    ensures |c| == SumLengths(refs)
  {
    if refs == [] then [] else RefCells(refs[0]) + CellsOf(refs[1..])
  }

  lemma CellAssoc(a: seq<Cell>, b: seq<Cell>, c: seq<Cell>)
    ensures (a + b) + c == a + (b + c)
  {
  }

  lemma {:induction false} CellsConcat(a: seq<BlockRef>, b: seq<BlockRef>)
    ensures CellsOf(a + b) == CellsOf(a) + CellsOf(b)
  {
    if a == [] {
      assert a + b == b;
    } else {
      CellsConcat(a[1..], b);
      assert (a + b)[1..] == a[1..] + b;
      CellAssoc(RefCells(a[0]), CellsOf(a[1..]), CellsOf(b));
    }
  }

  lemma {:induction false} CellsSnoc(a: seq<BlockRef>, r: BlockRef)
    ensures CellsOf(a + [r]) == CellsOf(a) + RefCells(r)
  {
    CellsConcat(a, [r]);
    assert CellsOf([r]) == RefCells(r) + CellsOf([]);
  }

  // Merged or not, a pushed ref adds its cells at the end.
  lemma {:induction false} CellsPush(refs: seq<BlockRef>, r: BlockRef)
    ensures CellsOf(PushRef(refs, r)) == CellsOf(refs) + RefCells(r)
  {
    if Merges(refs, r) {
      var init, back := refs[..|refs| - 1], refs[|refs| - 1];
      var back' := back.(length := back.length + r.length);
      assert refs == init + [back] && PushRef(refs, r) == init + [back'];
      CellsSnoc(init, back);
      CellsSnoc(init, back');
      assert RefCells(back') == RefCells(back) + RefCells(r);
      CellAssoc(CellsOf(init), RefCells(back), RefCells(r));
    } else {
      CellsSnoc(refs, r);
    }
  }

  predicate Readable(c: Cell, s: Store) {
    c.block in s && c.at < |s[c.block].data|
  }

  lemma {:induction false} SliceCells(r: BlockRef, s: Store, i: nat)
    requires BlocksOk(s) && RefOk(r, s) && i < r.length
    ensures Readable(RefCells(r)[i], s)
    ensures Slice(r, s)[i] == s[r.block].data[RefCells(r)[i].at]
  {
  }

  // Each byte of a buffer is read from its cell.
  lemma {:induction false} BytesAreCells(refs: seq<BlockRef>, s: Store, k: nat)
    requires BlocksOk(s) && RefsOk(refs, s) && k < SumLengths(refs)
    ensures |Bytes(refs, s)| == SumLengths(refs)
    ensures var c := CellsOf(refs)[k]; Readable(c, s) && c.at < s[c.block].size && Bytes(refs, s)[k] == s[c.block].data[c.at]
  {
    BytesLength(refs, s);
    assert RefOk(refs[0], s);
    FrontBytes(refs, s);
    if k < refs[0].length {
      SliceCells(refs[0], s, k);
    } else {
      assert RefsOk(refs[1..], s) by {
        forall i | 0 <= i < |refs[1..]| ensures RefOk(refs[1..][i], s) { assert RefOk(refs[i + 1], s); }
      }
      BytesAreCells(refs[1..], s, k - refs[0].length);
    }
  }

  // ---------- Writing cells in place ----------

  function Poke(s: Store, b: BlockId, at: nat, bytes: seq<byte>): Store
    requires b in s && at + |bytes| <= |s[b].data|
  {
    s[b := s[b].(data := Overwrite(s[b].data, at, bytes))]
  }

  predicate Covers(b: BlockId, at: nat, n: nat, c: Cell) {
    c.block == b && at <= c.at < at + n
  }

  lemma {:induction false} PokedCell(s: Store, b: BlockId, at: nat, bytes: seq<byte>, c: Cell)
    requires b in s && at + |bytes| <= |s[b].data| && Readable(c, s)
    ensures Readable(c, Poke(s, b, at, bytes))
    ensures Poke(s, b, at, bytes)[c.block].data[c.at] ==
            if Covers(b, at, |bytes|, c) then bytes[c.at - at] else s[c.block].data[c.at]
  {
  }

  lemma {:induction false} PokeKeepsOk(s: Store, held: Owners, b: BlockId, at: nat, bytes: seq<byte>)
    requires Ok(s, held) && b in s && at + |bytes| <= s[b].size
    ensures at + |bytes| <= |s[b].data|
    ensures Ok(Poke(s, b, at, bytes), held)
  {
    assert BlockOk(s[b]);
    var t := Poke(s, b, at, bytes);
    assert BlocksOk(t);
    forall o | o in held ensures HoldingOk(held[o], t) {
      assert HoldingOk(held[o], s);
      if held[o].Queue? {
        forall i | 0 <= i < |held[o].refs| ensures RefOk(held[o].refs[i], t) { assert RefOk(held[o].refs[i], s); }
      }
    }
    assert CountedBy(t, Total(held));
  }

  ghost predicate NoneCovered(refs: seq<BlockRef>, b: BlockId, at: nat, n: nat) {
    forall c :: c in CellsOf(refs) ==> !Covers(b, at, n, c)
  }

  // A buffer with none of the written cells does not change.
  lemma {:induction false} PokeElsewhere(refs: seq<BlockRef>, s: Store, b: BlockId, at: nat, bytes: seq<byte>)
    requires BlocksOk(s) && RefsOk(refs, s) && b in s && at + |bytes| <= |s[b].data|
    requires NoneCovered(refs, b, at, |bytes|)
    ensures Bytes(refs, Poke(s, b, at, bytes)) == Bytes(refs, s)
  {
    var t := Poke(s, b, at, bytes);
    PokeRefsOk(refs, s, b, at, bytes);
    BytesLength(refs, s);
    BytesLength(refs, t);
    forall k | 0 <= k < SumLengths(refs) ensures Bytes(refs, t)[k] == Bytes(refs, s)[k] {
      BytesAreCells(refs, s, k);
      BytesAreCells(refs, t, k);
      PokedCell(s, b, at, bytes, CellsOf(refs)[k]);
    }
  }

  lemma {:induction false} PokeRefsOk(refs: seq<BlockRef>, s: Store, b: BlockId, at: nat, bytes: seq<byte>)
    requires BlocksOk(s) && RefsOk(refs, s) && b in s && at + |bytes| <= |s[b].data|
    ensures BlocksOk(Poke(s, b, at, bytes)) && RefsOk(refs, Poke(s, b, at, bytes))
  {
    forall i | 0 <= i < |refs| ensures RefOk(refs[i], Poke(s, b, at, bytes)) { assert RefOk(refs[i], s); }
  }

  // The cells of `refs` from position `p` on are the `n` written ones, and no others are.
  ghost predicate OnlyAt(refs: seq<BlockRef>, b: BlockId, at: nat, n: nat, p: nat) {
    && p + n <= |CellsOf(refs)|
    && (forall k :: p <= k < p + n ==> CellsOf(refs)[k] == Cell(b, at + k - p))
    && (forall k :: 0 <= k < p || p + n <= k < |CellsOf(refs)| ==> !Covers(b, at, n, CellsOf(refs)[k]))
  }

  lemma {:induction false} PokeHere(refs: seq<BlockRef>, s: Store, b: BlockId, at: nat, bytes: seq<byte>, p: nat)
    requires BlocksOk(s) && RefsOk(refs, s) && b in s && at + |bytes| <= |s[b].data|
    requires OnlyAt(refs, b, at, |bytes|, p)
    ensures p + |bytes| <= |Bytes(refs, s)|
    ensures Bytes(refs, Poke(s, b, at, bytes)) == Overwrite(Bytes(refs, s), p, bytes)
  {
    hide Bytes, CellsOf, SumLengths;
    var t := Poke(s, b, at, bytes);
    PokeRefsOk(refs, s, b, at, bytes);
    BytesLength(refs, s);
    BytesLength(refs, t);
    forall k | 0 <= k < SumLengths(refs) ensures Bytes(refs, t)[k] == Overwrite(Bytes(refs, s), p, bytes)[k] {
      BytesAreCells(refs, s, k);
      BytesAreCells(refs, t, k);
      PokedCell(s, b, at, bytes, CellsOf(refs)[k]);
    }
  }

  // ---------- Growing at the back ----------

  // `b` is `a` with refs pushed behind it: only the last ref may have become longer.
  ghost predicate Extends(a: seq<BlockRef>, b: seq<BlockRef>) {
    && |a| <= |b|
    && (forall i :: 0 <= i < |a| - 1 ==> b[i] == a[i])
    && (a != [] ==> b[|a| - 1] == a[|a| - 1].(length := b[|a| - 1].length) && a[|a| - 1].length <= b[|a| - 1].length)
  }

  lemma {:induction false} ExtendsPush(refs: seq<BlockRef>, r: BlockRef)
    ensures Extends(refs, PushRef(refs, r))
  {
  }

  lemma {:induction false} ExtendsTrans(a: seq<BlockRef>, b: seq<BlockRef>, c: seq<BlockRef>)
    requires Extends(a, b) && Extends(b, c)
    ensures Extends(a, c)
  {
    if a != [] && |a| < |b| {
      assert c[|a| - 1] == b[|a| - 1];
    }
  }

  // The cells of `a` come first, and none of them is repeated behind.
  ghost predicate Fresher(a: seq<Cell>, b: seq<Cell>) {
    && a <= b
    && forall k :: |a| <= k < |b| ==> b[k] !in a
  }

  lemma {:induction false} FresherTrans(a: seq<Cell>, b: seq<Cell>, c: seq<Cell>)
    requires Fresher(a, b) && Fresher(b, c)
    ensures Fresher(a, c)
  {
    forall k | |a| <= k < |c| ensures c[k] !in a {
      PrefixMembers(a, b);
    }
  }

  lemma {:induction false} PrefixMembers(a: seq<Cell>, b: seq<Cell>)
    requires a <= b
    ensures forall x :: x in a ==> x in b
  {
    assert forall i :: 0 <= i < |a| ==> a[i] == b[i];
  }

  // Cells at or beyond the size of a block belong to nobody yet.
  lemma {:induction false} BeyondSize(refs: seq<BlockRef>, s: Store, r: BlockRef)
    requires BlocksOk(s) && RefsOk(refs, s) && r.block in s && s[r.block].size <= r.offset
    ensures forall c :: c in RefCells(r) ==> c !in CellsOf(refs)
  {
    forall c | c in RefCells(r) ensures c !in CellsOf(refs) {
      if c in CellsOf(refs) {
        var k :| 0 <= k < SumLengths(refs) && CellsOf(refs)[k] == c;
        BytesAreCells(refs, s, k);
      }
    }
  }

  // Bytes have been added behind `a`, in cells `a` did not have.
  ghost predicate Grown(a: seq<BlockRef>, b: seq<BlockRef>) {
    Extends(a, b) && Fresher(CellsOf(a), CellsOf(b))
  }

  lemma {:induction false} GrownRefl(a: seq<BlockRef>)
    ensures Grown(a, a)
  {
  }

  lemma {:induction false} GrownTrans(a: seq<BlockRef>, b: seq<BlockRef>, c: seq<BlockRef>)
    requires Grown(a, b) && Grown(b, c)
    ensures Grown(a, c)
  {
    ExtendsTrans(a, b, c);
    FresherTrans(CellsOf(a), CellsOf(b), CellsOf(c));
  }

  lemma {:induction false} GrownPush(refs: seq<BlockRef>, s: Store, r: BlockRef)
    requires BlocksOk(s) && RefsOk(refs, s) && r.block in s && s[r.block].size <= r.offset
    ensures Grown(refs, PushRef(refs, r))
  {
    ExtendsPush(refs, r);
    BeyondSize(refs, s, r);
    CellsPush(refs, r);
  }
}
