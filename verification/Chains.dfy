/** Steps on the chains of blocks that threads and IOPortals append into, and the
    step that writes new bytes at the end of a block. */
module Chains {
  import opened Blocks
  import opened Ownership

  ghost predicate IsChain(held: Owners, o: object, ids: seq<BlockId>) {
    o in held && held[o] == Chain(ids)
  }

  lemma {:induction false} ChainHeld(held: Owners, o: object, ids: seq<BlockId>)
    requires IsChain(held, o, ids)
    ensures o in held && held[o] == Chain(ids)
  {
  }

  lemma {:induction false} MakeChain(held: Owners, o: object, ids: seq<BlockId>)
    requires o in held && held[o] == Chain(ids)
    ensures IsChain(held, o, ids)
  {
  }

  lemma {:induction false} HeldChainOk(s: Store, held: Owners, o: object)
    requires Ok(s, held) && o in held && held[o].Chain?
    ensures BlocksOk(s) && ChainOk(held[o].ids, s)
  {
    assert HoldingOk(held[o], s);
  }

  lemma {:induction false} ChainBlocksLive(ids: seq<BlockId>, s: Store)
    requires ChainOk(ids, s)
    ensures forall c :: c in multiset(ids) ==> c in s
  {
    forall c | c in multiset(ids) ensures c in s { assert c in ids; }
  }

  lemma {:induction false} ChainApart(s: Store, held: Owners, o: object, ids: seq<BlockId>)
    requires Ok(s, held) && o in held && held[o].Chain?
    requires forall b :: b in ids ==> b in held[o].ids
    ensures ApartFromOthers(held, o, Chain(ids))
  {
    forall p | p in held && p != o ensures Apart(Chain(ids), held[p]) && Apart(held[p], Chain(ids)) {
      assert Apart(held[o], held[p]) && Apart(held[p], held[o]);
    }
  }

  lemma {:induction false} ChainTail(ids: seq<BlockId>, s: Store)
    requires ChainOk(ids, s) && ids != []
    ensures ids[0] in s && ChainOk(ids[1..], s)
  {
    var tail := ids[1..];
    forall i | 0 <= i < |tail| ensures s[tail[i]].next == After(tail, i) {
      assert s[ids[i + 1]].next == After(ids, i + 1);
    }
  }

  // The first block leaves the chain and gives up its share.
  lemma {:induction false} ChainPopOk(s: Store, held: Owners, o: object)
    requires Ok(s, held) && o in held && held[o].Chain? && held[o].ids != []
    ensures var b := held[o].ids[0];
      && b in s
      && Ok(Dec(s, b), held[o := Chain(held[o].ids[1..])])
      && Isolated(s, held, Dec(s, b), held[o := Chain(held[o].ids[1..])], {o})
  {
    hide Ok, Isolated, ApartFromOthers;
    var ids := held[o].ids;
    var b, h := ids[0], Chain(ids[1..]);
    HeldChainOk(s, held, o);
    ChainTail(ids, s);
    assert ids == [b] + ids[1..];
    ChainBlocksLive(ids, s);
    SharesCover(s, held, o, b);
    ChainApart(s, held, o, ids[1..]);
    hide ChainOk;
    DecRebalances(s, b, Owned(held[o]), Owned(h));
    HoldingKept(h, s, Dec(s, b));
    Reassign(s, held, Dec(s, b), o, h);
  }

  // ---------- New blocks ----------

  lemma {:induction false} NewBlockKeeps(s: Store, h: Holding, b: BlockId, blk: Block)
    requires b !in s && HoldingOk(h, s)
    ensures HoldingOk(h, s[b := blk])
    ensures SameSight(h, s, s[b := blk])
  {
    var t := s[b := blk];
    if h.Queue? {
      forall i | 0 <= i < |h.refs| ensures RefOk(h.refs[i], t) && Slice(h.refs[i], s) == Slice(h.refs[i], t) {
        assert RefOk(h.refs[i], s);
      }
      BytesSame(h.refs, s, t);
    }
  }

  lemma {:induction false} NewBlockCounts(s: Store, held: Owners, o: object, h: Holding, b: BlockId, blk: Block)
    requires CountedBy(s, Total(held)) && o in held && b !in s && blk.nshared == 1
    requires Owned(h) == Owned(held[o]) + multiset{b}
    ensures CountedBy(s[b := blk], Total(held[o := h]))
  {
    hide Total;
    TotalUpdate(held, o, h);
    var total, total' := Total(held), Total(held[o := h]);
    assert forall c :: total'[c] == total[c] + multiset{b}[c];
  }

  lemma {:induction false} NewBlockHoldings(s: Store, held: Owners, o: object, h: Holding, b: BlockId, blk: Block)
    requires HoldingsOk(s, held) && b !in s && HoldingOk(h, s[b := blk])
    ensures HoldingsOk(s[b := blk], held[o := h])
    ensures Isolated(s, held, s[b := blk], held[o := h], {o})
  {
    forall p | p in held && p != o
      ensures HoldingOk(held[p], s[b := blk])
      ensures SameSight(held[p], s, s[b := blk])
    {
      NewBlockKeeps(s, held[p], b, blk);
    }
  }

  // A fresh block with one share joins what `o` holds.
  lemma {:induction false} NewBlockOk(s: Store, held: Owners, o: object, h: Holding, b: BlockId, blk: Block)
    requires Ok(s, held) && o in held && b != NULL && b !in s && BlockOk(blk) && blk.nshared == 1
    requires Owned(h) == Owned(held[o]) + multiset{b}
    requires HoldingOk(h, s[b := blk])
    requires ApartFromOthers(held, o, h)
    ensures Ok(s[b := blk], held[o := h])
    ensures Isolated(s, held, s[b := blk], held[o := h], {o})
  {
    hide Isolated, HoldingsOk, AllApart, CountedBy, ApartFromOthers, Total;
    NewBlockCounts(s, held, o, h, b, blk);
    NewBlockHoldings(s, held, o, h, b, blk);
    ApartAfter(held, o, h);
  }

  lemma {:induction false} HeldLive(s: Store, held: Owners, p: object, b: BlockId)
    requires Ok(s, held) && p in held && held[p].Chain? && b !in s
    ensures b !in held[p].ids
  {
    HeldChainOk(s, held, p);
  }

  lemma {:induction false} NewInChain(s: Store, held: Owners, o: object, b: BlockId, blk: Block)
    requires Ok(s, held) && IsChain(held, o, []) && b != NULL && b !in s
    requires BlockOk(blk) && blk.nshared == 1 && !blk.user && blk.next == NULL
    ensures Ok(s[b := blk], held[o := Chain([b])])
    ensures Isolated(s, held, s[b := blk], held[o := Chain([b])], {o})
  {
    assert multiset([b]) == multiset([]) + multiset{b};
    forall p | p in held && p != o ensures Apart(Chain([b]), held[p]) && Apart(held[p], Chain([b])) {
      if held[p].Chain? {
        HeldLive(s, held, p, b);
      }
    }
    NewBlockOk(s, held, o, Chain([b]), b, blk);
  }

  // ---------- Bytes written at the end of a block ----------

  function Fill(s: Store, b: BlockId, bytes: seq<byte>): Store
    requires b in s && s[b].size + |bytes| <= |s[b].data|
  {
    s[b := s[b].(size := s[b].size + |bytes|, data := Overwrite(s[b].data, s[b].size, bytes))]
  }

  lemma {:induction false} FillSlice(s: Store, r: BlockRef, b: BlockId, bytes: seq<byte>)
    requires BlocksOk(s) && RefOk(r, s) && b in s && s[b].size + |bytes| <= s[b].cap
    ensures RefOk(r, Fill(s, b, bytes)) && Slice(r, Fill(s, b, bytes)) == Slice(r, s)
  {
    if r.block == b {
      var d, d' := s[b].data, Fill(s, b, bytes)[b].data;
      assert d[..s[b].size] == d'[..s[b].size];
      SubSlice(d, 0, s[b].size, r.offset, r.offset + r.length);
      SubSlice(d', 0, s[b].size, r.offset, r.offset + r.length);
    }
  }

  lemma {:induction false} FillKeeps(s: Store, h: Holding, b: BlockId, bytes: seq<byte>)
    requires BlocksOk(s) && HoldingOk(h, s) && b in s && s[b].size + |bytes| <= s[b].cap
    requires h.Chain? ==> b !in h.ids
    ensures HoldingOk(h, Fill(s, b, bytes))
    ensures SameSight(h, s, Fill(s, b, bytes))
  {
    var t := Fill(s, b, bytes);
    if h.Queue? {
      forall i | 0 <= i < |h.refs| ensures RefOk(h.refs[i], t) && Slice(h.refs[i], s) == Slice(h.refs[i], t) {
        FillSlice(s, h.refs[i], b, bytes);
      }
      BytesSame(h.refs, s, t);
    }
  }

  lemma {:induction false} FillChainOk(s: Store, ids: seq<BlockId>, b: BlockId, bytes: seq<byte>)
    requires ChainOk(ids, s) && b in s && s[b].size + |bytes| <= |s[b].data|
    ensures ChainOk(ids, Fill(s, b, bytes))
  {
  }

  // Appending to a block of chain `o` changes what no other owner sees.
  lemma {:induction false} FillOk(s: Store, held: Owners, o: object, b: BlockId, bytes: seq<byte>)
    requires Ok(s, held) && b in s && s[b].size + |bytes| <= s[b].cap
    requires o in held && held[o].Chain? && b in held[o].ids
    ensures Ok(Fill(s, b, bytes), held)
    ensures Isolated(s, held, Fill(s, b, bytes), held, {o})
  {
    var t := Fill(s, b, bytes);
    forall p | p in held && p != o
      ensures HoldingOk(held[p], t) && SameSight(held[p], s, t)
    {
      assert Apart(held[o], held[p]);
      FillKeeps(s, held[p], b, bytes);
    }
    HeldChainOk(s, held, o);
    FillChainOk(s, held[o].ids, b, bytes);
    assert BlocksOk(t);
    assert CountedBy(t, Total(held));
  }

  // ---------- Blocks handed from one chain to another ----------

  function SetNext(s: Store, b: BlockId, next: BlockId): Store
    requires b in s
  {
    s[b := s[b].(next := next)]
  }

  ghost predicate SameButNext(s: Store, t: Store) {
    t.Keys == s.Keys && forall b :: b in s ==> t[b] == s[b].(next := t[b].next)
  }

  lemma {:induction false} RelinkQueue(s: Store, t: Store, refs: seq<BlockRef>)
    requires SameButNext(s, t) && RefsOk(refs, s)
    ensures RefsOk(refs, t) && Bytes(refs, t) == Bytes(refs, s)
  {
    forall i | 0 <= i < |refs| ensures RefOk(refs[i], t) && Slice(refs[i], s) == Slice(refs[i], t) {
      assert RefOk(refs[i], s);
    }
    BytesSame(refs, s, t);
  }

  lemma {:induction false} RelinkCounts(s: Store, t: Store, total: multiset<BlockId>)
    requires SameButNext(s, t) && CountedBy(s, total) && BlocksOk(s)
    ensures CountedBy(t, total) && BlocksOk(t)
  {
  }

  lemma {:induction false} HandOverTotal(held: Owners, o: object, p: object, h: Holding, g: Holding)
    requires o in held && p in held && o != p
    requires Owned(h) + Owned(g) == Owned(held[o]) + Owned(held[p])
    ensures Total(held[o := h][p := g]) == Total(held)
  {
    hide Total;
    TotalUpdate(held, o, h);
    TotalUpdate(held[o := h], p, g);
    var total, total' := Total(held), Total(held[o := h][p := g]);
    forall b ensures total'[b] == total[b] {
      assert (Owned(h) + Owned(g))[b] == (Owned(held[o]) + Owned(held[p]))[b];
    }
  }

  ghost predicate Untouched(held: Owners, s: Store, t: Store, o: object, p: object) {
    forall q, b :: q in held && q != o && q != p && held[q].Chain? && b in held[q].ids && b in s && b in t ==>
      t[b].next == s[b].next
  }

  lemma {:induction false} HandOverHoldings(s: Store, t: Store, held: Owners, o: object, p: object, h: Holding, g: Holding)
    requires HoldingsOk(s, held) && SameButNext(s, t) && Untouched(held, s, t, o, p) && o != p
    requires HoldingOk(h, t) && HoldingOk(g, t)
    ensures HoldingsOk(t, held[o := h][p := g])
    ensures Isolated(s, held, t, held[o := h][p := g], {o, p})
  {
    forall q | q in held && q != o && q != p
      ensures HoldingOk(held[q], t)
      ensures SameSight(held[q], s, t)
    {
      assert HoldingOk(held[q], s);
      if held[q].Queue? {
        RelinkQueue(s, t, held[q].refs);
      } else {
        assert ChainOk(held[q].ids, t);
      }
    }
  }

  lemma {:induction false} HandOverApart(held: Owners, o: object, p: object, h: seq<BlockId>, g: seq<BlockId>)
    requires AllApart(held) && o in held && p in held && o != p && held[o].Chain? && held[p].Chain?
    requires forall b :: b in h ==> b in held[o].ids || b in held[p].ids
    requires forall b :: b in g ==> b in held[o].ids || b in held[p].ids
    requires forall b :: b in h ==> b !in g
    ensures AllApart(held[o := Chain(h)][p := Chain(g)])
  {
    var held' := held[o := Chain(h)][p := Chain(g)];
    forall q, r | q in held' && r in held' && q != r ensures Apart(held'[q], held'[r]) {
      if q in held && r in held {
        assert Apart(held[q], held[r]);
        assert r != o ==> Apart(held[o], held[r]);
        assert r != p ==> Apart(held[p], held[r]);
        assert q != o ==> Apart(held[q], held[o]);
        assert q != p ==> Apart(held[q], held[p]);
      }
    }
  }

  // Two chains exchange blocks: nobody else is affected.
  lemma {:induction false} HandOverOk(s: Store, t: Store, held: Owners, o: object, p: object,
                                      h: seq<BlockId>, g: seq<BlockId>)
    requires Ok(s, held) && o in held && p in held && o != p && held[o].Chain? && held[p].Chain?
    requires multiset(h) + multiset(g) == multiset(held[o].ids) + multiset(held[p].ids)
    requires forall b :: b in h ==> b !in g
    requires SameButNext(s, t) && Untouched(held, s, t, o, p)
    requires ChainOk(h, t) && ChainOk(g, t)
    ensures Ok(t, held[o := Chain(h)][p := Chain(g)])
    ensures Isolated(s, held, t, held[o := Chain(h)][p := Chain(g)], {o, p})
  {
    hide Total, HoldingsOk, AllApart, Isolated, Untouched, ChainOk, CountedBy, BlocksOk, SameButNext;
    HandOverHoldings(s, t, held, o, p, Chain(h), Chain(g));
    HandOverTotal(held, o, p, Chain(h), Chain(g));
    FromEither(h, g, held[o].ids, held[p].ids);
    HandOverApart(held, o, p, h, g);
    RelinkCounts(s, t, Total(held));
  }

  lemma {:induction false} FromEither(h: seq<BlockId>, g: seq<BlockId>, x: seq<BlockId>, y: seq<BlockId>)
    requires multiset(h) + multiset(g) == multiset(x) + multiset(y)
    ensures forall b :: b in h || b in g ==> b in x || b in y
  {
    forall b | b in h || b in g ensures b in x || b in y {
      assert b in multiset(h) + multiset(g);
    }
  }

  // A chain is untouched when the blocks whose link changed belong to `o` or `p`.
  lemma {:induction false} OnlyTheirs(held: Owners, s: Store, t: Store, o: object, p: object)
    requires Ok(s, held) && o in held && p in held && held[o].Chain? && held[p].Chain?
    requires forall b :: b in s && b in t && t[b].next != s[b].next ==> b in held[o].ids || b in held[p].ids
    ensures Untouched(held, s, t, o, p)
  {
    forall q, b | q in held && q != o && q != p && held[q].Chain? && b in held[q].ids && b in s && b in t
      ensures t[b].next == s[b].next
    {
      assert Apart(held[o], held[q]) && Apart(held[p], held[q]);
    }
  }

  lemma {:induction false} UnlinkedTail(ids: seq<BlockId>, s: Store)
    requires ChainOk(ids, s) && ids != []
    ensures ids[0] in s
    ensures var t := SetNext(s, ids[0], NULL); ChainOk(ids[1..], t) && ChainOk([ids[0]], t)
    ensures ids[0] !in ids[1..]
  {
    ChainTail(ids, s);
    var tail, t := ids[1..], SetNext(s, ids[0], NULL);
    forall i | 0 <= i < |tail| ensures tail[i] in t && t[tail[i]] == s[tail[i]] {
      assert tail[i] == ids[i + 1];
    }
  }

  lemma {:induction false} TakeHeadLinks(s: Store, held: Owners, o: object, p: object, ids: seq<BlockId>)
    requires Ok(s, held) && IsChain(held, o, ids) && IsChain(held, p, []) && ids != []
    ensures ids[0] in s && ids[0] !in ids[1..]
    ensures var t := SetNext(s, ids[0], NULL);
      SameButNext(s, t) && Untouched(held, s, t, o, p) && ChainOk(ids[1..], t) && ChainOk([ids[0]], t)
  {
    hide Ok, Untouched;
    HeldChainOk(s, held, o);
    UnlinkedTail(ids, s);
    OnlyTheirs(held, s, SetNext(s, ids[0], NULL), o, p);
  }

  // The head of one chain moves, unlinked, into an empty one.
  lemma {:induction false} TakeHeadOk(s: Store, held: Owners, o: object, p: object, ids: seq<BlockId>)
    requires Ok(s, held) && IsChain(held, o, ids) && IsChain(held, p, []) && ids != [] && o != p && ids[0] in s
    ensures var t, held' := SetNext(s, ids[0], NULL), held[o := Chain(ids[1..])][p := Chain([ids[0]])];
      Ok(t, held') && Isolated(s, held, t, held', {o, p})
  {
    hide Ok, Isolated, Untouched, ChainOk, SameButNext;
    TakeHeadLinks(s, held, o, p, ids);
    assert ids == [ids[0]] + ids[1..];
    HandOverOk(s, SetNext(s, ids[0], NULL), held, o, p, ids[1..], [ids[0]]);
  }

  lemma {:induction false} JoinLinks(x: seq<BlockId>, y: seq<BlockId>, s: Store, t: Store, i: nat)
    requires ChainOk(x, s) && ChainOk(y, s) && x != [] && x[|x| - 1] !in y && x[|x| - 1] in s
    requires t == SetNext(s, x[|x| - 1], if y == [] then NULL else y[0])
    requires i < |x + y|
    ensures (x + y)[i] in t && !t[(x + y)[i]].user && t[(x + y)[i]].next == After(x + y, i)
  {
    var k := |x| - 1;
    if i < k {
      assert x[i] != x[k];
      assert s[x[i]].next == After(x, i);
    } else if k < i {
      var j := i - |x|;
      assert (x + y)[i] == y[j] && s[y[j]].next == After(y, j);
    }
  }

  lemma {:induction false} JoinChains(x: seq<BlockId>, y: seq<BlockId>, s: Store, t: Store)
    requires ChainOk(x, s) && ChainOk(y, s) && x != [] && (forall b :: b in x ==> b !in y) && x[|x| - 1] in s
    requires t == SetNext(s, x[|x| - 1], if y == [] then NULL else y[0])
    ensures ChainOk(x + y, t)
  {
    forall i | 0 <= i < |x + y|
      ensures (x + y)[i] in t && !t[(x + y)[i]].user && t[(x + y)[i]].next == After(x + y, i)
    {
      JoinLinks(x, y, s, t, i);
    }
    JoinDistinct(x, y);
  }

  lemma {:induction false} JoinDistinct(x: seq<BlockId>, y: seq<BlockId>)
    requires forall i, j :: 0 <= i < j < |x| ==> x[i] != x[j]
    requires forall i, j :: 0 <= i < j < |y| ==> y[i] != y[j]
    requires forall b :: b in x ==> b !in y
    ensures forall i, j :: 0 <= i < j < |x + y| ==> (x + y)[i] != (x + y)[j]
  {
    forall i, j | 0 <= i < j < |x + y| ensures (x + y)[i] != (x + y)[j] {
      if i < |x| <= j {
        assert x[i] in x && y[j - |x|] in y;
      }
    }
  }

  lemma {:induction false} ChainsDisjoint(s: Store, held: Owners, o: object, p: object)
    requires Ok(s, held) && o in held && p in held && o != p && held[o].Chain? && held[p].Chain?
    ensures forall b :: b in held[o].ids ==> b !in held[p].ids
  {
    assert Apart(held[o], held[p]);
  }

  lemma {:induction false} PrependLinks(s: Store, held: Owners, o: object, p: object, x: seq<BlockId>, y: seq<BlockId>)
    requires Ok(s, held) && IsChain(held, o, y) && IsChain(held, p, x) && o != p && x != [] && x[|x| - 1] in s
    ensures var t := SetNext(s, x[|x| - 1], if y == [] then NULL else y[0]);
      SameButNext(s, t) && Untouched(held, s, t, o, p) && ChainOk(x + y, t) && ChainOk([], t)
  {
    hide Ok, Untouched;
    HeldChainOk(s, held, o);
    HeldChainOk(s, held, p);
    ChainsDisjoint(s, held, p, o);
    var t := SetNext(s, x[|x| - 1], if y == [] then NULL else y[0]);
    JoinChains(x, y, s, t);
    assert ChainOk([], t);
    hide ChainOk;
    OnlyTheirs(held, s, t, o, p);
  }

  // The whole chain of `p` goes in front of the chain of `o`.
  lemma {:induction false} PrependOk(s: Store, held: Owners, o: object, p: object, x: seq<BlockId>, y: seq<BlockId>)
    requires Ok(s, held) && IsChain(held, o, y) && IsChain(held, p, x) && o != p && x != [] && x[|x| - 1] in s
    ensures var t, held' := SetNext(s, x[|x| - 1], if y == [] then NULL else y[0]), held[o := Chain(x + y)][p := Chain([])];
      Ok(t, held') && Isolated(s, held, t, held', {o, p})
  {
    hide Ok, Isolated, Untouched, ChainOk, SameButNext;
    var t := SetNext(s, x[|x| - 1], if y == [] then NULL else y[0]);
    PrependLinks(s, held, o, p, x, y);
    assert multiset(x + y) + multiset([]) == multiset(y) + multiset(x);
    HandOverOk(s, t, held, o, p, x + y, []);
  }

  lemma {:induction false} LinkLinks(s: Store, held: Owners, o: object, p: object, x: seq<BlockId>, b: BlockId)
    requires Ok(s, held) && IsChain(held, o, x) && IsChain(held, p, [b]) && o != p && x != [] && x[|x| - 1] in s
    ensures var t := SetNext(s, x[|x| - 1], b);
      SameButNext(s, t) && Untouched(held, s, t, o, p) && ChainOk(x + [b], t) && ChainOk([], t)
  {
    hide Ok, Untouched;
    HeldChainOk(s, held, o);
    HeldChainOk(s, held, p);
    ChainsDisjoint(s, held, o, p);
    var t := SetNext(s, x[|x| - 1], b);
    JoinChains(x, [b], s, t);
    assert ChainOk([], t);
    hide ChainOk;
    OnlyTheirs(held, s, t, o, p);
  }

  // The single block held by `p` is linked to the end of the chain of `o`.
  lemma {:induction false} LinkOk(s: Store, held: Owners, o: object, p: object, x: seq<BlockId>, b: BlockId)
    requires Ok(s, held) && IsChain(held, o, x) && IsChain(held, p, [b]) && o != p && x != [] && x[|x| - 1] in s
    ensures var t, held' := SetNext(s, x[|x| - 1], b), held[o := Chain(x + [b])][p := Chain([])];
      Ok(t, held') && Isolated(s, held, t, held', {o, p})
  {
    hide Ok, Isolated, Untouched, ChainOk, SameButNext;
    LinkLinks(s, held, o, p, x, b);
    assert multiset(x + [b]) + multiset([]) == multiset(x) + multiset([b]);
    HandOverOk(s, SetNext(s, x[|x| - 1], b), held, o, p, x + [b], []);
  }

  // The single block held by `p` becomes the whole chain of `o`.
  lemma {:induction false} AdoptOk(s: Store, held: Owners, o: object, p: object, b: BlockId)
    requires Ok(s, held) && IsChain(held, o, []) && IsChain(held, p, [b]) && o != p
    ensures Ok(s, held[o := Chain([b])][p := Chain([])])
    ensures Isolated(s, held, s, held[o := Chain([b])][p := Chain([])], {o, p})
  {
    SwapOk(s, held, o, p);
  }

  // ---------- A filled block and the ref to its new bytes ----------

  lemma {:induction false} FilledSlice(s: Store, b: BlockId, bytes: seq<byte>)
    requires BlocksOk(s) && b in s && s[b].size + |bytes| <= s[b].cap && bytes != []
    ensures var t := Fill(s, b, bytes); var r := BlockRef(s[b].size, |bytes|, b); RefOk(r, t) && Slice(r, t) == bytes
  {
  }

  // Block `b` grew by `bytes`; counts aside, all other blocks are as they were.
  ghost predicate Filled(s: Store, t: Store, b: BlockId, bytes: seq<byte>) {
    && b in s && b in t && t[b].size == s[b].size + |bytes| && t[b].cap == s[b].cap
    && forall c :: c in s && c != b ==> c in t && t[c] == s[c].(nshared := t[c].nshared)
  }

  lemma {:induction false} FillPushOk(s: Store, held: Owners, o: object, c: object, b: BlockId, bytes: seq<byte>, ring: object?)
    requires Ok(s, held) && o in held && held[o].Queue? && RingFree(held, o, ring)
    requires c in held && held[c].Chain? && b in held[c].ids
    requires b in s && s[b].size + |bytes| <= s[b].cap == |s[b].data| && bytes != []
    ensures var refs, r := held[o].refs, BlockRef(s[b].size, |bytes|, b);
      var t, held' := PushStore(Fill(s, b, bytes), refs, r), held[o := Queue(PushRef(refs, r), ring)];
      && Ok(t, held') && Isolated(s, held, t, held', {o, c})
      && Bytes(PushRef(refs, r), t) == Bytes(refs, s) + bytes
      && Filled(s, t, b, bytes)
  {
    hide Ok, Isolated, Bytes, RingFree;
    var refs, r := held[o].refs, BlockRef(s[b].size, |bytes|, b);
    var m := Fill(s, b, bytes);
    HeldOk(s, held, o);
    FillOk(s, held, c, b, bytes);
    FilledSlice(s, b, bytes);
    PushOk(m, held, o, r, ring);
    FillKeeps(s, held[o], b, bytes);
    IsolatedBoth(s, held, m, held, PushStore(m, refs, r), held[o := Queue(PushRef(refs, r), ring)], o, c);
  }

  // ---------- Two owners exchange all they hold ----------

  lemma {:induction false} SwapApart(held: Owners, o: object, p: object)
    requires AllApart(held) && o in held && p in held && o != p
    ensures AllApart(held[o := held[p]][p := held[o]])
  {
    var held' := held[o := held[p]][p := held[o]];
    forall q, r | q in held' && r in held' && q != r ensures Apart(held'[q], held'[r]) {
      var q' := if q == o then p else if q == p then o else q;
      var r' := if r == o then p else if r == p then o else r;
      assert Apart(held[q'], held[r']);
    }
  }

  lemma {:induction false} SwapOk(s: Store, held: Owners, o: object, p: object)
    requires Ok(s, held) && o in held && p in held && o != p
    ensures Ok(s, held[o := held[p]][p := held[o]])
    ensures Isolated(s, held, s, held[o := held[p]][p := held[o]], {o, p})
  {
    hide Total, Apart, HoldingOk, CountedBy, BlocksOk;
    SwapApart(held, o, p);
    HandOverTotal(held, o, p, held[p], held[o]);
    IsolatedRefl(s, held, {o, p});
    hide AllApart, SameSight;
  }
}
