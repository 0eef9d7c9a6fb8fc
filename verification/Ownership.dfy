/** What each elementary step on blocks does to the invariant `Ok` and to the
    bytes seen by owners that take no part in the step. */
module Ownership {
  import opened Blocks

  // A queue shows the same bytes; the blocks of a chain have the same room.
  ghost predicate SameSight(h: Holding, s: Store, t: Store) {
    match h
    case Queue(refs, _) => Bytes(refs, t) == Bytes(refs, s)
    case Chain(ids) => forall b :: b in ids && b in s ==>
      b in t && t[b].size == s[b].size && t[b].cap == s[b].cap
  }

  // Owners outside `changed` hold what they held and see what they saw; new owners
  // have nothing yet.
  ghost predicate Isolated(s: Store, held: Owners, t: Store, held': Owners, changed: set<object>) {
    && (forall o :: o in held && o !in changed ==>
         o in held' && held'[o] == held[o] && SameSight(held[o], s, t))
    && (forall o :: o in held' && o !in held && o !in changed ==>
         held'[o] == Queue([], null) || held'[o] == Chain([]))
  }

  lemma {:induction false} IsolatedTrans(s: Store, held: Owners, t: Store, held': Owners, u: Store, held'': Owners,
                      changed: set<object>)
    requires Isolated(s, held, t, held', changed) && Isolated(t, held', u, held'', changed)
    ensures Isolated(s, held, u, held'', changed)
  {
  }

  lemma {:induction false} IsolatedRefl(s: Store, held: Owners, changed: set<object>)
    ensures Isolated(s, held, s, held, changed)
  {
  }

  // `t` differs from `s` in reference counts only, apart from freed blocks.
  ghost predicate OnlyCounts(s: Store, t: Store) {
    forall b :: b in t ==> b in s && t[b] == s[b].(nshared := t[b].nshared)
  }

  lemma {:induction false} MemberOfRefs(refs: seq<BlockRef>, i: nat)
    requires i < |refs|
    ensures refs[i].block in multiset(IdsOf(refs))
  {
    assert IdsOf(refs)[i] == refs[i].block;
  }

  lemma {:induction false} HoldingKept(h: Holding, s: Store, t: Store)
    requires HoldingOk(h, s)
    requires OnlyCounts(s, t)
    requires forall b :: b in Owned(h) ==> b in t
    ensures HoldingOk(h, t)
    ensures SameSight(h, s, t)
  {
    match h
    case Queue(refs, _) =>
      forall i | 0 <= i < |refs| ensures RefOk(refs[i], t) && Slice(refs[i], s) == Slice(refs[i], t) {
        MemberOfRefs(refs, i);
        assert RefOk(refs[i], s);
      }
      BytesSame(refs, s, t);
    case Chain(ids) =>
      forall i | 0 <= i < |ids| ensures ids[i] in t { assert ids[i] in multiset(ids); }
  }

  ghost predicate ApartFromOthers(held: Owners, o: object, h: Holding) {
    forall p :: p in held && p != o ==> Apart(h, held[p]) && Apart(held[p], h)
  }

  // One owner exchanges what it accounts for, and the counts follow.
  ghost predicate Rebalanced(s: Store, t: Store, before: multiset<BlockId>, after: multiset<BlockId>) {
    && OnlyCounts(s, t)
    && (forall b :: b in t ==> 0 < t[b].nshared && t[b].nshared + before[b] == s[b].nshared + after[b])
    && (forall b :: b in s && b !in t ==> s[b].nshared + after[b] == before[b])
    && (forall b :: b in after ==> b in t)
  }

  lemma {:induction false} CountsFollow(s: Store, t: Store, before: multiset<BlockId>, after: multiset<BlockId>,
                     total: multiset<BlockId>, total': multiset<BlockId>)
    requires CountedBy(s, total) && Rebalanced(s, t, before, after)
    requires before <= total
    requires forall b :: total'[b] + before[b] == total[b] + after[b]
    ensures CountedBy(t, total')
  {
    forall b | b in total' ensures b in t {
      assert total'[b] + before[b] == total[b] + after[b];
    }
  }

  lemma {:induction false} OthersKept(s: Store, held: Owners, t: Store, o: object, h: Holding, p: object)
    requires Ok(s, held) && o in held && p in held && p != o
    requires OnlyCounts(s, t) && CountedBy(t, Total(held[o := h]))
    ensures HoldingOk(held[p], t)
    ensures SameSight(held[p], s, t)
  {
    OwnedWithinTotal(held[o := h], p);
    HoldingKept(held[p], s, t);
  }

  lemma {:induction false} CountedAfter(s: Store, held: Owners, t: Store, o: object, h: Holding)
    requires CountedBy(s, Total(held)) && o in held
    requires Rebalanced(s, t, Owned(held[o]), Owned(h))
    ensures CountedBy(t, Total(held[o := h]))
  {
    TotalUpdate(held, o, h);
    OwnedWithinTotal(held, o);
    CountsFollow(s, t, Owned(held[o]), Owned(h), Total(held), Total(held[o := h]));
  }

  lemma {:induction false} ApartAfter(held: Owners, o: object, h: Holding)
    requires AllApart(held)
    requires ApartFromOthers(held, o, h)
    ensures AllApart(held[o := h])
  {
  }

  lemma {:induction false} HoldingsAfter(s: Store, held: Owners, t: Store, o: object, h: Holding)
    requires Ok(s, held) && o in held
    requires OnlyCounts(s, t) && CountedBy(t, Total(held[o := h]))
    requires HoldingOk(h, t)
    ensures HoldingsOk(t, held[o := h])
    ensures Isolated(s, held, t, held[o := h], {o})
  {
    hide Ok, OnlyCounts, CountedBy, Total, HoldingOk, SameSight;
    forall p | p in held && p != o
      ensures HoldingOk(held[p], t)
      ensures SameSight(held[p], s, t)
    {
      OthersKept(s, held, t, o, h, p);
    }
  }

  lemma {:induction false} Reassign(s: Store, held: Owners, t: Store, o: object, h: Holding)
    requires Ok(s, held) && o in held
    requires Rebalanced(s, t, Owned(held[o]), Owned(h))
    requires HoldingOk(h, t)
    requires ApartFromOthers(held, o, h)
    ensures Ok(t, held[o := h])
    ensures Isolated(s, held, t, held[o := h], {o})
  {
    CountedAfter(s, held, t, o, h);
    HoldingsAfter(s, held, t, o, h);
    ApartAfter(held, o, h);
    assert BlocksOk(t);
  }

  lemma {:induction false} IncRebalances(s: Store, b: BlockId, before: multiset<BlockId>, after: multiset<BlockId>)
    requires BlocksOk(s) && b in s
    requires forall c :: c in before ==> c in s
    requires after == before + multiset{b}
    ensures Rebalanced(s, Inc(s, b), before, after)
  {
  }

  lemma {:induction false} DecRebalances(s: Store, b: BlockId, before: multiset<BlockId>, after: multiset<BlockId>)
    requires BlocksOk(s) && b in s
    requires forall c :: c in before ==> c in s
    requires before[b] <= s[b].nshared
    requires before == after + multiset{b}
    ensures Rebalanced(s, Dec(s, b), before, after)
  {
    var t := Dec(s, b);
    assert forall c :: c in s && c != b ==> c in t && t[c] == s[c];
    assert forall c :: c in after ==> c in before;
    assert after[b] + 1 == before[b];
    assert b !in t ==> s[b].nshared == 1;
  }

  // ---------- Queues of refs ----------

  predicate Merges(refs: seq<BlockRef>, r: BlockRef) {
    && refs != []
    && var back := refs[|refs| - 1];
       back.block == r.block && back.offset + back.length == r.offset
  }

  // A ref pushed at the back extends the last ref when it continues it.
  function PushRef(refs: seq<BlockRef>, r: BlockRef): seq<BlockRef> {
    if Merges(refs, r)
    then refs[|refs| - 1 := refs[|refs| - 1].(length := refs[|refs| - 1].length + r.length)]
    else refs + [r]
  }

  // No ref goes on where the one before it ends.
  predicate Separated(refs: seq<BlockRef>) {
    forall i :: 0 < i < |refs| ==>
      refs[i - 1].block != refs[i].block || refs[i - 1].offset + refs[i - 1].length != refs[i].offset
  }

  // Pushing keeps a queue as short as it can be.
  lemma {:induction false} PushSeparated(refs: seq<BlockRef>, r: BlockRef)
    requires Separated(refs)
    ensures Separated(PushRef(refs, r))
  {
    var pushed := PushRef(refs, r);
    forall i | 0 < i < |pushed|
      ensures pushed[i - 1].block != pushed[i].block || pushed[i - 1].offset + pushed[i - 1].length != pushed[i].offset
    {
      if i < |refs| {
        assert refs[i - 1].block != refs[i].block || refs[i - 1].offset + refs[i - 1].length != refs[i].offset;
      }
    }
  }

  // The store after pushing a shared ref: a merged ref takes no new share.
  function PushStore(s: Store, refs: seq<BlockRef>, r: BlockRef): Store
    requires r.block in s
  {
    if Merges(refs, r) then s else Inc(s, r.block)
  }

  lemma {:induction false} RefBlocksLive(refs: seq<BlockRef>, s: Store)
    requires RefsOk(refs, s)
    ensures forall c :: c in multiset(IdsOf(refs)) ==> c in s
  {
    forall c | c in multiset(IdsOf(refs)) ensures c in s {
      assert c in IdsOf(refs);
      var i :| 0 <= i < |refs| && IdsOf(refs)[i] == c;
      assert RefOk(refs[i], s);
    }
  }

  // A ring array handed to `o` is not in use by anyone else.
  ghost predicate RingFree(held: Owners, o: object, ring: object?) {
    ring != null ==> forall p :: p in held && p != o && held[p].Queue? ==> held[p].ring != ring
  }

  lemma {:induction false} QueueApart(held: Owners, o: object, refs: seq<BlockRef>, ring: object?)
    requires RingFree(held, o, ring)
    ensures ApartFromOthers(held, o, Queue(refs, ring))
  {
  }

  lemma {:induction false} PushedIds(refs: seq<BlockRef>, r: BlockRef)
    ensures IdsOf(PushRef(refs, r)) == if Merges(refs, r) then IdsOf(refs) else IdsOf(refs) + [r.block]
  {
  }

  lemma {:induction false} PushedRefsOk(refs: seq<BlockRef>, r: BlockRef, s: Store)
    requires RefsOk(refs, s) && RefOk(r, s)
    ensures RefsOk(PushRef(refs, r), PushStore(s, refs, r))
  {
    var refs', t := PushRef(refs, r), PushStore(s, refs, r);
    assert forall b :: b in s ==> b in t && t[b].size == s[b].size;
    forall i | 0 <= i < |refs'| ensures RefOk(refs'[i], t) {
      if i < |refs| {
        assert RefOk(refs[i], s);
      }
    }
  }

  lemma {:induction false} CountsKeepBytes(s: Store, t: Store, refs: seq<BlockRef>)
    requires OnlyCounts(s, t) && RefsOk(refs, t)
    ensures Bytes(refs, t) == Bytes(refs, s)
  {
    forall i | 0 <= i < |refs| ensures Slice(refs[i], s) == Slice(refs[i], t) {
      assert RefOk(refs[i], t);
    }
    BytesSame(refs, s, t);
  }

  lemma {:induction false} PushOk(s: Store, held: Owners, o: object, r: BlockRef, ring: object?)
    requires Ok(s, held) && o in held && held[o].Queue?
    requires RefOk(r, s)
    requires RingFree(held, o, ring)
    ensures Ok(PushStore(s, held[o].refs, r), held[o := Queue(PushRef(held[o].refs, r), ring)])
    ensures Isolated(s, held, PushStore(s, held[o].refs, r), held[o := Queue(PushRef(held[o].refs, r), ring)], {o})
    ensures Bytes(PushRef(held[o].refs, r), PushStore(s, held[o].refs, r)) == Bytes(held[o].refs, s) + Slice(r, s)
  {
    var refs := held[o].refs;
    var refs', t := PushRef(refs, r), PushStore(s, refs, r);
    var h := Queue(refs', ring);
    PushedIds(refs, r);
    RefBlocksLive(refs, s);
    if !Merges(refs, r) {
      IncRebalances(s, r.block, Owned(held[o]), Owned(h));
    }
    PushedRefsOk(refs, r, s);
    QueueApart(held, o, refs', ring);
    Reassign(s, held, t, o, h);
    PushBytes(s, refs, r);
    CountsKeepBytes(s, t, refs');
  }

  lemma {:induction false} SliceJoin(s: Store, a: BlockRef, r: BlockRef)
    requires BlocksOk(s) && RefOk(a, s) && RefOk(r, s)
    requires a.block == r.block && a.offset + a.length == r.offset
    ensures Slice(a.(length := a.length + r.length), s) == Slice(a, s) + Slice(r, s)
  {
  }

  lemma {:induction false} MergedBytes(s: Store, init: seq<BlockRef>, back: BlockRef, r: BlockRef)
    requires BlocksOk(s) && RefOk(back, s) && RefOk(r, s)
    requires back.block == r.block && back.offset + back.length == r.offset
    ensures Bytes(init + [back.(length := back.length + r.length)], s) == Bytes(init + [back], s) + Slice(r, s)
  {
    BytesSnoc(init, back, s);
    BytesSnoc(init, back.(length := back.length + r.length), s);
    SliceJoin(s, back, r);
    Assoc(Bytes(init, s), Slice(back, s), Slice(r, s));
  }

  lemma {:induction false} PushBytes(s: Store, refs: seq<BlockRef>, r: BlockRef)
    requires BlocksOk(s) && RefsOk(refs, s) && RefOk(r, s)
    ensures Bytes(PushRef(refs, r), s) == Bytes(refs, s) + Slice(r, s)
  {
    if Merges(refs, r) {
      var init, back := refs[..|refs| - 1], refs[|refs| - 1];
      assert RefOk(back, s);
      assert refs == init + [back];
      assert PushRef(refs, r) == init + [back.(length := back.length + r.length)];
      MergedBytes(s, init, back, r);
    } else {
      BytesSnoc(refs, r, s);
    }
  }

  lemma {:induction false} DropOk(s: Store, held: Owners, o: object, b: BlockId, refs: seq<BlockRef>, ring: object?)
    requires Ok(s, held) && o in held && held[o].Queue? && b in s
    requires Owned(held[o]) == multiset(IdsOf(refs)) + multiset{b} && RefsOk(refs, s)
    requires RingFree(held, o, ring)
    ensures Ok(Dec(s, b), held[o := Queue(refs, ring)])
    ensures Isolated(s, held, Dec(s, b), held[o := Queue(refs, ring)], {o})
    ensures Bytes(refs, Dec(s, b)) == Bytes(refs, s)
  {
    var h := Queue(refs, ring);
    RefBlocksLive(held[o].refs, s);
    OwnedWithinTotal(held, o);
    DecRebalances(s, b, Owned(held[o]), Owned(h));
    HoldingKept(h, s, Dec(s, b));
    QueueApart(held, o, refs, ring);
    Reassign(s, held, Dec(s, b), o, h);
  }

  lemma {:induction false} PopFrontOk(s: Store, held: Owners, o: object, ring: object?)
    requires Ok(s, held) && o in held && held[o].Queue? && held[o].refs != []
    requires RingFree(held, o, ring)
    ensures var refs := held[o].refs;
      var b := refs[0].block;
      && b in s
      && Ok(Dec(s, b), held[o := Queue(refs[1..], ring)])
      && Isolated(s, held, Dec(s, b), held[o := Queue(refs[1..], ring)], {o})
      && Bytes(refs[1..], Dec(s, b)) == Bytes(refs[1..], s)
  {
    hide Ok, Isolated, Bytes;
    var refs := held[o].refs;
    HeldRefOk(s, held, o, 0);
    HeldOk(s, held, o);
    assert IdsOf(refs) == [refs[0].block] + IdsOf(refs[1..]);
    assert RefsOk(refs[1..], s) by {
      forall i | 0 <= i < |refs[1..]| ensures RefOk(refs[1..][i], s) { assert RefOk(refs[i + 1], s); }
    }
    DropOk(s, held, o, refs[0].block, refs[1..], ring);
  }

  lemma {:induction false} PopBackOk(s: Store, held: Owners, o: object, ring: object?)
    requires Ok(s, held) && o in held && held[o].Queue? && held[o].refs != []
    requires RingFree(held, o, ring)
    ensures var refs := held[o].refs;
      var k := |refs| - 1;
      && refs[k].block in s
      && Ok(Dec(s, refs[k].block), held[o := Queue(refs[..k], ring)])
      && Isolated(s, held, Dec(s, refs[k].block), held[o := Queue(refs[..k], ring)], {o})
      && Bytes(refs[..k], Dec(s, refs[k].block)) == Bytes(refs[..k], s)
  {
    hide Ok, Isolated, Bytes, RingFree, BlocksOk;
    var refs := held[o].refs;
    var k := |refs| - 1;
    HeldRefOk(s, held, o, k);
    HeldOk(s, held, o);
    assert IdsOf(refs) == IdsOf(refs[..k]) + [refs[k].block];
    assert RefsOk(refs[..k], s) by {
      forall i | 0 <= i < k ensures RefOk(refs[..k][i], s) { assert RefOk(refs[i], s); }
    }
    DropOk(s, held, o, refs[k].block, refs[..k], ring);
  }

  // A new owner that holds nothing yet.
  lemma {:induction false} JoinTotal(held: Owners, o: object, h: Holding)
    requires o !in held && (h == Queue([], null) || h == Chain([]))
    ensures Total(held[o := h]) == Total(held)
  {
    TotalAdd(held, o, h);
    assert Owned(h) == multiset{} by { assert IdsOf([]) == []; }
  }

  lemma {:induction false} JoinApart(held: Owners, o: object, h: Holding)
    requires AllApart(held) && (h == Queue([], null) || h == Chain([]))
    ensures AllApart(held[o := h])
  {
    assert ApartFromOthers(held, o, h);
    ApartAfter(held, o, h);
  }

  lemma {:induction false} JoinHoldings(s: Store, held: Owners, o: object, h: Holding)
    requires HoldingsOk(s, held) && HoldingOk(h, s) && o !in held && (h == Queue([], null) || h == Chain([]))
    ensures HoldingsOk(s, held[o := h])
    ensures Isolated(s, held, s, held[o := h], {})
  {
  }

  lemma {:induction false} JoinOk(s: Store, held: Owners, o: object, h: Holding)
    requires Ok(s, held) && o !in held && (h == Queue([], null) || h == Chain([]))
    ensures Ok(s, held[o := h])
    ensures Isolated(s, held, s, held[o := h], {})
  {
    JoinTotal(held, o, h);
    JoinApart(held, o, h);
    assert HoldingOk(h, s);
    JoinHoldings(s, held, o, h);
  }

  // `r` covers some, but not no, of the bytes `q` covers.
  predicate Within(r: BlockRef, q: BlockRef) {
    && r.block == q.block && 0 < r.length
    && q.offset <= r.offset && r.offset + r.length <= q.offset + q.length
  }

  lemma {:induction false} NarrowOk(s: Store, held: Owners, o: object, i: nat, r: BlockRef)
    requires Ok(s, held) && o in held && held[o].Queue? && i < |held[o].refs|
    requires Within(r, held[o].refs[i])
    ensures r.block in s && r.block != NULL
    ensures Ok(s, held[o := Queue(held[o].refs[i := r], held[o].ring)])
    ensures Isolated(s, held, s, held[o := Queue(held[o].refs[i := r], held[o].ring)], {o})
  {
    var refs' := held[o].refs[i := r];
    assert RefOk(held[o].refs[i], s);
    assert IdsOf(refs') == IdsOf(held[o].refs);
    assert RefsOk(refs', s);
    RefBlocksLive(refs', s);
    QueueApart(held, o, refs', held[o].ring);
    Reassign(s, held, s, o, Queue(refs', held[o].ring));
  }

  // ---------- The first and the last ref, and the bytes they cover ----------

  lemma {:induction false} FrontBytes(refs: seq<BlockRef>, s: Store)
    requires BlocksOk(s) && refs != [] && RefOk(refs[0], s)
    ensures refs[0].length <= |Bytes(refs, s)|
    ensures Bytes(refs, s)[..refs[0].length] == Slice(refs[0], s)
    ensures Bytes(refs, s)[refs[0].length..] == Bytes(refs[1..], s)
  {
  }

  lemma {:induction false} BackBytes(refs: seq<BlockRef>, s: Store)
    requires BlocksOk(s) && refs != [] && RefOk(refs[|refs| - 1], s)
    ensures var k := |refs| - 1;
      var n := |Bytes(refs, s)| - refs[k].length;
      && 0 <= n
      && Bytes(refs, s)[..n] == Bytes(refs[..k], s)
      && Bytes(refs, s)[n..] == Slice(refs[k], s)
  {
    var k := |refs| - 1;
    assert refs == refs[..k] + [refs[k]];
    BytesSnoc(refs[..k], refs[k], s);
  }

  function TrimFront(r: BlockRef, n: nat): BlockRef
    requires n <= r.length
  {
    r.(offset := r.offset + n, length := r.length - n)
  }

  function TrimBack(r: BlockRef, n: nat): BlockRef
    requires n <= r.length
  {
    r.(length := r.length - n)
  }

  lemma SubSlice(d: seq<byte>, i: nat, j: nat, k: nat, l: nat)
    requires i <= k <= l <= j <= |d|
    ensures d[k..l] == d[i..j][k - i..l - i]
  {
    forall m | 0 <= m < l - k ensures d[k..l][m] == d[i..j][k - i..l - i][m] {
      assert d[i..j][k - i + m] == d[k + m];
    }
  }

  lemma DropWithin(a: seq<byte>, b: seq<byte>, n: nat)
    requires n <= |a|
    ensures (a + b)[n..] == a[n..] + b
  {
  }

  lemma TakeWithin(a: seq<byte>, b: seq<byte>, n: nat)
    requires n <= |b|
    ensures (a + b)[..|a| + n] == a + b[..n]
  {
  }

  lemma {:induction false} SliceTrims(r: BlockRef, n: nat, s: Store)
    requires BlocksOk(s) && RefOk(r, s) && n <= r.length
    ensures Slice(TrimFront(r, n), s) == Slice(r, s)[n..]
    ensures Slice(r.(length := n), s) == Slice(r, s)[..n]
  {
    var d := s[r.block].data;
    SubSlice(d, r.offset, r.offset + r.length, r.offset + n, r.offset + r.length);
    SubSlice(d, r.offset, r.offset + r.length, r.offset, r.offset + n);
  }

  lemma {:induction false} TrimFrontBytes(refs: seq<BlockRef>, n: nat, s: Store)
    requires BlocksOk(s) && refs != [] && RefOk(refs[0], s) && n < refs[0].length
    ensures n < |Bytes(refs, s)|
    ensures Bytes(refs[0 := TrimFront(refs[0], n)], s) == Bytes(refs, s)[n..]
  {
    SliceTrims(refs[0], n, s);
    assert refs[0 := TrimFront(refs[0], n)][1..] == refs[1..];
    DropWithin(Slice(refs[0], s), Bytes(refs[1..], s), n);
  }

  lemma {:induction false} TrimBackBytes(refs: seq<BlockRef>, n: nat, s: Store)
    requires BlocksOk(s) && refs != [] && RefOk(refs[|refs| - 1], s) && n < refs[|refs| - 1].length
    ensures n < |Bytes(refs, s)|
    ensures Bytes(refs[|refs| - 1 := TrimBack(refs[|refs| - 1], n)], s) == Bytes(refs, s)[..|Bytes(refs, s)| - n]
  {
    hide Bytes, Slice;
    var init, back := refs[..|refs| - 1], refs[|refs| - 1];
    SliceTrims(back, back.length - n, s);
    assert refs == init + [back];
    assert refs[|refs| - 1 := TrimBack(back, n)] == init + [TrimBack(back, n)];
    BytesSnoc(init, back, s);
    BytesSnoc(init, TrimBack(back, n), s);
    TakeWithin(Bytes(init, s), Slice(back, s), back.length - n);
  }

  // What `Ok` says about one queue.
  lemma {:induction false} HeldOk(s: Store, held: Owners, o: object)
    requires Ok(s, held) && o in held && held[o].Queue?
    ensures BlocksOk(s) && RefsOk(held[o].refs, s)
    ensures RingFree(held, o, held[o].ring)
  {
    assert HoldingOk(held[o], s);
    assert forall p :: p in held && p != o ==> Apart(held[o], held[p]);
  }

  lemma {:induction false} HeldRefOk(s: Store, held: Owners, o: object, i: nat)
    requires Ok(s, held) && o in held && held[o].Queue? && i < |held[o].refs|
    ensures BlocksOk(s) && RefOk(held[o].refs[i], s)
    ensures RingFree(held, o, held[o].ring)
  {
    HeldOk(s, held, o);
  }

  lemma {:induction false} NoBytes(s: Store)
    ensures Bytes([], s) == []
  {
  }

  lemma {:induction false} SomeRef(refs: seq<BlockRef>, s: Store)
    requires Bytes(refs, s) != []
    ensures refs != []
  {
  }

  // ---------- A ref moved from the front of one queue to the back of another ----------

  lemma {:induction false} MovedStore(s: Store, refs: seq<BlockRef>, r: BlockRef)
    requires r.block in s && 0 < s[r.block].nshared
    ensures r.block in PushStore(s, refs, r)
    ensures Dec(PushStore(s, refs, r), r.block) == if Merges(refs, r) then Dec(s, r.block) else s
  {
  }

  lemma {:induction false} RingsDiffer(s: Store, held: Owners, o: object, p: object)
    requires Ok(s, held) && o in held && p in held && o != p && held[o].Queue? && held[p].Queue?
    ensures held[o].ring == null || held[o].ring != held[p].ring
  {
    assert Apart(held[o], held[p]);
  }

  lemma {:induction false} RingFreeAfter(held: Owners, o: object, p: object, oring: object?, h: Holding)
    requires RingFree(held, o, oring)
    requires h.Queue? && (oring != null ==> h.ring != oring)
    ensures RingFree(held[p := h], o, oring)
  {
  }

  lemma {:induction false} IsolatedBoth(s: Store, held: Owners, t: Store, held': Owners, u: Store, held'': Owners,
                                        o: object, p: object)
    requires Isolated(s, held, t, held', {p}) && Isolated(t, held', u, held'', {o})
    ensures Isolated(s, held, u, held'', {o, p})
  {
  }

  lemma {:induction false} MoveOk(s: Store, held: Owners, o: object, p: object, oring: object?, pring: object?)
    requires Ok(s, held) && o in held && p in held && o != p && held[o].Queue? && held[p].Queue?
    requires held[o].refs != []
    requires RingFree(held, o, oring) && RingFree(held, p, pring) && (oring != null ==> oring != pring)
    ensures var r, prefs := held[o].refs[0], held[p].refs;
      && r.block in s
      && var t := if Merges(prefs, r) then Dec(s, r.block) else s;
      && var held' := held[p := Queue(PushRef(prefs, r), pring)][o := Queue(held[o].refs[1..], oring)];
      && Ok(t, held') && Isolated(s, held, t, held', {o, p})
      && Bytes(held[o].refs[1..], t) == Bytes(held[o].refs[1..], s)
      && Bytes(PushRef(prefs, r), t) == Bytes(prefs, s) + Slice(r, s)
  {
    hide Ok, Isolated, Bytes, RingFree;
    var r, prefs := held[o].refs[0], held[p].refs;
    HeldRefOk(s, held, o, 0);
    PushOk(s, held, p, r, pring);
    var t, held' := PushStore(s, prefs, r), held[p := Queue(PushRef(prefs, r), pring)];
    RingFreeAfter(held, o, p, oring, held'[p]);
    PopFrontOk(t, held', o, oring);
    MovedStore(s, prefs, r);
    var u, held'' := Dec(t, r.block), held'[o := Queue(held[o].refs[1..], oring)];
    IsolatedBoth(s, held, t, held', u, held'', o, p);
    HeldOk(u, held'', p);
    CountsKeepBytes(t, u, held''[p].refs);
    HeldOk(u, held'', o);
    CountsKeepBytes(s, t, held[o].refs[1..]);
  }

  lemma {:induction false} DetachRing(s: Store, held: Owners, o: object)
    requires Ok(s, held) && o in held && held[o].Queue? && held[o].refs == []
    ensures Ok(s, held[o := Queue([], null)])
    ensures Isolated(s, held, s, held[o := Queue([], null)], {o})
  {
    RefBlocksLive([], s);
    QueueApart(held, o, [], null);
    Reassign(s, held, s, o, Queue([], null));
  }

  // What `Isolated` says about one owner outside the change.
  lemma {:induction false} OtherOwner(s: Store, held: Owners, t: Store, held': Owners, o: object, changed: set<object>)
    requires Isolated(s, held, t, held', changed) && o in held && o !in changed
    ensures o in held' && held'[o] == held[o] && SameSight(held[o], s, t)
  {
  }

  lemma {:induction false} IsolatedMore(s: Store, held: Owners, t: Store, held': Owners, some: set<object>, more: set<object>)
    requires Isolated(s, held, t, held', some) && some <= more
    ensures Isolated(s, held, t, held', more)
  {
  }

  lemma {:induction false} SharesCover(s: Store, held: Owners, o: object, b: BlockId)
    requires Ok(s, held) && o in held && b in s
    ensures Owned(held[o])[b] <= s[b].nshared
  {
    OwnedWithinTotal(held, o);
  }

  // ---------- Where a ref's bytes lie in the buffer ----------

  lemma {:induction false} SumSplit(refs: seq<BlockRef>, i: nat)
    requires i < |refs|
    ensures SumLengths(refs[..i + 1]) == SumLengths(refs[..i]) + refs[i].length
    ensures SumLengths(refs[..i + 1]) <= SumLengths(refs)
  {
    assert refs[..i + 1] == refs[..i] + [refs[i]];
    SumConcat(refs[..i], [refs[i]]);
    assert SumLengths([refs[i]]) == refs[i].length + SumLengths([]);
    assert refs == refs[..i + 1] + refs[i + 1..];
    SumConcat(refs[..i + 1], refs[i + 1..]);
  }

  lemma {:induction false} RefSlice(refs: seq<BlockRef>, i: nat, s: Store)
    requires BlocksOk(s) && RefsOk(refs, s) && i < |refs|
    ensures |Bytes(refs, s)| == SumLengths(refs)
    ensures var p := SumLengths(refs[..i]);
      p + refs[i].length <= |Bytes(refs, s)| && Slice(refs[i], s) == Bytes(refs, s)[p..p + refs[i].length]
  {
    hide Bytes, Slice;
    var x, y := refs[..i], refs[i..];
    assert RefOk(refs[i], s);
    assert refs == x + y;
    assert RefsOk(x, s) by {
      forall j | 0 <= j < i ensures RefOk(x[j], s) { assert RefOk(refs[j], s); }
    }
    BytesConcat(x, y, s);
    BytesLength(x, s);
    BytesLength(refs, s);
    FrontBytes(y, s);
    AfterPrefix(Bytes(x, s), Bytes(y, s), refs[i].length);
  }

  lemma AfterPrefix(a: seq<byte>, b: seq<byte>, n: nat)
    requires n <= |b|
    ensures (a + b)[|a|..|a| + n] == b[..n]
  {
  }

  // The front ref of `o`, narrowed to `r`, moves to the back of `p`.
  lemma {:induction false} MovePartOk(s: Store, held: Owners, o: object, p: object, r: BlockRef, oring: object?, pring: object?)
    requires Ok(s, held) && o in held && p in held && o != p && held[o].Queue? && held[p].Queue?
    requires held[o].refs != [] && Within(r, held[o].refs[0])
    requires RingFree(held, o, oring) && RingFree(held, p, pring) && (oring != null ==> oring != pring)
    ensures r.block in s
    ensures var prefs := held[p].refs;
      var t := if Merges(prefs, r) then Dec(s, r.block) else s;
      var held' := held[p := Queue(PushRef(prefs, r), pring)][o := Queue(held[o].refs[1..], oring)];
      && Ok(t, held') && Isolated(s, held, t, held', {o, p})
      && Bytes(held[o].refs[1..], t) == Bytes(held[o].refs[1..], s)
      && Bytes(PushRef(prefs, r), t) == Bytes(prefs, s) + Slice(r, s)
  {
    hide Ok, Isolated, Bytes, Slice;
    var refs' := held[o].refs[0 := r];
    var held1 := held[o := Queue(refs', held[o].ring)];
    NarrowOk(s, held, o, 0, r);
    assert RingFree(held1, o, oring) && RingFree(held1, p, pring) by {
      HeldOk(s, held, p);
      HeldOk(s, held1, o);
      RingSplit(held, o, p, refs', oring, pring);
    }
    MoveOk(s, held1, o, p, oring, pring);
    assert refs'[1..] == held[o].refs[1..];
    var t := if Merges(held[p].refs, r) then Dec(s, r.block) else s;
    var held2: Owners := held1[p := Queue(PushRef(held[p].refs, r), pring)][o := Queue(refs'[1..], oring)];
    assert held2 == held[p := Queue(PushRef(held[p].refs, r), pring)][o := Queue(held[o].refs[1..], oring)];
    IsolatedMore(s, held, s, held1, {o}, {o, p});
    IsolatedTrans(s, held, s, held1, t, held2, {o, p});
  }

  lemma {:induction false} RingSplit(held: Owners, o: object, p: object, refs: seq<BlockRef>, oring: object?, pring: object?)
    requires o in held && held[o].Queue?
    requires RingFree(held, o, oring) && RingFree(held, p, pring)
    ensures RingFree(held[o := Queue(refs, held[o].ring)], o, oring)
    ensures RingFree(held[o := Queue(refs, held[o].ring)], p, pring)
  {
  }
}
