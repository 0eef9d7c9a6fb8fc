/** IOPortal: an IOBuf that reads from outside into blocks it keeps for itself. */
module Portals {
  import opened Blocks
  import opened Ownership
  import opened BlockMemory
  import opened Chains
  import opened ThreadBlocks
  import opened IOBufs

  const MAX_APPEND_IOVEC: nat := 64

  // An IReader with the bytes it has yet to deliver. It delivers any part of what it
  // is asked for, or nothing, or an error.
  class Reader {
    var pending: seq<byte>

    // The room offered at each call so far, and what the last one returned.
    ghost var offered: seq<nat>
    ghost var answer: int

    method ReadV(space: nat) returns (nr: int, bytes: seq<byte>)
      modifies this
      ensures nr <= space && offered == old(offered) + [space] && answer == nr
      ensures |bytes| == if nr > 0 then nr else 0
      ensures old(pending) == bytes + pending
    {
      assert -1 <= |pending|;
      nr :| -1 <= nr <= space && nr <= |pending|;
      offered, answer := offered + [space], nr;
      if nr > 0 {
        bytes, pending := pending[..nr], pending[nr..];
      } else {
        bytes := [];
      }
    }
  }

  // The room left in the blocks of a chain.
  ghost function Space(ids: seq<BlockId>, s: Store): int {
    if ids == [] then 0
    else (if ids[0] in s then s[ids[0]].cap - s[ids[0]].size else 0) + Space(ids[1..], s)
  }

  lemma {:induction false} SpaceSnoc(ids: seq<BlockId>, b: BlockId, s: Store)
    ensures Space(ids + [b], s) == Space(ids, s) + if b in s then s[b].cap - s[b].size else 0
  {
    if ids == [] {
      assert [b][1..] == [];
    } else {
      assert (ids + [b])[1..] == ids[1..] + [b];
      SpaceSnoc(ids[1..], b, s);
    }
  }

  lemma {:induction false} SomeSpace(ids: seq<BlockId>, s: Store)
    ensures Space(ids, s) > 0 ==> ids != []
  {
  }

  lemma {:induction false} SpacePrefix(ids: seq<BlockId>, n: nat, s: Store)
    requires n <= |ids| && BlocksOk(s)
    ensures 0 <= Space(ids[..n], s) <= Space(ids, s)
  {
    if ids == [] {
      assert ids[..n] == [];
    } else if n == 0 {
      SpacePrefix(ids[1..], 0, s);
    } else {
      SpacePrefix(ids[1..], n - 1, s);
      assert ids[..n][1..] == ids[1..][..n - 1];
    }
  }

  lemma {:induction false} SpaceSame(ids: seq<BlockId>, s: Store, t: Store)
    requires forall b :: b in ids ==> b in s && b in t && t[b].cap == s[b].cap && t[b].size == s[b].size
    ensures Space(ids, t) == Space(ids, s)
  {
    if ids != [] {
      SpaceSame(ids[1..], s, t);
    }
  }

  // Dropping the first block leaves the others as they are.
  lemma {:induction false} HeadDropped(ids: seq<BlockId>, s: Store)
    requires ids != [] && ChainOk(ids, s) && NoneFull(ids[1..], s)
    ensures ids[0] in s && s[ids[0]].next == Head(ids[1..])
    ensures NoneFull(ids[1..], Dec(s, ids[0])) && Space(ids[1..], Dec(s, ids[0])) == Space(ids[1..], s)
  {
    hide Space;
    assert s[ids[0]].next == After(ids, 0);
    SpaceSame(ids[1..], s, Dec(s, ids[0]));
  }

  lemma {:induction false} SpaceFilled(ids: seq<BlockId>, s: Store, t: Store, bytes: seq<byte>)
    requires ids != [] && ChainOk(ids, s) && Filled(s, t, ids[0], bytes)
    ensures Space(ids, t) == Space(ids, s) - |bytes|
    ensures forall b :: b in ids[1..] ==> b in t && t[b].size == s[b].size && t[b].cap == s[b].cap
  {
    forall b | b in ids[1..] ensures b in s && b in t && t[b].size == s[b].size && t[b].cap == s[b].cap {
      var i :| 0 <= i < |ids[1..]| && ids[1..][i] == b;
      assert ids[i + 1] == b && ids[0] != ids[i + 1];
    }
    SpaceSame(ids[1..], s, t);
  }

  class Hand {
  }

  class IOPortal {
    const mem: Memory
    const buf: IOBuf
    var block: BlockId
    ghost var chain: seq<BlockId>

    // Stands for the local variable that holds a block between leaving the thread's
    // chain and being linked into this one.
    ghost const hand: Hand

    ghost predicate Valid()
      reads this, buf, buf.Ring(), mem, buf.mem
    {
      && buf.mem == mem && buf.Valid()
      && IsChain(mem.held, this, chain) && IsChain(mem.held, hand, [])
      && block == Head(chain)
      && NoneFull(chain, mem.blocks)
    }

    ghost predicate With(tls: ThreadLocal)
      reads this, buf, buf.Ring(), mem, buf.mem, tls, tls.mem
    {
      Valid() && tls.mem == mem && tls.Valid()
    }

    ghost function Everyone(tls: ThreadLocal): set<object> {
      {this, buf, hand, tls}
    }

    constructor (mem: Memory)
      requires mem.Valid()
      modifies mem`held
      ensures Valid() && this.mem == mem && fresh(buf) && buf.Contents() == [] && chain == []
      ensures Isolated(old(mem.blocks), old(mem.held), mem.blocks, mem.held, {})
    {
      hide Ok, Isolated;
      ghost var s, held := mem.blocks, mem.held;
      this.mem := mem;
      var b := new IOBuf(mem);
      buf := b;
      hand := new Hand;
      block, chain := NULL, [];
      new;
      hide *;
      Join(s, held);
    }

    // The two chains of a new portal join those of others.
    ghost method Join(s: Store, held: Owners)
      requires buf.mem == mem && buf.Valid() && mem.blocks == s && Isolated(s, held, s, mem.held, {})
      requires this !in mem.held && hand !in mem.held && block == NULL && chain == []
      modifies mem`held
      ensures Valid() && buf.Contents() == old(buf.Contents())
      ensures Isolated(s, held, s, mem.held, {})
    {
      hide Ok, Isolated, Bytes, IOBuf.Stands;
      ghost var held1: Owners := mem.held;
      JoinOk(s, held1, this, Chain([]));
      ghost var held2: Owners := held1[this := Chain([])];
      IsolatedTrans(s, held, s, held1, s, held2, {});
      JoinOk(s, held2, hand, Chain([]));
      mem.held := held2[hand := Chain([])];
      IsolatedTrans(s, held, s, held2, s, mem.held, {});
      buf.StillValid();
    }

    // The block in hand is linked to the end of the chain.
    method Link(p: BlockId, last: BlockId)
      requires buf.mem == mem && buf.Valid() && IsChain(mem.held, this, chain) && IsChain(mem.held, hand, [p])
      requires block == Head(chain) && NoneFull(chain, mem.blocks)
      requires p in mem.blocks && !mem.blocks[p].Full()
      requires last == if chain == [] then NULL else chain[|chain| - 1]
      modifies this`block, this`chain, mem`blocks, mem`held
      ensures Valid() && chain == old(chain) + [p]
      ensures SameButNext(old(mem.blocks), mem.blocks)
      ensures Isolated(old(mem.blocks), old(mem.held), mem.blocks, mem.held, {this, hand})
    {
      hide Ok, Isolated, Bytes, IOBuf.Shape, SameButNext, NoneFull;
      HeldChainOk(mem.blocks, mem.held, this);
      if last != NULL {
        LinkBehind(p, last);
      } else {
        Adopt(p);
      }
    }

    method LinkBehind(p: BlockId, last: BlockId)
      requires buf.mem == mem && buf.Valid() && IsChain(mem.held, this, chain) && IsChain(mem.held, hand, [p])
      requires block == Head(chain) && NoneFull(chain, mem.blocks)
      requires p in mem.blocks && !mem.blocks[p].Full()
      requires chain != [] && last == chain[|chain| - 1] && last in mem.blocks
      modifies this`block, this`chain, mem`blocks, mem`held
      ensures Valid() && chain == old(chain) + [p]
      ensures SameButNext(old(mem.blocks), mem.blocks)
      ensures Isolated(old(mem.blocks), old(mem.held), mem.blocks, mem.held, {this, hand})
    {
      hide Ok, Isolated, Bytes, IOBuf.Shape, SameButNext, NoneFull;
      ghost var s, held := mem.blocks, mem.held;
      ghost var after: Owners := held[this := Chain(chain + [p])][hand := Chain([])];
      LinkOk(s, held, this, hand, chain, p);
      NextOnly(s, last, p);
      OtherOwner(s, held, SetNext(s, last, p), after, buf, {this, hand});
      StillNoneFull(chain, p, s, SetNext(s, last, p));
      mem.SetNext(last, p);
      chain := chain + [p];
      mem.held := after;
      buf.StillValid();
    }

    method Adopt(p: BlockId)
      requires buf.mem == mem && buf.Valid() && IsChain(mem.held, this, chain) && IsChain(mem.held, hand, [p])
      requires block == Head(chain) && NoneFull(chain, mem.blocks)
      requires p in mem.blocks && !mem.blocks[p].Full()
      requires chain == []
      modifies this`block, this`chain, mem`blocks, mem`held
      ensures Valid() && chain == old(chain) + [p]
      ensures SameButNext(old(mem.blocks), mem.blocks)
      ensures Isolated(old(mem.blocks), old(mem.held), mem.blocks, mem.held, {this, hand})
    {
      hide Ok, Isolated, Bytes, IOBuf.Shape, SameButNext, NoneFull;
      ghost var s, held := mem.blocks, mem.held;
      ghost var after: Owners := held[this := Chain([p])][hand := Chain([])];
      AdoptOk(s, held, this, hand, p);
      NextOnly(s, p, NULL);
      OtherOwner(s, held, s, after, buf, {this, hand});
      StillNoneFull(chain, p, s, s);
      block := p;
      assert chain + [p] == [p];
      chain := chain + [p];
      mem.held := after;
      buf.StillValid();
    }

    static lemma {:induction false} NextOnly(s: Store, b: BlockId, n: BlockId)
      requires b in s
      ensures SameButNext(s, s) && SameButNext(s, SetNext(s, b, n))
    {
    }

    static lemma {:induction false} StillNoneFull(ids: seq<BlockId>, p: BlockId, s: Store, t: Store)
      requires NoneFull(ids, s) && SameButNext(s, t) && p in s && !s[p].Full()
      ensures NoneFull(ids + [p], t)
    {
    }

    // A block comes from the thread, or from malloc, to the end of the chain.
    method Extend(tls: ThreadLocal, last: BlockId) returns (p: BlockId)
      requires With(tls) && last == if chain == [] then NULL else chain[|chain| - 1]
      modifies this`block, this`chain, tls, mem
      ensures With(tls)
      ensures p == NULL ==> chain == old(chain)
      ensures p != NULL ==> chain == old(chain) + [p]
      ensures mem.oom == old(mem.oom) + (if p == NULL then 1 else 0)
      ensures buf.Contents() == old(buf.Contents())
      ensures SameSight(Chain(old(chain)), old(mem.blocks), mem.blocks)
      ensures Isolated(old(mem.blocks), old(mem.held), mem.blocks, mem.held, Everyone(tls))
    {
      hide *;
      ghost var s, held, before := mem.blocks, mem.held, chain;
      WithParts(tls);
      buf.Parts();
      ChainHeld(held, this, chain);
      HeldChainOk(s, held, this);
      ChainBlocksLive(before, s);
      p := tls.AcquireBlock(hand);
      ghost var t, held' := mem.blocks, mem.held;
      tls.Parts();
      OtherOwner(s, held, t, held', this, {tls, hand});
      OtherOwner(s, held, t, held', buf, {tls, hand});
      buf.StandsStill();
      buf.Assembled();
      SameQueue(held[buf], s, t);
      MakeChain(held', this, chain);
      InEveryone(tls);
      IsolatedMore(s, held, t, held', {tls, hand}, Everyone(tls));
      SightNoneFull(before, s, t);
      if p == NULL {
        MakeWith(tls);
      } else {
        LinkBeside(tls, p, last);
        SightTrans(before, s, t, mem.blocks);
        IsolatedTrans(s, held, t, held', mem.blocks, mem.held, Everyone(tls));
      }
    }

    lemma WithParts(tls: ThreadLocal)
      requires With(tls)
      ensures buf.mem == mem && buf.Valid() && IsChain(mem.held, this, chain) && IsChain(mem.held, hand, [])
      ensures block == Head(chain) && NoneFull(chain, mem.blocks) && tls.mem == mem && tls.Valid()
    {
    }

    lemma MakeWith(tls: ThreadLocal)
      requires buf.mem == mem && buf.Valid() && IsChain(mem.held, this, chain) && IsChain(mem.held, hand, [])
      requires block == Head(chain) && NoneFull(chain, mem.blocks) && tls.mem == mem && tls.Valid()
      ensures With(tls)
    {
    }

    lemma InEveryone(tls: ThreadLocal)
      ensures {tls, hand} <= Everyone(tls)
    {
    }

    static lemma {:induction false} SightNoneFull(ids: seq<BlockId>, s: Store, t: Store)
      requires SameSight(Chain(ids), s, t) && NoneFull(ids, s) && forall b :: b in ids ==> b in s
      ensures NoneFull(ids, t)
    {
    }

    static lemma {:induction false} SightTrans(ids: seq<BlockId>, s: Store, t: Store, u: Store)
      requires SameSight(Chain(ids), s, t) && SameButNext(t, u) && forall b :: b in ids ==> b in s
      ensures SameSight(Chain(ids), s, u)
    {
    }

    // Link, seen from the thread's own blocks.
    method LinkBeside(tls: ThreadLocal, p: BlockId, last: BlockId)
      requires buf.mem == mem && buf.Valid() && IsChain(mem.held, this, chain) && IsChain(mem.held, hand, [p])
      requires block == Head(chain) && NoneFull(chain, mem.blocks) && tls.mem == mem && tls.Valid()
      requires p in mem.blocks && !mem.blocks[p].Full()
      requires last == if chain == [] then NULL else chain[|chain| - 1]
      modifies this`block, this`chain, mem`blocks, mem`held
      ensures With(tls) && chain == old(chain) + [p] && buf.Contents() == old(buf.Contents())
      ensures SameButNext(old(mem.blocks), mem.blocks)
      ensures Isolated(old(mem.blocks), old(mem.held), mem.blocks, mem.held, Everyone(tls))
    {
      hide Ok, Isolated, Bytes, IOBuf.Shape, NoneFull, Head, SameButNext;
      ghost var s, held := mem.blocks, mem.held;
      Link(p, last);
      OtherOwner(s, held, mem.blocks, mem.held, tls, {this, hand});
      OtherOwner(s, held, mem.blocks, mem.held, buf, {this, hand});
      IsolatedMore(s, held, mem.blocks, mem.held, {this, hand}, Everyone(tls));
    }

    // The `i`-th block of the chain, fetched when the chain ends before it.
    method BlockAt(tls: ThreadLocal, next: BlockId, prev: BlockId, i: nat) returns (p: BlockId)
      requires With(tls) && i <= |chain|
      requires prev == if i == 0 then NULL else chain[i - 1]
      requires next == if i < |chain| then chain[i] else NULL
      modifies this`block, this`chain, tls, mem
      ensures With(tls) && buf.Contents() == old(buf.Contents())
      ensures p == NULL ==> mem.oom == old(mem.oom) + 1
      ensures old(chain) <= chain && (|chain| == |old(chain)| || (|chain| == i + 1 && i == |old(chain)|))
      ensures p != NULL ==>
        && i < |chain| && p == chain[i] && p in mem.blocks && mem.oom == old(mem.oom)
        && mem.blocks[p].next == After(chain, i) && mem.blocks[p].size <= mem.blocks[p].cap
        && Space(chain[..i], mem.blocks) == Space(old(chain)[..i], old(mem.blocks))
      ensures Isolated(old(mem.blocks), old(mem.held), mem.blocks, mem.held, Everyone(tls))
    {
      hide Ok, Isolated, Bytes, IOBuf.Valid, IOBuf.Contents, IOBuf.Ring, Everyone;
      ghost var s, held, ids := mem.blocks, mem.held, chain;
      HeldChainOk(s, held, this);
      if next != NULL {
        p := next;
        IsolatedRefl(s, held, Everyone(tls));
        return;
      }
      p := Extend(tls, prev);
      if p != NULL {
        SpaceSame(ids, s, mem.blocks);
        assert ids[..i] == ids == chain[..i];
        HeldChainOk(mem.blocks, mem.held, this);
      }
    }

    lemma LinedUp(tls: ThreadLocal)
      requires With(tls)
      ensures BlocksOk(mem.blocks) && ChainOk(chain, mem.blocks) && NoneFull(chain, mem.blocks)
      ensures block == Head(chain) && buf.mem == mem
    {
      hide Ok, Bytes, IOBuf.Stands, TellsApart;
      HeldChainOk(mem.blocks, mem.held, this);
    }

    // The blocks that one call offers the reader.
    ghost function Lined(): seq<BlockId>
      reads this
    {
      chain[..Min(|chain|, MAX_APPEND_IOVEC)]
    }

    lemma LinedIs()
      ensures Min(|chain|, MAX_APPEND_IOVEC) <= |chain| && Lined() == chain[..Min(|chain|, MAX_APPEND_IOVEC)]
    {
    }

    // Blocks are lined up until they have room for `maxCount` bytes or there are enough
    // of them; `space` is what the reader may deliver.
    method Prepare(tls: ThreadLocal, maxCount: nat) returns (ok: bool, space: nat)
      requires With(tls)
      modifies this`block, this`chain, tls, mem
      ensures With(tls) && buf.Contents() == old(buf.Contents())
      ensures ok ==> chain != [] && old(chain) <= chain && 0 <= Space(Lined(), mem.blocks) <= Space(chain, mem.blocks)
      ensures ok ==> space == Min(maxCount, Space(Lined(), mem.blocks))
      ensures ok && space < maxCount ==> |chain| >= MAX_APPEND_IOVEC
      ensures ok && |chain| > |old(chain)| ==>
        |chain| <= MAX_APPEND_IOVEC && (|chain| == 1 || Space(chain[..|chain| - 1], mem.blocks) < maxCount)
      ensures mem.oom == old(mem.oom) + (if ok then 0 else 1)
      ensures Isolated(old(mem.blocks), old(mem.held), mem.blocks, mem.held, Everyone(tls))
    {
      hide Ok, Isolated, Bytes, IOBuf.Valid, IOBuf.Contents, IOBuf.Ring, Everyone, Space, Min, With, BlocksOk, ChainOk;
      LinedUp(tls);
      ghost var s, held, all := mem.blocks, mem.held, buf.Contents();
      IsolatedRefl(s, held, Everyone(tls));
      var next, prev, nvec := block, NULL, 0;
      space := 0;
      NoRoomYet(chain, maxCount, mem.blocks);
      while true
        invariant With(tls) && buf.Contents() == all && mem.oom == old(mem.oom)
        invariant 0 <= nvec < MAX_APPEND_IOVEC && nvec <= |chain|
        invariant prev == if nvec == 0 then NULL else chain[nvec - 1]
        invariant next == if nvec < |chain| then chain[nvec] else NULL
        invariant old(chain) <= chain && 0 <= Space(chain[..nvec], mem.blocks) && (nvec == 0 || space < maxCount)
        invariant |chain| > |old(chain)| ==> |chain| == nvec && (nvec == 1 || Space(chain[..nvec - 1], mem.blocks) < maxCount)
        invariant space == Min(maxCount, Space(chain[..nvec], mem.blocks)) <= maxCount
        invariant Isolated(s, held, mem.blocks, mem.held, Everyone(tls))
        decreases MAX_APPEND_IOVEC - nvec
      {
        ghost var t, held' := mem.blocks, mem.held;
        var p := BlockAt(tls, next, prev, nvec);
        IsolatedTrans(s, held, t, held', mem.blocks, mem.held, Everyone(tls));
        if p == NULL {
          return false, 0;
        }
        MinIs(maxCount, Space(chain[..nvec], mem.blocks));
        MoreRoom(maxCount, Space(chain[..nvec], mem.blocks), mem.blocks[p].cap - mem.blocks[p].size);
        space := space + Min(mem.blocks[p].cap - mem.blocks[p].size, maxCount - space);
        SpaceSnoc(chain[..nvec], p, mem.blocks);
        assert chain[..nvec + 1] == chain[..nvec] + [p];
        nvec := nvec + 1;
        if space >= maxCount || nvec >= MAX_APPEND_IOVEC {
          LinedUp(tls);
          LinedRoom(chain, nvec, maxCount, mem.blocks);
          return true, space;
        }
        prev, next := p, mem.blocks[p].next;
      }
    }

    static lemma {:induction false} NoRoomYet(ids: seq<BlockId>, maxCount: nat, s: Store)
      ensures Space(ids[..0], s) == 0 && Min(maxCount, 0) == 0
    {
    }

    static lemma {:induction false} MoreRoom(maxCount: nat, room: nat, left: nat)
      ensures var space := Min(maxCount, room); space <= maxCount && space + Min(left, maxCount - space) == Min(maxCount, room + left)
    {
    }

    static lemma {:induction false} LinedRoom(ids: seq<BlockId>, n: nat, maxCount: nat, s: Store)
      requires n <= |ids| && n <= MAX_APPEND_IOVEC && BlocksOk(s)
      requires 0 <= Space(ids[..n], s) && (Min(maxCount, Space(ids[..n], s)) >= maxCount || n == MAX_APPEND_IOVEC)
      ensures Min(|ids|, MAX_APPEND_IOVEC) <= |ids|
      ensures var k := Min(|ids|, MAX_APPEND_IOVEC);
        && 0 <= Space(ids[..n], s) <= Space(ids[..k], s) <= Space(ids, s)
        && Min(maxCount, Space(ids[..n], s)) == Min(maxCount, Space(ids[..k], s))
    {
      hide Space;
      var k := Min(|ids|, MAX_APPEND_IOVEC);
      SpacePrefix(ids, k, s);
      SpacePrefix(ids[..k], n, s);
      assert ids[..k][..n] == ids[..n];
    }

    lemma Assembled()
      requires buf.mem == mem && buf.Valid() && IsChain(mem.held, this, chain) && IsChain(mem.held, hand, [])
      requires block == Head(chain) && NoneFull(chain, mem.blocks)
      ensures Valid()
    {
    }

    // The full head of the chain gives up its share.
    method DropHead()
      requires buf.mem == mem && buf.Valid() && IsChain(mem.held, this, chain) && IsChain(mem.held, hand, [])
      requires chain != [] && block == chain[0] && NoneFull(chain[1..], mem.blocks)
      modifies this`block, this`chain, mem`blocks, mem`nblock, mem`held
      ensures Valid() && chain == old(chain)[1..] && buf.Contents() == old(buf.Contents())
      ensures Space(chain, mem.blocks) == Space(chain, old(mem.blocks))
      ensures Isolated(old(mem.blocks), old(mem.held), mem.blocks, mem.held, {this})
    {
      hide *;
      ghost var s, held, ids := mem.blocks, mem.held, chain;
      buf.Parts();
      ChainHeld(held, this, chain);
      ChainHeld(held, hand, []);
      HeldChainOk(s, held, this);
      HeadDropped(ids, s);
      ChainPopOk(s, held, this);
      var saved := mem.blocks[block].next;
      mem.DecRef(block);
      chain, block := chain[1..], saved;
      mem.held := held[this := Chain(chain)];
      OtherOwner(s, held, mem.blocks, mem.held, buf, {this});
      buf.StandsStill();
      buf.Assembled();
      SameQueue(held[buf], s, mem.blocks);
      MakeChain(mem.held, this, chain);
      MakeChain(mem.held, hand, []);
      Assembled();
    }

    // The first block takes as much of `bytes` as it can; full, it leaves the chain.
    method CommitRound(bytes: seq<byte>) returns (len: nat)
      requires Valid() && chain != [] && bytes != []
      modifies this`block, this`chain, buf, buf.Ring(), mem`blocks, mem`nblock, mem`held
      ensures Valid() && fresh(buf.Ring() - old(buf.Ring()))
      ensures 0 < len <= |bytes| && buf.Contents() == old(buf.Contents()) + bytes[..len]
      ensures Space(chain, mem.blocks) == Space(old(chain), old(mem.blocks)) - len
      ensures Isolated(old(mem.blocks), old(mem.held), mem.blocks, mem.held, {buf, this})
    {
      hide Ok, Isolated, Bytes, IOBuf.Shape;
      ghost var s, held := mem.blocks, mem.held;
      HeldChainOk(s, held, this);
      assert chain[0] in chain;
      len := Min(|bytes|, mem.blocks[block].cap - mem.blocks[block].size);
      buf.AppendChunk(block, bytes[..len], this);
      ghost var t, held' := mem.blocks, mem.held;
      SpaceFilled(chain, s, t, bytes[..len]);
      OtherOwner(s, held, t, held', hand, {buf, this});
      if mem.blocks[block].Full() {
        assert Space(chain, t) == Space(chain[1..], t);
        DropHead();
        IsolatedMore(t, held', mem.blocks, mem.held, {this}, {buf, this});
        IsolatedTrans(s, held, t, held', mem.blocks, mem.held, {buf, this});
      }
    }

    method Commit(tls: ThreadLocal, bytes: seq<byte>)
      requires With(tls) && |bytes| <= Space(chain, mem.blocks)
      modifies this`block, this`chain, buf, buf.Ring(), mem`blocks, mem`nblock, mem`held
      ensures With(tls) && fresh(buf.Ring() - old(buf.Ring()))
      ensures buf.Contents() == old(buf.Contents()) + bytes
      ensures Space(chain, mem.blocks) == Space(old(chain), old(mem.blocks)) - |bytes|
      ensures Isolated(old(mem.blocks), old(mem.held), mem.blocks, mem.held, {buf, this})
    {
      hide Ok, Isolated, Bytes, IOBuf.Shape, IOBuf.Contents, Space;
      ghost var s, held, all := mem.blocks, mem.held, buf.Contents();
      IsolatedRefl(s, held, {buf, this});
      var done: nat := 0;
      while done < |bytes|
        invariant With(tls) && fresh(buf.Ring() - old(buf.Ring()))
        invariant done <= |bytes| && buf.Contents() == all + bytes[..done]
        invariant Space(chain, mem.blocks) == Space(old(chain), old(mem.blocks)) - done
        invariant Isolated(s, held, mem.blocks, mem.held, {buf, this})
      {
        ghost var t, held' := mem.blocks, mem.held;
        SomeSpace(chain, t);
        var len := CommitRound(bytes[done..]);
        OtherOwner(t, held', mem.blocks, mem.held, tls, {buf, this});
        IsolatedTrans(s, held, t, held', mem.blocks, mem.held, {buf, this});
        AppendJoin(bytes, all, done, len);
        done := done + len;
      }
      assert bytes[..done] == bytes;
    }

    // return_cached_blocks.
    method ReturnCachedBlocks(tls: ThreadLocal)
      requires With(tls)
      modifies this`block, this`chain, tls, mem`blocks, mem`nblock, mem`held
      ensures With(tls) && chain == [] && buf.Contents() == old(buf.Contents())
      ensures Isolated(old(mem.blocks), old(mem.held), mem.blocks, mem.held, {tls, this})
    {
      hide Ok, Isolated, Bytes, IOBuf.Shape;
      ghost var s, held := mem.blocks, mem.held;
      IsolatedRefl(s, held, {tls, this});
      HeldChainOk(s, held, this);
      if block != NULL {
        tls.ReleaseChain(block, this);
        OtherOwner(s, held, mem.blocks, mem.held, buf, {tls, this});
        OtherOwner(s, held, mem.blocks, mem.held, hand, {tls, this});
        block, chain := NULL, [];
        buf.StillValid();
      }
    }

    // The reader is called and what it delivers goes into the blocks of the chain.
    method ReadInto(tls: ThreadLocal, reader: Reader, space: nat) returns (nr: int)
      requires With(tls) && space <= Space(chain, mem.blocks)
      modifies this`block, this`chain, buf, buf.Ring(), tls, mem`blocks, mem`nblock, mem`held, reader
      ensures With(tls) && fresh(buf.Ring() - old(buf.Ring()))
      ensures nr <= space && nr == reader.answer && reader.offered == old(reader.offered) + [space]
      ensures |buf.Contents()| == |old(buf.Contents())| + (if nr > 0 then nr else 0)
      ensures buf.Contents() + reader.pending == old(buf.Contents()) + old(reader.pending)
      ensures old(buf.Contents()) <= buf.Contents()
      ensures nr > 0 ==> Space(chain, mem.blocks) == Space(old(chain), old(mem.blocks)) - nr
      ensures nr <= 0 ==> chain == if old(buf.Contents()) == [] then [] else old(chain)
      ensures Isolated(old(mem.blocks), old(mem.held), mem.blocks, mem.held, Everyone(tls))
    {
      hide Ok, Isolated, Bytes, IOBuf.Shape, IOBuf.Contents, Space, NoneFull;
      ghost var s, held, all := mem.blocks, mem.held, buf.Contents();
      IsolatedRefl(s, held, Everyone(tls));
      var bytes;
      nr, bytes := reader.ReadV(space);
      if nr <= 0 {
        if buf.Empty() {
          ReturnCachedBlocks(tls);
          IsolatedMore(s, held, mem.blocks, mem.held, {tls, this}, Everyone(tls));
        }
        return;
      }
      Commit(tls, bytes);
      IsolatedMore(s, held, mem.blocks, mem.held, {buf, this}, Everyone(tls));
      Assoc(all, bytes, reader.pending);
    }

    // The reader is offered `maxCount` bytes of room in the blocks `lined`, or all the room of
    // the first 64 of them when that is less; `at` are the blocks when it is called. Nothing
    // it delivers is lost: it is in the buffer or still pending.
    method AppendFromReader(tls: ThreadLocal, reader: Reader, maxCount: nat)
      returns (nr: int, ghost lined: seq<BlockId>, ghost at: Store)
      requires With(tls)
      modifies this`block, this`chain, buf, buf.Ring(), tls, mem, reader
      ensures With(tls) && fresh(buf.Ring() - old(buf.Ring()))
      ensures nr <= maxCount
      ensures |buf.Contents()| == |old(buf.Contents())| + (if nr > 0 then nr else 0)
      ensures buf.Contents() + reader.pending == old(buf.Contents()) + old(reader.pending)
      ensures old(buf.Contents()) <= buf.Contents()
      ensures mem.oom != old(mem.oom) ==> nr == -1 && unchanged(reader)
      ensures mem.oom == old(mem.oom) ==> nr == reader.answer && Offered(maxCount, old(chain), lined, at, old(reader.offered), reader.offered)
      ensures mem.oom == old(mem.oom) && nr > 0 ==> Space(chain, mem.blocks) == Space(lined, at) - nr
      ensures mem.oom == old(mem.oom) && nr <= 0 ==> chain == if old(buf.Contents()) == [] then [] else lined
      ensures Isolated(old(mem.blocks), old(mem.held), mem.blocks, mem.held, Everyone(tls))
    {
      hide Ok, Isolated, Bytes, IOBuf.Valid, IOBuf.Contents, With, Space, NoneFull, Offered, Min, Lined, Everyone, ChainOk, BlocksOk;
      ghost var s, held := mem.blocks, mem.held;
      var ok, space := Prepare(tls, maxCount);
      lined, at := chain, mem.blocks;
      LinedUp(tls);
      if !ok {
        return -1, lined, at;
      }
      ghost var held' := mem.held;
      LinedIs();
      MinIs(maxCount, Space(Lined(), at));
      WasOffered(maxCount, old(chain), lined, at, reader.offered, space);
      nr := ReadInto(tls, reader, space);
      IsolatedTrans(s, held, at, held', mem.blocks, mem.held, Everyone(tls));
    }

    // One more offer, of the room of blocks that are not full, the old ones first.
    static ghost predicate Offered(maxCount: nat, ids: seq<BlockId>, lined: seq<BlockId>, at: Store,
                                   before: seq<nat>, after: seq<nat>) {
      var first := lined[..Min(|lined|, MAX_APPEND_IOVEC)];
      && ids <= lined && lined != [] && 0 <= Space(first, at)
      && (forall b :: b in lined ==> b in at && !at[b].Full())
      && after == before + [Min(maxCount, Space(first, at))]
      && (Space(first, at) < maxCount ==> |lined| >= MAX_APPEND_IOVEC)
    }

    static lemma {:induction false} WasOffered(maxCount: nat, ids: seq<BlockId>, lined: seq<BlockId>, at: Store,
                                               before: seq<nat>, space: nat)
      requires ids <= lined && lined != [] && ChainOk(lined, at) && NoneFull(lined, at)
      requires 0 <= Space(lined[..Min(|lined|, MAX_APPEND_IOVEC)], at)
      requires space == Min(maxCount, Space(lined[..Min(|lined|, MAX_APPEND_IOVEC)], at))
      requires space < maxCount ==> |lined| >= MAX_APPEND_IOVEC
      ensures Offered(maxCount, ids, lined, at, before, before + [space])
    {
    }
  }
}
