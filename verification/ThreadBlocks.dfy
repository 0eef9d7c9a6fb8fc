/** The per-thread chain of blocks that appending operations share. */
module ThreadBlocks {
  import opened Blocks
  import opened Ownership
  import opened BlockMemory
  import opened Chains

  const MAX_BLOCKS_PER_THREAD: nat := 8

  function Head(ids: seq<BlockId>): BlockId {
    if ids == [] then NULL else ids[0]
  }

  // The first block of a chain with room left.
  function FirstOpen(ids: seq<BlockId>, s: Store): (b: BlockId)
    ensures b == NULL || (b in ids && b in s && !s[b].Full())
  {
    if ids == [] then NULL else if ids[0] in s && !s[ids[0]].Full() then ids[0] else FirstOpen(ids[1..], s)
  }

  // The chain from that block on.
  function FromOpen(ids: seq<BlockId>, s: Store): (rest: seq<BlockId>)
    ensures Head(rest) == FirstOpen(ids, s)
  {
    if ids == [] then [] else if ids[0] in s && !s[ids[0]].Full() then ids else FromOpen(ids[1..], s)
  }

  // Everything before it is full, and it is not.
  lemma {:induction false} OpenSuffix(ids: seq<BlockId>, s: Store) returns (k: nat)
    ensures k <= |ids| && FromOpen(ids, s) == ids[k..]
    ensures forall i :: 0 <= i < k ==> ids[i] in s ==> s[ids[i]].Full()
    ensures k < |ids| ==> ids[k] in s && !s[ids[k]].Full()
  {
    k := 0;
    if ids != [] && !(ids[0] in s && !s[ids[0]].Full()) {
      var j := OpenSuffix(ids[1..], s);
      k := j + 1;
      assert ids[k..] == ids[1..][j..];
      assert forall i :: 0 < i < k ==> ids[i] == ids[1..][i - 1];
    }
  }

  lemma {:induction false} FirstOpenKept(ids: seq<BlockId>, s: Store, b: BlockId)
    requires b in s && b !in ids
    ensures FirstOpen(ids, Dec(s, b)) == FirstOpen(ids, s) && FromOpen(ids, Dec(s, b)) == FromOpen(ids, s)
  {
    if ids != [] {
      assert ids[0] in ids;
      assert ids[0] in Dec(s, b) <==> ids[0] in s;
      FirstOpenKept(ids[1..], s, b);
    }
  }

  // The block that appending will continue in, with the room it has.
  ghost predicate Continues(ids: seq<BlockId>, s: Store, ids': seq<BlockId>, s': Store) {
    var b := FirstOpen(ids, s);
    FirstOpen(ids', s') == b && FromOpen(ids', s') == FromOpen(ids, s) && (b != NULL ==> SameRoom(s[b], s'[b]))
  }

  predicate SameRoom(b: Block, b': Block) {
    b'.size == b.size && b'.cap == b.cap && b'.data == b.data
  }

  lemma {:induction false} PopContinues(ids: seq<BlockId>, s: Store)
    requires ids != [] && ids[0] in s && s[ids[0]].Full() && ids[0] !in ids[1..]
    ensures Continues(ids, s, ids[1..], Dec(s, ids[0]))
  {
    FirstOpenKept(ids[1..], s, ids[0]);
  }

  lemma {:induction false} HeadLives(ids: seq<BlockId>, s: Store)
    requires ChainOk(ids, s)
    ensures ids != [] ==> ids[0] in s
  {
  }

  ghost predicate NoneFull(ids: seq<BlockId>, s: Store) {
    forall b :: b in ids && b in s ==> !s[b].Full()
  }

  class ThreadLocal {
    const mem: Memory
    var blockHead: BlockId
    var numBlocks: int
    ghost var chain: seq<BlockId>

    ghost predicate Valid()
      reads this, mem
    {
      && mem.Valid()
      && IsChain(mem.held, this, chain)
      && blockHead == Head(chain)
      && numBlocks == |chain|
    }

    lemma Parts()
      requires Valid()
      ensures mem.Valid() && Ok(mem.blocks, mem.held) && mem.Tallied()
      ensures this in mem.held && mem.held[this] == Chain(chain) && blockHead == Head(chain) && numBlocks == |chain|
    {
    }

    lemma Assembled()
      requires mem.Valid() && this in mem.held && mem.held[this] == Chain(chain)
      requires blockHead == Head(chain) && numBlocks == |chain|
      ensures Valid()
    {
    }

    constructor (mem: Memory)
      requires mem.Valid()
      modifies mem`held
      ensures this.mem == mem && Valid() && chain == []
      ensures Isolated(old(mem.blocks), old(mem.held), mem.blocks, mem.held, {})
    {
      this.mem := mem;
      blockHead, numBlocks, chain := NULL, 0, [];
      new;
      JoinOk(mem.blocks, mem.held, this, Chain([]));
      mem.held := mem.held[this := Chain([])];
    }

    // `b` heads the chain: it loses its share and its successor takes its place.
    method PopHead(b: BlockId) returns (next: BlockId)
      requires mem.Valid() && IsChain(mem.held, this, chain) && numBlocks == |chain|
      requires chain != [] && b == chain[0]
      modifies this`numBlocks, this`chain, mem`blocks, mem`nblock, mem`held
      ensures mem.Valid() && IsChain(mem.held, this, chain) && numBlocks == |chain|
      ensures chain == old(chain)[1..] && next == Head(chain)
      ensures b in old(mem.blocks) && mem.blocks == Dec(old(mem.blocks), b)
      ensures Isolated(old(mem.blocks), old(mem.held), mem.blocks, mem.held, {this})
    {
      hide Ok, Isolated;
      ghost var s, held := mem.blocks, mem.held;
      HeldChainOk(s, held, this);
      next := mem.blocks[b].next;
      assert next == After(chain, 0);
      ChainPopOk(s, held, this);
      mem.DecRef(b);
      chain := chain[1..];
      mem.held := held[this := Chain(chain)];
      numBlocks := numBlocks - 1;
    }

    // A non-full block of this thread; it stays in the chain.
    method ShareBlock() returns (b: BlockId)
      requires Valid()
      modifies this, mem
      ensures Valid()
      ensures b == NULL ==> chain == []
      ensures b != NULL ==> chain != [] && b == chain[0] && b in mem.blocks && !mem.blocks[b].Full()
      ensures var open := FirstOpen(old(chain), old(mem.blocks));
        if open != NULL then b == open && SameRoom(old(mem.blocks)[b], mem.blocks[b]) && chain == FromOpen(old(chain), old(mem.blocks))
        else b == NULL || (mem.blocks[b].size == 0 && chain == [b])
      ensures mem.oom == old(mem.oom) + (if b == NULL then 1 else 0)
      ensures Isolated(old(mem.blocks), old(mem.held), mem.blocks, mem.held, {this})
    {
      hide Ok, Isolated, ChainOk;
      ghost var s, held := mem.blocks, mem.held;
      IsolatedRefl(s, held, {this});
      HeldChainOk(s, held, this);
      HeadLives(chain, s);
      b := blockHead;
      if b != NULL && !mem.blocks[b].Full() {
        return;
      }
      b := SkipFull(b);
      if b == NULL {
        ghost var t, held' := mem.blocks, mem.held;
        b := NewHead();
        IsolatedTrans(s, held, t, held', mem.blocks, mem.held, {this});
      }
      blockHead := b;
    }

    method SkipFull(head: BlockId) returns (b: BlockId)
      requires Valid() && head == blockHead
      modifies this`numBlocks, this`chain, mem`blocks, mem`nblock, mem`held
      ensures mem.Valid() && IsChain(mem.held, this, chain) && numBlocks == |chain|
      ensures b == Head(chain)
      ensures b != NULL ==> b in mem.blocks && !mem.blocks[b].Full()
      ensures b == NULL ==> chain == []
      ensures Continues(old(chain), old(mem.blocks), chain, mem.blocks)
      ensures Isolated(old(mem.blocks), old(mem.held), mem.blocks, mem.held, {this})
    {
      hide Ok, Isolated;
      ghost var s, held := mem.blocks, mem.held;
      IsolatedRefl(s, held, {this});
      HeldChainOk(s, held, this);
      b := head;
      while b != NULL && mem.blocks[b].Full()
        invariant mem.Valid() && IsChain(mem.held, this, chain) && numBlocks == |chain|
        invariant b == Head(chain) && (b == NULL ==> chain == []) && (b != NULL ==> b in mem.blocks)
        invariant Continues(old(chain), s, chain, mem.blocks)
        invariant Isolated(s, held, mem.blocks, mem.held, {this})
        decreases |chain|
      {
        ghost var t, held' := mem.blocks, mem.held;
        HeldChainOk(t, held', this);
        PopContinues(chain, t);
        b := PopHead(b);
        IsolatedTrans(s, held, t, held', mem.blocks, mem.held, {this});
        HeldChainOk(mem.blocks, mem.held, this);
      }
    }

    method NewHead() returns (b: BlockId)
      requires mem.Valid() && IsChain(mem.held, this, []) && chain == [] && numBlocks == 0
      modifies this`numBlocks, this`chain, mem
      ensures mem.Valid() && IsChain(mem.held, this, chain) && numBlocks == |chain|
      ensures b == Head(chain) && (b == NULL ==> chain == [])
      ensures b != NULL ==> b in mem.blocks && !mem.blocks[b].Full() && mem.blocks[b].size == 0 && chain == [b]
      ensures mem.oom == old(mem.oom) + (if b == NULL then 1 else 0)
      ensures Isolated(old(mem.blocks), old(mem.held), mem.blocks, mem.held, {this})
    {
      hide Ok, Isolated;
      ghost var s, held := mem.blocks, mem.held;
      HeldChainOk(s, held, this);
      b := mem.CreateBlock();
      if b == NULL {
        IsolatedRefl(s, held, {this});
      } else {
        NewInChain(s, held, this, b, mem.blocks[b]);
        chain := [b];
        mem.held := held[this := Chain(chain)];
        numBlocks := numBlocks + 1;
      }
    }

    // The non-full head leaves the chain, unlinked, for `hand`.
    method TakeHead(ghost hand: object) returns (b: BlockId)
      requires Valid() && hand != this && IsChain(mem.held, hand, []) && chain != []
      modifies this, mem`blocks, mem`held
      ensures Valid() && b == old(chain)[0] && chain == old(chain)[1..] && b in old(mem.blocks) && IsChain(mem.held, hand, [b])
      ensures b in mem.blocks && mem.blocks[b] == old(mem.blocks)[b].(next := NULL)
      ensures Isolated(old(mem.blocks), old(mem.held), mem.blocks, mem.held, {this, hand})
    {
      hide Ok, Isolated;
      ghost var s, held := mem.blocks, mem.held;
      HeldChainOk(s, held, this);
      b := blockHead;
      assert mem.blocks[b].next == After(chain, 0);
      blockHead := mem.blocks[b].next;
      numBlocks := numBlocks - 1;
      mem.SetNext(b, NULL);
      TakeHeadOk(s, held, this, hand, chain);
      chain := chain[1..];
      mem.held := held[this := Chain(chain)][hand := Chain([b])];
    }

    // A block taken out of the chain, or a new one; `hand` is whoever receives its share.
    method AcquireBlock(ghost hand: object) returns (b: BlockId)
      requires Valid() && hand != this && IsChain(mem.held, hand, [])
      modifies this, mem
      ensures Valid()
      ensures b == NULL ==> IsChain(mem.held, hand, [])
      ensures b != NULL ==> IsChain(mem.held, hand, [b]) && b in mem.blocks && !mem.blocks[b].Full()
      ensures var open := FirstOpen(old(chain), old(mem.blocks));
        if open != NULL then
          && b == open && b in old(chain) && SameRoom(old(mem.blocks)[b], mem.blocks[b])
          && [b] + chain == FromOpen(old(chain), old(mem.blocks))
        else chain == [] && (b != NULL ==> mem.blocks[b].size == 0)
      ensures mem.oom == old(mem.oom) + (if b == NULL then 1 else 0)
      ensures Isolated(old(mem.blocks), old(mem.held), mem.blocks, mem.held, {this, hand})
    {
      hide Ok, Isolated;
      ghost var s, held := mem.blocks, mem.held;
      b := SkipFull(blockHead);
      blockHead := b;
      ghost var t, held' := mem.blocks, mem.held;
      OtherOwner(s, held, t, held', hand, {this});
      IsolatedMore(s, held, t, held', {this}, {this, hand});
      if b == NULL {
        b := NewInHand(hand);
      } else {
        b := TakeHead(hand);
      }
      IsolatedTrans(s, held, t, held', mem.blocks, mem.held, {this, hand});
    }

    method NewInHand(ghost hand: object) returns (b: BlockId)
      requires Valid() && hand != this && IsChain(mem.held, hand, [])
      modifies mem
      ensures Valid()
      ensures b == NULL ==> IsChain(mem.held, hand, [])
      ensures b != NULL ==> IsChain(mem.held, hand, [b])
      ensures b != NULL ==> b in mem.blocks && !mem.blocks[b].Full() && mem.blocks[b].size == 0
      ensures mem.oom == old(mem.oom) + (if b == NULL then 1 else 0)
      ensures Isolated(old(mem.blocks), old(mem.held), mem.blocks, mem.held, {this, hand})
    {
      hide Ok, Isolated;
      ghost var s, held := mem.blocks, mem.held;
      HeldChainOk(s, held, hand);
      b := mem.CreateBlock();
      if b == NULL {
        IsolatedRefl(s, held, {this, hand});
      } else {
        NewInChain(s, held, hand, b, mem.blocks[b]);
        mem.held := held[hand := Chain([b])];
        IsolatedMore(s, held, mem.blocks, mem.held, {hand}, {this, hand});
      }
    }

    // The chain starting at `b`, which `from` gives up, returns to this thread, or is
    // released when the thread has enough blocks.
    method ReleaseChain(b: BlockId, ghost from: object)
      requires Valid() && from != this && from in mem.held && mem.held[from].Chain?
      requires mem.held[from].ids != [] && b == mem.held[from].ids[0]
      requires NoneFull(mem.held[from].ids, mem.blocks)
      modifies this, mem`blocks, mem`nblock, mem`held
      ensures Valid() && IsChain(mem.held, from, [])
      ensures chain == if old(numBlocks) >= MAX_BLOCKS_PER_THREAD then old(chain) else old(mem.held)[from].ids + old(chain)
      ensures Isolated(old(mem.blocks), old(mem.held), mem.blocks, mem.held, {this, from})
    {
      hide Ok, Isolated;
      if numBlocks >= MAX_BLOCKS_PER_THREAD {
        DropChain(b, from);
      } else {
        PrependChain(b, from);
      }
    }

    // The first block of a chain loses its share; the next one follows.
    method ReleaseFirst(b: BlockId, ghost from: object) returns (saved: BlockId)
      requires mem.Valid() && from in mem.held && mem.held[from].Chain?
      requires mem.held[from].ids != [] && b == mem.held[from].ids[0]
      modifies mem`blocks, mem`nblock, mem`held
      ensures mem.Valid() && mem.held == old(mem.held)[from := Chain(old(mem.held)[from].ids[1..])]
      ensures saved == Head(mem.held[from].ids) && (saved == NULL ==> mem.held[from].ids == [])
      ensures Isolated(old(mem.blocks), old(mem.held), mem.blocks, mem.held, {from})
    {
      hide Ok, Isolated;
      ghost var s, held := mem.blocks, mem.held;
      HeldChainOk(s, held, from);
      assert mem.blocks[b].next == After(held[from].ids, 0);
      saved := mem.blocks[b].next;
      ChainPopOk(s, held, from);
      mem.DecRef(b);
      mem.held := held[from := Chain(held[from].ids[1..])];
    }

    // No block has the null address.
    lemma ChainStarts(o: object)
      requires mem.Valid() && o in mem.held && mem.held[o].Chain?
      ensures Head(mem.held[o].ids) == NULL <==> mem.held[o].ids == []
      ensures mem.held[o].ids != [] ==> Head(mem.held[o].ids) == mem.held[o].ids[0]
    {
      HeldChainOk(mem.blocks, mem.held, o);
    }

    method DropChain(first: BlockId, ghost from: object)
      requires Valid() && from != this && from in mem.held && mem.held[from].Chain?
      requires first == Head(mem.held[from].ids)
      modifies mem`blocks, mem`nblock, mem`held
      ensures Valid() && IsChain(mem.held, from, [])
      ensures Isolated(old(mem.blocks), old(mem.held), mem.blocks, mem.held, {this, from})
    {
      hide *;
      ghost var s, held := mem.blocks, mem.held;
      Parts();
      ChainStarts(from);
      IsolatedRefl(s, held, {this, from});
      var b := first;
      while b != NULL
        invariant mem.Valid() && this in mem.held && mem.held[this] == Chain(chain)
        invariant from in mem.held && mem.held[from].Chain?
        invariant b == Head(mem.held[from].ids) && (b == NULL <==> mem.held[from].ids == [])
        invariant Isolated(s, held, mem.blocks, mem.held, {this, from})
        decreases |mem.held[from].ids|
      {
        ghost var t, held' := mem.blocks, mem.held;
        ChainStarts(from);
        b := ReleaseFirst(b, from);
        ChainStarts(from);
        IsolatedMore(t, held', mem.blocks, mem.held, {from}, {this, from});
        IsolatedTrans(s, held, t, held', mem.blocks, mem.held, {this, from});
      }
      Assembled();
      MakeChain(mem.held, from, []);
    }

    method PrependChain(first: BlockId, ghost from: object)
      requires Valid() && from != this && from in mem.held && mem.held[from].Chain?
      requires mem.held[from].ids != [] && first == mem.held[from].ids[0]
      requires NoneFull(mem.held[from].ids, mem.blocks)
      modifies this, mem`blocks, mem`nblock, mem`held
      ensures Valid() && IsChain(mem.held, from, [])
      ensures chain == old(mem.held)[from].ids + old(chain)
      ensures Isolated(old(mem.blocks), old(mem.held), mem.blocks, mem.held, {this, from})
    {
      hide Ok, Isolated;
      ghost var s, held, ids := mem.blocks, mem.held, mem.held[from].ids;
      HeldChainOk(s, held, from);
      var b, n := first, 1;
      assert !mem.blocks[b].Full();
      while mem.blocks[b].next != NULL
        invariant 1 <= n <= |ids| && b == ids[n - 1] && b in mem.blocks
        decreases |ids| - n
      {
        assert mem.blocks[b].next == After(ids, n - 1);
        b := mem.blocks[b].next;
        n := n + 1;
        assert !mem.blocks[b].Full();
      }
      assert mem.blocks[b].next == After(ids, n - 1);
      mem.SetNext(b, blockHead);
      PrependOk(s, held, this, from, ids, chain);
      chain := ids + chain;
      mem.held := held[this := Chain(chain)][from := Chain([])];
      blockHead := first;
      numBlocks := numBlocks + n;
    }
  }
}
