/** A ResourcePool as a whole: threads get and return items while others are in the middle of
    add_block. The index of a new block is the one its slot in the block groups has, and
    address_resource goes through the groups. */
module ResourceSystem {
  import opened Wrappers
  import B = BlockGroups
  import P = ResourcePools

  datatype State = State(groups: B.State, pools: P.State)

  datatype Event =
    | Begin(t: nat)
    | Work(t: nat)
    | Store(t: nat)
    | Fail(t: nat)
    | Pool(e: P.Event)

  const INITIAL: State := State(B.State([], 0, None, map[], []), P.INITIAL)

  // The thread has no item to hand out and asks for a block.
  predicate Needs(c: P.Config, p: P.State, t: nat) {
    t < |p.pools| && p.pools[t].free == [] && !P.HasRoom(c, p, p.pools[t])
  }

  // The index of the slot the thread has claimed.
  function Claimed(s: B.State, t: nat): nat {
    var pc := B.At(s, t);
    if pc.Storing? && pc.n >= 1 then B.IndexOf(pc.n, pc.i) else 0
  }

  // The steps inside add_block and add_block_group that concern the groups only.
  predicate Inside(s: B.State, t: nat, s': B.State) {
    B.Load(s, t, s') || B.FetchAdd(s, t, s') || B.FetchSub(s, t, s') || B.Lock(s, t, s') || B.Raced(s, t, s')
    || B.StoreGroup(s, t, s') || B.Publish(s, t, s')
  }

  // The pool's side of a step of the groups. Nothing is assumed of a step that the pool
  // would not be ready for.
  predicate Follows(c: P.Config, p: P.State, e: P.Event, p': P.State) {
    P.Enabled(c, p, e) ==> p' == P.After(c, p, e)
  }

  // A thread deals with its own pool only while it is not in add_block.
  predicate Free(s: State, e: P.Event) {
    e.Enter? || B.At(s.groups, e.t).Idle?
  }

  predicate Next(c: P.Config, s: State, e: Event, s': State) {
    match e
    case Begin(t) => !s.pools.broken && Needs(c, s.pools, t) && B.Start(s.groups, t, s'.groups) && s'.pools == s.pools
    case Work(t) => Inside(s.groups, t, s'.groups) && s'.pools == s.pools
    case Store(t) => B.StoreBlock(s.groups, t, s'.groups) && Follows(c, s.pools, P.NewBlock(t, Claimed(s.groups, t)), s'.pools)
    case Fail(t) => B.GiveUp(s.groups, t, s'.groups) && Follows(c, s.pools, P.BlockFailed(t), s'.pools)
    case Pool(e) => !e.NewBlock? && P.Enabled(c, s.pools, e) && Free(s, e) && s' == State(s.groups, P.After(c, s.pools, e))
  }

  // ---------- Invariant ----------

  // A thread in add_block still needs its block.
  ghost predicate Waiting(c: P.Config, s: State) {
    forall t :: t in s.groups.threads && !s.groups.threads[t].Idle? ==> Needs(c, s.pools, t)
  }

  predicate Logged(log: seq<B.Success>, b: nat) {
    exists j :: 0 <= j < |log| && log[j].index == b
  }

  // The blocks of the pools are those that add_block has returned.
  ghost predicate SameBlocks(s: State) {
    forall b :: b in s.pools.nitem <==> Logged(s.groups.log, b)
  }

  ghost predicate Inv(c: P.Config, s: State) {
    B.Inv(s.groups) && P.Inv(c, s.pools) && !s.pools.broken && Waiting(c, s) && SameBlocks(s)
  }

  // The slot a thread stores into has not been returned before.
  lemma {:induction false} FreshIndex(s: B.State, t: nat, s': B.State)
    requires B.Inv(s) && B.StoreBlock(s, t, s')
    ensures B.At(s, t).n >= 1 && !Logged(s.log, Claimed(s, t)) && s'.log == s.log + [s'.log[|s.log|]]
    ensures s'.log[|s.log|] == B.Success(t, B.At(s, t).b, Claimed(s, t))
  {
    hide B.Filled, B.GroupsOk, B.ThreadsOk, B.MutexOk;
    B.StoreLog(s, t, s');
    var i := |s.log|;
    assert s'.log[i].index == Claimed(s, t);
    forall j | 0 <= j < |s.log| ensures s.log[j].index != Claimed(s, t) {
      assert s'.log[j] == s.log[j];
    }
  }

  lemma {:induction false} LoggedMore(log: seq<B.Success>, x: B.Success, b: nat)
    ensures Logged(log + [x], b) <==> Logged(log, b) || b == x.index
  {
    var more := log + [x];
    if Logged(log, b) {
      var j :| 0 <= j < |log| && log[j].index == b;
      assert more[j].index == b;
    }
    assert more[|log|] == x;
  }

  // Events on other pools do not give a waiting thread what it needs.
  lemma {:induction false} StillNeeds(c: P.Config, s: P.State, e: P.Event, t: nat)
    requires P.PrivateBlocks(s) && P.Enabled(c, s, e) && Needs(c, s, t) && (e.Enter? || e.t != t)
    ensures Needs(c, P.After(c, s, e), t)
  {
    hide P.HeldAfter, P.LostAfter, P.ChunksAfter;
    var s' := P.After(c, s, e);
    assert s'.pools[t] == s.pools[t];
    if s.pools[t].curBlock.Some? {
      var b := s.pools[t].curBlock.value;
      assert b in s.nitem;
      P.NitemGrows(c, s, e, b);
    }
  }

  lemma {:induction false} StaysWaiting(c: P.Config, s: State, t: nat, g: B.State)
    requires Waiting(c, s) && g.threads == s.groups.threads[t := B.At(g, t)] && (B.At(g, t).Idle? || Needs(c, s.pools, t))
    ensures Waiting(c, State(g, s.pools))
  {
    hide Needs;
  }

  // The step of a thread that leaves add_block, seen from its pool.
  lemma {:induction false} Leaves(c: P.Config, s: State, e: P.Event, s': State)
    requires Waiting(c, s) && P.PrivateBlocks(s.pools) && !e.Enter? && P.Enabled(c, s.pools, e) && s'.pools == P.After(c, s.pools, e)
    requires s'.groups.threads == s.groups.threads[e.t := B.Idle]
    ensures Waiting(c, s')
  {
    hide P.PrivateBlocks, P.After, P.Enabled, Needs;
    forall t | t in s'.groups.threads && !s'.groups.threads[t].Idle? ensures Needs(c, s'.pools, t) {
      StillNeeds(c, s.pools, e, t);
    }
  }

  lemma {:induction false} PoolStep(c: P.Config, s: State, e: P.Event, s': State)
    requires c.chunkNitem >= 1 && Inv(c, s) && Next(c, s, Pool(e), s')
    ensures Inv(c, s')
  {
    hide B.Inv, P.OnePlace, P.Sizes, P.HeldAfter, P.LostAfter, P.ChunksAfter, Needs;
    P.InvAfter(c, s.pools, e);
    assert !e.GetEmpty? by { NoEmpty(c, s.pools); }
    forall t | t in s'.groups.threads && !s'.groups.threads[t].Idle? ensures Needs(c, s'.pools, t) {
      StillNeeds(c, s.pools, e, t);
    }
    assert s'.pools.nitem.Keys == s.pools.nitem.Keys;
  }

  lemma {:induction false} NoEmpty(c: P.Config, s: P.State)
    requires P.Inv(c, s)
    ensures s.chunks != [] ==> s.chunks[|s.chunks| - 1] != []
  {
    P.ChunksFilled(c, s);
  }

  lemma {:induction false} StoreStep(c: P.Config, s: State, t: nat, s': State)
    requires c.chunkNitem >= 1 && Inv(c, s) && Next(c, s, Store(t), s')
    ensures P.Enabled(c, s.pools, P.NewBlock(t, Claimed(s.groups, t))) && Inv(c, s')
  {
    hide B.Inv, P.Inv, B.Filled;
    FreshIndex(s.groups, t, s'.groups);
    B.StoreBlockStep(s.groups, t, s'.groups);
    var e := P.NewBlock(t, Claimed(s.groups, t));
    P.InvAfter(c, s.pools, e);
    assert P.PrivateBlocks(s.pools) by { Private(c, s.pools); }
    Leaves(c, s, e, s');
    forall b ensures b in s'.pools.nitem <==> Logged(s'.groups.log, b) {
      LoggedMore(s.groups.log, s'.groups.log[|s.groups.log|], b);
    }
  }

  lemma {:induction false} Private(c: P.Config, s: P.State)
    requires P.Inv(c, s)
    ensures P.PrivateBlocks(s)
  {
  }

  lemma {:induction false} FailStep(c: P.Config, s: State, t: nat, s': State)
    requires c.chunkNitem >= 1 && Inv(c, s) && Next(c, s, Fail(t), s')
    ensures P.Enabled(c, s.pools, P.BlockFailed(t)) && Inv(c, s')
  {
    hide B.Inv, P.Inv, B.Filled;
    B.QuietStep(s.groups, t, s'.groups);
    var e := P.BlockFailed(t);
    P.InvAfter(c, s.pools, e);
    assert P.PrivateBlocks(s.pools) by { Private(c, s.pools); }
    Leaves(c, s, e, s');
  }

  lemma {:induction false} InvNext(c: P.Config, s: State, e: Event, s': State)
    requires c.chunkNitem >= 1 && Inv(c, s) && Next(c, s, e, s')
    ensures Inv(c, s')
  {
    match e
    case Begin(t) =>
      hide B.Inv, P.Inv, B.Filled, Needs;
      B.QuietStep(s.groups, t, s'.groups);
      StaysWaiting(c, s, t, s'.groups);
    case Work(t) =>
      InsideStep(c, s, t, s');
    case Store(t) => StoreStep(c, s, t, s');
    case Fail(t) => FailStep(c, s, t, s');
    case Pool(e) => PoolStep(c, s, e, s');
  }

  lemma {:induction false} InsideStep(c: P.Config, s: State, t: nat, s': State)
    requires Inv(c, s) && Next(c, s, Work(t), s')
    ensures Inv(c, s')
  {
    hide B.Inv, P.Inv, B.Filled, Needs;
    assert B.StepOf(s.groups, t, s'.groups);
    B.InvNext(s.groups, s'.groups);
    StaysWaiting(c, s, t, s'.groups);
  }

  // ---------- Whole runs ----------

  ghost predicate Run(c: P.Config, states: seq<State>, events: seq<Event>) {
    && |states| == |events| + 1 && states[0] == INITIAL
    && forall i :: 0 <= i < |events| ==> StepOk(c, states, events, i)
  }

  predicate StepOk(c: P.Config, states: seq<State>, events: seq<Event>, i: nat)
    requires i < |events| && |states| == |events| + 1
  {
    Next(c, states[i], events[i], states[i + 1])
  }

  lemma {:induction false} InvInitial(c: P.Config)
    requires c.blockNitem >= 1
    ensures Inv(c, INITIAL)
  {
    assert P.InPools([]) == multiset{} && P.InChunks([]) == multiset{};
  }

  // In every state of every run each item is in one place, and the blocks of the pools are
  // those in the groups. That new indices are fresh is part of what is proved.
  lemma {:induction false} Ownership(c: P.Config, states: seq<State>, events: seq<Event>, n: nat)
    requires c.blockNitem >= 1 && c.chunkNitem >= 1 && Run(c, states, events) && n < |states|
    ensures Inv(c, states[n])
  {
    hide Inv, Next;
    if n == 0 {
      InvInitial(c);
    } else {
      Ownership(c, states, events, n - 1);
      assert StepOk(c, states, events, n - 1);
      InvNext(c, states[n - 1], events[n - 1], states[n]);
    }
  }

  // What does not change any more: entries of the log, and items constructed.
  ghost predicate Lasting(s: State, s': State) {
    && s.groups.log <= s'.groups.log
    && (|s.groups.groups| <= B.RP_MAX_BLOCK_NGROUP ==> |s'.groups.groups| <= B.RP_MAX_BLOCK_NGROUP)
    && forall b :: b in s.pools.nitem ==> b in s'.pools.nitem && s.pools.nitem[b] <= s'.pools.nitem[b]
  }

  lemma {:induction false} NitemLasts(c: P.Config, s: P.State, e: P.Event)
    requires P.Enabled(c, s, e)
    ensures forall b :: b in s.nitem ==> b in P.After(c, s, e).nitem && s.nitem[b] <= P.After(c, s, e).nitem[b]
  {
    hide P.After, P.Enabled;
    forall b | b in s.nitem ensures b in P.After(c, s, e).nitem && s.nitem[b] <= P.After(c, s, e).nitem[b] {
      P.NitemGrows(c, s, e, b);
    }
  }

  lemma {:induction false} StepLasts(c: P.Config, s: State, e: Event, s': State)
    requires c.chunkNitem >= 1 && Inv(c, s) && Next(c, s, e, s')
    ensures Lasting(s, s')
  {
    hide Inv, P.After, P.Enabled, Needs;
    match e
    case Begin(t) =>
    case Work(t) =>
    case Store(t) =>
      StoreStep(c, s, t, s');
      NitemLasts(c, s.pools, P.NewBlock(t, Claimed(s.groups, t)));
    case Fail(t) =>
      FailStep(c, s, t, s');
      NitemLasts(c, s.pools, P.BlockFailed(t));
    case Pool(e) => NitemLasts(c, s.pools, e);
  }

  lemma {:induction false} RunLasts(c: P.Config, states: seq<State>, events: seq<Event>, m: nat, n: nat)
    requires c.blockNitem >= 1 && c.chunkNitem >= 1 && Run(c, states, events) && m <= n < |states|
    ensures Lasting(states[m], states[n])
  {
    if m < n {
      hide Inv, Next;
      RunLasts(c, states, events, m, n - 1);
      Ownership(c, states, events, n - 1);
      assert StepOk(c, states, events, n - 1);
      StepLasts(c, states[n - 1], events[n - 1], states[n]);
    }
  }

  // ---------- From id to item ----------

  datatype Place = Place(block: B.BlockPtr, offset: nat)

  // The number of items in the block with this index.
  function Nitem(s: State, b: nat): nat {
    if b in s.pools.nitem then s.pools.nitem[b] else 0
  }

  // address_resource.
  function Address(c: P.Config, s: State, id: nat): Option<Place>
    requires c.blockNitem > 0
  {
    var b := id / c.blockNitem;
    if b / B.RP_GROUP_NBLOCK >= B.RP_MAX_BLOCK_NGROUP then None else
    var p := B.Lookup(s.groups, b);
    if p != B.NULL && id - b * c.blockNitem < Nitem(s, b) then Some(Place(p, id - b * c.blockNitem)) else None
  }

  // A block in the pools is found through the groups.
  lemma {:induction false} BlockFound(c: P.Config, s: State, b: nat)
    requires Inv(c, s) && |s.groups.groups| <= B.RP_MAX_BLOCK_NGROUP && b in s.pools.nitem
    ensures b / B.RP_GROUP_NBLOCK < B.RP_MAX_BLOCK_NGROUP && B.Lookup(s.groups, b) != B.NULL
    ensures exists j :: 0 <= j < |s.groups.log| && s.groups.log[j].index == b && s.groups.log[j].b == B.Lookup(s.groups, b)
  {
    hide B.Filled, P.Inv, Waiting, B.GroupsOk, B.ThreadsOk, B.MutexOk;
    assert Logged(s.groups.log, b);
    var j :| 0 <= j < |s.groups.log| && s.groups.log[j].index == b;
    assert B.Lookup(s.groups, s.groups.log[j].index) == s.groups.log[j].b;
  }

  // address_resource finds exactly the items constructed.
  lemma {:induction false} AddressExactly(c: P.Config, states: seq<State>, events: seq<Event>, n: nat, id: nat)
    requires c.blockNitem >= 1 && c.chunkNitem >= 1 && Run(c, states, events) && n < |states|
    ensures Address(c, states[n], id) ==
      if P.Constructed(c, states[n].pools, id) then Some(Place(B.Lookup(states[n].groups, id / c.blockNitem), id % c.blockNitem))
      else None
  {
    hide Inv, Next, B.Lookup;
    var s, b := states[n], id / c.blockNitem;
    assert id == b * c.blockNitem + id % c.blockNitem;
    Ownership(c, states, events, n);
    RunLasts(c, states, events, 0, n);
    if b in s.pools.nitem {
      BlockFound(c, s, b);
    }
  }

  // A call of get delivers an id that nobody holds, and from then on, whatever happens, the
  // id addresses the item in the block that add_block put there.
  lemma {:induction false} GetAddresses(c: P.Config, states: seq<State>, events: seq<Event>, m: nat, n: nat)
    requires c.blockNitem >= 1 && c.chunkNitem >= 1 && Run(c, states, events) && m < n < |states|
    requires events[m].Pool? && P.Gets(events[m].e) && P.Enabled(c, states[m].pools, events[m].e)
    ensures var (id, item) := P.Got(c, states[m].pools, events[m].e);
      && states[m].pools.held[id] == 0 && states[m + 1].pools.held[id] == 1
      && B.Lookup(states[m + 1].groups, item.block) != B.NULL
      && Address(c, states[n], id) == Some(Place(B.Lookup(states[m + 1].groups, item.block), item.offset))
  {
    hide Inv, P.After, P.Enabled, P.Got, Address, P.Constructed, B.Lookup;
    var (id, item) := P.Got(c, states[m].pools, events[m].e);
    Ownership(c, states, events, m);
    assert P.Inv(c, states[m].pools) by { PoolsInv(c, states[m]); }
    assert StepOk(c, states, events, m);
    P.GotHeld(c, states[m].pools, events[m].e);
    Ownership(c, states, events, m + 1);
    Ownership(c, states, events, n);
    RunLasts(c, states, events, 0, m + 1);
    RunLasts(c, states, events, m + 1, n);
    StillThere(c, states[m + 1], states[n], id);
    AddressExactly(c, states, events, n, id);
  }

  lemma {:induction false} PoolsInv(c: P.Config, s: State)
    requires Inv(c, s)
    ensures P.Inv(c, s.pools)
  {
  }

  // An item constructed stays, in the same block.
  lemma {:induction false} StillThere(c: P.Config, s: State, s': State, id: nat)
    requires c.blockNitem >= 1 && Inv(c, s) && Inv(c, s') && Lasting(s, s') && P.Constructed(c, s.pools, id)
    requires |s.groups.groups| <= B.RP_MAX_BLOCK_NGROUP
    ensures P.Constructed(c, s'.pools, id)
    ensures var b := id / c.blockNitem; B.Lookup(s'.groups, b) == B.Lookup(s.groups, b) != B.NULL
  {
    hide B.Inv, P.Inv, B.Lookup, Waiting;
    var b := id / c.blockNitem;
    BlockFound(c, s, b);
    var j :| 0 <= j < |s.groups.log| && s.groups.log[j].index == b && s.groups.log[j].b == B.Lookup(s.groups, b);
    assert s'.groups.log[j] == s.groups.log[j];
    LogFound(s'.groups, j);
  }

  lemma {:induction false} LogFound(s: B.State, j: nat)
    requires B.Inv(s) && j < |s.log|
    ensures B.Lookup(s, s.log[j].index) == s.log[j].b
  {
  }
}
