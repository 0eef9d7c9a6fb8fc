/** How ResourcePool hands out block indices: any number of threads run add_block and
    add_block_group, one atomic operation at a time, in any order. */
module BlockGroups {
  import opened Wrappers

  const RP_MAX_BLOCK_NGROUP: nat := 65536
  const RP_GROUP_NBLOCK: nat := 65536

  // A block by its address.
  type BlockPtr = nat
  const NULL: BlockPtr := 0

  datatype Group = Group(nblock: nat, blocks: seq<BlockPtr>)

  // Where a thread is in add_block: `b` is its new block, `n` the number of groups it
  // has seen, `i` what fetch_add gave it.
  datatype Pc =
    | Idle
    | Loading(b: BlockPtr)
    | Claiming(b: BlockPtr, n: nat)
    | Storing(b: BlockPtr, n: nat, i: nat)
    | Over(b: BlockPtr, n: nat)
    | Locking(b: BlockPtr, n: nat)
    | Checking(b: BlockPtr, n: nat)
    | Publishing(b: BlockPtr, n: nat)

  // A call of add_block that succeeded.
  datatype Success = Success(thread: nat, b: BlockPtr, index: nat)

  // `groups` are the groups stored in _block_groups; `log` is for the properties only.
  datatype State = State(groups: seq<Group>, ngroup: nat, mutex: Option<nat>, threads: map<nat, Pc>, log: seq<Success>)

  function At(s: State, t: nat): Pc {
    if t in s.threads then s.threads[t] else Idle
  }

  function Goto(s: State, t: nat, pc: Pc): State {
    s.(threads := s.threads[t := pc])
  }

  function IndexOf(n: nat, i: nat): nat
    requires n >= 1
  {
    (n - 1) * RP_GROUP_NBLOCK + i
  }

  function EmptyGroup(): (g: Group)
    ensures g.nblock == 0 && |g.blocks| == RP_GROUP_NBLOCK
    ensures forall i :: 0 <= i < |g.blocks| ==> g.blocks[i] == NULL
  {
    Group(0, seq(RP_GROUP_NBLOCK, i => NULL))
  }

  // ---------- Steps ----------

  predicate Init(s: State) {
    s == State([], 0, None, map[], [])
  }

  // A new block; failing to allocate one changes nothing.
  predicate Start(s: State, t: nat, s': State) {
    At(s, t).Idle? && At(s', t).Loading? && At(s', t).b != NULL && s' == Goto(s, t, At(s', t))
  }

  predicate Load(s: State, t: nat, s': State) {
    At(s, t).Loading?
    && s' == Goto(s, t, if s.ngroup >= 1 then Claiming(At(s, t).b, s.ngroup) else Locking(At(s, t).b, 0))
  }

  predicate FetchAdd(s: State, t: nat, s': State) {
    var pc := At(s, t);
    pc.Claiming? && 1 <= pc.n <= |s.groups|
    && var i := s.groups[pc.n - 1].nblock;
    s' == Goto(s.(groups := s.groups[pc.n - 1 := s.groups[pc.n - 1].(nblock := i + 1)]), t,
               if i < RP_GROUP_NBLOCK then Storing(pc.b, pc.n, i) else Over(pc.b, pc.n))
  }

  predicate StoreBlock(s: State, t: nat, s': State) {
    var pc := At(s, t);
    pc.Storing? && 1 <= pc.n <= |s.groups| && pc.i < |s.groups[pc.n - 1].blocks|
    && var g := s.groups[pc.n - 1];
    s' == Goto(s.(groups := s.groups[pc.n - 1 := g.(blocks := g.blocks[pc.i := pc.b])],
                  log := s.log + [Success(t, pc.b, IndexOf(pc.n, pc.i))]), t, Idle)
  }

  predicate FetchSub(s: State, t: nat, s': State) {
    var pc := At(s, t);
    pc.Over? && 1 <= pc.n <= |s.groups| && s.groups[pc.n - 1].nblock >= 1
    && var g := s.groups[pc.n - 1];
    s' == Goto(s.(groups := s.groups[pc.n - 1 := g.(nblock := g.nblock - 1)]), t, Locking(pc.b, pc.n))
  }

  predicate Lock(s: State, t: nat, s': State) {
    At(s, t).Locking? && s.mutex == None
    && s' == Goto(s.(mutex := Some(t)), t, Checking(At(s, t).b, At(s, t).n))
  }

  // Another thread added a group: try again.
  predicate Raced(s: State, t: nat, s': State) {
    At(s, t).Checking? && s.ngroup != At(s, t).n
    && s' == Goto(s.(mutex := None), t, Loading(At(s, t).b))
  }

  // No more groups, or none could be allocated: the block is deleted.
  predicate GiveUp(s: State, t: nat, s': State) {
    At(s, t).Checking? && s.ngroup == At(s, t).n
    && s' == Goto(s.(mutex := None), t, Idle)
  }

  predicate StoreGroup(s: State, t: nat, s': State) {
    At(s, t).Checking? && s.ngroup == At(s, t).n < RP_MAX_BLOCK_NGROUP && |s.groups| >= s.ngroup
    && s' == Goto(s.(groups := s.groups[..s.ngroup] + [EmptyGroup()]), t, Publishing(At(s, t).b, At(s, t).n))
  }

  predicate Publish(s: State, t: nat, s': State) {
    At(s, t).Publishing?
    && s' == Goto(s.(ngroup := At(s, t).n + 1, mutex := None), t, Loading(At(s, t).b))
  }

  predicate StepOf(s: State, t: nat, s': State) {
    Start(s, t, s') || Load(s, t, s') || FetchAdd(s, t, s') || StoreBlock(s, t, s') || FetchSub(s, t, s')
    || Lock(s, t, s') || Raced(s, t, s') || GiveUp(s, t, s') || StoreGroup(s, t, s') || Publish(s, t, s')
  }

  ghost predicate Next(s: State, s': State) {
    exists t :: StepOf(s, t, s')
  }

  // ---------- Invariant ----------

  // The threads that went past the end of group `k` and have yet to step back.
  function Overs(threads: map<nat, Pc>, k: nat): set<nat> {
    set t | t in threads && threads[t].Over? && threads[t].n == k + 1
  }

  // The number of slots of group `k` that were claimed.
  function Filled(s: State, k: nat): int
    requires k < |s.groups|
  {
    s.groups[k].nblock - |Overs(s.threads, k)|
  }

  predicate Claims(pc: Pc, k: nat, i: nat) {
    pc.Storing? && pc.n == k + 1 && pc.i == i
  }

  predicate InSection(pc: Pc) {
    pc.Checking? || pc.Publishing?
  }

  ghost predicate MutexOk(s: State) {
    forall t :: t in s.threads && InSection(s.threads[t]) ==> s.mutex == Some(t)
  }

  // A group is stored but not yet counted.
  predicate Unpublished(s: State) {
    s.mutex.Some? && At(s, s.mutex.value).Publishing?
  }

  predicate PcOk(s: State, pc: Pc) {
    match pc
    case Idle => true
    case Loading(b) => b != NULL
    case Claiming(b, n) => b != NULL && 1 <= n <= s.ngroup
    case Storing(b, n, i) => b != NULL && 1 <= n <= s.ngroup
    case Over(b, n) => b != NULL && 1 <= n <= s.ngroup
    case Locking(b, n) => b != NULL && n <= s.ngroup && (n >= 1 ==> n <= |s.groups| && Filled(s, n - 1) == RP_GROUP_NBLOCK)
    case Checking(b, n) => b != NULL && n <= s.ngroup && (n >= 1 ==> n <= |s.groups| && Filled(s, n - 1) == RP_GROUP_NBLOCK)
    case Publishing(b, n) => b != NULL && n == s.ngroup && (n >= 1 ==> n <= |s.groups| && Filled(s, n - 1) == RP_GROUP_NBLOCK)
  }

  ghost predicate ThreadsOk(s: State) {
    forall t :: t in s.threads ==> PcOk(s, s.threads[t])
  }

  predicate Shape(s: State) {
    |s.groups| == (if Unpublished(s) then s.ngroup + 1 else s.ngroup)
  }

  // Slots below the fill mark are taken by one thread each until their block is there;
  // the others are free.
  ghost predicate SlotOk(s: State, k: nat, i: nat)
    requires k < |s.groups| && i < |s.groups[k].blocks|
  {
    && (forall t :: t in s.threads && Claims(s.threads[t], k, i) ==> i < Filled(s, k) && s.groups[k].blocks[i] == NULL)
    && (s.groups[k].blocks[i] != NULL ==> i < Filled(s, k))
    && (forall t, u :: t in s.threads && u in s.threads && Claims(s.threads[t], k, i) && Claims(s.threads[u], k, i) ==> t == u)
  }

  ghost predicate GroupOk(s: State, k: nat)
    requires k < |s.groups|
  {
    && |s.groups[k].blocks| == RP_GROUP_NBLOCK
    && 0 <= Filled(s, k) <= RP_GROUP_NBLOCK
    && (Overs(s.threads, k) != {} ==> Filled(s, k) == RP_GROUP_NBLOCK)
    && (k + 1 < s.ngroup ==> Filled(s, k) == RP_GROUP_NBLOCK)
    && forall i :: 0 <= i < RP_GROUP_NBLOCK ==> SlotOk(s, k, i)
  }

  ghost predicate GroupsOk(s: State) {
    forall k :: 0 <= k < |s.groups| ==> GroupOk(s, k)
  }

  // What address_resource finds for a block index.
  function Lookup(s: State, index: nat): BlockPtr {
    var k, i := index / RP_GROUP_NBLOCK, index % RP_GROUP_NBLOCK;
    if k < |s.groups| && i < |s.groups[k].blocks| then s.groups[k].blocks[i] else NULL
  }

  ghost predicate LogOk(s: State) {
    && (forall j :: 0 <= j < |s.log| ==> s.log[j].b != NULL && Lookup(s, s.log[j].index) == s.log[j].b)
    && (forall i, j :: 0 <= i < j < |s.log| ==> s.log[i].index != s.log[j].index)
  }

  ghost predicate Inv(s: State) {
    MutexOk(s) && Shape(s) && ThreadsOk(s) && GroupsOk(s) && LogOk(s)
  }

  // ---------- Every step keeps it ----------

  lemma {:induction false} OversGoto(threads: map<nat, Pc>, t: nat, pc: Pc, k: nat)
    ensures Overs(threads[t := pc], k) == if pc.Over? && pc.n == k + 1 then Overs(threads, k) + {t} else Overs(threads, k) - {t}
  {
  }

  predicate Plain(pc: Pc) {
    !pc.Over? && !pc.Storing?
  }

  // A slot newly claimed is the one at the fill mark.
  lemma {:induction false} SlotsKept(s: State, t: nat, s': State, k: nat)
    requires k < |s.groups| && k < |s'.groups| && GroupOk(s, k) && s'.groups[k].blocks == s.groups[k].blocks
    requires s'.threads == s.threads[t := At(s', t)] && Filled(s, k) <= Filled(s', k)
    requires At(s', t).Storing? && At(s', t).n == k + 1 ==> At(s', t).i == Filled(s, k) < Filled(s', k)
    ensures forall i :: 0 <= i < RP_GROUP_NBLOCK ==> SlotOk(s', k, i)
  {
    hide Filled;
    forall i | 0 <= i < RP_GROUP_NBLOCK ensures SlotOk(s', k, i) {
      assert SlotOk(s, k, i);
    }
  }

  // A thread that neither holds nor overshoots a slot, before and after.
  lemma {:induction false} PlainMove(s: State, t: nat, s': State)
    requires GroupsOk(s) && s'.groups == s.groups && s'.ngroup == s.ngroup
    requires Plain(At(s, t)) && Plain(At(s', t)) && s'.threads == s.threads[t := At(s', t)]
    ensures GroupsOk(s') && forall k :: 0 <= k < |s.groups| ==> Filled(s', k) == Filled(s, k)
  {
    forall k | 0 <= k < |s.groups| ensures GroupOk(s', k) && Filled(s', k) == Filled(s, k) {
      OversGoto(s.threads, t, At(s', t), k);
      assert Overs(s'.threads, k) == Overs(s.threads, k);
      assert GroupOk(s, k);
      SlotsKept(s, t, s', k);
    }
  }

  // The log is about slots that do not change.
  lemma {:induction false} SameLookups(s: State, s': State)
    requires LogOk(s) && s'.log == s.log
    requires forall k :: 0 <= k < |s.groups| ==> k < |s'.groups| && s'.groups[k].blocks == s.groups[k].blocks
    ensures LogOk(s')
  {
  }

  lemma {:induction false} OthersOk(s: State, t: nat, s': State)
    requires ThreadsOk(s) && s'.threads == s.threads[t := At(s', t)] && PcOk(s', At(s', t))
    requires s.ngroup <= s'.ngroup && |s.groups| <= |s'.groups|
    requires forall u :: u in s.threads && u != t && s.threads[u].Publishing? ==> s.ngroup == s'.ngroup
    requires forall k :: 0 <= k < |s.groups| && Filled(s, k) == RP_GROUP_NBLOCK ==> Filled(s', k) == RP_GROUP_NBLOCK
    ensures ThreadsOk(s')
  {
    forall u | u in s'.threads ensures PcOk(s', s'.threads[u]) {
      if u != t {
        assert PcOk(s, s.threads[u]);
      }
    }
  }

  // The number of claimed slots only grows.
  ghost predicate Grows(s: State, s': State) {
    |s.groups| <= |s'.groups| && s.log <= s'.log && forall k :: 0 <= k < |s.groups| ==> Filled(s, k) <= Filled(s', k)
  }

  // Start, Load, Lock, Raced and GiveUp.
  lemma {:induction false} PlainStep(s: State, t: nat, s': State)
    requires Inv(s) && s'.groups == s.groups && s'.ngroup == s.ngroup && s'.log == s.log
    requires Plain(At(s, t)) && Plain(At(s', t)) && s'.threads == s.threads[t := At(s', t)] && PcOk(s, At(s', t))
    requires MutexOk(s') && Shape(s')
    ensures Inv(s') && Grows(s, s')
  {
    hide GroupsOk, LogOk, PcOk, Shape, Filled;
    PlainMove(s, t, s');
    SameLookups(s, s');
    PcStays(s, s', At(s', t));
    OthersOk(s, t, s');
  }

  lemma {:induction false} PcStays(s: State, s': State, pc: Pc)
    requires PcOk(s, pc) && s'.ngroup == s.ngroup && s'.groups == s.groups
    requires forall k :: 0 <= k < |s.groups| ==> Filled(s', k) == Filled(s, k)
    ensures PcOk(s', pc)
  {
  }

  lemma {:induction false} QuietStep(s: State, t: nat, s': State)
    requires Inv(s)
    requires Start(s, t, s') || Load(s, t, s') || Lock(s, t, s') || Raced(s, t, s') || GiveUp(s, t, s')
    ensures Inv(s') && Grows(s, s')
  {
    hide GroupsOk, LogOk, Filled;
    if t in s.threads {
      assert PcOk(s, s.threads[t]);
    }
    PlainStep(s, t, s');
  }

  // fetch_add within the group: the slot is this thread's alone.
  lemma {:induction false} ClaimGroups(s: State, t: nat, s': State)
    requires Inv(s) && FetchAdd(s, t, s') && At(s', t).Storing?
    ensures GroupsOk(s')
    ensures forall k :: 0 <= k < |s.groups| ==> Filled(s', k) == Filled(s, k) + if k + 1 == At(s, t).n then 1 else 0
  {
    forall k | 0 <= k < |s.groups|
      ensures GroupOk(s', k) && Filled(s', k) == Filled(s, k) + if k + 1 == At(s, t).n then 1 else 0
    {
      ClaimGroup(s, t, s', k);
    }
  }

  lemma {:induction false} ClaimGroup(s: State, t: nat, s': State, k: nat)
    requires Inv(s) && FetchAdd(s, t, s') && At(s', t).Storing? && k < |s.groups|
    ensures GroupOk(s', k) && Filled(s', k) == Filled(s, k) + if k + 1 == At(s, t).n then 1 else 0
  {
    hide LogOk, SlotOk, MutexOk, ThreadsOk;
    assert GroupOk(s, k);
    OversGoto(s.threads, t, At(s', t), k);
    assert Overs(s'.threads, k) == Overs(s.threads, k);
    SlotsKept(s, t, s', k);
  }

  // fetch_add past the end: nothing is claimed.
  lemma {:induction false} OvershootGroups(s: State, t: nat, s': State)
    requires Inv(s) && FetchAdd(s, t, s') && At(s', t).Over?
    ensures GroupsOk(s')
    ensures forall k :: 0 <= k < |s.groups| ==> Filled(s', k) == Filled(s, k)
  {
    forall k | 0 <= k < |s.groups| ensures GroupOk(s', k) && Filled(s', k) == Filled(s, k) {
      OvershootGroup(s, t, s', k);
    }
  }

  lemma {:induction false} OvershootGroup(s: State, t: nat, s': State, k: nat)
    requires Inv(s) && FetchAdd(s, t, s') && At(s', t).Over? && k < |s.groups|
    ensures GroupOk(s', k) && Filled(s', k) == Filled(s, k)
  {
    hide LogOk, SlotOk, MutexOk, ThreadsOk;
    assert GroupOk(s, k);
    OversGoto(s.threads, t, At(s', t), k);
    assert t !in Overs(s.threads, k);
    assert Overs(s'.threads, k) == if k + 1 == At(s, t).n then Overs(s.threads, k) + {t} else Overs(s.threads, k);
    SlotsKept(s, t, s', k);
  }

  lemma {:induction false} FetchAddStep(s: State, t: nat, s': State)
    requires Inv(s) && FetchAdd(s, t, s')
    ensures Inv(s') && Grows(s, s')
  {
    hide GroupsOk, LogOk, Filled;
    assert PcOk(s, s.threads[t]);
    if At(s', t).Storing? {
      ClaimGroups(s, t, s');
      FilledAtMost(s, At(s, t).n - 1);
      FilledAtMost(s', At(s, t).n - 1);
    } else {
      OvershootGroups(s, t, s');
    }
    SameLookups(s, s');
    OthersOk(s, t, s');
  }

  lemma {:induction false} FilledAtMost(s: State, k: nat)
    requires GroupsOk(s) && k < |s.groups|
    ensures Filled(s, k) <= RP_GROUP_NBLOCK
  {
    assert GroupOk(s, k);
  }

  // fetch_sub takes back what fetch_add overshot.
  lemma {:induction false} StepBackGroups(s: State, t: nat, s': State)
    requires Inv(s) && FetchSub(s, t, s')
    ensures GroupsOk(s') && At(s, t).n <= |s.groups| && Filled(s', At(s, t).n - 1) == RP_GROUP_NBLOCK
    ensures forall k :: 0 <= k < |s.groups| ==> Filled(s', k) == Filled(s, k)
  {
    var pc := At(s, t);
    forall k | 0 <= k < |s.groups| ensures GroupOk(s', k) && Filled(s', k) == Filled(s, k) {
      StepBackGroup(s, t, s', k);
    }
    assert GroupOk(s, pc.n - 1) && t in Overs(s.threads, pc.n - 1);
  }

  lemma {:induction false} StepBackGroup(s: State, t: nat, s': State, k: nat)
    requires Inv(s) && FetchSub(s, t, s') && k < |s.groups|
    ensures GroupOk(s', k) && Filled(s', k) == Filled(s, k)
  {
    hide LogOk, SlotOk, MutexOk, ThreadsOk;
    assert GroupOk(s, k);
    OversGoto(s.threads, t, At(s', t), k);
    assert t in Overs(s.threads, k) <==> k + 1 == At(s, t).n;
    assert Overs(s'.threads, k) == Overs(s.threads, k) - {t};
    SlotsKept(s, t, s', k);
  }

  lemma {:induction false} FetchSubStep(s: State, t: nat, s': State)
    requires Inv(s) && FetchSub(s, t, s')
    ensures Inv(s') && Grows(s, s')
  {
    hide GroupsOk, LogOk, Filled;
    assert PcOk(s, s.threads[t]);
    StepBackGroups(s, t, s');
    SameLookups(s, s');
    OthersOk(s, t, s');
  }

  lemma {:induction false} SlotsStored(s: State, t: nat, s': State, k: nat)
    requires StoreBlock(s, t, s') && t in s.threads && At(s, t).b != NULL && k < |s.groups| && GroupOk(s, k)
    requires Filled(s', k) == Filled(s, k)
    ensures |s'.groups[k].blocks| == RP_GROUP_NBLOCK && forall i :: 0 <= i < RP_GROUP_NBLOCK ==> SlotOk(s', k, i)
  {
    hide Filled;
    var pc := At(s, t);
    forall i | 0 <= i < RP_GROUP_NBLOCK ensures SlotOk(s', k, i) {
      assert SlotOk(s, k, i);
      if k + 1 == pc.n && i == pc.i {
        assert Claims(s.threads[t], k, i);
      }
    }
  }

  // The block comes to the slot its thread claimed.
  lemma {:induction false} StoreGroups(s: State, t: nat, s': State)
    requires Inv(s) && StoreBlock(s, t, s')
    ensures GroupsOk(s')
    ensures forall k :: 0 <= k < |s.groups| ==> Filled(s', k) == Filled(s, k)
  {
    var pc := At(s, t);
    assert PcOk(s, pc);
    forall k | 0 <= k < |s.groups| ensures GroupOk(s', k) && Filled(s', k) == Filled(s, k) {
      OversGoto(s.threads, t, Idle, k);
      assert Overs(s'.threads, k) == Overs(s.threads, k);
      assert GroupOk(s, k);
      SlotsStored(s, t, s', k);
    }
  }

  lemma {:induction false} Split(n: nat, i: nat)
    requires n >= 1 && i < RP_GROUP_NBLOCK
    ensures IndexOf(n, i) / RP_GROUP_NBLOCK == n - 1 && IndexOf(n, i) % RP_GROUP_NBLOCK == i
  {
  }

  lemma {:induction false} StoreLog(s: State, t: nat, s': State)
    requires Inv(s) && StoreBlock(s, t, s')
    ensures LogOk(s')
  {
    hide Filled;
    var pc := At(s, t);
    var k := pc.n - 1;
    assert PcOk(s, pc) && GroupOk(s, k) && SlotOk(s, k, pc.i) && Claims(s.threads[t], k, pc.i);
    var index := IndexOf(pc.n, pc.i);
    Split(pc.n, pc.i);
    assert Lookup(s, index) == NULL;
    forall j | 0 <= j < |s'.log| ensures s'.log[j].b != NULL && Lookup(s', s'.log[j].index) == s'.log[j].b {
      if j < |s.log| {
        assert s'.log[j] == s.log[j] && s.log[j].index != index;
        OtherSlot(s.log[j].index, index);
      }
    }
  }

  lemma {:induction false} OtherSlot(x: nat, y: nat)
    requires x != y
    ensures x / RP_GROUP_NBLOCK != y / RP_GROUP_NBLOCK || x % RP_GROUP_NBLOCK != y % RP_GROUP_NBLOCK
  {
  }

  lemma {:induction false} StoreBlockStep(s: State, t: nat, s': State)
    requires Inv(s) && StoreBlock(s, t, s')
    ensures Inv(s') && Grows(s, s')
  {
    hide GroupsOk, LogOk, Filled;
    StoreGroups(s, t, s');
    StoreLog(s, t, s');
    OthersOk(s, t, s');
  }

  lemma {:induction false} StoreGroupStep(s: State, t: nat, s': State)
    requires Inv(s) && StoreGroup(s, t, s')
    ensures Inv(s') && Grows(s, s')
  {
    var pc := At(s, t);
    assert PcOk(s, s.threads[t]);
    assert s.mutex == Some(t) && s.groups[..s.ngroup] == s.groups;
    forall k | 0 <= k < |s'.groups| ensures GroupOk(s', k) && (k < |s.groups| ==> Filled(s', k) == Filled(s, k)) {
      NewGroup(s, t, s', k);
    }
    SameLookups(s, s');
    OthersOk(s, t, s');
  }

  lemma {:induction false} NewGroup(s: State, t: nat, s': State, k: nat)
    requires ThreadsOk(s) && GroupsOk(s) && |s.groups| == s.ngroup && t in s.threads && s.threads[t].Checking?
    requires s' == Goto(s.(groups := s.groups + [EmptyGroup()]), t, At(s', t)) && Plain(At(s', t)) && k <= |s.groups|
    ensures GroupOk(s', k) && (k < |s.groups| ==> Filled(s', k) == Filled(s, k))
  {
    OversGoto(s.threads, t, At(s', t), k);
    assert Overs(s'.threads, k) == Overs(s.threads, k);
    if k < |s.groups| {
      assert GroupOk(s, k);
      SlotsKept(s, t, s', k);
    } else {
      forall u | u in s.threads ensures PcOk(s, s.threads[u]) {
      }
      assert Overs(s'.threads, k) == {};
    }
  }

  lemma {:induction false} PublishStep(s: State, t: nat, s': State)
    requires Inv(s) && Publish(s, t, s')
    ensures Inv(s') && Grows(s, s')
  {
    assert PcOk(s, s.threads[t]);
    forall k | 0 <= k < |s'.groups| ensures GroupOk(s', k) && Filled(s', k) == Filled(s, k) {
      PublishGroup(s, t, s', k);
    }
    hide GroupOk, LogOk, Filled;
    SameLookups(s, s');
    OthersOk(s, t, s');
  }

  lemma {:induction false} PublishGroup(s: State, t: nat, s': State, k: nat)
    requires Inv(s) && Publish(s, t, s') && k < |s.groups|
    ensures GroupOk(s', k) && Filled(s', k) == Filled(s, k)
  {
    hide LogOk, SlotOk, MutexOk;
    assert PcOk(s, s.threads[t]) && GroupOk(s, k);
    OversGoto(s.threads, t, At(s', t), k);
    assert Overs(s'.threads, k) == Overs(s.threads, k);
    SlotsKept(s, t, s', k);
  }

  lemma {:induction false} InvNext(s: State, s': State)
    requires Inv(s) && Next(s, s')
    ensures Inv(s') && Grows(s, s')
  {
    hide Inv, Grows;
    var t :| StepOf(s, t, s');
    if FetchAdd(s, t, s') {
      FetchAddStep(s, t, s');
    } else if StoreBlock(s, t, s') {
      StoreBlockStep(s, t, s');
    } else if FetchSub(s, t, s') {
      FetchSubStep(s, t, s');
    } else if StoreGroup(s, t, s') {
      StoreGroupStep(s, t, s');
    } else if Publish(s, t, s') {
      PublishStep(s, t, s');
    } else {
      QuietStep(s, t, s');
    }
  }

  // ---------- Whole runs ----------

  ghost predicate Run(run: seq<State>) {
    run != [] && Init(run[0]) && forall i :: 0 <= i < |run| - 1 ==> Next(run[i], run[i + 1])
  }

  lemma {:induction false} Reachable(run: seq<State>, n: nat)
    requires Run(run) && n < |run|
    ensures Inv(run[n])
  {
    hide Next, Filled;
    if n > 0 {
      Reachable(run, n - 1);
      assert Next(run[n - 1], run[n - 1 + 1]);
      InvNext(run[n - 1], run[n]);
    }
  }

  lemma {:induction false} RunGrows(run: seq<State>, m: nat, n: nat)
    requires Run(run) && m <= n < |run|
    ensures Grows(run[m], run[n])
  {
    hide Inv, Next, Filled, Grows;
    if m < n {
      RunGrows(run, m, n - 1);
      Reachable(run, n - 1);
      assert Next(run[n - 1], run[n - 1 + 1]);
      InvNext(run[n - 1], run[n]);
      GrowsTrans(run[m], run[n - 1], run[n]);
    } else {
      GrowsRefl(run[m]);
    }
  }

  lemma {:induction false} GrowsRefl(s: State)
    ensures Grows(s, s)
  {
  }

  lemma {:induction false} GrowsTrans(s: State, u: State, w: State)
    requires Grows(s, u) && Grows(u, w)
    ensures Grows(s, w)
  {
    hide Filled;
  }

  // Whatever the interleaving, no two successful calls get the same index.
  lemma {:induction false} DistinctIndices(run: seq<State>, n: nat, i: nat, j: nat)
    requires Run(run) && n < |run| && i < j < |run[n].log|
    ensures run[n].log[i].index != run[n].log[j].index
  {
    Reachable(run, n);
  }

  // A group that once counted all its slots never counts fewer, for all the stepping
  // over and back.
  lemma {:induction false} FullStaysFull(run: seq<State>, m: nat, n: nat, k: nat)
    requires Run(run) && m <= n < |run| && k < |run[m].groups| && run[m].groups[k].nblock >= RP_GROUP_NBLOCK
    ensures k < |run[n].groups| && run[n].groups[k].nblock >= RP_GROUP_NBLOCK
  {
    Reachable(run, m);
    assert GroupOk(run[m], k);
    RunGrows(run, m, n);
  }

  lemma {:induction false} AllButLastFull(run: seq<State>, n: nat, k: nat)
    requires Run(run) && n < |run| && k + 1 < run[n].ngroup
    ensures k < |run[n].groups| && run[n].groups[k].nblock >= RP_GROUP_NBLOCK
  {
    Reachable(run, n);
    assert GroupOk(run[n], k);
  }

  // The index a call returned leads to its block from then on.
  lemma {:induction false} IndexLeadsToBlock(run: seq<State>, m: nat, n: nat, j: nat)
    requires Run(run) && m <= n < |run| && j < |run[m].log|
    ensures Lookup(run[n], run[m].log[j].index) == run[m].log[j].b != NULL
  {
    RunGrows(run, m, n);
    Reachable(run, n);
    assert run[n].log[j] == run[m].log[j];
  }
}
