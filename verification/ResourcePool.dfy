/** Who owns the items of a ResourcePool: callers, the free lists of threads, or the free
    chunks they exchange. Each event is one thread's step on its own pool and at most one
    operation under the lock of the chunk list. */
module ResourcePools {
  import opened Wrappers

  // BLOCK_NITEM and free_chunk_nitem().
  datatype Config = Config(blockNitem: nat, chunkNitem: nat)

  datatype LocalPool = LocalPool(curBlock: Option<nat>, free: seq<nat>)

  // `nitem` is the number of items constructed in each block, by block index; `held` are
  // the ids in the hands of callers and `lost` those of chunks that a thread could not
  // leave behind when it ended. `broken` says that a thread has read beyond its free list;
  // what happens then is not defined.
  datatype State = State(pools: seq<LocalPool>, chunks: seq<seq<nat>>, nitem: map<nat, nat>, held: multiset<nat>, lost: multiset<nat>,
                         broken: bool)

  datatype Event =
    | Enter
    | GetFree(t: nat)
    | GetChunk(t: nat)
    | GetEmpty(t: nat)
    | GetItem(t: nat)
    | NewBlock(t: nat, b: nat)
    | BlockFailed(t: nat)
    | Return(t: nat, id: nat)
    | ReturnToChunk(t: nat, id: nat)
    | Exit(t: nat)
    | ExitFailed(t: nat)

  // The number of ids in an empty list, after one has been taken from it. The word before the
  // ids is this number, so it is also the id taken.
  const BELOW_LIST: nat := 0xFFFF_FFFF_FFFF_FFFF

  // ---------- Events ----------

  // The thread has an item left in its block.
  predicate HasRoom(c: Config, s: State, p: LocalPool) {
    p.curBlock.Some? && p.curBlock.value in s.nitem && s.nitem[p.curBlock.value] < c.blockNitem
  }

  predicate Enabled(c: Config, s: State, e: Event) {
    !s.broken && (e.Enter? || (e.t < |s.pools| && MayTake(c, s, e, s.pools[e.t])))
  }

  predicate MayTake(c: Config, s: State, e: Event, p: LocalPool) {
    match e
    case Enter => true
    case GetFree(_) => p.free != []
    case GetChunk(_) => p.free == [] && s.chunks != [] && s.chunks[|s.chunks| - 1] != []
    case GetEmpty(_) => p.free == [] && s.chunks != [] && s.chunks[|s.chunks| - 1] == []
    case GetItem(_) => p.free == [] && HasRoom(c, s, p)
    case NewBlock(_, b) => p.free == [] && !HasRoom(c, s, p) && b !in s.nitem
    case BlockFailed(_) => p.free == [] && !HasRoom(c, s, p)
    case Return(_, id) => id in s.held && |p.free| < c.chunkNitem
    case ReturnToChunk(_, id) => id in s.held && |p.free| >= c.chunkNitem
    case Exit(_) => true
    case ExitFailed(_) => true
  }

  function Last(ids: seq<nat>): nat
    requires ids != []
  {
    ids[|ids| - 1]
  }

  function Front<T>(xs: seq<T>): seq<T>
    requires xs != []
  {
    xs[..|xs| - 1]
  }

  // The id of the next item of the thread's block.
  function NextId(c: Config, s: State, b: nat): nat
    requires b in s.nitem
  {
    b * c.blockNitem + s.nitem[b]
  }

  // The pool of the thread that takes the step.
  function PoolAfter(c: Config, s: State, e: Event): LocalPool
    requires Enabled(c, s, e) && !e.Enter?
  {
    var p := s.pools[e.t];
    match e
    case GetFree(_) => LocalPool(p.curBlock, Front(p.free))
    case GetChunk(_) => LocalPool(p.curBlock, Front(s.chunks[|s.chunks| - 1]))
    case GetEmpty(_) => p
    case GetItem(_) => p
    case NewBlock(_, b) => LocalPool(Some(b), [])
    case BlockFailed(_) => LocalPool(None, [])
    case Return(_, id) => LocalPool(p.curBlock, p.free + [id])
    case ReturnToChunk(_, id) => LocalPool(p.curBlock, [id])
    case Exit(_) => LocalPool(None, [])
    case ExitFailed(_) => LocalPool(None, [])
  }

  function PoolsAfter(c: Config, s: State, e: Event): seq<LocalPool>
    requires Enabled(c, s, e)
  {
    if e.Enter? then s.pools + [LocalPool(None, [])] else s.pools[e.t := PoolAfter(c, s, e)]
  }

  // An empty free list is not left behind.
  function ChunksAfter(c: Config, s: State, e: Event): seq<seq<nat>>
    requires Enabled(c, s, e)
  {
    if e.GetChunk? || e.GetEmpty? then Front(s.chunks)
    else if e.ReturnToChunk? || (e.Exit? && s.pools[e.t].free != []) then s.chunks + [s.pools[e.t].free]
    else s.chunks
  }

  function NitemAfter(c: Config, s: State, e: Event): map<nat, nat>
    requires Enabled(c, s, e)
  {
    if e.NewBlock? then s.nitem[e.b := 0]
    else if e.GetItem? then
      var b := s.pools[e.t].curBlock.value;
      s.nitem[b := s.nitem[b] + 1]
    else s.nitem
  }

  function HeldAfter(c: Config, s: State, e: Event): multiset<nat>
    requires Enabled(c, s, e)
  {
    if e.GetFree? then s.held + multiset{Last(s.pools[e.t].free)}
    else if e.GetChunk? then s.held + multiset{Last(s.chunks[|s.chunks| - 1])}
    else if e.GetEmpty? then s.held + multiset{BELOW_LIST}
    else if e.GetItem? then s.held + multiset{NextId(c, s, s.pools[e.t].curBlock.value)}
    else if e.Return? || e.ReturnToChunk? then s.held - multiset{e.id}
    else s.held
  }

  function LostAfter(c: Config, s: State, e: Event): multiset<nat>
    requires Enabled(c, s, e)
  {
    if e.ExitFailed? then s.lost + multiset(s.pools[e.t].free) else s.lost
  }

  function After(c: Config, s: State, e: Event): State
    requires Enabled(c, s, e)
  {
    State(PoolsAfter(c, s, e), ChunksAfter(c, s, e), NitemAfter(c, s, e), HeldAfter(c, s, e), LostAfter(c, s, e),
          e.GetEmpty?)
  }

  // ---------- What a thread can always do ----------

  predicate IsGet(e: Event) {
    e.GetFree? || e.GetChunk? || e.GetEmpty? || e.GetItem? || e.NewBlock? || e.BlockFailed?
  }

  // A get goes on in every state: from the thread's own list as long as there is something
  // in it, and only then from a chunk, if there is one, or from a block. (A chunk may come
  // between the look at the chunks and the construction of an item.)
  lemma {:induction false} GetChoice(c: Config, s: State, t: nat)
    requires !s.broken && t < |s.pools|
    ensures var p := s.pools[t];
      && (p.free != [] ==>
           Enabled(c, s, GetFree(t)) && forall e :: IsGet(e) && e.t == t && Enabled(c, s, e) ==> e == GetFree(t))
      && (p.free == [] ==>
           && !Enabled(c, s, GetFree(t))
           && (Enabled(c, s, GetChunk(t)) || Enabled(c, s, GetEmpty(t)) <==> |s.chunks| > 0)
           && (Enabled(c, s, GetItem(t)) <==> !Enabled(c, s, BlockFailed(t)))
           && (Enabled(c, s, GetItem(t)) <==>
                exists b :: p.curBlock == Some(b) && b in s.nitem && s.nitem[b] < c.blockNitem))
  {
    var p := s.pools[t];
    if p.curBlock.Some? {
      var b := p.curBlock.value;
      assert p.curBlock == Some(b);
    }
  }

  // An id is returned to the thread's own list, or to the chunks when that is full.
  lemma {:induction false} ReturnChoice(c: Config, s: State, t: nat, id: nat)
    requires !s.broken && t < |s.pools|
    ensures id in s.held <==> Enabled(c, s, Return(t, id)) || Enabled(c, s, ReturnToChunk(t, id))
    ensures !(Enabled(c, s, Return(t, id)) && Enabled(c, s, ReturnToChunk(t, id)))
  {
  }

  // The id last returned is the next one got, and everything is as before.
  lemma {:induction false} ReturnThenGet(c: Config, s: State, t: nat, id: nat)
    requires Enabled(c, s, Return(t, id))
    ensures var s' := After(c, s, Return(t, id)); Enabled(c, s', GetFree(t)) && After(c, s', GetFree(t)) == s
  {
    hide HasRoom, NextId;
    var s' := After(c, s, Return(t, id));
    var s'' := After(c, s', GetFree(t));
    var p := s.pools[t];
    assert s'.pools[t].free == p.free + [id] && Front(p.free + [id]) == p.free;
    assert s''.pools == s.pools;
    assert s''.held == s.held;
  }

  // A full list that one thread gives up is taken over whole by the next that looks.
  lemma {:induction false} ChunkTaken(c: Config, s: State, t: nat, id: nat, u: nat)
    requires Enabled(c, s, ReturnToChunk(t, id)) && u < |s.pools| && u != t && s.pools[u].free == [] && s.pools[t].free != []
    ensures var s' := After(c, s, ReturnToChunk(t, id)); Enabled(c, s', GetChunk(u))
    ensures var s' := After(c, s, ReturnToChunk(t, id)); var s'' := After(c, s', GetChunk(u)); var x := Last(s.pools[t].free);
      && s''.pools[u].free + [x] == s.pools[t].free && s''.chunks == s.chunks && s''.nitem == s.nitem
      && s''.held == s.held - multiset{id} + multiset{x} && s''.pools[t].free == [id]
  {
    GivenBack(c, s, ReturnToChunk(t, id));
    hide After, HasRoom, NextId, PoolsAfter, ChunksAfter, NitemAfter, HeldAfter, LostAfter;
    var s' := After(c, s, ReturnToChunk(t, id));
    assert s'.chunks[|s.chunks|] == s.pools[t].free;
    ChunkFetched(c, s', u);
    assert Front(s'.chunks) == s.chunks;
  }

  lemma {:induction false} ChunkFetched(c: Config, s: State, u: nat)
    requires !s.broken && u < |s.pools| && s.pools[u].free == [] && s.chunks != [] && s.chunks[|s.chunks| - 1] != []
    ensures Enabled(c, s, GetChunk(u))
    ensures var s', k := After(c, s, GetChunk(u)), s.chunks[|s.chunks| - 1];
      && |s'.pools| == |s.pools| && s'.pools[u].free + [Last(k)] == k && s'.chunks == Front(s.chunks) && s'.nitem == s.nitem
      && s'.held == s.held + multiset{Last(k)} && forall t :: 0 <= t < |s.pools| && t != u ==> s'.pools[t] == s.pools[t]
  {
    hide HasRoom, NextId;
  }

  // ---------- Every item in one place ----------

  function InPools(pools: seq<LocalPool>): multiset<nat> {
    if pools == [] then multiset{} else multiset(pools[0].free) + InPools(pools[1..])
  }

  function InChunks(chunks: seq<seq<nat>>): multiset<nat> {
    if chunks == [] then multiset{} else multiset(chunks[0]) + InChunks(chunks[1..])
  }

  function Everywhere(s: State): multiset<nat> {
    s.held + InPools(s.pools) + InChunks(s.chunks) + s.lost
  }

  predicate Constructed(c: Config, s: State, id: nat)
    requires c.blockNitem > 0
  {
    id / c.blockNitem in s.nitem && id % c.blockNitem < s.nitem[id / c.blockNitem]
  }

  // Each item constructed is in one place, once; nothing else is anywhere.
  ghost predicate OnePlace(c: Config, s: State)
    requires c.blockNitem > 0
  {
    forall id: nat :: Everywhere(s)[id] == if Constructed(c, s, id) then 1 else 0
  }

  // No two threads use the same block.
  ghost predicate PrivateBlocks(s: State) {
    && (forall t :: 0 <= t < |s.pools| && s.pools[t].curBlock.Some? ==> s.pools[t].curBlock.value in s.nitem)
    && (forall t, u :: 0 <= t < u < |s.pools| && s.pools[t].curBlock.Some? ==> s.pools[t].curBlock != s.pools[u].curBlock)
  }

  ghost predicate NitemOk(c: Config, nitem: map<nat, nat>) {
    forall b :: b in nitem ==> nitem[b] <= c.blockNitem
  }

  ghost predicate ListsOk(c: Config, pools: seq<LocalPool>, chunks: seq<seq<nat>>) {
    && (forall t :: 0 <= t < |pools| ==> |pools[t].free| <= c.chunkNitem)
    && (forall k :: 0 <= k < |chunks| ==> 1 <= |chunks[k]| <= c.chunkNitem)
  }

  ghost predicate Sizes(c: Config, s: State) {
    NitemOk(c, s.nitem) && ListsOk(c, s.pools, s.chunks)
  }

  ghost predicate Inv(c: Config, s: State) {
    c.blockNitem > 0 && OnePlace(c, s) && PrivateBlocks(s) && Sizes(c, s)
  }

  const INITIAL: State := State([], [], map[], multiset{}, multiset{}, false)

  // ---------- Every event keeps it ----------

  lemma {:induction false} InPoolsConcat(a: seq<LocalPool>, b: seq<LocalPool>)
    ensures InPools(a + b) == InPools(a) + InPools(b)
  {
    if a == [] {
      assert a + b == b;
    } else {
      assert (a + b)[1..] == a[1..] + b;
      InPoolsConcat(a[1..], b);
    }
  }

  lemma {:induction false} InChunksSnoc(a: seq<seq<nat>>, k: seq<nat>)
    ensures InChunks(a + [k]) == InChunks(a) + multiset(k)
  {
    if a == [] {
      assert a + [k] == [k] && [k][1..] == [];
    } else {
      assert (a + [k])[1..] == a[1..] + [k];
      InChunksSnoc(a[1..], k);
    }
  }

  lemma {:induction false} InPoolsOne(p: LocalPool)
    ensures InPools([p]) == multiset(p.free)
  {
    assert [p][1..] == [];
  }

  // The other pools, whatever the pool of thread `t` is.
  lemma {:induction false} InPoolsSplit(pools: seq<LocalPool>, t: nat, p: LocalPool)
    requires t < |pools|
    ensures var others := InPools(pools[..t]) + InPools(pools[t + 1..]);
      InPools(pools) == others + multiset(pools[t].free) && InPools(pools[t := p]) == others + multiset(p.free)
  {
    hide InPools;
    var a, b := pools[..t], pools[t + 1..];
    assert pools == a + ([pools[t]] + b);
    assert pools[t := p] == a + ([p] + b);
    InPoolsConcat(a, [pools[t]] + b);
    InPoolsConcat([pools[t]], b);
    InPoolsConcat(a, [p] + b);
    InPoolsConcat([p], b);
    InPoolsOne(pools[t]);
    InPoolsOne(p);
  }

  lemma SnocBag(ids: seq<nat>)
    requires ids != []
    ensures multiset(ids) == multiset(Front(ids)) + multiset{Last(ids)}
  {
    assert ids == Front(ids) + [Last(ids)];
  }

  lemma {:induction false} LastChunk(chunks: seq<seq<nat>>)
    requires chunks != []
    ensures InChunks(chunks) == InChunks(Front(chunks)) + multiset(chunks[|chunks| - 1])
  {
    assert chunks == Front(chunks) + [chunks[|chunks| - 1]];
    InChunksSnoc(Front(chunks), chunks[|chunks| - 1]);
  }

  lemma Rebalance(o: multiset<nat>, h: multiset<nat>, f: multiset<nat>, k: multiset<nat>, l: multiset<nat>,
                  h': multiset<nat>, f': multiset<nat>, k': multiset<nat>, l': multiset<nat>)
    requires forall x :: h[x] + f[x] + k[x] + l[x] == h'[x] + f'[x] + k'[x] + l'[x]
    ensures h + (o + f) + k + l == h' + (o + f') + k' + l'
  {
  }

  // Events other than GetItem only move ids about.
  lemma {:induction false} Moves(c: Config, s: State, e: Event)
    requires Enabled(c, s, e) && !e.GetItem? && !e.GetEmpty?
    ensures Everywhere(After(c, s, e)) == Everywhere(s)
  {
    hide InPools, InChunks, PoolAfter, ChunksAfter, HeldAfter, LostAfter, NitemAfter, SameCounts;
    var s' := After(c, s, e);
    if e.Enter? {
      StillThere(c, s);
      InPoolsConcat(s.pools, [LocalPool(None, [])]);
      InPoolsOne(LocalPool(None, []));
    } else {
      var t, p := e.t, s.pools[e.t];
      InPoolsSplit(s.pools, t, s'.pools[t]);
      MovesOne(c, s, e);
      Counted(s, t, s');
      Rebalance(InPools(s.pools[..t]) + InPools(s.pools[t + 1..]),
                s.held, multiset(p.free), InChunks(s.chunks), s.lost,
                s'.held, multiset(s'.pools[t].free), InChunks(s'.chunks), s'.lost);
    }
  }

  lemma {:induction false} StillThere(c: Config, s: State)
    requires !s.broken
    ensures ChunksAfter(c, s, Enter) == s.chunks && HeldAfter(c, s, Enter) == s.held && LostAfter(c, s, Enter) == s.lost
  {
  }

  lemma {:induction false} Counted(s: State, t: nat, s': State)
    requires t < |s.pools| && t < |s'.pools| && SameCounts(s, t, s')
    ensures forall x ::
      s.held[x] + multiset(s.pools[t].free)[x] + InChunks(s.chunks)[x] + s.lost[x]
      == s'.held[x] + multiset(s'.pools[t].free)[x] + InChunks(s'.chunks)[x] + s'.lost[x]
  {
  }

  ghost predicate SameCounts(s: State, t: nat, s': State)
    requires t < |s.pools| && t < |s'.pools|
  {
    forall x ::
      s.held[x] + multiset(s.pools[t].free)[x] + InChunks(s.chunks)[x] + s.lost[x]
      == s'.held[x] + multiset(s'.pools[t].free)[x] + InChunks(s'.chunks)[x] + s'.lost[x]
  }

  // `x` came from the caller to the thread's list; the list may have gone to the chunks.
  lemma {:induction false} CountsSame(s: State, t: nat, s': State, x: multiset<nat>)
    requires t < |s.pools| && t < |s'.pools| && s.lost == s'.lost && s.held == s'.held + x
    requires multiset(s'.pools[t].free) + InChunks(s'.chunks) == multiset(s.pools[t].free) + InChunks(s.chunks) + x
    ensures SameCounts(s, t, s')
  {
    hide InChunks;
    var f, k, f', k' := multiset(s.pools[t].free), InChunks(s.chunks), multiset(s'.pools[t].free), InChunks(s'.chunks);
    forall y ensures f'[y] + k'[y] == f[y] + k[y] + x[y] {
      assert (f' + k')[y] == (f + k + x)[y];
    }
  }

  lemma {:induction false} CountsTaken(s: State, t: nat, s': State, x: multiset<nat>)
    requires t < |s.pools| && t < |s'.pools| && s.lost == s'.lost && s'.held == s.held + x
    requires multiset(s.pools[t].free) + InChunks(s.chunks) == multiset(s'.pools[t].free) + InChunks(s'.chunks) + x
    ensures SameCounts(s, t, s')
  {
    hide InChunks;
    var f, k, f', k' := multiset(s.pools[t].free), InChunks(s.chunks), multiset(s'.pools[t].free), InChunks(s'.chunks);
    forall y ensures f[y] + k[y] == f'[y] + k'[y] + x[y] {
      assert (f + k)[y] == (f' + k' + x)[y];
    }
  }

  lemma {:induction false} TakenOne(c: Config, s: State, e: Event)
    requires Enabled(c, s, e) && (e.GetFree? || e.GetChunk?)
    ensures SameCounts(s, e.t, After(c, s, e))
  {
    hide InPools, InChunks, NitemAfter, NextId, HasRoom, SameCounts, Last, Front;
    var s' := After(c, s, e);
    if e.GetFree? {
      SnocBag(s.pools[e.t].free);
      CountsTaken(s, e.t, s', multiset{Last(s.pools[e.t].free)});
    } else {
      SnocBag(s.chunks[|s.chunks| - 1]);
      LastChunk(s.chunks);
      CountsTaken(s, e.t, s', multiset{Last(s.chunks[|s.chunks| - 1])});
    }
  }

  // What a return changes.
  lemma {:induction false} GivenBack(c: Config, s: State, e: Event)
    requires Enabled(c, s, e) && (e.Return? || e.ReturnToChunk?)
    ensures e.t < |s.pools| == |After(c, s, e).pools|
    ensures var s' := After(c, s, e);
      && s'.lost == s.lost && s.held == s'.held + multiset{e.id}
      && s'.pools[e.t].free == (if e.Return? then s.pools[e.t].free else []) + [e.id]
      && s'.chunks == (if e.Return? then s.chunks else s.chunks + [s.pools[e.t].free])
      && !s'.broken && s'.nitem == s.nitem && forall u :: 0 <= u < |s.pools| && u != e.t ==> s'.pools[u] == s.pools[u]
  {
    hide NextId, HasRoom;
    assert e.id in s.held;
  }

  lemma {:induction false} GivenOne(c: Config, s: State, e: Event)
    requires Enabled(c, s, e) && (e.Return? || e.ReturnToChunk?)
    ensures SameCounts(s, e.t, After(c, s, e))
  {
    GivenBack(c, s, e);
    hide *;
    var s', p := After(c, s, e), s.pools[e.t];
    if e.ReturnToChunk? {
      InChunksSnoc(s.chunks, p.free);
      assert multiset(s'.pools[e.t].free) == multiset{e.id};
    } else {
      assert multiset(s'.pools[e.t].free) == multiset(p.free) + multiset{e.id};
    }
    CountsSame(s, e.t, s', multiset{e.id});
  }

  // Seen from the pool of the thread that takes the step.
  lemma {:induction false} MovesOne(c: Config, s: State, e: Event)
    requires Enabled(c, s, e) && !e.GetItem? && !e.GetEmpty? && !e.Enter?
    ensures SameCounts(s, e.t, After(c, s, e))
  {
    hide InPools, InChunks;
    if e.GetFree? || e.GetChunk? {
      TakenOne(c, s, e);
    } else if e.Return? || e.ReturnToChunk? {
      GivenOne(c, s, e);
    } else if e.Exit? {
      InChunksSnoc(s.chunks, s.pools[e.t].free);
    }
  }

  lemma {:induction false} DivMod(b: nat, n: nat, o: nat)
    requires o < n
    ensures (b * n + o) / n == b && (b * n + o) % n == o
  {
    var x := b * n + o;
    var q := x / n;
    assert x == q * n + x % n;
    if q < b {
      Multiples(q + 1, b, n);
    } else if q > b {
      Multiples(b + 1, q, n);
    }
  }

  lemma Multiples(a: int, b: int, n: nat)
    requires a <= b
    ensures a * n <= b * n
  {
  }

  // The item made is new and the only new one.
  lemma {:induction false} ItemMade(c: Config, s: State, e: Event, x: nat)
    requires c.blockNitem > 0 && Enabled(c, s, e) && e.GetItem?
    ensures var id := NextId(c, s, s.pools[e.t].curBlock.value);
      Constructed(c, After(c, s, e), x) <==> Constructed(c, s, x) || x == id
    ensures !Constructed(c, s, NextId(c, s, s.pools[e.t].curBlock.value))
  {
    var b := s.pools[e.t].curBlock.value;
    DivMod(b, c.blockNitem, s.nitem[b]);
    var q, r := x / c.blockNitem, x % c.blockNitem;
    assert x == q * c.blockNitem + r;
  }

  lemma {:induction false} OnePlaceAfter(c: Config, s: State, e: Event)
    requires c.blockNitem > 0 && OnePlace(c, s) && Enabled(c, s, e) && !e.GetEmpty?
    ensures OnePlace(c, After(c, s, e))
  {
    hide InPools, InChunks;
    var s' := After(c, s, e);
    if e.GetItem? {
      var id := NextId(c, s, s.pools[e.t].curBlock.value);
      forall x: nat ensures Everywhere(s')[x] == if Constructed(c, s', x) then 1 else 0 {
        hide Everywhere, NextId;
        assert Everywhere(s')[x] == Everywhere(s)[x] + if x == id then 1 else 0 by { OneMore(c, s, e, x); }
        ItemMade(c, s, e, x);
      }
    } else {
      hide Everywhere;
      Moves(c, s, e);
      forall x: nat ensures Constructed(c, s', x) == Constructed(c, s, x) {
      }
    }
  }

  lemma {:induction false} OneMore(c: Config, s: State, e: Event, x: nat)
    requires c.blockNitem > 0 && Enabled(c, s, e) && e.GetItem?
    ensures Everywhere(After(c, s, e))[x] == Everywhere(s)[x] + if x == NextId(c, s, s.pools[e.t].curBlock.value) then 1 else 0
  {
    hide InPools, InChunks, NextId;
    assert After(c, s, e).pools == s.pools;
  }

  lemma {:induction false} NitemGrows(c: Config, s: State, e: Event, b: nat)
    requires Enabled(c, s, e) && b in s.nitem
    ensures b in After(c, s, e).nitem && s.nitem[b] <= After(c, s, e).nitem[b]
    ensures s.nitem[b] <= c.blockNitem ==> After(c, s, e).nitem[b] <= c.blockNitem
  {
  }

  // One pool is replaced; its block is the one before, none, or a new one.
  lemma {:induction false} PrivateReplaced(s: State, t: nat, p: LocalPool, s': State)
    requires PrivateBlocks(s) && t < |s.pools| && s'.pools == s.pools[t := p] && s.nitem.Keys <= s'.nitem.Keys
    requires p.curBlock.Some? ==>
      p.curBlock == s.pools[t].curBlock || (p.curBlock.value !in s.nitem && p.curBlock.value in s'.nitem)
    ensures PrivateBlocks(s')
  {
  }

  lemma {:induction false} BlockAfter(c: Config, s: State, e: Event)
    requires Enabled(c, s, e) && !e.Enter?
    ensures var b := PoolAfter(c, s, e).curBlock;
      b.Some? ==> b == s.pools[e.t].curBlock || (b.value !in s.nitem && b.value in NitemAfter(c, s, e))
  {
  }

  lemma {:induction false} PrivateAfter(c: Config, s: State, e: Event)
    requires PrivateBlocks(s) && Enabled(c, s, e)
    ensures PrivateBlocks(After(c, s, e))
  {
    if e.Enter? {
      return;
    }
    hide PrivateBlocks, Enabled, PoolAfter, NitemAfter, ChunksAfter, HeldAfter, LostAfter;
    var s' := After(c, s, e);
    Acts(c, s, e);
    forall b | b in s.nitem ensures b in s'.nitem {
      NitemGrows(c, s, e, b);
    }
    BlockAfter(c, s, e);
    PrivateReplaced(s, e.t, PoolAfter(c, s, e), s');
  }

  lemma {:induction false} Acts(c: Config, s: State, e: Event)
    requires Enabled(c, s, e) && !e.Enter?
    ensures e.t < |s.pools|
  {
  }

  lemma {:induction false} ListsReplaced(c: Config, s: State, t: nat, p: LocalPool, chunks: seq<seq<nat>>)
    requires ListsOk(c, s.pools, s.chunks) && t < |s.pools| && |p.free| <= c.chunkNitem
    requires chunks == s.chunks || (s.chunks != [] && chunks == Front(s.chunks))
      || (s.pools[t].free != [] && chunks == s.chunks + [s.pools[t].free])
    ensures ListsOk(c, s.pools[t := p], chunks)
  {
  }

  lemma {:induction false} ListsAfter(c: Config, s: State, e: Event)
    requires c.chunkNitem >= 1 && ListsOk(c, s.pools, s.chunks) && Enabled(c, s, e)
    ensures ListsOk(c, After(c, s, e).pools, After(c, s, e).chunks)
  {
    var s' := After(c, s, e);
    if !e.Enter? {
      assert |s.pools[e.t].free| <= c.chunkNitem && (s.chunks != [] ==> |s.chunks[|s.chunks| - 1]| <= c.chunkNitem);
      hide ListsOk, NitemAfter, HeldAfter, LostAfter;
      ListsReplaced(c, s, e.t, PoolAfter(c, s, e), s'.chunks);
    }
  }

  lemma {:induction false} SizesAfter(c: Config, s: State, e: Event)
    requires c.chunkNitem >= 1 && Sizes(c, s) && Enabled(c, s, e)
    ensures Sizes(c, After(c, s, e))
  {
    hide ListsOk;
    var s' := After(c, s, e);
    ListsAfter(c, s, e);
    forall b | b in s'.nitem ensures s'.nitem[b] <= c.blockNitem {
      if b in s.nitem {
        NitemGrows(c, s, e, b);
      }
    }
  }

  lemma {:induction false} InvAfter(c: Config, s: State, e: Event)
    requires c.chunkNitem >= 1 && Inv(c, s) && Enabled(c, s, e)
    ensures Inv(c, After(c, s, e))
  {
    assert !e.GetEmpty? by { ChunksFilled(c, s); }
    hide OnePlace, PrivateBlocks, Sizes, After;
    OnePlaceAfter(c, s, e);
    PrivateAfter(c, s, e);
    SizesAfter(c, s, e);
  }

  lemma {:induction false} ChunksFilled(c: Config, s: State)
    requires Sizes(c, s)
    ensures s.chunks != [] ==> s.chunks[|s.chunks| - 1] != []
  {
  }

  // ---------- Whole runs ----------

  ghost predicate Run(c: Config, states: seq<State>, events: seq<Event>) {
    && |states| == |events| + 1 && states[0] == INITIAL
    && forall i :: 0 <= i < |events| ==> StepOk(c, states, events, i)
  }

  ghost predicate StepOk(c: Config, states: seq<State>, events: seq<Event>, i: nat)
    requires i < |events| && |states| == |events| + 1
  {
    Enabled(c, states[i], events[i]) && states[i + 1] == After(c, states[i], events[i])
  }

  // In every state of every run, with any number of threads, each item is with one
  // caller, in one free list, in one chunk, or lost; blocks are private to threads.
  lemma {:induction false} Ownership(c: Config, states: seq<State>, events: seq<Event>, n: nat)
    requires c.blockNitem >= 1 && c.chunkNitem >= 1 && Run(c, states, events) && n < |states|
    ensures Inv(c, states[n])
  {
    if n == 0 {
      assert InPools([]) == multiset{} && InChunks([]) == multiset{};
    } else {
      hide Inv, After, Enabled;
      Ownership(c, states, events, n - 1);
      assert StepOk(c, states, events, n - 1);
      InvAfter(c, states[n - 1], events[n - 1]);
    }
  }

  // Only a thread that ends without memory for a chunk loses items.
  lemma {:induction false} NothingLost(c: Config, states: seq<State>, events: seq<Event>, n: nat)
    requires Run(c, states, events) && n < |states|
    requires forall i :: 0 <= i < n ==> !events[i].ExitFailed?
    ensures states[n].lost == multiset{}
  {
    if n > 0 {
      NothingLost(c, states, events, n - 1);
      assert StepOk(c, states, events, n - 1);
    }
  }

  // ---------- From id to item ----------

  datatype Item = Item(block: nat, offset: nat)

  predicate Gets(e: Event) {
    e.GetFree? || e.GetChunk? || e.GetItem?
  }

  // The id that a call of get delivers, and the item: for a new item the place it was
  // constructed in, otherwise what unsafe_address_resource computes.
  function Got(c: Config, s: State, e: Event): (nat, Item)
    requires c.blockNitem > 0 && Enabled(c, s, e) && Gets(e)
  {
    match e
    case GetFree(t) => var id := Last(s.pools[t].free); (id, Unsafe(c, id))
    case GetChunk(t) => var id := Last(s.chunks[|s.chunks| - 1]); (id, Unsafe(c, id))
    case GetItem(t) => var b := s.pools[t].curBlock.value; (NextId(c, s, b), Item(b, s.nitem[b]))
  }

  function Unsafe(c: Config, id: nat): Item
    requires c.blockNitem > 0
  {
    Item(id / c.blockNitem, id % c.blockNitem)
  }

  lemma {:induction false} GotHeld(c: Config, s: State, e: Event)
    requires c.chunkNitem >= 1 && Inv(c, s) && Enabled(c, s, e) && Gets(e)
    ensures var (id, item) := Got(c, s, e);
      s.held[id] == 0 && After(c, s, e).held[id] == 1 && Constructed(c, After(c, s, e), id) && item == Unsafe(c, id)
  {
    hide InPools, InChunks;
    var (id, item) := Got(c, s, e);
    var s' := After(c, s, e);
    OnePlaceAfter(c, s, e);
    assert Everywhere(s')[id] == if Constructed(c, s', id) then 1 else 0;
    assert s'.held[id] == s.held[id] + 1;
    if e.GetItem? {
      DivMod(item.block, c.blockNitem, item.offset);
    }
  }

  // With a chunk size of zero, an id returned leaves an empty chunk behind, from which the
  // next thread takes an id that no item has.
  const EMPTY_EVENTS: seq<Event> := [Enter, NewBlock(0, 0), GetItem(0), ReturnToChunk(0, 0), Enter, GetEmpty(1)]

  const EMPTY_STATES: seq<State> := [
    INITIAL,
    State([LocalPool(None, [])], [], map[], multiset{}, multiset{}, false),
    State([LocalPool(Some(0), [])], [], map[0 := 0], multiset{}, multiset{}, false),
    State([LocalPool(Some(0), [])], [], map[0 := 1], multiset{0}, multiset{}, false),
    State([LocalPool(Some(0), [0])], [[]], map[0 := 1], multiset{}, multiset{}, false),
    State([LocalPool(Some(0), [0]), LocalPool(None, [])], [[]], map[0 := 1], multiset{}, multiset{}, false),
    State([LocalPool(Some(0), [0]), LocalPool(None, [])], [], map[0 := 1], multiset{BELOW_LIST}, multiset{}, true)]

  lemma {:induction false} EmptyEntered(n: nat)
    requires n >= 1
    ensures StepOk(Config(n, 0), EMPTY_STATES, EMPTY_EVENTS, 0)
  {
  }

  lemma {:induction false} EmptyMade(n: nat)
    requires n >= 1
    ensures StepOk(Config(n, 0), EMPTY_STATES, EMPTY_EVENTS, 1)
  {
  }

  lemma {:induction false} EmptyUsed(n: nat)
    requires n >= 1
    ensures StepOk(Config(n, 0), EMPTY_STATES, EMPTY_EVENTS, 2)
  {
    var c, s := Config(n, 0), EMPTY_STATES[2];
    assert s.nitem[0] == 0 && NextId(c, s, 0) == 0;
    assert s.nitem[0 := 1] == map[0 := 1];
    assert After(c, s, GetItem(0)).pools == s.pools[0 := s.pools[0]];
  }

  lemma {:induction false} EmptyGiven(n: nat)
    requires n >= 1
    ensures StepOk(Config(n, 0), EMPTY_STATES, EMPTY_EVENTS, 3)
  {
    hide NextId, HasRoom;
    assert EMPTY_STATES[3].pools[0].free == [];
  }

  lemma {:induction false} EmptyJoined(n: nat)
    requires n >= 1
    ensures StepOk(Config(n, 0), EMPTY_STATES, EMPTY_EVENTS, 4)
  {
    hide NextId, HasRoom;
  }

  lemma {:induction false} EmptyTaken(n: nat)
    requires n >= 1
    ensures StepOk(Config(n, 0), EMPTY_STATES, EMPTY_EVENTS, 5)
  {
    hide NextId, HasRoom;
  }

  lemma {:induction false} EmptyChunk(n: nat)
    requires n >= 1
    ensures Run(Config(n, 0), EMPTY_STATES, EMPTY_EVENTS) && !OnePlace(Config(n, 0), EMPTY_STATES[6])
  {
    EmptyEntered(n);
    EmptyMade(n);
    EmptyUsed(n);
    EmptyGiven(n);
    EmptyJoined(n);
    EmptyTaken(n);
    hide StepOk;
    var c, s := Config(n, 0), EMPTY_STATES[6];
    NotMade(n);
    assert !Constructed(c, s, BELOW_LIST);
    assert s.held[BELOW_LIST] == 1;
    assert Everywhere(s)[BELOW_LIST] >= 1;
  }

  lemma {:induction false} NotMade(n: nat)
    requires n >= 1
    ensures BELOW_LIST / n != 0 || BELOW_LIST % n != 0
  {
    assert BELOW_LIST == n * (BELOW_LIST / n) + BELOW_LIST % n;
  }

  // In every run each item is in one place, exactly when chunks can hold an item.
  lemma {:induction false} OwnershipExactly(c: Config)
    requires c.blockNitem >= 1
    ensures (forall states, events, n | Run(c, states, events) && 0 <= n < |states| :: OnePlace(c, states[n])) <==> c.chunkNitem >= 1
  {
    hide Run, OnePlace;
    if c.chunkNitem >= 1 {
      forall states, events, n | Run(c, states, events) && 0 <= n < |states| ensures OnePlace(c, states[n]) {
        Ownership(c, states, events, n);
      }
    } else {
      EmptyChunk(c.blockNitem);
      assert Run(c, EMPTY_STATES, EMPTY_EVENTS) && 6 < |EMPTY_STATES|;
    }
  }
}
