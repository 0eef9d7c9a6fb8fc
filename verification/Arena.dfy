/** The arena allocator: small requests are cut off a current block, large ones get a block
    of their own, and nothing is given back before the arena is. */
module Arenas {
  type BlockId = nat
  const NULL: BlockId := 0

  // Sizes in blocks are 32-bit fields.
  const WORD: nat := 0x1_0000_0000

  // `room` is what malloc gave and `used` how many bytes have been handed out; `size` and
  // `allocSize` are the fields.
  datatype Block = Block(room: nat, used: nat, size: nat, allocSize: nat)

  datatype Region = Region(block: BlockId, offset: nat, length: nat)

  const NOWHERE: Region := Region(NULL, 0, 0)

  datatype State = State(blocks: map<BlockId, Block>, cur: BlockId, isolated: seq<BlockId>, blockSize: nat, maxBlockSize: nat,
                         crashed: bool)

  // A request: the length wanted, and where malloc puts a block should one be needed,
  // NULL when it cannot.
  datatype Request = Request(n: nat, p: BlockId)

  function LeftSpace(b: Block): nat {
    (b.size - b.allocSize) % WORD
  }

  predicate Fits(s: State, n: nat) {
    s.cur != NULL && s.cur in s.blocks && LeftSpace(s.blocks[s.cur]) >= n
  }

  // malloc never returns a block in use, and a crashed process asks for nothing.
  predicate Allowed(s: State, q: Request) {
    !s.crashed && q.p !in s.blocks
  }

  // The code does not check malloc for a block of its own.
  predicate Crashes(s: State, q: Request) {
    !Fits(s, q.n) && q.n > s.blockSize / 4 && q.p == NULL
  }

  function NextSize(s: State): nat {
    if s.cur == NULL then s.blockSize else if 2 * s.blockSize < s.maxBlockSize then 2 * s.blockSize else s.maxBlockSize
  }

  function Max(a: nat, b: nat): nat {
    if a < b then b else a
  }

  function Fresh(room: nat, n: nat): Block {
    Block(room, n, room % WORD, n % WORD)
  }

  function Used(b: Block, n: nat): Block {
    Block(b.room, b.used + n, b.size, (b.allocSize + n) % WORD)
  }

  // What allocate does.
  function After(s: State, q: Request): State {
    if Fits(s, q.n) then
      s.(blocks := s.blocks[s.cur := Used(s.blocks[s.cur], q.n)])
    else if Crashes(s, q) then
      s.(crashed := true)
    else if q.n > s.blockSize / 4 then
      s.(blocks := s.blocks[q.p := Fresh(q.n, q.n)], isolated := [q.p] + s.isolated)
    else if q.p == NULL then
      s.(blockSize := NextSize(s))
    else
      s.(blocks := s.blocks[q.p := Fresh(Max(NextSize(s), q.n), q.n)], cur := q.p,
         isolated := if s.cur == NULL then s.isolated else [s.cur] + s.isolated, blockSize := NextSize(s))
  }

  // What it returns.
  function Given(s: State, q: Request): Region {
    if Fits(s, q.n) then Region(s.cur, s.blocks[s.cur].allocSize, q.n)
    else if q.p == NULL then NOWHERE
    else Region(q.p, 0, q.n)
  }

  class Arena {
    var blocks: map<BlockId, Block>
    var curBlock: BlockId
    var isolated: seq<BlockId>
    var blockSize: nat
    const maxBlockSize: nat
    var crashed: bool

    function Now(): State
      reads this
    {
      State(blocks, curBlock, isolated, blockSize, maxBlockSize, crashed)
    }

    constructor (initialBlockSize: nat, maxBlockSize: nat)
      ensures Now() == Initial(initialBlockSize, maxBlockSize)
    {
      blocks, curBlock, isolated, blockSize, crashed := map[], NULL, [], initialBlockSize, false;
      this.maxBlockSize := maxBlockSize;
    }

    method Allocate(n: nat, p: BlockId) returns (r: Region)
      requires (curBlock != NULL ==> curBlock in blocks) && Allowed(Now(), Request(n, p))
      modifies this
      ensures Now() == After(old(Now()), Request(n, p)) && r == Given(old(Now()), Request(n, p))
    {
      if curBlock != NULL && LeftSpace(blocks[curBlock]) >= n {
        var b := blocks[curBlock];
        r := Region(curBlock, b.allocSize, n);
        blocks := blocks[curBlock := Used(b, n)];
        return;
      }
      r := AllocateInOtherBlocks(n, p);
    }

    // The fields of the block are written, malloc or not.
    method AllocateNewBlock(n: nat, p: BlockId) returns (r: Region)
      requires p !in blocks
      modifies this`blocks, this`isolated, this`crashed
      ensures crashed == (old(crashed) || p == NULL)
      ensures p == NULL ==> blocks == old(blocks) && isolated == old(isolated) && r == NOWHERE
      ensures p != NULL ==>
        blocks == old(blocks)[p := Fresh(n, n)] && isolated == [p] + old(isolated) && r == Region(p, 0, n)
    {
      if p == NULL {
        crashed := true;
        return NOWHERE;
      }
      blocks := blocks[p := Fresh(n, n)];
      isolated := [p] + isolated;
      return Region(p, 0, n);
    }

    method AllocateInOtherBlocks(n: nat, p: BlockId) returns (r: Region)
      requires Allowed(Now(), Request(n, p)) && !Fits(Now(), n)
      modifies this
      ensures Now() == After(old(Now()), Request(n, p)) && r == Given(old(Now()), Request(n, p))
    {
      if n > blockSize / 4 {
        r := AllocateNewBlock(n, p);
        return;
      }
      if curBlock != NULL {
        blockSize := if 2 * blockSize < maxBlockSize then 2 * blockSize else maxBlockSize;
      }
      var newSize := blockSize;
      if newSize < n {
        newSize := n;
      }
      if p == NULL {
        return NOWHERE;
      }
      blocks := blocks[p := Fresh(newSize, n)];
      if curBlock != NULL {
        isolated := [curBlock] + isolated;
      }
      curBlock := p;
      return Region(p, 0, n);
    }
  }

  // ---------- Runs ----------

  function Initial(initialBlockSize: nat, maxBlockSize: nat): State {
    State(map[], NULL, [], initialBlockSize, maxBlockSize, false)
  }

  function StateAfter(s: State, qs: seq<Request>): State {
    if qs == [] then s else After(StateAfter(s, qs[..|qs| - 1]), qs[|qs| - 1])
  }

  function Regions(s: State, qs: seq<Request>): (rs: seq<Region>)
    ensures |rs| == |qs|
  {
    if qs == [] then [] else Regions(s, qs[..|qs| - 1]) + [Given(StateAfter(s, qs[..|qs| - 1]), qs[|qs| - 1])]
  }

  predicate AllAllowed(s: State, qs: seq<Request>) {
    qs == [] || (AllAllowed(s, qs[..|qs| - 1]) && Allowed(StateAfter(s, qs[..|qs| - 1]), qs[|qs| - 1]))
  }

  lemma {:induction false} OneMore(s: State, qs: seq<Request>, q: Request)
    ensures StateAfter(s, qs + [q]) == After(StateAfter(s, qs), q)
    ensures Regions(s, qs + [q]) == Regions(s, qs) + [Given(StateAfter(s, qs), q)]
    ensures AllAllowed(s, qs + [q]) <==> AllAllowed(s, qs) && Allowed(StateAfter(s, qs), q)
  {
    assert (qs + [q])[..|qs|] == qs;
  }

  // ---------- What holds for all sizes ----------

  predicate Within(r: Region, blocks: map<BlockId, Block>) {
    r.block != NULL ==> r.block in blocks && r.offset + r.length <= blocks[r.block].room
  }

  // The fields of a block, against what it really holds.
  predicate FieldsOk(b: Block) {
    && b.size == b.room % WORD && b.allocSize < WORD
    && b.used <= b.room && LeftSpace(b) == (b.room - b.used) % WORD
    && b.allocSize + LeftSpace(b) <= b.room
  }

  predicate Inv(s: State) {
    && NULL !in s.blocks
    && (s.cur != NULL ==> s.cur in s.blocks && FieldsOk(s.blocks[s.cur]))
    && (forall b :: b in s.isolated ==> b in s.blocks && b != s.cur)
    && (forall b :: b in s.blocks ==> b == s.cur || b in s.isolated)
  }

  lemma {:induction false} FreshFields(room: nat, n: nat)
    requires n <= room
    ensures FieldsOk(Fresh(room, n))
  {
    var f, a := room % WORD, n % WORD;
    var k, l := room / WORD, n / WORD;
    assert room - n == (k - l) * WORD + (f - a);
  }

  lemma {:induction false} UsedFields(b: Block, n: nat)
    requires FieldsOk(b) && n <= LeftSpace(b)
    ensures FieldsOk(Used(b, n)) && LeftSpace(Used(b, n)) == LeftSpace(b) - n
    ensures (b.allocSize + n) % WORD == if b.allocSize + n < WORD then b.allocSize + n else b.allocSize + n - WORD
  {
    hide LeftSpace;
    Mod(b.room - b.used, n);
    LeftIs(b);
    CutIs(b.allocSize, n);
    LeftIs(Used(b, n));
  }

  lemma {:induction false} LeftIs(b: Block)
    requires b.size < WORD && b.allocSize < WORD
    ensures LeftSpace(b) == if b.allocSize <= b.size then b.size - b.allocSize else b.size - b.allocSize + WORD
  {
  }

  lemma {:induction false} CutIs(a: nat, n: nat)
    requires a < WORD && n < WORD
    ensures (a + n) % WORD == if a + n < WORD then a + n else a + n - WORD
  {
  }

  lemma {:induction false} Mod(x: nat, n: nat)
    requires n <= x % WORD
    ensures (x - n) % WORD == x % WORD - n
  {
  }

  lemma {:induction false} InvAfter(s: State, q: Request)
    requires Inv(s) && Allowed(s, q)
    ensures Inv(After(s, q))
  {
    hide FieldsOk, Fresh, Used, LeftSpace;
    FreshFields(Max(NextSize(s), q.n), q.n);
    if Fits(s, q.n) {
      UsedFields(s.blocks[s.cur], q.n);
    }
  }

  lemma {:induction false} WithinAfter(s: State, q: Request, r: Region)
    requires Inv(s) && Allowed(s, q) && Within(r, s.blocks)
    ensures Within(r, After(s, q).blocks) && Within(Given(s, q), After(s, q).blocks)
  {
    hide LeftSpace;
  }

  // In every run, whatever the sizes, the regions handed out lie within live blocks, and
  // every block is the current one or in the list, so that the destructor frees it.
  lemma {:induction false} RunWithin(i: nat, m: nat, qs: seq<Request>)
    requires AllAllowed(Initial(i, m), qs)
    ensures Inv(StateAfter(Initial(i, m), qs))
    ensures forall r :: r in Regions(Initial(i, m), qs) ==> Within(r, StateAfter(Initial(i, m), qs).blocks)
  {
    hide Inv, Within, After, Given, Allowed;
    var s := Initial(i, m);
    if qs == [] {
      StartInv(i, m);
    } else {
      var before, q := qs[..|qs| - 1], qs[|qs| - 1];
      RunWithin(i, m, before);
      InvAfter(StateAfter(s, before), q);
      WithinAfter(StateAfter(s, before), q, NOWHERE) by { NowhereWithin(StateAfter(s, before).blocks); }
      forall r | r in Regions(s, before) ensures Within(r, StateAfter(s, qs).blocks) {
        WithinAfter(StateAfter(s, before), q, r);
      }
    }
  }

  lemma {:induction false} StartInv(i: nat, m: nat)
    ensures Inv(Initial(i, m))
  {
  }

  lemma {:induction false} NowhereWithin(blocks: map<BlockId, Block>)
    ensures Within(NOWHERE, blocks)
  {
  }

  lemma {:induction false} NoneForgotten(i: nat, m: nat, qs: seq<Request>, b: BlockId)
    requires AllAllowed(Initial(i, m), qs) && b in StateAfter(Initial(i, m), qs).blocks
    ensures var s := StateAfter(Initial(i, m), qs); b == s.cur || b in s.isolated
  {
    RunWithin(i, m, qs);
  }

  // ---------- Where every region is ----------

  // How many bytes of block `b` these regions take.
  function SumIn(rs: seq<Region>, b: BlockId): nat {
    if rs == [] then 0
    else SumIn(rs[..|rs| - 1], b) + if rs[|rs| - 1].block == b then rs[|rs| - 1].length else 0
  }

  lemma {:induction false} SumSnoc(rs: seq<Region>, r: Region, b: BlockId)
    ensures SumIn(rs + [r], b) == SumIn(rs, b) + if r.block == b then r.length else 0
  {
    assert (rs + [r])[..|rs|] == rs;
  }

  // The room the current block has by its 32-bit fields, from what it really holds.
  predicate RoomLeft(s: State, n: nat) {
    s.cur != NULL && s.cur in s.blocks && (s.blocks[s.cur].room - s.blocks[s.cur].used) % WORD >= n
  }

  lemma {:induction false} RoomFits(s: State, n: nat)
    requires Inv(s)
    ensures RoomLeft(s, n) <==> Fits(s, n)
  {
    hide LeftSpace;
  }

  ghost predicate Tallied(s: State, rs: seq<Region>) {
    && (forall b :: b in s.blocks ==> s.blocks[b].used == SumIn(rs, b))
    && (forall b :: b != NULL && b !in s.blocks ==> SumIn(rs, b) == 0)
  }

  lemma {:induction false} TalliedAfter(s: State, q: Request, rs: seq<Region>)
    requires Inv(s) && Allowed(s, q) && Tallied(s, rs)
    ensures Tallied(After(s, q), rs + [Given(s, q)])
  {
    hide LeftSpace, SumIn, FieldsOk;
    var r := Given(s, q);
    forall b ensures SumIn(rs + [r], b) == SumIn(rs, b) + if r.block == b then r.length else 0 {
      SumSnoc(rs, r, b);
    }
  }

  // What a block has handed out is what lies in it.
  lemma {:induction false} RunTallied(i: nat, m: nat, qs: seq<Request>)
    requires AllAllowed(Initial(i, m), qs)
    ensures Tallied(StateAfter(Initial(i, m), qs), Regions(Initial(i, m), qs))
  {
    hide After, Given, Allowed, Inv, Tallied;
    var s := Initial(i, m);
    if qs == [] {
      StartTallied(i, m);
    } else {
      var before, q := qs[..|qs| - 1], qs[|qs| - 1];
      RunTallied(i, m, before);
      RunWithin(i, m, before);
      TalliedAfter(StateAfter(s, before), q, Regions(s, before));
    }
  }

  lemma {:induction false} StartTallied(i: nat, m: nat)
    ensures Tallied(Initial(i, m), [])
  {
  }

  lemma {:induction false} AllowedPrefix(s: State, qs: seq<Request>, k: nat)
    requires AllAllowed(s, qs) && k <= |qs|
    ensures AllAllowed(s, qs[..k]) && Regions(s, qs[..k]) == Regions(s, qs)[..k]
    ensures k < |qs| ==> Allowed(StateAfter(s, qs[..k]), qs[k]) && Regions(s, qs)[k] == Given(StateAfter(s, qs[..k]), qs[k])
    ensures k < |qs| ==> StateAfter(s, qs[..k + 1]) == After(StateAfter(s, qs[..k]), qs[k])
  {
    hide After, Given, Allowed;
    if k == |qs| {
      assert qs[..k] == qs;
    } else {
      var before := qs[..|qs| - 1];
      AllowedPrefix(s, before, k);
      assert before[..k] == qs[..k];
      var upto := qs[..k + 1];
      assert upto[..k] == qs[..k];
      if k < |before| {
        assert before[..k + 1] == upto;
      } else {
        assert before == qs[..k];
      }
    }
  }

  // Blocks are not given back.
  lemma {:induction false} BlocksGrow(s: State, qs: seq<Request>, j: nat, k: nat, b: BlockId)
    requires AllAllowed(s, qs) && j <= k <= |qs| && b in StateAfter(s, qs[..j]).blocks
    ensures b in StateAfter(s, qs[..k]).blocks
    decreases k - j
  {
    hide Given, Allowed, LeftSpace;
    if j < k {
      AllowedPrefix(s, qs, j);
      BlocksGrow(s, qs, j + 1, k, b);
    }
  }

  // Every request gets what it asks for, behind what its block has handed out before, when
  // the current block has the room or malloc a new one, and nothing otherwise; a large
  // request then crashes the process. A new block was never there before.
  lemma {:induction false} Placement(i: nat, m: nat, qs: seq<Request>, k: nat)
    requires AllAllowed(Initial(i, m), qs) && k < |qs|
    ensures var s, rs, q := StateAfter(Initial(i, m), qs[..k]), Regions(Initial(i, m), qs), qs[k];
      rs[k] == if RoomLeft(s, q.n) then Region(s.cur, SumIn(rs[..k], s.cur) % WORD, q.n)
               else if q.p != NULL then Region(q.p, 0, q.n) else NOWHERE
    ensures var s := StateAfter(Initial(i, m), qs[..k]);
      !RoomLeft(s, qs[k].n) ==> forall j :: 0 <= j <= k ==> qs[k].p !in StateAfter(Initial(i, m), qs[..j]).blocks
    ensures var s, q := StateAfter(Initial(i, m), qs[..k]), qs[k];
      StateAfter(Initial(i, m), qs[..k + 1]).crashed <==> !RoomLeft(s, q.n) && q.p == NULL && q.n > s.blockSize / 4
  {
    hide After, Given, Allowed, Tallied, Inv, RoomLeft, SumIn, StateAfter, Regions, AllAllowed;
    var s0 := Initial(i, m);
    var s := StateAfter(s0, qs[..k]);
    AllowedPrefix(s0, qs, k);
    RunWithin(i, m, qs[..k]);
    RunTallied(i, m, qs[..k]);
    GivenIs(s, qs[k], Regions(s0, qs[..k]));
    forall j | 0 <= j <= k ensures qs[k].p !in StateAfter(s0, qs[..j]).blocks {
      if qs[k].p in StateAfter(s0, qs[..j]).blocks {
        BlocksGrow(s0, qs, j, k, qs[k].p);
      }
    }
  }

  lemma {:induction false} GivenIs(s: State, q: Request, rs: seq<Region>)
    requires Inv(s) && Allowed(s, q) && Tallied(s, rs)
    ensures q.p !in s.blocks
    ensures After(s, q).crashed <==> !RoomLeft(s, q.n) && q.p == NULL && q.n > s.blockSize / 4
    ensures Given(s, q) == if RoomLeft(s, q.n) then Region(s.cur, SumIn(rs, s.cur) % WORD, q.n)
                           else if q.p != NULL then Region(q.p, 0, q.n) else NOWHERE
  {
    hide SumIn, LeftSpace, FieldsOk;
    RoomFits(s, q.n);
    if RoomLeft(s, q.n) {
      CurrentOffset(s, q.n);
    }
  }

  lemma {:induction false} CurrentOffset(s: State, n: nat)
    requires Inv(s) && RoomLeft(s, n)
    ensures s.blocks[s.cur].allocSize == s.blocks[s.cur].used % WORD
  {
    var b := s.blocks[s.cur];
    LeftIs(b);
    Less(b.room, b.used);
  }

  lemma {:induction false} Less(x: nat, y: nat)
    requires y <= x
    ensures (x - y) % WORD == if y % WORD <= x % WORD then x % WORD - y % WORD else x % WORD - y % WORD + WORD
  {
    var k, l := x / WORD, y / WORD;
    assert x - y == (k - l) * WORD + (x % WORD - y % WORD);
  }

  // ---------- How blocks grow ----------

  function Pow2(n: nat): nat {
    if n == 0 then 1 else 2 * Pow2(n - 1)
  }

  // How many of these requests replaced the current block, or tried to.
  function Replaced(i: nat, m: nat, qs: seq<Request>): nat {
    if qs == [] then 0 else
    var before, q := qs[..|qs| - 1], qs[|qs| - 1];
    var s := StateAfter(Initial(i, m), before);
    Replaced(i, m, before) + if s.cur != NULL && !RoomLeft(s, q.n) && q.n <= s.blockSize / 4 then 1 else 0
  }

  lemma {:induction false} SizeAfter(s: State, q: Request)
    ensures After(s, q).maxBlockSize == s.maxBlockSize
    ensures After(s, q).blockSize == if s.cur != NULL && !Fits(s, q.n) && q.n <= s.blockSize / 4 then NextSize(s) else s.blockSize
  {
    hide Fits;
  }

  function Doubled(i: nat, m: nat, n: nat): nat {
    if n == 0 then i else if i * Pow2(n) < m then i * Pow2(n) else m
  }

  lemma {:induction false} DoubledMore(i: nat, m: nat, n: nat)
    ensures var b := Doubled(i, m, n); Doubled(i, m, n + 1) == if 2 * b < m then 2 * b else m
  {
    assert i * Pow2(n + 1) == 2 * (i * Pow2(n));
  }

  // The block size doubles with every replacement, up to the maximum.
  lemma {:induction false} GrowthExactly(i: nat, m: nat, qs: seq<Request>)
    requires AllAllowed(Initial(i, m), qs)
    ensures StateAfter(Initial(i, m), qs).maxBlockSize == m
    ensures StateAfter(Initial(i, m), qs).blockSize == Doubled(i, m, Replaced(i, m, qs))
  {
    hide Allowed, After, Given, RoomLeft, Fits, Inv, Doubled;
    if qs == [] {
      NotDoubled(i, m);
    } else {
      var before, q := qs[..|qs| - 1], qs[|qs| - 1];
      var s := StateAfter(Initial(i, m), before);
      GrowthExactly(i, m, before);
      RunWithin(i, m, before);
      RoomFits(s, q.n);
      SizeAfter(s, q);
      DoubledMore(i, m, Replaced(i, m, before));
    }
  }

  lemma {:induction false} NotDoubled(i: nat, m: nat)
    ensures Doubled(i, m, 0) == i
  {
  }

  // A block of its own for a large request, the new current one for a small one.
  lemma {:induction false} NewBlocks(i: nat, m: nat, qs: seq<Request>, k: nat)
    requires AllAllowed(Initial(i, m), qs) && k < |qs| && qs[k].p != NULL
    requires !RoomLeft(StateAfter(Initial(i, m), qs[..k]), qs[k].n)
    ensures var s, s', q := StateAfter(Initial(i, m), qs[..k]), StateAfter(Initial(i, m), qs[..k + 1]), qs[k];
      && s'.blocks.Keys == s.blocks.Keys + {q.p}
      && (if q.n > s.blockSize / 4 then s'.blocks[q.p].room == q.n && s'.cur == s.cur && q.p in s'.isolated
          else s'.blocks[q.p].room == Max(s'.blockSize, q.n) && s'.cur == q.p && (s.cur != NULL ==> s.cur in s'.isolated))
  {
    hide LeftSpace, Given, RoomLeft, Fits, Allowed, AllAllowed, StateAfter, Regions;
    AllowedPrefix(Initial(i, m), qs, k);
    RunWithin(i, m, qs[..k]);
    RoomFits(StateAfter(Initial(i, m), qs[..k]), qs[k].n);
  }
}
