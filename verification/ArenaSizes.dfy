/** Block sizes are size_t, the fields of a block 32 bits wide. This tells for exactly which
    sizes an arena never hands out a byte twice, and for which it wastes little. */
module ArenaSizes {
  import opened Arenas

  function Min(a: nat, b: nat): nat {
    if a < b then a else b
  }

  // The two share no byte.
  predicate Disjoint(r: Region, q: Region) {
    || r.block == NULL || r.block != q.block || r.length == 0 || q.length == 0
    || r.offset + r.length <= q.offset || q.offset + q.length <= r.offset
  }

  ghost predicate AllDisjoint(rs: seq<Region>) {
    forall i, j :: 0 <= i < j < |rs| ==> Disjoint(rs[i], rs[j])
  }

  // A block of `room` bytes whose first cut is `n` will hand out some byte twice, if asked.
  predicate Bad(room: nat, n: nat)
    requires n <= room
  {
    if n < WORD then 0 < room % WORD < n else (room - n) % WORD != 0
  }

  // Some first cut of up to `most` bytes is bad.
  predicate Unsafe(room: nat, most: nat) {
    if most < WORD then 0 < room % WORD < most else most == WORD ==> room % WORD != 0
  }

  lemma {:induction false} LessWord(x: nat)
    requires x >= WORD
    ensures (x - WORD) % WORD == x % WORD
  {
  }

  lemma {:induction false} LessOne(x: nat)
    requires x > WORD && x % WORD == 0
    ensures (x - WORD - 1) % WORD != 0
  {
    LessWord(x);
    var y := x - WORD;
    assert (y - 1) % WORD == WORD - 1;
  }

  function BadCut(room: nat, most: nat): nat {
    if most < WORD || room % WORD != 0 then Min(most, WORD) else WORD + 1
  }

  lemma {:induction false} UnsafeExactly(room: nat, most: nat)
    requires most <= room
    ensures Unsafe(room, most) ==> 1 <= BadCut(room, most) <= most && Bad(room, BadCut(room, most))
    ensures !Unsafe(room, most) ==> forall k :: 0 <= k <= most ==> !Bad(room, k)
  {
    if most >= WORD {
      LessWord(room);
      if room % WORD == 0 && most > WORD {
        LessOne(room);
      }
    }
  }

  // The next block size.
  function Grow(b: nat, m: nat): nat {
    Min(2 * b, m)
  }

  // Blocks made after one of size `b` are safe.
  predicate SafeFrom(b: nat, m: nat)
    decreases if b < m then m - b else b - m
  {
    var next := Grow(b, m);
    && !Unsafe(next, Min(b / 4, next))
    && (next >= 4 && next != b && b >= 4 ==> SafeFrom(next, m))
  }

  // All blocks an arena made with these sizes can come to are safe.
  predicate SafeSizes(i: nat, m: nat) {
    !Unsafe(i, i / 4) && (i >= 4 ==> SafeFrom(i, m))
  }

  // ---------- Safe sizes ----------

  // As long as a block has room, what it has handed out lies below its fill mark, and the
  // mark will not wrap around.
  predicate Below(r: Region, s: State) {
    r.block != NULL && r.block == s.cur && r.block in s.blocks && r.length > 0 && LeftSpace(s.blocks[s.cur]) > 0 ==>
      r.offset + r.length <= s.blocks[s.cur].allocSize
  }

  predicate CurSafe(s: State) {
    s.cur != NULL && s.cur in s.blocks && LeftSpace(s.blocks[s.cur]) > 0 ==>
      s.blocks[s.cur].allocSize + LeftSpace(s.blocks[s.cur]) <= WORD
  }

  predicate SizesSafe(s: State) {
    if s.cur == NULL then SafeSizes(s.blockSize, s.maxBlockSize) else s.blockSize >= 4 ==> SafeFrom(s.blockSize, s.maxBlockSize)
  }

  ghost predicate Safe(s: State, rs: seq<Region>) {
    && Inv(s) && CurSafe(s) && SizesSafe(s) && AllDisjoint(rs)
    && (forall r :: r in rs ==> Within(r, s.blocks) && Below(r, s))
  }

  // A first cut that is not bad.
  lemma {:induction false} FreshSafe(room: nat, n: nat)
    requires n <= room && !Bad(room, n)
    ensures var b := Fresh(room, n);
      LeftSpace(b) > 0 ==> n == b.allocSize && b.allocSize + LeftSpace(b) <= WORD
  {
    hide LeftSpace;
    FreshFields(room, n);
    LeftIs(Fresh(room, n));
  }

  // A block as long as the request.
  lemma {:induction false} ExactlySafe(n: nat)
    ensures !Bad(n, n)
  {
  }

  // Which blocks a safe arena makes.
  lemma {:induction false} NewIsSafe(s: State, q: Request)
    requires SizesSafe(s) && !Fits(s, q.n) && q.n <= s.blockSize / 4 && (s.cur != NULL ==> s.cur in s.blocks)
    ensures !Bad(Max(NextSize(s), q.n), q.n)
    ensures s.cur != NULL ==> (NextSize(s) >= 4 ==> SafeFrom(NextSize(s), s.maxBlockSize))
  {
    hide LeftSpace;
    ExactlySafe(q.n);
    if s.cur == NULL {
      UnsafeExactly(s.blockSize, s.blockSize / 4);
    } else {
      var b, next := s.blockSize, NextSize(s);
      assert next == Grow(b, s.maxBlockSize) && SafeFrom(b, s.maxBlockSize);
      UnsafeExactly(next, Min(b / 4, next));
    }
  }

  lemma {:induction false} SizesAfter(s: State, q: Request)
    requires Inv(s) && SizesSafe(s)
    ensures SizesSafe(After(s, q))
  {
    hide LeftSpace, Inv;
    if !Fits(s, q.n) && q.n <= s.blockSize / 4 {
      assert s.cur != NULL ==> s.cur in s.blocks by { CurLives(s); }
      NewIsSafe(s, q);
    }
  }

  lemma {:induction false} CurLives(s: State)
    requires Inv(s)
    ensures s.cur != NULL ==> s.cur in s.blocks && FieldsOk(s.blocks[s.cur])
  {
  }

  lemma {:induction false} CutSafe(s: State, q: Request)
    requires Inv(s) && CurSafe(s) && Fits(s, q.n)
    ensures var b, b' := s.blocks[s.cur], Used(s.blocks[s.cur], q.n);
      LeftSpace(b') == LeftSpace(b) - q.n && (LeftSpace(b') > 0 ==>
        b'.allocSize == b.allocSize + q.n && b'.allocSize + LeftSpace(b') <= WORD)
  {
    hide LeftSpace;
    UsedFields(s.blocks[s.cur], q.n);
  }

  lemma {:induction false} SafeAfter(s: State, q: Request, rs: seq<Region>)
    requires Safe(s, rs) && Allowed(s, q)
    ensures Safe(After(s, q), rs + [Given(s, q)])
  {
    hide LeftSpace, Inv, SizesSafe, Bad, FieldsOk;
    InvAfter(s, q);
    SizesAfter(s, q);
    CurLives(s);
    if Fits(s, q.n) {
      CutSafe(s, q);
    } else if q.n <= s.blockSize / 4 {
      NewIsSafe(s, q);
      FreshSafe(Max(NextSize(s), q.n), q.n);
    }
    var s', g := After(s, q), Given(s, q);
    CurLives(s');
    WithinAfter(s, q, NOWHERE);
    forall r | r in rs ensures Within(r, s'.blocks) && Below(r, s') && Disjoint(r, g) {
      WithinAfter(s, q, r);
    }
    MoreDisjoint(rs, g);
  }

  lemma {:induction false} MoreDisjoint(rs: seq<Region>, g: Region)
    requires AllDisjoint(rs) && forall r :: r in rs ==> Disjoint(r, g)
    ensures AllDisjoint(rs + [g])
  {
    forall i, j | 0 <= i < j < |rs + [g]| ensures Disjoint((rs + [g])[i], (rs + [g])[j]) {
      assert i < |rs| && rs[i] in rs;
    }
  }

  lemma {:induction false} RunSafe(i: nat, m: nat, qs: seq<Request>)
    requires SafeSizes(i, m) && AllAllowed(Initial(i, m), qs)
    ensures Safe(StateAfter(Initial(i, m), qs), Regions(Initial(i, m), qs))
  {
    hide After, Given, Allowed;
    if qs == [] {
      StartInv(i, m);
    } else {
      hide Safe;
      var before := qs[..|qs| - 1];
      RunSafe(i, m, before);
      SafeAfter(StateAfter(Initial(i, m), before), qs[|qs| - 1], Regions(Initial(i, m), before));
    }
  }

  // ---------- Unsafe sizes ----------

  // An arena that has come to state `s`, in which all blocks are at addresses up to `k`.
  ghost predicate Reached(i: nat, m: nat, qs: seq<Request>, s: State, k: nat) {
    && AllAllowed(Initial(i, m), qs) && StateAfter(Initial(i, m), qs) == s
    && Inv(s) && !s.crashed && s.maxBlockSize == m && forall b :: b in s.blocks ==> b <= k
  }

  // Its current block is used up, as far as the fields tell.
  predicate Full(s: State) {
    s.cur != NULL && s.cur in s.blocks && LeftSpace(s.blocks[s.cur]) == 0
  }

  lemma {:induction false} Step(i: nat, m: nat, qs: seq<Request>, s: State, k: nat, q: Request, k': nat)
    requires Reached(i, m, qs, s, k) && Allowed(s, q) && !After(s, q).crashed && q.p <= k' && k <= k'
    ensures Reached(i, m, qs + [q], After(s, q), k')
    ensures Regions(Initial(i, m), qs + [q]) == Regions(Initial(i, m), qs) + [Given(s, q)]
  {
    hide Inv, LeftSpace;
    OneMore(Initial(i, m), qs, q);
    InvAfter(s, q);
  }

  lemma {:induction false} StartReached(i: nat, m: nat)
    ensures Reached(i, m, [], Initial(i, m), 0)
  {
  }

  // The rest of the current block is asked for.
  lemma {:induction false} Fill(i: nat, m: nat, qs: seq<Request>, s: State, k: nat) returns (q: Request)
    requires Reached(i, m, qs, s, k) && s.cur != NULL && s.cur in s.blocks
    ensures Reached(i, m, qs + [q], After(s, q), k) && Full(After(s, q))
    ensures var b := s.blocks[s.cur];
      After(s, q) == s.(blocks := s.blocks[s.cur := After(s, q).blocks[s.cur]])
      && After(s, q).blocks[s.cur].room == b.room && After(s, q).blocks[s.cur].used == b.used + LeftSpace(b)
  {
    hide LeftSpace;
    q := Request(LeftSpace(s.blocks[s.cur]), NULL);
    UsedFields(s.blocks[s.cur], q.n);
    Step(i, m, qs, s, k, q, k);
  }

  // A used up current block is replaced.
  lemma {:induction false} Replace(i: nat, m: nat, qs: seq<Request>, s: State, k: nat, n: nat) returns (q: Request)
    requires Reached(i, m, qs, s, k) && (s.cur == NULL || (Full(s) && 1 <= n)) && n <= s.blockSize / 4 && n <= NextSize(s)
    ensures q == Request(n, k + 1) && Reached(i, m, qs + [q], After(s, q), k + 1)
    ensures var s' := After(s, q);
      && s'.cur == k + 1 && s'.blocks == s.blocks[k + 1 := Fresh(NextSize(s), n)] && s'.blockSize == NextSize(s)
      && s'.isolated == if s.cur == NULL then s.isolated else [s.cur] + s.isolated
    ensures Given(s, q) == Region(k + 1, 0, n)
    ensures Regions(Initial(i, m), qs + [q]) == Regions(Initial(i, m), qs) + [Region(k + 1, 0, n)]
  {
    hide LeftSpace, Inv;
    q := Request(n, k + 1);
    Step(i, m, qs, s, k, q, k + 1);
  }

  // A cut from the current block.
  lemma {:induction false} CutStep(i: nat, m: nat, qs: seq<Request>, s: State, k: nat, n: nat) returns (s': State)
    requires Reached(i, m, qs, s, k) && s.cur != NULL && s.cur in s.blocks && n <= LeftSpace(s.blocks[s.cur])
    ensures s' == s.(blocks := s.blocks[s.cur := Used(s.blocks[s.cur], n)])
    ensures Reached(i, m, qs + [Request(n, NULL)], s', k)
    ensures Regions(Initial(i, m), qs + [Request(n, NULL)])
         == Regions(Initial(i, m), qs) + [Region(s.cur, s.blocks[s.cur].allocSize, n)]
  {
    hide LeftSpace;
    var q := Request(n, NULL);
    s' := After(s, q);
    Step(i, m, qs, s, k, q, k);
  }

  // The fill mark of a block that is longer than its size field says comes to 0.
  lemma {:induction false} MarkWraps(room: nat, n: nat)
    requires n <= room && n < WORD && Bad(room, n)
    ensures var b := Fresh(room, n);
      var b' := Used(b, WORD - n);
      WORD - n <= LeftSpace(b) && b'.allocSize == 0 && 1 <= LeftSpace(b')
  {
    hide LeftSpace;
    var b := Fresh(room, n);
    FreshFields(room, n);
    LeftIs(b);
    UsedFields(b, WORD - n);
  }

  lemma {:induction false} MarkBehind(room: nat, n: nat)
    requires WORD <= n <= room && Bad(room, n)
    ensures var b := Fresh(room, n); 1 <= LeftSpace(b) && b.allocSize < n
  {
    FreshFields(room, n);
  }

  // With a bad first cut, at most two more requests get a byte of it again.
  lemma {:induction false} TwiceFrom(i: nat, m: nat, qs: seq<Request>, s: State, k: nat, room: nat, n: nat) returns (qs': seq<Request>)
    requires Reached(i, m, qs, s, k) && s.cur != NULL && s.cur in s.blocks && s.blocks[s.cur] == Fresh(room, n)
    requires 1 <= n <= room && Bad(room, n) && |qs| > 0 && Regions(Initial(i, m), qs)[|qs| - 1] == Region(s.cur, 0, n)
    ensures AllAllowed(Initial(i, m), qs') && !AllDisjoint(Regions(Initial(i, m), qs'))
  {
    hide LeftSpace, Inv, Regions, Fresh, Used;
    if n < WORD {
      MarkWraps(room, n);
      var s1 := CutStep(i, m, qs, s, k, WORD - n);
      qs' := qs + [Request(WORD - n, NULL)];
      var s2 := CutStep(i, m, qs', s1, k, 1);
      qs' := qs' + [Request(1, NULL)];
    } else {
      MarkBehind(room, n);
      var s1 := CutStep(i, m, qs, s, k, 1);
      qs' := qs + [Request(1, NULL)];
    }
    var rs := Regions(Initial(i, m), qs');
    assert !Disjoint(rs[|qs| - 1], rs[|qs'| - 1]);
  }

  // From a used up block on, an unsafe size is reached block by block.
  lemma {:induction false} OverlapFrom(i: nat, m: nat, qs: seq<Request>, s: State, k: nat) returns (qs': seq<Request>)
    requires Reached(i, m, qs, s, k) && Full(s) && s.blockSize >= 4 && !SafeFrom(s.blockSize, m)
    ensures AllAllowed(Initial(i, m), qs') && !AllDisjoint(Regions(Initial(i, m), qs'))
    decreases if s.blockSize < m then m - s.blockSize else s.blockSize - m
  {
    hide LeftSpace, Inv, Reached, AllAllowed, Regions, AllDisjoint, Bad;
    var b, next := s.blockSize, NextSize(s);
    assert next == Grow(b, m) by { MaxOf(i, m, qs, s, k); }
    var most := Min(b / 4, next);
    if Unsafe(next, most) {
      UnsafeExactly(next, most);
      var n := BadCut(next, most);
      var q := Replace(i, m, qs, s, k, n);
      LastIs(Initial(i, m), qs, q, Region(k + 1, 0, n));
      qs' := TwiceFrom(i, m, qs + [q], After(s, q), k + 1, next, n);
    } else {
      var q := Replace(i, m, qs, s, k, 1);
      var fill := Fill(i, m, qs + [q], After(s, q), k + 1);
      qs' := OverlapFrom(i, m, qs + [q] + [fill], After(After(s, q), fill), k + 1);
    }
  }

  lemma {:induction false} MaxOf(i: nat, m: nat, qs: seq<Request>, s: State, k: nat)
    requires Reached(i, m, qs, s, k)
    ensures s.maxBlockSize == m
  {
  }

  lemma {:induction false} LastIs(s: State, qs: seq<Request>, q: Request, r: Region)
    requires Regions(s, qs + [q]) == Regions(s, qs) + [r]
    ensures Regions(s, qs + [q])[|qs + [q]| - 1] == r
  {
  }

  lemma {:induction false} FindOverlap(i: nat, m: nat) returns (qs: seq<Request>)
    requires !SafeSizes(i, m)
    ensures AllAllowed(Initial(i, m), qs) && !AllDisjoint(Regions(Initial(i, m), qs))
  {
    hide LeftSpace, Inv, Reached, AllAllowed, Regions, AllDisjoint, Bad, SafeFrom;
    StartReached(i, m);
    var s := Initial(i, m);
    if Unsafe(i, i / 4) {
      UnsafeExactly(i, i / 4);
      var n := BadCut(i, i / 4);
      var q := Replace(i, m, [], s, 0, n);
      LastIs(s, [], q, Region(1, 0, n));
      qs := TwiceFrom(i, m, [] + [q], After(s, q), 1, i, n);
    } else {
      var q := Replace(i, m, [], s, 0, 1);
      var fill := Fill(i, m, [] + [q], After(s, q), 1);
      qs := OverlapFrom(i, m, [] + [q] + [fill], After(After(s, q), fill), 1);
    }
  }

  // No run hands out a byte twice exactly when all block sizes the arena can come to are
  // safe.
  lemma {:induction false} DisjointExactly(i: nat, m: nat)
    ensures (forall qs :: AllAllowed(Initial(i, m), qs) ==> AllDisjoint(Regions(Initial(i, m), qs))) <==> SafeSizes(i, m)
  {
    hide SafeSizes, AllDisjoint, AllAllowed, Regions;
    if SafeSizes(i, m) {
      forall qs | AllAllowed(Initial(i, m), qs) ensures AllDisjoint(Regions(Initial(i, m), qs)) {
        RunSafe(i, m, qs);
      }
    } else {
      var qs := FindOverlap(i, m);
    }
  }

  // Sizes that fit in the fields are safe; so is 2^32 itself.
  lemma {:induction false} SmallSafe(b: nat, m: nat)
    requires b <= WORD && m <= WORD
    ensures SafeSizes(b, m) && SafeFrom(b, m)
    decreases if b < m then m - b else b - m
  {
    var next := Grow(b, m);
    if next >= 4 && next != b && b >= 4 {
      SmallSafe(next, m);
    }
  }

  // One size for all blocks, between 2^32 and 2^33.
  lemma {:induction false} OneSize(b: nat)
    requires WORD < b < 2 * WORD
    ensures SafeSizes(b, b) <==> b - WORD >= b / 4
  {
    LessWord(b);
    assert b % WORD == b - WORD;
  }

  // ---------- Waste ----------

  // Less than a quarter of a block that is no longer cut from is unused.
  predicate WellUsed(b: Block) {
    b.used == b.room || 4 * (b.room - b.used) < b.room
  }

  predicate AllWellUsed(s: State) {
    forall b :: b in s.isolated && b in s.blocks ==> WellUsed(s.blocks[b])
  }

  // The first block is shorter than 2^32 bytes and the others not longer, if there are any.
  predicate ThriftySizes(i: nat, m: nat) {
    i < WORD && (m <= WORD || i < 4)
  }

  // The field knows all the room that is left. A failed malloc leaves a doubled block size
  // behind, but then the current block is nearly used up already.
  predicate Thrifty(s: State) {
    && Inv(s) && AllWellUsed(s)
    && (s.cur == NULL ==> ThriftySizes(s.blockSize, s.maxBlockSize))
    && (s.cur != NULL ==> s.cur in s.blocks && var b := s.blocks[s.cur];
         && LeftSpace(b) == b.room - b.used
         && (s.blockSize <= b.room || WellUsed(b))
         && (s.blockSize >= 4 ==> s.maxBlockSize <= WORD))
  }

  lemma {:induction false} FreshThrifty(room: nat, n: nat)
    requires n <= room <= WORD && (n == 0 ==> room < WORD)
    ensures LeftSpace(Fresh(room, n)) == room - n
  {
    FreshFields(room, n);
  }

  lemma {:induction false} ExactlyThrifty(n: nat)
    ensures LeftSpace(Fresh(n, n)) == 0 && WellUsed(Fresh(n, n))
  {
  }

  lemma {:induction false} ThriftyAfter(s: State, q: Request)
    requires Thrifty(s) && Allowed(s, q)
    ensures Thrifty(After(s, q))
  {
    hide LeftSpace, Inv, FieldsOk;
    InvAfter(s, q);
    CurLives(s);
    Lists(s);
    ExactlyThrifty(q.n);
    var s' := After(s, q);
    if Fits(s, q.n) {
      UsedFields(s.blocks[s.cur], q.n);
    } else if q.n <= s.blockSize / 4 {
      if s.cur != NULL {
        assert 4 * (s.blocks[s.cur].room - s.blocks[s.cur].used) < s.blockSize;
      }
      if q.n <= NextSize(s) {
        FreshThrifty(NextSize(s), q.n);
      }
    }
    forall b | b in s'.isolated && b in s'.blocks ensures WellUsed(s'.blocks[b]) {
      if b in s.isolated {
        assert b in s.blocks && b != s.cur && b != q.p;
      }
    }
  }

  lemma {:induction false} Lists(s: State)
    requires Inv(s)
    ensures NULL !in s.blocks && forall b :: b in s.isolated ==> b in s.blocks && b != s.cur
  {
  }

  lemma {:induction false} RunThrifty(i: nat, m: nat, qs: seq<Request>)
    requires ThriftySizes(i, m) && AllAllowed(Initial(i, m), qs)
    ensures Thrifty(StateAfter(Initial(i, m), qs))
  {
    hide After, Allowed;
    if qs == [] {
      StartInv(i, m);
    } else {
      hide Thrifty;
      var before := qs[..|qs| - 1];
      RunThrifty(i, m, before);
      ThriftyAfter(StateAfter(Initial(i, m), before), qs[|qs| - 1]);
    }
  }

  // A block of which the field does not know the rest, used up and replaced.
  lemma {:induction false} WastedFrom(i: nat, m: nat, qs: seq<Request>, s: State, k: nat) returns (qs': seq<Request>)
    requires Reached(i, m, qs, s, k) && Full(s) && s.blockSize >= 4 && !WellUsed(s.blocks[s.cur])
    ensures AllAllowed(Initial(i, m), qs') && !AllWellUsed(StateAfter(Initial(i, m), qs'))
  {
    hide LeftSpace, Inv;
    var q := Request(1, k + 1);
    Step(i, m, qs, s, k, q, k + 1);
    qs' := qs + [q];
    assert s.cur in After(s, q).isolated;
  }

  lemma {:induction false} Wasted(room: nat, n: nat)
    requires n <= 1 && n <= room && (room > WORD || (room == WORD && n == 0))
    ensures !WellUsed(Block(room, n + (room - n) % WORD, room % WORD, 0))
  {
    var k := (room - n) / WORD;
    assert room - n == k * WORD + (room - n) % WORD;
    assert 1 <= k;
  }

  // Block sizes double until one is longer than 2^32.
  lemma {:induction false} WasteFrom(i: nat, m: nat, qs: seq<Request>, s: State, k: nat) returns (qs': seq<Request>)
    requires Reached(i, m, qs, s, k) && Full(s) && 4 <= s.blockSize <= WORD < m
    ensures AllAllowed(Initial(i, m), qs') && !AllWellUsed(StateAfter(Initial(i, m), qs'))
    decreases m - s.blockSize
  {
    hide LeftSpace, Inv, Reached, AllAllowed, StateAfter, AllWellUsed, WellUsed;
    var next := NextSize(s);
    assert next == Grow(s.blockSize, m) by { MaxOf(i, m, qs, s, k); }
    var q := Replace(i, m, qs, s, k, 1);
    var s1 := After(s, q);
    var fill := Fill(i, m, qs + [q], s1, k + 1);
    var s2 := After(s1, fill);
    if next > WORD {
      FreshFields(next, 1);
      Wasted(next, 1);
      SameUse(s2.blocks[s2.cur], Block(next, 1 + (next - 1) % WORD, next % WORD, 0));
      qs' := WastedFrom(i, m, qs + [q] + [fill], s2, k + 1);
    } else {
      qs' := WasteFrom(i, m, qs + [q] + [fill], s2, k + 1);
    }
  }

  lemma {:induction false} SameUse(b: Block, c: Block)
    requires b.room == c.room && b.used == c.used
    ensures WellUsed(b) <==> WellUsed(c)
  {
  }

  // The first block, got with an empty request and then used up.
  lemma {:induction false} FirstFull(i: nat, m: nat) returns (qs: seq<Request>, s: State)
    ensures Reached(i, m, qs, s, 1) && Full(s) && s.blockSize == i
    ensures s.blocks[s.cur].room == i && s.blocks[s.cur].used == i % WORD
  {
    hide LeftSpace, Inv, Reached, AllAllowed, StateAfter;
    StartReached(i, m);
    var q := Replace(i, m, [], Initial(i, m), 0, 0);
    var s1 := After(Initial(i, m), q);
    FreshFields(i, 0);
    var fill := Fill(i, m, [] + [q], s1, 1);
    qs, s := [] + [q] + [fill], After(s1, fill);
  }

  lemma {:induction false} FindWaste(i: nat, m: nat) returns (qs: seq<Request>)
    requires !ThriftySizes(i, m)
    ensures AllAllowed(Initial(i, m), qs) && !AllWellUsed(StateAfter(Initial(i, m), qs))
  {
    hide LeftSpace, Inv, Reached, AllAllowed, StateAfter, AllWellUsed, WellUsed;
    var first, s := FirstFull(i, m);
    if i >= WORD {
      Wasted(i, 0);
      SameUse(s.blocks[s.cur], Block(i, i % WORD, i % WORD, 0));
      qs := WastedFrom(i, m, first, s, 1);
    } else {
      qs := WasteFrom(i, m, first, s, 1);
    }
  }

  // In every run each block that is no longer cut from is well used, exactly for these
  // sizes; allocations may fail.
  lemma {:induction false} WellUsedExactly(i: nat, m: nat)
    ensures (forall qs :: AllAllowed(Initial(i, m), qs) ==> AllWellUsed(StateAfter(Initial(i, m), qs))) <==> ThriftySizes(i, m)
  {
    hide ThriftySizes, AllWellUsed, AllAllowed, StateAfter;
    if ThriftySizes(i, m) {
      forall qs | AllAllowed(Initial(i, m), qs) ensures AllWellUsed(StateAfter(Initial(i, m), qs)) {
        RunThrifty(i, m, qs);
      }
    } else {
      var qs := FindWaste(i, m);
    }
  }
}
