/** RecordReader: cutting the next record off a buffer, and skipping to the next place
    where one may start. */
module RecordReaders {
  import opened Blocks
  import opened Ownership
  import opened BlockMemory
  import opened IOBufs
  import opened Cutters
  import opened RecordFormat

  // ---------- Where a record may start ----------

  predicate MagicAt(c: seq<byte>, i: nat) {
    i + 4 <= |c| && c[i..i + 4] == MAGIC
  }

  // The magic number that a failed record started with is not taken again.
  function Beginning(c: seq<byte>): nat {
    if MagicAt(c, 0) then 4 else 0
  }

  // `i` is the first place at or after `from` where the magic number stands.
  ghost predicate FirstMagic(c: seq<byte>, from: nat, i: nat) {
    from <= i && MagicAt(c, i) && forall j :: from <= j < i ==> !MagicAt(c, j)
  }

  ghost predicate NoMagic(c: seq<byte>, from: nat) {
    forall j :: from <= j ==> !MagicAt(c, j)
  }

  // All that may be the beginning of a magic number that has yet to come.
  function Kept(c: seq<byte>, from: nat): nat {
    if from + 3 <= |c| then |c| - 3 else from
  }

  method FindMagic(b: seq<byte>) returns (i: nat)
    requires 4 <= |b|
    ensures i <= |b| - 3
    ensures i < |b| - 3 ==> MagicAt(b, i)
    ensures forall j :: 0 <= j < i ==> !MagicAt(b, j)
  {
    i := 0;
    var m := |b| + 1 - 4;
    while i < m
      invariant i <= m && forall j :: 0 <= j < i ==> !MagicAt(b, j)
    {
      if b[i..i + 4] == MAGIC {
        return;
      }
      i := i + 1;
    }
  }

  // A window on the bytes tells where the magic number stands among all of them.
  lemma {:induction false} MagicIn(c: seq<byte>, at: nat, b: seq<byte>, i: nat)
    requires at + |b| <= |c| && b == c[at..at + |b|] && i + 4 <= |b|
    ensures MagicAt(c, at + i) <==> MagicAt(b, i)
  {
    var x, y := c[at + i..at + i + 4], b[i..i + 4];
    assert x[0] == y[0] && x[1] == y[1] && x[2] == y[2] && x[3] == y[3];
    assert x == y;
  }

  lemma {:induction false} NoneUpTo(c: seq<byte>, from: nat, at: nat, b: seq<byte>, i: nat)
    requires from <= at && at + |b| <= |c| && b == c[at..at + |b|] && i + 3 <= |b|
    requires forall j :: from <= j < at ==> !MagicAt(c, j)
    requires forall j :: 0 <= j < i ==> !MagicAt(b, j)
    ensures forall j :: from <= j < at + i ==> !MagicAt(c, j)
  {
    forall j | from <= j < at + i ensures !MagicAt(c, j) {
      if at <= j {
        MagicIn(c, at, b, j - at);
      }
    }
  }

  class RecordReader {
    const cutter: IOBufCutter
    var ncut: nat

    constructor (cutter: IOBufCutter)
      ensures this.cutter == cutter && ncut == 0
    {
      this.cutter := cutter;
      ncut := 0;
    }

    // The first candidate is found however the bytes are spread over blocks and over
    // the windows of 512 bytes; without one, at most three bytes are kept.
    method CutUntilNextRecordCandidate() returns (found: bool)
      requires cutter.Valid()
      modifies this, cutter, cutter.buf, cutter.buf.mem`blocks, cutter.buf.mem`nblock, cutter.buf.mem`held
      ensures cutter.Valid() && cutter.buf.Ring() <= old(cutter.buf.Ring())
      ensures var c, at := old(cutter.Remaining()), ncut - old(ncut);
        && 0 <= at <= |c| && cutter.Remaining() == c[at..]
        && (|c| < 4 ==> !found && at == 0)
        && (|c| >= 4 && found ==> FirstMagic(c, Beginning(c), at))
        && (|c| >= 4 && !found ==> NoMagic(c, Beginning(c)) && at == Kept(c, Beginning(c)))
      ensures Isolated(old(cutter.buf.mem.blocks), old(cutter.buf.mem.held), cutter.buf.mem.blocks, cutter.buf.mem.held, {cutter.buf})
    {
      hide Ok, Isolated, IOBufCutter.Valid, IOBufCutter.Remaining, MagicAt;
      ghost var s, held, c := cutter.buf.mem.blocks, cutter.buf.mem.held, cutter.Remaining();
      var magic := cutter.CopyTo(4);
      if |magic| != 4 {
        return false;
      }
      ghost var at: nat := 0;
      Starts(c, magic);
      if magic == MAGIC {
        ghost var t, held' := cutter.buf.mem.blocks, cutter.buf.mem.held;
        var popped := cutter.PopFront(4);
        IsolatedTrans(s, held, t, held', cutter.buf.mem.blocks, cutter.buf.mem.held, {cutter.buf});
        ncut := ncut + 4;
        at := 4;
      }
      found := Scan(c, at, old(ncut), s, held);
    }

    static lemma {:induction false} Starts(c: seq<byte>, magic: seq<byte>)
      requires |c| >= 4 && magic == c[..4]
      ensures MagicAt(c, 0) <==> magic == MAGIC
    {
      assert c[0..4] == c[..4];
    }

    method Scan(ghost c: seq<byte>, ghost from: nat, ghost base: nat, ghost s: Store, ghost held: Owners) returns (found: bool)
      requires cutter.Valid() && from <= |c| && cutter.Remaining() == c[from..] && ncut == base + from
      requires Isolated(s, held, cutter.buf.mem.blocks, cutter.buf.mem.held, {cutter.buf})
      modifies this, cutter, cutter.buf, cutter.buf.mem`blocks, cutter.buf.mem`nblock, cutter.buf.mem`held
      ensures cutter.Valid() && cutter.buf.Ring() <= old(cutter.buf.Ring())
      ensures base <= ncut <= base + |c| && cutter.Remaining() == c[ncut - base..]
      ensures found ==> FirstMagic(c, from, ncut - base)
      ensures !found ==> NoMagic(c, from) && ncut - base == Kept(c, from)
      ensures Isolated(s, held, cutter.buf.mem.blocks, cutter.buf.mem.held, {cutter.buf})
    {
      hide Ok, Isolated, IOBufCutter.Valid, IOBufCutter.Remaining, MagicAt;
      ghost var at: nat := from;
      while true
        invariant cutter.Valid() && cutter.buf.Ring() <= old(cutter.buf.Ring())
        invariant from <= at <= |c| && ncut == base + at && cutter.Remaining() == c[at..]
        invariant at > from ==> at + 3 <= |c|
        invariant forall j :: from <= j < at ==> !MagicAt(c, j)
        invariant Isolated(s, held, cutter.buf.mem.blocks, cutter.buf.mem.held, {cutter.buf})
        decreases |c| - at
      {
        ghost var t, held' := cutter.buf.mem.blocks, cutter.buf.mem.held;
        var b := cutter.CopyTo(512);
        IsolatedTrans(s, held, t, held', cutter.buf.mem.blocks, cutter.buf.mem.held, {cutter.buf});
        if |b| < 4 {
          TooFew(c, from, at);
          return false;
        }
        assert b == c[at..at + |b|];
        var i := FindMagic(b);
        NoneUpTo(c, from, at, b, i);
        ghost var u, held'' := cutter.buf.mem.blocks, cutter.buf.mem.held;
        var popped := cutter.PopFront(i);
        IsolatedTrans(s, held, u, held'', cutter.buf.mem.blocks, cutter.buf.mem.held, {cutter.buf});
        DropDrop(c, at, i);
        ncut := ncut + i;
        if i < |b| + 1 - 4 {
          MagicIn(c, at, b, i);
          return true;
        }
        at := at + i;
        if |b| < 512 {
          TooFew(c, from, at);
          return false;
        }
      }
    }

    static lemma {:induction false} TooFew(c: seq<byte>, from: nat, at: nat)
      requires from <= at <= |c| < at + 4 && forall j :: from <= j < at ==> !MagicAt(c, j)
      ensures NoMagic(c, from)
    {
    }

    // Cut a string or an integer off the front.
    method Take(n: nat, ghost s: Store, ghost held: Owners) returns (b: seq<byte>)
      requires cutter.Valid() && Isolated(s, held, cutter.buf.mem.blocks, cutter.buf.mem.held, {cutter.buf})
      modifies cutter, cutter.buf, cutter.buf.Ring(), cutter.buf.mem`blocks, cutter.buf.mem`nblock, cutter.buf.mem`held
      ensures cutter.Valid() && cutter.buf.Ring() <= old(cutter.buf.Ring())
      ensures b == RecordFormat.Take(old(cutter.Remaining()), n)
      ensures cutter.Remaining() == Drop(old(cutter.Remaining()), n)
      ensures Isolated(s, held, cutter.buf.mem.blocks, cutter.buf.mem.held, {cutter.buf})
    {
      hide Ok, Isolated, IOBufCutter.Valid, IOBufCutter.Remaining;
      ghost var t, held', c := cutter.buf.mem.blocks, cutter.buf.mem.held, cutter.Remaining();
      b := cutter.CutBytes(n);
      IsolatedTrans(s, held, t, held', cutter.buf.mem.blocks, cutter.buf.mem.held, {cutter.buf});
      assert c[..|c|] == c && c[|c|..] == [];
    }

    // The name of a meta and its flagged size; `tmp` is the last size read.
    static ghost predicate HeadCut(c: seq<byte>, tmp: nat, name: seq<byte>, nameSize: nat, tmp': nat, rest: seq<byte>) {
      c != [] && nameSize == c[0] as int && name == RecordFormat.Take(c[1..], nameSize)
      && var c1 := Drop(c[1..], nameSize);
      var b := RecordFormat.Take(c1, 4);
      tmp' == Host32(b + Memory32(tmp)[|b|..]) && rest == Drop(c1, 4)
    }

    method CutHead(tmp: nat, ghost s: Store, ghost held: Owners)
      returns (ok: bool, name: seq<byte>, nameSize: nat, tmp': nat)
      requires cutter.Valid() && Isolated(s, held, cutter.buf.mem.blocks, cutter.buf.mem.held, {cutter.buf})
      modifies cutter, cutter.buf, cutter.buf.Ring(), cutter.buf.mem`blocks, cutter.buf.mem`nblock, cutter.buf.mem`held
      ensures cutter.Valid() && cutter.buf.Ring() <= old(cutter.buf.Ring())
      ensures ok <==> old(cutter.Remaining()) != []
      ensures ok ==> HeadCut(old(cutter.Remaining()), tmp, name, nameSize, tmp', cutter.Remaining())
      ensures !ok ==> cutter.Remaining() == []
      ensures Isolated(s, held, cutter.buf.mem.blocks, cutter.buf.mem.held, {cutter.buf})
    {
      hide Ok, Isolated, IOBufCutter.Valid, IOBufCutter.Remaining, RecordFormat.Take, Drop, Host32, Memory32;
      ghost var t, held' := cutter.buf.mem.blocks, cutter.buf.mem.held;
      var first := cutter.Cut1();
      IsolatedTrans(s, held, t, held', cutter.buf.mem.blocks, cutter.buf.mem.held, {cutter.buf});
      if |first| == 0 {
        return false, [], 0, tmp;
      }
      ok, nameSize := true, first[0] as int;
      name := Take(nameSize, s, held);
      var b := Take(4, s, held);
      tmp' := Host32(b + Memory32(tmp)[|b|..]);
    }

    // What follows from the head of a meta.
    static lemma {:induction false} AfterHead(c: seq<byte>, tmp: nat, size: nat, consumed: nat, metas: seq<Meta>, ncut: nat,
                                              name: seq<byte>, nameSize: nat, tmp': nat, rest: seq<byte>)
      requires consumed <= size && HeadCut(c, tmp, name, nameSize, tmp', rest)
      ensures |rest| < |c|
      ensures CutMetas(c, tmp, size, consumed, metas, ncut)
           == var metaSize := tmp' % SIZE_LIMIT;
              var total := consumed + 5 + nameSize + metaSize;
              if total > size || Refused(metas, name) then Cut(-1, Record(metas, []), rest, ncut + 5 + nameSize)
              else AfterMeta(Drop(rest, metaSize), tmp', size, total, metas + [Meta(name, RecordFormat.Take(rest, metaSize))],
                             ncut + 5 + nameSize + metaSize)
    {
      hide RecordFormat.Take, Drop, Host32, Memory32, Refused;
    }

    static ghost function AfterMeta(c: seq<byte>, tmp: nat, size: nat, consumed: nat, metas: seq<Meta>, ncut: nat): Cut
      requires consumed <= size
    {
      if tmp >= SIZE_LIMIT then CutMetas(c, tmp, size, consumed, metas, ncut)
      else Payload(c, size - consumed, metas, ncut)
    }

    // One meta. `size` is what the record may hold, `consumed` what its metas have taken.
    method CutMeta(tmp: nat, size: nat, consumed: nat, metas: seq<Meta>, ghost s: Store, ghost held: Owners)
      returns (rc: int, tmp': nat, consumed': nat, metas': seq<Meta>)
      requires cutter.Valid() && consumed <= size
      requires Isolated(s, held, cutter.buf.mem.blocks, cutter.buf.mem.held, {cutter.buf})
      modifies this, cutter, cutter.buf, cutter.buf.Ring(), cutter.buf.mem`blocks, cutter.buf.mem`nblock, cutter.buf.mem`held
      ensures cutter.Valid() && cutter.buf.Ring() <= old(cutter.buf.Ring())
      ensures rc == 1 ==> consumed' <= size && |cutter.Remaining()| < |old(cutter.Remaining())|
      ensures CutMetas(old(cutter.Remaining()), tmp, size, consumed, metas, old(ncut))
           == if rc != 1 then Cut(rc, Record(metas', []), cutter.Remaining(), ncut)
              else AfterMeta(cutter.Remaining(), tmp', size, consumed', metas', ncut)
      ensures Isolated(s, held, cutter.buf.mem.blocks, cutter.buf.mem.held, {cutter.buf})
    {
      hide Ok, Isolated, IOBufCutter.Valid, IOBufCutter.Remaining, RecordFormat.Take, Drop, Refused, HeadCut, AfterMeta, CutMetas;
      ghost var c := cutter.Remaining();
      NothingLeft(tmp, size, consumed, metas, ncut);
      var ok, name, nameSize;
      ok, name, nameSize, tmp' := CutHead(tmp, s, held);
      consumed', metas' := consumed, metas;
      if !ok {
        return ABORT, tmp', consumed', metas';
      }
      AfterHead(c, tmp, size, consumed, metas, ncut, name, nameSize, tmp', cutter.Remaining());
      var metaSize := tmp' % SIZE_LIMIT;
      ncut := ncut + 5 + nameSize;
      if consumed + 5 + nameSize + metaSize > size || Refused(metas, name) {
        return -1, tmp', consumed', metas';
      }
      var data := Take(metaSize, s, held);
      metas' := metas + [Meta(name, data)];
      ncut := ncut + metaSize;
      consumed' := consumed + 5 + nameSize + metaSize;
      rc := 1;
    }

    static lemma {:induction false} NothingLeft(tmp: nat, size: nat, consumed: nat, metas: seq<Meta>, ncut: nat)
      requires consumed <= size
      ensures CutMetas([], tmp, size, consumed, metas, ncut) == Cut(ABORT, Record(metas, []), [], ncut)
    {
    }

    static function Payload(c: seq<byte>, n: nat, metas: seq<Meta>, ncut: nat): Cut {
      Cut(1, Record(metas, RecordFormat.Take(c, n)), Drop(c, n), ncut + n)
    }

    // The metas, if any, and the payload.
    method CutBody(tmp: nat, size: nat, ghost s: Store, ghost held: Owners) returns (rc: int, rec: Record)
      requires cutter.Valid() && size == tmp % SIZE_LIMIT
      requires Isolated(s, held, cutter.buf.mem.blocks, cutter.buf.mem.held, {cutter.buf})
      modifies this, cutter, cutter.buf, cutter.buf.Ring(), cutter.buf.mem`blocks, cutter.buf.mem`nblock, cutter.buf.mem`held
      ensures cutter.Valid() && cutter.buf.Ring() <= old(cutter.buf.Ring())
      ensures Cut(rc, rec, cutter.Remaining(), ncut) == AfterMeta(old(cutter.Remaining()), tmp, size, 0, [], old(ncut))
      ensures Isolated(s, held, cutter.buf.mem.blocks, cutter.buf.mem.held, {cutter.buf})
    {
      hide Ok, Isolated, IOBufCutter.Valid, IOBufCutter.Remaining, RecordFormat.Take, Drop, CutMetas;
      var left, consumed, metas: seq<Meta> := tmp, 0, [];
      ghost var goal := AfterMeta(cutter.Remaining(), tmp, size, 0, [], ncut);
      while left >= SIZE_LIMIT
        invariant cutter.Valid() && cutter.buf.Ring() <= old(cutter.buf.Ring()) && 0 <= consumed <= size && 0 <= left
        invariant goal == AfterMeta(cutter.Remaining(), left, size, consumed, metas, ncut)
        invariant Isolated(s, held, cutter.buf.mem.blocks, cutter.buf.mem.held, {cutter.buf})
        decreases |cutter.Remaining()|
      {
        rc, left, consumed, metas := CutMeta(left, size, consumed, metas, s, held);
        if rc != 1 {
          return rc, Record(metas, []);
        }
      }
      var payload := Take(size - consumed, s, held);
      ncut := ncut + size - consumed;
      return 1, Record(metas, payload);
    }

    // Whatever the bytes and however they are spread over blocks, the method does what
    // the format says.
    method CutRecord(rec: Record, maxSize: nat) returns (rc: int, rec': Record)
      requires cutter.Valid()
      modifies this, cutter, cutter.buf, cutter.buf.Ring(), cutter.buf.mem`blocks, cutter.buf.mem`nblock, cutter.buf.mem`held
      ensures cutter.Valid() && cutter.buf.Ring() <= old(cutter.buf.Ring())
      ensures Cut(rc, rec', cutter.Remaining(), ncut)
           == RecordFormat.CutRecord(old(cutter.Remaining()), rec, old(ncut), maxSize)
      ensures Isolated(old(cutter.buf.mem.blocks), old(cutter.buf.mem.held), cutter.buf.mem.blocks, cutter.buf.mem.held, {cutter.buf})
    {
      hide Ok, Isolated, IOBufCutter.Valid, IOBufCutter.Remaining, RecordFormat.Take, Drop, CutMetas, Host32, SizeChecksum,
        IOBufCutter.RemainingBytes;
      ghost var s, held, c := cutter.buf.mem.blocks, cutter.buf.mem.held, cutter.Remaining();
      var head := cutter.CopyTo(9);
      if |head| != 9 {
        return 0, rec;
      }
      HeadOf(c, head);
      if head[..4] != MAGIC {
        return -1, rec;
      }
      var tmp := Host32(head[4..8]);
      var size := tmp % SIZE_LIMIT;
      if SizeChecksum(tmp) != head[8] {
        return -1, rec;
      }
      if size > maxSize {
        return -1, rec;
      }
      if cutter.RemainingBytes() < size {
        return 0, rec;
      }
      ghost var t, held' := cutter.buf.mem.blocks, cutter.buf.mem.held;
      var popped := cutter.PopFront(9);
      IsolatedTrans(s, held, t, held', cutter.buf.mem.blocks, cutter.buf.mem.held, {cutter.buf});
      ncut := ncut + 9;
      rc, rec' := CutBody(tmp, size, s, held);
    }

    static lemma {:induction false} HeadOf(c: seq<byte>, head: seq<byte>)
      requires |c| >= 9 && head == c[..9]
      ensures head[..4] == c[..4] && head[4..8] == c[4..8] && head[8] == c[8]
    {
    }
  }
}
