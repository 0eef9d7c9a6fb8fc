/** The memory behind every IOBuf: reference-counted blocks, the refs that point
    into them, and who owns them. Everything here is a value; the classes that
    change memory in place are in BlockMemory.dfy and IOBuf.dfy. */
module Blocks {

  type byte = bv8

  // The address of a block; 0 is the null pointer.
  type BlockId = nat

  const NULL: BlockId := 0

  // Three refs into blocks of less than this have a 32-bit sum, and offsets in them are
  // not taken for the sign of a ring.
  const CAP_LIMIT: nat := 0x5555_5556

  // DEFAULT_BLOCK_SIZE minus the 32-byte block header.
  const DEFAULT_CAP: nat := 8192 - 32

  datatype Block = Block(nshared: int, user: bool, size: nat, cap: nat, next: BlockId, data: seq<byte>)
  {
    predicate Full() {
      size >= cap
    }
  }

  datatype BlockRef = BlockRef(offset: nat, length: nat, block: BlockId)

  const NULL_REF := BlockRef(0, 0, NULL)

  // The live blocks.
  type Store = map<BlockId, Block>

  // What one owner holds: an IOBuf a queue of refs (kept in `ring` when it is
  // big), a thread or an IOPortal a chain of blocks to append into.
  datatype Holding = Queue(refs: seq<BlockRef>, ring: object?) | Chain(ids: seq<BlockId>)

  type Owners = map<object, Holding>

  // ---------- Reference counting ----------

  function Inc(s: Store, b: BlockId): Store
    requires b in s
  {
    s[b := s[b].(nshared := s[b].nshared + 1)]
  }

  function Dec(s: Store, b: BlockId): Store
    requires b in s
  {
    if s[b].nshared == 1 then s - {b} else s[b := s[b].(nshared := s[b].nshared - 1)]
  }

  function IdsOf(refs: seq<BlockRef>): (ids: seq<BlockId>)
    ensures |ids| == |refs|
  {
    seq(|refs|, i requires 0 <= i < |refs| => refs[i].block)
  }

  // The references one owner accounts for.
  function Owned(h: Holding): multiset<BlockId> {
    match h
    case Queue(refs, _) => multiset(IdsOf(refs))
    case Chain(ids) => multiset(ids)
  }

  // The references all owners together account for.
  ghost function Total(held: Owners): multiset<BlockId>
    decreases held.Keys
  {
    if held == map[] then multiset{} else
      var o :| o in held;
      Owned(held[o]) + Total(held - {o})
  }

  lemma {:induction false} TotalSplit(held: Owners, o: object)
    requires o in held
    ensures Total(held) == Owned(held[o]) + Total(held - {o})
    decreases held.Keys
  {
    var p :| p in held && Total(held) == Owned(held[p]) + Total(held - {p});
    if p != o {
      var rest := held - {p} - {o};
      assert rest == held - {o} - {p};
      TotalSplit(held - {p}, o);
      TotalSplit(held - {o}, p);
      Swap(Owned(held[p]), Owned(held[o]), Total(rest));
    }
  }

  lemma {:induction false} Swap(a: multiset<BlockId>, b: multiset<BlockId>, c: multiset<BlockId>)
    ensures a + (b + c) == b + (a + c)
  {
  }

  lemma {:induction false} TotalAdd(held: Owners, o: object, h: Holding)
    requires o !in held
    ensures Total(held[o := h]) == Total(held) + Owned(h)
  {
    TotalSplit(held[o := h], o);
    assert held[o := h] - {o} == held;
  }

  lemma {:induction false} TotalUpdate(held: Owners, o: object, h: Holding)
    requires o in held
    ensures forall b :: Total(held[o := h])[b] + Owned(held[o])[b] == Total(held)[b] + Owned(h)[b]
  {
    var rest := held - {o};
    TotalSplit(held[o := h], o);
    TotalSplit(held, o);
    assert held[o := h] - {o} == rest;
  }

  // ---------- The invariant ----------

  ghost predicate BlockOk(b: Block) {
    && 0 < b.nshared
    && b.size <= b.cap == |b.data|
    && 0 < b.cap < CAP_LIMIT
    && (if b.user then b.Full() else b.cap == DEFAULT_CAP)
  }

  predicate RefOk(r: BlockRef, s: Store) {
    && r.block in s
    && 0 < r.length
    && r.offset + r.length <= s[r.block].size
  }

  ghost predicate RefsOk(refs: seq<BlockRef>, s: Store) {
    forall i :: 0 <= i < |refs| ==> RefOk(refs[i], s)
  }

  function After(ids: seq<BlockId>, i: nat): BlockId {
    if i + 1 < |ids| then ids[i + 1] else NULL
  }

  // The blocks of a chain are distinct and linked through `next` in order.
  ghost predicate ChainOk(ids: seq<BlockId>, s: Store) {
    && (forall i :: 0 <= i < |ids| ==> ids[i] in s && !s[ids[i]].user)
    && (forall i, j :: 0 <= i < j < |ids| ==> ids[i] != ids[j])
    && (forall i :: 0 <= i < |ids| ==> s[ids[i]].next == After(ids, i))
  }

  ghost predicate HoldingOk(h: Holding, s: Store) {
    match h
    case Queue(refs, _) => RefsOk(refs, s)
    case Chain(ids) => ChainOk(ids, s)
  }

  // Two owners never append into the same block and never share a ring array.
  ghost predicate Apart(g: Holding, h: Holding) {
    && (g.Queue? && h.Queue? && g.ring != null ==> g.ring != h.ring)
    && (g.Chain? && h.Chain? ==> forall b :: b in g.ids ==> b !in h.ids)
  }

  ghost predicate CountedBy(s: Store, total: multiset<BlockId>) {
    && (forall b :: b in s ==> s[b].nshared == total[b])
    && (forall b :: b in total ==> b in s)
  }

  ghost predicate BlocksOk(s: Store) {
    && NULL !in s
    && forall b :: b in s ==> BlockOk(s[b])
  }

  ghost predicate HoldingsOk(s: Store, held: Owners) {
    forall o :: o in held ==> HoldingOk(held[o], s)
  }

  ghost predicate AllApart(held: Owners) {
    forall o, p :: o in held && p in held && o != p ==> Apart(held[o], held[p])
  }

  // Every block is alive exactly while someone owns it, every ref lies within the
  // written part of a live block, and no two owners append into one block.
  ghost predicate Ok(s: Store, held: Owners) {
    && BlocksOk(s)
    && HoldingsOk(s, held)
    && AllApart(held)
    && CountedBy(s, Total(held))
  }

  function Defaults(s: Store): set<BlockId> {
    set b | b in s && !s[b].user
  }

  lemma {:induction false} OwnedWithinTotal(held: Owners, o: object)
    requires o in held
    ensures Owned(held[o]) <= Total(held)
  {
    TotalSplit(held, o);
  }

  // ---------- Bytes ----------

  function Overwrite(data: seq<byte>, at: nat, bytes: seq<byte>): (d: seq<byte>)
    requires at + |bytes| <= |data|
    ensures |d| == |data|
  {
    data[..at] + bytes + data[at + |bytes|..]
  }

  function Slice(r: BlockRef, s: Store): (bytes: seq<byte>)
    ensures RefOk(r, s) && r.offset + r.length <= |s[r.block].data| ==> |bytes| == r.length
  {
    if r.block in s && r.offset + r.length <= |s[r.block].data|
    then s[r.block].data[r.offset..r.offset + r.length] else []
  }

  // The byte sequence a queue of refs stands for.
  function Bytes(refs: seq<BlockRef>, s: Store): seq<byte> {
    if refs == [] then [] else Slice(refs[0], s) + Bytes(refs[1..], s)
  }

  function SumLengths(refs: seq<BlockRef>): nat {
    if refs == [] then 0 else refs[0].length + SumLengths(refs[1..])
  }

  lemma {:induction false} Assoc(a: seq<byte>, b: seq<byte>, c: seq<byte>)
    ensures (a + b) + c == a + (b + c)
  {
  }

  lemma {:induction false} BytesConcat(a: seq<BlockRef>, b: seq<BlockRef>, s: Store)
    ensures Bytes(a + b, s) == Bytes(a, s) + Bytes(b, s)
  {
    if a == [] {
      assert a + b == b;
    } else {
      var tail := a[1..];
      BytesConcat(tail, b, s);
      assert (a + b)[1..] == tail + b;
      Assoc(Slice(a[0], s), Bytes(tail, s), Bytes(b, s));
    }
  }

  lemma {:induction false} SumConcat(a: seq<BlockRef>, b: seq<BlockRef>)
    ensures SumLengths(a + b) == SumLengths(a) + SumLengths(b)
  {
    if a == [] {
      assert a + b == b;
    } else {
      assert (a + b)[1..] == a[1..] + b;
      SumConcat(a[1..], b);
    }
  }

  lemma {:induction false} BytesOne(r: BlockRef, s: Store)
    ensures Bytes([r], s) == Slice(r, s)
  {
    assert Bytes([r], s) == Slice(r, s) + Bytes([], s);
  }

  lemma {:induction false} BytesSnoc(a: seq<BlockRef>, r: BlockRef, s: Store)
    ensures Bytes(a + [r], s) == Bytes(a, s) + Slice(r, s)
  {
    BytesConcat(a, [r], s);
    BytesOne(r, s);
  }

  lemma {:induction false} BytesLength(refs: seq<BlockRef>, s: Store)
    requires RefsOk(refs, s) && BlocksOk(s)
    ensures |Bytes(refs, s)| == SumLengths(refs)
  {
    if refs != [] {
      assert RefOk(refs[0], s);
      assert RefsOk(refs[1..], s) by {
        forall i | 0 <= i < |refs[1..]| ensures RefOk(refs[1..][i], s) { assert RefOk(refs[i + 1], s); }
      }
      BytesLength(refs[1..], s);
    }
  }

  lemma {:induction false} BytesSame(refs: seq<BlockRef>, s: Store, t: Store)
    requires forall i :: 0 <= i < |refs| ==> Slice(refs[i], s) == Slice(refs[i], t)
    ensures Bytes(refs, s) == Bytes(refs, t)
  {
    if refs != [] {
      forall i | 0 <= i < |refs[1..]| ensures Slice(refs[1..][i], s) == Slice(refs[1..][i], t) {
        assert refs[1..][i] == refs[i + 1];
      }
      BytesSame(refs[1..], s, t);
    }
  }
}
