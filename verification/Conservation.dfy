/** What the invariant that every operation keeps means for blocks and their owners. */
module Conservation {
  import opened Blocks
  import opened Ownership
  import opened BlockMemory

  // A block is live exactly as long as someone accounts for a share of it, and its count
  // is the number of refs to it plus its place in a chain.
  lemma {:induction false} LiveExactlyOwned(m: Memory, b: BlockId)
    requires m.Valid()
    ensures b in m.blocks <==> Total(m.held)[b] > 0
    ensures b in m.blocks ==> m.blocks[b].nshared == Total(m.held)[b]
  {
    hide Total, HoldingsOk, AllApart;
    assert b in Total(m.held) <==> Total(m.held)[b] > 0;
    if b in m.blocks {
      assert BlockOk(m.blocks[b]);
    }
  }

  // No ref of any buffer points at a freed block or past what was written to it.
  lemma {:induction false} NoDanglingRef(m: Memory, o: object, i: nat)
    requires m.Valid() && o in m.held && m.held[o].Queue? && i < |m.held[o].refs|
    ensures var r := m.held[o].refs[i];
      r.block in m.blocks && 0 < r.length && r.offset + r.length <= m.blocks[r.block].size <= m.blocks[r.block].cap
  {
    hide Ok;
    HeldRefOk(m.blocks, m.held, o, i);
  }

  // A block to append to is in one chain, once.
  lemma {:induction false} OneChainOnly(m: Memory, o: object, p: object, i: nat, j: nat)
    requires m.Valid() && o in m.held && p in m.held && m.held[o].Chain? && m.held[p].Chain?
    requires i < |m.held[o].ids| && j < |m.held[p].ids| && m.held[o].ids[i] == m.held[p].ids[j]
    ensures o == p && i == j
  {
    hide Total, CountedBy, BlocksOk;
    var b := m.held[o].ids[i];
    assert b in m.held[o].ids && b in m.held[p].ids;
    assert AllApart(m.held) && HoldingOk(m.held[o], m.blocks);
    Separate(m.held, o, p);
  }

  lemma {:induction false} Separate(held: Owners, o: object, p: object)
    requires AllApart(held) && o in held && p in held && held[o].Chain? && held[p].Chain?
    ensures o != p ==> forall b :: b in held[o].ids ==> b !in held[p].ids
  {
    assert o != p ==> Apart(held[o], held[p]);
  }
}
