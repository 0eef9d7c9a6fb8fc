/** The process-wide state shared by all IOBufs: the live blocks and the counter
    of default blocks. `held` records, for the proofs, what every IOBuf, thread and
    IOPortal holds. */
module BlockMemory {
  import opened Blocks
  import opened Ownership

  lemma FreshIdExists(s: set<BlockId>)
    ensures exists b: BlockId :: b != NULL && b !in s
  {
    var big := Above(s);
    assert big !in s;
  }

  ghost function Above(s: set<BlockId>): (b: BlockId)
    ensures b != NULL && forall x :: x in s ==> x < b
  {
    if s == {} then 1 else
      var x :| x in s;
      var b := Above(s - {x});
      assert forall y :: y in s ==> y == x || y in s - {x};
      if x < b then b else x + 1
  }

  class Memory {
    var blocks: Store
    var nblock: nat
    ghost var held: Owners

    // How many allocations have failed so far.
    ghost var oom: nat

    // The counter equals the number of live blocks that carry no user data.
    ghost predicate Tallied()
      reads this`blocks, this`nblock
    {
      nblock == |Defaults(blocks)|
    }

    ghost predicate Valid()
      reads this
    {
      Ok(blocks, held) && Tallied()
    }

    lemma Parts()
      requires Valid()
      ensures Ok(blocks, held) && Tallied()
    {
    }

    lemma Assembled()
      requires Ok(blocks, held) && Tallied()
      ensures Valid()
    {
    }

    constructor ()
      ensures Valid() && blocks == map[] && held == map[]
    {
      blocks, nblock, held, oom := map[], 0, map[], 0;
    }

    method IncRef(b: BlockId)
      requires b in blocks && Tallied()
      modifies this`blocks
      ensures blocks == Inc(old(blocks), b) && Tallied()
    {
      blocks := Inc(blocks, b);
      assert Defaults(blocks) == Defaults(old(blocks));
    }

    // The block is freed with its last share.
    method DecRef(b: BlockId)
      requires b in blocks && Tallied()
      modifies this`blocks, this`nblock
      ensures blocks == Dec(old(blocks), b) && Tallied()
    {
      if blocks[b].nshared == 1 {
        if !blocks[b].user {
          assert b in Defaults(blocks) && Defaults(blocks - {b}) == Defaults(blocks) - {b};
          nblock := nblock - 1;
        } else {
          assert Defaults(blocks - {b}) == Defaults(blocks);
        }
        blocks := blocks - {b};
      } else {
        assert Defaults(Dec(blocks, b)) == Defaults(blocks);
        blocks := Dec(blocks, b);
      }
    }

    method SetNext(b: BlockId, next: BlockId)
      requires b in blocks && Tallied()
      modifies this`blocks
      ensures blocks == old(blocks)[b := old(blocks)[b].(next := next)] && Tallied()
    {
      blocks := blocks[b := blocks[b].(next := next)];
      assert Defaults(blocks) == Defaults(old(blocks));
    }

    // memcpy into a block; who may see the bytes is up to the caller.
    method Write(b: BlockId, at: nat, bytes: seq<byte>)
      requires b in blocks && at + |bytes| <= |blocks[b].data| && Tallied()
      modifies this`blocks
      ensures blocks == old(blocks)[b := old(blocks)[b].(data := Overwrite(old(blocks)[b].data, at, bytes))]
      ensures Tallied()
    {
      blocks := blocks[b := blocks[b].(data := Overwrite(blocks[b].data, at, bytes))];
      assert Defaults(blocks) == Defaults(old(blocks));
    }

    method SetSize(b: BlockId, size: nat)
      requires b in blocks && Tallied()
      modifies this`blocks
      ensures blocks == old(blocks)[b := old(blocks)[b].(size := size)] && Tallied()
    {
      blocks := blocks[b := blocks[b].(size := size)];
      assert Defaults(blocks) == Defaults(old(blocks));
    }

    // malloc may fail, and the bytes of new memory are arbitrary.
    method CreateBlock() returns (b: BlockId)
      requires NULL !in blocks && Tallied()
      modifies this`blocks, this`nblock, this`oom
      ensures Tallied() && oom == old(oom) + (if b == NULL then 1 else 0)
      ensures b == NULL ==> blocks == old(blocks)
      ensures b != NULL ==>
        && b !in old(blocks)
        && b in blocks && |blocks[b].data| == DEFAULT_CAP
        && blocks == old(blocks)[b := Block(1, false, 0, DEFAULT_CAP, NULL, blocks[b].data)]
    {
      if * {
        oom := oom + 1;
        return NULL;
      }
      FreshIdExists(blocks.Keys);
      b :| b != NULL && b !in blocks;
      assert |seq(DEFAULT_CAP, _ => 0 as byte)| == DEFAULT_CAP;
      var data: seq<byte> :| |data| == DEFAULT_CAP;
      assert Defaults(blocks[b := Block(1, false, 0, DEFAULT_CAP, NULL, data)]) == Defaults(blocks) + {b};
      blocks := blocks[b := Block(1, false, 0, DEFAULT_CAP, NULL, data)];
      nblock := nblock + 1;
    }

    method CreateUserBlock(data: seq<byte>) returns (b: BlockId)
      requires NULL !in blocks && Tallied()
      modifies this`blocks, this`oom
      ensures Tallied() && oom == old(oom) + (if b == NULL then 1 else 0)
      ensures b == NULL ==> blocks == old(blocks)
      ensures b != NULL ==>
        && b !in old(blocks)
        && blocks == old(blocks)[b := Block(1, true, |data|, |data|, NULL, data)]
    {
      if * {
        oom := oom + 1;
        return NULL;
      }
      FreshIdExists(blocks.Keys);
      b :| b != NULL && b !in blocks;
      blocks := blocks[b := Block(1, true, |data|, |data|, NULL, data)];
      assert Defaults(blocks) == Defaults(old(blocks));
    }
  }
}
