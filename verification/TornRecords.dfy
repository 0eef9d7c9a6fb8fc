/** What a record looks like in the buffer when allocations failed while it was written:
    pieces of its head and of the heads of its metas are missing. */
module TornRecords {
  import opened Blocks
  import opened RecordFormat
  import opened RecordRoundTrip

  function HeadOf(ms: seq<Meta>, i: nat): (h: seq<byte>)
    requires i < |ms|
    ensures |h| == 5 + |ms[i].name|
  {
    MetaHead(ms[i], i + 1 < |ms|)
  }

  // The i-th meta with only `k` bytes of its head.
  function Piece(ms: seq<Meta>, i: nat, k: nat): seq<byte>
    requires i < |ms|
  {
    Take(HeadOf(ms, i), k) + ms[i].data
  }

  // The first `i` metas, with `ks` bytes of their heads.
  function Torn(ms: seq<Meta>, ks: seq<nat>, i: nat): seq<byte>
    requires i <= |ms| && i <= |ks|
  {
    if i == 0 then [] else Torn(ms, ks, i - 1) + Piece(ms, i - 1, ks[i - 1])
  }

  predicate Kept(ms: seq<Meta>, ks: seq<nat>) {
    |ks| <= |ms| && forall i :: 0 <= i < |ks| ==> ks[i] <= 5 + |ms[i].name|
  }

  predicate Whole(ms: seq<Meta>, ks: seq<nat>) {
    |ks| <= |ms| && forall i :: 0 <= i < |ks| ==> ks[i] == 5 + |ms[i].name|
  }

  lemma {:induction false} TornIs(ms: seq<Meta>, ks: seq<nat>, i: nat)
    requires 0 < i <= |ms| && i <= |ks|
    ensures Torn(ms, ks, i) == Torn(ms, ks, i - 1) + Piece(ms, i - 1, ks[i - 1])
  {
    hide Piece;
  }

  lemma {:induction false} TornMore(ms: seq<Meta>, ks: seq<nat>, k: nat, i: nat)
    requires i <= |ms| && i <= |ks|
    ensures Torn(ms, ks + [k], i) == Torn(ms, ks, i)
  {
    if i > 0 {
      TornMore(ms, ks, k, i - 1);
    }
  }

  // Whole heads make whole metas; anything less is shorter.
  lemma {:induction false} TornExactly(ms: seq<Meta>, ks: seq<nat>, i: nat)
    requires i <= |ks| && Kept(ms, ks)
    ensures var n := |Torn(ms, ks, i)| + |EncodeMetas(ms[i..])|;
      && n <= |EncodeMetas(ms)| && (n == |EncodeMetas(ms)| <==> Whole(ms, ks[..i]))
    ensures Whole(ms, ks[..i]) ==> Torn(ms, ks, i) + EncodeMetas(ms[i..]) == EncodeMetas(ms)
  {
    hide EncodeMetas, MetaHead, Piece;
    if i == 0 {
      assert ms[0..] == ms;
    } else {
      TornExactly(ms, ks, i - 1);
      MetasTail(ms, i - 1);
      WholeStep(ms, ks, i);
      TornStep(ms, ks, i);
      hide Torn, Whole;
      Assoc(Torn(ms, ks, i - 1), HeadOf(ms, i - 1) + ms[i - 1].data, EncodeMetas(ms[i..]));
    }
  }

  lemma {:induction false} WholeStep(ms: seq<Meta>, ks: seq<nat>, i: nat)
    requires 0 < i <= |ks| <= |ms|
    ensures Whole(ms, ks[..i]) <==> Whole(ms, ks[..i - 1]) && ks[i - 1] == 5 + |ms[i - 1].name|
  {
    var a, b := ks[..i], ks[..i - 1];
    assert forall j :: 0 <= j < i - 1 ==> a[j] == b[j] == ks[j];
    assert a[i - 1] == ks[i - 1];
  }

  lemma {:induction false} TornStep(ms: seq<Meta>, ks: seq<nat>, i: nat)
    requires 0 < i <= |ks| && Kept(ms, ks)
    ensures var h := HeadOf(ms, i - 1);
      && |Torn(ms, ks, i)| == |Torn(ms, ks, i - 1)| + ks[i - 1] + |ms[i - 1].data|
      && ks[i - 1] <= |h|
      && (ks[i - 1] == |h| ==> Torn(ms, ks, i) == Torn(ms, ks, i - 1) + (h + ms[i - 1].data))
  {
  }

  // The size the writer finds, should it not be negative.
  function FoundSize(room: seq<byte>, torn: seq<byte>, payload: seq<byte>): int {
    |room| + |torn| + |payload| - 9
  }

  // The first bytes of the record: its header, or what was in the room when there is no
  // handle to write it through.
  function Front(room: seq<byte>, size: nat, hasMetas: bool, handle: bool): seq<byte> {
    if handle then Header(size, hasMetas) else room
  }

  // The bytes are the record's exactly when nothing failed, and the header was written or
  // by chance was there.
  lemma {:induction false} WrittenExactly(c: seq<byte>, rec: Record, room: seq<byte>, ks: seq<nat>, handle: bool)
    requires |room| <= 9 && (handle ==> |room| == 9) && |ks| == |rec.metas| && Kept(rec.metas, ks)
    requires FoundSize(room, Torn(rec.metas, ks, |ks|), rec.payload) >= 0
    ensures
      var torn := Torn(rec.metas, ks, |ks|);
      var front := Front(room, FoundSize(room, torn, rec.payload), rec.metas != [], handle);
      c + front + torn + rec.payload == c + Encode(rec) <==>
        && |room| == 9 && Whole(rec.metas, ks)
        && (handle || room == Header(DataSize(rec), rec.metas != []))
  {
    hide EncodeMetas, HeadOf, Header, MetasSize, Torn, Whole;
    var torn := Torn(rec.metas, ks, |ks|);
    var front := Front(room, FoundSize(room, torn, rec.payload), rec.metas != [], handle);
    TornExactly(rec.metas, ks, |ks|);
    NoneLeft(rec.metas);
    assert ks[..|ks|] == ks;
    EncodedSize(rec.metas);
    var head, metas := Header(DataSize(rec), rec.metas != []), EncodeMetas(rec.metas);
    assert |c + front + torn + rec.payload| == |c| + |room| + |torn| + |rec.payload|;
    assert |c + Encode(rec)| == |c| + 9 + |metas| + |rec.payload|;
    assert torn + [] == torn;
    if |room| == 9 && Whole(rec.metas, ks) {
      SameFront(c, front, head, torn, rec.payload);
    }
  }

  lemma {:induction false} SameFront(c: seq<byte>, front: seq<byte>, head: seq<byte>, torn: seq<byte>, payload: seq<byte>)
    requires |front| == |head|
    ensures c + front + torn + payload == c + (head + torn + payload) <==> front == head
  {
    var x, y := c + front + torn + payload, c + (head + torn + payload);
    assert x[|c|..|c| + |front|] == front && y[|c|..|c| + |head|] == head;
  }

  lemma {:induction false} NoneLeft(ms: seq<Meta>)
    ensures EncodeMetas(ms[|ms|..]) == []
  {
    assert ms[|ms|..] == [];
  }
}
