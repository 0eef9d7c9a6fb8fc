/** The intrusive binary heap: elements know their own place, so that any of them can be
    taken out. */
module MinHeaps {
  class Elem {
    const key: int
    var heapIdx: int

    constructor (key: int)
      ensures this.key == key && heapIdx == -1
    {
      this.key, this.heapIdx := key, -1;
    }
  }

  function Parent(i: nat): nat
    requires i > 0
  {
    (i - 1) / 2
  }

  // ---------- Order ----------

  predicate Above(h: seq<Elem>, i: nat)
    requires 0 < i < |h|
  {
    h[Parent(i)].key <= h[i].key
  }

  ghost predicate Ordered(h: seq<Elem>) {
    forall i :: 0 < i < |h| ==> Above(h, i)
  }

  // The element at `x` may be too small for its place.
  ghost predicate UpOk(h: seq<Elem>, x: nat) {
    && (forall i :: 0 < i < |h| && i != x ==> Above(h, i))
    && (forall i :: 0 < i < |h| && Parent(i) == x && 0 < x < |h| ==> h[Parent(x)].key <= h[i].key)
  }

  // The element at `x` may be too large for its place.
  ghost predicate DownOk(h: seq<Elem>, x: nat) {
    && (forall i :: 0 < i < |h| && Parent(i) != x ==> Above(h, i))
    && (forall i :: 0 < i < |h| && Parent(i) == x && 0 < x < |h| ==> h[Parent(x)].key <= h[i].key)
  }

  function Swap(h: seq<Elem>, i: nat, j: nat): seq<Elem>
    requires i < |h| && j < |h|
  {
    h[i := h[j]][j := h[i]]
  }

  lemma {:induction false} SwapBag(h: seq<Elem>, i: nat, j: nat)
    requires i < |h| && j < |h|
    ensures multiset(Swap(h, i, j)) == multiset(h)
  {
  }

  lemma {:induction false} UpStep(h: seq<Elem>, x: nat)
    requires 0 < x < |h| && UpOk(h, x) && h[x].key < h[Parent(x)].key
    ensures UpOk(Swap(h, x, Parent(x)), Parent(x))
  {
    var p := Parent(x);
    var h' := Swap(h, x, p);
    forall i | 0 < i < |h| && i != p ensures Above(h', i) {
      assert i != x ==> Above(h, i);
    }
    forall i | 0 < i < |h| && Parent(i) == p && 0 < p ensures h'[Parent(p)].key <= h'[i].key {
      assert Above(h, p) && (i != x ==> Above(h, i));
    }
  }

  lemma {:induction false} UpDone(h: seq<Elem>, x: nat)
    requires x < |h| && UpOk(h, x) && (x > 0 ==> h[Parent(x)].key <= h[x].key)
    ensures Ordered(h)
  {
  }

  // The smaller of the children of `x`.
  ghost predicate SmallerChild(h: seq<Elem>, x: nat, c: nat) {
    0 < c < |h| && Parent(c) == x && forall i :: 0 < i < |h| && Parent(i) == x ==> h[c].key <= h[i].key
  }

  lemma {:induction false} DownStep(h: seq<Elem>, x: nat, c: nat)
    requires x < |h| && DownOk(h, x) && SmallerChild(h, x, c) && h[c].key < h[x].key
    ensures DownOk(Swap(h, x, c), c)
  {
    var h' := Swap(h, x, c);
    forall i | 0 < i < |h| && Parent(i) != c ensures Above(h', i) {
      if Parent(i) != x {
        assert Above(h, i);
      }
    }
    forall i | 0 < i < |h| && Parent(i) == c ensures h'[Parent(c)].key <= h'[i].key {
      assert Above(h, i);
    }
  }

  lemma {:induction false} DownDone(h: seq<Elem>, x: nat)
    requires x < |h| && DownOk(h, x) && forall i :: 0 < i < |h| && Parent(i) == x ==> h[x].key <= h[i].key
    ensures Ordered(h)
  {
  }

  // In an ordered heap nothing is smaller than the root.
  lemma {:induction false} RootLeast(h: seq<Elem>, i: nat)
    requires Ordered(h) && i < |h|
    ensures h[0].key <= h[i].key
    decreases i
  {
    if i > 0 {
      assert Above(h, i);
      RootLeast(h, Parent(i));
    }
  }

  // Taking out the element at `k` and putting the last one in its place.
  function Without(h: seq<Elem>, k: nat): (h': seq<Elem>)
    requires k < |h|
    ensures |h'| == |h| - 1
  {
    var m := |h| - 1;
    if k < m then h[..m][k := h[m]] else h[..m]
  }

  lemma {:induction false} WithoutBag(h: seq<Elem>, k: nat)
    requires k < |h|
    ensures multiset(Without(h, k)) == multiset(h) - multiset{h[k]}
  {
    var m := |h| - 1;
    assert h == h[..m] + [h[m]];
  }

  lemma {:induction false} WithoutDown(h: seq<Elem>, k: nat)
    requires Ordered(h) && k < |h| - 1 && (k > 0 ==> h[Parent(k)].key <= h[|h| - 1].key)
    ensures DownOk(Without(h, k), k)
  {
    var h' := Without(h, k);
    forall i | 0 < i < |h'| && Parent(i) != k ensures Above(h', i) {
      assert Above(h, i);
    }
    forall i | 0 < i < |h'| && Parent(i) == k && 0 < k ensures h'[Parent(k)].key <= h'[i].key {
      assert Above(h, i) && Above(h, k);
    }
  }

  lemma {:induction false} WithoutUp(h: seq<Elem>, k: nat)
    requires Ordered(h) && 0 < k < |h| - 1 && h[|h| - 1].key < h[Parent(k)].key
    ensures UpOk(Without(h, k), k)
  {
    var h' := Without(h, k);
    forall i | 0 < i < |h'| && i != k ensures Above(h', i) {
      assert Above(h, i) && Above(h, k);
    }
    forall i | 0 < i < |h'| && Parent(i) == k ensures h'[Parent(k)].key <= h'[i].key {
      assert Above(h, i) && Above(h, k);
    }
  }

  // Every element but that at `x` knows its place; `e` is to go to `x`.
  ghost predicate Placed(h: seq<Elem>, x: nat, e: Elem)
    reads h
  {
    forall i :: 0 <= i < |h| && i != x ==> h[i].heapIdx == i && h[i] != e
  }

  ghost predicate Indexed(h: seq<Elem>)
    reads h
  {
    forall i :: 0 <= i < |h| ==> h[i].heapIdx == i
  }

  class MinHeap {
    // The slots in use, and the number allocated.
    var p: seq<Elem>
    var a: nat

    ghost predicate Valid()
      reads this, p
    {
      |p| <= a && Ordered(p) && Indexed(p)
    }

    constructor ()
      ensures Valid() && p == []
    {
      p, a := [], 0;
    }

    // The element in slot `c` moves to `x`, which leaves `c` for `e`.
    method MoveTo(x: nat, c: nat, y: Elem, e: Elem)
      requires x < |p| && c < |p| && c != x && y == p[c] && Placed(p, x, e)
      modifies this`p, y`heapIdx
      ensures p == old(p)[x := y] && Placed(p, c, e)
      ensures p[c := e] == Swap(old(p)[x := e], x, c)
    {
      p := p[x := y];
      y.heapIdx := x;
    }

    method PutAt(x: nat, e: Elem)
      requires x < |p| && Placed(p, x, e)
      modifies this`p, e`heapIdx
      ensures p == old(p)[x := e] && Indexed(p)
    {
      p := p[x := e];
      e.heapIdx := x;
    }

    method ShiftUp(hole: nat, e: Elem)
      requires hole < |p| && UpOk(p[hole := e], hole) && Placed(p, hole, e)
      modifies this`p, p, e
      ensures Ordered(p) && Indexed(p) && multiset(p) == multiset(old(p)[hole := e])
    {
      hide UpOk, Ordered, Placed, Indexed, Swap;
      ghost var elems := p;
      var x: nat := hole;
      while x > 0 && p[Parent(x)].key > e.key
        invariant x < |p| && UpOk(p[x := e], x) && Placed(p, x, e)
        invariant multiset(p[x := e]) == multiset(elems[hole := e])
        invariant forall i :: 0 <= i < |p| ==> p[i] in elems
      {
        UpStep(p[x := e], x);
        SwapBag(p[x := e], x, Parent(x));
        MoveTo(x, Parent(x), p[Parent(x)], e);
        x := Parent(x);
      }
      UpDone(p[x := e], x);
      PutAt(x, e);
    }

    // The children of `x` are at 2x+1 and, if it is there, 2x+2.
    method Smaller(x: nat, minChild: nat, ghost e: Elem) returns (c: nat)
      requires x < |p| && minChild == 2 * (x + 1) <= |p|
      ensures x < c < |p| && SmallerChild(p[x := e], x, c)
    {
      c := if minChild == |p| || p[minChild].key > p[minChild - 1].key then minChild - 1 else minChild;
    }

    method ShiftDown(hole: nat, e: Elem)
      requires hole < |p| && DownOk(p[hole := e], hole) && Placed(p, hole, e)
      modifies this`p, p, e
      ensures Ordered(p) && Indexed(p) && multiset(p) == multiset(old(p)[hole := e])
    {
      hide DownOk, Ordered, SmallerChild, Placed, Indexed, Swap;
      ghost var elems := p;
      var x: nat := hole;
      var minChild: nat := 2 * (x + 1);
      while minChild <= |p|
        invariant x < |p| == |elems| && minChild == 2 * (x + 1) && DownOk(p[x := e], x) && Placed(p, x, e)
        invariant multiset(p[x := e]) == multiset(elems[hole := e])
        invariant forall i :: 0 <= i < |p| ==> p[i] in elems
        decreases |elems| - x
      {
        minChild := Smaller(x, minChild, e);
        if !(e.key > p[minChild].key) {
          Stop(p[x := e], x, minChild);
          break;
        }
        DownStep(p[x := e], x, minChild);
        SwapBag(p[x := e], x, minChild);
        MoveTo(x, minChild, p[minChild], e);
        x := minChild;
        minChild := 2 * (x + 1);
      }
      assert Ordered(p[x := e]) by {
        if minChild > |p| {
          NoChildren(p[x := e], x);
        }
      }
      PutAt(x, e);
    }

    static lemma {:induction false} Stop(h: seq<Elem>, x: nat, c: nat)
      requires x < |h| && DownOk(h, x) && SmallerChild(h, x, c) && h[x].key <= h[c].key
      ensures Ordered(h)
    {
      DownDone(h, x);
    }

    static lemma {:induction false} NoChildren(h: seq<Elem>, x: nat)
      requires x < |h| && DownOk(h, x) && 2 * (x + 1) > |h|
      ensures Ordered(h)
    {
      DownDone(h, x);
    }

    function Top(): (e: Elem?)
      requires Valid()
      reads this, p
      ensures e == null <==> p == []
      ensures e != null ==> e in p && forall x :: x in p ==> e.key <= x.key
    {
      if p == [] then null else
      assert forall x :: x in p ==> p[0].key <= x.key by {
        forall x | x in p ensures p[0].key <= x.key {
          var i :| 0 <= i < |p| && p[i] == x;
          RootLeast(p, i);
        }
      }
      p[0]
    }

    method Reserve(m: nat, alloc: bool) returns (rc: int)
      requires Valid()
      modifies this`a
      ensures Valid() && rc == if old(a) < m && !alloc then -1 else 0
      ensures rc == 0 ==> m <= a
      ensures rc == 0 && old(a) < m ==> var twice := if old(a) == 0 then 8 else 2 * old(a);
        a >= twice && (a == m || a == twice)
      ensures rc == -1 || m <= old(a) ==> a == old(a)
    {
      rc := 0;
      if a < m {
        var b := if a != 0 then a * 2 else 8;
        if b < m {
          b := m;
        }
        if !alloc {
          return -1;
        }
        a := b;
      }
    }

    // `alloc` says whether memory can be had when it is needed.
    method Push(e: Elem, alloc: bool) returns (rc: int)
      requires Valid() && e !in p
      modifies this, p, e
      ensures Valid() && rc == if old(a) < |old(p)| + 1 && !alloc then -1 else 0
      ensures rc == 0 ==> multiset(p) == multiset(old(p)) + multiset{e}
      ensures rc == -1 ==> p == old(p)
    {
      hide UpOk, Ordered, Placed, Indexed;
      rc := Reserve(|p| + 1, alloc);
      if rc != 0 {
        return;
      }
      ghost var h := p;
      e.heapIdx := -1;
      p := p + [e];
      Last(h, e);
      AtTheEnd(h, e);
      assert p[|h| := e] == h + [e];
      ShiftUp(|p| - 1, e);
      Still(h, e, p);
    }

    static lemma {:induction false} AtTheEnd(h: seq<Elem>, e: Elem)
      requires Indexed(h) && e !in h
      ensures Placed(h + [e], |h|, e)
    {
    }

    static lemma {:induction false} Last(h: seq<Elem>, e: Elem)
      requires Ordered(h)
      ensures UpOk(h + [e], |h|)
    {
      forall i | 0 < i < |h| ensures Above(h + [e], i) {
        assert Above(h, i);
      }
    }

    static lemma {:induction false} Still(h: seq<Elem>, e: Elem, h': seq<Elem>)
      requires multiset(h') == multiset(h + [e])
      ensures |h'| == |h| + 1 && multiset(h') == multiset(h) + multiset{e}
    {
      assert |multiset(h')| == |h'|;
      assert |multiset(h + [e])| == |h| + 1;
    }

    // The element taken out is a least one.
    method Pop() returns (e: Elem?)
      requires Valid()
      modifies this, p
      ensures Valid() && (e == null <==> old(p) == [])
      ensures e == null ==> p == []
      ensures e != null ==>
        && e in old(p) && e.heapIdx == -1 && (forall x :: x in old(p) ==> e.key <= x.key)
        && multiset(p) == multiset(old(p)) - multiset{e}
    {
      e := Top();
      if e != null {
        TakeOut(0, e);
      }
    }

    // Elements that know their places are all different.
    static lemma {:induction false} Different(h: seq<Elem>)
      requires Indexed(h)
      ensures Distinct(h)
    {
    }

    method Detach(e: Elem)
      requires Valid() && e !in p
      modifies e`heapIdx
      ensures Valid() && e.heapIdx == -1
    {
      e.heapIdx := -1;
    }

    // The last element goes to slot `k` and from there down; for the last slot nothing
    // is left to do.
    method TakeOut(k: nat, e: Elem)
      requires Valid() && k < |p| && p[k] == e && (k > 0 ==> p[Parent(k)].key <= p[|p| - 1].key)
      modifies this, p
      ensures Valid() && e.heapIdx == -1 && Less(p, old(p), e)
    {
      hide Ordered, Indexed, Less;
      if k < |p| - 1 {
        LowerOut(k, e);
      } else {
        LastOut(e);
      }
    }

    method LastOut(e: Elem)
      requires Valid() && p != [] && p[|p| - 1] == e
      modifies this, p
      ensures Valid() && e.heapIdx == -1 && Less(p, old(p), e)
    {
      hide Ordered, Placed, Indexed, Distinct, Less, Without;
      ghost var h := p;
      Different(h);
      Rest(h, |h| - 1);
      Shorter(h);
      p := p[..|p| - 1];
      Gone(h, |h| - 1, p);
      Detach(e);
    }

    method LowerOut(k: nat, e: Elem)
      requires Valid() && k < |p| - 1 && p[k] == e && (k > 0 ==> p[Parent(k)].key <= p[|p| - 1].key)
      modifies this, p
      ensures Valid() && e.heapIdx == -1 && Less(p, old(p), e)
    {
      hide Ordered, Indexed, Distinct, Less, Without;
      ghost var h := p;
      Different(h);
      FillDown(k);
      Gone(h, k, p);
      Detach(e);
    }

    method FillDown(k: nat)
      requires Ordered(p) && Indexed(p) && k < |p| - 1 && (k > 0 ==> p[Parent(k)].key <= p[|p| - 1].key)
      modifies this`p, p
      ensures Ordered(p) && Indexed(p) && multiset(p) == multiset(Without(old(p), k))
    {
      hide DownOk, Ordered, Placed, Indexed, Without;
      ghost var h := p;
      WithoutDown(h, k);
      var last := DropLast();
      Rest(h, k);
      ShiftDown(k, last);
    }

    // What is left without the last element.
    static lemma {:induction false} Rest(h: seq<Elem>, k: nat)
      requires k < |h| && Indexed(h)
      ensures Indexed(h[..|h| - 1]) && Without(h, |h| - 1) == h[..|h| - 1]
      ensures k < |h| - 1 ==> Placed(h[..|h| - 1], k, h[|h| - 1]) && h[..|h| - 1][k := h[|h| - 1]] == Without(h, k)
      ensures forall x :: x in h[..|h| - 1] ==> x in h
    {
    }

    // One slot fewer.
    method DropLast() returns (last: Elem)
      requires p != [] && Indexed(p)
      modifies this`p
      ensures p == old(p)[..|old(p)| - 1] && last == old(p)[|old(p)| - 1] && Indexed(old(p))
    {
      last := p[|p| - 1];
      p := p[..|p| - 1];
    }

    static lemma {:induction false} Shorter(h: seq<Elem>)
      requires Ordered(h) && h != []
      ensures Ordered(h[..|h| - 1])
    {
      var g := h[..|h| - 1];
      forall i | 0 < i < |g| ensures Above(g, i) {
        assert Above(h, i);
      }
    }

    // `h2` is `h` without one element.
    static ghost predicate Less(h2: seq<Elem>, h: seq<Elem>, e: Elem) {
      multiset(h2) == multiset(h) - multiset{e}
    }

    static ghost predicate Distinct(h: seq<Elem>) {
      forall i, j :: 0 <= i < |h| && 0 <= j < |h| && i != j ==> h[i] != h[j]
    }

    static lemma {:induction false} Gone(h: seq<Elem>, k: nat, h': seq<Elem>)
      requires k < |h| && multiset(h') == multiset(Without(h, k)) && Distinct(h)
      ensures h[k] !in h' && |h'| == |h| - 1 && Less(h', h, h[k])
    {
      WithoutBag(h, k);
      Once(h, k);
      assert forall x :: x in h' ==> x in multiset(h');
      assert |multiset(h')| == |h'| && |multiset(h)| == |h|;
    }

    static lemma {:induction false} Once(h: seq<Elem>, k: nat)
      requires k < |h| && Distinct(h)
      ensures multiset(h)[h[k]] == 1
    {
      assert h == h[..k] + [h[k]] + h[k + 1..];
      assert h[k] !in h[..k] && h[k] !in h[k + 1..];
    }

    // The element is found by its own index; the last one takes its place and moves up
    // or down from there.
    method Erase(e: Elem) returns (rc: int)
      requires Valid() && (e.heapIdx != -1 ==> 0 <= e.heapIdx < |p| && p[e.heapIdx] == e)
      modifies this, p
      ensures Valid() && e.heapIdx == -1 && rc == if old(e.heapIdx) == -1 then -1 else 0
      ensures rc == -1 ==> p == old(p)
      ensures rc == 0 ==> multiset(p) == multiset(old(p)) - multiset{e}
    {
      if e.heapIdx == -1 {
        return -1;
      }
      var k: nat, last := e.heapIdx, p[|p| - 1];
      if k > 0 && p[Parent(k)].key > last.key {
        RaiseOut(k, e);
      } else {
        TakeOut(k, e);
      }
      return 0;
    }

    method RaiseOut(k: nat, e: Elem)
      requires Valid() && 0 < k < |p| && p[k] == e && p[Parent(k)].key > p[|p| - 1].key
      modifies this, p
      ensures Valid() && e.heapIdx == -1 && Less(p, old(p), e)
    {
      ghost var h := p;
      assert Above(h, k);
      hide UpOk, Ordered, Placed, Indexed, Distinct, Less, Without;
      Different(h);
      WithoutUp(h, k);
      var last := DropLast();
      Rest(h, k);
      ShiftUp(k, last);
      Gone(h, k, p);
      Detach(e);
    }
  }
}
