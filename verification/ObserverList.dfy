/** A list of observers that may be changed while its iterators are under way. */
module ObserverLists {
  // An observer by its address.
  type Observer = nat
  const NULL: Observer := 0

  const SIZE_MAX: nat := 0xFFFF_FFFF_FFFF_FFFF

  // The observers in the list, in order, without the slots of removed ones.
  function Live(slots: seq<Observer>): seq<Observer> {
    if slots == [] then []
    else Live(slots[..|slots| - 1]) + if slots[|slots| - 1] != NULL then [slots[|slots| - 1]] else []
  }

  // No observer twice.
  ghost predicate Distinct(slots: seq<Observer>) {
    forall i, j :: 0 <= i < j < |slots| && slots[i] != NULL ==> slots[i] != slots[j]
  }

  // While an iterator is under way a slot keeps its observer or is cleared.
  ghost predicate Later(before: seq<Observer>, after: seq<Observer>) {
    |before| <= |after| && forall j :: 0 <= j < |before| ==> after[j] == before[j] || after[j] == NULL
  }

  // An observer handed out, and the slot it was in.
  datatype Notice = Notice(slot: nat, observer: Observer)

  ghost predicate Noticed(returned: seq<Notice>, slot: nat) {
    exists k :: 0 <= k < |returned| && returned[k].slot == slot
  }

  // Slots are handed out in order, each at most once, never past `index`; a slot passed
  // over is empty.
  ghost predicate NoticesOk(returned: seq<Notice>, index: nat, slots: seq<Observer>) {
    && (forall k, l :: 0 <= k < l < |returned| ==> returned[k].slot < returned[l].slot)
    && (forall k :: 0 <= k < |returned| ==>
         && returned[k].slot < index && returned[k].slot < |slots| && returned[k].observer != NULL
         && (slots[returned[k].slot] == returned[k].observer || slots[returned[k].slot] == NULL))
    && (forall j :: 0 <= j < index && j < |slots| && slots[j] != NULL ==> Noticed(returned, j))
  }

  class Iterator {
    const list: ObserverList
    const maxIndex: nat
    var index: nat

    // What the list was when the iterator started, and what it has handed out.
    ghost const start: seq<Observer>
    ghost var returned: seq<Notice>

    ghost predicate Ok(slots: seq<Observer>, notifyAll: bool)
      reads this
    {
      && Later(start, slots) && index <= |slots| && NoticesOk(returned, index, slots)
      && (if notifyAll then maxIndex == SIZE_MAX else maxIndex == |start| && index <= maxIndex)
    }

    constructor (list: ObserverList)
      requires list.Valid()
      modifies list
      ensures this.list == list && list.Valid() && list.iterators == old(list.iterators) + {this}
      ensures list.observers == old(list.observers)
      ensures start == list.observers && returned == []
    {
      this.list := list;
      index := 0;
      maxIndex := if list.notifyAll then SIZE_MAX else |list.observers|;
      start := list.observers;
      returned := [];
      new;
      hide Distinct, Ok;
      Started();
      Enlist();
    }

    method Enlist()
      requires list.Valid() && this !in list.iterators && Ok(list.observers, list.notifyAll)
      modifies list`notifyDepth, list`iterators
      ensures list.Valid() && list.iterators == old(list.iterators) + {this}
    {
      hide Distinct, Ok;
      list.notifyDepth := list.notifyDepth + 1;
      list.iterators := list.iterators + {this};
    }

    lemma {:induction false} Started()
      requires index == 0 && returned == [] && maxIndex == if list.notifyAll then SIZE_MAX else |start|
      ensures Ok(start, list.notifyAll)
    {
      NothingYet(start);
    }

    static lemma {:induction false} NothingYet(start: seq<Observer>)
      ensures Later(start, start) && NoticesOk([], 0, start)
    {
    }

    // Of a list that is gone nothing is handed out any more. Otherwise, an observer that is
    // handed out is in the list then; in the mode for existing ones
    // it was when the iterator started. When there are no more, every observer that has
    // been in the list since then was handed out, exactly once.
    method GetNext() returns (o: Observer)
      requires list.Valid() && this in list.iterators && |list.observers| <= SIZE_MAX
      modifies this
      ensures list.Valid()
      ensures o != NULL ==>
        && old(index) < index <= |list.observers| && returned == old(returned) + [Notice(index - 1, o)]
        && list.observers[index - 1] == o && (!list.notifyAll ==> index - 1 < |start| && start[index - 1] == o)
      ensures !list.alive ==> o == NULL && unchanged(this)
      ensures o == NULL ==> returned == old(returned)
      ensures o == NULL && list.alive ==>
        forall j :: 0 <= j < |start| && start[j] != NULL && list.observers[j] == start[j] ==> Once(returned, Notice(j, start[j]))
      ensures o == NULL && list.alive && list.notifyAll ==>
        forall j :: 0 <= j < |list.observers| && list.observers[j] != NULL ==> Once(returned, Notice(j, list.observers[j]))
    {
      hide NoticesOk, Later;
      if !list.alive {
        return NULL;
      }
      assert Ok(list.observers, list.notifyAll);
      ghost var depth := list.notifyDepth;
      var observers := list.observers;
      var max := if maxIndex < |observers| then maxIndex else |observers|;
      StartWithin(start, observers);
      index := Advance(observers, max, index, returned);
      if index < max {
        o := observers[index];
        Handed(returned, index, observers, start);
        returned := returned + [Notice(index, o)];
        index := index + 1;
      } else {
        o := NULL;
        AllHanded(returned, max, index, observers, start);
      }
      forall it | it in list.iterators ensures it.Ok(list.observers, list.notifyAll) {
        if it != this {
          assert old(it.Ok(list.observers, list.notifyAll));
        }
      }
    }

    // Skip what was removed.
    static method Advance(observers: seq<Observer>, max: nat, from: nat, ghost returned: seq<Notice>) returns (i: nat)
      requires max <= |observers| && NoticesOk(returned, from, observers)
      ensures from <= i && (from <= max ==> i <= max) && (from > max ==> i == from)
      ensures i < max ==> observers[i] != NULL
      ensures NoticesOk(returned, i, observers)
    {
      i := from;
      while i < max && observers[i] == NULL
        invariant from <= i && (from <= max ==> i <= max) && (from > max ==> i == from)
        invariant NoticesOk(returned, i, observers)
      {
        i := i + 1;
      }
    }

    static lemma {:induction false} StartWithin(start: seq<Observer>, slots: seq<Observer>)
      requires Later(start, slots)
      ensures |start| <= |slots|
    {
    }

    static lemma {:induction false} Handed(returned: seq<Notice>, index: nat, slots: seq<Observer>, start: seq<Observer>)
      requires NoticesOk(returned, index, slots) && index < |slots| && slots[index] != NULL && Later(start, slots)
      ensures NoticesOk(returned + [Notice(index, slots[index])], index + 1, slots)
      ensures index < |start| ==> start[index] == slots[index]
    {
      var r := returned + [Notice(index, slots[index])];
      forall j | 0 <= j < index + 1 && slots[j] != NULL ensures Noticed(r, j) {
        if j < index {
          var k :| 0 <= k < |returned| && returned[k].slot == j;
          assert r[k].slot == j;
        } else {
          assert r[|returned|].slot == index;
        }
      }
    }

    static lemma {:induction false} AllHanded(returned: seq<Notice>, max: nat, index: nat, slots: seq<Observer>, start: seq<Observer>)
      requires NoticesOk(returned, index, slots) && max <= index && max <= |slots| && Later(start, slots)
      ensures forall j :: 0 <= j < max && slots[j] != NULL ==> Once(returned, Notice(j, slots[j]))
    {
      forall j | 0 <= j < max && slots[j] != NULL ensures Once(returned, Notice(j, slots[j])) {
        assert Noticed(returned, j);
        var k :| 0 <= k < |returned| && returned[k].slot == j;
        assert returned[k] == Notice(j, slots[j]);
        Alone(returned, index, slots, k);
      }
    }

    static lemma {:induction false} Alone(returned: seq<Notice>, index: nat, slots: seq<Observer>, k: nat)
      requires NoticesOk(returned, index, slots) && k < |returned|
      ensures OnlyAt(returned, returned[k].slot, k)
    {
      forall l | 0 <= l < |returned| && l != k ensures returned[l].slot != returned[k].slot {
        if l < k {
          assert returned[l].slot < returned[k].slot;
        } else {
          assert returned[k].slot < returned[l].slot;
        }
      }
    }

    // The end of an iterator; the last one clears the empty slots away, if there still is a
    // list.
    method End()
      requires list.Valid() && this in list.iterators
      modifies list
      ensures !list.alive ==> unchanged(list)
      ensures list.alive == old(list.alive) && list.Valid()
      ensures list.alive ==>
        && list.iterators == old(list.iterators) - {this}
        && list.observers == if list.iterators == {} then Live(old(list.observers)) else old(list.observers)
    {
      if !list.alive {
        return;
      }
      list.notifyDepth := list.notifyDepth - 1;
      list.iterators := list.iterators - {this};
      if list.notifyDepth == 0 {
        assert |list.iterators| == 0;
        list.Compact();
      }
    }
  }

  // Exactly one of the notices is `x`, and no other is for its slot.
  ghost predicate Once(returned: seq<Notice>, x: Notice) {
    exists k :: 0 <= k < |returned| && returned[k] == x && OnlyAt(returned, x.slot, k)
  }

  ghost predicate OnlyAt(returned: seq<Notice>, slot: nat, k: nat) {
    forall l :: 0 <= l < |returned| && l != k ==> returned[l].slot != slot
  }

  class ObserverList {
    var observers: seq<Observer>
    var notifyDepth: int
    const notifyAll: bool

    // Whether weak pointers to the list still lead to it.
    var alive: bool

    ghost var iterators: set<Iterator>

    ghost predicate Valid()
      reads this, iterators
    {
      && notifyDepth == |iterators| && Distinct(observers)
      && (iterators == {} ==> NULL !in observers)
      && forall it :: it in iterators ==> it.list == this && it.Ok(observers, notifyAll)
    }

    constructor (notifyAll: bool)
      ensures Valid() && alive && observers == [] && iterators == {} && this.notifyAll == notifyAll
    {
      observers, notifyDepth, iterators, alive := [], 0, {}, true;
      this.notifyAll := notifyAll;
    }

    // The list goes while iterators may be under way.
    method Destroy()
      requires Valid() && alive
      modifies this`alive
      ensures Valid() && !alive
    {
      hide Distinct, Iterator.Ok;
      alive := false;
    }

    // std::find: the first slot of `o`, or the number of slots.
    method Find(o: Observer) returns (i: nat)
      ensures i <= |observers| && (i < |observers| ==> observers[i] == o)
      ensures o !in observers[..i]
    {
      i := 0;
      while i < |observers| && observers[i] != o
        invariant i <= |observers| && o !in observers[..i]
      {
        i := i + 1;
      }
    }

    method AddObserver(o: Observer)
      requires Valid() && o != NULL
      modifies this`observers
      ensures Valid() && Later(old(observers), observers)
      ensures Live(observers) == Live(old(observers)) + if o in old(observers) then [] else [o]
    {
      hide NoticesOk;
      var i := Find(o);
      assert i == |observers| ==> observers[..i] == observers;
      if i != |observers| {
        return;
      }
      ghost var before := observers;
      observers := observers + [o];
      LiveSnoc(before, o);
      forall it | it in iterators ensures it.Ok(observers, notifyAll) {
        assert old(it.Ok(observers, notifyAll));
        MoreSlots(it.returned, it.index, before, o, it.start);
      }
    }

    static lemma {:induction false} MoreSlots(returned: seq<Notice>, index: nat, slots: seq<Observer>, o: Observer, start: seq<Observer>)
      requires NoticesOk(returned, index, slots) && index <= |slots| && Later(start, slots)
      ensures NoticesOk(returned, index, slots + [o]) && Later(start, slots + [o])
    {
    }

    // While there are iterators the slot is cleared only.
    method RemoveObserver(o: Observer)
      requires Valid() && o != NULL
      modifies this`observers
      ensures Valid() && Live(observers) == Minus(Live(old(observers)), o) && o !in observers
      ensures iterators != {} ==> Later(old(observers), observers)
    {
      hide NoticesOk, Live, Minus, Distinct, Later;
      ghost var before := observers;
      var i := Find(o);
      if i == |observers| {
        assert observers[..i] == observers;
        LiveIn(observers);
        MinusAbsent(Live(observers), o);
        Same(observers);
        return;
      }
      Removed(before, i);
      StillDistinct(before, i);
      if notifyDepth != 0 {
        observers := observers[i := NULL];
        forall it | it in iterators ensures it.Ok(observers, notifyAll) {
          assert old(it.Ok(observers, notifyAll));
          FewerObservers(it.returned, it.index, before, observers, it.start);
        }
      } else {
        observers := observers[..i] + observers[i + 1..];
      }
    }

    static lemma {:induction false} FewerObservers(returned: seq<Notice>, index: nat, slots: seq<Observer>, slots': seq<Observer>, start: seq<Observer>)
      requires NoticesOk(returned, index, slots) && Later(start, slots) && Later(slots, slots') && |slots| == |slots'|
      ensures NoticesOk(returned, index, slots') && Later(start, slots')
    {
    }

    static lemma {:induction false} Removed(slots: seq<Observer>, i: nat)
      requires i < |slots| && slots[i] != NULL && Distinct(slots)
      ensures Live(slots[i := NULL]) == Minus(Live(slots), slots[i])
      ensures Live(slots[..i] + slots[i + 1..]) == Minus(Live(slots), slots[i])
      ensures slots[i] !in slots[i := NULL] && slots[i] !in slots[..i] + slots[i + 1..]
    {
      var o, a, b := slots[i], slots[..i], slots[i + 1..];
      assert slots == a + ([o] + b) && slots[i := NULL] == a + ([NULL] + b);
      assert o !in a && o !in b;
      hide Live, Minus, Distinct;
      LiveParts(a, o, b);
      LiveParts(a, NULL, b);
      LiveConcat(a, b);
      LiveIn(a);
      LiveIn(b);
      MinusParts(Live(a), o, Live(b));
    }

    static lemma {:induction false} LiveParts(a: seq<Observer>, o: Observer, b: seq<Observer>)
      ensures Live(a + ([o] + b)) == if o == NULL then Live(a) + Live(b) else Live(a) + ([o] + Live(b))
    {
      hide Live;
      LiveConcat(a, [o] + b);
      LiveConcat([o], b);
      LiveOne(o);
      assert [] + Live(b) == Live(b);
    }

    static lemma {:induction false} MinusParts(a: seq<Observer>, o: Observer, b: seq<Observer>)
      requires o !in a && o !in b
      ensures Minus(a + ([o] + b), o) == a + b
    {
      hide Minus;
      MinusAbsent(a, o);
      MinusAbsent(b, o);
      MinusConcat(a, [o] + b, o);
      MinusFirst(o, b);
    }

    static lemma {:induction false} MinusFirst(o: Observer, b: seq<Observer>)
      ensures Minus([o] + b, o) == Minus(b, o)
    {
      assert ([o] + b)[1..] == b;
    }

    static lemma {:induction false} Same(slots: seq<Observer>)
      ensures Later(slots, slots)
    {
    }

    static lemma {:induction false} StillDistinct(slots: seq<Observer>, i: nat)
      requires i < |slots| && Distinct(slots)
      ensures Distinct(slots[i := NULL]) && Distinct(slots[..i] + slots[i + 1..]) && Later(slots, slots[i := NULL])
      ensures NULL !in slots ==> NULL !in slots[..i] + slots[i + 1..]
    {
    }

    method HasObserver(o: Observer) returns (r: bool)
      ensures r <==> o in observers
    {
      for i := 0 to |observers|
        invariant o !in observers[..i]
      {
        if observers[i] == o {
          return true;
        }
      }
      assert observers[..|observers|] == observers;
      return false;
    }

    method Clear()
      requires Valid()
      modifies this`observers
      ensures Valid() && Live(observers) == []
      ensures iterators != {} ==> Later(old(observers), observers)
    {
      hide NoticesOk;
      ghost var before := observers;
      if notifyDepth != 0 {
        var i := 0;
        while i < |observers|
          invariant 0 <= i <= |observers| == |before|
          invariant forall j :: 0 <= j < |before| ==> observers[j] == if j < i then NULL else before[j]
        {
          observers := observers[i := NULL];
          i := i + 1;
        }
        NoneLive(observers);
        forall it | it in iterators ensures it.Ok(observers, notifyAll) {
          assert old(it.Ok(observers, notifyAll));
          FewerObservers(it.returned, it.index, before, observers, it.start);
        }
      } else {
        observers := [];
      }
    }

    // std::remove of the empty slots, and what is behind the rest cut off.
    method Compact()
      requires iterators == {} && Distinct(observers) && notifyDepth == 0
      modifies this`observers
      ensures Valid() && observers == Live(old(observers))
    {
      var kept: seq<Observer> := [];
      for i := 0 to |observers|
        invariant observers == old(observers)
        invariant kept == Live(observers[..i])
      {
        LiveSnoc(observers[..i], observers[i]);
        assert observers[..i + 1] == observers[..i] + [observers[i]];
        if observers[i] != NULL {
          kept := kept + [observers[i]];
        }
      }
      assert observers[..|observers|] == observers;
      LiveDistinct(observers);
      observers := kept;
    }
  }

  // ---------- Facts about slots ----------

  function Minus(s: seq<Observer>, o: Observer): seq<Observer> {
    if s == [] then [] else (if s[0] == o then [] else [s[0]]) + Minus(s[1..], o)
  }

  lemma {:induction false} MinusConcat(a: seq<Observer>, b: seq<Observer>, o: Observer)
    ensures Minus(a + b, o) == Minus(a, o) + Minus(b, o)
  {
    if a == [] {
      assert a + b == b;
    } else {
      assert (a + b)[1..] == a[1..] + b;
      MinusConcat(a[1..], b, o);
    }
  }

  lemma {:induction false} MinusAbsent(s: seq<Observer>, o: Observer)
    requires o !in s
    ensures Minus(s, o) == s
  {
    if s != [] {
      MinusAbsent(s[1..], o);
    }
  }

  lemma {:induction false} LiveSnoc(s: seq<Observer>, o: Observer)
    ensures Live(s + [o]) == Live(s) + if o != NULL then [o] else []
  {
    var t := s + [o];
    assert t[|t| - 1] == o && t[..|t| - 1] == s;
  }

  lemma {:induction false} LiveOne(o: Observer)
    ensures Live([o]) == if o != NULL then [o] else []
  {
    LiveSnoc([], o);
    assert [] + [o] == [o];
  }

  lemma {:induction false} LiveConcat(a: seq<Observer>, b: seq<Observer>)
    ensures Live(a + b) == Live(a) + Live(b)
    decreases |b|
  {
    if b == [] {
      assert a + b == a;
    } else {
      var b', o := b[..|b| - 1], b[|b| - 1];
      LiveConcat(a, b');
      assert b == b' + [o];
      assert a + b == (a + b') + [o];
      LiveSnoc(a + b', o);
      LiveSnoc(b', o);
    }
  }

  lemma {:induction false} LiveIn(s: seq<Observer>)
    ensures forall o :: o in Live(s) <==> o in s && o != NULL
  {
    if s != [] {
      var s', o := s[..|s| - 1], s[|s| - 1];
      LiveIn(s');
      assert s == s' + [o];
    }
  }

  lemma {:induction false} LiveDistinct(s: seq<Observer>)
    requires Distinct(s)
    ensures Distinct(Live(s)) && NULL !in Live(s)
  {
    LiveIn(s);
    if s != [] {
      var s', o := s[..|s| - 1], s[|s| - 1];
      assert forall i :: 0 <= i < |s'| ==> s'[i] == s[i];
      LiveDistinct(s');
      LiveIn(s');
      if o != NULL {
        assert o !in s';
        AddDistinct(Live(s'), o);
      }
    }
  }

  lemma {:induction false} AddDistinct(s: seq<Observer>, o: Observer)
    requires Distinct(s) && o !in s
    ensures Distinct(s + [o])
  {
  }

  lemma {:induction false} NoneLive(s: seq<Observer>)
    requires forall i :: 0 <= i < |s| ==> s[i] == NULL
    ensures Live(s) == []
  {
    if s != [] {
      NoneLive(s[..|s| - 1]);
    }
  }
}
