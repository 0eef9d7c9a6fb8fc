/** A list of modules with verbose levels, and the level it gives to a module. */
module VModules {
  import opened Wildcards
  import opened Wrappers

  // A pattern with a level, in the order they were written.
  datatype Entry = Entry(name: string, level: int)

  // `wilds` are kept in reverse, so that a later pattern is tried first.
  datatype VModuleList = VModuleList(exacts: map<string, int>, wilds: seq<Entry>)

  predicate IsWild(name: string) {
    '*' in name || '?' in name
  }

  ghost predicate Covers(e: Entry, mod: string, full: string) {
    Matches(e.name, mod) || (full != [] && Matches(e.name, full))
  }

  // ---------- What the flag says ----------

  // An exact name goes before a pattern and the module before its full name; among the
  // entries of one name, and among the patterns that match, the last one counts.
  ghost function Level(entries: seq<Entry>, mod: string, full: string): Option<int> {
    var exact := LastNamed(entries, mod);
    if exact.Some? then exact
    else if full != [] && LastNamed(entries, full).Some? then LastNamed(entries, full)
    else LastCovering(entries, mod, full)
  }

  function LastNamed(entries: seq<Entry>, name: string): Option<int> {
    if entries == [] then None
    else if !IsWild(entries[|entries| - 1].name) && entries[|entries| - 1].name == name then Some(entries[|entries| - 1].level)
    else LastNamed(entries[..|entries| - 1], name)
  }

  ghost function LastCovering(entries: seq<Entry>, mod: string, full: string): Option<int> {
    if entries == [] then None
    else if IsWild(entries[|entries| - 1].name) && Covers(entries[|entries| - 1], mod, full) then Some(entries[|entries| - 1].level)
    else LastCovering(entries[..|entries| - 1], mod, full)
  }

  // ---------- The same, by the places of the entries ----------

  predicate Plain(name: string) {
    forall i :: 0 <= i < |name| ==> name[i] != '*' && name[i] != '?'
  }

  // Entry `i` names `name` and no later one does.
  predicate LastPlain(entries: seq<Entry>, name: string, i: nat) {
    && i < |entries| && Plain(entries[i].name) && entries[i].name == name
    && forall j :: i < j < |entries| ==> entries[j].name != name
  }

  predicate NotNamed(entries: seq<Entry>, name: string) {
    Plain(name) ==> forall j :: 0 <= j < |entries| ==> entries[j].name != name
  }

  // Entry `i` is a pattern for one of the names and no later one is.
  ghost predicate LastPattern(entries: seq<Entry>, mod: string, full: string, i: nat) {
    && i < |entries| && !Plain(entries[i].name) && Covers(entries[i], mod, full)
    && forall j :: i < j < |entries| ==> Plain(entries[j].name) || !Covers(entries[j], mod, full)
  }

  ghost predicate NoPattern(entries: seq<Entry>, mod: string, full: string) {
    forall j :: 0 <= j < |entries| ==> Plain(entries[j].name) || !Covers(entries[j], mod, full)
  }

  lemma {:induction false} PlainExactly(name: string)
    ensures Plain(name) <==> !IsWild(name)
  {
  }

  lemma {:induction false} NamedExactly(entries: seq<Entry>, name: string) returns (i: nat)
    ensures LastNamed(entries, name).None? <==> NotNamed(entries, name)
    ensures LastNamed(entries, name).Some? ==>
      LastPlain(entries, name, i) && LastNamed(entries, name) == Some(entries[i].level)
  {
    hide IsWild, Plain;
    PlainExactly(name);
    i := 0;
    if entries != [] {
      var k := |entries| - 1;
      var init, last := entries[..k], entries[k];
      i := NamedExactly(init, name);
      if last.name == name {
        i := k;
      } else if NotNamed(init, name) {
        assert NotNamed(entries, name);
      }
    }
  }

  lemma {:induction false} PatternExactly(entries: seq<Entry>, mod: string, full: string) returns (i: nat)
    ensures LastCovering(entries, mod, full).None? <==> NoPattern(entries, mod, full)
    ensures LastCovering(entries, mod, full).Some? ==>
      LastPattern(entries, mod, full, i) && LastCovering(entries, mod, full) == Some(entries[i].level)
  {
    hide IsWild, Plain, Covers;
    i := 0;
    if entries != [] {
      var k := |entries| - 1;
      PlainExactly(entries[k].name);
      i := PatternExactly(entries[..k], mod, full);
      if !Plain(entries[k].name) && Covers(entries[k], mod, full) {
        i := k;
      }
    }
  }

  // What the level of a module is, in the order in which the entries decide it.
  ghost predicate Decided(entries: seq<Entry>, mod: string, full: string, v: Option<int>) {
    && (forall i: nat :: LastPlain(entries, mod, i) ==> v == Some(entries[i].level))
    && (NotNamed(entries, mod) && full != [] ==>
         forall i: nat :: LastPlain(entries, full, i) ==> v == Some(entries[i].level))
    && (NotNamed(entries, mod) && (full == [] || NotNamed(entries, full)) ==>
         forall i: nat :: LastPattern(entries, mod, full, i) ==> v == Some(entries[i].level))
    && (v.None? <==> NotNamed(entries, mod) && (full == [] || NotNamed(entries, full)) && NoPattern(entries, mod, full))
  }

  lemma {:induction false} OnlyLastPlain(entries: seq<Entry>, name: string, i: nat, j: nat)
    requires LastPlain(entries, name, i) && LastPlain(entries, name, j)
    ensures i == j && !NotNamed(entries, name)
  {
  }

  lemma {:induction false} OnlyLastPattern(entries: seq<Entry>, mod: string, full: string, i: nat, j: nat)
    requires LastPattern(entries, mod, full, i) && LastPattern(entries, mod, full, j)
    ensures i == j && !NoPattern(entries, mod, full)
  {
  }

  lemma {:induction false} NoLast(entries: seq<Entry>, mod: string, full: string, i: nat)
    ensures NotNamed(entries, mod) ==> !LastPlain(entries, mod, i)
    ensures NoPattern(entries, mod, full) ==> !LastPattern(entries, mod, full, i)
  {
  }

  // The rule above says no more and no less.
  lemma {:induction false} LevelExactly(entries: seq<Entry>, mod: string, full: string, v: Option<int>)
    ensures v == Level(entries, mod, full) <==> Decided(entries, mod, full, v)
  {
    hide LastPlain, NotNamed, LastPattern, NoPattern, LastNamed, LastCovering;
    var a := NamedExactly(entries, mod);
    var b := NamedExactly(entries, full);
    var c := PatternExactly(entries, mod, full);
    forall i: nat
      ensures LastPlain(entries, mod, i) ==> !NotNamed(entries, mod) && i == a
      ensures LastPlain(entries, full, i) ==> !NotNamed(entries, full) && i == b
      ensures LastPattern(entries, mod, full, i) ==> !NoPattern(entries, mod, full) && i == c
    {
      NoLast(entries, mod, full, i);
      NoLast(entries, full, mod, i);
      if LastPlain(entries, mod, i) {
        OnlyLastPlain(entries, mod, i, a);
      }
      if LastPlain(entries, full, i) {
        OnlyLastPlain(entries, full, i, b);
      }
      if LastPattern(entries, mod, full, i) {
        OnlyLastPattern(entries, mod, full, i, c);
      }
    }
  }

  // ---------- The list built from it ----------

  function Lookup(exacts: map<string, int>, name: string): Option<int> {
    if name in exacts then Some(exacts[name]) else None
  }

  function Reverse<T>(s: seq<T>): seq<T> {
    if s == [] then [] else Reverse(s[1..]) + [s[0]]
  }

  lemma {:induction false} ReverseSnoc<T>(s: seq<T>, x: T)
    ensures Reverse(s + [x]) == [x] + Reverse(s)
  {
    if s == [] {
      assert s + [x] == [x] && [x][1..] == [];
    } else {
      ReverseSnoc(s[1..], x);
      assert (s + [x])[1..] == s[1..] + [x];
    }
  }

  method ReverseSeq<T>(s: seq<T>) returns (r: seq<T>)
    ensures r == Reverse(s)
  {
    r := [];
    assert s[..0] == [];
    for i := 0 to |s|
      invariant r == Reverse(s[..i])
    {
      ReverseSnoc(s[..i], s[i]);
      assert s[..i + 1] == s[..i] + [s[i]];
      r := [s[i]] + r;
    }
    assert s[..|s|] == s;
  }

  ghost function FirstCovering(wilds: seq<Entry>, mod: string, full: string): Option<int> {
    if wilds == [] then None
    else if Covers(wilds[0], mod, full) then Some(wilds[0].level)
    else FirstCovering(wilds[1..], mod, full)
  }

  function OnlyWild(entries: seq<Entry>): seq<Entry> {
    if entries == [] then []
    else OnlyWild(entries[..|entries| - 1]) + if IsWild(entries[|entries| - 1].name) then [entries[|entries| - 1]] else []
  }

  // Trying the reversed patterns from the front finds the last one written.
  lemma {:induction false} FirstIsLast(entries: seq<Entry>, mod: string, full: string)
    ensures FirstCovering(Reverse(OnlyWild(entries)), mod, full) == LastCovering(entries, mod, full)
  {
    hide Covers, IsWild;
    if entries != [] {
      var last, init := entries[|entries| - 1], entries[..|entries| - 1];
      FirstIsLast(init, mod, full);
      if IsWild(last.name) {
        ReverseSnoc(OnlyWild(init), last);
        assert ([last] + Reverse(OnlyWild(init)))[1..] == Reverse(OnlyWild(init));
      } else {
        assert OnlyWild(init) + [] == OnlyWild(init);
      }
    }
  }

  // What the list built from these entries must be.
  ghost predicate Represents(list: VModuleList, entries: seq<Entry>) {
    && (forall name :: Lookup(list.exacts, name) == LastNamed(entries, name))
    && list.wilds == Reverse(OnlyWild(entries))
  }

  // The part of init after the names have been split off and lowered.
  method Build(entries: seq<Entry>) returns (list: VModuleList)
    ensures Represents(list, entries)
  {
    hide IsWild;
    var exacts: map<string, int>, wilds: seq<Entry> := map[], [];
    for i := 0 to |entries|
      invariant forall name :: Lookup(exacts, name) == LastNamed(entries[..i], name)
      invariant wilds == OnlyWild(entries[..i])
    {
      var e := entries[i];
      var before := entries[..i + 1];
      assert before[|before| - 1] == e && before[..|before| - 1] == entries[..i];
      if !IsWild(e.name) {
        exacts := exacts[e.name := e.level];
      } else {
        wilds := wilds + [e];
      }
    }
    assert entries[..|entries|] == entries;
    wilds := ReverseSeq(wilds);
    list := VModuleList(exacts, wilds);
  }

  // The level comes out as the flag says, None when nothing applies.
  method FindVerboseLevel(list: VModuleList, mod: string, full: string, ghost entries: seq<Entry>) returns (v: Option<int>)
    requires Represents(list, entries)
    ensures v == Level(entries, mod, full) && Decided(entries, mod, full, v)
  {
    hide Matches, IsWild, Decided;
    LevelExactly(entries, mod, full, Level(entries, mod, full));
    FirstIsLast(entries, mod, full);
    assert Lookup(list.exacts, mod) == LastNamed(entries, mod) && Lookup(list.exacts, full) == LastNamed(entries, full);
    if list.exacts != map[] {
      if mod in list.exacts {
        return Some(list.exacts[mod]);
      }
      if full != [] {
        if full in list.exacts {
          return Some(list.exacts[full]);
        }
      }
    }
    for i := 0 to |list.wilds|
      invariant FirstCovering(list.wilds, mod, full) == FirstCovering(list.wilds[i..], mod, full)
    {
      assert list.wilds[i..][1..] == list.wilds[i + 1..];
      var r := Wildcmp(list.wilds[i].name, mod);
      if r {
        return Some(list.wilds[i].level);
      }
      if full != [] {
        r := Wildcmp(list.wilds[i].name, full);
        if r {
          return Some(list.wilds[i].level);
        }
      }
    }
    return None;
  }
}
