/** Registration of VLOG call sites against a module list that is reset meanwhile: sites
    are given their level without a lock, and inserted under one only if the list and the
    default level they were given it from are still the current ones. */
module VLogSites {
  import opened VModules
  import opened Wrappers

  // A module list by its address.
  type ListPtr = nat
  const NULL: ListPtr := 0

  datatype Name = Name(mod: string, full: string)

  // A site and its level; `given` is the default level it was last given.
  datatype Site = Site(name: Name, v: int, given: int)

  // Where a call of add_vlog_site is: it has read the list, also the default level, or
  // given its site a level from them.
  datatype Adder =
    | Away
    | Begun(name: Name, list: ListPtr)
    | Ready(name: Name, list: ListPtr, default: int)
    | Assigned(name: Name, list: ListPtr, default: int, v: int)

  // A reset walks over the `n` sites that were in the list when it started, newest first;
  // `i` are left, and `half` means that the last of these has been given the default level
  // only. A reset of the module list takes FLAGS_v as the default, one of FLAGS_v the value
  // `default` that FLAGS_v is going to have.
  datatype Reset = Quiet | Walking(n: nat, i: nat, half: bool, default: Option<int>)

  // `sites` is the list of sites, oldest first. `lists` are the entries each module list
  // was built from. `flag` is FLAGS_v.
  datatype State = State(lists: map<ListPtr, seq<Entry>>, current: ListPtr, flag: int, sites: seq<Site>,
                         adders: map<nat, Adder>, reset: Reset)

  datatype Event =
    | Begin(t: nat, name: Name)
    | ReadFlag(t: nat)
    | Assign(t: nat)
    | Insert(t: nat)
    | Swap(list: ListPtr, entries: seq<Entry>)
    | StartVerbose(v: int)
    | SetDefault
    | SetLevel
    | Finish
    | SetFlag(v: int)

  function At(s: State, t: nat): Adder {
    if t in s.adders then s.adders[t] else Away
  }

  // The level that a list gives to a site.
  ghost function LevelIn(lists: map<ListPtr, seq<Entry>>, list: ListPtr, name: Name, default: int): int {
    if list in lists then
      var level := Level(lists[list], name.mod, name.full);
      if level.Some? then level.value else default
    else default
  }

  // ---------- Events ----------

  predicate Enabled(s: State, e: Event) {
    match e
    case Begin(t, _) => At(s, t).Away?
    case ReadFlag(t) => At(s, t).Begun?
    case Assign(t) => At(s, t).Ready?
    case Insert(t) => At(s, t).Assigned?
    case Swap(list, _) => s.reset.Quiet? && list != NULL && list != s.current
    case StartVerbose(_) => s.reset.Quiet?
    case SetDefault => s.reset.Walking? && !s.reset.half && 0 < s.reset.i <= |s.sites|
    case SetLevel => s.reset.Walking? && s.reset.half && 0 < s.reset.i <= |s.sites|
    case Finish => s.reset.Walking? && !s.reset.half && s.reset.i == 0
    case SetFlag(_) => true
  }

  // Should the address of a new list be that of a list some call has given its site a level
  // from, then the new list gives the site the same level.
  ghost predicate Fresh(s: State, e: Event) {
    e.Swap? ==> forall t :: t in s.adders && Remembers(s.adders[t], e.list) ==>
      var a := s.adders[t];
      a.v == LevelIn(s.lists[e.list := e.entries], e.list, a.name, a.default)
  }

  predicate Remembers(a: Adder, list: ListPtr) {
    a.Assigned? && a.list == list
  }

  // vlog_site_list_add: one of the two expectations is renewed, or the site goes in.
  function Inserted(s: State, t: nat): State
    requires At(s, t).Assigned?
  {
    var a := At(s, t);
    if s.current != a.list then s.(adders := s.adders[t := Ready(a.name, s.current, a.default)])
    else if a.default != s.flag then s.(adders := s.adders[t := Ready(a.name, a.list, s.flag)])
    else s.(sites := s.sites + [Site(a.name, a.v, a.default)], adders := s.adders[t := Away])
  }

  // The default level that the walk under way gives to sites.
  function WalkDefault(s: State): int {
    if s.reset.Walking? && s.reset.default.Some? then s.reset.default.value else s.flag
  }

  ghost function After(s: State, e: Event): State
    requires Enabled(s, e)
  {
    match e
    case Begin(t, name) => s.(adders := s.adders[t := Begun(name, s.current)])
    case ReadFlag(t) => s.(adders := s.adders[t := Ready(At(s, t).name, At(s, t).list, s.flag)])
    case Assign(t) =>
      var a := At(s, t);
      s.(adders := s.adders[t := Assigned(a.name, a.list, a.default, LevelIn(s.lists, a.list, a.name, a.default))])
    case Insert(t) => Inserted(s, t)
    case Swap(list, entries) =>
      s.(lists := s.lists[list := entries], current := list, reset := Walking(|s.sites|, |s.sites|, false, None))
    case StartVerbose(v) => s.(reset := Walking(|s.sites|, |s.sites|, false, Some(v)))
    case SetDefault =>
      var i, d := s.reset.i - 1, WalkDefault(s);
      s.(sites := s.sites[i := Site(s.sites[i].name, d, d)], reset := s.reset.(half := true))
    case SetLevel =>
      var i := s.reset.i - 1;
      var v := LevelIn(s.lists, s.current, s.sites[i].name, s.sites[i].v);
      s.(sites := s.sites[i := s.sites[i].(v := v)], reset := s.reset.(i := i, half := false))
    case Finish => s.(reset := Quiet)
    case SetFlag(v) => s.(flag := v)
  }

  // ---------- Invariant ----------

  // The site carries the level that the current list and FLAGS_v give it.
  ghost predicate Right(s: State, i: nat)
    requires i < |s.sites|
  {
    s.sites[i].v == LevelIn(s.lists, s.current, s.sites[i].name, s.flag)
  }

  // The current module list has a level for the site.
  ghost predicate Listed(s: State, i: nat)
    requires i < |s.sites|
  {
    s.current in s.lists && Level(s.lists[s.current], s.sites[i].name.mod, s.sites[i].name.full).Some?
  }

  // The walk has yet to come to this site.
  predicate Ahead(s: State, i: nat) {
    s.reset.Walking? && i < s.reset.i
  }

  predicate WalkOk(s: State) {
    s.reset.Walking? ==>
      && s.reset.i <= s.reset.n <= |s.sites|
      && (s.reset.half ==> 0 < s.reset.i && s.sites[s.reset.i - 1].v == s.sites[s.reset.i - 1].given)
  }

  ghost predicate SiteOk(s: State, i: nat)
    requires i < |s.sites|
  {
    s.sites[i].v == LevelIn(s.lists, s.current, s.sites[i].name, s.sites[i].given)
  }

  ghost predicate SitesOk(s: State) {
    forall i :: 0 <= i < |s.sites| && !Ahead(s, i) ==> SiteOk(s, i)
  }

  ghost predicate AdderOk(s: State, a: Adder) {
    a.Assigned? ==> a.v == LevelIn(s.lists, a.list, a.name, a.default)
  }

  ghost predicate Inv(s: State) {
    WalkOk(s) && SitesOk(s) && NULL !in s.lists && forall t :: t in s.adders ==> AdderOk(s, s.adders[t])
  }

  lemma {:induction false} AddersAfter(s: State, e: Event)
    requires Inv(s) && Enabled(s, e) && Fresh(s, e)
    ensures forall t :: t in After(s, e).adders ==> AdderOk(After(s, e), After(s, e).adders[t])
  {
    hide Level, LevelIn, SitesOk;
    var s' := After(s, e);
    forall t | t in s'.adders ensures AdderOk(s', s'.adders[t]) {
      if t in s.adders {
        assert AdderOk(s, s.adders[t]);
      }
      OtherList(s, e, if t in s.adders then s.adders[t] else Away);
    }
  }

  lemma {:induction false} OtherList(s: State, e: Event, a: Adder)
    requires Enabled(s, e)
    ensures a.Assigned? && !(e.Swap? && e.list == a.list) ==>
      LevelIn(After(s, e).lists, a.list, a.name, a.default) == LevelIn(s.lists, a.list, a.name, a.default)
  {
    hide Level;
  }

  lemma {:induction false} SitesAfter(s: State, e: Event)
    requires Inv(s) && Enabled(s, e)
    ensures WalkOk(After(s, e)) && SitesOk(After(s, e))
  {
    hide Level;
    var s' := After(s, e);
    if e.Insert? {
      assert AdderOk(s, At(s, e.t));
    }
    forall i | 0 <= i < |s'.sites| && !Ahead(s', i) ensures SiteOk(s', i) {
      if i < |s.sites| && !Ahead(s, i) && !e.Swap? {
        assert SiteOk(s, i);
      }
    }
  }

  lemma {:induction false} InvAfter(s: State, e: Event)
    requires Inv(s) && Enabled(s, e) && Fresh(s, e)
    ensures Inv(After(s, e))
  {
    hide Level, LevelIn, AdderOk, WalkOk;
    AddersAfter(s, e);
    SitesAfter(s, e);
    hide SitesOk, Fresh;
  }

  // ---------- Whole runs ----------

  ghost predicate StepOk(states: seq<State>, events: seq<Event>, i: nat)
    requires i < |events| && |states| == |events| + 1
  {
    Enabled(states[i], events[i]) && states[i + 1] == After(states[i], events[i])
  }

  function Initial(flag: int): State {
    State(map[], NULL, flag, [], map[], Quiet)
  }

  ghost predicate Run(states: seq<State>, events: seq<Event>) {
    && |states| == |events| + 1 && states[0] == Initial(states[0].flag)
    && forall i :: 0 <= i < |events| ==> StepOk(states, events, i)
  }

  ghost predicate AllFresh(states: seq<State>, events: seq<Event>)
    requires |states| == |events| + 1
  {
    forall i :: 0 <= i < |events| ==> Fresh(states[i], events[i])
  }

  lemma {:induction false} Reachable(states: seq<State>, events: seq<Event>, n: nat)
    requires Run(states, events) && AllFresh(states, events) && n < |states|
    ensures Inv(states[n])
  {
    if n > 0 {
      hide Inv, After, Enabled, Fresh;
      Reachable(states, events, n - 1);
      assert StepOk(states, events, n - 1) && Fresh(states[n - 1], events[n - 1]);
      InvAfter(states[n - 1], events[n - 1]);
    }
  }

  // However calls, resets and changes of FLAGS_v interleave, outside a reset a site in the
  // list carries the level that the current module list and FLAGS_v give it, exactly when the
  // list has one for it or FLAGS_v is the default the site was last given.
  lemma {:induction false} RightExactly(states: seq<State>, events: seq<Event>, n: nat, i: nat)
    requires Run(states, events) && AllFresh(states, events) && n < |states| && i < |states[n].sites|
    requires states[n].reset.Quiet?
    ensures Right(states[n], i) <==> Listed(states[n], i) || states[n].sites[i].given == states[n].flag
  {
    hide Level;
    Reachable(states, events, n);
    assert !Ahead(states[n], i);
    assert SiteOk(states[n], i);
  }

  // In particular, nothing is missed while FLAGS_v stays as it is.
  lemma {:induction false} NothingMissed(states: seq<State>, events: seq<Event>, n: nat, i: nat)
    requires Run(states, events) && AllFresh(states, events) && n < |states| && i < |states[n].sites|
    requires states[n].reset.Quiet? && forall k :: 0 <= k < n ==> !events[k].SetFlag? && !events[k].StartVerbose?
    ensures Right(states[n], i)
  {
    GivenFlag(states, events, n, i);
    RightExactly(states, events, n, i);
  }

  // The value FLAGS_v has had all along.
  predicate OneFlag(s: State, flag: int) {
    && s.flag == flag && (s.reset.Walking? ==> s.reset.default == None)
    && (forall i :: 0 <= i < |s.sites| ==> s.sites[i].given == flag)
    && forall t :: t in s.adders && (s.adders[t].Ready? || s.adders[t].Assigned?) ==> s.adders[t].default == flag
  }

  lemma {:induction false} GivenFlag(states: seq<State>, events: seq<Event>, n: nat, i: nat)
    requires Run(states, events) && n < |states| && i < |states[n].sites|
    requires forall k :: 0 <= k < n ==> !events[k].SetFlag? && !events[k].StartVerbose?
    ensures states[n].sites[i].given == states[n].flag
  {
    hide Level, LevelIn;
    OneFlagRun(states, events, n);
  }

  lemma {:induction false} OneFlagRun(states: seq<State>, events: seq<Event>, n: nat)
    requires Run(states, events) && n < |states|
    requires forall k :: 0 <= k < n ==> !events[k].SetFlag? && !events[k].StartVerbose?
    ensures OneFlag(states[n], states[0].flag)
  {
    if n > 0 {
      OneFlagRun(states, events, n - 1);
      assert StepOk(states, events, n - 1);
      hide Run;
      OneFlagStep(states[n - 1], events[n - 1], states[0].flag);
    }
  }

  lemma {:induction false} OneFlagStep(s: State, e: Event, flag: int)
    requires Enabled(s, e) && OneFlag(s, flag) && !e.SetFlag? && !e.StartVerbose?
    ensures OneFlag(After(s, e), flag)
  {
    hide Level, LevelIn;
  }

  // ---------- A reset of FLAGS_v ----------

  // Since a walk for the value `v` started in state `s0`, nothing else was reset.
  predicate Since(s0: State, v: int, s: State) {
    && s.flag == s0.flag && |s0.sites| <= |s.sites| && WalkOk(s)
    && (s.reset.Walking? ==> s.reset.default == Some(v) && s.reset.n == |s0.sites|)
    && (forall j :: |s0.sites| <= j < |s.sites| ==> s.sites[j].given == s0.flag)
    && (forall j :: 0 <= j < |s0.sites| && !Ahead(s, j) ==> s.sites[j].given == v)
    && (s.reset.Walking? && s.reset.half ==> s.sites[s.reset.i - 1].given == v)
  }

  predicate Resets(e: Event) {
    e.Swap? || e.StartVerbose? || e.SetFlag?
  }

  lemma {:induction false} SinceStep(s0: State, v: int, s: State, e: Event)
    requires Since(s0, v, s) && Enabled(s, e) && !Resets(e)
    ensures Since(s0, v, After(s, e))
  {
    hide Level, LevelIn;
  }

  lemma {:induction false} SinceRun(states: seq<State>, events: seq<Event>, v: int, m: nat, n: nat)
    requires Run(states, events) && m < n < |states| && events[m] == StartVerbose(v)
    requires forall k :: m < k < n ==> !Resets(events[k])
    ensures Since(states[m], v, states[n])
  {
    hide Level, LevelIn;
    if n == m + 1 {
      assert StepOk(states, events, m);
    } else {
      SinceRun(states, events, v, m, n - 1);
      assert StepOk(states, events, n - 1);
      hide Run, Since;
      SinceStep(states[m], v, states[n - 1], events[n - 1]);
    }
  }

  // FLAGS_v is reset: the sites are walked with the new value, and then it is assigned. From
  // then on a site is right exactly when the list has a level for it or it was in the list
  // when the walk started, unless the value was the old one.
  lemma {:induction false} VerboseExactly(states: seq<State>, events: seq<Event>, v: int, m: nat, n: nat, i: nat)
    requires Run(states, events) && AllFresh(states, events) && m < n < |events|
    requires events[m] == StartVerbose(v) && events[n] == SetFlag(v) && states[n].reset.Quiet?
    requires forall k :: m < k < n ==> !Resets(events[k])
    requires i < |states[n + 1].sites|
    ensures Right(states[n + 1], i) <==>
      Listed(states[n + 1], i) || i < |states[m].sites| || states[m].flag == v
  {
    hide Level, LevelIn;
    SinceRun(states, events, v, m, n);
    assert StepOk(states, events, n);
    assert !Ahead(states[n], i);
    RightExactly(states, events, n + 1, i);
  }

  // A site that is registered while FLAGS_v is reset, and keeps the old default.
  function MissedEvent(k: nat): Event {
    if k == 0 then StartVerbose(1)
    else if k == 1 then Begin(0, Name("a", ""))
    else if k == 2 then ReadFlag(0)
    else if k == 3 then Assign(0)
    else if k == 4 then Insert(0)
    else if k == 5 then Finish
    else SetFlag(1)
  }

  function MissedState(k: nat): State {
    var name, walk := Name("a", ""), Walking(0, 0, false, Some(1));
    if k == 0 then Initial(0)
    else if k == 1 then State(map[], NULL, 0, [], map[], walk)
    else if k == 2 then State(map[], NULL, 0, [], map[0 := Begun(name, NULL)], walk)
    else if k == 3 then State(map[], NULL, 0, [], map[0 := Ready(name, NULL, 0)], walk)
    else if k == 4 then State(map[], NULL, 0, [], map[0 := Assigned(name, NULL, 0, 0)], walk)
    else if k == 5 then State(map[], NULL, 0, [Site(name, 0, 0)], map[0 := Away], walk)
    else if k == 6 then State(map[], NULL, 0, [Site(name, 0, 0)], map[0 := Away], Quiet)
    else State(map[], NULL, 1, [Site(name, 0, 0)], map[0 := Away], Quiet)
  }

  lemma {:induction false} MissedStep(k: nat)
    requires k < 7
    ensures Enabled(MissedState(k), MissedEvent(k)) && MissedState(k + 1) == After(MissedState(k), MissedEvent(k))
  {
    hide Level;
  }

  lemma {:induction false} MissedSite() returns (states: seq<State>, events: seq<Event>)
    ensures Run(states, events) && AllFresh(states, events) && |states| == 8
    ensures states[7].reset.Quiet? && |states[7].sites| == 1 && !Right(states[7], 0)
  {
    hide Level, After, Enabled;
    states, events := seq(8, i requires 0 <= i => MissedState(i)), seq(7, i requires 0 <= i => MissedEvent(i));
    forall i | 0 <= i < |events| ensures StepOk(states, events, i) {
      MissedStep(i);
    }
  }

  // No site is ever dropped or renamed.
  lemma {:induction false} SitesStay(states: seq<State>, events: seq<Event>, m: nat, n: nat, i: nat)
    requires Run(states, events) && m <= n < |states| && i < |states[m].sites|
    ensures i < |states[n].sites| && states[n].sites[i].name == states[m].sites[i].name
  {
    if m < n {
      hide Level, LevelIn;
      SitesStay(states, events, m, n - 1, i);
      assert StepOk(states, events, n - 1);
    }
  }

  // ---------- When a site is right ----------

  predicate ActsFor(e: Event, t: nat) {
    (e.Begin? || e.ReadFlag? || e.Assign? || e.Insert?) && e.t == t
  }

  // What a call has given its site stays while others act.
  lemma {:induction false} AdderStays(states: seq<State>, events: seq<Event>, t: nat, m: nat, n: nat)
    requires Run(states, events) && m <= n < |states|
    requires forall k :: m <= k < n ==> !ActsFor(events[k], t)
    ensures At(states[n], t) == At(states[m], t)
  {
    if m < n {
      hide Level, LevelIn;
      AdderStays(states, events, t, m, n - 1);
      assert StepOk(states, events, n - 1) && !ActsFor(events[n - 1], t);
    }
  }

  // A site given its level at step `m` and inserted at step `n` is right exactly when the
  // list at the remembered address gives it the same level at both times.
  lemma {:induction false} InsertExactly(states: seq<State>, events: seq<Event>, t: nat, m: nat, n: nat)
    requires Run(states, events) && m < n < |events| && events[m] == Assign(t) && events[n] == Insert(t)
    requires forall k :: m < k < n ==> !ActsFor(events[k], t)
    ensures At(states[m], t).Ready?
    ensures var a := At(states[m], t);
      if states[n].current == a.list && states[n].flag == a.default then
        var i := |states[n].sites|;
        && |states[n + 1].sites| == i + 1 && states[n + 1].sites[i].name == a.name
        && (Right(states[n + 1], i) <==>
             LevelIn(states[m].lists, a.list, a.name, a.default) == LevelIn(states[n].lists, a.list, a.name, a.default))
      else states[n + 1].sites == states[n].sites
  {
    hide Level, LevelIn;
    assert StepOk(states, events, m) && StepOk(states, events, n);
    AdderStays(states, events, t, m + 1, n);
  }

  // The condition on a swap is exact: it holds if and only if each call that has given its
  // site a level, from the default level that is still the current one, may insert it.
  lemma {:induction false} FreshExactly(s: State, e: Event)
    requires Enabled(s, e) && e.Swap? && forall t :: t in s.adders && s.adders[t].Assigned? ==> s.adders[t].default == s.flag
    ensures Fresh(s, e) <==> forall t :: t in s.adders && s.adders[t].Assigned? ==> GoesOn(After(s, e), t)
  {
    hide Level, LevelIn;
    var s' := After(s, e);
    forall t | t in s.adders && s.adders[t].Assigned?
      ensures GoesOn(s', t) <==>
        (Remembers(s.adders[t], e.list) ==> s.adders[t].v == LevelIn(s'.lists, e.list, s.adders[t].name, s.adders[t].default))
    {
      InsertAfterSwap(s, e, t);
    }
  }

  ghost predicate GoesOn(s: State, t: nat) {
    Enabled(s, Insert(t)) && SitesOk(After(s, Insert(t)))
  }

  lemma {:induction false} InsertAfterSwap(s: State, e: Event, t: nat)
    requires Enabled(s, e) && e.Swap? && t in s.adders && s.adders[t].Assigned? && s.adders[t].default == s.flag
    ensures GoesOn(After(s, e), t) <==>
      (Remembers(s.adders[t], e.list) ==>
        s.adders[t].v == LevelIn(s.lists[e.list := e.entries], e.list, s.adders[t].name, s.adders[t].default))
  {
    hide Level, LevelIn;
    var s' := After(s, e);
    var s'' := After(s', Insert(t));
    assert forall i :: 0 <= i < |s.sites| ==> Ahead(s'', i);
    if Remembers(s.adders[t], e.list) {
      assert SitesOk(s'') <==> SiteOk(s'', |s.sites|);
    }
  }

  // ---------- Why addresses must not come back too soon ----------

  // A call remembers the address of a list while two resets replace it and put another
  // list in its place.
  function StaleEvent(k: nat): Event {
    if k == 0 then Swap(1, [Entry("a", 1)])
    else if k == 2 then Begin(0, Name("a", ""))
    else if k == 3 then ReadFlag(0)
    else if k == 4 then Assign(0)
    else if k == 5 then Swap(2, [])
    else if k == 7 then Swap(1, [])
    else if k == 9 then Insert(0)
    else Finish
  }

  function StaleState(k: nat): State {
    var name, one := Name("a", ""), [Entry("a", 1)];
    var pc := Assigned(name, 1, 0, 1);
    if k == 0 then Initial(0)
    else if k == 1 then State(map[1 := one], 1, 0, [], map[], Walking(0, 0, false, None))
    else if k == 2 then State(map[1 := one], 1, 0, [], map[], Quiet)
    else if k == 3 then State(map[1 := one], 1, 0, [], map[0 := Begun(name, 1)], Quiet)
    else if k == 4 then State(map[1 := one], 1, 0, [], map[0 := Ready(name, 1, 0)], Quiet)
    else if k == 5 then State(map[1 := one], 1, 0, [], map[0 := pc], Quiet)
    else if k == 6 then State(map[1 := one, 2 := []], 2, 0, [], map[0 := pc], Walking(0, 0, false, None))
    else if k == 7 then State(map[1 := one, 2 := []], 2, 0, [], map[0 := pc], Quiet)
    else if k == 8 then State(map[1 := [], 2 := []], 1, 0, [], map[0 := pc], Walking(0, 0, false, None))
    else if k == 9 then State(map[1 := [], 2 := []], 1, 0, [], map[0 := pc], Quiet)
    else State(map[1 := [], 2 := []], 1, 0, [Site(name, 1, 0)], map[0 := Away], Quiet)
  }

  lemma {:induction false} StaleStep(k: nat)
    requires k < 10
    ensures Enabled(StaleState(k), StaleEvent(k)) && StaleState(k + 1) == After(StaleState(k), StaleEvent(k))
  {
    hide Level;
    Levels();
  }

  // Its site is then inserted with the level of the first list.
  lemma {:induction false} StaleSite() returns (states: seq<State>, events: seq<Event>)
    ensures Run(states, events) && |states| == 11
    ensures states[10].reset.Quiet? && |states[10].sites| == 1 && !Right(states[10], 0)
    ensures !AllFresh(states, events)
  {
    hide Level, After, Enabled;
    states, events := seq(11, i requires 0 <= i => StaleState(i)), seq(10, i requires 0 <= i => StaleEvent(i));
    forall i | 0 <= i < |events| ensures StepOk(states, events, i) {
      StaleStep(i);
    }
    Levels();
    assert states[7] == StaleState(7) && events[7] == StaleEvent(7);
    assert Remembers(states[7].adders[0], events[7].list);
    assert !Fresh(states[7], events[7]);
  }

  lemma {:induction false} Levels()
    ensures Level([Entry("a", 1)], "a", "") == Some(1) && Level([], "a", "") == None
  {
    assert !IsWild("a");
    assert LastNamed([Entry("a", 1)], "a") == Some(1);
  }
}
