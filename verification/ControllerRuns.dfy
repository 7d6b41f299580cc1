/** What the synchronisation of node/task.go keeps over whole runs, and where it loses agreement. */
module ControllerRuns {
  import opened Panel
  import L = Limiter
  import LimiterRuns
  import LimiterCalls
  import P = PeriodicTask
  import opened UserDiff
  import opened Controller

  // ----- what adding and deleting users does to a limiter -----

  ghost function Tags(tag: string, users: seq<UserInfo>): set<string> {
    set u | u in users :: UserTag(tag, u.uuid)
  }

  lemma SplitLast(tag: string, users: seq<UserInfo>)
    requires users != []
    ensures var rest, u := users[..|users| - 1], users[|users| - 1];
            && Uuids(users) == Uuids(rest) + {u.uuid}
            && Tags(tag, users) == Tags(tag, rest) + {UserTag(tag, u.uuid)}
            && forall v :: v in users <==> v in rest || v == u
  {
    hide UserTag;
    var rest, u := users[..|users| - 1], users[|users| - 1];
    assert users == rest + [u];
    assert forall v :: v in users <==> v in rest || v == u;
  }

  lemma {:induction false} DeleteUsersFacts(s: L.State, tag: string, users: seq<UserInfo>)
    ensures var s' := L.DeleteUsers(s, tag, users);
            && s'.uids.Keys == s.uids.Keys - Uuids(users)
            && s'.info == s.info - Tags(tag, users)
  {
    hide UserTag;
    if users == [] {
    } else {
      var rest, u := users[..|users| - 1], users[|users| - 1];
      DeleteUsersFacts(s, tag, rest);
      SplitLast(tag, users);
    }
  }

  /** An entry is one of the added users' or the old one. */
  ghost predicate AddedInfo(s: L.State, tag: string, users: seq<UserInfo>, info: map<string, L.Info>) {
    && info.Keys == s.info.Keys + Tags(tag, users)
    && (forall t :: t in info && t !in Tags(tag, users) ==> info[t] == s.info[t])
    && (forall t :: t in Tags(tag, users) ==>
          exists u :: u in users && UserTag(tag, u.uuid) == t && info[t] == L.InfoOf(u))
  }

  lemma AddedInfoMore(s: L.State, tag: string, users: seq<UserInfo>, info: map<string, L.Info>)
    requires users != [] && AddedInfo(s, tag, users[..|users| - 1], info)
    ensures var u := users[|users| - 1];
            AddedInfo(s, tag, users, info[UserTag(tag, u.uuid) := L.InfoOf(u)])
  {
    hide UserTag;
    hide L.InfoOf;
    hide Tags;
    hide Uuids;
    var rest, u := users[..|users| - 1], users[|users| - 1];
    var info' := info[UserTag(tag, u.uuid) := L.InfoOf(u)];
    SplitLast(tag, users);
    forall t | t in Tags(tag, users)
      ensures exists v :: v in users && UserTag(tag, v.uuid) == t && info'[t] == L.InfoOf(v)
    {
      if t == UserTag(tag, u.uuid) {
        assert u in users;
      } else {
        var v :| v in rest && UserTag(tag, v.uuid) == t && info[t] == L.InfoOf(v);
        assert v in users;
      }
    }
  }

  lemma {:induction false} AddUsersFacts(s: L.State, tag: string, users: seq<UserInfo>)
    ensures var s' := L.AddUsers(s, tag, users);
            && s'.uids.Keys == s.uids.Keys + Uuids(users)
            && AddedInfo(s, tag, users, s'.info)
  {
    hide UserTag;
    if users == [] {
    } else {
      var rest, u := users[..|users| - 1], users[|users| - 1];
      AddUsersFacts(s, tag, rest);
      SplitLast(tag, users);
      AddedInfoMore(s, tag, users, L.AddUsers(s, tag, rest).info);
    }
  }

  // ----- agreement -----

  ghost predicate ListedAs(tag: string, users: seq<UserInfo>, t: string, speed: int) {
    exists u :: u in users && UserTag(tag, u.uuid) == t && u.speedLimit == speed
  }

  ghost predicate EntriesListed(tag: string, users: seq<UserInfo>, info: map<string, L.Info>) {
    forall t :: t in info ==> ListedAs(tag, users, t, info[t].speedLimit)
  }

  /** The limiter knows exactly the listed users, every entry it still has is that of a listed user with
      his speed limit, and the registry leads to it. */
  ghost predicate Agrees(c: State) {
    && c.limits.uids.Keys == Uuids(c.users)
    && EntriesListed(c.tag, c.users, c.limits.info)
    && c.tag in c.registry && c.registry[c.tag] == c.current
  }

  lemma NewAgrees(tag: string, speedLimit: int, users: seq<UserInfo>, alive: map<int, int>)
    ensures var s := L.New(tag, speedLimit, users, alive);
            s.uids.Keys == Uuids(users) && EntriesListed(tag, users, s.info)
            && (forall u :: u in users ==> UserTag(tag, u.uuid) in s.info)
  {
    hide UserTag;
    var s0 := L.State(speedLimit, map[], map[], map[], map[], map[], alive, 0);
    AddUsersFacts(s0, tag, users);
    var s := L.New(tag, speedLimit, users, alive);
    forall t | t in s.info ensures ListedAs(tag, users, t, s.info[t].speedLimit) {
      assert t in Tags(tag, users);
    }
    forall u | u in users ensures UserTag(tag, u.uuid) in s.info {
      assert UserTag(tag, u.uuid) in Tags(tag, users);
    }
  }

  /** The lists of a tick are those the comparison works for. */
  ghost predicate GoodLists(c: State, t: Tick) {
    t.fetch.Fetched? && t.fetch.users.Some? ==>
      DistinctUuids(t.fetch.users.value) && Unambiguous(c.users, t.fetch.users.value)
  }

  lemma DiffUuids(old': seq<UserInfo>, new': seq<UserInfo>, deleted: seq<UserInfo>, added: seq<UserInfo>)
    requires DistinctUuids(old') && Right(old', new', deleted, added)
    ensures Uuids(old') - Uuids(deleted) + Uuids(added) == Uuids(new')
  {
    hide NewTo;
    forall x ensures x in Uuids(old') - Uuids(deleted) + Uuids(added) <==> x in Uuids(new') {
      if x in Uuids(new') {
        var v :| v in new' && v.uuid == x;
        NewToHas(PairsOf(old'), new', v);
        if PairOf(v) in PairsOf(old') {
          var u :| u in old' && PairOf(u) == PairOf(v);
          forall d | d in deleted ensures d.uuid != x {
            if d.uuid == x {
              SameUser(old', d, u);
              assert false;
            }
          }
        }
      }
      if x in Uuids(added) {
        var v :| v in added && v.uuid == x;
        NewToHas(PairsOf(old'), new', v);
      }
      if x in Uuids(old') && x !in Uuids(deleted) {
        var u :| u in old' && u.uuid == x;
        assert PairOf(u) in PairsOf(new');
        var v :| v in new' && PairOf(v) == PairOf(u);
        assert v.uuid == x;
      }
    }
  }

  lemma DiffEntries(c: State, s: L.State, new': seq<UserInfo>, deleted: seq<UserInfo>, added: seq<UserInfo>)
    requires EntriesListed(c.tag, c.users, s.info) && Right(c.users, new', deleted, added)
    ensures EntriesListed(c.tag, new', L.AddUsers(L.DeleteUsers(s, c.tag, deleted), c.tag, added).info)
  {
    hide UserTag;
    hide NewTo;
    var s1 := L.DeleteUsers(s, c.tag, deleted);
    var s2 := L.AddUsers(s1, c.tag, added);
    DeleteUsersFacts(s, c.tag, deleted);
    AddUsersFacts(s1, c.tag, added);
    forall t | t in s2.info ensures ListedAs(c.tag, new', t, s2.info[t].speedLimit) {
      if t in Tags(c.tag, added) {
        var u :| u in added && UserTag(c.tag, u.uuid) == t && s2.info[t] == L.InfoOf(u);
        NewToHas(PairsOf(c.users), new', u);
      } else {
        assert s2.info[t] == s.info[t] && t !in Tags(c.tag, deleted);
        var u :| u in c.users && UserTag(c.tag, u.uuid) == t && u.speedLimit == s.info[t].speedLimit;
        assert u !in deleted;
        assert PairOf(u) in PairsOf(new');
        var v :| v in new' && PairOf(v) == PairOf(u);
      }
    }
  }

  lemma DiffAgrees(c: State, t: Tick, c': State)
    requires Agrees(c) && DistinctUuids(c.users) && GoodLists(c, t)
    requires t.fetch.Fetched? && t.fetch.node.None? && Diffs(c, t, c')
    ensures Agrees(c') && DistinctUuids(c'.users)
  {
    hide Adds;
    hide Compared;
    hide Unambiguous;
    if t.fetch.users.GetOr([]) == [] {
      return;
    }
    var new', r := t.fetch.users.value, t.results;
    if !(t.deleted != [] && !r.delUsers) && !(t.added != [] && !r.addUsers) {
      var s := WithAlive(c.limits, t.fetch.alive);
      var s1 := L.DeleteUsers(s, c.tag, t.deleted);
      RightWhenUnambiguous(c.users, new', t.deleted, t.added);
      DiffUuids(c.users, new', t.deleted, t.added);
      DiffEntries(c, s, new', t.deleted, t.added);
      DeleteUsersFacts(s, c.tag, t.deleted);
      AddUsersFacts(s1, c.tag, t.added);
    }
  }

  /** One tick keeps agreement, whichever core calls fail, as long as it does not panic. */
  lemma TickAgrees(cfg: Config, c: State, t: Tick, c': State)
    requires cfg.name == "" && Agrees(c) && DistinctUuids(c.users)
    requires Next(cfg, c, t, c', false) && GoodLists(c, t)
    ensures Agrees(c') && DistinctUuids(c'.users)
  {
    hide Adds;
    hide Compared;
    hide Unambiguous;
    if t.fetch.Fetched? {
      if t.fetch.node.Some? {
        hide NodeTag;
        hide L.New;
        var tag := NodeTag(cfg.apiHost, t.fetch.node.value);
        NewAgrees(tag, cfg.speedLimit, NewUsers(c, t), t.fetch.alive.GetOr(map[]));
      } else {
        DiffAgrees(c, t, c');
      }
    }
  }

  // ----- runs -----

  /** Between ticks the limiter is used: connections, temporary limits, reports. */
  datatype Event = Synchronise(t: Tick) | Use(e: LimiterRuns.Event)

  ghost predicate Step(cfg: Config, c: State, e: Event, c': State) {
    match e
    case Synchronise(t) => Next(cfg, c, t, c', false)
    case Use(e) =>
      && (e.Connect? || e.Dynamic? || e.Report?)
      && c' == c.(limits := c'.limits) && LimiterRuns.Next(c.tag, c.limits, e, c'.limits)
  }

  /** A connection drops entries or temporary limits, no more. */
  lemma CheckEntries(s: L.State, user: string, ip: string, noSSUDP: bool, now: int)
    ensures var s' := L.Check(s, user, ip, noSSUDP, now).state;
            && s'.uids == s.uids
            && forall t :: t in s'.info ==> t in s.info && s'.info[t].speedLimit == s.info[t].speedLimit
  {
    hide L.GoesOnline;
    hide L.TakeBucket;
    hide L.Rejects;
    hide L.Normal;
    hide L.UserLimit;
    hide L.Rate;
    hide L.DetermineSpeedLimit;
    hide L.Expired;
  }

  lemma UseAgrees(c: State, e: LimiterRuns.Event, limits: L.State)
    requires Agrees(c) && (e.Connect? || e.Dynamic? || e.Report?) && LimiterRuns.Next(c.tag, c.limits, e, limits)
    ensures Agrees(c.(limits := limits))
  {
    hide L.Check;
    hide ListedAs;
    if e.Connect? {
      CheckEntries(c.limits, e.user, e.ip, e.noSSUDP, e.now);
    }
  }

  ghost predicate Run(cfg: Config, states: seq<State>, events: seq<Event>) {
    && |states| == |events| + 1
    && forall i :: 0 <= i < |events| ==> Step(cfg, states[i], events[i], states[i + 1])
  }

  lemma StartAgrees(cfg: Config, first: First, registry: map<string, L.Limiter>, core: map<string, int>, c: State)
    requires first.Answered? && Starts(cfg, first, registry, core, c)
    ensures Agrees(c)
  {
    hide NodeTag;
    hide L.New;
    NewAgrees(c.tag, cfg.speedLimit, c.users, first.alive);
  }

  /** From a started controller without a configured name, over every run of ticks with and without
      failing core calls and every use of the limiter in between, the limiter agrees with the list. */
  lemma {:induction false} RunAgrees(cfg: Config, states: seq<State>, events: seq<Event>, j: nat,
                                     first: First, registry: map<string, L.Limiter>, core: map<string, int>)
    requires cfg.name == "" && Run(cfg, states, events) && j < |states|
    requires first.Answered? && DistinctUuids(first.users) && Starts(cfg, first, registry, core, states[0])
    requires forall i :: 0 <= i < |events| && events[i].Synchronise? ==> GoodLists(states[i], events[i].t)
    ensures Agrees(states[j]) && DistinctUuids(states[j].users)
    decreases j
  {
    hide GoodLists;
    hide Next;
    hide LimiterRuns.Next;
    if j == 0 {
      StartAgrees(cfg, first, registry, core, states[0]);
    } else {
      RunAgrees(cfg, states, events, j - 1, first, registry, core);
      assert Step(cfg, states[j - 1], events[j - 1], states[j]);
      match events[j - 1] {
        case Synchronise(t) => TickAgrees(cfg, states[j - 1], t, states[j]);
        case Use(e) => UseAgrees(states[j - 1], e, states[j].limits);
      }
    }
  }

  /** A list as the panel sends it: no uuid twice, and all of one length. */
  ghost predicate Uniform(users: seq<UserInfo>, n: nat) {
    DistinctUuids(users) && forall u :: u in users ==> |u.uuid| == n
  }

  ghost predicate UniformFetch(f: Fetch, n: nat) {
    f.Fetched? && f.users.Some? ==> Uniform(f.users.value, n)
  }

  lemma StepUsers(cfg: Config, c: State, e: Event, c': State)
    requires Step(cfg, c, e, c')
    ensures c'.users == c.users
            || (e.Synchronise? && e.t.fetch.Fetched? && e.t.fetch.users.Some? && c'.users == e.t.fetch.users.value)
  {
    hide LimiterRuns.Next;
    hide NodeTag;
    hide L.New;
    hide Adds;
    hide Compared;
  }

  lemma UniformIsGood(c: State, t: Tick, n: nat)
    requires Uniform(c.users, n) && UniformFetch(t.fetch, n)
    ensures GoodLists(c, t)
  {
    if t.fetch.Fetched? && t.fetch.users.Some? {
      FixedLengthIsUnambiguous(c.users, t.fetch.users.value);
    }
  }

  lemma {:induction false} RunUniform(cfg: Config, states: seq<State>, events: seq<Event>, j: nat, n: nat)
    requires Run(cfg, states, events) && j < |states| && Uniform(states[0].users, n)
    requires forall i :: 0 <= i < |events| && events[i].Synchronise? ==> UniformFetch(events[i].t.fetch, n)
    ensures Uniform(states[j].users, n)
    decreases j
  {
    hide Uniform;
    if j == 0 {
    } else {
      RunUniform(cfg, states, events, j - 1, n);
      hide Step;
      StepUsers(cfg, states[j - 1], events[j - 1], states[j]);
    }
  }

  lemma RunLength(cfg: Config, states: seq<State>, events: seq<Event>)
    requires Run(cfg, states, events)
    ensures |states| == |events| + 1
  {
  }

  /** The same from the answers of the panel alone: lists without repeated uuids, all of one length, keep the
      limiter in agreement over every run. */
  lemma UniformRunAgrees(cfg: Config, states: seq<State>, events: seq<Event>, j: nat, n: nat,
                         first: First, registry: map<string, L.Limiter>, core: map<string, int>)
    requires cfg.name == "" && Run(cfg, states, events) && j < |states|
    requires first.Answered? && Uniform(first.users, n) && Starts(cfg, first, registry, core, states[0])
    requires forall i :: 0 <= i < |events| && events[i].Synchronise? ==> UniformFetch(events[i].t.fetch, n)
    ensures Agrees(states[j])
  {
    hide Run;
    hide GoodLists;
    hide UniformFetch;
    RunLength(cfg, states, events);
    forall i | 0 <= i < |events| && events[i].Synchronise? ensures GoodLists(states[i], events[i].t) {
      RunUniform(cfg, states, events, i, n);
      UniformIsGood(states[i], events[i].t, n);
    }
    RunAgrees(cfg, states, events, j, first, registry, core);
  }

  // ----- the core -----

  ghost predicate AllSucceed(r: Results) {
    r.delNode && r.cert && r.addNode && r.addUsers && r.delUsers
  }

  const GOOD := Results(true, true, true, true, true, map[])

  /** A reload adds users to the core but takes none away: it leaves the core in agreement exactly when
      no user of the old list is missing in the new one. */
  lemma ReloadCore(cfg: Config, c: State, t: Tick, c': State)
    requires t.fetch.Fetched? && t.fetch.node.Some? && AllSucceed(t.results)
    requires Reloads(cfg, c, t, c', false) && c.core.Keys == Uuids(c.users)
    ensures c'.core.Keys == Uuids(c'.users) <==> Uuids(c.users) <= Uuids(NewUsers(c, t))
  {
    hide NodeTag;
    hide L.New;
  }

  /** A reload whose list has lost a user: the core still lets him in. */
  lemma ReloadKeepsLostUser(l: L.Limiter) returns (cfg: Config, c: State, t: Tick, c': State)
    ensures t.fetch.Fetched? && t.fetch.node.Some? && AllSucceed(t.results) && Reloads(cfg, c, t, c', false)
    ensures c.core.Keys == Uuids(c.users) && "b" in c'.core && "b" !in Uuids(c'.users)
  {
    var u, v := UserInfo(1, "a", 0, 0), UserInfo(2, "b", 0, 0);
    cfg := Config("", "", 0, "");
    c := State("n", [u, v], l, L.New("n", 0, [u, v], map[]), map["n" := l], map["a" := 1, "b" := 2]);
    t := Tick(Fetched(Some(NodeInfo("x", 1, false, 60, 60)), Some([u]), None), GOOD, l, [], []);
    c' := Rebuilt(cfg, c.(users := [u]), NodeInfo("x", 1, false, 60, 60), None, l);
    assert u in c.users && v in c.users && u in [u];
  }

  lemma DiffCore(c: State, t: Tick, c': State)
    requires t.fetch.Fetched? && t.fetch.node.None? && AllSucceed(t.results)
    requires DistinctUuids(c.users) && GoodLists(c, t) && Diffs(c, t, c') && c.core.Keys == Uuids(c.users)
    ensures c'.core.Keys == Uuids(c'.users)
  {
    hide Compared;
    hide Unambiguous;
    if t.fetch.users.GetOr([]) != [] {
      RightWhenUnambiguous(c.users, t.fetch.users.value, t.deleted, t.added);
      DiffUuids(c.users, t.fetch.users.value, t.deleted, t.added);
    }
  }

  /** A tick whose core calls succeed and whose reload, if it is one, drops no user. */
  ghost predicate Smooth(c: State, t: Tick) {
    t.fetch.Fetched? ==>
      AllSucceed(t.results) && (t.fetch.node.Some? ==> Uuids(c.users) <= Uuids(NewUsers(c, t)))
  }

  lemma StartCore(cfg: Config, first: First, registry: map<string, L.Limiter>, c: State)
    requires first.Answered? && Starts(cfg, first, registry, map[], c)
    ensures c.core.Keys == Uuids(c.users)
  {
    hide NodeTag;
    hide L.New;
  }

  lemma StepCore(cfg: Config, c: State, t: Tick, c': State)
    requires Next(cfg, c, t, c', false) && DistinctUuids(c.users) && GoodLists(c, t) && Smooth(c, t)
    requires c.core.Keys == Uuids(c.users)
    ensures c'.core.Keys == Uuids(c'.users)
  {
    hide Reloads;
    hide Diffs;
    if t.fetch.Fetched? {
      if t.fetch.node.Some? {
        ReloadCore(cfg, c, t, c');
      } else {
        DiffCore(c, t, c');
      }
    }
  }

  /** Over runs of such ticks the core lets in exactly the listed users. */
  lemma {:induction false} RunCore(cfg: Config, states: seq<State>, events: seq<Event>, j: nat,
                                   first: First, registry: map<string, L.Limiter>)
    requires cfg.name == "" && Run(cfg, states, events) && j < |states|
    requires first.Answered? && DistinctUuids(first.users) && Starts(cfg, first, registry, map[], states[0])
    requires forall i :: 0 <= i < |events| && events[i].Synchronise? ==>
               GoodLists(states[i], events[i].t) && Smooth(states[i], events[i].t)
    ensures states[j].core.Keys == Uuids(states[j].users)
    decreases j
  {
    hide GoodLists;
    hide Smooth;
    hide Agrees;
    hide Next;
    hide LimiterRuns.Next;
    if j == 0 {
      StartCore(cfg, first, registry, states[0]);
    } else {
      RunCore(cfg, states, events, j - 1, first, registry);
      RunAgrees(cfg, states, events, j - 1, first, registry, map[]);
      assert Step(cfg, states[j - 1], events[j - 1], states[j]);
      if events[j - 1].Synchronise? {
        StepCore(cfg, states[j - 1], events[j - 1].t, states[j]);
      }
    }
  }

  // ----- what a tick leaves -----

  /** The limiter is told of the difference: there is a list, and the core took all of it. */
  ghost predicate Updates(t: Tick) {
    && t.fetch.Fetched? && t.fetch.node.None? && t.fetch.users.Some? && t.fetch.users.value != []
    && (t.deleted == [] || t.results.delUsers) && (t.added == [] || t.results.addUsers)
  }

  /** The list afterwards: that of the panel after a reload that brings one, even if it then fails, and after a
      difference the core took; else the old one. */
  lemma TickUsers(cfg: Config, c: State, t: Tick, c': State, panicked: bool)
    requires Next(cfg, c, t, c', panicked)
    ensures c'.users ==
            if t.fetch.Fetched? && t.fetch.users.Some? && (t.fetch.node.Some? || Updates(t)) then t.fetch.users.value
            else c.users
  {
    hide NodeTag;
    hide L.New;
    hide Adds;
    hide Compared;
  }

  /** The tag afterwards: a reload of a node without a name, once the old node is deleted, makes it from the host of
      the panel, the type and the number of the node. */
  lemma TickTag(cfg: Config, c: State, t: Tick, c': State, panicked: bool)
    requires Next(cfg, c, t, c', panicked)
    ensures c'.tag ==
            if cfg.name == "" && t.fetch.Fetched? && t.fetch.node.Some? && t.results.delNode
            then "[" + cfg.apiHost + "]-" + t.fetch.node.value.kind + ":" + Itoa(t.fetch.node.value.id)
            else c.tag
  {
    hide L.New;
    hide Adds;
    hide Compared;
    hide Itoa;
  }

  lemma DiffNodeLimit(c: State, t: Tick, c': State)
    requires t.fetch.Fetched? && t.fetch.node.None? && Diffs(c, t, c')
    ensures c'.limits.speedLimit == c.limits.speedLimit
  {
    hide Adds;
    hide Compared;
    hide L.DeleteUsers;
    hide L.AddUsers;
    var s := WithAlive(c.limits, t.fetch.alive);
    LimiterRuns.DeleteUsersKeeps(s, c.tag, t.deleted);
    LimiterRuns.AddUsersKeeps(L.DeleteUsers(s, c.tag, t.deleted), c.tag, t.added);
  }

  lemma ReloadNodeLimit(cfg: Config, c: State, t: Tick, c': State, panicked: bool)
    requires t.fetch.Fetched? && t.fetch.node.Some? && Reloads(cfg, c, t, c', panicked)
    requires c.limits.speedLimit == cfg.speedLimit
    ensures c'.limits.speedLimit == cfg.speedLimit
  {
    hide NodeTag;
    hide Adds;
    var tag := NodeTag(cfg.apiHost, t.fetch.node.value);
    LimiterCalls.NewLimiter(tag, cfg.speedLimit, NewUsers(c, t), t.fetch.alive.GetOr(map[]));
    hide L.New;
  }

  /** The limit of the node is that of the configuration, after a start and any tick. */
  lemma TickNodeLimit(cfg: Config, c: State, t: Tick, c': State, panicked: bool)
    requires Next(cfg, c, t, c', panicked) && c.limits.speedLimit == cfg.speedLimit
    ensures c'.limits.speedLimit == cfg.speedLimit
  {
    hide Reloads;
    if t.fetch.Fetched? && t.fetch.node.Some? {
      ReloadNodeLimit(cfg, c, t, c', panicked);
    } else if t.fetch.Fetched? {
      DiffNodeLimit(c, t, c');
    }
  }

  lemma StartMeans(cfg: Config, first: First, registry: map<string, L.Limiter>, core: map<string, int>, c: State)
    requires first.Answered? && Starts(cfg, first, registry, core, c)
    ensures c.limits.speedLimit == cfg.speedLimit && c.limits.alive == first.alive && c.users == first.users
    ensures c.tag == if cfg.name == "" then "[" + cfg.apiHost + "]-" + first.node.kind + ":" + Itoa(first.node.id) else cfg.name
  {
    hide Itoa;
    LimiterCalls.NewLimiter(c.tag, cfg.speedLimit, c.users, first.alive);
    hide L.New;
  }

  lemma UseNodeLimit(s: L.State, tag: string, e: LimiterRuns.Event, s': L.State)
    requires LimiterRuns.Next(tag, s, e, s') && (e.Connect? || e.Dynamic? || e.Report?)
    ensures s'.speedLimit == s.speedLimit && s'.alive == s.alive
  {
    if e.Connect? {
      LimiterCalls.InfoAfter(s, e.user, e.ip, e.noSSUDP, e.now);
      hide L.Check;
    }
  }

  lemma {:induction false} RunNodeLimit(cfg: Config, states: seq<State>, events: seq<Event>, j: nat)
    requires Run(cfg, states, events) && j < |states| && states[0].limits.speedLimit == cfg.speedLimit
    ensures states[j].limits.speedLimit == cfg.speedLimit
    decreases j
  {
    hide Next;
    hide LimiterRuns.Next;
    if j == 0 {
    } else {
      RunNodeLimit(cfg, states, events, j - 1);
      assert Step(cfg, states[j - 1], events[j - 1], states[j]);
      match events[j - 1] {
        case Synchronise(t) => TickNodeLimit(cfg, states[j - 1], t, states[j], false);
        case Use(e) => UseNodeLimit(states[j - 1].limits, states[j - 1].tag, e, states[j].limits);
      }
    }
  }

  // ----- the devices the panel knows -----

  /** The user with this uid is deleted by the difference. */
  ghost predicate DeletesUid(t: Tick, uid: int) {
    Updates(t) && exists d :: d in t.deleted && d.id == uid
  }

  /** The panel's count of a uid's devices. */
  ghost predicate CountIs(s: L.State, uid: int, count: Option<int>) {
    if count.Some? then uid in s.alive && s.alive[uid] == count.value else uid !in s.alive
  }

  function CountIn(m: map<int, int>, uid: int): Option<int> {
    if uid in m then Some(m[uid]) else None
  }

  /** After a tick a uid has the count of the alive list that came with it, if one came, and else the one it had;
      but none if the tick deletes its user, or makes a new limiter without such a list. A reload that cannot
      delete the old node leaves all counts. */
  lemma TickAlive(cfg: Config, c: State, t: Tick, c': State, panicked: bool, uid: int)
    requires Next(cfg, c, t, c', panicked) && t.fetch.Fetched?
    ensures CountIs(c'.limits, uid,
              if t.fetch.node.Some? && !t.results.delNode then CountIn(c.limits.alive, uid)
              else if t.fetch.node.None? && DeletesUid(t, uid) then None
              else if t.fetch.alive.Some? then CountIn(t.fetch.alive.value, uid)
              else if t.fetch.node.Some? && cfg.name == "" then None
              else CountIn(c.limits.alive, uid))
  {
    hide NodeTag;
    hide Adds;
    hide Compared;
    if t.fetch.node.Some? {
      var tag := NodeTag(cfg.apiHost, t.fetch.node.value);
      LimiterCalls.NewLimiter(tag, cfg.speedLimit, NewUsers(c, t), t.fetch.alive.GetOr(map[]));
      hide L.New;
    } else {
      DiffAlive(c, t, c', uid);
    }
  }

  lemma DiffAlive(c: State, t: Tick, c': State, uid: int)
    requires t.fetch.Fetched? && t.fetch.node.None? && Diffs(c, t, c')
    ensures CountIs(c'.limits, uid,
              if DeletesUid(t, uid) then None
              else if t.fetch.alive.Some? then CountIn(t.fetch.alive.value, uid)
              else CountIn(c.limits.alive, uid))
  {
    hide Adds;
    hide Compared;
    var s := WithAlive(c.limits, t.fetch.alive);
    var s1 := L.DeleteUsers(s, c.tag, t.deleted);
    LimiterRuns.AddUsersKeeps(s1, c.tag, t.added);
    DeletedAlive(s, c.tag, t.deleted, uid);
    hide UserTag;
  }

  lemma {:induction false} DeletedAlive(s: L.State, tag: string, users: seq<UserInfo>, uid: int)
    ensures CountIs(L.DeleteUsers(s, tag, users), uid,
              if exists d :: d in users && d.id == uid then None else CountIn(s.alive, uid))
  {
    hide UserTag;
    if users == [] {
    } else {
      var n := |users| - 1;
      DeletedAlive(s, tag, users[..n], uid);
      assert users == users[..n] + [users[n]];
      assert (exists d :: d in users && d.id == uid) <==>
             (exists d :: d in users[..n] && d.id == uid) || users[n].id == uid by {
        if d :| d in users && d.id == uid {
          assert d in users[..n] || d == users[n];
        }
        assert users[n] in users && forall d :: d in users[..n] ==> d in users;
      }
    }
  }

  /** The step may change the count of the uid: it brings an alive list, makes a new limiter, or deletes a user
      with this uid. */
  ghost predicate Recounts(cfg: Config, e: Event, uid: int) {
    && e.Synchronise? && e.t.fetch.Fetched?
    && (e.t.fetch.alive.Some? || (e.t.fetch.node.Some? && cfg.name == "") || DeletesUid(e.t, uid))
  }

  /** Over every run: from a tick on that brought an alive list and deleted nobody with this uid, the limiter has
      the announced count of the uid until a step recounts it. */
  lemma {:induction false} RunAlive(cfg: Config, states: seq<State>, events: seq<Event>, i: nat, j: nat, uid: int)
    requires Run(cfg, states, events) && i < j < |states| && events[i].Synchronise?
    requires var f := events[i].t.fetch; f.Fetched? && f.alive.Some? && (f.node.Some? ==> events[i].t.results.delNode)
    requires !DeletesUid(events[i].t, uid)
    requires forall k :: i < k < j ==> !Recounts(cfg, events[k], uid)
    ensures CountIs(states[j].limits, uid, CountIn(events[i].t.fetch.alive.value, uid))
    decreases j
  {
    hide Next;
    hide LimiterRuns.Next;
    assert Step(cfg, states[j - 1], events[j - 1], states[j]);
    if j == i + 1 {
      TickAlive(cfg, states[i], events[i].t, states[j], false, uid);
    } else {
      RunAlive(cfg, states, events, i, j - 1, uid);
      match events[j - 1] {
        case Synchronise(t) =>
          if t.fetch.Fetched? {
            TickAlive(cfg, states[j - 1], t, states[j], false, uid);
          } else {
            FailedFetch(cfg, states[j - 1], t, states[j]);
          }
        case Use(e) => UseNodeLimit(states[j - 1].limits, states[j - 1].tag, e, states[j].limits);
      }
    }
  }

  lemma FailedFetch(cfg: Config, c: State, t: Tick, c': State)
    requires Next(cfg, c, t, c', false) && !t.fetch.Fetched?
    ensures c' == c
  {
    hide Reloads;
    hide Diffs;
  }

  /** So the next connection of a user is judged by the announced count of his devices. */
  lemma ConnectionIsJudged(cfg: Config, states: seq<State>, events: seq<Event>, i: nat, j: nat, user: string,
                           text: string, ip: string, noSSUDP: bool, now: int)
    requires Run(cfg, states, events) && i < j < |states| && events[i].Synchronise?
    requires var f := events[i].t.fetch; f.Fetched? && f.alive.Some? && (f.node.Some? ==> events[i].t.results.delNode)
    requires user in states[j].limits.info && LimiterCalls.Names(text, ip)
    requires !DeletesUid(events[i].t, states[j].limits.info[user].uid)
    requires forall k :: i < k < j ==> !Recounts(cfg, events[k], states[j].limits.info[user].uid)
    ensures var s, u, alive := states[j].limits, states[j].limits.info[user], events[i].t.fetch.alive.value;
            L.Check(s, user, text, noSSUDP, now).reject <==>
            && noSSUDP && !(user in s.online && ip in s.online[user]) && ip !in s.oldOnline
            && u.uid in alive && 0 < u.deviceLimit <= alive[u.uid]
  {
    RunAlive(cfg, states, events, i, j, states[j].limits.info[user].uid);
    LimiterCalls.RejectedWhen(states[j].limits, user, text, ip, noSSUDP, now);
    hide Run;
    hide L.Check;
  }

  // ----- what stays in the registry -----

  /** The step puts a new limiter under the tag. */
  ghost predicate Replaces(cfg: Config, e: Event, tag: string) {
    && cfg.name == "" && e.Synchronise? && e.t.fetch.Fetched? && e.t.fetch.node.Some? && e.t.results.delNode
    && NodeTag(cfg.apiHost, e.t.fetch.node.value) == tag
  }

  lemma StepRegistry(cfg: Config, c: State, e: Event, c': State, tag: string)
    requires Step(cfg, c, e, c') && tag in c.registry
    ensures tag in c'.registry
    ensures c'.registry[tag] == if Replaces(cfg, e, tag) then e.t.made else c.registry[tag]
  {
    hide NodeTag;
    hide L.New;
    hide Adds;
    hide Compared;
    hide LimiterRuns.Next;
  }

  /** No tick takes a limiter out of the registry. Over every run the limiter registered under a tag is still
      that one exactly when no reload since came back to this tag: the limiter of a tag the node has given
      up stays, with the users it had. */
  lemma {:induction false} LimiterStays(cfg: Config, states: seq<State>, events: seq<Event>, i: nat, j: nat, tag: string)
    requires Run(cfg, states, events) && i <= j < |states| && tag in states[i].registry
    requires forall k :: i <= k < j && Replaces(cfg, events[k], tag) ==> events[k].t.made != states[i].registry[tag]
    ensures tag in states[j].registry
    ensures states[j].registry[tag] == states[i].registry[tag] <==>
            forall k :: i <= k < j ==> !Replaces(cfg, events[k], tag)
    decreases j - i
  {
    hide Step;
    hide Replaces;
    if i == j {
    } else {
      LimiterStays(cfg, states, events, i, j - 1, tag);
      StepRegistry(cfg, states[j - 1], events[j - 1], states[j], tag);
    }
  }

  // ----- where agreement is lost -----

  /** A reload that changes the type of the node: its old limiter is still registered under a tag that no
      node has any more. */
  lemma ReloadLeavesOldLimiter(l: L.Limiter, made: L.Limiter) returns (cfg: Config, c: State, t: Tick, c': State)
    requires made != l
    ensures cfg.name == "" && Agrees(c) && t.fetch.Fetched? && t.fetch.node.Some? && Reloads(cfg, c, t, c', false)
    ensures c.tag != c'.tag && c.tag in c'.registry && c'.registry[c.tag] == l && c'.current != l
  {
    cfg := Config("", "", 0, "");
    var old', new' := NodeInfo("a", 1, false, 60, 60), NodeInfo("b", 1, false, 60, 60);
    var tag := NodeTag("", old');
    c := State(tag, [], l, L.New(tag, 0, [], map[]), map[tag := l], map[]);
    t := Tick(Fetched(Some(new'), None, None), GOOD, made, [], []);
    c' := Rebuilt(cfg, c, new', None, made);
    assert NodeTag("", old')[3] == 'a' && NodeTag("", new')[3] == 'b';
  }

  /** Every user has an entry. */
  ghost predicate Complete(c: State) {
    forall u :: u in c.users ==> UserTag(c.tag, u.uuid) in c.limits.info
  }

  /** No user came or went, and no user who still has an entry got another speed limit. */
  ghost predicate KeepsLimits(c: State, users: seq<UserInfo>) {
    && Uuids(c.users) == Uuids(users)
    && forall u, v :: u in c.users && v in users && u.uuid == v.uuid && UserTag(c.tag, u.uuid) in c.limits.info ==>
         u.speedLimit == v.speedLimit
  }

  /** Two lists that both account for the entries of the limiter give every user with an entry one limit. */
  lemma ListedTwice(tag: string, old': seq<UserInfo>, new': seq<UserInfo>, info: map<string, L.Info>, u: UserInfo, v: UserInfo)
    requires DistinctUuids(old') && DistinctUuids(new') && EntriesListed(tag, old', info) && EntriesListed(tag, new', info)
    requires u in old' && v in new' && u.uuid == v.uuid && UserTag(tag, u.uuid) in info
    ensures u.speedLimit == v.speedLimit
  {
    hide UserTag;
    var t := UserTag(tag, u.uuid);
    var w :| w in old' && UserTag(tag, w.uuid) == t && w.speedLimit == info[t].speedLimit;
    UserTagInjective(tag, u.uuid, w.uuid);
    SameUser(old', u, w);
    var x :| x in new' && UserTag(tag, x.uuid) == t && x.speedLimit == info[t].speedLimit;
    UserTagInjective(tag, v.uuid, x.uuid);
    SameUser(new', v, x);
  }

  lemma KeptLimitsListed(c: State, users: seq<UserInfo>)
    requires EntriesListed(c.tag, c.users, c.limits.info) && KeepsLimits(c, users)
    ensures EntriesListed(c.tag, users, c.limits.info)
  {
    hide UserTag;
    forall t | t in c.limits.info ensures ListedAs(c.tag, users, t, c.limits.info[t].speedLimit) {
      var u :| u in c.users && UserTag(c.tag, u.uuid) == t && u.speedLimit == c.limits.info[t].speedLimit;
      assert u.uuid in Uuids(users);
      var v :| v in users && v.uuid == u.uuid;
    }
  }

  /** A reload of a node with a configured name replaces the list but not the limiter: agreement survives
      exactly when no user came or went and none who still has an entry got another speed limit. */
  lemma NamedReload(cfg: Config, c: State, t: Tick, c': State)
    requires cfg.name != "" && Agrees(c)
    requires t.fetch.Fetched? && t.fetch.node.Some? && Reloads(cfg, c, t, c', false)
    requires DistinctUuids(c.users) && DistinctUuids(NewUsers(c, t))
    ensures Agrees(c') <==> KeepsLimits(c, NewUsers(c, t))
  {
    var users, info := NewUsers(c, t), c.limits.info;
    assert c'.users == users && c'.limits.info == info && c'.limits.uids == c.limits.uids && c'.tag == c.tag;
    hide Reloads;
    hide UserTag;
    if KeepsLimits(c, users) {
      KeptLimitsListed(c, users);
    }
    if Agrees(c') {
      forall u, v | u in c.users && v in users && u.uuid == v.uuid && UserTag(c.tag, u.uuid) in info
        ensures u.speedLimit == v.speedLimit
      {
        ListedTwice(c.tag, c.users, users, info, u, v);
      }
    }
  }

  /** While every user has an entry, that means the same (uuid, speed limit) pairs. */
  lemma KeepsLimitsIsSamePairs(c: State, users: seq<UserInfo>)
    requires Complete(c) && DistinctUuids(c.users) && DistinctUuids(users)
    ensures KeepsLimits(c, users) <==> PairsOf(c.users) == PairsOf(users)
  {
    hide UserTag;
    if KeepsLimits(c, users) {
      forall p: Pair ensures p in PairsOf(c.users) <==> p in PairsOf(users) {
        if p in PairsOf(c.users) {
          var u :| u in c.users && PairOf(u) == p;
          assert u.uuid in Uuids(users);
          var v :| v in users && v.uuid == u.uuid;
          assert PairOf(v) == p;
        }
        if p in PairsOf(users) {
          var v :| v in users && PairOf(v) == p;
          assert v.uuid in Uuids(c.users);
          var u :| u in c.users && u.uuid == v.uuid;
          assert PairOf(u) == p;
        }
      }
    }
    if PairsOf(c.users) == PairsOf(users) {
      forall u | u in c.users ensures exists v :: v in users && PairOf(v) == PairOf(u) {
        assert PairOf(u) in PairsOf(users);
      }
      forall v | v in users ensures exists u :: u in c.users && PairOf(u) == PairOf(v) {
        assert PairOf(v) in PairsOf(c.users);
      }
      forall x ensures x in Uuids(c.users) <==> x in Uuids(users) {
      }
      forall u, v | u in c.users && v in users && u.uuid == v.uuid ensures u.speedLimit == v.speedLimit {
        var w :| w in users && PairOf(w) == PairOf(u);
        SameUser(users, v, w);
      }
    }
  }

  lemma OneUser(u: UserInfo, m: map<string, int>)
    requires u.uuid in m && m[u.uuid] == u.id
    ensures Adds(m, [u], m) && DistinctUuids([u])
  {
    assert u in [u];
  }

  /** A reload of a named node in which a user gets another speed limit: the list has it, the limiter not. */
  lemma NamedReloadLosesAgreement(l: L.Limiter) returns (cfg: Config, c: State, t: Tick, c': State)
    ensures cfg.name != "" && Agrees(c) && t.fetch.Fetched? && t.fetch.node.Some? && Reloads(cfg, c, t, c', false)
    ensures AllSucceed(t.results) && !Agrees(c')
  {
    var u, v := UserInfo(1, "a", 0, 1), UserInfo(1, "a", 7, 1);
    cfg := Config("", "n", 0, "");
    c := State("n", [u], l, L.New("n", 0, [u], map[]), map["n" := l], map["a" := 1]);
    t := Tick(Fetched(Some(NodeInfo("x", 1, false, 60, 60)), Some([v]), None), GOOD, l, [], []);
    c' := c.(users := [v]);
    NewAgrees("n", 0, [u], map[]);
    OneUser(v, c.core);
    assert PairOf(v) in PairsOf([v]) && PairOf(v) !in PairsOf([u]) by {
      assert v in [v];
    }
    NamedReload(cfg, c, t, c');
    KeepsLimitsIsSamePairs(c, [v]);
  }

  /** Every user has an entry with the device limit of his list. */
  ghost predicate DevicesCurrent(tag: string, users: seq<UserInfo>, info: map<string, L.Info>) {
    forall u :: u in users ==> var t := UserTag(tag, u.uuid); t in info && info[t].deviceLimit == u.deviceLimit
  }

  lemma NewUserEntry(c: State, s1: L.State, s': L.State, new': seq<UserInfo>, deleted: seq<UserInfo>,
                     added: seq<UserInfo>, v: UserInfo)
    requires DistinctUuids(c.users) && DistinctUuids(new') && Right(c.users, new', deleted, added)
    requires DevicesCurrent(c.tag, c.users, c.limits.info)
    requires s1.info == c.limits.info - Tags(c.tag, deleted) && AddedInfo(s1, c.tag, added, s'.info)
    requires v in new'
    ensures UserTag(c.tag, v.uuid) in s'.info
    ensures PairOf(v) !in PairsOf(c.users) ==> s'.info[UserTag(c.tag, v.uuid)].deviceLimit == v.deviceLimit
    ensures forall u :: u in c.users && PairOf(u) == PairOf(v) ==>
              s'.info[UserTag(c.tag, v.uuid)].deviceLimit == u.deviceLimit
  {
    hide UserTag;
    hide NewTo;
    var t := UserTag(c.tag, v.uuid);
    NewToHas(PairsOf(c.users), new', v);
    if PairOf(v) !in PairsOf(c.users) {
      assert t in Tags(c.tag, added);
      var w :| w in added && UserTag(c.tag, w.uuid) == t && s'.info[t] == L.InfoOf(w);
      NewToHas(PairsOf(c.users), new', w);
      UserTagInjective(c.tag, w.uuid, v.uuid);
      SameUser(new', w, v);
    } else {
      var u :| u in c.users && PairOf(u) == PairOf(v);
      forall d | d in deleted ensures UserTag(c.tag, d.uuid) != t {
        UserTagInjective(c.tag, d.uuid, v.uuid);
        if d.uuid == v.uuid {
          SameUser(c.users, d, u);
          assert false;
        }
      }
      forall a | a in added ensures UserTag(c.tag, a.uuid) != t {
        UserTagInjective(c.tag, a.uuid, v.uuid);
        NewToHas(PairsOf(c.users), new', a);
        if a.uuid == v.uuid {
          SameUser(new', a, v);
          assert false;
        }
      }
      assert s'.info[t] == c.limits.info[t];
      forall w | w in c.users && PairOf(w) == PairOf(v) ensures w == u {
        SameUser(c.users, w, u);
      }
    }
  }

  /** The comparison does not look at device limits: after a tick they are current exactly when no user
      who kept his speed limit got a new device limit. */
  lemma DeviceLimitsGoStale(c: State, new': seq<UserInfo>, deleted: seq<UserInfo>, added: seq<UserInfo>)
    requires DistinctUuids(c.users) && DistinctUuids(new') && Right(c.users, new', deleted, added)
    requires DevicesCurrent(c.tag, c.users, c.limits.info)
    ensures var s' := L.AddUsers(L.DeleteUsers(c.limits, c.tag, deleted), c.tag, added);
            DevicesCurrent(c.tag, new', s'.info) <==>
            forall u, v :: u in c.users && v in new' && PairOf(u) == PairOf(v) ==> u.deviceLimit == v.deviceLimit
  {
    hide UserTag;
    var s1 := L.DeleteUsers(c.limits, c.tag, deleted);
    var s' := L.AddUsers(s1, c.tag, added);
    DeleteUsersFacts(c.limits, c.tag, deleted);
    AddUsersFacts(s1, c.tag, added);
    forall v | v in new'
      ensures UserTag(c.tag, v.uuid) in s'.info
      ensures PairOf(v) !in PairsOf(c.users) ==> s'.info[UserTag(c.tag, v.uuid)].deviceLimit == v.deviceLimit
      ensures forall u :: u in c.users && PairOf(u) == PairOf(v) ==>
                s'.info[UserTag(c.tag, v.uuid)].deviceLimit == u.deviceLimit
    {
      NewUserEntry(c, s1, s', new', deleted, added, v);
    }
  }

  lemma SameKeys(u: UserInfo, v: UserInfo)
    requires u.uuid == v.uuid && u.speedLimit == v.speedLimit
    ensures Compared([u], [v], [], [])
  {
    assert Key(u) == Key(v);
    assert [v][..0] == [];
    assert Keys([u]) == {Key(u)} && Keys([v]) == {Key(v)} && Keys([]) == {};
  }

  /** A user with a new device limit and nothing else: the tick succeeds and keeps agreement, but the limiter
      goes on with the old limit. */
  lemma NewDeviceLimitIsIgnored(l: L.Limiter) returns (c: State, t: Tick, c': State)
    ensures Agrees(c) && DevicesCurrent(c.tag, c.users, c.limits.info)
    ensures t.fetch.Fetched? && t.fetch.node.None? && AllSucceed(t.results) && Diffs(c, t, c')
    ensures Agrees(c') && !DevicesCurrent(c'.tag, c'.users, c'.limits.info)
  {
    var u, v := UserInfo(1, "a", 0, 1), UserInfo(1, "a", 0, 2);
    c := State("n", [u], l, L.New("n", 0, [u], map[]), map["n" := l], map["a" := 1]);
    t := Tick(Fetched(None, Some([v]), None), GOOD, l, [], []);
    c' := c.(users := [v]);
    NewAgrees("n", 0, [u], map[]);
    SameKeys(u, v);
    assert c.limits.info == map[UserTag("n", "a") := L.InfoOf(u)];
    assert u in [u] && v in [v];
    assert Uuids([u]) == Uuids([v]) == {"a"};
    assert c'.limits.info == c.limits.info;
  }

  // ----- the intervals -----

  /** A restart closes the channel the task waits on and starts one new loop on a new one, with the given
      interval; it happens exactly when a new interval other than zero is announced. */
  lemma RestartedWhen(s: P.State, announced: int, interval: int)
    requires s.running && s.closes != []
    ensures var s', n := Restarted(s, announced, interval), |s.closes|;
            if announced == 0 || announced == s.interval then s' == s
            else
              && s'.running && s'.interval == interval && s'.loops == s.loops + [P.Starting(false)]
              && |s'.closes| == n + 1 && s'.closes[n] == 0 && s'.closes[n - 1] == s.closes[n - 1] + 1
              && s'.closes[..n - 1] == s.closes[..n - 1]
  {
  }

  /** The tick runs inside the monitor task. A reload that gives this task a new interval leaves two loops
      of it, and only such a reload does. */
  lemma ReloadDoublesMonitor(s: P.State, i: nat, pull: int)
    requires P.Invariant(s) && s.running && P.OneLive(s) && i < |s.loops| && s.loops[i].Executing?
    ensures P.OneLive(Restarted(s, pull, pull)) <==> pull == 0 || pull == s.interval
  {
    if pull != 0 && pull != s.interval {
      P.RestartFromWithin(s.(interval := pull), i);
    }
  }

  /** Such a tick: the monitor runs every 60 seconds, and the panel now asks for 30. */
  lemma MonitorIsDoubled()
    ensures var s := P.State(60, true, [0], [P.Executing], false);
            P.Invariant(s) && P.OneLive(s) && !P.OneLive(Restarted(s, 30, 30))
  {
    var s := P.State(60, true, [0], [P.Executing], false);
    ReloadDoublesMonitor(s, 0, 30);
  }

  /** A reload may as well meet the report task in its Execute, and then leaves two loops of that task, unless
      it keeps its interval. */
  lemma ReloadDoublesReport(s: P.State, i: nat, push: int, pull: int)
    requires P.Invariant(s) && s.running && P.OneLive(s) && i < |s.loops| && s.loops[i].Executing?
    ensures P.OneLive(Restarted(s, push, pull)) <==> push == 0 || push == s.interval
  {
    if push != 0 && push != s.interval {
      P.RestartFromWithin(s.(interval := pull), i);
    }
  }

  // ----- ticks of a controller -----

  /** The report task after the ticks of a controller. */
  ghost function ReportTask(s: P.State, inputs: seq<(Fetch, Results)>): (s': P.State)
    requires s.running ==> s.closes != []
    ensures s'.running ==> s'.closes != []
  {
    if inputs == [] then s
    else
      var before, (fetch, r) := ReportTask(s, inputs[..|inputs| - 1]), inputs[|inputs| - 1];
      if ReloadsFully(fetch, r) then Restarted(before, fetch.node.value.pushInterval, fetch.node.value.pullInterval)
      else before
  }

  /** The monitor task after the ticks of a controller. */
  ghost function MonitorTask(s: P.State, inputs: seq<(Fetch, Results)>): (s': P.State)
    requires s.running ==> s.closes != []
    ensures s'.running ==> s'.closes != []
  {
    if inputs == [] then s
    else
      var before, (fetch, r) := MonitorTask(s, inputs[..|inputs| - 1]), inputs[|inputs| - 1];
      if ReloadsFully(fetch, r) then Restarted(before, fetch.node.value.pullInterval, fetch.node.value.pullInterval)
      else before
  }

  /** The tick announces this pull interval, and the reload comes to its end. */
  ghost predicate Announces(input: (Fetch, Results), pull: int) {
    && input.0.Fetched? && input.0.node.Some? && input.0.node.value.pullInterval == pull != 0
    && input.1.delNode && (input.0.node.value.tls ==> input.1.cert) && input.1.addNode && input.1.addUsers
  }

  /** The monitor always has the pull interval that was announced last, zero not counted. */
  lemma {:induction false} MonitorFollows(s: P.State, inputs: seq<(Fetch, Results)>, i: nat, pull: int)
    requires (s.running ==> s.closes != []) && i < |inputs| && Announces(inputs[i], pull)
    requires forall k, d :: i < k < |inputs| ==> !Announces(inputs[k], d)
    ensures MonitorTask(s, inputs).interval == pull
  {
    var n := |inputs| - 1;
    if i < n {
      MonitorFollows(s, inputs[..n], i, pull);
      var input := inputs[n];
      if ReloadsFully(input.0, input.1) && input.0.node.value.pullInterval != 0 {
        assert Announces(input, input.0.node.value.pullInterval);
      }
    }
  }

  /** Whatever push intervals the panel announces, the report task only ever has the interval it was started
      with or a pull interval. */
  lemma {:induction false} ReportIntervalIsAPull(s: P.State, inputs: seq<(Fetch, Results)>)
    requires s.running ==> s.closes != []
    ensures var d := ReportTask(s, inputs).interval;
            || d == s.interval
            || exists i :: 0 <= i < |inputs| && ReloadsFully(inputs[i].0, inputs[i].1)
                           && inputs[i].0.node.value.pullInterval == d
  {
    if inputs == [] {
    } else {
      var n := |inputs| - 1;
      var before := ReportTask(s, inputs[..n]);
      ReportIntervalIsAPull(s, inputs[..n]);
      if before.interval != s.interval {
        var i :| 0 <= i < n && ReloadsFully(inputs[..n][i].0, inputs[..n][i].1)
                 && inputs[..n][i].0.node.value.pullInterval == before.interval;
        assert inputs[i] == inputs[..n][i];
      }
    }
  }

  /** Ticks of a started controller, one after another, up to a panic. They are a run, so what holds of runs
      holds of the controller. */
  method RunTicks(c: Controller, inputs: seq<(Fetch, Results)>)
    returns (panicked: bool, ghost states: seq<State>, ghost events: seq<Event>)
    requires c.limiter != null
    requires c.nodeInfoMonitorPeriodic != null && c.userReportPeriodic != null && c.TasksOk()
    modifies c, c.server, c.limiters, c.limiter, c.nodeInfoMonitorPeriodic, c.userReportPeriodic
    ensures c.limiter != null && c.TasksOk()
    ensures c.userReportPeriodic == old(c.userReportPeriodic)
    ensures Run(c.cfg, states, events) && states[0] == old(c.Value()) && |events| <= |inputs|
    ensures forall i :: 0 <= i < |events| ==> events[i].Synchronise? && events[i].t.fetch == inputs[i].0
    ensures !panicked ==> |events| == |inputs| && states[|events|] == c.Value()
    ensures !panicked ==> c.userReportPeriodic.Value() == ReportTask(old(c.userReportPeriodic.Value()), inputs)
    ensures c.nodeInfoMonitorPeriodic == old(c.nodeInfoMonitorPeriodic)
    ensures !panicked ==> c.nodeInfoMonitorPeriodic.Value() == MonitorTask(old(c.nodeInfoMonitorPeriodic.Value()), inputs)
  {
    hide Next;
    hide Restarted;
    hide ReloadsFully;
    panicked := false;
    states, events := [c.Value()], [];
    for i := 0 to |inputs|
      invariant c.limiter != null && c.TasksOk() && (c.limiter == old(c.limiter) || fresh(c.limiter))
      invariant c.nodeInfoMonitorPeriodic == old(c.nodeInfoMonitorPeriodic)
      invariant c.userReportPeriodic == old(c.userReportPeriodic)
      invariant Run(c.cfg, states, events) && states[0] == old(c.Value()) && |events| == i
      invariant forall k :: 0 <= k < i ==> events[k].Synchronise? && events[k].t.fetch == inputs[k].0
      invariant states[i] == c.Value()
      invariant c.userReportPeriodic.Value() == ReportTask(old(c.userReportPeriodic.Value()), inputs[..i])
      invariant c.nodeInfoMonitorPeriodic.Value() == MonitorTask(old(c.nodeInfoMonitorPeriodic.Value()), inputs[..i])
    {
      ghost var t;
      assert inputs[..i + 1][..i] == inputs[..i];
      panicked, t := c.NodeInfoMonitor(inputs[i].0, inputs[i].1);
      if panicked {
        return;
      }
      states, events := states + [c.Value()], events + [Synchronise(t)];
    }
    assert inputs[..|inputs|] == inputs;
  }

  /** A new controller without a configured name: started, and ticked any number of times, it agrees with its
      limiter, whichever core calls fail, as long as the lists are as the panel sends them. */
  method RunController(server: Core, limiters: L.Registry, cfg: Config, first: First, results: Results,
                       inputs: seq<(Fetch, Results)>, ghost n: nat)
    returns (c: Controller, ok: bool, panicked: bool)
    requires cfg.name == "" && (first.Answered? ==> Uniform(first.users, n))
    requires forall i :: 0 <= i < |inputs| ==> UniformFetch(inputs[i].0, n)
    modifies server, limiters
    ensures ok && !panicked ==> c.limiter != null && Agrees(c.Value())
  {
    hide Next;
    hide Starts;
    hide Agrees;
    hide Uniform;
    hide UniformFetch;
    hide Run;
    c := new Controller(server, limiters, cfg);
    panicked := false;
    ok := c.Start(first, results);
    if !ok {
      return;
    }
    ghost var states, events;
    panicked, states, events := RunTicks(c, inputs);
    if !panicked {
      RunLength(cfg, states, events);
      UniformRunAgrees(cfg, states, events, |events|, n, first, old(limiters.limiter), old(server.usersMap));
    }
  }
}
