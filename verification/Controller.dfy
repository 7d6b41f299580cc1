/** The synchronisation of a node with the panel in node/controller.go and node/task.go: one user list
    drives a limiter, which is found through a registry, and a core. Panel answers and the results of
    core calls that can fail are inputs. */
module Controller {
  import opened Panel
  import L = Limiter
  import P = PeriodicTask
  import opened UserDiff

  /** The intervals are in seconds. */
  datatype NodeInfo = NodeInfo(kind: string, id: int, tls: bool, pullInterval: int, pushInterval: int)

  /** What the panel answers to the three requests of a tick; a missing part has not changed. */
  datatype Fetch =
    | FetchFailed
    | Fetched(node: Option<NodeInfo>, users: Option<seq<UserInfo>>, alive: Option<map<int, int>>)

  /** Which calls succeed. A core call that fails leaves some user map behind. */
  datatype Results = Results(delNode: bool, cert: bool, addNode: bool, addUsers: bool, delUsers: bool,
                             left: map<string, int>)

  ghost function Uuids(users: seq<UserInfo>): set<string> {
    set u | u in users :: u.uuid
  }

  // ----- the core -----

  /** The users are stored by goroutines, in any order. */
  ghost predicate Adds(m: map<string, int>, users: seq<UserInfo>, m': map<string, int>) {
    && m'.Keys == m.Keys + Uuids(users)
    && (forall k :: k in m' && k !in Uuids(users) ==> m'[k] == m[k])
    && (forall k :: k in Uuids(users) ==> exists u :: u in users && u.uuid == k && u.id == m'[k])
  }

  /** The same with some users still waiting. */
  ghost predicate AddsSome(m: map<string, int>, users: seq<UserInfo>, waiting: set<UserInfo>, m': map<string, int>) {
    && (forall k :: k in m ==> k in m')
    && (forall u :: u in users && u !in waiting ==> u.uuid in m')
    && (forall k :: k in m' ==>
          || (k in m && m'[k] == m[k] && forall u :: u in users && u !in waiting ==> u.uuid != k)
          || exists u :: u in users && u !in waiting && u.uuid == k && u.id == m'[k])
  }

  lemma AddsOne(m: map<string, int>, users: seq<UserInfo>, waiting: set<UserInfo>, m': map<string, int>, v: UserInfo)
    requires AddsSome(m, users, waiting, m') && v in users && v in waiting
    ensures AddsSome(m, users, waiting - {v}, m'[v.uuid := v.id])
  {
    var m2 := m'[v.uuid := v.id];
    forall k | k in m2
      ensures || (k in m && m2[k] == m[k] && forall u :: u in users && u !in waiting - {v} ==> u.uuid != k)
              || exists u :: u in users && u !in waiting - {v} && u.uuid == k && u.id == m2[k]
    {
      if k == v.uuid {
        assert v !in waiting - {v};
      }
    }
  }

  /** The part of core/hy2 that says who may connect. */
  class Core {
    var usersMap: map<string, int>

    method AddUsers(users: seq<UserInfo>, r: Results) returns (ok: bool)
      modifies this
      ensures ok == r.addUsers
      ensures if ok then Adds(old(usersMap), users, usersMap) else usersMap == r.left
    {
      if !r.addUsers {
        usersMap := r.left;
        return false;
      }
      var waiting := set u | u in users;
      while waiting != {}
        invariant forall u :: u in waiting ==> u in users
        invariant AddsSome(old(usersMap), users, waiting, usersMap)
        decreases |waiting|
      {
        var u :| u in waiting;
        AddsOne(old(usersMap), users, waiting, usersMap, u);
        usersMap := usersMap[u.uuid := u.id];
        waiting := waiting - {u};
      }
      return true;
    }

    method DelUsers(users: seq<UserInfo>, r: Results) returns (ok: bool)
      modifies this
      ensures ok == r.delUsers
      ensures usersMap == if ok then old(usersMap) - Uuids(users) else r.left
    {
      if !r.delUsers {
        usersMap := r.left;
        return false;
      }
      var waiting := set u | u in users;
      while waiting != {}
        invariant forall u :: u in waiting ==> u in users
        invariant usersMap == old(usersMap) - set u | u in users && u !in waiting :: u.uuid
        decreases |waiting|
      {
        var u :| u in waiting;
        usersMap := usersMap - {u.uuid};
        waiting := waiting - {u};
      }
      assert Uuids(users) == set u | u in users && u !in waiting :: u.uuid;
      return true;
    }
  }

  // ----- one tick -----

  datatype State = State(
    tag: string,
    users: seq<UserInfo>,
    current: L.Limiter,                // which limiter the controller uses
    limits: L.State,                   // and what is in it
    registry: map<string, L.Limiter>,
    core: map<string, int>)

  /** Everything a tick depends on: its inputs, the limiter object it may make and the order in which the
      comparison lists its users. */
  datatype Tick = Tick(fetch: Fetch, results: Results, made: L.Limiter, deleted: seq<UserInfo>, added: seq<UserInfo>)

  datatype Config = Config(apiHost: string, name: string, speedLimit: int, certMode: string)

  function NodeTag(apiHost: string, node: NodeInfo): string {
    "[" + apiHost + "]-" + node.kind + ":" + Itoa(node.id)
  }

  function WithAlive(s: L.State, alive: Option<map<int, int>>): L.State {
    if alive.Some? then s.(alive := alive.value) else s
  }

  function NewUsers(c: State, t: Tick): seq<UserInfo>
    requires t.fetch.Fetched?
  {
    if t.fetch.users.Some? then t.fetch.users.value else c.users
  }

  /** Without a name the node gets its new tag and a new limiter for it, and the entry of the tag is
      replaced; the entry of the old tag stays. A named node keeps its limiter. */
  function Rebuilt(cfg: Config, c: State, node: NodeInfo, alive: Option<map<int, int>>, made: L.Limiter): State {
    if cfg.name == "" then
      var tag := NodeTag(cfg.apiHost, node);
      c.(tag := tag, current := made, registry := c.registry[tag := made],
         limits := WithAlive(L.New(tag, cfg.speedLimit, c.users, alive.GetOr(map[])), alive))
    else c.(limits := WithAlive(c.limits, alive))
  }

  /** A changed node. */
  ghost predicate Reloads(cfg: Config, c: State, t: Tick, c': State, panicked: bool)
    requires t.fetch.Fetched? && t.fetch.node.Some?
  {
    var node, users, r := t.fetch.node.value, NewUsers(c, t), t.results;
    if !r.delNode then panicked && c' == c.(users := users)
    else
      var c1 := Rebuilt(cfg, c.(users := users), node, t.fetch.alive, t.made);
      if node.tls && !r.cert then !panicked && c' == c1
      else if !r.addNode then panicked && c' == c1
      else
        && !panicked && c' == c1.(core := c'.core)
        && if r.addUsers then Adds(c.core, users, c'.core) else c'.core == r.left
  }

  /** The same node: the users are compared, the core is told, and only when it took everything the
      limiter and the list. */
  ghost predicate Diffs(c: State, t: Tick, c': State)
    requires t.fetch.Fetched? && t.fetch.node.None?
  {
    var c1, r := c.(limits := WithAlive(c.limits, t.fetch.alive)), t.results;
    if t.fetch.users.GetOr([]) == [] then c' == c1
    else
      && Compared(c.users, t.fetch.users.value, t.deleted, t.added)
      && if t.deleted != [] && !r.delUsers then c' == c1.(core := r.left)
         else
           var core1 := c.core - Uuids(t.deleted);
           if t.added != [] && !r.addUsers then c' == c1.(core := r.left)
           else
             && Adds(core1, t.added, c'.core)
             && c' == c1.(users := t.fetch.users.value, core := c'.core,
                          limits := L.AddUsers(L.DeleteUsers(c1.limits, c.tag, t.deleted), c.tag, t.added))
  }

  ghost predicate Next(cfg: Config, c: State, t: Tick, c': State, panicked: bool) {
    match t.fetch
    case FetchFailed => c' == c && !panicked
    case Fetched(node, _, _) =>
      if node.Some? then Reloads(cfg, c, t, c', panicked) else Diffs(c, t, c') && !panicked
  }

  /** What the panel answers when the node starts. */
  datatype First = Unanswered | Answered(node: NodeInfo, users: seq<UserInfo>, alive: map<int, int>)

  /** How far a start comes: the users must be there, then the calls succeed one after another. */
  predicate HasUsers(first: First) {
    first.Answered? && first.users != []
  }

  predicate AddsNode(first: First, r: Results) {
    HasUsers(first) && (first.node.tls ==> r.cert) && r.addNode
  }

  ghost predicate Starts(cfg: Config, first: First, registry: map<string, L.Limiter>, core: map<string, int>, c: State)
    requires first.Answered?
  {
    && c.tag == (if cfg.name == "" then NodeTag(cfg.apiHost, first.node) else cfg.name)
    && c.users == first.users
    && c.limits == L.New(c.tag, cfg.speedLimit, c.users, first.alive)
    && c.registry == registry[c.tag := c.current]
    && Adds(core, c.users, c.core)
  }

  // ----- the tasks -----

  const DAY := 86400

  function NewTask(interval: int): P.State {
    P.State(interval, false, [], [], false)
  }

  /** A task whose interval is not the announced one is closed and started again with an interval. */
  function Restarted(s: P.State, announced: int, interval: int): P.State
    requires s.running ==> s.closes != []
  {
    if s.interval != announced && announced != 0 then P.Started(P.Closed(s.(interval := interval)), false) else s
  }

  /** The reload comes to its end. */
  predicate ReloadsFully(fetch: Fetch, r: Results) {
    && fetch.Fetched? && fetch.node.Some?
    && r.delNode && (fetch.node.value.tls ==> r.cert) && r.addNode && r.addUsers
  }

  lemma NoUuids(m: map<string, int>, users: seq<UserInfo>)
    ensures users == [] ==> m - Uuids(users) == m
  {
  }

  lemma AddsNone(m: map<string, int>)
    ensures Adds(m, [], m)
  {
  }

  class Controller {
    const server: Core
    const limiters: L.Registry
    const cfg: Config
    var tag: string
    var limiter: L.Limiter?
    var userList: seq<UserInfo>
    var info: Option<NodeInfo>
    var nodeInfoMonitorPeriodic: P.Task?
    var userReportPeriodic: P.Task?
    var renewCertPeriodic: P.Task?

    ghost predicate TasksOk()
      reads `nodeInfoMonitorPeriodic, `userReportPeriodic, `renewCertPeriodic
      reads nodeInfoMonitorPeriodic, userReportPeriodic, renewCertPeriodic
    {
      var m, r, c := nodeInfoMonitorPeriodic, userReportPeriodic, renewCertPeriodic;
      && (m != null ==> m != r && m != c && (m.running ==> m.closes != []))
      && (r != null ==> r != c && (r.running ==> r.closes != []))
      && (c != null ==> (c.running ==> c.closes != []))
    }

    ghost function Value(): State
      requires limiter != null
      reads this, server, limiters, limiter
    {
      State(tag, userList, limiter, limiter.Contents(), limiters.limiter, server.usersMap)
    }

    constructor (server: Core, limiters: L.Registry, cfg: Config)
      ensures this.server == server && this.limiters == limiters && this.cfg == cfg && limiter == null
      ensures nodeInfoMonitorPeriodic == null && userReportPeriodic == null && renewCertPeriodic == null
    {
      this.server, this.limiters, this.cfg := server, limiters, cfg;
      tag, limiter, userList, info := "", null, [], None;
      nodeInfoMonitorPeriodic, userReportPeriodic, renewCertPeriodic := null, null, null;
    }

    /** The limiter of the answered users is in use and registered, also when a later call fails. */
    ghost predicate Registered(first: First, registry: map<string, L.Limiter>)
      requires first.Answered?
      reads `tag, `limiter, limiters, limiter
    {
      && tag == (if cfg.name == "" then NodeTag(cfg.apiHost, first.node) else cfg.name)
      && limiter != null && limiter.Contents() == L.New(tag, cfg.speedLimit, first.users, first.alive)
      && limiters.limiter == registry[tag := limiter]
    }

    /** Start up to its tasks. */
    method StartNode(first: First, results: Results) returns (ok: bool)
      modifies `tag, `limiter, `userList, `info, server, limiters
      ensures ok == (&& first.Answered? && first.users != [] && (first.node.tls ==> results.cert)
                     && results.addNode && results.addUsers)
      ensures info == if ok then Some(first.node) else old(info)
      ensures ok ==> limiter != null && Starts(cfg, first, old(limiters.limiter), old(server.usersMap), Value())
      ensures if HasUsers(first) then Registered(first, old(limiters.limiter)) && fresh(limiter)
              else limiters.limiter == old(limiters.limiter) && limiter == old(limiter) && tag == old(tag)
      ensures userList == if first.Answered? then first.users else old(userList)
      ensures !AddsNode(first, results) ==> server.usersMap == old(server.usersMap)
      ensures AddsNode(first, results) && !results.addUsers ==> server.usersMap == results.left
    {
      hide Adds;
      hide NodeTag;
      hide L.New;
      if first.Unanswered? {
        return false;
      }
      userList := first.users;
      if userList == [] {
        return false;
      }
      if cfg.name == "" {
        tag := NodeTag(cfg.apiHost, first.node);
      } else {
        tag := cfg.name;
      }
      var l := limiters.AddLimiter(tag, cfg.speedLimit, userList, first.alive);
      limiter := l;
      if first.node.tls && !results.cert {
        return false;
      }
      if !results.addNode {
        return false;
      }
      ok := server.AddUsers(userList, results);
      if ok {
        info := Some(first.node);
      }
    }

    ghost predicate TasksStarted(node: NodeInfo)
      reads `nodeInfoMonitorPeriodic, `userReportPeriodic, `renewCertPeriodic
      reads nodeInfoMonitorPeriodic, userReportPeriodic, renewCertPeriodic
    {
      var m, r, c := nodeInfoMonitorPeriodic, userReportPeriodic, renewCertPeriodic;
      && m != null && m.Value() == P.Started(NewTask(node.pullInterval), false)
      && r != null && r.Value() == P.Started(NewTask(node.pushInterval), false) && m != r
      && (node.tls && cfg.certMode !in {"none", "", "file", "self"} ==>
            c != null && c != m && c != r && c.Value() == P.Started(NewTask(24 * 60 * 60), true))
    }

    method StartTasks(node: NodeInfo)
      modifies this`nodeInfoMonitorPeriodic, this`userReportPeriodic, this`renewCertPeriodic
      ensures TasksStarted(node) && fresh(nodeInfoMonitorPeriodic) && fresh(userReportPeriodic)
      ensures if node.tls && cfg.certMode !in {"none", "", "file", "self"} then fresh(renewCertPeriodic)
              else renewCertPeriodic == old(renewCertPeriodic)
      ensures old(TasksOk()) ==> TasksOk()
    {
      var m := new P.Task(node.pullInterval);
      var r := new P.Task(node.pushInterval);
      m.Start(false);
      r.Start(false);
      nodeInfoMonitorPeriodic, userReportPeriodic := m, r;
      if node.tls {
        if cfg.certMode !in {"none", "", "file", "self"} {
          var c := new P.Task(DAY);
          c.Start(true);
          renewCertPeriodic := c;
        }
      }
    }

    /** Start: the three requests answered, at least one user, and every call successful; then the tasks
        run. */
    method Start(first: First, results: Results) returns (ok: bool)
      modifies this, server, limiters
      ensures ok == (&& first.Answered? && first.users != [] && (first.node.tls ==> results.cert)
                     && results.addNode && results.addUsers)
      ensures info == if ok then Some(first.node) else old(info)
      ensures ok ==> limiter != null && Starts(cfg, first, old(limiters.limiter), old(server.usersMap), Value())
      ensures if HasUsers(first) then Registered(first, old(limiters.limiter)) && fresh(limiter)
              else limiters.limiter == old(limiters.limiter) && limiter == old(limiter) && tag == old(tag)
      ensures userList == if first.Answered? then first.users else old(userList)
      ensures !AddsNode(first, results) ==> server.usersMap == old(server.usersMap)
      ensures AddsNode(first, results) && !results.addUsers ==> server.usersMap == results.left
      ensures ok ==> TasksStarted(first.node) && fresh(nodeInfoMonitorPeriodic) && fresh(userReportPeriodic)
      ensures ok && old(TasksOk()) ==> TasksOk()
      ensures ok && !(first.node.tls && cfg.certMode !in {"none", "", "file", "self"}) ==> renewCertPeriodic == old(renewCertPeriodic)
      ensures !ok ==> nodeInfoMonitorPeriodic == old(nodeInfoMonitorPeriodic)
                      && userReportPeriodic == old(userReportPeriodic) && renewCertPeriodic == old(renewCertPeriodic)
    {
      hide Starts;
      hide Registered;
      hide TasksStarted;
      hide TasksOk;
      ok := StartNode(first, results);
      if ok {
        StartTasks(first.node);
      }
    }

    /** What a tick makes of the two tasks that follow the panel's intervals. */
    twostate predicate FollowsIntervals(fetch: Fetch, r: Results)
      requires old(nodeInfoMonitorPeriodic != null && userReportPeriodic != null && TasksOk())
      reads `nodeInfoMonitorPeriodic, `userReportPeriodic, nodeInfoMonitorPeriodic, userReportPeriodic
    {
      var m, u := nodeInfoMonitorPeriodic, userReportPeriodic;
      && m == old(nodeInfoMonitorPeriodic) && u == old(userReportPeriodic)
      && m.Value() == (if ReloadsFully(fetch, r) then
                         Restarted(old(m.Value()), fetch.node.value.pullInterval, fetch.node.value.pullInterval)
                       else old(m.Value()))
      && u.Value() == (if ReloadsFully(fetch, r) then
                         Restarted(old(u.Value()), fetch.node.value.pushInterval, fetch.node.value.pullInterval)
                       else old(u.Value()))
    }

    method CheckInterval(task: P.Task, announced: int, interval: int)
      requires task.running ==> task.closes != []
      modifies task
      ensures task.Value() == Restarted(old(task.Value()), announced, interval)
      ensures task.running ==> task.closes != []
    {
      if task.interval != announced && announced != 0 {
        task.interval := interval;
        task.Close();
        task.Start(false);
      }
    }

    /** The end of a reload. The report task is given the pull interval. */
    method CheckIntervals(node: NodeInfo)
      requires nodeInfoMonitorPeriodic != null && userReportPeriodic != null && TasksOk()
      modifies nodeInfoMonitorPeriodic, userReportPeriodic
      ensures nodeInfoMonitorPeriodic.Value() ==
              Restarted(old(nodeInfoMonitorPeriodic.Value()), node.pullInterval, node.pullInterval)
      ensures userReportPeriodic.Value() ==
              Restarted(old(userReportPeriodic.Value()), node.pushInterval, node.pullInterval)
      ensures TasksOk()
    {
      hide Restarted;
      CheckInterval(nodeInfoMonitorPeriodic, node.pullInterval, node.pullInterval);
      CheckInterval(userReportPeriodic, node.pushInterval, node.pullInterval);
    }

    /** The rest of a tick whose node has not changed. */
    method SyncUsers(fetch: Fetch, results: Results) returns (ghost t: Tick)
      requires limiter != null && fetch.Fetched? && fetch.node.None?
      modifies `userList, server, limiter
      ensures t.fetch == fetch && t.results == results
      ensures Diffs(old(Value()), t, Value())
    {
      hide Adds;
      hide Compared;
      hide Uuids;
      t := Tick(fetch, results, limiter, [], []);
      var newU, newA := fetch.users, fetch.alive;
      if newA.Some? {
        limiter.aliveList := newA.value;
      }
      if newU.None? || newU.value == [] {
        return;
      }
      var deleted, added := CompareUserList(userList, newU.value);
      t := t.(deleted := deleted, added := added);
      NoUuids(server.usersMap, deleted);
      if deleted != [] {
        var ok := server.DelUsers(deleted, results);
        if !ok {
          return;
        }
      }
      AddsNone(server.usersMap);
      if added != [] {
        var ok := server.AddUsers(added, results);
        if !ok {
          return;
        }
      }
      if added != [] || deleted != [] {
        limiter.UpdateUser(tag, added, deleted);
      }
      userList := newU.value;
    }

    /** A reload up to its last step, and whether it comes to that. */
    method Reload(fetch: Fetch, results: Results) returns (panicked: bool, done: bool, ghost t: Tick)
      requires limiter != null && fetch.Fetched? && fetch.node.Some?
      modifies `tag, `limiter, `userList, `info, server, limiters, limiter
      ensures limiter != null && t.fetch == fetch && t.results == results
      ensures done == ReloadsFully(fetch, results)
      ensures limiter == old(limiter) || fresh(limiter)
      ensures Reloads(cfg, old(Value()), t, Value(), panicked)
      ensures info == fetch.node
    {
      var node, newA := fetch.node.value, fetch.alive;
      hide Adds;
      hide Rebuilt;
      hide Uuids;
      t := Tick(fetch, results, limiter, [], []);
      info := Some(node);
      if fetch.users.Some? {
        userList := fetch.users.value;
      }
      if !results.delNode {
        return true, false, t;
      }
      ghost var made := Rebuild(node, newA);
      t := t.(made := made);
      if node.tls && !results.cert {
        return false, false, t;
      }
      if !results.addNode {
        return true, false, t;
      }
      var ok := server.AddUsers(userList, results);
      return false, ok, t;
    }

    /** nodeInfoMonitor */
    method NodeInfoMonitor(fetch: Fetch, results: Results) returns (panicked: bool, ghost t: Tick)
      requires limiter != null
      requires nodeInfoMonitorPeriodic != null && userReportPeriodic != null && TasksOk()
      modifies this, server, limiters, limiter, nodeInfoMonitorPeriodic, userReportPeriodic
      ensures limiter != null && t.fetch == fetch && t.results == results
      ensures Next(cfg, old(Value()), t, Value(), panicked)
      ensures FollowsIntervals(fetch, results)
      ensures TasksOk() && renewCertPeriodic == old(renewCertPeriodic)
      ensures limiter == old(limiter) || fresh(limiter)
      ensures info == if fetch.Fetched? && fetch.node.Some? then fetch.node else old(info)
    {
      hide Diffs;
      hide Reloads;
      hide Restarted;
      t := Tick(fetch, results, limiter, [], []);
      panicked := false;
      if fetch.FetchFailed? {
        return;
      }
      if fetch.node.Some? {
        var done;
        panicked, done, t := Reload(fetch, results);
        if done {
          CheckIntervals(fetch.node.value);
        }
        return;
      }
      t := SyncUsers(fetch, results);
    }

    /** The limiter part of a reload. The entry deleted is that of the new tag. */
    method Rebuild(node: NodeInfo, newA: Option<map<int, int>>) returns (ghost made: L.Limiter)
      requires limiter != null
      modifies this`tag, this`limiter, limiters, limiter
      ensures limiter != null && (limiter == old(limiter) || fresh(limiter))
      ensures Value() == Rebuilt(cfg, old(Value()), node, newA, made)
    {
      hide NodeTag;
      hide L.New;
      made := limiter;
      if cfg.name == "" {
        ghost var registry := limiters.limiter;
        tag := NodeTag(cfg.apiHost, node);
        limiters.DeleteLimiter(tag);
        var l := limiters.AddLimiter(tag, cfg.speedLimit, userList, newA.GetOr(map[]));
        limiter := l;
        made := l;
        assert (registry - {tag})[tag := l] == registry[tag := l];
      }
      if newA.Some? {
        limiter.aliveList := newA.value;
      }
    }

    method CloseTask(task: P.Task?)
      requires task != null && task.running ==> task.closes != []
      modifies task
      ensures task != null ==> task.Value() == P.Closed(old(task.Value()))
    {
      if task != null {
        task.Close();
      }
    }

    /** The registry entry goes and every task is closed, also when the core then fails to delete the node. */
    method Close(results: Results) returns (ok: bool)
      requires TasksOk()
      modifies limiters, nodeInfoMonitorPeriodic, userReportPeriodic, renewCertPeriodic
      ensures ok == results.delNode
      ensures limiters.limiter == old(limiters.limiter) - {tag}
      ensures nodeInfoMonitorPeriodic != null ==> nodeInfoMonitorPeriodic.Value() == P.Closed(old(nodeInfoMonitorPeriodic.Value()))
      ensures userReportPeriodic != null ==> userReportPeriodic.Value() == P.Closed(old(userReportPeriodic.Value()))
      ensures renewCertPeriodic != null ==> renewCertPeriodic.Value() == P.Closed(old(renewCertPeriodic.Value()))
    {
      hide P.Closed;
      limiters.DeleteLimiter(tag);
      CloseTask(nodeInfoMonitorPeriodic);
      CloseTask(userReportPeriodic);
      CloseTask(renewCertPeriodic);
      return results.delNode;
    }
  }
}
