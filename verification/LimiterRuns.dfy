/** Properties of whole runs of the limiter of limiter/limiter.go: which IPs a run can report, and which
    bucket a user gets. */
module LimiterRuns {
  import opened Panel
  import opened Limiter

  /** The calls a run consists of; the tag is that of the node. Alive is the assignment of a fetched
      alive list, Report a call of GetOnlineDevice that leaves `remembered` behind. */
  datatype Event =
    | Connect(user: string, ip: string, noSSUDP: bool, now: int)
    | Update(added: seq<UserInfo>, deleted: seq<UserInfo>)
    | Dynamic(uuid: string, limit: int, expire: int)
    | Alive(alive: map<int, int>)
    | Report(report: seq<OnlineUser>, origin: seq<(string, string)>, remembered: map<string, int>)

  ghost predicate Next(tag: string, s: State, e: Event, s': State) {
    match e
    case Connect(user, ip, noSSUDP, now) => s' == Check(s, user, ip, noSSUDP, now).state
    case Update(added, deleted) => s' == AddUsers(DeleteUsers(s, tag, deleted), tag, added)
    case Dynamic(uuid, limit, expire) => s' == SetDynamic(s, tag, uuid, limit, expire)
    case Alive(alive) => s' == s.(alive := alive)
    case Report(report, origin, remembered) =>
      && Lists(report, origin, s.online) && Remembers(remembered, report)
      && s' == s.(online := map[], oldOnline := remembered)
  }

  ghost predicate Run(tag: string, states: seq<State>, events: seq<Event>) {
    && |states| == |events| + 1
    && forall i :: 0 <= i < |events| ==> Next(tag, states[i], events[i], states[i + 1])
  }

  lemma GoesOnlineSame(s: State, s1: State, user: string, ip: string, uid: int)
    requires s1.online == s.online && s1.oldOnline == s.oldOnline
    ensures GoesOnline(s1, user, ip, uid).online == GoesOnline(s, user, ip, uid).online
    ensures GoesOnline(s1, user, ip, uid).oldOnline == GoesOnline(s, user, ip, uid).oldOnline
  {
  }

  /** What a connection does to the online IPs. */
  lemma CheckOnline(s: State, user: string, ip: string, noSSUDP: bool, now: int)
    ensures var s' := Check(s, user, ip, noSSUDP, now).state;
            var g := if user in s.info && noSSUDP && !Rejects(s, user, Normal(ip), noSSUDP)
                     then GoesOnline(s, user, Normal(ip), s.info[user].uid) else s;
            s'.online == g.online && s'.oldOnline == g.oldOnline
  {
    hide Normal;
    hide Rate;
    hide UserLimit;
    hide DetermineSpeedLimit;
    hide Rejects;
    hide GoesOnline;
    hide Expire;
    hide TakeBucket;
    if user in s.info {
      GoesOnlineSame(s, Expire(s, user, now), user, Normal(ip), s.info[user].uid);
    }
  }

  /** The rate a bucket made now for this user gets. */
  function RateFor(s: State, u: Info, now: int): int {
    Rate(DetermineSpeedLimit(s.speedLimit, UserLimit(u, now)))
  }

  /** What a connection does to the buckets. */
  lemma CheckBuckets(s: State, user: string, ip: string, noSSUDP: bool, now: int)
    ensures var v := Check(s, user, ip, noSSUDP, now);
            && v.state.made >= s.made
            && (v.bucket.None? || user in s.buckets ==> v.state.buckets == s.buckets)
            && (v.bucket.Some? ==>
                  && user in s.info
                  && if user in s.buckets then v.bucket.value == s.buckets[user]
                     else
                       && v.state.buckets == s.buckets[user := v.bucket.value]
                       && v.bucket.value.id == s.made < v.state.made
                       && v.bucket.value.rate == RateFor(s, s.info[user], now) > 0)
  {
    hide Normal;
    hide Rate;
    hide UserLimit;
    hide DetermineSpeedLimit;
    hide Rejects;
    hide GoesOnline;
    hide Expired;
  }

  // ----- which IPs a run can report -----

  /** The IPs that can show up before the period ends: online now, or in the last report. */
  ghost function Known(s: State): set<string> {
    s.oldOnline.Keys + Ips(s.online)
  }

  /** A connection that the device limit leaves no room for. */
  ghost predicate NoRoom(s: State, e: Event) {
    e.Connect? && e.noSSUDP && e.user in s.info ==> Full(s, e.user)
  }

  lemma {:induction false} DeleteUsersKeeps(s: State, tag: string, users: seq<UserInfo>)
    ensures var s' := DeleteUsers(s, tag, users);
            && s'.oldOnline == s.oldOnline && s'.made == s.made && s'.speedLimit == s.speedLimit
            && (forall t :: t in s'.online ==> t in s.online && s'.online[t] == s.online[t])
            && (forall t :: t in s'.buckets ==> t in s.buckets && s'.buckets[t] == s.buckets[t])
            && (forall t :: t in s.buckets && (forall u :: u in users ==> UserTag(tag, u.uuid) != t) ==> t in s'.buckets)
  {
    if users == [] {
    } else {
      DeleteUsersKeeps(s, tag, users[..|users| - 1]);
      assert forall u :: u in users[..|users| - 1] ==> u in users;
      assert users[|users| - 1] in users;
    }
  }

  lemma {:induction false} AddUsersKeeps(s: State, tag: string, users: seq<UserInfo>)
    ensures var s' := AddUsers(s, tag, users);
            && s'.oldOnline == s.oldOnline && s'.online == s.online && s'.buckets == s.buckets
            && s'.alive == s.alive && s'.made == s.made && s'.speedLimit == s.speedLimit
  {
    if users == [] {
    } else {
      AddUsersKeeps(s, tag, users[..|users| - 1]);
    }
  }

  lemma UpdateKnown(tag: string, s: State, e: Event)
    requires e.Update?
    ensures Known(AddUsers(DeleteUsers(s, tag, e.deleted), tag, e.added)) <= Known(s)
  {
    DeleteUsersKeeps(s, tag, e.deleted);
    AddUsersKeeps(DeleteUsers(s, tag, e.deleted), tag, e.added);
  }

  lemma ListedIps(report: seq<OnlineUser>, origin: seq<(string, string)>, online: map<string, map<string, int>>, ip: string)
    requires Lists(report, origin, online)
    ensures ip in Ips(online) <==> exists k :: 0 <= k < |report| && report[k].ip == ip
  {
    if ip in Ips(online) {
      var t :| t in online && ip in online[t];
      assert (t, ip) in Pairs(online);
      var k :| 0 <= k < |origin| && origin[k] == (t, ip);
      assert report[k].ip == ip;
    }
    if exists k :: 0 <= k < |report| && report[k].ip == ip {
      var k :| 0 <= k < |report| && report[k].ip == ip;
      assert origin[k] in Pairs(online);
    }
  }

  /** The IPs of a report are the IPs that were online. */
  lemma ReportKnown(s: State, e: Event)
    requires e.Report? && Lists(e.report, e.origin, s.online) && Remembers(e.remembered, e.report)
    ensures e.remembered.Keys == Ips(s.online)
    ensures forall ip :: ip in Ips(s.online) <==> exists k :: 0 <= k < |e.report| && e.report[k].ip == ip
  {
    hide Ips;
    forall ip ensures ip in Ips(s.online) <==> exists k :: 0 <= k < |e.report| && e.report[k].ip == ip {
      ListedIps(e.report, e.origin, s.online, ip);
    }
    hide Lists;
    forall ip ensures ip in e.remembered <==> ip in Ips(s.online) {
      if ip in e.remembered {
        var k :| 0 <= k < |e.report| && e.report[k] == OnlineUser(e.remembered[ip], ip);
        assert e.report[k].ip == ip;
      }
    }
  }

  lemma IpsWith(online: map<string, map<string, int>>, tag: string, m: map<string, int>, ip: string, uid: int)
    requires m == if tag in online then online[tag] else map[]
    ensures Ips(online[tag := m[ip := uid]]) == Ips(online) + {ip}
  {
    var online' := online[tag := m[ip := uid]];
    assert tag in online' && ip in online'[tag];
    forall x | x in Ips(online) ensures x in Ips(online') {
      var t :| t in online && x in online[t];
      assert t in online' && x in online'[t];
    }
  }

  lemma GoesOnlineKnown(s: State, user: string, ip: string, uid: int)
    ensures Known(GoesOnline(s, user, ip, uid)) == Known(s) + {ip}
    ensures ip in OnlineOf(s, user) || ip in s.oldOnline ==> ip in Known(s)
  {
    if ip in OnlineOf(s, user) {
      assert ip in Ips(s.online);
    } else {
      IpsWith(s.online, user, OnlineOf(s, user), ip, uid);
    }
  }

  /** A connection makes a new IP known exactly when the IP is not known yet and there is room. */
  lemma ConnectKnown(s: State, e: Event)
    requires e.Connect?
    ensures var s' := Check(s, e.user, e.ip, e.noSSUDP, e.now).state;
            && (Known(s') <= Known(s) <==>
                !e.noSSUDP || e.user !in s.info || Normal(e.ip) in Known(s) || Full(s, e.user))
            && Known(s') <= Known(s) + {Normal(e.ip)}
  {
    hide Normal;
    hide Check;
    var ip := Normal(e.ip);
    CheckOnline(s, e.user, e.ip, e.noSSUDP, e.now);
    if e.user in s.info {
      GoesOnlineKnown(s, e.user, ip, s.info[e.user].uid);
    }
  }

  /** While every connection finds its user at his limit, no step makes a new IP known. */
  lemma StepKnown(tag: string, s: State, e: Event, s': State)
    requires Next(tag, s, e, s') && NoRoom(s, e)
    ensures Known(s') <= Known(s)
  {
    match e {
      case Connect(_, _, _, _) => ConnectKnown(s, e);
      case Update(_, _) => UpdateKnown(tag, s, e);
      case Dynamic(_, _, _) =>
      case Alive(_) =>
      case Report(_, _, _) => ReportKnown(s, e);
    }
  }

  lemma {:induction false} RunKnown(tag: string, states: seq<State>, events: seq<Event>, i: nat, j: nat)
    requires Run(tag, states, events) && i <= j < |states|
    requires forall k :: i <= k < j ==> NoRoom(states[k], events[k])
    ensures Known(states[j]) <= Known(states[i])
    decreases j - i
  {
    hide Next;
    hide NoRoom;
    hide Known;
    if i == j {
    } else {
      RunKnown(tag, states, events, i, j - 1);
      StepKnown(tag, states[j - 1], events[j - 1], states[j]);
    }
  }

  /** Device safety: in a run whose connections all find their users at the limit, what is online in a
      period was in the report the period started with. */
  lemma PeriodSafety(tag: string, states: seq<State>, events: seq<Event>, start: nat, now: nat, user: string)
    requires Run(tag, states, events) && start < now < |states| && events[start].Report?
    requires forall k :: start < k < now ==> NoRoom(states[k], events[k])
    ensures OnlineOf(states[now], user).Keys <= states[start + 1].oldOnline.Keys
  {
    RunKnown(tag, states, events, start + 1, now);
    assert Next(tag, states[start], events[start], states[start + 1]);
    assert Known(states[start + 1]) == states[start + 1].oldOnline.Keys;
    forall ip | ip in OnlineOf(states[now], user) ensures ip in states[start + 1].oldOnline {
      assert ip in Ips(states[now].online);
    }
  }

  // ----- what a single user can have online -----

  ghost predicate Deletes(tag: string, e: Event, user: string) {
    e.Update? && exists u :: u in e.deleted && UserTag(tag, u.uuid) == user
  }

  /** The last report is kept by IP alone, so it also opens the door to a user at his limit when somebody
      else was listed there. */
  ghost predicate TakesUp(s: State, e: Event, user: string, ip: string) {
    && e.Connect? && e.noSSUDP && e.user == user && user in s.info && Normal(e.ip) == ip
    && ip in s.oldOnline
  }

  lemma {:induction false} DeleteUsersKeepsOnline(s: State, tag: string, users: seq<UserInfo>, user: string)
    requires forall u :: u in users ==> UserTag(tag, u.uuid) != user
    ensures OnlineOf(DeleteUsers(s, tag, users), user) == OnlineOf(s, user)
  {
    hide UserTag;
    if users == [] {
    } else {
      assert users[|users| - 1] in users;
      assert forall u :: u in users[..|users| - 1] ==> u in users;
      DeleteUsersKeepsOnline(s, tag, users[..|users| - 1], user);
    }
  }

  /** A step of a period without a report, in which the user is not deleted: a user at his limit gets
      exactly those IPs that he takes up from the last report. */
  lemma StepOnline(tag: string, s: State, e: Event, s': State, user: string, ip: string)
    requires Next(tag, s, e, s') && NoRoom(s, e) && !e.Report? && !Deletes(tag, e, user)
    ensures ip in OnlineOf(s', user) <==> ip in OnlineOf(s, user) || TakesUp(s, e, user, ip)
  {
    hide Normal;
    hide Check;
    match e {
      case Connect(u, i, noSSUDP, now) => CheckOnline(s, u, i, noSSUDP, now);
      case Update(added, deleted) =>
        DeleteUsersKeepsOnline(s, tag, deleted, user);
        AddUsersKeeps(DeleteUsers(s, tag, deleted), tag, added);
      case _ =>
    }
  }

  /** Some connection of steps `i` to `j - 1` takes the IP up. */
  ghost predicate TakenUp(states: seq<State>, events: seq<Event>, i: nat, j: nat, user: string, ip: string)
    requires i <= j <= |events| < |states|
  {
    exists k :: i <= k < j && TakesUp(states[k], events[k], user, ip)
  }

  lemma TakenUpMore(states: seq<State>, events: seq<Event>, i: nat, j: nat, user: string, ip: string)
    requires i <= j < |events| < |states|
    ensures TakenUp(states, events, i, j + 1, user, ip) <==>
            TakenUp(states, events, i, j, user, ip) || TakesUp(states[j], events[j], user, ip)
  {
    hide TakesUp;
  }

  /** A stretch without reports and without a deletion of the user, whose connections all find their users
      at the limit. */
  ghost predicate Quiet(tag: string, states: seq<State>, events: seq<Event>, i: nat, j: nat, user: string)
    requires i <= j <= |events| < |states|
  {
    forall k :: i <= k < j ==> NoRoom(states[k], events[k]) && !events[k].Report? && !Deletes(tag, events[k], user)
  }

  lemma {:induction false} OnlineIsTakenUp(tag: string, states: seq<State>, events: seq<Event>, i: nat, j: nat,
                                           user: string, ip: string)
    requires Run(tag, states, events) && i <= j < |states| && Quiet(tag, states, events, i, j, user)
    ensures ip in OnlineOf(states[j], user) <==>
            ip in OnlineOf(states[i], user) || TakenUp(states, events, i, j, user, ip)
    decreases j - i
  {
    hide Next;
    hide NoRoom;
    hide Deletes;
    hide OnlineOf;
    hide TakesUp;
    if i == j {
      assert !TakenUp(states, events, i, i, user, ip);
    } else {
      hide TakenUp;
      OnlineIsTakenUp(tag, states, events, i, j - 1, user, ip);
      StepOnline(tag, states[j - 1], events[j - 1], states[j], user, ip);
      TakenUpMore(states, events, i, j - 1, user, ip);
    }
  }

  /** Device safety of one user: in a period in which everybody is at his limit, he has only IPs online that
      he had when the period started exactly when he takes none up that was only somebody else's. */
  lemma OwnIpsWhen(tag: string, states: seq<State>, events: seq<Event>, start: nat, now: nat, user: string)
    requires Run(tag, states, events) && start < now < |states| && events[start].Report?
    requires Quiet(tag, states, events, start + 1, now, user)
    ensures OnlineOf(states[now], user).Keys <= OnlineOf(states[start], user).Keys <==>
            forall ip :: TakenUp(states, events, start + 1, now, user, ip) ==> ip in OnlineOf(states[start], user)
  {
    assert Next(tag, states[start], events[start], states[start + 1]);
    assert OnlineOf(states[start + 1], user) == map[];
    hide Next;
    hide TakenUp;
    hide OnlineOf;
    hide Quiet;
    forall ip ensures ip in OnlineOf(states[now], user) <==> TakenUp(states, events, start + 1, now, user, ip) {
      OnlineIsTakenUp(tag, states, events, start + 1, now, user, ip);
    }
  }

  /** Such a run: "b", who is at his limit and was not online, gets in from the IP that "a" was listed with. */
  lemma AnothersIpIsTakenUp() returns (states: seq<State>, events: seq<Event>)
    ensures Run("n", states, events) && |events| == 2 && events[0].Report? && events[1].Connect? && events[1].user == "b"
    ensures NoRoom(states[1], events[1]) && "b" in states[1].info
    ensures "1" in OnlineOf(states[2], "b") && "1" !in OnlineOf(states[0], "b")
  {
    var info := map["a" := Info(1, 0, 1, 0, 0, false), "b" := Info(2, 0, 1, 0, 0, false)];
    var s0 := State(0, map["a" := map["1" := 1]], map[], map[], info, map[], map[1 := 1, 2 := 1], 0);
    var s1 := s0.(online := map[], oldOnline := map["1" := 1]);
    var report, origin := [OnlineUser(1, "1")], [("a", "1")];
    assert Pairs(s0.online) == {("a", "1")};
    assert Normal("1") == "1";
    states, events := [s0, s1, Check(s1, "b", "1", true, 0).state],
                      [Report(report, origin, map["1" := 1]), Connect("b", "1", true, 0)];
    CheckOnline(s1, "b", "1", true, 0);
  }

  // ----- what the reports hold -----

  ghost function ReportedIps(e: Event): set<string>
    requires e.Report?
  {
    set k | 0 <= k < |e.report| :: e.report[k].ip
  }

  /** Device safety over reports: from one report to any later one, the set of IPs does not grow. */
  lemma ReportsShrink(tag: string, states: seq<State>, events: seq<Event>, i: nat, j: nat)
    requires Run(tag, states, events) && i < j < |events| && events[i].Report? && events[j].Report?
    requires forall k :: i < k < j ==> NoRoom(states[k], events[k])
    ensures ReportedIps(events[j]) <= ReportedIps(events[i])
  {
    RunKnown(tag, states, events, i + 1, j);
    assert Next(tag, states[i], events[i], states[i + 1]) && Next(tag, states[j], events[j], states[j + 1]);
    ReportKnown(states[i], events[i]);
    ReportKnown(states[j], events[j]);
    assert Known(states[i + 1]) == ReportedIps(events[i]);
  }

  // ----- which bucket a user gets -----

  /** The run takes the bucket of a user away only when it deletes him. */
  lemma StepBucket(tag: string, s: State, e: Event, s': State, user: string)
    requires Next(tag, s, e, s') && user in s.buckets && !Deletes(tag, e, user)
    ensures user in s'.buckets && s'.buckets[user] == s.buckets[user]
  {
    hide Check;
    if e.Connect? {
      CheckBuckets(s, e.user, e.ip, e.noSSUDP, e.now);
    } else if e.Update? {
      DeleteUsersKeeps(s, tag, e.deleted);
      AddUsersKeeps(DeleteUsers(s, tag, e.deleted), tag, e.added);
    }
  }

  lemma {:induction false} RunBucket(tag: string, states: seq<State>, events: seq<Event>, i: nat, j: nat, user: string)
    requires Run(tag, states, events) && i <= j < |states| && user in states[i].buckets
    requires forall k :: i <= k < j ==> !Deletes(tag, events[k], user)
    ensures user in states[j].buckets && states[j].buckets[user] == states[i].buckets[user]
    decreases j - i
  {
    if i == j {
    } else {
      RunBucket(tag, states, events, i, j - 1, user);
      StepBucket(tag, states[j - 1], events[j - 1], states[j], user);
    }
  }

  function Granted(s: State, e: Event): Option<Bucket>
    requires e.Connect?
  {
    Check(s, e.user, e.ip, e.noSSUDP, e.now).bucket
  }

  /** Between deletions all connections of a user that get a bucket get the same one. */
  lemma BucketIsShared(tag: string, states: seq<State>, events: seq<Event>, i: nat, j: nat)
    requires Run(tag, states, events) && i <= j < |events|
    requires events[i].Connect? && events[j].Connect? && events[i].user == events[j].user
    requires Granted(states[i], events[i]).Some? && Granted(states[j], events[j]).Some?
    requires forall k :: i < k < j ==> !Deletes(tag, events[k], events[i].user)
    ensures Granted(states[i], events[i]) == Granted(states[j], events[j])
  {
    hide Check;
    CheckBuckets(states[j], events[j].user, events[j].ip, events[j].noSSUDP, events[j].now);
    if i < j {
      CheckBuckets(states[i], events[i].user, events[i].ip, events[i].noSSUDP, events[i].now);
      assert Next(tag, states[i], events[i], states[i + 1]);
      RunBucket(tag, states, events, i + 1, j, events[i].user);
    }
  }

  /** Step `i` made the bucket of the user. */
  ghost predicate Makes(s: State, e: Event, user: string, b: Bucket) {
    && e.Connect? && e.user == user && user !in s.buckets && Granted(s, e) == Some(b)
    && user in s.info && b.rate == RateFor(s, s.info[user], e.now) > 0
  }

  /** Every bucket has the rate of the limits that held when it was made, by an earlier connection of
      the same user. */
  lemma {:induction false} BucketOrigin(tag: string, states: seq<State>, events: seq<Event>, j: nat, user: string)
    requires Run(tag, states, events) && states[0].buckets == map[]
    requires j < |states| && user in states[j].buckets
    ensures exists i :: 0 <= i < j && Makes(states[i], events[i], user, states[j].buckets[user])
    decreases j
  {
    hide Check;
    hide RateFor;
    assert Next(tag, states[j - 1], events[j - 1], states[j]);
    var s, e := states[j - 1], events[j - 1];
    if e.Connect? {
      CheckBuckets(s, e.user, e.ip, e.noSSUDP, e.now);
    } else if e.Update? {
      DeleteUsersKeeps(s, tag, e.deleted);
      AddUsersKeeps(DeleteUsers(s, tag, e.deleted), tag, e.added);
    }
    if user in s.buckets {
      BucketOrigin(tag, states, events, j - 1, user);
      assert states[j].buckets[user] == s.buckets[user];
    } else {
      assert Makes(s, e, user, states[j].buckets[user]);
    }
  }

  /** No two users and no two lives of a user share a bucket. */
  ghost predicate BucketsDistinct(s: State) {
    && (forall t :: t in s.buckets ==> s.buckets[t].id < s.made)
    && (forall t, u :: t in s.buckets && u in s.buckets && s.buckets[t].id == s.buckets[u].id ==> t == u)
  }

  lemma {:induction false} RunBucketsDistinct(tag: string, states: seq<State>, events: seq<Event>, j: nat)
    requires Run(tag, states, events) && states[0].buckets == map[] && j < |states|
    ensures BucketsDistinct(states[j])
    decreases j
  {
    if j == 0 {
    } else {
      RunBucketsDistinct(tag, states, events, j - 1);
      var s, e := states[j - 1], events[j - 1];
      assert Next(tag, s, e, states[j]);
      hide Check;
      if e.Connect? {
        CheckBuckets(s, e.user, e.ip, e.noSSUDP, e.now);
      } else if e.Update? {
        DeleteUsersKeeps(s, tag, e.deleted);
        AddUsersKeeps(DeleteUsers(s, tag, e.deleted), tag, e.added);
      }
    }
  }

  // ----- limits -----

  predicate Within(limit: int, bound: int) {
    bound == 0 || limit <= bound
  }

  /** For non-negative limits the result is the largest limit within both, or none if both are none. */
  lemma DetermineIsMinimum(a: int, b: int)
    requires a >= 0 && b >= 0
    ensures var m := DetermineSpeedLimit(a, b);
            && (m == 0 <==> a == 0 && b == 0)
            && (m == a || m == b) && Within(m, a) && Within(m, b)
  {
  }

  lemma DetermineLaws(a: int, b: int, c: int)
    ensures DetermineSpeedLimit(a, b) == DetermineSpeedLimit(b, a)
    ensures DetermineSpeedLimit(a, a) == a
    ensures DetermineSpeedLimit(a, 0) == a <==> a >= 0
    ensures a >= 0 && b >= 0 && c >= 0 ==>
              DetermineSpeedLimit(DetermineSpeedLimit(a, b), c) == DetermineSpeedLimit(a, DetermineSpeedLimit(b, c))
  {
  }

  /** Next to a negative limit zero wins, and then the order in which three limits are combined counts. */
  lemma NegativeLimitsBreakTheLaws()
    ensures DetermineSpeedLimit(-1, 0) != -1
    ensures DetermineSpeedLimit(DetermineSpeedLimit(-1, 0), 5) != DetermineSpeedLimit(-1, DetermineSpeedLimit(0, 5))
  {
  }

  /** A limit becomes 125000 bytes a second per megabit exactly when the product fits into 64 bits. */
  lemma RateIsExact(limit: int)
    ensures Rate(limit) == 125000 * limit <==> -TWO63 <= 1000000 * limit < TWO63
  {
    var w := Int64(limit * 1000000);
    if -TWO63 <= 1000000 * limit < TWO63 {
      assert w == 1000000 * limit;
      if limit >= 0 {
        assert 8 * (125000 * limit) == w;
      } else {
        assert 8 * (125000 * -limit) == -w;
      }
    } else {
      assert -TWO63 <= w < TWO63;
    }
  }

  // ----- the rate of a bucket -----

  predicate Fits(limit: int) {
    0 <= limit && 1000000 * limit < TWO63
  }

  /** The limits a run starts with and is given. */
  ghost predicate FittingInfo(s: State) {
    && Fits(s.speedLimit)
    && forall t :: t in s.info ==> Fits(s.info[t].speedLimit) && Fits(s.info[t].dynamicSpeedLimit)
  }

  ghost predicate FittingEvent(e: Event) {
    && (e.Update? ==> forall u :: u in e.added ==> Fits(u.speedLimit))
    && (e.Dynamic? ==> Fits(e.limit))
  }

  lemma {:induction false} DeleteUsersFits(s: State, tag: string, users: seq<UserInfo>)
    requires FittingInfo(s)
    ensures FittingInfo(DeleteUsers(s, tag, users))
  {
    hide UserTag;
    hide Fits;
    if users == [] {
    } else {
      DeleteUsersFits(s, tag, users[..|users| - 1]);
    }
  }

  lemma {:induction false} AddUsersFits(s: State, tag: string, users: seq<UserInfo>)
    requires FittingInfo(s) && forall u :: u in users ==> Fits(u.speedLimit)
    ensures FittingInfo(AddUsers(s, tag, users))
  {
    hide UserTag;
    if users == [] {
    } else {
      var u := users[|users| - 1];
      assert u in users;
      assert forall v :: v in users[..|users| - 1] ==> v in users;
      AddUsersFits(s, tag, users[..|users| - 1]);
    }
  }

  lemma CheckFits(s: State, e: Event)
    requires e.Connect? && FittingInfo(s)
    ensures FittingInfo(Check(s, e.user, e.ip, e.noSSUDP, e.now).state)
  {
    hide GoesOnline;
    hide TakeBucket;
    hide Rejects;
    hide Normal;
    hide UserLimit;
    hide Rate;
    hide DetermineSpeedLimit;
    hide Expired;
  }

  lemma StepFits(tag: string, s: State, e: Event, s': State)
    requires Next(tag, s, e, s') && FittingInfo(s) && FittingEvent(e)
    ensures FittingInfo(s')
  {
    match e {
      case Connect(_, _, _, _) => CheckFits(s, e);
      case Update(added, deleted) =>
        DeleteUsersFits(s, tag, deleted);
        AddUsersFits(DeleteUsers(s, tag, deleted), tag, added);
      case _ =>
    }
  }

  lemma {:induction false} RunFits(tag: string, states: seq<State>, events: seq<Event>, j: nat)
    requires Run(tag, states, events) && j < |states| && FittingInfo(states[0])
    requires forall k :: 0 <= k < |events| ==> FittingEvent(events[k])
    ensures FittingInfo(states[j])
    decreases j
  {
    hide Next;
    hide FittingInfo;
    hide FittingEvent;
    if j == 0 {
    } else {
      RunFits(tag, states, events, j - 1);
      StepFits(tag, states[j - 1], events[j - 1], states[j]);
    }
  }

  /** The limits on a user at a time: those of the node and the user, and the temporary one until it runs
      out. */
  function LimitsOn(s: State, u: Info, now: int): seq<int> {
    [s.speedLimit, u.speedLimit, if Expired(u, now) then 0 else u.dynamicSpeedLimit]
  }

  /** The smallest of some limits, leaving out those that are zero. */
  ghost predicate IsSmallest(m: int, limits: seq<int>) {
    m != 0 && m in limits && forall l :: l in limits && l != 0 ==> m <= l
  }

  lemma RateForIsSmallest(s: State, u: Info, now: int)
    requires Fits(s.speedLimit) && Fits(u.speedLimit) && Fits(u.dynamicSpeedLimit) && RateFor(s, u, now) > 0
    ensures exists m :: IsSmallest(m, LimitsOn(s, u, now)) && RateFor(s, u, now) == 125000 * m
  {
    hide Rate;
    var limits := LimitsOn(s, u, now);
    assert limits[0] in limits && limits[1] in limits && limits[2] in limits;
    var m := DetermineSpeedLimit(s.speedLimit, UserLimit(u, now));
    DetermineIsMinimum(u.speedLimit, u.dynamicSpeedLimit);
    DetermineIsMinimum(s.speedLimit, UserLimit(u, now));
    RateIsExact(m);
    assert IsSmallest(m, limits);
  }

  /** Over every run whose limits are not negative and fit, every stored bucket gives 125000 bytes a second
      for each megabit of the smallest of the node's, the user's and his unexpired temporary limit at the
      earlier connection of this user that made it. */
  lemma BucketRate(tag: string, states: seq<State>, events: seq<Event>, j: nat, user: string)
    requires Run(tag, states, events) && states[0].buckets == map[] && FittingInfo(states[0])
    requires forall k :: 0 <= k < |events| ==> FittingEvent(events[k])
    requires j < |states| && user in states[j].buckets
    ensures exists i, m :: 0 <= i < j && Makes(states[i], events[i], user, states[j].buckets[user])
              && IsSmallest(m, LimitsOn(states[i], states[i].info[user], events[i].now))
              && states[j].buckets[user].rate == 125000 * m
  {
    hide Next;
    hide Check;
    hide RateFor;
    BucketOrigin(tag, states, events, j, user);
    var i :| 0 <= i < j && Makes(states[i], events[i], user, states[j].buckets[user]);
    RunFits(tag, states, events, i);
    RateForIsSmallest(states[i], states[i].info[user], events[i].now);
  }

  // ----- the calls of a limiter -----

  datatype Call =
    | Connecting(user: string, ip: string, isTcp: bool, noSSUDP: bool, now: int)
    | Updating(added: seq<UserInfo>, deleted: seq<UserInfo>)
    | Limiting(uuid: string, limit: int, expire: int)
    | Fetching(alive: map<int, int>)
    | Reporting

  /** The event of a run that a call is. */
  ghost predicate Matches(c: Call, e: Event) {
    match c
    case Connecting(user, ip, _, noSSUDP, now) => e == Connect(user, ip, noSSUDP, now)
    case Updating(added, deleted) => e == Update(added, deleted)
    case Limiting(uuid, limit, expire) => e == Dynamic(uuid, limit, expire)
    case Fetching(alive) => e == Alive(alive)
    case Reporting => e.Report?
  }

  /** Any calls of a limiter, one after another, are a run. */
  method UseLimiter(l: Limiter, tag: string, calls: seq<Call>) returns (ghost states: seq<State>, ghost events: seq<Event>)
    modifies l
    ensures Run(tag, states, events) && |events| == |calls|
    ensures states[0] == old(l.Contents()) && states[|calls|] == l.Contents()
    ensures forall i :: 0 <= i < |calls| ==> Matches(calls[i], events[i])
  {
    hide Check;
    hide DeleteUsers;
    hide AddUsers;
    hide SetDynamic;
    hide Lists;
    hide Remembers;
    states, events := [l.Contents()], [];
    for i := 0 to |calls|
      invariant Run(tag, states, events) && |events| == i
      invariant states[0] == old(l.Contents()) && states[i] == l.Contents()
      invariant forall k :: 0 <= k < i ==> Matches(calls[k], events[k])
    {
      ghost var e, s := Alive(map[]), l.Contents();
      match calls[i] {
        case Connecting(user, ip, isTcp, noSSUDP, now) =>
          e := Connect(user, ip, noSSUDP, now);
          var bucket, reject := l.CheckLimit(user, ip, isTcp, noSSUDP, now);
        case Updating(added, deleted) =>
          e := Update(added, deleted);
          l.UpdateUser(tag, added, deleted);
        case Limiting(uuid, limit, expire) =>
          e := Dynamic(uuid, limit, expire);
          var found := l.UpdateDynamicSpeedLimit(tag, uuid, limit, expire);
        case Fetching(alive) =>
          e := Alive(alive);
          l.aliveList := alive;
        case Reporting =>
          ghost var origin;
          var onlineUser;
          onlineUser, origin := l.GetOnlineDevice();
          e := Report(onlineUser, origin, l.oldUserOnline);
      }
      assert Next(tag, s, e, l.Contents());
      states, events := states + [l.Contents()], events + [e];
    }
  }
}
