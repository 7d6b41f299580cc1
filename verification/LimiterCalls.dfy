/** What the calls of limiter/limiter.go come to, in terms of the maps before and after and of the values a
    caller passes. */
module LimiterCalls {
  import opened Panel
  import opened Limiter
  import opened LimiterRuns

  // ----- a connection -----

  /** The text names this IP: an IPv4 address may come with the prefix that maps it into IPv6. */
  ghost predicate Names(text: string, ip: string) {
    text == "::ffff:" + ip || (text == ip && !("::ffff:" <= text))
  }

  lemma NamesNormal(text: string, ip: string)
    ensures Names(text, ip) <==> Normal(text) == ip
  {
    if "::ffff:" <= text {
      assert text == "::ffff:" + text[7..];
      if Names(text, ip) {
        assert ip == text[7..];
      }
    }
  }

  /** A device is counted once: both forms of its address make the same connection. */
  lemma MappedIsSame(s: State, user: string, ip: string, noSSUDP: bool, now: int)
    requires !("::ffff:" <= ip)
    ensures Check(s, user, "::ffff:" + ip, noSSUDP, now) == Check(s, user, ip, noSSUDP, now)
  {
    NamesNormal("::ffff:" + ip, ip);
    NamesNormal(ip, ip);
    hide Normal;
  }

  ghost predicate IsOnline(s: State, user: string, ip: string) {
    user in s.online && ip in s.online[user]
  }

  /** The panel knows as many devices of the user as he may have. */
  ghost predicate NoRoomFor(s: State, u: Info) {
    u.uid in s.alive && 0 < u.deviceLimit <= s.alive[u.uid]
  }

  /** A connection is rejected exactly when nobody is known for it, or devices are looked at, its IP is neither
      online nor in the last report, and the device limit is used up. */
  lemma RejectedWhen(s: State, user: string, text: string, ip: string, noSSUDP: bool, now: int)
    requires Names(text, ip)
    ensures Check(s, user, text, noSSUDP, now).reject <==>
            || user !in s.info
            || (noSSUDP && !IsOnline(s, user, ip) && ip !in s.oldOnline && NoRoomFor(s, s.info[user]))
  {
    NamesNormal(text, ip);
    hide Normal;
    hide Rate;
    hide UserLimit;
    hide DetermineSpeedLimit;
    hide GoesOnline;
    hide Expire;
    hide TakeBucket;
  }

  /** An admitted connection whose devices are looked at puts its IP online, with the uid of the user, and
      strikes it off the last report if it is new and was listed there as his. Any other changes neither. */
  lemma OnlineAfter(s: State, user: string, text: string, ip: string, noSSUDP: bool, now: int)
    requires Names(text, ip)
    ensures var v := Check(s, user, text, noSSUDP, now);
            if v.reject || !noSSUDP || IsOnline(s, user, ip) then
              v.state.online == s.online && v.state.oldOnline == s.oldOnline
            else
              && user in s.info
              && v.state.online.Keys == s.online.Keys + {user}
              && (forall t :: t in s.online && t != user ==> v.state.online[t] == s.online[t])
              && v.state.online[user] == (if user in s.online then s.online[user] else map[])[ip := s.info[user].uid]
              && v.state.oldOnline ==
                 if ip in s.oldOnline && s.oldOnline[ip] == s.info[user].uid then s.oldOnline - {ip} else s.oldOnline
  {
    NamesNormal(text, ip);
    CheckOnline(s, user, text, noSSUDP, now);
    RejectedWhen(s, user, text, ip, noSSUDP, now);
    hide Normal;
    hide Check;
  }

  /** Whatever the verdict, a temporary limit that has run out is gone, and with it the entry of a user who has
      no limit of his own. Nothing else about users changes. */
  lemma InfoAfter(s: State, user: string, text: string, noSSUDP: bool, now: int)
    ensures var v := Check(s, user, text, noSSUDP, now);
            && v.state.uids == s.uids && v.state.alive == s.alive && v.state.speedLimit == s.speedLimit
            && v.state.info ==
               if user in s.info && s.info[user].expireTime != 0 && s.info[user].expireTime < now then
                 var u := s.info[user];
                 if u.speedLimit == 0 then s.info - {user}
                 else s.info[user := Info(u.uid, u.speedLimit, u.deviceLimit, 0, 0, u.overLimit)]
               else s.info
  {
    hide Normal;
    hide Rate;
    hide UserLimit;
    hide DetermineSpeedLimit;
    hide GoesOnline;
    hide TakeBucket;
    hide Rejects;
  }

  /** Some limit holds for the user. */
  ghost predicate IsLimited(s: State, user: string, now: int)
    requires user in s.info
  {
    exists l :: l in LimitsOn(s, s.info[user], now) && l != 0
  }

  lemma LimitedWhen(s: State, user: string, now: int)
    requires user in s.info && FittingInfo(s)
    ensures RateFor(s, s.info[user], now) > 0 <==> IsLimited(s, user, now)
  {
    hide Rate;
    var u := s.info[user];
    var limits := LimitsOn(s, u, now);
    assert limits[0] in limits && limits[1] in limits && limits[2] in limits;
    assert forall l :: l in limits ==> l == limits[0] || l == limits[1] || l == limits[2];
    assert Fits(u.speedLimit) && Fits(u.dynamicSpeedLimit);
    DetermineIsMinimum(u.speedLimit, u.dynamicSpeedLimit);
    DetermineIsMinimum(s.speedLimit, UserLimit(u, now));
    RateIsExact(DetermineSpeedLimit(s.speedLimit, UserLimit(u, now)));
  }

  /** A connection gets a bucket exactly when it is admitted and some limit holds for its user. The bucket is the
      one stored for him, before if there was one, and afterwards in any case. */
  lemma GrantedWhen(s: State, user: string, text: string, noSSUDP: bool, now: int)
    requires FittingInfo(s)
    ensures var v := Check(s, user, text, noSSUDP, now);
            && (v.bucket.Some? <==> !v.reject && user in s.info && IsLimited(s, user, now))
            && (v.bucket.Some? ==>
                  && user in v.state.buckets && v.state.buckets[user] == v.bucket.value
                  && (user in s.buckets ==> v.bucket.value == s.buckets[user]))
            && (forall t :: t != user || v.bucket.None? ==>
                  (t in v.state.buckets <==> t in s.buckets) && (t in s.buckets ==> v.state.buckets[t] == s.buckets[t]))
  {
    if user in s.info {
      LimitedWhen(s, user, now);
    }
    hide IsLimited;
    hide Normal;
    hide Rate;
    hide UserLimit;
    hide DetermineSpeedLimit;
    hide GoesOnline;
    hide Rejects;
    hide Expired;
  }

  /** Over every run with limits that are not negative and fit: between deletions of a user, all his
      connections that are admitted while some limit holds for him get a bucket, and all the same. */
  lemma AdmittedShareBucket(tag: string, states: seq<State>, events: seq<Event>, i: nat, j: nat)
    requires Run(tag, states, events) && FittingInfo(states[0]) && i <= j < |events|
    requires forall k :: 0 <= k < |events| ==> FittingEvent(events[k])
    requires events[i].Connect? && events[j].Connect? && events[i].user == events[j].user
    requires Admitted(states[i], events[i]) && Admitted(states[j], events[j])
    requires IsLimited(states[i], events[i].user, events[i].now) && IsLimited(states[j], events[j].user, events[j].now)
    requires forall k :: i < k < j ==> !Deletes(tag, events[k], events[i].user)
    ensures Granted(states[i], events[i]).Some? && Granted(states[i], events[i]) == Granted(states[j], events[j])
  {
    hide Check;
    hide Next;
    hide IsLimited;
    RunFits(tag, states, events, i);
    RunFits(tag, states, events, j);
    GrantedWhen(states[i], events[i].user, events[i].ip, events[i].noSSUDP, events[i].now);
    GrantedWhen(states[j], events[j].user, events[j].ip, events[j].noSSUDP, events[j].now);
    hide FittingInfo;
    hide FittingEvent;
    BucketIsShared(tag, states, events, i, j);
  }

  ghost predicate Admitted(s: State, e: Event)
    requires e.Connect?
    ensures Admitted(s, e) ==> e.user in s.info
  {
    !Check(s, e.user, e.ip, e.noSSUDP, e.now).reject
  }

  // ----- a report -----

  /** The user is online from the IP, with this uid. */
  ghost predicate OnlineAs(online: map<string, map<string, int>>, user: string, ip: string, uid: int) {
    user in online && ip in online[user] && online[user][ip] == uid
  }

  /** A report has an entry exactly for each uid and IP somebody is online with, as many entries as there are users
      and IPs, and what is remembered of it leads from exactly these IPs to such a uid. */
  lemma ReportHolds(s: State, report: seq<OnlineUser>, origin: seq<(string, string)>, remembered: map<string, int>)
    requires Lists(report, origin, s.online) && Remembers(remembered, report)
    ensures forall uid, ip :: OnlineUser(uid, ip) in report <==> exists user :: OnlineAs(s.online, user, ip, uid)
    ensures |report| == |set user, ip | user in s.online && ip in s.online[user] :: (user, ip)|
    ensures forall ip :: ip in remembered <==> exists user :: user in s.online && ip in s.online[user]
    ensures forall ip :: ip in remembered ==> exists user :: OnlineAs(s.online, user, ip, remembered[ip])
  {
    forall uid, ip ensures OnlineUser(uid, ip) in report <==> exists user :: OnlineAs(s.online, user, ip, uid) {
      EntriesAreOnline(s, report, origin, uid, ip);
    }
    DistinctCount(origin, Pairs(s.online));
    assert Pairs(s.online) == set user, ip | user in s.online && ip in s.online[user] :: (user, ip);
    hide Lists;
    forall ip ensures ip in remembered <==> exists user :: user in s.online && ip in s.online[user] {
      if ip in remembered {
        assert OnlineUser(remembered[ip], ip) in report;
        var user :| OnlineAs(s.online, user, ip, remembered[ip]);
      }
      if user :| user in s.online && ip in s.online[user] {
        assert OnlineAs(s.online, user, ip, s.online[user][ip]);
        assert OnlineUser(s.online[user][ip], ip) in report;
      }
    }
  }

  lemma EntriesAreOnline(s: State, report: seq<OnlineUser>, origin: seq<(string, string)>, uid: int, ip: string)
    requires Lists(report, origin, s.online)
    ensures OnlineUser(uid, ip) in report <==> exists user :: OnlineAs(s.online, user, ip, uid)
  {
    if OnlineUser(uid, ip) in report {
      var k :| 0 <= k < |report| && report[k] == OnlineUser(uid, ip);
      assert origin[k] in Pairs(s.online);
      assert OnlineAs(s.online, origin[k].0, ip, uid);
    }
    if user :| OnlineAs(s.online, user, ip, uid) {
      assert (user, ip) in Pairs(s.online);
      var k :| 0 <= k < |origin| && origin[k] == (user, ip);
      assert report[k] == OnlineUser(uid, ip);
    }
  }

  lemma {:induction false} DistinctCount(origin: seq<(string, string)>, pairs: set<(string, string)>)
    requires (forall k :: 0 <= k < |origin| ==> origin[k] in pairs) && (forall p :: p in pairs ==> p in origin)
    requires forall k, m :: 0 <= k < m < |origin| ==> origin[k] != origin[m]
    ensures |origin| == |pairs|
  {
    if origin == [] {
      assert pairs == {};
    } else {
      var n := |origin| - 1;
      var rest := origin[..n];
      assert origin == rest + [origin[n]];
      assert origin[n] !in rest;
      DistinctCount(rest, pairs - {origin[n]});
    }
  }

  // ----- updates -----

  function Name(tag: string, u: UserInfo): string {
    tag + "|" + u.uuid
  }

  /** Nothing of a deleted user is left: no entry, no IP online, no bucket, no uid, and no count of his devices. */
  lemma {:induction false} DeletedAreGone(s: State, tag: string, users: seq<UserInfo>, u: UserInfo)
    requires u in users
    ensures var s' := DeleteUsers(s, tag, users);
            && Name(tag, u) !in s'.info && Name(tag, u) !in s'.online && Name(tag, u) !in s'.buckets
            && u.uuid !in s'.uids && u.id !in s'.alive
  {
    var n := |users| - 1;
    if u != users[n] {
      assert u in users[..n];
      DeletedAreGone(s, tag, users[..n], u);
    }
  }

  /** What belongs to no deleted user stays. */
  lemma {:induction false} OthersStay(s: State, tag: string, users: seq<UserInfo>, t: string, uuid: string, id: int)
    requires forall u :: u in users ==> Name(tag, u) != t && u.uuid != uuid && u.id != id
    ensures var s' := DeleteUsers(s, tag, users);
            && SameAt(s'.info, s.info, t) && SameAt(s'.online, s.online, t) && SameAt(s'.buckets, s.buckets, t)
            && SameAt(s'.uids, s.uids, uuid) && SameAt(s'.alive, s.alive, id)
            && s'.oldOnline == s.oldOnline && s'.speedLimit == s.speedLimit && s'.made == s.made
  {
    if users == [] {
    } else {
      var n := |users| - 1;
      assert users[n] in users && forall u :: u in users[..n] ==> u in users;
      OthersStay(s, tag, users[..n], t, uuid, id);
    }
  }

  ghost predicate SameAt<K, V>(a: map<K, V>, b: map<K, V>, k: K) {
    (k in a <==> k in b) && (k in a ==> a[k] == b[k])
  }

  /** An added user, the last of his uuid, has an entry with his uid and limits and without temporary limit or
      flag, and his uuid leads to his uid. */
  lemma {:induction false} AddedAreKnown(s: State, tag: string, users: seq<UserInfo>, i: nat)
    requires i < |users| && forall j :: i < j < |users| ==> users[j].uuid != users[i].uuid
    ensures var s', u := AddUsers(s, tag, users), users[i];
            && Name(tag, u) in s'.info && s'.info[Name(tag, u)] == Info(u.id, u.speedLimit, u.deviceLimit, 0, 0, false)
            && u.uuid in s'.uids && s'.uids[u.uuid] == u.id
  {
    var n := |users| - 1;
    if i < n {
      AddedAreKnown(s, tag, users[..n], i);
      UserTagInjective(tag, users[n].uuid, users[i].uuid);
    }
  }

  /** And nothing else is known that was not. */
  lemma {:induction false} OthersKnown(s: State, tag: string, users: seq<UserInfo>, t: string, uuid: string)
    requires forall u :: u in users ==> Name(tag, u) != t && u.uuid != uuid
    ensures var s' := AddUsers(s, tag, users);
            && SameAt(s'.info, s.info, t) && SameAt(s'.uids, s.uids, uuid)
            && s'.online == s.online && s'.oldOnline == s.oldOnline && s'.buckets == s.buckets
            && s'.alive == s.alive && s'.speedLimit == s.speedLimit && s'.made == s.made
  {
    if users == [] {
    } else {
      var n := |users| - 1;
      assert users[n] in users && forall u :: u in users[..n] ==> u in users;
      OthersKnown(s, tag, users[..n], t, uuid);
    }
  }

  /** A temporary limit changes just that, and only for a user with an entry. */
  lemma TemporaryLimit(s: State, tag: string, uuid: string, limit: int, expire: int)
    ensures var s', t := SetDynamic(s, tag, uuid, limit, expire), tag + "|" + uuid;
            && s'.info.Keys == s.info.Keys && s' == s.(info := s'.info)
            && forall k :: k in s.info ==>
                 var u := s.info[k];
                 s'.info[k] == if k == t then Info(u.uid, u.speedLimit, u.deviceLimit, limit, expire, u.overLimit) else u
  {
  }

  /** A new limiter has its node's limit and the alive list it is given, and nobody online. */
  lemma NewLimiter(tag: string, speedLimit: int, users: seq<UserInfo>, alive: map<int, int>)
    ensures var s := New(tag, speedLimit, users, alive);
            && s.speedLimit == speedLimit && s.alive == alive
            && s.online == map[] && s.oldOnline == map[] && s.buckets == map[]
  {
    AddUsersKeeps(State(speedLimit, map[], map[], map[], map[], map[], alive, 0), tag, users);
  }
}
