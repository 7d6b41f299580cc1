/** The per-user limiter of limiter/limiter.go and limiter/dynamic.go. Its maps are fields that the
    methods reassign. Each method is proved against a function on the contents of the limiter. Calls are
    atomic and the time is a parameter. */
module Limiter {
  import opened Panel

  /** A token bucket: which one it is, and how many bytes a second it gives. */
  datatype Bucket = Bucket(id: nat, rate: int)

  datatype Info = Info(uid: int, speedLimit: int, deviceLimit: int, dynamicSpeedLimit: int,
                       expireTime: int, overLimit: bool)

  datatype State = State(
    speedLimit: int,
    online: map<string, map<string, int>>,  // user tag to its online IPs, each with the uid
    oldOnline: map<string, int>,            // the IPs of the last report, each with a uid
    uids: map<string, int>,                 // uuid to uid
    info: map<string, Info>,                // user tag to its limits
    buckets: map<string, Bucket>,           // user tag to its bucket
    alive: map<int, int>,                   // uid to the number of IPs the panel knows
    made: nat)                              // buckets made so far

  // ----- the specification -----

  /** The smaller of two limits, zero standing for none. */
  function DetermineSpeedLimit(limit1: int, limit2: int): (limit: int) {
    if limit1 == 0 || limit2 == 0 then
      if limit1 > limit2 then limit1 else if limit1 < limit2 then limit2 else 0
    else if limit1 > limit2 then limit2
    else limit1
  }

  const MAPPED := "::ffff:"

  /** An IPv4 address without the prefix that maps it into IPv6. */
  function Normal(ip: string): string {
    if MAPPED <= ip then ip[|MAPPED|..] else ip
  }

  function OnlineOf(s: State, tag: string): map<string, int> {
    if tag in s.online then s.online[tag] else map[]
  }

  function AliveOf(s: State, uid: int): int {
    if uid in s.alive then s.alive[uid] else 0
  }

  predicate Expired(u: Info, now: int) {
    u.expireTime < now && u.expireTime != 0
  }

  /** A temporary limit that has run out is dropped, and with it the whole entry of a user who has no
      limit of his own. */
  function Expire(s: State, tag: string, now: int): (s': State)
    requires tag in s.info
    ensures s' == s.(info := s'.info)
  {
    var u := s.info[tag];
    if !Expired(u, now) then s
    else if u.speedLimit != 0 then
      s.(info := s.info[tag := u.(dynamicSpeedLimit := 0, expireTime := 0)])
    else s.(info := s.info - {tag})
  }

  function UserLimit(u: Info, now: int): int {
    if Expired(u, now) then u.speedLimit else DetermineSpeedLimit(u.speedLimit, u.dynamicSpeedLimit)
  }

  /** The user has as many devices as he may have. */
  predicate Full(s: State, tag: string)
    requires tag in s.info
  {
    0 < s.info[tag].deviceLimit <= AliveOf(s, s.info[tag].uid)
  }

  predicate Rejects(s: State, tag: string, ip: string, noSSUDP: bool) {
    || tag !in s.info
    || (noSSUDP && ip !in OnlineOf(s, tag) && ip !in s.oldOnline && Full(s, tag))
  }

  /** The IP is online from now on; a new one is struck off the last report if it was there as his. */
  function GoesOnline(s: State, tag: string, ip: string, uid: int): (s': State)
    ensures s' == s.(online := s'.online, oldOnline := s'.oldOnline)
  {
    if ip in OnlineOf(s, tag) then s
    else s.(online := s.online[tag := OnlineOf(s, tag)[ip := uid]],
            oldOnline := if ip in s.oldOnline && s.oldOnline[ip] == uid then s.oldOnline - {ip} else s.oldOnline)
  }

  /** Bytes a second for a limit in megabits. */
  function Rate(limit: int): int {
    Quotient(Int64(limit * 1000000), 8)
  }

  function TakeBucket(s: State, tag: string, rate: int): (r: (State, Option<Bucket>))
    ensures r.0 == s.(buckets := r.0.buckets, made := r.0.made)
  {
    if rate <= 0 then (s, None)
    else if tag in s.buckets then (s.(made := s.made + 1), Some(s.buckets[tag]))
    else
      var b := Bucket(s.made, rate);
      (s.(made := s.made + 1, buckets := s.buckets[tag := b]), Some(b))
  }

  datatype Verdict = Verdict(state: State, bucket: Option<Bucket>, reject: bool)

  function Check(s: State, tag: string, ip: string, noSSUDP: bool, now: int): Verdict {
    if tag !in s.info then Verdict(s, None, true)
    else
      var u := s.info[tag];
      var s1 := Expire(s, tag, now);
      if Rejects(s, tag, Normal(ip), noSSUDP) then Verdict(s1, None, true)
      else
        var s2 := if noSSUDP then GoesOnline(s1, tag, Normal(ip), u.uid) else s1;
        var (s3, b) := TakeBucket(s2, tag, Rate(DetermineSpeedLimit(s.speedLimit, UserLimit(u, now))));
        Verdict(s3, b, false)
  }

  function InfoOf(u: UserInfo): Info {
    Info(u.id, u.speedLimit, u.deviceLimit, 0, 0, false)
  }

  function DeleteUser(s: State, tag: string, u: UserInfo): State {
    var t := UserTag(tag, u.uuid);
    s.(info := s.info - {t}, online := s.online - {t}, buckets := s.buckets - {t},
       uids := s.uids - {u.uuid}, alive := s.alive - {u.id})
  }

  function AddUser(s: State, tag: string, u: UserInfo): State {
    s.(info := s.info[UserTag(tag, u.uuid) := InfoOf(u)], uids := s.uids[u.uuid := u.id])
  }

  function DeleteUsers(s: State, tag: string, users: seq<UserInfo>): State {
    if users == [] then s else DeleteUser(DeleteUsers(s, tag, users[..|users| - 1]), tag, users[|users| - 1])
  }

  function AddUsers(s: State, tag: string, users: seq<UserInfo>): State {
    if users == [] then s else AddUser(AddUsers(s, tag, users[..|users| - 1]), tag, users[|users| - 1])
  }

  function New(tag: string, speedLimit: int, users: seq<UserInfo>, alive: map<int, int>): State {
    AddUsers(State(speedLimit, map[], map[], map[], map[], map[], alive, 0), tag, users)
  }

  function SetDynamic(s: State, tag: string, uuid: string, limit: int, expire: int): State {
    var t := UserTag(tag, uuid);
    if t in s.info then s.(info := s.info[t := s.info[t].(dynamicSpeedLimit := limit, expireTime := expire)])
    else s
  }

  /** Every (user tag, IP) pair that is online. */
  function Pairs(online: map<string, map<string, int>>): set<(string, string)> {
    set tag, ip | tag in online && ip in online[tag] :: (tag, ip)
  }

  function Ips(online: map<string, map<string, int>>): set<string> {
    set tag, ip | tag in online && ip in online[tag] :: ip
  }

  /** The report lists no pair twice; `origin` says which entry stands for which pair. */
  ghost predicate ListsSome(report: seq<OnlineUser>, origin: seq<(string, string)>,
                            online: map<string, map<string, int>>) {
    && |origin| == |report|
    && (forall k :: 0 <= k < |report| ==>
          && origin[k] in Pairs(online)
          && report[k] == OnlineUser(online[origin[k].0][origin[k].1], origin[k].1))
    && (forall k, m :: 0 <= k < m < |origin| ==> origin[k] != origin[m])
  }

  /** The report lists every pair exactly once. */
  ghost predicate Lists(report: seq<OnlineUser>, origin: seq<(string, string)>,
                        online: map<string, map<string, int>>) {
    && ListsSome(report, origin, online)
    && (forall p :: p in Pairs(online) ==> p in origin)
  }

  /** The last report, by IP: exactly the listed IPs, each with a uid it is listed with. */
  ghost predicate Remembers(old': map<string, int>, report: seq<OnlineUser>) {
    && (forall k :: 0 <= k < |report| ==> report[k].ip in old')
    && (forall ip :: ip in old' ==> OnlineUser(old'[ip], ip) in report)
  }

  // ----- the limiter -----

  lemma ListsMore(report: seq<OnlineUser>, origin: seq<(string, string)>, online: map<string, map<string, int>>,
                  tag: string, ip: string)
    requires ListsSome(report, origin, online)
    requires tag in online && ip in online[tag] && (tag, ip) !in origin
    ensures ListsSome(report + [OnlineUser(online[tag][ip], ip)], origin + [(tag, ip)], online)
  {
    assert (tag, ip) in Pairs(online);
  }

  lemma RemembersMore(old': map<string, int>, report: seq<OnlineUser>, u: OnlineUser)
    requires Remembers(old', report)
    ensures Remembers(old'[u.ip := u.uid], report + [u])
  {
    var report' := report + [u];
    assert report'[|report|] == u;
    forall ip | ip in old' && ip != u.ip ensures OnlineUser(old'[ip], ip) in report' {
      var k :| 0 <= k < |report| && report[k] == OnlineUser(old'[ip], ip);
      assert report'[k] == report[k];
    }
  }

  class Limiter {
    const speedLimit: int
    var userOnlineIP: map<string, map<string, int>>
    var oldUserOnline: map<string, int>
    var uuidToUid: map<string, int>
    var userLimitInfo: map<string, Info>
    var speedLimiter: map<string, Bucket>
    var aliveList: map<int, int>
    var bucketsMade: nat

    function Contents(): State
      reads this
    {
      State(speedLimit, userOnlineIP, oldUserOnline, uuidToUid, userLimitInfo, speedLimiter, aliveList, bucketsMade)
    }

    /** AddLimiter, without the entry in the registry. */
    constructor (tag: string, speedLimit: int, users: seq<UserInfo>, aliveList: map<int, int>)
      ensures Contents() == New(tag, speedLimit, users, aliveList)
    {
      this.speedLimit := speedLimit;
      this.userOnlineIP := map[];
      this.oldUserOnline := map[];
      this.uuidToUid := map[];
      this.userLimitInfo := map[];
      this.speedLimiter := map[];
      this.aliveList := aliveList;
      this.bucketsMade := 0;
      new;
      AddAll(tag, users);
    }

    /** The loop that AddLimiter and UpdateUser share. */
    method AddAll(tag: string, users: seq<UserInfo>)
      modifies this
      ensures Contents() == AddUsers(old(Contents()), tag, users)
    {
      for i := 0 to |users|
        invariant Contents() == AddUsers(old(Contents()), tag, users[..i])
      {
        assert users[..i + 1][..i] == users[..i];
        var userLimit := Info(users[i].id, 0, 0, 0, 0, false);
        if users[i].speedLimit != 0 {
          userLimit := userLimit.(speedLimit := users[i].speedLimit);
        }
        if users[i].deviceLimit != 0 {
          userLimit := userLimit.(deviceLimit := users[i].deviceLimit);
        }
        userLimitInfo := userLimitInfo[UserTag(tag, users[i].uuid) := userLimit];
        uuidToUid := uuidToUid[users[i].uuid := users[i].id];
      }
      assert users[..|users|] == users;
    }

    method UpdateUser(tag: string, added: seq<UserInfo>, deleted: seq<UserInfo>)
      modifies this
      ensures Contents() == AddUsers(DeleteUsers(old(Contents()), tag, deleted), tag, added)
    {
      for i := 0 to |deleted|
        invariant Contents() == DeleteUsers(old(Contents()), tag, deleted[..i])
      {
        var t := UserTag(tag, deleted[i].uuid);
        userLimitInfo := userLimitInfo - {t};
        userOnlineIP := userOnlineIP - {t};
        speedLimiter := speedLimiter - {t};
        uuidToUid := uuidToUid - {deleted[i].uuid};
        aliveList := aliveList - {deleted[i].id};
        assert deleted[..i + 1][..i] == deleted[..i];
      }
      assert deleted[..|deleted|] == deleted;
      AddAll(tag, added);
    }

    method UpdateDynamicSpeedLimit(tag: string, uuid: string, limit: int, expire: int) returns (found: bool)
      modifies this`userLimitInfo
      ensures found == (UserTag(tag, uuid) in old(userLimitInfo))
      ensures Contents() == SetDynamic(old(Contents()), tag, uuid, limit, expire)
    {
      var t := UserTag(tag, uuid);
      if t in userLimitInfo {
        userLimitInfo := userLimitInfo[t := userLimitInfo[t].(dynamicSpeedLimit := limit, expireTime := expire)];
        found := true;
      } else {
        found := false;
      }
    }

    /** The device part of CheckLimit. A new IP is stored first and taken out again when it is too many. */
    method AdmitDevice(taguuid: string, ip: string, uid: int, deviceLimit: int) returns (reject: bool)
      modifies this`userOnlineIP, this`oldUserOnline
      ensures reject ==
              (ip !in OnlineOf(old(Contents()), taguuid) && ip !in old(oldUserOnline)
               && 0 < deviceLimit <= AliveOf(old(Contents()), uid))
      ensures Contents() == if reject then old(Contents()) else GoesOnline(old(Contents()), taguuid, ip, uid)
    {
      var newipMap := map[ip := uid];
      var aliveIp := if uid in aliveList then aliveList[uid] else 0;
      if taguuid in userOnlineIP {
        var oldipMap := userOnlineIP[taguuid];
        if ip !in oldipMap {
          userOnlineIP := userOnlineIP[taguuid := oldipMap[ip := uid]];
          if ip in oldUserOnline {
            if oldUserOnline[ip] == uid {
              oldUserOnline := oldUserOnline - {ip};
            }
          } else if deviceLimit > 0 {
            if deviceLimit <= aliveIp {
              userOnlineIP := userOnlineIP[taguuid := userOnlineIP[taguuid] - {ip}];
              assert userOnlineIP[taguuid] == oldipMap;
              return true;
            }
          }
        }
      } else {
        userOnlineIP := userOnlineIP[taguuid := newipMap];
        if ip in oldUserOnline {
          if oldUserOnline[ip] == uid {
            oldUserOnline := oldUserOnline - {ip};
          }
        } else {
          if deviceLimit > 0 {
            if deviceLimit <= aliveIp {
              userOnlineIP := userOnlineIP - {taguuid};
              return true;
            }
          }
        }
      }
      return false;
    }

    /** The last part of CheckLimit. A bucket is made even when the user has one already. */
    method SharedBucket(taguuid: string, limit: int) returns (bucket: Option<Bucket>)
      modifies this`speedLimiter, this`bucketsMade
      ensures (Contents(), bucket) == TakeBucket(old(Contents()), taguuid, limit)
    {
      if limit > 0 {
        var made := Bucket(bucketsMade, limit);
        bucketsMade := bucketsMade + 1;
        if taguuid in speedLimiter {
          return Some(speedLimiter[taguuid]);
        } else {
          speedLimiter := speedLimiter[taguuid := made];
          return Some(made);
        }
      } else {
        return None;
      }
    }

    /** isTcp is not looked at. */
    method CheckLimit(taguuid: string, ip0: string, isTcp: bool, noSSUDP: bool, now: int)
      returns (bucket: Option<Bucket>, reject: bool)
      modifies this
      ensures Verdict(Contents(), bucket, reject) == Check(old(Contents()), taguuid, ip0, noSSUDP, now)
    {
      hide DetermineSpeedLimit;
      hide Int64;
      hide Quotient;
      hide GoesOnline;
      hide TakeBucket;
      hide Normal;
      var ip := Normal(ip0);
      var nodeLimit := speedLimit;
      var userLimit := 0;
      var deviceLimit := 0;
      var uid;
      if taguuid in userLimitInfo {
        var u := userLimitInfo[taguuid];
        deviceLimit := u.deviceLimit;
        uid := u.uid;
        if u.expireTime < now && u.expireTime != 0 {
          if u.speedLimit != 0 {
            userLimit := u.speedLimit;
            userLimitInfo := userLimitInfo[taguuid := u.(dynamicSpeedLimit := 0, expireTime := 0)];
          } else {
            userLimitInfo := userLimitInfo - {taguuid};
          }
        } else {
          userLimit := DetermineSpeedLimit(u.speedLimit, u.dynamicSpeedLimit);
        }
      } else {
        return None, true;
      }
      assert Contents() == Expire(old(Contents()), taguuid, now);
      if noSSUDP {
        reject := AdmitDevice(taguuid, ip, uid, deviceLimit);
        if reject {
          return None, true;
        }
      }
      bucket := SharedBucket(taguuid, Quotient(Int64(DetermineSpeedLimit(nodeLimit, userLimit) * 1000000), 8));
      reject := false;
    }

    /** The order in which the two ranges visit their entries is left open. */
    method GetOnlineDevice() returns (onlineUser: seq<OnlineUser>, ghost origin: seq<(string, string)>)
      modifies this`userOnlineIP, this`oldUserOnline
      ensures userOnlineIP == map[]
      ensures Lists(onlineUser, origin, old(userOnlineIP))
      ensures Remembers(oldUserOnline, onlineUser)
    {
      onlineUser, origin := [], [];
      oldUserOnline := map[];
      ghost var online := userOnlineIP;
      var tags := userOnlineIP.Keys;
      while tags != {}
        invariant userOnlineIP == map t | t in online && t in tags :: online[t]
        invariant tags <= online.Keys
        invariant ListsSome(onlineUser, origin, online) && Remembers(oldUserOnline, onlineUser)
        invariant forall t, ip :: (t, ip) in origin <==> t in online && t !in tags && ip in online[t]
        decreases |tags|
      {
        var taguuid :| taguuid in tags;
        var ipMap := userOnlineIP[taguuid];
        onlineUser, origin := RangeIps(taguuid, ipMap, onlineUser, online, origin);
        userOnlineIP := userOnlineIP - {taguuid};
        tags := tags - {taguuid};
      }
    }

    /** The inner range of GetOnlineDevice. */
    method RangeIps(taguuid: string, ipMap: map<string, int>, onlineUser0: seq<OnlineUser>,
                    ghost online: map<string, map<string, int>>, ghost origin0: seq<(string, string)>)
      returns (onlineUser: seq<OnlineUser>, ghost origin: seq<(string, string)>)
      requires taguuid in online && ipMap == online[taguuid]
      requires ListsSome(onlineUser0, origin0, online) && Remembers(oldUserOnline, onlineUser0)
      requires forall ip :: ip in ipMap ==> (taguuid, ip) !in origin0
      modifies this`oldUserOnline
      ensures ListsSome(onlineUser, origin, online) && Remembers(oldUserOnline, onlineUser)
      ensures forall p :: p in origin <==> p in origin0 || (p.0 == taguuid && p.1 in ipMap)
    {
      onlineUser, origin := onlineUser0, origin0;
      var ips := ipMap.Keys;
      while ips != {}
        invariant ips <= ipMap.Keys
        invariant ListsSome(onlineUser, origin, online) && Remembers(oldUserOnline, onlineUser)
        invariant forall p :: p in origin <==> p in origin0 || (p.0 == taguuid && p.1 in ipMap && p.1 !in ips)
        decreases |ips|
      {
        var ip :| ip in ips;
        var uid := ipMap[ip];
        ListsMore(onlineUser, origin, online, taguuid, ip);
        RemembersMore(oldUserOnline, onlineUser, OnlineUser(uid, ip));
        ghost var before := origin;
        oldUserOnline := oldUserOnline[ip := uid];
        onlineUser := onlineUser + [OnlineUser(uid, ip)];
        origin := origin + [(taguuid, ip)];
        ips := ips - {ip};
        assert forall p :: p in origin <==> p in before || p == (taguuid, ip);
      }
    }
  }

  /** The limiters of all nodes, by node tag. */
  class Registry {
    var limiter: map<string, Limiter>

    method AddLimiter(tag: string, speedLimit: int, users: seq<UserInfo>, aliveList: map<int, int>)
      returns (info: Limiter)
      modifies this
      ensures fresh(info) && info.Contents() == New(tag, speedLimit, users, aliveList)
      ensures limiter == old(limiter)[tag := info]
    {
      info := new Limiter(tag, speedLimit, users, aliveList);
      limiter := limiter[tag := info];
    }

    method GetLimiter(tag: string) returns (info: Option<Limiter>)
      ensures info == if tag in limiter then Some(limiter[tag]) else None
    {
      if tag in limiter {
        return Some(limiter[tag]);
      }
      return None;
    }

    method DeleteLimiter(tag: string)
      modifies this
      ensures limiter == old(limiter) - {tag}
    {
      limiter := limiter - {tag};
    }
  }
}
