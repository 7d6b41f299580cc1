/** The online users node/user.go reports: those of the limiter whose traffic is not known to be below the
    minimum, grouped by uid. */
module OnlineReport {
  import opened Panel

  /** The drain had a record for the uid, and it was below the minimum. */
  ghost predicate TooLittle(userTraffic: seq<UserTraffic>, min: int, uid: int) {
    exists k :: 0 <= k < |userTraffic| && userTraffic[k].uid == uid
                && userTraffic[k].upload + userTraffic[k].download < min * 1000
  }

  /** The IPs listed for a uid, in the order of the list and as often as they are listed. */
  function IpsOf(online: seq<OnlineUser>, uid: int): seq<string> {
    if online == [] then []
    else
      var u := online[|online| - 1];
      IpsOf(online[..|online| - 1], uid) + if u.uid == uid then [u.ip] else []
  }

  lemma IpsOfMore(online: seq<OnlineUser>, k: nat, uid: int)
    requires k < |online|
    ensures IpsOf(online[..k + 1], uid) == IpsOf(online[..k], uid) + if online[k].uid == uid then [online[k].ip] else []
  {
    assert online[..k + 1][..k] == online[..k];
  }

  lemma NothingTooLittle(userTraffic: seq<UserTraffic>, min: int)
    requires userTraffic == []
    ensures forall uid :: !TooLittle(userTraffic, min, uid)
  {
  }

  lemma TooLittleMore(userTraffic: seq<UserTraffic>, i: nat, min: int, uid: int)
    requires i < |userTraffic|
    ensures var t := userTraffic[i];
            TooLittle(userTraffic[..i + 1], min, uid) <==>
            TooLittle(userTraffic[..i], min, uid) || (t.uid == uid && t.upload + t.download < min * 1000)
  {
    var t := userTraffic[..i + 1];
    assert t[i] == userTraffic[i];
    if TooLittle(userTraffic[..i], min, uid) {
      var k :| 0 <= k < i && userTraffic[..i][k].uid == uid
               && userTraffic[..i][k].upload + userTraffic[..i][k].download < min * 1000;
      assert t[k].uid == uid && t[k].upload + t[k].download < min * 1000;
    }
    if TooLittle(t, min, uid) {
      var k :| 0 <= k < i + 1 && t[k].uid == uid && t[k].upload + t[k].download < min * 1000;
      if k < i {
        assert userTraffic[..i][k] == t[k];
      }
    }
  }

  method NoCount(userTraffic: seq<UserTraffic>, min: int) returns (nocountUID: set<int>)
    ensures forall uid :: uid in nocountUID <==> TooLittle(userTraffic, min, uid)
  {
    hide TooLittle;
    nocountUID := {};
    NothingTooLittle(userTraffic[..0], min);
    for i := 0 to |userTraffic|
      invariant forall uid :: uid in nocountUID <==> TooLittle(userTraffic[..i], min, uid)
    {
      var traffic := userTraffic[i];
      var total := traffic.upload + traffic.download;
      forall uid {
        TooLittleMore(userTraffic, i, min, uid);
      }
      if total < min * 1000 {
        nocountUID := nocountUID + {traffic.uid};
      }
    }
    assert userTraffic[..|userTraffic|] == userTraffic;
  }

  method Counted(onlineDevice: seq<OnlineUser>, nocountUID: set<int>) returns (result: seq<OnlineUser>)
    ensures forall uid :: IpsOf(result, uid) == if uid in nocountUID then [] else IpsOf(onlineDevice, uid)
  {
    result := [];
    for i := 0 to |onlineDevice|
      invariant forall uid :: IpsOf(result, uid) == if uid in nocountUID then [] else IpsOf(onlineDevice[..i], uid)
    {
      var online := onlineDevice[i];
      forall uid {
        IpsOfMore(onlineDevice, i, uid);
      }
      if online.uid !in nocountUID {
        ghost var before := result;
        result := result + [online];
        assert result[..|result| - 1] == before;
      }
    }
    assert onlineDevice[..|onlineDevice|] == onlineDevice;
  }

  method Group(result: seq<OnlineUser>) returns (data: map<int, seq<string>>)
    ensures forall uid :: uid in data <==> IpsOf(result, uid) != []
    ensures forall uid :: uid in data ==> data[uid] == IpsOf(result, uid)
  {
    data := map[];
    for i := 0 to |result|
      invariant forall uid :: uid in data <==> IpsOf(result[..i], uid) != []
      invariant forall uid :: uid in data ==> data[uid] == IpsOf(result[..i], uid)
    {
      var u := result[i];
      forall uid {
        IpsOfMore(result, i, uid);
      }
      data := data[u.uid := (if u.uid in data then data[u.uid] else []) + [u.ip]];
    }
    assert result[..|result|] == result;
  }

  /** The loops of reportUserTrafficTask: `data` has exactly the uids that are online and not left out, each
      with all its IPs. */
  method GroupOnline(userTraffic: seq<UserTraffic>, onlineDevice: seq<OnlineUser>, min: int)
    returns (data: map<int, seq<string>>)
    ensures forall uid :: uid in data <==> IpsOf(onlineDevice, uid) != [] && !TooLittle(userTraffic, min, uid)
    ensures forall uid :: uid in data ==> data[uid] == IpsOf(onlineDevice, uid)
  {
    var nocountUID := NoCount(userTraffic, min);
    var result := Counted(onlineDevice, nocountUID);
    data := Group(result);
  }

  /** Nothing is dropped and nothing made up: a uid's group is as long as its listing. */
  lemma {:induction false} IpsOfCount(online: seq<OnlineUser>, uid: int, ip: string)
    ensures multiset(IpsOf(online, uid))[ip] == multiset(online)[OnlineUser(uid, ip)]
  {
    if online == [] {
    } else {
      var rest, u := online[..|online| - 1], online[|online| - 1];
      IpsOfCount(rest, uid, ip);
      assert online == rest + [u];
    }
  }
}
