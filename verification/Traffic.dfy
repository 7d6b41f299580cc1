/** Traffic accounting: the counters of common/counter/traffic.go, the logger of core/hy2/hook.go, the
    drain that core/hy2/user.go and core/xray/user.go share, and the map api/panel/user.go reports. Here
    calls follow one another; module TrafficRace lets them run into each other. */
module Traffic {
  import opened Panel
  import L = Limiter

  datatype Storage = Storage(up: int, down: int)

  type Counters = map<string, Storage>

  function StorageOf(c: Counters, key: string): Storage {
    if key in c then c[key] else Storage(0, 0)
  }

  class TrafficCounter {
    var counters: Counters

    constructor ()
      ensures counters == map[]
    {
      counters := map[];
    }

    /** The storage is there afterwards, with the counts it had; it is the one the table holds. */
    method GetCounter(uuid: string) returns (cts: Storage)
      modifies this
      ensures cts == StorageOf(old(counters), uuid)
      ensures counters == old(counters)[uuid := cts]
    {
      if uuid in counters {
        return counters[uuid];
      }
      counters := counters[uuid := Storage(0, 0)];
      return counters[uuid];
    }

    method Rx(uuid: string, n: int)
      modifies this
      ensures var s := StorageOf(old(counters), uuid); counters == old(counters)[uuid := s.(down := s.down + n)]
    {
      var cts := GetCounter(uuid);
      counters := counters[uuid := cts.(down := cts.down + n)];
    }

    method Tx(uuid: string, n: int)
      modifies this
      ensures var s := StorageOf(old(counters), uuid); counters == old(counters)[uuid := s.(up := s.up + n)]
    {
      var cts := GetCounter(uuid);
      counters := counters[uuid := cts.(up := cts.up + n)];
    }

    method Reset(uuid: string)
      modifies this
      ensures counters.Keys == old(counters).Keys
      ensures forall k :: k in counters ==> counters[k] == if k == uuid then Storage(0, 0) else old(counters)[k]
    {
      if uuid in counters {
        counters := counters[uuid := Storage(0, 0)];
      }
    }

    method Delete(uuid: string)
      modifies this
      ensures counters == old(counters) - {uuid}
    {
      counters := counters - {uuid};
    }
  }

  // ----- the drain -----

  function UidOf(uids: map<string, int>, key: string): int {
    if key in uids then uids[key] else 0
  }

  predicate Over(s: Storage, min: int) {
    s.up + s.down > min
  }

  /** What a drain leaves: counters at or below the threshold untouched, the others at zero if it resets,
      and gone if nobody is known for them. */
  function Drained(c: Counters, uids: map<string, int>, min: int, reset: bool): Counters {
    map k | k in c && !(Over(c[k], min) && UidOf(uids, k) == 0) ::
      if reset && Over(c[k], min) then Storage(0, 0) else c[k]
  }

  /** The slice lists, in any order, each known counter above the threshold once; `origin` says which. */
  ghost predicate Slices(slice: seq<UserTraffic>, origin: seq<string>, c: Counters, uids: map<string, int>, min: int,
                         visited: set<string>) {
    && |origin| == |slice|
    && (forall i :: 0 <= i < |slice| ==>
          && origin[i] in visited && origin[i] in c && Over(c[origin[i]], min) && UidOf(uids, origin[i]) != 0
          && slice[i] == UserTraffic(UidOf(uids, origin[i]), c[origin[i]].up, c[origin[i]].down))
    && (forall i, j :: 0 <= i < j < |origin| ==> origin[i] != origin[j])
    && (forall k :: k in c && k in visited && Over(c[k], min) && UidOf(uids, k) != 0 ==> k in origin)
  }

  lemma SlicesMore(slice: seq<UserTraffic>, origin: seq<string>, c: Counters, uids: map<string, int>, min: int,
                   visited: set<string>, key: string)
    requires Slices(slice, origin, c, uids, min, visited) && key in c && key !in visited
    ensures if Over(c[key], min) && UidOf(uids, key) != 0
            then Slices(slice + [UserTraffic(UidOf(uids, key), c[key].up, c[key].down)], origin + [key], c, uids, min,
                        visited + {key})
            else Slices(slice, origin, c, uids, min, visited + {key})
  {
    if Over(c[key], min) && UidOf(uids, key) != 0 {
      var origin' := origin + [key];
      assert origin'[|origin|] == key;
      forall k | k in origin ensures k in origin' {
        var i :| 0 <= i < |origin| && origin[i] == k;
        assert origin'[i] == k;
      }
    }
  }

  /** One counter of a drain. */
  function Visited(now: Counters, uids: map<string, int>, min: int, reset: bool, key: string): Counters
    requires key in now
  {
    if !Over(now[key], min) then now
    else if UidOf(uids, key) == 0 then now - {key}
    else if reset then now[key := Storage(0, 0)]
    else now
  }

  ghost predicate PartlyDrained(now: Counters, c: Counters, uids: map<string, int>, min: int, reset: bool,
                                waiting: set<string>) {
    var d := Drained(c, uids, min, reset);
    && (forall k :: k in now <==> k in c && (k in waiting || k in d))
    && (forall k :: k in now ==> now[k] == if k in waiting then c[k] else d[k])
  }

  lemma PartlyMore(now: Counters, c: Counters, uids: map<string, int>, min: int, reset: bool, waiting: set<string>,
                   key: string)
    requires PartlyDrained(now, c, uids, min, reset, waiting) && key in waiting && waiting <= c.Keys
    ensures key in now && now[key] == c[key]
    ensures PartlyDrained(Visited(now, uids, min, reset, key), c, uids, min, reset, waiting - {key})
  {
  }

  lemma DrainStarts(c: Counters, uids: map<string, int>, min: int, reset: bool)
    ensures PartlyDrained(c, c, uids, min, reset, c.Keys)
    ensures Slices([], [], c, uids, min, c.Keys - c.Keys)
  {
  }

  lemma DrainEnds(now: Counters, c: Counters, uids: map<string, int>, min: int, reset: bool)
    requires PartlyDrained(now, c, uids, min, reset, {})
    ensures now == Drained(c, uids, min, reset)
  {
  }

  /** The counters of one node, who is known there, and its threshold. */
  class Node {
    const counter: TrafficCounter
    const reportMinTrafficBytes: int
    var uids: map<string, int>

    constructor (min: int, uids: map<string, int>)
      ensures fresh(counter) && counter.counters == map[] && reportMinTrafficBytes == min && this.uids == uids
    {
      counter := new TrafficCounter();
      reportMinTrafficBytes, this.uids := min, uids;
    }

    method GetUserTrafficSlice(reset: bool) returns (slice: seq<UserTraffic>, ghost origin: seq<string>)
      modifies counter
      ensures counter.counters == Drained(old(counter.counters), uids, reportMinTrafficBytes, reset)
      ensures Slices(slice, origin, old(counter.counters), uids, reportMinTrafficBytes, old(counter.counters).Keys)
    {
      hide Slices;
      hide PartlyDrained;
      hide Drained;
      slice, origin := [], [];
      ghost var c := counter.counters;
      var keys := counter.counters.Keys;
      DrainStarts(c, uids, reportMinTrafficBytes, reset);
      while keys != {}
        invariant keys <= c.Keys
        invariant PartlyDrained(counter.counters, c, uids, reportMinTrafficBytes, reset, keys)
        invariant Slices(slice, origin, c, uids, reportMinTrafficBytes, c.Keys - keys)
        decreases |keys|
      {
        var key :| key in keys;
        PartlyMore(counter.counters, c, uids, reportMinTrafficBytes, reset, keys, key);
        SlicesMore(slice, origin, c, uids, reportMinTrafficBytes, c.Keys - keys, key);
        assert c.Keys - (keys - {key}) == c.Keys - keys + {key};
        slice, origin := Visit(key, reset, slice, origin);
        keys := keys - {key};
      }
      assert c.Keys - keys == c.Keys;
      DrainEnds(counter.counters, c, uids, reportMinTrafficBytes, reset);
    }

    /** The body of the range. */
    method Visit(key: string, reset: bool, slice0: seq<UserTraffic>, ghost origin0: seq<string>)
      returns (slice: seq<UserTraffic>, ghost origin: seq<string>)
      requires key in counter.counters
      modifies counter
      ensures var s, known := old(counter.counters)[key], UidOf(uids, key) != 0;
              && counter.counters == Visited(old(counter.counters), uids, reportMinTrafficBytes, reset, key)
              && (if Over(s, reportMinTrafficBytes) && known
                  then slice == slice0 + [UserTraffic(UidOf(uids, key), s.up, s.down)] && origin == origin0 + [key]
                  else slice == slice0 && origin == origin0)
    {
      slice, origin := slice0, origin0;
      var up := counter.counters[key].up;
      var down := counter.counters[key].down;
      if up + down > reportMinTrafficBytes {
        if reset {
          counter.counters := counter.counters[key := counter.counters[key].(up := 0)];
          counter.counters := counter.counters[key := counter.counters[key].(down := 0)];
        }
        if (if key in uids then uids[key] else 0) == 0 {
          counter.Delete(key);
          return;
        }
        slice := slice + [UserTraffic(uids[key], up, down)];
        origin := origin + [key];
      }
    }
  }

  /** A drain lists a key exactly when its counter's up and down together exceed the threshold and somebody is
      known for it, with his uid and both counts. */
  lemma ListedWhen(slice: seq<UserTraffic>, origin: seq<string>, c: Counters, uids: map<string, int>, min: int, key: string)
    requires Slices(slice, origin, c, uids, min, c.Keys)
    ensures key in origin <==> key in c && c[key].up + c[key].down > min && key in uids && uids[key] != 0
    ensures |origin| == |slice|
    ensures forall i :: 0 <= i < |slice| && origin[i] == key ==>
              key in c && key in uids && slice[i] == UserTraffic(uids[key], c[key].up, c[key].down)
  {
  }

  /** Afterwards a counter is gone if it exceeded the threshold and nobody is known for it, zero if it exceeded
      the threshold and the drain resets, and else as it was. */
  lemma LeftWhen(c: Counters, uids: map<string, int>, min: int, reset: bool, key: string)
    ensures var d := Drained(c, uids, min, reset);
            && (key in d <==> key in c && (c[key].up + c[key].down <= min || (key in uids && uids[key] != 0)))
            && (key in d ==>
                  d[key] == if reset && c[key].up + c[key].down > min then Storage(0, 0) else c[key])
            && (reset && min >= 0 && key in d ==> d[key].up + d[key].down <= min)
  {
  }

  // ----- the logger -----

  predicate OverLimit(info: map<string, L.Info>, t: string) {
    t in info && info[t].overLimit
  }

  function Cleared(s: L.State, t: string): L.State
    requires t in s.info
  {
    s.(info := s.info[t := s.info[t].(overLimit := false)])
  }

  function Logged(c: Counters, key: string, up: int, down: int): Counters {
    var s := StorageOf(c, key);
    c[key := Storage(s.up + up, s.down + down)]
  }

  /** The flag of a user's entry is up. */
  lemma OverLimitWhen(info: map<string, L.Info>, t: string)
    ensures OverLimit(info, t) <==> exists u :: (t, u) in info.Items && u.overLimit
  {
  }

  /** The refused call takes the flag down and changes nothing else. */
  lemma ClearedFlag(s: L.State, t: string)
    requires OverLimit(s.info, t)
    ensures !OverLimit(Cleared(s, t).info, t)
    ensures var u := s.info[t];
            Cleared(s, t).info[t] == L.Info(u.uid, u.speedLimit, u.deviceLimit, u.dynamicSpeedLimit, u.expireTime, false)
    ensures Cleared(s, t) == s.(info := Cleared(s, t).info) && Cleared(s, t).info - {t} == s.info - {t}
  {
  }

  /** The traffic logger of one hysteria node. Its counters are those of the node. */
  class HookServer {
    const tag: string
    const limiters: L.Registry
    const node: Node

    constructor (tag: string, limiters: L.Registry, node: Node)
      ensures this.tag == tag && this.limiters == limiters && this.node == node
    {
      this.tag, this.limiters, this.node := tag, limiters, node;
    }

    /** Traffic of a known node is counted, save once after the user has run over his limit: that call
        only clears the flag. The byte counts are unsigned and counted as signed. */
    method LogTraffic(id: string, tx: nat, rx: nat) returns (ok: bool)
      modifies node.counter, limiters.limiter.Values
      ensures ok == (&& tag in limiters.limiter
                     && !OverLimit(old(limiters.limiter[tag].userLimitInfo), tag + "|" + id))
      ensures node.counter.counters ==
              if ok then Logged(old(node.counter.counters), id, Int64(tx), Int64(rx)) else old(node.counter.counters)
      ensures forall l :: l in limiters.limiter.Values ==>
                l.Contents() ==
                if tag in limiters.limiter && l == limiters.limiter[tag]
                   && OverLimit(old(l.userLimitInfo), UserTag(tag, id))
                then Cleared(old(l.Contents()), UserTag(tag, id)) else old(l.Contents())
    {
      var found := limiters.GetLimiter(tag);
      if found.None? {
        return false;
      }
      var l := found.value;
      var t := UserTag(tag, id);
      assert l in limiters.limiter.Values;
      if t in l.userLimitInfo {
        if l.userLimitInfo[t].overLimit {
          l.userLimitInfo := l.userLimitInfo[t := l.userLimitInfo[t].(overLimit := false)];
          return false;
        }
      }
      node.counter.Rx(id, Int64(rx));
      node.counter.Tx(id, Int64(tx));
      return true;
    }
  }

  // ----- the report -----

  /** By uid; a later entry with the same uid replaces an earlier one. */
  function Report(slice: seq<UserTraffic>): map<int, Storage> {
    if slice == [] then map[]
    else
      var u := slice[|slice| - 1];
      Report(slice[..|slice| - 1])[u.uid := Storage(u.upload, u.download)]
  }

  method ReportUserTraffic(userTraffic: seq<UserTraffic>) returns (data: map<int, Storage>)
    ensures data == Report(userTraffic)
  {
    data := map[];
    for i := 0 to |userTraffic|
      invariant data == Report(userTraffic[..i])
    {
      assert userTraffic[..i + 1][..i] == userTraffic[..i];
      data := data[userTraffic[i].uid := Storage(userTraffic[i].upload, userTraffic[i].download)];
    }
    assert userTraffic[..|userTraffic|] == userTraffic;
  }

  ghost predicate DistinctUids(slice: seq<UserTraffic>) {
    forall i, j :: 0 <= i < j < |slice| ==> slice[i].uid != slice[j].uid
  }

  function Total(slice: seq<UserTraffic>): int {
    if slice == [] then 0
    else Total(slice[..|slice| - 1]) + slice[|slice| - 1].upload + slice[|slice| - 1].download
  }

  ghost function MapTotal(m: map<int, Storage>): int {
    if m.Items == {} then 0
    else
      var kv :| kv in m.Items;
      assert kv.0 in m.Keys;
      MapTotal(m - {kv.0}) + kv.1.up + kv.1.down
  }

  lemma MapTotalPicks(m: map<int, Storage>) returns (x: int)
    requires m.Items != {}
    ensures x in m && MapTotal(m) == MapTotal(m - {x}) + m[x].up + m[x].down
  {
    var kv :| kv in m.Items && MapTotal(m) == MapTotal(m - {kv.0}) + kv.1.up + kv.1.down;
    x := kv.0;
  }

  lemma {:induction false} MapTotalWithout(m: map<int, Storage>, k: int)
    requires k in m
    ensures MapTotal(m) == MapTotal(m - {k}) + m[k].up + m[k].down
    decreases |m|
  {
    hide MapTotal;
    assert (k, m[k]) in m.Items;
    var x := MapTotalPicks(m);
    if x != k {
      MapTotalWithout(m - {x}, k);
      MapTotalWithout(m - {k}, x);
      assert m - {x} - {k} == m - {k} - {x};
    }
  }

  /** The last entry of a uid. */
  ghost predicate LastAt(slice: seq<UserTraffic>, i: int, uid: int) {
    0 <= i < |slice| && slice[i].uid == uid && forall j :: i < j < |slice| ==> slice[j].uid != uid
  }

  lemma LastAtMore(slice: seq<UserTraffic>, u: UserTraffic, i: int, uid: int)
    ensures LastAt(slice + [u], i, uid) <==> if u.uid == uid then i == |slice| else LastAt(slice, i, uid)
  {
    assert (slice + [u])[|slice|] == u;
    assert forall j :: 0 <= j < |slice| ==> (slice + [u])[j] == slice[j];
  }

  /** The report has the last entry of every uid. */
  lemma {:induction false} ReportUids(slice: seq<UserTraffic>, uid: int)
    ensures uid in Report(slice) <==> exists i :: LastAt(slice, i, uid)
    ensures forall i :: LastAt(slice, i, uid) ==>
              0 <= i < |slice| && uid in Report(slice) && Report(slice)[uid] == Storage(slice[i].upload, slice[i].download)
  {
    if slice == [] {
    } else {
      var n := |slice| - 1;
      var rest := slice[..n];
      ReportUids(rest, uid);
      assert slice == rest + [slice[n]];
      forall i ensures LastAt(slice, i, uid) <==> if slice[n].uid == uid then i == n else LastAt(rest, i, uid) {
        LastAtMore(rest, slice[n], i, uid);
      }
      if slice[n].uid == uid {
        assert LastAt(slice, n, uid);
      } else if uid in Report(rest) {
        var i :| LastAt(rest, i, uid);
        assert LastAt(slice, i, uid);
      }
      forall i | LastAt(slice, i, uid) ensures 0 <= i < |slice| {
      }
      hide LastAt;
    }
  }

  /** Some entry has the uid just when there is a last one. */
  lemma {:induction false} HasLast(slice: seq<UserTraffic>, uid: int)
    ensures (exists i :: 0 <= i < |slice| && slice[i].uid == uid) <==> exists i :: LastAt(slice, i, uid)
  {
    if slice == [] {
    } else {
      var n := |slice| - 1;
      HasLast(slice[..n], uid);
      if slice[n].uid == uid {
        assert LastAt(slice, n, uid);
      } else if i :| LastAt(slice[..n], i, uid) {
        assert LastAt(slice, i, uid);
      }
    }
  }

  /** When every entry carries traffic, the report loses some exactly when two entries share a uid. */
  lemma {:induction false} ReportKeepsTotal(slice: seq<UserTraffic>)
    requires forall i :: 0 <= i < |slice| ==> slice[i].upload + slice[i].download > 0
    ensures MapTotal(Report(slice)) <= Total(slice)
    ensures MapTotal(Report(slice)) == Total(slice) <==> DistinctUids(slice)
  {
    if slice == [] {
    } else {
      var n := |slice| - 1;
      var rest, u := slice[..n], slice[n];
      ReportKeepsTotal(rest);
      ReportUids(rest, u.uid);
      HasLast(rest, u.uid);
      var m, m' := Report(rest), Report(slice);
      MapTotalWithout(m', u.uid);
      if u.uid in m {
        MapTotalWithout(m, u.uid);
        assert m' - {u.uid} == m - {u.uid};
      } else {
        assert m' - {u.uid} == m;
      }
      assert DistinctUids(slice) <==> DistinctUids(rest) && u.uid !in m;
    }
  }

  /** Two entries with one uid: the second replaces the first, and six bytes are not reported. */
  lemma SharedUidLosesTraffic()
    ensures var slice := [UserTraffic(7, 1, 5), UserTraffic(7, 2, 0)];
            MapTotal(Report(slice)) < Total(slice)
  {
    var slice := [UserTraffic(7, 1, 5), UserTraffic(7, 2, 0)];
    ReportKeepsTotal(slice);
    assert slice[0].uid == slice[1].uid;
  }

  // ----- runs -----

  /** Who is known, and the counters. */
  datatype State = State(uids: map<string, int>, counters: Counters)

  /** LogTraffic, a drain with the report that follows it, the deletion of a counter, and a change of the
      users. */
  datatype Event =
    | Log(key: string, up: int, down: int)
    | Drain(slice: seq<UserTraffic>, origin: seq<string>, ok: bool)
    | Forget(key: string)
    | SetUsers(uids: map<string, int>)

  ghost predicate Next(min: int, s: State, e: Event, s': State) {
    match e
    case Log(key, up, down) => s' == s.(counters := Logged(s.counters, key, up, down))
    case Drain(slice, origin, _) =>
      && Slices(slice, origin, s.counters, s.uids, min, s.counters.Keys)
      && s' == s.(counters := Drained(s.counters, s.uids, min, true))
    case Forget(key) => s' == s.(counters := s.counters - {key})
    case SetUsers(uids) => s' == s.(uids := uids)
  }

  ghost predicate Run(min: int, states: seq<State>, events: seq<Event>) {
    && |states| == |events| + 1 && states[0].counters == map[]
    && forall i :: 0 <= i < |events| ==> Next(min, states[i], events[i], states[i + 1])
  }

  /** What becomes of a counter in a step: it stays, or everything in it is taken out and reported, replaced in
      the report by another entry of the same uid, lost with a report that fails, thrown away because nobody
      is known for it, or deleted. */
  datatype Fate = Stays | Reported | Replaced | Fails | Unknown | Deleted

  /** The entry of the key is the last one of its uid, which is the one the report keeps. */
  ghost predicate Lasts(slice: seq<UserTraffic>, origin: seq<string>, k: string) {
    exists i :: 0 <= i < |slice| && i < |origin| && origin[i] == k && forall j :: i < j < |slice| ==> slice[j].uid != slice[i].uid
  }

  ghost function FateOf(min: int, s: State, e: Event, k: string): Fate {
    match e
    case Drain(slice, origin, ok) =>
      if !(k in s.counters && Over(s.counters[k], min)) then Stays
      else if UidOf(s.uids, k) == 0 then Unknown
      else if !ok then Fails
      else if Lasts(slice, origin, k) then Reported
      else Replaced
    case Forget(key) => if key == k then Deleted else Stays
    case _ => Stays
  }

  function Sum(a: Storage, b: Storage): Storage {
    Storage(a.up + b.up, a.down + b.down)
  }

  function LogOf(e: Event, k: string): Storage {
    if e.Log? && e.key == k then Storage(e.up, e.down) else Storage(0, 0)
  }

  /** What was logged for the key before step `j`. */
  function LoggedFor(events: seq<Event>, j: nat, k: string): Storage
    requires j <= |events|
  {
    if j == 0 then Storage(0, 0) else Sum(LoggedFor(events, j - 1, k), LogOf(events[j - 1], k))
  }

  ghost function GoneIn(min: int, s: State, e: Event, k: string, fates: set<Fate>): Storage {
    if FateOf(min, s, e, k) in fates then StorageOf(s.counters, k) else Storage(0, 0)
  }

  /** What was taken out of the key's counter before step `j` with one of these fates. */
  ghost function Gone(min: int, states: seq<State>, events: seq<Event>, j: nat, k: string, fates: set<Fate>): Storage
    requires j <= |events| < |states|
  {
    if j == 0 then Storage(0, 0)
    else Sum(Gone(min, states, events, j - 1, k, fates), GoneIn(min, states[j - 1], events[j - 1], k, fates))
  }

  const LOST: set<Fate> := {Replaced, Fails, Unknown, Deleted}

  const TAKEN: set<Fate> := {Reported, Replaced, Fails, Unknown, Deleted}

  lemma LoggedAt(c: Counters, key: string, up: int, down: int, c': Counters, k: string)
    requires c' == Logged(c, key, up, down)
    ensures StorageOf(c', k) == if k == key then Sum(StorageOf(c, k), Storage(up, down)) else StorageOf(c, k)
  {
  }

  lemma DrainedAt(c: Counters, uids: map<string, int>, min: int, c': Counters, k: string)
    requires c' == Drained(c, uids, min, true)
    ensures StorageOf(c', k) == if k in c && Over(c[k], min) then Storage(0, 0) else StorageOf(c, k)
  {
  }

  lemma DrainMoves(min: int, s: State, e: Event, s': State, k: string)
    requires e.Drain? && Next(min, s, e, s')
    ensures StorageOf(s'.counters, k) == if FateOf(min, s, e, k) == Stays then StorageOf(s.counters, k) else Storage(0, 0)
  {
    hide Slices;
    hide Drained;
    hide Lasts;
    hide Over;
    DrainedAt(s.counters, s.uids, min, s'.counters, k);
  }

  lemma LogMoves(min: int, s: State, e: Event, s': State, k: string)
    requires e.Log? && Next(min, s, e, s')
    ensures StorageOf(s'.counters, k) == Sum(StorageOf(s.counters, k), LogOf(e, k))
  {
    hide Logged;
    hide StorageOf;
    LoggedAt(s.counters, e.key, e.up, e.down, s'.counters, k);
  }

  lemma ForgetMoves(min: int, s: State, e: Event, s': State, k: string)
    requires e.Forget? && Next(min, s, e, s')
    ensures StorageOf(s'.counters, k) == if k == e.key then Storage(0, 0) else StorageOf(s.counters, k)
  {
  }

  lemma TakenIsNotStays(fate: Fate)
    ensures fate in TAKEN <==> fate != Stays
  {
  }

  /** Every step leaves a counter as it is but for what it logs, or takes all out of it. */
  lemma StepMoves(min: int, s: State, e: Event, s': State, k: string)
    requires Next(min, s, e, s')
    ensures StorageOf(s'.counters, k) ==
            if FateOf(min, s, e, k) in TAKEN then Storage(0, 0) else Sum(StorageOf(s.counters, k), LogOf(e, k))
    ensures FateOf(min, s, e, k) in TAKEN ==> LogOf(e, k) == Storage(0, 0)
  {
    TakenIsNotStays(FateOf(min, s, e, k));
    hide StorageOf;
    match e {
      case Log(_, _, _) => LogMoves(min, s, e, s', k);
      case Drain(_, _, _) =>
        DrainMoves(min, s, e, s', k);
        hide FateOf;
      case Forget(_) => ForgetMoves(min, s, e, s', k);
      case SetUsers(_) =>
    }
  }

  lemma {:induction false} RunMoves(min: int, states: seq<State>, events: seq<Event>, j: nat, k: string)
    requires Run(min, states, events) && j < |states|
    ensures LoggedFor(events, j, k) == Sum(Gone(min, states, events, j, k, TAKEN), StorageOf(states[j].counters, k))
    decreases j
  {
    assert StorageOf(states[0].counters, k) == Storage(0, 0);
    hide Next;
    hide FateOf;
    hide StorageOf;
    hide LogOf;
    if j == 0 {
    } else {
      RunMoves(min, states, events, j - 1, k);
      assert Next(min, states[j - 1], events[j - 1], states[j]);
      StepMoves(min, states[j - 1], events[j - 1], states[j], k);
    }
  }

  /** Fates exclude each other. */
  lemma {:induction false} GoneApart(min: int, states: seq<State>, events: seq<Event>, j: nat, k: string,
                                     a: set<Fate>, b: set<Fate>)
    requires j <= |events| < |states| && a !! b
    ensures Gone(min, states, events, j, k, a + b) ==
            Sum(Gone(min, states, events, j, k, a), Gone(min, states, events, j, k, b))
    decreases j
  {
    hide FateOf;
    hide StorageOf;
    if j == 0 {
    } else {
      GoneApart(min, states, events, j - 1, k, a, b);
    }
  }

  lemma LostParts(min: int, states: seq<State>, events: seq<Event>, j: nat, k: string)
    requires j <= |events| < |states|
    ensures Gone(min, states, events, j, k, TAKEN) ==
            Sum(Gone(min, states, events, j, k, {Reported}), Gone(min, states, events, j, k, LOST))
    ensures Gone(min, states, events, j, k, LOST) ==
            Sum(Sum(Gone(min, states, events, j, k, {Replaced}), Gone(min, states, events, j, k, {Fails})),
                Sum(Gone(min, states, events, j, k, {Unknown}), Gone(min, states, events, j, k, {Deleted})))
  {
    hide Gone;
    assert TAKEN == {Reported} + LOST && LOST == ({Replaced} + {Fails}) + ({Unknown} + {Deleted});
    GoneApart(min, states, events, j, k, {Reported}, LOST);
    GoneApart(min, states, events, j, k, {Replaced} + {Fails}, {Unknown} + {Deleted});
    GoneApart(min, states, events, j, k, {Replaced}, {Fails});
    GoneApart(min, states, events, j, k, {Unknown}, {Deleted});
  }

  /** After every run of logging, draining, reporting, deleting and changing users, for every key and
      direction, every logged byte is pending, reported, or lost in exactly one of four ways. */
  lemma RunConserves(min: int, states: seq<State>, events: seq<Event>, j: nat, k: string)
    requires Run(min, states, events) && j < |states|
    ensures LoggedFor(events, j, k) ==
            Sum(Sum(StorageOf(states[j].counters, k), Gone(min, states, events, j, k, {Reported})),
                Sum(Sum(Gone(min, states, events, j, k, {Replaced}), Gone(min, states, events, j, k, {Fails})),
                    Sum(Gone(min, states, events, j, k, {Unknown}), Gone(min, states, events, j, k, {Deleted}))))
  {
    RunMoves(min, states, events, j, k);
    LostParts(min, states, events, j, k);
    hide Gone;
    hide Run;
    hide StorageOf;
    hide LoggedFor;
  }

  // ----- the calls of a node -----

  datatype Call = Logging(id: string, tx: nat, rx: nat) | Draining(ok: bool) | Deleting(uuid: string) | Knowing(uids: map<string, int>)

  /** The event of a run that a call is. The bytes an accepted LogTraffic counts are its arguments as far as they
      fit. */
  ghost predicate Matches(c: Call, e: Event) {
    match c
    case Logging(id, tx, rx) => e == Log(id, Int64(tx), Int64(rx))
    case Draining(ok) => e.Drain? && e.ok == ok
    case Deleting(uuid) => e == Forget(uuid)
    case Knowing(uids) => e == SetUsers(uids)
  }

  /** Any calls of a node's logger and drain, one after another, are a run, in which a refused LogTraffic has no
      part: `taken` says which calls have. */
  method UseNode(h: HookServer, calls: seq<Call>)
    returns (ghost states: seq<State>, ghost events: seq<Event>, ghost taken: seq<nat>)
    modifies h.node, h.node.counter, h.limiters.limiter.Values
    ensures |states| == |events| + 1 && |taken| == |events|
    ensures states[0] == old(State(h.node.uids, h.node.counter.counters))
    ensures states[|events|] == State(h.node.uids, h.node.counter.counters)
    ensures forall i :: 0 <= i < |events| ==> Next(h.node.reportMinTrafficBytes, states[i], events[i], states[i + 1])
    ensures forall i :: 0 <= i < |events| ==> taken[i] < |calls| && Matches(calls[taken[i]], events[i])
    ensures forall i, j :: 0 <= i < j < |events| ==> taken[i] < taken[j]
    ensures forall i :: 0 <= i < |calls| && !calls[i].Logging? ==> i in taken
  {
    hide Slices;
    hide Drained;
    hide Logged;
    var n := h.node;
    states, events, taken := [State(n.uids, n.counter.counters)], [], [];
    for i := 0 to |calls|
      invariant |states| == |events| + 1 && |taken| == |events|
      invariant states[0] == old(State(n.uids, n.counter.counters)) && states[|events|] == State(n.uids, n.counter.counters)
      invariant forall k :: 0 <= k < |events| ==> Next(n.reportMinTrafficBytes, states[k], events[k], states[k + 1])
      invariant forall k :: 0 <= k < |events| ==> taken[k] < i && Matches(calls[taken[k]], events[k])
      invariant forall k, m :: 0 <= k < m < |events| ==> taken[k] < taken[m]
      invariant forall k :: 0 <= k < i && !calls[k].Logging? ==> k in taken
      invariant h.limiters.limiter.Values == old(h.limiters.limiter.Values)
    {
      ghost var s, e, counts := State(n.uids, n.counter.counters), Forget(""), true;
      match calls[i] {
        case Logging(id, tx, rx) =>
          e := Log(id, Int64(tx), Int64(rx));
          var ok := h.LogTraffic(id, tx, rx);
          counts := ok;
        case Draining(ok) =>
          ghost var origin;
          var slice;
          slice, origin := n.GetUserTrafficSlice(true);
          e := Drain(slice, origin, ok);
        case Deleting(uuid) =>
          e := Forget(uuid);
          n.counter.Delete(uuid);
        case Knowing(uids) =>
          e := SetUsers(uids);
          n.uids := uids;
      }
      if counts {
        assert Next(n.reportMinTrafficBytes, s, e, State(n.uids, n.counter.counters));
        ghost var before := taken;
        states, events, taken := states + [State(n.uids, n.counter.counters)], events + [e], taken + [i];
        assert taken[|before|] == i && forall k :: k in before ==> k in taken;
      }
    }
  }

  // ----- what a report carries -----

  /** A report holds exactly the entries that are the last of their uid: each uid it has is that of one such
      key, with the counts of this key, and no other key with this uid lasts. */
  lemma ReportHoldsTheLast(slice: seq<UserTraffic>, origin: seq<string>, c: Counters, uids: map<string, int>, min: int, uid: int)
    requires Slices(slice, origin, c, uids, min, c.Keys)
    ensures uid in Report(slice) <==> exists k :: Lasts(slice, origin, k) && UidOf(uids, k) == uid
    ensures forall k :: Lasts(slice, origin, k) && UidOf(uids, k) == uid ==>
              uid in Report(slice) && k in c && Report(slice)[uid] == c[k]
    ensures forall k, m :: Lasts(slice, origin, k) && Lasts(slice, origin, m) && UidOf(uids, k) == UidOf(uids, m) ==> k == m
  {
    ReportUids(slice, uid);
    if uid in Report(slice) {
      var i :| LastAt(slice, i, uid);
      assert Lasts(slice, origin, origin[i]);
    }
    forall k | Lasts(slice, origin, k) && UidOf(uids, k) == uid
      ensures uid in Report(slice) && k in c && Report(slice)[uid] == c[k]
    {
      var i :| 0 <= i < |slice| && i < |origin| && origin[i] == k && forall j :: i < j < |slice| ==> slice[j].uid != slice[i].uid;
      assert LastAt(slice, i, uid);
    }
    forall k, m | Lasts(slice, origin, k) && Lasts(slice, origin, m) && UidOf(uids, k) == UidOf(uids, m) ensures k == m {
      var i :| 0 <= i < |slice| && i < |origin| && origin[i] == k && forall j :: i < j < |slice| ==> slice[j].uid != slice[i].uid;
      var n :| 0 <= n < |slice| && n < |origin| && origin[n] == m && forall j :: n < j < |slice| ==> slice[j].uid != slice[n].uid;
      assert i == n;
    }
  }

  /** Every user has a uid of his own. */
  ghost predicate GoodUids(uids: map<string, int>) {
    && (forall k :: k in uids ==> uids[k] != 0)
    && (forall k, m :: k in uids && m in uids && uids[k] == uids[m] ==> k == m)
  }

  /** Among users with uids of their own nobody's entry is replaced by another's. */
  lemma OwnUidsAreKept(min: int, s: State, e: Event, k: string)
    requires e.Drain? && Slices(e.slice, e.origin, s.counters, s.uids, min, s.counters.Keys) && GoodUids(s.uids)
    ensures FateOf(min, s, e, k) != Replaced
  {
    if k in s.counters && Over(s.counters[k], min) && UidOf(s.uids, k) != 0 {
      assert k in e.origin;
      var i :| 0 <= i < |e.origin| && e.origin[i] == k;
      forall j | i < j < |e.slice| ensures e.slice[j].uid != e.slice[i].uid {
        assert e.origin[j] != k;
      }
      assert Lasts(e.slice, e.origin, k);
    }
  }

  /** So among such users a report has, for each of them, exactly his counter, if that was above the
      threshold. */
  lemma DrainReports(slice: seq<UserTraffic>, origin: seq<string>, c: Counters, uids: map<string, int>, min: int, key: string)
    requires Slices(slice, origin, c, uids, min, c.Keys) && GoodUids(uids) && key in uids
    ensures uids[key] in Report(slice) <==> key in c && Over(c[key], min)
    ensures uids[key] in Report(slice) ==> Report(slice)[uids[key]] == c[key]
  {
    ReportHoldsTheLast(slice, origin, c, uids, min, uids[key]);
    OwnUidsAreKept(min, State(uids, c), Drain(slice, origin, true), key);
    hide Report;
    if k :| Lasts(slice, origin, k) && UidOf(uids, k) == uids[key] {
      assert k in origin && k in uids && k == key;
    }
  }

  // ----- when nothing is lost -----

  /** Byte counts that are logged are not negative. */
  ghost predicate Counts(events: seq<Event>) {
    forall i :: 0 <= i < |events| && events[i].Log? ==> events[i].up >= 0 && events[i].down >= 0
  }

  predicate NotNegative(s: Storage) {
    s.up >= 0 && s.down >= 0
  }

  lemma {:induction false} RunCounts(min: int, states: seq<State>, events: seq<Event>, j: nat, k: string)
    requires Run(min, states, events) && Counts(events) && j < |states|
    ensures NotNegative(StorageOf(states[j].counters, k))
    decreases j
  {
    assert StorageOf(states[0].counters, k) == Storage(0, 0);
    hide Next;
    hide FateOf;
    hide StorageOf;
    if j == 0 {
    } else {
      RunCounts(min, states, events, j - 1, k);
      assert Next(min, states[j - 1], events[j - 1], states[j]);
      StepMoves(min, states[j - 1], events[j - 1], states[j], k);
    }
  }

  /** The event loses bytes of the key: its counter is above the threshold and the report of this drain fails,
      or nobody is known for it, or another entry of the same uid comes later; or its counter is deleted and
      not zero. */
  ghost predicate Loses(min: int, s: State, e: Event, k: string) {
    FateOf(min, s, e, k) in LOST && StorageOf(s.counters, k) != Storage(0, 0)
  }

  /** No event before step `j` loses bytes of the key. */
  ghost predicate NoneLoses(min: int, states: seq<State>, events: seq<Event>, j: nat, k: string)
    requires j <= |events| < |states|
  {
    forall i :: 0 <= i < j ==> !Loses(min, states[i], events[i], k)
  }

  lemma NoneLosesMore(min: int, states: seq<State>, events: seq<Event>, j: nat, k: string)
    requires j < |events| < |states|
    ensures NoneLoses(min, states, events, j + 1, k) <==>
            NoneLoses(min, states, events, j, k) && !Loses(min, states[j], events[j], k)
  {
    hide Loses;
  }

  lemma GoneMore(min: int, states: seq<State>, events: seq<Event>, j: nat, k: string, fates: set<Fate>)
    requires j < |events| < |states|
    ensures Gone(min, states, events, j + 1, k, fates) ==
            Sum(Gone(min, states, events, j, k, fates), GoneIn(min, states[j], events[j], k, fates))
  {
    hide GoneIn;
  }

  lemma LossIsNoGain(min: int, s: State, e: Event, k: string)
    requires NotNegative(StorageOf(s.counters, k))
    ensures NotNegative(GoneIn(min, s, e, k, LOST))
    ensures GoneIn(min, s, e, k, LOST) == Storage(0, 0) <==> !Loses(min, s, e, k)
  {
    hide FateOf;
    hide StorageOf;
  }

  lemma {:induction false} LostWhen(min: int, states: seq<State>, events: seq<Event>, j: nat, k: string)
    requires Run(min, states, events) && Counts(events) && j < |states|
    ensures NotNegative(Gone(min, states, events, j, k, LOST))
    ensures Gone(min, states, events, j, k, LOST) == Storage(0, 0) <==> NoneLoses(min, states, events, j, k)
    decreases j
  {
    assert NoneLoses(min, states, events, 0, k) && |states| == |events| + 1;
    assert Gone(min, states, events, 0, k, LOST) == Storage(0, 0);
    hide Run;
    hide Counts;
    hide Loses;
    hide NoneLoses;
    hide StorageOf;
    hide GoneIn;
    hide Gone;
    if j == 0 {
    } else {
      LostWhen(min, states, events, j - 1, k);
      RunCounts(min, states, events, j - 1, k);
      LossIsNoGain(min, states[j - 1], events[j - 1], k);
      GoneMore(min, states, events, j - 1, k, LOST);
      NoneLosesMore(min, states, events, j - 1, k);
    }
  }

  /** Every byte of a key is reported or pending exactly when no drain that found its counter above the
      threshold had its report fail, knew nobody for it, or listed another entry of the same uid later, and
      its counter was never deleted while it was not zero. */
  lemma NothingIsLostWhen(min: int, states: seq<State>, events: seq<Event>, j: nat, k: string)
    requires Run(min, states, events) && Counts(events) && j < |states|
    ensures LoggedFor(events, j, k) == Sum(Gone(min, states, events, j, k, {Reported}), StorageOf(states[j].counters, k)) <==>
            NoneLoses(min, states, events, j, k)
  {
    RunMoves(min, states, events, j, k);
    LostParts(min, states, events, j, k);
    LostWhen(min, states, events, j, k);
    hide Run;
    hide Counts;
    hide Gone;
    hide NoneLoses;
    hide StorageOf;
    hide LoggedFor;
  }

  lemma FiveAreSliced()
    ensures Slices([UserTraffic(7, 5, 0)], ["u"], map["u" := Storage(5, 0)], map["u" := 7], 0, {"u"})
    ensures Drained(map["u" := Storage(5, 0)], map["u" := 7], 0, true) == map["u" := Storage(0, 0)]
  {
  }

  /** A run that loses traffic: five bytes are logged and drained, and the report fails. */
  lemma FailingReportLosesTraffic() returns (states: seq<State>, events: seq<Event>)
    ensures Run(0, states, events) && events == [Log("u", 5, 0), Drain([UserTraffic(7, 5, 0)], ["u"], false)]
    ensures Loses(0, states[1], events[1], "u")
  {
    var uids, five := map["u" := 7], map["u" := Storage(5, 0)];
    var s0, s1, s2 := State(uids, map[]), State(uids, five), State(uids, map["u" := Storage(0, 0)]);
    states, events := [s0, s1, s2], [Log("u", 5, 0), Drain([UserTraffic(7, 5, 0)], ["u"], false)];
    assert Next(0, s0, events[0], s1);
    FiveAreSliced();
    hide Slices;
    hide Drained;
    hide Lasts;
    assert five.Keys == {"u"};
    assert Next(0, s1, events[1], s2);
  }

  /** What a drain reports is above the threshold and somebody's; what it leaves is not above it. */
  lemma DrainThreshold(min: int, s: State, e: Event, s': State)
    requires min >= 0 && e.Drain? && Next(min, s, e, s')
    ensures forall i :: 0 <= i < |e.slice| ==>
              e.slice[i].uid != 0 && e.slice[i].upload + e.slice[i].download > min
    ensures forall k :: k in s'.counters ==> !Over(s'.counters[k], min)
  {
  }
}
