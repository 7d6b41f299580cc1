/** The links of a user in core/xray/app/dispatcher/linkmanager.go, and the deletion of users in
    core/xray/user.go that closes them. Writers and readers are numbered; what happens to them is logged. */
module Links {
  import opened Panel

  type Links = map<nat, nat>  // managed writer to reader

  /** `order` names every link once. */
  ghost predicate Orders(order: seq<nat>, links: Links) {
    && (forall k :: 0 <= k < |order| ==> order[k] in links)
    && (forall k, m :: 0 <= k < m < |order| ==> order[k] != order[m])
    && (forall w :: w in links ==> w in order)
  }

  function Readers(order: seq<nat>, links: Links): seq<nat>
    requires forall k :: 0 <= k < |order| ==> order[k] in links
  {
    seq(|order|, k requires 0 <= k < |order| => links[order[k]])
  }

  /** What was done to pipes, in order. */
  class Pipes {
    var closed: seq<nat>
    var interrupted: seq<nat>

    constructor ()
      ensures closed == [] && interrupted == []
    {
      closed, interrupted := [], [];
    }
  }

  /** The links in `order` are closed, the others still there. */
  ghost predicate Closing(order: seq<nat>, links: Links, all: Links)
    ensures Closing(order, links, all) ==> forall k :: 0 <= k < |order| ==> order[k] in all
  {
    && (forall w :: w in links <==> w in all && w !in order)
    && (forall w :: w in links ==> links[w] == all[w])
    && (forall k :: 0 <= k < |order| ==> order[k] in all)
    && (forall k, m :: 0 <= k < m < |order| ==> order[k] != order[m])
  }

  lemma ClosingStarts(all: Links)
    ensures Closing([], all, all)
  {
  }

  lemma ClosingMore(order: seq<nat>, links: Links, all: Links, w: nat)
    requires Closing(order, links, all) && w in links
    ensures Closing(order + [w], links - {w}, all)
    ensures Readers(order + [w], all) == Readers(order, all) + [links[w]]
  {
    assert forall x :: x in order + [w] <==> x in order || x == w;
  }

  lemma ClosingEnds(order: seq<nat>, links: Links, all: Links)
    requires Closing(order, links, all) && links == map[]
    ensures Orders(order, all)
  {
  }

  lemma NoItems(links: Links)
    ensures links.Items == {} ==> links == map[]
  {
    forall w | w in links ensures (w, links[w]) in links.Items {
    }
  }

  class LinkManager {
    const pipes: Pipes
    var links: Links

    constructor (pipes: Pipes)
      ensures this.pipes == pipes && links == map[]
    {
      this.pipes, links := pipes, map[];
    }

    method AddLink(writer: nat, reader: nat)
      modifies this
      ensures links == old(links)[writer := reader]
    {
      links := links[writer := reader];
    }

    method RemoveWriter(writer: nat)
      modifies this
      ensures links == old(links) - {writer}
    {
      links := links - {writer};
    }

    /** ManagedWriter.Close */
    method Close(writer: nat)
      modifies this, pipes
      ensures links == old(links) - {writer}
      ensures pipes.closed == old(pipes.closed) + [writer] && pipes.interrupted == old(pipes.interrupted)
    {
      RemoveWriter(writer);
      pipes.closed := pipes.closed + [writer];
    }

    /** Every Close deletes from the map the loop ranges over; an entry deleted before it is reached is not
        visited. Each link is closed and interrupted exactly once, in some order, and none is left. */
    method CloseAll() returns (ghost order: seq<nat>)
      modifies this, pipes
      ensures links == map[] && Orders(order, old(links))
      ensures pipes.closed == old(pipes.closed) + order
      ensures pipes.interrupted == old(pipes.interrupted) + Readers(order, old(links))
    {
      hide Closing;
      order := [];
      ghost var all := links;
      ClosingStarts(all);
      while links.Items != {}
        invariant Closing(order, links, all)
        invariant pipes.closed == old(pipes.closed) + order
        invariant pipes.interrupted == old(pipes.interrupted) + Readers(order, all)
        decreases |links|
      {
        var item :| item in links.Items;
        var w, r := item.0, item.1;
        assert w in links.Keys && r == links[w];
        ClosingMore(order, links, all, w);
        Close(w);
        pipes.interrupted := pipes.interrupted + [r];
        order := order + [w];
      }
      NoItems(links);
      ClosingEnds(order, links, all);
    }
  }

  // ----- runs -----

  datatype Event = Add(w: nat, r: nat) | Shut(w: nat) | ShutAll

  function After(links: Links, events: seq<Event>): Links {
    if events == [] then links
    else
      var l := After(links, events[..|events| - 1]);
      match events[|events| - 1]
      case Add(w, r) => l[w := r]
      case Shut(w) => l - {w}
      case ShutAll => map[]
  }

  /** What an event closes: nothing, the writer it names, or every link there is, once. */
  ghost predicate EndsAt(links: Links, e: Event, order: seq<nat>) {
    match e
    case Add(_, _) => order == []
    case Shut(w) => order == [w]
    case ShutAll => Orders(order, links)
  }

  /** The readers an event interrupts: only a CloseAll does, one for each link it closes. */
  ghost function Interrupts(links: Links, e: Event, order: seq<nat>): seq<nat>
    requires EndsAt(links, e, order)
  {
    if e.ShutAll? then Readers(order, links) else []
  }

  ghost predicate EndsLinks(links: Links, events: seq<Event>, ended: seq<seq<nat>>) {
    && |ended| == |events|
    && forall i :: 0 <= i < |events| ==> EndsAt(After(links, events[..i]), events[i], ended[i])
  }

  /** All writers a run closes, in order. */
  function Joined(parts: seq<seq<nat>>): seq<nat> {
    if parts == [] then [] else Joined(parts[..|parts| - 1]) + parts[|parts| - 1]
  }

  lemma EndsLess(links: Links, events: seq<Event>, ended: seq<seq<nat>>)
    requires events != [] && EndsLinks(links, events, ended)
    ensures EndsLinks(links, events[..|events| - 1], ended[..|events| - 1])
  {
    hide EndsAt;
    hide After;
    var n := |events| - 1;
    forall k | 0 <= k < n ensures EndsAt(After(links, events[..n][..k]), events[..n][k], ended[..n][k]) {
      assert events[..n][..k] == events[..k];
    }
  }

  /** All readers a run interrupts, in order. */
  ghost function AllInterrupts(links: Links, events: seq<Event>, ended: seq<seq<nat>>): seq<nat>
    requires EndsLinks(links, events, ended)
  {
    if events == [] then []
    else
      var n := |events| - 1;
      EndsLess(links, events, ended);
      AllInterrupts(links, events[..n], ended[..n]) + Interrupts(After(links, events[..n]), events[n], ended[n])
  }

  lemma EndsMore(links: Links, events: seq<Event>, i: nat, ended: seq<seq<nat>>, order: seq<nat>)
    requires i < |events| && EndsLinks(links, events[..i], ended)
    requires EndsAt(After(links, events[..i]), events[i], order)
    ensures EndsLinks(links, events[..i + 1], ended + [order])
  {
    hide EndsAt;
    hide After;
    forall k | 0 <= k < i + 1 ensures EndsAt(After(links, events[..i + 1][..k]), events[..i + 1][k], (ended + [order])[k]) {
      assert events[..i + 1][..k] == events[..k];
      if k < i {
        assert events[..i][..k] == events[..k];
      }
    }
  }

  lemma JoinedMore(ended: seq<seq<nat>>, order: seq<nat>)
    ensures Joined(ended + [order]) == Joined(ended) + order
  {
    assert (ended + [order])[..|ended|] == ended;
  }

  lemma AfterMore(links: Links, events: seq<Event>, i: nat)
    requires i < |events|
    ensures After(links, events[..i + 1]) == After(After(links, events[..i]), [events[i]])
  {
    assert events[..i + 1][..i] == events[..i];
    assert [events[i]][..0] == [];
  }

  lemma EndsLength(links: Links, events: seq<Event>, ended: seq<seq<nat>>)
    requires EndsLinks(links, events, ended)
    ensures |ended| == |events|
  {
  }

  lemma InterruptsMore(links: Links, events: seq<Event>, i: nat, ended: seq<seq<nat>>, order: seq<nat>)
    requires i < |events| && EndsLinks(links, events[..i], ended)
    requires EndsAt(After(links, events[..i]), events[i], order)
    requires EndsLinks(links, events[..i + 1], ended + [order])
    ensures AllInterrupts(links, events[..i + 1], ended + [order]) ==
            AllInterrupts(links, events[..i], ended) + Interrupts(After(links, events[..i]), events[i], order)
  {
    hide EndsAt;
    hide After;
    hide EndsLinks;
    hide Interrupts;
    var more := events[..i + 1];
    assert more[..i] == events[..i] && (ended + [order])[..i] == ended by {
      EndsLength(links, events[..i], ended);
    }
  }

  lemma UseNothing(links: Links)
    ensures EndsLinks(links, [], []) && AllInterrupts(links, [], []) == [] && Joined([]) == []
  {
  }

  /** Any calls of a manager, one after another: its links are those of the fold, the pipes closed are those
      of the writers closed one by one and of the links that were left at each CloseAll, and the readers
      interrupted are those of the latter. */
  method UseManager(lm: LinkManager, events: seq<Event>) returns (ghost ended: seq<seq<nat>>)
    modifies lm, lm.pipes
    ensures lm.links == After(old(lm.links), events)
    ensures EndsLinks(old(lm.links), events, ended)
    ensures lm.pipes.closed == old(lm.pipes.closed) + Joined(ended)
    ensures lm.pipes.interrupted == old(lm.pipes.interrupted) + AllInterrupts(old(lm.links), events, ended)
  {
    hide EndsLinks;
    hide AllInterrupts;
    hide Joined;
    ended := [];
    UseNothing(lm.links);
    for i := 0 to |events|
      invariant lm.links == After(old(lm.links), events[..i])
      invariant EndsLinks(old(lm.links), events[..i], ended)
      invariant lm.pipes.closed == old(lm.pipes.closed) + Joined(ended)
      invariant lm.pipes.interrupted == old(lm.pipes.interrupted) + AllInterrupts(old(lm.links), events[..i], ended)
    {
      ghost var order := [];
      match events[i] {
        case Add(w, r) => lm.AddLink(w, r);
        case Shut(w) =>
          order := [w];
          lm.Close(w);
        case ShutAll => order := lm.CloseAll();
      }
      EndsMore(old(lm.links), events, i, ended, order);
      JoinedMore(ended, order);
      AfterMore(old(lm.links), events, i);
      InterruptsMore(old(lm.links), events, i, ended, order);
      ended := ended + [order];
    }
    assert events[..|events|] == events;
  }

  /** The event ends the link of `w`. */
  predicate Ends(e: Event, w: nat) {
    e.ShutAll? || (e.Shut? && e.w == w)
  }

  /** After any run a manager has exactly the links that were added and not closed since. */
  lemma {:induction false} LinksAreOpenOnes(events: seq<Event>, w: nat)
    ensures w in After(map[], events) <==>
            exists i :: 0 <= i < |events| && events[i].Add? && events[i].w == w
                        && forall j :: i < j < |events| ==> !Ends(events[j], w)
  {
    if events == [] {
    } else {
      var n := |events| - 1;
      var rest := events[..n];
      LinksAreOpenOnes(rest, w);
      assert forall j :: 0 <= j < n ==> events[j] == rest[j];
    }
  }

  // ----- deleting users -----

  datatype Users = Users(
    uids: map<string, int>,       // uidMap
    known: set<string>,           // the core's user manager
    counters: set<string>,        // who has a counter
    managers: map<string, Links>) // who has a link manager, and its links

  /** The names of the first `n` users. */
  ghost function Names(tag: string, users: seq<UserInfo>, n: nat): set<string>
    requires n <= |users|
  {
    set k | 0 <= k < n :: UserTag(tag, users[k].uuid)
  }

  ghost function Without(s: Users, names: set<string>): Users {
    Users(s.uids - names, s.known - names, s.counters - names, s.managers - names)
  }

  /** A deleted user has neither uid nor counter nor link manager, and the core does not know him; all others
      have what they had. */
  lemma DeletedHaveNothing(s: Users, tag: string, users: seq<UserInfo>, n: nat, t: string)
    requires n <= |users|
    ensures var s' := Without(s, Names(tag, users, n));
            if exists k :: 0 <= k < n && tag + "|" + users[k].uuid == t
            then t !in s'.uids && t !in s'.known && t !in s'.counters && t !in s'.managers
            else
              && (t in s'.uids <==> t in s.uids) && (t in s.uids ==> s'.uids[t] == s.uids[t])
              && (t in s'.known <==> t in s.known) && (t in s'.counters <==> t in s.counters)
              && (t in s'.managers <==> t in s.managers) && (t in s.managers ==> s'.managers[t] == s.managers[t])
  {
    if k :| 0 <= k < n && tag + "|" + users[k].uuid == t {
      assert UserTag(tag, users[k].uuid) in Names(tag, users, n);
    }
  }

  function LinksOf(s: Users, user: string, deleted: bool): Links {
    if deleted && user in s.managers then s.managers[user] else map[]
  }

  function Firsts(ps: seq<(nat, nat)>): seq<nat> {
    seq(|ps|, k requires 0 <= k < |ps| => ps[k].0)
  }

  function Seconds(ps: seq<(nat, nat)>): seq<nat> {
    seq(|ps|, k requires 0 <= k < |ps| => ps[k].1)
  }

  lemma SplitPairs(a: seq<(nat, nat)>, b: seq<(nat, nat)>)
    ensures Firsts(a + b) == Firsts(a) + Firsts(b) && Seconds(a + b) == Seconds(a) + Seconds(b)
  {
  }

  function Ended(order: seq<nat>, links: Links): seq<(nat, nat)>
    requires forall k :: 0 <= k < |order| ==> order[k] in links
  {
    seq(|order|, k requires 0 <= k < |order| => (order[k], links[order[k]]))
  }

  /** A link, writer and reader, of one of the named users. */
  ghost predicate IsLink(s: Users, names: set<string>, p: (nat, nat)) {
    exists t :: t in names && t in s.managers && p.0 in s.managers[t] && s.managers[t][p.0] == p.1
  }

  lemma EndedLinks(s: Users, name: string, order: seq<nat>)
    requires Orders(order, LinksOf(s, name, true))
    ensures var more := Ended(order, LinksOf(s, name, true));
            && Firsts(more) == order && Seconds(more) == Readers(order, LinksOf(s, name, true))
            && forall p :: p in more <==> IsLink(s, {name}, p)
  {
    var links := LinksOf(s, name, true);
    var more := Ended(order, links);
    forall p ensures p in more <==> IsLink(s, {name}, p) {
      if IsLink(s, {name}, p) {
        assert p.0 in links && p.0 in order;
        var k :| 0 <= k < |order| && order[k] == p.0;
        assert more[k] == p;
      }
      if p in more {
        var k :| 0 <= k < |more| && more[k] == p;
        assert name in {name} && p.0 == order[k];
      }
    }
  }

  lemma WithoutNone(s: Users, tag: string, list: seq<UserInfo>)
    ensures Without(s, Names(tag, list, 0)) == s
    ensures forall p :: !IsLink(s, Names(tag, list, 0), p)
  {
    assert Names(tag, list, 0) == {};
  }

  lemma WithoutMore(s: Users, tag: string, list: seq<UserInfo>, i: nat)
    requires i < |list|
    ensures var name, names := UserTag(tag, list[i].uuid), Names(tag, list, i);
            && Without(Without(s, names), {name}) == Without(s, Names(tag, list, i + 1))
            && forall p :: IsLink(s, Names(tag, list, i + 1), p) <==>
                 IsLink(s, names, p) || IsLink(Without(s, names), {name}, p)
  {
    hide UserTag;
    var name, names := UserTag(tag, list[i].uuid), Names(tag, list, i);
    assert Names(tag, list, i + 1) == names + {name};
  }

  class Xray {
    const pipes: Pipes
    const inbounds: set<string>  // the tags that have a user manager
    var users: Users

    constructor (pipes: Pipes, inbounds: set<string>, users: Users)
      ensures this.pipes == pipes && this.inbounds == inbounds && this.users == users
    {
      this.pipes, this.inbounds, this.users := pipes, inbounds, users;
    }

    /** One user. The user manager refuses a name it does not know. */
    method DelUser(user: string) returns (ok: bool, ghost order: seq<nat>)
      modifies this, pipes
      ensures ok == (user in old(users).known)
      ensures users == if ok then Without(old(users), {user}) else old(users)
      ensures Orders(order, LinksOf(old(users), user, ok))
      ensures pipes.closed == old(pipes.closed) + order
      ensures pipes.interrupted == old(pipes.interrupted) + Readers(order, LinksOf(old(users), user, ok))
      ensures !ok ==> order == []
    {
      order := [];
      if user !in users.known {
        return false, order;
      }
      users := users.(known := users.known - {user});
      users := users.(uids := users.uids - {user});
      users := users.(counters := users.counters - {user});
      if user in users.managers {
        var lm := new LinkManager(pipes);
        lm.links := users.managers[user];
        order := lm.CloseAll();
        users := users.(managers := users.managers - {user});
      }
      assert users.managers == old(users).managers - {user};
      return true, order;
    }

    /** Without a user manager for the tag nothing happens. Else it deletes the users one after another
        until one is refused: then those before are gone completely and the others are untouched. Ended,
        writer closed and reader interrupted, are exactly the links of the deleted users. */
    method DelUsers(list: seq<UserInfo>, tag: string) returns (ok: bool, ghost n: nat, ghost ended: seq<(nat, nat)>)
      modifies this, pipes
      ensures n <= |list|
      ensures ok <==> tag in inbounds && n == |list|
      ensures tag !in inbounds ==> n == 0
      ensures users == Without(old(users), Names(tag, list, n))
      ensures tag in inbounds && !ok ==> UserTag(tag, list[n].uuid) !in users.known
      ensures pipes.closed == old(pipes.closed) + Firsts(ended)
      ensures pipes.interrupted == old(pipes.interrupted) + Seconds(ended)
      ensures forall p :: p in ended <==> IsLink(old(users), Names(tag, list, n), p)
    {
      n, ended := 0, [];
      ghost var s := users;
      WithoutNone(s, tag, list);
      if tag !in inbounds {
        return false, n, ended;
      }
      for i := 0 to |list|
        invariant n == i
        invariant users == Without(s, Names(tag, list, i))
        invariant pipes.closed == old(pipes.closed) + Firsts(ended)
        invariant pipes.interrupted == old(pipes.interrupted) + Seconds(ended)
        invariant forall p :: p in ended <==> IsLink(s, Names(tag, list, i), p)
      {
        ghost var name, now := UserTag(tag, list[i].uuid), users;
        WithoutMore(s, tag, list, i);
        ghost var order;
        ok, order := DelUser(UserTag(tag, list[i].uuid));
        if !ok {
          return;
        }
        ghost var more := Ended(order, LinksOf(now, name, true));
        EndedLinks(now, name, order);
        SplitPairs(ended, more);
        ended := ended + more;
        n := n + 1;
      }
      ok := true;
    }
  }
}
