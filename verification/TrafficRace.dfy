/** The drain of core/hy2/user.go and core/xray/user.go while other goroutines go on counting. Every
    atomic operation of common/counter/traffic.go is a step of its own, and any steps may follow one
    another. An adder first gets a storage and adds to it later, so it may still add to one that has been
    deleted. There is one drain at a time, TrafficDrains has more of them; it resets what it reads, as its
    only caller asks for. The state holds only what the program holds; all accounts are sums over the steps
    of a run. */
module TrafficRace {
  import opened Panel

  datatype Direction = Up | Down

  /** What the drain has done with one counter: nothing, loaded it, or loaded it and stored zero. */
  datatype Hand = Empty | Loaded(n: nat) | Taken(n: nat)

  datatype Drain =
    | Idle
    | Ranging(visited: set<string>, slice: seq<UserTraffic>)
    | AtKey(visited: set<string>, slice: seq<UserTraffic>, uuid: string, id: nat, up: Hand, down: Hand)

  datatype State = State(
    counters: map<(nat, Direction), nat>,
    next: nat,                 // the next storage
    table: map<string, nat>,   // the sync.Map: which storage belongs to which key
    uids: map<string, int>,
    min: int,
    drain: Drain)

  datatype Step =
    | Acquire(uuid: string)                         // GetCounter
    | Add(id: nat, dir: Direction, n: nat)          // Add on an acquired counter
    | Delete(uuid: string)                          // DelUsers
    | SetUsers(uids: map<string, int>)              // AddUsers and DelUsers, kept out of a drain by its lock
    | Begin
    | Visit(uuid: string)
    | LoadUp | LoadDown | StoreUp | StoreDown
    | Finish
    | End

  function ValueOf(s: State, id: nat, dir: Direction): nat {
    if (id, dir) in s.counters then s.counters[(id, dir)] else 0
  }

  function HandOf(d: Drain, id: nat, dir: Direction): Hand {
    if d.AtKey? && d.id == id then (if dir == Up then d.up else d.down) else Empty
  }

  function SetHand(d: Drain, dir: Direction, h: Hand): Drain
    requires d.AtKey?
  {
    if dir == Up then d.(up := h) else d.(down := h)
  }

  function Put(s: State, id: nat, dir: Direction, n: nat): State {
    s.(counters := s.counters[(id, dir) := n])
  }

  function LoadedAt(s: State, dir: Direction): State
    requires s.drain.AtKey?
  {
    s.(drain := SetHand(s.drain, dir, Loaded(ValueOf(s, s.drain.id, dir))))
  }

  /** Store(0) */
  function StoredAt(s: State, dir: Direction): State
    requires s.drain.AtKey? && HandOf(s.drain, s.drain.id, dir).Loaded?
  {
    Put(s, s.drain.id, dir, 0).(drain := SetHand(s.drain, dir, Taken(HandOf(s.drain, s.drain.id, dir).n)))
  }

  function UidOf(s: State, uuid: string): int {
    if uuid in s.uids then s.uids[uuid] else 0
  }

  /** The drain has loaded both counters of a storage, and they exceed the threshold. */
  predicate Over(s: State) {
    && s.drain.AtKey? && !s.drain.up.Empty? && !s.drain.down.Empty?
    && s.drain.up.n + s.drain.down.n > s.min
  }

  /** The end of a visit that has emptied its counters: without a user the key is deleted, else the
      traffic is listed. */
  function Finished(s: State): State
    requires Over(s)
  {
    var d := s.drain;
    if UidOf(s, d.uuid) == 0 then s.(table := s.table - {d.uuid}, drain := Ranging(d.visited, d.slice))
    else s.(drain := Ranging(d.visited, d.slice + [UserTraffic(UidOf(s, d.uuid), d.up.n, d.down.n)]))
  }

  ghost predicate Next(s: State, e: Step, s': State) {
    var d := s.drain;
    match e
    case Acquire(uuid) =>
      s' == if uuid in s.table then s else s.(table := s.table[uuid := s.next], next := s.next + 1)
    case Add(id, dir, n) => id < s.next && s' == Put(s, id, dir, ValueOf(s, id, dir) + n)
    case Delete(uuid) => s' == s.(table := s.table - {uuid})
    case SetUsers(uids) => d.Idle? && s' == s.(uids := uids)
    case Begin => d.Idle? && s' == s.(drain := Ranging({}, []))
    case Visit(uuid) =>
      && d.Ranging? && uuid in s.table && uuid !in d.visited
      && s' == s.(drain := AtKey(d.visited + {uuid}, d.slice, uuid, s.table[uuid], Empty, Empty))
    case LoadUp => d.AtKey? && d.up.Empty? && s' == LoadedAt(s, Up)
    case LoadDown => d.AtKey? && d.up.Loaded? && d.down.Empty? && s' == LoadedAt(s, Down)
    case StoreUp => d.AtKey? && Over(s) && d.up.Loaded? && s' == StoredAt(s, Up)
    case StoreDown => d.AtKey? && Over(s) && d.up.Taken? && d.down.Loaded? && s' == StoredAt(s, Down)
    case Finish =>
      && d.AtKey? && !d.up.Empty? && !d.down.Empty?
      && if Over(s) then d.up.Taken? && d.down.Taken? && s' == Finished(s)
         else s' == s.(drain := Ranging(d.visited, d.slice))
    case End => d.Ranging? && s' == s.(drain := Idle)
  }

  ghost predicate Initial(s: State) {
    s.counters == map[] && s.next == 0 && s.table == map[] && s.drain == Idle
  }

  ghost predicate Run(states: seq<State>, steps: seq<Step>) {
    && |states| == |steps| + 1
    && forall i :: 0 <= i < |steps| ==> Next(states[i], steps[i], states[i + 1])
  }

  function LoadOf(dir: Direction): Step {
    if dir == Up then LoadUp else LoadDown
  }

  function StoreOf(dir: Direction): Step {
    if dir == Up then StoreUp else StoreDown
  }

  // ----- the accounts of a run -----

  /** What a step adds to a counter. */
  function AddOf(e: Step, id: nat, dir: Direction): nat {
    if e.Add? && e.id == id && e.dir == dir then e.n else 0
  }

  /** What steps `i` to `j - 1` add to a counter. */
  function AddedBetween(steps: seq<Step>, i: nat, j: nat, id: nat, dir: Direction): nat
    requires i <= j <= |steps|
    decreases j
  {
    if i == j then 0 else AddedBetween(steps, i, j - 1, id, dir) + AddOf(steps[j - 1], id, dir)
  }

  /** Right behind the last load of this direction before step `j`. */
  function LastLoad(steps: seq<Step>, j: nat, dir: Direction): (i: nat)
    requires j <= |steps|
    ensures i <= j && (i > 0 ==> steps[i - 1] == LoadOf(dir))
    ensures forall k :: i <= k < j ==> steps[k] != LoadOf(dir)
  {
    if j == 0 then 0 else if steps[j - 1] == LoadOf(dir) then j else LastLoad(steps, j - 1, dir)
  }

  /** The step stores zero into this counter. */
  predicate StoresTo(s: State, e: Step, id: nat, dir: Direction) {
    e == StoreOf(dir) && s.drain.AtKey? && s.drain.id == id
  }

  /** What step `j` wipes out if it is a store: what was added since the last load. */
  function LossOf(states: seq<State>, steps: seq<Step>, j: nat, id: nat, dir: Direction): nat
    requires j < |steps| < |states|
  {
    if StoresTo(states[j], steps[j], id, dir) then AddedBetween(steps, LastLoad(steps, j, dir), j, id, dir) else 0
  }

  /** The bytes that came between a load and a store, over all stores before step `j`. */
  function Lost(states: seq<State>, steps: seq<Step>, j: nat, id: nat, dir: Direction): nat
    requires j <= |steps| < |states|
  {
    if j == 0 then 0 else Lost(states, steps, j - 1, id, dir) + LossOf(states, steps, j - 1, id, dir)
  }

  /** The drain leaves a storage whose counters it has emptied. */
  predicate Leaves(s: State, e: Step, id: nat) {
    e.Finish? && Over(s) && s.drain.id == id
  }

  /** The bytes a step throws away because nobody is known for them. */
  function DiscardOf(s: State, e: Step, id: nat, dir: Direction): nat {
    if Leaves(s, e, id) && UidOf(s, s.drain.uuid) == 0 then HandOf(s.drain, id, dir).n else 0
  }

  function Discarded(states: seq<State>, steps: seq<Step>, j: nat, id: nat, dir: Direction): nat
    requires j <= |steps| < |states|
  {
    if j == 0 then 0
    else Discarded(states, steps, j - 1, id, dir) + DiscardOf(states[j - 1], steps[j - 1], id, dir)
  }

  /** What a step lists, with the storage it was read from. */
  function EntryOf(s: State, e: Step): seq<(nat, UserTraffic)> {
    if e.Finish? && Over(s) && UidOf(s, s.drain.uuid) != 0
    then [(s.drain.id, UserTraffic(UidOf(s, s.drain.uuid), s.drain.up.n, s.drain.down.n))] else []
  }

  /** Everything the drains have listed. */
  function Listing(states: seq<State>, steps: seq<Step>, j: nat): seq<(nat, UserTraffic)>
    requires j <= |steps| < |states|
  {
    if j == 0 then [] else Listing(states, steps, j - 1) + EntryOf(states[j - 1], steps[j - 1])
  }

  function Amount(u: UserTraffic, dir: Direction): int {
    if dir == Up then u.upload else u.download
  }

  /** The part of a listing that was read from one storage. */
  function From(listing: seq<(nat, UserTraffic)>, id: nat, dir: Direction): int {
    if listing == [] then 0
    else
      var p := listing[|listing| - 1];
      From(listing[..|listing| - 1], id, dir) + if p.0 == id then Amount(p.1, dir) else 0
  }

  function Reported(states: seq<State>, steps: seq<Step>, j: nat, id: nat, dir: Direction): int
    requires j <= |steps| < |states|
  {
    From(Listing(states, steps, j), id, dir)
  }

  /** What the drain holds in its hand and no counter shows any more. */
  function InHand(s: State, id: nat, dir: Direction): nat {
    var h := HandOf(s.drain, id, dir);
    if h.Taken? then h.n else 0
  }

  ghost predicate Linked(s: State, id: nat) {
    exists k :: k in s.table && s.table[k] == id
  }

  /** A drain can still get at the storage: a key leads to it, or the drain is at it. */
  ghost predicate Reachable(s: State, id: nat) {
    Linked(s, id) || (s.drain.AtKey? && s.drain.id == id)
  }

  ghost function Pending(s: State, id: nat, dir: Direction): nat {
    if Reachable(s, id) then ValueOf(s, id, dir) else 0
  }

  /** What is in a counter that was deleted under it. */
  ghost function Dropped(s: State, id: nat, dir: Direction): nat {
    if Reachable(s, id) then 0 else ValueOf(s, id, dir)
  }

  // ----- who is known -----

  /** Over every run the users are those set last, and they change between drains only. */
  lemma {:induction false} UsersSetLast(states: seq<State>, steps: seq<Step>, i: nat, j: nat)
    requires Run(states, steps) && i < j < |states| && steps[i].SetUsers?
    requires forall k :: i < k < j ==> !steps[k].SetUsers?
    ensures states[j].uids == steps[i].uids && states[i].drain.Idle?
    decreases j
  {
    assert Next(states[j - 1], steps[j - 1], states[j]);
    if j == i + 1 {
    } else {
      UsersSetLast(states, steps, i, j - 1);
    }
  }

  // ----- what a visit decides -----

  /** The drain stores zero only into counters whose loaded values together exceed the threshold. */
  lemma StoresWhenOver(s: State, e: Step, s': State, dir: Direction)
    requires Next(s, e, s') && e == StoreOf(dir)
    ensures s.drain.AtKey? && !s.drain.up.Empty? && !s.drain.down.Empty? && s.drain.up.n + s.drain.down.n > s.min
    ensures ValueOf(s', s.drain.id, dir) == 0
  {
  }

  /** A visit ends with an entry exactly when the loaded values together exceed the threshold and somebody is
      known for the key; then both counters have been stored. Above the threshold a key nobody is known for is
      deleted. Nothing else changes the table or the slice. */
  lemma ListsWhenOver(s: State, s': State)
    requires Next(s, Finish, s')
    ensures s.drain.AtKey? && !s.drain.up.Empty? && !s.drain.down.Empty? && s'.drain.Ranging?
    ensures var d := s.drain;
            var over, known := d.up.n + d.down.n > s.min, d.uuid in s.uids && s.uids[d.uuid] != 0;
            && s'.drain.slice == (if over && known then d.slice + [UserTraffic(s.uids[d.uuid], d.up.n, d.down.n)] else d.slice)
            && s'.table == (if over && !known then s.table - {d.uuid} else s.table)
            && (over ==> d.up.Taken? && d.down.Taken?)
            && s'.counters == s.counters
  {
  }

  // ----- the balance -----

  /** What a step takes out of the drain's hand and lists. */
  function ListOf(s: State, e: Step, id: nat, dir: Direction): nat {
    if Leaves(s, e, id) && UidOf(s, s.drain.uuid) != 0 then HandOf(s.drain, id, dir).n else 0
  }

  /** What a store wipes out beyond what was loaded. */
  function WipeOf(s: State, e: Step, id: nat, dir: Direction): int {
    if StoresTo(s, e, id, dir) && HandOf(s.drain, id, dir).Loaded?
    then ValueOf(s, id, dir) - HandOf(s.drain, id, dir).n else 0
  }

  /** The drain stores only what is over the threshold, and the threshold stays. */
  ghost predicate TakenIsOver(s: State) {
    s.drain.AtKey? && (s.drain.up.Taken? || s.drain.down.Taken?) ==> Over(s)
  }

  lemma StepTaken(s: State, e: Step, s': State)
    requires Next(s, e, s') && TakenIsOver(s)
    ensures TakenIsOver(s')
  {
    hide ValueOf;
  }

  /** No step makes or destroys a byte. */
  lemma StepMoves(s: State, e: Step, s': State, id: nat, dir: Direction)
    requires Next(s, e, s') && TakenIsOver(s)
    ensures ValueOf(s, id, dir) + InHand(s, id, dir) + AddOf(e, id, dir) ==
            ValueOf(s', id, dir) + InHand(s', id, dir)
            + ListOf(s, e, id, dir) + DiscardOf(s, e, id, dir) + WipeOf(s, e, id, dir)
  {
  }

  /** A counter is loaded by a load, and stays so until it is stored or left. */
  lemma StepHand(s: State, e: Step, s': State, id: nat, dir: Direction)
    requires Next(s, e, s')
    ensures var h, h' := HandOf(s.drain, id, dir), HandOf(s'.drain, id, dir);
            && (h'.Loaded? && e != LoadOf(dir) ==> h' == h && ValueOf(s', id, dir) == ValueOf(s, id, dir) + AddOf(e, id, dir))
            && (h'.Loaded? && e == LoadOf(dir) ==> h'.n == ValueOf(s', id, dir))
            && (StoresTo(s, e, id, dir) ==> h.Loaded?)
  {
  }

  lemma FromMore(listing: seq<(nat, UserTraffic)>, more: seq<(nat, UserTraffic)>, id: nat, dir: Direction)
    requires |more| <= 1
    ensures From(listing + more, id, dir) == From(listing, id, dir) + From(more, id, dir)
  {
    if more == [] {
      assert listing + more == listing;
    } else {
      assert (listing + more)[..|listing|] == listing;
      assert more[..0] == [];
    }
  }

  lemma FromEntry(s: State, e: Step, id: nat, dir: Direction)
    ensures From(EntryOf(s, e), id, dir) == ListOf(s, e, id, dir)
  {
    if EntryOf(s, e) != [] {
      assert EntryOf(s, e)[..0] == [];
    }
  }

  lemma ReportedMore(states: seq<State>, steps: seq<Step>, j: nat, id: nat, dir: Direction)
    requires 0 < j <= |steps| < |states|
    ensures Reported(states, steps, j, id, dir) ==
            Reported(states, steps, j - 1, id, dir) + ListOf(states[j - 1], steps[j - 1], id, dir)
  {
    var before, more := Listing(states, steps, j - 1), EntryOf(states[j - 1], steps[j - 1]);
    assert Listing(states, steps, j) == before + more;
    FromEntry(states[j - 1], steps[j - 1], id, dir);
    hide From;
    hide Listing;
    assert |more| <= 1;
    hide EntryOf;
    hide ListOf;
    FromMore(before, more, id, dir);
  }

  /** Every byte added before step `j` is in exactly one place, and a loaded counter shows what was loaded
      and what was added since. */
  ghost predicate Balanced(states: seq<State>, steps: seq<Step>, j: nat, id: nat, dir: Direction)
    requires j <= |steps| < |states|
  {
    var s, h := states[j], HandOf(states[j].drain, id, dir);
    && AddedBetween(steps, 0, j, id, dir) ==
       Reported(states, steps, j, id, dir) + ValueOf(s, id, dir) + InHand(s, id, dir)
       + Discarded(states, steps, j, id, dir) + Lost(states, steps, j, id, dir)
    && Reported(states, steps, j, id, dir) >= 0
    && (h.Loaded? ==>
          && LastLoad(steps, j, dir) > 0
          && ValueOf(s, id, dir) == h.n + AddedBetween(steps, LastLoad(steps, j, dir), j, id, dir))
  }

  lemma StepBalanced(states: seq<State>, steps: seq<Step>, j: nat, id: nat, dir: Direction)
    requires Run(states, steps) && 0 < j <= |steps|
    requires TakenIsOver(states[j - 1]) && Balanced(states, steps, j - 1, id, dir)
    ensures Balanced(states, steps, j, id, dir)
  {
    var s, e, s' := states[j - 1], steps[j - 1], states[j];
    assert Next(s, e, s');
    StepMoves(s, e, s', id, dir);
    StepHand(s, e, s', id, dir);
    ReportedMore(states, steps, j, id, dir);
    hide Next;
    hide Reported;
    hide HandOf;
    hide ValueOf;
  }

  lemma {:induction false} RunBalanced(states: seq<State>, steps: seq<Step>, j: nat, id: nat, dir: Direction)
    requires Run(states, steps) && Initial(states[0]) && j < |states|
    ensures TakenIsOver(states[j]) && Balanced(states, steps, j, id, dir)
    decreases j
  {
    if j == 0 {
      assert Listing(states, steps, 0) == [];
    } else {
      RunBalanced(states, steps, j - 1, id, dir);
      StepBalanced(states, steps, j, id, dir);
      assert Next(states[j - 1], steps[j - 1], states[j]);
      StepTaken(states[j - 1], steps[j - 1], states[j]);
    }
  }

  /** Interleaved accounting, for every counter after every run: what was added is what the drains have
      listed, what a drain can still get at, what was deleted under a counter, what the drain has in its
      hand, what it threw away because nobody was known for it, and what fell between a load and its store.
      So nothing is listed twice. */
  lemma RunAccounts(states: seq<State>, steps: seq<Step>, j: nat, id: nat, dir: Direction)
    requires Run(states, steps) && Initial(states[0]) && j < |states|
    ensures AddedBetween(steps, 0, j, id, dir) ==
            Reported(states, steps, j, id, dir) + Pending(states[j], id, dir) + Dropped(states[j], id, dir)
            + InHand(states[j], id, dir) + Discarded(states, steps, j, id, dir) + Lost(states, steps, j, id, dir)
    ensures 0 <= Reported(states, steps, j, id, dir) <= AddedBetween(steps, 0, j, id, dir)
  {
    RunBalanced(states, steps, j, id, dir);
  }

  // ----- what the drains hand over -----

  function SliceOf(d: Drain): seq<UserTraffic> {
    if d.Idle? then [] else d.slice
  }

  /** What the drains that have ended returned, one after another. */
  function Returned(states: seq<State>, steps: seq<Step>, j: nat): seq<UserTraffic>
    requires j <= |steps| < |states|
  {
    if j == 0 then []
    else Returned(states, steps, j - 1) + if steps[j - 1].End? then SliceOf(states[j - 1].drain) else []
  }

  function Entries(listing: seq<(nat, UserTraffic)>): seq<UserTraffic> {
    seq(|listing|, k requires 0 <= k < |listing| => listing[k].1)
  }

  lemma StepSlice(s: State, e: Step, s': State)
    requires Next(s, e, s')
    ensures (if e.End? then SliceOf(s.drain) else []) + SliceOf(s'.drain) == SliceOf(s.drain) + Entries(EntryOf(s, e))
  {
    assert Entries([]) == [];
    hide ValueOf;
    hide UidOf;
  }

  lemma Regrouped(a: seq<UserTraffic>, b: seq<UserTraffic>, c: seq<UserTraffic>, d: seq<UserTraffic>, e: seq<UserTraffic>)
    requires b + c == d + e
    ensures (a + b) + c == (a + d) + e
  {
    assert (a + b) + c == a + (b + c);
    assert (a + d) + e == a + (d + e);
  }

  lemma EntriesBoth(a: seq<(nat, UserTraffic)>, b: seq<(nat, UserTraffic)>)
    ensures Entries(a + b) == Entries(a) + Entries(b)
  {
  }

  /** What the accounts call reported is, entry by entry, what the drains return: the slices of the ended
      drains and that of the running one hold exactly the listing, in order. */
  lemma {:induction false} ReturnedIsListed(states: seq<State>, steps: seq<Step>, j: nat)
    requires Run(states, steps) && Initial(states[0]) && j < |states|
    ensures Returned(states, steps, j) + SliceOf(states[j].drain) == Entries(Listing(states, steps, j))
    decreases j
  {
    if j == 0 {
      assert Listing(states, steps, 0) == [];
    } else {
      ReturnedIsListed(states, steps, j - 1);
      assert Next(states[j - 1], steps[j - 1], states[j]);
      hide Next;
      hide EntryOf;
      hide Entries;
      hide SliceOf;
      var s, e := states[j - 1], steps[j - 1];
      StepSlice(s, e, states[j]);
      EntriesBoth(Listing(states, steps, j - 1), EntryOf(s, e));
      Regrouped(Returned(states, steps, j - 1), if e.End? then SliceOf(s.drain) else [], SliceOf(states[j].drain),
                SliceOf(s.drain), Entries(EntryOf(s, e)));
    }
  }

  lemma StepEntry(s: State, e: Step, s': State)
    requires Next(s, e, s')
    ensures s'.min == s.min
    ensures forall p :: p in EntryOf(s, e) ==> p.1.uid != 0 && p.1.upload + p.1.download > s.min
  {
  }

  /** Every entry has a user and exceeds the threshold. */
  lemma {:induction false} ListedAreOver(states: seq<State>, steps: seq<Step>, j: nat)
    requires Run(states, steps) && j < |states|
    ensures states[j].min == states[0].min
    ensures forall p :: p in Listing(states, steps, j) ==> p.1.uid != 0 && p.1.upload + p.1.download > states[0].min
    decreases j
  {
    if j == 0 {
      assert Listing(states, steps, 0) == [];
    } else {
      ListedAreOver(states, steps, j - 1);
      assert Next(states[j - 1], steps[j - 1], states[j]);
      StepEntry(states[j - 1], steps[j - 1], states[j]);
      hide Next;
      hide EntryOf;
    }
  }

  // ----- when nothing is missing -----

  lemma {:induction false} AddedWhen(steps: seq<Step>, i: nat, j: nat, id: nat, dir: Direction)
    requires i <= j <= |steps|
    ensures AddedBetween(steps, i, j, id, dir) > 0 <==> exists k :: i <= k < j && AddOf(steps[k], id, dir) > 0
    decreases j
  {
    if i == j {
    } else {
      AddedWhen(steps, i, j - 1, id, dir);
    }
  }

  /** Step `k` adds to the counter between the load `l` and the store `m` of a visit. */
  ghost predicate Slips(states: seq<State>, steps: seq<Step>, l: nat, k: nat, m: nat, id: nat, dir: Direction)
    requires |steps| < |states|
  {
    && l < k < m < |steps| && steps[l] == LoadOf(dir) && AddOf(steps[k], id, dir) > 0
    && StoresTo(states[m], steps[m], id, dir)
    && forall i :: l < i < m ==> steps[i] != LoadOf(dir)
  }

  /** A store that wipes out an Add. */
  ghost predicate Wipes(states: seq<State>, steps: seq<Step>, m: nat, id: nat, dir: Direction)
    requires |steps| < |states|
  {
    exists l: nat, k: nat :: Slips(states, steps, l, k, m, id, dir)
  }

  lemma StoreLosesWhen(states: seq<State>, steps: seq<Step>, m: nat, id: nat, dir: Direction)
    requires Run(states, steps) && Initial(states[0]) && m < |steps|
    ensures LossOf(states, steps, m, id, dir) > 0 <==> Wipes(states, steps, m, id, dir)
  {
    var i := LastLoad(steps, m, dir);
    RunBalanced(states, steps, m, id, dir);
    assert Next(states[m], steps[m], states[m + 1]);
    StepHand(states[m], steps[m], states[m + 1], id, dir);
    hide Run;
    hide Next;
    if LossOf(states, steps, m, id, dir) > 0 {
      AddedWhen(steps, i, m, id, dir);
      var k :| i <= k < m && AddOf(steps[k], id, dir) > 0;
      assert Slips(states, steps, i - 1, k, m, id, dir);
    }
    if l: nat, k: nat :| Slips(states, steps, l, k, m, id, dir) {
      assert i == l + 1;
      AddedWhen(steps, i, m, id, dir);
    }
  }

  /** Bytes are lost exactly when an Add comes between a load and a store of the same visit. */
  lemma {:induction false} LostWhen(states: seq<State>, steps: seq<Step>, j: nat, id: nat, dir: Direction)
    requires Run(states, steps) && Initial(states[0]) && j < |states|
    ensures Lost(states, steps, j, id, dir) > 0 <==> exists m :: 0 <= m < j && Wipes(states, steps, m, id, dir)
    decreases j
  {
    hide Next;
    hide Wipes;
    hide LossOf;
    if j == 0 {
    } else {
      LostWhen(states, steps, j - 1, id, dir);
      StoreLosesWhen(states, steps, j - 1, id, dir);
    }
  }

  lemma {:induction false} DiscardedWhen(states: seq<State>, steps: seq<Step>, j: nat, id: nat, dir: Direction)
    requires j <= |steps| < |states|
    ensures Discarded(states, steps, j, id, dir) > 0 <==>
            exists f :: 0 <= f < j && DiscardOf(states[f], steps[f], id, dir) > 0
    decreases j
  {
    if j == 0 {
    } else {
      DiscardedWhen(states, steps, j - 1, id, dir);
    }
  }

  lemma StepValue(s: State, e: Step, s': State, id: nat, dir: Direction)
    requires Next(s, e, s')
    ensures ValueOf(s', id, dir) == if StoresTo(s, e, id, dir) then 0 else ValueOf(s, id, dir) + AddOf(e, id, dir)
  {
  }

  /** Step `k` adds to the counter and no store before step `j` takes it out. */
  ghost predicate Stays(states: seq<State>, steps: seq<Step>, k: nat, j: nat, id: nat, dir: Direction)
    requires j <= |steps| < |states|
  {
    k < j && AddOf(steps[k], id, dir) > 0 && forall m :: k < m < j ==> !StoresTo(states[m], steps[m], id, dir)
  }

  /** The counter still holds bytes some step added. */
  ghost predicate Holds(states: seq<State>, steps: seq<Step>, j: nat, id: nat, dir: Direction)
    requires j <= |steps| < |states|
  {
    exists k: nat :: Stays(states, steps, k, j, id, dir)
  }

  lemma HoldsMore(states: seq<State>, steps: seq<Step>, i: nat, j: nat, id: nat, dir: Direction)
    requires j <= |steps| < |states| && j == i + 1 && (StoresTo(states[i], steps[i], id, dir) ==> !steps[i].Add?)
    ensures Holds(states, steps, j, id, dir) <==>
            || AddOf(steps[i], id, dir) > 0
            || (!StoresTo(states[i], steps[i], id, dir) && Holds(states, steps, i, id, dir))
  {
    if k: nat :| Stays(states, steps, k, j, id, dir) {
      assert k == i || Stays(states, steps, k, i, id, dir);
    }
    if AddOf(steps[i], id, dir) > 0 {
      assert Stays(states, steps, i, j, id, dir);
    }
    if !StoresTo(states[i], steps[i], id, dir) {
      if k: nat :| Stays(states, steps, k, i, id, dir) {
        assert Stays(states, steps, k, j, id, dir);
      }
    }
  }

  lemma {:induction false} ValueWhen(states: seq<State>, steps: seq<Step>, j: nat, id: nat, dir: Direction)
    requires Run(states, steps) && Initial(states[0]) && j < |states|
    ensures ValueOf(states[j], id, dir) > 0 <==> Holds(states, steps, j, id, dir)
    decreases j
  {
    if j == 0 {
    } else {
      ValueWhen(states, steps, j - 1, id, dir);
      assert Next(states[j - 1], steps[j - 1], states[j]);
      hide Next;
      hide ValueOf;
      hide Holds;
      StepValue(states[j - 1], steps[j - 1], states[j], id, dir);
      HoldsMore(states, steps, j - 1, j, id, dir);
    }
  }

  /** A store wipes out exactly the bytes added since the load of the same visit: what it replaces by zero
      is what was loaded, which the drain keeps, and those. */
  lemma LossIsWhatFallsInBetween(states: seq<State>, steps: seq<Step>, m: nat, id: nat, dir: Direction)
    requires Run(states, steps) && Initial(states[0]) && m < |steps| && StoresTo(states[m], steps[m], id, dir)
    ensures var l := LastLoad(steps, m, dir);
            && l > 0 && steps[l - 1] == LoadOf(dir)
            && HandOf(states[m].drain, id, dir).Loaded? && ValueOf(states[m + 1], id, dir) == 0
            && HandOf(states[m + 1].drain, id, dir) == Taken(HandOf(states[m].drain, id, dir).n)
            && ValueOf(states[m], id, dir) == HandOf(states[m].drain, id, dir).n + AddedBetween(steps, l, m, id, dir)
  {
    RunBalanced(states, steps, m, id, dir);
    assert Next(states[m], steps[m], states[m + 1]);
    StepHand(states[m], steps[m], states[m + 1], id, dir);
    StepValue(states[m], steps[m], states[m + 1], id, dir);
    hide Balanced;
  }

  /** The step takes the key away that leads to the storage. */
  ghost predicate Unlinks(s: State, e: Step, id: nat) {
    || (e.Delete? && e.uuid in s.table && s.table[e.uuid] == id)
    || (e.Finish? && Over(s) && UidOf(s, s.drain.uuid) == 0 && s.drain.uuid in s.table && s.table[s.drain.uuid] == id)
  }

  ghost predicate TableOk(s: State) {
    && (forall k :: k in s.table ==> s.table[k] < s.next)
    && (forall k, m :: k in s.table && m in s.table && s.table[k] == s.table[m] ==> k == m)
    && (s.drain.AtKey? ==> s.drain.id < s.next)
  }

  lemma StepTableOk(s: State, e: Step, s': State)
    requires Next(s, e, s') && TableOk(s)
    ensures TableOk(s') && s.next <= s'.next
  {
    hide ValueOf;
    hide UidOf;
    hide Over;
  }

  lemma AcquireLinks(s: State, uuid: string, s': State, id: nat)
    requires Next(s, Acquire(uuid), s')
    ensures s.next <= id < s'.next ==> Linked(s', id)
    ensures id < s.next ==> (Linked(s', id) <==> Linked(s, id))
  {
    if uuid !in s.table {
      assert s'.table[uuid] == s.next;
      assert forall k :: k in s.table ==> k in s'.table && s'.table[k] == s.table[k];
    }
  }

  lemma WithoutKey(s: State, uuid: string, s': State, id: nat)
    requires TableOk(s) && s'.table == s.table - {uuid}
    ensures Linked(s', id) <==> Linked(s, id) && !(uuid in s.table && s.table[uuid] == id)
  {
    if k :| k in s.table && s.table[k] == id && k != uuid {
      assert k in s'.table && s'.table[k] == id;
    }
  }

  lemma StepKeys(s: State, e: Step, s': State)
    requires Next(s, e, s') && !e.Acquire?
    ensures s'.next == s.next
    ensures e.Delete? ==> s'.table == s.table - {e.uuid}
    ensures !e.Delete? && !e.Finish? ==> s'.table == s.table
    ensures e.Finish? ==>
              s'.table == if Over(s) && UidOf(s, s.drain.uuid) == 0 then s.table - {s.drain.uuid} else s.table
  {
    hide ValueOf;
    hide UidOf;
    hide Over;
  }

  lemma StepTable(s: State, e: Step, s': State, id: nat)
    requires Next(s, e, s') && TableOk(s)
    ensures TableOk(s') && s.next <= s'.next
    ensures s.next <= id < s'.next ==> Linked(s', id)
    ensures id < s.next ==> (Linked(s', id) <==> Linked(s, id) && !Unlinks(s, e, id))
    ensures Unlinks(s, e, id) ==> id < s.next
  {
    hide ValueOf;
    hide UidOf;
    hide Over;
    StepTableOk(s, e, s');
    if e.Acquire? {
      AcquireLinks(s, e.uuid, s', id);
    } else {
      StepKeys(s, e, s');
      hide Next;
      if e.Delete? {
        WithoutKey(s, e.uuid, s', id);
      } else if s'.table != s.table {
        WithoutKey(s, s.drain.uuid, s', id);
      }
    }
  }

  /** A storage is found by a key from its first Acquire on until a step takes that key away. */
  lemma {:induction false} LinkedUntil(states: seq<State>, steps: seq<Step>, j: nat, id: nat)
    requires Run(states, steps) && Initial(states[0]) && j < |states|
    ensures TableOk(states[j])
    ensures Linked(states[j], id) <==>
            id < states[j].next && forall i :: 0 <= i < j ==> !Unlinks(states[i], steps[i], id)
    ensures (exists i :: 0 <= i < j && Unlinks(states[i], steps[i], id)) ==> id < states[j].next
    decreases j
  {
    if j == 0 {
    } else {
      hide Unlinks;
      LinkedUntil(states, steps, j - 1, id);
      assert Next(states[j - 1], steps[j - 1], states[j]);
      hide Next;
      StepTable(states[j - 1], steps[j - 1], states[j], id);
    }
  }

  lemma {:induction false} UnusedIsZero(states: seq<State>, steps: seq<Step>, j: nat, id: nat, dir: Direction)
    requires Run(states, steps) && Initial(states[0]) && j < |states| && id >= states[j].next
    ensures ValueOf(states[j], id, dir) == 0
    decreases j
  {
    if j == 0 {
    } else {
      LinkedUntil(states, steps, j - 1, id);
      assert Next(states[j - 1], steps[j - 1], states[j]);
      StepTable(states[j - 1], steps[j - 1], states[j], id);
      UnusedIsZero(states, steps, j - 1, id, dir);
      StepValue(states[j - 1], steps[j - 1], states[j], id, dir);
    }
  }

  /** Between drains, bytes are out of reach exactly when the key of their storage was taken away at some
      step and some bytes, added before or after that, were taken by no store. */
  lemma DroppedWhen(states: seq<State>, steps: seq<Step>, j: nat, id: nat, dir: Direction)
    requires Run(states, steps) && Initial(states[0]) && j < |states| && states[j].drain.Idle?
    ensures Dropped(states[j], id, dir) > 0 <==>
            && (exists i :: 0 <= i < j && Unlinks(states[i], steps[i], id))
            && Holds(states, steps, j, id, dir)
  {
    LinkedUntil(states, steps, j, id);
    ValueWhen(states, steps, j, id, dir);
    if id >= states[j].next {
      UnusedIsZero(states, steps, j, id, dir);
    }
  }

  /** Between drains, everything added to a counter is reported or pending exactly when no Add came between
      a load and its store, no drain left the storage without a user for what it held, and no step took
      away the key of the storage while it held bytes or received any later. */
  lemma NothingIsMissingWhen(states: seq<State>, steps: seq<Step>, j: nat, id: nat, dir: Direction)
    requires Run(states, steps) && Initial(states[0]) && j < |states| && states[j].drain.Idle?
    ensures Reported(states, steps, j, id, dir) + Pending(states[j], id, dir) == AddedBetween(steps, 0, j, id, dir) <==>
            && !(exists m :: 0 <= m < j && Wipes(states, steps, m, id, dir))
            && !(exists f :: 0 <= f < j && DiscardOf(states[f], steps[f], id, dir) > 0)
            && !((exists i :: 0 <= i < j && Unlinks(states[i], steps[i], id))
                 && Holds(states, steps, j, id, dir))
  {
    RunAccounts(states, steps, j, id, dir);
    LostWhen(states, steps, j, id, dir);
    DiscardedWhen(states, steps, j, id, dir);
    DroppedWhen(states, steps, j, id, dir);
  }

  // ----- deleted users -----

  /** A deletion puts the storage out of reach just when the drain is not at it. */
  lemma DeleteCutsOff(s: State, uuid: string, s': State)
    requires TableOk(s) && Next(s, Delete(uuid), s') && uuid in s.table
    ensures !Reachable(s', s.table[uuid]) <==> !(s.drain.AtKey? && s.drain.id == s.table[uuid])
  {
    StepTable(s, Delete(uuid), s', s.table[uuid]);
    assert Unlinks(s, Delete(uuid), s.table[uuid]);
  }

  /** No drain will ever get at the storage again. */
  ghost predicate CutOff(s: State, id: nat) {
    TableOk(s) && id < s.next && !Reachable(s, id)
  }

  lemma StepCutOff(s: State, e: Step, s': State, id: nat, dir: Direction)
    requires Next(s, e, s') && CutOff(s, id)
    ensures CutOff(s', id)
    ensures ValueOf(s', id, dir) == ValueOf(s, id, dir) + AddOf(e, id, dir) && ListOf(s, e, id, dir) == 0
  {
    StepTable(s, e, s', id);
    StepValue(s, e, s', id, dir);
    hide ValueOf;
  }

  /** Out of reach is for good: the counters keep what they have and collect what is still added, and
      nothing of it is ever reported. */
  lemma {:induction false} CutOffForGood(states: seq<State>, steps: seq<Step>, i: nat, j: nat, id: nat, dir: Direction)
    requires Run(states, steps) && i <= j < |states| && CutOff(states[i], id)
    ensures CutOff(states[j], id)
    ensures ValueOf(states[j], id, dir) == ValueOf(states[i], id, dir) + AddedBetween(steps, i, j, id, dir)
    ensures Reported(states, steps, j, id, dir) == Reported(states, steps, i, id, dir)
    decreases j - i
  {
    hide Next;
    hide CutOff;
    hide ValueOf;
    hide Reported;
    hide ListOf;
    if i == j {
      assert AddedBetween(steps, i, i, id, dir) == 0;
    } else {
      CutOffForGood(states, steps, i, j - 1, id, dir);
      StepCutOff(states[j - 1], steps[j - 1], states[j], id, dir);
      ReportedMore(states, steps, j, id, dir);
    }
  }

  lemma {:induction false} AddedApart(steps: seq<Step>, i: nat, j: nat, id: nat, dir: Direction)
    requires i < j <= |steps|
    ensures AddedBetween(steps, i, j, id, dir) == AddOf(steps[i], id, dir) + AddedBetween(steps, i + 1, j, id, dir)
    decreases j
  {
    if i + 1 == j {
      assert AddedBetween(steps, i, i, id, dir) == 0;
    } else {
      AddedApart(steps, i, j - 1, id, dir);
    }
  }

  /** Over every run, deleting a user while the drain is elsewhere drops what his counters hold and
      whatever an adder that has them still adds. */
  lemma DeleteDrops(states: seq<State>, steps: seq<Step>, i: nat, j: nat, dir: Direction)
    requires Run(states, steps) && Initial(states[0]) && i < j < |states|
    requires steps[i].Delete? && steps[i].uuid in states[i].table
    requires !(states[i].drain.AtKey? && states[i].drain.id == states[i].table[steps[i].uuid])
    ensures var id := states[i].table[steps[i].uuid];
            && Dropped(states[j], id, dir) == ValueOf(states[i], id, dir) + AddedBetween(steps, i, j, id, dir)
            && Reported(states, steps, j, id, dir) == Reported(states, steps, i, id, dir)
  {
    var id := states[i].table[steps[i].uuid];
    LinkedUntil(states, steps, i, id);
    assert Next(states[i], steps[i], states[i + 1]);
    DeleteCutsOff(states[i], steps[i].uuid, states[i + 1]);
    StepTable(states[i], steps[i], states[i + 1], id);
    StepValue(states[i], steps[i], states[i + 1], id, dir);
    ReportedMore(states, steps, i + 1, id, dir);
    CutOffForGood(states, steps, i + 1, j, id, dir);
    AddedApart(steps, i, j, id, dir);
  }

  // ----- bytes that are missing -----

  /** A deletion drops what was counted: five bytes are added, the user is deleted, and nothing is left
      for a drain to find. */
  lemma DeletedBytesAreDropped() returns (states: seq<State>, steps: seq<Step>)
    ensures Run(states, steps) && Initial(states[0]) && states[|steps|].drain.Idle?
    ensures steps == [Acquire("u"), Add(0, Up, 5), Delete("u")]
    ensures Dropped(states[|steps|], 0, Up) == 5 && Pending(states[|steps|], 0, Up) == 0
  {
    var s0 := State(map[], 0, map[], map["u" := 7], 0, Idle);
    var s1 := s0.(table := map["u" := 0], next := 1);
    var s2 := Put(s1, 0, Up, 5);
    var s3 := s2.(table := s2.table - {"u"});
    states, steps := [s0, s1, s2, s3], [Acquire("u"), Add(0, Up, 5), Delete("u")];
    assert Next(s0, steps[0], s1) && Next(s1, steps[1], s2) && Next(s2, steps[2], s3);
  }

  /** One storage with `n` bytes up. */
  function One(uids: map<string, int>, n: nat, d: Drain): State {
    State(map[(0, Up) := n], 1, map["u" := 0], uids, 0, d)
  }

  function AtU(up: Hand, down: Hand): Drain {
    AtKey({"u"}, [], "u", 0, up, down)
  }

  /** One drain of that storage, with `late` bytes added between the load and the store. */
  function DrainStep(late: nat, i: nat): Step {
    match i
    case 0 => Acquire("u")
    case 1 => Add(0, Up, 1)
    case 2 => Begin
    case 3 => Visit("u")
    case 4 => LoadUp
    case 5 => LoadDown
    case 6 => Add(0, Up, late)
    case 7 => StoreUp
    case 8 => StoreDown
    case 9 => Finish
    case _ => End
  }

  function DrainState(uids: map<string, int>, late: nat, i: nat): State {
    var s9 := Put(One(uids, 0, AtU(Taken(1), Taken(0))), 0, Down, 0);
    var s10 := if Over(s9) then Finished(s9) else s9;
    match i
    case 0 => State(map[], 0, map[], uids, 0, Idle)
    case 1 => State(map[], 1, map["u" := 0], uids, 0, Idle)
    case 2 => One(uids, 1, Idle)
    case 3 => One(uids, 1, Ranging({}, []))
    case 4 => One(uids, 1, AtU(Empty, Empty))
    case 5 => One(uids, 1, AtU(Loaded(1), Empty))
    case 6 => One(uids, 1, AtU(Loaded(1), Loaded(0)))
    case 7 => One(uids, 1 + late, AtU(Loaded(1), Loaded(0)))
    case 8 => One(uids, 0, AtU(Taken(1), Loaded(0)))
    case 9 => s9
    case 10 => s10
    case _ => s10.(drain := Idle)
  }

  lemma DrainLoads(uids: map<string, int>, late: nat, i: nat)
    requires i < 6
    ensures Next(DrainState(uids, late, i), DrainStep(late, i), DrainState(uids, late, i + 1))
  {
    assert {} + {"u"} == {"u"};
  }

  lemma DrainStores(uids: map<string, int>, late: nat, i: nat)
    requires 6 <= i < 11
    ensures Next(DrainState(uids, late, i), DrainStep(late, i), DrainState(uids, late, i + 1))
  {
    assert map[(0, Up) := 1 + late][(0, Up) := 0] == map[(0, Up) := 0];
  }

  lemma DrainOnce(uids: map<string, int>, late: nat) returns (states: seq<State>, steps: seq<Step>)
    ensures Run(states, steps) && Initial(states[0]) && |steps| == 11 && states[11].drain.Idle?
    ensures forall i :: 0 <= i < 11 ==> steps[i] == DrainStep(late, i)
    ensures forall i :: 0 <= i < 12 ==> states[i] == DrainState(uids, late, i)
  {
    states, steps := seq(12, i requires i >= 0 => DrainState(uids, late, i)), seq(11, i requires i >= 0 => DrainStep(late, i));
    assert Initial(states[0]) && states[11].drain.Idle?;
    hide Next;
    hide DrainState;
    hide DrainStep;
    forall i | 0 <= i < 11 ensures Next(states[i], steps[i], states[i + 1]) {
      if i < 6 {
        DrainLoads(uids, late, i);
      } else {
        DrainStores(uids, late, i);
      }
    }
  }

  lemma SlipsAt7(states: seq<State>, steps: seq<Step>)
    requires |steps| == 11 < |states| && steps[4] == DrainStep(1, 4) && steps[5] == DrainStep(1, 5)
    requires steps[6] == DrainStep(1, 6) && steps[7] == DrainStep(1, 7) && states[7] == DrainState(map["u" := 7], 1, 7)
    ensures Wipes(states, steps, 7, 0, Up)
  {
    assert Slips(states, steps, 4, 6, 7, 0, Up);
  }

  /** Without any deletion a byte added between the load and the store is lost. */
  lemma BytesCanGetLost() returns (states: seq<State>, steps: seq<Step>)
    ensures Run(states, steps) && Initial(states[0]) && states[|steps|].drain.Idle?
    ensures forall i :: 0 <= i < |steps| ==> !steps[i].Delete?
    ensures Lost(states, steps, |steps|, 0, Up) > 0
  {
    states, steps := DrainOnce(map["u" := 7], 1);
    assert forall i :: 0 <= i < |steps| ==> !steps[i].Delete?;
    hide DrainStep;
    hide DrainState;
    hide Run;
    hide Initial;
    hide Lost;
    SlipsAt7(states, steps);
    LostWhen(states, steps, |steps|, 0, Up);
  }

  /** A drain throws away what it took from a storage nobody is known for. */
  lemma BytesCanBeDiscarded() returns (states: seq<State>, steps: seq<Step>)
    ensures Run(states, steps) && Initial(states[0]) && states[|steps|].drain.Idle?
    ensures Discarded(states, steps, |steps|, 0, Up) > 0
  {
    states, steps := DrainOnce(map[], 0);
    hide Run;
    hide Initial;
    assert DiscardOf(states[9], steps[9], 0, Up) == 1;
    DiscardedWhen(states, steps, |steps|, 0, Up);
  }
}
