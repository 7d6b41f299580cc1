/** Several drains at once. The report task runs in one loop, but a reload may start a second loop of it while
    the first is in its Execute, and then two drains read the same counters. Each takes the steps of
    TrafficRace; in between the others take theirs. */
module TrafficDrains {
  import opened Panel
  import opened TrafficRace

  /** The state of TrafficRace and what every drain is at; the drain in `s` is the one that moved last. */
  datatype Joint = Joint(s: State, drains: map<nat, Drain>)

  datatype Turn = Turn(d: nat, e: Step)

  function DrainOf(j: Joint, d: nat): Drain {
    if d in j.drains then j.drains[d] else Idle
  }

  /** The state as drain `d` finds it. */
  function As(j: Joint, d: nat): State {
    j.s.(drain := DrainOf(j, d))
  }

  /** One drain, or somebody else, takes a step; the users change only while no drain runs. */
  ghost predicate NextTurn(j: Joint, t: Turn, j': Joint) {
    && Next(As(j, t.d), t.e, j'.s)
    && j'.drains == j.drains[t.d := j'.s.drain]
    && (t.e.SetUsers? ==> forall d :: DrainOf(j, d).Idle?)
  }

  ghost predicate InitialJoint(j: Joint) {
    j.s.counters == map[] && j.s.next == 0 && j.s.table == map[] && forall d :: DrainOf(j, d).Idle?
  }

  ghost predicate RunTurns(joints: seq<Joint>, turns: seq<Turn>) {
    && |joints| == |turns| + 1 && InitialJoint(joints[0])
    && forall i :: 0 <= i < |turns| ==> NextTurn(joints[i], turns[i], joints[i + 1])
  }

  lemma RunTurnsLength(joints: seq<Joint>, turns: seq<Turn>)
    requires RunTurns(joints, turns)
    ensures |joints| == |turns| + 1
  {
  }

  function Steps(turns: seq<Turn>): (steps: seq<Step>)
    ensures |steps| == |turns| && forall k :: 0 <= k < |turns| ==> steps[k] == turns[k].e
  {
    seq(|turns|, k requires 0 <= k < |turns| => turns[k].e)
  }

  /** Turn `k` stores zero into the counter. */
  predicate StoresIn(joints: seq<Joint>, turns: seq<Turn>, k: nat, id: nat, dir: Direction)
    requires k < |turns| < |joints|
  {
    StoresTo(As(joints[k], turns[k].d), turns[k].e, id, dir)
  }

  /** Right behind the last store into the counter before turn `j`. */
  function LastStore(joints: seq<Joint>, turns: seq<Turn>, j: nat, id: nat, dir: Direction): (i: nat)
    requires j <= |turns| < |joints|
    ensures i <= j
  {
    if j == 0 then 0
    else if StoresIn(joints, turns, j - 1, id, dir) then j
    else LastStore(joints, turns, j - 1, id, dir)
  }

  ghost predicate NoStore(joints: seq<Joint>, turns: seq<Turn>, i: nat, j: nat, id: nat, dir: Direction)
    requires j <= |turns| < |joints|
  {
    forall k: nat :: i <= k < j ==> !StoresIn(joints, turns, k, id, dir)
  }

  lemma {:induction false} LastStoreFacts(joints: seq<Joint>, turns: seq<Turn>, j: nat, id: nat, dir: Direction)
    requires j <= |turns| < |joints|
    ensures var i := LastStore(joints, turns, j, id, dir);
            (i > 0 ==> StoresIn(joints, turns, i - 1, id, dir)) && NoStore(joints, turns, i, j, id, dir)
  {
    hide StoresIn;
    if j == 0 {
    } else {
      LastStoreFacts(joints, turns, j - 1, id, dir);
    }
  }

  /** Right behind the last load of a drain before turn `j`. */
  function LastLoadOf(turns: seq<Turn>, j: nat, d: nat, dir: Direction): (i: nat)
    requires j <= |turns|
    ensures i <= j
  {
    if j == 0 then 0 else if turns[j - 1] == Turn(d, LoadOf(dir)) then j else LastLoadOf(turns, j - 1, d, dir)
  }

  lemma {:induction false} LastLoadIsLoad(turns: seq<Turn>, j: nat, d: nat, dir: Direction)
    requires j <= |turns|
    ensures var i := LastLoadOf(turns, j, d, dir);
            i > 0 ==> turns[i - 1] == Turn(d, LoadOf(dir))
  {
    hide LoadOf;
    if j == 0 {
    } else {
      LastLoadIsLoad(turns, j - 1, d, dir);
    }
  }

  lemma {:induction false} LastLoadIsLast(turns: seq<Turn>, j: nat, d: nat, dir: Direction, k: nat)
    requires j <= |turns| && LastLoadOf(turns, j, d, dir) <= k < j
    ensures turns[k] != Turn(d, LoadOf(dir))
  {
    hide LoadOf;
    if k < j - 1 {
      LastLoadIsLast(turns, j - 1, d, dir, k);
    }
  }

  /** What a load at turn `l` finds: the bytes added since the last store. */
  function Found(joints: seq<Joint>, turns: seq<Turn>, l: nat, id: nat, dir: Direction): nat
    requires l <= |turns| < |joints|
  {
    AddedBetween(Steps(turns), LastStore(joints, turns, l, id, dir), l, id, dir)
  }

  lemma {:induction false} ValueIsFound(joints: seq<Joint>, turns: seq<Turn>, j: nat, id: nat, dir: Direction)
    requires RunTurns(joints, turns) && j < |joints|
    ensures ValueOf(joints[j].s, id, dir) == Found(joints, turns, j, id, dir)
    decreases j
  {
    if j == 0 {
    } else {
      ValueIsFound(joints, turns, j - 1, id, dir);
      assert NextTurn(joints[j - 1], turns[j - 1], joints[j]);
      StepValue(As(joints[j - 1], turns[j - 1].d), turns[j - 1].e, joints[j].s, id, dir);
      hide Next;
    }
  }

  /** What a step does to the hand of the drain that takes it. */
  lemma StepOwnHand(s: State, e: Step, s': State, id: nat, dir: Direction)
    requires Next(s, e, s')
    ensures var h, h' := HandOf(s.drain, id, dir), HandOf(s'.drain, id, dir);
            && (!h'.Empty? ==> e != Finish && if e == LoadOf(dir) then h' == Loaded(ValueOf(s, id, dir)) else !h.Empty? && h'.n == h.n)
            && (h'.Taken? ==> h.Taken? || StoresTo(s, e, id, dir))
  {
  }

  /** Some turn from `i` on and before `j` is a store of this drain into the counter. */
  ghost predicate HasStored(joints: seq<Joint>, turns: seq<Turn>, i: nat, j: nat, d: nat, id: nat, dir: Direction)
    requires i <= j <= |turns| < |joints|
  {
    exists m: nat :: i <= m < j && turns[m].d == d && StoresIn(joints, turns, m, id, dir)
  }

  lemma StoredMore(joints: seq<Joint>, turns: seq<Turn>, i: nat, j: nat, d: nat, id: nat, dir: Direction)
    requires i <= j < |turns| < |joints|
    ensures HasStored(joints, turns, i, j, d, id, dir) ==> HasStored(joints, turns, i, j + 1, d, id, dir)
    ensures turns[j].d == d && StoresIn(joints, turns, j, id, dir) ==> HasStored(joints, turns, i, j + 1, d, id, dir)
  {
    hide StoresIn;
  }

  /** The drain ends no visit from turn `i` on and before turn `j`. */
  ghost predicate NoFinish(turns: seq<Turn>, i: nat, j: nat, d: nat)
    requires i <= j <= |turns|
  {
    forall k :: i <= k < j ==> turns[k] != Turn(d, Finish)
  }

  lemma NoFinishMore(turns: seq<Turn>, i: nat, j: nat, d: nat)
    requires i <= j < |turns|
    ensures NoFinish(turns, i, j + 1, d) <==> NoFinish(turns, i, j, d) && turns[j] != Turn(d, Finish)
    ensures NoFinish(turns, j + 1, j + 1, d)
  {
  }

  lemma LastLoadMore(turns: seq<Turn>, j: nat, d: nat, dir: Direction)
    requires j < |turns|
    ensures LastLoadOf(turns, j + 1, d, dir) == if turns[j] == Turn(d, LoadOf(dir)) then j + 1 else LastLoadOf(turns, j, d, dir)
  {
  }

  /** What a drain has in its hand: what its last load found, with no end of the visit since; and if the hand
      is taken, its own store since. */
  ghost predicate HandIsFound(joints: seq<Joint>, turns: seq<Turn>, j: nat, d: nat, id: nat, dir: Direction)
    requires j <= |turns| < |joints|
  {
    var h, i := HandOf(DrainOf(joints[j], d), id, dir), LastLoadOf(turns, j, d, dir);
    && (!h.Empty? ==> i > 0 && h.n == Found(joints, turns, i - 1, id, dir) && NoFinish(turns, i, j, d))
    && (h.Taken? ==> HasStored(joints, turns, i, j, d, id, dir))
  }

  /** What turn `j` does to the hand of a drain. */
  ghost predicate HandTurn(joints: seq<Joint>, turns: seq<Turn>, j: nat, d: nat, id: nat, dir: Direction)
    requires j < |turns| && |turns| + 1 == |joints|
  {
    var h, h' := HandOf(DrainOf(joints[j], d), id, dir), HandOf(DrainOf(joints[j + 1], d), id, dir);
    if turns[j].d != d then h' == h
    else
      && (!h'.Empty? ==>
            && turns[j].e != Finish
            && if turns[j].e == LoadOf(dir) then h' == Loaded(Found(joints, turns, j, id, dir)) else !h.Empty? && h'.n == h.n)
      && (h'.Taken? ==> h.Taken? || StoresIn(joints, turns, j, id, dir))
  }

  lemma TurnMovesHand(joints: seq<Joint>, turns: seq<Turn>, j: nat, d: nat, id: nat, dir: Direction)
    requires RunTurns(joints, turns) && j < |turns|
    ensures HandTurn(joints, turns, j, d, id, dir)
  {
    ValueIsFound(joints, turns, j, id, dir);
    assert NextTurn(joints[j], turns[j], joints[j + 1]);
    hide RunTurns;
    hide Found;
    if turns[j].d == d {
      var s := As(joints[j], d);
      assert ValueOf(s, id, dir) == ValueOf(joints[j].s, id, dir);
      assert DrainOf(joints[j + 1], d) == joints[j + 1].s.drain;
      StepOwnHand(s, turns[j].e, joints[j + 1].s, id, dir);
    }
    hide Next;
    hide HandOf;
    hide ValueOf;
  }

  lemma HandKept(joints: seq<Joint>, turns: seq<Turn>, j: nat, d: nat, id: nat, dir: Direction)
    requires j < |turns| && |turns| + 1 == |joints|
    requires HandIsFound(joints, turns, j, d, id, dir) && HandTurn(joints, turns, j, d, id, dir)
    ensures HandIsFound(joints, turns, j + 1, d, id, dir)
  {
    hide Found;
    hide NoFinish;
    hide HasStored;
    hide HandOf;
    hide LastLoadOf;
    hide StoresIn;
    hide DrainOf;
    hide LoadOf;
    var i := LastLoadOf(turns, j, d, dir);
    LastLoadMore(turns, j, d, dir);
    NoFinishMore(turns, i, j, d);
    StoredMore(joints, turns, i, j, d, id, dir);
  }

  lemma {:induction false} RunHand(joints: seq<Joint>, turns: seq<Turn>, j: nat, d: nat, id: nat, dir: Direction)
    requires RunTurns(joints, turns) && j < |joints|
    ensures HandIsFound(joints, turns, j, d, id, dir)
    decreases j
  {
    hide NextTurn;
    if j == 0 {
      hide Found;
    } else {
      hide HandIsFound;
      hide HandTurn;
      RunHand(joints, turns, j - 1, d, id, dir);
      TurnMovesHand(joints, turns, j - 1, d, id, dir);
      HandKept(joints, turns, j - 1, d, id, dir);
    }
  }

  // ----- what an entry holds -----

  /** Turn `f` ends a visit of the storage and lists what it took. */
  predicate Lists(joints: seq<Joint>, turns: seq<Turn>, f: nat, id: nat)
    requires f < |turns| < |joints|
  {
    var s := As(joints[f], turns[f].d);
    Leaves(s, turns[f].e, id) && UidOf(s, s.drain.uuid) != 0
  }

  /** When the drain of turn `f` loaded what it lists; right behind it. */
  function LoadedAtTurn(turns: seq<Turn>, f: nat, dir: Direction): nat
    requires f < |turns|
  {
    LastLoadOf(turns, f, turns[f].d, dir)
  }

  /** The entry listed at turn `f` holds what turn `k` added: there was no store between `k` and the load. */
  ghost predicate Sees(joints: seq<Joint>, turns: seq<Turn>, f: nat, k: nat, id: nat, dir: Direction)
    requires f < |turns| < |joints|
  {
    var l := LoadedAtTurn(turns, f, dir);
    Lists(joints, turns, f, id) && l > 0 && LastStore(joints, turns, l - 1, id, dir) <= k < l - 1
  }

  /** What turn `f` lists. */
  function ListedAt(joints: seq<Joint>, turns: seq<Turn>, f: nat, id: nat, dir: Direction): nat
    requires f < |turns| < |joints|
  {
    ListOf(As(joints[f], turns[f].d), turns[f].e, id, dir)
  }

  lemma FinishIsTaken(s: State, e: Step, s': State, id: nat, dir: Direction)
    requires Next(s, e, s') && Leaves(s, e, id)
    ensures HandOf(s.drain, id, dir).Taken?
  {
  }

  lemma EntryIsHand(joints: seq<Joint>, turns: seq<Turn>, f: nat, id: nat, dir: Direction)
    requires RunTurns(joints, turns) && f < |turns| && Lists(joints, turns, f, id)
    ensures var h := HandOf(DrainOf(joints[f], turns[f].d), id, dir);
            h.Taken? && ListedAt(joints, turns, f, id, dir) == h.n
  {
    assert NextTurn(joints[f], turns[f], joints[f + 1]);
    FinishIsTaken(As(joints[f], turns[f].d), turns[f].e, joints[f + 1].s, id, dir);
    hide Next;
  }

  lemma EntryFromHand(joints: seq<Joint>, turns: seq<Turn>, f: nat, id: nat, dir: Direction)
    requires f < |turns| < |joints| && HandIsFound(joints, turns, f, turns[f].d, id, dir)
    requires HandOf(DrainOf(joints[f], turns[f].d), id, dir).Taken?
    requires ListedAt(joints, turns, f, id, dir) == HandOf(DrainOf(joints[f], turns[f].d), id, dir).n
    ensures var l := LoadedAtTurn(turns, f, dir);
            && 0 < l <= f
            && ListedAt(joints, turns, f, id, dir) == Found(joints, turns, l - 1, id, dir)
            && HasStored(joints, turns, l, f, turns[f].d, id, dir)
            && NoFinish(turns, l, f, turns[f].d)
  {
    hide ListedAt;
    hide HandOf;
    hide DrainOf;
    hide LastLoadOf;
    hide Found;
    hide HasStored;
    hide NoFinish;
  }

  /** An entry holds exactly the bytes it sees: the sum of what was added between the last store before its
      load and that load. Its drain has stored since, and not ended the visit. */
  lemma EntryHolds(joints: seq<Joint>, turns: seq<Turn>, f: nat, id: nat, dir: Direction)
    requires RunTurns(joints, turns) && f < |turns| && Lists(joints, turns, f, id)
    ensures var l := LoadedAtTurn(turns, f, dir);
            && 0 < l <= f && turns[l - 1] == Turn(turns[f].d, LoadOf(dir))
            && ListedAt(joints, turns, f, id, dir) == Found(joints, turns, l - 1, id, dir)
            && HasStored(joints, turns, l, f, turns[f].d, id, dir)
            && NoFinish(turns, l, f, turns[f].d)
  {
    RunTurnsLength(joints, turns);
    EntryIsHand(joints, turns, f, id, dir);
    RunHand(joints, turns, f, turns[f].d, id, dir);
    LastLoadIsLoad(turns, f, turns[f].d, dir);
    hide RunTurns;
    hide HandIsFound;
    hide Lists;
    hide ListedAt;
    hide HandOf;
    hide Found;
    hide HasStored;
    hide NoFinish;
    EntryFromHand(joints, turns, f, id, dir);
  }

  // ----- when bytes are listed twice -----

  /** Two entries hold bytes that one turn added. */
  ghost predicate Twice(joints: seq<Joint>, turns: seq<Turn>, f: nat, g: nat, id: nat, dir: Direction)
    requires f < |turns| < |joints| && g < |turns|
  {
    f != g && exists k: nat :: k < |turns| && AddOf(turns[k].e, id, dir) > 0
                               && Sees(joints, turns, f, k, id, dir) && Sees(joints, turns, g, k, id, dir)
  }

  /** The visit of `g` loads after the visit of `f` has loaded some bytes, with no store in between. */
  ghost predicate Overlaps(joints: seq<Joint>, turns: seq<Turn>, f: nat, g: nat, id: nat, dir: Direction)
    requires f < |turns| < |joints| && g < |turns|
  {
    var l, m := LoadedAtTurn(turns, f, dir), LoadedAtTurn(turns, g, dir);
    && Lists(joints, turns, f, id) && Lists(joints, turns, g, id)
    && 0 < l < m <= |turns| && ListedAt(joints, turns, f, id, dir) > 0
    && NoStore(joints, turns, l, m - 1, id, dir)
  }

  lemma FoundWhen(joints: seq<Joint>, turns: seq<Turn>, l: nat, id: nat, dir: Direction)
    requires l <= |turns| < |joints|
    ensures Found(joints, turns, l, id, dir) > 0 <==>
            exists k: nat :: LastStore(joints, turns, l, id, dir) <= k < l && AddOf(turns[k].e, id, dir) > 0
  {
    var p := LastStore(joints, turns, l, id, dir);
    AddedWhen(Steps(turns), p, l, id, dir);
    hide AddOf;
    hide LastStore;
    if Found(joints, turns, l, id, dir) > 0 {
      var k :| p <= k < l && AddOf(Steps(turns)[k], id, dir) > 0;
      assert AddOf(turns[k].e, id, dir) > 0;
    }
    if k: nat :| p <= k < l && AddOf(turns[k].e, id, dir) > 0 {
      assert AddOf(Steps(turns)[k], id, dir) > 0;
    }
  }

  /** The last store before `b` is not behind `a` just when there is none from `a` on; then it is the last one
      before `a`. */
  lemma StoreFree(joints: seq<Joint>, turns: seq<Turn>, a: nat, b: nat, id: nat, dir: Direction)
    requires a <= b <= |turns| < |joints|
    ensures NoStore(joints, turns, a, b, id, dir) <==> LastStore(joints, turns, b, id, dir) <= a
    ensures NoStore(joints, turns, a, b, id, dir) ==>
              LastStore(joints, turns, b, id, dir) == LastStore(joints, turns, a, id, dir)
  {
    var p, q := LastStore(joints, turns, a, id, dir), LastStore(joints, turns, b, id, dir);
    LastStoreFacts(joints, turns, a, id, dir);
    LastStoreFacts(joints, turns, b, id, dir);
    hide StoresIn;
    hide LastStore;
  }

  /** Two loads, at turns `a` and `b`, find bytes that one turn added. */
  ghost predicate FindBoth(joints: seq<Joint>, turns: seq<Turn>, a: nat, b: nat, k: nat, id: nat, dir: Direction)
    requires a < |turns| < |joints| && b < |turns|
  {
    && LastStore(joints, turns, a, id, dir) <= k < a && LastStore(joints, turns, b, id, dir) <= k < b
    && AddOf(turns[k].e, id, dir) > 0
  }

  lemma LoadsMeet(joints: seq<Joint>, turns: seq<Turn>, a: nat, b: nat, id: nat, dir: Direction)
    requires a < b < |turns| < |joints| && !StoresIn(joints, turns, a, id, dir)
    ensures Found(joints, turns, a, id, dir) > 0 && NoStore(joints, turns, a + 1, b, id, dir) <==>
            exists k: nat :: FindBoth(joints, turns, a, b, k, id, dir)
  {
    FoundWhen(joints, turns, a, id, dir);
    StoreFree(joints, turns, a, b, id, dir);
    assert NoStore(joints, turns, a, b, id, dir) <==> NoStore(joints, turns, a + 1, b, id, dir);
    hide StoresIn;
    hide AddOf;
    hide Found;
    hide NoStore;
    if Found(joints, turns, a, id, dir) > 0 && NoStore(joints, turns, a + 1, b, id, dir) {
      var k: nat :| LastStore(joints, turns, a, id, dir) <= k < a && AddOf(turns[k].e, id, dir) > 0;
      assert FindBoth(joints, turns, a, b, k, id, dir);
    }
  }

  lemma LoadIsNoStore(joints: seq<Joint>, turns: seq<Turn>, k: nat, id: nat, dir: Direction)
    requires k < |turns| < |joints| && turns[k].e == LoadOf(dir)
    ensures !StoresIn(joints, turns, k, id, dir)
  {
  }

  lemma ListsIsFinish(joints: seq<Joint>, turns: seq<Turn>, f: nat, id: nat)
    requires f < |turns| < |joints| && Lists(joints, turns, f, id)
    ensures turns[f] == Turn(turns[f].d, Finish)
  {
  }

  /** A drain that ended a visit at turn `f` has loaded anew for the one it ends at turn `g`. */
  lemma LoadsApart(turns: seq<Turn>, f: nat, g: nat, l: nat)
    requires 0 < l <= f < g < |turns| && turns[l - 1].d == turns[f].d && turns[f] == Turn(turns[f].d, Finish)
    requires NoFinish(turns, l, g, turns[g].d)
    ensures turns[l - 1].d != turns[g].d
  {
  }

  /** No two visits share a load. */
  lemma LoadsDiffer(joints: seq<Joint>, turns: seq<Turn>, f: nat, g: nat, id: nat, dir: Direction)
    requires RunTurns(joints, turns) && f < g < |turns| && Lists(joints, turns, f, id) && Lists(joints, turns, g, id)
    ensures LoadedAtTurn(turns, f, dir) != LoadedAtTurn(turns, g, dir)
  {
    RunTurnsLength(joints, turns);
    hide RunTurns;
    hide LoadedAtTurn;
    hide Found;
    hide ListedAt;
    hide HasStored;
    hide NoFinish;
    EntryHolds(joints, turns, f, id, dir);
    EntryHolds(joints, turns, g, id, dir);
    ListsIsFinish(joints, turns, f, id);
    hide Lists;
    var l := LoadedAtTurn(turns, f, dir);
    if l == LoadedAtTurn(turns, g, dir) {
      LoadsApart(turns, f, g, l);
    }
  }

  /** What it means for two entries to see the same bytes, by the turns of their loads. */
  lemma TwiceIsFindBoth(joints: seq<Joint>, turns: seq<Turn>, f: nat, g: nat, a: nat, b: nat, id: nat, dir: Direction)
    requires f < |turns| < |joints| && g < |turns| && a < |turns| && b < |turns|
    requires LoadedAtTurn(turns, f, dir) == a + 1 && LoadedAtTurn(turns, g, dir) == b + 1
    ensures Twice(joints, turns, f, g, id, dir) <==>
            && f != g && Lists(joints, turns, f, id) && Lists(joints, turns, g, id)
            && exists k: nat :: FindBoth(joints, turns, a, b, k, id, dir)
  {
    hide LoadedAtTurn;
    hide LastStore;
    hide AddOf;
    hide Lists;
    if Twice(joints, turns, f, g, id, dir) {
      var k: nat :| k < |turns| && AddOf(turns[k].e, id, dir) > 0
                    && Sees(joints, turns, f, k, id, dir) && Sees(joints, turns, g, k, id, dir);
      assert FindBoth(joints, turns, a, b, k, id, dir);
    }
    if k: nat :| FindBoth(joints, turns, a, b, k, id, dir) && Lists(joints, turns, f, id) && Lists(joints, turns, g, id) {
      assert Sees(joints, turns, f, k, id, dir) && Sees(joints, turns, g, k, id, dir);
    }
  }

  lemma OverlapsByLoads(joints: seq<Joint>, turns: seq<Turn>, f: nat, g: nat, a: nat, b: nat, id: nat, dir: Direction)
    requires f < |turns| < |joints| && g < |turns| && a < b < |turns|
    requires LoadedAtTurn(turns, f, dir) == a + 1 && LoadedAtTurn(turns, g, dir) == b + 1
    requires ListedAt(joints, turns, f, id, dir) == Found(joints, turns, a, id, dir)
    ensures Overlaps(joints, turns, f, g, id, dir) <==>
            && Lists(joints, turns, f, id) && Lists(joints, turns, g, id)
            && Found(joints, turns, a, id, dir) > 0 && NoStore(joints, turns, a + 1, b, id, dir)
  {
    hide LoadedAtTurn;
    hide ListedAt;
    hide Found;
    hide Lists;
    hide NoStore;
  }

  /** The turn of the load an entry comes from, and what the entry holds. */
  lemma EntryLoad(joints: seq<Joint>, turns: seq<Turn>, f: nat, id: nat, dir: Direction) returns (a: nat)
    requires RunTurns(joints, turns) && f < |turns| && Lists(joints, turns, f, id)
    ensures a < |turns| < |joints| && LoadedAtTurn(turns, f, dir) == a + 1
    ensures ListedAt(joints, turns, f, id, dir) == Found(joints, turns, a, id, dir)
    ensures !StoresIn(joints, turns, a, id, dir)
  {
    RunTurnsLength(joints, turns);
    EntryHolds(joints, turns, f, id, dir);
    a := LoadedAtTurn(turns, f, dir) - 1;
    LoadIsNoStore(joints, turns, a, id, dir);
  }

  lemma TwiceInOrder(joints: seq<Joint>, turns: seq<Turn>, f: nat, g: nat, a: nat, b: nat, id: nat, dir: Direction)
    requires f < |turns| < |joints| && g < |turns| && f != g && a < b < |turns|
    requires Lists(joints, turns, f, id) && Lists(joints, turns, g, id)
    requires LoadedAtTurn(turns, f, dir) == a + 1 && LoadedAtTurn(turns, g, dir) == b + 1
    requires ListedAt(joints, turns, f, id, dir) == Found(joints, turns, a, id, dir) && !StoresIn(joints, turns, a, id, dir)
    ensures Twice(joints, turns, f, g, id, dir) <==> Overlaps(joints, turns, f, g, id, dir)
  {
    hide Lists;
    hide LoadedAtTurn;
    hide Twice;
    hide Overlaps;
    hide Found;
    hide ListedAt;
    hide NoStore;
    hide StoresIn;
    hide FindBoth;
    OverlapsByLoads(joints, turns, f, g, a, b, id, dir);
    LoadsMeet(joints, turns, a, b, id, dir);
    TwiceIsFindBoth(joints, turns, f, g, a, b, id, dir);
  }

  lemma TwiceEitherWay(joints: seq<Joint>, turns: seq<Turn>, f: nat, g: nat, id: nat, dir: Direction)
    requires f < |turns| < |joints| && g < |turns|
    ensures Twice(joints, turns, f, g, id, dir) <==> Twice(joints, turns, g, f, id, dir)
  {
    hide Sees;
    hide AddOf;
  }

  lemma TwiceLists(joints: seq<Joint>, turns: seq<Turn>, f: nat, g: nat, id: nat, dir: Direction)
    requires f < |turns| < |joints| && g < |turns|
    ensures Twice(joints, turns, f, g, id, dir) ==> f != g && Lists(joints, turns, f, id) && Lists(joints, turns, g, id)
    ensures Overlaps(joints, turns, f, g, id, dir) ==>
              && Lists(joints, turns, f, id) && Lists(joints, turns, g, id)
              && LoadedAtTurn(turns, f, dir) < LoadedAtTurn(turns, g, dir)
  {
    hide Lists;
    hide LoadedAtTurn;
    hide LastStore;
    hide AddOf;
  }

  /** Over every interleaving of any number of drains, two entries hold the same bytes exactly when one visit
      loads them after the other has, with no store in between. */
  lemma TwiceWhen(joints: seq<Joint>, turns: seq<Turn>, f: nat, g: nat, id: nat, dir: Direction)
    requires RunTurns(joints, turns) && f < |turns| && g < |turns|
    ensures Twice(joints, turns, f, g, id, dir) <==>
            Overlaps(joints, turns, f, g, id, dir) || Overlaps(joints, turns, g, f, id, dir)
  {
    RunTurnsLength(joints, turns);
    hide RunTurns;
    hide Twice;
    hide Overlaps;
    hide LoadedAtTurn;
    hide Lists;
    TwiceLists(joints, turns, f, g, id, dir);
    TwiceLists(joints, turns, g, f, id, dir);
    if f != g && Lists(joints, turns, f, id) && Lists(joints, turns, g, id) {
      var a := EntryLoad(joints, turns, f, id, dir);
      var b := EntryLoad(joints, turns, g, id, dir);
      if f < g {
        LoadsDiffer(joints, turns, f, g, id, dir);
      } else {
        LoadsDiffer(joints, turns, g, f, id, dir);
      }
      hide Found;
      hide ListedAt;
      hide StoresIn;
      if a < b {
        TwiceInOrder(joints, turns, f, g, a, b, id, dir);
      } else {
        TwiceInOrder(joints, turns, g, f, b, a, id, dir);
        TwiceEitherWay(joints, turns, f, g, id, dir);
      }
    }
  }

  lemma StoredLater(joints: seq<Joint>, turns: seq<Turn>, l: nat, m: nat, f: nat, d: nat, id: nat, dir: Direction)
    requires 0 < l < m <= |turns| < |joints| && l <= f <= |turns|
    requires NoStore(joints, turns, l, m - 1, id, dir) && !StoresIn(joints, turns, m - 1, id, dir)
    requires HasStored(joints, turns, l, f, d, id, dir)
    ensures m <= f && HasStored(joints, turns, m, f, d, id, dir)
  {
    hide StoresIn;
    var i: nat :| l <= i < f && turns[i].d == d && StoresIn(joints, turns, i, id, dir);
    assert m <= i;
  }

  lemma LaterLoader(turns: seq<Turn>, m: nat, f: nat, d: nat, dir: Direction)
    requires f < |turns| && LoadedAtTurn(turns, f, dir) < m <= f && turns[m - 1] == Turn(d, LoadOf(dir))
    ensures turns[f].d != d
  {
    LastLoadIsLast(turns, f, turns[f].d, dir, m - 1);
  }

  /** The loads of overlapping visits. */
  lemma OverlapLoads(joints: seq<Joint>, turns: seq<Turn>, f: nat, g: nat, id: nat, dir: Direction) returns (l: nat, m: nat)
    requires f < |turns| < |joints| && g < |turns| && Overlaps(joints, turns, f, g, id, dir)
    ensures l == LoadedAtTurn(turns, f, dir) && m == LoadedAtTurn(turns, g, dir) && 0 < l < m <= |turns|
    ensures NoStore(joints, turns, l, m - 1, id, dir) && !StoresIn(joints, turns, m - 1, id, dir)
    ensures turns[m - 1] == Turn(turns[g].d, LoadOf(dir))
  {
    l, m := LoadedAtTurn(turns, f, dir), LoadedAtTurn(turns, g, dir);
    LastLoadIsLoad(turns, g, turns[g].d, dir);
    LoadIsNoStore(joints, turns, m - 1, id, dir);
  }

  lemma EntryStored(joints: seq<Joint>, turns: seq<Turn>, f: nat, g: nat, id: nat, dir: Direction)
    requires RunTurns(joints, turns) && f < |turns| && g < |turns| && Overlaps(joints, turns, f, g, id, dir)
    ensures var l := LoadedAtTurn(turns, f, dir);
            0 < l <= f && HasStored(joints, turns, l, f, turns[f].d, id, dir)
  {
    EntryHolds(joints, turns, f, id, dir);
  }

  /** So that takes two drains: the second loads between the load and the store of the first. */
  lemma OverlapTakesTwo(joints: seq<Joint>, turns: seq<Turn>, f: nat, g: nat, id: nat, dir: Direction)
    requires RunTurns(joints, turns) && f < |turns| && g < |turns| && Overlaps(joints, turns, f, g, id, dir)
    ensures var m := LoadedAtTurn(turns, g, dir);
            && turns[f].d != turns[g].d
            && m <= f && HasStored(joints, turns, m, f, turns[f].d, id, dir)
  {
    RunTurnsLength(joints, turns);
    EntryStored(joints, turns, f, g, id, dir);
    var l, m := OverlapLoads(joints, turns, f, g, id, dir);
    hide RunTurns;
    hide Overlaps;
    hide LoadedAtTurn;
    hide HasStored;
    hide NoStore;
    hide StoresIn;
    StoredLater(joints, turns, l, m, f, turns[f].d, id, dir);
    LaterLoader(turns, m, f, turns[g].d, dir);
  }

  /** What an entry holds is what its drain appends to its slice. */
  lemma EntryIsAppended(joints: seq<Joint>, turns: seq<Turn>, f: nat, id: nat)
    requires RunTurns(joints, turns) && f < |turns| && Lists(joints, turns, f, id)
    ensures var d := turns[f].d;
            exists uid :: uid != 0 && SliceOf(DrainOf(joints[f + 1], d)) == SliceOf(DrainOf(joints[f], d)) +
              [UserTraffic(uid, ListedAt(joints, turns, f, id, Up), ListedAt(joints, turns, f, id, Down))]
  {
    var s, d := As(joints[f], turns[f].d), turns[f].d;
    assert NextTurn(joints[f], turns[f], joints[f + 1]);
    assert DrainOf(joints[f + 1], d) == joints[f + 1].s.drain;
    StepSlice(s, turns[f].e, joints[f + 1].s);
    hide Next;
    var p := EntryOf(s, turns[f].e)[0];
    assert Entries(EntryOf(s, turns[f].e)) == [p.1];
    assert [] + SliceOf(joints[f + 1].s.drain) == SliceOf(joints[f + 1].s.drain);
    assert p.1.uid != 0 && p.1 == UserTraffic(p.1.uid, ListedAt(joints, turns, f, id, Up), ListedAt(joints, turns, f, id, Down));
  }

  // ----- a byte that is listed twice -----

  /** Two drains that take turns at one storage with one byte: both load before either stores. */
  function TwoTurn(i: nat): Turn {
    match i
    case 0 => Turn(0, Acquire("u"))
    case 1 => Turn(0, Add(0, Up, 1))
    case 2 => Turn(0, Begin)
    case 3 => Turn(1, Begin)
    case 4 => Turn(0, Visit("u"))
    case 5 => Turn(1, Visit("u"))
    case 6 => Turn(0, LoadUp)
    case 7 => Turn(0, LoadDown)
    case 8 => Turn(1, LoadUp)
    case 9 => Turn(1, LoadDown)
    case 10 => Turn(0, StoreUp)
    case 11 => Turn(0, StoreDown)
    case 12 => Turn(0, Finish)
    case 13 => Turn(1, StoreUp)
    case 14 => Turn(1, StoreDown)
    case _ => Turn(1, Finish)
  }

  const LISTED := Ranging({"u"}, [UserTraffic(7, 1, 0)])

  function FirstDrain(i: nat): Drain {
    if i <= 2 then Idle
    else if i <= 4 then Ranging({}, [])
    else if i <= 6 then AtU(Empty, Empty)
    else if i == 7 then AtU(Loaded(1), Empty)
    else if i <= 10 then AtU(Loaded(1), Loaded(0))
    else if i == 11 then AtU(Taken(1), Loaded(0))
    else if i == 12 then AtU(Taken(1), Taken(0))
    else LISTED
  }

  function SecondDrain(i: nat): Drain {
    if i <= 3 then Idle
    else if i <= 5 then Ranging({}, [])
    else if i <= 8 then AtU(Empty, Empty)
    else if i == 9 then AtU(Loaded(1), Empty)
    else if i <= 13 then AtU(Loaded(1), Loaded(0))
    else if i == 14 then AtU(Taken(1), Loaded(0))
    else if i == 15 then AtU(Taken(1), Taken(0))
    else LISTED
  }

  function TwoState(i: nat): State {
    var counters: map<(nat, Direction), nat> :=
      if i <= 1 then map[] else if i <= 10 then map[(0, Up) := 1] else if i == 11 then map[(0, Up) := 0]
      else map[(0, Up) := 0, (0, Down) := 0];
    var mover := if i > 0 && TwoTurn(i - 1).d == 1 then SecondDrain(i) else FirstDrain(i);
    State(counters, if i == 0 then 0 else 1, if i == 0 then map[] else map["u" := 0], map["u" := 7], 0, mover)
  }

  function TwoJoint(i: nat): Joint {
    Joint(TwoState(i), map[0 := FirstDrain(i), 1 := SecondDrain(i)])
  }

  lemma TwoMove(i: nat)
    requires i < 16
    ensures if TwoTurn(i).d == 0 then SecondDrain(i + 1) == SecondDrain(i) else FirstDrain(i + 1) == FirstDrain(i)
    ensures TwoTurn(i).d == 0 || TwoTurn(i).d == 1
  {
  }

  lemma TwoDrains(i: nat)
    requires i < 16
    ensures TwoJoint(i + 1).drains == TwoJoint(i).drains[TwoTurn(i).d := TwoState(i + 1).drain]
    ensures TwoTurn(i).d == 0 ==> As(TwoJoint(i), 0) == TwoState(i).(drain := FirstDrain(i))
    ensures TwoTurn(i).d == 1 ==> As(TwoJoint(i), 1) == TwoState(i).(drain := SecondDrain(i))
  {
    TwoMove(i);
    hide FirstDrain;
    hide SecondDrain;
    hide TwoTurn;
  }

  lemma TwoBegin(i: nat)
    requires i < 6
    ensures var s := if TwoTurn(i).d == 0 then FirstDrain(i) else SecondDrain(i);
            Next(TwoState(i).(drain := s), TwoTurn(i).e, TwoState(i + 1))
  {
    assert {} + {"u"} == {"u"};
  }

  lemma TwoLoad(i: nat)
    requires 6 <= i < 10
    ensures var s := if TwoTurn(i).d == 0 then FirstDrain(i) else SecondDrain(i);
            Next(TwoState(i).(drain := s), TwoTurn(i).e, TwoState(i + 1))
  {
  }

  lemma TwoFirstEnds(i: nat)
    requires 10 <= i < 13
    ensures Next(TwoState(i).(drain := FirstDrain(i)), TwoTurn(i).e, TwoState(i + 1))
  {
    assert map[(0, Up) := 1][(0, Up) := 0] == map[(0, Up) := 0];
    assert [] + [UserTraffic(7, 1, 0)] == [UserTraffic(7, 1, 0)];
  }

  lemma TwoSecondEnds(i: nat)
    requires 13 <= i < 16
    ensures Next(TwoState(i).(drain := SecondDrain(i)), TwoTurn(i).e, TwoState(i + 1))
  {
    var c := map[(0, Up) := 0, (0, Down) := 0];
    assert c[(0, Up) := 0] == c && c[(0, Down) := 0] == c;
    assert [] + [UserTraffic(7, 1, 0)] == [UserTraffic(7, 1, 0)];
  }

  lemma TwoNext(i: nat)
    requires i < 16
    ensures NextTurn(TwoJoint(i), TwoTurn(i), TwoJoint(i + 1))
  {
    TwoDrains(i);
    assert !TwoTurn(i).e.SetUsers? && (TwoTurn(i).d == 0 || TwoTurn(i).d == 1) && (10 <= i < 13 ==> TwoTurn(i).d == 0)
           && (13 <= i ==> TwoTurn(i).d == 1);
    if i < 6 {
      TwoBegin(i);
    } else if i < 10 {
      TwoLoad(i);
    } else if i < 13 {
      TwoFirstEnds(i);
    } else {
      TwoSecondEnds(i);
    }
    hide Next;
    hide TwoState;
    hide TwoTurn;
    hide FirstDrain;
    hide SecondDrain;
    hide As;
  }

  lemma TwoRun() returns (joints: seq<Joint>, turns: seq<Turn>)
    ensures RunTurns(joints, turns) && |turns| == 16
    ensures forall i :: 0 <= i < 16 ==> turns[i] == TwoTurn(i)
    ensures forall i :: 0 <= i < 17 ==> joints[i] == TwoJoint(i)
  {
    joints, turns := seq(17, i requires i >= 0 => TwoJoint(i)), seq(16, i requires i >= 0 => TwoTurn(i));
    assert InitialJoint(TwoJoint(0));
    hide NextTurn;
    hide TwoJoint;
    hide TwoTurn;
    hide InitialJoint;
    forall i | 0 <= i < 16 ensures NextTurn(joints[i], turns[i], joints[i + 1]) {
      TwoNext(i);
    }
  }

  lemma TwoSee(joints: seq<Joint>, turns: seq<Turn>, f: nat, l: nat)
    requires (f == 12 && l == 6) || (f == 15 && l == 8)
    requires |turns| == 16 < |joints| && (forall i :: 0 <= i < 16 ==> turns[i] == TwoTurn(i)) && joints[f] == TwoJoint(f)
    ensures Sees(joints, turns, f, 1, 0, Up)
  {
    var d := turns[f].d;
    LastLoadIsLoad(turns, f, d, Up);
    assert turns[l] == Turn(d, LoadUp);
    if LastLoadOf(turns, f, d, Up) <= l {
      LastLoadIsLast(turns, f, d, Up, l);
      assert false;
    }
    assert LoadedAtTurn(turns, f, Up) == l + 1;
    LastStoreFacts(joints, turns, l, 0, Up);
    assert forall k: nat :: k < l ==> turns[k].e != StoreUp;
    assert LastStore(joints, turns, l, 0, Up) == 0;
  }

  lemma {:induction false} OneAdd(turns: seq<Turn>, j: nat)
    requires |turns| == 16 && j <= 16 && forall i :: 0 <= i < 16 ==> turns[i] == TwoTurn(i)
    ensures AddedBetween(Steps(turns), 0, j, 0, Up) == if j > 1 then 1 else 0
  {
    if j == 0 {
    } else {
      OneAdd(turns, j - 1);
    }
  }

  /** Such a run: both drains list the one byte that was added. */
  lemma ByteIsListedTwice() returns (joints: seq<Joint>, turns: seq<Turn>)
    ensures RunTurns(joints, turns) && |turns| == 16 && Twice(joints, turns, 12, 15, 0, Up)
    ensures AddedBetween(Steps(turns), 0, 16, 0, Up) == 1
  {
    joints, turns := TwoRun();
    TwoSee(joints, turns, 12, 6);
    TwoSee(joints, turns, 15, 8);
    assert turns[1] == Turn(0, Add(0, Up, 1));
    hide RunTurns;
    hide Sees;
    OneAdd(turns, 16);
  }
}
