/** The periodic task of common/task/task.go. Start and Close hold a lock and are single steps; each loop
    goroutine takes its own steps in between. A loop reads the stop channel anew whenever it begins to
    wait, so it may end up waiting on a channel that a later Start has made. */
module PeriodicTask {

  /** A loop goroutine: not yet begun, in Execute, before the select, or in the select on a channel. An
      eager wait has no time to wait for. */
  datatype Loop =
    | Starting(first: bool)
    | Executing
    | Choosing
    | Waiting(ch: nat, eager: bool)
    | Exited

  /** Channels are numbered in the order they are made; `closes` counts how often each was closed. */
  datatype State = State(interval: int, running: bool, closes: seq<nat>, loops: seq<Loop>, panicked: bool)

  datatype Step =
    | Start(first: bool)
    | Close
    | SetInterval(interval: int)
    | Begin(i: nat)               // the goroutine starts
    | Enter(i: nat)               // it evaluates the select
    | Fire(i: nat)                // its time is up
    | Stop(i: nat)                // it sees its channel closed
    | Return(i: nat, failed: bool)

  /** The current channel; there is one after the first Start. */
  function Current(s: State): int {
    |s.closes| - 1
  }

  function CloseCurrent(s: State): State
    requires s.closes != []
  {
    var c := Current(s);
    s.(running := false, closes := s.closes[c := s.closes[c] + 1], panicked := s.panicked || s.closes[c] > 0)
  }

  function Started(s: State, first: bool): State {
    if s.running then s
    else s.(running := true, closes := s.closes + [0], loops := s.loops + [Starting(first)])
  }

  function Closed(s: State): State
    requires s.running ==> s.closes != []
  {
    if s.running then CloseCurrent(s) else s
  }

  function SetLoop(s: State, i: nat, l: Loop): State
    requires i < |s.loops|
  {
    s.(loops := s.loops[i := l])
  }

  predicate Enabled(s: State, e: Step) {
    !s.panicked &&
    match e
    case Start(_) => true
    case Close => s.running ==> s.closes != []
    case SetInterval(_) => true
    case Begin(i) => i < |s.loops| && s.loops[i].Starting?
    case Enter(i) => i < |s.loops| && s.loops[i].Choosing? && s.closes != []
    case Fire(i) => i < |s.loops| && s.loops[i].Waiting? && s.loops[i].ch < |s.closes|
                    && (s.closes[s.loops[i].ch] == 0 || s.loops[i].eager)
    case Stop(i) => i < |s.loops| && s.loops[i].Waiting? && s.loops[i].ch < |s.closes| && s.closes[s.loops[i].ch] > 0
    case Return(i, _) => i < |s.loops| && s.loops[i].Executing? && s.closes != []
  }

  function Next(s: State, e: Step): State
    requires Enabled(s, e)
  {
    match e
    case Start(first) => Started(s, first)
    case Close => Closed(s)
    case SetInterval(d) => s.(interval := d)
    case Begin(i) => SetLoop(s, i, if s.loops[i].first then Executing else Choosing)
    case Enter(i) => SetLoop(s, i, Waiting(Current(s), s.interval <= 0))
    case Fire(i) => SetLoop(s, i, Executing)
    case Stop(i) => SetLoop(s, i, Exited)
    case Return(i, failed) =>
      if failed then CloseCurrent(SetLoop(s, i, Exited)) else SetLoop(s, i, Choosing)
  }

  // ----- the task -----

  class Task {
    var interval: int
    var running: bool
    var closes: seq<nat>
    var loops: seq<Loop>
    var panicked: bool

    constructor (interval: int)
      ensures Value() == State(interval, false, [], [], false)
    {
      this.interval, running, closes, loops, panicked := interval, false, [], [], false;
    }

    function Value(): State
      reads this
    {
      State(interval, running, closes, loops, panicked)
    }

    method Start(first: bool)
      modifies this
      ensures Value() == Started(old(Value()), first)
    {
      if running {
        return;
      }
      running := true;
      closes := closes + [0];
      loops := loops + [Starting(first)];
    }

    method Close()
      requires running ==> closes != []
      modifies this
      ensures Value() == Closed(old(Value()))
    {
      if running {
        running := false;
        CloseChannel();
      }
    }

    /** close(t.stop), which panics when the channel is closed already. */
    method CloseChannel()
      requires closes != []
      modifies this`closes, this`panicked
      ensures var c := |old(closes)| - 1; closes == old(closes)[c := old(closes)[c] + 1]
      ensures panicked == (old(panicked) || old(closes)[|old(closes)| - 1] > 0)
    {
      var c := |closes| - 1;
      panicked := panicked || closes[c] > 0;
      closes := closes[c := closes[c] + 1];
    }

    /** Loop `i` begins; it executes at once when it was started so. */
    method Begun(i: nat)
      requires Enabled(Value(), Begin(i))
      modifies this
      ensures Value() == Next(old(Value()), Begin(i))
    {
      if loops[i].first {
        loops := loops[i := Executing];
      } else {
        loops := loops[i := Choosing];
      }
    }

    /** Loop `i` evaluates the channels of its select: the stop channel is whichever is current now. */
    method Entered(i: nat)
      requires Enabled(Value(), Enter(i))
      modifies this
      ensures Value() == Next(old(Value()), Enter(i))
    {
      loops := loops[i := Waiting(|closes| - 1, interval <= 0)];
    }

    /** The time of loop `i` is up. The select may choose this also when the channel is closed by now, if there
        was no time to wait for. */
    method Fired(i: nat)
      requires Enabled(Value(), Fire(i))
      modifies this`loops
      ensures Value() == Next(old(Value()), Fire(i))
      ensures i < |loops| && loops[i] == Executing
    {
      loops := loops[i := Executing];
    }

    /** Loop `i` sees that its channel is closed. */
    method Stopped(i: nat)
      requires Enabled(Value(), Stop(i))
      modifies this`loops
      ensures Value() == Next(old(Value()), Stop(i))
      ensures i < |loops| && loops[i] == Exited
    {
      loops := loops[i := Exited];
    }

    /** Execute has returned in loop `i`. */
    method Returned(i: nat, failed: bool)
      requires Enabled(Value(), Return(i, failed))
      modifies this
      ensures Value() == Next(old(Value()), Return(i, failed))
    {
      if failed {
        running := false;
        CloseChannel();
        loops := loops[i := Exited];
        return;
      }
      loops := loops[i := Choosing];
    }
  }

  // ----- what every step keeps -----

  ghost predicate Invariant(s: State) {
    && (s.closes == [] ==> !s.running && s.loops == [])
    && (forall k :: 0 <= k < |s.closes| ==> s.closes[k] <= 1)
    && (forall k :: 0 <= k < |s.closes| - 1 ==> s.closes[k] == 1)
    && (s.closes != [] ==> (s.running <==> s.closes[Current(s)] == 0))
    && (forall i :: 0 <= i < |s.loops| && s.loops[i].Waiting? ==> s.loops[i].ch < |s.closes|)
    && !s.panicked
  }

  ghost predicate Run(states: seq<State>, steps: seq<Step>) {
    && |states| == |steps| + 1
    && forall i :: 0 <= i < |steps| ==> Enabled(states[i], steps[i]) && states[i + 1] == Next(states[i], steps[i])
  }

  ghost predicate Initial(s: State) {
    s == State(s.interval, false, [], [], false)
  }

  /** A step panics exactly when an Execute fails while the task is not running; every other step keeps
      the invariant. */
  lemma StepInvariant(s: State, e: Step)
    requires Invariant(s) && Enabled(s, e)
    ensures Next(s, e).panicked <==> e.Return? && e.failed && !s.running
    ensures !Next(s, e).panicked ==> Invariant(Next(s, e))
  {
  }

  /** Over all interleavings of a task whose Execute never fails: it runs exactly when the current channel
      is open, no channel is closed twice, and every waiting loop waits on a closed channel or on the
      current one. */
  lemma {:induction false} RunInvariant(states: seq<State>, steps: seq<Step>, j: nat)
    requires Run(states, steps) && Initial(states[0]) && j < |states|
    requires forall i :: 0 <= i < |steps| && steps[i].Return? ==> !steps[i].failed
    ensures Invariant(states[j])
    ensures forall i :: 0 <= i < |states[j].loops| && states[j].loops[i].Waiting? ==>
              states[j].loops[i].ch == Current(states[j]) || states[j].closes[states[j].loops[i].ch] == 1
    decreases j
  {
    if j == 0 {
    } else {
      RunInvariant(states, steps, j - 1);
      StepInvariant(states[j - 1], steps[j - 1]);
    }
  }

  /** With failing Executes too, a run comes to a panic exactly when one fails while the task is not
      running, that is after a Close. */
  lemma {:induction false} RunPanics(states: seq<State>, steps: seq<Step>, j: nat)
    requires Run(states, steps) && Initial(states[0]) && j < |states|
    ensures !states[j].panicked ==> Invariant(states[j])
    ensures states[j].panicked <==>
            exists i :: 0 <= i < j && steps[i].Return? && steps[i].failed && !states[i].running
    decreases j
  {
    if j == 0 {
    } else {
      RunPanics(states, steps, j - 1);
      StepInvariant(states[j - 1], steps[j - 1]);
    }
  }

  /** Such a run: the task is closed while its loop executes, and then the Execute fails. */
  lemma FailingAfterClosePanics() returns (states: seq<State>, steps: seq<Step>)
    ensures Run(states, steps) && Initial(states[0]) && states[|steps|].panicked
    ensures steps == [Start(true), Begin(0), Close, Return(0, true)]
  {
    var s0 := State(60, false, [], [], false);
    var s1 := Next(s0, Start(true));
    var s2 := Next(s1, Begin(0));
    var s3 := Next(s2, Close);
    states, steps := [s0, s1, s2, s3, Next(s3, Return(0, true))], [Start(true), Begin(0), Close, Return(0, true)];
  }

  // ----- what a loop does -----

  /** The steps of one loop. */
  predicate Own(e: Step, i: nat) {
    match e
    case Begin(k) => k == i
    case Enter(k) => k == i
    case Fire(k) => k == i
    case Stop(k) => k == i
    case Return(k, _) => k == i
    case _ => false
  }

  /** What a loop can do next, unless the task has panicked: begin; return from its Execute; enter its select; in
      the select, execute while its channel is open, or stop once that is closed, and execute even then if there
      was no time to wait for. */
  lemma WhatLoopsCanDo(s: State, e: Step, i: nat)
    requires Invariant(s) && i < |s.loops| && Own(e, i)
    ensures Enabled(s, e) <==>
            match s.loops[i]
            case Starting(_) => e == Begin(i)
            case Executing => e == Return(i, true) || e == Return(i, false)
            case Choosing => e == Enter(i)
            case Waiting(ch, eager) =>
              (e == Fire(i) && (s.closes[ch] == 0 || eager)) || (e == Stop(i) && s.closes[ch] > 0)
            case Exited => false
  {
  }

  /** How often loop `i` has begun with an execution, and without one, and how often it has entered its select,
      left it for an execution or for good, and returned from an execution with and without an error. */
  datatype Tally = Tally(firsts: nat, waits: nat, enters: nat, fires: nat, stops: nat, returned: nat, failed: nat)

  const NOTHING := Tally(0, 0, 0, 0, 0, 0, 0)

  function Counted(t: Tally, e: Step, first: bool): Tally {
    match e
    case Begin(_) => if first then t.(firsts := t.firsts + 1) else t.(waits := t.waits + 1)
    case Enter(_) => t.(enters := t.enters + 1)
    case Fire(_) => t.(fires := t.fires + 1)
    case Stop(_) => t.(stops := t.stops + 1)
    case Return(_, failed) => if failed then t.(failed := t.failed + 1) else t.(returned := t.returned + 1)
    case _ => t
  }

  /** Whether the Start that made loop `i` asked for an execution at once. */
  function FirstOf(states: seq<State>, steps: seq<Step>, j: nat, i: nat): bool
    requires j <= |steps| < |states|
  {
    if j == 0 then false
    else if steps[j - 1].Start? && !states[j - 1].running && |states[j - 1].loops| == i then steps[j - 1].first
    else FirstOf(states, steps, j - 1, i)
  }

  /** The own steps of loop `i` before step `j`. */
  function TallyOf(states: seq<State>, steps: seq<Step>, j: nat, i: nat): Tally
    requires j <= |steps| < |states|
  {
    if j == 0 then NOTHING
    else
      var t := TallyOf(states, steps, j - 1, i);
      if Own(steps[j - 1], i) then Counted(t, steps[j - 1], FirstOf(states, steps, j - 1, i)) else t
  }

  function One(b: bool): nat {
    if b then 1 else 0
  }

  /** What a loop has done and where it is. */
  ghost predicate Accounts(t: Tally, l: Loop) {
    && t.firsts + t.waits == One(!l.Starting?) && t.stops + t.failed == One(l.Exited?)
    && t.fires + t.firsts == t.returned + t.failed + One(l.Executing?)
    && t.enters == t.fires + t.stops + One(l.Waiting?)
    && t.waits + t.returned == t.enters + One(l.Choosing?)
  }

  lemma StepAccounts(s: State, e: Step, i: nat, t: Tally, first: bool)
    requires Enabled(s, e) && i < |s.loops| && Accounts(t, s.loops[i]) && (s.loops[i].Starting? ==> s.loops[i].first == first)
    ensures i < |Next(s, e).loops|
    ensures Accounts(if Own(e, i) then Counted(t, e, first) else t, Next(s, e).loops[i])
    ensures Next(s, e).loops[i].Starting? ==> Next(s, e).loops[i].first == first
  {
  }

  lemma StepLoops(s: State, e: Step)
    requires Enabled(s, e)
    ensures |Next(s, e).loops| == |s.loops| + One(e.Start? && !s.running)
    ensures e.Start? && !s.running ==> Next(s, e).loops[|s.loops|] == Starting(e.first)
    ensures forall i: nat :: Own(e, i) ==> i < |s.loops|
  {
  }

  lemma {:induction false} NoStepsBefore(states: seq<State>, steps: seq<Step>, j: nat, i: nat)
    requires Run(states, steps) && j < |states| && i >= |states[j].loops| && states[0].loops == []
    ensures TallyOf(states, steps, j, i) == NOTHING
    decreases j
  {
    hide Next;
    hide Enabled;
    if j == 0 {
    } else {
      StepLoops(states[j - 1], steps[j - 1]);
      NoStepsBefore(states, steps, j - 1, i);
    }
  }

  /** Over every run each loop executes once whenever its time is up, and once at the start if its Start says so:
      the executions it has returned from are as many, or one less while it is in one; it enters its select
      once at its start or behind each return; and it leaves each select for an execution, or for good. */
  lemma {:induction false} LoopAccounts(states: seq<State>, steps: seq<Step>, j: nat, i: nat)
    requires Run(states, steps) && Initial(states[0]) && j < |states| && i < |states[j].loops|
    ensures Accounts(TallyOf(states, steps, j, i), states[j].loops[i])
    ensures states[j].loops[i].Starting? ==> states[j].loops[i].first == FirstOf(states, steps, j, i)
    decreases j
  {
    hide Next;
    hide Enabled;
    if j == 0 {
      assert false;
    } else {
      StepLoops(states[j - 1], steps[j - 1]);
      if i < |states[j - 1].loops| {
        LoopAccounts(states, steps, j - 1, i);
        StepAccounts(states[j - 1], steps[j - 1], i, TallyOf(states, steps, j - 1, i), FirstOf(states, steps, j - 1, i));
      } else {
        NoStepsBefore(states, steps, j - 1, i);
      }
    }
  }

  /** The last own step of loop `i` before step `j`. */
  ghost predicate LastOwn(steps: seq<Step>, j: nat, i: nat, k: nat)
    requires j <= |steps|
  {
    k < j && Own(steps[k], i) && forall m :: k < m < j ==> !Own(steps[m], i)
  }

  lemma StepOwn(s: State, e: Step, i: nat)
    requires Enabled(s, e) && i < |s.loops|
    ensures if Own(e, i) then Next(s, e).loops[i].Executing? <==> e.Fire? || (e.Begin? && s.loops[i] == Starting(true))
            else Next(s, e).loops[i] == s.loops[i]
  {
  }

  /** So a loop is in Execute exactly when the last step it took was that its time was up, or its begin if it
      was to execute at once. */
  lemma {:induction false} ExecutesWhen(states: seq<State>, steps: seq<Step>, j: nat, i: nat, k: nat)
    requires Run(states, steps) && j < |states| && i < |states[j].loops| && LastOwn(steps, j, i, k)
    ensures i < |states[k].loops|
    ensures states[j].loops[i].Executing? <==> steps[k].Fire? || (steps[k].Begin? && states[k].loops[i] == Starting(true))
    decreases j
  {
    hide Next;
    hide Enabled;
    StepLoops(states[j - 1], steps[j - 1]);
    StepLoops(states[k], steps[k]);
    if k < j - 1 {
      assert i < |states[j - 1].loops| by {
        LoopsGrow(states, steps, k, j - 1);
      }
      ExecutesWhen(states, steps, j - 1, i, k);
    }
    StepOwn(states[j - 1], steps[j - 1], i);
  }

  lemma {:induction false} LoopsGrow(states: seq<State>, steps: seq<Step>, i: nat, j: nat)
    requires Run(states, steps) && i <= j < |states|
    ensures |states[i].loops| <= |states[j].loops|
    decreases j
  {
    hide Next;
    hide Enabled;
    if i == j {
    } else {
      LoopsGrow(states, steps, i, j - 1);
      StepLoops(states[j - 1], steps[j - 1]);
    }
  }

  /** Between two entries of a loop into its select there is exactly one execution it begins by its time, and one
      return. */
  lemma OneExecutionPerRound(states: seq<State>, steps: seq<Step>, a: nat, b: nat, i: nat)
    requires Run(states, steps) && Initial(states[0]) && a < b < |steps| && steps[a] == Enter(i) && steps[b] == Enter(i)
    requires forall k :: a < k < b ==> steps[k] != Enter(i)
    ensures var t, t' := TallyOf(states, steps, a + 1, i), TallyOf(states, steps, b, i);
            t'.fires == t.fires + 1 && t'.returned == t.returned + 1 && t'.failed == t.failed
  {
    assert Enabled(states[a], steps[a]) && Enabled(states[b], steps[b]);
    assert states[a + 1] == Next(states[a], steps[a]);
    LoopAccounts(states, steps, a + 1, i);
    LoopAccounts(states, steps, b, i);
    EntersKept(states, steps, a + 1, b, i);
  }

  lemma {:induction false} EntersKept(states: seq<State>, steps: seq<Step>, a: nat, b: nat, i: nat)
    requires a <= b <= |steps| < |states| && forall k :: a <= k < b ==> steps[k] != Enter(i)
    ensures var t, t' := TallyOf(states, steps, a, i), TallyOf(states, steps, b, i);
            t'.enters == t.enters && t'.firsts >= t.firsts && t'.waits >= t.waits
    decreases b
  {
    if a == b {
    } else {
      EntersKept(states, steps, a, b - 1, i);
    }
  }

  // ----- after Close -----

  function RankOf(l: Loop): nat {
    match l
    case Starting(_) => 4
    case Executing => 3
    case Choosing => 2
    case Waiting(_, _) => 1
    case Exited => 0
  }

  function Rank(loops: seq<Loop>): nat {
    if loops == [] then 0 else RankOf(loops[0]) + Rank(loops[1..])
  }

  lemma {:induction false} RankSet(loops: seq<Loop>, i: nat, l: Loop)
    requires i < |loops|
    ensures Rank(loops[i := l]) == Rank(loops) - RankOf(loops[i]) + RankOf(l)
  {
    if i == 0 {
      assert loops[0 := l][1..] == loops[1..];
    } else {
      RankSet(loops[1..], i - 1, l);
      assert loops[i := l][1..] == loops[1..][i - 1 := l];
    }
  }

  predicate OfLoop(e: Step) {
    e.Begin? || e.Enter? || e.Fire? || e.Stop? || e.Return?
  }

  /** The steps after a Close: no Start, no failing Execute, no interval that is not positive. */
  predicate Winding(e: Step) {
    !e.Start? && (e.Return? ==> !e.failed) && (e.SetInterval? ==> e.interval > 0)
  }

  /** The interval is positive, and no loop entered its wait without one. */
  ghost predicate NoEager(s: State) {
    s.interval > 0 && forall i :: 0 <= i < |s.loops| && s.loops[i].Waiting? ==> !s.loops[i].eager
  }

  /** A closed task with positive intervals. */
  ghost predicate Down(s: State) {
    Invariant(s) && !s.running && NoEager(s)
  }

  /** No loop fires any more, and every step of a loop brings it nearer to its exit. */
  lemma StepDown(s: State, e: Step)
    requires Down(s) && Enabled(s, e) && Winding(e)
    ensures Down(Next(s, e)) && !e.Fire?
    ensures if OfLoop(e) then Rank(Next(s, e).loops) < Rank(s.loops) else Rank(Next(s, e).loops) == Rank(s.loops)
  {
    match e {
      case Begin(i) => RankSet(s.loops, i, Next(s, e).loops[i]);
      case Enter(i) => RankSet(s.loops, i, Next(s, e).loops[i]);
      case Stop(i) => RankSet(s.loops, i, Next(s, e).loops[i]);
      case Return(i, _) => RankSet(s.loops, i, Next(s, e).loops[i]);
      case _ =>
    }
  }

  /** A loop that has not exited can always take a step. */
  lemma LoopCanStep(s: State, i: nat)
    requires Down(s) && i < |s.loops| && !s.loops[i].Exited?
    ensures exists e :: Enabled(s, e) && Winding(e) && OfLoop(e) && e.i == i
  {
    var e := match s.loops[i]
      case Starting(_) => Begin(i)
      case Executing => Return(i, false)
      case Choosing => Enter(i)
      case Waiting(_, _) => Stop(i)
      case Exited => Stop(i);
    assert Enabled(s, e) && Winding(e) && OfLoop(e) && e.i == i;
  }

  function LoopSteps(steps: seq<Step>, i: nat, j: nat): nat
    requires i <= j <= |steps|
    decreases j
  {
    if i == j then 0 else LoopSteps(steps, i, j - 1) + if OfLoop(steps[j - 1]) then 1 else 0
  }

  lemma {:induction false} RankBound(loops: seq<Loop>)
    ensures Rank(loops) <= 4 * |loops|
  {
    if loops == [] {
    } else {
      RankBound(loops[1..]);
    }
  }

  /** After a Close with no later Start no loop begins another round, and all loops together take no more
      steps than they need to finish what they are at and exit. */
  lemma {:induction false} AllLoopsExit(states: seq<State>, steps: seq<Step>, i: nat, j: nat)
    requires Run(states, steps) && i <= j < |states| && Down(states[i])
    requires forall k :: i <= k < j ==> Winding(steps[k])
    ensures Down(states[j])
    ensures forall k :: i <= k < j ==> !steps[k].Fire?
    ensures LoopSteps(steps, i, j) + Rank(states[j].loops) <= Rank(states[i].loops)
    ensures LoopSteps(steps, i, j) <= 4 * |states[i].loops|
    decreases j
  {
    hide Enabled;
    hide Next;
    hide Down;
    hide Rank;
    hide Winding;
    RankBound(states[i].loops);
    if i == j {
    } else {
      AllLoopsExit(states, steps, i, j - 1);
      StepDown(states[j - 1], steps[j - 1]);
    }
  }

  lemma {:induction false} RunNoEager(states: seq<State>, steps: seq<Step>, j: nat)
    requires Run(states, steps) && j < |states| && NoEager(states[0])
    requires forall i :: 0 <= i < |steps| && steps[i].SetInterval? ==> steps[i].interval > 0
    ensures NoEager(states[j])
    decreases j
  {
    if j == 0 {
    } else {
      RunNoEager(states, steps, j - 1);
    }
  }

  /** Over every run of a new task with positive intervals whose Execute never fails: from a Close on that no
      Start follows, no loop begins another round, all loops together take at most four steps each, and when
      none can take another all have exited. */
  lemma AfterClose(states: seq<State>, steps: seq<Step>, i: nat, j: nat)
    requires Run(states, steps) && Initial(states[0]) && i < j < |states| && steps[i].Close?
    requires forall k :: i < k < j ==> !steps[k].Start?
    requires forall k :: 0 <= k < |steps| && steps[k].Return? ==> !steps[k].failed
    requires states[0].interval > 0 && forall k :: 0 <= k < |steps| && steps[k].SetInterval? ==> steps[k].interval > 0
    ensures !states[j].running
    ensures forall k :: i < k < j ==> !steps[k].Fire?
    ensures LoopSteps(steps, i + 1, j) <= 4 * |states[i].loops|
    ensures (forall e :: OfLoop(e) ==> !Enabled(states[j], e)) ==>
              forall n :: 0 <= n < |states[j].loops| ==> states[j].loops[n].Exited?
  {
    RunInvariant(states, steps, i);
    RunInvariant(states, steps, i + 1);
    RunNoEager(states, steps, i + 1);
    assert Down(states[i + 1]) && |states[i + 1].loops| == |states[i].loops|;
    AllLoopsExit(states, steps, i + 1, j);
    forall n: nat | n < |states[j].loops| && !states[j].loops[n].Exited? ensures exists e :: OfLoop(e) && Enabled(states[j], e) {
      LoopCanStep(states[j], n);
    }
  }

  /** Without a positive interval a loop may go on after a Close: its time is up at once, and the select may
      choose that although the channel is closed. */
  lemma EagerLoopFires() returns (states: seq<State>, steps: seq<Step>)
    ensures Run(states, steps) && Initial(states[0])
    ensures steps == [SetInterval(0), Start(false), Begin(0), Enter(0), Close, Fire(0)] && states[6].loops == [Executing]
  {
    var s0 := State(60, false, [], [], false);
    var s1 := Next(s0, SetInterval(0));
    var s2 := Next(s1, Start(false));
    var s3 := Next(s2, Begin(0));
    var s4 := Next(s3, Enter(0));
    var s5 := Next(s4, Close);
    states := [s0, s1, s2, s3, s4, s5, Next(s5, Fire(0))];
    steps := [SetInterval(0), Start(false), Begin(0), Enter(0), Close, Fire(0)];
  }

  // ----- how many loops there are -----

  /** A loop that goes on for good if nothing happens. */
  predicate Live(s: State, i: nat)
    requires i < |s.loops|
  {
    var l := s.loops[i];
    !l.Exited? && !(l.Waiting? && l.ch < |s.closes| && s.closes[l.ch] > 0)
  }

  /** A loop that will read the stop channel of whatever Start came last. */
  predicate Busy(l: Loop) {
    l.Starting? || l.Executing? || l.Choosing?
  }

  ghost predicate OneLive(s: State) {
    forall i, j :: 0 <= i < j < |s.loops| ==> !(Live(s, i) && Live(s, j))
  }

  ghost predicate NoneBusy(s: State) {
    forall i :: 0 <= i < |s.loops| ==> !Busy(s.loops[i])
  }

  /** A Start that takes effect leaves a single live loop exactly when no earlier loop is busy: one in
      Execute picks up the new channel and runs on beside the new loop. */
  lemma StartAfterClose(s: State, first: bool)
    requires Invariant(s) && !s.running
    ensures OneLive(Started(s, first)) <==> NoneBusy(s)
  {
    var s' := Started(s, first);
    var n := |s.loops|;
    assert s'.loops[n] == Starting(first) && Live(s', n);
    forall i: nat | i < n ensures Live(s', i) <==> Busy(s.loops[i]) {
      assert s'.loops[i] == s.loops[i];
    }
    if NoneBusy(s) {
      assert OneLive(s');
    } else {
      var i :| 0 <= i < n && Busy(s.loops[i]);
      assert Live(s', i) && Live(s', n);
    }
  }

  /** The loop waits on the current channel, and that is open. */
  predicate Waits(s: State, i: nat)
    requires i < |s.loops|
  {
    s.loops[i].Waiting? && s.loops[i].ch == Current(s) && s.closes != [] && s.closes[Current(s)] == 0
  }

  /** What becomes of a loop that is in Execute while the task is closed and started again: it returns,
      finds the new channel, and waits on it beside the new loop. */
  lemma OldLoopJoins(s: State, i: nat) returns (states: seq<State>)
    requires Invariant(s) && !s.running && i < |s.loops| && s.loops[i].Executing?
    ensures var n := |s.loops|;
            && Run(states, [Start(false), Begin(n), Enter(n), Return(i, false), Enter(i)]) && states[0] == s
            && |states[5].loops| == n + 1 && Waits(states[5], i) && Waits(states[5], n)
  {
    var n := |s.loops|;
    var s1 := Next(s, Start(false));
    var s2 := Next(s1, Begin(n));
    var s3 := Next(s2, Enter(n));
    var s4 := Next(s3, Return(i, false));
    var s5 := Next(s4, Enter(i));
    states := [s, s1, s2, s3, s4, s5];
  }

  /** An Execute that closes and starts its own task, as the node monitor does when the panel changes its
      interval, leaves two loops running. */
  lemma RestartFromWithin(s: State, i: nat)
    requires Invariant(s) && s.running && i < |s.loops| && s.loops[i].Executing?
    ensures !OneLive(Started(Closed(s), false))
  {
    StepInvariant(s, Close);
    assert Busy(Closed(s).loops[i]);
    StartAfterClose(Closed(s), false);
  }

  lemma StepOneLive(s: State, e: Step)
    requires Invariant(s) && Enabled(s, e) && OneLive(s) && NoEager(s)
    requires e.Return? ==> !e.failed
    requires e.Start? && !s.running ==> NoneBusy(s)
    requires e.SetInterval? ==> e.interval > 0
    ensures OneLive(Next(s, e)) && NoEager(Next(s, e))
  {
    var s' := Next(s, e);
    if e.Start? && !s.running {
      StartAfterClose(s, e.first);
    } else {
      forall i: nat | i < |s.loops| && Live(s', i) ensures Live(s, i) {
      }
      assert |s'.loops| == |s.loops|;
    }
  }

  /** So a task whose Starts all find the earlier loops waiting or gone never has two live loops. */
  lemma {:induction false} RunOneLive(states: seq<State>, steps: seq<Step>, j: nat)
    requires Run(states, steps) && Initial(states[0]) && j < |states|
    requires forall i :: 0 <= i < |steps| && steps[i].Return? ==> !steps[i].failed
    requires forall i :: 0 <= i < |steps| && steps[i].Start? && !states[i].running ==> NoneBusy(states[i])
    requires states[0].interval > 0 && forall i :: 0 <= i < |steps| && steps[i].SetInterval? ==> steps[i].interval > 0
    ensures OneLive(states[j]) && NoEager(states[j])
    decreases j
  {
    if j == 0 {
    } else {
      RunOneLive(states, steps, j - 1);
      RunInvariant(states, steps, j - 1);
      StepOneLive(states[j - 1], steps[j - 1]);
    }
  }
}
