/** Whole runs of the scheduler: the invariant, finished tasks, sleepers and the order of picks. */
module TaskRuns {
  import opened Options
  import opened Utils
  import opened Tasks
  import opened TaskInvariants

  /** `ss` are the states of a run and `es` the steps between them. */
  ghost predicate Trace(ss: seq<System>, es: seq<Event>) {
    && |ss| == |es| + 1 && Inv(ss[0])
    && forall k :: 0 <= k < |es| ==> Follows(ss[k], es[k], ss[k + 1])
  }

  predicate Follows(s: System, e: Event, s': System) {
    InRange(s) && Enabled(s, e) && s' == Step(s, e)
  }

  lemma {:induction false} TraceInv(ss: seq<System>, es: seq<Event>, k: nat)
    requires Trace(ss, es) && k < |ss|
    ensures Inv(ss[k])
    decreases k
  {
    if k > 0 {
      TraceInv(ss, es, k - 1);
      assert Follows(ss[k - 1], es[k - 1], ss[k]);
      StepInv(ss[k - 1], es[k - 1]);
    }
  }

  lemma TraceStep(ss: seq<System>, es: seq<Event>, k: nat)
    requires Trace(ss, es) && k < |es|
    ensures |ss| == |es| + 1 && Inv(ss[k]) && Follows(ss[k], es[k], ss[k + 1])
  {
    TraceInv(ss, es, k);
  }

  // ---------- what one step does to one task ----------

  /** The task a pick chooses. */
  function Picked(s: System): Option<nat> {
    Choice(WakeSleepers(s.tasks, s.tick), s.cursor)
  }

  /** The pick made by a step, if any. */
  function PickedBy(s: System, e: Event): Option<nat> {
    if e.Pick? then Picked(s) else None
  }

  lemma WakeTasksOthers(ts: seq<Task>, q: seq<nat>, t: nat)
    requires forall i :: 0 <= i < |q| ==> q[i] < |ts|
    requires t < |ts| && !ts[t].state.Waiting?
    ensures WakeTasks(ts, q)[t] == ts[t]
    decreases |q|
  {
    if q != [] { WakeTasksOthers(WakeTask(ts, q[0]), q[1..], t); }
  }

  lemma ChoiceInList(s: System)
    ensures Picked(s).Some? ==> Picked(s).value < |s.tasks|
  {
  }

  /** How the state of a task that neither runs nor waits can change. */
  lemma StepTask(s: System, e: Event, t: nat)
    requires Inv(s) && Enabled(s, e) && t < |s.tasks|
    requires !s.tasks[t].state.Running? && !s.tasks[t].state.Waiting?
    ensures t < |Step(s, e).tasks|
    ensures e.Pick? && Picked(s) == Some(t) ==> Step(s, e).tasks[t].state.Running?
    ensures e.Pick? && Picked(s) != Some(t) ==> Step(s, e).tasks[t] == WokenAt(s.tasks[t], s.tick)
    ensures e.Recount? ==> Step(s, e).tasks[t] == WokenAt(s.tasks[t], s.tick)
    ensures !e.Pick? && !e.Recount? ==> Step(s, e).tasks[t] == s.tasks[t]
  {
    hide WaitingQueued, WokenRunnable, NoLostWakeup, KeysInOrder, Choice;
    match e
    case Pick => ChoiceInList(s);
    case WakeAll(q) => WakeTasksOthers(s.tasks, s.queues[q], t);
    case _ =>
  }

  /** Picks choose among ready tasks. */
  lemma PickedReady(s: System, t: nat)
    requires t < |s.tasks| && Picked(s) == Some(t)
    ensures s.tasks[t].state.Ready? || (s.tasks[t].state.Sleeping? && s.tick >= s.tasks[t].wakeTick)
  {
  }

  /** The steps that look for sleepers whose time has come. */
  predicate Looks(e: Event) {
    e.Pick? || e.Recount?
  }

  lemma RestStep(s: System, e: Event, t: nat)
    requires Inv(s) && Enabled(s, e) && t < |s.tasks|
    requires s.tasks[t].state.Done? || (s.tasks[t].state.Sleeping? && (Looks(e) ==> s.tick < s.tasks[t].wakeTick))
    ensures t < |Step(s, e).tasks| && Step(s, e).tasks[t] == s.tasks[t]
  {
    hide Inv, Step, Enabled, Picked;
    StepTask(s, e, t);
    if Picked(s) == Some(t) { PickedReady(s, t); }
  }

  /** A task that has finished stays finished. */
  lemma {:induction false} DoneForever(ss: seq<System>, es: seq<Event>, i: nat, j: nat, t: nat)
    requires Trace(ss, es) && i <= j < |ss| && t < |ss[i].tasks| && ss[i].tasks[t].state.Done?
    ensures t < |ss[j].tasks| && ss[j].tasks[t].state.Done?
    decreases j
  {
    if i < j {
      assert |ss| == |es| + 1;
      hide Trace, Inv, Step, Enabled, InRange;
      DoneForever(ss, es, i, j - 1, t);
      TraceStep(ss, es, j - 1);
      RestStep(ss[j - 1], es[j - 1], t);
    }
  }

  /** A task that exits is never picked again. */
  lemma ExitedNeverRuns(ss: seq<System>, es: seq<Event>, i: nat, j: nat)
    requires Trace(ss, es) && i < j < |es| && es[i].Exit?
    ensures ss[i].current.Some? && PickedBy(ss[j], es[j]) != ss[i].current
  {
    TraceStep(ss, es, i);
    var t := ss[i].current.value;
    DoneForever(ss, es, i + 1, j, t);
    if Picked(ss[j]) == Some(t) { PickedReady(ss[j], t); }
  }

  // ---------- sleepers ----------

  /** A sleeper sleeps on, with the same wake tick, until a pick or a count at or after that tick. */
  lemma {:induction false} SleepsUntilTick(ss: seq<System>, es: seq<Event>, i: nat, j: nat, t: nat, w: nat)
    requires Trace(ss, es) && i <= j < |ss| && t < |ss[i].tasks| && ss[i].tasks[t] == Task(Sleeping, w)
    requires forall k :: i <= k < j && Looks(es[k]) ==> ss[k].tick < w
    ensures t < |ss[j].tasks| && ss[j].tasks[t] == Task(Sleeping, w)
    decreases j
  {
    if i < j {
      assert |ss| == |es| + 1;
      hide Trace, Inv, Step, Enabled, InRange;
      SleepsUntilTick(ss, es, i, j - 1, t, w);
      TraceStep(ss, es, j - 1);
      RestStep(ss[j - 1], es[j - 1], t);
    }
  }

  lemma TickStep(s: System, e: Event)
    requires Inv(s) && Enabled(s, e)
    ensures Step(s, e).tick == s.tick + if e.Tick? then 1 else 0
  {
  }

  /** The timer interrupts among the steps `i` up to `j`. */
  function TicksIn(es: seq<Event>, i: nat, j: nat): nat
    requires i <= j <= |es|
    decreases j
  {
    if i == j then 0 else TicksIn(es, i, j - 1) + if es[j - 1].Tick? then 1 else 0
  }

  /** The clock counts the timer interrupts. */
  lemma {:induction false} TicksGrow(ss: seq<System>, es: seq<Event>, i: nat, j: nat)
    requires Trace(ss, es) && i <= j < |ss|
    ensures ss[j].tick == ss[i].tick + TicksIn(es, i, j)
    decreases j
  {
    assert |ss| == |es| + 1;
    hide Trace, Inv, Step, Enabled, InRange;
    if i < j {
      TicksGrow(ss, es, i, j - 1);
      TraceStep(ss, es, j - 1);
      TickStep(ss[j - 1], es[j - 1]);
    }
  }

  /** A task that goes to sleep for `n` ticks at step `i`. */
  lemma FallsAsleep(ss: seq<System>, es: seq<Event>, i: nat, n: nat)
    requires Trace(ss, es) && i < |es| && es[i] == Sleep(n) && n > 0
    ensures ss[i].current.Some? && ss[i].current.value < |ss[i + 1].tasks|
    ensures ss[i + 1].tasks[ss[i].current.value] == Task(Sleeping, ss[i].tick + n)
  {
    TraceStep(ss, es, i);
  }

  /** A task that sleeps `n` ticks is neither ready nor run before they have passed. */
  lemma SleepsLongEnough(ss: seq<System>, es: seq<Event>, i: nat, j: nat, n: nat)
    requires Trace(ss, es) && i < j < |ss| && es[i] == Sleep(n) && TicksIn(es, i, j) < n
    ensures ss[i].current.Some? && ss[i].current.value < |ss[j].tasks|
    ensures ss[j].tasks[ss[i].current.value] == Task(Sleeping, ss[i].tick + n)
  {
    FallsAsleep(ss, es, i, n);
    TicksGrow(ss, es, i, j);
    forall k | i < k < j ensures ss[k].tick < ss[i].tick + n { TicksGrow(ss, es, k, j); }
    SleepsUntilTick(ss, es, i + 1, j, ss[i].current.value, ss[i].tick + n);
  }

  /** The first pick or count once they have passed makes it ready, or picks it. */
  lemma WakesAtFirstLook(ss: seq<System>, es: seq<Event>, i: nat, j: nat, n: nat)
    requires Trace(ss, es) && i < j < |es| && es[i] == Sleep(n) && n > 0
    requires forall k :: i < k < j && Looks(es[k]) ==> TicksIn(es, i, k) < n
    requires Looks(es[j]) && TicksIn(es, i, j) >= n
    ensures ss[i].current.Some? && ss[i].current.value < |ss[j + 1].tasks|
    ensures ss[j + 1].tasks[ss[i].current.value].state ==
            if PickedBy(ss[j], es[j]) == ss[i].current then Running else Ready
  {
    FallsAsleep(ss, es, i, n);
    forall k | i < k <= j ensures ss[k].tick == ss[i].tick + TicksIn(es, i, k) { TicksGrow(ss, es, i, k); }
    SleepsUntilTick(ss, es, i + 1, j, ss[i].current.value, ss[i].tick + n);
    TraceStep(ss, es, j);
    StepTask(ss[j], es[j], ss[i].current.value);
  }

  // ---------- bounded bypass ----------

  /** The tasks picked by the steps `i` up to `j`, in order. */
  function Picks(ss: seq<System>, es: seq<Event>, i: nat, j: nat): seq<nat>
    requires i <= j <= |es| && |ss| == |es| + 1
    decreases j
  {
    if i == j then [] else Picks(ss, es, i, j - 1) + PickSeq(ss[j - 1], es[j - 1])
  }

  function PickSeq(s: System, e: Event): seq<nat> {
    match PickedBy(s, e)
    case None => []
    case Some(p) => [p]
  }

  /** The cursor as a number, -1 before the first pick. */
  function At(cursor: Option<nat>): int {
    if cursor.Some? then cursor.value else -1
  }

  /** Going round from place `c`, `x` comes before `y`. */
  predicate Before(c: int, x: nat, y: nat) {
    if x > c <==> y > c then x < y else x > c
  }

  /** A pick other than ready task `t` lies between the cursor and `t`. */
  lemma ChoiceBetween(ts: seq<Task>, cursor: Option<nat>, t: nat)
    requires t < |ts| && ts[t].state.Ready? && Choice(ts, cursor) != Some(t)
    requires cursor.Some? ==> cursor.value < |ts|
    ensures Choice(ts, cursor).Some?
    ensures var p := Choice(ts, cursor).value; if t > At(cursor) then At(cursor) < p < t else p > At(cursor) || p < t
  {
  }

  /** What is known of the picks made while `t` stayed ready, beginning with the cursor at `c`. */
  ghost predicate Rounds(c: int, t: nat, picks: seq<nat>, cursor: int, n: nat) {
    && (forall a :: 0 <= a < |picks| ==> picks[a] < n && picks[a] != t)
    && (forall a :: 0 <= a < |picks| ==> if t > c then c < picks[a] < t else picks[a] > c || picks[a] < t)
    && (forall a, b :: 0 <= a < b < |picks| ==> Before(c, picks[a], picks[b]))
    && cursor == if picks == [] then c else picks[|picks| - 1]
  }

  lemma NextRound(c: int, t: nat, picks: seq<nat>, cursor: int, n: nat, p: nat)
    requires Rounds(c, t, picks, cursor, n) && p < n && p != t
    requires if t > cursor then cursor < p < t else p > cursor || p < t
    ensures Rounds(c, t, picks + [p], p, n)
  {
    var all := picks + [p];
    forall a, b | 0 <= a < b < |all| ensures Before(c, all[a], all[b]) {
      if b == |picks| && a < |picks| - 1 { assert Before(c, picks[a], picks[|picks| - 1]); }
    }
  }

  lemma CursorInList(s: System)
    requires Inv(s)
    ensures s.cursor.Some? ==> s.cursor.value < |s.tasks|
  {
  }

  lemma StepRounds(s: System, e: Event, t: nat, c: int, picks: seq<nat>)
    requires Inv(s) && Enabled(s, e) && t < |s.tasks| && s.tasks[t].state.Ready? && PickedBy(s, e) != Some(t)
    requires Rounds(c, t, picks, At(s.cursor), |s.tasks|)
    ensures t < |Step(s, e).tasks| && Step(s, e).tasks[t].state.Ready?
    ensures Rounds(c, t, picks + PickSeq(s, e), At(Step(s, e).cursor), |Step(s, e).tasks|)
  {
    hide Inv, Enabled, Step, Choice, Rounds;
    CursorInList(s);
    StepTask(s, e, t);
    PicksMoveCursor(s, e);
    if PickedBy(s, e).Some? {
      ChoiceBetween(WakeSleepers(s.tasks, s.tick), s.cursor, t);
      NextRound(c, t, picks, At(s.cursor), |s.tasks|, PickedBy(s, e).value);
    } else {
      assert picks + PickSeq(s, e) == picks;
      MoreTasks(c, t, picks, At(s.cursor), |s.tasks|);
    }
  }

  lemma MoreTasks(c: int, t: nat, picks: seq<nat>, cursor: int, n: nat)
    requires Rounds(c, t, picks, cursor, n)
    ensures forall n': nat :: n <= n' ==> Rounds(c, t, picks, cursor, n')
  {
  }

  /** A ready task stays ready until it is picked; until then every pick passes another task. */
  lemma {:induction false} ReadyUntilPicked(ss: seq<System>, es: seq<Event>, i: nat, j: nat, t: nat)
    requires Trace(ss, es) && i <= j < |ss| && t < |ss[i].tasks| && ss[i].tasks[t].state.Ready?
    requires t !in Picks(ss, es, i, j)
    ensures t < |ss[j].tasks| && ss[j].tasks[t].state.Ready?
    ensures Rounds(At(ss[i].cursor), t, Picks(ss, es, i, j), At(ss[j].cursor), |ss[j].tasks|)
    decreases j
  {
    if i < j {
      PicksBefore(ss, es, i, j, t);
      assert |ss| == |es| + 1;
      hide Trace, Inv, Step, Enabled, InRange, PickedBy, Rounds, Picks, PickSeq;
      ReadyUntilPicked(ss, es, i, j - 1, t);
      TraceStep(ss, es, j - 1);
      StepRounds(ss[j - 1], es[j - 1], t, At(ss[i].cursor), Picks(ss, es, i, j - 1));
    } else {
      NoPicks(ss, es, i, t);
    }
  }

  lemma PicksBefore(ss: seq<System>, es: seq<Event>, i: nat, j: nat, t: nat)
    requires i < j <= |es| && |ss| == |es| + 1 && t !in Picks(ss, es, i, j)
    ensures Picks(ss, es, i, j) == Picks(ss, es, i, j - 1) + PickSeq(ss[j - 1], es[j - 1])
    ensures t !in Picks(ss, es, i, j - 1) && PickedBy(ss[j - 1], es[j - 1]) != Some(t)
  {
    hide PickedBy;
    assert t !in PickSeq(ss[j - 1], es[j - 1]);
  }

  lemma NoPicks(ss: seq<System>, es: seq<Event>, i: nat, t: nat)
    requires |ss| == |es| + 1 && i <= |es|
    ensures Rounds(At(ss[i].cursor), t, Picks(ss, es, i, i), At(ss[i].cursor), |ss[i].tasks|)
  {
  }

  lemma PicksMoveCursor(s: System, e: Event)
    requires Inv(s) && Enabled(s, e)
    ensures |Step(s, e).tasks| >= |s.tasks|
    ensures Step(s, e).cursor == if PickedBy(s, e).Some? then PickedBy(s, e) else s.cursor
    ensures PickedBy(s, e).Some? ==> PickedBy(s, e).value < |s.tasks| && |Step(s, e).tasks| == |s.tasks|
  {
  }

  lemma DistinctBounded(xs: seq<nat>, n: nat, t: nat)
    requires forall a, b :: 0 <= a < b < |xs| ==> xs[a] != xs[b]
    requires forall a :: 0 <= a < |xs| ==> xs[a] < n && xs[a] != t
    requires t < n
    ensures |xs| < n
  {
    var picked := set a | 0 <= a < |xs| :: xs[a];
    DistinctCount(xs);
    assert picked <= Below(n) - {t};
    SubsetSize(picked, Below(n) - {t});
  }

  lemma {:induction false} DistinctCount(xs: seq<nat>)
    requires forall a, b :: 0 <= a < b < |xs| ==> xs[a] != xs[b]
    ensures |(set a | 0 <= a < |xs| :: xs[a])| == |xs|
    decreases |xs|
  {
    if xs != [] {
      var ys := xs[..|xs| - 1];
      DistinctCount(ys);
      assert (set a | 0 <= a < |xs| :: xs[a]) == (set a | 0 <= a < |ys| :: ys[a]) + {xs[|xs| - 1]};
    }
  }

  function Below(n: nat): (r: set<nat>)
    ensures |r| == n && forall a: nat :: a in r <==> a < n
  {
    if n == 0 then {} else Below(n - 1) + {n - 1}
  }

  /** Bounded bypass: while a ready task is not picked no task is picked twice, so it is picked at the
      latest by as many picks as there are tasks. */
  lemma BoundedBypass(ss: seq<System>, es: seq<Event>, i: nat, j: nat, t: nat)
    requires Trace(ss, es) && i <= j < |ss| && t < |ss[i].tasks| && ss[i].tasks[t].state.Ready?
    requires t !in Picks(ss, es, i, j)
    ensures forall a, b :: 0 <= a < b < |Picks(ss, es, i, j)| ==> Picks(ss, es, i, j)[a] != Picks(ss, es, i, j)[b]
    ensures |Picks(ss, es, i, j)| < |ss[j].tasks|
  {
    ReadyUntilPicked(ss, es, i, j, t);
    DistinctBounded(Picks(ss, es, i, j), |ss[j].tasks|, t);
  }

  // ---------- giving up control ----------

  /** Who is current changes only when a task is picked or control is back with the scheduler. */
  lemma CurrentStep(s: System, e: Event)
    requires Inv(s) && Enabled(s, e)
    ensures Step(s, e).current == if e.Return? then None else if PickedBy(s, e).Some? then PickedBy(s, e) else s.current
    ensures |Step(s, e).tasks| == |s.tasks| + (if e.Create? then 1 else 0) && |Step(s, e).queues| == |s.queues|
    ensures e.Create? ==> Step(s, e).tasks[|s.tasks|].state.Ready?
  {
  }

  /** The calls by which a task gives up control; a read does if there is no key. */
  predicate GivesUp(s: System, e: Event) {
    e.Yield? || e.Sleep? || e.Exit? || e.Block? || (e.Read? && s.buffer == [])
  }

  /** The running task keeps control through every step but those. */
  lemma KeepsControl(s: System, e: Event)
    requires Inv(s) && Enabled(s, e) && Executing(s) && !GivesUp(s, e)
    ensures Executing(Step(s, e)) && Step(s, e).current == s.current
    ensures Step(s, e).tasks[s.current.value] == s.tasks[s.current.value]
  {
    hide WaitingQueued, NoLostWakeup, KeysInOrder, Choice;
    match e
    case WakeAll(q) => WakeTasksOthers(s.tasks, s.queues[q], s.current.value);
    case _ =>
  }

  /** A task that yields, or sleeps 0 ticks, is ready. */
  lemma YieldsReady(ss: seq<System>, es: seq<Event>, i: nat)
    requires Trace(ss, es) && i < |es| && (es[i].Yield? || es[i] == Sleep(0))
    ensures ss[i].current.Some? && ss[i].current.value < |ss[i + 1].tasks|
    ensures ss[i + 1].tasks[ss[i].current.value].state.Ready?
  {
    TraceStep(ss, es, i);
    hide WaitingQueued, NoLostWakeup, KeysInOrder, WokenRunnable;
  }

  /** It gets control again at the latest by as many picks as there are tasks. */
  lemma YieldsInTurn(ss: seq<System>, es: seq<Event>, i: nat, j: nat)
    requires Trace(ss, es) && i < j < |ss| && (es[i].Yield? || es[i] == Sleep(0))
    requires |Picks(ss, es, i + 1, j)| >= |ss[j].tasks|
    ensures ss[i].current.Some? && ss[i].current.value in Picks(ss, es, i + 1, j)
  {
    YieldsReady(ss, es, i);
    hide Trace, Picks;
    var t := ss[i].current.value;
    if t !in Picks(ss, es, i + 1, j) { BoundedBypass(ss, es, i + 1, j, t); }
  }

  /** So does a new task. */
  lemma CreatedInTurn(ss: seq<System>, es: seq<Event>, i: nat, j: nat)
    requires Trace(ss, es) && i < j < |ss| && es[i].Create?
    requires |Picks(ss, es, i + 1, j)| >= |ss[j].tasks|
    ensures |ss[i].tasks| in Picks(ss, es, i + 1, j)
  {
    TraceStep(ss, es, i);
    CurrentStep(ss[i], es[i]);
    hide Trace, Picks, Step, Inv, Enabled;
    var t := |ss[i].tasks|;
    if t !in Picks(ss, es, i + 1, j) { BoundedBypass(ss, es, i + 1, j, t); }
  }

  // ---------- keys reach readers ----------

  /** The keys that the steps `i` up to `j` found room for, in order. */
  function Typed(ss: seq<System>, es: seq<Event>, i: nat, j: nat): seq<Key>
    requires i <= j <= |es| && |ss| == |es| + 1
    decreases j
  {
    if i == j then []
    else
      Typed(ss, es, i, j - 1) + Accepts(ss[j - 1], es[j - 1])
  }

  function Accepts(s: System, e: Event): seq<Key> {
    if e.Push? && |s.buffer| < 255 then [e.key] else []
  }

  lemma AcceptStep(s: System, e: Event)
    requires Inv(s) && Enabled(s, e)
    ensures Step(s, e).accepted == s.accepted + Accepts(s, e)
  {
  }

  lemma Assoc(a: seq<Key>, b: seq<Key>, c: seq<Key>)
    ensures a + b + c == a + (b + c)
  {
  }

  /** The keys accepted are those typed while fewer than 255 were buffered. */
  lemma {:induction false} KeysTyped(ss: seq<System>, es: seq<Event>, i: nat, j: nat)
    requires Trace(ss, es) && i <= j < |ss|
    ensures ss[j].accepted == ss[i].accepted + Typed(ss, es, i, j)
    decreases j
  {
    assert |ss| == |es| + 1;
    hide Trace, Inv, Step, Enabled, InRange, Accepts;
    if i < j {
      KeysTyped(ss, es, i, j - 1);
      TraceStep(ss, es, j - 1);
      AcceptStep(ss[j - 1], es[j - 1]);
      Assoc(ss[i].accepted, Typed(ss, es, i, j - 1), Accepts(ss[j - 1], es[j - 1]));
    }
  }

  /** From boot on, what readers were given and what is buffered, in this order, is what was typed. */
  lemma KeysRead(ss: seq<System>, es: seq<Event>, j: nat)
    requires Trace(ss, es) && j < |ss| && ss[0].accepted == []
    ensures ss[j].delivered + ss[j].buffer == Typed(ss, es, 0, j)
  {
    KeysTyped(ss, es, 0, j);
    TraceInv(ss, es, j);
    hide WaitingQueued, NoLostWakeup, WokenRunnable, OneRunning, InRange, Trace;
  }

  /** Who counts as woken for a key: the first reader in the queue when one is typed, until that reader looks. */
  lemma WokenStep(s: System, e: Event, t: nat)
    requires Inv(s) && Enabled(s, e)
    ensures t in Step(s, e).woken <==>
            || (t in s.woken && !(e.Read? && s.current == Some(t)))
            || (e.Push? && |s.buffer| < 255 && QueuedAt(s, 0, 0, t))
  {
  }

  /** A step gives a key to a reader if and only if it is a read and one is buffered: the oldest. */
  lemma KeyGiven(s: System, e: Event)
    requires Inv(s) && Enabled(s, e)
    ensures Step(s, e).delivered == s.delivered + if e.Read? && s.buffer != [] then [s.buffer[0]] else []
  {
  }

  lemma KeyStep(s: System, e: Event)
    requires Inv(s) && Enabled(s, e)
    ensures |Step(s, e).delivered| == |s.delivered| + if e.Read? && s.buffer != [] then 1 else 0
    ensures |Step(s, e).accepted| >= |s.accepted|
  {
  }

  lemma {:induction false} KeysGrow(ss: seq<System>, es: seq<Event>, i: nat, j: nat)
    requires Trace(ss, es) && i <= j < |ss|
    ensures |ss[i].delivered| <= |ss[j].delivered| && |ss[i].accepted| <= |ss[j].accepted|
    decreases j
  {
    assert |ss| == |es| + 1;
    hide Trace, Inv, Step, Enabled, InRange;
    if i < j {
      KeysGrow(ss, es, i, j - 1);
      TraceStep(ss, es, j - 1);
      KeyStep(ss[j - 1], es[j - 1]);
    }
  }

  lemma BufferSize(s: System)
    requires Inv(s)
    ensures |s.buffer| == |s.accepted| - |s.delivered|
  {
  }

  /** While no key is delivered, a buffer that holds one is not read. */
  lemma Unread(ss: seq<System>, es: seq<Event>, i: nat, k: nat, m: nat)
    requires Trace(ss, es) && i <= k < m < |ss| && ss[i].buffer != [] && |ss[m].delivered| <= |ss[i].delivered|
    ensures !es[k].Read?
  {
    KeysGrow(ss, es, i, k);
    KeysGrow(ss, es, k + 1, m);
    TraceInv(ss, es, i);
    TraceStep(ss, es, k);
    hide Trace, Inv, Step, Enabled, InRange;
    BufferSize(ss[i]);
    BufferSize(ss[k]);
    KeyStep(ss[k], es[k]);
  }

  /** A woken reader that has control. */
  predicate InControl(s: System, t: nat) {
    t in s.woken && s.current == Some(t) && Executing(s)
  }

  lemma ControlStep(s: System, e: Event, t: nat)
    requires Inv(s) && Enabled(s, e) && !e.Read? && t in s.woken
    ensures t in Step(s, e).woken
    ensures InControl(s, t) ==> InControl(Step(s, e), t) && !e.Pick?
    ensures PickedBy(s, e) == Some(t) ==> InControl(Step(s, e), t)
  {
    hide WaitingQueued, NoLostWakeup, KeysInOrder, Choice;
    match e
    case WakeAll(q) => WakeTasksOthers(s.tasks, s.queues[q], t);
    case _ =>
  }

  lemma {:induction false} StaysWoken(ss: seq<System>, es: seq<Event>, i: nat, j: nat, t: nat)
    requires Trace(ss, es) && i <= j < |ss| && t in ss[i].woken && forall k :: i <= k < j ==> !es[k].Read?
    ensures t in ss[j].woken && (InControl(ss[i], t) ==> InControl(ss[j], t))
    decreases j
  {
    assert |ss| == |es| + 1;
    hide Trace, Inv, Step, Enabled, InRange, InControl;
    if i < j {
      assert !es[j - 1].Read?;
      StaysWoken(ss, es, i, j - 1, t);
      TraceStep(ss, es, j - 1);
      ControlStep(ss[j - 1], es[j - 1], t);
    }
  }

  lemma {:induction false} PickOf(ss: seq<System>, es: seq<Event>, i: nat, j: nat, t: nat) returns (a: nat)
    requires i <= j <= |es| && |ss| == |es| + 1 && t in Picks(ss, es, i, j)
    ensures i <= a < j && PickedBy(ss[a], es[a]) == Some(t)
    decreases j
  {
    if t in PickSeq(ss[j - 1], es[j - 1]) { return j - 1; }
    a := PickOf(ss, es, i, j - 1, t);
  }

  /** A reader that got control keeps it, and nothing is picked, until a key is delivered. */
  lemma NoPickBeforeRead(ss: seq<System>, es: seq<Event>, a: nat, m: nat, t: nat)
    requires Trace(ss, es) && a <= m < |es| && InControl(ss[a], t) && forall k :: a <= k < m ==> !es[k].Read?
    ensures !es[m].Pick?
  {
    StaysWoken(ss, es, a, m, t);
    TraceStep(ss, es, m);
  }

  /** Once a key is buffered while a reader waits, a woken reader has control or gets it at the latest by as
      many picks as there are tasks; and by the next pick after that a key has been delivered. */
  lemma KeyIsFetched(ss: seq<System>, es: seq<Event>, i: nat, j: nat)
    requires Trace(ss, es) && i <= j < |ss| && Inv(ss[i]) && ss[i].queues[0] != [] && ss[i].buffer != []
    requires |Picks(ss, es, i, j)| >= |ss[j].tasks|
    ensures exists t :: t in ss[i].woken && (ss[i].current == Some(t) || t in Picks(ss, es, i, j))
    ensures forall m :: j <= m < |es| && es[m].Pick? ==> |ss[i].delivered| < |ss[m].delivered|
  {
    KeyHasRunnableReader(ss[i]);
    var t :| t in ss[i].woken && t < |ss[i].tasks| && (ss[i].tasks[t].state.Ready? || ss[i].tasks[t].state.Running?);
    if ss[i].tasks[t].state.Ready? && t !in Picks(ss, es, i, j) {
      BoundedBypass(ss, es, i, j, t);
      assert false;
    }
    forall m | j <= m < |es| && es[m].Pick? ensures |ss[i].delivered| < |ss[m].delivered| {
      if |ss[m].delivered| <= |ss[i].delivered| { FetchedBy(ss, es, i, j, m, t); }
    }
  }

  lemma FetchedBy(ss: seq<System>, es: seq<Event>, i: nat, j: nat, m: nat, t: nat)
    requires Trace(ss, es) && i <= j <= m < |es| && ss[i].buffer != [] && t in ss[i].woken && t < |ss[i].tasks|
    requires ss[i].tasks[t].state.Running? || t in Picks(ss, es, i, j)
    requires |ss[m].delivered| <= |ss[i].delivered|
    ensures !es[m].Pick?
  {
    assert |ss| == |es| + 1;
    TraceInv(ss, es, i);
    forall k | i <= k < m ensures !es[k].Read? { Unread(ss, es, i, k, m); }
    if ss[i].tasks[t].state.Running? {
      NoPickBeforeRead(ss, es, i, m, t);
    } else {
      hide Trace, Inv, Step, Enabled, InRange, Picks;
      var a := PickOf(ss, es, i, j, t);
      StaysWoken(ss, es, i, a, t);
      TraceStep(ss, es, a);
      ControlStep(ss[a], es[a], t);
      NoPickBeforeRead(ss, es, a + 1, m, t);
    }
  }

  // ---------- waiting in turn ----------

  /** The step wakes one task of queue `q`, if one waits there. */
  predicate WakesOne(s: System, e: Event, q: nat) {
    (e.WakeOne? && e.queue == q) || (e.Push? && q == 0 && |s.buffer| < 255)
  }

  /** A queued task moves up when its queue is woken, leaves it ready when it is first or all are woken, and
      otherwise stays where it is. */
  lemma WaiterMoves(s: System, e: Event, q: nat, i: nat, t: nat)
    requires Inv(s) && Enabled(s, e) && QueuedAt(s, q, i, t)
    ensures var s' := Step(s, e);
            if e == WakeAll(q) || (WakesOne(s, e, q) && i == 0) then t < |s'.tasks| && s'.tasks[t].state.Ready?
            else QueuedAt(s', q, if WakesOne(s, e, q) then i - 1 else i, t)
  {
    assert s.queues[q][i] < |s.tasks| && s.tasks[t].state.Waiting?;
    if e == WakeAll(q) { AllReady(s.tasks, s.queues[q], i); }
  }

  lemma {:induction false} AllReady(ts: seq<Task>, q: seq<nat>, i: nat)
    requires forall k :: 0 <= k < |q| ==> q[k] < |ts|
    requires i < |q| && (ts[q[i]].state.Waiting? || ts[q[i]].state.Ready?)
    ensures WakeTasks(ts, q)[q[i]].state.Ready?
    decreases |q|
  {
    if i > 0 {
      AllReady(WakeTask(ts, q[0]), q[1..], i - 1);
    } else {
      WakeTasksOthers(WakeTask(ts, q[0]), q[1..], q[0]);
    }
  }

  /** How often queue `q` was woken by one in the steps `i` up to `j`. */
  function Wakes(ss: seq<System>, es: seq<Event>, q: nat, i: nat, j: nat): nat
    requires i <= j <= |es| && |ss| == |es| + 1
    decreases j
  {
    if i == j then 0 else Wakes(ss, es, q, i, j - 1) + if WakesOne(ss[j - 1], es[j - 1], q) then 1 else 0
  }

  /** First come, first woken: behind `place` others, a task waits through `place` wakeups and no more. */
  lemma {:induction false} WokenInTurn(ss: seq<System>, es: seq<Event>, q: nat, place: nat, t: nat, i: nat, j: nat)
    returns (ahead: nat)
    requires Trace(ss, es) && i <= j < |ss| && QueuedAt(ss[i], q, place, t)
    requires forall k :: i <= k < j ==> es[k] != WakeAll(q)
    requires Wakes(ss, es, q, i, j) <= place
    ensures ahead + Wakes(ss, es, q, i, j) == place && QueuedAt(ss[j], q, ahead, t)
    decreases j
  {
    if i == j { return place; }
    assert |ss| == |es| + 1 && es[j - 1] != WakeAll(q);
    hide Trace, Inv, Step, Enabled, InRange, WakesOne, QueuedAt;
    ahead := WokenInTurn(ss, es, q, place, t, i, j - 1);
    TraceStep(ss, es, j - 1);
    WaiterMoves(ss[j - 1], es[j - 1], q, ahead, t);
    if WakesOne(ss[j - 1], es[j - 1], q) { ahead := ahead - 1; }
  }

  /** The wakeup after that makes it ready. */
  lemma WokenAtLast(ss: seq<System>, es: seq<Event>, q: nat, place: nat, t: nat, i: nat, j: nat)
    requires Trace(ss, es) && i <= j < |es| && QueuedAt(ss[i], q, place, t)
    requires forall k :: i <= k < j ==> es[k] != WakeAll(q)
    requires Wakes(ss, es, q, i, j) == place && WakesOne(ss[j], es[j], q)
    ensures t < |ss[j + 1].tasks| && ss[j + 1].tasks[t].state.Ready?
  {
    hide Step, Enabled, WakesOne, Wakes;
    var ahead := WokenInTurn(ss, es, q, place, t, i, j);
    TraceStep(ss, es, j);
    WaiterMoves(ss[j], es[j], q, ahead, t);
  }

  /** The step puts the current task into queue `q`; a read does so if there is no key. */
  predicate Joins(s: System, e: Event, q: nat) {
    e == Block(q) || (e.Read? && q == 0 && s.current.Some? && s.buffer == [])
  }

  lemma JoinsAtEnd(ss: seq<System>, es: seq<Event>, q: nat, i: nat)
    requires Trace(ss, es) && i < |es| && Joins(ss[i], es[i], q)
    ensures q < |ss[i].queues| && ss[i].current.Some?
    ensures QueuedAt(ss[i + 1], q, |ss[i].queues[q]|, ss[i].current.value)
  {
    TraceStep(ss, es, i);
    hide WaitingQueued, NoLostWakeup, KeysInOrder, WokenRunnable;
  }

  lemma QueuedWaits(s: System, q: nat, i: nat, t: nat)
    requires Inv(s) && QueuedAt(s, q, i, t)
    ensures t < |s.tasks| && s.tasks[t].state.Waiting?
  {
    hide NoLostWakeup, KeysInOrder, WokenRunnable;
  }

  /** From the step that blocks it, a task waits through as many wakeups as tasks were ahead of it. */
  lemma WaitsItsTurn(ss: seq<System>, es: seq<Event>, q: nat, i: nat, j: nat)
    requires Trace(ss, es) && i < j < |ss| && Joins(ss[i], es[i], q)
    requires forall k :: i < k < j ==> es[k] != WakeAll(q)
    ensures q < |ss[i].queues| && ss[i].current.Some?
    ensures Wakes(ss, es, q, i + 1, j) <= |ss[i].queues[q]| ==>
              ss[i].current.value < |ss[j].tasks| && ss[j].tasks[ss[i].current.value].state.Waiting?
    ensures j < |es| && Wakes(ss, es, q, i + 1, j) == |ss[i].queues[q]| && WakesOne(ss[j], es[j], q) ==>
              ss[i].current.value < |ss[j + 1].tasks| && ss[j + 1].tasks[ss[i].current.value].state.Ready?
  {
    JoinsAtEnd(ss, es, q, i);
    TraceInv(ss, es, j);
    hide Trace, Step, Enabled, WakesOne, Wakes, Inv, QueuedAt;
    var t, place := ss[i].current.value, |ss[i].queues[q]|;
    if Wakes(ss, es, q, i + 1, j) <= place {
      var ahead := WokenInTurn(ss, es, q, place, t, i + 1, j);
      QueuedWaits(ss[j], q, ahead, t);
    }
    if j < |es| && Wakes(ss, es, q, i + 1, j) == place && WakesOne(ss[j], es[j], q) {
      WokenAtLast(ss, es, q, place, t, i + 1, j);
    }
  }
}
