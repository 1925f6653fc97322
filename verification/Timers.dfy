/** kernel/timer.c: the timer table, polled to feed the work queue, and running the work with callbacks that
    may ask for more. Every call is a run of the machine in `TimerLedger`. */
module Timers {
  import opened Options
  import opened TimerLedger
  import opened TimerRuns
  import opened WorkQueue

  const TIMER_MAX_ITEMS: nat := 64

  class TimerTable {
    const items: array<Option<Timer>>
    const work: WorkRing
    var nextSeq: nat
    var fired: nat
    var failed: nat
    ghost var attempts: nat
    ghost var known: seq<Timer>
    ghost var handed: seq<nat>

    /** Every attempt to set a timer is pending, fired or failed. */
    ghost predicate Valid()
      reads this, items
    {
      && items.Length == TIMER_MAX_ITEMS && nextSeq == |known| + 1
      && (forall i :: 0 <= i < 64 && items[i].Some? ==> items[i].value.func != 0)
      && attempts == Pending(items[..], 64) + fired + failed
    }

    ghost function State(): State
      reads this, items, work
    {
      TimerLedger.State(items[..], known, handed, work.accepted, work.origins, work.popped, work.pending)
    }

    constructor (work: WorkRing)
      ensures Valid() && fresh(items) && this.work == work && attempts == 0
      ensures known == [] && handed == [] && items[..] == Start().slots
    {
      this.work := work;
      items := new Option<Timer>[64](_ => None);
      nextSeq, fired, failed, attempts := 1, 0, 0, 0;
      known, handed := [], [];
      new;
      NonePending(items[..], 64);
    }

    method Schedule(now: nat, delay: nat, func: nat, arg: nat) returns (ok: bool)
      requires Valid()
      modifies this`nextSeq, this`failed, this`attempts, this`known, items
      ensures Valid() && State() == Step(old(State()), SetTimer(now, delay, func, arg))
      ensures ok == (func != 0 && exists i :: 0 <= i < 64 && old(items[i]).None?)
      ensures known == if !ok then old(known)
                       else old(known) + [Timer(now + (if delay == 0 then 1 else delay), func, arg, |old(known)| + 1)]
      ensures attempts == old(attempts) + if func != 0 then 1 else 0
    {
      if func == 0 { return false; }
      var ticks := if delay == 0 then 1 else delay;
      attempts := attempts + 1;
      ok := false;
      var i := 0;
      while i < 64 && items[i].Some?
        invariant i <= 64 && forall k :: 0 <= k < i ==> items[k].Some?
        invariant FreeSlot(items[..], 0) == FreeSlot(items[..], i)
      {
        i := i + 1;
      }
      if i < 64 {
        var t := Timer(now + ticks, func, arg, nextSeq);
        ghost var was := items[..];
        PendingSet(was, i, Some(t), 64);
        items[i] := Some(t);
        assert items[..] == was[i := Some(t)];
        known := known + [t];
        nextSeq := nextSeq + 1;
        ok := true;
      } else {
        failed := failed + 1;
      }
    }

    /** The first half of `timer_poll`: takes the due timers out of their slots. */
    method Collect(now: nat) returns (due: seq<Timer>)
      requires Valid()
      modifies this`handed, items
      ensures items.Length == 64 && items[..] == Cleared(old(items[..]), 64, now)
      ensures due == DueOf(old(items[..]), 64, now) && handed == old(handed) + Numbers(due)
      ensures attempts == Pending(items[..], 64) + |due| + fired + failed
      ensures forall k :: 0 <= k < |due| ==> due[k].func != 0
    {
      ghost var was := items[..];
      assert was == Cleared(was, 0, now);
      due := [];
      var i := 0;
      while i < 64
        invariant i <= 64 && items.Length == 64
        invariant items[..] == Cleared(was, i, now) && handed == old(handed)
        invariant due == DueOf(was, i, now) && attempts == Pending(items[..], 64) + |due| + fired + failed
        invariant forall k :: 0 <= k < |due| ==> due[k].func != 0
      {
        ghost var cs := items[..];
        assert items[i] == was[i];
        PendingSet(cs, i, Blank(cs[i], now), 64);
        if items[i].Some? && now >= items[i].value.due {
          due := due + [items[i].value];
          items[i] := None;
        }
        assert items[..] == cs[i := Blank(cs[i], now)] == Cleared(was, i + 1, now);
        i := i + 1;
      }
      handed := handed + Numbers(due);
    }

    /** The second half of `timer_poll`: hands the timers to the work queue, as far as it has room. */
    method HandOver(due: seq<Timer>) returns (count: nat)
      requires work.Valid() && forall k :: 0 <= k < |due| ==> due[k].func != 0
      modifies work`head, work`count, work`nextSeq, work`dropped, work`accepted, work`origins, work`pending, work.items
      ensures work.Valid() && count == Room(due, |old(work.pending)|)
      ensures work.accepted == old(work.accepted) + AsWork(due[..count], |old(work.accepted)|)
      ensures work.pending == old(work.pending) + AsWork(due[..count], |old(work.accepted)|)
      ensures work.origins == old(work.origins) + Numbers(due[..count])
    {
      hide Holds, Numbered;
      count := 0;
      var k := 0;
      while k < |due|
        invariant k <= |due| && work.Valid() && count <= k
        invariant |work.pending| == |old(work.pending)| + count && (count < k ==> |work.pending| == 64)
        invariant work.accepted == old(work.accepted) + AsWork(due[..count], |old(work.accepted)|)
        invariant work.pending == old(work.pending) + AsWork(due[..count], |old(work.accepted)|)
        invariant work.origins == old(work.origins) + Numbers(due[..count])
      {
        var ok := work.Schedule(due[k].func, due[k].arg, due[k].number);
        if ok {
          assert due[..count + 1] == due[..count] + [due[count]];
          count := count + 1;
        }
        k := k + 1;
      }
    }

    method Poll(now: nat) returns (dueCount: nat)
      requires Valid() && work.Valid()
      modifies this`fired, this`failed, this`handed, items
      modifies work`head, work`count, work`nextSeq, work`dropped, work`accepted, work`origins, work`pending, work.items
      ensures Valid() && work.Valid() && attempts == old(attempts)
      ensures State() == Step(old(State()), Event.Poll(now))
      ensures var due := DueOf(old(items[..]), 64, now); var m := Room(due, |old(work.pending)|);
              dueCount == |due| && fired == old(fired) + m && failed == old(failed) + |due| - m
    {
      hide Holds, Numbered;
      var due := Collect(now);
      var m := HandOver(due);
      fired, failed := fired + m, failed + |due| - m;
      return |due|;
    }
  }

  // ---------- running the work ----------

  /** What a callback may ask for; `late` is how many ticks after the start of the drain it asks. */
  datatype Request =
    | AskWork(func: nat, arg: nat)
    | AskTimer(late: nat, delay: nat, func: nat, arg: nat)
    | AskPoll(late: nat)

  function Asked(r: Request, now: nat): Event {
    match r
    case AskWork(f, a) => AddWork(f, a)
    case AskTimer(late, delay, f, a) => SetTimer(now + late, delay, f, a)
    case AskPoll(late) => Event.Poll(now + late)
  }

  function AskedAll(rs: seq<Request>, now: nat): seq<Event> {
    seq(|rs|, k requires 0 <= k < |rs| => Asked(rs[k], now))
  }

  /** What one callback does. */
  method CallBack(timers: TimerTable, now: nat, requests: seq<Request>)
    requires timers.Valid() && timers.work.Valid()
    modifies timers`nextSeq, timers`fired, timers`failed, timers`attempts, timers`known, timers`handed, timers.items
    modifies timers.work`head, timers.work`count, timers.work`nextSeq, timers.work`dropped
    modifies timers.work`accepted, timers.work`origins, timers.work`pending, timers.work.items
    ensures timers.Valid() && timers.work.Valid()
    ensures timers.State() == RunAll(old(timers.State()), AskedAll(requests, now))
  {
    hide Holds, Numbered, Pending, Step;
    ghost var s := timers.State();
    var k := 0;
    while k < |requests|
      invariant k <= |requests| && timers.Valid() && timers.work.Valid()
      invariant timers.State() == RunAll(s, AskedAll(requests[..k], now))
    {
      AskOne(timers, now, requests[k]);
      AskedSnoc(s, requests, now, k);
      k := k + 1;
    }
    assert requests[..k] == requests;
  }

  method AskOne(timers: TimerTable, now: nat, r: Request)
    requires timers.Valid() && timers.work.Valid()
    modifies timers`nextSeq, timers`fired, timers`failed, timers`attempts, timers`known, timers`handed, timers.items
    modifies timers.work`head, timers.work`count, timers.work`nextSeq, timers.work`dropped
    modifies timers.work`accepted, timers.work`origins, timers.work`pending, timers.work.items
    ensures timers.Valid() && timers.work.Valid() && timers.State() == Step(old(timers.State()), Asked(r, now))
  {
    hide Holds, Numbered, Pending, DoSet, DoPoll;
    match r {
      case AskWork(f, a) => var ok := timers.work.Schedule(f, a, 0);
      case AskTimer(late, delay, f, a) => var ok := timers.Schedule(now + late, delay, f, a);
      case AskPoll(late) => var n := timers.Poll(now + late);
    }
  }

  lemma AskedSnoc(s: State, rs: seq<Request>, now: nat, k: nat)
    requires k < |rs|
    ensures RunAll(s, AskedAll(rs[..k + 1], now)) == Step(RunAll(s, AskedAll(rs[..k], now)), Asked(rs[k], now))
  {
    var es := AskedAll(rs[..k + 1], now);
    assert es[..k] == AskedAll(rs[..k], now) && es[k] == Asked(rs[k], now);
  }

  /** What each callback asks for, given its work item and how many ran before. */
  type Reaction = (Work, nat) -> seq<Request>

  /** The events of running one item. */
  function ItemEvents(s: State, now: nat, react: Reaction): seq<Event>
    requires s.pending != []
  {
    [RunWork] + AskedAll(react(s.pending[0], |s.popped|), now)
  }

  /** The events of running at most `limit` items, one after another, as long as any are pending. */
  function DrainEvents(s: State, limit: nat, now: nat, react: Reaction): seq<Event>
    decreases limit
  {
    if limit == 0 || s.pending == [] then []
    else
      var es := ItemEvents(s, now, react);
      es + DrainEvents(RunAll(s, es), limit - 1, now, react)
  }

  /** `workqueue_run_pending`: runs at most `max` items in order; `react` tells what each callback asks
      for. */
  method RunPending(timers: TimerTable, max: nat, now: nat, react: Reaction) returns (ran: nat)
    requires timers.Valid() && timers.work.Settled()
    modifies timers`nextSeq, timers`fired, timers`failed, timers`attempts, timers`known, timers`handed, timers.items
    modifies timers.work, timers.work.items
    ensures timers.Valid() && timers.work.Settled() && ran <= Limit(max)
    ensures timers.State() == RunAll(old(timers.State()), DrainEvents(old(timers.State()), Limit(max), now, react))
    ensures |timers.work.popped| == |old(timers.work.popped)| + ran
    ensures ran < Limit(max) ==> timers.work.pending == []
    ensures ran <= (if 1 <= max <= 64 then max else 64)
    ensures ran == (if 1 <= max <= 64 then max else 64) || timers.work.pending == []
  {
    hide Holds, Numbered, Pending, Step, RunAll, Draining, DrainEvents, ItemEvents, AskedAll;
    var work := timers.work;
    ghost var s, done := timers.State(), [];
    StartDrain(s, Limit(max), now, react);
    ran := 0;
    var more := true;
    while ran < Limit(max) && more
      invariant ran <= Limit(max) && timers.Valid() && work.Settled() && (!more ==> work.pending == [])
      invariant |work.popped| == |old(work.popped)| + ran
      invariant Draining(s, done, timers.State(), Limit(max), Limit(max) - ran, now, react)
      decreases Limit(max) - ran, more
    {
      ghost var t := timers.State();
      var item;
      more, item := work.Pop();
      if more {
        CallBack(timers, now, react(item, work.executed));
        work.executed := work.executed + 1;
        ran := ran + 1;
        ItemRun(t, now, react);
        DrainStep(s, done, t, timers.State(), Limit(max), Limit(max) - ran + 1, now, react);
        done := done + ItemEvents(t, now, react);
      }
    }
    EndDrain(s, done, timers.State(), Limit(max), Limit(max) - ran, now, react);
  }

  /** The events `done` led from `s` to `t`, and `left` items may still run. */
  ghost predicate Draining(s: State, done: seq<Event>, t: State, limit: nat, left: nat, now: nat, react: Reaction) {
    && t == RunAll(s, done)
    && DrainEvents(s, limit, now, react) == done + DrainEvents(t, left, now, react)
  }

  lemma StartDrain(s: State, limit: nat, now: nat, react: Reaction)
    ensures Draining(s, [], s, limit, limit, now, react)
  {
    hide Step, DrainEvents;
    assert [] + DrainEvents(s, limit, now, react) == DrainEvents(s, limit, now, react);
  }

  lemma DrainStep(s: State, done: seq<Event>, t: State, t': State, limit: nat, left: nat, now: nat, react: Reaction)
    requires Draining(s, done, t, limit, left, now, react) && left > 0 && t.pending != []
    requires t' == RunAll(t, ItemEvents(t, now, react))
    ensures Draining(s, done + ItemEvents(t, now, react), t', limit, left - 1, now, react)
  {
    hide Step, RunAll, ItemEvents;
    var es := ItemEvents(t, now, react);
    RunAllConcat(s, done, es);
    assert done + (es + DrainEvents(t', left - 1, now, react)) == done + es + DrainEvents(t', left - 1, now, react);
  }

  lemma EndDrain(s: State, done: seq<Event>, t: State, limit: nat, left: nat, now: nat, react: Reaction)
    requires Draining(s, done, t, limit, left, now, react) && (left == 0 || t.pending == [])
    ensures t == RunAll(s, DrainEvents(s, limit, now, react))
  {
    hide Step, RunAll;
    assert done + [] == done;
  }

  /** Popping an item and then what its callback asks for. */
  lemma ItemRun(t: State, now: nat, react: Reaction)
    requires t.pending != []
    ensures RunAll(t, ItemEvents(t, now, react)) ==
            RunAll(DoRun(t), AskedAll(react(t.pending[0], |t.popped|), now))
  {
    RunAllConcat(t, [RunWork], AskedAll(react(t.pending[0], |t.popped|), now));
    assert RunAll(t, [RunWork]) == DoRun(t) by { assert [RunWork][..0] == []; }
  }

  function Limit(max: nat): nat {
    if max == 0 || max > WORKQUEUE_SIZE then WORKQUEUE_SIZE else max
  }

  // ---------- any run of calls ----------

  datatype Call =
    | CallSchedule(now: nat, delay: nat, func: nat, arg: nat)
    | CallPoll(now: nat)
    | CallWork(func: nat, arg: nat)
    | CallRun(max: nat, now: nat, react: Reaction)

  function CallEvents(s: State, c: Call): seq<Event> {
    match c
    case CallSchedule(now, delay, f, a) => [SetTimer(now, delay, f, a)]
    case CallPoll(now) => [Event.Poll(now)]
    case CallWork(f, a) => [AddWork(f, a)]
    case CallRun(max, now, react) => DrainEvents(s, Limit(max), now, react)
  }

  /** The events of a run of calls from the beginning. */
  function EventsOf(calls: seq<Call>): seq<Event> {
    if calls == [] then []
    else
      var front := EventsOf(calls[..|calls| - 1]);
      front + CallEvents(After(front), calls[|calls| - 1])
  }

  lemma EventsSnoc(calls: seq<Call>, k: nat)
    requires k < |calls|
    ensures EventsOf(calls[..k + 1]) == EventsOf(calls[..k]) + CallEvents(After(EventsOf(calls[..k])), calls[k])
    ensures After(EventsOf(calls[..k + 1])) ==
            RunAll(After(EventsOf(calls[..k])), CallEvents(After(EventsOf(calls[..k])), calls[k]))
  {
    hide Step, DrainEvents;
    assert calls[..k + 1][..k] == calls[..k];
    RunAllConcat(Start(), EventsOf(calls[..k]), CallEvents(After(EventsOf(calls[..k])), calls[k]));
  }

  lemma OneEvent(s: State, e: Event)
    ensures RunAll(s, [e]) == Step(s, e)
  {
    hide Step;
    assert [e][..0] == [];
  }

  method Perform(timers: TimerTable, c: Call)
    requires timers.Valid() && timers.work.Settled()
    modifies timers`nextSeq, timers`fired, timers`failed, timers`attempts, timers`known, timers`handed, timers.items
    modifies timers.work, timers.work.items
    ensures timers.Valid() && timers.work.Settled()
    ensures timers.State() == RunAll(old(timers.State()), CallEvents(old(timers.State()), c))
  {
    hide Holds, Numbered, Pending, DoSet, DoPoll, RunAll, DrainEvents;
    ghost var s := timers.State();
    match c {
      case CallSchedule(now, delay, f, a) =>
        OneEvent(s, SetTimer(now, delay, f, a));
        var ok := timers.Schedule(now, delay, f, a);
      case CallPoll(now) =>
        OneEvent(s, Event.Poll(now));
        var n := timers.Poll(now);
      case CallWork(f, a) =>
        OneEvent(s, AddWork(f, a));
        var ok := timers.work.Schedule(f, a, 0);
      case CallRun(max, now, react) =>
        var ran := RunPending(timers, max, now, react);
    }
  }

  /** Any run of calls from the beginning: the tables hold what the machine computes, so that every timer is
      handed over exactly when a poll was at or after its due tick, and work runs in order. */
  method Run(calls: seq<Call>) returns (timers: TimerTable)
    ensures fresh(timers) && timers.Valid() && timers.work.Settled() && timers.State() == After(EventsOf(calls))
    ensures Ordered(EventsOf(calls)) ==> forall n :: 1 <= n <= |timers.known| ==>
              (n in timers.handed <==> Polled(EventsOf(calls), timers.known[n - 1].due))
    ensures timers.work.accepted == timers.work.popped + timers.work.pending
  {
    hide Holds, Numbered, Pending, RunAll, CallEvents, After, EventsOf, Polled, Ordered;
    var work := new WorkRing();
    timers := new TimerTable(work);
    FromStart(timers.State(), calls);
    var k := 0;
    while k < |calls|
      invariant k <= |calls| && timers.Valid() && timers.work == work && work.Settled()
      invariant fresh(timers) && fresh(timers.items) && fresh(work) && fresh(work.items)
      invariant timers.State() == After(EventsOf(calls[..k]))
    {
      Perform(timers, calls[k]);
      EventsSnoc(calls, k);
      k := k + 1;
    }
    assert calls[..k] == calls;
    ghost var es := EventsOf(calls);
    if Ordered(es) {
      forall n | 1 <= n <= |timers.known| ensures n in timers.handed <==> Polled(es, timers.known[n - 1].due) {
        HandedIffPolled(es, n);
      }
    }
  }

  lemma FromStart(s: State, calls: seq<Call>)
    requires s == Start()
    ensures s == After(EventsOf(calls[..0]))
  {
  }
}
