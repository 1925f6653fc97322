/** Timer slots and the work queue they feed (kernel/timer.c, kernel/workqueue.c) as one step machine on
    values. */
module TimerLedger {
  import opened Options
  import opened WorkQueue

  datatype Timer = Timer(due: nat, func: nat, arg: nat, number: nat)

  type Slots = seq<Option<Timer>>

  // ---------- slots ----------

  predicate IsDue(s: Option<Timer>, now: nat) {
    s.Some? && now >= s.value.due
  }

  function Blank(s: Option<Timer>, now: nat): Option<Timer> {
    if IsDue(s, now) then None else s
  }

  /** The slots once the due timers have been taken out of the first `i` of them. */
  function Cleared(slots: Slots, i: nat, now: nat): (r: Slots)
    ensures |r| == |slots|
  {
    seq(|slots|, k requires 0 <= k < |slots| => if k < i then Blank(slots[k], now) else slots[k])
  }

  /** The timers among the first `i` slots that are due, in order. */
  function DueOf(slots: Slots, i: nat, now: nat): seq<Timer>
    requires i <= |slots|
  {
    if i == 0 then []
    else DueOf(slots, i - 1, now) + if IsDue(slots[i - 1], now) then [slots[i - 1].value] else []
  }

  /** The first free slot; |slots| when there is none. */
  function FreeSlot(slots: Slots, i: nat): (r: nat)
    requires i <= |slots|
    ensures i <= r <= |slots| && (r < |slots| ==> slots[r].None?)
    ensures forall k :: i <= k < r ==> slots[k].Some?
    decreases |slots| - i
  {
    if i == |slots| || slots[i].None? then i else FreeSlot(slots, i + 1)
  }

  /** How many of the first `i` slots hold a timer. */
  function Pending(slots: Slots, i: nat): (r: nat)
    requires i <= |slots|
    ensures r <= i
  {
    if i == 0 then 0 else Pending(slots, i - 1) + if slots[i - 1].Some? then 1 else 0
  }

  lemma {:induction false} PendingSet(slots: Slots, k: nat, v: Option<Timer>, i: nat)
    requires k < |slots| && i <= |slots|
    ensures Pending(slots[k := v], i) ==
            Pending(slots, i) + (if k < i then (if v.Some? then 1 else 0) - (if slots[k].Some? then 1 else 0) else 0)
  {
    if i > 0 { PendingSet(slots, k, v, i - 1); }
  }

  lemma {:induction false} NonePending(slots: Slots, i: nat)
    requires i <= |slots| && forall k :: 0 <= k < |slots| ==> slots[k].None?
    ensures Pending(slots, i) == 0
  {
    if i > 0 { NonePending(slots, i - 1); }
  }

  /** Every due timer is one of the slots'. */
  lemma {:induction false} DueFromSlot(slots: Slots, i: nat, now: nat, p: nat) returns (k: nat)
    requires i <= |slots| && p < |DueOf(slots, i, now)|
    ensures k < i && IsDue(slots[k], now) && slots[k].value == DueOf(slots, i, now)[p]
  {
    if p < |DueOf(slots, i - 1, now)| {
      k := DueFromSlot(slots, i - 1, now, p);
    } else {
      k := i - 1;
    }
  }

  /** The due timers come in the order of their slots. */
  lemma {:induction false} DueAscending(slots: Slots, i: nat, now: nat, p: nat, q: nat) returns (k: nat, l: nat)
    requires i <= |slots| && p < q < |DueOf(slots, i, now)|
    ensures k < l < i && IsDue(slots[k], now) && IsDue(slots[l], now)
    ensures slots[k].value == DueOf(slots, i, now)[p] && slots[l].value == DueOf(slots, i, now)[q]
  {
    if q < |DueOf(slots, i - 1, now)| {
      k, l := DueAscending(slots, i - 1, now, p, q);
    } else {
      k := DueFromSlot(slots, i - 1, now, p);
      l := i - 1;
    }
  }

  lemma {:induction false} SlotIsDue(slots: Slots, i: nat, now: nat, k: nat) returns (p: nat)
    requires k < i <= |slots| && IsDue(slots[k], now)
    ensures p < |DueOf(slots, i, now)| && DueOf(slots, i, now)[p] == slots[k].value
  {
    if k == i - 1 {
      p := |DueOf(slots, i - 1, now)|;
    } else {
      p := SlotIsDue(slots, i - 1, now, k);
    }
  }

  // ---------- the machine ----------

  /** `timers` are all timers accepted so far and `handed` the numbers of those that polls handed over.
      `origins[i]` is the timer that the work `accepted[i]` comes from, 0 if none. */
  datatype State = State(slots: Slots, timers: seq<Timer>, handed: seq<nat>, accepted: seq<Work>,
                         origins: seq<nat>, popped: seq<Work>, pending: seq<Work>)

  /** `timer_schedule_ticks`, `timer_poll`, `workqueue_schedule`, and taking one item to run it. */
  datatype Event =
    | SetTimer(now: nat, delay: nat, func: nat, arg: nat)
    | Poll(now: nat)
    | AddWork(func: nat, arg: nat)
    | RunWork

  function Start(): State {
    State(seq(64, _ => None), [], [], [], [], [], [])
  }

  function DoSet(s: State, now: nat, delay: nat, func: nat, arg: nat): State {
    var i := FreeSlot(s.slots, 0);
    if func == 0 || i == |s.slots| then s
    else
      var t := Timer(now + (if delay == 0 then 1 else delay), func, arg, |s.timers| + 1);
      s.(slots := s.slots[i := Some(t)], timers := s.timers + [t])
  }

  /** How many of `due` the work queue takes when it holds `pending` items. */
  function Room(due: seq<Timer>, pending: nat): (r: nat)
    ensures r <= |due|
  {
    if pending >= 64 then 0 else if pending + |due| <= 64 then |due| else 64 - pending
  }

  function AsWork(ts: seq<Timer>, base: nat): seq<Work> {
    seq(|ts|, k requires 0 <= k < |ts| => Work(ts[k].func, ts[k].arg, base + k + 1))
  }

  function Numbers(ts: seq<Timer>): seq<nat> {
    seq(|ts|, k requires 0 <= k < |ts| => ts[k].number)
  }

  /** The work queue once it was offered the timers `due`. */
  function Feed(s: State, due: seq<Timer>): State {
    var m := Room(due, |s.pending|);
    var more := AsWork(due[..m], |s.accepted|);
    s.(accepted := s.accepted + more, pending := s.pending + more, origins := s.origins + Numbers(due[..m]))
  }

  function DoPoll(s: State, now: nat): State {
    var due := DueOf(s.slots, |s.slots|, now);
    Feed(s.(slots := Cleared(s.slots, |s.slots|, now), handed := s.handed + Numbers(due)), due)
  }

  function DoAdd(s: State, func: nat, arg: nat, origin: nat): State {
    if func == 0 || |s.pending| >= 64 then s
    else
      var w := Work(func, arg, |s.accepted| + 1);
      s.(accepted := s.accepted + [w], pending := s.pending + [w], origins := s.origins + [origin])
  }

  function DoRun(s: State): State {
    if s.pending == [] then s else s.(popped := s.popped + [s.pending[0]], pending := s.pending[1..])
  }

  function Step(s: State, e: Event): State {
    match e
    case SetTimer(now, delay, func, arg) => DoSet(s, now, delay, func, arg)
    case Poll(now) => DoPoll(s, now)
    case AddWork(func, arg) => DoAdd(s, func, arg, 0)
    case RunWork => DoRun(s)
  }

  function RunAll(s: State, es: seq<Event>): State {
    if es == [] then s else Step(RunAll(s, es[..|es| - 1]), es[|es| - 1])
  }

  /** The state after a run from the beginning. */
  function After(es: seq<Event>): State {
    RunAll(Start(), es)
  }

  lemma AfterSnoc(es: seq<Event>, k: nat)
    requires k < |es|
    ensures After(es[..k + 1]) == Step(After(es[..k]), es[k])
  {
    assert es[..k + 1][..k] == es[..k];
  }

  lemma {:induction false} RunAllConcat(s: State, es: seq<Event>, fs: seq<Event>)
    ensures RunAll(s, es + fs) == RunAll(RunAll(s, es), fs)
    decreases |fs|
  {
    hide Step;
    if fs == [] {
      assert es + fs == es;
    } else {
      var front := fs[..|fs| - 1];
      RunAllConcat(s, es, front);
      assert (es + fs)[..|es + fs| - 1] == es + front;
    }
  }
}
