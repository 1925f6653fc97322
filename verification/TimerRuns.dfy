/** Every run of timer and work-queue calls: a timer is handed over exactly once, by the first poll at or after
    its due tick; it becomes work exactly once, if there was room; and work runs in order of acceptance. */
module TimerRuns {
  import opened Options
  import opened WorkQueue
  import opened TimerLedger

  /** The clock does not go back. */
  ghost predicate Ordered(es: seq<Event>) {
    forall i, j :: 0 <= i < j < |es| && Timed(es[i]) && Timed(es[j]) ==> es[i].now <= es[j].now
  }

  predicate Timed(e: Event) {
    e.SetTimer? || e.Poll?
  }

  /** Some poll of the run was at tick `due` or later. */
  ghost predicate Polled(es: seq<Event>, due: nat) {
    exists k :: 0 <= k < |es| && es[k].Poll? && es[k].now >= due
  }

  /** Poll `k` is the first at tick `due` or later. */
  ghost predicate FirstPoll(es: seq<Event>, due: nat, k: nat) {
    k < |es| && es[k].Poll? && es[k].now >= due && forall j :: 0 <= j < k && es[j].Poll? ==> es[j].now < due
  }

  ghost predicate Waiting(slots: Slots, n: nat) {
    exists i :: 0 <= i < |slots| && slots[i].Some? && slots[i].value.number == n
  }

  // ---------- what every run keeps of the timers ----------

  predicate Known(ts: seq<Timer>, t: Timer) {
    1 <= t.number <= |ts| && ts[t.number - 1] == t
  }

  ghost predicate SlotsOk(es: seq<Event>, s: State) {
    && |s.slots| == 64
    && (forall i :: 0 <= i < 64 && s.slots[i].Some? ==>
          Known(s.timers, s.slots[i].value) && !Polled(es, s.slots[i].value.due))
    && (forall i, j :: 0 <= i < j < 64 && s.slots[i].Some? && s.slots[j].Some? ==>
          s.slots[i].value.number != s.slots[j].value.number)
  }

  ghost predicate HandedOk(es: seq<Event>, s: State) {
    && (forall i :: 0 <= i < |s.handed| ==>
          1 <= s.handed[i] <= |s.timers| && Polled(es, s.timers[s.handed[i] - 1].due))
    && (forall i, j :: 0 <= i < j < |s.handed| ==> s.handed[i] != s.handed[j])
  }

  ghost predicate AllPlaced(s: State) {
    && (forall k :: 0 <= k < |s.timers| ==> s.timers[k].number == k + 1 && s.timers[k].func != 0)
    && (forall n: nat :: 1 <= n <= |s.timers| ==> Waiting(s.slots, n) || n in s.handed)
  }

  ghost predicate TimersOk(es: seq<Event>, s: State) {
    SlotsOk(es, s) && HandedOk(es, s) && AllPlaced(s)
  }

  lemma PolledSnoc(es: seq<Event>, e: Event, due: nat)
    ensures Polled(es + [e], due) <==> Polled(es, due) || (e.Poll? && e.now >= due)
  {
    var all := es + [e];
    if Polled(es, due) {
      var k :| 0 <= k < |es| && es[k].Poll? && es[k].now >= due;
      assert all[k].Poll?;
    }
    if e.Poll? && e.now >= due { assert all[|es|].Poll?; }
  }

  /** A timer set now has not been polled for. */
  lemma NotYetPolled(es: seq<Event>, e: Event, due: nat)
    requires Ordered(es + [e]) && e.SetTimer? && due > e.now
    ensures !Polled(es + [e], due)
  {
    var all := es + [e];
    if Polled(all, due) {
      var k :| 0 <= k < |all| && all[k].Poll? && all[k].now >= due;
      assert k < |es| && all[|es|] == e && Timed(all[k]) && Timed(all[|es|]);
    }
  }

  lemma SameTimers(es: seq<Event>, s: State, e: Event, s': State)
    requires TimersOk(es, s) && !e.Poll? && s'.slots == s.slots && s'.timers == s.timers && s'.handed == s.handed
    ensures TimersOk(es + [e], s')
  {
    forall due: nat ensures Polled(es + [e], due) <==> Polled(es, due) { PolledSnoc(es, e, due); }
  }

  lemma SetSlots(es: seq<Event>, s: State, e: Event)
    requires TimersOk(es, s) && Ordered(es + [e]) && e.SetTimer? && e.func != 0 && FreeSlot(s.slots, 0) < 64
    ensures SlotsOk(es + [e], Step(s, e)) && HandedOk(es + [e], Step(s, e))
  {
    var s' := Step(s, e);
    forall due: nat ensures Polled(es + [e], due) <==> Polled(es, due) { PolledSnoc(es, e, due); }
    NotYetPolled(es, e, s'.timers[|s.timers|].due);
  }

  lemma SetPlaced(s: State, e: Event)
    requires |s.slots| == 64 && AllPlaced(s) && e.SetTimer? && e.func != 0 && FreeSlot(s.slots, 0) < 64
    ensures AllPlaced(Step(s, e))
  {
    var s', i := Step(s, e), FreeSlot(s.slots, 0);
    forall n: nat | 1 <= n <= |s'.timers| ensures Waiting(s'.slots, n) || n in s'.handed {
      if n == |s'.timers| {
        assert s'.slots[i].Some? && s'.slots[i].value.number == n;
      } else if Waiting(s.slots, n) {
        var k :| 0 <= k < |s.slots| && s.slots[k].Some? && s.slots[k].value.number == n;
        assert s'.slots[k] == s.slots[k];
      }
    }
  }

  /** The timers a poll takes are different ones that were waiting. */
  lemma {:induction false} DueDistinct(slots: Slots, i: nat, now: nat)
    requires i <= |slots|
    requires forall k, l :: 0 <= k < l < |slots| && slots[k].Some? && slots[l].Some? ==>
               slots[k].value.number != slots[l].value.number
    ensures forall p, q :: 0 <= p < q < |DueOf(slots, i, now)| ==>
              DueOf(slots, i, now)[p].number != DueOf(slots, i, now)[q].number
  {
    if i > 0 {
      DueDistinct(slots, i - 1, now);
      var due := DueOf(slots, i, now);
      forall p, q | 0 <= p < q < |due| ensures due[p].number != due[q].number {
        if q == |DueOf(slots, i - 1, now)| {
          var k := DueFromSlot(slots, i - 1, now, p);
        }
      }
    }
  }

  /** What a poll takes: known timers that were waiting and were not polled for before. */
  lemma DueKnown(es: seq<Event>, s: State, now: nat, p: nat)
    requires TimersOk(es, s) && p < |DueOf(s.slots, 64, now)|
    ensures var t := DueOf(s.slots, 64, now)[p];
            Known(s.timers, t) && Waiting(s.slots, t.number) && t.due <= now && t.number !in s.handed
  {
    var k := DueFromSlot(s.slots, 64, now, p);
  }

  lemma PollSlots(es: seq<Event>, s: State, now: nat)
    requires TimersOk(es, s)
    ensures SlotsOk(es + [Poll(now)], Step(s, Poll(now)))
  {
    var s' := Step(s, Poll(now));
    forall i | 0 <= i < 64 && s'.slots[i].Some?
      ensures Known(s'.timers, s'.slots[i].value) && !Polled(es + [Poll(now)], s'.slots[i].value.due)
    {
      PolledSnoc(es, Poll(now), s'.slots[i].value.due);
    }
  }

  lemma PollHanded(es: seq<Event>, s: State, now: nat)
    requires TimersOk(es, s)
    ensures HandedOk(es + [Poll(now)], Step(s, Poll(now)))
  {
    var due, s' := DueOf(s.slots, 64, now), Step(s, Poll(now));
    DueDistinct(s.slots, 64, now);
    forall p: nat | p < |due|
      ensures Known(s.timers, due[p]) && due[p].due <= now && due[p].number !in s.handed
    {
      DueKnown(es, s, now, p);
    }
    forall i | 0 <= i < |s'.handed|
      ensures 1 <= s'.handed[i] <= |s'.timers| && Polled(es + [Poll(now)], s'.timers[s'.handed[i] - 1].due)
    {
      assert 1 <= s'.handed[i] <= |s.timers|;
      PolledSnoc(es, Poll(now), s.timers[s'.handed[i] - 1].due);
    }
  }

  lemma PollPlaced(s: State, now: nat)
    requires |s.slots| == 64 && AllPlaced(s)
    ensures AllPlaced(Step(s, Poll(now)))
  {
    var due, s' := DueOf(s.slots, 64, now), Step(s, Poll(now));
    forall n: nat | 1 <= n <= |s'.timers| ensures Waiting(s'.slots, n) || n in s'.handed {
      if Waiting(s.slots, n) {
        var k :| 0 <= k < |s.slots| && s.slots[k].Some? && s.slots[k].value.number == n;
        if IsDue(s.slots[k], now) {
          var p := SlotIsDue(s.slots, 64, now, k);
          assert s'.handed[|s.handed| + p] == n;
        } else {
          assert s'.slots[k] == s.slots[k];
        }
      } else {
        assert n in s.handed;
      }
    }
  }

  lemma TimersStep(es: seq<Event>, s: State, e: Event)
    requires TimersOk(es, s) && Ordered(es + [e])
    ensures TimersOk(es + [e], Step(s, e))
  {
    if e.Poll? {
      PollSlots(es, s, e.now);
      PollHanded(es, s, e.now);
      PollPlaced(s, e.now);
    } else if e.SetTimer? && e.func != 0 && FreeSlot(s.slots, 0) < 64 {
      SetSlots(es, s, e);
      SetPlaced(s, e);
    } else {
      SameTimers(es, s, e, Step(s, e));
    }
  }

  lemma {:induction false} TimersAfter(es: seq<Event>)
    requires Ordered(es)
    ensures TimersOk(es, After(es))
    decreases |es|
  {
    if es != [] {
      var front, e := es[..|es| - 1], es[|es| - 1];
      assert es == front + [e];
      hide TimersOk, Step;
      TimersAfter(front);
      TimersStep(front, After(front), e);
    }
  }

  lemma OrderedPrefix(es: seq<Event>, k: nat)
    requires Ordered(es) && k <= |es|
    ensures Ordered(es[..k])
  {
  }

  lemma PlacedOnce(es: seq<Event>, s: State, n: nat)
    requires TimersOk(es, s) && 1 <= n <= |s.timers|
    ensures n in s.handed <==> Polled(es, s.timers[n - 1].due)
    ensures Waiting(s.slots, n) <==> !Polled(es, s.timers[n - 1].due)
    ensures forall i, j :: 0 <= i < j < |s.handed| ==> s.handed[i] != s.handed[j]
  {
    hide Polled;
  }

  /** A timer is handed over if and only if some poll of the run was at or after its due tick; otherwise it waits
      in a slot. It is handed over once. */
  lemma HandedIffPolled(es: seq<Event>, n: nat)
    requires Ordered(es) && 1 <= n <= |After(es).timers|
    ensures n in After(es).handed <==> Polled(es, After(es).timers[n - 1].due)
    ensures Waiting(After(es).slots, n) <==> !Polled(es, After(es).timers[n - 1].due)
    ensures forall i, j :: 0 <= i < j < |After(es).handed| ==> After(es).handed[i] != After(es).handed[j]
  {
    hide After, TimersOk, Polled, Waiting;
    TimersAfter(es);
    PlacedOnce(es, After(es), n);
  }

  // ---------- by the first poll ----------

  lemma TimersMore(s: State, e: Event)
    ensures s.timers <= Step(s, e).timers && s.handed <= Step(s, e).handed
    ensures |Step(s, e).timers| > |s.timers| ==>
              e.SetTimer? && |Step(s, e).timers| == |s.timers| + 1 && Step(s, e).timers[|s.timers|].due > e.now
  {
  }

  lemma {:induction false} TimersGrow(es: seq<Event>, i: nat, j: nat)
    requires i <= j <= |es|
    ensures After(es[..i]).timers <= After(es[..j]).timers && After(es[..i]).handed <= After(es[..j]).handed
    decreases j
  {
    hide After, Step;
    if i < j {
      TimersGrow(es, i, j - 1);
      AfterSnoc(es, j - 1);
      TimersMore(After(es[..j - 1]), es[j - 1]);
    }
  }

  /** A timer accepted from step `k` on is due later than the clock of that step. */
  lemma {:induction false} SetLater(es: seq<Event>, k: nat, j: nat, n: nat)
    requires Ordered(es) && k <= j <= |es| && k < |es| && Timed(es[k])
    requires |After(es[..k]).timers| < n <= |After(es[..j]).timers|
    ensures After(es[..j]).timers[n - 1].due > es[k].now
    decreases j
  {
    hide After, Step;
    if k < j {
      AfterSnoc(es, j - 1);
      TimersMore(After(es[..j - 1]), es[j - 1]);
      if n <= |After(es[..j - 1]).timers| {
        SetLater(es, k, j - 1, n);
      } else {
        assert Timed(es[j - 1]);
      }
    }
  }

  /** The timer was set before the first poll at or after its due tick. */
  lemma SetBefore(es: seq<Event>, n: nat, k: nat)
    requires Ordered(es) && 1 <= n <= |After(es).timers| && FirstPoll(es, After(es).timers[n - 1].due, k)
    ensures n <= |After(es[..k]).timers| && After(es[..k]).timers[n - 1] == After(es).timers[n - 1]
    ensures n <= |After(es[..k + 1]).timers| && After(es[..k + 1]).timers[n - 1] == After(es).timers[n - 1]
  {
    hide After;
    assert es[..|es|] == es && Timed(es[k]);
    if n > |After(es[..k]).timers| { SetLater(es, k, |es|, n); }
    TimersGrow(es, k, |es|);
    TimersGrow(es, k, k + 1);
  }

  lemma PolledPrefix(es: seq<Event>, due: nat, k: nat)
    requires FirstPoll(es, due, k)
    ensures !Polled(es[..k], due) && Polled(es[..k + 1], due)
  {
    assert es[..k + 1][k] == es[k];
  }

  /** It is the first poll at or after the due tick that hands a timer over: before it the timer waits. */
  lemma ByFirstPoll(es: seq<Event>, n: nat, k: nat)
    requires Ordered(es) && 1 <= n <= |After(es).timers| && FirstPoll(es, After(es).timers[n - 1].due, k)
    ensures Waiting(After(es[..k]).slots, n) && n !in After(es[..k]).handed && n in After(es[..k + 1]).handed
  {
    hide After, Polled, Waiting, Ordered;
    SetBefore(es, n, k);
    PolledPrefix(es, After(es).timers[n - 1].due, k);
    OrderedPrefix(es, k);
    OrderedPrefix(es, k + 1);
    HandedIffPolled(es[..k], n);
    HandedIffPolled(es[..k + 1], n);
  }

  // ---------- becoming work ----------

  ghost predicate WorkOk(s: State) {
    && s.accepted == s.popped + s.pending && |s.pending| <= 64 && |s.origins| == |s.accepted|
    && (forall i :: 0 <= i < |s.accepted| ==> s.accepted[i].number == i + 1 && s.accepted[i].func != 0)
  }

  /** Work that comes from a timer is the work of one that was handed over, and of no other work. */
  ghost predicate OriginsOk(s: State) {
    && |s.origins| == |s.accepted|
    && (forall i :: 0 <= i < |s.origins| && s.origins[i] != 0 ==>
          && s.origins[i] in s.handed && s.origins[i] <= |s.timers|
          && s.accepted[i].func == s.timers[s.origins[i] - 1].func
          && s.accepted[i].arg == s.timers[s.origins[i] - 1].arg)
    && (forall i, j :: 0 <= i < j < |s.origins| && s.origins[i] != 0 ==> s.origins[i] != s.origins[j])
  }

  lemma PollWork(es: seq<Event>, s: State, now: nat)
    requires TimersOk(es, s) && WorkOk(s)
    ensures WorkOk(Step(s, Poll(now)))
  {
    var due := DueOf(s.slots, 64, now);
    forall p: nat | p < |due| ensures due[p].func != 0 { DueKnown(es, s, now, p); }
    hide TimersOk, DueOf, Cleared;
    var more := AsWork(due[..Room(due, |s.pending|)], |s.accepted|);
    assert s.popped + (s.pending + more) == s.popped + s.pending + more;
  }

  lemma WorkStep(es: seq<Event>, s: State, e: Event)
    requires TimersOk(es, s) && WorkOk(s)
    ensures WorkOk(Step(s, e))
  {
    match e
    case Poll(now) => PollWork(es, s, now);
    case _ =>
  }

  /** Work for different known timers that were not handed over before. */
  lemma FeedOrigins(s: State, s': State, ts: seq<Timer>)
    requires OriginsOk(s) && s'.timers == s.timers && s.handed <= s'.handed
    requires s'.origins == s.origins + Numbers(ts) && s'.accepted == s.accepted + AsWork(ts, |s.accepted|)
    requires forall p :: 0 <= p < |ts| ==>
               Known(s.timers, ts[p]) && ts[p].number !in s.handed && ts[p].number in s'.handed
    requires forall p, q :: 0 <= p < q < |ts| ==> ts[p].number != ts[q].number
    ensures OriginsOk(s')
  {
    var n := |s.origins|;
    assert forall i :: n <= i < |s'.origins| ==> s'.origins[i] == ts[i - n].number;
    assert forall i :: 0 <= i < n ==> s'.origins[i] == s.origins[i] && s'.accepted[i] == s.accepted[i];
    forall i | 0 <= i < |s'.origins| && s'.origins[i] != 0
      ensures && s'.origins[i] in s'.handed && s'.origins[i] <= |s'.timers|
              && s'.accepted[i].func == s'.timers[s'.origins[i] - 1].func
              && s'.accepted[i].arg == s'.timers[s'.origins[i] - 1].arg
    {
      if i >= n { assert Known(s.timers, ts[i - n]) && s'.accepted[i] == AsWork(ts, n)[i - n]; }
    }
  }

  lemma PollOrigins(es: seq<Event>, s: State, now: nat)
    requires TimersOk(es, s) && OriginsOk(s)
    ensures OriginsOk(Step(s, Poll(now)))
  {
    var due, s' := DueOf(s.slots, 64, now), Step(s, Poll(now));
    DueDistinct(s.slots, 64, now);
    var ts := due[..Room(due, |s.pending|)];
    forall p: nat | p < |ts|
      ensures Known(s.timers, ts[p]) && ts[p].number !in s.handed && ts[p].number in s'.handed
    {
      DueKnown(es, s, now, p);
      assert s'.handed[|s.handed| + p] == ts[p].number;
    }
    hide TimersOk, DueOf, Cleared, OriginsOk, Numbers, AsWork;
    FeedOrigins(s, s', ts);
  }

  lemma OriginsStep(es: seq<Event>, s: State, e: Event)
    requires TimersOk(es, s) && OriginsOk(s)
    ensures OriginsOk(Step(s, e))
  {
    if e.Poll? {
      hide OriginsOk, TimersOk, Step;
      PollOrigins(es, s, e.now);
    }
  }

  lemma {:induction false} WorkAfter(es: seq<Event>)
    requires Ordered(es)
    ensures WorkOk(After(es)) && OriginsOk(After(es))
    decreases |es|
  {
    if es != [] {
      var front, e := es[..|es| - 1], es[|es| - 1];
      OrderedPrefix(es, |es| - 1);
      hide TimersOk, Step, WorkOk, OriginsOk;
      TimersAfter(front);
      WorkAfter(front);
      WorkStep(front, After(front), e);
      OriginsStep(front, After(front), e);
    }
  }

  /** The work queue has room for timer `n` when it is polled at `now`: the due timers in the slots before its own
      go first. */
  ghost predicate RoomFor(s: State, now: nat, n: nat) {
    exists p :: 0 <= p < |DueOf(s.slots, |s.slots|, now)| && DueOf(s.slots, |s.slots|, now)[p].number == n
                && |s.pending| + p < 64
  }

  /** A poll makes a waiting timer work if and only if there is room. */
  lemma PollEnters(es: seq<Event>, s: State, now: nat, n: nat)
    requires TimersOk(es, s) && OriginsOk(s) && n > 0 && n !in s.handed
    ensures n in Step(s, Poll(now)).origins <==> RoomFor(s, now, n)
  {
    assert |s.slots| == 64;
    hide TimersOk, DueOf, Cleared, AsWork;
    var due, s' := DueOf(s.slots, 64, now), Step(s, Poll(now));
    assert n !in s.origins;
    assert s'.origins == s.origins + Numbers(due[..Room(due, |s.pending|)]);
    hide OriginsOk, Step;
    if n in s'.origins {
      var i :| 0 <= i < |s'.origins| && s'.origins[i] == n;
      assert i >= |s.origins| && due[i - |s.origins|].number == n;
    }
    if RoomFor(s, now, n) {
      var p :| 0 <= p < |due| && due[p].number == n && |s.pending| + p < 64;
      assert s'.origins[|s.origins| + p] == n;
    }
  }

  lemma HandedKeepsOrigins(es: seq<Event>, s: State, e: Event, n: nat)
    requires TimersOk(es, s) && n > 0 && n in s.handed
    ensures n in Step(s, e).origins <==> n in s.origins
  {
    match e {
      case Poll(now) =>
        var due := DueOf(s.slots, 64, now);
        forall p: nat | p < |due| ensures due[p].number != n { DueKnown(es, s, now, p); }
        hide TimersOk, DueOf, Cleared;
      case _ =>
    }
  }

  /** Once handed over, a timer that did not become work never does. */
  lemma {:induction false} OriginsSettled(es: seq<Event>, i: nat, j: nat, n: nat)
    requires Ordered(es) && i <= j <= |es| && n > 0 && n in After(es[..i]).handed
    ensures n in After(es[..j]).origins <==> n in After(es[..i]).origins
    decreases j
  {
    hide After, Step, Ordered, TimersOk;
    if i < j {
      OriginsSettled(es, i, j - 1, n);
      AfterSnoc(es, j - 1);
      TimersGrow(es, i, j - 1);
      OrderedPrefix(es, j - 1);
      TimersAfter(es[..j - 1]);
      HandedKeepsOrigins(es[..j - 1], After(es[..j - 1]), es[j - 1], n);
    }
  }

  /** A timer becomes work if and only if the queue has room at the first poll at or after its due tick; it
      does so once, with its function and argument. */
  lemma EntersOnce(es: seq<Event>, n: nat, k: nat)
    requires Ordered(es) && 1 <= n <= |After(es).timers| && FirstPoll(es, After(es).timers[n - 1].due, k)
    ensures n in After(es).origins <==> RoomFor(After(es[..k]), es[k].now, n)
    ensures |After(es).origins| == |After(es).accepted|
    ensures forall i :: 0 <= i < |After(es).origins| && After(es).origins[i] == n ==>
              && After(es).accepted[i].func == After(es).timers[n - 1].func
              && After(es).accepted[i].arg == After(es).timers[n - 1].arg
    ensures forall i, j :: 0 <= i < j < |After(es).origins| ==>
              !(After(es).origins[i] == n == After(es).origins[j])
  {
    hide After, Step, Ordered, TimersOk, RoomFor, FirstPoll, Waiting;
    assert k < |es| && es[k].Poll? by { FirstPollHolds(es, After(es).timers[n - 1].due, k); }
    ByFirstPoll(es, n, k);
    OrderedPrefix(es, k);
    TimersAfter(es[..k]);
    WorkAfter(es[..k]);
    WorkAfter(es);
    PollEnters(es[..k], After(es[..k]), es[k].now, n);
    AfterSnoc(es, k);
    OriginsSettled(es, k + 1, |es|, n);
    assert es[..|es|] == es;
  }

  lemma FirstPollHolds(es: seq<Event>, due: nat, k: nat)
    requires FirstPoll(es, due, k)
    ensures k < |es| && es[k].Poll?
  {
  }

  /** A timer that no poll was late enough for has not become work. */
  lemma NotPolledNotWork(es: seq<Event>, n: nat)
    requires Ordered(es) && 1 <= n <= |After(es).timers| && !Polled(es, After(es).timers[n - 1].due)
    ensures n !in After(es).origins
  {
    hide After, Polled, Ordered, Waiting;
    WorkAfter(es);
    HandedIffPolled(es, n);
  }

  // ---------- from the call on ----------

  /** Event `i` sets a timer and is accepted as timer `n`. */
  ghost predicate SetAs(es: seq<Event>, i: nat, n: nat) {
    && i < |es| && es[i].SetTimer?
    && |After(es[..i]).timers| + 1 == n == |After(es[..i + 1]).timers|
  }

  /** The tick at which a timer asked for by `e` is due: a delay of 0 counts as 1. */
  function DueTick(e: Event): nat
    requires e.SetTimer?
  {
    if e.delay == 0 then e.now + 1 else e.now + e.delay
  }

  lemma SetStep(s: State, e: Event)
    requires e.SetTimer? && |s.slots| == 64
    ensures |Step(s, e).timers| == |s.timers| + 1 <==> e.func != 0 && exists k :: 0 <= k < 64 && s.slots[k].None?
    ensures Step(s, e).timers ==
            if |Step(s, e).timers| == |s.timers| then s.timers
            else s.timers + [Timer(DueTick(e), e.func, e.arg, |s.timers| + 1)]
  {
    assert forall k :: 0 <= k < FreeSlot(s.slots, 0) ==> s.slots[k].Some?;
  }

  /** A call that sets a timer is accepted if and only if it names a function and a slot is free. */
  lemma SetIffFree(es: seq<Event>, i: nat)
    requires Ordered(es) && i < |es| && es[i].SetTimer?
    ensures |After(es[..i]).slots| == 64
    ensures SetAs(es, i, |After(es[..i]).timers| + 1) <==>
            es[i].func != 0 && exists k :: 0 <= k < 64 && After(es[..i]).slots[k].None?
  {
    hide After, Step;
    OrderedPrefix(es, i);
    TimersAfter(es[..i]);
    AfterSnoc(es, i);
    SetStep(After(es[..i]), es[i]);
  }

  /** The timer that a call set stays what the call asked for: due so many ticks after it. */
  lemma SetKept(es: seq<Event>, i: nat, n: nat)
    requires Ordered(es) && SetAs(es, i, n)
    ensures 1 <= n <= |After(es).timers|
    ensures After(es).timers[n - 1] == Timer(DueTick(es[i]), es[i].func, es[i].arg, n)
  {
    hide After, Step;
    OrderedPrefix(es, i);
    TimersAfter(es[..i]);
    AfterSnoc(es, i);
    SetStep(After(es[..i]), es[i]);
    TimersGrow(es, i + 1, |es|);
    assert es[..|es|] == es;
  }

  /** Every timer was set by a call. */
  lemma {:induction false} SetBy(es: seq<Event>, k: nat, n: nat) returns (i: nat)
    requires k <= |es| && 1 <= n <= |After(es[..k]).timers|
    ensures i < k && SetAs(es, i, n)
    decreases k
  {
    hide After, Step;
    if k == 0 {
      NoTimers(es);
    } else {
      AfterSnoc(es, k - 1);
      TimersMore(After(es[..k - 1]), es[k - 1]);
      if n <= |After(es[..k - 1]).timers| {
        i := SetBy(es, k - 1, n);
      } else {
        i := k - 1;
      }
    }
  }

  lemma NoTimers(es: seq<Event>)
    ensures After(es[..0]).timers == []
  {
    assert es[..0] == [];
  }

  /** What becomes of a timer set by event `i`: it is handed over if and only if a poll of the run was at or after
      the tick `delay` ticks later; the first such poll comes after the call and hands it over; until then it waits. */
  lemma TimerFires(es: seq<Event>, i: nat, n: nat, k: nat)
    requires Ordered(es) && SetAs(es, i, n)
    ensures n in After(es).handed <==> Polled(es, DueTick(es[i]))
    ensures FirstPoll(es, DueTick(es[i]), k) ==>
              i < k && Waiting(After(es[..k]).slots, n) && n !in After(es[..k]).handed && n in After(es[..k + 1]).handed
  {
    SetKept(es, i, n);
    hide After, Step, Polled, Waiting;
    HandedIffPolled(es, n);
    if FirstPoll(es, DueTick(es[i]), k) {
      ByFirstPoll(es, n, k);
      assert Timed(es[i]) && Timed(es[k]);
    }
  }

  /** And it becomes work if and only if the queue has room at that poll: once, with the function and argument of
      the call. */
  lemma TimerBecomesWork(es: seq<Event>, i: nat, n: nat, k: nat)
    requires Ordered(es) && SetAs(es, i, n) && FirstPoll(es, DueTick(es[i]), k)
    ensures n in After(es).origins <==> RoomFor(After(es[..k]), es[k].now, n)
    ensures |After(es).origins| == |After(es).accepted|
    ensures forall j :: 0 <= j < |After(es).origins| && After(es).origins[j] == n ==>
              After(es).accepted[j].func == es[i].func && After(es).accepted[j].arg == es[i].arg
    ensures forall j, l :: 0 <= j < l < |After(es).origins| ==> !(After(es).origins[j] == n == After(es).origins[l])
  {
    SetKept(es, i, n);
    hide After, Step, RoomFor, FirstPoll, Ordered;
    EntersOnce(es, n, k);
  }

  /** Work asked for directly is accepted if and only if it names a function and fewer than 64 items are pending. */
  lemma WorkAdded(es: seq<Event>, i: nat)
    requires i < |es| && es[i].AddWork?
    ensures var s, s' := After(es[..i]), After(es[..i + 1]);
            if es[i].func != 0 && |s.pending| < 64
            then s'.accepted == s.accepted + [Work(es[i].func, es[i].arg, |s.accepted| + 1)]
            else s'.accepted == s.accepted
  {
    AfterSnoc(es, i);
    hide After;
  }

  // ---------- running work ----------

  lemma PoppedMore(s: State, e: Event)
    requires WorkOk(s)
    ensures s.popped <= Step(s, e).popped && s.accepted <= Step(s, e).accepted
    ensures |Step(s, e).popped| == |s.popped| + if e.RunWork? && s.pending != [] then 1 else 0
  {
  }

  /** Work runs in the order in which it was accepted, all of it in turn: what has run is the first part of
      what was accepted, at every moment of the run, and the rest is pending. */
  lemma {:induction false} RunsInOrder(es: seq<Event>, k: nat)
    requires Ordered(es) && k <= |es|
    ensures After(es[..k]).popped <= After(es).popped <= After(es).accepted
    ensures After(es).accepted == After(es).popped + After(es).pending
    ensures forall i :: 0 <= i < |After(es).accepted| ==> After(es).accepted[i].number == i + 1
    decreases |es| - k
  {
    hide After, Step, Ordered;
    WorkAfter(es);
    assert es[..|es|] == es;
    if k < |es| {
      RunsInOrder(es, k + 1);
      OrderedPrefix(es, k);
      WorkAfter(es[..k]);
      AfterSnoc(es, k);
      PoppedMore(After(es[..k]), es[k]);
    }
  }
}
