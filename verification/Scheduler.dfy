/** The kernel's task list, wait queues and TTY as the source keeps them; every operation is one step of the
    machine in `Tasks`. */
module Scheduler {
  import opened Options
  import opened Sequences
  import opened Tasks
  import opened TaskInvariants
  import opened WaitLinks

  class Kernel {
    var tasks: seq<TaskRec>
    var current: Option<nat>
    var cursor: Option<nat>
    var heads: seq<Option<nat>>
    var tails: seq<Option<nat>>
    var tick: nat
    const ring: array<Key>
    var head: nat
    var tail: nat
    var dropped: nat
    ghost var sys: System

    ghost predicate Valid()
      reads this, ring
    {
      Inv(sys) && Shows(sys)
    }

    /** The fields hold the state `s`. */
    ghost predicate Shows(s: System)
      reads this, ring
    {
      && Shown(tasks, s.tasks) && current == s.current && cursor == s.cursor && tick == s.tick
      && Links(tasks, heads, tails, s.queues) && RingHolds(ring[..], head, tail, s.buffer)
    }

    /** Enough for the queues to be worked on: in the middle of a step. */
    ghost predicate Linked()
      reads this, ring
    {
      InRange(sys) && WaitingQueued(sys) && Shows(sys)
    }

    constructor (queues: nat)
      requires queues > 0
      ensures Valid() && sys == Boot(queues) && fresh(ring)
    {
      tasks, current, cursor, tick := [], None, None, 0;
      heads, tails := seq(queues, _ => None), seq(queues, _ => None);
      ring := new Key[256];
      head, tail, dropped := 0, 0, 0;
      sys := Boot(queues);
      new;
      BootInv(queues);
    }

    /** `task_create`, once memory for the task has been found. */
    method Create() returns (id: nat)
      requires Valid()
      modifies this`tasks, this`sys
      ensures Valid() && sys == Step(old(sys), Event.Create) && id == |old(tasks)| + 1
      ensures tasks == old(tasks) + [TaskRec(Ready, 0, None)]
    {
      hide WaitingQueued, OneRunning, WokenRunnable, NoLostWakeup, KeysInOrder, RingHolds;
      StepInv(sys, Event.Create);
      id := |tasks| + 1;
      LinksKept(tasks, tasks + [TaskRec(Ready, 0, None)], heads, tails, sys.queues);
      tasks := tasks + [TaskRec(Ready, 0, None)];
      sys := Step(sys, Event.Create);
    }

    /** `task_wakeup_sleeping_locked`. */
    method WakeSleeping()
      requires Valid()
      modifies this`tasks, this`sys
      ensures Valid() && sys == old(sys).(tasks := WakeSleepers(old(sys).tasks, old(tick)))
    {
      hide Inv, RingHolds;
      SleepersWake(sys);
      ghost var recs := tasks;
      var i := 0;
      while i < |tasks|
        invariant i <= |tasks| == |recs|
        invariant forall k :: 0 <= k < |recs| ==> tasks[k].waitNext == recs[k].waitNext
        invariant forall k :: i <= k < |recs| ==> tasks[k] == recs[k]
        invariant forall k :: 0 <= k < i ==> Task(tasks[k].state, tasks[k].wakeTick) == WokenAt(sys.tasks[k], tick)
        modifies this`tasks
      {
        if tasks[i].state.Sleeping? && tick >= tasks[i].wakeTick {
          tasks := tasks[i := tasks[i].(state := Ready, wakeTick := 0)];
        }
        i := i + 1;
      }
      LinksKept(recs, tasks, heads, tails, sys.queues);
      sys := sys.(tasks := WakeSleepers(sys.tasks, tick));
    }

    /** The loop of `task_ready_count`, `task_sleeping_count` and `task_waiting_count`. */
    method Count(state: State) returns (n: nat)
      requires Valid()
      ensures n == |InState(sys.tasks, state)|
    {
      n := 0;
      var i := 0;
      while i < |tasks|
        invariant i <= |tasks| && n == |InState(sys.tasks[..i], state)|
      {
        InStateSnoc(sys.tasks, state, i);
        if tasks[i].state == state { n := n + 1; }
        i := i + 1;
      }
      assert sys.tasks[..i] == sys.tasks;
    }

    /** `task_ready_count` and `task_sleeping_count`: sleepers whose time has come are woken first. */
    method Recount(state: State) returns (n: nat)
      requires Valid() && (state.Ready? || state.Sleeping?)
      modifies this`tasks, this`sys
      ensures Valid() && sys == Step(old(sys), Event.Recount) && n == |InState(sys.tasks, state)|
    {
      WakeSleeping();
      n := Count(state);
    }

    /** The circular search of `task_pick_next_locked`. */
    method Search() returns (r: Option<nat>)
      requires Valid()
      ensures r == Choice(sys.tasks, cursor)
    {
      hide WaitingQueued, OneRunning, WokenRunnable, NoLostWakeup, KeysInOrder, RingHolds, Links, Members;
      if |tasks| == 0 { return None; }
      var start := if cursor.Some? && cursor.value + 1 < |tasks| then cursor.value + 1 else 0;
      var at: nat := start;
      ghost var wrapped := false;
      ghost var ts := sys.tasks;
      if tasks[at].state.Ready? { ChosenEarly(ts, cursor, at); return Some(at); }
      if at + 1 < |tasks| { at := at + 1; } else { at := 0; wrapped := true; }
      while at != start
        invariant at < |tasks| && (if wrapped then at <= start else start < at)
        invariant forall i :: 0 <= i < |ts| ==> tasks[i].state == ts[i].state
        invariant forall i :: start <= i < (if wrapped then |ts| else at) ==> !ts[i].state.Ready?
        invariant wrapped ==> forall i :: 0 <= i < at ==> !ts[i].state.Ready?
        decreases !wrapped, if wrapped then start - at else |tasks| - at
      {
        if tasks[at].state.Ready? {
          if wrapped { ChosenLate(ts, cursor, at); } else { ChosenEarly(ts, cursor, at); }
          return Some(at);
        }
        if at + 1 < |tasks| { at := at + 1; } else { at := 0; wrapped := true; }
      }
      return None;
    }

    /** `task_run_once` up to the switch to the task it picked, if any. */
    method SwitchIn() returns (picked: bool)
      requires Valid() && Enabled(sys, Pick)
      modifies this`tasks, this`current, this`cursor, this`sys
      ensures Valid() && sys == Step(old(sys), Pick) && picked == sys.current.Some?
    {
      hide WaitingQueued, OneRunning, WokenRunnable, NoLostWakeup, KeysInOrder, RingHolds, Choice;
      StepInv(sys, Pick);
      ghost var s := sys;
      WakeSleeping();
      var r := Search();
      if r.None? { return false; }
      var t := r.value;
      LinksKept(tasks, tasks[t := tasks[t].(state := Running)], heads, tails, sys.queues);
      cursor, current := Some(t), Some(t);
      tasks := tasks[t := tasks[t].(state := Running)];
      sys := Step(s, Pick);
      return true;
    }

    /** The end of `task_run_once`, after a task has switched back. */
    method SwitchBack()
      requires Valid() && Enabled(sys, Return)
      modifies this`current, this`sys
      ensures Valid() && sys == Step(old(sys), Return) && current.None?
    {
      hide WaitingQueued, OneRunning, WokenRunnable, NoLostWakeup, KeysInOrder, RingHolds;
      StepInv(sys, Return);
      current := None;
      sys := Step(sys, Return);
    }

    /** Gives the current task a new state; its link stays. */
    method SetCurrent(state: State, wakeTick: nat, ghost s': System)
      requires Valid() && current.Some? && Inv(s')
      requires s' == sys.(tasks := s'.tasks) && s'.tasks == sys.tasks[current.value := Task(state, wakeTick)]
      modifies this`tasks, this`sys
      ensures Valid() && sys == s'
    {
      hide WaitingQueued, OneRunning, WokenRunnable, NoLostWakeup, KeysInOrder, RingHolds;
      var t := current.value;
      LinksKept(tasks, tasks[t := tasks[t].(state := state, wakeTick := wakeTick)], heads, tails, sys.queues);
      tasks := tasks[t := tasks[t].(state := state, wakeTick := wakeTick)];
      sys := s';
    }

    method YieldNow()
      requires Valid() && (current.Some? ==> Enabled(sys, Yield))
      modifies this`tasks, this`sys
      ensures Valid() && sys == if old(current).Some? then Step(old(sys), Yield) else old(sys)
      ensures current.Some? ==> current.value < |tasks| && tasks[current.value].state.Ready?
    {
      if current.None? { return; }
      StepInv(sys, Yield);
      hide WaitingQueued, OneRunning, WokenRunnable, NoLostWakeup, KeysInOrder, RingHolds;
      var t := tasks[current.value];
      if t.state.Running? {
        SetCurrent(Ready, t.wakeTick, Step(sys, Yield));
      }
    }

    method SleepTicks(ticks: nat)
      requires Valid() && (current.Some? ==> Enabled(sys, Sleep(ticks)))
      modifies this`tasks, this`sys
      ensures Valid() && sys == if old(current).Some? then Step(old(sys), Sleep(ticks)) else old(sys)
      ensures current.Some? ==> current.value < |tasks|
      ensures current.Some? && ticks == 0 ==> tasks[current.value].state.Ready?
      ensures current.Some? && ticks > 0 ==>
                tasks[current.value].state.Sleeping? && tasks[current.value].wakeTick == tick + ticks
    {
      if current.None? { return; }
      if ticks == 0 {
        YieldNow();
        return;
      }
      StepInv(sys, Sleep(ticks));
      SetCurrent(Sleeping, tick + ticks, Step(sys, Sleep(ticks)));
    }

    method ExitTask()
      requires Valid() && Enabled(sys, Exit)
      modifies this`tasks, this`sys
      ensures Valid() && sys == Step(old(sys), Exit)
      ensures current.Some? && current.value < |tasks| && tasks[current.value].state.Done?
    {
      StepInv(sys, Exit);
      SetCurrent(Done, 0, Step(sys, Exit));
    }

    method TimerTick()
      requires Valid()
      modifies this`tick, this`sys
      ensures Valid() && sys == Step(old(sys), Event.Tick) && tick == old(tick) + 1
    {
      hide WaitingQueued, OneRunning, WokenRunnable, NoLostWakeup, KeysInOrder, RingHolds;
      StepInv(sys, Event.Tick);
      tick := tick + 1;
      sys := Step(sys, Event.Tick);
    }

    // ---------- wait queues ----------

    /** `wait_queue_block_irqrestore` up to the switch: the current task joins queue `q`. */
    method Join(q: nat, ghost s': System)
      requires Valid() && Executing(sys) && q < |heads| && Inv(s')
      requires s' == DoBlock(sys, q).(woken := s'.woken)
      modifies this`tasks, this`heads, this`tails, this`sys
      ensures Valid() && sys == s'
    {
      hide OneRunning, WokenRunnable, NoLostWakeup, KeysInOrder, RingHolds;
      var t := current.value;
      JoinLinks(sys, tasks, heads, tails, q, t);
      assert heads[q].None? <==> tails[q].None? by { assert QueueLinked(tasks, heads[q], tails[q], sys.queues[q]); }
      hide WaitingQueued, Links, QueueLinked;
      assert tails[q].Some? ==> tails[q].value != t by { NotAtTail(sys, tasks, heads, tails, q, t); }
      PutTail(q, t);
      sys := s';
    }

    /** Links task `t` in behind the tail of queue `q` and makes it wait. */
    method PutTail(q: nat, t: nat)
      requires q < |heads| == |tails| && t < |tasks| && (heads[q].None? <==> tails[q].None?)
      requires tails[q].Some? ==> tails[q].value < |tasks| && tails[q].value != t
      modifies this`tasks, this`heads, this`tails
      ensures tasks == Joined(old(tasks), old(tails)[q], t) && tails == old(tails)[q := Some(t)]
      ensures heads == old(heads)[q := if old(heads)[q].None? then Some(t) else old(heads)[q]]
    {
      tasks := tasks[t := tasks[t].(waitNext := None)];
      if heads[q].None? {
        heads := heads[q := Some(t)];
        tails := tails[q := Some(t)];
      } else {
        var last := tails[q].value;
        tasks := tasks[last := tasks[last].(waitNext := Some(t))];
        tails := tails[q := Some(t)];
      }
      tasks := tasks[t := tasks[t].(state := Waiting)];
    }

    method BlockOn(q: nat)
      requires Valid() && (current.Some? ==> Enabled(sys, Block(q)))
      modifies this`tasks, this`heads, this`tails, this`sys
      ensures Valid() && sys == if old(current).Some? then Step(old(sys), Block(q)) else old(sys)
    {
      if current.None? { return; }
      StepInv(sys, Block(q));
      Join(q, Step(sys, Block(q)));
    }

    /** Unlinks the task at the head of queue `q` and makes it ready. */
    method TakeHead(q: nat)
      requires q < |heads| == |tails| && heads[q].Some? && heads[q].value < |tasks|
      modifies this`tasks, this`heads, this`tails
      ensures var t := old(heads[q].value); var next := old(tasks)[t].waitNext;
              && tasks == old(tasks)[t := Unlinked(old(tasks)[t])] && heads == old(heads)[q := next]
              && tails == old(tails)[q := if next.None? then None else old(tails)[q]]
    {
      var t := heads[q].value;
      heads := heads[q := tasks[t].waitNext];
      if heads[q].None? { tails := tails[q := None]; }
      tasks := tasks[t := tasks[t].(waitNext := None)];
      if tasks[t].state.Waiting? { tasks := tasks[t := tasks[t].(state := Ready)]; }
    }

    /** `wait_queue_wake_one`. */
    method Wake(q: nat, ghost s': System) returns (woke: bool)
      requires Linked() && q < |heads| && Inv(s') && s' == DoWakeOne(sys, q).(woken := s'.woken)
      modifies this`tasks, this`heads, this`tails, this`sys
      ensures Valid() && sys == s' && woke == (old(sys).queues[q] != [])
    {
      hide OneRunning, WokenRunnable, NoLostWakeup, KeysInOrder, RingHolds;
      assert QueueLinked(tasks, heads[q], tails[q], sys.queues[q]);
      woke := heads[q].Some?;
      if woke {
        LeaveLinks(sys, tasks, heads, tails, q);
        hide WaitingQueued, Links, QueueLinked;
        TakeHead(q);
      }
      sys := s';
    }

    method WakeOneOf(q: nat) returns (woke: bool)
      requires Valid() && Enabled(sys, WakeOne(q))
      modifies this`tasks, this`heads, this`tails, this`sys
      ensures Valid() && sys == Step(old(sys), WakeOne(q)) && woke == (old(sys).queues[q] != [])
    {
      StepInv(sys, WakeOne(q));
      woke := Wake(q, Step(sys, WakeOne(q)));
    }

    /** Unlinks a task that is being woken and returns the next one. */
    method Unlink(t: nat) returns (next: Option<nat>)
      requires t < |tasks|
      modifies this`tasks
      ensures next == old(tasks)[t].waitNext && tasks == old(tasks)[t := Unlinked(old(tasks)[t])]
    {
      next := tasks[t].waitNext;
      tasks := tasks[t := tasks[t].(waitNext := None)];
      if tasks[t].state.Waiting? { tasks := tasks[t := tasks[t].(state := Ready)]; }
    }

    /** The loop of `wait_queue_wake_all`. */
    method UnlinkAll(q: nat, ghost s0: System) returns (woke: nat)
      requires Unlinking(s0, s0, tasks, heads, tails, q) && heads[q] == First(s0.queues[q])
      modifies this`tasks
      ensures woke == |s0.queues[q]| && Shown(tasks, DoWakeAll(s0, q).tasks)
      ensures Links(tasks, heads[q := None], tails[q := None], DoWakeAll(s0, q).queues)
    {
      hide DoWakeAll, DoWakeOne, Links, WaitingQueued, Members;
      ghost var s := s0;
      var task := heads[q];
      woke := 0;
      while task.Some?
        invariant Unlinking(s0, s, tasks, heads, tails, q)
        invariant task == First(s.queues[q]) && woke + |s.queues[q]| == |s0.queues[q]|
        decreases |s.queues[q]|
      {
        UnlinkingStep(s0, s, tasks, heads, tails, q);
        task := Unlink(task.value);
        s, woke := DoWakeOne(s, q), woke + 1;
      }
      UnlinkingEnd(s0, s, tasks, heads, tails, q);
    }

    /** `wait_queue_wake_all`. */
    method WakeAllOf(q: nat) returns (woke: nat)
      requires Valid() && Enabled(sys, WakeAll(q))
      modifies this`tasks, this`heads, this`tails, this`sys
      ensures Valid() && sys == Step(old(sys), WakeAll(q)) && woke == |old(sys).queues[q]|
    {
      StepInv(sys, WakeAll(q));
      UnlinkingStart(sys, tasks, heads, tails, q);
      hide Inv, RingHolds, Unlinking, WakeTasks, Links;
      woke := UnlinkAll(q, sys);
      heads, tails := heads[q := None], tails[q := None];
      sys := Step(sys, WakeAll(q));
    }

    // ---------- the TTY ----------

    /** `tty_read_key_irq_disabled`. */
    method TakeKey() returns (got: bool, key: Key)
      requires Valid() && Enabled(sys, Read)
      modifies this`tail, this`sys
      ensures got == (old(sys).buffer != [])
      ensures got ==> Valid() && sys == Step(old(sys), Read) && key == old(sys).buffer[0]
      ensures !got ==> Valid() && sys == old(sys)
    {
      StepInv(sys, Read);
      hide WaitingQueued, OneRunning, WokenRunnable, NoLostWakeup, KeysInOrder, Links;
      RingPop(ring[..], head, tail, sys.buffer);
      if tail == head { return false, 0; }
      key := ring[tail];
      tail := Next(tail);
      sys := Step(sys, Read);
      got := true;
    }

    /** One round of `tty_read_key_blocking`: takes a key, or puts the current task, if any, into the TTY queue. */
    method ReadKey() returns (got: bool, key: Key)
      requires Valid() && Enabled(sys, Read)
      modifies this`tail, this`tasks, this`heads, this`tails, this`sys
      ensures Valid() && sys == Step(old(sys), Read)
      ensures got == (old(sys).buffer != []) && (got ==> key == old(sys).buffer[0])
    {
      StepInv(sys, Read);
      hide WaitingQueued, OneRunning, WokenRunnable, NoLostWakeup, KeysInOrder, RingHolds, Links, Members;
      got, key := TakeKey();
      if !got {
        if current.Some? { Join(0, Step(sys, Read)); } else { assert sys.woken - {} == sys.woken; }
      }
    }

    /** The locked part of `tty_push_key`. */
    method PutKey(key: Key) returns (ok: bool)
      requires Valid()
      modifies this`head, this`dropped, ring, this`sys
      ensures ok == (|old(sys).buffer| < 255) && dropped == old(dropped) + if ok then 0 else 1
      ensures ok ==> Linked()
      ensures ok ==> sys == old(sys).(buffer := old(sys).buffer + [key], accepted := old(sys).accepted + [key])
      ensures !ok ==> Valid() && sys == old(sys)
    {
      RingPush(ring[..], head, tail, sys.buffer, key);
      BufferMore(sys, key);
      assert |sys.buffer| <= TTY_CAPACITY;
      hide WaitingQueued, OneRunning, WokenRunnable, NoLostWakeup, KeysInOrder, RingHolds, Links, Members;
      var next := Next(head);
      if next == tail {
        dropped := dropped + 1;
        return false;
      }
      ghost var was := ring[..];
      ring[head] := key;
      assert ring[..] == was[head := key];
      head := next;
      sys := sys.(buffer := sys.buffer + [key], accepted := sys.accepted + [key]);
      ok := true;
    }

    /** `tty_push_key`, called by the keyboard interrupt. */
    method PushKey(key: Key) returns (ok: bool)
      requires Valid()
      modifies this`head, this`dropped, ring, this`tasks, this`heads, this`tails, this`sys
      ensures Valid() && sys == Step(old(sys), Push(key))
      ensures sys.accepted == if ok then old(sys).accepted + [key] else old(sys).accepted
      ensures sys.buffer == if ok then old(sys).buffer + [key] else old(sys).buffer
      ensures ok == (|old(sys).buffer| < 255) && dropped == old(dropped) + if ok then 0 else 1
    {
      StepInv(sys, Push(key));
      hide WaitingQueued, OneRunning, WokenRunnable, NoLostWakeup, KeysInOrder, RingHolds, Links, Members;
      ghost var s' := Step(sys, Push(key));
      ok := PutKey(key);
      if ok { var woke := Wake(0, s'); }
    }
  }

  /** A task that does not wait is not at the tail of a queue. */
  lemma NotAtTail(s: System, recs: seq<TaskRec>, heads: seq<Option<nat>>, tails: seq<Option<nat>>, q: nat, t: nat)
    requires WaitingQueued(s) && Members(s) && Links(recs, heads, tails, s.queues) && q < |s.queues|
    requires t < |s.tasks| && !s.tasks[t].state.Waiting?
    ensures tails[q] != Some(t)
  {
    assert QueueLinked(recs, heads[q], tails[q], s.queues[q]);
    if s.queues[q] != [] { NotQueued(s, t, q, |s.queues[q]| - 1); }
  }

  /** The numbers of the tasks in a state. */
  function InState(ts: seq<Task>, state: State): set<nat> {
    set t: nat | t < |ts| && ts[t].state == state
  }

  lemma InStateSnoc(ts: seq<Task>, state: State, i: nat)
    requires i < |ts|
    ensures |InState(ts[..i + 1], state)| == |InState(ts[..i], state)| + if ts[i].state == state then 1 else 0
  {
    var less, more := ts[..i], ts[..i + 1];
    assert forall t: nat :: t < |more| ==> more[t] == ts[t] && (t < i ==> less[t] == ts[t]);
    assert InState(more, state) == InState(less, state) + if ts[i].state == state then {i} else {};
  }

  /** While the tasks of queue `q` of `s0` are unlinked one by one, `s` is what the links show. */
  ghost predicate Unlinking(s0: System, s: System, recs: seq<TaskRec>, heads: seq<Option<nat>>,
                            tails: seq<Option<nat>>, q: nat) {
    && q < |s0.queues| == |s.queues| == |heads| == |tails| && |recs| == |s.tasks|
    && WaitingQueued(s) && Members(s) && Members(s0) && Shown(recs, s.tasks)
    && Links(recs, heads[q := First(s.queues[q])], tails[q := Last(s.queues[q])], s.queues)
    && DoWakeAll(s, q) == DoWakeAll(s0, q)
  }

  lemma UnlinkingStart(s: System, recs: seq<TaskRec>, heads: seq<Option<nat>>, tails: seq<Option<nat>>, q: nat)
    requires q < |s.queues| && WaitingQueued(s) && Members(s) && Shown(recs, s.tasks) &&
             Links(recs, heads, tails, s.queues)
    ensures Unlinking(s, s, recs, heads, tails, q) && heads[q] == First(s.queues[q])
  {
  }

  lemma UnlinkingStep(s0: System, s: System, recs: seq<TaskRec>, heads: seq<Option<nat>>, tails: seq<Option<nat>>,
                      q: nat)
    requires Unlinking(s0, s, recs, heads, tails, q) && s.queues[q] != []
    ensures var t := s.queues[q][0];
            && t < |recs| && Unlinking(s0, DoWakeOne(s, q), recs[t := Unlinked(recs[t])], heads, tails, q)
            && recs[t].waitNext == First(DoWakeOne(s, q).queues[q])
            && |DoWakeOne(s, q).queues| == |s.queues| && |DoWakeOne(s, q).queues[q]| == |s.queues[q]| - 1
  {
    var fronts, ends, t := heads[q := First(s.queues[q])], tails[q := Last(s.queues[q])], s.queues[q][0];
    WakeOneQueues(s, q);
    WakeAllUnfold(s, q);
    LeaveLinks(s, recs, fronts, ends, q);
    var s1, next := DoWakeOne(s, q), recs[t].waitNext;
    assert QueueLinked(recs, fronts[q], ends[q], s.queues[q]);
    assert next == After(s.queues[q], 0) == First(s1.queues[q]);
    assert fronts[q := next] == heads[q := First(s1.queues[q])];
    assert ends[q := if next.None? then None else ends[q]] == tails[q := Last(s1.queues[q])];
  }

  lemma UnlinkingEnd(s0: System, s: System, recs: seq<TaskRec>, heads: seq<Option<nat>>, tails: seq<Option<nat>>,
                     q: nat)
    requires Unlinking(s0, s, recs, heads, tails, q) && s.queues[q] == []
    ensures DoWakeAll(s0, q) == s && Links(recs, heads[q := None], tails[q := None], s.queues) && Shown(recs, s.tasks)
  {
  }

  lemma ChosenEarly(ts: seq<Task>, cursor: Option<nat>, at: nat)
    requires |ts| > 0 && Start(cursor, |ts|) <= at < |ts| && ts[at].state.Ready?
    requires forall i :: Start(cursor, |ts|) <= i < at ==> !ts[i].state.Ready?
    ensures Choice(ts, cursor) == Some(at)
  {
  }

  lemma BufferMore(s: System, key: Key)
    requires WaitingQueued(s) && Members(s)
    ensures WaitingQueued(s.(buffer := s.buffer + [key], accepted := s.accepted + [key]))
    ensures Members(s.(buffer := s.buffer + [key], accepted := s.accepted + [key]))
  {
    QueuesKept(s, s.(buffer := s.buffer + [key], accepted := s.accepted + [key]));
  }

  lemma ChosenLate(ts: seq<Task>, cursor: Option<nat>, at: nat)
    requires |ts| > 0 && at < Start(cursor, |ts|) && ts[at].state.Ready?
    requires forall i :: Start(cursor, |ts|) <= i < |ts| ==> !ts[i].state.Ready?
    requires forall i :: 0 <= i < at ==> !ts[i].state.Ready?
    ensures Choice(ts, cursor) == Some(at)
  {
  }
}
