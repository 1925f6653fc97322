/** Every step of the scheduler, the wait queues and the TTY keeps the invariant. */
module TaskInvariants {
  import opened Options
  import opened Tasks
  import Utils

  /** The queues stay when the same tasks wait. */
  lemma QueuesKept(s: System, s': System)
    requires WaitingQueued(s) && s'.queues == s.queues && |s.tasks| <= |s'.tasks| && Members(s)
    requires forall t :: 0 <= t < |s'.tasks| ==>
               (s'.tasks[t].state.Waiting? <==> t < |s.tasks| && s.tasks[t].state.Waiting?)
    ensures WaitingQueued(s') && Members(s')
  {
    forall q: nat, i: nat, t: nat | QueuedAt(s', q, i, t) && t < |s'.tasks| ensures s'.tasks[t].state.Waiting? {
      assert QueuedAt(s, q, i, t) && s.queues[q][i] < |s.tasks|;
    }
    forall t: nat | t < |s'.tasks| && s'.tasks[t].state.Waiting?
      ensures exists q: nat, i: nat :: QueuedAt(s', q, i, t)
    {
      var q: nat, i: nat :| QueuedAt(s, q, i, t);
      assert QueuedAt(s', q, i, t);
    }
    forall q: nat, i: nat, q': nat, i': nat, t: nat | QueuedAt(s', q, i, t) && QueuedAt(s', q', i', t)
      ensures q == q' && i == i'
    {
      assert QueuedAt(s, q, i, t) && QueuedAt(s, q', i', t);
    }
  }

  lemma CreateInv(s: System)
    requires Inv(s)
    ensures Inv(Step(s, Create))
  {
    QueuesKept(s, Step(s, Create));
  }

  lemma SleepersWake(s: System)
    requires Inv(s)
    ensures Inv(s.(tasks := WakeSleepers(s.tasks, s.tick)))
  {
    QueuesKept(s, s.(tasks := WakeSleepers(s.tasks, s.tick)));
  }

  lemma PickInv(s: System)
    requires Inv(s) && Enabled(s, Pick)
    ensures Inv(Step(s, Pick))
  {
    SleepersWake(s);
    var s1 := s.(tasks := WakeSleepers(s.tasks, s.tick));
    QueuesKept(s1, Step(s, Pick));
  }

  /** The current task leaves the running state without waiting. */
  lemma LeaveInv(s: System, e: Event)
    requires Inv(s) && Enabled(s, e) && (e.Yield? || e.Sleep? || e.Exit?)
    ensures Inv(Step(s, e))
  {
    QueuesKept(s, Step(s, e));
  }

  lemma IdleInv(s: System, e: Event)
    requires Inv(s) && Enabled(s, e) && (e.Return? || e.Tick?)
    ensures Inv(Step(s, e))
  {
    QueuesKept(s, Step(s, e));
  }

  // ---------- entering a queue ----------

  lemma BlockQueues(s: System, q: nat)
    requires WaitingQueued(s) && Members(s) && Executing(s) && q < |s.queues|
    ensures WaitingQueued(DoBlock(s, q)) && Members(DoBlock(s, q))
  {
    var s', t, n := DoBlock(s, q), s.current.value, |s.queues[q]|;
    assert forall p: nat, i: nat, u: nat ::
        QueuedAt(s', p, i, u) <==> QueuedAt(s, p, i, u) || (p == q && i == n && u == t);
    assert forall p: nat, i: nat :: !QueuedAt(s, p, i, t);
    forall u: nat | u < |s'.tasks| && s'.tasks[u].state.Waiting?
      ensures exists p: nat, i: nat :: QueuedAt(s', p, i, u)
    {
      if u == t {
        assert QueuedAt(s', q, n, t);
      } else {
        var p: nat, i: nat :| QueuedAt(s, p, i, u);
        assert QueuedAt(s', p, i, u);
      }
    }
  }

  lemma BlockInv(s: System, q: nat)
    requires Inv(s) && Enabled(s, Block(q))
    ensures Inv(Step(s, Block(q)))
  {
    BlockQueues(s, q);
  }

  /** A reader that finds no key joins the TTY queue. */
  lemma ReadEmptyInv(s: System)
    requires Inv(s) && Enabled(s, Read) && s.buffer == []
    ensures Inv(Step(s, Read))
  {
    hide WaitingQueued;
    var s1 := s.(woken := s.woken - Reader(s));
    QueuesKept(s, s1);
    if s.current.Some? { BlockQueues(s1, 0); }
  }

  /** A reader that finds one takes it. */
  lemma ReadKeyInv(s: System)
    requires Inv(s) && Enabled(s, Read) && s.buffer != []
    ensures Inv(Step(s, Read))
  {
    hide WaitingQueued;
    QueuesKept(s, Step(s, Read));
    FewerWoken(s.woken, Reader(s));
    assert s.buffer == [s.buffer[0]] + s.buffer[1..];
  }

  lemma FewerWoken(w: set<nat>, ts: set<nat>)
    requires |ts| <= 1
    ensures |w - ts| >= |w| - 1
  {
    assert w == (w - ts) + (w * ts);
    Utils.SubsetSize(w * ts, ts);
  }

  // ---------- leaving a queue ----------

  lemma WakeOneQueues(s: System, q: nat)
    requires WaitingQueued(s) && Members(s) && q < |s.queues| && s.queues[q] != []
    ensures WaitingQueued(DoWakeOne(s, q)) && Members(DoWakeOne(s, q))
    ensures s.tasks[s.queues[q][0]].state.Waiting?
  {
    var s', t := DoWakeOne(s, q), s.queues[q][0];
    assert QueuedAt(s, q, 0, t);
    forall p: nat, i: nat, u: nat | QueuedAt(s', p, i, u)
      ensures QueuedAt(s, p, if p == q then i + 1 else i, u) && u != t
    {
      assert QueuedAt(s, p, if p == q then i + 1 else i, u);
    }
    forall u: nat | u < |s'.tasks| && s'.tasks[u].state.Waiting?
      ensures exists p: nat, i: nat :: QueuedAt(s', p, i, u)
    {
      var p: nat, i: nat :| QueuedAt(s, p, i, u);
      assert QueuedAt(s', p, if p == q then i - 1 else i, u);
    }
    forall p: nat, i: nat, p': nat, i': nat, u: nat | QueuedAt(s', p, i, u) && QueuedAt(s', p', i', u)
      ensures p == p' && i == i'
    {
      assert QueuedAt(s, p, if p == q then i + 1 else i, u) && QueuedAt(s, p', if p' == q then i' + 1 else i', u);
    }
  }

  lemma WakeOneInv(s: System, q: nat)
    requires Inv(s) && 0 < q < |s.queues|
    ensures Inv(DoWakeOne(s, q))
  {
    if s.queues[q] != [] { WakeOneQueues(s, q); }
  }

  lemma PushInv(s: System, key: Key)
    requires Inv(s)
    ensures Inv(Step(s, Push(key)))
  {
    if |s.buffer| < TTY_CAPACITY {
      var s1 := s.(buffer := s.buffer + [key], accepted := s.accepted + [key]);
      QueuesKept(s, s1);
      assert s1.accepted == s1.delivered + s1.buffer;
      if s.queues[0] != [] {
        WakeOneQueues(s1, 0);
        QueuesKept(DoWakeOne(s1, 0), Step(s, Push(key)));
        var t := s.queues[0][0];
        assert t !in s.woken;
      }
    }
  }

  lemma WakeAllUnfold(s: System, q: nat)
    requires Members(s) && q < |s.queues| && s.queues[q] != []
    ensures Members(DoWakeOne(s, q)) && DoWakeAll(s, q) == DoWakeAll(DoWakeOne(s, q), q)
  {
  }

  lemma {:induction false} WakeAllInv(s: System, q: nat)
    requires Inv(s) && 0 < q < |s.queues|
    ensures Inv(DoWakeAll(s, q))
    decreases |s.queues[q]|
  {
    if s.queues[q] == [] {
      assert s.queues[q := []] == s.queues;
    } else {
      WakeOneInv(s, q);
      WakeAllUnfold(s, q);
      WakeAllInv(DoWakeOne(s, q), q);
    }
  }

  /** Every step keeps the invariant. */
  lemma StepInv(s: System, e: Event)
    requires Inv(s) && Enabled(s, e)
    ensures Inv(Step(s, e))
  {
    match e
    case Create => CreateInv(s);
    case Pick => PickInv(s);
    case Recount => SleepersWake(s);
    case Return => IdleInv(s, e);
    case Yield => LeaveInv(s, e);
    case Sleep(_) => LeaveInv(s, e);
    case Exit => LeaveInv(s, e);
    case Block(q) => BlockInv(s, q);
    case WakeOne(q) => WakeOneInv(s, q);
    case WakeAll(q) => WakeAllInv(s, q);
    case Read => if s.buffer == [] { ReadEmptyInv(s); } else { ReadKeyInv(s); }
    case Push(key) => PushInv(s, key);
    case Tick => IdleInv(s, e);
  }

  /** A waiting reader and a buffered key: some reader can run and has yet to look. */
  lemma KeyHasRunnableReader(s: System)
    requires Inv(s) && s.queues[0] != [] && s.buffer != []
    ensures exists t :: t in s.woken && t < |s.tasks| && (s.tasks[t].state.Ready? || s.tasks[t].state.Running?)
  {
  }
}
