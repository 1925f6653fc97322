/** The cooperative scheduler, wait queues and the TTY as one step machine (kernel/task.c, kernel/wait.c,
    kernel/tty.c). A step is a stretch of code that runs with interrupts off; between steps interrupts may
    come in. */
module Tasks {
  import opened Options

  datatype State = Ready | Running | Sleeping | Waiting | Done

  datatype Task = Task(state: State, wakeTick: nat)

  type Key = nat

  /** `queues[0]` is the TTY queue. `woken` holds the readers woken from it that have not looked at the
      buffer since. `accepted` and `delivered` are the keys so far. */
  datatype System = System(tasks: seq<Task>, current: Option<nat>, cursor: Option<nat>, queues: seq<seq<nat>>,
                           tick: nat, buffer: seq<Key>, woken: set<nat>, accepted: seq<Key>, delivered: seq<Key>)

  const TTY_CAPACITY: nat := 255

  // ---------- picking ----------

  function WokenAt(t: Task, tick: nat): Task {
    if t.state.Sleeping? && tick >= t.wakeTick then Task(Ready, 0) else t
  }

  /** The tasks once the sleepers whose time has come are ready. */
  function WakeSleepers(ts: seq<Task>, tick: nat): (r: seq<Task>)
    ensures |r| == |ts|
  {
    seq(|ts|, i requires 0 <= i < |ts| => WokenAt(ts[i], tick))
  }

  /** The first ready task among those numbered `from` up to `end`. */
  function FirstReady(ts: seq<Task>, from: nat, end: nat): (r: Option<nat>)
    requires from <= end <= |ts|
    ensures r.Some? ==> from <= r.value < end && ts[r.value].state.Ready?
    ensures r.Some? ==> forall i :: from <= i < r.value ==> !ts[i].state.Ready?
    ensures r.None? ==> forall i :: from <= i < end ==> !ts[i].state.Ready?
    decreases end - from
  {
    if from == end then None
    else if ts[from].state.Ready? then Some(from)
    else FirstReady(ts, from + 1, end)
  }

  /** Where the search begins: after the task picked last, or at the head of the list. */
  function Start(cursor: Option<nat>, n: nat): (r: nat)
    ensures n > 0 ==> r < n
  {
    if cursor.Some? && cursor.value + 1 < n then cursor.value + 1 else 0
  }

  /** The ready task found first going round the list. */
  function Choice(ts: seq<Task>, cursor: Option<nat>): (r: Option<nat>)
    ensures r.Some? ==> r.value < |ts| && ts[r.value].state.Ready?
    ensures r.None? ==> forall i :: 0 <= i < |ts| ==> !ts[i].state.Ready?
  {
    if |ts| == 0 then None
    else
      var k := Start(cursor, |ts|);
      var r := FirstReady(ts, k, |ts|);
      if r.Some? then r else FirstReady(ts, 0, k)
  }

  // ---------- steps ----------

  function SetState(s: System, t: nat, state: State, wakeTick: nat): System
    requires t < |s.tasks|
  {
    s.(tasks := s.tasks[t := Task(state, wakeTick)])
  }

  /** `task_set_ready` on a task that waits; its wake tick stays. */
  function WakeTask(ts: seq<Task>, t: nat): seq<Task>
    requires t < |ts|
  {
    if ts[t].state.Waiting? then ts[t := ts[t].(state := Ready)] else ts
  }

  function WakeTasks(ts: seq<Task>, q: seq<nat>): (r: seq<Task>)
    requires forall i :: 0 <= i < |q| ==> q[i] < |ts|
    ensures |r| == |ts|
    decreases |q|
  {
    if q == [] then ts else WakeTasks(WakeTask(ts, q[0]), q[1..])
  }

  datatype Event =
    | Create
    | Pick
    | Recount
    | Return
    | Yield
    | Sleep(ticks: nat)
    | Exit
    | Block(queue: nat)
    | WakeOne(queue: nat)
    | WakeAll(queue: nat)
    | Read
    | Push(key: Key)
    | Tick

  /** A task is running and has control. */
  predicate Executing(s: System) {
    s.current.Some? && s.current.value < |s.tasks| && s.tasks[s.current.value].state.Running?
  }

  /** What can happen in `s`. `Recount` is the start of `task_ready_count`, `task_sleeping_count` and
      `task_print_all`. A woken reader goes on by looking at the buffer; keys can also be read while no task is
      current. The TTY queue is used by the TTY alone. */
  predicate Enabled(s: System, e: Event) {
    match e
    case Create => true
    case Pick => s.current.None?
    case Recount => true
    case Return => s.current.Some? && !Executing(s)
    case Yield => Executing(s) && s.current.value !in s.woken
    case Sleep(_) => Executing(s) && s.current.value !in s.woken
    case Exit => Executing(s) && s.current.value !in s.woken
    case Block(q) => Executing(s) && s.current.value !in s.woken && 0 < q < |s.queues|
    case WakeOne(q) => 0 < q < |s.queues|
    case WakeAll(q) => 0 < q < |s.queues|
    case Read => s.current.None? || Executing(s)
    case Push(_) => true
    case Tick => true
  }

  function DoPick(s: System): System {
    var ts := WakeSleepers(s.tasks, s.tick);
    match Choice(ts, s.cursor)
    case None => s.(tasks := ts)
    case Some(t) => s.(tasks := ts[t := ts[t].(state := Running)], current := Some(t), cursor := Some(t))
  }

  function DoBlock(s: System, q: nat): System
    requires Executing(s) && q < |s.queues|
  {
    var t := s.current.value;
    s.(tasks := s.tasks[t := s.tasks[t].(state := Waiting)], queues := s.queues[q := s.queues[q] + [t]])
  }

  function DoWakeOne(s: System, q: nat): System
    requires q < |s.queues| && Members(s)
  {
    if s.queues[q] == [] then s
    else s.(tasks := WakeTask(s.tasks, s.queues[q][0]), queues := s.queues[q := s.queues[q][1..]])
  }

  function DoWakeAll(s: System, q: nat): System
    requires q < |s.queues| && Members(s)
  {
    s.(tasks := WakeTasks(s.tasks, s.queues[q]), queues := s.queues[q := []])
  }

  /** The current task, if any, as a set. */
  function Reader(s: System): set<nat> {
    if s.current.Some? then {s.current.value} else {}
  }

  /** One round of a read: takes a key, or puts the current task, if any, to wait. */
  function DoRead(s: System): System
    requires (s.current.None? || Executing(s)) && |s.queues| > 0
  {
    var s' := s.(woken := s.woken - Reader(s));
    if s.buffer != [] then s'.(buffer := s.buffer[1..], delivered := s.delivered + [s.buffer[0]])
    else if s.current.None? then s'
    else DoBlock(s', 0)
  }

  function DoPush(s: System, key: Key): System
    requires |s.queues| > 0 && Members(s)
  {
    if |s.buffer| == TTY_CAPACITY then s
    else
      var s' := s.(buffer := s.buffer + [key], accepted := s.accepted + [key]);
      if s.queues[0] == [] then s' else DoWakeOne(s', 0).(woken := s.woken + {s.queues[0][0]})
  }

  /** Queues hold task numbers. */
  predicate Members(s: System) {
    forall q, i :: 0 <= q < |s.queues| && 0 <= i < |s.queues[q]| ==> s.queues[q][i] < |s.tasks|
  }

  function Step(s: System, e: Event): System
    requires Enabled(s, e) && Members(s) && |s.queues| > 0
  {
    match e
    case Create => s.(tasks := s.tasks + [Task(Ready, 0)])
    case Pick => DoPick(s)
    case Recount => s.(tasks := WakeSleepers(s.tasks, s.tick))
    case Return => s.(current := None)
    case Yield => s.(tasks := s.tasks[s.current.value := s.tasks[s.current.value].(state := Ready)])
    case Sleep(n) =>
      if n == 0 then s.(tasks := s.tasks[s.current.value := s.tasks[s.current.value].(state := Ready)])
      else SetState(s, s.current.value, Sleeping, s.tick + n)
    case Exit => SetState(s, s.current.value, Done, 0)
    case Block(q) => DoBlock(s, q)
    case WakeOne(q) => DoWakeOne(s, q)
    case WakeAll(q) => DoWakeAll(s, q)
    case Read => DoRead(s)
    case Push(key) => DoPush(s, key)
    case Tick => s.(tick := s.tick + 1)
  }

  // ---------- what every reachable state satisfies ----------

  /** The task at place `i` of queue `q`. */
  predicate QueuedAt(s: System, q: nat, i: nat, t: nat) {
    q < |s.queues| && i < |s.queues[q]| && s.queues[q][i] == t
  }

  predicate InRange(s: System) {
    && |s.queues| > 0 && Members(s)
    && (s.current.Some? ==> s.current.value < |s.tasks|)
    && (s.cursor.Some? ==> s.cursor.value < |s.tasks|)
  }

  /** At most one task is running, and it is the current one. */
  predicate OneRunning(s: System) {
    forall t :: 0 <= t < |s.tasks| && s.tasks[t].state.Running? ==> s.current == Some(t)
  }

  /** A task waits if and only if it is in a queue, and it is there in one place only. */
  ghost predicate WaitingQueued(s: System) {
    && (forall q: nat, i: nat, t: nat :: QueuedAt(s, q, i, t) && t < |s.tasks| ==> s.tasks[t].state.Waiting?)
    && (forall t :: 0 <= t < |s.tasks| && s.tasks[t].state.Waiting? ==> exists q: nat, i: nat :: QueuedAt(s, q, i, t))
    && (forall q: nat, i: nat, q': nat, i': nat, t: nat ::
          QueuedAt(s, q, i, t) && QueuedAt(s, q', i', t) ==> q == q' && i == i')
  }

  /** Readers woken by a key can run. */
  predicate WokenRunnable(s: System) {
    forall t :: t in s.woken ==> t < |s.tasks| && (s.tasks[t].state.Ready? || s.tasks[t].state.Running?)
  }

  /** While a reader waits, every buffered key has a woken reader coming for it. */
  predicate NoLostWakeup(s: System)
    requires |s.queues| > 0
  {
    s.queues[0] != [] ==> |s.buffer| <= |s.woken|
  }

  predicate KeysInOrder(s: System) {
    |s.buffer| <= TTY_CAPACITY && s.accepted == s.delivered + s.buffer
  }

  ghost predicate Inv(s: System) {
    InRange(s) && OneRunning(s) && WaitingQueued(s) && WokenRunnable(s) && NoLostWakeup(s) && KeysInOrder(s)
  }

  function Boot(queues: nat): System {
    System([], None, None, seq(queues, _ => []), 0, [], {}, [], [])
  }

  lemma BootInv(queues: nat)
    requires queues > 0
    ensures Inv(Boot(queues))
  {
  }
}
