/** Wait queues as `wait_next` links with head and tail (kernel/wait.c), and the TTY ring (kernel/tty.c). */
module WaitLinks {
  import opened Options
  import opened Sequences
  import opened Tasks

  datatype TaskRec = TaskRec(state: State, wakeTick: nat, waitNext: Option<nat>)

  /** The records show the tasks of the step machine. */
  ghost predicate Shown(recs: seq<TaskRec>, ts: seq<Task>) {
    |recs| == |ts| && forall i :: 0 <= i < |ts| ==> Task(recs[i].state, recs[i].wakeTick) == ts[i]
  }

  // ---------- one queue ----------

  /** `head` and `tail` are the first and last task of `q`, and the links lead from one to the next. */
  ghost predicate QueueLinked(recs: seq<TaskRec>, head: Option<nat>, tail: Option<nat>, q: seq<nat>) {
    && head == First(q) && tail == Last(q)
    && forall i :: 0 <= i < |q| ==> q[i] < |recs| && recs[q[i]].waitNext == After(q, i)
  }

  ghost predicate Links(recs: seq<TaskRec>, heads: seq<Option<nat>>, tails: seq<Option<nat>>, queues: seq<seq<nat>>) {
    |heads| == |tails| == |queues| &&
    forall q :: 0 <= q < |queues| ==> QueueLinked(recs, heads[q], tails[q], queues[q])
  }

  /** Links of queued tasks stay, so the queues stay. */
  lemma LinksKept(recs: seq<TaskRec>, recs': seq<TaskRec>, heads: seq<Option<nat>>, tails: seq<Option<nat>>,
                  queues: seq<seq<nat>>)
    requires Links(recs, heads, tails, queues) && |recs| <= |recs'|
    requires forall q, i :: 0 <= q < |queues| && 0 <= i < |queues[q]| && queues[q][i] < |recs| ==>
               recs'[queues[q][i]].waitNext == recs[queues[q][i]].waitNext
    ensures Links(recs', heads, tails, queues)
  {
  }

  // ---------- joining a queue ----------

  /** Task `t` is linked in after the task at the tail. */
  function Joined(recs: seq<TaskRec>, tail: Option<nat>, t: nat): seq<TaskRec>
    requires t < |recs| && (tail.Some? ==> tail.value < |recs|)
  {
    var r := recs[t := TaskRec(Waiting, recs[t].wakeTick, None)];
    if tail.Some? then r[tail.value := r[tail.value].(waitNext := Some(t))] else r
  }

  lemma JoinedQueue(recs: seq<TaskRec>, head: Option<nat>, tail: Option<nat>, q: seq<nat>, t: nat)
    requires QueueLinked(recs, head, tail, q) && t < |recs| && t !in q
    requires forall i, j :: 0 <= i < j < |q| ==> q[i] != q[j]
    ensures tail.Some? ==> tail.value < |recs|
    ensures QueueLinked(Joined(recs, tail, t), if head.None? then Some(t) else head, Some(t), q + [t])
  {
  }

  lemma OtherQueue(recs: seq<TaskRec>, recs': seq<TaskRec>, head: Option<nat>, tail: Option<nat>, q: seq<nat>)
    requires QueueLinked(recs, head, tail, q) && |recs| == |recs'|
    requires forall i :: 0 <= i < |q| && q[i] < |recs| ==> recs'[q[i]].waitNext == recs[q[i]].waitNext
    ensures QueueLinked(recs', head, tail, q)
  {
  }

  lemma Distinct(s: System, q: nat)
    requires WaitingQueued(s) && q < |s.queues|
    ensures forall i, j :: 0 <= i < j < |s.queues[q]| ==> s.queues[q][i] != s.queues[q][j]
  {
    forall i: nat, j: nat | i < j < |s.queues[q]| ensures s.queues[q][i] != s.queues[q][j] {
      assert QueuedAt(s, q, i, s.queues[q][i]) && QueuedAt(s, q, j, s.queues[q][j]);
    }
  }

  /** A task of one queue is in no other. */
  lemma Apart(s: System, q: nat, i: nat, p: nat, j: nat)
    requires WaitingQueued(s) && q < |s.queues| && p < |s.queues| && q != p
    requires i < |s.queues[q]| && j < |s.queues[p]|
    ensures s.queues[q][i] != s.queues[p][j]
  {
    assert QueuedAt(s, q, i, s.queues[q][i]) && QueuedAt(s, p, j, s.queues[p][j]);
  }

  lemma NotQueued(s: System, t: nat, q: nat, i: nat)
    requires WaitingQueued(s) && Members(s) && t < |s.tasks| && !s.tasks[t].state.Waiting?
    requires q < |s.queues| && i < |s.queues[q]|
    ensures s.queues[q][i] != t
  {
    assert QueuedAt(s, q, i, s.queues[q][i]);
  }

  /** Adding the current task at the end of queue `q`. */
  lemma JoinLinks(s: System, recs: seq<TaskRec>, heads: seq<Option<nat>>, tails: seq<Option<nat>>, q: nat, t: nat)
    requires WaitingQueued(s) && Members(s) && |recs| == |s.tasks| && Links(recs, heads, tails, s.queues)
    requires q < |s.queues| && t < |s.tasks| && !s.tasks[t].state.Waiting?
    ensures tails[q].Some? ==> tails[q].value < |recs|
    ensures Links(Joined(recs, tails[q], t), heads[q := if heads[q].None? then Some(t) else heads[q]],
                  tails[q := Some(t)], s.queues[q := s.queues[q] + [t]])
  {
    assert QueueLinked(recs, heads[q], tails[q], s.queues[q]);
    Distinct(s, q);
    forall i: nat | i < |s.queues[q]| ensures s.queues[q][i] != t { NotQueued(s, t, q, i); }
    JoinedQueue(recs, heads[q], tails[q], s.queues[q], t);
    forall p: nat | p < |s.queues| && p != q
      ensures QueueLinked(Joined(recs, tails[q], t), heads[p], tails[p], s.queues[p])
    {
      assert QueueLinked(recs, heads[p], tails[p], s.queues[p]);
      forall i: nat | i < |s.queues[p]| ensures s.queues[p][i] != t && Some(s.queues[p][i]) != tails[q] {
        NotQueued(s, t, p, i);
        if s.queues[q] != [] { Apart(s, q, |s.queues[q]| - 1, p, i); }
      }
      OtherQueue(recs, Joined(recs, tails[q], t), heads[p], tails[p], s.queues[p]);
    }
  }

  // ---------- leaving a queue ----------

  /** The task at the head is unlinked and made ready if it waits. */
  function Unlinked(r: TaskRec): TaskRec {
    TaskRec(if r.state.Waiting? then Ready else r.state, r.wakeTick, None)
  }

  lemma LeaveLinks(s: System, recs: seq<TaskRec>, heads: seq<Option<nat>>, tails: seq<Option<nat>>, q: nat)
    requires WaitingQueued(s) && Members(s) && |recs| == |s.tasks| && Links(recs, heads, tails, s.queues)
    requires q < |s.queues| && s.queues[q] != []
    ensures heads[q] == Some(s.queues[q][0]) && s.queues[q][0] < |recs|
    ensures var t := s.queues[q][0]; var next := recs[t].waitNext;
            Links(recs[t := Unlinked(recs[t])], heads[q := next], tails[q := if next.None? then None else tails[q]],
                  s.queues[q := s.queues[q][1..]])
  {
    assert QueueLinked(recs, heads[q], tails[q], s.queues[q]);
    var t := s.queues[q][0];
    var recs', rest := recs[t := Unlinked(recs[t])], s.queues[q][1..];
    Distinct(s, q);
    forall i | 0 <= i < |rest| ensures recs'[rest[i]].waitNext == After(rest, i) {
      assert recs[s.queues[q][i + 1]].waitNext == After(s.queues[q], i + 1);
    }
    forall p: nat | p < |s.queues| && p != q ensures QueueLinked(recs', heads[p], tails[p], s.queues[p]) {
      assert QueueLinked(recs, heads[p], tails[p], s.queues[p]);
      forall i: nat | i < |s.queues[p]| ensures s.queues[p][i] != t { Apart(s, q, 0, p, i); }
      OtherQueue(recs, recs', heads[p], tails[p], s.queues[p]);
    }
  }

  // ---------- the ring ----------

  function Next(i: nat): nat { (i + 1) % 256 }

  function Count(head: nat, tail: nat): int {
    if head >= tail then head - tail else head + 256 - tail
  }

  function Slot(tail: nat, i: nat): nat {
    if tail + i < 256 then tail + i else tail + i - 256
  }

  /** The ring holds `buffer` between `tail` and `head`. */
  ghost predicate RingHolds(ring: seq<Key>, head: nat, tail: nat, buffer: seq<Key>) {
    && |ring| == 256 && head < 256 && tail < 256 && |buffer| == Count(head, tail)
    && forall i :: 0 <= i < |buffer| ==> Slot(tail, i) < 256 && buffer[i] == ring[Slot(tail, i)]
  }

  /** The ring is full when the next place is the tail: 255 keys. */
  lemma RingPush(ring: seq<Key>, head: nat, tail: nat, buffer: seq<Key>, key: Key)
    requires RingHolds(ring, head, tail, buffer)
    ensures Next(head) == tail <==> |buffer| == TTY_CAPACITY
    ensures Next(head) != tail ==> RingHolds(ring[head := key], Next(head), tail, buffer + [key])
  {
  }

  lemma RingPop(ring: seq<Key>, head: nat, tail: nat, buffer: seq<Key>)
    requires RingHolds(ring, head, tail, buffer)
    ensures tail == head <==> buffer == []
    ensures tail != head ==> ring[tail] == buffer[0] && RingHolds(ring, head, Next(tail), buffer[1..])
  {
  }
}
