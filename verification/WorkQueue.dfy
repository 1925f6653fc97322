/** kernel/workqueue.c: a bounded ring of work, run in the order in which it was accepted. */
module WorkQueue {

  datatype Work = Work(func: nat, arg: nat, number: nat)

  const WORKQUEUE_SIZE: nat := 64

  function Slot(tail: nat, i: nat): nat {
    if tail + i < 64 then tail + i else tail + i - 64
  }

  /** The ring holds `pending` from `tail` on, and `head` is the place after it. */
  ghost predicate Holds(ring: seq<Work>, head: nat, tail: nat, pending: seq<Work>) {
    && |ring| == 64 && head < 64 && tail < 64 && |pending| <= 64 && head == Slot(tail, |pending|)
    && forall i :: 0 <= i < |pending| ==> Slot(tail, i) < 64 && ring[Slot(tail, i)] == pending[i]
  }

  lemma HoldsPush(ring: seq<Work>, head: nat, tail: nat, pending: seq<Work>, w: Work)
    requires Holds(ring, head, tail, pending) && |pending| < 64
    ensures Holds(ring[head := w], (head + 1) % 64, tail, pending + [w])
  {
  }

  /** One place on. */
  lemma SlotNext(tail: nat, i: nat)
    requires tail < 64 && i < 64
    ensures Slot((tail + 1) % 64, i) == Slot(tail, i + 1) && (i < 63 ==> Slot(tail, i + 1) != tail)
  {
  }

  lemma HoldsPop(ring: seq<Work>, head: nat, tail: nat, pending: seq<Work>, blank: Work)
    requires Holds(ring, head, tail, pending) && pending != []
    ensures ring[tail] == pending[0] && Holds(ring[tail := blank], head, (tail + 1) % 64, pending[1..])
  {
    assert Slot(tail, 0) == tail;
    var rest, ring' := pending[1..], ring[tail := blank];
    forall i: nat | i < |rest| ensures Slot((tail + 1) % 64, i) < 64 && ring'[Slot((tail + 1) % 64, i)] == rest[i] {
      SlotNext(tail, i);
      assert ring[Slot(tail, i + 1)] == pending[i + 1];
    }
    SlotNext(tail, |rest|);
  }

  /** Work is numbered from 1 in the order in which it was accepted. */
  ghost predicate Numbered(ws: seq<Work>) {
    forall i :: 0 <= i < |ws| ==> ws[i].number == i + 1 && ws[i].func != 0
  }

  class WorkRing {
    const items: array<Work>
    var head: nat
    var tail: nat
    var count: nat
    var nextSeq: nat
    var executed: nat
    var dropped: nat
    ghost var accepted: seq<Work>
    ghost var origins: seq<nat>
    ghost var popped: seq<Work>
    ghost var pending: seq<Work>

    /** What was popped and what is pending, in this order, is all that was accepted; `origins` tells where
        each item came from. */
    ghost predicate Valid()
      reads this, items
    {
      && Holds(items[..], head, tail, pending) && count == |pending| <= 64
      && accepted == popped + pending && Numbered(accepted) && nextSeq == |accepted| + 1 && |origins| == |accepted|
    }

    /** Between work items, moreover, everything popped has been executed. */
    ghost predicate Settled()
      reads this, items
    {
      Valid() && executed == |popped|
    }

    constructor ()
      ensures Settled() && fresh(items) && accepted == [] && origins == [] && popped == [] && pending == []
    {
      items := new Work[64](_ => Work(0, 0, 0));
      head, tail, count, nextSeq, executed, dropped := 0, 0, 0, 1, 0, 0;
      accepted, origins, popped, pending := [], [], [], [];
    }

    method Schedule(func: nat, arg: nat, ghost origin: nat) returns (ok: bool)
      requires Valid()
      modifies this`head, this`count, this`nextSeq, this`dropped, this`accepted, this`origins, this`pending, items
      ensures Valid() && ok == (func != 0 && |old(pending)| < WORKQUEUE_SIZE)
      ensures ok ==> accepted == old(accepted) + [Work(func, arg, |old(accepted)| + 1)]
      ensures ok ==> pending == old(pending) + [Work(func, arg, |old(accepted)| + 1)]
      ensures !ok ==> accepted == old(accepted) && pending == old(pending)
      ensures origins == if ok then old(origins) + [origin] else old(origins)
      ensures dropped == old(dropped) + if func != 0 && !ok then 1 else 0
    {
      if func == 0 { return false; }
      if count >= WORKQUEUE_SIZE {
        dropped := dropped + 1;
        return false;
      }
      var w := Work(func, arg, nextSeq);
      HoldsPush(items[..], head, tail, pending, w);
      ghost var was := items[..];
      items[head] := w;
      assert items[..] == was[head := w];
      nextSeq := nextSeq + 1;
      head := (head + 1) % 64;
      count := count + 1;
      accepted, origins, pending := accepted + [w], origins + [origin], pending + [w];
      ok := true;
    }

    method Pop() returns (ok: bool, item: Work)
      requires Valid()
      modifies this`tail, this`count, this`popped, this`pending, items
      ensures Valid() && ok == (old(pending) != [])
      ensures ok ==> item == old(pending)[0] && pending == old(pending)[1..] && popped == old(popped) + [item]
      ensures !ok ==> popped == old(popped) && pending == old(pending)
    {
      if count == 0 { return false, Work(0, 0, 0); }
      HoldsPop(items[..], head, tail, pending, Work(0, 0, 0));
      hide Holds, Numbered;
      assert popped + [pending[0]] + pending[1..] == popped + pending;
      ghost var was := items[..];
      item := items[tail];
      items[tail] := Work(0, 0, 0);
      assert items[..] == was[tail := Work(0, 0, 0)];
      tail := (tail + 1) % 64;
      count := count - 1;
      popped, pending := popped + [pending[0]], pending[1..];
      ok := true;
    }
  }
}
