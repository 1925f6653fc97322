/** Any sequence of `kmalloc`, `kzalloc` and `kfree` calls on the kernel heap: what the blocks, the frames and the
    bytes of the allocations are after it. */
module HeapRuns {
  import opened Utils
  import opened Options
  import opened PageTables
  import opened TableEffects
  import opened PageRanges
  import opened Vmm
  import opened UserMemory
  import opened HeapBlocks
  import opened HeapLinks
  import opened HeapPages
  import opened Heap
  import opened HeapBytes
  import opened Allocations

  /** `foreign` is what the bytes before `ptr` read as when they are no block's header. */
  datatype Op = Malloc(n: nat) | Zalloc(n: nat) | Free(ptr: nat, foreign: HeapLinks.Header)

  ghost predicate AllowedNow(h: HeapBlocks.Heap, op: Op) {
    match op
    case Malloc(n) => Requestable(h, n)
    case Zalloc(n) => Requestable(h, n)
    case Free(ptr, foreign) => ptr == 0 || (ptr >= 48 && HasAddr(h.blocks, ptr - 48)) || !ReadsUsed(foreign)
  }

  /** The call that `op` is, given whether the heap could grow for it. */
  ghost function CallOf(op: Op, granted: bool): Call {
    match op
    case Malloc(n) => Alloc(n, granted)
    case Zalloc(n) => Alloc(n, granted)
    case Free(ptr, foreign) => Dealloc(ptr, ReadsUsed(foreign))
  }

  /** Every operation may be called where it is reached, whether or not the heap could grow before it. */
  ghost predicate Allowed(h: HeapBlocks.Heap, ops: seq<Op>)
    decreases |ops|
  {
    ops == [] || (AllowedNow(h, ops[0]) && forall granted: bool ::
      LawfulCall(h, CallOf(ops[0], granted)) && Allowed(HeapBlocks.Step(h, CallOf(ops[0], granted)), ops[1..]))
  }

  /** The pointer that a call gives. */
  ghost function Given(h: HeapBlocks.Heap, c: Call): nat {
    if c.Alloc? then HeapBlocks.Kmalloc(h, c.n, c.granted).1 else 0
  }

  /** How the heap grows for a request: not at all for none, else as the free frames of `s` allow. */
  ghost predicate GrownFor(h: HeapBlocks.Heap, n: nat, s: Snapshot, g: Snapshot, granted: bool, lost: set<nat>) {
    && HeapGrowth(s, g, lost) && Partitioned(g)
    && if n == 0 then granted && lost == {} && g == s else GrowthFor(h, Rounded(n), s, g, granted, lost)
  }

  /** One operation: `s` and `s'` are the states around it, `g` the one after the heap has grown. */
  ghost predicate Did(h: HeapBlocks.Heap, s: Snapshot, op: Op, c: Call, g: Snapshot, s': Snapshot, lost: set<nat>) {
    match op
    case Malloc(n) => c.Alloc? && c.n == n && GrownFor(h, n, s, g, c.granted, lost) && s' == g
    case Zalloc(n) =>
      && c.Alloc? && c.n == n && GrownFor(h, n, s, g, c.granted, lost) && OnlyDataIn(g, s', HEAP_LO, HEAP_HI)
      && ZeroedTo(g, s', Given(h, c), if Given(h, c) == 0 then 0 else n)
    case Free(ptr, foreign) => c == CallOf(op, true) && s' == g == s && lost == {}
  }

  /** What was recorded of an operation: the call, the states during and after it, and the frames it lost. */
  datatype Event = Event(call: Call, grown: Snapshot, after: Snapshot, lost: set<nat>)

  function Calls(events: seq<Event>): (r: seq<Call>)
    ensures |r| == |events|
  {
    if events == [] then [] else [events[0].call] + Calls(events[1..])
  }

  function Lost(events: seq<Event>): set<nat> {
    if events == [] then {} else events[0].lost + Lost(events[1..])
  }

  function Last(s: Snapshot, events: seq<Event>): Snapshot {
    if events == [] then s else events[|events| - 1].after
  }

  /** The events are those of the operations, begun with heap `h` in state `s`. */
  ghost predicate Ran(h: HeapBlocks.Heap, s: Snapshot, ops: seq<Op>, events: seq<Event>)
    decreases |ops|
  {
    |events| == |ops| &&
    (ops != [] ==> && Begins(h, s, ops[0], events[0])
                   && Ran(HeapBlocks.Step(h, events[0].call), events[0].after, ops[1..], events[1..]))
  }

  ghost predicate Begins(h: HeapBlocks.Heap, s: Snapshot, op: Op, e: Event) {
    && LawfulCall(h, e.call) && Did(h, s, op, e.call, e.grown, e.after, e.lost)
    && Partitioned(s) && Partitioned(e.after)
  }

  // ---------- the run ----------

  lemma DataKeepsPartition(g: Snapshot, s: Snapshot)
    requires OnlyDataIn(g, s, HEAP_LO, HEAP_HI) && Partitioned(s)
    ensures Partitioned(g)
  {
  }

  lemma Meant(h: HeapBlocks.Heap, n: nat, granted: bool, h': HeapBlocks.Heap, ptr: nat)
    requires IsKmalloc(h, n, granted, h', ptr)
    ensures Requestable(h, n) && HeapBlocks.Kmalloc(h, n, granted) == (h', ptr)
  {
    hide HeapBlocks.Kmalloc;
  }

  /** One operation on the heap. */
  method Perform(heap: KernelHeap, op: Op) returns (ptr: nat, ghost e: Event)
    requires heap.Valid() && heap.Backing() && heap.ready && AllowedNow(heap.State(), op)
    modifies heap`hdr, heap`blocks, heap`first, heap`mappedEnd, heap`holes
    modifies heap.vm`mem, heap.vm`tables, heap.vm`view, heap.vm`leaves
    modifies heap.vm.pmm`free, heap.vm.pmm`freeFrames, heap.vm.pmm.bitmap
    ensures heap.Valid() && heap.Backing() && (e.lost == {} ==> heap.holes == old(heap.holes))
    ensures Begins(old(heap.State()), old(heap.vm.Snap()), op, e) && e.after == heap.vm.Snap()
    ensures (exists granted :: e.call == CallOf(op, granted)) && ptr == Given(old(heap.State()), e.call)
    ensures heap.State() == HeapBlocks.Step(old(heap.State()), e.call)
  {
    hide Whole, HeapGrowth, GrowthFor, HeapSpace, Refused, Requestable, HeapBlocks.Kmalloc, HeapBlocks.Kfree;
    hide Partitioned;
    ghost var s, h := heap.vm.Snap(), heap.State();
    heap.vm.SnapPartitioned();
    ghost var granted, lost, g := true, {}, s;
    match op {
      case Malloc(n) =>
        ptr, granted, lost := heap.Kmalloc(n);
        Meant(h, n, granted, heap.State(), ptr);
        g := heap.vm.Snap();
      case Zalloc(n) =>
        ptr, granted, lost, g := Kzalloc(heap, n);
        Meant(h, n, granted, heap.State(), ptr);
        heap.vm.SnapPartitioned();
        DataKeepsPartition(g, heap.vm.Snap());
      case Free(p, foreign) =>
        heap.Kfree(p, foreign);
        ptr := 0;
    }
    heap.vm.SnapPartitioned();
    e := Event(CallOf(op, granted), g, heap.vm.Snap(), lost);
  }

  /** The pointers that the calls give. */
  ghost function Pointers(h: HeapBlocks.Heap, calls: seq<Call>): seq<nat>
    requires Lawful(h, calls)
    decreases |calls|
  {
    if calls == [] then [] else [Given(h, calls[0])] + Pointers(HeapBlocks.Step(h, calls[0]), calls[1..])
  }

  lemma LastAfter(s: Snapshot, e: Event, events: seq<Event>)
    ensures Last(s, [e] + events) == Last(e.after, events)
  {
  }

  lemma FirstCall(h: HeapBlocks.Heap, e: Event, events: seq<Event>)
    requires LawfulCall(h, e.call) && Lawful(HeapBlocks.Step(h, e.call), Calls(events))
    ensures Calls([e] + events) == [e.call] + Calls(events) && Lost([e] + events) == e.lost + Lost(events)
    ensures Lawful(h, Calls([e] + events))
    ensures HeapBlocks.Run(h, Calls([e] + events)) == HeapBlocks.Run(HeapBlocks.Step(h, e.call), Calls(events))
    ensures Pointers(h, Calls([e] + events)) ==
            [Given(h, e.call)] + Pointers(HeapBlocks.Step(h, e.call), Calls(events))
  {
    assert ([e] + events)[1..] == events;
    assert ([e.call] + Calls(events))[1..] == Calls(events);
  }

  lemma FirstRan(h: HeapBlocks.Heap, s: Snapshot, ops: seq<Op>, e: Event, events: seq<Event>)
    requires ops != [] && Begins(h, s, ops[0], e) && Ran(HeapBlocks.Step(h, e.call), e.after, ops[1..], events)
    ensures Ran(h, s, ops, [e] + events)
  {
    hide Begins;
    assert ([e] + events)[1..] == events;
  }

  /** All the operations, one after the other. */
  method Run(heap: KernelHeap, ops: seq<Op>) returns (ptrs: seq<nat>, ghost events: seq<Event>)
    requires heap.Valid() && heap.Backing() && heap.ready && Allowed(heap.State(), ops)
    modifies heap`hdr, heap`blocks, heap`first, heap`mappedEnd, heap`holes
    modifies heap.vm`mem, heap.vm`tables, heap.vm`view, heap.vm`leaves
    modifies heap.vm.pmm`free, heap.vm.pmm`freeFrames, heap.vm.pmm.bitmap
    ensures heap.Valid() && heap.Backing() && (Lost(events) == {} ==> heap.holes == old(heap.holes))
    ensures Ran(old(heap.State()), old(heap.vm.Snap()), ops, events)
    ensures Last(old(heap.vm.Snap()), events) == heap.vm.Snap()
    ensures Lawful(old(heap.State()), Calls(events))
    ensures heap.State() == HeapBlocks.Run(old(heap.State()), Calls(events))
    ensures ptrs == Pointers(old(heap.State()), Calls(events))
    decreases |ops|
  {
    hide Whole, HeapSpace, Begins, AllowedNow, LawfulCall, HeapBlocks.Step, Given;
    ptrs, events := [], [];
    if ops != [] {
      ghost var h, s := heap.State(), heap.vm.Snap();
      var ptr;
      ghost var e;
      ptr, e := Perform(heap, ops[0]);
      Lawfully(h, s, ops[0], e);
      ptrs, events := Run(heap, ops[1..]);
      FirstCall(h, e, events);
      FirstRan(h, s, ops, e, events);
      LastAfter(s, e, events);
      ptrs, events := [ptr] + ptrs, [e] + events;
    }
  }

  lemma Lawfully(h: HeapBlocks.Heap, s: Snapshot, op: Op, e: Event)
    requires Begins(h, s, op, e)
    ensures LawfulCall(h, e.call)
  {
    hide LawfulCall, Did;
  }

  // ---------- what every run keeps ----------

  /** The frames of a run: none comes in, those lost are gone, and every mapped page keeps its frame. */
  ghost predicate FramesKept(s: Snapshot, s': Snapshot, lost: set<nat>) {
    && Pool(s') + lost == Pool(s) && lost !! Pool(s') && s.tables.Keys <= s'.tables.Keys
    && forall d :: d in s.leaves ==> d in s'.leaves && s'.leaves[d] == s.leaves[d]
  }

  lemma OperationFrames(h: HeapBlocks.Heap, s: Snapshot, op: Op, e: Event)
    requires Begins(h, s, op, e)
    ensures FramesKept(s, e.after, e.lost) && |e.lost| <= 1
  {
    hide GrowthFor, Partitioned, ZeroedTo;
  }

  lemma NoFrames(s: Snapshot)
    ensures FramesKept(s, s, {})
  {
    hide Pool;
  }

  lemma FramesKeptTrans(s: Snapshot, s1: Snapshot, s2: Snapshot, lost: set<nat>, more: set<nat>)
    requires FramesKept(s, s1, lost) && FramesKept(s1, s2, more)
    ensures FramesKept(s, s2, lost + more)
  {
    hide Pool;
  }

  /** Over a whole run frames only move from the free ones to tables and heap pages, or are lost, at most one for
      each operation. */
  lemma {:induction false} RunFrames(h: HeapBlocks.Heap, s: Snapshot, ops: seq<Op>, events: seq<Event>)
    requires Ran(h, s, ops, events)
    ensures FramesKept(s, Last(s, events), Lost(events)) && |Lost(events)| <= |ops|
    decreases |ops|
  {
    hide Begins, FramesKept, HeapBlocks.Step;
    if ops == [] {
      NoFrames(s);
    } else {
      var e := events[0];
      OperationFrames(h, s, ops[0], e);
      Lawfully(h, s, ops[0], e);
      RunFrames(HeapBlocks.Step(h, e.call), e.after, ops[1..], events[1..]);
      FramesKeptTrans(s, e.after, Last(s, events), e.lost, Lost(events[1..]));
      UnionSize(e.lost, Lost(events[1..]));
    }
  }

  lemma OperationKeepsByte(h: HeapBlocks.Heap, s: Snapshot, op: Op, e: Event, b: Block, a: nat)
    requires HeapOk(h) && Begins(h, s, op, e) && b in Live(h.blocks) && InPayload(b, a) && VaByte(s, a).Some?
    ensures VaByte(e.after, a) == VaByte(s, a)
  {
    hide HeapOk, VaByte, HeapGrowth, GrowthFor, Partitioned, InPayload, Requestable, HeapBlocks.Kmalloc;
    match op {
      case Malloc(n) => GrowthKeepsByte(s, e.grown, e.lost, a);
      case Zalloc(n) =>
        GrowthKeepsByte(s, e.grown, e.lost, a);
        AllocationsApart(h, n, e.call.granted, HeapBlocks.Kmalloc(h, n, e.call.granted).0, Given(h, e.call), b, a);
        assert VaByte(e.after, a) == VaByte(e.grown, a);
      case Free(_, _) =>
    }
  }

  /** Over a whole run an allocation that is not freed keeps every byte. */
  lemma {:induction false} RunKeepsBytes(h: HeapBlocks.Heap, s: Snapshot, ops: seq<Op>, events: seq<Event>, b: Block,
                                         a: nat)
    requires HeapOk(h) && Ran(h, s, ops, events) && b in Live(h.blocks)
    requires forall op :: op in ops && op.Free? ==> op.ptr != b.addr + 48
    requires InPayload(b, a) && VaByte(s, a).Some?
    ensures VaByte(Last(s, events), a) == VaByte(s, a)
    decreases |ops|
  {
    if ops != [] {
      var e := events[0];
      OperationKeepsByte(h, s, ops[0], e, b, a);
      assert ops[0] in ops;
      StaysLive(h, s, ops[0], e, b);
      hide Begins, HeapOk, VaByte, InPayload, HeapBlocks.Step;
      RunKeepsBytes(HeapBlocks.Step(h, e.call), e.after, ops[1..], events[1..], b, a);
    }
  }

  lemma StaysLive(h: HeapBlocks.Heap, s: Snapshot, op: Op, e: Event, b: Block)
    requires HeapOk(h) && Begins(h, s, op, e) && b in Live(h.blocks) && (op.Free? ==> op.ptr != b.addr + 48)
    ensures LawfulCall(h, e.call) && HeapOk(HeapBlocks.Step(h, e.call))
    ensures b in Live(HeapBlocks.Step(h, e.call).blocks)
  {
    hide HeapOk, Partitioned, HeapGrowth, GrowthFor, HeapBlocks.Kmalloc, HeapBlocks.Kfree;
    match e.call {
      case Alloc(n, granted) => KmallocKeeps(h, n, granted);
      case Dealloc(ptr, _) => KfreeKeeps(h, ptr);
    }
  }
}
