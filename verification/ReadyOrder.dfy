/** The order in which the miss queue offers its ready entries: a topological sort of the entries'
ordering relation that takes the least key among the unblocked entries at every step. */
module ReadyOrder {
  import opened Common
  import opened Memory
  import opened Mshr
  import opened Topological

  /** Some target of `earlier` was queued before, and must be performed before, one of `later`. */
  predicate OrdersEntry(earlier: Entry, later: Entry) {
    exists a, b :: a in earlier.targets && b in later.targets
      && a.order < b.order && a.request.OrdersBefore(b.request)
  }

  /** Best (least) priority among the targets that carry one, from the last one backwards. */
  function EffectivePriority(targets: seq<Target>): (p: nat) {
    if targets == [] then 255
    else
      var rest := EffectivePriority(targets[..|targets| - 1]);
      var t := targets[|targets| - 1];
      if t.qos.Some? then Min(t.qos.value.priority, rest) else rest
  }

  /** The effective priority is the least one any target carries, or 255 when none carries one. */
  lemma {:induction false} EffectivePriorityIs(targets: seq<Target>)
    ensures forall t :: t in targets && t.qos.Some? ==> EffectivePriority(targets) <= t.qos.value.priority
    ensures EffectivePriority(targets) <= 255
    ensures EffectivePriority(targets) != 255 ==>
      exists t :: t in targets && t.qos.Some? && t.qos.value.priority == EffectivePriority(targets)
  {
    if targets != [] {
      var n := |targets| - 1;
      EffectivePriorityIs(targets[..n]);
      assert targets == targets[..n] + [targets[n]];
      if EffectivePriority(targets) == EffectivePriority(targets[..n]) != 255 {
        var t :| t in targets[..n] && t.qos.Some? && t.qos.value.priority == EffectivePriority(targets[..n]);
        assert t in targets;
      }
    }
  }

  /** Lexicographic order on (priority, ready tick, order, handle). */
  predicate KeyLess(a: Entry, b: Entry) {
    var pa, pb := EffectivePriority(a.targets), EffectivePriority(b.targets);
    || pa < pb
    || (pa == pb && (a.readyTick < b.readyTick
        || (a.readyTick == b.readyTick && (a.order < b.order || (a.order == b.order && a.handle < b.handle)))))
  }

  // Entries are named by their index in `entries`.

  predicate Before(entries: seq<Entry>, i: nat, j: nat) {
    i < |entries| && j < |entries| && OrdersEntry(entries[i], entries[j])
  }

  predicate Precedes(entries: seq<Entry>, i: nat, j: nat) {
    i < |entries| && j < |entries| && KeyLess(entries[i], entries[j])
  }

  function EntriesBefore(entries: seq<Entry>): (before: Relation) {
    (i: nat, j: nat) => Before(entries, i, j)
  }

  function EntriesPrecede(entries: seq<Entry>): (less: Relation) {
    (i: nat, j: nat) => Precedes(entries, i, j)
  }

  // ----- the queue's ready handles

  predicate IsReady(entries: seq<Entry>, tick: nat, i: nat) {
    i < |entries| && !entries[i].inService && entries[i].readyTick <= tick
  }

  /** Indices of the ready entries among the first `n`, in queue order. */
  function Ready(entries: seq<Entry>, tick: nat, n: nat): (pending: seq<nat>)
    requires n <= |entries|
    ensures forall p :: 0 <= p < |pending| ==> pending[p] < n && IsReady(entries, tick, pending[p])
  {
    if n == 0 then []
    else
      var pending := Ready(entries, tick, n - 1);
      if IsReady(entries, tick, n - 1) then pending + [n - 1] else pending
  }

  /** Every ready entry is pending, once. */
  lemma {:induction false} ReadyIsExact(entries: seq<Entry>, tick: nat, n: nat, i: nat)
    requires n <= |entries|
    ensures multiset(Ready(entries, tick, n))[i] == if i < n && IsReady(entries, tick, i) then 1 else 0
  {
    if n != 0 {
      ReadyIsExact(entries, tick, n - 1, i);
    }
  }

  lemma KeysAreOrdered(entries: seq<Entry>)
    ensures IsStrictOrder(EntriesPrecede(entries))
  {
  }

  function Pending(q: Queue, tick: nat): (pending: seq<nat>) {
    Ready(q.entries, tick, |q.entries|)
  }

  function ReadyEntries(q: Queue, tick: nat): (order: Option<seq<nat>>) {
    Drain(EntriesBefore(q.entries), EntriesPrecede(q.entries), Pending(q, tick))
  }

  /** The ready entries have an ordering cycle; one entry with two targets can be one. */
  ghost predicate HasCycle(q: Queue, tick: nat) {
    exists cycle :: IsCycle(EntriesBefore(q.entries), Pending(q, tick), cycle)
  }

  /** What `ready_handles` returns and when it returns: each ready entry once and nothing else, in
  an order that respects the entries' ordering and takes the least key at every step; and it
  returns exactly when the ready entries have no ordering cycle. */
  lemma ReadyHandlesCorrect(q: Queue, tick: nat)
    ensures ReadyEntries(q, tick).Some? <==> !HasCycle(q, tick)
    ensures ReadyEntries(q, tick).Some? ==>
      var order := ReadyEntries(q, tick).value;
      && (forall i: nat :: multiset(order)[i] == if IsReady(q.entries, tick, i) then 1 else 0)
      && Stepwise(EntriesBefore(q.entries), EntriesPrecede(q.entries), order)
      && (forall i, j :: 0 <= i <= j < |order| ==> !Before(q.entries, order[j], order[i]))
  {
    var before, less := EntriesBefore(q.entries), EntriesPrecede(q.entries);
    DrainSucceedsIffAcyclic(before, less, Pending(q, tick));
    if ReadyEntries(q, tick).Some? {
      KeysAreOrdered(q.entries);
      DrainIsStepwise(before, less, Pending(q, tick));
      var order := ReadyEntries(q, tick).value;
      forall i: nat
        ensures multiset(order)[i] == if IsReady(q.entries, tick, i) then 1 else 0
      {
        ReadyIsExact(q.entries, tick, |q.entries|, i);
      }
      forall i, j | 0 <= i <= j < |order|
        ensures !Before(q.entries, order[j], order[i])
      {
        OrderRespected(before, less, order, i, j);
        assert !before(order[j], order[i]);
      }
    }
  }

  /** Where no ready entry must be performed before another, the list is sorted: the more urgent
  first, then the one ready for longer, then the one queued earlier. */
  lemma UnorderedListIsSorted(q: Queue, tick: nat, order: seq<nat>, i: nat, j: nat)
    requires ReadyEntries(q, tick) == Some(order) && i < j < |order|
    requires forall k, m :: k in order && m in order ==> !Before(q.entries, k, m)
    ensures order[i] < |q.entries| && order[j] < |q.entries|
    ensures
      var a, b := q.entries[order[i]], q.entries[order[j]];
      var pa, pb := EffectivePriority(a.targets), EffectivePriority(b.targets);
      && pa <= pb
      && (pa == pb ==> a.readyTick <= b.readyTick)
      && (pa == pb && a.readyTick == b.readyTick ==> a.order <= b.order)
  {
    var before, less := EntriesBefore(q.entries), EntriesPrecede(q.entries);
    ReadyHandlesCorrect(q, tick);
    assert multiset(order)[order[i]] > 0 && multiset(order)[order[j]] > 0;
    assert TakesAt(before, less, order, i);
    assert order[j] == order[i..][j - i] && order[j] in multiset(order[i..]);
    forall k: nat | k in multiset(order[i..])
      ensures !before(k, order[j])
    {
      assert k in order[i..];
    }
  }

  /** Along a cycle of entries with one target each, ages only rise. */
  lemma {:induction false} AgesRise(entries: seq<Entry>, pending: seq<nat>, cycle: seq<nat>, i: nat)
    requires IsCycle(EntriesBefore(entries), pending, cycle) && i < |cycle|
    requires forall k :: k in multiset(pending) ==> k < |entries| && |entries[k].targets| == 1
    ensures cycle[0] < |entries| && cycle[i] < |entries|
    ensures |entries[cycle[0]].targets| == |entries[cycle[i]].targets| == 1
    ensures entries[cycle[0]].targets[0].order <= entries[cycle[i]].targets[0].order
  {
    assert cycle[0] in multiset(pending) && cycle[i] in multiset(pending);
    if i != 0 {
      AgesRise(entries, pending, cycle, i - 1);
      assert Linked(EntriesBefore(entries), cycle, i);
      SingleTargets(entries[cycle[i - 1]], entries[cycle[i]]);
    }
  }

  lemma SingleTargets(a: Entry, b: Entry)
    requires |a.targets| == |b.targets| == 1 && OrdersEntry(a, b)
    ensures a.targets[0].order < b.targets[0].order
  {
  }

  /** While no ready entry has merged targets, the oldest ready entry is always eligible. */
  lemma UnmergedAlwaysReady(q: Queue, tick: nat)
    requires forall i :: 0 <= i < |q.entries| && IsReady(q.entries, tick, i) ==> |q.entries[i].targets| == 1
    ensures ReadyEntries(q, tick).Some?
  {
    var pending := Pending(q, tick);
    ReadyHandlesCorrect(q, tick);
    if HasCycle(q, tick) {
      var cycle :| IsCycle(EntriesBefore(q.entries), pending, cycle);
      forall k: nat | k in multiset(pending)
        ensures k < |q.entries| && |q.entries[k].targets| == 1
      {
        InMultiset(pending, k);
      }
      var n := |cycle| - 1;
      AgesRise(q.entries, pending, cycle, n);
      SingleTargets(q.entries[cycle[n]], q.entries[cycle[0]]);
    }
  }

  function Read(sequence: nat, barrierAfter: Option<Barrier>): (r: Request) {
    Request(0, sequence, ReadShared, 0, 8, None, None, None, None, None, barrierAfter, false, false, true)
  }

  /** A merged entry one of whose targets orders before another blocks itself for good. */
  lemma SelfBlockedEntryPanics(q: Queue, tick: nat, i: nat)
    requires IsReady(q.entries, tick, i) && OrdersEntry(q.entries[i], q.entries[i])
    ensures ReadyEntries(q, tick).None?
  {
    ReadyIsExact(q.entries, tick, |q.entries|, i);
    assert IsCycle(EntriesBefore(q.entries), Pending(q, tick), [i]);
    ReadyHandlesCorrect(q, tick);
  }

  lemma RunOfTwo(c: Config, first: Step, second: Step)
    requires ValidConfig(c)
    ensures Run(c, [first, second]) == Advance(Advance(Empty(c), first), second)
  {
    assert [first, second][..1] == [first] && [first][..0] == [];
    assert Run(c, [first]) == Advance(Run(c, []), first);
  }

  function Demands(first: Request, second: Request): (steps: seq<Step>) {
    [Allocate(first, 0, Demand, true, None), Allocate(second, 0, Demand, true, None)]
  }

  lemma FirstAllocates(c: Config, r: Request, t: Target)
    requires ValidConfig(c) && t == Target(r, 0, 0, Demand, true, None)
    ensures AllocateOrMerge(New(c), r, 0, Demand, true, None).0
         == Queue(c, [Entry(0, r.LineAddress(c.lineBytes), 0, 0, false, false, [t])], 1, 1)
  {
  }

  lemma SecondMerges(q: Queue, r: Request, t: Target)
    requires ValidConfig(q.config) && |q.entries| == 1 && CanMerge(q.config, q.entries[0], r)
    requires |q.entries[0].targets| < q.config.targetsPerEntry && t == Target(r, 0, q.nextOrder, Demand, true, None)
    ensures AllocateOrMerge(q, r, 0, Demand, true, None).0
         == q.(entries := [q.entries[0].(targets := q.entries[0].targets + [t])],
              nextOrder := SaturatingNext(q.nextOrder))
  {
    assert MergeIndex(q.config, q.entries, r) == 0;
  }

  lemma PairMerges(c: Config, first: Request, second: Request, a: Target, b: Target)
    requires ValidConfig(c) && c.targetsPerEntry >= 2
    requires first.LineAddress(c.lineBytes) == second.LineAddress(c.lineBytes)
    requires Mergeable(first) && Mergeable(second)
    requires a == Target(first, 0, 0, Demand, true, None) && b == Target(second, 0, 1, Demand, true, None)
    ensures Run(c, Demands(first, second)).queue
         == Queue(c, [Entry(0, first.LineAddress(c.lineBytes), 0, 0, false, false, [a, b])], 1, 2)
  {
    RunOfTwo(c, Demands(first, second)[0], Demands(first, second)[1]);
    FirstAllocates(c, first, a);
    SecondMerges(Queue(c, [Entry(0, first.LineAddress(c.lineBytes), 0, 0, false, false, [a])], 1, 1), second, b);
    assert [a] + [b] == [a, b];
  }

  /** Two mergeable requests for one line, the first of which must be performed before the
  second, end up in one entry that blocks itself: the queue can no longer list its ready entries. */
  lemma FencedPairPanics(c: Config, first: Request, second: Request)
    requires ValidConfig(c) && c.targetsPerEntry >= 2
    requires first.LineAddress(c.lineBytes) == second.LineAddress(c.lineBytes)
    requires Mergeable(first) && Mergeable(second) && first.OrdersBefore(second)
    ensures ReadyEntries(Run(c, Demands(first, second)).queue, 0).None?
  {
    var a := Target(first, 0, 0, Demand, true, None);
    var b := Target(second, 0, 1, Demand, true, None);
    PairMerges(c, first, second, a, b);
    var q := Run(c, Demands(first, second)).queue;
    assert a in q.entries[0].targets && b in q.entries[0].targets;
    SelfBlockedEntryPanics(q, 0, 0);
  }

  /** Such pairs exist: a read with a memory barrier after it, and a later read of the same bytes. */
  lemma FencedPair(fenced: Request, follower: Request)
    requires fenced == Read(0, Some(Barrier(true, true))) && follower == Read(1, None)
    ensures fenced.WellFormed() && follower.WellFormed()
    ensures fenced.OrdersBefore(follower) && fenced.address == follower.address
  {
  }

  function HandleOf(entries: seq<Entry>): (handle: nat -> nat) {
    (i: nat) => if i < |entries| then entries[i].handle else 0
  }

  /** `ready_handles`: filter, then drain one grant at a time. */
  method ReadyHandles(q: Queue, tick: nat) returns (handles: Option<seq<nat>>)
    ensures handles.Some? <==> ReadyEntries(q, tick).Some?
    ensures handles.Some? ==> handles.value == Labels(HandleOf(q.entries), ReadyEntries(q, tick).value)
  {
    handles := DrainLoop(EntriesBefore(q.entries), EntriesPrecede(q.entries), Pending(q, tick), HandleOf(q.entries));
  }

  // ----- who is listed, from the run alone

  /** What a run has done to a live handle: whether it was put in service and not requeued since, as
  pending modified or not, and the tick it was last given. */
  datatype Status = Status(served: bool, modified: bool, readyTick: nat)

  type Statuses = map<nat, Status>

  function StatusOf(e: Entry): (status: Status) {
    Status(e.inService, e.pendingModified, e.readyTick)
  }

  /** The statuses a snapshot brings. */
  function StatusesOf(entries: seq<Entry>): (m: Statuses) {
    if entries == [] then map[]
    else
      var e := entries[|entries| - 1];
      StatusesOf(entries[..|entries| - 1])[e.handle := StatusOf(e)]
  }

  /** The statuses after a step. An allocation is told by the handle it answers with. */
  ghost function Follow(q: Queue, step: Step, m: Statuses): (m': Statuses)
    requires ValidConfig(q.config)
  {
    match step
    case Allocate(r, tick, source, alloc, qos) =>
      var result := AllocateOrMerge(q, r, tick, source, alloc, qos).1;
      if result.Ok? && result.value !in m then m[result.value := Status(false, false, tick)] else m
    case Serve(h, modified) =>
      if h in m && !m[h].served then m[h := Status(true, modified, m[h].readyTick)] else m
    case Requeue(h) =>
      if h in m && m[h].served then m[h := Status(false, false, m[h].readyTick)] else m
    case Delay(h, tick) => if h in m then m[h := m[h].(readyTick := tick)] else m
    case Finish(h) => m - {h}
    case RestoreFrom(snapshot) => if Mshr.Takes(q.config, snapshot) then StatusesOf(snapshot.entries) else m
  }

  ghost function RunStatuses(config: Config, steps: seq<Step>): (m: Statuses)
    requires ValidConfig(config)
  {
    if steps == [] then map[]
    else
      var n := |steps| - 1;
      Follow(Run(config, steps[..n]).queue, steps[n], RunStatuses(config, steps[..n]))
  }

  predicate Tracks(entries: seq<Entry>, m: Statuses) {
    && (forall i :: 0 <= i < |entries| ==>
         entries[i].handle in m && m[entries[i].handle] == StatusOf(entries[i]))
    && (forall h :: h in m ==> Live(entries, h))
  }

  predicate Live(entries: seq<Entry>, h: nat) {
    exists i :: 0 <= i < |entries| && entries[i].handle == h
  }

  predicate Unique(entries: seq<Entry>) {
    forall i, j :: 0 <= i < j < |entries| ==> entries[i].handle != entries[j].handle
  }

  lemma {:induction false} SnapshotTracked(entries: seq<Entry>)
    requires Unique(entries)
    ensures Tracks(entries, StatusesOf(entries))
  {
    if entries != [] {
      var n := |entries| - 1;
      SnapshotTracked(entries[..n]);
      TracksAppended(entries[..n], StatusesOf(entries[..n]), entries[n]);
      assert entries[..n] + [entries[n]] == entries;
    }
  }

  /** Handles still below the end of their counter are told apart. */
  predicate Lasts(q: Queue) {
    q.nextHandle < U64_MAX
  }

  lemma LastingIsUnique(q: Queue)
    requires Shape(q) && Lasts(q)
    ensures Unique(q.entries)
    ensures forall i :: 0 <= i < |q.entries| ==> q.entries[i].handle != q.nextHandle
  {
    forall i | 0 <= i < |q.entries|
      ensures q.entries[i].handle < q.nextHandle
    {
      assert Mshr.EntryOk(q, q.entries[i]);
    }
  }

  lemma TracksAppended(entries: seq<Entry>, m: Statuses, e: Entry)
    requires Tracks(entries, m) && forall i :: 0 <= i < |entries| ==> entries[i].handle != e.handle
    ensures Tracks(entries + [e], m[e.handle := StatusOf(e)]) && e.handle !in m
  {
    var entries' := entries + [e];
    assert entries'[|entries|] == e;
    forall h | h in m
      ensures Live(entries', h)
    {
      var i :| 0 <= i < |entries| && entries[i].handle == h;
      assert entries'[i].handle == h;
    }
  }

  lemma TracksUpdated(entries: seq<Entry>, m: Statuses, i: nat, e: Entry)
    requires Tracks(entries, m) && Unique(entries) && i < |entries| && e.handle == entries[i].handle
    ensures Tracks(entries[i := e], m[e.handle := StatusOf(e)])
  {
    var entries' := entries[i := e];
    forall h | h in m
      ensures Live(entries', h)
    {
      var k :| 0 <= k < |entries| && entries[k].handle == h;
      assert entries'[k].handle == h;
    }
  }

  lemma OthersLive(entries: seq<Entry>, i: nat, k: nat)
    requires i < |entries| && k < |entries| && k != i
    ensures Live(entries[..i] + entries[i + 1..], entries[k].handle)
  {
    var entries' := entries[..i] + entries[i + 1..];
    assert entries'[if k < i then k else k - 1] == entries[k];
  }

  lemma TracksRemoved(entries: seq<Entry>, entries': seq<Entry>, m: Statuses, i: nat)
    requires Tracks(entries, m) && Unique(entries) && i < |entries|
    requires entries' == entries[..i] + entries[i + 1..]
    ensures Tracks(entries', m - {entries[i].handle})
  {
    forall k | 0 <= k < |entries'|
      ensures entries'[k] == entries[if k < i then k else k + 1]
    {
    }
    forall h | h in m && h != entries[i].handle
      ensures Live(entries', h)
    {
      assert Live(entries, h);
      var k :| 0 <= k < |entries| && entries[k].handle == h;
      OthersLive(entries, i, k);
    }
  }

  /** The answers follow from the statuses as well: which handles are unknown, in service or not. */
  lemma AnswersFollow(q: Queue, m: Statuses, h: nat, modified: bool, tick: nat)
    requires Shape(q) && Lasts(q) && Tracks(q.entries, m)
    ensures MarkInService(q, h, modified).1
         == if h !in m then Some(UnknownEntry) else if m[h].served then Some(EntryAlreadyInService) else None
    ensures MarkPending(q, h).1
         == if h !in m then Some(UnknownEntry) else if m[h].served then None else Some(EntryNotInService)
    ensures DelayUntil(q, h, tick).1 == if h !in m then Some(UnknownEntry) else None
    ensures CompleteEntry(q, h).1.Some? <==> h in m
  {
    LastingIsUnique(q);
  }

  lemma AllocationTracked(q: Queue, step: Step, m: Statuses)
    requires Shape(q) && Lasts(q) && Tracks(q.entries, m) && step.Allocate?
    ensures
      var q' := AllocateOrMerge(q, step.request, step.readyTick, step.source, step.allocOnFill, step.qos).0;
      Tracks(q'.entries, Follow(q, step, m))
  {
    var i := MergeIndex(q.config, q.entries, step.request);
    var (q', result) := AllocateOrMerge(q, step.request, step.readyTick, step.source, step.allocOnFill, step.qos);
    LastingIsUnique(q);
    if result.Ok? && i < |q.entries| {
      TracksUpdated(q.entries, m, i, q'.entries[i]);
      assert m[q.entries[i].handle := StatusOf(q.entries[i])] == m;
    } else if result.Ok? {
      TracksAppended(q.entries, m, q'.entries[i]);
    }
  }

  lemma StepTracked(l: Ledger, step: Step, m: Statuses)
    requires Shape(l.queue) && Lasts(l.queue) && Tracks(l.queue.entries, m)
    ensures Tracks(Advance(l, step).queue.entries, Follow(l.queue, step, m))
  {
    var q := l.queue;
    LastingIsUnique(q);
    if step.Allocate? {
      AllocationTracked(q, step, m);
    } else if step.RestoreFrom? {
      Mshr.RestoreAcceptsIff(q, step.snapshot);
      if Mshr.Takes(q.config, step.snapshot) {
        SnapshotTracked(step.snapshot.entries);
      }
    } else {
      HandleTracked(l, step, m, Find(q.entries, step.handle));
    }
  }

  lemma HandleTracked(l: Ledger, step: Step, m: Statuses, i: nat)
    requires ValidConfig(l.queue.config) && Unique(l.queue.entries) && Tracks(l.queue.entries, m)
    requires (step.Serve? || step.Requeue? || step.Delay? || step.Finish?) && i == Find(l.queue.entries, step.handle)
    ensures Tracks(Advance(l, step).queue.entries, Follow(l.queue, step, m))
  {
    var entries, entries' := l.queue.entries, Advance(l, step).queue.entries;
    if i == |entries| {
      UnknownUntouched(l, step, m);
    } else if step.Finish? {
      TracksRemoved(entries, entries', m, i);
    } else {
      EntryUpdated(l, step, m, i);
      TracksUpdated(entries, m, i, entries'[i]);
    }
  }

  lemma UnknownUntouched(l: Ledger, step: Step, m: Statuses)
    requires ValidConfig(l.queue.config) && Tracks(l.queue.entries, m)
    requires step.Serve? || step.Requeue? || step.Delay? || step.Finish?
    requires Find(l.queue.entries, step.handle) == |l.queue.entries|
    ensures Advance(l, step).queue.entries == l.queue.entries && Follow(l.queue, step, m) == m
  {
    assert !Live(l.queue.entries, step.handle);
  }

  lemma EntryUpdated(l: Ledger, step: Step, m: Statuses, i: nat)
    requires ValidConfig(l.queue.config) && Tracks(l.queue.entries, m)
    requires (step.Serve? || step.Requeue? || step.Delay?) && i == Find(l.queue.entries, step.handle)
    requires i < |l.queue.entries|
    ensures
      var entries' := Advance(l, step).queue.entries;
      && |entries'| == |l.queue.entries| && entries'[i].handle == step.handle
      && entries' == l.queue.entries[i := entries'[i]]
      && Follow(l.queue, step, m) == m[step.handle := StatusOf(entries'[i])]
  {
  }

  lemma {:induction false} RunTracked(config: Config, steps: seq<Step>)
    requires ValidConfig(config) && Mshr.AllOffered(steps)
    requires forall n :: 0 <= n < |steps| ==> Lasts(Run(config, steps[..n]).queue)
    ensures Tracks(Run(config, steps).queue.entries, RunStatuses(config, steps))
  {
    if steps != [] {
      var n := |steps| - 1;
      assert forall k :: 0 <= k < n ==> steps[..n][..k] == steps[..k];
      RunTracked(config, steps[..n]);
      Mshr.RunKeepsShape(config, steps[..n]);
      StepTracked(Run(config, steps[..n]), steps[n], RunStatuses(config, steps[..n]));
    }
  }

  predicate Lists(q: Queue, order: seq<nat>, h: nat) {
    exists p :: 0 <= p < |order| && order[p] < |q.entries| && q.entries[order[p]].handle == h
  }

  lemma ListMeans(q: Queue, m: Statuses, tick: nat, order: seq<nat>, h: nat)
    requires Tracks(q.entries, m)
    requires forall i: nat :: multiset(order)[i] == if IsReady(q.entries, tick, i) then 1 else 0
    ensures Lists(q, order, h) <==> h in m && !m[h].served && m[h].readyTick <= tick
  {
    if Lists(q, order, h) {
      var p :| 0 <= p < |order| && order[p] < |q.entries| && q.entries[order[p]].handle == h;
      assert order[p] in multiset(order);
    }
    if h in m && !m[h].served && m[h].readyTick <= tick {
      assert Live(q.entries, h);
      var i :| 0 <= i < |q.entries| && q.entries[i].handle == h;
      assert IsReady(q.entries, tick, i);
      InMultiset(order, i);
    }
  }

  /** While the handle counter lasts, a run's list names exactly the live handles that are not in
  service and whose tick has come: putting a handle in service takes it off the list until it is
  requeued, and a delayed handle comes back at its tick. */
  lemma ListFollowsRun(config: Config, steps: seq<Step>, tick: nat, order: seq<nat>, h: nat)
    requires ValidConfig(config) && Mshr.AllOffered(steps)
    requires forall n :: 0 <= n < |steps| ==> Lasts(Run(config, steps[..n]).queue)
    requires ReadyEntries(Run(config, steps).queue, tick) == Some(order)
    ensures
      var m := RunStatuses(config, steps);
      Lists(Run(config, steps).queue, order, h) <==> h in m && !m[h].served && m[h].readyTick <= tick
  {
    RunTracked(config, steps);
    ReadyHandlesCorrect(Run(config, steps).queue, tick);
    ListMeans(Run(config, steps).queue, RunStatuses(config, steps), tick, order, h);
  }
}
