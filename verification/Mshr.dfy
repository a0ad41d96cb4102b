/** The miss-status holding register queue: outstanding line misses and the requests that wait
on them. */
module Mshr {
  import opened Common
  import opened Memory
  import opened Totals

  datatype Source = Demand | Snoop | Prefetch

  datatype Qos = Qos(requestor: nat, priority: nat)

  datatype Target = Target(
    request: Request, readyTick: nat, order: nat, source: Source, allocOnFill: bool, qos: Option<Qos>)

  datatype Entry = Entry(
    handle: nat, line: nat, readyTick: nat, order: nat, inService: bool, pendingModified: bool, targets: seq<Target>)

  /** Queue geometry; requests are split into lines of `lineBytes` bytes. */
  datatype Config = Config(lineBytes: nat, entries: nat, targetsPerEntry: nat, demandReserve: nat)

  predicate ValidConfig(c: Config) {
    c.lineBytes > 0 && c.entries > 0 && c.targetsPerEntry > 0 && c.demandReserve < c.entries
  }

  datatype Queue = Queue(config: Config, entries: seq<Entry>, nextHandle: nat, nextOrder: nat)

  function New(config: Config): (q: Queue) {
    Queue(config, [], 0, 0)
  }

  datatype QueueError =
    | EntrySlotsFull
    | TargetSlotsFull
    | PrefetchReserveBlocked
    | UnknownEntry
    | EntryAlreadyInService
    | EntryNotInService
    | SnapshotConfigMismatch
    | SnapshotTooManyEntries
    | SnapshotTooManyTargets
    | SnapshotEmptyTargets
    | SnapshotTargetLineMismatch
    | DuplicateSnapshotHandle
    | SnapshotNextHandleNotAfterEntry
    | SnapshotNextOrderNotAfterEntry
    | SnapshotNextOrderNotAfterTarget

  // ----- allocation and merging

  predicate Mergeable(r: Request) {
    !r.uncacheable && !r.strictOrder
  }

  /** Every waiting request can share its line with others. */
  predicate Shareable(e: Entry) {
    forall t :: t in e.targets ==> Mergeable(t.request)
  }

  predicate CanMerge(c: Config, e: Entry, r: Request)
    requires ValidConfig(c)
  {
    e.line == r.LineAddress(c.lineBytes) && Mergeable(r) && Shareable(e)
  }

  /** Index of the first entry the request may join, or the number of entries. */
  function MergeIndex(c: Config, entries: seq<Entry>, r: Request): (i: nat)
    requires ValidConfig(c)
    ensures i <= |entries|
    ensures i < |entries| ==> CanMerge(c, entries[i], r)
    ensures forall k :: 0 <= k < i ==> !CanMerge(c, entries[k], r)
  {
    if entries == [] then 0
    else if CanMerge(c, entries[0], r) then 0
    else 1 + MergeIndex(c, entries[1..], r)
  }

  predicate CanAcceptPrefetch(q: Queue) {
    |q.entries| < q.config.entries - (q.config.demandReserve + 1)
  }

  function CanAllocate(q: Queue, source: Source): (e: Option<QueueError>) {
    if source.Prefetch? && !CanAcceptPrefetch(q) then Some(PrefetchReserveBlocked)
    else if |q.entries| >= q.config.entries then Some(EntrySlotsFull)
    else None
  }

  /** Merge into an entry for the line if one is shareable, else allocate. Returns the handle. */
  function AllocateOrMerge(q: Queue, r: Request, readyTick: nat, source: Source, allocOnFill: bool, qos: Option<Qos>)
    : (out: (Queue, Result<nat, QueueError>))
    requires ValidConfig(q.config)
  {
    var target := Target(r, readyTick, q.nextOrder, source, allocOnFill, qos);
    var i := MergeIndex(q.config, q.entries, r);
    if i < |q.entries| then
      var e := q.entries[i];
      if |e.targets| >= q.config.targetsPerEntry then (q, Err(TargetSlotsFull))
      else
        (q.(entries := q.entries[i := e.(targets := e.targets + [target])], nextOrder := SaturatingNext(q.nextOrder)),
         Ok(e.handle))
    else
      match CanAllocate(q, source)
      case Some(error) => (q, Err(error))
      case None =>
        var e := Entry(q.nextHandle, r.LineAddress(q.config.lineBytes), readyTick, q.nextOrder, false, false, [target]);
        (q.(entries := q.entries + [e], nextHandle := SaturatingNext(q.nextHandle),
            nextOrder := SaturatingNext(q.nextOrder)),
         Ok(e.handle))
  }

  /** Index of the first entry with this handle, or the number of entries. */
  function Find(entries: seq<Entry>, handle: nat): (i: nat)
    ensures i <= |entries|
    ensures i < |entries| ==> entries[i].handle == handle
    ensures forall k :: 0 <= k < i ==> entries[k].handle != handle
  {
    if entries == [] then 0
    else if entries[0].handle == handle then 0
    else 1 + Find(entries[1..], handle)
  }

  function MarkInService(q: Queue, handle: nat, pendingModified: bool): (out: (Queue, Option<QueueError>)) {
    var i := Find(q.entries, handle);
    if i == |q.entries| then (q, Some(UnknownEntry))
    else if q.entries[i].inService then (q, Some(EntryAlreadyInService))
    else
      (q.(entries := q.entries[i := q.entries[i].(inService := true, pendingModified := pendingModified)]), None)
  }

  function MarkPending(q: Queue, handle: nat): (out: (Queue, Option<QueueError>)) {
    var i := Find(q.entries, handle);
    if i == |q.entries| then (q, Some(UnknownEntry))
    else if !q.entries[i].inService then (q, Some(EntryNotInService))
    else (q.(entries := q.entries[i := q.entries[i].(inService := false, pendingModified := false)]), None)
  }

  function DelayUntil(q: Queue, handle: nat, readyTick: nat): (out: (Queue, Option<QueueError>)) {
    var i := Find(q.entries, handle);
    if i == |q.entries| then (q, Some(UnknownEntry))
    else (q.(entries := q.entries[i := q.entries[i].(readyTick := readyTick)]), None)
  }

  /** Removes the entry and hands over its targets. */
  function CompleteEntry(q: Queue, handle: nat): (out: (Queue, Option<Entry>)) {
    var i := Find(q.entries, handle);
    if i == |q.entries| then (q, None)
    else (q.(entries := q.entries[..i] + q.entries[i + 1..]), Some(q.entries[i]))
  }

  /** Targets a completion forwards downstream instead of serving from the filled line. */
  predicate ForwardsDownstream(t: Target) {
    var op := t.request.operation;
    op.IsWriteback() || op.CleanShared? || op.CleanEvict? || op.Invalidate?
  }

  function LocalTargets(targets: seq<Target>): (local: seq<Target>) {
    if targets == [] then []
    else (if ForwardsDownstream(targets[0]) then [] else [targets[0]]) + LocalTargets(targets[1..])
  }

  function ForwardedTargets(targets: seq<Target>): (forwarded: seq<Target>) {
    if targets == [] then []
    else (if ForwardsDownstream(targets[0]) then [targets[0]] else []) + ForwardedTargets(targets[1..])
  }

  // ----- snapshots (a snapshot has the queue's own fields)

  function CheckTargets(e: Entry, c: Config, nextOrder: nat, targets: seq<Target>): (error: Option<QueueError>)
    requires ValidConfig(c)
  {
    if targets == [] then None
    else if targets[0].request.LineAddress(c.lineBytes) != e.line then Some(SnapshotTargetLineMismatch)
    else if nextOrder <= targets[0].order then Some(SnapshotNextOrderNotAfterTarget)
    else CheckTargets(e, c, nextOrder, targets[1..])
  }

  function CheckEntry(s: Queue, e: Entry, seen: set<nat>): (error: Option<QueueError>)
    requires ValidConfig(s.config)
  {
    if |e.targets| > s.config.targetsPerEntry then Some(SnapshotTooManyTargets)
    else if e.targets == [] then Some(SnapshotEmptyTargets)
    else if e.handle in seen then Some(DuplicateSnapshotHandle)
    else if s.nextHandle <= e.handle then Some(SnapshotNextHandleNotAfterEntry)
    else if s.nextOrder <= e.order then Some(SnapshotNextOrderNotAfterEntry)
    else CheckTargets(e, s.config, s.nextOrder, e.targets)
  }

  /** The first complaint about the entries from `i` on. */
  function CheckEntries(s: Queue, i: nat, seen: set<nat>): (error: Option<QueueError>)
    requires ValidConfig(s.config) && i <= |s.entries|
    decreases |s.entries| - i
  {
    if i == |s.entries| then None
    else
      var error := CheckEntry(s, s.entries[i], seen);
      if error.Some? then error else CheckEntries(s, i + 1, seen + {s.entries[i].handle})
  }

  function Restore(q: Queue, snapshot: Queue): (out: (Queue, Option<QueueError>))
    requires ValidConfig(q.config)
  {
    if q.config != snapshot.config then (q, Some(SnapshotConfigMismatch))
    else if |snapshot.entries| > q.config.entries then (q, Some(SnapshotTooManyEntries))
    else
      var error := CheckEntries(snapshot, 0, {});
      if error.Some? then (q, error) else (snapshot, None)
  }

  // ----- every run of the queue

  /** The public mutations. A restore may offer any snapshot: decoded ones come from outside. */
  datatype Step =
    | Allocate(request: Request, readyTick: nat, source: Source, allocOnFill: bool, qos: Option<Qos>)
    | Serve(handle: nat, pendingModified: bool)
    | Requeue(handle: nat)
    | Delay(handle: nat, readyTick: nat)
    | Finish(handle: nat)
    | RestoreFrom(snapshot: Queue)

  /** A request as its caller put it to the queue. */
  datatype Asked = Asked(request: Request, readyTick: nat, source: Source, allocOnFill: bool, qos: Option<Qos>)

  /** The queue, the requests it has accepted and handed over, and the requests that restores have
  brought in and dropped. */
  datatype Ledger = Ledger(
    queue: Queue,
    accepted: multiset<Asked>,
    finished: multiset<Asked>,
    adopted: multiset<Asked>,
    dropped: multiset<Asked>)

  function Empty(config: Config): (l: Ledger) {
    Ledger(New(config), multiset{}, multiset{}, multiset{}, multiset{})
  }

  function AskedBy(t: Target): (a: Asked) {
    Asked(t.request, t.readyTick, t.source, t.allocOnFill, t.qos)
  }

  function AskedOf(targets: seq<Target>): (asked: seq<Asked>) {
    seq(|targets|, i requires 0 <= i < |targets| => AskedBy(targets[i]))
  }

  function AskedIn(e: Entry): (asked: multiset<Asked>) {
    multiset(AskedOf(e.targets))
  }

  /** Requests waiting in live entries. */
  function LiveAsked(entries: seq<Entry>): (live: multiset<Asked>) {
    Total(entries, AskedIn)
  }

  function Advance(l: Ledger, step: Step): (l': Ledger)
    requires ValidConfig(l.queue.config)
    ensures l'.queue.config == l.queue.config
  {
    match step
    case Allocate(r, tick, source, alloc, qos) =>
      var (q, result) := AllocateOrMerge(l.queue, r, tick, source, alloc, qos);
      var asked := if result.Ok? then multiset{Asked(r, tick, source, alloc, qos)} else multiset{};
      l.(queue := q, accepted := l.accepted + asked)
    case Serve(handle, modified) => l.(queue := MarkInService(l.queue, handle, modified).0)
    case Requeue(handle) => l.(queue := MarkPending(l.queue, handle).0)
    case Delay(handle, tick) => l.(queue := DelayUntil(l.queue, handle, tick).0)
    case Finish(handle) =>
      var (q, done) := CompleteEntry(l.queue, handle);
      l.(queue := q,
         finished := if done.Some? then l.finished + multiset(AskedOf(done.value.targets)) else l.finished)
    case RestoreFrom(snapshot) =>
      if Restore(l.queue, snapshot).1.Some? then l
      else l.(queue := snapshot,
              adopted := l.adopted + LiveAsked(snapshot.entries),
              dropped := l.dropped + LiveAsked(l.queue.entries))
  }

  function Run(config: Config, steps: seq<Step>): (l: Ledger)
    requires ValidConfig(config)
    ensures l.queue.config == config
  {
    if steps == [] then Empty(config)
    else Advance(Run(config, steps[..|steps| - 1]), steps[|steps| - 1])
  }

  /** The counters of an offered snapshot are 64-bit numbers. */
  predicate Offers(step: Step) {
    step.RestoreFrom? ==> step.snapshot.nextHandle <= U64_MAX && step.snapshot.nextOrder <= U64_MAX
  }

  // ----- what every run keeps

  predicate Below(x: nat, next: nat) {
    x < next || x == next == U64_MAX
  }

  predicate EntryOk(q: Queue, e: Entry)
    requires ValidConfig(q.config)
  {
    && 0 < |e.targets| <= q.config.targetsPerEntry
    && Below(e.handle, q.nextHandle) && Below(e.order, q.nextOrder)
    && forall t :: t in e.targets ==>
         t.request.LineAddress(q.config.lineBytes) == e.line && Below(t.order, q.nextOrder)
  }

  predicate DistinctHandles(entries: seq<Entry>) {
    forall i, j :: 0 <= i < j < |entries| ==> entries[i].handle != entries[j].handle || entries[i].handle == U64_MAX
  }

  /** Entries within their bounds, handles distinct, handles and orders behind their counters. */
  predicate Shape(q: Queue) {
    && ValidConfig(q.config)
    && |q.entries| <= q.config.entries
    && q.nextHandle <= U64_MAX && q.nextOrder <= U64_MAX
    && (forall i :: 0 <= i < |q.entries| ==> EntryOk(q, q.entries[i]))
    && DistinctHandles(q.entries)
  }

  /** The entry has the order of its first target, and its targets follow in rising order. */
  predicate EntryOrdered(e: Entry) {
    && e.targets != [] && e.order == e.targets[0].order
    && forall i, j :: 0 <= i < j < |e.targets| ==>
         e.targets[i].order < e.targets[j].order || e.targets[i].order == U64_MAX
  }

  /** No line has two entries that requests could join. */
  predicate OneShareablePerLine(entries: seq<Entry>) {
    forall i, j :: 0 <= i < j < |entries| && entries[i].line == entries[j].line ==>
      !(Shareable(entries[i]) && Shareable(entries[j]))
  }

  /** What the shape check of a restore does not look at. */
  predicate Orderly(entries: seq<Entry>) {
    (forall i :: 0 <= i < |entries| ==> EntryOrdered(entries[i])) && OneShareablePerLine(entries)
  }

  predicate Inv(q: Queue) {
    Shape(q) && Orderly(q.entries)
  }

  lemma EntryOkLater(q: Queue, q': Queue, e: Entry)
    requires ValidConfig(q.config) && q'.config == q.config && EntryOk(q, e)
    requires q'.nextHandle == q.nextHandle || q'.nextHandle == SaturatingNext(q.nextHandle)
    requires q'.nextOrder == SaturatingNext(q.nextOrder)
    ensures EntryOk(q', e)
  {
  }

  lemma MergedEntryOk(q: Queue, e: Entry, t: Target)
    requires ValidConfig(q.config) && EntryOk(q, e) && q.nextOrder <= U64_MAX
    requires |e.targets| < q.config.targetsPerEntry && Shareable(e) && Mergeable(t.request)
    requires t.request.LineAddress(q.config.lineBytes) == e.line && t.order == q.nextOrder
    ensures
      var e' := e.(targets := e.targets + [t]);
      && Shareable(e') && EntryOk(q.(nextOrder := SaturatingNext(q.nextOrder)), e')
      && (EntryOrdered(e) ==> EntryOrdered(e'))
  {
    var e' := e.(targets := e.targets + [t]);
    forall u | u in e'.targets
      ensures u in e.targets || u == t
    {
    }
    forall i | 0 <= i < |e.targets|
      ensures e.targets[i] in e.targets
    {
    }
  }

  lemma MergeKeepsInv(q: Queue, i: nat, t: Target)
    requires Shape(q) && i < |q.entries| && CanMerge(q.config, q.entries[i], t.request)
    requires |q.entries[i].targets| < q.config.targetsPerEntry && t.order == q.nextOrder
    ensures
      var e := q.entries[i];
      var q' := q.(entries := q.entries[i := e.(targets := e.targets + [t])], nextOrder := SaturatingNext(q.nextOrder));
      Shape(q') && (Inv(q) ==> Inv(q'))
  {
    var e := q.entries[i];
    var q' := q.(entries := q.entries[i := e.(targets := e.targets + [t])], nextOrder := SaturatingNext(q.nextOrder));
    MergedEntryOk(q, e, t);
    forall k | 0 <= k < |q.entries|
      ensures EntryOk(q', q'.entries[k])
    {
      if k != i {
        EntryOkLater(q, q', q.entries[k]);
      }
    }
  }

  lemma NewEntryKeepsInv(q: Queue, e: Entry)
    requires Shape(q) && |q.entries| < q.config.entries
    requires e.handle == q.nextHandle && e.order == q.nextOrder && |e.targets| == 1 && e.targets[0].order == q.nextOrder
    requires e.line == e.targets[0].request.LineAddress(q.config.lineBytes)
    requires forall k :: 0 <= k < |q.entries| ==> !CanMerge(q.config, q.entries[k], e.targets[0].request)
    ensures
      var q' := q.(entries := q.entries + [e], nextHandle := SaturatingNext(q.nextHandle),
                   nextOrder := SaturatingNext(q.nextOrder));
      Shape(q') && (Inv(q) ==> Inv(q'))
  {
    var q' := q.(entries := q.entries + [e], nextHandle := SaturatingNext(q.nextHandle),
                 nextOrder := SaturatingNext(q.nextOrder));
    forall k | 0 <= k < |q.entries|
      ensures EntryOk(q', q'.entries[k])
      ensures q.entries[k].handle != e.handle || e.handle == U64_MAX
    {
      assert EntryOk(q, q.entries[k]);
      EntryOkLater(q, q', q.entries[k]);
    }
    assert Shareable(e) <==> Mergeable(e.targets[0].request) by {
      assert e.targets[0] in e.targets;
    }
  }

  lemma AllocateKeepsInv(q: Queue, r: Request, tick: nat, source: Source, alloc: bool, qos: Option<Qos>)
    requires Shape(q)
    ensures Shape(AllocateOrMerge(q, r, tick, source, alloc, qos).0)
    ensures Inv(q) ==> Inv(AllocateOrMerge(q, r, tick, source, alloc, qos).0)
  {
    var t := Target(r, tick, q.nextOrder, source, alloc, qos);
    var i := MergeIndex(q.config, q.entries, r);
    if i < |q.entries| {
      if |q.entries[i].targets| < q.config.targetsPerEntry {
        MergeKeepsInv(q, i, t);
      }
    } else if CanAllocate(q, source).None? {
      NewEntryKeepsInv(q, Entry(q.nextHandle, r.LineAddress(q.config.lineBytes), tick, q.nextOrder, false, false, [t]));
    }
  }

  /** Entries alike in handle, line and targets. */
  predicate Alike(e: Entry, e': Entry) {
    e'.handle == e.handle && e'.line == e.line && e'.order == e.order && e'.targets == e.targets
  }

  lemma AlikeOk(q: Queue, q': Queue, e: Entry, e': Entry)
    requires ValidConfig(q.config) && Alike(e, e') && EntryOk(q, e)
    requires q'.config == q.config && q'.nextHandle == q.nextHandle && q'.nextOrder == q.nextOrder
    ensures EntryOk(q', e') && Shareable(e') == Shareable(e)
  {
  }

  /** The entries of `q'` are entries of `q`, in the same order up to flags and ready ticks. */
  ghost predicate Selects(q: Queue, q': Queue, from: nat -> nat) {
    && q'.config == q.config && q'.nextHandle == q.nextHandle && q'.nextOrder == q.nextOrder
    && |q'.entries| <= |q.entries|
    && (forall k :: 0 <= k < |q'.entries| ==> from(k) < |q.entries| && Alike(q.entries[from(k)], q'.entries[k]))
    && (forall j, k :: 0 <= j < k < |q'.entries| ==> from(j) < from(k))
  }

  lemma SelectKeepsInv(q: Queue, q': Queue, from: nat -> nat)
    requires Shape(q) && Selects(q, q', from)
    ensures Shape(q') && (Inv(q) ==> Inv(q'))
  {
    forall k | 0 <= k < |q'.entries|
      ensures EntryOk(q', q'.entries[k]) && Shareable(q'.entries[k]) == Shareable(q.entries[from(k)])
    {
      AlikeOk(q, q', q.entries[from(k)], q'.entries[k]);
    }
  }

  lemma CompletionSelects(q: Queue, handle: nat) returns (from: nat -> nat)
    requires ValidConfig(q.config)
    ensures Selects(q, CompleteEntry(q, handle).0, from)
  {
    var i, q' := Find(q.entries, handle), CompleteEntry(q, handle).0;
    from := if i < |q.entries| then (k: nat) => if k < i then k else k + 1 else (k: nat) => k;
    forall k | 0 <= k < |q'.entries|
      ensures q'.entries[k] == q.entries[from(k)]
    {
    }
  }

  lemma CompleteKeepsInv(q: Queue, handle: nat)
    requires Shape(q)
    ensures Shape(CompleteEntry(q, handle).0)
    ensures Inv(q) ==> Inv(CompleteEntry(q, handle).0)
  {
    var from := CompletionSelects(q, handle);
    SelectKeepsInv(q, CompleteEntry(q, handle).0, from);
  }

  /** Marking and delaying touch one entry, and neither its handle nor its targets. */
  lemma UpdateSelects(l: Ledger, step: Step)
    requires ValidConfig(l.queue.config) && (step.Serve? || step.Requeue? || step.Delay?)
    ensures Selects(l.queue, Advance(l, step).queue, k => k) && |Advance(l, step).queue.entries| == |l.queue.entries|
  {
  }

  lemma AdvanceKeepsInv(l: Ledger, step: Step)
    requires Shape(l.queue) && !step.RestoreFrom?
    ensures Shape(Advance(l, step).queue)
    ensures Inv(l.queue) ==> Inv(Advance(l, step).queue)
  {
    if step.Allocate? {
      AllocateKeepsInv(l.queue, step.request, step.readyTick, step.source, step.allocOnFill, step.qos);
    } else if step.Finish? {
      CompleteKeepsInv(l.queue, step.handle);
    } else {
      UpdateSelects(l, step);
      SelectKeepsInv(l.queue, Advance(l, step).queue, k => k);
    }
  }

  /** A restore keeps the bounds whatever it is offered. It keeps the whole invariant if and only if
  it refuses, or the snapshot meets what the shape check does not look at. */
  lemma RestoreKeepsInvIff(q: Queue, snapshot: Queue)
    requires Shape(q) && snapshot.nextHandle <= U64_MAX && snapshot.nextOrder <= U64_MAX
    ensures Shape(Restore(q, snapshot).0)
    ensures Inv(q) ==>
      (Inv(Restore(q, snapshot).0) <==> Restore(q, snapshot).1.Some? || Orderly(snapshot.entries))
  {
    RestoreAcceptsIff(q, snapshot);
    if Restore(q, snapshot).1.None? {
      forall i | 0 <= i < |snapshot.entries|
        ensures EntryOk(snapshot, snapshot.entries[i])
      {
        assert EntryShaped(snapshot, snapshot.entries[i]);
      }
    }
  }

  /** Two entries that requests for line 0 could join pass the shape check. */
  lemma TwoShareableAccepted(c: Config, t: Target)
    requires ValidConfig(c) && c.entries >= 2 && t.order == 0
    requires Mergeable(t.request) && t.request.LineAddress(c.lineBytes) == 0
    ensures
      var first := Entry(0, 0, 0, 0, false, false, [t]);
      var second := Entry(1, 0, 0, 1, false, false, [t.(order := 1)]);
      var snapshot := Queue(c, [first, second], 2, 2);
      && Restore(New(c), snapshot) == (snapshot, None)
      && Inv(New(c)) && Shape(snapshot) && !Inv(snapshot)
  {
    var first := Entry(0, 0, 0, 0, false, false, [t]);
    var second := Entry(1, 0, 0, 1, false, false, [t.(order := 1)]);
    var snapshot := Queue(c, [first, second], 2, 2);
    assert EntryShaped(snapshot, first) && EntryShaped(snapshot, second);
    RestoreAcceptsIff(New(c), snapshot);
    RestoreKeepsInvIff(New(c), snapshot);
    assert Shareable(snapshot.entries[0]) && Shareable(snapshot.entries[1]);
  }

  predicate AllOffered(steps: seq<Step>) {
    forall i :: 0 <= i < |steps| ==> Offers(steps[i])
  }

  lemma StepKeepsInvIff(l: Ledger, step: Step)
    requires Shape(l.queue) && Offers(step)
    ensures Shape(Advance(l, step).queue)
    ensures Inv(l.queue) ==>
      (Inv(Advance(l, step).queue) <==>
         (step.RestoreFrom? && Takes(l.queue.config, step.snapshot) ==> Orderly(step.snapshot.entries)))
  {
    if step.RestoreFrom? {
      RestoreKeepsInvIff(l.queue, step.snapshot);
      RestoreAcceptsIff(l.queue, step.snapshot);
    } else {
      AdvanceKeepsInv(l, step);
    }
  }

  /** Every run, restores of any snapshot included, keeps entries within their bounds, handles
  distinct, and handles and orders behind their counters. */
  lemma {:induction false} RunKeepsShape(config: Config, steps: seq<Step>)
    requires ValidConfig(config) && AllOffered(steps)
    ensures Shape(Run(config, steps).queue)
  {
    if steps != [] {
      var n := |steps| - 1;
      RunKeepsShape(config, steps[..n]);
      StepKeepsInvIff(Run(config, steps[..n]), steps[n]);
    }
  }

  /** The queue satisfies `p` at every point of the run. */
  ghost predicate Always(config: Config, steps: seq<Step>, p: Queue -> bool)
    requires ValidConfig(config)
  {
    && p(Run(config, steps).queue)
    && (steps != [] ==> Always(config, steps[..|steps| - 1], p))
  }

  /** Every snapshot the run takes over satisfies `p`. */
  ghost predicate TakesOver(config: Config, steps: seq<Step>, p: seq<Entry> -> bool)
    requires ValidConfig(config)
  {
    forall i :: 0 <= i < |steps| && steps[i].RestoreFrom? && Takes(config, steps[i].snapshot) ==>
      p(steps[i].snapshot.entries)
  }

  ghost predicate Takes(config: Config, snapshot: Queue)
    requires ValidConfig(config)
  {
    config == snapshot.config && WellShaped(snapshot)
  }

  lemma TakesOverLast(config: Config, steps: seq<Step>, p: seq<Entry> -> bool)
    requires ValidConfig(config) && steps != []
    ensures
      var n := |steps| - 1;
      TakesOver(config, steps, p) <==>
        && TakesOver(config, steps[..n], p)
        && (steps[n].RestoreFrom? && Takes(config, steps[n].snapshot) ==> p(steps[n].snapshot.entries))
  {
  }

  /** The queue invariant holds at every point of a run if and only if every snapshot the run takes
  over has its targets in order and no line with two entries that requests could join. Snapshots of
  queues that satisfy the invariant have both. */
  lemma {:induction false} RunKeepsInvIff(config: Config, steps: seq<Step>)
    requires ValidConfig(config) && AllOffered(steps)
    ensures Always(config, steps, Inv) <==> TakesOver(config, steps, Orderly)
  {
    if steps != [] {
      var n := |steps| - 1;
      RunKeepsInvIff(config, steps[..n]);
      TakesOverLast(config, steps, Orderly);
      RunKeepsShape(config, steps[..n]);
      StepKeepsInvIff(Run(config, steps[..n]), steps[n]);
    }
  }

  // ----- no two live targets share an order

  predicate Apart(e: Entry, e': Entry) {
    forall k, m :: 0 <= k < |e.targets| && 0 <= m < |e'.targets| ==>
      e.targets[k].order != e'.targets[m].order || e.targets[k].order == U64_MAX
  }

  predicate DistinctOrders(entries: seq<Entry>) {
    forall i, j :: 0 <= i < j < |entries| ==> Apart(entries[i], entries[j])
  }

  /** A target with the next order is apart from everything there is. */
  lemma FreshApart(q: Queue, e: Entry, t: Target, k: nat)
    requires ValidConfig(q.config) && EntryOk(q, e) && t.order == q.nextOrder && k < |e.targets|
    ensures e.targets[k].order != t.order || e.targets[k].order == U64_MAX
  {
    assert e.targets[k] in e.targets;
  }

  lemma MergedApart(q: Queue, e: Entry, e': Entry, t: Target)
    requires ValidConfig(q.config) && EntryOk(q, e') && t.order == q.nextOrder
    ensures Apart(e, e') ==> Apart(e.(targets := e.targets + [t]), e')
    ensures Apart(e', e) ==> Apart(e', e.(targets := e.targets + [t]))
  {
    forall k: nat | k < |e'.targets|
      ensures e'.targets[k].order != t.order || e'.targets[k].order == U64_MAX
    {
      FreshApart(q, e', t, k);
    }
  }

  lemma AllocateKeepsOrders(q: Queue, r: Request, tick: nat, source: Source, alloc: bool, qos: Option<Qos>)
    requires Shape(q) && DistinctOrders(q.entries)
    ensures DistinctOrders(AllocateOrMerge(q, r, tick, source, alloc, qos).0.entries)
  {
    var q' := AllocateOrMerge(q, r, tick, source, alloc, qos).0;
    var t := Target(r, tick, q.nextOrder, source, alloc, qos);
    var i := MergeIndex(q.config, q.entries, r);
    if q' != q {
      forall j, k | 0 <= j < k < |q'.entries|
        ensures Apart(q'.entries[j], q'.entries[k])
      {
        if i < |q.entries| {
          MergedApart(q, q.entries[j], q.entries[k], t);
          MergedApart(q, q.entries[k], q.entries[j], t);
        } else if k == |q.entries| {
          MergedApart(q, q'.entries[k].(targets := []), q.entries[j], t);
        }
      }
    }
  }

  lemma SelectKeepsOrders(q: Queue, q': Queue, from: nat -> nat)
    requires DistinctOrders(q.entries) && Selects(q, q', from)
    ensures DistinctOrders(q'.entries)
  {
    forall j, k | 0 <= j < k < |q'.entries|
      ensures Apart(q'.entries[j], q'.entries[k])
    {
      assert Apart(q.entries[from(j)], q.entries[from(k)]);
    }
  }

  lemma AdvanceKeepsOrders(l: Ledger, step: Step)
    requires Shape(l.queue) && DistinctOrders(l.queue.entries) && !step.RestoreFrom?
    ensures DistinctOrders(Advance(l, step).queue.entries)
  {
    if step.Allocate? {
      AllocateKeepsOrders(l.queue, step.request, step.readyTick, step.source, step.allocOnFill, step.qos);
    } else if step.Finish? {
      var from := CompletionSelects(l.queue, step.handle);
      SelectKeepsOrders(l.queue, Advance(l, step).queue, from);
    } else {
      UpdateSelects(l, step);
      SelectKeepsOrders(l.queue, Advance(l, step).queue, k => k);
    }
  }

  predicate OrdersApart(q: Queue) {
    DistinctOrders(q.entries)
  }

  lemma StepKeepsOrdersIff(l: Ledger, step: Step)
    requires Shape(l.queue) && OrdersApart(l.queue)
    ensures OrdersApart(Advance(l, step).queue) <==>
      (step.RestoreFrom? && Takes(l.queue.config, step.snapshot) ==> DistinctOrders(step.snapshot.entries))
  {
    if step.RestoreFrom? {
      RestoreAcceptsIff(l.queue, step.snapshot);
    } else {
      AdvanceKeepsOrders(l, step);
    }
  }

  /** At every point of a run no two requests waiting on different entries carry the same order, short
  of the counter's end, if and only if that holds of every snapshot the run takes over. */
  lemma {:induction false} RunKeepsOrdersIff(config: Config, steps: seq<Step>)
    requires ValidConfig(config) && AllOffered(steps)
    ensures Always(config, steps, OrdersApart) <==> TakesOver(config, steps, DistinctOrders)
  {
    if steps != [] {
      var n := |steps| - 1;
      RunKeepsOrdersIff(config, steps[..n]);
      TakesOverLast(config, steps, DistinctOrders);
      RunKeepsShape(config, steps[..n]);
      if OrdersApart(Run(config, steps[..n]).queue) {
        StepKeepsOrdersIff(Run(config, steps[..n]), steps[n]);
      }
    }
  }

  // ----- conservation

  /** An accepted request joins the live ones; a refused request changes nothing. */
  lemma AllocateConserves(q: Queue, r: Request, tick: nat, source: Source, alloc: bool, qos: Option<Qos>)
    requires ValidConfig(q.config)
    ensures
      var (q', result) := AllocateOrMerge(q, r, tick, source, alloc, qos);
      && (result.Err? ==> q' == q)
      && (result.Ok? ==> LiveAsked(q'.entries) == LiveAsked(q.entries) + multiset{Asked(r, tick, source, alloc, qos)})
  {
    var (q', result) := AllocateOrMerge(q, r, tick, source, alloc, qos);
    var i, a := MergeIndex(q.config, q.entries, r), Asked(r, tick, source, alloc, qos);
    if result.Ok? {
      if i < |q.entries| {
        assert AskedOf(q'.entries[i].targets) == AskedOf(q.entries[i].targets) + [a];
        TotalUpdate(q.entries, i, q'.entries[i], AskedIn, multiset{a});
      } else {
        var e := q'.entries[|q.entries|];
        assert AskedOf(e.targets) == [a];
        TotalAppend(q.entries, e, AskedIn);
      }
    }
  }

  /** What came in is waiting, or was handed over, or was dropped by a restore. */
  predicate Conserved(l: Ledger) {
    l.accepted + l.adopted == LiveAsked(l.queue.entries) + l.finished + l.dropped
  }

  /** Entries with the same targets hold the same requests. */
  lemma {:induction false} LiveSame(entries: seq<Entry>, entries': seq<Entry>)
    requires |entries'| == |entries| && forall k :: 0 <= k < |entries| ==> entries'[k].targets == entries[k].targets
    ensures LiveAsked(entries') == LiveAsked(entries)
  {
    if entries != [] {
      LiveSame(entries[1..], entries'[1..]);
    }
  }

  /** What comes in on one side of the ledger turns up on the other. */
  lemma StepConserves(l: Ledger, l': Ledger, came: multiset<Asked>)
    requires Conserved(l) && l'.accepted + l'.adopted == l.accepted + l.adopted + came
    requires LiveAsked(l'.queue.entries) + l'.finished + l'.dropped
          == LiveAsked(l.queue.entries) + l.finished + l.dropped + came
    ensures Conserved(l')
  {
  }

  lemma AllocateStepConserves(l: Ledger, step: Step)
    requires Conserved(l) && ValidConfig(l.queue.config) && step.Allocate?
    ensures Conserved(Advance(l, step))
  {
    var l', a := Advance(l, step), Asked(step.request, step.readyTick, step.source, step.allocOnFill, step.qos);
    AllocateConserves(l.queue, step.request, step.readyTick, step.source, step.allocOnFill, step.qos);
    if l'.queue == l.queue && l'.accepted == l.accepted {
      assert l' == l;
    } else {
      CameIn(LiveAsked(l.queue.entries), multiset{a}, l.finished, l.dropped);
      CameIn(l.accepted, multiset{a}, l.adopted, multiset{});
      StepConserves(l, l', multiset{a});
    }
  }

  lemma CameIn(some: multiset<Asked>, came: multiset<Asked>, x: multiset<Asked>, y: multiset<Asked>)
    ensures some + came + x + y == some + x + y + came
    ensures some + came + x == some + x + came
  {
  }

  lemma LiveLeaves(l: Ledger, l': Ledger, i: nat)
    requires Conserved(l) && i < |l.queue.entries|
    requires l'.accepted == l.accepted && l'.adopted == l.adopted && l'.dropped == l.dropped
    requires l'.queue.entries == l.queue.entries[..i] + l.queue.entries[i + 1..]
    requires l'.finished == l.finished + AskedIn(l.queue.entries[i])
    ensures Conserved(l')
  {
    TotalAt(l.queue.entries, i, AskedIn);
    Moved(LiveAsked(l'.queue.entries), AskedIn(l.queue.entries[i]), l.finished, l.dropped);
  }

  lemma Moved(live: multiset<Asked>, some: multiset<Asked>, finished: multiset<Asked>, dropped: multiset<Asked>)
    ensures live + (finished + some) + dropped == (live + some) + finished + dropped
  {
  }

  lemma FinishConserves(l: Ledger, handle: nat)
    requires Conserved(l) && ValidConfig(l.queue.config)
    ensures Conserved(Advance(l, Finish(handle)))
  {
    var i := Find(l.queue.entries, handle);
    if i < |l.queue.entries| {
      LiveLeaves(l, Advance(l, Finish(handle)), i);
    }
  }

  lemma RestoreConserves(l: Ledger, snapshot: Queue)
    requires Conserved(l) && ValidConfig(l.queue.config)
    ensures Conserved(Advance(l, RestoreFrom(snapshot)))
  {
    if Restore(l.queue, snapshot).1.None? {
      StepConserves(l, Advance(l, RestoreFrom(snapshot)), LiveAsked(snapshot.entries));
    }
  }

  lemma AdvanceConserves(l: Ledger, step: Step)
    requires Conserved(l) && ValidConfig(l.queue.config)
    ensures Conserved(Advance(l, step))
  {
    match step
    case Allocate(_, _, _, _, _) => AllocateStepConserves(l, step);
    case Finish(handle) => FinishConserves(l, handle);
    case RestoreFrom(snapshot) => RestoreConserves(l, snapshot);
    case _ =>
      UpdateSelects(l, step);
      LiveSame(l.queue.entries, Advance(l, step).queue.entries);
  }

  /** Over every run each request that came in, by acceptance or in a snapshot, is in exactly one
  place, just as it was asked: waiting, handed over, or dropped by a restore. Without restores that
  is accepted = waiting + handed over. */
  lemma {:induction false} RequestsConserved(config: Config, steps: seq<Step>)
    requires ValidConfig(config)
    ensures Conserved(Run(config, steps))
    ensures (forall i :: 0 <= i < |steps| ==> !steps[i].RestoreFrom?) ==>
      Run(config, steps).adopted == Run(config, steps).dropped == multiset{}
  {
    if steps != [] {
      var n := |steps| - 1;
      RequestsConserved(config, steps[..n]);
      AdvanceConserves(Run(config, steps[..n]), steps[n]);
    }
  }

  predicate InArrivalOrder(targets: seq<Target>) {
    forall i, j :: 0 <= i < j < |targets| ==> targets[i].order < targets[j].order
  }

  /** The operations that a completed line sends on: maintenance and writebacks. */
  predicate SentOn(op: Operation) {
    op in {WriteClean, WritebackClean, WritebackDirty, CleanShared, CleanEvict, Invalidate}
  }

  lemma {:induction false} PartsHold(targets: seq<Target>, t: Target)
    ensures t in LocalTargets(targets) <==> t in targets && !SentOn(t.request.operation)
    ensures t in ForwardedTargets(targets) <==> t in targets && SentOn(t.request.operation)
  {
    if targets != [] {
      PartsHold(targets[1..], t);
      assert targets == [targets[0]] + targets[1..];
    }
  }

  lemma RestInOrder(targets: seq<Target>)
    requires targets != [] && InArrivalOrder(targets)
    ensures InArrivalOrder(targets[1..])
    ensures forall t :: t in targets[1..] ==> targets[0].order < t.order
  {
  }

  predicate AllAfter(first: Target, rest: seq<Target>) {
    forall k :: 0 <= k < |rest| ==> first.order < rest[k].order
  }

  lemma PartsAfter(first: Target, rest: seq<Target>)
    requires forall t :: t in rest ==> first.order < t.order
    ensures AllAfter(first, LocalTargets(rest)) && AllAfter(first, ForwardedTargets(rest))
  {
    var local, sent := LocalTargets(rest), ForwardedTargets(rest);
    forall k | 0 <= k < |local|
      ensures local[k] in rest
    {
      PartsHold(rest, local[k]);
    }
    forall k | 0 <= k < |sent|
      ensures sent[k] in rest
    {
      PartsHold(rest, sent[k]);
    }
  }

  lemma {:induction false} PartsKeepOrder(targets: seq<Target>)
    requires InArrivalOrder(targets)
    ensures InArrivalOrder(LocalTargets(targets)) && InArrivalOrder(ForwardedTargets(targets))
  {
    if targets != [] {
      var first, local, sent := targets[0], LocalTargets(targets[1..]), ForwardedTargets(targets[1..]);
      assert InArrivalOrder(local) && InArrivalOrder(sent) && AllAfter(first, local) && AllAfter(first, sent) by {
        RestInOrder(targets);
        PartsKeepOrder(targets[1..]);
        PartsAfter(first, targets[1..]);
      }
      FirstInOrder(first, local);
      FirstInOrder(first, sent);
    }
  }

  lemma FirstInOrder(first: Target, rest: seq<Target>)
    requires InArrivalOrder(rest) && AllAfter(first, rest)
    ensures InArrivalOrder([first] + rest) && [] + rest == rest
  {
    FirstThenRest(first, rest, [first] + rest);
  }

  lemma FirstThenRest(first: Target, rest: seq<Target>, all: seq<Target>)
    requires InArrivalOrder(rest) && AllAfter(first, rest)
    requires |all| == |rest| + 1 && all[0] == first && forall k :: 1 <= k < |all| ==> all[k] == rest[k - 1]
    ensures InArrivalOrder(all)
  {
  }

  lemma {:induction false} PartsMakeAll(targets: seq<Target>)
    ensures multiset(LocalTargets(targets)) + multiset(ForwardedTargets(targets)) == multiset(targets)
  {
    if targets != [] {
      PartsMakeAll(targets[1..]);
      assert targets == [targets[0]] + targets[1..];
    }
  }

  /** A completion's targets split into those that are sent on and all others, without loss and each
  part in arrival order. */
  lemma CompletionSplits(targets: seq<Target>)
    ensures multiset(LocalTargets(targets)) + multiset(ForwardedTargets(targets)) == multiset(targets)
    ensures forall t :: t in LocalTargets(targets) ==> !SentOn(t.request.operation)
    ensures forall t :: t in ForwardedTargets(targets) ==> SentOn(t.request.operation)
    ensures InArrivalOrder(targets) ==>
      InArrivalOrder(LocalTargets(targets)) && InArrivalOrder(ForwardedTargets(targets))
  {
    PartsMakeAll(targets);
    forall t
      ensures t in LocalTargets(targets) ==> !SentOn(t.request.operation)
      ensures t in ForwardedTargets(targets) ==> SentOn(t.request.operation)
    {
      PartsHold(targets, t);
    }
    if InArrivalOrder(targets) {
      PartsKeepOrder(targets);
    }
  }

  // ----- slots kept for demand

  predicate ByPrefetch(e: Entry) {
    e.targets != [] && e.targets[0].source.Prefetch?
  }

  /** How many of the entries a prefetch opened. */
  function Prefetches(entries: seq<Entry>): (n: nat)
    ensures n <= |entries|
  {
    if entries == [] then 0
    else Prefetches(entries[..|entries| - 1]) + if ByPrefetch(entries[|entries| - 1]) then 1 else 0
  }

  /** Entries that prefetches opened leave the reserved slots, and one more, to others. */
  predicate ReserveKept(q: Queue) {
    Prefetches(q.entries) == 0 || Prefetches(q.entries) + q.config.demandReserve < q.config.entries
  }

  lemma {:induction false} PrefetchesSame(entries: seq<Entry>, entries': seq<Entry>)
    requires |entries'| == |entries|
    requires forall i :: 0 <= i < |entries| ==> ByPrefetch(entries'[i]) == ByPrefetch(entries[i])
    ensures Prefetches(entries') == Prefetches(entries)
  {
    if entries != [] {
      PrefetchesSame(entries[..|entries| - 1], entries'[..|entries| - 1]);
    }
  }

  lemma {:induction false} PrefetchesWithout(entries: seq<Entry>, i: nat, rest: seq<Entry>)
    requires i < |entries| && rest == entries[..i] + entries[i + 1..]
    ensures Prefetches(rest) <= Prefetches(entries)
  {
    var n := |entries| - 1;
    if i == n {
      assert rest == entries[..n];
    } else {
      var front := entries[..n];
      assert rest[..n - 1] == front[..i] + front[i + 1..] && rest[n - 1] == entries[n];
      PrefetchesWithout(front, i, rest[..n - 1]);
    }
  }

  lemma FinishKeepsReserve(q: Queue, handle: nat)
    requires ReserveKept(q)
    ensures ReserveKept(CompleteEntry(q, handle).0)
  {
    var i := Find(q.entries, handle);
    if i < |q.entries| {
      PrefetchesWithout(q.entries, i, CompleteEntry(q, handle).0.entries);
    }
  }

  lemma UpdateKeepsReserve(l: Ledger, step: Step)
    requires ValidConfig(l.queue.config) && ReserveKept(l.queue) && (step.Serve? || step.Requeue? || step.Delay?)
    ensures ReserveKept(Advance(l, step).queue)
  {
    UpdateSelects(l, step);
    PrefetchesSame(l.queue.entries, Advance(l, step).queue.entries);
  }

  lemma AllocateKeepsReserve(q: Queue, r: Request, tick: nat, source: Source, alloc: bool, qos: Option<Qos>)
    requires Shape(q) && ReserveKept(q)
    ensures ReserveKept(AllocateOrMerge(q, r, tick, source, alloc, qos).0)
  {
    var q', i := AllocateOrMerge(q, r, tick, source, alloc, qos).0, MergeIndex(q.config, q.entries, r);
    if q' != q && i < |q.entries| {
      assert EntryOk(q, q.entries[i]);
      PrefetchesSame(q.entries, q'.entries);
    } else if q' != q {
      assert q'.entries[..|q.entries|] == q.entries;
    }
  }

  ghost predicate TakesKept(config: Config, step: Step)
    requires ValidConfig(config)
  {
    step.RestoreFrom? && Takes(config, step.snapshot) ==> ReserveKept(step.snapshot)
  }

  ghost predicate AllTakesKept(config: Config, steps: seq<Step>)
    requires ValidConfig(config)
  {
    forall i :: 0 <= i < |steps| ==> TakesKept(config, steps[i])
  }

  lemma StepKeepsReserveIff(l: Ledger, step: Step)
    requires Shape(l.queue) && ReserveKept(l.queue)
    ensures ReserveKept(Advance(l, step).queue) <==> TakesKept(l.queue.config, step)
  {
    match step
    case Allocate(r, tick, source, alloc, qos) => AllocateKeepsReserve(l.queue, r, tick, source, alloc, qos);
    case Finish(handle) => FinishKeepsReserve(l.queue, handle);
    case RestoreFrom(snapshot) => RestoreAcceptsIff(l.queue, snapshot);
    case _ => UpdateKeepsReserve(l, step);
  }

  lemma AllTakesKeptLast(config: Config, steps: seq<Step>)
    requires ValidConfig(config) && steps != []
    ensures
      var n := |steps| - 1;
      AllTakesKept(config, steps) <==> AllTakesKept(config, steps[..n]) && TakesKept(config, steps[n])
  {
  }

  /** The entries prefetches opened leave the demand reserve free at every point of a run if and only
  if they do in every snapshot it takes over. */
  lemma {:induction false} RunKeepsReserveIff(config: Config, steps: seq<Step>)
    requires ValidConfig(config) && AllOffered(steps)
    ensures Always(config, steps, ReserveKept) <==> AllTakesKept(config, steps)
  {
    if steps != [] {
      var n := |steps| - 1;
      RunKeepsReserveIff(config, steps[..n]);
      AllTakesKeptLast(config, steps);
      RunKeepsShape(config, steps[..n]);
      if ReserveKept(Run(config, steps[..n]).queue) {
        StepKeepsReserveIff(Run(config, steps[..n]), steps[n]);
      }
    }
  }

  /** A request that can join no entry is refused exactly when the slots are taken, or it is a prefetch
  and taking one more would leave no more than the reserve. */
  lemma RefusedIff(q: Queue, r: Request, tick: nat, source: Source, alloc: bool, qos: Option<Qos>)
    requires ValidConfig(q.config) && forall k :: 0 <= k < |q.entries| ==> !CanMerge(q.config, q.entries[k], r)
    ensures
      var result := AllocateOrMerge(q, r, tick, source, alloc, qos).1;
      && (result == Err(PrefetchReserveBlocked) <==>
            source == Prefetch && |q.entries| + 1 + q.config.demandReserve >= q.config.entries)
      && (result == Err(EntrySlotsFull) <==> source != Prefetch && |q.entries| >= q.config.entries)
      && (result.Err? ==> result.error == PrefetchReserveBlocked || result.error == EntrySlotsFull)
  {
    assert MergeIndex(q.config, q.entries, r) == |q.entries|;
  }

  // ----- which snapshots restore accepts

  ghost predicate WellShaped(s: Queue)
    requires ValidConfig(s.config)
  {
    && |s.entries| <= s.config.entries
    && (forall i, j :: 0 <= i < j < |s.entries| ==> s.entries[i].handle != s.entries[j].handle)
    && (forall i :: 0 <= i < |s.entries| ==> EntryShaped(s, s.entries[i]))
  }

  ghost predicate EntryShaped(s: Queue, e: Entry)
    requires ValidConfig(s.config)
  {
    && 0 < |e.targets| <= s.config.targetsPerEntry
    && e.handle < s.nextHandle && e.order < s.nextOrder
    && forall t :: t in e.targets ==> t.request.LineAddress(s.config.lineBytes) == e.line && t.order < s.nextOrder
  }

  lemma {:induction false} TargetsChecked(e: Entry, c: Config, nextOrder: nat, targets: seq<Target>)
    requires ValidConfig(c)
    ensures CheckTargets(e, c, nextOrder, targets).None? <==>
      forall t :: t in targets ==> t.request.LineAddress(c.lineBytes) == e.line && t.order < nextOrder
  {
    if targets != [] {
      TargetsChecked(e, c, nextOrder, targets[1..]);
      assert targets[0] in targets;
      assert forall t :: t in targets <==> t == targets[0] || t in targets[1..];
    }
  }

  lemma {:induction false} EntriesChecked(s: Queue, i: nat, seen: set<nat>)
    requires ValidConfig(s.config) && i <= |s.entries|
    ensures CheckEntries(s, i, seen).None? <==>
      && (forall k :: i <= k < |s.entries| ==> EntryShaped(s, s.entries[k]) && s.entries[k].handle !in seen)
      && (forall j, k :: i <= j < k < |s.entries| ==> s.entries[j].handle != s.entries[k].handle)
    decreases |s.entries| - i
  {
    if i < |s.entries| {
      var e := s.entries[i];
      TargetsChecked(e, s.config, s.nextOrder, e.targets);
      EntriesChecked(s, i + 1, seen + {e.handle});
    }
  }

  /** `restore` accepts exactly the well-shaped snapshots of its own configuration. */
  lemma RestoreAcceptsIff(q: Queue, snapshot: Queue)
    requires ValidConfig(q.config)
    ensures Restore(q, snapshot).1.None? <==> q.config == snapshot.config && WellShaped(snapshot)
    ensures Restore(q, snapshot).1.None? ==> Restore(q, snapshot).0 == snapshot
    ensures Restore(q, snapshot).1.Some? ==> Restore(q, snapshot).0 == q
  {
    if q.config == snapshot.config {
      EntriesChecked(snapshot, 0, {});
    }
  }

  predicate HoldsLast(e: Entry) {
    e.handle == U64_MAX || e.order == U64_MAX || exists t :: t in e.targets && t.order == U64_MAX
  }

  /** A live handle or order has the value the counters saturate at. */
  predicate CounterSaturated(q: Queue) {
    exists i :: 0 <= i < |q.entries| && HoldsLast(q.entries[i])
  }

  /** Every run's snapshot is accepted back, and restoring it changes nothing, exactly as long as
  no live entry holds a saturated counter value. */
  lemma OwnSnapshotAccepted(config: Config, steps: seq<Step>)
    requires ValidConfig(config) && AllOffered(steps)
    ensures
      var q := Run(config, steps).queue;
      && Restore(q, q).0 == q
      && (Restore(q, q).1.None? <==> !CounterSaturated(q))
  {
    var q := Run(config, steps).queue;
    RunKeepsShape(config, steps);
    RestoreAcceptsIff(q, q);
    forall i | 0 <= i < |q.entries|
      ensures EntryShaped(q, q.entries[i]) <==> !HoldsLast(q.entries[i])
    {
      assert EntryOk(q, q.entries[i]);
    }
    if !CounterSaturated(q) {
      assert forall i, j :: 0 <= i < j < |q.entries| ==> !HoldsLast(q.entries[i]) && !HoldsLast(q.entries[j]);
    }
  }

  // ----- the queue as the program updates it

  class MshrQueue {
    const config: Config
    var entries: seq<Entry>
    var nextHandle: nat
    var nextOrder: nat

    ghost predicate Wf() {
      ValidConfig(config)
    }

    function State(): (q: Queue)
      reads this
    {
      Queue(config, entries, nextHandle, nextOrder)
    }

    constructor (config: Config)
      requires ValidConfig(config)
      ensures Wf() && State() == New(config)
    {
      this.config := config;
      entries, nextHandle, nextOrder := [], 0, 0;
    }

    /** Index of the entry with this handle, or the number of entries. */
    method IndexOf(handle: nat) returns (i: nat)
      ensures i == Find(entries, handle)
    {
      i := 0;
      while i < |entries| && entries[i].handle != handle
        invariant i <= |entries|
        invariant Find(entries, handle) == i + Find(entries[i..], handle)
      {
        i := i + 1;
      }
    }

    method AllocateOrMergeRequest(r: Request, readyTick: nat, source: Source, allocOnFill: bool, qos: Option<Qos>)
      returns (result: Result<nat, QueueError>)
      requires Wf()
      modifies this
      ensures (State(), result) == AllocateOrMerge(old(State()), r, readyTick, source, allocOnFill, qos)
    {
      var i := 0;
      while i < |entries| && !CanMerge(config, entries[i], r)
        invariant i <= |entries| && State() == old(State())
        invariant MergeIndex(config, entries, r) == i + MergeIndex(config, entries[i..], r)
      {
        i := i + 1;
      }
      var target := Target(r, readyTick, nextOrder, source, allocOnFill, qos);
      if i < |entries| {
        if |entries[i].targets| >= config.targetsPerEntry {
          return Err(TargetSlotsFull);
        }
        nextOrder := SaturatingNext(nextOrder);
        var e := entries[i];
        entries := entries[i := e.(targets := e.targets + [target])];
        return Ok(e.handle);
      }
      var error := CanAllocate(State(), source);
      if error.Some? {
        return Err(error.value);
      }
      var e := Entry(nextHandle, r.LineAddress(config.lineBytes), readyTick, nextOrder, false, false, [target]);
      nextHandle := SaturatingNext(nextHandle);
      nextOrder := SaturatingNext(nextOrder);
      entries := entries + [e];
      return Ok(e.handle);
    }

    method SetInService(handle: nat, pendingModified: bool) returns (error: Option<QueueError>)
      modifies this
      ensures (State(), error) == MarkInService(old(State()), handle, pendingModified)
    {
      var i := IndexOf(handle);
      if i == |entries| {
        return Some(UnknownEntry);
      }
      if entries[i].inService {
        return Some(EntryAlreadyInService);
      }
      entries := entries[i := entries[i].(inService := true, pendingModified := pendingModified)];
      return None;
    }

    method SetPending(handle: nat) returns (error: Option<QueueError>)
      modifies this
      ensures (State(), error) == MarkPending(old(State()), handle)
    {
      var i := IndexOf(handle);
      if i == |entries| {
        return Some(UnknownEntry);
      }
      if !entries[i].inService {
        return Some(EntryNotInService);
      }
      entries := entries[i := entries[i].(inService := false, pendingModified := false)];
      return None;
    }

    method Complete(handle: nat) returns (done: Option<Entry>)
      modifies this
      ensures (State(), done) == CompleteEntry(old(State()), handle)
    {
      var i := IndexOf(handle);
      if i == |entries| {
        return None;
      }
      done := Some(entries[i]);
      entries := entries[..i] + entries[i + 1..];
    }

    /** `restore`: check the snapshot entry by entry, then take it over. */
    method RestoreSnapshot(snapshot: Queue) returns (error: Option<QueueError>)
      requires Wf()
      modifies this
      ensures (State(), error) == Restore(old(State()), snapshot)
    {
      if config != snapshot.config {
        return Some(SnapshotConfigMismatch);
      }
      if |snapshot.entries| > config.entries {
        return Some(SnapshotTooManyEntries);
      }
      var handles: set<nat> := {};
      for i := 0 to |snapshot.entries|
        invariant State() == old(State())
        invariant CheckEntries(snapshot, 0, {}) == CheckEntries(snapshot, i, handles)
      {
        error := CheckEntry(snapshot, snapshot.entries[i], handles);
        if error.Some? {
          return;
        }
        handles := handles + {snapshot.entries[i].handle};
      }
      entries, nextHandle, nextOrder := snapshot.entries, snapshot.nextHandle, snapshot.nextOrder;
      return None;
    }
  }
}
