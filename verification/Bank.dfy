/** The MSI cache bank with a miss queue: many lines, one outstanding miss per line, and reads that
coalesce onto a miss in flight. Modelled for cacheable single-line reads, read prefetches and writes,
strictly ordered or not. */
module Bank {
  import opened Common
  import opened Memory
  import Msi
  import Mshr
  import Totals

  datatype PendingFill = PendingFill(line: nat, handle: nat)

  /** Pending fills are keyed by the sequence number of the bank's own downstream request. */
  datatype Bank = Bank(
    agent: nat,
    lineBytes: nat,
    nextSequence: nat,
    lines: map<nat, Msi.Controller>,
    pendingFills: map<nat, PendingFill>,
    queue: Mshr.Queue)

  function New(agent: nat, config: Mshr.Config): (b: Bank) {
    Bank(agent, config.lineBytes, 0, map[], map[], Mshr.New(config))
  }

  datatype BankError =
    | WrongAgent
    | Controller(error: Msi.ControllerError)
    | QueueFailure(reason: Mshr.QueueError)
    | UnknownPendingFill

  datatype Outcome =
    | Answered(response: Response)
    | Waiting(downstream: Option<Request>)

  /** What a waiting request gets when its miss is resolved; a prefetch may ask for nothing. */
  datatype TargetOutcome = Respond(response: Response) | NoResponse

  predicate PlainOperation(op: Operation) {
    || op.InstructionFetch? || op.ReadShared? || op.ReadUnique? || op.LoadLocked? || op.LockedRmwRead?
    || op.PrefetchRead? || op.Write?
  }

  /** The requests in scope, strictly ordered ones included. */
  predicate Plain(r: Request, lineBytes: nat) {
    r.WellFormed() && r.InLine(lineBytes) && !r.uncacheable && PlainOperation(r.operation)
  }

  /** Reads that join a miss in flight; everything else counts as a write when an entry is reserved. */
  predicate Coalescible(r: Request) {
    r.operation.InstructionFetch? || r.operation.ReadShared? || r.operation.PrefetchRead?
  }

  /** Requests that a shared line serves. */
  predicate Reads(r: Request) {
    Msi.CpuEvent(r.operation).CpuRead?
  }

  /** Index of the first entry for the line, or the number of entries. */
  function FindLine(entries: seq<Mshr.Entry>, line: nat): (i: nat)
    ensures i <= |entries|
    ensures i < |entries| ==> entries[i].line == line
    ensures forall k :: 0 <= k < i ==> entries[k].line != line
  {
    if entries == [] then 0
    else if entries[0].line == line then 0
    else 1 + FindLine(entries[1..], line)
  }

  predicate HasEntry(b: Bank, line: nat) {
    FindLine(b.queue.entries, line) < |b.queue.entries|
  }

  /** The request will need a queue entry of its own. */
  predicate NeedsEntry(b: Bank, line: nat, r: Request) {
    && !HasEntry(b, line)
    && (line !in b.lines || b.lines[line].state.Invalid? || (b.lines[line].state.Shared? && !Coalescible(r)))
  }

  predicate Valid(b: Bank) {
    && b.lineBytes > 0
    && Mshr.ValidConfig(b.queue.config) && b.queue.config.lineBytes == b.lineBytes
    && forall line :: line in b.lines ==> Msi.Valid(b.lines[line]) && b.lines[line].lineBytes == b.lineBytes
  }

  function ControllerFor(b: Bank, line: nat): (c: Msi.Controller)
    requires Valid(b)
    ensures Msi.Valid(c) && c.lineBytes == b.lineBytes
  {
    (if line in b.lines then b.lines[line] else Msi.New(b.agent, b.lineBytes, line)).(nextSequence := b.nextSequence)
  }

  /** What the bank does with the verdict of the line's controller. */
  function Conclude(
    b: Bank, r: Request, qos: Option<Mshr.Qos>, c: Msi.Controller, verdict: Result<Msi.Outcome, Msi.ControllerError>)
    : (out: (Bank, Result<Outcome, BankError>))
    requires Valid(b) && Plain(r, b.lineBytes) && Msi.Valid(c) && c.lineBytes == b.lineBytes
    ensures Valid(out.0)
  {
    var line := r.LineAddress(b.lineBytes);
    match verdict
    case Err(e) => (b.(lines := b.lines[line := c]), Err(Controller(e)))
    case Ok(outcome) =>
      var b' := b.(lines := b.lines[line := c], nextSequence := c.nextSequence);
      if !outcome.Miss? then (b', Ok(Answered(outcome.response)))
      else
        match Mshr.AllocateOrMerge(b.queue, r, 0, Mshr.Demand, true, qos)
        case (q, Err(e)) => (b'.(queue := q), Err(QueueFailure(e)))
        case (q, Ok(handle)) =>
          (b'.(queue := q, pendingFills := b.pendingFills[outcome.downstream.sequence := PendingFill(line, handle)]),
           Ok(Waiting(Some(outcome.downstream))))
  }

  /** `accept_cpu_request`. */
  function AcceptRequest(b: Bank, r: Request, qos: Option<Mshr.Qos>): (out: (Bank, Result<Outcome, BankError>))
    requires Valid(b) && Plain(r, b.lineBytes)
    ensures Valid(out.0)
  {
    var line := r.LineAddress(b.lineBytes);
    if r.agent != b.agent then (b, Err(WrongAgent))
    else if Coalescible(r) && HasEntry(b, line) then
      match Mshr.AllocateOrMerge(b.queue, r, 0, Mshr.Demand, true, qos)
      case (q, Err(e)) => (b.(queue := q), Err(QueueFailure(e)))
      case (q, Ok(_)) => (b.(queue := q), Ok(Waiting(None)))
    else if NeedsEntry(b, line, r) && Mshr.CanAllocate(b.queue, Mshr.Demand).Some? then
      (b, Err(QueueFailure(Mshr.CanAllocate(b.queue, Mshr.Demand).value)))
    else
      var (c, verdict) := Msi.AcceptCpuRequest(ControllerFor(b, line), r);
      Conclude(b, r, qos, c, verdict)
  }

  /** The answer to one waiting target out of the line's data after the fill. */
  function TargetReply(r: Request, data: Option<seq<Byte>>, lineBytes: nat)
    : (reply: Result<TargetOutcome, Msi.ControllerError>)
    requires lineBytes > 0 && (data.Some? ==> |data.value| == lineBytes) && r.InLine(lineBytes)
  {
    if !r.responseRequired then Ok(NoResponse)
    else if r.operation.ReturnsData() && data.None? then Err(Msi.LineDataUnavailable)
    else
      var bytes := if r.operation.ReturnsData() then Some(Slice(data.value, r.address % lineBytes, r.size)) else None;
      match Complete(r, bytes)
      case Err(e) => Err(Msi.MemoryFailure(e))
      case Ok(response) => Ok(Respond(response))
  }

  predicate PlainTargets(lineBytes: nat, targets: seq<Mshr.Target>) {
    forall i :: 0 <= i < |targets| ==> Plain(targets[i].request, lineBytes)
  }

  /** Answers for the targets of a completion, in the order they arrived; the first failure wins. */
  function TargetReplies(targets: seq<Mshr.Target>, data: Option<seq<Byte>>, lineBytes: nat)
    : (replies: Result<seq<TargetOutcome>, BankError>)
    requires lineBytes > 0 && (data.Some? ==> |data.value| == lineBytes)
    requires PlainTargets(lineBytes, targets)
  {
    if targets == [] then Ok([])
    else
      match TargetReply(targets[0].request, data, lineBytes)
      case Err(e) => Err(Controller(e))
      case Ok(reply) =>
        match TargetReplies(targets[1..], data, lineBytes)
        case Err(e) => Err(e)
        case Ok(rest) => Ok([reply] + rest)
  }

  /** The line after the request, as flat memory would have it. */
  function Applied(content: seq<Byte>, r: Request, lineBytes: nat): (content': seq<Byte>)
    requires Plain(r, lineBytes) && |content| == lineBytes
    ensures |content'| == lineBytes
  {
    if r.operation.Write? then Stored(content, r.address % lineBytes, r.data.value, r.mask) else content
  }

  /** What flat memory gives a request once the line holds `content`. */
  function Expected(content: seq<Byte>, r: Request, lineBytes: nat): (reply: TargetOutcome)
    requires Plain(r, lineBytes) && |content| == lineBytes
  {
    if !r.responseRequired then NoResponse
    else
      Respond(Response(r.agent, r.sequence, Completed,
        if r.operation.ReturnsData() then Some(Slice(content, r.address % lineBytes, r.size)) else None))
  }

  /** Every request waiting in the bank is in scope. */
  predicate AllPlain(b: Bank) {
    forall i :: 0 <= i < |b.queue.entries| ==> PlainTargets(b.lineBytes, b.queue.entries[i].targets)
  }

  /** Every pending fill is for a line the bank has. */
  predicate FillsHaveLines(b: Bank) {
    forall s :: s in b.pendingFills ==> b.pendingFills[s].line in b.lines
  }

  /** The response answers one of the bank's pending fills. */
  predicate Matches(b: Bank, response: Response) {
    response.agent == b.agent && response.sequence in b.pendingFills
  }

  /** `accept_fill`. */
  function AcceptFill(b: Bank, response: Response): (out: (Bank, Result<seq<TargetOutcome>, BankError>))
    requires Valid(b) && AllPlain(b) && FillsHaveLines(b)
    ensures Valid(out.0)
  {
    if !Matches(b, response) then (b, Err(UnknownPendingFill))
    else
      var f := b.pendingFills[response.sequence];
      if Mshr.Find(b.queue.entries, f.handle) == |b.queue.entries| then (b, Err(QueueFailure(Mshr.UnknownEntry)))
      else
        match Msi.AcceptFill(b.lines[f.line], response)
        case (c, Err(e)) => (b.(lines := b.lines[f.line := c]), Err(Controller(e)))
        case (c, Ok(_)) =>
          var (q, done) := Mshr.CompleteEntry(b.queue, f.handle);
          (b.(lines := b.lines[f.line := c], pendingFills := b.pendingFills - {response.sequence}, queue := q),
           TargetReplies(done.value.targets, c.data, b.lineBytes))
  }

  // ----- misses, fills and transient lines stay in step

  predicate LineOk(b: Bank, line: nat)
    requires line in b.lines
  {
    var c := b.lines[line];
    && Msi.Valid(c) && c.agent == b.agent && c.lineBytes == b.lineBytes && c.line == line
    && line % b.lineBytes == 0
    && match c.state
       case Invalid => false
       case Shared | Modified => c.data.Some? && c.pending.None?
       case InvalidToShared => c.data.None? && PendingOk(b, c, Msi.DataShared) && Reads(c.pending.value.original)
       case InvalidToModified => c.data.None? && PendingOk(b, c, Msi.DataModified) && !Reads(c.pending.value.original)
       case SharedToModified => c.data.Some? && PendingOk(b, c, Msi.DataModified) && !Reads(c.pending.value.original)
  }

  predicate PendingOk(b: Bank, c: Msi.Controller, fillEvent: Msi.Event) {
    && c.pending.Some? && c.pending.value.fillEvent == fillEvent
    && Plain(c.pending.value.original, b.lineBytes)
    && c.pending.value.original.agent == b.agent
    && c.pending.value.original.LineAddress(b.lineBytes) == c.line
  }

  predicate InFlight(b: Bank, line: nat) {
    line in b.lines && b.lines[line].pending.Some?
  }

  predicate EntryLinked(b: Bank, e: Mshr.Entry) {
    && InFlight(b, e.line)
    && var p := b.lines[e.line].pending.value;
    && p.downstream in b.pendingFills
    && b.pendingFills[p.downstream] == PendingFill(e.line, e.handle)
    && e.targets != [] && e.targets[0].request == p.original
  }

  /** Waiting requests are in scope and, after the one that missed, reads that may coalesce. A
  strictly ordered request waits alone. */
  predicate TargetsOk(lineBytes: nat, e: Mshr.Entry)
    requires lineBytes > 0
  {
    && (|e.targets| > 1 ==> Mshr.Shareable(e))
    && forall i :: 0 <= i < |e.targets| ==>
         && Plain(e.targets[i].request, lineBytes)
         && e.targets[i].request.LineAddress(lineBytes) == e.line
         && (i > 0 ==> Coalescible(e.targets[i].request))
  }

  predicate FillLinked(b: Bank, s: nat)
    requires s in b.pendingFills
  {
    var f := b.pendingFills[s];
    && s < b.nextSequence
    && InFlight(b, f.line)
    && b.lines[f.line].pending.value.downstream == s
    && HasEntry(b, f.line)
    && b.queue.entries[FindLine(b.queue.entries, f.line)].handle == f.handle
  }

  predicate LineLinked(b: Bank, line: nat)
    requires line in b.lines
  {
    b.lines[line].pending.Some? ==>
      var s := b.lines[line].pending.value.downstream;
      s in b.pendingFills && b.pendingFills[s].line == line
  }

  predicate DistinctLines(entries: seq<Mshr.Entry>) {
    forall i, j :: 0 <= i < j < |entries| ==> entries[i].line != entries[j].line
  }

  /** Queue entries, pending fills and transient lines are in one-to-one correspondence, and agree
  on handle, line and downstream request. */
  predicate Correspondence(b: Bank) {
    && (forall i :: 0 <= i < |b.queue.entries| ==> EntryLinked(b, b.queue.entries[i]))
    && (forall s :: s in b.pendingFills ==> FillLinked(b, s))
    && (forall line :: line in b.lines ==> LineLinked(b, line))
    && DistinctLines(b.queue.entries)
  }

  predicate LinesOk(b: Bank) {
    forall line :: line in b.lines ==> LineOk(b, line)
  }

  predicate QueueOk(b: Bank) {
    && Mshr.Inv(b.queue)
    && b.queue.config.lineBytes == b.lineBytes
    && forall i :: 0 <= i < |b.queue.entries| ==> TargetsOk(b.lineBytes, b.queue.entries[i])
  }

  predicate Inv(b: Bank) {
    b.lineBytes > 0 && LinesOk(b) && QueueOk(b) && Correspondence(b)
  }

  lemma InvIsValid(b: Bank)
    requires Inv(b)
    ensures Valid(b) && AllPlain(b) && FillsHaveLines(b)
  {
    forall line | line in b.lines
      ensures Msi.Valid(b.lines[line]) && b.lines[line].lineBytes == b.lineBytes
    {
      assert LineOk(b, line);
    }
    forall s | s in b.pendingFills
      ensures b.pendingFills[s].line in b.lines
    {
      assert FillLinked(b, s);
    }
    forall i | 0 <= i < |b.queue.entries|
      ensures PlainTargets(b.lineBytes, b.queue.entries[i].targets)
    {
      assert TargetsOk(b.lineBytes, b.queue.entries[i]);
    }
  }

  lemma NewInv(agent: nat, config: Mshr.Config)
    requires Mshr.ValidConfig(config)
    ensures Inv(New(agent, config))
  {
  }

  lemma FindLineIs(entries: seq<Mshr.Entry>, i: nat)
    requires i < |entries| && DistinctLines(entries)
    ensures FindLine(entries, entries[i].line) == i
  {
  }

  /** The request may join the entry of its line. */
  predicate Joins(b: Bank, r: Request)
    requires b.lineBytes > 0 && Mshr.ValidConfig(b.queue.config)
  {
    var i := FindLine(b.queue.entries, r.LineAddress(b.lineBytes));
    i < |b.queue.entries| && Mshr.CanMerge(b.queue.config, b.queue.entries[i], r)
  }

  /** With one entry a line, a request may join the entry of its line or none. */
  lemma MergeIndexIsLine(b: Bank, r: Request)
    requires b.lineBytes > 0 && QueueOk(b)
    requires DistinctLines(b.queue.entries) || !HasEntry(b, r.LineAddress(b.lineBytes))
    ensures Mshr.MergeIndex(b.queue.config, b.queue.entries, r)
         == if Joins(b, r) then FindLine(b.queue.entries, r.LineAddress(b.lineBytes)) else |b.queue.entries|
  {
    var c, entries, i := b.queue.config, b.queue.entries, FindLine(b.queue.entries, r.LineAddress(b.lineBytes));
    forall k | 0 <= k < |entries| && k != i
      ensures !Mshr.CanMerge(c, entries[k], r)
    {
    }
  }

  // Each step changes one line, one entry and one pending fill at most; what it leaves alone
  // stays linked.

  lemma LineOkFrame(b: Bank, b': Bank, line: nat)
    requires line in b.lines && line in b'.lines && b'.lines[line] == b.lines[line]
    requires b'.agent == b.agent && b'.lineBytes == b.lineBytes && LineOk(b, line)
    ensures LineOk(b', line)
  {
  }

  lemma LinesOkUpdate(b: Bank, b': Bank, line: nat)
    requires LinesOk(b) && b'.agent == b.agent && b'.lineBytes == b.lineBytes
    requires line in b'.lines && LineOk(b', line)
    requires forall k :: k in b'.lines && k != line ==> k in b.lines && b'.lines[k] == b.lines[k]
    ensures LinesOk(b')
  {
    forall k | k in b'.lines
      ensures LineOk(b', k)
    {
      if k != line {
        LineOkFrame(b, b', k);
      }
    }
  }

  lemma FindLineSame(entries: seq<Mshr.Entry>, entries': seq<Mshr.Entry>, line: nat)
    requires |entries| == |entries'| && forall i :: 0 <= i < |entries| ==> entries[i].line == entries'[i].line
    ensures FindLine(entries, line) == FindLine(entries', line)
  {
  }

  /** Same misses, same fills, same entries up to coalesced targets: still in step. */
  lemma CorrespondenceFrame(b: Bank, b': Bank)
    requires Correspondence(b)
    requires b'.pendingFills == b.pendingFills && b'.nextSequence >= b.nextSequence
    requires forall k :: k in b'.lines ==>
      if k in b.lines then b'.lines[k].pending == b.lines[k].pending else b'.lines[k].pending.None?
    requires forall k :: k in b.lines ==> k in b'.lines
    requires |b'.queue.entries| == |b.queue.entries|
    requires forall i :: 0 <= i < |b.queue.entries| ==>
      var e, e' := b.queue.entries[i], b'.queue.entries[i];
      e'.line == e.line && e'.handle == e.handle && e'.targets != []
        && (e.targets != [] ==> e'.targets[0] == e.targets[0])
    ensures Correspondence(b')
  {
    forall i | 0 <= i < |b'.queue.entries|
      ensures EntryLinked(b', b'.queue.entries[i])
    {
      assert EntryLinked(b, b.queue.entries[i]);
    }
    forall s | s in b'.pendingFills
      ensures FillLinked(b', s)
    {
      assert FillLinked(b, s);
      FindLineSame(b.queue.entries, b'.queue.entries, b.pendingFills[s].line);
    }
    forall k | k in b'.lines
      ensures LineLinked(b', k)
    {
      if k in b.lines {
        assert LineLinked(b, k);
      }
    }
  }

  lemma QueueOkFrame(b: Bank, b': Bank)
    requires b.lineBytes > 0 && QueueOk(b) && b'.queue == b.queue && b'.lineBytes == b.lineBytes
    ensures QueueOk(b')
  {
  }

  /** Serving a line, or refusing a busy one, leaves the correspondence alone. */
  lemma LineUpdateKeepsInv(b: Bank, line: nat, c: Msi.Controller)
    requires Inv(b) && line in b.lines && c.pending == b.lines[line].pending
    requires LineOk(b.(lines := b.lines[line := c]), line)
    ensures Inv(b.(lines := b.lines[line := c]))
  {
    var b' := b.(lines := b.lines[line := c]);
    QueueOkFrame(b, b');
    LinesOkUpdate(b, b', line);
    assert Correspondence(b') by {
      LineUpdateKeepsCorrespondence(b, line, c);
    }
  }

  lemma LineUpdateKeepsCorrespondence(b: Bank, line: nat, c: Msi.Controller)
    requires Correspondence(b) && line in b.lines && c.pending == b.lines[line].pending
    ensures Correspondence(b.(lines := b.lines[line := c]))
  {
    forall i | 0 <= i < |b.queue.entries|
      ensures b.queue.entries[i].targets != []
    {
      assert EntryLinked(b, b.queue.entries[i]);
    }
    CorrespondenceFrame(b, b.(lines := b.lines[line := c]));
  }

  /** What joining does to the entries: one more target on the line's, or nothing when it is full. */
  lemma JoinedEntries(b: Bank, r: Request, qos: Option<Mshr.Qos>, q: Mshr.Queue)
    requires b.lineBytes > 0 && QueueOk(b) && DistinctLines(b.queue.entries) && Joins(b, r)
    requires q == Mshr.AllocateOrMerge(b.queue, r, 0, Mshr.Demand, true, qos).0
    ensures
      var i := FindLine(b.queue.entries, r.LineAddress(b.lineBytes));
      var t := Mshr.Target(r, 0, b.queue.nextOrder, Mshr.Demand, true, qos);
      if Mshr.AllocateOrMerge(b.queue, r, 0, Mshr.Demand, true, qos).1.Err? then q == b.queue
      else q.entries == b.queue.entries[i := b.queue.entries[i].(targets := b.queue.entries[i].targets + [t])]
  {
    MergeIndexIsLine(b, r);
  }

  lemma JoinedTargetsOk(lineBytes: nat, e: Mshr.Entry, t: Mshr.Target)
    requires lineBytes > 0 && TargetsOk(lineBytes, e) && e.targets != [] && Mshr.Shareable(e)
    requires Plain(t.request, lineBytes) && Coalescible(t.request) && Mshr.Mergeable(t.request)
    requires t.request.LineAddress(lineBytes) == e.line
    ensures TargetsOk(lineBytes, e.(targets := e.targets + [t]))
  {
    var e' := e.(targets := e.targets + [t]);
    assert Mshr.Shareable(e') by {
      forall u | u in e'.targets
        ensures u in e.targets || u == t
      {
      }
    }
  }

  lemma CoalesceKeepsTargets(b: Bank, r: Request, qos: Option<Mshr.Qos>, q: Mshr.Queue)
    requires b.lineBytes > 0 && QueueOk(b) && DistinctLines(b.queue.entries)
    requires Plain(r, b.lineBytes) && Coalescible(r) && Joins(b, r)
    requires q == Mshr.AllocateOrMerge(b.queue, r, 0, Mshr.Demand, true, qos).0
    ensures QueueOk(b.(queue := q))
  {
    Mshr.AllocateKeepsInv(b.queue, r, 0, Mshr.Demand, true, qos);
    JoinedEntries(b, r, qos, q);
    var i := FindLine(b.queue.entries, r.LineAddress(b.lineBytes));
    var e := b.queue.entries[i];
    assert TargetsOk(b.lineBytes, e) && Mshr.EntryOk(b.queue, e);
    JoinedTargetsOk(b.lineBytes, e, Mshr.Target(r, 0, b.queue.nextOrder, Mshr.Demand, true, qos));
    forall k | 0 <= k < |q.entries|
      ensures TargetsOk(b.lineBytes, q.entries[k])
    {
      if k != i {
        assert TargetsOk(b.lineBytes, b.queue.entries[k]);
      }
    }
  }

  /** Merging keeps every entry's line, handle and first target. */
  lemma MergeKeepsHeads(q: Mshr.Queue, r: Request, qos: Option<Mshr.Qos>, i: nat)
    requires Mshr.ValidConfig(q.config) && Mshr.MergeIndex(q.config, q.entries, r) < |q.entries| && i < |q.entries|
    requires q.entries[i].targets != []
    ensures
      var q' := Mshr.AllocateOrMerge(q, r, 0, Mshr.Demand, true, qos).0;
      && q'.config == q.config && |q'.entries| == |q.entries|
      && q'.entries[i].line == q.entries[i].line && q'.entries[i].handle == q.entries[i].handle
      && q'.entries[i].targets != [] && q'.entries[i].targets[0] == q.entries[i].targets[0]
  {
  }

  lemma CoalesceKeepsCorrespondence(b: Bank, q: Mshr.Queue, r: Request, qos: Option<Mshr.Qos>)
    requires Correspondence(b) && Mshr.ValidConfig(b.queue.config)
    requires Mshr.MergeIndex(b.queue.config, b.queue.entries, r) < |b.queue.entries|
    requires q == Mshr.AllocateOrMerge(b.queue, r, 0, Mshr.Demand, true, qos).0
    ensures Correspondence(b.(queue := q))
  {
    forall i | 0 <= i < |b.queue.entries|
      ensures |q.entries| == |b.queue.entries|
      ensures
        var e, e' := b.queue.entries[i], q.entries[i];
        e'.line == e.line && e'.handle == e.handle && e'.targets != []
          && (e.targets != [] ==> e'.targets[0] == e.targets[0])
    {
      assert EntryLinked(b, b.queue.entries[i]);
      MergeKeepsHeads(b.queue, r, qos, i);
    }
    CorrespondenceFrame(b, b.(queue := q));
  }

  /** A coalesced read joins its line's entry, behind the requests already waiting. */
  lemma CoalesceKeepsInv(b: Bank, r: Request, qos: Option<Mshr.Qos>, q: Mshr.Queue)
    requires Inv(b) && Plain(r, b.lineBytes) && Coalescible(r) && Joins(b, r)
    requires q == Mshr.AllocateOrMerge(b.queue, r, 0, Mshr.Demand, true, qos).0
    ensures Inv(b.(queue := q))
  {
    var b' := b.(queue := q);
    assert QueueOk(b') by {
      CoalesceKeepsTargets(b, r, qos, q);
    }
    assert Correspondence(b') by {
      MergeIndexIsLine(b, r);
      CoalesceKeepsCorrespondence(b, q, r, qos);
    }
    assert LinesOk(b') by {
      forall line | line in b'.lines
        ensures LineOk(b', line)
      {
        LineOkFrame(b, b', line);
      }
    }
  }

  /** Bank `b'` is `b` with one new miss: line, entry and pending fill. */
  predicate AddsMiss(b: Bank, b': Bank, line: nat, e: Mshr.Entry) {
    && !HasEntry(b, line) && !InFlight(b, line)
    && line in b'.lines && b'.lines[line].pending.Some?
    && b'.lines[line].pending.value.downstream == b.nextSequence
    && b'.nextSequence == b.nextSequence + 1
    && b'.lines == b.lines[line := b'.lines[line]]
    && b'.queue.entries == b.queue.entries + [e]
    && e.line == line && e.targets != [] && e.targets[0].request == b'.lines[line].pending.value.original
    && b'.pendingFills == b.pendingFills[b.nextSequence := PendingFill(line, e.handle)]
  }

  lemma MissKeepsLines(b: Bank, b': Bank, line: nat, e: Mshr.Entry, k: nat)
    requires Correspondence(b) && AddsMiss(b, b', line, e) && k in b'.lines
    ensures LineLinked(b', k)
  {
    if k != line {
      assert LineLinked(b, k);
      if b.lines[k].pending.Some? {
        assert FillLinked(b, b.lines[k].pending.value.downstream);
      }
    }
  }

  lemma MissKeepsEntries(b: Bank, b': Bank, line: nat, e: Mshr.Entry, i: nat)
    requires Correspondence(b) && AddsMiss(b, b', line, e) && i < |b'.queue.entries|
    ensures EntryLinked(b', b'.queue.entries[i])
  {
    var entries := b.queue.entries;
    if i < |entries| {
      assert EntryLinked(b, entries[i]);
      assert FillLinked(b, b.lines[entries[i].line].pending.value.downstream);
    }
  }

  lemma MissKeepsFills(b: Bank, b': Bank, line: nat, e: Mshr.Entry, s: nat)
    requires Correspondence(b) && AddsMiss(b, b', line, e) && DistinctLines(b'.queue.entries) && s in b'.pendingFills
    ensures FillLinked(b', s)
  {
    var entries, entries' := b.queue.entries, b'.queue.entries;
    if s == b.nextSequence {
      FindLineIs(entries', |entries|);
    } else {
      assert FillLinked(b, s);
      FindLineIs(entries', FindLine(entries, b.pendingFills[s].line));
    }
  }

  lemma MissKeepsCorrespondence(b: Bank, b': Bank, line: nat, e: Mshr.Entry)
    requires Correspondence(b) && AddsMiss(b, b', line, e)
    ensures Correspondence(b')
  {
    assert DistinctLines(b'.queue.entries);
    forall k | k in b'.lines
      ensures LineLinked(b', k)
    {
      MissKeepsLines(b, b', line, e, k);
    }
    forall i | 0 <= i < |b'.queue.entries|
      ensures EntryLinked(b', b'.queue.entries[i])
    {
      MissKeepsEntries(b, b', line, e, i);
    }
    forall s | s in b'.pendingFills
      ensures FillLinked(b', s)
    {
      MissKeepsFills(b, b', line, e, s);
    }
  }

  lemma NewEntryKeepsQueueOk(b: Bank, r: Request, qos: Option<Mshr.Qos>)
    requires b.lineBytes > 0 && QueueOk(b) && Plain(r, b.lineBytes)
    requires !HasEntry(b, r.LineAddress(b.lineBytes)) && Mshr.CanAllocate(b.queue, Mshr.Demand).None?
    ensures
      var (q, result) := Mshr.AllocateOrMerge(b.queue, r, 0, Mshr.Demand, true, qos);
      var t := Mshr.Target(r, 0, b.queue.nextOrder, Mshr.Demand, true, qos);
      var e := Mshr.Entry(b.queue.nextHandle, r.LineAddress(b.lineBytes), 0, b.queue.nextOrder, false, false, [t]);
      && result == Ok(e.handle) && q.entries == b.queue.entries + [e]
      && QueueOk(b.(queue := q))
  {
    MergeIndexIsLine(b, r);
    Mshr.AllocateKeepsInv(b.queue, r, 0, Mshr.Demand, true, qos);
    var q := Mshr.AllocateOrMerge(b.queue, r, 0, Mshr.Demand, true, qos).0;
    forall i | 0 <= i < |q.entries|
      ensures TargetsOk(b.lineBytes, q.entries[i])
    {
      if i < |b.queue.entries| {
        assert TargetsOk(b.lineBytes, b.queue.entries[i]);
      }
    }
  }

  // ----- one line

  /** The line is present in a state that serves the request. */
  predicate Hits(c: Msi.Controller, r: Request) {
    c.state.Modified? || (c.state.Shared? && Reads(r))
  }

  lemma HitServes(c: Msi.Controller, r: Request)
    requires Msi.Valid(c) && Plain(r, c.lineBytes) && r.LineAddress(c.lineBytes) == c.line && c.data.Some?
    requires Hits(c, r) && r.responseRequired
    ensures
      var (c', outcome) := Msi.AcceptCpuRequest(c, r);
      && c' == c.(data := c'.data, reservations := c'.reservations)
      && c'.data == Some(Applied(c.data.value, r, c.lineBytes))
      && outcome.Ok? && outcome.value.Hit?
      && Respond(outcome.value.response) == Expected(c'.data.value, r, c.lineBytes)
  {
  }

  /** A prefetch that asks for no answer is refused by a line that has the data. */
  lemma SilentHitRefused(c: Msi.Controller, r: Request)
    requires Msi.Valid(c) && Plain(r, c.lineBytes) && r.LineAddress(c.lineBytes) == c.line
    requires Hits(c, r) && !r.responseRequired
    ensures Msi.AcceptCpuRequest(c, r) == (c, Err(Msi.MemoryFailure(ResponseNotExpected)))
  {
  }

  /** The request for the permission the line waits for. */
  predicate Wants(c: Msi.Controller, d: Request) {
    && d.WellFormed() && d.agent == c.agent && d.address == c.line
    && d.size == (if c.state.SharedToModified? then 1 else c.lineBytes)
    && c.pending.Some? && c.pending.value.downstream == d.sequence
    && match c.state
       case InvalidToShared => d.operation.ReadShared?
       case InvalidToModified => d.operation.ReadUnique?
       case SharedToModified => d.operation.Upgrade?
       case _ => false
  }

  lemma MissServes(c: Msi.Controller, r: Request)
    requires Msi.Valid(c) && Plain(r, c.lineBytes) && r.LineAddress(c.lineBytes) == c.line
    requires (c.state.Invalid? && Msi.Fillable(c.line, c.lineBytes)) || (c.state.Shared? && !Reads(r))
    ensures
      var (c', outcome) := Msi.AcceptCpuRequest(c, r);
      var event := if Reads(r) then Msi.DataShared else Msi.DataModified;
      && outcome.Ok? && outcome.value.Miss? && outcome.value.downstream.sequence == c.nextSequence
      && Wants(c', outcome.value.downstream)
      && c' == c.(nextSequence := c.nextSequence + 1, pending := Some(Msi.PendingMiss(r, c.nextSequence, event)),
                  state := if c.state.Shared? then Msi.SharedToModified
                           else if Reads(r) then Msi.InvalidToShared else Msi.InvalidToModified)
  {
  }

  lemma MissOverflows(c: Msi.Controller, r: Request)
    requires Msi.Valid(c) && Plain(r, c.lineBytes) && r.LineAddress(c.lineBytes) == c.line
    requires c.state.Invalid? && !Msi.Fillable(c.line, c.lineBytes)
    ensures
      var (c', outcome) := Msi.AcceptCpuRequest(c, r);
      && outcome == Err(Msi.MemoryFailure(AddressOverflow))
      && c'.state.IsTransient() && c'.pending == c.pending
  {
  }

  lemma BusyServes(c: Msi.Controller, r: Request)
    requires Msi.Valid(c) && Plain(r, c.lineBytes) && r.LineAddress(c.lineBytes) == c.line && c.state.IsTransient()
    ensures Msi.AcceptCpuRequest(c, r) == (c, Err(Msi.LineBusy))
  {
  }

  /** The fill leaves the line with data: it brings a line's worth, or the line has its own. */
  predicate Supplies(c: Msi.Controller, response: Response) {
    if response.data.Some? then |response.data.value| == c.lineBytes else c.data.Some?
  }

  function FilledWith(c: Msi.Controller, response: Response): (base: seq<Byte>)
    requires Supplies(c, response)
  {
    if response.data.Some? then response.data.value else c.data.value
  }

  /** The response is for the miss the line waits on. */
  predicate Awaits(c: Msi.Controller, response: Response) {
    && c.pending.Some? && Msi.Transition(c.state, c.pending.value.fillEvent).Some?
    && response.agent == c.agent && response.sequence == c.pending.value.downstream
    && Plain(c.pending.value.original, c.lineBytes)
    && c.pending.value.original.LineAddress(c.lineBytes) == c.line
  }

  lemma FillServes(c: Msi.Controller, response: Response)
    requires Msi.Valid(c) && Awaits(c, response) && Supplies(c, response) && c.pending.value.original.responseRequired
    ensures
      var (c', outcome) := Msi.AcceptFill(c, response);
      && outcome.Ok? && outcome.value.Fill?
      && c'.data == Some(Applied(FilledWith(c, response), c.pending.value.original, c.lineBytes))
      && c' == c.(data := c'.data, reservations := c'.reservations, pending := None,
                  state := Msi.Transition(c.state, c.pending.value.fillEvent).value)
  {
  }

  /** Otherwise the line gives up its miss and fails, or is left without data. */
  lemma FillFails(c: Msi.Controller, response: Response)
    requires Msi.Valid(c) && Awaits(c, response)
    requires !(Supplies(c, response) && c.pending.value.original.responseRequired)
    ensures
      var (c', outcome) := Msi.AcceptFill(c, response);
      c'.pending.None? && (outcome.Err? || c'.data.None?)
  {
  }

  lemma SilentFill(c: Msi.Controller, response: Response)
    requires Msi.Valid(c) && Awaits(c, response) && Supplies(c, response) && !c.pending.value.original.responseRequired
    ensures
      var (c', outcome) := Msi.AcceptFill(c, response);
      c'.pending.None? && outcome == Err(Msi.MemoryFailure(ResponseNotExpected))
  {
  }

  // ----- requests

  lemma EntryIffInFlight(b: Bank, line: nat)
    requires Correspondence(b)
    ensures HasEntry(b, line) <==> InFlight(b, line)
  {
    if HasEntry(b, line) {
      assert EntryLinked(b, b.queue.entries[FindLine(b.queue.entries, line)]);
    }
    if InFlight(b, line) {
      assert LineLinked(b, line);
      assert FillLinked(b, b.lines[line].pending.value.downstream);
    }
  }

  /** The request needs a fill or an upgrade of its line. */
  predicate Misses(b: Bank, r: Request)
    requires b.lineBytes > 0
  {
    var line := r.LineAddress(b.lineBytes);
    line !in b.lines || (b.lines[line].state.Shared? && !Reads(r))
  }

  /** The request would fetch a whole line that cannot be asked for. */
  predicate Overflows(b: Bank, r: Request)
    requires b.lineBytes > 0
  {
    var line := r.LineAddress(b.lineBytes);
    && r.agent == b.agent && line !in b.lines && Mshr.CanAllocate(b.queue, Mshr.Demand).None?
    && !Msi.Fillable(line, b.lineBytes)
  }

  /** The request would wait on a miss in flight whose entry it may not join. */
  predicate Strays(b: Bank, r: Request)
    requires b.lineBytes > 0 && Mshr.ValidConfig(b.queue.config)
  {
    && r.agent == b.agent && Coalescible(r) && HasEntry(b, r.LineAddress(b.lineBytes))
    && !Joins(b, r) && Mshr.CanAllocate(b.queue, Mshr.Demand).None?
  }

  /** The two kinds of request that put the bank out of step. */
  predicate Derails(b: Bank, r: Request)
    requires b.lineBytes > 0 && Mshr.ValidConfig(b.queue.config)
  {
    Overflows(b, r) || Strays(b, r)
  }

  /** How a request in scope is handled: refused as another agent's; handed to the queue to wait on a
  miss in flight; refused by a busy line or for want of an entry; sent downstream, in vain or not;
  answered at once, or refused because it asks for no answer. */
  datatype Handling = Refused | Coalesced | Busy | NoEntry | Overflow | Sent | Served | Silent

  function Handles(b: Bank, r: Request): (h: Handling)
    requires Valid(b) && Plain(r, b.lineBytes)
  {
    var line := r.LineAddress(b.lineBytes);
    if r.agent != b.agent then Refused
    else if Coalescible(r) && HasEntry(b, line) then Coalesced
    else if HasEntry(b, line) then Busy
    else if NeedsEntry(b, line, r) && Mshr.CanAllocate(b.queue, Mshr.Demand).Some? then NoEntry
    else if Overflows(b, r) then Overflow
    else if Misses(b, r) then Sent
    else if r.responseRequired then Served
    else Silent
  }

  /** A line with no miss in flight holds data. */
  lemma IdleLineHolds(b: Bank, line: nat)
    requires Inv(b)
    ensures HasEntry(b, line) <==> InFlight(b, line)
    ensures !HasEntry(b, line) && line in b.lines ==>
      var c := b.lines[line];
      && Msi.Valid(c) && c.line == line && c.data.Some? && |c.data.value| == b.lineBytes && c.pending.None?
      && (c.state.Shared? || c.state.Modified?)
  {
    EntryIffInFlight(b, line);
    if line in b.lines {
      assert LineOk(b, line);
    }
  }

  /** The only trace of a refusal: a line's sequence number is brought up to date. */
  predicate Renumbered(b: Bank, b': Bank, line: nat) {
    line in b.lines && b' == b.(lines := b.lines[line := b.lines[line].(nextSequence := b.nextSequence)])
  }

  lemma SequenceKeepsLineOk(b: Bank, b': Bank, line: nat, n: nat)
    requires line in b.lines && LineOk(b, line) && b'.agent == b.agent && b'.lineBytes == b.lineBytes
    requires line in b'.lines && b'.lines[line] == b.lines[line].(nextSequence := n)
    ensures LineOk(b', line)
  {
  }

  lemma RenumberedKeepsInv(b: Bank, line: nat, c: Msi.Controller)
    requires Inv(b) && line in b.lines && c == b.lines[line].(nextSequence := b.nextSequence)
    ensures Inv(b.(lines := b.lines[line := c]))
  {
    assert LineOk(b, line);
    SequenceKeepsLineOk(b, b.(lines := b.lines[line := c]), line, b.nextSequence);
    LineUpdateKeepsInv(b, line, c);
  }

  /** The bank after a request: in step, and unchanged by a refusal. */
  predicate InStep(b: Bank, line: nat, b': Bank, result: Result<Outcome, BankError>) {
    && Inv(b') && b'.lineBytes == b.lineBytes && b'.agent == b.agent
    && (result.Err? ==> b' == b || Renumbered(b, b', line))
  }

  lemma RefusedInStep(b: Bank, r: Request, qos: Option<Mshr.Qos>)
    requires Valid(b) && Plain(r, b.lineBytes) && (Handles(b, r).Refused? || Handles(b, r).NoEntry?)
    ensures AcceptRequest(b, r, qos).0 == b && AcceptRequest(b, r, qos).1.Err?
  {
  }

  /** The entry a request allocates. */
  function NewEntry(b: Bank, r: Request, qos: Option<Mshr.Qos>): (e: Mshr.Entry)
    requires b.lineBytes > 0
  {
    Mshr.Entry(b.queue.nextHandle, r.LineAddress(b.lineBytes), 0, b.queue.nextOrder, false, false,
               [Mshr.Target(r, 0, b.queue.nextOrder, Mshr.Demand, true, qos)])
  }

  /** What the bank becomes when a request is to wait on a miss in flight, or finds no room there. */
  lemma CoalescedShape(b: Bank, r: Request, qos: Option<Mshr.Qos>, q: Mshr.Queue, merged: Result<nat, Mshr.QueueError>)
    requires Valid(b) && Plain(r, b.lineBytes) && Handles(b, r).Coalesced?
    requires (q, merged) == Mshr.AllocateOrMerge(b.queue, r, 0, Mshr.Demand, true, qos)
    ensures AcceptRequest(b, r, qos)
         == (b.(queue := q), if merged.Ok? then Ok(Waiting(None)) else Err(QueueFailure(merged.error)))
    ensures merged.Err? ==> q == b.queue
  {
  }

  lemma UnjoinedQueue(b: Bank, r: Request, qos: Option<Mshr.Qos>, q: Mshr.Queue, entered: Result<nat, Mshr.QueueError>)
    requires b.lineBytes > 0 && QueueOk(b) && DistinctLines(b.queue.entries) && !Joins(b, r)
    requires (q, entered) == Mshr.AllocateOrMerge(b.queue, r, 0, Mshr.Demand, true, qos)
    ensures
      if Mshr.CanAllocate(b.queue, Mshr.Demand).Some? then q == b.queue && entered.Err?
      else entered.Ok? && q.entries == b.queue.entries + [NewEntry(b, r, qos)]
  {
    MergeIndexIsLine(b, r);
  }

  lemma SecondEntryBreaks(b: Bank, e: Mshr.Entry)
    requires HasEntry(b, e.line)
    ensures !DistinctLines(b.queue.entries + [e])
  {
    var entries, i := b.queue.entries, FindLine(b.queue.entries, e.line);
    assert (entries + [e])[i].line == (entries + [e])[|entries|].line;
  }

  /** A request that may not join its line's entry gets a second one, which no pending fill stands for,
  or none when the queue is full. */
  lemma Unjoined(b: Bank, r: Request, qos: Option<Mshr.Qos>)
    requires Inv(b) && Valid(b) && Plain(r, b.lineBytes) && Handles(b, r).Coalesced? && !Joins(b, r)
    ensures
      var (b', result) := AcceptRequest(b, r, qos);
      if Mshr.CanAllocate(b.queue, Mshr.Demand).Some? then b' == b && result.Err?
      else
        && result == Ok(Waiting(None)) && !Correspondence(b')
        && b' == b.(queue := b'.queue) && b'.queue.entries == b.queue.entries + [NewEntry(b, r, qos)]
  {
    var (q, entered) := Mshr.AllocateOrMerge(b.queue, r, 0, Mshr.Demand, true, qos);
    CoalescedShape(b, r, qos, q, entered);
    UnjoinedQueue(b, r, qos, q, entered);
    SecondEntryBreaks(b, NewEntry(b, r, qos));
  }

  lemma CoalescedInStep(b: Bank, r: Request, qos: Option<Mshr.Qos>)
    requires Inv(b) && Valid(b) && Plain(r, b.lineBytes) && Handles(b, r).Coalesced?
    ensures
      if Strays(b, r) then !Inv(AcceptRequest(b, r, qos).0)
      else InStep(b, r.LineAddress(b.lineBytes), AcceptRequest(b, r, qos).0, AcceptRequest(b, r, qos).1)
  {
    if !Joins(b, r) {
      Unjoined(b, r, qos);
      return;
    }
    var (q, merged) := Mshr.AllocateOrMerge(b.queue, r, 0, Mshr.Demand, true, qos);
    CoalescedShape(b, r, qos, q, merged);
    CoalesceKeepsInv(b, r, qos, q);
  }

  /** A busy line, or one with nothing to say to a silent prefetch, refuses. */
  lemma TurnedAway(b: Bank, r: Request, c: Msi.Controller)
    requires Inv(b) && Valid(b) && Plain(r, b.lineBytes) && (Handles(b, r).Busy? || Handles(b, r).Silent?)
    requires c == ControllerFor(b, r.LineAddress(b.lineBytes))
    ensures r.LineAddress(b.lineBytes) in b.lines
    ensures
      var verdict := if Handles(b, r).Busy? then Msi.LineBusy else Msi.MemoryFailure(ResponseNotExpected);
      Msi.AcceptCpuRequest(c, r) == (c, Err(verdict))
  {
    var line := r.LineAddress(b.lineBytes);
    IdleLineHolds(b, line);
    assert LineOk(b, line);
    if Handles(b, r).Busy? {
      BusyServes(c, r);
    } else {
      SilentHitRefused(c, r);
    }
  }

  lemma TurnedAwayInStep(b: Bank, r: Request, qos: Option<Mshr.Qos>)
    requires Inv(b) && Valid(b) && Plain(r, b.lineBytes) && (Handles(b, r).Busy? || Handles(b, r).Silent?)
    ensures InStep(b, r.LineAddress(b.lineBytes), AcceptRequest(b, r, qos).0, AcceptRequest(b, r, qos).1)
    ensures AcceptRequest(b, r, qos).1.Err?
  {
    var line := r.LineAddress(b.lineBytes);
    var c := ControllerFor(b, line);
    TurnedAway(b, r, c);
    RenumberedKeepsInv(b, line, c);
  }

  /** The line after a request that hits. */
  lemma HitKeepsInv(b: Bank, r: Request, c: Msi.Controller, verdict: Result<Msi.Outcome, Msi.ControllerError>)
    requires Inv(b) && Valid(b) && Plain(r, b.lineBytes) && r.LineAddress(b.lineBytes) in b.lines && r.responseRequired
    requires Hits(b.lines[r.LineAddress(b.lineBytes)], r)
    requires (c, verdict) == Msi.AcceptCpuRequest(ControllerFor(b, r.LineAddress(b.lineBytes)), r)
    ensures
      var line := r.LineAddress(b.lineBytes);
      && verdict.Ok? && verdict.value.Hit? && c.nextSequence == b.nextSequence
      && c.pending.None? && b.lines[line].pending.None?
      && b.lines[line].data.Some? && |b.lines[line].data.value| == b.lineBytes
      && c.data == Some(Applied(b.lines[line].data.value, r, b.lineBytes))
      && Respond(verdict.value.response) == Expected(c.data.value, r, b.lineBytes)
      && Inv(b.(lines := b.lines[line := c]))
  {
    var line := r.LineAddress(b.lineBytes);
    assert LineOk(b, line);
    HitServes(ControllerFor(b, line), r);
    assert LineOk(b.(lines := b.lines[line := c]), line);
    LineUpdateKeepsInv(b, line, c);
  }

  /** What the bank becomes when a request is answered at once. */
  lemma ServedShape(b: Bank, r: Request, qos: Option<Mshr.Qos>) returns (c: Msi.Controller)
    requires Inv(b) && Valid(b) && Plain(r, b.lineBytes) && Handles(b, r).Served?
    ensures
      var line := r.LineAddress(b.lineBytes);
      && line in b.lines && b.lines[line].pending.None? && c.pending.None?
      && b.lines[line].data.Some? && |b.lines[line].data.value| == b.lineBytes
      && c.data == Some(Applied(b.lines[line].data.value, r, b.lineBytes))
      && AcceptRequest(b, r, qos).0 == b.(lines := b.lines[line := c])
      && AcceptRequest(b, r, qos).1.Ok? && AcceptRequest(b, r, qos).1.value.Answered?
      && Respond(AcceptRequest(b, r, qos).1.value.response) == Expected(c.data.value, r, b.lineBytes)
      && Inv(b.(lines := b.lines[line := c]))
  {
    var line := r.LineAddress(b.lineBytes);
    IdleLineHolds(b, line);
    var (c', verdict) := Msi.AcceptCpuRequest(ControllerFor(b, line), r);
    c := c';
    HitKeepsInv(b, r, c, verdict);
    assert AcceptRequest(b, r, qos) == Conclude(b, r, qos, c, verdict);
  }

  /** The line after a request that misses. */
  lemma MissLineOk(b: Bank, r: Request, c: Msi.Controller, verdict: Result<Msi.Outcome, Msi.ControllerError>)
    requires Inv(b) && Valid(b) && Plain(r, b.lineBytes) && r.agent == b.agent && Misses(b, r)
    requires r.LineAddress(b.lineBytes) in b.lines || Msi.Fillable(r.LineAddress(b.lineBytes), b.lineBytes)
    requires (c, verdict) == Msi.AcceptCpuRequest(ControllerFor(b, r.LineAddress(b.lineBytes)), r)
    ensures
      var line := r.LineAddress(b.lineBytes);
      && verdict.Ok? && verdict.value.Miss? && verdict.value.downstream.sequence == b.nextSequence
      && Wants(c, verdict.value.downstream) && c.nextSequence == b.nextSequence + 1
      && c.pending.Some? && c.pending.value.downstream == b.nextSequence && c.pending.value.original == r
      && c.data == (if line in b.lines then b.lines[line].data else None)
      && LineOk(b.(lines := b.lines[line := c]), line)
  {
    var line := r.LineAddress(b.lineBytes);
    LineAligned(r.address, b.lineBytes);
    if line in b.lines {
      assert LineOk(b, line);
    }
    MissServes(ControllerFor(b, line), r);
  }

  /** What a miss changes: one line, one entry, one pending fill. */
  function WithMiss(b: Bank, line: nat, c: Msi.Controller, q: Mshr.Queue, handle: nat): (b': Bank) {
    b.(lines := b.lines[line := c], nextSequence := c.nextSequence, queue := q,
       pendingFills := b.pendingFills[b.nextSequence := PendingFill(line, handle)])
  }

  lemma MissAssembled(b: Bank, r: Request, line: nat, c: Msi.Controller, q: Mshr.Queue, e: Mshr.Entry)
    requires b.lineBytes > 0 && LinesOk(b) && Correspondence(b)
    requires !InFlight(b, line) && !HasEntry(b, line)
    requires QueueOk(b.(queue := q)) && q.entries == b.queue.entries + [e]
    requires e.line == line && e.targets != [] && e.targets[0].request == r
    requires LineOk(b.(lines := b.lines[line := c]), line)
    requires c.pending.Some? && c.pending.value.downstream == b.nextSequence && c.pending.value.original == r
    requires c.nextSequence == b.nextSequence + 1
    ensures Inv(WithMiss(b, line, c, q, e.handle))
  {
    var b' := WithMiss(b, line, c, q, e.handle);
    assert AddsMiss(b, b', line, e);
    assert Correspondence(b') by {
      MissKeepsCorrespondence(b, b', line, e);
    }
    assert LinesOk(b') by {
      LineOkFrame(b.(lines := b.lines[line := c]), b', line);
      LinesOkUpdate(b, b', line);
    }
    assert QueueOk(b') by {
      QueueOkFrame(b.(queue := q), b');
    }
  }

  /** What the bank becomes when a request misses. */
  lemma SentShape(b: Bank, r: Request, qos: Option<Mshr.Qos>)
    returns (c: Msi.Controller, q: Mshr.Queue, d: Request)
    requires Inv(b) && Valid(b) && Plain(r, b.lineBytes) && Handles(b, r).Sent?
    ensures
      var line := r.LineAddress(b.lineBytes);
      var e := NewEntry(b, r, qos);
      && !HasEntry(b, line) && !InFlight(b, line)
      && c.pending.Some? && c.pending.value.original == r
      && c.data == (if line in b.lines then b.lines[line].data else None)
      && q.entries == b.queue.entries + [e]
      && var b' := WithMiss(b, line, c, q, e.handle);
      && AcceptRequest(b, r, qos).0 == b' && Inv(b')
      && AcceptRequest(b, r, qos).1 == Ok(Waiting(Some(d))) && d.sequence == b.nextSequence && Wants(c, d)
      && c.agent == b.agent && c.line == line && c.lineBytes == b.lineBytes && c.nextSequence == b.nextSequence + 1
  {
    var line := r.LineAddress(b.lineBytes);
    IdleLineHolds(b, line);
    var (c', verdict) := Msi.AcceptCpuRequest(ControllerFor(b, line), r);
    c := c';
    q := Mshr.AllocateOrMerge(b.queue, r, 0, Mshr.Demand, true, qos).0;
    MissLineOk(b, r, c, verdict);
    d := verdict.value.downstream;
    NewEntryKeepsQueueOk(b, r, qos);
    MissAssembled(b, r, line, c, q, NewEntry(b, r, qos));
    assert AcceptRequest(b, r, qos) == Conclude(b, r, qos, c, verdict);
  }

  /** A whole line that cannot be asked for: its controller waits for a fill that no entry and no
  pending fill stands for. */
  lemma OverflowBreaks(b: Bank, r: Request, qos: Option<Mshr.Qos>)
    requires Valid(b) && Plain(r, b.lineBytes) && Handles(b, r).Overflow?
    ensures
      var line := r.LineAddress(b.lineBytes);
      var (b', result) := AcceptRequest(b, r, qos);
      && result == Err(Controller(Msi.MemoryFailure(AddressOverflow)))
      && !Inv(b') && b' == b.(lines := b'.lines)
      && line in b'.lines && b'.lines[line].line == line && b'.lines[line].state.IsTransient()
        && b'.lines[line].pending.None?
  {
    var line := r.LineAddress(b.lineBytes);
    LineAligned(r.address, b.lineBytes);
    MissOverflows(ControllerFor(b, line), r);
    assert !LineOk(AcceptRequest(b, r, qos).0, line);
  }

  lemma DerailsHow(b: Bank, r: Request)
    requires Inv(b) && Valid(b) && Plain(r, b.lineBytes)
    ensures Derails(b, r) <==> Handles(b, r).Overflow? || (Handles(b, r).Coalesced? && Strays(b, r))
  {
    IdleLineHolds(b, r.LineAddress(b.lineBytes));
  }

  /** A request keeps the bank in step, unless it fetches a line that cannot be asked for or waits on a
  miss whose entry it may not join. In particular an exhausted queue is reported before any line
  changes state, and a refusal leaves at most a sequence number behind. */
  lemma RequestStepInv(b: Bank, r: Request, qos: Option<Mshr.Qos>)
    requires Inv(b) && Valid(b) && Plain(r, b.lineBytes)
    ensures Inv(AcceptRequest(b, r, qos).0) <==> !Derails(b, r)
    ensures !Derails(b, r) ==>
      InStep(b, r.LineAddress(b.lineBytes), AcceptRequest(b, r, qos).0, AcceptRequest(b, r, qos).1)
  {
    DerailsHow(b, r);
    match Handles(b, r)
    case Refused => RefusedInStep(b, r, qos);
    case NoEntry => RefusedInStep(b, r, qos);
    case Coalesced => CoalescedInStep(b, r, qos);
    case Busy => TurnedAwayInStep(b, r, qos);
    case Silent => TurnedAwayInStep(b, r, qos);
    case Served => var _ := ServedShape(b, r, qos);
    case Sent => var _, _, _ := SentShape(b, r, qos);
    case Overflow => OverflowBreaks(b, r, qos);
  }

  /** Sequence numbers to come are not waited for. */
  lemma FreshSequence(b: Bank)
    requires Correspondence(b)
    ensures b.nextSequence !in b.pendingFills
  {
    assert b.nextSequence in b.pendingFills ==> FillLinked(b, b.nextSequence);
  }

  /** What an accepted request does downstream. It is answered and sends nothing; or it joins the entry of
  a miss in flight and sends nothing; or it sends one request, for the permission its line now waits
  for, under a sequence number that nothing waits for yet and its line's new entry waits for from now
  on. */
  lemma SendsHow(b: Bank, r: Request, qos: Option<Mshr.Qos>)
    requires Inv(b) && Valid(b) && Plain(r, b.lineBytes) && !Derails(b, r) && AcceptRequest(b, r, qos).1.Ok?
    ensures
      var line := r.LineAddress(b.lineBytes);
      var (b', result) := AcceptRequest(b, r, qos);
      match result.value
      case Answered(_) =>
        && !InFlight(b, line) && line in b'.lines && b'.lines == b.lines[line := b'.lines[line]]
        && b'.pendingFills == b.pendingFills && b'.queue == b.queue && b'.nextSequence == b.nextSequence
      case Waiting(None) => InFlight(b, line) && b' == b.(queue := b'.queue)
      case Waiting(Some(d)) =>
        && !InFlight(b, line) && line in b'.lines && Wants(b'.lines[line], d)
        && b'.lines[line].agent == b.agent && b'.lines[line].line == line && b'.lines[line].lineBytes == b.lineBytes
        && d.sequence == b.nextSequence && d.sequence !in b.pendingFills && b'.nextSequence == b.nextSequence + 1
        && b'.queue.entries == b.queue.entries + [NewEntry(b, r, qos)]
        && b'.pendingFills == b.pendingFills[d.sequence := PendingFill(line, NewEntry(b, r, qos).handle)]
        && b'.lines == b.lines[line := b'.lines[line]]
  {
    var line := r.LineAddress(b.lineBytes);
    EntryIffInFlight(b, line);
    match Handles(b, r)
    case Refused => RefusedInStep(b, r, qos);
    case NoEntry => RefusedInStep(b, r, qos);
    case Busy => TurnedAwayInStep(b, r, qos);
    case Silent => TurnedAwayInStep(b, r, qos);
    case Overflow => OverflowBreaks(b, r, qos);
    case Coalesced =>
      var (q, merged) := Mshr.AllocateOrMerge(b.queue, r, 0, Mshr.Demand, true, qos);
      CoalescedShape(b, r, qos, q, merged);
    case Served => var _ := ServedShape(b, r, qos);
    case Sent =>
      FreshSequence(b);
      var _, _, _ := SentShape(b, r, qos);
  }

  lemma CoalescedAsAsked(b: Bank, r: Request, qos: Option<Mshr.Qos>, asked: Mshr.Asked)
    requires Valid(b) && Plain(r, b.lineBytes) && Handles(b, r).Coalesced? && AcceptRequest(b, r, qos).1.Ok?
    requires asked == Mshr.Asked(r, 0, Mshr.Demand, true, qos)
    ensures Mshr.LiveAsked(AcceptRequest(b, r, qos).0.queue.entries)
         == Mshr.LiveAsked(b.queue.entries) + multiset{asked}
  {
    var (q, merged) := Mshr.AllocateOrMerge(b.queue, r, 0, Mshr.Demand, true, qos);
    CoalescedShape(b, r, qos, q, merged);
    Mshr.AllocateConserves(b.queue, r, 0, Mshr.Demand, true, qos);
  }

  lemma SentAsAsked(b: Bank, r: Request, qos: Option<Mshr.Qos>, entries: seq<Mshr.Entry>, asked: Mshr.Asked)
    requires b.lineBytes > 0 && entries == b.queue.entries + [NewEntry(b, r, qos)]
    requires asked == Mshr.Asked(r, 0, Mshr.Demand, true, qos)
    ensures Mshr.LiveAsked(entries) == Mshr.LiveAsked(b.queue.entries) + multiset{asked}
  {
    var e := NewEntry(b, r, qos);
    assert Mshr.AskedOf(e.targets) == [asked];
    Totals.TotalAppend(b.queue.entries, e, Mshr.AskedIn);
  }

  /** A request that waits, in an entry of its own or in another's, waits as a demand with the priority it
  came with, and nothing else that waits changes. */
  lemma WaitsAsAsked(b: Bank, r: Request, qos: Option<Mshr.Qos>, entries: seq<Mshr.Entry>)
    requires Inv(b) && Valid(b) && Plain(r, b.lineBytes) && !Derails(b, r)
    requires AcceptRequest(b, r, qos).1.Ok? && AcceptRequest(b, r, qos).1.value.Waiting?
    requires entries == AcceptRequest(b, r, qos).0.queue.entries
    ensures Mshr.LiveAsked(entries)
         == Mshr.LiveAsked(b.queue.entries) + multiset{Mshr.Asked(r, 0, Mshr.Demand, true, qos)}
  {
    var asked := Mshr.Asked(r, 0, Mshr.Demand, true, qos);
    if Handles(b, r).Coalesced? {
      CoalescedAsAsked(b, r, qos, asked);
    } else {
      assert entries == b.queue.entries + [NewEntry(b, r, qos)] by {
        SentOrNot(b, r, qos);
      }
      SentAsAsked(b, r, qos, entries, asked);
    }
  }

  /** A request that waits without joining a miss has been sent for. */
  lemma SentOrNot(b: Bank, r: Request, qos: Option<Mshr.Qos>)
    requires Inv(b) && Valid(b) && Plain(r, b.lineBytes) && !Derails(b, r) && !Handles(b, r).Coalesced?
    requires AcceptRequest(b, r, qos).1.Ok? && AcceptRequest(b, r, qos).1.value.Waiting?
    ensures AcceptRequest(b, r, qos).0.queue.entries == b.queue.entries + [NewEntry(b, r, qos)]
  {
    SendsHow(b, r, qos);
    EntryIffInFlight(b, r.LineAddress(b.lineBytes));
    if HasEntry(b, r.LineAddress(b.lineBytes)) && r.agent == b.agent {
      TurnedAwayInStep(b, r, qos);
    }
  }

  /** Once that has happened, no request for the line gets through any more. */
  lemma OverflowedLineIsLost(
    b: Bank, r: Request, qos: Option<Mshr.Qos>, b': Bank, later: Request, qos': Option<Mshr.Qos>)
    requires Inv(b) && Valid(b) && Plain(r, b.lineBytes) && Overflows(b, r)
    requires b' == AcceptRequest(b, r, qos).0
    requires Plain(later, b.lineBytes) && later.LineAddress(b.lineBytes) == r.LineAddress(b.lineBytes)
      && later.agent == b.agent
    ensures Plain(later, b'.lineBytes) && AcceptRequest(b', later, qos').1 == Err(Controller(Msi.LineBusy))
  {
    var line := r.LineAddress(b.lineBytes);
    IdleLineHolds(b, line);
    OverflowBreaks(b, r, qos);
    BusyServes(ControllerFor(b', line), later);
  }

  /** The first byte of the last 64-byte line, read through an empty bank. */
  lemma LastLineRead(agent: nat, config: Mshr.Config, qos: Option<Mshr.Qos>)
    requires Mshr.ValidConfig(config) && config.lineBytes == 64
    ensures
      var b := New(agent, config);
      var r := Request(agent, 0, ReadShared, U64_MAX - 63, 1, None, None, None, None, None, None, false, false, true);
      && Valid(b) && Plain(r, b.lineBytes)
      && AcceptRequest(b, r, qos).1 == Err(Controller(Msi.MemoryFailure(AddressOverflow)))
      && !Inv(AcceptRequest(b, r, qos).0)
  {
    var b := New(agent, config);
    var r := Request(agent, 0, ReadShared, U64_MAX - 63, 1, None, None, None, None, None, None, false, false, true);
    NewInv(agent, config);
    assert Overflows(b, r);
    OverflowBreaks(b, r, qos);
  }

  /** A read may join a miss in flight exactly when neither of the two is strictly ordered. */
  lemma JoinsIff(b: Bank, r: Request)
    requires Inv(b) && Valid(b) && Plain(r, b.lineBytes) && InFlight(b, r.LineAddress(b.lineBytes))
    ensures Joins(b, r) <==>
      !r.strictOrder && !b.lines[r.LineAddress(b.lineBytes)].pending.value.original.strictOrder
  {
    var line := r.LineAddress(b.lineBytes);
    EntryIffInFlight(b, line);
    var e := b.queue.entries[FindLine(b.queue.entries, line)];
    assert EntryLinked(b, e) && TargetsOk(b.lineBytes, e);
    assert e.targets[0] in e.targets;
  }

  /** Exactly when a coalescible read of a line with a miss in flight keeps the bank in step: when it
  may join the line's entry, or there is no entry free for it. Otherwise it gets an entry of its own
  that no fill stands for. */
  lemma CoalescingKeepsInvIff(b: Bank, r: Request, qos: Option<Mshr.Qos>)
    requires Inv(b) && Valid(b) && Plain(r, b.lineBytes) && r.agent == b.agent
    requires Coalescible(r) && InFlight(b, r.LineAddress(b.lineBytes))
    ensures
      var missed := b.lines[r.LineAddress(b.lineBytes)].pending.value.original;
      Inv(AcceptRequest(b, r, qos).0) <==>
        (r.strictOrder || missed.strictOrder ==> Mshr.CanAllocate(b.queue, Mshr.Demand).Some?)
  {
    EntryIffInFlight(b, r.LineAddress(b.lineBytes));
    JoinsIff(b, r);
    RequestStepInv(b, r, qos);
  }

  /** Once a strictly ordered request has missed, a read that follows it on its line is stranded. */
  lemma StrictMissStrands(b: Bank, strict: Request, qos: Option<Mshr.Qos>, b': Bank, r: Request, qos': Option<Mshr.Qos>)
    requires Inv(b) && Valid(b) && Plain(strict, b.lineBytes) && strict.strictOrder && Handles(b, strict).Sent?
    requires b' == AcceptRequest(b, strict, qos).0 && Mshr.CanAllocate(b'.queue, Mshr.Demand).None?
    requires Plain(r, b.lineBytes) && Coalescible(r) && r.agent == b.agent
    requires r.LineAddress(b.lineBytes) == strict.LineAddress(b.lineBytes)
    ensures Inv(b') && Valid(b') && b'.lineBytes == b.lineBytes
    ensures AcceptRequest(b', r, qos').1 == Ok(Waiting(None)) && !Correspondence(AcceptRequest(b', r, qos').0)
  {
    var _, _, _ := SentShape(b, strict, qos);
    InvIsValid(b');
    JoinsIff(b', r);
    EntryIffInFlight(b', r.LineAddress(b.lineBytes));
    Unjoined(b', r, qos');
  }

  /** Such a pair: a strictly ordered and an ordinary read of the first line, through an empty bank. */
  lemma StrictMissThenRead(
    agent: nat, config: Mshr.Config, strict: Request, r: Request, qos: Option<Mshr.Qos>, b: Bank)
    requires Mshr.ValidConfig(config) && config.lineBytes == 64 && config.entries >= 2
    requires strict == Request(agent, 0, ReadShared, 0, 8, None, None, None, None, None, None, false, true, true)
    requires r == Request(agent, 1, ReadShared, 0, 8, None, None, None, None, None, None, false, false, true)
    requires b == AcceptRequest(New(agent, config), strict, qos).0
    ensures Inv(b) && Valid(b) && Plain(r, b.lineBytes)
    ensures AcceptRequest(b, r, qos).1 == Ok(Waiting(None)) && !Correspondence(AcceptRequest(b, r, qos).0)
  {
    FirstMiss(agent, config, strict, qos, New(agent, config));
    StrictMissStrands(New(agent, config), strict, qos, b, r, qos);
  }

  /** A request to an empty bank misses and takes one entry. */
  lemma FirstMiss(agent: nat, config: Mshr.Config, r: Request, qos: Option<Mshr.Qos>, empty: Bank)
    requires Mshr.ValidConfig(config) && empty == New(agent, config)
    requires Plain(r, config.lineBytes) && r.agent == agent
    requires Msi.Fillable(r.LineAddress(config.lineBytes), config.lineBytes)
    ensures Inv(empty) && Valid(empty) && Handles(empty, r).Sent?
    ensures |AcceptRequest(empty, r, qos).0.queue.entries| == 1 && AcceptRequest(empty, r, qos).0.queue.config == config
  {
    NewInv(agent, config);
    var _, _, _ := SentShape(empty, r, qos);
    NewEntryKeepsQueueOk(empty, r, qos);
  }

  /** Exactly when a line that could serve a request refuses it: a prefetch that asks for no answer,
  and a load-locked of a shared line while the queue is full, although it needs no entry. */
  lemma HitRefusedIff(b: Bank, r: Request, qos: Option<Mshr.Qos>)
    requires Inv(b) && Valid(b) && Plain(r, b.lineBytes) && r.agent == b.agent
    requires r.LineAddress(b.lineBytes) in b.lines && Hits(b.lines[r.LineAddress(b.lineBytes)], r)
    ensures
      var full := Mshr.CanAllocate(b.queue, Mshr.Demand);
      var shared := b.lines[r.LineAddress(b.lineBytes)].state.Shared?;
      AcceptRequest(b, r, qos).1.Err? <==> !r.responseRequired || (r.operation.LoadLocked? && shared && full.Some?)
  {
    var line := r.LineAddress(b.lineBytes);
    IdleLineHolds(b, line);
    assert LineOk(b, line);
    match Handles(b, r)
    case NoEntry => RefusedInStep(b, r, qos);
    case Silent => TurnedAwayInStep(b, r, qos);
    case Served => var _ := ServedShape(b, r, qos);
  }

  /** Room for a request that is to wait on a miss in flight: a place in its entry when both may share
  it, an entry of its own when not. */
  predicate RoomToWait(b: Bank, r: Request, missed: Request)
    requires b.lineBytes > 0 && HasEntry(b, r.LineAddress(b.lineBytes))
  {
    var e := b.queue.entries[FindLine(b.queue.entries, r.LineAddress(b.lineBytes))];
    if r.strictOrder || missed.strictOrder then |b.queue.entries| < b.queue.config.entries
    else |e.targets| < b.queue.config.targetsPerEntry
  }

  lemma MergesIff(b: Bank, r: Request, qos: Option<Mshr.Qos>, missed: Request, merged: Result<nat, Mshr.QueueError>)
    requires b.lineBytes > 0 && QueueOk(b) && DistinctLines(b.queue.entries) && HasEntry(b, r.LineAddress(b.lineBytes))
    requires Joins(b, r) <==> !r.strictOrder && !missed.strictOrder
    requires merged == Mshr.AllocateOrMerge(b.queue, r, 0, Mshr.Demand, true, qos).1
    ensures merged.Ok? <==> RoomToWait(b, r, missed)
  {
    MergeIndexIsLine(b, r);
  }

  /** While a line's miss is in flight exactly the fetches, shared reads and read prefetches for which
  there is room are let in, to wait. */
  lemma WaitsIff(b: Bank, r: Request, qos: Option<Mshr.Qos>, missed: Request)
    requires Inv(b) && Valid(b) && Plain(r, b.lineBytes) && r.agent == b.agent
    requires InFlight(b, r.LineAddress(b.lineBytes))
    requires missed == b.lines[r.LineAddress(b.lineBytes)].pending.value.original
    ensures HasEntry(b, r.LineAddress(b.lineBytes))
    ensures
      if r.operation in {InstructionFetch, ReadShared, PrefetchRead} && RoomToWait(b, r, missed)
      then AcceptRequest(b, r, qos).1 == Ok(Waiting(None))
      else AcceptRequest(b, r, qos).1.Err?
  {
    EntryIffInFlight(b, r.LineAddress(b.lineBytes));
    if Coalescible(r) {
      assert Joins(b, r) <==> !r.strictOrder && !missed.strictOrder by {
        JoinsIff(b, r);
      }
      LetInIff(b, r, qos, missed);
    } else {
      assert AcceptRequest(b, r, qos).1.Err? by {
        TurnedAwayInStep(b, r, qos);
      }
    }
  }

  lemma LetInIff(b: Bank, r: Request, qos: Option<Mshr.Qos>, missed: Request)
    requires Valid(b) && Plain(r, b.lineBytes) && r.agent == b.agent && Coalescible(r)
    requires QueueOk(b) && DistinctLines(b.queue.entries) && HasEntry(b, r.LineAddress(b.lineBytes))
    requires Joins(b, r) <==> !r.strictOrder && !missed.strictOrder
    ensures
      if RoomToWait(b, r, missed) then AcceptRequest(b, r, qos).1 == Ok(Waiting(None))
      else AcceptRequest(b, r, qos).1.Err?
  {
    var (q, merged) := Mshr.AllocateOrMerge(b.queue, r, 0, Mshr.Demand, true, qos);
    CoalescedShape(b, r, qos, q, merged);
    MergesIff(b, r, qos, missed, merged);
  }

  /** A request for a line that is absent, or shared when it must be owned, is sent for exactly when an
  entry is free and, for an absent line, the line has a range to ask for. */
  lemma FetchesIff(b: Bank, r: Request, qos: Option<Mshr.Qos>)
    requires Inv(b) && Valid(b) && Plain(r, b.lineBytes) && r.agent == b.agent
    requires
      var line := r.LineAddress(b.lineBytes);
      line !in b.lines || (b.lines[line].state.Shared? && r.operation in {ReadUnique, LockedRmwRead, Write})
    ensures
      var line := r.LineAddress(b.lineBytes);
      if |b.queue.entries| < b.queue.config.entries && (line in b.lines || line + b.lineBytes <= U64_MAX)
      then AcceptRequest(b, r, qos).1.Ok? && AcceptRequest(b, r, qos).1.value.Waiting?
        && AcceptRequest(b, r, qos).1.value.downstream.Some?
      else AcceptRequest(b, r, qos).1.Err?
  {
    assert !HasEntry(b, r.LineAddress(b.lineBytes)) by {
      IdleLine(b, r.LineAddress(b.lineBytes));
    }
    FetchHandling(b, r);
    match Handles(b, r)
    case NoEntry => RefusedInStep(b, r, qos);
    case Overflow => OverflowBreaks(b, r, qos);
    case Sent => SentIsWaiting(b, r, qos);
  }

  lemma IdleLine(b: Bank, line: nat)
    requires Inv(b) && (line !in b.lines || b.lines[line].state.Shared?)
    ensures !HasEntry(b, line)
  {
    EntryIffInFlight(b, line);
    if line in b.lines {
      assert LineOk(b, line);
    }
  }

  lemma FetchHandling(b: Bank, r: Request)
    requires Valid(b) && Plain(r, b.lineBytes) && r.agent == b.agent && !HasEntry(b, r.LineAddress(b.lineBytes))
    requires
      var line := r.LineAddress(b.lineBytes);
      line !in b.lines || (b.lines[line].state.Shared? && r.operation in {ReadUnique, LockedRmwRead, Write})
    ensures
      var line := r.LineAddress(b.lineBytes);
      Handles(b, r) ==
        if |b.queue.entries| >= b.queue.config.entries then NoEntry
        else if line !in b.lines && line + b.lineBytes > U64_MAX then Overflow
        else Sent
  {
  }

  lemma SentIsWaiting(b: Bank, r: Request, qos: Option<Mshr.Qos>)
    requires Inv(b) && Valid(b) && Plain(r, b.lineBytes) && Handles(b, r).Sent?
    ensures
      var result := AcceptRequest(b, r, qos).1;
      result.Ok? && result.value.Waiting? && result.value.downstream.Some?
  {
    var _, _, _ := SentShape(b, r, qos);
  }

  // ----- fills

  /** The entry a pending fill completes is the one its handle finds, unless handles saturated. */
  lemma HandleFindsEntry(b: Bank, i: nat)
    requires QueueOk(b) && b.queue.nextHandle < U64_MAX && i < |b.queue.entries|
    ensures Mshr.Find(b.queue.entries, b.queue.entries[i].handle) == i
  {
    var entries := b.queue.entries;
    forall k | 0 <= k < |entries|
      ensures entries[k].handle != U64_MAX
    {
      assert Mshr.EntryOk(b.queue, entries[k]);
    }
  }

  /** Bank `b'` is `b` with the miss on `line` resolved. */
  predicate RemovesMiss(b: Bank, b': Bank, line: nat, i: nat) {
    && InFlight(b, line) && i < |b.queue.entries| && b.queue.entries[i].line == line
    && line in b'.lines && b'.lines[line].pending.None?
    && b'.lines == b.lines[line := b'.lines[line]]
    && b'.nextSequence == b.nextSequence
    && b'.queue.entries == b.queue.entries[..i] + b.queue.entries[i + 1..]
    && b'.pendingFills == b.pendingFills - {b.lines[line].pending.value.downstream}
  }

  lemma OtherEntryLinked(b: Bank, b': Bank, line: nat, i: nat, e: Mshr.Entry)
    requires RemovesMiss(b, b', line, i) && EntryLinked(b, e) && EntryLinked(b, b.queue.entries[i]) && e.line != line
    ensures EntryLinked(b', e)
  {
  }

  /** Where an entry moves when entry `i` is taken out. */
  lemma EntryMoves(entries: seq<Mshr.Entry>, i: nat, k: nat)
    requires i < |entries| && k < |entries| && k != i && DistinctLines(entries)
    ensures
      var rest := entries[..i] + entries[i + 1..];
      && DistinctLines(rest)
      && FindLine(rest, entries[k].line) < |rest| && rest[FindLine(rest, entries[k].line)] == entries[k]
  {
    var rest := entries[..i] + entries[i + 1..];
    var k' := if k < i then k else k - 1;
    assert rest[k'] == entries[k];
    RemoveKeepsDistinct(entries, i);
    FindLineIs(rest, k');
  }

  /** Where an entry was before entry `i` was taken out. */
  lemma EntryStays(entries: seq<Mshr.Entry>, i: nat, k: nat) returns (m: nat)
    requires i < |entries| && k < |entries| - 1 && DistinctLines(entries)
    ensures m < |entries| && (entries[..i] + entries[i + 1..])[k] == entries[m] && entries[m].line != entries[i].line
  {
    m := if k < i then k else k + 1;
  }

  lemma RemoveKeepsDistinct(entries: seq<Mshr.Entry>, i: nat)
    requires i < |entries| && DistinctLines(entries)
    ensures DistinctLines(entries[..i] + entries[i + 1..])
  {
    var rest := entries[..i] + entries[i + 1..];
    forall j, k | 0 <= j < k < |rest|
      ensures rest[j].line != rest[k].line
    {
      assert rest[j] == entries[if j < i then j else j + 1] && rest[k] == entries[if k < i then k else k + 1];
    }
  }

  lemma OtherFillLinked(b: Bank, b': Bank, line: nat, i: nat, s: nat)
    requires RemovesMiss(b, b', line, i) && DistinctLines(b.queue.entries)
    requires s in b'.pendingFills && FillLinked(b, s) && LineLinked(b, line)
    ensures FillLinked(b', s)
  {
    EntryMoves(b.queue.entries, i, FindLine(b.queue.entries, b.pendingFills[s].line));
  }

  lemma OtherLineLinked(b: Bank, b': Bank, line: nat, i: nat, k: nat)
    requires RemovesMiss(b, b', line, i) && k in b'.lines && LineLinked(b, line) && (k in b.lines ==> LineLinked(b, k))
    ensures LineLinked(b', k)
  {
  }

  lemma FillKeepsCorrespondence(b: Bank, b': Bank, line: nat, i: nat)
    requires Correspondence(b) && RemovesMiss(b, b', line, i)
    ensures Correspondence(b')
  {
    var entries := b.queue.entries;
    RemoveKeepsDistinct(entries, i);
    forall k | k in b'.lines
      ensures LineLinked(b', k)
    {
      OtherLineLinked(b, b', line, i, k);
    }
    forall k | 0 <= k < |b'.queue.entries|
      ensures EntryLinked(b', b'.queue.entries[k])
    {
      var m := EntryStays(entries, i, k);
      OtherEntryLinked(b, b', line, i, entries[m]);
    }
    forall s | s in b'.pendingFills
      ensures FillLinked(b', s)
    {
      OtherFillLinked(b, b', line, i, s);
    }
  }

  lemma CompletionKeepsQueueOk(b: Bank, handle: nat)
    requires b.lineBytes > 0 && QueueOk(b)
    ensures QueueOk(b.(queue := Mshr.CompleteEntry(b.queue, handle).0))
  {
    Mshr.CompleteKeepsInv(b.queue, handle);
    var q := Mshr.CompleteEntry(b.queue, handle).0;
    forall k | 0 <= k < |q.entries|
      ensures TargetsOk(b.lineBytes, q.entries[k])
    {
      assert q.entries[k] in b.queue.entries;
    }
  }

  function ExpectedReplies(targets: seq<Mshr.Target>, data: seq<Byte>, lineBytes: nat): (replies: seq<TargetOutcome>)
    requires |data| == lineBytes && PlainTargets(lineBytes, targets)
  {
    seq(|targets|, i requires 0 <= i < |targets| => Expected(data, targets[i].request, lineBytes))
  }

  lemma ReplyIsExpected(r: Request, data: seq<Byte>, lineBytes: nat)
    requires lineBytes > 0 && |data| == lineBytes && Plain(r, lineBytes)
    ensures TargetReply(r, Some(data), lineBytes) == Ok(Expected(data, r, lineBytes))
  {
  }

  lemma ExpectedUnfolds(targets: seq<Mshr.Target>, data: seq<Byte>, lineBytes: nat)
    requires |data| == lineBytes && PlainTargets(lineBytes, targets) && targets != []
    ensures PlainTargets(lineBytes, targets[1..])
    ensures ExpectedReplies(targets, data, lineBytes)
         == [Expected(data, targets[0].request, lineBytes)] + ExpectedReplies(targets[1..], data, lineBytes)
  {
  }

  lemma {:induction false} RepliesAreExpected(targets: seq<Mshr.Target>, data: seq<Byte>, lineBytes: nat)
    requires lineBytes > 0 && |data| == lineBytes && PlainTargets(lineBytes, targets)
    ensures TargetReplies(targets, Some(data), lineBytes) == Ok(ExpectedReplies(targets, data, lineBytes))
  {
    if targets != [] {
      ExpectedUnfolds(targets, data, lineBytes);
      ReplyIsExpected(targets[0].request, data, lineBytes);
      RepliesAreExpected(targets[1..], data, lineBytes);
    } else {
      assert ExpectedReplies(targets, data, lineBytes) == [];
    }
  }

  lemma FillKeepsQueueOk(b: Bank, b': Bank, handle: nat)
    requires b.lineBytes > 0 && QueueOk(b) && b'.lineBytes == b.lineBytes
    requires b'.queue == Mshr.CompleteEntry(b.queue, handle).0
    ensures QueueOk(b')
  {
    CompletionKeepsQueueOk(b, handle);
    QueueOkFrame(b.(queue := b'.queue), b');
  }

  lemma FillKeepsInv(b: Bank, b': Bank, line: nat, i: nat)
    requires Inv(b) && RemovesMiss(b, b', line, i) && LineOk(b', line)
    requires b'.agent == b.agent && b'.lineBytes == b.lineBytes
    requires b'.queue == Mshr.CompleteEntry(b.queue, b.queue.entries[i].handle).0
    ensures Inv(b')
  {
    assert QueueOk(b') by {
      FillKeepsQueueOk(b, b', b.queue.entries[i].handle);
    }
    assert Correspondence(b') by {
      FillKeepsCorrespondence(b, b', line, i);
    }
    assert LinesOk(b') by {
      LinesOkUpdate(b, b', line);
    }
  }

  /** What a fill of the line changes, around the line: one entry, one pending fill. */
  function Resolved(b: Bank, s: nat, line: nat, i: nat, c: Msi.Controller): (b': Bank)
    requires i < |b.queue.entries|
  {
    b.(lines := b.lines[line := c], pendingFills := b.pendingFills - {s},
       queue := b.queue.(entries := b.queue.entries[..i] + b.queue.entries[i + 1..]))
  }

  /** The pending fill's line waits for it, and its handle finds its line's entry. */
  lemma MatchedFill(b: Bank, response: Response)
    requires Inv(b) && b.queue.nextHandle < U64_MAX && Matches(b, response)
    ensures
      var f := b.pendingFills[response.sequence];
      var i := FindLine(b.queue.entries, f.line);
      && InFlight(b, f.line) && LineOk(b, f.line) && Awaits(b.lines[f.line], response)
      && b.lines[f.line].lineBytes == b.lineBytes
      && b.lines[f.line].pending.value.downstream == response.sequence
      && i < |b.queue.entries| && b.queue.entries[i].line == f.line && b.queue.entries[i].handle == f.handle
      && Mshr.Find(b.queue.entries, f.handle) == i
  {
    assert FillLinked(b, response.sequence);
    var f := b.pendingFills[response.sequence];
    assert LineOk(b, f.line);
    HandleFindsEntry(b, FindLine(b.queue.entries, f.line));
  }

  /** The answer to a fill that the line takes. */
  lemma FilledBank(b: Bank, response: Response, i: nat, c: Msi.Controller)
    requires Valid(b) && AllPlain(b) && FillsHaveLines(b) && Matches(b, response)
    requires
      var f := b.pendingFills[response.sequence];
      && i < |b.queue.entries| && Mshr.Find(b.queue.entries, f.handle) == i
      && Msi.AcceptFill(b.lines[f.line], response).1.Ok? && c == Msi.AcceptFill(b.lines[f.line], response).0
    ensures
      var f := b.pendingFills[response.sequence];
      && (c.data.Some? ==> |c.data.value| == b.lineBytes)
      && AcceptFill(b, response)
         == (Resolved(b, response.sequence, f.line, i, c),
             TargetReplies(b.queue.entries[i].targets, c.data, b.lineBytes))
  {
  }

  /** The answer to a fill that the line does not take. */
  lemma FailedBank(b: Bank, response: Response, c: Msi.Controller)
    requires Valid(b) && AllPlain(b) && FillsHaveLines(b) && Matches(b, response)
    requires
      var f := b.pendingFills[response.sequence];
      && Mshr.Find(b.queue.entries, f.handle) < |b.queue.entries|
      && Msi.AcceptFill(b.lines[f.line], response).1.Err? && c == Msi.AcceptFill(b.lines[f.line], response).0
    ensures
      var f := b.pendingFills[response.sequence];
      AcceptFill(b, response).0 == b.(lines := b.lines[f.line := c]) && AcceptFill(b, response).1.Err?
  {
  }

  /** The fill is one the bank can use: it leaves the line with data, and the request that missed
  wants an answer. */
  predicate Usable(b: Bank, response: Response)
    requires Matches(b, response) && FillsHaveLines(b)
  {
    var c := b.lines[b.pendingFills[response.sequence].line];
    Supplies(c, response) && c.pending.Some? && c.pending.value.original.responseRequired
  }

  lemma FilledLineOk(b: Bank, line: nat, response: Response, c: Msi.Controller)
    requires b.lineBytes > 0 && line in b.lines && LineOk(b, line) && Awaits(b.lines[line], response)
    requires Supplies(b.lines[line], response) && b.lines[line].pending.value.original.responseRequired
    requires c == Msi.AcceptFill(b.lines[line], response).0
    ensures Msi.AcceptFill(b.lines[line], response).1.Ok? && c.pending.None?
    ensures c.data
         == Some(Applied(FilledWith(b.lines[line], response), b.lines[line].pending.value.original, b.lineBytes))
    ensures LineOk(b.(lines := b.lines[line := c]), line)
  {
    FillServes(b.lines[line], response);
  }

  lemma ResolvedShape(b: Bank, s: nat, line: nat, i: nat, c: Msi.Controller)
    requires InFlight(b, line) && b.lines[line].pending.value.downstream == s
    requires i < |b.queue.entries| && b.queue.entries[i].line == line
    requires Mshr.Find(b.queue.entries, b.queue.entries[i].handle) == i
    requires c.pending.None? && LineOk(b.(lines := b.lines[line := c]), line)
    ensures
      var b' := Resolved(b, s, line, i, c);
      && RemovesMiss(b, b', line, i) && LineOk(b', line)
      && b'.queue == Mshr.CompleteEntry(b.queue, b.queue.entries[i].handle).0
  {
    LineOkFrame(b.(lines := b.lines[line := c]), Resolved(b, s, line, i, c), line);
  }

  /** The shape of a usable fill: which line, which entry, which answers. */
  lemma FillResult(b: Bank, response: Response) returns (c: Msi.Controller)
    requires Inv(b) && Valid(b) && AllPlain(b) && FillsHaveLines(b) && b.queue.nextHandle < U64_MAX
    requires Matches(b, response) && Usable(b, response)
    ensures
      var line := b.pendingFills[response.sequence].line;
      var i := FindLine(b.queue.entries, line);
      && InFlight(b, line) && i < |b.queue.entries|
      && Plain(b.lines[line].pending.value.original, b.lineBytes) && b.lines[line].lineBytes == b.lineBytes
      && c.pending.None?
      && c.data == Some(Applied(FilledWith(b.lines[line], response), b.lines[line].pending.value.original, b.lineBytes))
      && AcceptFill(b, response)
         == (Resolved(b, response.sequence, line, i, c), TargetReplies(b.queue.entries[i].targets, c.data, b.lineBytes))
      && b.queue.entries[i].line == line && Mshr.Find(b.queue.entries, b.queue.entries[i].handle) == i
      && b.lines[line].pending.value.downstream == response.sequence
      && LineOk(b.(lines := b.lines[line := c]), line)
  {
    var line := b.pendingFills[response.sequence].line;
    var i := FindLine(b.queue.entries, line);
    c := Msi.AcceptFill(b.lines[line], response).0;
    MatchedFill(b, response);
    FilledLineOk(b, line, response, c);
    FilledBank(b, response, i, c);
  }

  lemma UsableKeepsInv(b: Bank, response: Response)
    requires Inv(b) && Valid(b) && AllPlain(b) && FillsHaveLines(b) && b.queue.nextHandle < U64_MAX
    requires Matches(b, response) && Usable(b, response)
    ensures Inv(AcceptFill(b, response).0)
  {
    var line := b.pendingFills[response.sequence].line;
    var i := FindLine(b.queue.entries, line);
    var c := FillResult(b, response);
    ResolvedShape(b, response.sequence, line, i, c);
    FillKeepsInv(b, Resolved(b, response.sequence, line, i, c), line, i);
  }

  lemma FailureBreaks(b: Bank, s: nat, line: nat, c: Msi.Controller)
    requires s in b.pendingFills && b.pendingFills[s].line == line && c.pending.None?
    ensures !Inv(b.(lines := b.lines[line := c]))
  {
    assert !FillLinked(b.(lines := b.lines[line := c]), s);
  }

  lemma EmptyLineBreaks(b: Bank, line: nat)
    requires line in b.lines && b.lines[line].pending.None? && b.lines[line].data.None?
    ensures !Inv(b)
  {
    assert !LineOk(b, line);
  }

  /** A fill the bank cannot use leaves the line without its miss, and the entry and the pending fill
  behind, or the line without data. */
  lemma UnusableBreaks(b: Bank, response: Response)
    requires Inv(b) && Valid(b) && AllPlain(b) && FillsHaveLines(b) && b.queue.nextHandle < U64_MAX
    requires Matches(b, response) && !Usable(b, response)
    ensures !Inv(AcceptFill(b, response).0)
  {
    var line := b.pendingFills[response.sequence].line;
    MatchedFill(b, response);
    var c := Msi.AcceptFill(b.lines[line], response).0;
    FillFails(b.lines[line], response);
    if Msi.AcceptFill(b.lines[line], response).1.Err? {
      FailedBank(b, response, c);
      FailureBreaks(b, response.sequence, line, c);
    } else {
      FilledBank(b, response, FindLine(b.queue.entries, line), c);
      EmptyLineBreaks(AcceptFill(b, response).0, line);
    }
  }

  /** Exactly which responses keep the bank in step: those it does not know, and the usable fills. */
  lemma FillStepInv(b: Bank, response: Response)
    requires Inv(b) && Valid(b) && AllPlain(b) && FillsHaveLines(b) && b.queue.nextHandle < U64_MAX
    ensures Inv(AcceptFill(b, response).0) <==> (Matches(b, response) ==> Usable(b, response))
  {
    if Matches(b, response) {
      if Usable(b, response) {
        UsableKeepsInv(b, response);
      } else {
        UnusableBreaks(b, response);
      }
    }
  }

  // ----- flat memory

  ghost predicate Sized(memory: nat -> seq<Byte>, lineBytes: nat) {
    forall line: nat :: |memory(line)| == lineBytes
  }

  /** What the bank and the memory behind it hold for a line, with the write of a miss in flight
  already counted. */
  function Content(b: Bank, memory: nat -> seq<Byte>, line: nat): (content: seq<Byte>) {
    if line !in b.lines then memory(line)
    else
      var c := b.lines[line];
      var base := if c.data.Some? then c.data.value else memory(line);
      if c.pending.Some? && Plain(c.pending.value.original, b.lineBytes) && |base| == b.lineBytes
      then Applied(base, c.pending.value.original, b.lineBytes)
      else base
  }

  lemma ContentSized(b: Bank, memory: nat -> seq<Byte>, line: nat)
    requires LinesOk(b) && Sized(memory, b.lineBytes)
    ensures |Content(b, memory, line)| == b.lineBytes
  {
    if line in b.lines {
      assert LineOk(b, line);
    }
  }

  /** The response that memory sends for the miss with this downstream sequence number: the line
  for a read, nothing for an upgrade. */
  function MemoryResponse(b: Bank, memory: nat -> seq<Byte>, s: nat): (response: Response)
    requires s in b.pendingFills && b.pendingFills[s].line in b.lines
  {
    var line := b.pendingFills[s].line;
    Response(b.agent, s, Completed, if b.lines[line].data.Some? then None else Some(memory(line)))
  }

  /** The request that missed wants an answer. */
  predicate WantsAnswer(b: Bank, s: nat)
    requires s in b.pendingFills && FillsHaveLines(b)
  {
    var c := b.lines[b.pendingFills[s].line];
    c.pending.Some? && c.pending.value.original.responseRequired
  }

  lemma MemoryResponseUsable(b: Bank, memory: nat -> seq<Byte>, s: nat)
    requires Inv(b) && FillsHaveLines(b) && Sized(memory, b.lineBytes) && s in b.pendingFills
    ensures Matches(b, MemoryResponse(b, memory, s))
    ensures Supplies(b.lines[b.pendingFills[s].line], MemoryResponse(b, memory, s))
    ensures Usable(b, MemoryResponse(b, memory, s)) <==> WantsAnswer(b, s)
  {
    assert FillLinked(b, s);
    assert LineOk(b, b.pendingFills[s].line);
  }

  lemma FillKeepsContent(b: Bank, b': Bank, memory: nat -> seq<Byte>, line: nat)
    requires line in b'.lines && b'.lines == b.lines[line := b'.lines[line]] && b'.lineBytes == b.lineBytes
    requires b'.lines[line].pending.None? && b'.lines[line].data == Some(Content(b, memory, line))
    ensures forall k: nat :: Content(b', memory, k) == Content(b, memory, k)
  {
  }

  /** What follows once the line holds its content and no miss. */
  lemma ResolvedAnswers(b: Bank, memory: nat -> seq<Byte>, s: nat, line: nat, i: nat, c: Msi.Controller)
    requires b.lineBytes > 0 && |Content(b, memory, line)| == b.lineBytes
    requires c.pending.None? && c.data == Some(Content(b, memory, line))
    requires i < |b.queue.entries| && PlainTargets(b.lineBytes, b.queue.entries[i].targets)
    ensures TargetReplies(b.queue.entries[i].targets, c.data, b.lineBytes)
         == Ok(ExpectedReplies(b.queue.entries[i].targets, Content(b, memory, line), b.lineBytes))
    ensures forall k: nat :: Content(Resolved(b, s, line, i, c), memory, k) == Content(b, memory, k)
  {
    RepliesAreExpected(b.queue.entries[i].targets, Content(b, memory, line), b.lineBytes);
    FillKeepsContent(b, Resolved(b, s, line, i, c), memory, line);
  }

  /** The data the fill leaves is the line's content. */
  lemma FilledIsContent(b: Bank, memory: nat -> seq<Byte>, s: nat, line: nat)
    requires s in b.pendingFills && b.pendingFills[s].line == line && InFlight(b, line) && Sized(memory, b.lineBytes)
    requires Plain(b.lines[line].pending.value.original, b.lineBytes) && b.lines[line].lineBytes == b.lineBytes
    requires LineOk(b, line) && Supplies(b.lines[line], MemoryResponse(b, memory, s))
    ensures Content(b, memory, line)
         == Applied(FilledWith(b.lines[line], MemoryResponse(b, memory, s)),
                    b.lines[line].pending.value.original, b.lineBytes)
  {
  }

  lemma FillLands(b: Bank, memory: nat -> seq<Byte>, s: nat, response: Response) returns (c: Msi.Controller)
    requires Inv(b) && Valid(b) && AllPlain(b) && FillsHaveLines(b) && Sized(memory, b.lineBytes)
    requires b.queue.nextHandle < U64_MAX && s in b.pendingFills && WantsAnswer(b, s)
    requires response == MemoryResponse(b, memory, s)
    ensures
      var line := b.pendingFills[s].line;
      var i := FindLine(b.queue.entries, line);
      && i < |b.queue.entries| && PlainTargets(b.lineBytes, b.queue.entries[i].targets)
      && |Content(b, memory, line)| == b.lineBytes && c.pending.None? && c.data == Some(Content(b, memory, line))
      && AcceptFill(b, response)
         == (Resolved(b, s, line, i, c), TargetReplies(b.queue.entries[i].targets, c.data, b.lineBytes))
  {
    MemoryResponseUsable(b, memory, s);
    c := FillResult(b, response);
    assert LineOk(b, b.pendingFills[s].line);
    FilledIsContent(b, memory, s, b.pendingFills[s].line);
  }

  /** Memory's fill answers the line's waiting requests in arrival order, each as flat memory would,
  and changes no line's content. */
  lemma FillStep(b: Bank, memory: nat -> seq<Byte>, s: nat)
    requires Inv(b) && Valid(b) && AllPlain(b) && FillsHaveLines(b) && Sized(memory, b.lineBytes)
    requires b.queue.nextHandle < U64_MAX && s in b.pendingFills && WantsAnswer(b, s)
    ensures
      var line := b.pendingFills[s].line;
      var i := FindLine(b.queue.entries, line);
      var (b', replies) := AcceptFill(b, MemoryResponse(b, memory, s));
      && b'.lineBytes == b.lineBytes && b'.agent == b.agent
      && i < |b.queue.entries| && b'.queue == b.queue.(entries := b.queue.entries[..i] + b.queue.entries[i + 1..])
      && |Content(b, memory, line)| == b.lineBytes && PlainTargets(b.lineBytes, b.queue.entries[i].targets)
      && replies == Ok(ExpectedReplies(b.queue.entries[i].targets, Content(b, memory, line), b.lineBytes))
      && (forall k: nat :: Content(b', memory, k) == Content(b, memory, k))
  {
    var line := b.pendingFills[s].line;
    var c := FillLands(b, memory, s, MemoryResponse(b, memory, s));
    ResolvedAnswers(b, memory, s, line, FindLine(b.queue.entries, line), c);
  }

  /** A line without a miss has no use for a fill. */
  lemma FillRefused(b: Bank, response: Response)
    requires Valid(b) && AllPlain(b) && FillsHaveLines(b) && Matches(b, response)
    requires
      var f := b.pendingFills[response.sequence];
      b.lines[f.line].pending.None? && Mshr.Find(b.queue.entries, f.handle) < |b.queue.entries|
    ensures AcceptFill(b, response) == (b, Err(Controller(Msi.NoPendingMiss)))
  {
    var f := b.pendingFills[response.sequence];
    assert b.lines[f.line := b.lines[f.line]] == b.lines;
  }

  lemma UpdateKeepsScope(b: Bank, line: nat, c: Msi.Controller)
    requires AllPlain(b) && FillsHaveLines(b)
    ensures AllPlain(b.(lines := b.lines[line := c])) && FillsHaveLines(b.(lines := b.lines[line := c]))
  {
  }

  /** A prefetch that asks for no answer, as the request that misses: memory's fill is refused after
  the line has taken it, the entry stays behind, and sending a fill again does not help. */
  lemma SilentMissBreaks(b: Bank, memory: nat -> seq<Byte>, s: nat, b': Bank, again: Response)
    requires Inv(b) && Valid(b) && AllPlain(b) && FillsHaveLines(b) && Sized(memory, b.lineBytes)
    requires b.queue.nextHandle < U64_MAX && s in b.pendingFills && !WantsAnswer(b, s)
    requires b' == AcceptFill(b, MemoryResponse(b, memory, s)).0 && again.agent == b.agent && again.sequence == s
    ensures AcceptFill(b, MemoryResponse(b, memory, s)).1 == Err(Controller(Msi.MemoryFailure(ResponseNotExpected)))
    ensures !Inv(b') && b'.queue == b.queue && b'.pendingFills == b.pendingFills
    ensures AllPlain(b') && FillsHaveLines(b') && AcceptFill(b', again) == (b', Err(Controller(Msi.NoPendingMiss)))
  {
    var line := b.pendingFills[s].line;
    var response := MemoryResponse(b, memory, s);
    MemoryResponseUsable(b, memory, s);
    UnusableBreaks(b, response);
    SilentFillRefused(b, response, Msi.AcceptFill(b.lines[line], response).0);
    UpdateKeepsScope(b, line, Msi.AcceptFill(b.lines[line], response).0);
    FillRefused(b', again);
  }

  lemma SilentFillRefused(b: Bank, response: Response, c: Msi.Controller)
    requires Inv(b) && Valid(b) && AllPlain(b) && FillsHaveLines(b) && b.queue.nextHandle < U64_MAX
    requires Matches(b, response) && !WantsAnswer(b, response.sequence)
    requires Supplies(b.lines[b.pendingFills[response.sequence].line], response)
    requires c == Msi.AcceptFill(b.lines[b.pendingFills[response.sequence].line], response).0
    ensures
      var f := b.pendingFills[response.sequence];
      && Mshr.Find(b.queue.entries, f.handle) < |b.queue.entries| && c.pending.None?
      && AcceptFill(b, response)
         == (b.(lines := b.lines[f.line := c]), Err(Controller(Msi.MemoryFailure(ResponseNotExpected))))
  {
    var f := b.pendingFills[response.sequence];
    MatchedFill(b, response);
    SilentFill(b.lines[f.line], response);
  }

  /** A read prefetch of an empty bank, followed by memory's fill. */
  lemma PrefetchMiss(
    agent: nat, config: Mshr.Config, memory: nat -> seq<Byte>, r: Request, qos: Option<Mshr.Qos>, b: Bank)
    requires Mshr.ValidConfig(config) && config.lineBytes == 64 && Sized(memory, 64)
    requires r == Request(agent, 0, PrefetchRead, 0, 8, None, None, None, None, None, None, false, false, false)
    requires b == AcceptRequest(New(agent, config), r, qos).0
    ensures Inv(b) && Valid(b) && AllPlain(b) && FillsHaveLines(b) && 0 in b.pendingFills && !WantsAnswer(b, 0)
    ensures !Inv(AcceptFill(b, MemoryResponse(b, memory, 0)).0)
  {
    var empty := New(agent, config);
    NewInv(agent, config);
    var c, q, _ := SentShape(empty, r, qos);
    InvIsValid(b);
    assert b.lines[0] == c;
    MemoryResponseUsable(b, memory, 0);
    NewEntryKeepsQueueOk(empty, r, qos);
    UnusableBreaks(b, MemoryResponse(b, memory, 0));
  }

  lemma ContentUpdate(b: Bank, b': Bank, memory: nat -> seq<Byte>, line: nat)
    requires b'.lineBytes == b.lineBytes && line in b'.lines && b'.lines == b.lines[line := b'.lines[line]]
    ensures forall k: nat :: k != line ==> Content(b', memory, k) == Content(b, memory, k)
  {
  }

  /** A request that is answered at once: by flat memory's answer, with flat memory's effect. */
  lemma HitStep(b: Bank, r: Request, qos: Option<Mshr.Qos>, memory: nat -> seq<Byte>)
    requires Inv(b) && Valid(b) && Plain(r, b.lineBytes) && Handles(b, r).Served?
    ensures
      var line := r.LineAddress(b.lineBytes);
      var (b', result) := AcceptRequest(b, r, qos);
      && b'.lineBytes == b.lineBytes && b'.queue == b.queue && !HasEntry(b, line)
      && |Content(b, memory, line)| == b.lineBytes
      && Content(b', memory, line) == Applied(Content(b, memory, line), r, b.lineBytes)
      && (forall k: nat :: k != line ==> Content(b', memory, k) == Content(b, memory, k))
      && result.Ok? && result.value.Answered?
      && Respond(result.value.response) == Expected(Content(b', memory, line), r, b.lineBytes)
  {
    var line := r.LineAddress(b.lineBytes);
    var c := ServedShape(b, r, qos);
    ContentUpdate(b, b.(lines := b.lines[line := c]), memory, line);
  }

  /** A request that misses: its effect counts from now on, its answer comes with the fill. */
  lemma MissStep(b: Bank, r: Request, qos: Option<Mshr.Qos>, memory: nat -> seq<Byte>)
    requires Inv(b) && Valid(b) && Plain(r, b.lineBytes) && Handles(b, r).Sent? && Sized(memory, b.lineBytes)
    ensures
      var line := r.LineAddress(b.lineBytes);
      var (b', result) := AcceptRequest(b, r, qos);
      && b'.lineBytes == b.lineBytes && !HasEntry(b, line)
        && b'.queue.entries == b.queue.entries + [NewEntry(b, r, qos)]
      && |Content(b, memory, line)| == b.lineBytes
      && Content(b', memory, line) == Applied(Content(b, memory, line), r, b.lineBytes)
      && (forall k: nat :: k != line ==> Content(b', memory, k) == Content(b, memory, k))
      && result.Ok? && result.value.Waiting? && result.value.downstream.Some?
  {
    var line := r.LineAddress(b.lineBytes);
    var c, q, _ := SentShape(b, r, qos);
    ContentSized(b, memory, line);
    MissContent(b, memory, r, line, c, q, NewEntry(b, r, qos).handle);
  }

  lemma MissContent(
    b: Bank, memory: nat -> seq<Byte>, r: Request, line: nat, c: Msi.Controller, q: Mshr.Queue, handle: nat)
    requires Plain(r, b.lineBytes) && !InFlight(b, line) && |Content(b, memory, line)| == b.lineBytes
    requires c.pending.Some? && c.pending.value.original == r
    requires c.data == (if line in b.lines then b.lines[line].data else None)
    ensures
      var b' := WithMiss(b, line, c, q, handle);
      && Content(b', memory, line) == Applied(Content(b, memory, line), r, b.lineBytes)
      && forall k: nat :: k != line ==> Content(b', memory, k) == Content(b, memory, k)
  {
    ContentUpdate(b, WithMiss(b, line, c, q, handle), memory, line);
  }

  // ----- the bank as it is updated in place

  /** The scan of `find_entry` for a line. */
  method EntryFor(entries: seq<Mshr.Entry>, line: nat) returns (i: nat)
    ensures i == FindLine(entries, line)
  {
    i := 0;
    while i < |entries| && entries[i].line != line
      invariant i <= |entries|
      invariant forall k :: 0 <= k < i ==> entries[k].line != line
    {
      i := i + 1;
    }
  }

  /** Answers a completion's targets one by one, stopping at the first failure. */
  method Replies(targets: seq<Mshr.Target>, data: Option<seq<Byte>>, lineBytes: nat)
    returns (replies: Result<seq<TargetOutcome>, BankError>)
    requires lineBytes > 0 && (data.Some? ==> |data.value| == lineBytes) && PlainTargets(lineBytes, targets)
    ensures replies == TargetReplies(targets, data, lineBytes)
  {
    var done: seq<TargetOutcome>, i := [], 0;
    assert targets[0..] == targets;
    PrependNone(TargetReplies(targets, data, lineBytes));
    while i < |targets|
      invariant i <= |targets|
      invariant PlainTargets(lineBytes, targets[i..])
      invariant TargetReplies(targets, data, lineBytes) == Prepend(done, TargetReplies(targets[i..], data, lineBytes))
    {
      assert targets[i..][0] == targets[i] && targets[i..][1..] == targets[i + 1..];
      var reply := TargetReply(targets[i].request, data, lineBytes);
      if reply.Err? {
        return Err(Controller(reply.error));
      }
      PrependOne(done, reply.value, TargetReplies(targets[i + 1..], data, lineBytes));
      done := done + [reply.value];
      i := i + 1;
    }
    assert targets[i..] == [] && done + [] == done;
    return Ok(done);
  }

  lemma PrependNone(rest: Result<seq<TargetOutcome>, BankError>)
    ensures Prepend([], rest) == rest
  {
    if rest.Ok? {
      assert [] + rest.value == rest.value;
    }
  }

  lemma PrependOne(done: seq<TargetOutcome>, reply: TargetOutcome, rest: Result<seq<TargetOutcome>, BankError>)
    ensures Prepend(done + [reply], rest) == Prepend(done, if rest.Ok? then Ok([reply] + rest.value) else rest)
  {
    if rest.Ok? {
      assert (done + [reply]) + rest.value == done + ([reply] + rest.value);
    }
  }

  function Prepend(done: seq<TargetOutcome>, rest: Result<seq<TargetOutcome>, BankError>)
    : (all: Result<seq<TargetOutcome>, BankError>)
  {
    if rest.Ok? then Ok(done + rest.value) else rest
  }

  class MsiCacheBank {
    const agent: nat
    const lineBytes: nat
    var nextSequence: nat
    var lines: map<nat, Msi.Controller>
    var pendingFills: map<nat, PendingFill>
    var queue: Mshr.Queue

    function State(): (b: Bank)
      reads this
    {
      Bank(agent, lineBytes, nextSequence, lines, pendingFills, queue)
    }

    constructor (agent: nat, config: Mshr.Config)
      requires Mshr.ValidConfig(config)
      ensures State() == New(agent, config) && Inv(State())
    {
      this.agent := agent;
      lineBytes := config.lineBytes;
      nextSequence := 0;
      lines, pendingFills := map[], map[];
      queue := Mshr.New(config);
      new;
      NewInv(agent, config);
    }

    /** The part of `accept_cpu_request` after the line's controller has spoken. */
    method Record(
      r: Request, qos: Option<Mshr.Qos>, c: Msi.Controller, verdict: Result<Msi.Outcome, Msi.ControllerError>)
      returns (result: Result<Outcome, BankError>)
      requires Valid(State()) && Plain(r, lineBytes) && Msi.Valid(c) && c.lineBytes == lineBytes
      modifies this
      ensures (State(), result) == Conclude(old(State()), r, qos, c, verdict)
    {
      var line := r.LineAddress(lineBytes);
      lines := lines[line := c];
      if verdict.Err? {
        return Err(Controller(verdict.error));
      }
      nextSequence := c.nextSequence;
      if !verdict.value.Miss? {
        return Ok(Answered(verdict.value.response));
      }
      var (q, entered) := Mshr.AllocateOrMerge(queue, r, 0, Mshr.Demand, true, qos);
      queue := q;
      if entered.Err? {
        return Err(QueueFailure(entered.error));
      }
      pendingFills := pendingFills[verdict.value.downstream.sequence := PendingFill(line, entered.value)];
      return Ok(Waiting(Some(verdict.value.downstream)));
    }

    method AcceptCpuRequest(r: Request, qos: Option<Mshr.Qos>) returns (result: Result<Outcome, BankError>)
      requires Valid(State()) && Plain(r, lineBytes)
      modifies this
      ensures (State(), result) == AcceptRequest(old(State()), r, qos)
      ensures old(Inv(State())) ==> (Inv(State()) <==> !old(Derails(State(), r)))
    {
      if Inv(State()) {
        RequestStepInv(State(), r, qos);
      }
      if r.agent != agent {
        return Err(WrongAgent);
      }
      var line := r.LineAddress(lineBytes);
      var i := EntryFor(queue.entries, line);
      if Coalescible(r) && i < |queue.entries| {
        var (q, merged) := Mshr.AllocateOrMerge(queue, r, 0, Mshr.Demand, true, qos);
        queue := q;
        return if merged.Ok? then Ok(Waiting(None)) else Err(QueueFailure(merged.error));
      }
      var full := Mshr.CanAllocate(queue, Mshr.Demand);
      if NeedsEntry(State(), line, r) && full.Some? {
        return Err(QueueFailure(full.value));
      }
      var (c, verdict) := Msi.AcceptCpuRequest(ControllerFor(State(), line), r);
      result := Record(r, qos, c, verdict);
    }

    method AcceptFillResponse(response: Response) returns (result: Result<seq<TargetOutcome>, BankError>)
      requires Valid(State()) && AllPlain(State()) && FillsHaveLines(State())
      modifies this
      ensures (State(), result) == AcceptFill(old(State()), response)
      ensures old(Inv(State())) && old(queue.nextHandle) < U64_MAX ==>
        (Inv(State()) <==> old(Matches(State(), response) ==> Usable(State(), response)))
    {
      if Inv(State()) && queue.nextHandle < U64_MAX {
        FillStepInv(State(), response);
      }
      if response.agent != agent || response.sequence !in pendingFills {
        return Err(UnknownPendingFill);
      }
      var f := pendingFills[response.sequence];
      if Mshr.Find(queue.entries, f.handle) == |queue.entries| {
        return Err(QueueFailure(Mshr.UnknownEntry));
      }
      var (c, outcome) := Msi.AcceptFill(lines[f.line], response);
      lines := lines[f.line := c];
      if outcome.Err? {
        return Err(Controller(outcome.error));
      }
      pendingFills := pendingFills - {response.sequence};
      var (q, done) := Mshr.CompleteEntry(queue, f.handle);
      queue := q;
      result := Replies(done.value.targets, c.data, lineBytes);
    }
  }
}
