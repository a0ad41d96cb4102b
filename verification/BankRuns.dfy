/** Whole runs of the cache bank against flat memory: every accepted request is answered exactly
once, line by line in the order of acceptance, with the answer flat memory gave when it was
accepted. */
module BankRuns {
  import opened Common
  import opened Memory
  import Backing
  import Msi
  import Mshr
  import opened Bank

  type Flat = nat -> seq<Byte>

  datatype Answer = Answer(request: Request, reply: TargetOutcome)

  /** Requests arrive, and memory answers misses in any order it likes. */
  datatype Step = Ask(request: Request, qos: Option<Mshr.Qos>) | Fill(sequence: nat)

  /** Answers per line, in order. */
  type Logs = map<nat, seq<Answer>>

  /** The bank; flat memory after the accepted requests, in acceptance order, over the initial
  memory; flat memory's answers to them; the answers the bank has given; the requests it has sent
  downstream; and the sequence numbers of those that memory has answered. */
  datatype World = World(
    bank: Bank,
    flat: map<nat, seq<Byte>>,
    accepted: Logs,
    delivered: Logs,
    sent: seq<Request>,
    filled: set<nat>)

  function Log(logs: Logs, line: nat): (answers: seq<Answer>) {
    if line in logs then logs[line] else []
  }

  function Logged(logs: Logs, line: nat, answers: seq<Answer>): (logs': Logs) {
    logs[line := Log(logs, line) + answers]
  }

  function FlatLine(flat: map<nat, seq<Byte>>, memory: Flat, line: nat): (content: seq<Byte>) {
    if line in flat then flat[line] else memory(line)
  }

  ghost predicate FlatOk(flat: map<nat, seq<Byte>>, memory: Flat, lineBytes: nat) {
    forall line: nat :: |FlatLine(flat, memory, line)| == lineBytes
  }

  /** Flat memory takes the request: its line changes, and the answer is read off. */
  function FlatAccept(flat: map<nat, seq<Byte>>, memory: Flat, r: Request, lineBytes: nat)
    : (out: (map<nat, seq<Byte>>, Answer))
    requires Plain(r, lineBytes) && |FlatLine(flat, memory, r.LineAddress(lineBytes))| == lineBytes
  {
    var line := r.LineAddress(lineBytes);
    var content := Applied(FlatLine(flat, memory, line), r, lineBytes);
    (flat[line := content], Answer(r, Expected(content, r, lineBytes)))
  }

  predicate StepOk(lineBytes: nat, step: Step) {
    step.Ask? ==> Plain(step.request, lineBytes)
  }

  /** A request that a line sends downstream. */
  predicate Sendable(d: Request) {
    d.WellFormed() && (d.operation.ReadShared? || d.operation.ReadUnique? || d.operation.Upgrade?)
  }

  predicate AllSendable(sent: seq<Request>) {
    forall i :: 0 <= i < |sent| ==> Sendable(sent[i])
  }

  /** What a step can start from, in step or not. */
  ghost predicate Scope(w: World, memory: Flat) {
    && Valid(w.bank) && AllPlain(w.bank) && FillsHaveLines(w.bank)
    && FlatOk(w.flat, memory, w.bank.lineBytes)
    && AllSendable(w.sent) && Sized(memory, w.bank.lineBytes)
  }

  /** The place of the request with this sequence number in the log, or the log's length. */
  function SentAt(sent: seq<Request>, s: nat): (i: nat)
    ensures i <= |sent|
    ensures i < |sent| ==> sent[i].sequence == s
    ensures forall k :: 0 <= k < i ==> sent[k].sequence != s
  {
    if sent == [] then 0 else if sent[0].sequence == s then 0 else 1 + SentAt(sent[1..], s)
  }

  /** What the initial memory, as a backing store of the line, answers to a request sent to it. */
  function MemoryAnswer(memory: Flat, lineBytes: nat, d: Request): (response: Response)
    requires lineBytes > 0 && Sendable(d) && |memory(d.LineAddress(lineBytes))| == lineBytes
  {
    var line := d.LineAddress(lineBytes);
    match Backing.Respond(Backing.Store(lineBytes, line, memory(line), map[]), d).1
    case Ok(response) => response
    case Err(_) => Response(d.agent, d.sequence, Retry, None)
  }

  function Zip(targets: seq<Mshr.Target>, replies: seq<TargetOutcome>): (answers: seq<Answer>)
    requires |targets| == |replies|
  {
    seq(|targets|, i requires 0 <= i < |targets| => Answer(targets[i].request, replies[i]))
  }

  /** The log with the request that an answer sends downstream, if it does. */
  function SentBy(sent: seq<Request>, result: Result<Outcome, BankError>): (sent': seq<Request>) {
    if result.Ok? && result.value.Waiting? && result.value.downstream.Some?
    then sent + [result.value.downstream.value]
    else sent
  }

  ghost function Asked(w: World, memory: Flat, r: Request, b': Bank, result: Result<Outcome, BankError>): (w': World)
    requires Scope(w, memory) && Plain(r, w.bank.lineBytes)
  {
    if result.Err? then w.(bank := b')
    else
      var line := r.LineAddress(w.bank.lineBytes);
      var (flat', answer) := FlatAccept(w.flat, memory, r, w.bank.lineBytes);
      World(b', flat', Logged(w.accepted, line, [answer]),
            if result.value.Waiting? then w.delivered
            else Logged(w.delivered, line, [Answer(r, Respond(result.value.response))]),
            SentBy(w.sent, result), w.filled)
  }

  /** The answers of a completion, when all its targets are answered. */
  function Completion(b: Bank, f: PendingFill, replies: Result<seq<TargetOutcome>, BankError>): (answers: seq<Answer>) {
    var done := Mshr.CompleteEntry(b.queue, f.handle).1;
    if replies.Ok? && done.Some? && |replies.value| == |done.value.targets|
    then Zip(done.value.targets, replies.value)
    else []
  }

  /** Memory has answered the request with this sequence number. */
  ghost function Filled(w: World, s: nat, response: Response): (w': World)
    requires Valid(w.bank) && AllPlain(w.bank) && FillsHaveLines(w.bank)
    ensures w'.bank == AcceptFill(w.bank, response).0
    ensures w'.sent == w.sent && w'.filled == w.filled + {s} && w'.flat == w.flat && w'.accepted == w.accepted
  {
    var (b', replies) := AcceptFill(w.bank, response);
    w.(bank := b', filled := w.filled + {s},
       delivered := if s !in w.bank.pendingFills then w.delivered
                    else Logged(w.delivered, w.bank.pendingFills[s].line,
                                Completion(w.bank, w.bank.pendingFills[s], replies)))
  }

  ghost function Advance(w: World, memory: Flat, step: Step): (w': World)
    requires Scope(w, memory) && StepOk(w.bank.lineBytes, step)
  {
    match step
    case Ask(r, qos) =>
      var (b', result) := AcceptRequest(w.bank, r, qos);
      Asked(w, memory, r, b', result)
    case Fill(s) =>
      var i := SentAt(w.sent, s);
      if i == |w.sent| || s in w.filled then w
      else Filled(w, s, MemoryAnswer(memory, w.bank.lineBytes, w.sent[i]))
  }

  // ----- every step can be followed by another

  predicate AllWaiting(q: Mshr.Queue, p: Request -> bool) {
    forall i, j :: 0 <= i < |q.entries| && 0 <= j < |q.entries[i].targets| ==> p(q.entries[i].targets[j].request)
  }

  lemma AllocateKeepsWaiting(q: Mshr.Queue, r: Request, qos: Option<Mshr.Qos>, q': Mshr.Queue, p: Request -> bool)
    requires Mshr.ValidConfig(q.config) && AllWaiting(q, p) && p(r)
    requires q' == Mshr.AllocateOrMerge(q, r, 0, Mshr.Demand, true, qos).0
    ensures AllWaiting(q', p) && q'.nextHandle <= q.nextHandle + 1
  {
  }

  lemma CompleteKeepsWaiting(q: Mshr.Queue, handle: nat, q': Mshr.Queue, p: Request -> bool)
    requires AllWaiting(q, p) && q' == Mshr.CompleteEntry(q, handle).0
    ensures AllWaiting(q', p) && q'.nextHandle == q.nextHandle
  {
    forall i, j | 0 <= i < |q'.entries| && 0 <= j < |q'.entries[i].targets|
      ensures p(q'.entries[i].targets[j].request)
    {
      assert q'.entries[i] in q.entries;
    }
  }

  lemma ConcludeKeepsScope(
    b: Bank, r: Request, qos: Option<Mshr.Qos>, c: Msi.Controller, verdict: Result<Msi.Outcome, Msi.ControllerError>,
    b': Bank, p: Request -> bool)
    requires Valid(b) && Plain(r, b.lineBytes) && FillsHaveLines(b) && AllWaiting(b.queue, p) && p(r)
    requires Msi.Valid(c) && c.lineBytes == b.lineBytes && b' == Conclude(b, r, qos, c, verdict).0
    ensures FillsHaveLines(b') && AllWaiting(b'.queue, p)
    ensures b'.lineBytes == b.lineBytes && b'.agent == b.agent && b'.queue.nextHandle <= b.queue.nextHandle + 1
  {
    var q := Mshr.AllocateOrMerge(b.queue, r, 0, Mshr.Demand, true, qos).0;
    AllocateKeepsWaiting(b.queue, r, qos, q, p);
    assert b'.queue == b.queue || b'.queue == q;
  }

  /** What a request leaves the bank fit for. */
  lemma RequestKeepsScope(b: Bank, r: Request, qos: Option<Mshr.Qos>, b': Bank, p: Request -> bool)
    requires Valid(b) && Plain(r, b.lineBytes) && FillsHaveLines(b) && AllWaiting(b.queue, p) && p(r)
    requires b' == AcceptRequest(b, r, qos).0
    ensures FillsHaveLines(b') && AllWaiting(b'.queue, p)
    ensures b'.lineBytes == b.lineBytes && b'.agent == b.agent && b'.queue.nextHandle <= b.queue.nextHandle + 1
  {
    var line := r.LineAddress(b.lineBytes);
    if r.agent == b.agent && Coalescible(r) && HasEntry(b, line) {
      var (q, merged) := Mshr.AllocateOrMerge(b.queue, r, 0, Mshr.Demand, true, qos);
      AllocateKeepsWaiting(b.queue, r, qos, q, p);
      CoalescedShape(b, r, qos, q, merged);
    } else if r.agent == b.agent && !(NeedsEntry(b, line, r) && Mshr.CanAllocate(b.queue, Mshr.Demand).Some?) {
      var (c, verdict) := Msi.AcceptCpuRequest(ControllerFor(b, line), r);
      ConcludeKeepsScope(b, r, qos, c, verdict, b', p);
    }
  }

  /** Whatever state the bank is in, what it sends can be sent. */
  lemma SendsSendable(b: Bank, r: Request, qos: Option<Mshr.Qos>, result: Result<Outcome, BankError>)
    requires Valid(b) && Plain(r, b.lineBytes) && result == AcceptRequest(b, r, qos).1
    requires result.Ok? && result.value.Waiting? && result.value.downstream.Some?
    ensures Sendable(result.value.downstream.value)
  {
    var c := ControllerFor(b, r.LineAddress(b.lineBytes));
    if Msi.Misses(c, r) {
      Msi.AskMisses(c, r);
    } else {
      Msi.AskStays(c, r);
    }
  }

  lemma FillKeepsScope(b: Bank, response: Response, b': Bank, p: Request -> bool)
    requires Valid(b) && AllPlain(b) && FillsHaveLines(b) && AllWaiting(b.queue, p)
    requires b' == AcceptFill(b, response).0
    ensures FillsHaveLines(b') && AllWaiting(b'.queue, p)
    ensures b'.lineBytes == b.lineBytes && b'.agent == b.agent && b'.queue.nextHandle == b.queue.nextHandle
  {
    if Matches(b, response) {
      var handle := b.pendingFills[response.sequence].handle;
      CompleteKeepsWaiting(b.queue, handle, Mshr.CompleteEntry(b.queue, handle).0, p);
    }
  }

  function InScope(lineBytes: nat): (p: Request -> bool) {
    (r: Request) => Plain(r, lineBytes)
  }

  lemma AllPlainIsWaiting(b: Bank)
    ensures AllPlain(b) <==> AllWaiting(b.queue, InScope(b.lineBytes))
  {
    if AllWaiting(b.queue, InScope(b.lineBytes)) {
      forall i | 0 <= i < |b.queue.entries|
        ensures PlainTargets(b.lineBytes, b.queue.entries[i].targets)
      {
        forall j | 0 <= j < |b.queue.entries[i].targets|
          ensures Plain(b.queue.entries[i].targets[j].request, b.lineBytes)
        {
          assert InScope(b.lineBytes)(b.queue.entries[i].targets[j].request);
        }
      }
    }
  }

  lemma FlatKept(flat: map<nat, seq<Byte>>, memory: Flat, r: Request, lineBytes: nat)
    requires Plain(r, lineBytes) && FlatOk(flat, memory, lineBytes)
    ensures FlatOk(FlatAccept(flat, memory, r, lineBytes).0, memory, lineBytes)
  {
    forall line: nat
      ensures |FlatLine(FlatAccept(flat, memory, r, lineBytes).0, memory, line)| == lineBytes
    {
      assert |FlatLine(flat, memory, line)| == lineBytes;
    }
  }

  lemma AdvanceKeepsScope(w: World, memory: Flat, step: Step)
    requires Scope(w, memory) && StepOk(w.bank.lineBytes, step)
    ensures
      var w' := Advance(w, memory, step);
      && Scope(w', memory) && w'.bank.lineBytes == w.bank.lineBytes
      && w'.bank.queue.nextHandle <= w.bank.queue.nextHandle + 1
  {
    var b := w.bank;
    var b' := Advance(w, memory, step).bank;
    AllPlainIsWaiting(b);
    match step
    case Ask(r, qos) =>
      RequestKeepsScope(b, r, qos, b', InScope(b.lineBytes));
      AllPlainIsWaiting(b');
      FlatKept(w.flat, memory, r, b.lineBytes);
      var result := AcceptRequest(b, r, qos).1;
      if result.Ok? && result.value.Waiting? && result.value.downstream.Some? {
        SendsSendable(b, r, qos, result);
      }
    case Fill(s) =>
      var i := SentAt(w.sent, s);
      if i < |w.sent| && s !in w.filled {
        FillKeepsScope(b, MemoryAnswer(memory, b.lineBytes, w.sent[i]), b', InScope(b.lineBytes));
        AllPlainIsWaiting(b');
      }
  }

  // ----- the answers still owed

  function Owed(lineBytes: nat, targets: seq<Mshr.Target>, content: seq<Byte>): (answers: seq<Answer>)
    requires |content| == lineBytes && PlainTargets(lineBytes, targets)
  {
    seq(|targets|, i requires 0 <= i < |targets| =>
      Answer(targets[i].request, Expected(content, targets[i].request, lineBytes)))
  }

  /** Flat memory's answers to the requests that wait on a line, in the order they arrived. */
  function OwedOn(b: Bank, memory: Flat, line: nat): (answers: seq<Answer>) {
    var i, content := FindLine(b.queue.entries, line), Content(b, memory, line);
    if i < |b.queue.entries| && |content| == b.lineBytes && PlainTargets(b.lineBytes, b.queue.entries[i].targets)
    then Owed(b.lineBytes, b.queue.entries[i].targets, content)
    else []
  }

  /** One more target owes one more answer. */
  lemma OwedAppend(lineBytes: nat, targets: seq<Mshr.Target>, t: Mshr.Target, content: seq<Byte>)
    requires |content| == lineBytes && PlainTargets(lineBytes, targets) && Plain(t.request, lineBytes)
    ensures PlainTargets(lineBytes, targets + [t])
    ensures Owed(lineBytes, targets + [t], content)
         == Owed(lineBytes, targets, content) + [Answer(t.request, Expected(content, t.request, lineBytes))]
  {
  }

  /** What a line owes depends on its entry and its content alone. */
  lemma OwedSame(b: Bank, b': Bank, memory: Flat, line: nat)
    requires b'.lineBytes == b.lineBytes && Content(b', memory, line) == Content(b, memory, line)
    requires HasEntry(b', line) <==> HasEntry(b, line)
    requires HasEntry(b, line) ==>
      b'.queue.entries[FindLine(b'.queue.entries, line)].targets
        == b.queue.entries[FindLine(b.queue.entries, line)].targets
    ensures OwedOn(b', memory, line) == OwedOn(b, memory, line)
  {
  }

  // ----- the run theorem

  ghost predicate Mirrors(b: Bank, flat: map<nat, seq<Byte>>, memory: Flat) {
    forall line: nat :: Content(b, memory, line) == FlatLine(flat, memory, line)
  }

  ghost predicate Balanced(b: Bank, memory: Flat, accepted: Logs, delivered: Logs) {
    forall line: nat :: Log(accepted, line) == Log(delivered, line) + OwedOn(b, memory, line)
  }

  /** The request is for the permission that the line of a pending fill waits for. */
  predicate AskedFor(b: Bank, d: Request) {
    && d.sequence in b.pendingFills && b.pendingFills[d.sequence].line in b.lines
    && Wants(b.lines[b.pendingFills[d.sequence].line], d)
  }

  /** Requests are sent under rising sequence numbers; those not answered yet are exactly the pending
  fills, each asked for as its line needs. */
  predicate SentLinked(b: Bank, sent: seq<Request>, filled: set<nat>) {
    && (forall i, j :: 0 <= i < j < |sent| ==> sent[i].sequence < sent[j].sequence)
    && (forall i :: 0 <= i < |sent| ==> sent[i].sequence < b.nextSequence)
    && (forall i :: 0 <= i < |sent| ==> if sent[i].sequence in filled then sent[i].sequence !in b.pendingFills
                                        else AskedFor(b, sent[i]))
    && (forall s :: s in b.pendingFills ==> SentAt(sent, s) < |sent|)
    && (forall s :: s in filled ==> s < b.nextSequence)
  }

  /** The bank is in step, it holds flat memory's contents, what it was asked on each line is what it has
  answered followed by what it still owes, and what it waits for is what it has sent for. */
  ghost predicate Faithful(w: World, memory: Flat) {
    && Inv(w.bank) && Scope(w, memory)
    && Mirrors(w.bank, w.flat, memory)
    && Balanced(w.bank, memory, w.accepted, w.delivered)
    && SentLinked(w.bank, w.sent, w.filled)
  }

  // ----- what is sent

  /** A backing store gives its line to a read of all of it, and leave to an upgrade. */
  lemma StoreAnswers(store: Backing.Store, d: Request)
    requires Backing.Valid(store) && Sendable(d) && d.address == store.line && store.line % store.lineBytes == 0
    requires d.size == if d.operation.Upgrade? then 1 else store.lineBytes
    ensures d.LineAddress(store.lineBytes) == store.line
    ensures Backing.Respond(store, d).1
         == Ok(Response(d.agent, d.sequence, Completed, if d.operation.Upgrade? then None else Some(store.data)))
  {
    assert Slice(store.data, 0, store.lineBytes) == store.data;
  }

  /** Memory's answer to what was sent is the fill that the line waits for. */
  lemma AnswerIsFill(b: Bank, memory: Flat, d: Request)
    requires Inv(b) && FillsHaveLines(b) && Sized(memory, b.lineBytes) && AskedFor(b, d)
    ensures b.lineBytes > 0 && Sendable(d)
    ensures MemoryAnswer(memory, b.lineBytes, d) == MemoryResponse(b, memory, d.sequence)
  {
    var line := b.pendingFills[d.sequence].line;
    WantedSends(b, line, d);
    StoreAnswers(Backing.Store(b.lineBytes, line, memory(line), map[]), d);
  }

  lemma WantedSends(b: Bank, line: nat, d: Request)
    requires LinesOk(b) && line in b.lines && Wants(b.lines[line], d)
    ensures Sendable(d) && d.agent == b.agent && d.address == line && line % b.lineBytes == 0
    ensures d.size == if d.operation.Upgrade? then 1 else b.lineBytes
    ensures d.operation.Upgrade? <==> b.lines[line].data.Some?
  {
    assert LineOk(b, line);
  }

  /** The sent requests not yet answered are the pending fills. */
  lemma UnansweredIsPending(b: Bank, sent: seq<Request>, filled: set<nat>, s: nat)
    requires SentLinked(b, sent, filled)
    ensures s in b.pendingFills <==> SentAt(sent, s) < |sent| && s !in filled
    ensures s in b.pendingFills ==> AskedFor(b, sent[SentAt(sent, s)])
  {
  }

  /** The line waits for the same thing. */
  predicate SameWait(c: Msi.Controller, c': Msi.Controller) {
    Msi.SameLine(c, c') && c'.state == c.state && c'.pending == c.pending
  }

  /** Fills that stay pending, on lines that go on waiting for the same, stay asked for. */
  lemma SentFrame(b: Bank, b': Bank, sent: seq<Request>, filled: set<nat>, gone: set<nat>)
    requires SentLinked(b, sent, filled) && FillsHaveLines(b) && b'.nextSequence >= b.nextSequence
    requires b'.pendingFills == b.pendingFills - gone && forall s :: s in gone ==> s in b.pendingFills
    requires forall s :: s in b'.pendingFills ==>
      var line := b.pendingFills[s].line;
      line in b'.lines && SameWait(b.lines[line], b'.lines[line])
    ensures SentLinked(b', sent, filled + gone)
  {
    forall s | s in gone
      ensures s < b'.nextSequence
    {
      assert SentAt(sent, s) < |sent|;
    }
    forall i | 0 <= i < |sent|
      ensures if sent[i].sequence in filled + gone then sent[i].sequence !in b'.pendingFills else AskedFor(b', sent[i])
    {
    }
  }

  lemma AnsweredKeepsSent(b: Bank, b': Bank, sent: seq<Request>, filled: set<nat>, line: nat)
    requires Correspondence(b) && SentLinked(b, sent, filled) && FillsHaveLines(b) && b'.nextSequence >= b.nextSequence
    requires b'.pendingFills == b.pendingFills && line in b'.lines && b'.lines == b.lines[line := b'.lines[line]]
    requires !InFlight(b, line) || (line in b.lines && SameWait(b.lines[line], b'.lines[line]))
    ensures SentLinked(b', sent, filled)
  {
    if !InFlight(b, line) {
      LinesElsewhere(b, line);
    }
    SentFrame(b, b', sent, filled, {});
    assert filled + {} == filled;
  }

  lemma LinesElsewhere(b: Bank, line: nat)
    requires Correspondence(b) && !InFlight(b, line)
    ensures forall s :: s in b.pendingFills ==> b.pendingFills[s].line != line
  {
    forall s | s in b.pendingFills
      ensures b.pendingFills[s].line != line
    {
      assert FillLinked(b, s);
    }
  }

  /** One more request sent, for a line that did not wait. */
  lemma SentOne(b: Bank, b': Bank, sent: seq<Request>, filled: set<nat>, line: nat, d: Request, handle: nat)
    requires SentLinked(b, sent, filled) && forall s :: s in b.pendingFills ==> b.pendingFills[s].line != line
    requires line in b'.lines && b'.lines == b.lines[line := b'.lines[line]] && Wants(b'.lines[line], d)
    requires d.sequence == b.nextSequence && b'.nextSequence == b.nextSequence + 1
    requires b'.pendingFills == b.pendingFills[d.sequence := PendingFill(line, handle)]
    ensures SentLinked(b', sent + [d], filled)
  {
    var sent' := sent + [d];
    forall i | 0 <= i < |sent'|
      ensures if sent'[i].sequence in filled then sent'[i].sequence !in b'.pendingFills else AskedFor(b', sent'[i])
    {
      if i < |sent| {
        OldStaysAsked(b, b', sent[i], line, d, handle);
      }
    }
    forall s | s in b'.pendingFills
      ensures SentAt(sent', s) < |sent'|
    {
      if s == d.sequence {
        assert sent'[|sent|].sequence == s;
      } else {
        assert sent'[SentAt(sent, s)].sequence == s;
      }
    }
  }

  lemma OldStaysAsked(b: Bank, b': Bank, e: Request, line: nat, d: Request, handle: nat)
    requires forall s :: s in b.pendingFills ==> b.pendingFills[s].line != line
    requires b'.lines.Keys == b.lines.Keys + {line}
    requires forall k :: k in b.lines && k != line ==> b'.lines[k] == b.lines[k]
    requires b'.pendingFills == b.pendingFills[d.sequence := PendingFill(line, handle)] && e.sequence != d.sequence
    ensures e.sequence in b'.pendingFills <==> e.sequence in b.pendingFills
    ensures AskedFor(b, e) ==> AskedFor(b', e)
  {
  }

  lemma AskKeepsSent(w: World, memory: Flat, r: Request, qos: Option<Mshr.Qos>)
    requires Faithful(w, memory) && Plain(r, w.bank.lineBytes) && !Derails(w.bank, r)
    ensures
      var w' := Advance(w, memory, Ask(r, qos));
      SentLinked(w'.bank, w'.sent, w'.filled)
  {
    var (b', result) := AcceptRequest(w.bank, r, qos);
    if result.Err? {
      RefusedKeepsSent(w.bank, r, qos, w.sent, w.filled);
    } else {
      AcceptedKeepsSent(w.bank, r, qos, w.sent, w.filled);
    }
  }

  lemma RefusedKeepsSent(b: Bank, r: Request, qos: Option<Mshr.Qos>, sent: seq<Request>, filled: set<nat>)
    requires Inv(b) && Valid(b) && FillsHaveLines(b) && Plain(r, b.lineBytes) && !Derails(b, r)
    requires SentLinked(b, sent, filled) && AcceptRequest(b, r, qos).1.Err?
    ensures SentLinked(AcceptRequest(b, r, qos).0, sent, filled)
  {
    var b' := AcceptRequest(b, r, qos).0;
    RequestStepInv(b, r, qos);
    if b' != b {
      AnsweredKeepsSent(b, b', sent, filled, r.LineAddress(b.lineBytes));
    }
  }

  lemma AcceptedKeepsSent(b: Bank, r: Request, qos: Option<Mshr.Qos>, sent: seq<Request>, filled: set<nat>)
    requires Inv(b) && Valid(b) && FillsHaveLines(b) && Plain(r, b.lineBytes) && !Derails(b, r)
    requires SentLinked(b, sent, filled) && AcceptRequest(b, r, qos).1.Ok?
    ensures SentLinked(AcceptRequest(b, r, qos).0, SentBy(sent, AcceptRequest(b, r, qos).1), filled)
  {
    var line := r.LineAddress(b.lineBytes);
    var (b', result) := AcceptRequest(b, r, qos);
    SendsHow(b, r, qos);
    match result.value
    case Answered(_) => AnsweredKeepsSent(b, b', sent, filled, line);
    case Waiting(None) => QueueUnseen(b, b', sent, filled);
    case Waiting(Some(d)) =>
      LinesElsewhere(b, line);
      SentOne(b, b', sent, filled, line, d, NewEntry(b, r, qos).handle);
  }

  /** The queue does not matter to what is sent for. */
  lemma QueueUnseen(b: Bank, b': Bank, sent: seq<Request>, filled: set<nat>)
    requires SentLinked(b, sent, filled) && b' == b.(queue := b'.queue)
    ensures SentLinked(b', sent, filled)
  {
    forall i | 0 <= i < |sent|
      ensures AskedFor(b', sent[i]) == AskedFor(b, sent[i])
    {
    }
  }

  // ----- one request

  /** How the bank moves with an accepted request: contents as flat memory, answer given or owed. */
  ghost predicate Follows(b: Bank, b': Bank, memory: Flat, r: Request, given: bool)
    requires Plain(r, b.lineBytes)
  {
    var line := r.LineAddress(b.lineBytes);
    && b'.lineBytes == b.lineBytes
    && |Content(b, memory, line)| == b.lineBytes
    && var content := Applied(Content(b, memory, line), r, b.lineBytes);
    && Content(b', memory, line) == content
    && (forall k: nat :: k != line ==> Content(b', memory, k) == Content(b, memory, k))
    && (forall k: nat :: k != line ==> OwedOn(b', memory, k) == OwedOn(b, memory, k))
    && (if given then OwedOn(b, memory, line) == OwedOn(b', memory, line) == []
        else OwedOn(b', memory, line) == OwedOn(b, memory, line) + [Answer(r, Expected(content, r, b.lineBytes))])
  }

  lemma MergeOwesOthers(b: Bank, q: Mshr.Queue, memory: Flat, i: nat, targets: seq<Mshr.Target>, k: nat)
    requires i < |b.queue.entries| && q.entries == b.queue.entries[i := b.queue.entries[i].(targets := targets)]
    requires k != b.queue.entries[i].line
    ensures OwedOn(b.(queue := q), memory, k) == OwedOn(b, memory, k)
  {
    FindLineSame(b.queue.entries, q.entries, k);
    OwedSame(b, b.(queue := q), memory, k);
  }

  lemma MergeOwes(b: Bank, q: Mshr.Queue, memory: Flat, i: nat, t: Mshr.Target, line: nat)
    requires |Content(b, memory, line)| == b.lineBytes && i == FindLine(b.queue.entries, line) < |b.queue.entries|
    requires PlainTargets(b.lineBytes, b.queue.entries[i].targets) && Plain(t.request, b.lineBytes)
    requires q.entries == b.queue.entries[i := b.queue.entries[i].(targets := b.queue.entries[i].targets + [t])]
    ensures OwedOn(b.(queue := q), memory, line)
         == OwedOn(b, memory, line) + [Answer(t.request, Expected(Content(b, memory, line), t.request, b.lineBytes))]
  {
    OwedAppend(b.lineBytes, b.queue.entries[i].targets, t, Content(b, memory, line));
    FindLineSame(b.queue.entries, q.entries, line);
  }

  /** A coalesced read adds its own answer to what its line owes. */
  lemma CoalescedFollows(b: Bank, q: Mshr.Queue, memory: Flat, r: Request, i: nat, t: Mshr.Target)
    requires AllPlain(b) && Plain(r, b.lineBytes) && Coalescible(r) && t.request == r
    requires |Content(b, memory, r.LineAddress(b.lineBytes))| == b.lineBytes
    requires i == FindLine(b.queue.entries, r.LineAddress(b.lineBytes)) < |b.queue.entries|
    requires q.entries == b.queue.entries[i := b.queue.entries[i].(targets := b.queue.entries[i].targets + [t])]
    ensures Follows(b, b.(queue := q), memory, r, false)
  {
    var line := r.LineAddress(b.lineBytes);
    MergeOwes(b, q, memory, i, t, line);
    forall k: nat | k != line
      ensures OwedOn(b.(queue := q), memory, k) == OwedOn(b, memory, k)
    {
      MergeOwesOthers(b, q, memory, i, b.queue.entries[i].targets + [t], k);
    }
  }

  lemma CoalescedStep(b: Bank, memory: Flat, r: Request, qos: Option<Mshr.Qos>)
    requires Inv(b) && Valid(b) && AllPlain(b) && Sized(memory, b.lineBytes) && Plain(r, b.lineBytes)
    requires Handles(b, r).Coalesced? && Joins(b, r) && AcceptRequest(b, r, qos).1.Ok?
    ensures AcceptRequest(b, r, qos).1.value.Waiting? && Follows(b, AcceptRequest(b, r, qos).0, memory, r, false)
  {
    var (q, merged) := Mshr.AllocateOrMerge(b.queue, r, 0, Mshr.Demand, true, qos);
    ContentSized(b, memory, r.LineAddress(b.lineBytes));
    CoalescedShape(b, r, qos, q, merged);
    JoinedEntries(b, r, qos, q);
    CoalescedFollows(b, q, memory, r, FindLine(b.queue.entries, r.LineAddress(b.lineBytes)),
                     Mshr.Target(r, 0, b.queue.nextOrder, Mshr.Demand, true, qos));
  }

  /** A request answered at once leaves what is owed alone. */
  lemma HitOwes(b: Bank, b': Bank, memory: Flat, line: nat)
    requires b'.lineBytes == b.lineBytes && b'.queue == b.queue && !HasEntry(b, line)
    requires forall k: nat :: k != line ==> Content(b', memory, k) == Content(b, memory, k)
    ensures OwedOn(b, memory, line) == OwedOn(b', memory, line) == []
    ensures forall k: nat :: k != line ==> OwedOn(b', memory, k) == OwedOn(b, memory, k)
  {
  }

  lemma ServedStep(b: Bank, memory: Flat, r: Request, qos: Option<Mshr.Qos>)
    requires Inv(b) && Valid(b) && Plain(r, b.lineBytes) && Handles(b, r).Served?
    ensures
      var (b', result) := AcceptRequest(b, r, qos);
      && Follows(b, b', memory, r, true) && result.Ok? && result.value.Answered?
      && Respond(result.value.response) == Expected(Content(b', memory, r.LineAddress(b.lineBytes)), r, b.lineBytes)
  {
    HitStep(b, r, qos, memory);
    HitOwes(b, AcceptRequest(b, r, qos).0, memory, r.LineAddress(b.lineBytes));
  }

  lemma FindLineAppend(entries: seq<Mshr.Entry>, e: Mshr.Entry, line: nat)
    ensures
      var i := FindLine(entries, line);
      FindLine(entries + [e], line)
        == (if i < |entries| then i else if e.line == line then |entries| else |entries| + 1)
  {
    var i, i' := FindLine(entries, line), FindLine(entries + [e], line);
    assert forall k :: 0 <= k < |entries| ==> (entries + [e])[k] == entries[k];
    assert i < |entries| ==> (entries + [e])[i].line == line;
    assert i' < |entries| ==> entries[i'].line == line;
    assert (entries + [e])[|entries|] == e;
  }

  /** A miss adds an entry that owes the answer over the line's new content. */
  lemma MissOwes(b: Bank, b': Bank, memory: Flat, e: Mshr.Entry, t: Mshr.Target)
    requires b'.lineBytes == b.lineBytes && Plain(t.request, b.lineBytes) && e.targets == [t]
    requires |Content(b', memory, e.line)| == b.lineBytes
    requires b'.queue.entries == b.queue.entries + [e] && !HasEntry(b, e.line)
    requires forall k: nat :: k != e.line ==> Content(b', memory, k) == Content(b, memory, k)
    ensures OwedOn(b, memory, e.line) == []
    ensures OwedOn(b', memory, e.line)
      == [Answer(t.request, Expected(Content(b', memory, e.line), t.request, b.lineBytes))]
    ensures forall k: nat :: k != e.line ==> OwedOn(b', memory, k) == OwedOn(b, memory, k)
  {
    FindLineAppend(b.queue.entries, e, e.line);
    forall k: nat | k != e.line
      ensures OwedOn(b', memory, k) == OwedOn(b, memory, k)
    {
      FindLineAppend(b.queue.entries, e, k);
      OwedSame(b, b', memory, k);
    }
  }

  lemma SentStep(b: Bank, memory: Flat, r: Request, qos: Option<Mshr.Qos>)
    requires Inv(b) && Valid(b) && Plain(r, b.lineBytes) && Handles(b, r).Sent? && Sized(memory, b.lineBytes)
    ensures
      var (b', result) := AcceptRequest(b, r, qos);
      result.Ok? && result.value.Waiting? && Follows(b, b', memory, r, false)
  {
    MissStep(b, r, qos, memory);
    var e := NewEntry(b, r, qos);
    MissOwes(b, AcceptRequest(b, r, qos).0, memory, e, e.targets[0]);
  }

  /** An accepted request moves the bank as flat memory. */
  lemma AcceptedHow(b: Bank, memory: Flat, r: Request, qos: Option<Mshr.Qos>)
    requires Inv(b) && Valid(b) && AllPlain(b) && Sized(memory, b.lineBytes) && Plain(r, b.lineBytes)
    requires AcceptRequest(b, r, qos).1.Ok? && !Strays(b, r)
    ensures
      var (b', result) := AcceptRequest(b, r, qos);
      && Follows(b, b', memory, r, result.value.Answered?)
      && (result.value.Answered? ==>
            Respond(result.value.response) == Expected(Content(b', memory, r.LineAddress(b.lineBytes)), r, b.lineBytes))
  {
    match Handles(b, r)
    case Coalesced =>
      if Joins(b, r) {
        CoalescedStep(b, memory, r, qos);
      } else {
        Unjoined(b, r, qos);
      }
    case Served => ServedStep(b, memory, r, qos);
    case Sent => SentStep(b, memory, r, qos);
    case Busy => TurnedAwayInStep(b, r, qos);
    case Silent => TurnedAwayInStep(b, r, qos);
    case Overflow => OverflowBreaks(b, r, qos);
    case Refused => RefusedInStep(b, r, qos);
    case NoEntry => RefusedInStep(b, r, qos);
  }

  /** A sequence number cannot be seen. */
  lemma RenumberedUnseen(b: Bank, b': Bank, memory: Flat, line: nat)
    requires Renumbered(b, b', line)
    ensures forall k: nat :: Content(b', memory, k) == Content(b, memory, k)
    ensures forall k: nat :: OwedOn(b', memory, k) == OwedOn(b, memory, k)
  {
    forall k: nat
      ensures Content(b', memory, k) == Content(b, memory, k)
    {
    }
  }

  lemma FollowsMirrors(b: Bank, b': Bank, flat: map<nat, seq<Byte>>, memory: Flat, r: Request, given: bool)
    requires Mirrors(b, flat, memory) && Plain(r, b.lineBytes) && Follows(b, b', memory, r, given)
    ensures
      var (flat', answer) := FlatAccept(flat, memory, r, b.lineBytes);
      && answer == Answer(r, Expected(Content(b', memory, r.LineAddress(b.lineBytes)), r, b.lineBytes))
      && Mirrors(b', flat', memory)
  {
    assert Content(b, memory, r.LineAddress(b.lineBytes)) == FlatLine(flat, memory, r.LineAddress(b.lineBytes));
  }

  lemma FollowsBalances(
    b: Bank, b': Bank, memory: Flat, accepted: Logs, delivered: Logs, r: Request, given: bool, answer: Answer)
    requires Balanced(b, memory, accepted, delivered) && Plain(r, b.lineBytes) && Follows(b, b', memory, r, given)
    requires answer == Answer(r, Expected(Content(b', memory, r.LineAddress(b.lineBytes)), r, b.lineBytes))
    ensures
      var line := r.LineAddress(b.lineBytes);
      Balanced(b', memory, Logged(accepted, line, [answer]),
               if given then Logged(delivered, line, [answer]) else delivered)
  {
    var line := r.LineAddress(b.lineBytes);
    assert Log(accepted, line) == Log(delivered, line) + OwedOn(b, memory, line);
    OneMore(Log(accepted, line), Log(delivered, line), OwedOn(b, memory, line), OwedOn(b', memory, line),
            answer, given);
  }

  /** One more answer, given at once when nothing is owed, or owed behind the others. */
  lemma OneMore(
    accepted: seq<Answer>, delivered: seq<Answer>, owed: seq<Answer>, owed': seq<Answer>, answer: Answer, given: bool)
    requires accepted == delivered + owed
    requires if given then owed == owed' == [] else owed' == owed + [answer]
    ensures accepted + [answer] == (if given then delivered + [answer] else delivered) + owed'
  {
  }

  lemma FollowsFaithfully(w: World, memory: Flat, r: Request, b': Bank, outcome: Outcome)
    requires Faithful(w, memory) && Plain(r, w.bank.lineBytes) && Follows(w.bank, b', memory, r, outcome.Answered?)
    requires outcome.Answered? ==>
      Respond(outcome.response) == Expected(Content(b', memory, r.LineAddress(w.bank.lineBytes)), r, w.bank.lineBytes)
    ensures
      var w' := Asked(w, memory, r, b', Ok(outcome));
      Mirrors(b', w'.flat, memory) && Balanced(b', memory, w'.accepted, w'.delivered)
  {
    FollowsMirrors(w.bank, b', w.flat, memory, r, outcome.Answered?);
    FollowsBalances(w.bank, b', memory, w.accepted, w.delivered, r, outcome.Answered?,
                    FlatAccept(w.flat, memory, r, w.bank.lineBytes).1);
  }

  lemma AcceptedStep(w: World, memory: Flat, r: Request, qos: Option<Mshr.Qos>)
    requires Faithful(w, memory) && Sized(memory, w.bank.lineBytes) && Plain(r, w.bank.lineBytes)
    requires AcceptRequest(w.bank, r, qos).1.Ok? && !Derails(w.bank, r)
    ensures
      var w' := Advance(w, memory, Ask(r, qos));
      Mirrors(w'.bank, w'.flat, memory) && Balanced(w'.bank, memory, w'.accepted, w'.delivered)
  {
    var (b', result) := AcceptRequest(w.bank, r, qos);
    AcceptedHow(w.bank, memory, r, qos);
    FollowsFaithfully(w, memory, r, b', result.value);
  }

  lemma RefusedStep(w: World, memory: Flat, r: Request, qos: Option<Mshr.Qos>)
    requires Faithful(w, memory) && Plain(r, w.bank.lineBytes) && !Derails(w.bank, r)
    requires AcceptRequest(w.bank, r, qos).1.Err?
    ensures
      var w' := Advance(w, memory, Ask(r, qos));
      Mirrors(w'.bank, w'.flat, memory) && Balanced(w'.bank, memory, w'.accepted, w'.delivered)
  {
    var b' := AcceptRequest(w.bank, r, qos).0;
    RequestStepInv(w.bank, r, qos);
    if b' != w.bank {
      RenumberedUnseen(w.bank, b', memory, r.LineAddress(w.bank.lineBytes));
    }
  }

  // ----- one fill

  /** The completed entry's line owes nothing any more, and the others what they did. */
  lemma FillOwes(b: Bank, b': Bank, memory: Flat, line: nat)
    requires DistinctLines(b.queue.entries) && HasEntry(b, line) && b'.lineBytes == b.lineBytes
    requires
      var i := FindLine(b.queue.entries, line);
      b'.queue.entries == b.queue.entries[..i] + b.queue.entries[i + 1..]
    requires forall k: nat :: Content(b', memory, k) == Content(b, memory, k)
    ensures OwedOn(b', memory, line) == []
    ensures forall k: nat :: k != line ==> OwedOn(b', memory, k) == OwedOn(b, memory, k)
  {
    var entries, i := b.queue.entries, FindLine(b.queue.entries, line);
    forall k: nat
      ensures HasEntry(b', k) <==> HasEntry(b, k) && k != line
      ensures HasEntry(b', k) ==> b'.queue.entries[FindLine(b'.queue.entries, k)] == entries[FindLine(entries, k)]
    {
      if HasEntry(b, k) && k != line {
        EntryMoves(entries, i, FindLine(entries, k));
      }
      if HasEntry(b', k) {
        var m := EntryStays(entries, i, FindLine(b'.queue.entries, k));
        assert entries[m].line == k;
      }
    }
    forall k: nat | k != line
      ensures OwedOn(b', memory, k) == OwedOn(b, memory, k)
    {
      OwedSame(b, b', memory, k);
    }
  }

  lemma ZipOwed(b: Bank, memory: Flat, line: nat, targets: seq<Mshr.Target>, content: seq<Byte>)
    requires HasEntry(b, line) && targets == b.queue.entries[FindLine(b.queue.entries, line)].targets
    requires content == Content(b, memory, line) && |content| == b.lineBytes && PlainTargets(b.lineBytes, targets)
    ensures Zip(targets, ExpectedReplies(targets, content, b.lineBytes)) == OwedOn(b, memory, line)
  {
  }

  lemma EntryHandedOver(q: Mshr.Queue, handle: nat, i: nat)
    requires i < |q.entries| && Mshr.Find(q.entries, handle) == i
    ensures
      var done := Mshr.CompleteEntry(q, handle).1;
      done.Some? && done.value.targets == q.entries[i].targets
  {
  }

  lemma FillAnswers(b: Bank, memory: Flat, s: nat)
    requires Inv(b) && Valid(b) && AllPlain(b) && FillsHaveLines(b) && Sized(memory, b.lineBytes)
    requires b.queue.nextHandle < U64_MAX && s in b.pendingFills && WantsAnswer(b, s)
    ensures
      var replies := AcceptFill(b, MemoryResponse(b, memory, s)).1;
      var f := b.pendingFills[s];
      var done := Mshr.CompleteEntry(b.queue, f.handle).1;
      && replies.Ok? && done.Some? && |replies.value| == |done.value.targets|
      && Zip(done.value.targets, replies.value) == OwedOn(b, memory, f.line)
  {
    var f := b.pendingFills[s];
    var i := FindLine(b.queue.entries, f.line);
    MemoryResponseUsable(b, memory, s);
    MatchedFill(b, MemoryResponse(b, memory, s));
    EntryHandedOver(b.queue, f.handle, i);
    FillStep(b, memory, s);
    ZipOwed(b, memory, f.line, b.queue.entries[i].targets, Content(b, memory, f.line));
  }

  /** A fill hands over the answers its line owes, each as flat memory gave it, in order. */
  lemma FillGives(b: Bank, memory: Flat, s: nat)
    requires Inv(b) && Valid(b) && AllPlain(b) && FillsHaveLines(b) && Sized(memory, b.lineBytes)
    requires b.queue.nextHandle < U64_MAX && s in b.pendingFills && WantsAnswer(b, s)
    ensures
      var (b', replies) := AcceptFill(b, MemoryResponse(b, memory, s));
      var f := b.pendingFills[s];
      var done := Mshr.CompleteEntry(b.queue, f.handle).1;
      && replies.Ok? && done.Some? && |replies.value| == |done.value.targets|
      && Zip(done.value.targets, replies.value) == OwedOn(b, memory, f.line)
      && OwedOn(b', memory, f.line) == []
      && (forall k: nat :: k != f.line ==> OwedOn(b', memory, k) == OwedOn(b, memory, k))
      && (forall k: nat :: Content(b', memory, k) == Content(b, memory, k))
  {
    FillAnswers(b, memory, s);
    FillStep(b, memory, s);
    FillOwes(b, AcceptFill(b, MemoryResponse(b, memory, s)).0, memory, b.pendingFills[s].line);
  }

  lemma FillBalances(b: Bank, b': Bank, memory: Flat, accepted: Logs, delivered: Logs, line: nat)
    requires Balanced(b, memory, accepted, delivered) && OwedOn(b', memory, line) == []
    requires forall k: nat :: k != line ==> OwedOn(b', memory, k) == OwedOn(b, memory, k)
    ensures Balanced(b', memory, accepted, Logged(delivered, line, OwedOn(b, memory, line)))
  {
  }

  /** The fill a step delivers is memory's response to the miss. */
  lemma FillIsAnswer(w: World, memory: Flat, s: nat)
    requires Faithful(w, memory)
    ensures Advance(w, memory, Fill(s))
         == if s in w.bank.pendingFills then Filled(w, s, MemoryResponse(w.bank, memory, s)) else w
  {
    UnansweredIsPending(w.bank, w.sent, w.filled, s);
    if s in w.bank.pendingFills {
      var d := w.sent[SentAt(w.sent, s)];
      AnswerIsFill(w.bank, memory, d);
      FillAdvances(w, memory, s, d);
    } else {
      NothingToFill(w, memory, s);
    }
  }

  lemma NothingToFill(w: World, memory: Flat, s: nat)
    requires Scope(w, memory) && (SentAt(w.sent, s) == |w.sent| || s in w.filled)
    ensures Advance(w, memory, Fill(s)) == w
  {
  }

  lemma FillAdvances(w: World, memory: Flat, s: nat, d: Request)
    requires Scope(w, memory) && SentAt(w.sent, s) < |w.sent| && d == w.sent[SentAt(w.sent, s)] && s !in w.filled
    ensures Advance(w, memory, Fill(s)) == Filled(w, s, MemoryAnswer(memory, w.bank.lineBytes, d))
  {
  }

  lemma FillKeepsSent(b: Bank, memory: Flat, sent: seq<Request>, filled: set<nat>, s: nat)
    requires Inv(b) && Valid(b) && AllPlain(b) && FillsHaveLines(b) && Sized(memory, b.lineBytes)
    requires b.queue.nextHandle < U64_MAX && s in b.pendingFills && WantsAnswer(b, s) && SentLinked(b, sent, filled)
    ensures SentLinked(AcceptFill(b, MemoryResponse(b, memory, s)).0, sent, filled + {s})
  {
    var line := b.pendingFills[s].line;
    var c := FillLands(b, memory, s, MemoryResponse(b, memory, s));
    OthersElsewhere(b, s);
    ResolvedKeepsSent(b, s, line, FindLine(b.queue.entries, line), c, sent, filled);
  }

  lemma ResolvedKeepsSent(b: Bank, s: nat, line: nat, i: nat, c: Msi.Controller, sent: seq<Request>, filled: set<nat>)
    requires SentLinked(b, sent, filled) && FillsHaveLines(b) && i < |b.queue.entries| && s in b.pendingFills
    requires forall k :: k in b.pendingFills && k != s ==> b.pendingFills[k].line != line
    ensures SentLinked(Resolved(b, s, line, i, c), sent, filled + {s})
  {
    SentFrame(b, Resolved(b, s, line, i, c), sent, filled, {s});
  }

  /** Each pending fill has a line to itself. */
  lemma OthersElsewhere(b: Bank, s: nat)
    requires Correspondence(b) && s in b.pendingFills
    ensures forall k :: k in b.pendingFills && k != s ==> b.pendingFills[k].line != b.pendingFills[s].line
  {
    forall k | k in b.pendingFills && k != s
      ensures b.pendingFills[k].line != b.pendingFills[s].line
    {
      assert FillLinked(b, k) && FillLinked(b, s);
    }
  }

  lemma FillsStep(w: World, memory: Flat, s: nat)
    requires Faithful(w, memory) && Sized(memory, w.bank.lineBytes) && w.bank.queue.nextHandle < U64_MAX
    requires s in w.bank.pendingFills && WantsAnswer(w.bank, s)
    ensures
      var w' := Advance(w, memory, Fill(s));
      && Mirrors(w'.bank, w'.flat, memory) && Balanced(w'.bank, memory, w'.accepted, w'.delivered)
      && SentLinked(w'.bank, w'.sent, w'.filled)
  {
    var b' := AcceptFill(w.bank, MemoryResponse(w.bank, memory, s)).0;
    FillIsAnswer(w, memory, s);
    FillKeepsSent(w.bank, memory, w.sent, w.filled, s);
    FillGives(w.bank, memory, s);
    FillBalances(w.bank, b', memory, w.accepted, w.delivered, w.bank.pendingFills[s].line);
  }

  // ----- one step

  /** The three steps that put the bank out of step: a request that fetches a line that cannot be asked
  for, a request that waits on a miss whose entry it may not join, and the fill of a prefetch that
  missed and asks for no answer. */
  predicate Breaks(b: Bank, step: Step)
    requires b.lineBytes > 0 && Mshr.ValidConfig(b.queue.config) && FillsHaveLines(b)
  {
    match step
    case Ask(r, _) => Derails(b, r)
    case Fill(s) => s in b.pendingFills && !WantsAnswer(b, s)
  }

  lemma FillInvIff(w: World, memory: Flat, s: nat)
    requires Faithful(w, memory) && w.bank.queue.nextHandle < U64_MAX
    ensures Inv(Advance(w, memory, Fill(s)).bank) <==> !Breaks(w.bank, Fill(s))
  {
    FillIsAnswer(w, memory, s);
    if s in w.bank.pendingFills {
      FillBankInvIff(w.bank, memory, s);
    }
  }

  lemma FillBankInvIff(b: Bank, memory: Flat, s: nat)
    requires Inv(b) && Valid(b) && AllPlain(b) && FillsHaveLines(b) && Sized(memory, b.lineBytes)
    requires b.queue.nextHandle < U64_MAX && s in b.pendingFills
    ensures Inv(AcceptFill(b, MemoryResponse(b, memory, s)).0) <==> WantsAnswer(b, s)
  {
    MemoryResponseUsable(b, memory, s);
    FillStepInv(b, MemoryResponse(b, memory, s));
  }

  lemma StepInvIff(w: World, memory: Flat, step: Step)
    requires Faithful(w, memory) && StepOk(w.bank.lineBytes, step) && w.bank.queue.nextHandle < U64_MAX
    ensures Inv(Advance(w, memory, step).bank) <==> !Breaks(w.bank, step)
  {
    match step
    case Ask(r, qos) => RequestStepInv(w.bank, r, qos);
    case Fill(s) => FillInvIff(w, memory, s);
  }

  /** A step keeps the bank faithful exactly when it is not one of those three. */
  lemma StepIsFaithfulIff(w: World, memory: Flat, step: Step)
    requires Faithful(w, memory) && Sized(memory, w.bank.lineBytes) && StepOk(w.bank.lineBytes, step)
    requires w.bank.queue.nextHandle < U64_MAX
    ensures Faithful(Advance(w, memory, step), memory) <==> !Breaks(w.bank, step)
  {
    StepInvIff(w, memory, step);
    AdvanceKeepsScope(w, memory, step);
    if !Breaks(w.bank, step) {
      match step
      case Ask(r, qos) =>
        AskKeepsSent(w, memory, r, qos);
        if AcceptRequest(w.bank, r, qos).1.Ok? {
          AcceptedStep(w, memory, r, qos);
        } else {
          RefusedStep(w, memory, r, qos);
        }
      case Fill(s) =>
        if s in w.bank.pendingFills {
          FillsStep(w, memory, s);
        } else {
          FillIsAnswer(w, memory, s);
        }
    }
  }

  // ----- whole runs

  function Start(agent: nat, config: Mshr.Config): (w: World) {
    World(New(agent, config), map[], map[], map[], [], {})
  }

  /** Requests and fills, in any order, from an empty bank over any memory. */
  ghost function Run(agent: nat, config: Mshr.Config, memory: Flat, steps: seq<Step>): (w: World)
    requires Mshr.ValidConfig(config) && Sized(memory, config.lineBytes)
    requires forall step :: step in steps ==> StepOk(config.lineBytes, step)
    ensures Scope(w, memory) && w.bank.lineBytes == config.lineBytes && w.bank.queue.nextHandle <= |steps|
  {
    if steps == [] then
      Start(agent, config)
    else
      var n := |steps| - 1;
      var w := Run(agent, config, memory, steps[..n]);
      AdvanceKeepsScope(w, memory, steps[n]);
      Advance(w, memory, steps[n])
  }

  /** No step of the run meets a bank it breaks. */
  ghost predicate Sound(agent: nat, config: Mshr.Config, memory: Flat, steps: seq<Step>)
    requires Mshr.ValidConfig(config) && Sized(memory, config.lineBytes)
    requires forall step :: step in steps ==> StepOk(config.lineBytes, step)
  {
    steps == [] ||
    var n := |steps| - 1;
    Sound(agent, config, memory, steps[..n]) && !Breaks(Run(agent, config, memory, steps[..n]).bank, steps[n])
  }

  /** The bank is faithful at every point of the run. */
  ghost predicate AlwaysFaithful(agent: nat, config: Mshr.Config, memory: Flat, steps: seq<Step>)
    requires Mshr.ValidConfig(config) && Sized(memory, config.lineBytes)
    requires forall step :: step in steps ==> StepOk(config.lineBytes, step)
  {
    && Faithful(Run(agent, config, memory, steps), memory)
    && (steps != [] ==> AlwaysFaithful(agent, config, memory, steps[..|steps| - 1]))
  }

  lemma StartIsFaithful(agent: nat, config: Mshr.Config, memory: Flat)
    requires Mshr.ValidConfig(config) && Sized(memory, config.lineBytes)
    ensures Faithful(Start(agent, config), memory)
  {
    NewInv(agent, config);
  }

  /** Every run, for as long as the 64-bit handles last: at all its points the bank and the memory
  behind it hold what flat memory holds, and on each line the accepted requests have been answered
  in order, or are owed in order, with flat memory's answer at the time they were accepted, if and
  only if no step breaks the bank it meets. */
  lemma {:induction false} RunIsFaithfulIff(agent: nat, config: Mshr.Config, memory: Flat, steps: seq<Step>)
    requires Mshr.ValidConfig(config) && Sized(memory, config.lineBytes) && |steps| < U64_MAX
    requires forall step :: step in steps ==> StepOk(config.lineBytes, step)
    ensures AlwaysFaithful(agent, config, memory, steps) <==> Sound(agent, config, memory, steps)
    decreases |steps|
  {
    if steps == [] {
      StartIsFaithful(agent, config, memory);
    } else {
      var n := |steps| - 1;
      RunIsFaithfulIff(agent, config, memory, steps[..n]);
      var w := Run(agent, config, memory, steps[..n]);
      if Faithful(w, memory) {
        StepIsFaithfulIff(w, memory, steps[n]);
      }
    }
  }

  lemma QuietHasNoFills(b: Bank)
    requires Correspondence(b) && b.queue.entries == []
    ensures forall s :: s !in b.pendingFills
  {
    forall s
      ensures s !in b.pendingFills
    {
      assert s in b.pendingFills ==> FillLinked(b, s);
    }
  }

  /** Once nothing is outstanding, every request sent has been answered, the answers given on each line
  are exactly flat memory's answers to the accepted requests, in order, and every line the bank
  holds has flat memory's bytes. */
  lemma QuietBankIsFlatMemory(agent: nat, config: Mshr.Config, memory: Flat, steps: seq<Step>)
    requires Mshr.ValidConfig(config) && Sized(memory, config.lineBytes) && |steps| < U64_MAX
    requires forall step :: step in steps ==> StepOk(config.lineBytes, step)
    requires Sound(agent, config, memory, steps) && Run(agent, config, memory, steps).bank.queue.entries == []
    ensures
      var w := Run(agent, config, memory, steps);
      && (forall line: nat :: Log(w.delivered, line) == Log(w.accepted, line))
      && (forall i :: 0 <= i < |w.sent| ==> w.sent[i].sequence in w.filled)
      && forall line :: line in w.bank.lines ==> w.bank.lines[line].data == Some(FlatLine(w.flat, memory, line))
  {
    RunIsFaithfulIff(agent, config, memory, steps);
    var w := Run(agent, config, memory, steps);
    QuietHasNoFills(w.bank);
    forall line: nat
      ensures Log(w.delivered, line) == Log(w.accepted, line)
    {
      assert OwedOn(w.bank, memory, line) == [];
    }
    forall line | line in w.bank.lines
      ensures w.bank.lines[line].data == Some(FlatLine(w.flat, memory, line))
    {
      IdleLineHolds(w.bank, line);
      assert Content(w.bank, memory, line) == FlatLine(w.flat, memory, line);
    }
  }

  // ----- runs that cannot break

  /** A request that asks for an answer and for no strict order, on a line that can be asked for. */
  predicate Ordinary(lineBytes: nat, step: Step)
    requires lineBytes > 0
  {
    step.Ask? ==> Easy()(step.request) && Msi.Fillable(step.request.LineAddress(lineBytes), lineBytes)
  }

  function Easy(): (p: Request -> bool) {
    (r: Request) => r.responseRequired && !r.strictOrder
  }

  /** When every waiting request wants an answer, so does every request that missed. */
  lemma WaitingWant(b: Bank, s: nat)
    requires Inv(b) && FillsHaveLines(b) && AllWaiting(b.queue, Easy()) && s in b.pendingFills
    ensures WantsAnswer(b, s)
  {
    assert FillLinked(b, s);
    var e := b.queue.entries[FindLine(b.queue.entries, b.pendingFills[s].line)];
    assert EntryLinked(b, e);
    assert Easy()(e.targets[0].request);
  }

  /** When none is strictly ordered, every read may join the entry of its line. */
  lemma WaitingShare(b: Bank, r: Request)
    requires Inv(b) && Valid(b) && Plain(r, b.lineBytes) && AllWaiting(b.queue, Easy()) && !r.strictOrder
    ensures !Strays(b, r)
  {
    var line := r.LineAddress(b.lineBytes);
    if HasEntry(b, line) {
      var i := FindLine(b.queue.entries, line);
      assert TargetsOk(b.lineBytes, b.queue.entries[i]);
      forall j | 0 <= j < |b.queue.entries[i].targets|
        ensures Mshr.Mergeable(b.queue.entries[i].targets[j].request)
      {
        assert Easy()(b.queue.entries[i].targets[j].request);
      }
    }
  }

  lemma OrdinaryGoesOn(w: World, memory: Flat, step: Step)
    requires Scope(w, memory) && StepOk(w.bank.lineBytes, step) && Ordinary(w.bank.lineBytes, step)
    requires AllWaiting(w.bank.queue, Easy())
    ensures AllWaiting(Advance(w, memory, step).bank.queue, Easy())
  {
    var b' := Advance(w, memory, step).bank;
    match step
    case Ask(r, qos) =>
      RequestKeepsScope(w.bank, r, qos, b', Easy());
    case Fill(s) =>
      var i := SentAt(w.sent, s);
      if i < |w.sent| && s !in w.filled {
        FillKeepsScope(w.bank, MemoryAnswer(memory, w.bank.lineBytes, w.sent[i]), b', Easy());
      }
  }

  lemma OrdinaryKeepsGoing(w: World, memory: Flat, step: Step)
    requires Faithful(w, memory) && StepOk(w.bank.lineBytes, step) && Ordinary(w.bank.lineBytes, step)
    requires AllWaiting(w.bank.queue, Easy())
    ensures !Breaks(w.bank, step)
  {
    match step
    case Ask(r, _) => WaitingShare(w.bank, r);
    case Fill(s) =>
      if s in w.bank.pendingFills {
        WaitingWant(w.bank, s);
      }
  }

  /** Runs of reads and writes that ask for an answer and for no strict order, below the last line of
  the address space, are faithful throughout. */
  lemma {:induction false} OrdinaryRunsAreFaithful(agent: nat, config: Mshr.Config, memory: Flat, steps: seq<Step>)
    requires Mshr.ValidConfig(config) && Sized(memory, config.lineBytes) && |steps| < U64_MAX
    requires forall step :: step in steps ==> StepOk(config.lineBytes, step) && Ordinary(config.lineBytes, step)
    ensures AlwaysFaithful(agent, config, memory, steps)
    ensures AllWaiting(Run(agent, config, memory, steps).bank.queue, Easy())
    decreases |steps|
  {
    if steps == [] {
      StartIsFaithful(agent, config, memory);
    } else {
      var n := |steps| - 1;
      OrdinaryRunsAreFaithful(agent, config, memory, steps[..n]);
      var w := Run(agent, config, memory, steps[..n]);
      OrdinaryGoesOn(w, memory, steps[n]);
      OrdinaryKeepsGoing(w, memory, steps[n]);
      StepIsFaithfulIff(w, memory, steps[n]);
    }
  }
}
