/** The MSI line controller of a cache, and its transparency: in front of a backing store it
answers as the bare store would. */
module Msi {
  import opened Common
  import opened Memory
  import Backing

  // ----- the protocol table

  datatype State = Invalid | Shared | Modified | InvalidToShared | InvalidToModified | SharedToModified {
    predicate IsTransient() {
      InvalidToShared? || InvalidToModified? || SharedToModified?
    }
  }

  datatype Event = CpuRead | CpuWrite | DataShared | DataModified | SnoopRead | SnoopWrite

  /** The state after an event; none where the protocol reports an error. */
  function Transition(state: State, event: Event): (after: Option<State>) {
    match (state, event)
    case (Invalid, CpuRead) => Some(InvalidToShared)
    case (Invalid, CpuWrite) => Some(InvalidToModified)
    case (Invalid, SnoopRead) => Some(Invalid)
    case (Invalid, SnoopWrite) => Some(Invalid)
    case (Shared, CpuRead) => Some(Shared)
    case (Shared, CpuWrite) => Some(SharedToModified)
    case (Shared, SnoopRead) => Some(Shared)
    case (Shared, SnoopWrite) => Some(Invalid)
    case (Modified, CpuRead) => Some(Modified)
    case (Modified, CpuWrite) => Some(Modified)
    case (Modified, SnoopRead) => Some(Shared)
    case (Modified, SnoopWrite) => Some(Invalid)
    case (InvalidToShared, DataShared) => Some(Shared)
    case (InvalidToModified, DataModified) => Some(Modified)
    case (SharedToModified, DataModified) => Some(Modified)
    case _ => None
  }

  function CpuEvent(op: Operation): (event: Event) {
    if op.InstructionFetch? || op.ReadShared? || op.LoadLocked? || op.PrefetchRead? then CpuRead else CpuWrite
  }

  // ----- the controller

  datatype ControllerError =
    | WrongLine
    | LineBusy
    | NoPendingMiss
    | UnexpectedFill
    | LineDataUnavailable
    | LineDataSizeMismatch
    | AccessOutsideLine
    | MemoryFailure(error: MemoryError)
    | Protocol

  datatype Outcome = Hit(response: Response) | Miss(downstream: Request) | Fill(response: Response)

  datatype PendingMiss = PendingMiss(original: Request, downstream: nat, fillEvent: Event)

  datatype Controller = Controller(
    agent: nat,
    lineBytes: nat,
    line: nat,
    state: State,
    nextSequence: nat,
    data: Option<seq<Byte>>,
    pending: Option<PendingMiss>,
    reservations: map<nat, nat>)

  function New(agent: nat, lineBytes: nat, address: nat): (c: Controller)
    requires lineBytes > 0
  {
    Controller(agent, lineBytes, LineOf(address, lineBytes), Invalid, 0, None, None, map[])
  }

  predicate Valid(c: Controller) {
    && c.lineBytes > 0
    && (c.data.Some? ==> |c.data.value| == c.lineBytes)
    && (c.pending.Some? ==> c.pending.value.original.WellFormed())
  }

  predicate SameLine(c: Controller, c': Controller) {
    c'.agent == c.agent && c'.lineBytes == c.lineBytes && c'.line == c.line
  }

  type Reply = Result<Response, ControllerError>

  function Lift(reply: Result<Response, MemoryError>): (r: Reply) {
    match reply
    case Ok(v) => Ok(v)
    case Err(e) => Err(MemoryFailure(e))
  }

  function ReadSlice(c: Controller, r: Request): (bytes: Result<seq<Byte>, ControllerError>)
    requires Valid(c)
    ensures bytes.Ok? ==> |bytes.value| == r.size
  {
    if !r.InLine(c.lineBytes) then Err(AccessOutsideLine)
    else if c.data.None? then Err(LineDataUnavailable)
    else Ok(Slice(c.data.value, r.address % c.lineBytes, r.size))
  }

  /** Masked store, then loss of the reservations it overlaps. */
  function StoreData(c: Controller, r: Request, payload: seq<Byte>): (c': Result<Controller, ControllerError>)
    requires Valid(c) && r.WellFormed() && |payload| == r.size
    ensures c'.Ok? ==> Valid(c'.value) && SameLine(c, c'.value)
  {
    if !r.InLine(c.lineBytes) then Err(AccessOutsideLine)
    else if c.data.None? then Err(LineDataUnavailable)
    else
      Ok(c.(data := Some(Stored(c.data.value, r.address % c.lineBytes, payload, r.mask)),
            reservations := Backing.Surviving(c.reservations, r)))
  }

  /** `complete_cpu_request`: serve the request from the line. */
  function CompleteRequest(c: Controller, r: Request): (out: (Controller, Reply))
    requires Valid(c) && r.WellFormed()
    ensures Valid(out.0) && SameLine(c, out.0)
  {
    if r.operation.IsAtomic() then
      match ReadSlice(c, r)
      case Err(e) => (c, Err(e))
      case Ok(prior) =>
        match AtomicData(r, prior)
        case Err(e) => (c, Err(MemoryFailure(e)))
        case Ok(bytes) =>
          (StoreData(c, r, bytes).value, Lift(Complete(r, if r.operation.ReturnsData() then Some(prior) else None)))
    else if r.operation.LoadLocked? then
      match ReadSlice(c, r)
      case Err(e) => (c, Err(e))
      case Ok(bytes) =>
        (c.(reservations := c.reservations[r.agent := r.Granule()]), Lift(Complete(r, Some(bytes))))
    else if r.operation.StoreConditional? && !Backing.MaySucceed(c.reservations, r) then
      (c, Lift(FailStoreConditional(r)))
    else if r.operation.StoreConditionalFail? then
      (c, Lift(FailStoreConditional(r)))
    else if r.operation.CarriesData() then
      match StoreData(c, r, r.data.value)
      case Err(e) => (c, Err(e))
      case Ok(c') => (c', Lift(Complete(r, None)))
    else if r.operation.ReturnsData() then
      match ReadSlice(c, r)
      case Err(e) => (c, Err(e))
      case Ok(bytes) => (c, Lift(Complete(r, Some(bytes))))
    else
      (c, Lift(Complete(r, None)))
  }

  /** The request sent downstream on a miss out of state `before`: one byte for an upgrade, the whole
  line otherwise. The last line of the address space has no range of its own to ask for. */
  function DownstreamRequest(c: Controller, r: Request, before: State): (d: Result<Request, MemoryError>) {
    var op := if CpuEvent(r.operation).CpuRead? then ReadShared else if before.Shared? then Upgrade else ReadUnique;
    var size := if op.Upgrade? then 1 else c.lineBytes;
    if c.line + size > U64_MAX then Err(AddressOverflow)
    else Ok(Request(c.agent, c.nextSequence, op, c.line, size,
                    None, None, None, None, r.barrierBefore, r.barrierAfter, r.uncacheable, r.strictOrder, true))
  }

  function AcceptCpuRequest(c: Controller, r: Request): (out: (Controller, Result<Outcome, ControllerError>))
    requires Valid(c) && r.WellFormed()
    ensures Valid(out.0) && SameLine(c, out.0)
  {
    if r.LineAddress(c.lineBytes) != c.line then (c, Err(WrongLine))
    else if r.operation.NoAccess? then
      (c, match Complete(r, None) case Ok(v) => Ok(Hit(v)) case Err(e) => Err(MemoryFailure(e)))
    else if c.state.IsTransient() then (c, Err(LineBusy))
    else
      var after := Transition(c.state, CpuEvent(r.operation)).value;
      if after.IsTransient() then
        var c' := c.(state := after, nextSequence := c.nextSequence + 1);
        match DownstreamRequest(c, r, c.state)
        case Err(e) => (c', Err(MemoryFailure(e)))
        case Ok(d) =>
          var fillEvent := if after.InvalidToShared? then DataShared else DataModified;
          (c'.(pending := Some(PendingMiss(r, d.sequence, fillEvent))), Ok(Miss(d)))
      else
        var (c', reply) := CompleteRequest(c.(state := after), r);
        (c', match reply case Ok(v) => Ok(Hit(v)) case Err(e) => Err(e))
  }

  function AcceptFill(c: Controller, response: Response): (out: (Controller, Result<Outcome, ControllerError>))
    requires Valid(c)
    ensures Valid(out.0) && SameLine(c, out.0)
  {
    if c.pending.None? then (c, Err(NoPendingMiss))
    else
      var p := c.pending.value;
      if response.agent != c.agent || response.sequence != p.downstream then (c, Err(UnexpectedFill))
      else
        match Transition(c.state, p.fillEvent)
        case None => (c.(pending := None), Err(Protocol))
        case Some(after) =>
          var settled := c.(pending := None, state := after);
          if response.data.Some? && |response.data.value| != c.lineBytes then (settled, Err(LineDataSizeMismatch))
          else
            var installed :=
              if response.data.Some? then settled.(data := response.data, reservations := map[]) else settled;
            var (c', reply) := CompleteRequest(installed, p.original);
            (c', match reply case Ok(v) => Ok(Fill(v)) case Err(e) => Err(e))
  }

  // ----- transparency

  /** A controller and the memory behind it. */
  datatype Cached = Cached(cache: Controller, memory: Backing.Store)

  /** One access through the cache: a miss goes to memory and its fill comes straight back. */
  function Access(s: Cached, r: Request): (out: (Cached, Reply))
    requires Valid(s.cache) && Backing.Valid(s.memory) && r.WellFormed()
    requires s.memory.lineBytes == s.cache.lineBytes
    ensures Valid(out.0.cache) && SameLine(s.cache, out.0.cache)
    ensures Backing.Valid(out.0.memory) && out.0.memory.lineBytes == s.memory.lineBytes
  {
    match AcceptCpuRequest(s.cache, r)
    case (c, Err(e)) => (s.(cache := c), Err(e))
    case (c, Ok(Miss(d))) =>
      (match Backing.Respond(s.memory, d)
       case (m, Err(_)) => (Cached(c, m), Err(LineDataUnavailable))
       case (m, Ok(response)) =>
         match AcceptFill(c, response)
         case (c', Err(e)) => (Cached(c', m), Err(e))
         case (c', Ok(outcome)) => (Cached(c', m), if outcome.Miss? then Err(LineBusy) else Ok(outcome.response)))
    case (c, Ok(outcome)) => (s.(cache := c), Ok(outcome.response))
  }

  /** Operations that the line controller and the backing store agree on. The other five are
  instruction fetches and failed upgrades, whose data the store does not return, and writebacks,
  which the store answers with a retry. */
  predicate Transparent(op: Operation) {
    !op.InstructionFetch? && !op.StoreConditionalUpgradeFail? && !op.IsWriteback()
  }

  /** The bare store's reply, in the controller's error type. */
  function Translate(reply: Backing.Reply): (r: Reply) {
    match reply
    case Ok(v) => Ok(v)
    case Err(WrongLine) => Err(WrongLine)
    case Err(LineDataSizeMismatch) => Err(AccessOutsideLine)
    case Err(MemoryFailure(e)) => Err(MemoryFailure(e))
  }

  /** The cache holds the line as the bare store does, or holds nothing and memory does. */
  predicate Agrees(s: Cached, bare: Backing.Store) {
    && Valid(s.cache) && Backing.Valid(bare) && Backing.Valid(s.memory)
    && s.cache.lineBytes == bare.lineBytes == s.memory.lineBytes
    && s.cache.line == bare.line == s.memory.line
    && s.cache.line % s.cache.lineBytes == 0
    && s.cache.pending.None?
    && s.cache.reservations == bare.reservations
    && match s.cache.state
       case Invalid => s.cache.data.None? && s.memory.data == bare.data && bare.reservations == map[]
       case Shared | Modified => s.cache.data == Some(bare.data)
       case _ => false
  }

  /** Serving a request from a line that holds the store's data is what the store does. */
  lemma ServeAgrees(c: Controller, memory: Backing.Store, bare: Backing.Store, r: Request)
    requires Agrees(Cached(c, memory), bare) && !c.state.Invalid?
    requires r.WellFormed() && r.InLine(c.lineBytes) && r.LineAddress(c.lineBytes) == c.line
    requires Transparent(r.operation)
    ensures
      var (c', reply) := CompleteRequest(c, r);
      var (bare', expected) := Backing.Respond(bare, r);
      reply == Translate(expected) && Agrees(Cached(c', memory), bare')
  {
  }

  /** The line as a fill leaves it, before the waiting request is served. */
  function Filled(c: Controller, r: Request, data: seq<Byte>): (filled: Controller) {
    c.(pending := None, data := Some(data), state := if CpuEvent(r.operation).CpuRead? then Shared else Modified)
  }

  /** The line has a range of its own, so a fill of it can be asked for. */
  predicate Fillable(line: nat, lineBytes: nat) {
    line + lineBytes <= U64_MAX
  }

  lemma MissGoesToMemory(s: Cached, bare: Backing.Store, r: Request)
    requires Agrees(s, bare) && Transition(s.cache.state, CpuEvent(r.operation)).value.IsTransient()
    requires r.WellFormed() && r.LineAddress(s.cache.lineBytes) == s.cache.line && !r.operation.NoAccess?
    requires s.cache.state.Invalid? ==> Fillable(s.cache.line, s.cache.lineBytes)
    ensures
      var (c, outcome) := AcceptCpuRequest(s.cache, r);
      && outcome.Ok? && outcome.value.Miss?
      && var d := outcome.value.downstream;
      && Backing.Respond(s.memory, d) == (s.memory, Ok(Response(d.agent, d.sequence, Completed,
           if s.cache.state.Invalid? then Some(bare.data) else None)))
      && Agrees(Cached(Filled(c, r, bare.data), s.memory), bare)
  {
    var d := DownstreamRequest(s.cache, r, s.cache.state).value;
    assert Slice(s.memory.data, 0, s.memory.lineBytes) == s.memory.data;
    assert d.LineAddress(s.memory.lineBytes) == s.memory.line;
  }

  lemma FillServesRequest(s: Cached, bare: Backing.Store, r: Request)
    requires Agrees(s, bare) && Transition(s.cache.state, CpuEvent(r.operation)).value.IsTransient()
    requires r.WellFormed() && r.LineAddress(s.cache.lineBytes) == s.cache.line && !r.operation.NoAccess?
    requires s.cache.state.Invalid? ==> Fillable(s.cache.line, s.cache.lineBytes)
    ensures
      var (c, outcome) := AcceptCpuRequest(s.cache, r);
      && outcome.Ok? && outcome.value.Miss?
      && var d := outcome.value.downstream;
      var (c', filled) := AcceptFill(c, Response(d.agent, d.sequence, Completed,
        if s.cache.state.Invalid? then Some(bare.data) else None));
      var (served, reply) := CompleteRequest(Filled(c, r, bare.data), r);
      && c' == served
      && (match reply case Ok(v) => filled == Ok(Fill(v)) case Err(e) => filled == Err(e))
  {
    var c := AcceptCpuRequest(s.cache, r).0;
    if s.cache.state.Invalid? {
      assert c.(pending := None, state := Transition(c.state, c.pending.value.fillEvent).value,
                data := Some(bare.data), reservations := map[]) == Filled(c, r, bare.data);
    } else {
      assert c.(pending := None, state := Transition(c.state, c.pending.value.fillEvent).value)
        == Filled(c, r, bare.data);
    }
  }

  /** A line that cannot be asked for: the first access leaves it waiting for a fill that is not
  on its way, and from then on nothing gets through. */
  lemma UnfillableLineIsLost(c: Controller, r: Request, later: Request, response: Response)
    requires Valid(c) && c.state.Invalid? && c.pending.None? && !Fillable(c.line, c.lineBytes)
    requires r.WellFormed() && r.LineAddress(c.lineBytes) == c.line && !r.operation.NoAccess?
    requires later.WellFormed() && later.LineAddress(c.lineBytes) == c.line && !later.operation.NoAccess?
    ensures
      var (lost, outcome) := AcceptCpuRequest(c, r);
      && outcome == Err(MemoryFailure(AddressOverflow))
      && lost.state.IsTransient() && lost.pending.None?
      && AcceptCpuRequest(lost, later) == (lost, Err(LineBusy))
      && AcceptFill(lost, response) == (lost, Err(NoPendingMiss))
  {
  }

  /** What the cache and the bare store agree on: requests for other lines, and transparent operations
  that need no fill of a line that cannot be asked for. */
  predicate Agreeable(c: Controller, r: Request)
    requires c.lineBytes > 0
  {
    || r.LineAddress(c.lineBytes) != c.line
    || (Transparent(r.operation)
        && (r.operation.NoAccess? || !c.state.Invalid? || Fillable(c.line, c.lineBytes)))
  }

  lemma AccessAgrees(s: Cached, bare: Backing.Store, r: Request)
    requires Agrees(s, bare)
    requires r.WellFormed() && r.InLine(bare.lineBytes) && Agreeable(s.cache, r)
    ensures
      var (s', reply) := Access(s, r);
      var (bare', expected) := Backing.Respond(bare, r);
      reply == Translate(expected) && Agrees(s', bare')
  {
    if r.LineAddress(bare.lineBytes) == bare.line && !r.operation.NoAccess? {
      var after := Transition(s.cache.state, CpuEvent(r.operation)).value;
      if after.IsTransient() {
        MissGoesToMemory(s, bare, r);
        FillServesRequest(s, bare, r);
        ServeAgrees(Filled(AcceptCpuRequest(s.cache, r).0, r, bare.data), s.memory, bare, r);
      } else {
        ServeAgrees(s.cache.(state := after), s.memory, bare, r);
      }
    }
  }

  /** For the five other operations, serving from the line is not what the store does. */
  lemma ServeDiffers(c: Controller, memory: Backing.Store, bare: Backing.Store, r: Request)
    requires Agrees(Cached(c, memory), bare) && !c.state.Invalid?
    requires r.WellFormed() && r.InLine(c.lineBytes) && r.LineAddress(c.lineBytes) == c.line
    requires !Transparent(r.operation)
    ensures CompleteRequest(c, r).1 != Translate(Backing.Respond(bare, r).1)
  {
  }

  lemma AccessDiffers(s: Cached, bare: Backing.Store, r: Request)
    requires Agrees(s, bare) && (s.cache.state.Invalid? ==> Fillable(bare.line, bare.lineBytes))
    requires r.WellFormed() && r.InLine(bare.lineBytes) && r.LineAddress(bare.lineBytes) == bare.line
    requires !Transparent(r.operation)
    ensures Access(s, r).1 != Translate(Backing.Respond(bare, r).1)
  {
    var after := Transition(s.cache.state, CpuEvent(r.operation)).value;
    if after.IsTransient() {
      MissGoesToMemory(s, bare, r);
      FillServesRequest(s, bare, r);
      ServeDiffers(Filled(AcceptCpuRequest(s.cache, r).0, r, bare.data), s.memory, bare, r);
    } else {
      ServeDiffers(s.cache.(state := after), s.memory, bare, r);
    }
  }

  /** Exactly when the cache answers as the bare store would. For the five operations outside
  `Transparent` the replies differ whatever the line holds; for the others only on a line that has
  to be filled and cannot be asked for. */
  lemma AgreementIsExact(s: Cached, bare: Backing.Store, r: Request)
    requires Agrees(s, bare)
    requires r.WellFormed() && r.InLine(bare.lineBytes)
    ensures Access(s, r).1 == Translate(Backing.Respond(bare, r).1) <==> Agreeable(s.cache, r)
  {
    if Agreeable(s.cache, r) {
      AccessAgrees(s, bare, r);
    } else if s.cache.state.Invalid? && !Fillable(s.cache.line, s.cache.lineBytes) {
      UnfillableLineIsLost(s.cache, r, r, Response(0, 0, Retry, None));
    } else {
      AccessDiffers(s, bare, r);
    }
  }

  function RunCached(s: Cached, requests: seq<Request>): (out: (Cached, seq<Reply>))
    requires Valid(s.cache) && Backing.Valid(s.memory) && s.memory.lineBytes == s.cache.lineBytes
    requires forall r :: r in requests ==> r.WellFormed()
    decreases |requests|
  {
    if requests == [] then (s, [])
    else
      var (s', reply) := Access(s, requests[0]);
      var (end, replies) := RunCached(s', requests[1..]);
      (end, [reply] + replies)
  }

  function RunBare(bare: Backing.Store, requests: seq<Request>): (out: (Backing.Store, seq<Reply>))
    requires Backing.Valid(bare)
    requires forall r :: r in requests ==> r.WellFormed() && r.InLine(bare.lineBytes)
    decreases |requests|
  {
    if requests == [] then (bare, [])
    else
      var (bare', reply) := Backing.Respond(bare, requests[0]);
      var (end, replies) := RunBare(bare', requests[1..]);
      (end, [Translate(reply)] + replies)
  }

  /** A request that a cache starting empty answers as the bare store, whatever came before. */
  predicate Served(line: nat, lineBytes: nat, r: Request)
    requires lineBytes > 0
  {
    || r.LineAddress(lineBytes) != line
    || (Transparent(r.operation) && (r.operation.NoAccess? || Fillable(line, lineBytes)))
  }

  predicate AllServed(line: nat, lineBytes: nat, requests: seq<Request>)
    requires lineBytes > 0
  {
    forall i :: 0 <= i < |requests| ==> Served(line, lineBytes, requests[i])
  }

  /** A served request leaves the cache able to go on: filled at will, or still empty. */
  lemma ServedGoesOn(s: Cached, bare: Backing.Store, r: Request)
    requires Agrees(s, bare) && (s.cache.state.Invalid? || Fillable(bare.line, bare.lineBytes))
    requires r.WellFormed() && r.InLine(bare.lineBytes) && Served(bare.line, bare.lineBytes, r)
    ensures
      var s' := Access(s, r).0;
      s'.cache.state.Invalid? || Fillable(bare.line, bare.lineBytes)
  {
  }

  lemma {:induction false} RunsAgreeIff(s: Cached, bare: Backing.Store, requests: seq<Request>)
    requires Agrees(s, bare) && (s.cache.state.Invalid? || Fillable(bare.line, bare.lineBytes))
    requires forall r :: r in requests ==> r.WellFormed() && r.InLine(bare.lineBytes)
    ensures RunCached(s, requests).1 == RunBare(bare, requests).1 <==> AllServed(bare.line, bare.lineBytes, requests)
    ensures AllServed(bare.line, bare.lineBytes, requests)
        ==> Agrees(RunCached(s, requests).0, RunBare(bare, requests).0)
    decreases |requests|
  {
    if requests != [] {
      var r := requests[0];
      var (s', reply) := Access(s, r);
      var (bare', expected) := Backing.Respond(bare, r);
      AgreementIsExact(s, bare, r);
      assert RunCached(s, requests).1[0] == reply && RunBare(bare, requests).1[0] == Translate(expected);
      if Served(bare.line, bare.lineBytes, r) {
        AccessAgrees(s, bare, r);
        ServedGoesOn(s, bare, r);
        RunsAgreeIff(s', bare', requests[1..]);
        assert RunCached(s, requests).1[1..] == RunCached(s', requests[1..]).1;
        assert RunBare(bare, requests).1[1..] == RunBare(bare', requests[1..]).1;
        ServedTail(bare.line, bare.lineBytes, requests);
      }
    }
  }

  lemma ServedTail(line: nat, lineBytes: nat, requests: seq<Request>)
    requires lineBytes > 0 && requests != [] && Served(line, lineBytes, requests[0])
    ensures AllServed(line, lineBytes, requests) <==> AllServed(line, lineBytes, requests[1..])
  {
    forall i | 0 < i < |requests|
      ensures requests[i] == requests[1..][i - 1]
    {
    }
  }

  /** Cache transparency, exactly: a fresh controller in front of a store gives the replies of the
  store alone if and only if every request is served, and then it holds the store's line data and
  reservations too. On every line but the last one of the address space that is every sequence of
  transparent operations. */
  lemma CacheIsTransparent(agent: nat, store: Backing.Store, requests: seq<Request>)
    requires Backing.Valid(store) && store.reservations == map[] && store.line % store.lineBytes == 0
    requires forall r :: r in requests ==> r.WellFormed() && r.InLine(store.lineBytes)
    ensures
      var (cached, replies) := RunCached(Cached(New(agent, store.lineBytes, store.line), store), requests);
      var (bare, expected) := RunBare(store, requests);
      && (replies == expected <==> AllServed(store.line, store.lineBytes, requests))
      && (replies == expected ==>
            && bare.data == (if cached.cache.data.Some? then cached.cache.data.value else cached.memory.data)
            && bare.reservations == cached.cache.reservations)
  {
    RunsAgreeIff(Cached(New(agent, store.lineBytes, store.line), store), store, requests);
  }

  // ----- permissions: what is asked for and what is held

  /** The processor asks, and memory, or anyone, answers. */
  datatype Step = Asks(request: Request) | Fills(response: Response)

  /** The controller, and the requests it has sent downstream. */
  datatype Log = Log(cache: Controller, sent: seq<Request>)

  predicate StepOk(step: Step) {
    step.Asks? ==> step.request.WellFormed()
  }

  function Take(l: Log, step: Step): (l': Log)
    requires Valid(l.cache) && StepOk(step)
    ensures Valid(l'.cache) && SameLine(l.cache, l'.cache)
  {
    match step
    case Asks(r) =>
      var (c, outcome) := AcceptCpuRequest(l.cache, r);
      Log(c, if outcome.Ok? && outcome.value.Miss? then l.sent + [outcome.value.downstream] else l.sent)
    case Fills(response) => l.(cache := AcceptFill(l.cache, response).0)
  }

  function RunLog(start: Controller, steps: seq<Step>): (l: Log)
    requires Valid(start) && forall i :: 0 <= i < |steps| ==> StepOk(steps[i])
    ensures Valid(l.cache) && SameLine(start, l.cache)
  {
    if steps == [] then Log(start, [])
    else Take(RunLog(start, steps[..|steps| - 1]), steps[|steps| - 1])
  }

  /** The last request sent, while the line waits for its answer or by its answer, was of this kind. */
  predicate LastSent(l: Log, kinds: set<Operation>) {
    l.sent != [] && l.sent[|l.sent| - 1].operation in kinds
  }

  predicate WaitsFor(l: Log, event: Event, kinds: set<Operation>) {
    l.cache.pending.Some? ==> l.cache.pending.value.fillEvent == event && LastSent(l, kinds)
  }

  /** What the state entitles to was asked for: to be shared by a read of the line, to be written by a
  read that makes it unique or by an upgrade. A line that waits has asked for what it waits for,
  unless its request could not be formed. */
  predicate Entitled(l: Log) {
    var c := l.cache;
    && (c.pending.Some? ==> l.sent != [] && c.pending.value.downstream == l.sent[|l.sent| - 1].sequence)
    && match c.state
       case Invalid => c.pending.None?
       case Shared => c.pending.None? && LastSent(l, {ReadShared})
       case Modified => c.pending.None? && LastSent(l, {ReadUnique, Upgrade})
       case InvalidToShared => WaitsFor(l, DataShared, {ReadShared})
       case InvalidToModified => WaitsFor(l, DataModified, {ReadUnique})
       case SharedToModified => WaitsFor(l, DataModified, {Upgrade})
  }

  /** Each request sent is this controller's, for its line, and has a sequence number of its own. */
  predicate SentInOrder(l: Log) {
    && (forall i :: 0 <= i < |l.sent| ==> SentOk(l.cache, l.sent[i]))
    && (forall i, j :: 0 <= i < j < |l.sent| ==> l.sent[i].sequence < l.sent[j].sequence)
  }

  predicate SentOk(c: Controller, d: Request) {
    && d.WellFormed() && d.agent == c.agent && d.address == c.line && d.sequence < c.nextSequence
    && (d.operation.ReadShared? || d.operation.ReadUnique? || d.operation.Upgrade?)
    && d.size == (if d.operation.Upgrade? then 1 else c.lineBytes)
  }

  /** A completion moves no state, no sequence number and no miss. */
  lemma CompletionKeeps(c: Controller, r: Request)
    requires Valid(c) && r.WellFormed()
    ensures
      var c' := CompleteRequest(c, r).0;
      c' == c.(data := c'.data, reservations := c'.reservations) && c'.data.Some? == c.data.Some?
  {
  }

  /** The request leaves the line to wait for a fill of it, or for leave to write it. */
  predicate Misses(c: Controller, r: Request)
    requires c.lineBytes > 0
  {
    && r.LineAddress(c.lineBytes) == c.line && !r.operation.NoAccess?
    && (c.state.Invalid? || (c.state.Shared? && CpuEvent(r.operation).CpuWrite?))
  }

  /** A request that does not miss moves no state, and sends nothing. */
  lemma AskStays(c: Controller, r: Request)
    requires Valid(c) && r.WellFormed() && !Misses(c, r)
    ensures
      var (c', outcome) := AcceptCpuRequest(c, r);
      && c' == c.(data := c'.data, reservations := c'.reservations) && c'.data.Some? == c.data.Some?
      && (outcome.Ok? ==> outcome.value.Hit?)
  {
    if r.LineAddress(c.lineBytes) == c.line && !r.operation.NoAccess? && !c.state.IsTransient() {
      assert Transition(c.state, CpuEvent(r.operation)) == Some(c.state);
      CompletionKeeps(c, r);
      assert c.(state := c.state) == c;
    }
  }

  /** A request that misses sends one request for the permission it lacks, or none when that request
  cannot be formed, and leaves the line waiting. */
  lemma AskMisses(c: Controller, r: Request)
    requires Valid(c) && r.WellFormed() && Misses(c, r)
    ensures
      var (c', outcome) := AcceptCpuRequest(c, r);
      var read := CpuEvent(r.operation).CpuRead?;
      && c'.state == (if c.state.Shared? then SharedToModified else if read then InvalidToShared else InvalidToModified)
      && c'.nextSequence == c.nextSequence + 1 && c'.data == c.data
      && (outcome.Err? ==> c'.pending == c.pending && !Fillable(c.line, c.lineBytes))
      && (outcome.Ok? ==>
            && outcome.value.Miss? && SentOk(c', outcome.value.downstream)
            && outcome.value.downstream.sequence == c.nextSequence
            && outcome.value.downstream.operation
               == (if c.state.Shared? then Upgrade else if read then ReadShared else ReadUnique)
            && c'.pending == Some(PendingMiss(r, c.nextSequence, if read then DataShared else DataModified)))
  {
  }

  lemma AskIsEntitled(l: Log, r: Request)
    requires Valid(l.cache) && r.WellFormed() && Entitled(l) && SentInOrder(l)
    ensures
      var l' := Take(l, Asks(r));
      Entitled(l') && SentInOrder(l') && l.cache.nextSequence <= l'.cache.nextSequence
  {
    var (c, outcome) := AcceptCpuRequest(l.cache, r);
    if Misses(l.cache, r) {
      AskMisses(l.cache, r);
      if outcome.Ok? {
        MissIsEntitled(l, r, c, outcome.value.downstream);
      }
    } else {
      AskStays(l.cache, r);
    }
  }

  lemma MissIsEntitled(l: Log, r: Request, c: Controller, d: Request)
    requires SentInOrder(l) && SameLine(l.cache, c) && SentOk(c, d)
    requires d.sequence == l.cache.nextSequence && c.nextSequence == l.cache.nextSequence + 1
    requires c.pending.Some? && c.pending.value.downstream == d.sequence
    requires match c.state
      case InvalidToShared => c.pending.value.fillEvent.DataShared? && d.operation.ReadShared?
      case InvalidToModified => c.pending.value.fillEvent.DataModified? && d.operation.ReadUnique?
      case SharedToModified => c.pending.value.fillEvent.DataModified? && d.operation.Upgrade?
      case _ => false
    ensures Entitled(Log(c, l.sent + [d])) && SentInOrder(Log(c, l.sent + [d]))
  {
  }

  lemma FillIsEntitled(l: Log, response: Response)
    requires Valid(l.cache) && Entitled(l) && SentInOrder(l)
    ensures
      var l' := Take(l, Fills(response));
      Entitled(l') && SentInOrder(l') && l.cache.nextSequence <= l'.cache.nextSequence
  {
    var c := l.cache;
    if c.pending.Some? && Transition(c.state, c.pending.value.fillEvent).Some? {
      var settled := c.(pending := None, state := Transition(c.state, c.pending.value.fillEvent).value);
      var installed := settled.(data := response.data, reservations := map[]);
      if response.data.Some? && |response.data.value| == c.lineBytes {
        CompletionKeeps(installed, c.pending.value.original);
      } else if response.data.None? {
        CompletionKeeps(settled, c.pending.value.original);
      }
    }
  }

  /** Over every run of requests and responses the line is held only with the permission it last asked
  for: shared after a read, writable after a read that makes it unique or an upgrade. */
  lemma {:induction false} PermissionsAskedFor(agent: nat, lineBytes: nat, address: nat, steps: seq<Step>)
    requires lineBytes > 0 && forall i :: 0 <= i < |steps| ==> StepOk(steps[i])
    ensures
      var l := RunLog(New(agent, lineBytes, address), steps);
      Entitled(l) && SentInOrder(l)
  {
    if steps != [] {
      var n := |steps| - 1;
      PermissionsAskedFor(agent, lineBytes, address, steps[..n]);
      var l := RunLog(New(agent, lineBytes, address), steps[..n]);
      match steps[n]
      case Asks(r) => AskIsEntitled(l, r);
      case Fills(response) => FillIsEntitled(l, response);
    }
  }

  /** What each kind of request does: on a line held for reading exactly the four kinds of read are
  answered at once, and everything else asks for an upgrade. On an absent line the four kinds ask
  to share it and everything else to own it. A line that is owned serves all. */
  lemma AsksFor(c: Controller, r: Request)
    requires Valid(c) && r.WellFormed() && r.LineAddress(c.lineBytes) == c.line && !r.operation.NoAccess?
    requires !c.state.IsTransient() && Fillable(c.line, c.lineBytes)
    ensures
      var outcome := AcceptCpuRequest(c, r).1;
      var read := r.operation.InstructionFetch? || r.operation.ReadShared? || r.operation.LoadLocked?
                  || r.operation.PrefetchRead?;
      if c.state.Invalid? then
        && outcome.Ok? && outcome.value.Miss?
        && outcome.value.downstream.operation == if read then ReadShared else ReadUnique
      else if c.state.Shared? && !read then
        outcome.Ok? && outcome.value.Miss? && outcome.value.downstream.operation == Upgrade
      else outcome.Ok? ==> outcome.value.Hit?
  {
  }

  /** What a miss sends stands in its agent's order where the request stands, as far as that follows
  from the request's own strictness and barriers, and asks for the whole line, or for its first byte
  when only the permission is missing. */
  lemma MissKeepsOrder(c: Controller, r: Request, d: Request, other: Request)
    requires Valid(c) && r.WellFormed() && r.agent == c.agent && AcceptCpuRequest(c, r).1 == Ok(Miss(d))
    ensures other.barrierBefore.None? ==> (d.OrdersBefore(other) <==> r.OrdersBefore(other))
    ensures other.barrierAfter.None? ==> (other.OrdersBefore(d) <==> other.OrdersBefore(r))
    ensures d.WellFormed() && d.responseRequired && d.uncacheable == r.uncacheable
    ensures d.address == c.line && d.size == if c.state.Shared? then 1 else c.lineBytes
  {
  }

  /** A hit that changes the line finds it owned. */
  lemma WritesNeedOwnership(c: Controller, r: Request)
    requires Valid(c) && r.WellFormed() && c.pending.None?
    ensures AcceptCpuRequest(c, r).0.data != c.data ==> c.state.Modified?
  {
  }

  /** A fill that brings the line leaves no reservation but the one of the load-locked it serves. */
  lemma FillDropsReservations(c: Controller, response: Response, agent: nat)
    requires Valid(c) && c.pending.Some? && Transition(c.state, c.pending.value.fillEvent).Some?
    requires response.agent == c.agent && response.sequence == c.pending.value.downstream
    requires response.data.Some? && |response.data.value| == c.lineBytes
    ensures
      var c', original := AcceptFill(c, response).0, c.pending.value.original;
      agent in c'.reservations ==>
        original.operation.LoadLocked? && original.agent == agent && c'.reservations[agent] == original.Granule()
  {
  }

  /** In no run does a response meet a state that its miss does not lead out of. */
  lemma RunFollowsProtocol(agent: nat, lineBytes: nat, address: nat, steps: seq<Step>, response: Response)
    requires lineBytes > 0 && forall i :: 0 <= i < |steps| ==> StepOk(steps[i])
    ensures AcceptFill(RunLog(New(agent, lineBytes, address), steps).cache, response).1 != Err(Protocol)
  {
    PermissionsAskedFor(agent, lineBytes, address, steps);
    CompletesInProtocol(RunLog(New(agent, lineBytes, address), steps), response);
  }

  lemma CompletesInProtocol(l: Log, response: Response)
    requires Valid(l.cache) && Entitled(l)
    ensures AcceptFill(l.cache, response).1 != Err(Protocol)
  {
  }

  /** A response that answers no miss of the line is refused and changes nothing. */
  lemma StrayResponse(c: Controller, response: Response)
    requires Valid(c)
    requires c.pending.None? || response.agent != c.agent || response.sequence != c.pending.value.downstream
    ensures AcceptFill(c, response).0 == c && AcceptFill(c, response).1.Err?
  {
  }

  // ----- a line that is held has data

  /** The line has data exactly when it may be read, or waits to be written. */
  predicate HeldHasData(c: Controller) {
    c.data.Some? <==> c.state.Shared? || c.state.Modified? || c.state.SharedToModified?
  }

  /** The response that resolves a miss leaves the line with data. */
  predicate Brings(c: Controller, step: Step) {
    step.Fills? && c.pending.Some? && step.response.agent == c.agent
    && step.response.sequence == c.pending.value.downstream && Transition(c.state, c.pending.value.fillEvent).Some?
    ==> c.data.Some? || (step.response.data.Some? && |step.response.data.value| == c.lineBytes)
  }

  lemma HeldIffBrings(l: Log, step: Step)
    requires Valid(l.cache) && StepOk(step) && Entitled(l) && HeldHasData(l.cache)
    ensures HeldHasData(Take(l, step).cache) <==> Brings(l.cache, step)
  {
    var c := l.cache;
    match step
    case Asks(r) =>
      if Misses(c, r) {
        AskMisses(c, r);
      } else {
        AskStays(c, r);
      }
    case Fills(response) =>
      if c.pending.Some? && Transition(c.state, c.pending.value.fillEvent).Some? {
        var settled := c.(pending := None, state := Transition(c.state, c.pending.value.fillEvent).value);
        var installed := settled.(data := response.data, reservations := map[]);
        if response.data.Some? && |response.data.value| == c.lineBytes {
          CompletionKeeps(installed, c.pending.value.original);
        } else if response.data.None? {
          CompletionKeeps(settled, c.pending.value.original);
        }
      }
  }

  ghost predicate AlwaysHeld(start: Controller, steps: seq<Step>)
    requires Valid(start) && forall i :: 0 <= i < |steps| ==> StepOk(steps[i])
  {
    HeldHasData(RunLog(start, steps).cache) && (steps != [] ==> AlwaysHeld(start, steps[..|steps| - 1]))
  }

  ghost predicate AlwaysBrings(start: Controller, steps: seq<Step>)
    requires Valid(start) && forall i :: 0 <= i < |steps| ==> StepOk(steps[i])
  {
    steps == [] ||
    var n := |steps| - 1;
    AlwaysBrings(start, steps[..n]) && Brings(RunLog(start, steps[..n]).cache, steps[n])
  }

  /** At every point of a run the line has data exactly when it is held, if and only if every response
  that resolves a miss leaves the line with data. */
  lemma {:induction false} RunHeldIff(agent: nat, lineBytes: nat, address: nat, steps: seq<Step>)
    requires lineBytes > 0 && forall i :: 0 <= i < |steps| ==> StepOk(steps[i])
    ensures AlwaysHeld(New(agent, lineBytes, address), steps) <==> AlwaysBrings(New(agent, lineBytes, address), steps)
  {
    if steps != [] {
      var n, start := |steps| - 1, New(agent, lineBytes, address);
      RunHeldIff(agent, lineBytes, address, steps[..n]);
      PermissionsAskedFor(agent, lineBytes, address, steps[..n]);
      var l := RunLog(start, steps[..n]);
      if HeldHasData(l.cache) {
        HeldIffBrings(l, steps[n]);
      }
    }
  }

  /** So while the responses bring data, an upgrade is sent exactly when the line has data already. */
  lemma UpgradeIffData(c: Controller, r: Request)
    requires Valid(c) && r.WellFormed() && HeldHasData(c)
    requires AcceptCpuRequest(c, r).1.Ok? && AcceptCpuRequest(c, r).1.value.Miss?
    ensures AcceptCpuRequest(c, r).1.value.downstream.operation.Upgrade? <==> c.data.Some?
  {
  }

  /** A snooped write takes the line away, a snooped read leaves it shared at most, and neither disturbs
  a line that is not held. */
  lemma SnoopsTake(state: State)
    requires !state.IsTransient()
    ensures Transition(state, SnoopWrite) == Some(Invalid)
    ensures Transition(state, SnoopRead) == Some(if state.Modified? then Shared else state)
  {
  }

  // ----- the controller as the program updates it

  class MsiCacheController {
    const agent: nat
    const lineBytes: nat
    const line: nat
    var state: State
    var nextSequence: nat
    var data: array?<Byte>
    var pending: Option<PendingMiss>
    var reservations: map<nat, nat>

    ghost function Footprint(): (f: set<object>)
      reads this
    {
      if data == null then {this} else {this, data}
    }

    ghost predicate Wf()
      reads this
    {
      && lineBytes > 0
      && (data != null ==> data.Length == lineBytes)
      && (pending.Some? ==> pending.value.original.WellFormed())
    }

    ghost function Value(): (c: Controller)
      reads Footprint()
    {
      Controller(agent, lineBytes, line, state, nextSequence,
                 if data == null then None else Some(data[..]), pending, reservations)
    }

    constructor (agent: nat, lineBytes: nat, address: nat)
      requires lineBytes > 0
      ensures Wf() && Value() == New(agent, lineBytes, address) && data == null
    {
      this.agent := agent;
      this.lineBytes := lineBytes;
      line := LineOf(address, lineBytes);
      state := Invalid;
      nextSequence := 0;
      data := null;
      pending := None;
      reservations := map[];
    }

    /** `apply_store_data` and `clear_locked_reservations`. */
    method ApplyStore(r: Request, payload: seq<Byte>) returns (ok: Result<(), ControllerError>)
      requires Wf() && r.WellFormed() && |payload| == r.size
      modifies this`reservations, data
      ensures Wf()
      ensures
        match StoreData(old(Value()), r, payload)
        case Ok(c) => ok.Ok? && Value() == c
        case Err(e) => ok == Err(e) && Value() == old(Value())
    {
      if !r.InLine(lineBytes) {
        return Err(AccessOutsideLine);
      }
      if data == null {
        return Err(LineDataUnavailable);
      }
      var offset := r.address % lineBytes;
      for index := 0 to |payload|
        invariant reservations == old(reservations)
        invariant forall i :: 0 <= i < lineBytes ==>
          data[i] == (if Writes(r.mask, payload, offset, i) && i < offset + index then payload[i - offset]
                      else old(data[i]))
      {
        if r.mask.None? || r.mask.value[index] {
          data[offset + index] := payload[index];
        }
      }
      assert data[..] == Stored(old(Value()).data.value, offset, payload, r.mask);
      reservations := Backing.Surviving(reservations, r);
      return Ok(());
    }

    method ReadBytes(r: Request) returns (bytes: Result<seq<Byte>, ControllerError>)
      requires Wf()
      ensures bytes == ReadSlice(Value(), r)
    {
      if !r.InLine(lineBytes) {
        return Err(AccessOutsideLine);
      }
      if data == null {
        return Err(LineDataUnavailable);
      }
      var offset := r.address % lineBytes;
      assert data[offset..offset + r.size] == data[..][offset..offset + r.size];
      return Ok(data[offset..offset + r.size]);
    }

    method CompleteCpuRequest(r: Request) returns (reply: Reply)
      requires Wf() && r.WellFormed()
      modifies this`reservations, data
      ensures Wf()
      ensures (Value(), reply) == CompleteRequest(old(Value()), r)
    {
      if r.operation.IsAtomic() {
        var prior := ReadBytes(r);
        if prior.Err? {
          return Err(prior.error);
        }
        var bytes := AtomicData(r, prior.value);
        if bytes.Err? {
          return Err(MemoryFailure(bytes.error));
        }
        var _ := ApplyStore(r, bytes.value);
        return Lift(Complete(r, if r.operation.ReturnsData() then Some(prior.value) else None));
      }
      if r.operation.LoadLocked? {
        var bytes := ReadBytes(r);
        if bytes.Err? {
          return Err(bytes.error);
        }
        reservations := reservations[r.agent := r.Granule()];
        return Lift(Complete(r, Some(bytes.value)));
      }
      if r.operation.StoreConditional? && !Backing.MaySucceed(reservations, r) {
        return Lift(FailStoreConditional(r));
      }
      if r.operation.StoreConditionalFail? {
        return Lift(FailStoreConditional(r));
      }
      if r.operation.CarriesData() {
        var stored := ApplyStore(r, r.data.value);
        if stored.Err? {
          return Err(stored.error);
        }
        return Lift(Complete(r, None));
      }
      if r.operation.ReturnsData() {
        var bytes := ReadBytes(r);
        if bytes.Err? {
          return Err(bytes.error);
        }
        return Lift(Complete(r, Some(bytes.value)));
      }
      return Lift(Complete(r, None));
    }

    /** `downstream_request`: the sequence number is used up even when there is nothing to send. */
    method Downstream(r: Request, before: State) returns (d: Result<Request, MemoryError>)
      modifies this`nextSequence
      ensures d == DownstreamRequest(old(Value()), r, before)
      ensures nextSequence == old(nextSequence) + 1
    {
      var op := if CpuEvent(r.operation).CpuRead? then ReadShared else if before.Shared? then Upgrade else ReadUnique;
      var size := if op.Upgrade? then 1 else lineBytes;
      var id := nextSequence;
      nextSequence := nextSequence + 1;
      if line + size > U64_MAX {
        return Err(AddressOverflow);
      }
      return Ok(Request(agent, id, op, line, size,
        None, None, None, None, r.barrierBefore, r.barrierAfter, r.uncacheable, r.strictOrder, true));
    }

    method AcceptRequest(r: Request) returns (outcome: Result<Outcome, ControllerError>)
      requires Wf() && r.WellFormed()
      modifies this, data
      ensures Wf() && data == old(data)
      ensures (Value(), outcome) == AcceptCpuRequest(old(Value()), r)
    {
      if r.LineAddress(lineBytes) != line {
        return Err(WrongLine);
      }
      if r.operation.NoAccess? {
        var reply := Complete(r, None);
        return match reply case Ok(v) => Ok(Hit(v)) case Err(e) => Err(MemoryFailure(e));
      }
      if state.IsTransient() {
        return Err(LineBusy);
      }
      var before := state;
      state := Transition(state, CpuEvent(r.operation)).value;
      if state.IsTransient() {
        var downstream := Downstream(r, before);
        if downstream.Err? {
          return Err(MemoryFailure(downstream.error));
        }
        var fillEvent := if state.InvalidToShared? then DataShared else DataModified;
        pending := Some(PendingMiss(r, downstream.value.sequence, fillEvent));
        return Ok(Miss(downstream.value));
      }
      var reply := CompleteCpuRequest(r);
      return match reply case Ok(v) => Ok(Hit(v)) case Err(e) => Err(e);
    }

    method AcceptFillResponse(response: Response) returns (outcome: Result<Outcome, ControllerError>)
      requires Wf()
      modifies this, data
      ensures Wf() && (data == old(data) || fresh(data))
      ensures (Value(), outcome) == AcceptFill(old(Value()), response)
    {
      if pending.None? {
        return Err(NoPendingMiss);
      }
      var p := pending.value;
      if response.agent != agent || response.sequence != p.downstream {
        return Err(UnexpectedFill);
      }
      pending := None;
      var after := Transition(state, p.fillEvent);
      if after.None? {
        return Err(Protocol);
      }
      state := after.value;
      if response.data.Some? {
        var bytes := response.data.value;
        if |bytes| != lineBytes {
          return Err(LineDataSizeMismatch);
        }
        reservations := map[];
        data := new Byte[|bytes|](i requires 0 <= i < |bytes| => bytes[i]);
        assert data[..] == bytes;
      }
      var reply := CompleteCpuRequest(p.original);
      return match reply case Ok(v) => Ok(Fill(v)) case Err(e) => Err(e);
    }
  }
}
