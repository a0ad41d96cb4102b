/** The one-line backing store: the plain memory that caches must agree with. */
module Backing {
  import opened Common
  import opened Memory

  datatype StoreError = WrongLine | LineDataSizeMismatch | MemoryFailure(error: MemoryError)

  type Reply = Result<Response, StoreError>

  datatype Store = Store(lineBytes: nat, line: nat, data: seq<Byte>, reservations: map<nat, nat>)

  predicate Valid(s: Store) {
    s.lineBytes > 0 && |s.data| == s.lineBytes
  }

  /** Requests the store is built for. Stores of bytes outside the line are the caller's error:
  the program indexes past the line there. */
  predicate Admissible(s: Store, r: Request) {
    && r.WellFormed()
    && (r.operation.HasByteMask() ==> r.InLine(s.lineBytes))
  }

  function Lift(reply: Result<Response, MemoryError>): (r: Reply) {
    match reply
    case Ok(v) => Ok(v)
    case Err(e) => Err(MemoryFailure(e))
  }

  /** Reservations that survive an access overlapping their granule. */
  function Surviving(reservations: map<nat, nat>, r: Request): (kept: map<nat, nat>) {
    map agent | agent in reservations && !r.OverlapsGranule(reservations[agent]) :: reservations[agent]
  }

  predicate MaySucceed(reservations: map<nat, nat>, r: Request) {
    r.agent in reservations && reservations[r.agent] == r.Granule()
  }

  function Offset(s: Store, r: Request): (offset: nat)
    requires Valid(s)
  {
    r.address % s.lineBytes
  }

  /** The store after the payload is written and overlapping reservations are dropped. */
  function WriteBytes(s: Store, r: Request, payload: seq<Byte>): (s': Store)
    requires Valid(s) && r.WellFormed() && r.InLine(s.lineBytes) && |payload| == r.size
    ensures Valid(s')
  {
    s.(data := Stored(s.data, Offset(s, r), payload, r.mask), reservations := Surviving(s.reservations, r))
  }

  function Respond(s: Store, r: Request): (out: (Store, Reply))
    requires Valid(s) && Admissible(s, r)
    ensures Valid(out.0) && out.0.lineBytes == s.lineBytes && out.0.line == s.line
  {
    if r.LineAddress(s.lineBytes) != s.line then (s, Err(WrongLine))
    else
      match r.operation
      case ReadShared | ReadUnique | LockedRmwRead =>
        if !r.InLine(s.lineBytes) then (s, Err(LineDataSizeMismatch))
        else (s, Lift(Complete(r, Some(Slice(s.data, Offset(s, r), r.size)))))
      case LoadLocked =>
        if !r.InLine(s.lineBytes) then (s, Err(LineDataSizeMismatch))
        else
          (s.(reservations := s.reservations[r.agent := r.Granule()]),
           Lift(Complete(r, Some(Slice(s.data, Offset(s, r), r.size)))))
      case StoreConditional =>
        if !MaySucceed(s.reservations, r) then (s, Lift(FailStoreConditional(r)))
        else (WriteBytes(s, r, r.data.value), Lift(Complete(r, None)))
      case StoreConditionalFail => (s, Lift(FailStoreConditional(r)))
      case Write | LockedRmwWrite => (WriteBytes(s, r, r.data.value), Lift(Complete(r, None)))
      case Atomic | AtomicNoReturn =>
        var prior := Slice(s.data, Offset(s, r), r.size);
        (match AtomicData(r, prior)
         case Err(e) => (s, Err(MemoryFailure(e)))
         case Ok(bytes) =>
           (WriteBytes(s, r, bytes), Lift(Complete(r, if r.operation.ReturnsData() then Some(prior) else None))))
      case WriteClean | WritebackClean | WritebackDirty =>
        if |r.data.value| != s.lineBytes then (s, Err(LineDataSizeMismatch))
        else
          (s.(data := r.data.value, reservations := Surviving(s.reservations, r)),
           Ok(Response(r.agent, r.sequence, Retry, None)))
      case _ => (s, Lift(Complete(r, None)))
  }

  function Replace(s: Store, data: seq<Byte>): (out: (Store, bool))
    requires Valid(s)
    ensures Valid(out.0) && out.0.lineBytes == s.lineBytes && out.0.line == s.line
  {
    if |data| != s.lineBytes then (s, false) else (s.(data := data, reservations := map[]), true)
  }

  // ----- memory, byte by byte

  /** The byte that memory holds at an address of the line. */
  function ByteOf(s: Store, a: nat): (b: Byte)
    requires Valid(s) && s.line <= a < s.line + s.lineBytes
  {
    s.data[a - s.line]
  }

  /** The request is for bytes of the store's line. */
  predicate OnLine(s: Store, r: Request)
    requires Valid(s)
  {
    r.WellFormed() && r.InLine(s.lineBytes) && r.LineAddress(s.lineBytes) == s.line
  }

  /** `bytes` are what memory holds where the request looks. */
  predicate ReadsAs(s: Store, r: Request, bytes: seq<Byte>)
    requires Valid(s) && OnLine(s, r)
  {
    |bytes| == r.size && forall k :: 0 <= k < r.size ==> bytes[k] == ByteOf(s, r.address + k)
  }

  /** Memory after `bytes` are written where the request looks, as far as its mask lets them. */
  predicate WritesAs(s: Store, r: Request, bytes: seq<Byte>, s': Store)
    requires Valid(s) && OnLine(s, r) && |bytes| == r.size && r.operation.HasByteMask()
  {
    && Valid(s') && s'.line == s.line && s'.lineBytes == s.lineBytes
    && forall a :: s.line <= a < s.line + s.lineBytes ==>
         ByteOf(s', a)
         == if r.address <= a < r.address + r.size && r.mask.value[a - r.address] then bytes[a - r.address]
            else ByteOf(s, a)
  }

  lemma WriteBytesWrites(s: Store, r: Request, bytes: seq<Byte>)
    requires Valid(s) && OnLine(s, r) && |bytes| == r.size && r.operation.HasByteMask()
    ensures WritesAs(s, r, bytes, WriteBytes(s, r, bytes))
  {
    var s' := WriteBytes(s, r, bytes);
    forall a | s.line <= a < s.line + s.lineBytes
      ensures ByteOf(s', a)
           == if r.address <= a < r.address + r.size && r.mask.value[a - r.address] then bytes[a - r.address]
              else ByteOf(s, a)
    {
      assert a - s.line - Offset(s, r) == a - r.address;
    }
  }

  /** Reads answer with the bytes memory holds, and change no byte. */
  lemma ReadsMemory(s: Store, r: Request)
    requires Valid(s) && OnLine(s, r)
    requires r.operation.ReadShared? || r.operation.ReadUnique? || r.operation.LockedRmwRead? || r.operation.LoadLocked?
    ensures
      var (s', reply) := Respond(s, r);
      && s'.data == s.data && reply.Ok? && reply.value.data.Some?
      && reply.value == Response(r.agent, r.sequence, Completed, reply.value.data)
      && ReadsAs(s, r, reply.value.data.value)
  {
  }

  /** Writes, and store-conditionals that succeed, put their data into memory and nothing else. */
  lemma WritesMemory(s: Store, r: Request)
    requires Valid(s) && OnLine(s, r)
    requires r.operation.Write? || r.operation.LockedRmwWrite? || r.operation.StoreConditional?
    ensures
      var (s', reply) := Respond(s, r);
      if r.operation.StoreConditional? && !MaySucceed(s.reservations, r)
      then s' == s && reply == Ok(Response(r.agent, r.sequence, StoreConditionalFailed, None))
      else reply == Ok(Response(r.agent, r.sequence, Completed, None)) && WritesAs(s, r, r.data.value, s')
  {
    WriteBytesWrites(s, r, r.data.value);
  }

  /** An atomic access answers with the bytes that were there, when it answers with data, and leaves
  what its operation computes from them. */
  lemma AtomicMemory(s: Store, r: Request) returns (prior: seq<Byte>, bytes: seq<Byte>)
    requires Valid(s) && OnLine(s, r) && r.operation.IsAtomic() && Respond(s, r).1.Ok?
    ensures ReadsAs(s, r, prior) && Computes(r.atomicOp.value, r.compare, prior, r.data.value, bytes)
    ensures WritesAs(s, r, bytes, Respond(s, r).0)
    ensures Respond(s, r).1
         == Ok(Response(r.agent, r.sequence, Completed, if r.operation.Atomic? then Some(prior) else None))
  {
    prior := Slice(s.data, Offset(s, r), r.size);
    AtomicDataComputes(r, prior);
    bytes := AtomicData(r, prior).value;
    WriteBytesWrites(s, r, bytes);
  }

  /** A writeback replaces the line and is told to retry; every other request leaves memory alone. */
  lemma OthersLeaveMemory(s: Store, r: Request)
    requires Valid(s) && OnLine(s, r) && !r.operation.Write? && !r.operation.LockedRmwWrite?
    requires !r.operation.StoreConditional? && !r.operation.IsAtomic()
    ensures
      var (s', reply) := Respond(s, r);
      if r.operation.IsWriteback() && r.size == s.lineBytes
      then s'.data == r.data.value && reply == Ok(Response(r.agent, r.sequence, Retry, None))
      else s'.data == s.data
  {
  }

  /** A write, then a read: the masked bytes of the write where they were written, and what memory held
  before everywhere else. */
  lemma ReadAfterWrite(s: Store, w: Request, r: Request, k: nat)
    requires Valid(s) && OnLine(s, w) && w.operation.Write? && OnLine(s, r) && r.operation.ReadShared? && k < r.size
    ensures
      var reply := Respond(Respond(s, w).0, r).1;
      var a := r.address + k;
      && reply.Ok? && reply.value.data.Some? && |reply.value.data.value| == r.size
      && reply.value.data.value[k]
         == if w.address <= a < w.address + w.size && w.mask.value[a - w.address] then w.data.value[a - w.address]
            else ByteOf(s, a)
  {
    WritesMemory(s, w);
    ReadsMemory(Respond(s, w).0, r);
  }

  // ----- whole histories

  datatype Event = Access(request: Request) | ReplaceData(data: seq<Byte>)

  predicate AllAdmissible(s: Store, history: seq<Event>) {
    forall i :: 0 <= i < |history| && history[i].Access? ==> Admissible(s, history[i].request)
  }

  function After(s: Store, event: Event): (s': Store)
    requires Valid(s) && (event.Access? ==> Admissible(s, event.request))
    ensures Valid(s') && s'.lineBytes == s.lineBytes && s'.line == s.line
  {
    match event
    case Access(r) => Respond(s, r).0
    case ReplaceData(data) => Replace(s, data).0
  }

  function Run(s: Store, history: seq<Event>): (s': Store)
    requires Valid(s) && AllAdmissible(s, history)
    ensures Valid(s') && s'.lineBytes == s.lineBytes && s'.line == s.line
  {
    if history == [] then s
    else After(Run(s, history[..|history| - 1]), history[|history| - 1])
  }

  /** In state `s` the event is a load-locked by `agent` that the store answers. */
  predicate LocksNow(s: Store, event: Event, agent: nat)
    requires Valid(s) && (event.Access? ==> Admissible(s, event.request))
  {
    && event.Access?
    && event.request.operation.LoadLocked?
    && event.request.agent == agent
    && Respond(s, event.request).1.Ok?
  }

  /** In state `s` the event changes memory under granule `g`: an answered write, atomic,
  successful store-conditional or writeback that overlaps it, or a new whole line. */
  predicate DisturbsNow(s: Store, event: Event, g: nat)
    requires Valid(s) && (event.Access? ==> Admissible(s, event.request))
  {
    match event
    case ReplaceData(data) => |data| == s.lineBytes
    case Access(r) =>
      var reply := Respond(s, r).1;
      && r.OverlapsGranule(g)
      && reply.Ok?
      && (r.operation.Write? || r.operation.LockedRmwWrite? || r.operation.IsAtomic() || r.operation.IsWriteback()
          || (r.operation.StoreConditional? && reply.value.status.Completed?))
  }

  predicate Locks(s: Store, history: seq<Event>, i: nat, agent: nat)
    requires Valid(s) && AllAdmissible(s, history) && i < |history|
  {
    LocksNow(Run(s, history[..i]), history[i], agent)
  }

  predicate Disturbs(s: Store, history: seq<Event>, i: nat, g: nat)
    requires Valid(s) && AllAdmissible(s, history) && i < |history|
  {
    DisturbsNow(Run(s, history[..i]), history[i], g)
  }

  /** Event `i` is `agent`'s most recent load-locked, it took granule `g`, and nothing has
  disturbed `g` since. */
  ghost predicate HoldsSince(s: Store, history: seq<Event>, i: nat, agent: nat, g: nat)
    requires Valid(s) && AllAdmissible(s, history)
  {
    && i < |history|
    && Locks(s, history, i, agent) && history[i].request.Granule() == g
    && forall k :: i < k < |history| ==> !Locks(s, history, k, agent) && !Disturbs(s, history, k, g)
  }

  ghost predicate Holds(s: Store, history: seq<Event>, agent: nat, g: nat)
    requires Valid(s) && AllAdmissible(s, history)
  {
    exists i :: HoldsSince(s, history, i, agent, g)
  }

  lemma PrefixAgrees(s: Store, history: seq<Event>, i: nat, agent: nat, g: nat)
    requires Valid(s) && AllAdmissible(s, history) && i < |history| - 1
    ensures Locks(s, history, i, agent) == Locks(s, history[..|history| - 1], i, agent)
    ensures Disturbs(s, history, i, g) == Disturbs(s, history[..|history| - 1], i, g)
  {
    assert history[..|history| - 1][..i] == history[..i];
  }

  lemma HoldsShrinks(s: Store, history: seq<Event>, i: nat, agent: nat, g: nat)
    requires Valid(s) && AllAdmissible(s, history) && i < |history| - 1
    ensures HoldsSince(s, history, i, agent, g) <==>
      var n := |history| - 1;
      && HoldsSince(s, history[..n], i, agent, g)
      && !Locks(s, history, n, agent) && !Disturbs(s, history, n, g)
  {
    forall k | 0 <= k < |history| - 1
      ensures Locks(s, history, k, agent) == Locks(s, history[..|history| - 1], k, agent)
      ensures Disturbs(s, history, k, g) == Disturbs(s, history[..|history| - 1], k, g)
    {
      PrefixAgrees(s, history, k, agent, g);
    }
    var n := |history| - 1;
    var h := history[..n];
    assert h[i] == history[i];
    if HoldsSince(s, h, i, agent, g) && !Locks(s, history, n, agent) && !Disturbs(s, history, n, g) {
      forall k | i < k < |history|
        ensures !Locks(s, history, k, agent) && !Disturbs(s, history, k, g)
      {
        if k < n {
          assert !Locks(s, h, k, agent);
        }
      }
    }
    if HoldsSince(s, history, i, agent, g) {
      assert !Locks(s, history, n, agent);
      forall k | i < k < |h|
        ensures !Locks(s, h, k, agent) && !Disturbs(s, h, k, g)
      {
        assert !Locks(s, history, k, agent);
      }
    }
  }

  lemma HoldsStep(s: Store, history: seq<Event>, agent: nat, g: nat)
    requires Valid(s) && AllAdmissible(s, history) && history != []
    ensures
      var n := |history| - 1;
      Holds(s, history, agent, g) <==>
        if Locks(s, history, n, agent) then history[n].request.Granule() == g
        else Holds(s, history[..n], agent, g) && !Disturbs(s, history, n, g)
  {
    var n := |history| - 1;
    if Holds(s, history, agent, g) {
      var i: nat :| HoldsSince(s, history, i, agent, g);
      if i < n {
        HoldsShrinks(s, history, i, agent, g);
      }
    }
    if Locks(s, history, n, agent) {
      if history[n].request.Granule() == g {
        assert HoldsSince(s, history, n, agent, g);
      }
    } else if Holds(s, history[..n], agent, g) && !Disturbs(s, history, n, g) {
      var i: nat :| HoldsSince(s, history[..n], i, agent, g);
      HoldsShrinks(s, history, i, agent, g);
    }
  }

  lemma EventEffect(s: Store, event: Event, agent: nat, g: nat)
    requires Valid(s) && (event.Access? ==> Admissible(s, event.request))
    ensures
      var before, after := s.reservations, After(s, event).reservations;
      (agent in after && after[agent] == g) <==>
        if LocksNow(s, event, agent) then event.request.Granule() == g
        else agent in before && before[agent] == g && !DisturbsNow(s, event, g)
  {
  }

  /** The reservation map is exactly what the history says. */
  lemma {:induction false} ReservationsMatchHistory(s: Store, history: seq<Event>, agent: nat, g: nat)
    requires Valid(s) && s.reservations == map[] && AllAdmissible(s, history)
    ensures
      var reservations := Run(s, history).reservations;
      (agent in reservations && reservations[agent] == g) <==> Holds(s, history, agent, g)
  {
    if history != [] {
      var n := |history| - 1;
      ReservationsMatchHistory(s, history[..n], agent, g);
      HoldsStep(s, history, agent, g);
      EventEffect(Run(s, history[..n]), history[n], agent, g);
    }
  }

  /** A store-conditional succeeds exactly when the agent's most recent load-locked reserved the
  same granule and nothing has written that granule since. */
  lemma StoreConditionalSucceedsIffReserved(s: Store, history: seq<Event>, r: Request)
    requires Valid(s) && s.reservations == map[] && AllAdmissible(s, history)
    requires Admissible(s, r) && r.operation.StoreConditional? && r.LineAddress(s.lineBytes) == s.line
    ensures
      var reply := Respond(Run(s, history), r).1;
      && reply.Ok?
      && reply.value.status == if Holds(s, history, r.agent, r.Granule()) then Completed else StoreConditionalFailed
  {
    ReservationsMatchHistory(s, history, r.agent, r.Granule());
  }

  // ----- the store as the program updates it

  class LineBackingStore {
    const lineBytes: nat
    const line: nat
    var data: array<Byte>
    var reservations: map<nat, nat>

    ghost predicate Wf()
      reads this
    {
      lineBytes > 0 && data.Length == lineBytes
    }

    ghost function State(): (s: Store)
      reads this, data
    {
      Store(lineBytes, line, data[..], reservations)
    }

    constructor (lineBytes: nat, address: nat, bytes: seq<Byte>)
      requires lineBytes > 0 && |bytes| == lineBytes
      ensures Wf() && fresh(data)
      ensures State() == Store(lineBytes, LineOf(address, lineBytes), bytes, map[])
    {
      this.lineBytes := lineBytes;
      line := LineOf(address, lineBytes);
      data := new Byte[|bytes|](i requires 0 <= i < |bytes| => bytes[i]);
      reservations := map[];
    }

    method ReplaceLine(bytes: seq<Byte>) returns (ok: bool)
      requires Wf()
      modifies this`data, this`reservations
      ensures Wf() && (data == old(data) || fresh(data))
      ensures (State(), ok) == Replace(old(State()), bytes)
    {
      if |bytes| != lineBytes {
        return false;
      }
      data := new Byte[|bytes|](i requires 0 <= i < |bytes| => bytes[i]);
      assert data[..] == bytes;
      reservations := map[];
      return true;
    }

    /** Byte-by-byte masked store. */
    method ApplyWriteData(r: Request, payload: seq<Byte>)
      requires Wf() && r.WellFormed() && r.InLine(lineBytes) && |payload| == r.size
      modifies data
      ensures data[..] == Stored(old(data[..]), r.address % lineBytes, payload, r.mask)
    {
      var offset := r.address % lineBytes;
      for index := 0 to |payload|
        invariant forall i :: 0 <= i < lineBytes ==>
          data[i] == (if Writes(r.mask, payload, offset, i) && i < offset + index then payload[i - offset]
                      else old(data[i]))
      {
        if r.mask.None? || r.mask.value[index] {
          data[offset + index] := payload[index];
        }
      }
    }

    method RespondTo(r: Request) returns (reply: Reply)
      requires Wf() && Admissible(State(), r)
      modifies this`data, this`reservations, data
      ensures Wf() && (data == old(data) || fresh(data))
      ensures (State(), reply) == Respond(old(State()), r)
    {
      if r.LineAddress(lineBytes) != line {
        return Err(WrongLine);
      }
      var offset := r.address % lineBytes;
      match r.operation
      case ReadShared | ReadUnique | LockedRmwRead =>
        if !r.InLine(lineBytes) {
          return Err(LineDataSizeMismatch);
        }
        reply := Lift(Complete(r, Some(data[offset..offset + r.size])));
      case LoadLocked =>
        if !r.InLine(lineBytes) {
          return Err(LineDataSizeMismatch);
        }
        reservations := reservations[r.agent := r.Granule()];
        reply := Lift(Complete(r, Some(data[offset..offset + r.size])));
      case StoreConditional =>
        if !MaySucceed(reservations, r) {
          return Lift(FailStoreConditional(r));
        }
        ApplyWriteData(r, r.data.value);
        reservations := Surviving(reservations, r);
        reply := Lift(Complete(r, None));
      case StoreConditionalFail =>
        reply := Lift(FailStoreConditional(r));
      case Write | LockedRmwWrite =>
        ApplyWriteData(r, r.data.value);
        reservations := Surviving(reservations, r);
        reply := Lift(Complete(r, None));
      case Atomic | AtomicNoReturn =>
        var prior := data[offset..offset + r.size];
        assert prior == Slice(data[..], offset, r.size);
        var bytes := AtomicData(r, prior);
        if bytes.Err? {
          return Err(MemoryFailure(bytes.error));
        }
        ApplyWriteData(r, bytes.value);
        reservations := Surviving(reservations, r);
        reply := Lift(Complete(r, if r.operation.ReturnsData() then Some(prior) else None));
      case WriteClean | WritebackClean | WritebackDirty =>
        var bytes := r.data.value;
        if |bytes| != lineBytes {
          return Err(LineDataSizeMismatch);
        }
        data := new Byte[|bytes|](i requires 0 <= i < |bytes| => bytes[i]);
        assert data[..] == bytes;
        reservations := Surviving(reservations, r);
        reply := Ok(Response(r.agent, r.sequence, Retry, None));
      case _ =>
        reply := Lift(Complete(r, None));
    }
  }
}
