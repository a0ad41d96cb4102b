/** The accelerator engine's lane scheduler: every accepted command reserves the lane that frees
up first, and a command that cannot start at once waits in a queue until its start event fires. */
module Accelerator {
  import opened Common

  /** A command; `AcceleratorCommand::new` admits only positive latencies. */
  datatype RawCommand = Command(id: nat, latency: nat)

  type Command = c: RawCommand | c.latency > 0 witness RawCommand.Command(0, 1)

  datatype Reservation = Reservation(lane: nat, startedAt: nat, completedAt: nat)

  datatype Queued = Queued(command: Command, queuedAt: nat, reservation: Reservation)

  // ----- one reservation

  /** The lane with the least (free tick, lane number). */
  ghost predicate IsFirstFree(busy: seq<nat>, lane: nat) {
    && lane < |busy|
    && (forall k :: 0 <= k < |busy| ==> busy[lane] <= busy[k])
    && (forall k :: 0 <= k < lane ==> busy[lane] < busy[k])
  }

  function FirstFree(busy: seq<nat>): (lane: nat)
    requires busy != []
    ensures IsFirstFree(busy, lane)
  {
    var n := |busy| - 1;
    if n == 0 then 0
    else
      var k := FirstFree(busy[..n]);
      if busy[n] < busy[k] then n else k
  }

  /** The reservation made at tick `now`; none if the completion tick leaves `u64`, where the
  engine panics before it touches a lane. */
  function Reserve(busy: seq<nat>, now: nat, latency: nat): (r: Option<Reservation>)
    requires busy != []
  {
    var lane := FirstFree(busy);
    var startedAt := Max(now, busy[lane]);
    if startedAt + latency > U64_MAX then None
    else Some(Reservation(lane, startedAt, startedAt + latency))
  }

  function Occupy(busy: seq<nat>, r: Reservation): (busy': seq<nat>)
    requires r.lane < |busy|
  {
    busy[r.lane := r.completedAt]
  }

  // ----- whole schedules

  datatype Job = Job(acceptedAt: nat, command: Command)

  datatype Schedule = Schedule(busy: seq<nat>, made: seq<Reservation>)

  function Idle(lanes: nat): (s: Schedule) {
    Schedule(seq(lanes, _ => 0), [])
  }

  /** The schedule after accepting `jobs` in order from `start`; none once a tick overflows. */
  function Run(start: Schedule, jobs: seq<Job>): (r: Option<Schedule>)
    requires start.busy != []
    ensures r.Some? ==>
      && |r.value.busy| == |start.busy|
      && |r.value.made| == |start.made| + |jobs|
  {
    if jobs == [] then Some(start)
    else
      var n := |jobs| - 1;
      match Run(start, jobs[..n])
      case None => None
      case Some(s) =>
        match Reserve(s.busy, jobs[n].acceptedAt, jobs[n].command.latency)
        case None => None
        case Some(r) => Some(Schedule(Occupy(s.busy, r), s.made + [r]))
  }

  lemma {:induction false} RunPrefix(start: Schedule, jobs: seq<Job>, i: nat)
    requires start.busy != [] && i <= |jobs| && Run(start, jobs).Some?
    ensures Run(start, jobs[..i]).Some?
    ensures Run(start, jobs[..i]).value.made == Run(start, jobs).value.made[..|start.made| + i]
    decreases |jobs|
  {
    if i == |jobs| {
      assert jobs[..i] == jobs;
    } else {
      var n := |jobs| - 1;
      assert jobs[..n][..i] == jobs[..i];
      RunPrefix(start, jobs[..n], i);
    }
  }

  // ----- the lanes are an m-server first-come-first-served queue

  /** How many of the ticks lie after `t`. */
  function CountAfter(ticks: seq<nat>, t: nat): (c: nat)
    ensures c <= |ticks|
  {
    if ticks == [] then 0
    else CountAfter(ticks[..|ticks| - 1], t) + (if ticks[|ticks| - 1] > t then 1 else 0)
  }

  function Completions(made: seq<Reservation>): (c: seq<nat>) {
    seq(|made|, i requires 0 <= i < |made| => made[i].completedAt)
  }

  lemma {:induction false} CountUpdate(ticks: seq<nat>, k: nat, v: nat, t: nat)
    requires k < |ticks|
    ensures CountAfter(ticks[k := v], t) - (if v > t then 1 else 0)
         == CountAfter(ticks, t) - (if ticks[k] > t then 1 else 0)
  {
    var n := |ticks| - 1;
    if k == n {
      assert ticks[k := v][..n] == ticks[..n];
    } else {
      CountUpdate(ticks[..n], k, v, t);
      assert ticks[k := v][..n] == ticks[..n][k := v];
    }
  }

  lemma {:induction false} CountExtremes(ticks: seq<nat>, t: nat)
    ensures CountAfter(ticks, t) == |ticks| <==> forall k :: 0 <= k < |ticks| ==> ticks[k] > t
    ensures CountAfter(ticks, t) == 0 <==> forall k :: 0 <= k < |ticks| ==> ticks[k] <= t
  {
    if ticks != [] {
      var n := |ticks| - 1;
      CountExtremes(ticks[..n], t);
    }
  }

  /** Replacing the least of the held ticks by a later one keeps the held ticks the latest. */
  lemma CountStep(busy: seq<nat>, done: seq<nat>, lane: nat, tick: nat, t: nat)
    requires IsFirstFree(busy, lane) && busy[lane] < tick
    requires CountAfter(busy, t) == Min(|busy|, CountAfter(done, t))
    ensures CountAfter(busy[lane := tick], t) == Min(|busy|, CountAfter(done + [tick], t))
  {
    CountUpdate(busy, lane, tick, t);
    CountExtremes(busy, t);
    assert (done + [tick])[..|done|] == done;
  }

  /** The lanes hold the latest completions: past any tick they count the commands still
  running, up to the number of lanes. */
  lemma {:induction false} LanesHoldLatestCompletions(lanes: nat, jobs: seq<Job>, t: nat)
    requires lanes > 0 && Run(Idle(lanes), jobs).Some?
    ensures
      var s := Run(Idle(lanes), jobs).value;
      CountAfter(s.busy, t) == Min(lanes, CountAfter(Completions(s.made), t))
  {
    if jobs == [] {
      CountExtremes(Idle(lanes).busy, t);
      CountExtremes([], t);
      assert Completions([]) == [];
    } else {
      var n := |jobs| - 1;
      LanesHoldLatestCompletions(lanes, jobs[..n], t);
      var p := Run(Idle(lanes), jobs[..n]).value;
      var r := Reserve(p.busy, jobs[n].acceptedAt, jobs[n].command.latency).value;
      CountStep(p.busy, Completions(p.made), r.lane, r.completedAt, t);
      assert Completions(p.made + [r]) == Completions(p.made) + [r.completedAt];
    }
  }

  /** Fewer than `lanes` earlier commands are still running after tick `t`. */
  predicate ServerFree(lanes: nat, earlier: seq<Reservation>, t: nat) {
    CountAfter(Completions(earlier), t) < lanes
  }

  /** The `i`-th reservation is the one made on the lanes the earlier jobs left. */
  lemma ReservationAt(start: Schedule, jobs: seq<Job>, i: nat)
    requires start.busy != [] && start.made == [] && i < |jobs| && Run(start, jobs).Some?
    ensures
      var before := Run(start, jobs[..i]);
      && before.Some?
      && before.value.made == Run(start, jobs).value.made[..i]
      && Reserve(before.value.busy, jobs[i].acceptedAt, jobs[i].command.latency)
           == Some(Run(start, jobs).value.made[i])
  {
    var made := Run(start, jobs).value.made;
    RunPrefix(start, jobs, i);
    RunPrefix(start, jobs, i + 1);
    assert jobs[..i + 1][..i] == jobs[..i];
    assert made[..i + 1][i] == made[i];
  }

  /** A command starts at the first tick, not before it was accepted, at which some server of an
  m-server queue that admits commands in arrival order is free. */
  lemma StartsAreFirstComeFirstServed(lanes: nat, jobs: seq<Job>, i: nat)
    requires lanes > 0 && i < |jobs| && Run(Idle(lanes), jobs).Some?
    ensures
      var made := Run(Idle(lanes), jobs).value.made;
      && jobs[i].acceptedAt <= made[i].startedAt
      && made[i].completedAt == made[i].startedAt + jobs[i].command.latency
      && forall t :: jobs[i].acceptedAt <= t ==>
           (ServerFree(lanes, made[..i], t) <==> made[i].startedAt <= t)
  {
    var made := Run(Idle(lanes), jobs).value.made;
    ReservationAt(Idle(lanes), jobs, i);
    forall t: nat | jobs[i].acceptedAt <= t
      ensures ServerFree(lanes, made[..i], t) <==> made[i].startedAt <= t
    {
      LanesHoldLatestCompletions(lanes, jobs[..i], t);
      CountExtremes(Run(Idle(lanes), jobs[..i]).value.busy, t);
    }
  }

  /** A tick at which some server is free and from which the command ends within `u64`. */
  predicate StartsAt(lanes: nat, earlier: seq<Reservation>, job: Job, t: nat) {
    job.acceptedAt <= t && t + job.command.latency < 0x1_0000_0000_0000_0000 && ServerFree(lanes, earlier, t)
  }

  /** The next command is accepted exactly when some server is free early enough for it to end within
  the range of ticks. */
  lemma AcceptedIff(lanes: nat, jobs: seq<Job>, job: Job)
    requires lanes > 0 && Run(Idle(lanes), jobs).Some?
    ensures Run(Idle(lanes), jobs + [job]).Some? <==>
      exists t: nat :: StartsAt(lanes, Run(Idle(lanes), jobs).value.made, job, t)
  {
    var s := Run(Idle(lanes), jobs).value;
    assert (jobs + [job])[..|jobs|] == jobs;
    var lane := FirstFree(s.busy);
    forall t: nat
      ensures ServerFree(lanes, s.made, t) <==> s.busy[lane] <= t
    {
      LanesHoldLatestCompletions(lanes, jobs, t);
      CountExtremes(s.busy, t);
    }
    if Run(Idle(lanes), jobs + [job]).Some? {
      assert StartsAt(lanes, s.made, job, Max(job.acceptedAt, s.busy[lane]));
    }
  }

  // ----- lanes never overlap and starts follow arrival order

  lemma {:induction false} LaneReservationsDisjoint(lanes: nat, jobs: seq<Job>)
    requires lanes > 0 && Run(Idle(lanes), jobs).Some?
    ensures
      var s := Run(Idle(lanes), jobs).value;
      && (forall i :: 0 <= i < |s.made| ==>
            s.made[i].lane < lanes && s.made[i].startedAt < s.made[i].completedAt <= s.busy[s.made[i].lane])
      && (forall i, j :: 0 <= i < j < |s.made| && s.made[i].lane == s.made[j].lane ==>
            s.made[i].completedAt <= s.made[j].startedAt)
  {
    if jobs != [] {
      LaneReservationsDisjoint(lanes, jobs[..|jobs| - 1]);
    }
  }

  predicate ArrivalOrder(jobs: seq<Job>) {
    forall i, j :: 0 <= i <= j < |jobs| ==> jobs[i].acceptedAt <= jobs[j].acceptedAt
  }

  lemma {:induction false} StartsMonotone(lanes: nat, jobs: seq<Job>)
    requires lanes > 0 && ArrivalOrder(jobs) && Run(Idle(lanes), jobs).Some?
    ensures
      var s := Run(Idle(lanes), jobs).value;
      && (forall i, j :: 0 <= i <= j < |s.made| ==> s.made[i].startedAt <= s.made[j].startedAt)
      && (forall i, k :: 0 <= i < |s.made| && 0 <= k < lanes ==>
            s.made[i].startedAt <= Max(jobs[|jobs| - 1].acceptedAt, s.busy[k]))
  {
    if jobs != [] {
      StartsMonotone(lanes, jobs[..|jobs| - 1]);
    }
  }

  // ----- makespan of a batch

  function Longest(jobs: seq<Job>): (m: nat) {
    if jobs == [] then 0 else Max(Longest(jobs[..|jobs| - 1]), jobs[|jobs| - 1].command.latency)
  }

  function TotalWork(jobs: seq<Job>): (w: nat) {
    if jobs == [] then 0 else TotalWork(jobs[..|jobs| - 1]) + jobs[|jobs| - 1].command.latency
  }

  /** With commands arriving in order, no lane is ever booked further than the longest latency
  past the moment the first lane frees, or past the last arrival if that is later. */
  lemma {:induction false} BusySpread(lanes: nat, jobs: seq<Job>)
    requires lanes > 0 && jobs != [] && ArrivalOrder(jobs) && Run(Idle(lanes), jobs).Some?
    ensures
      var busy := Run(Idle(lanes), jobs).value.busy;
      forall j, k :: 0 <= j < lanes && 0 <= k < lanes ==>
        busy[j] <= Max(busy[k], jobs[|jobs| - 1].acceptedAt) + Longest(jobs)
  {
    var n := |jobs| - 1;
    if n > 0 {
      BusySpread(lanes, jobs[..n]);
    }
  }

  /** Ticks of work that lane `k` holds beyond tick `t`, summed over all lanes. */
  function Backlog(busy: seq<nat>, t: nat): (b: nat) {
    if busy == [] then 0
    else Backlog(busy[..|busy| - 1], t) + (Max(busy[|busy| - 1], t) - t)
  }

  lemma {:induction false} BacklogUpdate(busy: seq<nat>, k: nat, v: nat, t: nat)
    requires k < |busy|
    ensures Backlog(busy[k := v], t) - Max(v, t) == Backlog(busy, t) - Max(busy[k], t)
  {
    var n := |busy| - 1;
    if k == n {
      assert busy[k := v][..n] == busy[..n];
    } else {
      BacklogUpdate(busy[..n], k, v, t);
      assert busy[k := v][..n] == busy[..n][k := v];
    }
  }

  lemma {:induction false} BacklogAtLeast(busy: seq<nat>, t: nat, least: int)
    requires forall k :: 0 <= k < |busy| ==> Max(busy[k], t) - t >= least
    ensures Backlog(busy, t) >= |busy| * least
  {
    if busy != [] {
      var n := |busy| - 1;
      BacklogAtLeast(busy[..n], t, least);
      assert |busy| * least == n * least + least;
    }
  }

  /** No lane is booked further than the longest latency past the moment the next lane frees. */
  lemma {:induction false} SpreadWithinLongest(start: Schedule, jobs: seq<Job>, t: nat)
    requires start.busy != [] && Run(start, jobs).Some?
    requires forall k :: 0 <= k < |start.busy| ==> start.busy[k] <= t
    requires forall i :: 0 <= i < |jobs| ==> jobs[i].acceptedAt == t
    ensures
      var busy := Run(start, jobs).value.busy;
      && Backlog(busy, t) == TotalWork(jobs)
      && forall j, k :: 0 <= j < |busy| && 0 <= k < |busy| ==> busy[j] <= Max(busy[k], t) + Longest(jobs)
  {
    if jobs == [] {
      BacklogZero(start.busy, t);
    } else {
      var n := |jobs| - 1;
      SpreadWithinLongest(start, jobs[..n], t);
      var p := Run(start, jobs[..n]).value;
      var s := Run(start, jobs).value;
      var r := s.made[|s.made| - 1];
      BacklogUpdate(p.busy, r.lane, r.completedAt, t);
    }
  }

  lemma {:induction false} BacklogZero(busy: seq<nat>, t: nat)
    requires forall k :: 0 <= k < |busy| ==> busy[k] <= t
    ensures Backlog(busy, t) == 0
  {
    if busy != [] {
      BacklogZero(busy[..|busy| - 1], t);
    }
  }

  /** A batch accepted at one tick on idle lanes: list scheduling's bound, in integers. The lane
  `last` may be any lane, in particular the one that finishes last. */
  lemma MakespanBound(start: Schedule, jobs: seq<Job>, t: nat, last: nat)
    requires start.busy != [] && last < |start.busy| && Run(start, jobs).Some?
    requires forall k :: 0 <= k < |start.busy| ==> start.busy[k] <= t
    requires forall i :: 0 <= i < |jobs| ==> jobs[i].acceptedAt == t
    ensures
      var lanes, makespan := |start.busy|, Run(start, jobs).value.busy[last] - t;
      lanes * makespan <= TotalWork(jobs) + (lanes - 1) * Longest(jobs)
  {
    var busy := Run(start, jobs).value.busy;
    var makespan, longest := busy[last] - t, Longest(jobs);
    SpreadWithinLongest(start, jobs, t);
    var least := if makespan <= longest then 0 else makespan - longest;
    MoveLast(busy, t, last, least);
    BoundArithmetic(|busy|, makespan, longest, least, TotalWork(jobs));
  }

  lemma BoundArithmetic(lanes: nat, makespan: int, longest: nat, least: nat, total: nat)
    requires lanes > 0 && makespan - longest <= least
    requires (lanes - 1) * least + makespan <= total
    ensures lanes * makespan <= total + (lanes - 1) * longest
  {
    var m := lanes - 1;
    assert m * (makespan - longest) <= m * least by {
      MulAtMost(makespan - longest, least, m);
    }
    assert m * (makespan - longest) == m * makespan - m * longest;
    assert lanes * makespan == m * makespan + makespan;
  }

  /** The backlog counts lane `last` in full and every other lane at `least` or more. */
  lemma {:induction false} MoveLast(busy: seq<nat>, t: nat, last: nat, least: nat)
    requires last < |busy|
    requires forall k :: 0 <= k < |busy| ==> Max(busy[k], t) - t >= least
    ensures Backlog(busy, t) >= (|busy| - 1) * least + (busy[last] - t)
  {
    var n := |busy| - 1;
    assert n * least == (n - 1) * least + least;
    if last == n {
      BacklogAtLeast(busy[..n], t, least);
    } else {
      MoveLast(busy[..n], t, last, least);
    }
  }

  // ----- the waiting queue

  /** The engine's queue together with the start events its scheduler still holds. */
  datatype Engine = Engine(busy: seq<nat>, queued: seq<Queued>, startEvents: seq<Queued>)

  predicate SameStart(q: Queued, command: nat, r: Reservation) {
    q.command.id == command && q.reservation.lane == r.lane && q.reservation.startedAt == r.startedAt
  }

  /** `clear_queued_command`: drop the first record with this command, lane and start tick. */
  function Clear(queued: seq<Queued>, command: nat, r: Reservation): (rest: seq<Queued>) {
    if queued == [] then []
    else if SameStart(queued[0], command, r) then queued[1..]
    else [queued[0]] + Clear(queued[1..], command, r)
  }

  datatype Step = Accept(now: nat, command: Command) | FireStart(index: nat)

  function Advance(e: Engine, step: Step): (e': Option<Engine>)
    requires e.busy != []
    ensures e'.Some? ==> |e'.value.busy| == |e.busy|
  {
    match step
    case Accept(now, command) =>
      (match Reserve(e.busy, now, command.latency)
       case None => None
       case Some(r) =>
         var busy := Occupy(e.busy, r);
         if r.startedAt == now then Some(Engine(busy, Clear(e.queued, command.id, r), e.startEvents))
         else
           var q := Queued(command, now, r);
           Some(Engine(busy, e.queued + [q], e.startEvents + [q])))
    case FireStart(i) =>
      if i >= |e.startEvents| then None
      else
        var q := e.startEvents[i];
        Some(Engine(e.busy, Clear(e.queued, q.command.id, q.reservation), e.startEvents[..i] + e.startEvents[i + 1..]))
  }

  function RunEngine(lanes: nat, steps: seq<Step>): (e: Option<Engine>)
    requires lanes > 0
    ensures e.Some? ==> |e.value.busy| == lanes
  {
    if steps == [] then Some(Engine(seq(lanes, _ => 0), [], []))
    else
      match RunEngine(lanes, steps[..|steps| - 1])
      case None => None
      case Some(e) => Advance(e, steps[|steps| - 1])
  }

  ghost predicate DistinctStarts(busy: seq<nat>, queue: seq<Queued>) {
    && (forall q :: q in queue ==>
          && q.reservation.lane < |busy|
          && q.reservation.startedAt < q.reservation.completedAt <= busy[q.reservation.lane])
    && (forall i, j :: 0 <= i < j < |queue| && queue[i].reservation.lane == queue[j].reservation.lane ==>
          queue[i].reservation.startedAt != queue[j].reservation.startedAt)
  }

  lemma {:induction false} ClearMissing(queued: seq<Queued>, command: nat, r: Reservation)
    requires forall q :: q in queued ==> !SameStart(q, command, r)
    ensures Clear(queued, command, r) == queued
  {
    if queued != [] {
      ClearMissing(queued[1..], command, r);
    }
  }

  lemma {:induction false} ClearAt(queued: seq<Queued>, i: nat)
    requires i < |queued|
    requires forall j :: 0 <= j < i ==>
      !SameStart(queued[j], queued[i].command.id, queued[i].reservation)
    ensures Clear(queued, queued[i].command.id, queued[i].reservation) == queued[..i] + queued[i + 1..]
  {
    if i != 0 {
      ClearAt(queued[1..], i - 1);
      assert queued[1..][..i - 1] == queued[1..i];
      assert queued[1..][i..] == queued[i + 1..];
    }
  }

  /** The queue is the list of start events to come. */
  ghost predicate Mirrors(e: Engine) {
    e.queued == e.startEvents && DistinctStarts(e.busy, e.queued)
  }

  lemma AcceptMirrors(e: Engine, now: nat, command: Command)
    requires e.busy != [] && Mirrors(e) && Advance(e, Accept(now, command)).Some?
    ensures Mirrors(Advance(e, Accept(now, command)).value)
  {
    var r := Reserve(e.busy, now, command.latency).value;
    ClearMissing(e.queued, command.id, r);
  }

  lemma StartMirrors(e: Engine, i: nat)
    requires e.busy != [] && Mirrors(e) && i < |e.startEvents|
    ensures Mirrors(Advance(e, FireStart(i)).value)
  {
    ClearAt(e.queued, i);
    var rest := e.queued[..i] + e.queued[i + 1..];
    assert forall k :: 0 <= k < |rest| ==> rest[k] == e.queued[if k < i then k else k + 1];
  }

  /** In every run the queue holds exactly the commands whose start event is still to come, in
  order: a start removes its own record, and a command that starts at once removes none, even
  when command ids repeat. */
  lemma {:induction false} QueueMirrorsStartEvents(lanes: nat, steps: seq<Step>)
    requires lanes > 0 && RunEngine(lanes, steps).Some?
    ensures Mirrors(RunEngine(lanes, steps).value)
  {
    if steps != [] {
      var n := |steps| - 1;
      QueueMirrorsStartEvents(lanes, steps[..n]);
      var p := RunEngine(lanes, steps[..n]).value;
      match steps[n]
      case Accept(now, command) => AcceptMirrors(p, now, command);
      case FireStart(i) => StartMirrors(p, i);
    }
  }

  /** The commands a run accepts, in order. */
  function JobsOf(steps: seq<Step>): (jobs: seq<Job>) {
    if steps == [] then []
    else
      var n := |steps| - 1;
      JobsOf(steps[..n]) + if steps[n].Accept? then [Job(steps[n].now, steps[n].command)] else []
  }

  /** The start events a run fires, in order. */
  function Fired(lanes: nat, steps: seq<Step>): (fired: seq<Queued>)
    requires lanes > 0 && RunEngine(lanes, steps).Some?
  {
    if steps == [] then []
    else
      var n := |steps| - 1;
      Fired(lanes, steps[..n])
      + if steps[n].FireStart? then [RunEngine(lanes, steps[..n]).value.startEvents[steps[n].index]] else []
  }

  /** The commands that could not start at once, each as it was accepted and reserved. */
  function Delayed(jobs: seq<Job>, made: seq<Reservation>): (delayed: seq<Queued>)
    requires |jobs| == |made|
  {
    if jobs == [] then []
    else
      var n := |jobs| - 1;
      Delayed(jobs[..n], made[..n])
      + if jobs[n].acceptedAt < made[n].startedAt then [Queued(jobs[n].command, jobs[n].acceptedAt, made[n])] else []
  }

  lemma AcceptDelays(s: Schedule, jobs: seq<Job>, job: Job, r: Reservation)
    requires |s.made| == |jobs|
    ensures Delayed(jobs + [job], s.made + [r])
         == Delayed(jobs, s.made)
            + if job.acceptedAt < r.startedAt then [Queued(job.command, job.acceptedAt, r)] else []
  {
    assert (jobs + [job])[..|jobs|] == jobs && (s.made + [r])[..|jobs|] == s.made;
  }

  lemma RemovedOne(queue: seq<Queued>, i: nat)
    requires i < |queue|
    ensures multiset(queue[..i] + queue[i + 1..]) + multiset{queue[i]} == multiset(queue)
  {
    assert queue == queue[..i] + [queue[i]] + queue[i + 1..];
  }

  /** The lanes are booked like the schedule's, and the queue holds what was delayed and not fired. */
  predicate Accounts(e: Engine, jobs: seq<Job>, s: Option<Schedule>, fired: multiset<Queued>) {
    && s.Some? && |s.value.made| == |jobs| && e.busy == s.value.busy
    && multiset(e.queued) + fired == multiset(Delayed(jobs, s.value.made))
  }

  lemma AcceptAccounts(e: Engine, now: nat, command: Command, e': Engine, jobs: seq<Job>, s: Schedule,
    fired: multiset<Queued>)
    requires e.busy != [] && Mirrors(e) && Accounts(e, jobs, Some(s), fired)
    requires Advance(e, Accept(now, command)) == Some(e')
    ensures
      var r := Reserve(s.busy, now, command.latency);
      && r.Some?
      && Accounts(e', jobs + [Job(now, command)], Some(Schedule(Occupy(s.busy, r.value), s.made + [r.value])), fired)
  {
    var r := Reserve(e.busy, now, command.latency).value;
    ClearMissing(e.queued, command.id, r);
    AcceptDelays(s, jobs, Job(now, command), r);
  }

  lemma FireAccounts(e: Engine, i: nat, e': Engine, jobs: seq<Job>, s: Option<Schedule>, fired: multiset<Queued>)
    requires e.busy != [] && Mirrors(e) && Accounts(e, jobs, s, fired) && Advance(e, FireStart(i)) == Some(e')
    ensures i < |e.startEvents| && Accounts(e', jobs, s, fired + multiset{e.startEvents[i]})
  {
    ClearAt(e.queued, i);
    RemovedOne(e.queued, i);
  }

  lemma RunNext(start: Schedule, jobs: seq<Job>, job: Job)
    requires start.busy != [] && Run(start, jobs).Some?
    ensures
      var s := Run(start, jobs).value;
      var r := Reserve(s.busy, job.acceptedAt, job.command.latency);
      r.Some? ==> Run(start, jobs + [job]) == Some(Schedule(Occupy(s.busy, r.value), s.made + [r.value]))
  {
    assert (jobs + [job])[..|jobs|] == jobs;
  }

  /** An engine's run books its lanes like the schedule of the commands accepted, and every command
  that could not start at once is queued just as it was accepted until its start fires, once. */
  lemma {:induction false} QueueHoldsDelayed(lanes: nat, steps: seq<Step>)
    requires lanes > 0 && RunEngine(lanes, steps).Some?
    ensures Accounts(RunEngine(lanes, steps).value, JobsOf(steps), Run(Idle(lanes), JobsOf(steps)),
                     multiset(Fired(lanes, steps)))
  {
    if steps != [] {
      var n := |steps| - 1;
      var e, e', jobs := RunEngine(lanes, steps[..n]).value, RunEngine(lanes, steps).value, JobsOf(steps[..n]);
      var s, fired := Run(Idle(lanes), jobs), Fired(lanes, steps[..n]);
      QueueHoldsDelayed(lanes, steps[..n]);
      QueueMirrorsStartEvents(lanes, steps[..n]);
      match steps[n]
      case Accept(now, command) =>
        AcceptAccounts(e, now, command, e', jobs, s.value, multiset(fired));
        RunNext(Idle(lanes), jobs, Job(now, command));
        assert fired + [] == fired;
      case FireStart(i) =>
        FireAccounts(e, i, e', jobs, s, multiset(fired));
        assert jobs + [] == jobs;
    } else {
      assert Delayed([], []) == [];
    }
  }

  // ----- the engine as the program updates it

  class AcceleratorEngine {
    var laneBusyUntil: array<nat>
    var queuedCommands: seq<Queued>

    constructor (lanes: nat)
      requires lanes > 0
      ensures fresh(laneBusyUntil) && laneBusyUntil[..] == Idle(lanes).busy && queuedCommands == []
    {
      laneBusyUntil := new nat[lanes](_ => 0);
      queuedCommands := [];
    }

    method ReserveLane(now: nat, latency: nat) returns (r: Option<Reservation>)
      requires laneBusyUntil.Length > 0
      modifies laneBusyUntil
      ensures r == Reserve(old(laneBusyUntil[..]), now, latency)
      ensures laneBusyUntil[..] ==
        if r.Some? then Occupy(old(laneBusyUntil[..]), r.value) else old(laneBusyUntil[..])
    {
      var lane := 0;
      for k := 1 to laneBusyUntil.Length
        invariant lane < k
        invariant lane == FirstFree(laneBusyUntil[..k])
      {
        assert laneBusyUntil[..k + 1][..k] == laneBusyUntil[..k];
        if laneBusyUntil[k] < laneBusyUntil[lane] {
          lane := k;
        }
      }
      assert laneBusyUntil[..laneBusyUntil.Length] == laneBusyUntil[..];
      var startedAt := Max(now, laneBusyUntil[lane]);
      if startedAt + latency > U64_MAX {
        return None;
      }
      laneBusyUntil[lane] := startedAt + latency;
      return Some(Reservation(lane, startedAt, startedAt + latency));
    }

    /** Accept a command at tick `now`: start it, or queue it until its lane is free. */
    method AcceptOnPartition(now: nat, command: Command, ghost startEvents: seq<Queued>)
      returns (r: Option<Reservation>)
      requires laneBusyUntil.Length > 0
      modifies this`queuedCommands, laneBusyUntil
      ensures
        var e := Advance(Engine(old(laneBusyUntil[..]), old(queuedCommands), startEvents), Accept(now, command));
        && (r.Some? <==> e.Some?)
        && (r.None? ==> laneBusyUntil[..] == old(laneBusyUntil[..]) && queuedCommands == old(queuedCommands))
        && (r.Some? ==> laneBusyUntil[..] == e.value.busy && queuedCommands == e.value.queued)
    {
      r := ReserveLane(now, command.latency);
      if r.Some? {
        if r.value.startedAt == now {
          ClearQueuedCommand(command.id, r.value);
        } else {
          queuedCommands := queuedCommands + [Queued(command, now, r.value)];
        }
      }
    }

    method ClearQueuedCommand(command: nat, r: Reservation)
      modifies this`queuedCommands
      ensures queuedCommands == Clear(old(queuedCommands), command, r)
    {
      var i := 0;
      while i < |queuedCommands| && !SameStart(queuedCommands[i], command, r)
        invariant i <= |queuedCommands|
        invariant Clear(queuedCommands, command, r) == queuedCommands[..i] + Clear(queuedCommands[i..], command, r)
      {
        i := i + 1;
      }
      if i < |queuedCommands| {
        queuedCommands := queuedCommands[..i] + queuedCommands[i + 1..];
      }
    }
  }
}
