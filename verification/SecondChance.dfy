/** Second-chance victim selection across the candidate sets of a superblock. */
module SecondChance {
  import opened Common

  /** A candidate's bookkeeping: whether it is in use, when it was inserted, and whether it has been
  touched since. */
  datatype Meta = Meta(valid: bool, inserted: nat, marked: bool)

  /** Insertion order, ties by position. */
  predicate Earlier(ms: seq<Meta>, i: nat, j: nat)
    requires i < |ms| && j < |ms|
  {
    ms[i].inserted < ms[j].inserted || (ms[i].inserted == ms[j].inserted && i <= j)
  }

  /** The candidate the scan over the first `n` settles on. */
  function EarliestBelow(ms: seq<Meta>, n: nat): (r: nat)
    requires 0 < n <= |ms|
    ensures r < n && forall j :: 0 <= j < n ==> Earlier(ms, r, j)
  {
    if n == 1 then 0
    else
      var s := EarliestBelow(ms, n - 1);
      assert forall j :: 0 <= j < n - 1 ==> Earlier(ms, s, j) && ms[s].inserted <= ms[j].inserted;
      if ms[n - 1].inserted < ms[s].inserted then n - 1 else s
  }

  function Earliest(ms: seq<Meta>): (r: nat)
    requires ms != []
    ensures r < |ms| && forall j :: 0 <= j < |ms| ==> Earlier(ms, r, j)
  {
    EarliestBelow(ms, |ms|)
  }

  lemma EarliestUnique(ms: seq<Meta>, i: nat)
    requires i < |ms| && forall j :: 0 <= j < |ms| ==> Earlier(ms, i, j)
    ensures Earliest(ms) == i
  {
    assert Earlier(ms, Earliest(ms), i) && Earlier(ms, i, Earliest(ms));
  }

  function Marked(ms: seq<Meta>): (n: nat) {
    if ms == [] then 0 else (if ms[0].marked then 1 else 0) + Marked(ms[1..])
  }

  lemma {:induction false} MarkedUpdate(ms: seq<Meta>, i: nat, m: Meta)
    requires i < |ms| && ms[i].marked && !m.marked
    ensures Marked(ms[i := m]) == Marked(ms) - 1
  {
    if i == 0 {
      assert ms[i := m][1..] == ms[1..];
    } else {
      MarkedUpdate(ms[1..], i - 1, m);
      assert ms[i := m][1..] == ms[1..][i - 1 := m];
    }
  }

  lemma {:induction false} MarkedHas(ms: seq<Meta>, i: nat)
    requires i < |ms| && ms[i].marked
    ensures Marked(ms) > 0
  {
    if i > 0 {
      MarkedHas(ms[1..], i - 1);
    }
  }

  datatype Settled = Settled(ms: seq<Meta>, tick: nat, victim: nat)

  /** The loop of `select_cross_set_second_chance_victim`: a touched candidate is passed over once, as
  if inserted anew. It ends because every turn clears a mark. */
  function Settle(ms: seq<Meta>, tick: nat): (r: Settled)
    requires ms != []
    decreases Marked(ms)
  {
    var i := Earliest(ms);
    if !ms[i].marked then Settled(ms, tick, i)
    else
      var next := SaturatingNext(tick);
      MarkedUpdate(ms, i, ms[i].(inserted := next, marked := false));
      Settle(ms[i := ms[i].(inserted := next, marked := false)], next)
  }

  /** Settling keeps which candidates are in use, and ticks no further than the counter stay so. */
  lemma {:induction false} SettleKeeps(ms: seq<Meta>, tick: nat)
    requires ms != [] && tick <= U64_MAX
    ensures
      var r := Settle(ms, tick);
      && |r.ms| == |ms| && r.victim < |ms| && tick <= r.tick <= U64_MAX
      && (forall i :: 0 <= i < |ms| ==> r.ms[i].valid == ms[i].valid)
      && ((forall i :: 0 <= i < |ms| ==> ms[i].inserted <= tick) ==>
            forall i :: 0 <= i < |ms| ==> r.ms[i].inserted <= r.tick)
    decreases Marked(ms)
  {
    var i := Earliest(ms);
    if ms[i].marked {
      var m := ms[i].(inserted := SaturatingNext(tick), marked := false);
      MarkedUpdate(ms, i, m);
      SettleKeeps(ms[i := m], SaturatingNext(tick));
    }
  }

  lemma {:induction false} MarkedAtMost(ms: seq<Meta>)
    ensures Marked(ms) <= |ms|
  {
    if ms != [] {
      MarkedAtMost(ms[1..]);
    }
  }

  // ----- which candidate is chosen

  /** Ticks come from the counter, which is far from saturating. */
  predicate Ticking(ms: seq<Meta>, tick: nat) {
    && (forall i :: 0 <= i < |ms| ==> ms[i].inserted <= tick)
    && tick + Marked(ms) <= U64_MAX
  }

  /** The earliest candidate that was not touched, or the earliest of all when all were. */
  predicate FirstUntouched(ms: seq<Meta>, v: nat) {
    && v < |ms|
    && (ms[v].marked ==> forall j :: 0 <= j < |ms| ==> ms[j].marked && Earlier(ms, v, j))
    && (!ms[v].marked ==> forall j :: 0 <= j < |ms| && !ms[j].marked ==> Earlier(ms, v, j))
  }

  /** `ms` is `start` with the touched candidates that came up so far inserted anew, after everything
  else, the earliest first. */
  ghost predicate Progress(start: seq<Meta>, tick0: nat, ms: seq<Meta>, tick: nat) {
    && |ms| == |start| > 0
    && tick0 <= tick
    && (forall i :: 0 <= i < |ms| ==> start[i].inserted <= tick0)
    && (forall i :: 0 <= i < |ms| ==> Kept(start, ms, i) || Renewed(start, ms, i, tick0, tick))
    && (forall i, j :: 0 <= i < |ms| && 0 <= j < |ms| && ms[i].inserted > tick0 >= ms[j].inserted ==>
      Earlier(start, i, j))
  }

  predicate Kept(start: seq<Meta>, ms: seq<Meta>, i: nat)
    requires i < |ms| == |start|
  {
    ms[i] == start[i]
  }

  predicate Renewed(start: seq<Meta>, ms: seq<Meta>, i: nat, tick0: nat, tick: nat)
    requires i < |ms| == |start|
  {
    start[i].marked && !ms[i].marked && tick0 < ms[i].inserted <= tick && ms[i].valid == start[i].valid
  }

  lemma Passes(start: seq<Meta>, tick0: nat, ms: seq<Meta>, tick: nat)
    requires Progress(start, tick0, ms, tick) && ms[Earliest(ms)].marked && tick < U64_MAX
    ensures
      var i := Earliest(ms);
      Progress(start, tick0, ms[i := ms[i].(inserted := tick + 1, marked := false)], tick + 1)
  {
    var i := Earliest(ms);
    var ms' := ms[i := ms[i].(inserted := tick + 1, marked := false)];
    assert Kept(start, ms, i) || Renewed(start, ms, i, tick0, tick);
    forall k | 0 <= k < |ms'|
      ensures Kept(start, ms', k) || Renewed(start, ms', k, tick0, tick + 1)
      ensures ms'[k].inserted <= tick0 ==> Earlier(start, i, k)
    {
      assert Kept(start, ms, k) || Renewed(start, ms, k, tick0, tick);
      assert Earlier(ms, i, k);
    }
  }

  lemma {:induction false} SettleFrom(start: seq<Meta>, tick0: nat, ms: seq<Meta>, tick: nat)
    requires Progress(start, tick0, ms, tick) && tick + Marked(ms) <= U64_MAX
    ensures
      var r := Settle(ms, tick);
      Progress(start, tick0, r.ms, r.tick) && r.victim == Earliest(r.ms) && !r.ms[r.victim].marked
    decreases Marked(ms)
  {
    var i := Earliest(ms);
    if ms[i].marked {
      var m := ms[i].(inserted := tick + 1, marked := false);
      MarkedHas(ms, i);
      MarkedUpdate(ms, i, m);
      Passes(start, tick0, ms, tick);
      SettleFrom(start, tick0, ms[i := m], tick + 1);
    }
  }

  // ----- exactly when the marks are respected

  predicate AllMarked(ms: seq<Meta>) {
    forall j :: 0 <= j < |ms| ==> ms[j].marked
  }

  lemma {:induction false} AllMarkedCounted(ms: seq<Meta>)
    requires AllMarked(ms)
    ensures Marked(ms) == |ms|
  {
    if ms != [] {
      AllMarkedCounted(ms[1..]);
    }
  }

  /** The earliest candidate that was not touched. */
  predicate FirstPlain(ms: seq<Meta>, u: nat) {
    && u < |ms| && !ms[u].marked
    && forall j :: 0 <= j < |ms| && !ms[j].marked ==> Earlier(ms, u, j)
  }

  lemma {:induction false} HasFirstPlain(ms: seq<Meta>, n: nat) returns (u: nat)
    requires n <= |ms| && exists j :: 0 <= j < n && !ms[j].marked
    ensures u < n && !ms[u].marked
    ensures forall j :: 0 <= j < n && !ms[j].marked ==> Earlier(ms, u, j)
    decreases n
  {
    if exists j :: 0 <= j < n - 1 && !ms[j].marked {
      u := HasFirstPlain(ms, n - 1);
      if !ms[n - 1].marked && ms[n - 1].inserted < ms[u].inserted {
        u := n - 1;
      }
    } else {
      u := n - 1;
    }
  }

  /** An untouched candidate ahead of every tick still to be handed out is reached. */
  lemma {:induction false} SettlesOnPlain(ms: seq<Meta>, tick: nat, u: nat)
    requires FirstPlain(ms, u) && ms[u].inserted < SaturatingNext(tick)
    ensures Settle(ms, tick).victim == u
    decreases Marked(ms)
  {
    var i := Earliest(ms);
    assert Earlier(ms, i, u);
    if ms[i].marked {
      var m := ms[i].(inserted := SaturatingNext(tick), marked := false);
      var ms' := ms[i := m];
      MarkedUpdate(ms, i, m);
      assert FirstPlain(ms', u) by {
        forall j | 0 <= j < |ms'| && !ms'[j].marked
          ensures Earlier(ms', u, j)
        {
          assert j != i ==> Earlier(ms, u, j);
        }
      }
      SettlesOnPlain(ms', SaturatingNext(tick), u);
    } else {
      assert Earlier(ms, u, i);
    }
  }

  /** With the counter at its top, candidates passed over queue up by position. */
  lemma {:induction false} SettlesOnFirst(ms: seq<Meta>, tick: nat)
    requires ms != [] && tick <= U64_MAX <= tick + 1
    requires forall j :: 0 <= j < |ms| ==> ms[j].inserted <= U64_MAX && (ms[j].inserted < U64_MAX ==> ms[j].marked)
    ensures Settle(ms, tick).victim == 0
    decreases Marked(ms)
  {
    var i := Earliest(ms);
    assert Earlier(ms, i, 0);
    if ms[i].marked {
      var m := ms[i].(inserted := SaturatingNext(tick), marked := false);
      MarkedUpdate(ms, i, m);
      SettlesOnFirst(ms[i := m], SaturatingNext(tick));
    }
  }

  /** What the candidates' ticks and the counter must satisfy for the marks to be respected. When the
  earliest candidate was touched it is inserted anew at the next tick: then every candidate was
  touched, or some untouched one still comes before that tick. A counter at its top leaves only the
  positions to go by. */
  ghost predicate Respected(ms: seq<Meta>, tick: nat)
    requires ms != []
  {
    var e := Earliest(ms);
    ms[e].marked ==>
      if tick + 1 < U64_MAX then
        AllMarked(ms) || exists u: nat :: FirstPlain(ms, u) && BeforeRenewed(ms, u, tick + 1, e)
      else
        || (exists u :: 0 <= u < |ms| && !ms[u].marked && ms[u].inserted < U64_MAX)
        || !ms[0].marked
        || (AllMarked(ms) && e == 0)
  }

  /** Candidate `u` comes before candidate `e` inserted anew at this tick. */
  predicate BeforeRenewed(ms: seq<Meta>, u: nat, tick: nat, e: nat)
    requires u < |ms|
  {
    ms[u].inserted < tick || (ms[u].inserted == tick && u < e)
  }

  lemma PassesEarliest(ms: seq<Meta>, tick: nat)
    requires ms != [] && ms[Earliest(ms)].marked && tick + 1 < U64_MAX
    ensures
      var e := Earliest(ms);
      && (AllMarked(ms) ==> Settle(ms, tick).victim == e)
      && forall u: nat :: FirstPlain(ms, u) ==>
        Settle(ms, tick).victim == (if BeforeRenewed(ms, u, tick + 1, e) then u else e)
  {
    var e := Earliest(ms);
    var m := ms[e].(inserted := tick + 1, marked := false);
    var ms' := ms[e := m];
    MarkedUpdate(ms, e, m);
    assert Settle(ms, tick) == Settle(ms', tick + 1);
    if AllMarked(ms) {
      SettlesOnPlain(ms', tick + 1, e);
    }
    forall u: nat | FirstPlain(ms, u)
      ensures Settle(ms, tick).victim == (if BeforeRenewed(ms, u, tick + 1, e) then u else e)
    {
      var w := if BeforeRenewed(ms, u, tick + 1, e) then u else e;
      assert FirstPlain(ms', w) by {
        forall j | 0 <= j < |ms'| && !ms'[j].marked
          ensures Earlier(ms', w, j)
        {
          assert j != e ==> Earlier(ms, u, j);
        }
      }
      SettlesOnPlain(ms', tick + 1, w);
    }
  }

  lemma SettlesAtTop(ms: seq<Meta>, tick: nat)
    requires ms != [] && ms[Earliest(ms)].marked && tick <= U64_MAX <= tick + 1
    requires forall j :: 0 <= j < |ms| ==> ms[j].inserted <= U64_MAX
    ensures FirstUntouched(ms, Settle(ms, tick).victim) <==> Respected(ms, tick)
  {
    var e := Earliest(ms);
    if u0: nat :| u0 < |ms| && !ms[u0].marked && ms[u0].inserted < U64_MAX {
      var u := HasFirstPlain(ms, |ms|);
      assert Earlier(ms, u, u0);
      SettlesOnPlain(ms, tick, u);
    } else {
      SettlesOnFirst(ms, tick);
      assert Earlier(ms, e, 0);
    }
  }

  /** The victim is the earliest-inserted candidate that was not touched, or the earliest of all when
  every one was, exactly when the ticks satisfy the condition above. */
  lemma FirstUntouchedIff(ms: seq<Meta>, tick: nat)
    requires ms != [] && tick <= U64_MAX && forall j :: 0 <= j < |ms| ==> ms[j].inserted <= U64_MAX
    ensures FirstUntouched(ms, Settle(ms, tick).victim) <==> Respected(ms, tick)
  {
    var e := Earliest(ms);
    if ms[e].marked && tick + 1 < U64_MAX {
      PassesEarliest(ms, tick);
      if !AllMarked(ms) {
        var u := HasFirstPlain(ms, |ms|);
        assert FirstPlain(ms, u);
        forall w: nat | FirstPlain(ms, w)
          ensures w == u
        {
          assert Earlier(ms, u, w) && Earlier(ms, w, u);
        }
      }
    } else if ms[e].marked {
      SettlesAtTop(ms, tick);
    }
  }

  /** A counter no candidate's tick is ahead of always respects the marks. */
  lemma VictimIsFirstUntouched(ms: seq<Meta>, tick: nat)
    requires ms != [] && Ticking(ms, tick)
    ensures FirstUntouched(ms, Settle(ms, tick).victim)
  {
    FirstUntouchedIff(ms, tick);
    var e := Earliest(ms);
    if ms[e].marked {
      MarkedHas(ms, e);
      if AllMarked(ms) {
        AllMarkedCounted(ms);
      } else {
        var u := HasFirstPlain(ms, |ms|);
        assert FirstPlain(ms, u) && BeforeRenewed(ms, u, tick + 1, e);
      }
    }
  }

  /** With a counter behind the candidates' ticks, as a restored snapshot may have it, a touched
  candidate can be chosen over an untouched one. */
  lemma StaleCounter(late: nat)
    requires late > 1
    ensures
      var ms := [Meta(true, 1, true), Meta(true, late, false)];
      Settle(ms, 0).victim == 0 && !FirstUntouched(ms, 0)
  {
    var ms := [Meta(true, 1, true), Meta(true, late, false)];
    EarliestUnique(ms, 0);
    var ms' := ms[0 := ms[0].(inserted := 1, marked := false)];
    EarliestUnique(ms', 0);
    assert Settle(ms, 0) == Settle(ms', 1);
    assert !ms[1].marked;
  }

  /** Exactly the touched candidates that come before the victim are passed over; everything else
  keeps its bookkeeping. */
  lemma PassedOver(ms: seq<Meta>, tick: nat, j: nat)
    requires ms != [] && Ticking(ms, tick) && j < |ms|
    ensures
      var r := Settle(ms, tick);
      && |r.ms| == |ms| && r.victim < |ms|
      && var passed := ms[j].marked && (ms[r.victim].marked || Earlier(ms, j, r.victim));
      if passed then Renewed(ms, r.ms, j, tick, r.tick) else r.ms[j] == ms[j]
  {
    SettleFrom(ms, tick, ms, tick);
    VictimIsFirstUntouched(ms, tick);
    var r := Settle(ms, tick);
    var v := r.victim;
    assert Kept(ms, r.ms, j) || Renewed(ms, r.ms, j, tick, r.tick);
    assert Kept(ms, r.ms, v) || Renewed(ms, r.ms, v, tick, r.tick);
    assert Earlier(r.ms, v, j);
  }

  // ----- the loops

  /** The scan of `select_cross_set_metadata_victim` over candidates all in use. */
  method EarliestOf(ms: array<Meta>) returns (r: nat)
    requires ms.Length > 0
    ensures r == Earliest(ms[..])
  {
    r := 0;
    var n := 1;
    while n < ms.Length
      invariant n <= ms.Length && r == EarliestBelow(ms[..], n)
    {
      if ms[n].inserted < ms[r].inserted {
        r := n;
      }
      n := n + 1;
    }
  }

  /** `select_cross_set_second_chance_victim`: no candidate, an unused one, or the one the marks
  leave. */
  method SelectVictim(ms: array<Meta>, tick: nat) returns (victim: Option<nat>, tick': nat)
    modifies ms
    ensures ms.Length == 0 ==> victim.None?
    ensures victim.Some? ==> victim.value < ms.Length
    ensures
      var start := old(ms[..]);
      if exists i :: 0 <= i < |start| && !start[i].valid then
        && victim.Some? && !start[victim.value].valid && (forall k :: 0 <= k < victim.value ==> start[k].valid)
        && ms[..] == start && tick' == tick
      else
        start != [] ==> victim.Some? && Settled(ms[..], tick', victim.value) == Settle(start, tick)
  {
    tick' := tick;
    if ms.Length == 0 {
      return None, tick';
    }
    var i := 0;
    while i < ms.Length
      invariant i <= ms.Length && ms[..] == old(ms[..])
      invariant forall k :: 0 <= k < i ==> ms[k].valid
    {
      if !ms[i].valid {
        return Some(i), tick';
      }
      i := i + 1;
    }
    var selected := EarliestOf(ms);
    while ms[selected].marked
      invariant ms.Length > 0 && selected == Earliest(ms[..])
      invariant Settle(ms[..], tick') == Settle(old(ms[..]), tick)
      decreases Marked(ms[..])
    {
      ghost var before := ms[..];
      tick' := SaturatingNext(tick');
      var m := ms[selected].(inserted := tick', marked := false);
      MarkedUpdate(before, selected, m);
      ms[selected] := m;
      assert ms[..] == before[selected := m];
      selected := EarliestOf(ms);
    }
    victim := Some(selected);
  }
}
