/** Draining a list of nodes in an order compatible with a relation: at every step the node with
the least key among those that no pending node comes before is taken. */
module Topological {
  import opened Common

  type Relation = (nat, nat) -> bool

  ghost predicate IsStrictOrder(less: Relation) {
    && (forall i: nat :: !less(i, i))
    && (forall i: nat, j: nat, k: nat :: less(i, j) && less(j, k) ==> less(i, k))
  }

  predicate Blocked(before: Relation, pending: seq<nat>, i: nat) {
    exists p :: 0 <= p < |pending| && before(pending[p], i)
  }

  /** Position of the first least-keyed unblocked entry among the first `k` pending ones. */
  function Grant(before: Relation, less: Relation, pending: seq<nat>, k: nat): (g: Option<nat>)
    requires k <= |pending|
    ensures g.None? ==>
      forall p {:trigger Blocked(before, pending, pending[p])} :: 0 <= p < k ==> Blocked(before, pending, pending[p])
    ensures g.Some? ==> g.value < k && !Blocked(before, pending, pending[g.value])
  {
    if k == 0 then None
    else
      var g := Grant(before, less, pending, k - 1);
      var i := pending[k - 1];
      if Blocked(before, pending, i) then g
      else if g.None? || less(i, pending[g.value]) then Some(k - 1)
      else g
  }

  /** Nothing unblocked among the first `k` pending entries has a smaller key than the grant. */
  lemma {:induction false} GrantIsLeast(before: Relation, less: Relation, pending: seq<nat>, k: nat, p: nat)
    requires IsStrictOrder(less) && p < k <= |pending| && !Blocked(before, pending, pending[p])
    ensures Grant(before, less, pending, k).Some?
    ensures !less(pending[p], pending[Grant(before, less, pending, k).value])
  {
    if p < k - 1 {
      GrantIsLeast(before, less, pending, k - 1, p);
    }
  }

  function Without(pending: seq<nat>, p: nat): (rest: seq<nat>)
    requires p < |pending|
  {
    pending[..p] + pending[p + 1..]
  }

  /** The whole order; none where the program finds every pending entry blocked and panics. */
  function Drain(before: Relation, less: Relation, pending: seq<nat>): (order: Option<seq<nat>>)
    decreases |pending|
  {
    if pending == [] then Some([])
    else
      match Grant(before, less, pending, |pending|)
      case None => None
      case Some(p) =>
        match Drain(before, less, Without(pending, p))
        case None => None
        case Some(rest) => Some([pending[p]] + rest)
  }

  // ----- soundness of the order

  /** `i` may be taken next from `remaining`: unblocked, with the least key of the unblocked. */
  ghost predicate Takes(before: Relation, less: Relation, remaining: multiset<nat>, i: nat) {
    && (forall j :: j in remaining ==> !before(j, i))
    && (forall j :: j in remaining && (forall k :: k in remaining ==> !before(k, j)) ==>
          !less(j, i))
  }

  ghost predicate TakesAt(before: Relation, less: Relation, order: seq<nat>, i: nat)
    requires i < |order|
  {
    Takes(before, less, multiset(order[i..]), order[i])
  }

  ghost predicate Stepwise(before: Relation, less: Relation, order: seq<nat>) {
    forall i :: 0 <= i < |order| ==> TakesAt(before, less, order, i)
  }

  lemma InMultiset(s: seq<nat>, i: nat)
    requires i in multiset(s)
    ensures exists p :: 0 <= p < |s| && s[p] == i
  {
    assert i in s;
  }

  lemma UnblockedMeans(before: Relation, pending: seq<nat>, i: nat)
    ensures !Blocked(before, pending, i) <==> forall j :: j in multiset(pending) ==> !before(j, i)
  {
    if !Blocked(before, pending, i) {
      forall j | j in multiset(pending)
        ensures !before(j, i)
      {
        InMultiset(pending, j);
      }
    } else {
      var p :| 0 <= p < |pending| && before(pending[p], i);
      assert pending[p] in multiset(pending);
    }
  }

  lemma GrantTakes(before: Relation, less: Relation, pending: seq<nat>, p: nat)
    requires IsStrictOrder(less) && pending != [] && Grant(before, less, pending, |pending|) == Some(p)
    ensures Takes(before, less, multiset(pending), pending[p])
  {
    UnblockedMeans(before, pending, pending[p]);
    forall j | j in multiset(pending) && (forall k :: k in multiset(pending) ==> !before(k, j))
      ensures !less(j, pending[p])
    {
      UnblockedMeans(before, pending, j);
      InMultiset(pending, j);
      var k :| 0 <= k < |pending| && pending[k] == j;
      GrantIsLeast(before, less, pending, |pending|, k);
    }
  }

  lemma WithoutElements(pending: seq<nat>, p: nat)
    requires p < |pending|
    ensures multiset(pending) == multiset{pending[p]} + multiset(Without(pending, p))
  {
    assert pending == pending[..p] + ([pending[p]] + pending[p + 1..]);
  }

  lemma {:induction false} DrainIsStepwise(before: Relation, less: Relation, pending: seq<nat>)
    requires IsStrictOrder(less) && Drain(before, less, pending).Some?
    ensures multiset(Drain(before, less, pending).value) == multiset(pending)
    ensures Stepwise(before, less, Drain(before, less, pending).value)
    decreases |pending|
  {
    if pending != [] {
      var p := Grant(before, less, pending, |pending|).value;
      DrainIsStepwise(before, less, Without(pending, p));
      WithoutElements(pending, p);
      GrantTakes(before, less, pending, p);
      ConsStepwise(before, less, pending[p], Drain(before, less, Without(pending, p)).value);
    }
  }

  lemma ConsStepwise(before: Relation, less: Relation, i: nat, rest: seq<nat>)
    requires Stepwise(before, less, rest) && Takes(before, less, multiset([i] + rest), i)
    ensures Stepwise(before, less, [i] + rest)
  {
    var order := [i] + rest;
    forall k | 0 <= k < |order|
      ensures TakesAt(before, less, order, k)
    {
      if k == 0 {
        assert order[0..] == order;
      } else {
        assert TakesAt(before, less, rest, k - 1);
        assert order[k..] == rest[k - 1..];
      }
    }
  }

  /** No entry is listed before one that orders before it, itself included. */
  lemma OrderRespected(before: Relation, less: Relation, order: seq<nat>, i: nat, j: nat)
    requires Stepwise(before, less, order) && i <= j < |order|
    ensures !before(order[j], order[i])
  {
    assert order[i..][j - i] == order[j];
    assert order[j] in multiset(order[i..]);
    assert TakesAt(before, less, order, i);
  }

  // ----- when an order exists

  ghost predicate Linked(before: Relation, walk: seq<nat>, i: nat)
    requires 0 < i < |walk|
  {
    before(walk[i - 1], walk[i])
  }

  ghost predicate IsWalk(before: Relation, pending: seq<nat>, walk: seq<nat>) {
    && (forall i :: 0 <= i < |walk| ==> walk[i] in multiset(pending))
    && (forall i :: 0 < i < |walk| ==> Linked(before, walk, i))
  }

  /** A cycle of the relation through pending nodes; one node alone can be one. */
  ghost predicate IsCycle(before: Relation, pending: seq<nat>, cycle: seq<nat>) {
    && cycle != []
    && IsWalk(before, pending, cycle)
    && before(cycle[|cycle| - 1], cycle[0])
  }

  /** An unblocked entry lies on no cycle. */
  lemma UnblockedOffCycles(before: Relation, pending: seq<nat>, cycle: seq<nat>, i: nat)
    requires IsCycle(before, pending, cycle) && i < |cycle|
    ensures Blocked(before, pending, cycle[i])
  {
    UnblockedMeans(before, pending, cycle[i]);
    var previous := if i == 0 then |cycle| - 1 else i - 1;
    assert i != 0 ==> Linked(before, cycle, i);
    assert before(cycle[previous], cycle[i]);
  }

  ghost predicate AllBlocked(before: Relation, pending: seq<nat>) {
    forall p {:trigger Blocked(before, pending, pending[p])} :: 0 <= p < |pending| ==>
      Blocked(before, pending, pending[p])
  }

  lemma Predecessor(before: Relation, pending: seq<nat>, i: nat) returns (j: nat)
    requires AllBlocked(before, pending) && i in multiset(pending)
    ensures j in multiset(pending) && before(j, i)
  {
    InMultiset(pending, i);
    var q :| 0 <= q < |pending| && pending[q] == i;
    assert Blocked(before, pending, pending[q]);
    var p :| 0 <= p < |pending| && before(pending[p], i);
    j := pending[p];
  }

  lemma ExtendWalk(before: Relation, pending: seq<nat>, j: nat, rest: seq<nat>)
    requires IsWalk(before, pending, rest) && rest != [] && j in multiset(pending) && before(j, rest[0])
    ensures IsWalk(before, pending, [j] + rest)
  {
    var walk := [j] + rest;
    forall i | 0 < i < |walk|
      ensures Linked(before, walk, i)
    {
      if i > 1 {
        assert Linked(before, rest, i - 1);
      }
    }
  }

  /** A walk along the relation, as long as wished, exists where every node is blocked. */
  lemma {:induction false} Walk(before: Relation, pending: seq<nat>, n: nat) returns (walk: seq<nat>)
    requires pending != [] && AllBlocked(before, pending)
    ensures |walk| == n + 1 && IsWalk(before, pending, walk)
  {
    if n == 0 {
      walk := [pending[0]];
    } else {
      var rest := Walk(before, pending, n - 1);
      var j := Predecessor(before, pending, rest[0]);
      ExtendWalk(before, pending, j, rest);
      walk := [j] + rest;
    }
  }

  lemma {:induction false} DistinctFit(walk: seq<nat>, members: multiset<nat>)
    requires forall i :: 0 <= i < |walk| ==> walk[i] in members
    requires forall i, j :: 0 <= i < j < |walk| ==> walk[i] != walk[j]
    ensures |walk| <= |members|
  {
    if walk != [] {
      var n := |walk| - 1;
      DistinctFit(walk[..n], members - multiset{walk[n]});
    }
  }

  /** The piece of a walk between two visits to the same node is a cycle. */
  lemma RepeatIsCycle(before: Relation, pending: seq<nat>, walk: seq<nat>, i: nat, j: nat)
    requires IsWalk(before, pending, walk) && i < j < |walk| && walk[i] == walk[j]
    ensures IsCycle(before, pending, walk[i..j])
  {
    var cycle := walk[i..j];
    forall k | 0 < k < |cycle|
      ensures Linked(before, cycle, k)
    {
      assert Linked(before, walk, i + k);
    }
    assert Linked(before, walk, j);
  }

  lemma StuckHasCycle(before: Relation, pending: seq<nat>) returns (cycle: seq<nat>)
    requires pending != [] && AllBlocked(before, pending)
    ensures IsCycle(before, pending, cycle)
  {
    var walk := Walk(before, pending, |pending|);
    if forall i, j :: 0 <= i < j < |walk| ==> walk[i] != walk[j] {
      DistinctFit(walk, multiset(pending));
      assert false;
    }
    var i, j :| 0 <= i < j < |walk| && walk[i] == walk[j];
    RepeatIsCycle(before, pending, walk, i, j);
    cycle := walk[i..j];
  }

  /** Taking an unblocked entry away neither makes nor breaks a cycle. */
  lemma CyclesSurviveGrant(before: Relation, pending: seq<nat>, p: nat, cycle: seq<nat>)
    requires p < |pending| && !Blocked(before, pending, pending[p])
    ensures IsCycle(before, pending, cycle) <==> IsCycle(before, Without(pending, p), cycle)
  {
    WithoutElements(pending, p);
    if IsCycle(before, pending, cycle) {
      forall i | 0 <= i < |cycle|
        ensures cycle[i] in multiset(Without(pending, p))
      {
        UnblockedOffCycles(before, pending, cycle, i);
      }
    }
  }

  /** The drain succeeds exactly when the pending entries have no ordering cycle. */
  lemma {:induction false} DrainSucceedsIffAcyclic(before: Relation, less: Relation, pending: seq<nat>)
    ensures Drain(before, less, pending).Some? <==> !exists cycle :: IsCycle(before, pending, cycle)
    decreases |pending|
  {
    if pending != [] {
      var g := Grant(before, less, pending, |pending|);
      if g.None? {
        var cycle := StuckHasCycle(before, pending);
      } else {
        var rest := Without(pending, g.value);
        DrainSucceedsIffAcyclic(before, less, rest);
        forall cycle
          ensures IsCycle(before, pending, cycle) <==> IsCycle(before, rest, cycle)
        {
          CyclesSurviveGrant(before, pending, g.value, cycle);
        }
      }
    }
  }

  // ----- the draining loop

  /** What is drained after `taken`. */
  function Onto(taken: seq<nat>, rest: Option<seq<nat>>): (order: Option<seq<nat>>) {
    if rest.None? then None else Some(taken + rest.value)
  }

  lemma DrainNext(before: Relation, less: Relation, pending: seq<nat>, taken: seq<nat>)
    requires pending != []
    ensures
      var g := Grant(before, less, pending, |pending|);
      Onto(taken, Drain(before, less, pending))
      == if g.None? then None else Onto(taken + [pending[g.value]], Drain(before, less, Without(pending, g.value)))
  {
    var g := Grant(before, less, pending, |pending|);
    if g.Some? {
      OntoCons(taken, pending[g.value], Drain(before, less, Without(pending, g.value)));
    }
  }

  lemma OntoCons(taken: seq<nat>, i: nat, rest: Option<seq<nat>>)
    ensures Onto(taken + [i], rest) == Onto(taken, if rest.None? then None else Some([i] + rest.value))
  {
    if rest.Some? {
      assert taken + ([i] + rest.value) == (taken + [i]) + rest.value;
    }
  }

  lemma OntoEnds(taken: seq<nat>)
    ensures Onto([], Some(taken)) == Some(taken) && Onto(taken, Some([])) == Some(taken)
  {
    assert [] + taken == taken && taken + [] == taken;
  }

  function Labels(tag: nat -> nat, order: seq<nat>): (labels: seq<nat>)
    ensures |labels| == |order|
  {
    seq(|order|, i requires 0 <= i < |order| => tag(order[i]))
  }

  /** Takes one grant at a time, writing down its label, until nothing is pending or all is blocked. */
  method DrainLoop(before: Relation, less: Relation, start: seq<nat>, tag: nat -> nat)
    returns (labels: Option<seq<nat>>)
    ensures labels.Some? <==> Drain(before, less, start).Some?
    ensures labels.Some? ==> labels.value == Labels(tag, Drain(before, less, start).value)
  {
    var pending, ordered: seq<nat> := start, [];
    ghost var taken: seq<nat> := [];
    ghost var whole := Drain(before, less, start);
    if whole.Some? {
      OntoEnds(whole.value);
    }
    while pending != []
      invariant ordered == Labels(tag, taken)
      invariant whole == Onto(taken, Drain(before, less, pending))
      decreases |pending|
    {
      DrainNext(before, less, pending, taken);
      var grant := Grant(before, less, pending, |pending|);
      if grant.None? {
        return None;
      }
      var i := pending[grant.value];
      ordered := ordered + [tag(i)];
      taken := taken + [i];
      pending := Without(pending, grant.value);
    }
    OntoEnds(taken);
    return Some(ordered);
  }
}
