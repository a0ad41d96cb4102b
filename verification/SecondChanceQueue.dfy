/** Second-chance replacement as the textbook queue it stands for: places wait in the order in which
they were filled, and a place that was used since goes to the back instead of being replaced. The
program keeps ticks and marks; this is what they mean over a whole run. */
module SecondChanceQueue {
  import opened Common
  import opened CompressedTags
  import opened SecondChance
  import opened SecondChanceTags

  /** A set and a way. */
  type Place = (nat, nat)

  /** The places in use, longest waiting first, and those used since they joined. */
  datatype Fifo = Fifo(order: seq<Place>, used: set<Place>)

  function Without(order: seq<Place>, p: Place): (rest: seq<Place>)
    ensures forall x :: x in rest <==> x in order && x != p
    ensures |rest| <= |order|
  {
    if order == [] then []
    else
      var n := |order| - 1;
      assert order == order[..n] + [order[n]];
      Without(order[..n], p) + if order[n] == p then [] else [order[n]]
  }

  function Join(q: Fifo, p: Place): (q': Fifo) {
    Fifo(Without(q.order, p) + [p], q.used - {p})
  }

  function Use(q: Fifo, p: Place): (q': Fifo) {
    q.(used := q.used + {p})
  }

  function Leave(q: Fifo, p: Place): (q': Fifo) {
    Fifo(Without(q.order, p), q.used - {p})
  }

  /** Of some places in the queue, the one that has waited longest. */
  function Front(order: seq<Place>, ps: set<Place>): (p: Place)
    requires exists x :: x in order && x in ps
    ensures p in order && p in ps
  {
    if order[0] in ps then order[0]
    else
      assert order == [order[0]] + order[1..];
      Front(order[1..], ps)
  }

  /** The candidate to replace, after those used since they joined have gone to the back. */
  function Evict(q: Fifo, ps: set<Place>): (out: (Fifo, Place))
    requires exists x :: x in q.order && x in ps
    ensures out.1 in ps
    decreases |q.used|
  {
    var p := Front(q.order, ps);
    if p !in q.used then (q, p)
    else
      assert p in Join(q, p).order && q.used - {p} < q.used;
      UsedShrinks(q.used, p);
      Evict(Join(q, p), ps)
  }

  lemma UsedShrinks(used: set<Place>, p: Place)
    requires p in used
    ensures |used - {p}| < |used|
  {
  }

  // ----- the queue a run keeps in ticks and marks

  function MetaAt(metas: Metas, p: Place): (m: Meta)
    requires p.0 < |metas| && p.1 < |metas[p.0]|
  {
    metas[p.0][p.1]
  }

  predicate InRange(metas: Metas, order: seq<Place>) {
    forall i :: 0 <= i < |order| ==> order[i].0 < |metas| && order[i].1 < |metas[order[i].0]|
  }

  predicate Rising(metas: Metas, order: seq<Place>)
    requires InRange(metas, order)
  {
    forall i, j :: 0 <= i < j < |order| ==> MetaAt(metas, order[i]).inserted < MetaAt(metas, order[j]).inserted
  }

  predicate MeansPlace(m: Meta, p: Place, q: Fifo) {
    (m.valid <==> p in q.order) && (m.marked <==> p in q.used)
  }

  /** The ticks put the places in use in the queue's order, and the marks name those used since. */
  predicate Means(c: Config, t: Tracked, q: Fifo) {
    && Fits(c, t) && InRange(t.metas, q.order) && Rising(t.metas, q.order)
    && (forall i :: 0 <= i < |q.order| ==> MetaAt(t.metas, q.order[i]).inserted <= t.tick)
    && (forall s, w :: 0 <= s < c.sets && 0 <= w < c.ways ==> MeansPlace(t.metas[s][w], (s, w), q))
  }

  lemma {:induction false} WithoutRises(metas: Metas, order: seq<Place>, p: Place)
    requires InRange(metas, order) && Rising(metas, order)
    ensures InRange(metas, Without(order, p)) && Rising(metas, Without(order, p))
  {
    if order != [] {
      var n := |order| - 1;
      WithoutRises(metas, order[..n], p);
      forall x | x in Without(order[..n], p)
        ensures MetaAt(metas, x).inserted < MetaAt(metas, order[n]).inserted
      {
        var i :| 0 <= i < n && order[i] == x;
      }
    }
  }

  /** Only one place's bookkeeping changes. */
  predicate OnlyAt(metas: Metas, metas': Metas, p: Place) {
    && |metas'| == |metas| && (forall s :: 0 <= s < |metas| ==> |metas'[s]| == |metas[s]|)
    && (forall s, w :: 0 <= s < |metas| && 0 <= w < |metas[s]| && (s, w) != p ==> metas'[s][w] == metas[s][w])
  }

  lemma RestKept(metas: Metas, metas': Metas, order: seq<Place>, p: Place)
    requires InRange(metas, order) && Rising(metas, order) && p !in order && OnlyAt(metas, metas', p)
    ensures InRange(metas', order) && Rising(metas', order)
    ensures forall i :: 0 <= i < |order| ==> MetaAt(metas', order[i]) == MetaAt(metas, order[i])
  {
    forall i | 0 <= i < |order|
      ensures order[i].0 < |metas'| && order[i].1 < |metas'[order[i].0]|
      ensures MetaAt(metas', order[i]) == MetaAt(metas, order[i])
    {
      assert order[i] in order;
      assert (order[i].0, order[i].1) == order[i];
    }
  }

  lemma JoinMeant(c: Config, t: Tracked, t': Tracked, q: Fifo, p: Place)
    requires Means(c, t, q) && Fits(c, t') && OnlyAt(t.metas, t'.metas, p) && p.0 < c.sets && p.1 < c.ways
    requires MetaAt(t'.metas, p) == Meta(true, t.tick + 1, false) && t'.tick == t.tick + 1
    ensures Means(c, t', Join(q, p))
  {
    var rest, q' := Without(q.order, p), Join(q, p);
    WithoutRises(t.metas, q.order, p);
    RestKept(t.metas, t'.metas, rest, p);
    forall i | 0 <= i < |rest|
      ensures MetaAt(t'.metas, rest[i]).inserted <= t.tick
    {
      assert rest[i] in q.order;
    }
    forall s, w | 0 <= s < c.sets && 0 <= w < c.ways
      ensures MeansPlace(t'.metas[s][w], (s, w), q')
    {
      assert MeansPlace(t.metas[s][w], (s, w), q);
      assert (s, w) in q'.order <==> (s, w) in rest || (s, w) == p;
    }
  }

  lemma UseMeant(c: Config, t: Tracked, t': Tracked, q: Fifo, p: Place)
    requires Means(c, t, q) && Fits(c, t') && OnlyAt(t.metas, t'.metas, p) && p.0 < c.sets && p.1 < c.ways
    requires MetaAt(t.metas, p).valid && MetaAt(t'.metas, p) == MetaAt(t.metas, p).(marked := true)
    requires t.tick <= t'.tick
    ensures Means(c, t', Use(q, p))
  {
    forall i | 0 <= i < |q.order|
      ensures MetaAt(t'.metas, q.order[i]).inserted == MetaAt(t.metas, q.order[i]).inserted
    {
      assert (q.order[i].0, q.order[i].1) == q.order[i];
    }
    forall s, w | 0 <= s < c.sets && 0 <= w < c.ways
      ensures MeansPlace(t'.metas[s][w], (s, w), Use(q, p))
    {
      assert MeansPlace(t.metas[s][w], (s, w), q);
    }
  }

  lemma LeaveMeant(c: Config, t: Tracked, t': Tracked, q: Fifo, p: Place)
    requires Means(c, t, q) && Fits(c, t') && OnlyAt(t.metas, t'.metas, p) && p.0 < c.sets && p.1 < c.ways
    requires MetaAt(t'.metas, p) == UNUSED && t'.tick == t.tick
    ensures Means(c, t', Leave(q, p))
  {
    var rest, q' := Without(q.order, p), Leave(q, p);
    WithoutRises(t.metas, q.order, p);
    RestKept(t.metas, t'.metas, rest, p);
    forall i | 0 <= i < |rest|
      ensures MetaAt(t'.metas, rest[i]).inserted <= t.tick
    {
      assert rest[i] in q.order;
    }
    forall s, w | 0 <= s < c.sets && 0 <= w < c.ways
      ensures MeansPlace(t'.metas[s][w], (s, w), q')
    {
      assert MeansPlace(t.metas[s][w], (s, w), q);
    }
  }

  // ----- choosing a victim

  /** Where a superblock may go, one place a way. */
  function PlacesOf(c: Config, base: nat): (ps: set<Place>) {
    set w | 0 <= w < c.ways :: (c.setFor(base, w), w)
  }

  /** The front of the candidates is the one with the least tick. */
  lemma {:induction false} FrontIsLeast(metas: Metas, order: seq<Place>, ps: set<Place>, p: Place)
    requires InRange(metas, order) && Rising(metas, order) && p in order && p in ps
    ensures
      var f := Front(order, ps);
      f != p ==> f.0 < |metas| && f.1 < |metas[f.0]| && MetaAt(metas, f).inserted < MetaAt(metas, p).inserted
  {
    if order[0] !in ps {
      assert order == [order[0]] + order[1..];
      FrontIsLeast(metas, order[1..], ps, p);
    } else {
      var i :| 0 <= i < |order| && order[i] == p;
    }
  }

  predicate AllInUse(ms: seq<Meta>) {
    forall w :: 0 <= w < |ms| ==> ms[w].valid
  }

  lemma CandidatePlace(c: Config, t: Tracked, q: Fifo, base: nat, w: nat)
    requires ValidConfig(c) && Means(c, t, q) && w < c.ways && AllInUse(Candidates(c, t.metas, base))
    ensures
      var p := (c.setFor(base, w), w);
      && p in q.order && p in PlacesOf(c, base) && (p in q.used <==> Candidates(c, t.metas, base)[w].marked)
  {
    var s := c.setFor(base, w);
    assert MeansPlace(t.metas[s][w], (s, w), q);
    assert Candidates(c, t.metas, base)[w].valid;
  }

  lemma FrontIsEarliest(c: Config, t: Tracked, q: Fifo, base: nat)
    requires ValidConfig(c) && Means(c, t, q) && AllInUse(Candidates(c, t.metas, base))
    ensures
      var w := Earliest(Candidates(c, t.metas, base));
      && (exists x :: x in q.order && x in PlacesOf(c, base))
      && Front(q.order, PlacesOf(c, base)) == (c.setFor(base, w), w)
  {
    var ms, ps := Candidates(c, t.metas, base), PlacesOf(c, base);
    var w := Earliest(ms);
    var p := (c.setFor(base, w), w);
    CandidatePlace(c, t, q, base, w);
    var f := Front(q.order, ps);
    FrontIsLeast(t.metas, q.order, ps, p);
    assert Earlier(ms, w, f.1);
  }

  /** A candidate passed over, in the bookkeeping and among the candidates. */
  function Passed(c: Config, t: Tracked, base: nat, ms: seq<Meta>, w: nat): (out: (Tracked, seq<Meta>))
    requires ValidConfig(c) && Fits(c, t) && |ms| == c.ways && w < c.ways
  {
    var m := ms[w].(inserted := t.tick + 1, marked := false);
    (t.(metas := PutMeta(t.metas, c.setFor(base, w), w, m), tick := t.tick + 1), ms[w := m])
  }

  /** Passing over the front candidate moves it to the back. */
  lemma PassMeant(c: Config, t: Tracked, q: Fifo, base: nat, w: nat, t': Tracked)
    requires ValidConfig(c) && Means(c, t, q) && w < c.ways && t.tick < U64_MAX
    requires AllInUse(Candidates(c, t.metas, base)) && t' == Passed(c, t, base, Candidates(c, t.metas, base), w).0
    ensures Means(c, t', Join(q, (c.setFor(base, w), w)))
    ensures Candidates(c, t'.metas, base) == Passed(c, t, base, Candidates(c, t.metas, base), w).1
    ensures AllInUse(Candidates(c, t'.metas, base)) && OnlyAt(t.metas, t'.metas, (c.setFor(base, w), w))
  {
    JoinMeant(c, t, t', q, (c.setFor(base, w), w));
  }

  lemma PassKeepsRest(c: Config, metas: Metas, metas': Metas, base: nat, ms: seq<Meta>, w: nat)
    requires ValidConfig(c) && MetasFit(c, metas) && |ms| == c.ways && w < c.ways && MetasFit(c, metas')
    requires OnlyAt(metas, metas', (c.setFor(base, w), w))
    ensures WithCandidates(c, metas', base, ms) == WithCandidates(c, metas, base, ms)
  {
    var a, b := WithCandidates(c, metas', base, ms), WithCandidates(c, metas, base, ms);
    forall s | 0 <= s < c.sets
      ensures a[s] == b[s]
    {
      assert forall k :: 0 <= k < c.ways ==> a[s][k] == b[s][k];
    }
  }

  lemma CandidatesBack(c: Config, metas: Metas, base: nat)
    requires ValidConfig(c) && MetasFit(c, metas)
    ensures WithCandidates(c, metas, base, Candidates(c, metas, base)) == metas
  {
    var a := WithCandidates(c, metas, base, Candidates(c, metas, base));
    forall s | 0 <= s < c.sets
      ensures a[s] == metas[s]
    {
      assert forall k :: 0 <= k < c.ways ==> a[s][k] == metas[s][k];
    }
  }

  /** What settling on a victim leaves means what evicting leaves. */
  predicate Evicted(c: Config, t: Tracked, q: Fifo, base: nat, r: Settled)
    requires ValidConfig(c) && Fits(c, t)
  {
    && |r.ms| == c.ways && r.victim < c.ways && r.tick <= U64_MAX
    && (exists x :: x in q.order && x in PlacesOf(c, base))
    && var (q', v) := Evict(q, PlacesOf(c, base));
    && Means(c, t.(metas := WithCandidates(c, t.metas, base, r.ms), tick := r.tick), q')
    && v == (c.setFor(base, r.victim), r.victim)
  }

  lemma PassEvicted(c: Config, t: Tracked, t': Tracked, q: Fifo, base: nat, r: Settled, p: Place)
    requires ValidConfig(c) && Fits(c, t) && Fits(c, t') && Evicted(c, t', Join(q, p), base, r)
    requires p in q.order && p in PlacesOf(c, base) && p in q.used && p == Front(q.order, PlacesOf(c, base))
    requires OnlyAt(t.metas, t'.metas, p) && t'.tags == t.tags
    ensures Evicted(c, t, q, base, r)
  {
    PassKeepsRest(c, t.metas, t'.metas, base, r.ms, p.1);
    assert Evict(q, PlacesOf(c, base)) == Evict(Join(q, p), PlacesOf(c, base));
    assert t'.(metas := WithCandidates(c, t'.metas, base, r.ms), tick := r.tick)
        == t.(metas := WithCandidates(c, t.metas, base, r.ms), tick := r.tick);
  }

  lemma SettlePasses(ms: seq<Meta>, tick: nat, ms': seq<Meta>)
    requires ms != [] && ms[Earliest(ms)].marked && tick < U64_MAX
    requires ms' == ms[Earliest(ms) := ms[Earliest(ms)].(inserted := tick + 1, marked := false)]
    ensures Marked(ms') == Marked(ms) - 1 && Settle(ms, tick) == Settle(ms', tick + 1)
  {
    MarkedUpdate(ms, Earliest(ms), ms'[Earliest(ms)]);
  }

  lemma RestEvicted(c: Config, t: Tracked, q: Fifo, base: nat, ms: seq<Meta>, w: nat)
    requires ValidConfig(c) && Means(c, t, q) && ms == Candidates(c, t.metas, base) && w < c.ways
    requires exists x :: x in q.order && x in PlacesOf(c, base)
    requires Front(q.order, PlacesOf(c, base)) == (c.setFor(base, w), w) && (c.setFor(base, w), w) !in q.used
    ensures Evicted(c, t, q, base, Settled(ms, t.tick, w))
  {
    CandidatesBack(c, t.metas, base);
    assert t.(metas := WithCandidates(c, t.metas, base, ms), tick := t.tick) == t;
  }

  /** While the counter lasts, the loop over ticks and marks is the queue's eviction. */
  lemma {:induction false} SettleEvicts(c: Config, t: Tracked, q: Fifo, base: nat, ms: seq<Meta>, r: Settled)
    requires ValidConfig(c) && Means(c, t, q) && ms == Candidates(c, t.metas, base) && AllInUse(ms)
    requires t.tick + Marked(ms) <= U64_MAX && r == Settle(ms, t.tick)
    ensures Evicted(c, t, q, base, r) && r.tick <= t.tick + Marked(ms)
    decreases Marked(ms)
  {
    var w := Earliest(ms);
    var p := (c.setFor(base, w), w);
    FrontIsEarliest(c, t, q, base);
    CandidatePlace(c, t, q, base, w);
    if !ms[w].marked {
      RestEvicted(c, t, q, base, ms, w);
    } else {
      MarkedHas(ms, w);
      var (t', ms') := Passed(c, t, base, ms, w);
      SettlePasses(ms, t.tick, ms');
      PassMeant(c, t, q, base, w, t');
      SettleEvicts(c, t', Join(q, p), base, ms', r);
      PassEvicted(c, t, t', q, base, r, p);
    }
  }

  // ----- which candidate that is

  /** The candidate that has waited longest of those not used since they joined, or of all when every
  one was used. */
  ghost predicate LongestUnused(q: Fifo, ps: set<Place>, v: Place)
    requires exists x :: x in q.order && x in ps
  {
    var unused := ps - q.used;
    v == if exists x :: x in q.order && x in unused then Front(q.order, unused) else Front(q.order, ps)
  }

  lemma {:induction false} FrontPrefix(a: seq<Place>, b: seq<Place>, ps: set<Place>)
    requires exists x :: x in a && x in ps
    ensures (exists x :: x in a + b && x in ps) && Front(a + b, ps) == Front(a, ps)
  {
    var x :| x in a && x in ps;
    assert x in a + b;
    if a[0] !in ps {
      assert a == [a[0]] + a[1..] && (a + b)[1..] == a[1..] + b;
      FrontPrefix(a[1..], b, ps);
    }
  }

  lemma {:induction false} FrontSame(order: seq<Place>, ps: set<Place>, ps': set<Place>)
    requires exists x :: x in order && x in ps
    requires forall x :: x in order ==> (x in ps <==> x in ps')
    ensures (exists x :: x in order && x in ps') && Front(order, ps) == Front(order, ps')
  {
    assert order[0] in order;
    if order[0] !in ps {
      assert order == [order[0]] + order[1..];
      FrontSame(order[1..], ps, ps');
    }
  }

  lemma {:induction false} FrontLast(rest: seq<Place>, p: Place, ps: set<Place>)
    requires p in ps && forall x :: x in rest ==> x !in ps
    ensures p in rest + [p] && Front(rest + [p], ps) == p
  {
    if rest != [] {
      assert (rest + [p])[1..] == rest[1..] + [p] && rest[0] in rest;
      FrontLast(rest[1..], p, ps);
    }
  }

  lemma {:induction false} FrontWithout(order: seq<Place>, p: Place, ps: set<Place>)
    requires p !in ps && exists x :: x in order && x in ps
    ensures (exists x :: x in Without(order, p) && x in ps) && Front(Without(order, p), ps) == Front(order, ps)
  {
    var n := |order| - 1;
    var last := order[n];
    assert order == order[..n] + [last];
    if exists x :: x in order[..n] && x in ps {
      FrontWithout(order[..n], p, ps);
      FrontPrefix(order[..n], [last], ps);
      FrontPrefix(Without(order[..n], p), [last], ps);
      assert Without(order[..n], p) + [] == Without(order[..n], p);
    } else {
      FrontLast(order[..n], last, ps);
      FrontLast(Without(order[..n], p), last, ps);
    }
  }

  lemma UnusedFront(q: Fifo, ps: set<Place>, p: Place)
    requires p in q.order && p in ps && p == Front(q.order, ps) && p !in q.used
    ensures LongestUnused(q, ps, p)
  {
    FrontOfFewer(q.order, ps, ps - q.used);
  }

  lemma {:induction false} FrontOfFewer(order: seq<Place>, ps: set<Place>, fewer: set<Place>)
    requires (exists x :: x in order && x in ps) && fewer <= ps && Front(order, ps) in fewer
    ensures Front(order, fewer) == Front(order, ps)
  {
    if order[0] !in ps {
      assert order == [order[0]] + order[1..];
      FrontOfFewer(order[1..], ps, fewer);
    }
  }

  /** A used front at the back, now unused, comes last among the unused. */
  lemma BackComesLast(q: Fifo, ps: set<Place>, p: Place, v: Place)
    requires p in q.order && p in ps && p == Front(q.order, ps) && p in q.used
    requires p in Join(q, p).order && LongestUnused(Join(q, p), ps, v)
    ensures LongestUnused(q, ps, v)
  {
    var rest, unused, unused' := Without(q.order, p), ps - q.used, ps - (q.used - {p});
    assert Join(q, p) == Fifo(rest + [p], q.used - {p});
    assert p in rest + [p] && p in unused';
    if exists x :: x in q.order && x in unused {
      FrontWithout(q.order, p, unused);
      FrontSame(rest, unused, unused');
      FrontPrefix(rest, [p], unused');
    } else {
      FrontLast(rest, p, unused');
    }
  }

  /** Eviction takes the candidate that has waited longest of those not used since they joined, or of
  all when every one was used. */
  lemma {:induction false} EvictTakes(q: Fifo, ps: set<Place>)
    requires exists x :: x in q.order && x in ps
    ensures LongestUnused(q, ps, Evict(q, ps).1)
    decreases |q.used|
  {
    var p := Front(q.order, ps);
    if p !in q.used {
      UnusedFront(q, ps, p);
    } else {
      UsedShrinks(q.used, p);
      assert p in Join(q, p).order;
      EvictTakes(Join(q, p), ps);
      BackComesLast(q, ps, p, Evict(q, ps).1);
    }
  }

  // ----- whole runs

  /** The first way whose place for the superblock is not in the queue, or the number of ways. */
  function FirstFree(c: Config, base: nat, order: seq<Place>, w: nat): (free: nat)
    requires w <= c.ways
    ensures w <= free <= c.ways
    ensures free < c.ways ==> (c.setFor(base, free), free) !in order
    ensures forall k :: w <= k < free ==> (c.setFor(base, k), k) in order
    decreases c.ways - w
  {
    if w == c.ways || (c.setFor(base, w), w) !in order then w else FirstFree(c, base, order, w + 1)
  }

  /** Where a new superblock goes: a free place, or else the queue's victim. */
  function Room(c: Config, q: Fifo, base: nat): (out: (Fifo, Place))
    requires c.ways > 0
  {
    var free := FirstFree(c, base, q.order, 0);
    if free < c.ways then (q, (c.setFor(base, free), free))
    else
      assert (c.setFor(base, 0), 0) in q.order && (c.setFor(base, 0), 0) in PlacesOf(c, base);
      Evict(q, PlacesOf(c, base))
  }

  /** The ticks and marks mean some queue. */
  ghost predicate Queueable(c: Config, t: Tracked) {
    exists q :: Means(c, t, q)
  }

  /** The queue after a step: lines that join a superblock and hits use its place, a superblock that
  is filled anew joins the queue, and one that loses its last line leaves. */
  ghost function Follow(c: Config, t: Tracked, q: Fifo, step: TagStep): (q': Fifo)
    requires ValidConfig(c) && Fits(c, t)
  {
    match step
    case InsertsLine(address, size) =>
      var base := c.baseOf(address);
      var way := WayOf(c, t.tags, base, 0);
      if way < c.ways then
        var p := (c.setFor(base, way), way);
        if InsertLine(c, t, address, size).1.coAllocated then Use(q, p) else Join(q, p)
      else Join(Room(c, q, base).0, Room(c, q, base).1)
    case AccessesLine(address) =>
      var found := Find(c, t.tags, address);
      if found.None? then q else Use(q, (found.value.set_, found.value.way))
    case InvalidatesLine(address) =>
      var found := Find(c, t.tags, address);
      if found.None? then q
      else if Count(Invalidate(c, t.tags, address).0[found.value.set_][found.value.way].blocks) > 0 then q
      else Leave(q, (found.value.set_, found.value.way))
    case RestoresFrom(snapshot) =>
      if !ValidTags(c, snapshot.tags) then q
      else if Queueable(c, snapshot) then var q' :| Means(c, snapshot, q'); q'
      else q
  }

  lemma FreeIsUnused(c: Config, t: Tracked, q: Fifo, base: nat)
    requires ValidConfig(c) && Means(c, t, q)
    ensures FirstFree(c, base, q.order, 0) == FirstUnused(Candidates(c, t.metas, base))
  {
    var ms := Candidates(c, t.metas, base);
    forall w | 0 <= w < c.ways
      ensures ms[w].valid <==> (c.setFor(base, w), w) in q.order
    {
      assert MeansPlace(t.metas[c.setFor(base, w)][w], (c.setFor(base, w), w), q);
    }
  }

  /** The program finds room where the queue does. */
  lemma RoomMeant(c: Config, t: Tracked, q: Fifo, base: nat)
    requires ValidConfig(c) && Means(c, t, q) && t.tick + c.ways < U64_MAX
    ensures
      var (t', w) := Choose(c, t, base);
      && Means(c, t', Room(c, q, base).0) && Room(c, q, base).1 == (c.setFor(base, w), w) && t'.tick < U64_MAX
  {
    var ms := Candidates(c, t.metas, base);
    FreeIsUnused(c, t, q, base);
    if FirstUnused(ms) == c.ways {
      MarkedAtMost(ms);
      SettleKeeps(ms, t.tick);
      SettleEvicts(c, t, q, base, ms, Settle(ms, t.tick));
    }
  }

  /** Where an insertion goes, and what it leaves of the bookkeeping. */
  lemma InsertsAt(c: Config, t: Tracked, address: nat, size: nat, w: nat, t': Tracked, i: Inserted)
    requires ValidConfig(c) && Consistent(c, t) && (t', i) == InsertLine(c, t, address, size)
    requires w == WayOf(c, t.tags, c.baseOf(address), 0)
    ensures
      var base := c.baseOf(address);
      var (chosen, way) := if w < c.ways then (t, w) else Choose(c, t, base);
      && Fits(c, chosen) && way < c.ways && i.way == way && i.set_ == c.setFor(base, way) < c.sets
      && t'.metas == (if i.coAllocated then Touched(chosen, i.set_, way) else Reset(chosen, i.set_, way)).metas
      && t'.tick == SaturatingNext(chosen.tick)
      && (i.coAllocated ==> w < c.ways && t.metas[i.set_][way].valid)
  {
    var base := c.baseOf(address);
    var (chosen, way) := if w < c.ways then (t, w) else Choose(c, t, base);
    InsertPuts(c, t.tags, address, size, way);
    if w < c.ways {
      var s := c.setFor(base, w);
      assert EntryOk(c, s, w, t.tags[s][w]);
      assert UseAgrees(t.tags[s][w], t.metas[s][w]);
    }
  }

  /** A line that joins uses its place, a superblock filled anew joins the queue. */
  lemma PlacedMeant(c: Config, t: Tracked, t': Tracked, q: Fifo, s: nat, w: nat, joins: bool)
    requires Means(c, t, q) && Fits(c, t') && s < c.sets && w < c.ways && t.tick < U64_MAX
    requires t'.metas == (if joins then Touched(t, s, w) else Reset(t, s, w)).metas && t'.tick == t.tick + 1
    requires joins ==> t.metas[s][w].valid
    ensures Means(c, t', if joins then Use(q, (s, w)) else Join(q, (s, w)))
  {
    if joins {
      UseMeant(c, t, t', q, (s, w));
    } else {
      JoinMeant(c, t, t', q, (s, w));
    }
  }

  lemma InsertMeant(c: Config, t: Tracked, q: Fifo, address: nat, size: nat, t': Tracked, q': Fifo)
    requires ValidConfig(c) && Consistent(c, t) && Means(c, t, q) && t.tick + c.ways < U64_MAX
    requires t' == InsertLine(c, t, address, size).0 && q' == Follow(c, t, q, InsertsLine(address, size))
    ensures Means(c, t', q')
  {
    var base, i := c.baseOf(address), InsertLine(c, t, address, size).1;
    var w := WayOf(c, t.tags, base, 0);
    InsertsAt(c, t, address, size, w, t', i);
    if w < c.ways {
      PlacedMeant(c, t, t', q, i.set_, i.way, i.coAllocated);
    } else {
      RoomMeant(c, t, q, base);
      PlacedMeant(c, Choose(c, t, base).0, t', Room(c, q, base).0, i.set_, i.way, i.coAllocated);
    }
  }

  lemma AccessMeant(c: Config, t: Tracked, q: Fifo, address: nat)
    requires ValidConfig(c) && Consistent(c, t) && Means(c, t, q)
    ensures Means(c, AccessLine(c, t, address), Follow(c, t, q, AccessesLine(address)))
  {
    if Find(c, t.tags, address).Some? {
      var found := Find(c, t.tags, address).value;
      FoundInUse(c, t.tags, address);
      assert UseAgrees(t.tags[found.set_][found.way], t.metas[found.set_][found.way]);
      UseMeant(c, t, AccessLine(c, t, address), q, (found.set_, found.way));
    }
  }

  lemma InvalidateMeant(c: Config, t: Tracked, q: Fifo, address: nat)
    requires ValidConfig(c) && Consistent(c, t) && Means(c, t, q)
    ensures Means(c, InvalidateLine(c, t, address), Follow(c, t, q, InvalidatesLine(address)))
  {
    if Find(c, t.tags, address).Some? {
      var found := Find(c, t.tags, address).value;
      var t' := InvalidateLine(c, t, address);
      FoundInUse(c, t.tags, address);
      if t'.metas != t.metas {
        LeaveMeant(c, t, t', q, (found.set_, found.way));
      }
    }
  }

  /** Before every step of the run the counter is far enough from its end. */
  ghost predicate Lasting(c: Config, steps: seq<TagStep>)
    requires ValidConfig(c) && AllMade(steps)
  {
    steps != [] ==>
      var earlier := steps[..|steps| - 1];
      Lasting(c, earlier) && RunTags(c, earlier).tick + c.ways < U64_MAX
  }

  /** Every snapshot the run takes over means some queue. */
  ghost predicate TakesQueues(c: Config, steps: seq<TagStep>)
    requires ValidConfig(c)
  {
    forall i :: 0 <= i < |steps| ==> TakesQueue(c, steps[i])
  }

  ghost predicate TakesQueue(c: Config, step: TagStep)
    requires ValidConfig(c)
  {
    step.RestoresFrom? && ValidTags(c, step.snapshot.tags) ==> Queueable(c, step.snapshot)
  }

  ghost predicate AlwaysQueueable(c: Config, steps: seq<TagStep>)
    requires ValidConfig(c) && AllMade(steps)
  {
    Queueable(c, RunTags(c, steps)) && (steps != [] ==> AlwaysQueueable(c, steps[..|steps| - 1]))
  }

  ghost function RunQueue(c: Config, steps: seq<TagStep>): (q: Fifo)
    requires ValidConfig(c) && AllMade(steps)
  {
    if steps == [] then Fifo([], {})
    else
      var n := |steps| - 1;
      Follow(c, RunTags(c, steps[..n]), RunQueue(c, steps[..n]), steps[n])
  }

  lemma StepMeant(c: Config, t: Tracked, q: Fifo, step: TagStep)
    requires ValidConfig(c) && Consistent(c, t) && Means(c, t, q) && t.tick + c.ways < U64_MAX && Made(step)
    ensures TakesQueue(c, step) ==> Means(c, Take(c, t, step), Follow(c, t, q, step))
    ensures !TakesQueue(c, step) ==> !Queueable(c, Take(c, t, step))
  {
    match step
    case InsertsLine(address, size) =>
      InsertMeant(c, t, q, address, size, Take(c, t, step), Follow(c, t, q, step));
    case AccessesLine(address) => AccessMeant(c, t, q, address);
    case InvalidatesLine(address) => InvalidateMeant(c, t, q, address);
    case RestoresFrom(_) =>
  }

  lemma StartMeant(c: Config)
    requires ValidConfig(c)
    ensures Means(c, Start(c), Fifo([], {}))
  {
  }

  lemma TakesQueuesLast(c: Config, steps: seq<TagStep>)
    requires ValidConfig(c) && steps != []
    ensures
      var n := |steps| - 1;
      TakesQueues(c, steps) <==> TakesQueues(c, steps[..n]) && TakesQueue(c, steps[n])
  {
  }

  /** While the counter lasts, the bookkeeping of a run means a queue at every point if and only if
  every snapshot it takes over does, and the queue is then the one the run's own insertions, hits and
  invalidations make. */
  lemma {:induction false} RunIsQueueIff(c: Config, steps: seq<TagStep>)
    requires ValidConfig(c) && AllMade(steps) && Lasting(c, steps)
    ensures AlwaysQueueable(c, steps) <==> TakesQueues(c, steps)
    ensures TakesQueues(c, steps) ==> Means(c, RunTags(c, steps), RunQueue(c, steps))
  {
    if steps == [] {
      StartMeant(c);
    } else {
      var n := |steps| - 1;
      RunIsQueueIff(c, steps[..n]);
      TakesQueuesLast(c, steps);
      if TakesQueues(c, steps[..n]) {
        StepMeant(c, RunTags(c, steps[..n]), RunQueue(c, steps[..n]), steps[n]);
      }
    }
  }

  lemma NoRoom(c: Config, q: Fifo, base: nat)
    requires c.ways > 0 && forall p :: p in PlacesOf(c, base) ==> p in q.order
    ensures (exists x :: x in q.order && x in PlacesOf(c, base)) && Room(c, q, base) == Evict(q, PlacesOf(c, base))
  {
    forall w | 0 <= w < c.ways
      ensures (c.setFor(base, w), w) in q.order
    {
      assert (c.setFor(base, w), w) in PlacesOf(c, base);
    }
    assert (c.setFor(base, 0), 0) in q.order && (c.setFor(base, 0), 0) in PlacesOf(c, base);
  }

  lemma NewGoesToRoom(c: Config, t: Tracked, q: Fifo, address: nat, size: nat, i: Inserted)
    requires ValidConfig(c) && Consistent(c, t) && Means(c, t, q) && t.tick + c.ways < U64_MAX
    requires i == InsertLine(c, t, address, size).1 && WayOf(c, t.tags, c.baseOf(address), 0) == c.ways
    ensures (i.set_, i.way) == Room(c, q, c.baseOf(address)).1
  {
    InsertsAt(c, t, address, size, c.ways, InsertLine(c, t, address, size).0, i);
    RoomMeant(c, t, q, c.baseOf(address));
  }

  /** So in such a run a new superblock with no free candidate replaces the candidate that was filled
  longest ago of those not used since, or of all when every one was used since. */
  lemma VictimWaitedLongest(c: Config, steps: seq<TagStep>, address: nat, size: nat, q: Fifo, i: Inserted)
    requires ValidConfig(c) && AllMade(steps) && Lasting(c, steps) && TakesQueues(c, steps)
    requires q == RunQueue(c, steps) && RunTags(c, steps).tick + c.ways < U64_MAX
    requires WayOf(c, RunTags(c, steps).tags, c.baseOf(address), 0) == c.ways
    requires forall p :: p in PlacesOf(c, c.baseOf(address)) ==> p in q.order
    requires i == InsertLine(c, RunTags(c, steps), address, size).1
    ensures exists x :: x in q.order && x in PlacesOf(c, c.baseOf(address))
    ensures LongestUnused(q, PlacesOf(c, c.baseOf(address)), (i.set_, i.way))
  {
    var base := c.baseOf(address);
    RunIsQueueIff(c, steps);
    NewGoesToRoom(c, RunTags(c, steps), q, address, size, i);
    NoRoom(c, q, base);
    EvictTakes(q, PlacesOf(c, base));
  }
}
