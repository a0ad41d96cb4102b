/** Skewed compressed tags under second-chance replacement: the tags together with the bookkeeping
that picks their victims, over whole runs. */
module SecondChanceTags {
  import opened Common
  import opened CompressedTags
  import opened SecondChance

  type Metas = seq<seq<Meta>>

  /** The tags, the bookkeeping of each entry, and the tick counter. */
  datatype Tracked = Tracked(tags: Tags, metas: Metas, tick: nat)

  const UNUSED := Meta(false, 0, false)

  predicate MetasFit(c: Config, metas: Metas) {
    |metas| == c.sets && forall s :: 0 <= s < |metas| ==> |metas[s]| == c.ways
  }

  predicate Fits(c: Config, t: Tracked) {
    Shaped(c, t.tags) && MetasFit(c, t.metas) && t.tick <= U64_MAX
  }

  function Start(c: Config): (t: Tracked) {
    Tracked(New(c), seq(c.sets, _ => seq(c.ways, _ => UNUSED)), 0)
  }

  // ----- the operations

  /** The bookkeeping of a superblock's candidates, one a way. */
  function Candidates(c: Config, metas: Metas, base: nat): (ms: seq<Meta>)
    requires ValidConfig(c) && MetasFit(c, metas)
    ensures |ms| == c.ways
  {
    seq(c.ways, w requires 0 <= w < c.ways => metas[c.setFor(base, w)][w])
  }

  /** The bookkeeping with the candidates' replaced. */
  function WithCandidates(c: Config, metas: Metas, base: nat, ms: seq<Meta>): (metas': Metas)
    requires ValidConfig(c) && MetasFit(c, metas) && |ms| == c.ways
    ensures MetasFit(c, metas')
  {
    seq(c.sets, s requires 0 <= s < c.sets =>
      seq(c.ways, w requires 0 <= w < c.ways => if c.setFor(base, w) == s then ms[w] else metas[s][w]))
  }

  /** The first candidate not in use, or the number of candidates. */
  function FirstUnused(ms: seq<Meta>): (w: nat)
    ensures w <= |ms|
    ensures w < |ms| ==> !ms[w].valid
    ensures forall k :: 0 <= k < w ==> ms[k].valid
  {
    if ms == [] then 0 else if !ms[0].valid then 0 else 1 + FirstUnused(ms[1..])
  }

  /** The way a new superblock takes over, and the bookkeeping the choice leaves. */
  function Choose(c: Config, t: Tracked, base: nat): (out: (Tracked, nat))
    requires ValidConfig(c) && Fits(c, t)
    ensures Fits(c, out.0) && out.0.tags == t.tags && out.1 < c.ways
  {
    var ms := Candidates(c, t.metas, base);
    var unused := FirstUnused(ms);
    if unused < c.ways then (t, unused)
    else
      SettleKeeps(ms, t.tick);
      var r := Settle(ms, t.tick);
      (t.(metas := WithCandidates(c, t.metas, base, r.ms), tick := r.tick), r.victim)
  }

  function PutMeta(metas: Metas, s: nat, w: nat, m: Meta): (metas': Metas)
    requires s < |metas| && w < |metas[s]|
  {
    metas[s := metas[s][w := m]]
  }

  /** The next tick touches an entry. */
  function Touched(t: Tracked, s: nat, w: nat): (t': Tracked)
    requires s < |t.metas| && w < |t.metas[s]|
  {
    t.(metas := PutMeta(t.metas, s, w, t.metas[s][w].(valid := true, marked := true)), tick := SaturatingNext(t.tick))
  }

  /** The next tick inserts an entry anew. */
  function Reset(t: Tracked, s: nat, w: nat): (t': Tracked)
    requires s < |t.metas| && w < |t.metas[s]|
  {
    t.(metas := PutMeta(t.metas, s, w, Meta(true, SaturatingNext(t.tick), false)), tick := SaturatingNext(t.tick))
  }

  /** `insert`: a line that joins its superblock touches the entry; a superblock that is taken over,
  its own or the victim's, is inserted anew. */
  function InsertLine(c: Config, t: Tracked, address: nat, size: nat): (out: (Tracked, Inserted))
    requires ValidConfig(c) && Fits(c, t)
    ensures Fits(c, out.0)
  {
    var base := c.baseOf(address);
    var way := WayOf(c, t.tags, base, 0);
    var (chosen, w) := if way < c.ways then (t, way) else Choose(c, t, base);
    var (tags', r) := Insert(c, t.tags, address, size, Some(w));
    var i := r.value;
    var t' := if i.coAllocated then Touched(chosen, i.set_, i.way) else Reset(chosen, i.set_, i.way);
    (t'.(tags := tags'), i)
  }

  /** `access`: a hit touches its entry. */
  function AccessLine(c: Config, t: Tracked, address: nat): (t': Tracked)
    requires ValidConfig(c) && Fits(c, t)
    ensures Fits(c, t')
  {
    match Find(c, t.tags, address)
    case None => t
    case Some(found) => Touched(t, found.set_, found.way)
  }

  /** `invalidate`: the last line of a superblock takes the entry out of use. */
  function InvalidateLine(c: Config, t: Tracked, address: nat): (t': Tracked)
    requires ValidConfig(c) && Fits(c, t)
    ensures Fits(c, t')
  {
    var tags' := Invalidate(c, t.tags, address).0;
    match Find(c, t.tags, address)
    case None => t
    case Some(found) =>
      if Count(tags'[found.set_][found.way].blocks) > 0 then t.(tags := tags')
      else t.(tags := tags', metas := PutMeta(t.metas, found.set_, found.way, UNUSED))
  }

  /** `restore`: takes over the snapshot, bookkeeping and counter included, when the validator accepts
  its tags. */
  ghost function RestoreFrom(c: Config, t: Tracked, snapshot: Tracked): (t': Tracked)
    requires ValidConfig(c)
  {
    if ValidTags(c, snapshot.tags) then snapshot else t
  }

  // ----- which entries are in use

  predicate UseAgrees(e: Entry, m: Meta) {
    m.valid <==> Count(e.blocks) > 0
  }

  predicate InUse(c: Config, t: Tracked)
    requires Fits(c, t)
  {
    forall s, w :: 0 <= s < c.sets && 0 <= w < c.ways ==> UseAgrees(t.tags[s][w], t.metas[s][w])
  }

  ghost predicate Consistent(c: Config, t: Tracked)
    requires ValidConfig(c)
  {
    Fits(c, t) && ValidTags(c, t.tags) && InUse(c, t)
  }

  lemma StartConsistent(c: Config)
    requires ValidConfig(c)
    ensures Consistent(c, Start(c))
  {
    NewValid(c);
    CountZero(NoBlocks(c.ratio));
  }

  /** Choosing moves ticks and marks, and no entry in or out of use. */
  lemma ChooseKeepsUse(c: Config, t: Tracked, base: nat)
    requires ValidConfig(c) && Fits(c, t) && InUse(c, t)
    ensures InUse(c, Choose(c, t, base).0)
  {
    var ms := Candidates(c, t.metas, base);
    SettleKeeps(ms, t.tick);
    var t' := Choose(c, t, base).0;
    forall s, w | 0 <= s < c.sets && 0 <= w < c.ways
      ensures UseAgrees(t'.tags[s][w], t'.metas[s][w])
    {
      assert UseAgrees(t.tags[s][w], t.metas[s][w]);
    }
  }

  /** One entry and its bookkeeping change together. */
  lemma PutKeepsUse(c: Config, t: Tracked, t': Tracked, s: nat, w: nat)
    requires Fits(c, t) && Fits(c, t') && InUse(c, t) && s < c.sets && w < c.ways
    requires forall s', w' :: 0 <= s' < c.sets && 0 <= w' < c.ways && (s' != s || w' != w) ==>
      t'.tags[s'][w'] == t.tags[s'][w'] && t'.metas[s'][w'] == t.metas[s'][w']
    requires UseAgrees(t'.tags[s][w], t'.metas[s][w])
    ensures InUse(c, t')
  {
    forall s', w' | 0 <= s' < c.sets && 0 <= w' < c.ways
      ensures UseAgrees(t'.tags[s'][w'], t'.metas[s'][w'])
    {
      if s' != s || w' != w {
        assert UseAgrees(t.tags[s'][w'], t.metas[s'][w']);
      }
    }
  }

  /** An insertion changes one entry, which then holds a line. */
  lemma InsertHolds(c: Config, tags: Tags, address: nat, size: nat, way: nat)
    requires ValidConfig(c) && ValidTags(c, tags) && way < c.ways
    ensures
      var (tags', r) := Insert(c, tags, address, size, Some(way));
      && r.Ok? && r.value.set_ < c.sets && r.value.way < c.ways && Shaped(c, tags')
      && tags' == Put(tags, r.value.set_, r.value.way, tags'[r.value.set_][r.value.way])
      && Count(tags'[r.value.set_][r.value.way].blocks) > 0
  {
    var (tags', r) := Insert(c, tags, address, size, Some(way));
    InsertPuts(c, tags, address, size, way);
    InsertValid(c, tags, address, size, Some(way));
    InsertFound(c, tags, address, size, way);
    CountZero(tags'[r.value.set_][r.value.way].blocks);
  }

  lemma InsertConsistent(c: Config, t: Tracked, address: nat, size: nat)
    requires ValidConfig(c) && Consistent(c, t)
    ensures Consistent(c, InsertLine(c, t, address, size).0)
  {
    var base := c.baseOf(address);
    var way := WayOf(c, t.tags, base, 0);
    var (chosen, w) := if way < c.ways then (t, way) else Choose(c, t, base);
    if way == c.ways {
      ChooseKeepsUse(c, t, base);
    }
    InsertValid(c, t.tags, address, size, Some(w));
    InsertHolds(c, t.tags, address, size, w);
    var (t', i) := InsertLine(c, t, address, size);
    PutKeepsUse(c, chosen, t', i.set_, i.way);
  }

  /** A line that is found is held by an entry in use. */
  lemma FoundInUse(c: Config, tags: Tags, address: nat)
    requires Shaped(c, tags) && Find(c, tags, address).Some?
    ensures
      var found := Find(c, tags, address).value;
      && found.set_ < c.sets && found.way < c.ways
      && Count(tags[found.set_][found.way].blocks) > 0
  {
    CountZero(tags[Find(c, tags, address).value.set_][Find(c, tags, address).value.way].blocks);
  }

  lemma AccessConsistent(c: Config, t: Tracked, address: nat)
    requires ValidConfig(c) && Consistent(c, t)
    ensures Consistent(c, AccessLine(c, t, address))
  {
    if Find(c, t.tags, address).Some? {
      FoundInUse(c, t.tags, address);
      var found := Find(c, t.tags, address).value;
      PutKeepsUse(c, t, AccessLine(c, t, address), found.set_, found.way);
    }
  }

  lemma InvalidateConsistent(c: Config, t: Tracked, address: nat)
    requires ValidConfig(c) && Consistent(c, t)
    ensures Consistent(c, InvalidateLine(c, t, address))
  {
    InvalidateValid(c, t.tags, address);
    if Find(c, t.tags, address).Some? {
      FoundInUse(c, t.tags, address);
      var found := Find(c, t.tags, address).value;
      assert UseAgrees(t.tags[found.set_][found.way], t.metas[found.set_][found.way]);
      PutKeepsUse(c, t, InvalidateLine(c, t, address), found.set_, found.way);
    }
  }

  // ----- ticks come from the counter

  predicate TicksBelow(metas: Metas, tick: nat) {
    forall s, w :: 0 <= s < |metas| && 0 <= w < |metas[s]| ==> metas[s][w].inserted <= tick
  }

  /** No entry's insertion tick is ahead of the counter. */
  predicate Ticked(t: Tracked) {
    TicksBelow(t.metas, t.tick)
  }

  lemma CandidatesTicked(c: Config, t: Tracked, base: nat)
    requires ValidConfig(c) && Fits(c, t) && Ticked(t)
    ensures
      var ms := Candidates(c, t.metas, base);
      forall w :: 0 <= w < |ms| ==> ms[w].inserted <= t.tick
  {
  }

  lemma ChooseTicked(c: Config, t: Tracked, base: nat)
    requires ValidConfig(c) && Fits(c, t) && Ticked(t)
    ensures Ticked(Choose(c, t, base).0)
  {
    CandidatesTicked(c, t, base);
    SettleKeeps(Candidates(c, t.metas, base), t.tick);
  }

  lemma InsertTicked(c: Config, t: Tracked, address: nat, size: nat)
    requires ValidConfig(c) && Fits(c, t) && Ticked(t)
    ensures Ticked(InsertLine(c, t, address, size).0)
  {
    ChooseTicked(c, t, c.baseOf(address));
  }

  // ----- whole runs

  datatype TagStep =
    | InsertsLine(address: nat, size: nat)
    | AccessesLine(address: nat)
    | InvalidatesLine(address: nat)
    | RestoresFrom(snapshot: Tracked)

  /** An entry's snapshot carries its bookkeeping, and is in use when it has a line: there is no other
  way to build one. */
  predicate Made(step: TagStep) {
    step.RestoresFrom? ==>
      var t := step.snapshot;
      && t.tick <= U64_MAX && |t.metas| == |t.tags|
      && (forall s :: 0 <= s < |t.tags| ==> |t.metas[s]| == |t.tags[s]|)
      && (forall s, w :: 0 <= s < |t.tags| && 0 <= w < |t.tags[s]| ==> UseAgrees(t.tags[s][w], t.metas[s][w]))
  }

  predicate AllMade(steps: seq<TagStep>) {
    forall i :: 0 <= i < |steps| ==> Made(steps[i])
  }

  ghost function Take(c: Config, t: Tracked, step: TagStep): (t': Tracked)
    requires ValidConfig(c) && Fits(c, t)
  {
    match step
    case InsertsLine(address, size) => InsertLine(c, t, address, size).0
    case AccessesLine(address) => AccessLine(c, t, address)
    case InvalidatesLine(address) => InvalidateLine(c, t, address)
    case RestoresFrom(snapshot) => RestoreFrom(c, t, snapshot)
  }

  lemma TakeConsistent(c: Config, t: Tracked, step: TagStep)
    requires ValidConfig(c) && Consistent(c, t) && Made(step)
    ensures Consistent(c, Take(c, t, step))
  {
    match step
    case InsertsLine(address, size) => InsertConsistent(c, t, address, size);
    case AccessesLine(address) => AccessConsistent(c, t, address);
    case InvalidatesLine(address) => InvalidateConsistent(c, t, address);
    case RestoresFrom(_) =>
  }

  /** In every run, restores of any snapshot included, the tags pass the validator and the bookkeeping
  knows which entries are in use. */
  ghost function RunTags(c: Config, steps: seq<TagStep>): (t: Tracked)
    requires ValidConfig(c) && AllMade(steps)
    ensures Consistent(c, t)
  {
    if steps == [] then
      StartConsistent(c);
      Start(c)
    else
      var n := |steps| - 1;
      var t := RunTags(c, steps[..n]);
      TakeConsistent(c, t, steps[n]);
      Take(c, t, steps[n])
  }

  /** A run's own snapshot is always taken over, and gives back tags, bookkeeping and counter. */
  lemma OwnTrackedRestores(c: Config, steps: seq<TagStep>, t: Tracked)
    requires ValidConfig(c) && AllMade(steps)
    ensures RestoreFrom(c, t, RunTags(c, steps)) == RunTags(c, steps)
  {
  }

  ghost predicate AlwaysTicked(c: Config, steps: seq<TagStep>)
    requires ValidConfig(c) && AllMade(steps)
  {
    Ticked(RunTags(c, steps)) && (steps != [] ==> AlwaysTicked(c, steps[..|steps| - 1]))
  }

  /** Every snapshot the run takes over has its ticks from its own counter. */
  ghost predicate Honest(c: Config, steps: seq<TagStep>)
    requires ValidConfig(c)
  {
    forall i :: 0 <= i < |steps| ==> HonestStep(c, steps[i])
  }

  ghost predicate HonestStep(c: Config, step: TagStep)
    requires ValidConfig(c)
  {
    step.RestoresFrom? && ValidTags(c, step.snapshot.tags) ==> Ticked(step.snapshot)
  }

  lemma HonestLast(c: Config, steps: seq<TagStep>)
    requires ValidConfig(c) && steps != []
    ensures
      var n := |steps| - 1;
      Honest(c, steps) <==> Honest(c, steps[..n]) && HonestStep(c, steps[n])
  {
  }

  lemma TakeTickedIff(c: Config, t: Tracked, step: TagStep)
    requires ValidConfig(c) && Fits(c, t) && Ticked(t)
    ensures Ticked(Take(c, t, step)) <==> HonestStep(c, step)
  {
    match step
    case InsertsLine(address, size) => InsertTicked(c, t, address, size);
    case AccessesLine(_) =>
    case InvalidatesLine(_) =>
    case RestoresFrom(_) =>
  }

  /** No entry's tick is ever ahead of the counter if and only if that holds of every snapshot the run
  takes over. The snapshots of such runs have it. */
  lemma {:induction false} TickedIffHonest(c: Config, steps: seq<TagStep>)
    requires ValidConfig(c) && AllMade(steps)
    ensures AlwaysTicked(c, steps) <==> Honest(c, steps)
  {
    if steps != [] {
      var n := |steps| - 1;
      TickedIffHonest(c, steps[..n]);
      var t := RunTags(c, steps[..n]);
      if Ticked(t) {
        TakeTickedIff(c, t, steps[n]);
      }
      HonestLast(c, steps);
    }
  }

  /** So in a run with honest snapshots, while the counter lasts, a new superblock whose candidates are
  all in use takes over the entry inserted first among those not touched since, or the first of all
  when every one was. */
  lemma VictimInRun(c: Config, steps: seq<TagStep>, address: nat, size: nat, t: Tracked)
    requires ValidConfig(c) && AllMade(steps) && Honest(c, steps) && t == RunTags(c, steps)
    requires WayOf(c, t.tags, c.baseOf(address), 0) == c.ways && t.tick + c.ways <= U64_MAX
    requires FirstUnused(Candidates(c, t.metas, c.baseOf(address))) == c.ways
    ensures FirstUntouched(Candidates(c, t.metas, c.baseOf(address)), InsertLine(c, t, address, size).1.way)
  {
    var base := c.baseOf(address);
    var ms := Candidates(c, t.metas, base);
    TickedIffHonest(c, steps);
    CandidatesTicked(c, t, base);
    MarkedAtMost(ms);
    VictimIsFirstUntouched(ms, t.tick);
    InsertPuts(c, t.tags, address, size, Choose(c, t, base).1);
  }
}
