/** Compressed superblock tags: co-allocation, replacement and invalidation of lines that share a
superblock, and the snapshot validator as their invariant. */
module CompressedTags {
  import opened Common

  // ----- geometry

  /** The tags' configuration. Addresses are cut into lines and superblocks by `lineOf`, `baseOf` and
  `offsetOf`; `setFor` is the candidate set of a superblock in a way. */
  datatype Config = Config(
    lineBytes: nat,
    ratio: nat,
    sets: nat,
    ways: nat,
    lineOf: nat -> nat,
    baseOf: nat -> nat,
    offsetOf: nat -> nat,
    setFor: (nat, nat) -> nat)

  /** The lines of a superblock are told apart by their offsets. */
  ghost predicate Geometry(c: Config) {
    && (forall a :: c.offsetOf(a) < c.ratio)
    && (forall a ::
          && c.lineOf(c.lineOf(a)) == c.lineOf(a)
          && c.baseOf(c.lineOf(a)) == c.baseOf(a) && c.offsetOf(c.lineOf(a)) == c.offsetOf(a))
    && (forall a :: c.baseOf(c.baseOf(a)) == c.baseOf(a))
    && (forall x, y :: c.baseOf(x) == c.baseOf(y) && c.offsetOf(x) == c.offsetOf(y) ==> c.lineOf(x) == c.lineOf(y))
  }

  ghost predicate ValidConfig(c: Config) {
    && Geometry(c) && c.lineBytes >= 4 && IsPow2(c.ratio) && c.ratio <= USIZE_MAX && c.ways > 0
    && forall base, way :: c.setFor(base, way) < c.sets
  }

  // ----- compression factors

  function LineBits(c: Config): (bits: nat) {
    c.lineBytes * 8
  }

  /** `block_bits`: the line's bits, as far as a machine word counts. */
  function BlockBits(c: Config): (bits: nat) {
    Min(LineBits(c), USIZE_MAX)
  }

  /** `next_power_of_two_capped` from `power` on. */
  function Grown(power: nat, value: nat, cap: nat): (r: nat)
    requires 0 < power && cap <= USIZE_MAX
    decreases cap - power
  {
    if power < value && power < cap then Grown(Min(Min(2 * power, USIZE_MAX), cap), value, cap)
    else Max(Min(power, cap), 1)
  }

  function CappedPower(value: nat, cap: nat): (r: nat)
    requires cap <= USIZE_MAX
  {
    if value == 0 then 1 else Grown(1, value, cap)
  }

  /** `compression_factor`. */
  function FactorFor(c: Config, size: nat): (factor: nat)
    requires c.ratio <= USIZE_MAX
  {
    if size == 0 then c.ratio
    else if size > LineBits(c) then 1
    else CappedPower(LineBits(c) / size, c.ratio)
  }

  lemma DoubleIsPower(p: nat)
    requires IsPow2(p)
    ensures IsPow2(2 * p)
  {
  }

  lemma {:induction false} PowersOrdered(p: nat, cap: nat)
    requires IsPow2(p) && IsPow2(cap) && p < cap
    ensures 2 * p <= cap
  {
    if p > 1 {
      PowersOrdered(p / 2, cap / 2);
    }
  }

  /** The least power of two that reaches `value`, but no more than the cap. */
  predicate LeastPower(r: nat, value: nat, cap: nat) {
    && IsPow2(r) && 1 <= r <= cap
    && (r >= value || r == cap)
    && (r > 1 ==> r < 2 * value)
  }

  lemma {:induction false} GrownIsLeast(power: nat, value: nat, cap: nat)
    requires IsPow2(power) && IsPow2(cap) && cap <= USIZE_MAX && power <= cap && value > 0
    requires power > 1 ==> power < 2 * value
    ensures LeastPower(Grown(power, value, cap), value, cap)
    decreases cap - power
  {
    if power < value && power < cap {
      PowersOrdered(power, cap);
      DoubleIsPower(power);
      GrownIsLeast(2 * power, value, cap);
    }
  }

  /** The loop of `next_power_of_two_capped`. */
  method NextPowerOfTwoCapped(value: nat, cap: nat) returns (r: nat)
    requires IsPow2(cap) && cap <= USIZE_MAX
    ensures r == CappedPower(value, cap)
    ensures if value == 0 then r == 1 else LeastPower(r, value, cap)
  {
    if value == 0 {
      return 1;
    }
    GrownIsLeast(1, value, cap);
    var power := 1;
    while power < value && power < cap
      invariant 0 < power && IsPow2(power) && power <= cap
      invariant Grown(power, value, cap) == Grown(1, value, cap)
      decreases cap - power
    {
      PowersOrdered(power, cap);
      DoubleIsPower(power);
      power := Min(Min(2 * power, USIZE_MAX), cap);
    }
    r := Max(Min(power, cap), 1);
  }

  /** What a compression factor is: the whole ratio for an empty line, one for a line that does not
  compress, and otherwise the least power of two that reaches the line's ratio, up to the cap. */
  lemma FactorIsPower(c: Config, size: nat)
    requires IsPow2(c.ratio) && c.ratio <= USIZE_MAX
    ensures IsPow2(FactorFor(c, size)) && 1 <= FactorFor(c, size) <= c.ratio
    ensures size == 0 ==> FactorFor(c, size) == c.ratio
    ensures size > LineBits(c) ==> FactorFor(c, size) == 1
    ensures 0 < size <= LineBits(c) ==> LeastPower(FactorFor(c, size), LineBits(c) / size, c.ratio)
  {
    if 0 < size <= LineBits(c) {
      assert LineBits(c) / size >= 1;
      GrownIsLeast(1, LineBits(c) / size, c.ratio);
    }
  }

  // ----- tags

  datatype Line = Line(line: nat, size: nat, compressed: bool)

  datatype Entry = Entry(base: Option<nat>, blocks: seq<Option<Line>>, factor: nat)

  /** Entries by set and way. */
  type Tags = seq<seq<Entry>>

  function NoBlocks(ratio: nat): (blocks: seq<Option<Line>>) {
    seq(ratio, _ => None)
  }

  function EmptyEntry(c: Config): (e: Entry) {
    Entry(None, NoBlocks(c.ratio), 1)
  }

  function New(c: Config): (tags: Tags) {
    seq(c.sets, _ => seq(c.ways, _ => EmptyEntry(c)))
  }

  function Count(blocks: seq<Option<Line>>): (n: nat) {
    if blocks == [] then 0 else (if blocks[0].Some? then 1 else 0) + Count(blocks[1..])
  }

  /** The flag of the first block present; an empty entry counts as compressed. */
  predicate IsCompressed(blocks: seq<Option<Line>>) {
    if blocks == [] then true
    else if blocks[0].Some? then blocks[0].value.compressed
    else IsCompressed(blocks[1..])
  }

  predicate CanCoallocate(c: Config, e: Entry, size: nat) {
    IsCompressed(e.blocks) && Count(e.blocks) < e.factor && size <= BlockBits(c) / Max(e.factor, 1)
  }

  /** The lines present, in block order. */
  function ValidLines(blocks: seq<Option<Line>>): (lines: seq<nat>) {
    if blocks == [] then []
    else (if blocks[0].Some? then [blocks[0].value.line] else []) + ValidLines(blocks[1..])
  }

  // ----- what the snapshot validator asks for

  predicate Shaped(c: Config, tags: Tags) {
    && |tags| == c.sets
    && (forall s :: 0 <= s < |tags| ==> |tags[s]| == c.ways)
  }

  /** The block is larger than its share of the line. */
  predicate Oversized(c: Config, factor: nat, line: Line)
    requires factor > 0
  {
    factor != 1 && line.size > BlockBits(c) / factor
  }

  predicate BlockOk(c: Config, e: Entry, offset: nat)
    requires c.ratio <= USIZE_MAX && e.factor > 0 && offset < |e.blocks|
  {
    e.blocks[offset].Some? ==>
      var line := e.blocks[offset].value;
      && e.base == Some(c.baseOf(line.line))
      && c.lineOf(line.line) == line.line && c.offsetOf(line.line) == offset
      && line.compressed == (e.factor != 1)
      && (Oversized(c, e.factor, line) ==> FactorFor(c, line.size) == e.factor)
  }

  predicate OversizedAt(c: Config, e: Entry, o: nat)
    requires e.factor > 0 && o < |e.blocks|
  {
    e.blocks[o].Some? && Oversized(c, e.factor, e.blocks[o].value)
  }

  predicate OneOversized(c: Config, e: Entry)
    requires e.factor > 0
  {
    forall i, j :: 0 <= i < j < |e.blocks| ==> !OversizedAt(c, e, i) || !OversizedAt(c, e, j)
  }

  predicate EntryOk(c: Config, set_: nat, way: nat, e: Entry)
    requires c.ratio <= USIZE_MAX
  {
    && |e.blocks| == c.ratio
    && IsPow2(e.factor) && 1 <= e.factor <= c.ratio
    && (Count(e.blocks) == 0 ==> e.base.None? && e.factor == 1)
    && Count(e.blocks) <= e.factor
    && (e.base.Some? ==> c.baseOf(e.base.value) == e.base.value && c.setFor(e.base.value, way) == set_)
    && (forall offset :: 0 <= offset < |e.blocks| ==> BlockOk(c, e, offset))
    && OneOversized(c, e)
  }

  predicate EntriesOk(c: Config, tags: Tags)
    requires c.ratio <= USIZE_MAX
  {
    forall s, w :: 0 <= s < |tags| && 0 <= w < |tags[s]| ==> EntryOk(c, s, w, tags[s][w])
  }

  /** The superblock is held by that entry. */
  predicate At(tags: Tags, s: nat, w: nat, base: nat) {
    s < |tags| && w < |tags[s]| && tags[s][w].base == Some(base)
  }

  /** No superblock is held twice. */
  ghost predicate Unique(tags: Tags) {
    forall s, w, s', w', base :: At(tags, s, w, base) && At(tags, s', w', base) ==> s == s' && w == w'
  }

  ghost predicate ValidTags(c: Config, tags: Tags)
    requires c.ratio <= USIZE_MAX
  {
    Shaped(c, tags) && EntriesOk(c, tags) && Unique(tags)
  }

  // ----- operations

  /** The first way from `way` on that holds the superblock, or the number of ways. */
  function WayOf(c: Config, tags: Tags, base: nat, way: nat): (w: nat)
    requires way <= c.ways
    ensures way <= w <= c.ways
    ensures w < c.ways ==> At(tags, c.setFor(base, w), w, base)
    ensures forall k :: way <= k < w ==> !At(tags, c.setFor(base, k), k, base)
    decreases c.ways - way
  {
    if way == c.ways || At(tags, c.setFor(base, way), way, base) then way else WayOf(c, tags, base, way + 1)
  }

  datatype Lookup = Lookup(set_: nat, way: nat, offset: nat, block: Line, factor: nat)

  function Find(c: Config, tags: Tags, address: nat): (r: Option<Lookup>)
    requires Shaped(c, tags)
  {
    var base, line, offset := c.baseOf(address), c.lineOf(address), c.offsetOf(address);
    var way := WayOf(c, tags, base, 0);
    if way == c.ways then None
    else
      var set_ := c.setFor(base, way);
      var e := tags[set_][way];
      if offset < |e.blocks| && e.blocks[offset].Some? && e.blocks[offset].value.line == line
      then Some(Lookup(set_, way, offset, e.blocks[offset].value, e.factor))
      else None
  }

  function Put(tags: Tags, s: nat, w: nat, e: Entry): (tags': Tags)
    requires s < |tags| && w < |tags[s]|
  {
    tags[s := tags[s][w := e]]
  }

  datatype Inserted = Inserted(
    line: nat, base: nat, set_: nat, way: nat, offset: nat,
    factor: nat, compressed: bool, coAllocated: bool, evicted: seq<nat>)

  datatype TagError = PolicyFailed

  /** The entry that `replace_superblock` leaves: the new line alone. */
  function Fresh(c: Config, address: nat, size: nat): (e: Entry)
    requires c.ratio <= USIZE_MAX && c.offsetOf(address) < c.ratio
  {
    var factor := FactorFor(c, size);
    Entry(Some(c.baseOf(address)),
          NoBlocks(c.ratio)[c.offsetOf(address) := Some(Line(c.lineOf(address), size, factor != 1))], factor)
  }

  function Replace(c: Config, tags: Tags, way: nat, address: nat, size: nat): (out: (Tags, Inserted))
    requires c.ratio <= USIZE_MAX && c.offsetOf(address) < c.ratio
    requires c.setFor(c.baseOf(address), way) < |tags| && way < |tags[c.setFor(c.baseOf(address), way)]|
  {
    var base := c.baseOf(address);
    var set_ := c.setFor(base, way);
    var e := Fresh(c, address, size);
    (Put(tags, set_, way, e),
     Inserted(c.lineOf(address), base, set_, way, c.offsetOf(address), e.factor, e.factor != 1, false,
              ValidLines(tags[set_][way].blocks)))
  }

  /** `insert`: joins the superblock's other lines when there is room, else takes its entry over, or
  the one in the way that the replacement policy picked. The policy may fail. */
  function Insert(c: Config, tags: Tags, address: nat, size: nat, victim: Option<nat>)
    : (out: (Tags, Result<Inserted, TagError>))
    requires ValidConfig(c) && Shaped(c, tags) && (victim.Some? ==> victim.value < c.ways)
  {
    var base, line, offset := c.baseOf(address), c.lineOf(address), c.offsetOf(address);
    var way := WayOf(c, tags, base, 0);
    if victim.None? then (tags, Err(PolicyFailed))
    else if way < c.ways then
      var set_ := c.setFor(base, way);
      var e := tags[set_][way];
      if offset < |e.blocks| && e.blocks[offset].None? && CanCoallocate(c, e, size) then
        var block := Line(line, size, IsCompressed(e.blocks));
        (Put(tags, set_, way, e.(blocks := e.blocks[offset := Some(block)])),
         Ok(Inserted(line, base, set_, way, offset, e.factor, true, true, [])))
      else
        var (tags', inserted) := Replace(c, tags, way, address, size);
        (tags', Ok(inserted))
    else
      var (tags', inserted) := Replace(c, tags, victim.value, address, size);
      (tags', Ok(inserted))
  }

  /** `invalidate`: drops the line, and the superblock with its last line. */
  function Invalidate(c: Config, tags: Tags, address: nat): (out: (Tags, Option<Lookup>))
    requires Shaped(c, tags)
  {
    match Find(c, tags, address)
    case None => (tags, None)
    case Some(found) =>
      var e := tags[found.set_][found.way];
      var blocks := e.blocks[found.offset := None];
      var e' := if Count(blocks) > 0 then e.(blocks := blocks) else Entry(None, blocks, 1);
      (Put(tags, found.set_, found.way, e'), Some(found.(factor := e'.factor)))
  }

  // ----- counting blocks

  function One(b: Option<Line>): (n: nat) {
    if b.Some? then 1 else 0
  }

  lemma {:induction false} CountUpdate(blocks: seq<Option<Line>>, o: nat, b: Option<Line>)
    requires o < |blocks|
    ensures Count(blocks[o := b]) == Count(blocks) - One(blocks[o]) + One(b)
  {
    if o == 0 {
      assert blocks[o := b][1..] == blocks[1..];
    } else {
      CountUpdate(blocks[1..], o - 1, b);
      assert blocks[o := b][1..] == blocks[1..][o - 1 := b];
    }
  }

  lemma {:induction false} CountZero(blocks: seq<Option<Line>>)
    ensures Count(blocks) == 0 <==> forall o :: 0 <= o < |blocks| ==> blocks[o].None?
  {
    if blocks != [] {
      CountZero(blocks[1..]);
      assert forall o :: 0 < o < |blocks| ==> blocks[o] == blocks[1..][o - 1];
    }
  }

  /** Flags that agree are what the entry reports. */
  lemma {:induction false} FlagsAgree(blocks: seq<Option<Line>>, flag: bool)
    requires forall o :: 0 <= o < |blocks| && blocks[o].Some? ==> blocks[o].value.compressed == flag
    requires Count(blocks) > 0
    ensures IsCompressed(blocks) == flag
  {
    if blocks[0].None? {
      assert forall o :: 0 <= o < |blocks| - 1 ==> blocks[1..][o] == blocks[o + 1];
      FlagsAgree(blocks[1..], flag);
    }
  }

  // ----- the entries that operations leave

  lemma FreshOk(c: Config, way: nat, address: nat, size: nat)
    requires ValidConfig(c)
    ensures EntryOk(c, c.setFor(c.baseOf(address), way), way, Fresh(c, address, size))
    ensures Count(Fresh(c, address, size).blocks) == 1
  {
    var e, offset := Fresh(c, address, size), c.offsetOf(address);
    FactorIsPower(c, size);
    CountZero(NoBlocks(c.ratio));
    CountUpdate(NoBlocks(c.ratio), offset, e.blocks[offset]);
    assert forall k :: 0 <= k < |e.blocks| && e.blocks[k].Some? ==> k == offset;
  }

  lemma FewerOversized(c: Config, e: Entry, e': Entry)
    requires e.factor > 0 && e'.factor == e.factor && |e'.blocks| == |e.blocks| && OneOversized(c, e)
    requires forall o :: 0 <= o < |e.blocks| && OversizedAt(c, e', o) ==> OversizedAt(c, e, o)
    ensures OneOversized(c, e')
  {
  }

  lemma JoinedOk(c: Config, s: nat, w: nat, e: Entry, address: nat, size: nat)
    requires ValidConfig(c) && EntryOk(c, s, w, e) && e.base == Some(c.baseOf(address))
    requires e.blocks[c.offsetOf(address)].None? && CanCoallocate(c, e, size)
    ensures
      var block := Line(c.lineOf(address), size, IsCompressed(e.blocks));
      EntryOk(c, s, w, e.(blocks := e.blocks[c.offsetOf(address) := Some(block)]))
  {
    var offset := c.offsetOf(address);
    var block := Line(c.lineOf(address), size, IsCompressed(e.blocks));
    var e' := e.(blocks := e.blocks[offset := Some(block)]);
    CountUpdate(e.blocks, offset, Some(block));
    forall o | 0 <= o < |e.blocks| && e.blocks[o].Some?
      ensures e.blocks[o].value.compressed == (e.factor != 1)
    {
      assert BlockOk(c, e, o);
    }
    FlagsAgree(e.blocks, e.factor != 1);
    forall o | 0 <= o < |e'.blocks|
      ensures BlockOk(c, e', o)
      ensures OversizedAt(c, e', o) ==> OversizedAt(c, e, o)
    {
      assert BlockOk(c, e, o);
    }
    FewerOversized(c, e, e');
  }

  lemma DroppedOk(c: Config, s: nat, w: nat, e: Entry, offset: nat)
    requires ValidConfig(c) && EntryOk(c, s, w, e) && offset < |e.blocks| && e.blocks[offset].Some?
    ensures
      var blocks := e.blocks[offset := None];
      EntryOk(c, s, w, if Count(blocks) > 0 then e.(blocks := blocks) else Entry(None, blocks, 1))
  {
    var blocks := e.blocks[offset := None];
    CountUpdate(e.blocks, offset, None);
    CountZero(blocks);
    if Count(blocks) > 0 {
      var e' := e.(blocks := blocks);
      forall o | 0 <= o < |blocks|
        ensures BlockOk(c, e', o)
        ensures OversizedAt(c, e', o) ==> OversizedAt(c, e, o)
      {
        assert BlockOk(c, e, o);
      }
      FewerOversized(c, e, e');
    }
  }

  // ----- the tags stay valid

  lemma PutValid(c: Config, tags: Tags, s: nat, w: nat, e: Entry)
    requires c.ratio <= USIZE_MAX && ValidTags(c, tags) && s < c.sets && w < c.ways && EntryOk(c, s, w, e)
    requires e.base.Some? ==> forall s', w' :: At(tags, s', w', e.base.value) ==> s' == s && w' == w
    ensures ValidTags(c, Put(tags, s, w, e))
  {
    var tags' := Put(tags, s, w, e);
    forall s1, w1 | 0 <= s1 < |tags'| && 0 <= w1 < |tags'[s1]|
      ensures EntryOk(c, s1, w1, tags'[s1][w1])
    {
      if s1 != s || w1 != w {
        assert tags'[s1][w1] == tags[s1][w1];
      }
    }
    forall s1, w1, s2, w2, base | At(tags', s1, w1, base) && At(tags', s2, w2, base)
      ensures s1 == s2 && w1 == w2
    {
      assert (s1 == s && w1 == w) || At(tags, s1, w1, base);
      assert (s2 == s && w2 == w) || At(tags, s2, w2, base);
    }
  }

  /** A superblock is held exactly where the candidate search finds it. */
  lemma WayOfFinds(c: Config, tags: Tags, base: nat)
    requires ValidConfig(c) && ValidTags(c, tags)
    ensures
      var w := WayOf(c, tags, base, 0);
      forall s', w' :: At(tags, s', w', base) ==> w < c.ways && s' == c.setFor(base, w) && w' == w
  {
    forall s': nat, w': nat | At(tags, s', w', base)
      ensures
        var w := WayOf(c, tags, base, 0);
        w < c.ways && s' == c.setFor(base, w) && w' == w
    {
      assert EntryOk(c, s', w', tags[s'][w']);
      assert At(tags, c.setFor(base, w'), w', base);
    }
  }

  lemma NewValid(c: Config)
    requires ValidConfig(c)
    ensures ValidTags(c, New(c))
  {
    CountZero(NoBlocks(c.ratio));
  }

  lemma InsertValid(c: Config, tags: Tags, address: nat, size: nat, victim: Option<nat>)
    requires ValidConfig(c) && ValidTags(c, tags) && (victim.Some? ==> victim.value < c.ways)
    ensures ValidTags(c, Insert(c, tags, address, size, victim).0)
  {
    if victim.Some? {
      var base, offset := c.baseOf(address), c.offsetOf(address);
      var found := WayOf(c, tags, base, 0);
      var way := if found < c.ways then found else victim.value;
      var set_ := c.setFor(base, way);
      var e := tags[set_][way];
      WayOfFinds(c, tags, base);
      assert EntryOk(c, set_, way, e);
      if found < c.ways && e.blocks[offset].None? && CanCoallocate(c, e, size) {
        JoinedOk(c, set_, way, e, address, size);
        var block := Line(c.lineOf(address), size, IsCompressed(e.blocks));
        PutValid(c, tags, set_, way, e.(blocks := e.blocks[offset := Some(block)]));
      } else {
        FreshOk(c, way, address, size);
        PutValid(c, tags, set_, way, Fresh(c, address, size));
      }
    }
  }

  lemma InvalidateValid(c: Config, tags: Tags, address: nat)
    requires ValidConfig(c) && ValidTags(c, tags)
    ensures ValidTags(c, Invalidate(c, tags, address).0)
  {
    var r := Find(c, tags, address);
    if r.Some? {
      var s, w, o := r.value.set_, r.value.way, r.value.offset;
      var e := tags[s][w];
      assert EntryOk(c, s, w, e);
      WayOfFinds(c, tags, c.baseOf(address));
      DroppedOk(c, s, w, e, o);
      var blocks := e.blocks[o := None];
      PutValid(c, tags, s, w, if Count(blocks) > 0 then e.(blocks := blocks) else Entry(None, blocks, 1));
    }
  }

  // ----- every run

  /** Accesses change no tag; a snapshot offered for restoring may be anything. */
  datatype Step =
    | Inserts(address: nat, size: nat, victim: Option<nat>)
    | Accesses(address: nat)
    | Invalidates(address: nat)
    | Restores(snapshot: Tags)

  predicate StepOk(c: Config, step: Step) {
    step.Inserts? && step.victim.Some? ==> step.victim.value < c.ways
  }

  predicate StepsOk(c: Config, steps: seq<Step>) {
    forall i :: 0 <= i < |steps| ==> StepOk(c, steps[i])
  }

  /** `restore`: takes the snapshot over when the validator accepts it. */
  ghost function Restore(c: Config, tags: Tags, snapshot: Tags): (tags': Tags)
    requires c.ratio <= USIZE_MAX
  {
    if ValidTags(c, snapshot) then snapshot else tags
  }

  ghost function Run(c: Config, steps: seq<Step>): (tags: Tags)
    requires ValidConfig(c) && StepsOk(c, steps)
    ensures Shaped(c, tags)
  {
    if steps == [] then New(c)
    else
      var tags, step := Run(c, steps[..|steps| - 1]), steps[|steps| - 1];
      match step
      case Inserts(address, size, victim) => Insert(c, tags, address, size, victim).0
      case Accesses(_) => tags
      case Invalidates(address) => Invalidate(c, tags, address).0
      case Restores(snapshot) => Restore(c, tags, snapshot)
  }

  /** Every reachable state passes the snapshot validator. */
  lemma {:induction false} RunValid(c: Config, steps: seq<Step>)
    requires ValidConfig(c) && StepsOk(c, steps)
    ensures ValidTags(c, Run(c, steps))
  {
    if steps == [] {
      NewValid(c);
    } else {
      var n := |steps| - 1;
      RunValid(c, steps[..n]);
      var tags, step := Run(c, steps[..n]), steps[n];
      match step
      case Inserts(address, size, victim) => InsertValid(c, tags, address, size, victim);
      case Accesses(_) =>
      case Invalidates(address) => InvalidateValid(c, tags, address);
      case Restores(_) =>
    }
  }

  /** So restoring a state's own snapshot, taken at any time, is always accepted and gives the state
  back. */
  lemma OwnSnapshotRestores(c: Config, steps: seq<Step>, tags: Tags)
    requires ValidConfig(c) && StepsOk(c, steps)
    ensures Restore(c, tags, Run(c, steps)) == Run(c, steps)
  {
    RunValid(c, steps);
  }

  // ----- resident lines

  predicate Holds(e: Entry, line: nat) {
    exists o :: 0 <= o < |e.blocks| && e.blocks[o].Some? && e.blocks[o].value.line == line
  }

  predicate HeldAt(tags: Tags, s: nat, w: nat, line: nat) {
    s < |tags| && w < |tags[s]| && Holds(tags[s][w], line)
  }

  ghost predicate Resident(tags: Tags, line: nat) {
    exists s, w :: HeldAt(tags, s, w, line)
  }

  /** A resident line sits at its own offset of its own superblock. */
  lemma HeldWhere(c: Config, tags: Tags, s: nat, w: nat, line: nat)
    requires ValidConfig(c) && ValidTags(c, tags) && HeldAt(tags, s, w, line)
    ensures At(tags, s, w, c.baseOf(line)) && c.lineOf(line) == line
    ensures
      var block := tags[s][w].blocks[c.offsetOf(line)];
      block.Some? && block.value.line == line
  {
    var e := tags[s][w];
    assert EntryOk(c, s, w, e);
    var o :| 0 <= o < |e.blocks| && e.blocks[o].Some? && e.blocks[o].value.line == line;
    assert BlockOk(c, e, o);
  }

  /** Looking an address up finds its line exactly when the line is resident. */
  lemma FindIffResident(c: Config, tags: Tags, address: nat)
    requires ValidConfig(c) && ValidTags(c, tags)
    ensures Find(c, tags, address).Some? <==> Resident(tags, c.lineOf(address))
    ensures Find(c, tags, address).Some? ==>
      var f := Find(c, tags, address).value;
      HeldAt(tags, f.set_, f.way, c.lineOf(address)) && f.block == tags[f.set_][f.way].blocks[f.offset].value
  {
    var line := c.lineOf(address);
    var r := Find(c, tags, address);
    if r.Some? {
      assert tags[r.value.set_][r.value.way].blocks[r.value.offset].value.line == line;
      assert HeldAt(tags, r.value.set_, r.value.way, line);
    }
    if Resident(tags, line) {
      var s: nat, w: nat :| HeldAt(tags, s, w, line);
      HeldWhere(c, tags, s, w, line);
      WayOfFinds(c, tags, c.baseOf(address));
    }
  }

  lemma {:induction false} ValidLinesAre(blocks: seq<Option<Line>>, line: nat)
    ensures line in ValidLines(blocks) <==>
      exists o :: 0 <= o < |blocks| && blocks[o].Some? && blocks[o].value.line == line
  {
    if blocks != [] {
      ValidLinesAre(blocks[1..], line);
      if line in ValidLines(blocks[1..]) {
        var o :| 0 <= o < |blocks| - 1 && blocks[1..][o].Some? && blocks[1..][o].value.line == line;
        assert blocks[o + 1] == blocks[1..][o];
      }
      if exists o :: 0 < o < |blocks| && blocks[o].Some? && blocks[o].value.line == line {
        var o :| 0 < o < |blocks| && blocks[o].Some? && blocks[o].value.line == line;
        assert blocks[1..][o - 1] == blocks[o];
      }
    }
  }

  /** A line is held in one entry only, so replacing that entry moves only its own lines. */
  lemma PutResident(c: Config, tags: Tags, s: nat, w: nat, e: Entry, line: nat)
    requires ValidConfig(c) && ValidTags(c, tags) && s < c.sets && w < c.ways
    ensures Resident(Put(tags, s, w, e), line) <==> Holds(e, line) || (Resident(tags, line) && !Holds(tags[s][w], line))
  {
    var tags' := Put(tags, s, w, e);
    if Resident(tags', line) {
      var s1: nat, w1: nat :| HeldAt(tags', s1, w1, line);
      if s1 != s || w1 != w {
        assert HeldAt(tags, s1, w1, line);
        HeldWhere(c, tags, s1, w1, line);
        if Holds(tags[s][w], line) {
          HeldWhere(c, tags, s, w, line);
        }
      }
    }
    if Holds(e, line) {
      assert HeldAt(tags', s, w, line);
    }
    if Resident(tags, line) && !Holds(tags[s][w], line) {
      var s1: nat, w1: nat :| HeldAt(tags, s1, w1, line);
      assert HeldAt(tags', s1, w1, line);
    }
  }

  lemma FreshHolds(c: Config, address: nat, size: nat, line: nat)
    requires ValidConfig(c)
    ensures Holds(Fresh(c, address, size), line) <==> line == c.lineOf(address)
  {
    var e, o := Fresh(c, address, size), c.offsetOf(address);
    assert e.blocks[o].value.line == c.lineOf(address);
  }

  lemma JoinedHolds(blocks: seq<Option<Line>>, o: nat, block: Line, e: Entry, line: nat)
    requires o < |blocks| && blocks[o].None? && e.blocks == blocks
    ensures Holds(e.(blocks := blocks[o := Some(block)]), line) <==> line == block.line || Holds(e, line)
  {
    var blocks' := blocks[o := Some(block)];
    assert blocks'[o].value.line == block.line;
    if Holds(e, line) {
      var k :| 0 <= k < |blocks| && blocks[k].Some? && blocks[k].value.line == line;
      assert blocks'[k] == blocks[k];
    }
  }

  /** Insertion leaves exactly the lines that were resident, less the evicted ones it reports, and
  the inserted line. */
  lemma InsertResident(c: Config, tags: Tags, address: nat, size: nat, victim: Option<nat>, line: nat)
    requires ValidConfig(c) && ValidTags(c, tags) && (victim.Some? ==> victim.value < c.ways)
    ensures
      var (tags', r) := Insert(c, tags, address, size, victim);
      && (r.Err? ==> tags' == tags)
      && (r.Ok? ==>
            (Resident(tags', line) <==>
               line == c.lineOf(address) || (Resident(tags, line) && line !in r.value.evicted)))
  {
    if victim.Some? {
      var base, offset := c.baseOf(address), c.offsetOf(address);
      var found := WayOf(c, tags, base, 0);
      var way := if found < c.ways then found else victim.value;
      var set_ := c.setFor(base, way);
      var e := tags[set_][way];
      assert EntryOk(c, set_, way, e);
      if found < c.ways && e.blocks[offset].None? && CanCoallocate(c, e, size) {
        var block := Line(c.lineOf(address), size, IsCompressed(e.blocks));
        JoinedHolds(e.blocks, offset, block, e, line);
        PutResident(c, tags, set_, way, e.(blocks := e.blocks[offset := Some(block)]), line);
        assert Holds(e, line) ==> HeldAt(tags, set_, way, line);
      } else {
        FreshHolds(c, address, size, line);
        ValidLinesAre(e.blocks, line);
        PutResident(c, tags, set_, way, Fresh(c, address, size), line);
      }
    }
  }

  /** When an insertion joins a superblock instead of replacing one: its superblock is held, with a
  factor above one, the line's place is free, a share is left, and the line fits a share. It then
  evicts nothing and keeps the factor. */
  lemma CoallocatesIff(c: Config, tags: Tags, address: nat, size: nat, victim: Option<nat>)
    requires ValidConfig(c) && ValidTags(c, tags) && victim.Some? && victim.value < c.ways
    ensures
      var r := Insert(c, tags, address, size, victim).1;
      && r.Ok?
      && (r.value.coAllocated <==> exists s, w :: RoomFor(c, tags, s, w, address, size))
      && (r.value.coAllocated ==> r.value.evicted == [] && RoomFor(c, tags, r.value.set_, r.value.way, address, size)
                                  && r.value.factor == tags[r.value.set_][r.value.way].factor)
  {
    var base := c.baseOf(address);
    var way := WayOf(c, tags, base, 0);
    WayOfFinds(c, tags, base);
    if way < c.ways {
      RoomMeans(c, tags, c.setFor(base, way), way, address, size);
    }
  }

  predicate RoomFor(c: Config, tags: Tags, s: nat, w: nat, address: nat, size: nat) {
    && At(tags, s, w, c.baseOf(address))
    && var e := tags[s][w];
    && c.offsetOf(address) < |e.blocks| && e.blocks[c.offsetOf(address)].None?
    && e.factor != 1 && Count(e.blocks) < e.factor && size * e.factor <= BlockBits(c)
  }

  lemma RoomMeans(c: Config, tags: Tags, s: nat, w: nat, address: nat, size: nat)
    requires ValidConfig(c) && ValidTags(c, tags) && At(tags, s, w, c.baseOf(address))
    ensures
      var e := tags[s][w];
      RoomFor(c, tags, s, w, address, size)
      <==> c.offsetOf(address) < |e.blocks| && e.blocks[c.offsetOf(address)].None? && CanCoallocate(c, e, size)
  {
    var e := tags[s][w];
    assert EntryOk(c, s, w, e);
    forall o | 0 <= o < |e.blocks| && e.blocks[o].Some?
      ensures e.blocks[o].value.compressed == (e.factor != 1)
    {
      assert BlockOk(c, e, o);
    }
    FlagsAgree(e.blocks, e.factor != 1);
    ShareFits(size, BlockBits(c), e.factor);
  }

  lemma ShareFits(size: nat, bits: nat, f: nat)
    requires f > 0
    ensures size * f <= bits <==> size <= bits / f
  {
    if size <= bits / f {
      QuotientBelow(size, bits, f);
    } else {
      MulAtMost(bits / f + 1, size, f);
      assert (bits / f + 1) * f == bits / f * f + f;
    }
  }

  /** Invalidation removes exactly its line. */
  lemma InvalidateResident(c: Config, tags: Tags, address: nat, line: nat)
    requires ValidConfig(c) && ValidTags(c, tags)
    ensures Resident(Invalidate(c, tags, address).0, line) <==> Resident(tags, line) && line != c.lineOf(address)
  {
    FindIffResident(c, tags, address);
    var r := Find(c, tags, address);
    if r.Some? {
      var s, w, o := r.value.set_, r.value.way, r.value.offset;
      var e := tags[s][w];
      var blocks := e.blocks[o := None];
      var e' := if Count(blocks) > 0 then e.(blocks := blocks) else Entry(None, blocks, 1);
      DroppedHolds(c, tags, s, w, o, e', line);
      PutResident(c, tags, s, w, e', line);
      assert Holds(e, line) ==> HeldAt(tags, s, w, line);
    }
  }

  lemma DroppedHolds(c: Config, tags: Tags, s: nat, w: nat, o: nat, e': Entry, line: nat)
    requires ValidConfig(c) && ValidTags(c, tags) && s < c.sets && w < c.ways && o < |tags[s][w].blocks|
    requires tags[s][w].blocks[o].Some? && e'.blocks == tags[s][w].blocks[o := None]
    ensures Holds(e', line) <==> Holds(tags[s][w], line) && line != tags[s][w].blocks[o].value.line
  {
    var e := tags[s][w];
    assert EntryOk(c, s, w, e);
    assert BlockOk(c, e, o);
    if Holds(e', line) {
      var k :| 0 <= k < |e'.blocks| && e'.blocks[k].Some? && e'.blocks[k].value.line == line;
      assert BlockOk(c, e, k) && e.blocks[k] == e'.blocks[k];
    }
    if Holds(e, line) && line != e.blocks[o].value.line {
      var k :| 0 <= k < |e.blocks| && e.blocks[k].Some? && e.blocks[k].value.line == line;
      assert e'.blocks[k] == e.blocks[k];
    }
  }

  // ----- what a lookup returns after an operation

  /** A lookup reads the line's place in the entry that holds its superblock. */
  lemma FindIs(c: Config, tags: Tags, address: nat, s: nat, w: nat)
    requires ValidConfig(c) && ValidTags(c, tags) && At(tags, s, w, c.baseOf(address))
    ensures
      var e, o := tags[s][w], c.offsetOf(address);
      && |e.blocks| == c.ratio && EntryOk(c, s, w, e)
      && Find(c, tags, address)
         == if e.blocks[o].Some? then Some(Lookup(s, w, o, e.blocks[o].value, e.factor)) else None
  {
    var e, o := tags[s][w], c.offsetOf(address);
    WayOfFinds(c, tags, c.baseOf(address));
    assert EntryOk(c, s, w, e);
    assert BlockOk(c, e, o);
  }

  /** The entry an insertion leaves: the held one with one more block, or a fresh one. */
  lemma InsertPuts(c: Config, tags: Tags, address: nat, size: nat, way: nat)
    requires ValidConfig(c) && ValidTags(c, tags) && way < c.ways
    ensures
      var (tags', r) := Insert(c, tags, address, size, Some(way));
      && r.Ok? && r.value.set_ < c.sets && r.value.way < c.ways
      && var e, o := tags[r.value.set_][r.value.way], c.offsetOf(address);
      && |e.blocks| == c.ratio
      && (WayOf(c, tags, c.baseOf(address), 0) == c.ways ==> !r.value.coAllocated && r.value.way == way)
      && (r.value.coAllocated ==> e.base == Some(c.baseOf(address)) && e.blocks[o].None? && CanCoallocate(c, e, size))
      && tags' == Put(tags, r.value.set_, r.value.way,
           if r.value.coAllocated
           then e.(blocks := e.blocks[o := Some(Line(c.lineOf(address), size, IsCompressed(e.blocks)))])
           else Fresh(c, address, size))
  {
    var r := Insert(c, tags, address, size, Some(way)).1;
    assert EntryOk(c, r.value.set_, r.value.way, tags[r.value.set_][r.value.way]);
  }

  /** What a compression factor is worth, from the size alone. */
  predicate FactorOf(c: Config, size: nat, factor: nat) {
    if size == 0 then factor == c.ratio
    else if size > 8 * c.lineBytes then factor == 1
    else LeastPower(factor, 8 * c.lineBytes / size, c.ratio)
  }

  /** An inserted line is found at once, where the insertion reports it, with its size, and counts as
  compressed exactly when its superblock's factor is above one. A superblock taken over gets the
  factor of the line's size; one that is joined keeps its own. What is evicted was resident in the
  entry taken over. */
  lemma InsertFound(c: Config, tags: Tags, address: nat, size: nat, way: nat)
    requires ValidConfig(c) && ValidTags(c, tags) && way < c.ways
    ensures
      var (tags', r) := Insert(c, tags, address, size, Some(way));
      && r.Ok?
      && var i := r.value;
      && i.line == c.lineOf(address) && i.base == c.baseOf(address) && i.offset == c.offsetOf(address)
      && i.compressed == (i.factor != 1)
      && Find(c, tags', address)
         == Some(Lookup(i.set_, i.way, i.offset, Line(i.line, size, i.compressed), i.factor))
      && (!i.coAllocated ==> FactorOf(c, size, i.factor))
      && (i.coAllocated ==> i.factor == tags[i.set_][i.way].factor)
      && (forall l :: l in i.evicted ==> HeldAt(tags, i.set_, i.way, l))
  {
    var (tags', r) := Insert(c, tags, address, size, Some(way));
    var i := r.value;
    InsertPuts(c, tags, address, size, way);
    InsertValid(c, tags, address, size, Some(way));
    FindIs(c, tags', address, i.set_, i.way);
    if i.coAllocated {
      RoomMeans(c, tags, i.set_, i.way, address, size);
      JoinedFlag(c, i.set_, i.way, tags[i.set_][i.way]);
    } else {
      FactorIsPower(c, size);
      EvictedHeld(tags, i.set_, i.way);
    }
  }

  lemma JoinedFlag(c: Config, s: nat, w: nat, e: Entry)
    requires ValidConfig(c) && EntryOk(c, s, w, e) && Count(e.blocks) > 0
    ensures IsCompressed(e.blocks) == (e.factor != 1)
  {
    forall o | 0 <= o < |e.blocks| && e.blocks[o].Some?
      ensures e.blocks[o].value.compressed == (e.factor != 1)
    {
      assert BlockOk(c, e, o);
    }
    FlagsAgree(e.blocks, e.factor != 1);
  }

  lemma EvictedHeld(tags: Tags, s: nat, w: nat)
    requires s < |tags| && w < |tags[s]|
    ensures forall l :: l in ValidLines(tags[s][w].blocks) ==> HeldAt(tags, s, w, l)
  {
    forall l | l in ValidLines(tags[s][w].blocks)
      ensures HeldAt(tags, s, w, l)
    {
      ValidLinesAre(tags[s][w].blocks, l);
    }
  }

  /** Every other line that stays resident is found as before: same place, same size, same flag, same
  factor. */
  lemma InsertKeepsOthers(c: Config, tags: Tags, address: nat, size: nat, way: nat, other: nat)
    requires ValidConfig(c) && ValidTags(c, tags) && way < c.ways && c.lineOf(other) != c.lineOf(address)
    ensures
      var (tags', r) := Insert(c, tags, address, size, Some(way));
      && r.Ok?
      && Find(c, tags', other) == if c.lineOf(other) in r.value.evicted then None else Find(c, tags, other)
  {
    var (tags', r) := Insert(c, tags, address, size, Some(way));
    InsertPuts(c, tags, address, size, way);
    InsertValid(c, tags, address, size, Some(way));
    InsertResident(c, tags, address, size, Some(way), c.lineOf(other));
    FindIffResident(c, tags, other);
    FindIffResident(c, tags', other);
    if Find(c, tags', other).Some? {
      if c.baseOf(other) == c.baseOf(address) {
        OtherPlaceKept(c, tags[r.value.set_][r.value.way], r.value.coAllocated, address, size, other);
      }
      KeptWhere(c, tags, tags', other, r.value.set_, r.value.way);
    }
  }

  /** The entry an insertion leaves has, where another line would be, what it had or nothing. */
  lemma OtherPlaceKept(c: Config, e: Entry, joined: bool, address: nat, size: nat, other: nat)
    requires ValidConfig(c) && |e.blocks| == c.ratio && c.lineOf(other) != c.lineOf(address)
    requires c.baseOf(other) == c.baseOf(address)
    ensures
      var o, block := c.offsetOf(address), Line(c.lineOf(address), size, IsCompressed(e.blocks));
      var e' := if joined then e.(blocks := e.blocks[o := Some(block)]) else Fresh(c, address, size);
      && c.offsetOf(other) != o
      && e'.blocks[c.offsetOf(other)] == if joined then e.blocks[c.offsetOf(other)] else None
  {
  }

  /** A line that is found before and after an entry changed is found alike. */
  lemma KeptWhere(c: Config, tags: Tags, tags': Tags, other: nat, s: nat, w: nat)
    requires ValidConfig(c) && ValidTags(c, tags) && ValidTags(c, tags') && s < c.sets && w < c.ways
    requires tags' == Put(tags, s, w, tags'[s][w])
    requires Find(c, tags, other).Some? && Find(c, tags', other).Some?
    requires At(tags', s, w, c.baseOf(other)) ==>
      && tags'[s][w].factor == tags[s][w].factor && tags[s][w].base == tags'[s][w].base
      && |tags[s][w].blocks| == |tags'[s][w].blocks| == c.ratio
      && tags'[s][w].blocks[c.offsetOf(other)] == tags[s][w].blocks[c.offsetOf(other)]
    ensures Find(c, tags', other) == Find(c, tags, other)
  {
    var f, f' := Find(c, tags, other).value, Find(c, tags', other).value;
    assert At(tags, f.set_, f.way, c.baseOf(other)) && At(tags', f'.set_, f'.way, c.baseOf(other));
    if f'.set_ == s && f'.way == w {
      FindIs(c, tags, other, s, w);
    } else {
      assert tags'[f'.set_][f'.way] == tags[f'.set_][f'.way];
      FindIs(c, tags, other, f'.set_, f'.way);
    }
    FindIs(c, tags', other, f'.set_, f'.way);
  }

  /** An invalidated line is found no more, every other line is found as before, and the report is the
  line as it was found, with factor one when its superblock goes with it. */
  lemma InvalidateFinds(c: Config, tags: Tags, address: nat, other: nat)
    requires ValidConfig(c) && ValidTags(c, tags)
    ensures
      var (tags', r) := Invalidate(c, tags, address);
      && Find(c, tags', other) == (if c.lineOf(other) == c.lineOf(address) then None else Find(c, tags, other))
      && r.Some? == Find(c, tags, address).Some?
      && (r.Some? ==>
            var f := Find(c, tags, address).value;
            r.value == f.(factor := if Count(tags[f.set_][f.way].blocks) > 1 then f.factor else 1))
  {
    var (tags', r) := Invalidate(c, tags, address);
    InvalidateValid(c, tags, address);
    InvalidateResident(c, tags, address, c.lineOf(other));
    FindIffResident(c, tags, other);
    FindIffResident(c, tags', other);
    if r.Some? {
      var f := Find(c, tags, address).value;
      CountUpdate(tags[f.set_][f.way].blocks, f.offset, None);
      if Find(c, tags', other).Some? {
        assert EntryOk(c, f.set_, f.way, tags[f.set_][f.way]);
        KeptWhere(c, tags, tags', other, f.set_, f.way);
      }
    }
  }

  // ----- lines that share a superblock

  /** Lines of one size inserted one after the other. */
  function InsertAll(c: Config, tags: Tags, addresses: seq<nat>, size: nat, way: nat): (tags': Tags)
    requires ValidConfig(c) && Shaped(c, tags) && way < c.ways
    ensures Shaped(c, tags')
  {
    if addresses == [] then tags
    else
      var n := |addresses| - 1;
      Insert(c, InsertAll(c, tags, addresses[..n], size, way), addresses[n], size, Some(way)).0
  }

  /** The addresses are in different lines of one superblock. */
  predicate OneSuperblock(c: Config, base: nat, addresses: seq<nat>) {
    && (forall i :: 0 <= i < |addresses| ==> c.baseOf(addresses[i]) == base)
    && (forall i, j :: 0 <= i < j < |addresses| ==> c.lineOf(addresses[i]) != c.lineOf(addresses[j]))
  }

  /** The entry holds the superblock with this factor, and exactly these lines at this size. */
  predicate Packed(c: Config, tags: Tags, s: nat, w: nat, base: nat, addresses: seq<nat>, size: nat, factor: nat)
    requires Shaped(c, tags)
  {
    && At(tags, s, w, base) && tags[s][w].factor == factor && Count(tags[s][w].blocks) == |addresses|
    && (forall i :: 0 <= i < |addresses| ==>
          Find(c, tags, addresses[i])
          == Some(Lookup(s, w, c.offsetOf(addresses[i]), Line(c.lineOf(addresses[i]), size, factor != 1), factor)))
    && forall o :: 0 <= o < |tags[s][w].blocks| && tags[s][w].blocks[o].Some? ==>
         exists i :: 0 <= i < |addresses| && c.offsetOf(addresses[i]) == o
  }

  lemma FirstPacked(c: Config, tags: Tags, address: nat, size: nat, way: nat, tags': Tags)
    requires ValidConfig(c) && ValidTags(c, tags) && way < c.ways && WayOf(c, tags, c.baseOf(address), 0) == c.ways
    requires tags' == Insert(c, tags, address, size, Some(way)).0
    ensures
      var i := Insert(c, tags, address, size, Some(way)).1.value;
      && ValidTags(c, tags') && FactorOf(c, size, i.factor)
      && Packed(c, tags', i.set_, i.way, c.baseOf(address), [address], size, i.factor)
  {
    InsertValid(c, tags, address, size, Some(way));
    InsertPuts(c, tags, address, size, way);
    InsertFound(c, tags, address, size, way);
    FreshOk(c, way, address, size);
    var addresses := [address];
    assert c.offsetOf(addresses[0]) == c.offsetOf(address);
  }

  lemma NextPacked(
    c: Config, tags: Tags, s: nat, w: nat, base: nat, addresses: seq<nat>, size: nat, factor: nat,
    address: nat, way: nat, tags': Tags)
    requires ValidConfig(c) && ValidTags(c, tags) && way < c.ways && OneSuperblock(c, base, addresses + [address])
    requires Packed(c, tags, s, w, base, addresses, size, factor)
    requires 1 < factor && |addresses| < factor && size * factor <= BlockBits(c)
    requires tags' == Insert(c, tags, address, size, Some(way)).0
    ensures ValidTags(c, tags') && Packed(c, tags', s, w, base, addresses + [address], size, factor)
  {
    var all := addresses + [address];
    assert all[|addresses|] == address;
    assert EntryOk(c, s, w, tags[s][w]);
    var o := c.offsetOf(address);
    forall k | 0 <= k < |addresses|
      ensures c.offsetOf(addresses[k]) != o
    {
      assert all[k] == addresses[k] && c.lineOf(all[k]) != c.lineOf(address);
    }
    assert RoomFor(c, tags, s, w, address, size);
    CoallocatesIff(c, tags, address, size, Some(way));
    WayOfFinds(c, tags, base);
    InsertValid(c, tags, address, size, Some(way));
    InsertPuts(c, tags, address, size, way);
    InsertFound(c, tags, address, size, way);
    forall i | 0 <= i < |addresses|
      ensures Find(c, tags', addresses[i]) == Find(c, tags, addresses[i])
    {
      assert all[i] == addresses[i];
      InsertKeepsOthers(c, tags, address, size, way, addresses[i]);
    }
    CountUpdate(tags[s][w].blocks, o, tags'[s][w].blocks[o]);
    forall q | 0 <= q < |tags'[s][w].blocks| && tags'[s][w].blocks[q].Some?
      ensures exists i :: 0 <= i < |all| && c.offsetOf(all[i]) == q
    {
      if q == o {
        assert c.offsetOf(all[|addresses|]) == q;
      } else {
        var k :| 0 <= k < |addresses| && c.offsetOf(addresses[k]) == q;
        assert c.offsetOf(all[k]) == q;
      }
    }
  }

  /** Lines of one superblock that each fit a share of the factor their size gives end up resident
  together, as many as the factor allows, whatever else the tags hold. */
  lemma {:induction false} SharedSuperblock(
    c: Config, tags: Tags, base: nat, addresses: seq<nat>, size: nat, way: nat, factor: nat)
    returns (s: nat, w: nat)
    requires ValidConfig(c) && ValidTags(c, tags) && way < c.ways && WayOf(c, tags, base, 0) == c.ways
    requires OneSuperblock(c, base, addresses) && 0 < |addresses| <= factor
    requires FactorOf(c, size, factor) && factor > 1 && size * factor <= BlockBits(c)
    ensures
      var tags' := InsertAll(c, tags, addresses, size, way);
      ValidTags(c, tags') && Packed(c, tags', s, w, base, addresses, size, factor)
  {
    var n := |addresses| - 1;
    var before := InsertAll(c, tags, addresses[..n], size, way);
    assert addresses[..n] + [addresses[n]] == addresses;
    if n == 0 {
      FirstPacked(c, tags, addresses[0], size, way, InsertAll(c, tags, addresses, size, way));
      var i := Insert(c, tags, addresses[0], size, Some(way)).1.value;
      s, w := i.set_, i.way;
      FactorUnique(c, size, factor, i.factor);
    } else {
      s, w := SharedSuperblock(c, tags, base, addresses[..n], size, way, factor);
      NextPacked(c, before, s, w, base, addresses[..n], size, factor, addresses[n], way,
                 InsertAll(c, tags, addresses, size, way));
    }
  }

  /** The size determines the factor. */
  lemma FactorUnique(c: Config, size: nat, f: nat, g: nat)
    requires ValidConfig(c) && FactorOf(c, size, f) && FactorOf(c, size, g)
    ensures f == g
  {
    if 0 < size <= 8 * c.lineBytes && f != g {
      var small, large := Min(f, g), Max(f, g);
      PowersOrdered(small, large);
    }
  }

  // ----- capacity

  function TotalBits(blocks: seq<Option<Line>>): (bits: nat) {
    if blocks == [] then 0 else (if blocks[0].Some? then blocks[0].value.size else 0) + TotalBits(blocks[1..])
  }

  lemma QuotientBelow(x: nat, y: nat, f: nat)
    requires f > 0 && x <= y / f
    ensures x * f <= y
  {
    MulAtMost(x, y / f, f);
  }

  /** Rounding the ratio up to a power of two costs less than a factor of two. */
  lemma RoundedSize(c: Config, size: nat)
    requires IsPow2(c.ratio) && c.ratio <= USIZE_MAX && c.lineBytes > 0
    ensures FactorFor(c, size) >= 2 ==> size * FactorFor(c, size) < 2 * LineBits(c)
  {
    var bits, f := LineBits(c), FactorFor(c, size);
    if f >= 2 && size > 0 {
      var q := bits / size;
      GrownIsLeast(1, q, c.ratio);
      QuotientBelow(q, bits, size);
      RoundedArithmetic(size, f, q, bits);
    }
  }

  lemma RoundedArithmetic(size: nat, f: nat, q: nat, bits: nat)
    requires size > 0 && f < 2 * q && q * size <= bits
    ensures size * f < 2 * bits
  {
    MulLess(f, 2 * q, size);
    assert size * (2 * q) == 2 * (q * size);
  }

  lemma BlockShare(c: Config, e: Entry, o: nat)
    requires ValidConfig(c) && e.factor >= 2 && o < |e.blocks| && e.blocks[o].Some? && BlockOk(c, e, o)
    ensures
      var line := e.blocks[o].value;
      if Oversized(c, e.factor, line) then line.size * e.factor < 2 * LineBits(c)
      else line.size * e.factor <= LineBits(c)
  {
    var line := e.blocks[o].value;
    if Oversized(c, e.factor, line) {
      RoundedSize(c, line.size);
    } else {
      QuotientBelow(line.size, BlockBits(c), e.factor);
    }
  }

  /** Whether one of the blocks from `k` on is oversized. */
  predicate OversizedFrom(c: Config, e: Entry, k: nat)
    requires e.factor > 0
  {
    exists o :: k <= o < |e.blocks| && OversizedAt(c, e, o)
  }

  lemma ShareStep(size: nat, rest: nat, f: nat, count: nat, bits: nat, share: nat, extra: nat)
    requires size * f <= share && rest * f <= count * bits + extra
    ensures (size + rest) * f <= count * bits + extra + share
  {
  }

  /** The extra that one oversized block among those from `k` on may take. */
  function Extra(c: Config, e: Entry, k: nat): (bits: nat)
    requires e.factor > 0 && c.lineBytes > 0
  {
    if OversizedFrom(c, e, k) then LineBits(c) - 1 else 0
  }

  lemma ExtraNext(c: Config, e: Entry, k: nat)
    requires e.factor > 0 && c.lineBytes > 0 && k < |e.blocks| && OneOversized(c, e)
    ensures OversizedAt(c, e, k) ==> Extra(c, e, k) == LineBits(c) - 1 && Extra(c, e, k + 1) == 0
    ensures !OversizedAt(c, e, k) ==> Extra(c, e, k) == Extra(c, e, k + 1)
  {
  }

  /** What block `k` adds. */
  lemma ShareAt(c: Config, e: Entry, k: nat, rest: nat, count: nat)
    requires ValidConfig(c) && e.factor >= 2 && k < |e.blocks| && OneOversized(c, e) && BlockOk(c, e, k)
      && e.blocks[k].Some?
    requires rest * e.factor <= count * LineBits(c) + Extra(c, e, k + 1)
    ensures (e.blocks[k].value.size + rest) * e.factor <= (count + 1) * LineBits(c) + Extra(c, e, k)
  {
    var size, f, bits := e.blocks[k].value.size, e.factor, LineBits(c);
    BlockShare(c, e, k);
    ExtraNext(c, e, k);
    ShareStep(size, rest, f, count, bits, if OversizedAt(c, e, k) then 2 * bits - 1 else bits, Extra(c, e, k + 1));
    assert (count + 1) * bits == count * bits + bits;
  }

  lemma {:induction false} SharesFrom(c: Config, e: Entry, k: nat)
    requires ValidConfig(c) && e.factor >= 2 && k <= |e.blocks|
    requires OneOversized(c, e) && forall o :: 0 <= o < |e.blocks| ==> BlockOk(c, e, o)
    ensures TotalBits(e.blocks[k..]) * e.factor <= Count(e.blocks[k..]) * LineBits(c) + Extra(c, e, k)
    decreases |e.blocks| - k
  {
    if k < |e.blocks| {
      SharesFrom(c, e, k + 1);
      var blocks := e.blocks[k..];
      assert blocks[1..] == e.blocks[k + 1..] && blocks[0] == e.blocks[k];
      if e.blocks[k].Some? {
        ShareAt(c, e, k, TotalBits(blocks[1..]), Count(blocks[1..]));
      } else {
        ExtraNext(c, e, k);
      }
    }
  }

  /** The capacity bound: although the ratio is rounded up to a power of two, a superblock with
  factor `f` holds less than `(f + 1) / f` lines' worth of compressed bits. */
  lemma CapacityBound(c: Config, s: nat, w: nat, e: Entry)
    requires ValidConfig(c) && EntryOk(c, s, w, e) && e.factor >= 2
    ensures TotalBits(e.blocks) * e.factor < LineBits(c) * (e.factor + 1)
  {
    SharesFrom(c, e, 0);
    assert e.blocks[0..] == e.blocks;
    MulAtMost(Count(e.blocks), e.factor, LineBits(c));
    assert LineBits(c) * (e.factor + 1) == e.factor * LineBits(c) + LineBits(c);
  }

  /** The bound holds in every entry of every reachable state. */
  lemma ReachableCapacity(c: Config, steps: seq<Step>, s: nat, w: nat)
    requires ValidConfig(c) && StepsOk(c, steps) && s < c.sets && w < c.ways
    ensures
      var e := Run(c, steps)[s][w];
      e.factor >= 2 ==> TotalBits(e.blocks) * e.factor < LineBits(c) * (e.factor + 1)
  {
    RunValid(c, steps);
    var e := Run(c, steps)[s][w];
    if e.factor >= 2 {
      CapacityBound(c, s, w, e);
    }
  }

  // ----- the validator

  datatype SnapshotError =
    | SetCountMismatch
    | WayCountMismatch
    | BlockCountMismatch
    | InvalidCompressionFactor
    | EmptySuperblock
    | SuperblockCapacityExceeded
    | DuplicateSuperblock
    | MisalignedSuperblock
    | SuperblockSetMismatch
    | LineWithoutSuperblock
    | MisalignedLine
    | LineSuperblockMismatch
    | LineOffsetMismatch
    | DuplicateLine
    | CompressedSizeTooLarge
    | CompressedFlagMismatch

  /** The checks on an entry before its blocks are looked at. */
  method ValidateHead(c: Config, set_: nat, way: nat, e: Entry, bases: set<nat>) returns (error: Option<SnapshotError>)
    requires c.ratio <= USIZE_MAX
    ensures EntryOk(c, set_, way, e) && (e.base.Some? ==> e.base.value !in bases) ==> error.None?
    ensures error.None? ==>
      && |e.blocks| == c.ratio && IsPow2(e.factor) && 1 <= e.factor <= c.ratio
      && (Count(e.blocks) == 0 ==> e.base.None? && e.factor == 1) && Count(e.blocks) <= e.factor
      && (e.base.Some? ==>
            e.base.value !in bases && c.baseOf(e.base.value) == e.base.value && c.setFor(e.base.value, way) == set_)
  {
    if |e.blocks| != c.ratio {
      return Some(BlockCountMismatch);
    }
    if e.factor == 0 || e.factor > c.ratio || !IsPow2(e.factor) {
      return Some(InvalidCompressionFactor);
    }
    if Count(e.blocks) == 0 && (e.base.Some? || e.factor != 1) {
      return Some(EmptySuperblock);
    }
    if Count(e.blocks) > e.factor {
      return Some(SuperblockCapacityExceeded);
    }
    if e.base.Some? {
      if e.base.value in bases {
        return Some(DuplicateSuperblock);
      }
      if c.baseOf(e.base.value) != e.base.value {
        return Some(MisalignedSuperblock);
      }
      if c.setFor(e.base.value, way) != set_ {
        return Some(SuperblockSetMismatch);
      }
    }
    return None;
  }

  /** The checks on one block, but for the duplicate and size checks. */
  method ValidateBlock(c: Config, e: Entry, offset: nat) returns (error: Option<SnapshotError>)
    requires c.ratio <= USIZE_MAX && e.factor > 0 && offset < |e.blocks| && e.blocks[offset].Some?
    ensures error.None? <==>
      var line := e.blocks[offset].value;
      && e.base == Some(c.baseOf(line.line)) && c.lineOf(line.line) == line.line && c.offsetOf(line.line) == offset
  {
    var line := e.blocks[offset].value;
    if e.base.None? {
      return Some(LineWithoutSuperblock);
    }
    if c.lineOf(line.line) != line.line {
      return Some(MisalignedLine);
    }
    if Some(c.baseOf(line.line)) != e.base {
      return Some(LineSuperblockMismatch);
    }
    if c.offsetOf(line.line) != offset {
      return Some(LineOffsetMismatch);
    }
    return None;
  }

  /** Lines seen so far belong to superblocks seen so far, and those of this entry's superblock to
  earlier blocks of it; so a line that is where it belongs is never a duplicate. */
  ghost predicate SeenOk(c: Config, seen: set<nat>, bases: set<nat>, e: Entry, offset: nat) {
    forall x :: x in seen ==> if Some(c.baseOf(x)) == e.base then c.offsetOf(x) < offset else c.baseOf(x) in bases
  }

  method ValidateBlocks(c: Config, e: Entry, seen: set<nat>, ghost bases: set<nat>)
    returns (error: Option<SnapshotError>, seen': set<nat>)
    requires c.ratio <= USIZE_MAX && e.factor > 0
    requires SeenOk(c, seen, bases, e, 0)
    ensures error.None? <==> OneOversized(c, e) && forall o :: 0 <= o < |e.blocks| ==> BlockOk(c, e, o)
    ensures SeenOk(c, seen', bases, e, |e.blocks|)
  {
    seen' := seen;
    var offset, oversized := 0, 0;
    ghost var first := 0;
    while offset < |e.blocks|
      invariant offset <= |e.blocks| && SeenOk(c, seen', bases, e, offset)
      invariant forall o :: 0 <= o < offset ==> BlockOk(c, e, o)
      invariant oversized == 0 ==> forall o :: 0 <= o < offset ==> !OversizedAt(c, e, o)
      invariant oversized > 0 ==> first < offset && OversizedAt(c, e, first)
      invariant forall i, j :: 0 <= i < j < offset ==> !OversizedAt(c, e, i) || !OversizedAt(c, e, j)
    {
      if e.blocks[offset].Some? {
        var line := e.blocks[offset].value;
        error := ValidateBlock(c, e, offset);
        if error.Some? {
          assert !BlockOk(c, e, offset);
          SeenWeaker(c, seen', bases, e, offset);
          return;
        }
        if line.line in seen' {
          assert false;
        }
        seen' := seen' + {line.line};
        if e.factor != 1 && line.size > BlockBits(c) / e.factor {
          oversized := oversized + 1;
          if oversized > 1 || FactorFor(c, line.size) != e.factor {
            assert OversizedAt(c, e, offset) && (oversized > 1 ==> OversizedAt(c, e, first));
            assert FactorFor(c, line.size) != e.factor ==> !BlockOk(c, e, offset);
            SeenWeaker(c, seen', bases, e, offset + 1);
            return Some(CompressedSizeTooLarge), seen';
          }
          first := offset;
        }
        if line.compressed != (e.factor != 1) {
          assert !BlockOk(c, e, offset);
          SeenWeaker(c, seen', bases, e, offset + 1);
          return Some(CompressedFlagMismatch), seen';
        }
      }
      offset := offset + 1;
    }
    error := None;
  }

  lemma SeenWeaker(c: Config, seen: set<nat>, bases: set<nat>, e: Entry, offset: nat)
    requires SeenOk(c, seen, bases, e, offset) && offset <= |e.blocks|
    ensures SeenOk(c, seen, bases, e, |e.blocks|)
  {
  }

  // ----- scanning the sets

  ghost predicate Before(s': nat, w': nat, s: nat, w: nat) {
    s' < s || (s' == s && w' < w)
  }

  ghost predicate HeldBefore(tags: Tags, s': nat, w': nat, base: nat, s: nat, w: nat) {
    Before(s', w', s, w) && At(tags, s', w', base)
  }

  /** The entries before `(s, w)` are in order. */
  ghost predicate ScannedOk(c: Config, tags: Tags, s: nat, w: nat)
    requires c.ratio <= USIZE_MAX
  {
    && (forall s': nat, w': nat :: Before(s', w', s, w) && s' < |tags| && w' < |tags[s']| ==>
      EntryOk(c, s', w', tags[s'][w']))
    && (forall s1: nat, w1: nat, s2: nat, w2: nat, base ::
          HeldBefore(tags, s1, w1, base, s, w) && HeldBefore(tags, s2, w2, base, s, w) ==>
          s1 == s2 && w1 == w2)
  }

  /** The superblocks seen are those of the entries before `(s, w)`. */
  ghost predicate BasesSeen(tags: Tags, s: nat, w: nat, bases: set<nat>) {
    && (forall s': nat, w': nat, base :: HeldBefore(tags, s', w', base, s, w) ==> base in bases)
    && (forall base :: base in bases ==> exists s': nat, w': nat :: HeldBefore(tags, s', w', base, s, w))
  }

  ghost predicate LinesSeen(c: Config, seen: set<nat>, bases: set<nat>) {
    forall x :: x in seen ==> c.baseOf(x) in bases
  }

  /** One entry more. */
  lemma ScanNext(c: Config, tags: Tags, s: nat, w: nat, v: nat, bases: set<nat>, bases': set<nat>)
    requires c.ratio <= USIZE_MAX && s < |tags| && w < |tags[s]| && ScannedOk(c, tags, s, w)
      && BasesSeen(tags, s, w, bases)
    requires EntryOk(c, s, w, tags[s][w]) && (tags[s][w].base.Some? ==> tags[s][w].base.value !in bases)
    requires v == w + 1 && bases' == if tags[s][w].base.Some? then bases + {tags[s][w].base.value} else bases
    ensures ScannedOk(c, tags, s, v) && BasesSeen(tags, s, v, bases')
  {
    forall s': nat, w': nat
      ensures Before(s', w', s, v) <==> Before(s', w', s, w) || (s' == s && w' == w)
    {
    }
    forall s': nat, w': nat, base
      ensures HeldBefore(tags, s', w', base, s, v)
          <==> HeldBefore(tags, s', w', base, s, w) || (s' == s && w' == w && At(tags, s, w, base))
    {
    }
    forall base | base in bases'
      ensures exists s': nat, w': nat :: HeldBefore(tags, s', w', base, s, v)
    {
      if base in bases {
        var s': nat, w': nat :| HeldBefore(tags, s', w', base, s, w);
        assert HeldBefore(tags, s', w', base, s, v);
      } else {
        assert HeldBefore(tags, s, w, base, s, v);
      }
    }
  }

  /** A superblock seen before is held twice. */
  lemma SeenTwice(c: Config, tags: Tags, s: nat, w: nat, bases: set<nat>)
    requires s < |tags| && w < |tags[s]| && BasesSeen(tags, s, w, bases)
    requires tags[s][w].base.Some? && tags[s][w].base.value in bases
    ensures !Unique(tags)
  {
    var base := tags[s][w].base.value;
    var s': nat, w': nat :| HeldBefore(tags, s', w', base, s, w);
    assert At(tags, s, w, base);
  }

  lemma NextSet(c: Config, tags: Tags, s: nat, t: nat, bases: set<nat>)
    requires c.ratio <= USIZE_MAX && s < |tags| && ScannedOk(c, tags, s, |tags[s]|)
      && BasesSeen(tags, s, |tags[s]|, bases)
    requires t == s + 1
    ensures ScannedOk(c, tags, t, 0) && BasesSeen(tags, t, 0, bases)
  {
    var w := |tags[s]|;
    forall s': nat, w': nat | s' < |tags| && w' < |tags[s']|
      ensures Before(s', w', t, 0) <==> Before(s', w', s, w)
    {
    }
    forall s': nat, w': nat, base
      ensures HeldBefore(tags, s', w', base, t, 0) <==> HeldBefore(tags, s', w', base, s, w)
    {
    }
    forall base | base in bases
      ensures exists s': nat, w': nat :: HeldBefore(tags, s', w', base, t, 0)
    {
      var s': nat, w': nat :| HeldBefore(tags, s', w', base, s, w);
      assert HeldBefore(tags, s', w', base, t, 0);
    }
  }

  /** `validate_entry_snapshot`. */
  method ValidateEntry(c: Config, set_: nat, way: nat, e: Entry, seen: set<nat>, bases: set<nat>)
    returns (error: Option<SnapshotError>, seen': set<nat>, bases': set<nat>)
    requires c.ratio <= USIZE_MAX && LinesSeen(c, seen, bases)
    ensures error.None? <==> EntryOk(c, set_, way, e) && (e.base.Some? ==> e.base.value !in bases)
    ensures error.None? ==>
      bases' == (if e.base.Some? then bases + {e.base.value} else bases) && LinesSeen(c, seen', bases')
  {
    seen', bases' := seen, bases;
    error := ValidateHead(c, set_, way, e, bases);
    if error.Some? {
      return;
    }
    error, seen' := ValidateBlocks(c, e, seen, bases);
    if e.base.Some? {
      bases' := bases + {e.base.value};
    }
  }

  /** The entries of one set. */
  method ValidateSet(c: Config, tags: Tags, s: nat, seen: set<nat>, bases: set<nat>)
    returns (error: Option<SnapshotError>, seen': set<nat>, bases': set<nat>)
    requires c.ratio <= USIZE_MAX && s < |tags|
    requires ScannedOk(c, tags, s, 0) && BasesSeen(tags, s, 0, bases) && LinesSeen(c, seen, bases)
    ensures error.None? ==>
      ScannedOk(c, tags, s + 1, 0) && BasesSeen(tags, s + 1, 0, bases') && LinesSeen(c, seen', bases')
    ensures error.Some? ==> !ValidTags(c, tags)
  {
    seen', bases' := seen, bases;
    var w := 0;
    while w < |tags[s]|
      invariant w <= |tags[s]|
      invariant ScannedOk(c, tags, s, w) && BasesSeen(tags, s, w, bases') && LinesSeen(c, seen', bases')
    {
      ghost var before := bases';
      error, seen', bases' := ValidateEntry(c, s, w, tags[s][w], seen', bases');
      if error.Some? {
        EntryRefused(c, tags, s, w, before);
        return;
      }
      ScanNext(c, tags, s, w, w + 1, before, bases');
      w := w + 1;
    }
    NextSet(c, tags, s, s + 1, bases');
    error := None;
  }

  lemma EntryRefused(c: Config, tags: Tags, s: nat, w: nat, bases: set<nat>)
    requires c.ratio <= USIZE_MAX && s < |tags| && w < |tags[s]| && BasesSeen(tags, s, w, bases)
    requires !EntryOk(c, s, w, tags[s][w]) || (tags[s][w].base.Some? && tags[s][w].base.value in bases)
    ensures !ValidTags(c, tags)
  {
    if EntryOk(c, s, w, tags[s][w]) {
      SeenTwice(c, tags, s, w, bases);
    }
  }

  /** `validate_snapshot`: accepts exactly the valid tags. */
  method ValidateSnapshot(c: Config, tags: Tags) returns (error: Option<SnapshotError>)
    requires c.ratio <= USIZE_MAX
    ensures error.None? <==> ValidTags(c, tags)
  {
    if |tags| != c.sets {
      return Some(SetCountMismatch);
    }
    var seen: set<nat>, bases: set<nat> := {}, {};
    var s := 0;
    while s < |tags|
      invariant s <= |tags| && forall k :: 0 <= k < s ==> |tags[k]| == c.ways
      invariant ScannedOk(c, tags, s, 0) && BasesSeen(tags, s, 0, bases) && LinesSeen(c, seen, bases)
    {
      if |tags[s]| != c.ways {
        return Some(WayCountMismatch);
      }
      error, seen, bases := ValidateSet(c, tags, s, seen, bases);
      if error.Some? {
        return;
      }
      s := s + 1;
    }
    AllScanned(c, tags);
    return None;
  }

  lemma AllScanned(c: Config, tags: Tags)
    requires c.ratio <= USIZE_MAX && ScannedOk(c, tags, |tags|, 0)
    ensures EntriesOk(c, tags) && Unique(tags)
  {
    forall s: nat, w: nat | s < |tags|
      ensures Before(s, w, |tags|, 0)
    {
    }
    forall s: nat, w: nat, base | At(tags, s, w, base)
      ensures HeldBefore(tags, s, w, base, |tags|, 0)
    {
    }
  }

  // ----- the tags as they are updated in place

  class CompressedTagStore {
    const config: Config
    var tags: Tags

    ghost predicate Valid()
      reads this
    {
      ValidConfig(config) && ValidTags(config, tags)
    }

    constructor (config: Config)
      requires ValidConfig(config)
      ensures Valid() && this.config == config && tags == New(config)
    {
      this.config := config;
      tags := New(config);
      new;
      NewValid(config);
    }

    /** `superblock_location`: tries the candidate locations in way order. */
    method WayHolding(base: nat) returns (way: nat)
      requires Valid()
      ensures way == WayOf(config, tags, base, 0)
    {
      way := 0;
      while way < config.ways && tags[config.setFor(base, way)][way].base != Some(base)
        invariant way <= config.ways
        invariant forall k :: 0 <= k < way ==> !At(tags, config.setFor(base, k), k, base)
      {
        way := way + 1;
      }
    }

    method FindLine(address: nat) returns (r: Option<Lookup>)
      requires Valid()
      ensures r == Find(config, tags, address)
      ensures r.Some? <==> Resident(tags, config.lineOf(address))
    {
      FindIffResident(config, tags, address);
      var base, offset := config.baseOf(address), config.offsetOf(address);
      var way := WayHolding(base);
      if way == config.ways {
        return None;
      }
      var set_ := config.setFor(base, way);
      var e := tags[set_][way];
      if e.blocks[offset].Some? && e.blocks[offset].value.line == config.lineOf(address) {
        return Some(Lookup(set_, way, offset, e.blocks[offset].value, e.factor));
      }
      return None;
    }

    method InsertLine(address: nat, size: nat, victim: Option<nat>) returns (r: Result<Inserted, TagError>)
      requires Valid() && (victim.Some? ==> victim.value < config.ways)
      modifies this
      ensures Valid()
      ensures (tags, r) == Insert(config, old(tags), address, size, victim)
    {
      InsertValid(config, tags, address, size, victim);
      if victim.None? {
        return Err(PolicyFailed);
      }
      var base, line, offset := config.baseOf(address), config.lineOf(address), config.offsetOf(address);
      var way := WayHolding(base);
      if way < config.ways {
        var set_ := config.setFor(base, way);
        var e := tags[set_][way];
        if e.blocks[offset].None? && CanCoallocate(config, e, size) {
          var block := Line(line, size, IsCompressed(e.blocks));
          tags := Put(tags, set_, way, e.(blocks := e.blocks[offset := Some(block)]));
          return Ok(Inserted(line, base, set_, way, offset, e.factor, true, true, []));
        }
      } else {
        way := victim.value;
      }
      var (tags', inserted) := Replace(config, tags, way, address, size);
      tags := tags';
      return Ok(inserted);
    }

    method InvalidateLine(address: nat) returns (r: Option<Lookup>)
      requires Valid()
      modifies this
      ensures Valid()
      ensures (tags, r) == Invalidate(config, old(tags), address)
    {
      InvalidateValid(config, tags, address);
      var found := FindLine(address);
      if found.None? {
        return None;
      }
      var e := tags[found.value.set_][found.value.way];
      var blocks := e.blocks[found.value.offset := None];
      e := if Count(blocks) > 0 then e.(blocks := blocks) else Entry(None, blocks, 1);
      tags := Put(tags, found.value.set_, found.value.way, e);
      return Some(found.value.(factor := e.factor));
    }

    method RestoreSnapshot(snapshot: Tags) returns (error: Option<SnapshotError>)
      requires Valid()
      modifies this
      ensures Valid()
      ensures tags == Restore(config, old(tags), snapshot)
      ensures error.None? <==> ValidTags(config, snapshot)
    {
      error := ValidateSnapshot(config, snapshot);
      if error.None? {
        tags := snapshot;
      }
    }
  }
}
