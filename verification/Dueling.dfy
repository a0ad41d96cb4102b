/** The set-dueling monitor: sampled entries vote for two competing teams, a saturating selector
counts the votes, and the winner changes only when the selector crosses a threshold. */
module Dueling {
  import opened Common

  datatype Team = False | True

  /** A ratio strictly between 0 and 1, compared by cross multiplication. */
  datatype RawRatio = Ratio(numerator: nat, denominator: nat)

  type Ratio = r: RawRatio | 0 < r.numerator < r.denominator witness RawRatio.Ratio(1, 2)

  predicate Below(r: Ratio, value: nat, max: nat) {
    value * r.denominator < r.numerator * max
  }

  predicate Above(left: Ratio, right: Ratio) {
    left.numerator * right.denominator > right.numerator * left.denominator
  }

  function SelectorMax(bits: nat): (m: nat) {
    Pow2(bits) - 1
  }

  datatype Config = Config(index: nat, constituency: nat, teamSize: nat, selectorBits: nat, low: Ratio, high: Ratio)

  function SaturatingDouble(x: nat): (y: nat) {
    Min(2 * x, USIZE_MAX)
  }

  /** What `DuelingMonitorConfig::new` accepts. */
  predicate Valid(c: Config) {
    && c.index < 64
    && 0 < c.teamSize <= USIZE_MAX
    && SaturatingDouble(c.teamSize) <= c.constituency <= USIZE_MAX
    && 1 <= c.selectorBits <= 63
    && !Above(c.low, c.high)
  }

  // ----- entries

  datatype Dueler = Dueler(sampleMask: bv64, teamMask: bv64)

  datatype DuelerError = InvalidMonitorId | DuplicateSample

  predicate IsSingleBit(id: bv64) {
    id != 0 && id & (id - 1) == 0
  }

  function SetSample(d: Dueler, id: bv64, team: Team): (r: Result<Dueler, DuelerError>) {
    if !IsSingleBit(id) then Err(InvalidMonitorId)
    else if d.sampleMask & id != 0 then Err(DuplicateSample)
    else
      Ok(Dueler(d.sampleMask | id, if team.True? then d.teamMask | id else d.teamMask & !id))
  }

  function SampleTeam(d: Dueler, id: bv64): (t: Option<Team>) {
    if d.sampleMask & id == 0 then None
    else if d.teamMask & id == 0 then Some(False)
    else Some(True)
  }

  /** The monitor's bit in the masks. */
  function MonitorId(c: Config): (id: bv64)
    requires Valid(c)
  {
    1 << c.index
  }

  lemma MonitorIdIsBit(c: Config)
    requires Valid(c)
    ensures IsSingleBit(MonitorId(c))
  {
  }

  /** A sample records its team for its own monitor. */
  lemma SampleRecorded(d: Dueler, id: bv64, team: Team)
    requires SetSample(d, id, team).Ok?
    ensures SampleTeam(d, id) == None
    ensures SampleTeam(SetSample(d, id, team).value, id) == Some(team)
  {
    var d' := SetSample(d, id, team).value;
    assert d'.sampleMask & id != 0 by {
      MaskUpdate(d.sampleMask, id);
    }
    assert (d'.teamMask & id != 0) == team.True? by {
      MaskUpdate(d.teamMask, id);
    }
  }

  lemma MaskUpdate(m: bv64, id: bv64)
    requires id != 0
    ensures (m | id) & id != 0
    ensures (m & !id) & id == 0
  {
  }

  // ----- the monitor

  datatype Monitor = Monitor(selector: nat, region: nat, winner: Team)

  function New(c: Config): (m: Monitor)
    requires Valid(c)
  {
    var selector := SelectorMax(c.selectorBits) / 2;
    Monitor(selector, 0, if Below(c.low, selector, SelectorMax(c.selectorBits)) then False else True)
  }

  /** One vote: the sampled entry belongs to `team`. */
  function Sample(c: Config, m: Monitor, team: Option<Team>): (m': Monitor)
    requires Valid(c)
  {
    var max := SelectorMax(c.selectorBits);
    match team
    case None => m
    case Some(True) =>
      var selector := Min(SaturatingNext(m.selector), max);
      m.(selector := selector, winner := if !Below(c.high, selector, max) then True else m.winner)
    case Some(False) =>
      var selector := if m.selector == 0 then 0 else m.selector - 1;
      m.(selector := selector, winner := if Below(c.low, selector, max) then False else m.winner)
  }

  /** The team the entry at position `region` of a constituency is dealt to. */
  function TeamAt(c: Config, region: nat): (t: Option<Team>)
    requires Valid(c)
  {
    if region < c.teamSize then Some(False)
    else if region >= c.constituency - c.teamSize then Some(True)
    else None
  }

  function NextRegion(c: Config, region: nat): (r: nat)
    requires Valid(c) && region < c.constituency
    ensures r < c.constituency
  {
    if region + 1 >= c.constituency then 0 else region + 1
  }

  // ----- hysteresis over every run

  /** Votes, entries initialised, and restores from the snapshot of any monitor with the same
  configuration (the only snapshots there are). */
  datatype Event = Vote(team: Option<Team>) | InitEntry | RestoreFrom(history: seq<Event>)

  function Run(c: Config, events: seq<Event>): (m: Monitor)
    requires Valid(c)
    ensures m.region < c.constituency
    decreases events
  {
    if events == [] then New(c)
    else
      var m := Run(c, events[..|events| - 1]);
      match events[|events| - 1]
      case Vote(team) => Sample(c, m, team)
      case InitEntry => m.(region := NextRegion(c, m.region))
      case RestoreFrom(history) => Run(c, history)
  }

  /** The winner lags the selector by the band between the thresholds. */
  predicate Hysteresis(c: Config, m: Monitor) {
    var max := SelectorMax(c.selectorBits);
    && m.selector <= max
    && (m.winner.True? ==> !Below(c.low, m.selector, max))
    && (m.winner.False? ==> Below(c.high, m.selector, max))
  }

  lemma SwapFactors(a: nat, b: nat, c: nat)
    ensures (a * b) * c == (a * c) * b
  {
  }

  lemma BelowLowIsBelowHigh(c: Config, value: nat, max: nat)
    requires Valid(c) && Below(c.low, value, max)
    ensures Below(c.high, value, max)
  {
    var (ln, ld, hn, hd) := (c.low.numerator, c.low.denominator, c.high.numerator, c.high.denominator);
    MulLess(value * ld, ln * max, hd);
    MulAtMost(ln * hd, hn * ld, max);
    SwapFactors(value, ld, hd);
    SwapFactors(ln, max, hd);
    SwapFactors(hn, ld, max);
    if value * hd >= hn * max {
      MulAtMost(hn * max, value * hd, ld);
    }
  }

  lemma BelowMonotone(r: Ratio, small: nat, large: nat, max: nat)
    requires small <= large && Below(r, large, max)
    ensures Below(r, small, max)
  {
    MulAtMost(small, large, r.denominator);
  }

  lemma SampleKeepsHysteresis(c: Config, m: Monitor, team: Option<Team>)
    requires Valid(c) && Hysteresis(c, m)
    ensures Hysteresis(c, Sample(c, m, team))
  {
    var max, m' := SelectorMax(c.selectorBits), Sample(c, m, team);
    if Below(c.low, m'.selector, max) {
      BelowLowIsBelowHigh(c, m'.selector, max);
      if m.selector <= m'.selector {
        BelowMonotone(c.low, m.selector, m'.selector, max);
      }
    }
    if m'.selector <= m.selector && Below(c.high, m.selector, max) {
      BelowMonotone(c.high, m'.selector, m.selector, max);
    }
  }

  lemma {:induction false} HysteresisHolds(c: Config, events: seq<Event>)
    requires Valid(c)
    ensures Hysteresis(c, Run(c, events))
    decreases events
  {
    var max := SelectorMax(c.selectorBits);
    if events == [] {
      if Below(c.low, max / 2, max) {
        BelowLowIsBelowHigh(c, max / 2, max);
      }
    } else {
      var n := |events| - 1;
      HysteresisHolds(c, events[..n]);
      match events[n]
      case Vote(team) => SampleKeepsHysteresis(c, Run(c, events[..n]), team);
      case InitEntry =>
      case RestoreFrom(history) => HysteresisHolds(c, history);
    }
  }

  // ----- a steady stream of votes wins

  function Votes(c: Config, m: Monitor, team: Team, n: nat): (m': Monitor)
    requires Valid(c)
  {
    if n == 0 then m else Sample(c, Votes(c, m, team, n - 1), Some(team))
  }

  lemma {:induction false} Pow2Grows(n: nat, m: nat)
    requires n <= m
    ensures Pow2(n) <= Pow2(m)
  {
    if n < m {
      Pow2Grows(n, m - 1);
    }
  }

  /** The selector never saturates as a machine word before it reaches its own maximum. */
  lemma SelectorFits(c: Config)
    requires Valid(c)
    ensures 1 <= SelectorMax(c.selectorBits) < U64_MAX
  {
    Pow2Grows(1, c.selectorBits);
    Pow2Grows(c.selectorBits, 63);
    Pow2Values();
  }

  /** Votes for one team move the selector by one each, to its end. */
  lemma {:induction false} VotesCount(c: Config, m: Monitor, team: Team, n: nat)
    requires Valid(c) && m.selector <= SelectorMax(c.selectorBits)
    ensures Votes(c, m, team, n).selector
         == if team.True? then Min(m.selector + n, SelectorMax(c.selectorBits)) else Max(m.selector - n, 0)
  {
    SelectorFits(c);
    if n > 0 {
      VotesCount(c, m, team, n - 1);
    }
  }

  /** A vote that brings the selector to its end decides. */
  lemma LastVoteWins(c: Config, m: Monitor, team: Team)
    requires Valid(c) && m.selector <= SelectorMax(c.selectorBits)
    requires if team.True? then m.selector + 1 >= SelectorMax(c.selectorBits) else m.selector <= 1
    ensures Sample(c, m, Some(team)).winner == team
  {
    var max := SelectorMax(c.selectorBits);
    SelectorFits(c);
    if team.True? {
      MulAtMost(c.high.numerator, c.high.denominator, max);
    } else {
      MulLess(0, c.low.numerator, max);
    }
  }

  /** However far behind, a team that gets every vote wins within as many votes as the selector has
  steps. */
  lemma UnanimousVotesWin(c: Config, m: Monitor, team: Team, n: nat)
    requires Valid(c) && Hysteresis(c, m) && n >= SelectorMax(c.selectorBits)
    ensures Votes(c, m, team, n).winner == team
  {
    SelectorFits(c);
    VotesCount(c, m, team, n - 1);
    LastVoteWins(c, Votes(c, m, team, n - 1), team);
  }

  // ----- the winner is the last threshold crossed

  /** The votes that count after a run: a restore goes back to the votes of its snapshot. */
  function VotesOf(events: seq<Event>): (votes: seq<Team>)
    decreases events
  {
    if events == [] then []
    else
      var votes := VotesOf(events[..|events| - 1]);
      match events[|events| - 1]
      case Vote(Some(team)) => votes + [team]
      case RestoreFrom(history) => VotesOf(history)
      case _ => votes
  }

  /** The entries dealt, counted the same way. */
  function DealtBy(events: seq<Event>): (n: nat)
    decreases events
  {
    if events == [] then 0
    else
      match events[|events| - 1]
      case Vote(_) => DealtBy(events[..|events| - 1])
      case InitEntry => DealtBy(events[..|events| - 1]) + 1
      case RestoreFrom(history) => DealtBy(history)
  }

  /** The selector as a walk from the middle of its range: a step up for each vote for `True`, a step
  down for each vote for `False`, stopped at the ends. */
  function Position(bits: nat, votes: seq<Team>): (p: int)
    requires bits >= 1
    ensures 0 <= p < Pow2(bits)
  {
    if votes == [] then Pow2(bits - 1) - 1
    else
      var p := Position(bits, votes[..|votes| - 1]);
      if votes[|votes| - 1].True? then Min(p + 1, Pow2(bits) - 1) else Max(p - 1, 0)
  }

  function Fraction(numerator: nat, denominator: nat): (f: real)
    requires denominator > 0
  {
    numerator as real / denominator as real
  }

  /** The team in whose region, outside the band between the thresholds, a position lies. */
  function Region(c: Config, p: nat): (team: Option<Team>)
    requires c.selectorBits >= 1
  {
    var part := Fraction(p, Top(c.selectorBits));
    if part < Fraction(c.low.numerator, c.low.denominator) then Some(False)
    else if part >= Fraction(c.high.numerator, c.high.denominator) then Some(True)
    else None
  }

  function Top(bits: nat): (top: nat)
    requires bits >= 1
    ensures top > 0
  {
    Pow2(bits) - 1
  }

  lemma FractionLess(a: nat, b: nat, c: nat, d: nat)
    requires b > 0 && d > 0
    ensures Fraction(a, b) < Fraction(c, d) <==> a * d < c * b
  {
    var x, y, z, w := a as real, b as real, c as real, d as real;
    CrossMultiply(x, y, z, w);
    assert x * w == (a * d) as real && z * y == (c * b) as real;
  }

  lemma CrossMultiply(x: real, y: real, z: real, w: real)
    requires y > 0.0 && w > 0.0
    ensures x / y < z / w <==> x * w < z * y
  {
    var p, q := x / y, z / w;
    assert p * y == x && q * w == z;
    assert x * w == p * (y * w) && z * y == q * (y * w);
    assert y * w > 0.0;
    if p < q {
      assert (q - p) * (y * w) > 0.0;
    } else {
      assert (p - q) * (y * w) >= 0.0;
    }
  }

  /** The tests by cross multiplication tell the regions. */
  lemma RegionIs(c: Config, p: nat)
    requires Valid(c)
    ensures Region(c, p) ==
      var max := SelectorMax(c.selectorBits);
      if Below(c.low, p, max) then Some(False) else if Below(c.high, p, max) then None else Some(True)
  {
    var max := SelectorMax(c.selectorBits);
    FractionLess(p, max, c.low.numerator, c.low.denominator);
    FractionLess(p, max, c.high.numerator, c.high.denominator);
  }

  /** A vote changes the winner only by taking the selector into the other team's region: in the band
  between the thresholds the winner stays. */
  lemma BandKeepsWinner(c: Config, m: Monitor, team: Option<Team>)
    requires Valid(c)
    ensures
      var m' := Sample(c, m, team);
      m'.winner != m.winner ==> team == Some(m'.winner) && Region(c, m'.selector) == Some(m'.winner)
  {
    var m' := Sample(c, m, team);
    RegionIs(c, m'.selector);
    if Below(c.low, m'.selector, SelectorMax(c.selectorBits)) {
      BelowLowIsBelowHigh(c, m'.selector, SelectorMax(c.selectorBits));
    }
  }

  /** After the `k`th vote the selector was in a team's region, and in none since. */
  predicate LeftLast(c: Config, votes: seq<Team>, k: nat)
    requires c.selectorBits >= 1
  {
    && k <= |votes| && Region(c, Position(c.selectorBits, votes[..k])).Some?
    && forall j :: k < j <= |votes| ==> Region(c, Position(c.selectorBits, votes[..j])).None?
  }

  predicate NeverLeft(c: Config, votes: seq<Team>)
    requires c.selectorBits >= 1
  {
    forall j :: 0 <= j <= |votes| ==> Region(c, Position(c.selectorBits, votes[..j])).None?
  }

  /** The team whose region the selector was in last, or `True` when it has stayed in the band. */
  ghost predicate Champion(c: Config, votes: seq<Team>, team: Team)
    requires c.selectorBits >= 1
  {
    && (forall k: nat :: LeftLast(c, votes, k) ==> Region(c, Position(c.selectorBits, votes[..k])) == Some(team))
    && (NeverLeft(c, votes) ==> team == True)
  }

  lemma ChampionNext(c: Config, votes: seq<Team>, vote: Team, was: Team, is_: Team)
    requires Valid(c) && Champion(c, votes, was)
    requires
      var region := Region(c, Position(c.selectorBits, votes + [vote]));
      is_ == if region.Some? then region.value else was
    ensures Champion(c, votes + [vote], is_)
  {
    var votes' := votes + [vote];
    assert votes'[..|votes'|] == votes';
    assert forall j :: 0 <= j <= |votes| ==> votes'[..j] == votes[..j];
    forall k: nat | LeftLast(c, votes', k)
      ensures Region(c, Position(c.selectorBits, votes'[..k])) == Some(is_)
    {
      if k < |votes'| {
        assert Region(c, Position(c.selectorBits, votes'[..|votes'|])).None?;
        assert forall j :: k < j <= |votes| ==> Region(c, Position(c.selectorBits, votes'[..j])).None?;
        assert LeftLast(c, votes, k);
      }
    }
    if NeverLeft(c, votes') {
      assert Region(c, Position(c.selectorBits, votes'[..|votes'|])).None?;
      forall j | 0 <= j <= |votes|
        ensures Region(c, Position(c.selectorBits, votes[..j])).None?
      {
        assert votes'[..j] == votes[..j];
      }
    }
  }

  /** One vote: a step of the walk, and the winner of the region it leads to. */
  lemma SampleIs(c: Config, m: Monitor, team: Team)
    requires Valid(c) && Hysteresis(c, m)
    ensures
      var m' := Sample(c, m, Some(team));
      var region := Region(c, m'.selector);
      && m'.selector == (if team.True? then Min(m.selector + 1, Top(c.selectorBits)) else Max(m.selector - 1, 0))
      && m'.winner == (if region.Some? then region.value else m.winner) && m'.region == m.region
  {
    var m' := Sample(c, m, Some(team));
    SelectorFits(c);
    RegionIs(c, m'.selector);
    SampleKeepsHysteresis(c, m, Some(team));
    BandKeepsWinner(c, m, Some(team));
    if Below(c.low, m'.selector, SelectorMax(c.selectorBits)) {
      BelowLowIsBelowHigh(c, m'.selector, SelectorMax(c.selectorBits));
    }
  }

  lemma NewIsChampion(c: Config)
    requires Valid(c)
    ensures New(c).selector == Position(c.selectorBits, []) && Champion(c, [], New(c).winner)
  {
    var votes: seq<Team> := [];
    RegionIs(c, New(c).selector);
    assert votes[..0] == votes;
    assert SelectorMax(c.selectorBits) == 2 * Pow2(c.selectorBits - 1) - 1;
    HysteresisHolds(c, []);
    if NeverLeft(c, votes) {
      assert Region(c, Position(c.selectorBits, votes[..0])).None?;
    }
  }

  /** The monitor as the votes and deals that count leave it. */
  ghost predicate Stands(c: Config, m: Monitor, votes: seq<Team>, dealt: nat)
    requires Valid(c)
  {
    && m.selector == Position(c.selectorBits, votes) && Champion(c, votes, m.winner)
    && m.region == dealt % c.constituency
  }

  lemma VoteStands(c: Config, m: Monitor, votes: seq<Team>, dealt: nat, team: Team)
    requires Valid(c) && Hysteresis(c, m) && Stands(c, m, votes, dealt)
    ensures Stands(c, Sample(c, m, Some(team)), votes + [team], dealt)
  {
    SampleIs(c, m, team);
    assert (votes + [team])[..|votes|] == votes;
    ChampionNext(c, votes, team, m.winner, Sample(c, m, Some(team)).winner);
  }

  lemma NewStands(c: Config)
    requires Valid(c)
    ensures Stands(c, New(c), [], 0)
  {
    NewIsChampion(c);
  }

  /** Over every run the selector is the walk of the votes that count, and the winner is the team whose
  region the walk was in last, or the initial one when it never left the band. The next entry's
  place counts the entries dealt, round the constituency. */
  lemma {:induction false} WinnerIsChampion(c: Config, events: seq<Event>)
    requires Valid(c)
    ensures Stands(c, Run(c, events), VotesOf(events), DealtBy(events))
    decreases events
  {
    if events == [] {
      NewStands(c);
    } else {
      var n := |events| - 1;
      WinnerIsChampion(c, events[..n]);
      match events[n]
      case Vote(Some(team)) =>
        HysteresisHolds(c, events[..n]);
        VoteStands(c, Run(c, events[..n]), VotesOf(events[..n]), DealtBy(events[..n]), team);
      case Vote(None) =>
      case InitEntry =>
        NextModulo(DealtBy(events[..n]), c.constituency);
      case RestoreFrom(history) => WinnerIsChampion(c, history);
    }
  }

  lemma NextModulo(n: nat, m: nat)
    requires m > 0
    ensures (n + 1) % m == if n % m + 1 >= m then 0 else n % m + 1
  {
    if n % m + 1 >= m {
      ModUnique(n + 1, m, n / m + 1, 0);
    } else {
      ModUnique(n + 1, m, n / m, n % m + 1);
    }
  }

  // ----- constituencies are fair

  /** Teams of `n` consecutive fresh entries, the first at position `region`. */
  function Deal(c: Config, region: nat, n: nat): (teams: seq<Option<Team>>)
    requires Valid(c) && region < c.constituency
    ensures |teams| == n
    decreases n
  {
    if n == 0 then [] else [TeamAt(c, region)] + Deal(c, NextRegion(c, region), n - 1)
  }

  function Count(teams: seq<Option<Team>>, team: Team): (k: nat) {
    if teams == [] then 0 else Count(teams[..|teams| - 1], team) + (if teams[|teams| - 1] == Some(team) then 1 else 0)
  }

  lemma {:induction false} CountSplit(a: seq<Option<Team>>, b: seq<Option<Team>>, team: Team)
    ensures Count(a + b, team) == Count(a, team) + Count(b, team)
  {
    if b == [] {
      assert a + b == a;
    } else {
      var n := |b| - 1;
      assert (a + b)[..|a| + n] == a + b[..n];
      CountSplit(a, b[..n], team);
    }
  }

  lemma {:induction false} DealSplit(c: Config, region: nat, n: nat, m: nat)
    requires Valid(c) && region + n <= c.constituency && region < c.constituency
    ensures Deal(c, region, n + m)
         == Deal(c, region, n) + Deal(c, if region + n == c.constituency then 0 else region + n, m)
    decreases n
  {
    if n != 0 {
      if region + 1 < c.constituency {
        DealSplit(c, region + 1, n - 1, m);
      }
    }
  }

  lemma {:induction false} CountFromStart(c: Config, n: nat)
    requires Valid(c) && n <= c.constituency
    ensures Count(Deal(c, 0, n), False) == Min(n, c.teamSize)
    ensures Count(Deal(c, 0, n), True) == Max(0, n - Max(c.teamSize, c.constituency - c.teamSize))
  {
    if n != 0 {
      CountFromStart(c, n - 1);
      DealSplit(c, 0, n - 1, 1);
      assert Deal(c, n - 1, 1) == [TeamAt(c, n - 1)];
      CountSplit(Deal(c, 0, n - 1), [TeamAt(c, n - 1)], False);
      CountSplit(Deal(c, 0, n - 1), [TeamAt(c, n - 1)], True);
      assert [TeamAt(c, n - 1)][..0] == [];
    }
  }

  /** Any `constituency` consecutive fresh entries, wherever they start, hold `teamSize` samples
  of the first team; they hold as many of the second exactly when two teams fit. The
  configuration check doubles the team size with saturation, so it can pass when they do not. */
  lemma ConstituencyIsFair(c: Config, region: nat)
    requires Valid(c) && region < c.constituency
    ensures Count(Deal(c, region, c.constituency), False) == c.teamSize
    ensures Count(Deal(c, region, c.constituency), True) == c.teamSize <==> 2 * c.teamSize <= c.constituency
  {
    CountFromStart(c, c.constituency);
    CountRotates(c, region, False);
    CountRotates(c, region, True);
  }

  /** A full round deals the same numbers from every place. */
  lemma CountRotates(c: Config, region: nat, team: Team)
    requires Valid(c) && region < c.constituency
    ensures Count(Deal(c, region, c.constituency), team) == Count(Deal(c, 0, c.constituency), team)
  {
    var rest := c.constituency - region;
    if region != 0 {
      DealSplit(c, region, rest, region);
      DealSplit(c, 0, region, rest);
      CountSplit(Deal(c, region, rest), Deal(c, 0, region), team);
      CountSplit(Deal(c, 0, region), Deal(c, region, rest), team);
    }
  }

  /** The first team samples the start of a constituency, and when two teams fit the second samples its
  end, mirrored. */
  lemma TeamsMirror(c: Config, region: nat, earlier: nat)
    requires Valid(c) && earlier <= region < c.constituency
    ensures TeamAt(c, region) == Some(False) ==> TeamAt(c, earlier) == Some(False)
    ensures 2 * c.teamSize <= c.constituency ==>
      (TeamAt(c, region) == Some(True) <==> TeamAt(c, c.constituency - 1 - region) == Some(False))
  {
  }

  lemma UnfairConfigurationAccepted()
    ensures exists c: Config :: Valid(c) && !(2 * c.teamSize <= c.constituency)
  {
    var half: Ratio := RawRatio.Ratio(1, 2);
    var c := Config(0, USIZE_MAX, USIZE_MAX, 1, half, half);
    assert Valid(c) && !(2 * c.teamSize <= c.constituency);
  }

  // ----- the monitor as the program updates it

  class DuelingMonitor {
    const config: Config
    const id: bv64
    var selector: nat
    var regionCounter: nat
    var winner: Team

    ghost predicate Wf()
      reads this
    {
      Valid(config) && IsSingleBit(id) && regionCounter < config.constituency
    }

    function State(): (m: Monitor)
      reads this
    {
      Monitor(selector, regionCounter, winner)
    }

    constructor (c: Config)
      requires Valid(c)
      ensures Wf() && config == c && id == MonitorId(c) && State() == New(c)
    {
      MonitorIdIsBit(c);
      config := c;
      id := MonitorId(c);
      var max := SelectorMax(c.selectorBits);
      selector := max / 2;
      regionCounter := 0;
      winner := if Below(c.low, max / 2, max) then False else True;
    }

    method SampleEntry(d: Dueler)
      requires Wf()
      modifies this
      ensures Wf() && State() == Sample(config, old(State()), SampleTeam(d, id))
    {
      var max := SelectorMax(config.selectorBits);
      match SampleTeam(d, id)
      case Some(True) =>
        selector := Min(SaturatingNext(selector), max);
        if !Below(config.high, selector, max) {
          winner := True;
        }
      case Some(False) =>
        selector := if selector == 0 then 0 else selector - 1;
        if Below(config.low, selector, max) {
          winner := False;
        }
      case None =>
    }

    /** Deals a fresh entry; an entry already sampled by this monitor is refused unchanged. */
    method InitEntry(d: Dueler) returns (r: Result<Dueler, DuelerError>)
      requires Wf()
      modifies this
      ensures Wf() && selector == old(selector) && winner == old(winner)
      ensures r.Err? <==> TeamAt(config, old(regionCounter)).Some? && SampleTeam(d, id).Some?
      ensures r.Err? ==> regionCounter == old(regionCounter)
      ensures r.Ok? ==> regionCounter == NextRegion(config, old(regionCounter))
      ensures r.Ok? ==>
        var dealt := TeamAt(config, old(regionCounter));
        SampleTeam(r.value, id) == (if dealt.Some? then dealt else SampleTeam(d, id))
    {
      r := Ok(d);
      if regionCounter < config.teamSize {
        r := SetSample(d, id, False);
      } else if regionCounter >= config.constituency - config.teamSize {
        r := SetSample(d, id, True);
      }
      if r.Err? {
        return;
      }
      if TeamAt(config, regionCounter).Some? {
        SampleRecorded(d, id, TeamAt(config, regionCounter).value);
      }
      regionCounter := regionCounter + 1;
      if regionCounter >= config.constituency {
        regionCounter := 0;
      }
    }
  }
}
