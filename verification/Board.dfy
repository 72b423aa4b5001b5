/** The ranked scoreboard: freeze, bracket, deduction, two-key stable sort, ranks. */
module Board {
  import opened Prelude
  import opened Ledger
  import opened Scoreboard
  import opened Solve
  import opened Hints
  import opened Runs
  import opened StableSorting

  datatype Entry = Entry(
    teamId: string,
    teamName: string,
    points: int,
    lastSolveTime: Option<int>,
    solves: seq<string>,
    rank: nat)

  datatype Comparison = Less | Equal | Greater

  function Compare(a: real, b: real): Comparison {
    if a < b then Less else if a == b then Equal else Greater
  }

  function Then(first: Comparison, second: Comparison): Comparison {
    if first == Equal then second else first
  }

  /** Earlier last solves first, teams without one last. */
  function CompareTimes(a: Option<int>, b: Option<int>): Comparison {
    match (a, b)
    case (Some(t), Some(u)) => Compare(t as real, u as real)
    case (Some(_), None) => Less
    case (None, Some(_)) => Greater
    case (None, None) => Equal
  }

  function CorrectOnes(): Submission -> bool {
    (s: Submission) => s.isCorrect
  }

  function Accuracy(subs: seq<Submission>, teamId: string): real {
    var own := Filter(subs, ByTeam(teamId));
    if own == [] then 1.0 else |Filter(own, CorrectOnes())| as real / |own| as real
  }

  function CompareByTime(a: Entry, b: Entry): Comparison {
    Then(Compare(b.points as real, a.points as real), CompareTimes(a.lastSolveTime, b.lastSolveTime))
  }

  function CompareByAccuracy(subs: seq<Submission>, a: Entry, b: Entry): Comparison {
    Then(Compare(b.points as real, a.points as real), Compare(Accuracy(subs, b.teamId), Accuracy(subs, a.teamId)))
  }

  function Comparator(byAccuracy: bool, subs: seq<Submission>, a: Entry, b: Entry): Comparison {
    if byAccuracy then CompareByAccuracy(subs, a, b) else CompareByTime(a, b)
  }

  function BoardOrder(byAccuracy: bool, subs: seq<Submission>): Order<Entry> {
    (a: Entry, b: Entry) => Comparator(byAccuracy, subs, a, b) != Greater
  }

  function SubmittedBefore(freeze: int): Submission -> bool {
    (s: Submission) => s.submittedAt < freeze
  }

  function UnlockedBefore(freeze: int): HintUnlock -> bool {
    (u: HintUnlock) => u.unlockedAt < freeze
  }

  function Frozen(st: State, freeze: Option<int>): State {
    if freeze.None? then st
    else State(Filter(st.subs, SubmittedBefore(freeze.value)), Filter(st.unlocks, UnlockedBefore(freeze.value)))
  }

  function InBracket(bracket: string): Team -> bool {
    (t: Team) => t.bracket == bracket
  }

  function TeamsOf(w: World, bracket: Option<string>): seq<Team> {
    if bracket.Some? then Filter(w.teams, InBracket(bracket.value)) else w.teams
  }

  function EntryFor(w: World, st: State, team: Team): Entry {
    var score := TeamSolveScore(w.oracle, team, w.challenges, st.subs, SolveCounts(st.subs));
    Entry(team.id, team.name,
          ApplyHintDeduction(score.points, SpentPoints(st.unlocks, team.id), w.deduction),
          score.lastSolveTime, score.solvedIds, 0)
  }

  function EntriesFor(w: World, st: State, teams: seq<Team>): seq<Entry> {
    seq(|teams|, i requires 0 <= i < |teams| => EntryFor(w, st, teams[i]))
  }

  function Ranked(entries: seq<Entry>): seq<Entry> {
    seq(|entries|, i requires 0 <= i < |entries| => entries[i].(rank := i + 1))
  }

  function SortedEntries(w: World, st: State, teams: seq<Team>, byAccuracy: bool): seq<Entry> {
    StableSort(EntriesFor(w, st, teams), BoardOrder(byAccuracy, st.subs))
  }

  function GetBoard(w: World, st: State, bracket: Option<string>, byAccuracy: bool, freeze: Option<int>): seq<Entry> {
    Ranked(SortedEntries(w, Frozen(st, freeze), TeamsOf(w, bracket), byAccuracy))
  }

  method GetScoreboard(store: Store, w: World, bracket: Option<string>, byAccuracy: bool, freeze: Option<int>)
    returns (entries: seq<Entry>)
    ensures entries == GetBoard(w, State(store.submissions, store.hintUnlocks), bracket, byAccuracy, freeze)
  {
    var teams := w.teams;
    if bracket.Some? {
      teams := Filter(teams, InBracket(bracket.value));
    }
    var submissions, hintUnlocks := store.submissions, store.hintUnlocks;
    if freeze.Some? {
      submissions := Filter(submissions, SubmittedBefore(freeze.value));
      hintUnlocks := Filter(hintUnlocks, UnlockedBefore(freeze.value));
    }
    ghost var st := State(submissions, hintUnlocks);
    var challengeSolvers := BuildChallengeSolvers(submissions);
    entries := [];
    for i := 0 to |teams|
      invariant |entries| == i
      invariant forall j :: 0 <= j < i ==> entries[j] == EntryFor(w, st, teams[j])
    {
      var team := teams[i];
      var score := ComputeTeamSolveScore(w.oracle, team, w.challenges, submissions, challengeSolvers);
      var spent := TotalHintCost(hintUnlocks, Some(team.id), None);
      var points := ApplyHintDeduction(score.points, spent, w.deduction);
      entries := entries + [Entry(team.id, team.name, points, score.lastSolveTime, score.solvedIds, 0)];
    }
    assert entries == EntriesFor(w, st, teams);
    entries := StableSort(entries, BoardOrder(byAccuracy, submissions));
    ghost var sorted := entries;
    for i := 0 to |entries|
      invariant |entries| == |sorted|
      invariant forall j :: 0 <= j < |entries| ==> entries[j] == if j < i then sorted[j].(rank := j + 1) else sorted[j]
    {
      entries := entries[i := entries[i].(rank := i + 1)];
    }
    assert entries == Ranked(sorted);
  }

  /** Both comparators are total preorders, and swapping the arguments swaps the verdict. */
  lemma ComparatorsAreTotalPreorders(byAccuracy: bool, subs: seq<Submission>)
    ensures TotalPreorder(BoardOrder(byAccuracy, subs))
    ensures forall a, b ::
      Comparator(byAccuracy, subs, a, b) == Less <==> Comparator(byAccuracy, subs, b, a) == Greater
  {
  }

  /** A team's correct submissions, and all of them; without any, it counts as one in one. */
  function Tally(subs: seq<Submission>, teamId: string): (nat, nat) {
    var all := set i | 0 <= i < |subs| && subs[i].teamId == Some(teamId);
    var correct := set i | i in all && 0 <= i < |subs| && subs[i].isCorrect;
    if all == {} then (1, 1) else (|correct|, |all|)
  }

  /** Correct submissions per submission, compared without a quotient. */
  predicate AtLeastAsAccurate(subs: seq<Submission>, a: string, b: string) {
    Tally(subs, a).0 * Tally(subs, b).1 >= Tally(subs, b).0 * Tally(subs, a).1
  }

  function CorrectBy(teamId: string): Submission -> bool {
    (s: Submission) => s.teamId == Some(teamId) && s.isCorrect
  }

  lemma AccuracyOfTally(subs: seq<Submission>, teamId: string)
    ensures Tally(subs, teamId).1 > 0
    ensures Accuracy(subs, teamId) == Tally(subs, teamId).0 as real / Tally(subs, teamId).1 as real
  {
    var all := set i | 0 <= i < |subs| && subs[i].teamId == Some(teamId);
    var correct := set i | i in all && 0 <= i < |subs| && subs[i].isCorrect;
    FilterTwice(subs, ByTeam(teamId), CorrectOnes(), CorrectBy(teamId));
    FilterCounts(subs, ByTeam(teamId));
    FilterCounts(subs, CorrectBy(teamId));
    assert PlacesOf(subs, ByTeam(teamId)) == all && PlacesOf(subs, CorrectBy(teamId)) == correct;
  }

  lemma CompareQuotients(a: nat, b: nat, c: nat, d: nat)
    requires b > 0 && d > 0
    ensures a as real / b as real >= c as real / d as real <==> a * d >= c * b
  {
    var x, y := a as real / b as real, c as real / d as real;
    assert x * b as real == a as real && y * d as real == c as real;
    var bd := b as real * d as real;
    assert x * bd == a as real * d as real && y * bd == c as real * b as real;
    assert bd > 0.0;
    if x >= y {
      assert x * bd >= y * bd;
    } else {
      assert x * bd < y * bd;
    }
  }

  lemma AccuracyExactly(subs: seq<Submission>, a: string, b: string)
    ensures Accuracy(subs, a) >= Accuracy(subs, b) <==> AtLeastAsAccurate(subs, a, b)
  {
    AccuracyOfTally(subs, a);
    AccuracyOfTally(subs, b);
    CompareQuotients(Tally(subs, a).0, Tally(subs, a).1, Tally(subs, b).0, Tally(subs, b).1);
  }

  /** What the ranking means: more points first; among equals the earlier last solve
      (with none at all last), or the better accuracy. */
  ghost predicate Outranks(byAccuracy: bool, subs: seq<Submission>, a: Entry, b: Entry) {
    a.points > b.points
    || (a.points == b.points
        && if byAccuracy then AtLeastAsAccurate(subs, a.teamId, b.teamId)
           else b.lastSolveTime.None?
                || (a.lastSolveTime.Some? && a.lastSolveTime.value <= b.lastSolveTime.value))
  }

  lemma {:induction false} InsertKeepsCount(x: Entry, ys: seq<Entry>, le: Order<Entry>)
    ensures multiset(Insert(x, ys, le)) == multiset(ys) + multiset{x}
  {
    if ys != [] && !le(x, ys[0]) {
      InsertKeepsCount(x, ys[1..], le);
      assert ys == [ys[0]] + ys[1..];
    }
  }

  lemma {:induction false} SortKeepsCount(xs: seq<Entry>, le: Order<Entry>)
    ensures multiset(StableSort(xs, le)) == multiset(xs)
  {
    if xs == [] {
    } else {
      SortKeepsCount(xs[1..], le);
      InsertKeepsCount(xs[0], StableSort(xs[1..], le), le);
      assert xs == [xs[0]] + xs[1..];
    }
  }

  lemma SortedByRank(byAccuracy: bool, subs: seq<Submission>, unsorted: seq<Entry>)
    ensures var entries := StableSort(unsorted, BoardOrder(byAccuracy, subs));
      && multiset(entries) == multiset(unsorted)
      && (forall i, j :: 0 <= i < j < |entries| ==> Outranks(byAccuracy, subs, entries[i], entries[j]))
  {
    var le := BoardOrder(byAccuracy, subs);
    var entries := StableSort(unsorted, le);
    ComparatorsAreTotalPreorders(byAccuracy, subs);
    SortSorted(unsorted, le);
    SortKeepsCount(unsorted, le);
    forall i, j | 0 <= i < j < |entries|
      ensures Outranks(byAccuracy, subs, entries[i], entries[j])
    {
      assert le(entries[i], entries[j]);
      AccuracyExactly(subs, entries[i].teamId, entries[j].teamId);
    }
  }

  /** The board is one entry per team, in ranking order, numbered from 1. */
  lemma BoardIsRanked(w: World, st: State, bracket: Option<string>, byAccuracy: bool, freeze: Option<int>)
    ensures var board := GetBoard(w, st, bracket, byAccuracy, freeze);
      var seen := Frozen(st, freeze);
      var entries := SortedEntries(w, seen, TeamsOf(w, bracket), byAccuracy);
      && |board| == |entries| && (forall i :: 0 <= i < |board| ==> board[i] == entries[i].(rank := i + 1))
      && multiset(entries) == multiset(EntriesFor(w, seen, TeamsOf(w, bracket)))
      && (forall i, j :: 0 <= i < j < |board| ==> Outranks(byAccuracy, seen.subs, board[i], board[j]))
  {
    var seen := Frozen(st, freeze);
    SortedByRank(byAccuracy, seen.subs, EntriesFor(w, seen, TeamsOf(w, bracket)));
  }

  /** The team of an entry is in the bracket. */
  function EntryInBracket(w: World, bracket: string): Entry -> bool {
    (e: Entry) => var t := FindTeam(w.teams, e.teamId); t.Some? && t.value.bracket == bracket
  }

  lemma EntriesSnoc(w: World, st: State, teams: seq<Team>, team: Team)
    ensures EntriesFor(w, st, teams + [team]) == EntriesFor(w, st, teams) + [EntryFor(w, st, team)]
  {
  }

  lemma EntryOfBracket(w: World, st: State, teams: seq<Team>, kept: seq<Team>, team: Team, bracket: string)
    requires FindTeam(w.teams, team.id) == Some(team)
    requires EntriesFor(w, st, kept) == Filter(EntriesFor(w, st, teams), EntryInBracket(w, bracket))
    ensures EntriesFor(w, st, if InBracket(bracket)(team) then kept + [team] else kept)
         == Filter(EntriesFor(w, st, teams + [team]), EntryInBracket(w, bracket))
  {
    EntriesSnoc(w, st, teams, team);
    EntriesSnoc(w, st, kept, team);
    FilterSnoc(EntriesFor(w, st, teams), EntryFor(w, st, team), EntryInBracket(w, bracket));
  }

  lemma {:induction false} EntriesOfBracket(w: World, st: State, teams: seq<Team>, bracket: string)
    requires forall t :: t in teams ==> FindTeam(w.teams, t.id) == Some(t)
    ensures EntriesFor(w, st, Filter(teams, InBracket(bracket)))
         == Filter(EntriesFor(w, st, teams), EntryInBracket(w, bracket))
  {
    if teams == [] {
    } else {
      var n := |teams| - 1;
      var team := teams[n];
      EntriesOfBracket(w, st, teams[..n], bracket);
      assert teams == teams[..n] + [team] && team in teams;
      EntryOfBracket(w, st, teams[..n], Filter(teams[..n], InBracket(bracket)), team, bracket);
    }
  }

  ghost predicate SameButRank(a: seq<Entry>, b: seq<Entry>) {
    |a| == |b| && forall i :: 0 <= i < |a| ==> a[i].(rank := 0) == b[i].(rank := 0)
  }

  lemma {:induction false} FilterIgnoresRank(keep: Entry -> bool, a: seq<Entry>, b: seq<Entry>)
    requires SameButRank(a, b) && forall i :: 0 <= i < |a| ==> keep(a[i]) == keep(b[i])
    ensures SameButRank(Filter(a, keep), Filter(b, keep))
  {
    if a == [] {
    } else {
      var n := |a| - 1;
      FilterIgnoresRank(keep, a[..n], b[..n]);
      if keep(a[n]) {
        SameButRankSnoc(Filter(a[..n], keep), a[n], Filter(b[..n], keep), b[n]);
      }
    }
  }

  lemma SameButRankSnoc(a: seq<Entry>, x: Entry, b: seq<Entry>, y: Entry)
    requires SameButRank(a, b) && x.(rank := 0) == y.(rank := 0)
    ensures SameButRank(a + [x], b + [y])
  {
  }

  lemma RanksAreRewritten(a: seq<Entry>, b: seq<Entry>)
    requires SameButRank(a, b)
    ensures Ranked(a) == Ranked(b)
  {
    forall i | 0 <= i < |a|
      ensures a[i].(rank := i + 1) == b[i].(rank := i + 1)
    {
      assert a[i].(rank := 0).(rank := i + 1) == b[i].(rank := 0).(rank := i + 1);
    }
  }

  lemma RankingIgnored(keep: Entry -> bool, full: seq<Entry>, ranked: seq<Entry>)
    requires SameButRank(full, ranked) && forall i :: 0 <= i < |full| ==> keep(full[i]) == keep(ranked[i])
    ensures Ranked(Filter(full, keep)) == Ranked(Filter(ranked, keep))
  {
    FilterIgnoresRank(keep, full, ranked);
    RanksAreRewritten(Filter(full, keep), Filter(ranked, keep));
  }

  /** The board of a bracket is the full board restricted to that bracket: the same
      entries with the same points in the same order, only re-ranked from 1. */
  lemma BracketBoardIsFilteredBoard(w: World, st: State, bracket: string, byAccuracy: bool, freeze: Option<int>)
    requires UniqueIds(w)
    ensures GetBoard(w, st, Some(bracket), byAccuracy, freeze)
         == Ranked(Filter(GetBoard(w, st, None, byAccuracy, freeze), EntryInBracket(w, bracket)))
  {
    var seen := Frozen(st, freeze);
    forall t | t in w.teams
      ensures FindTeam(w.teams, t.id) == Some(t)
    {
      var i :| 0 <= i < |w.teams| && w.teams[i] == t;
      FindTeamByIndex(w.teams, i);
    }
    EntriesOfBracket(w, seen, w.teams, bracket);
    ComparatorsAreTotalPreorders(byAccuracy, seen.subs);
    var full := SortedEntries(w, seen, w.teams, byAccuracy);
    assert SortedEntries(w, seen, TeamsOf(w, Some(bracket)), byAccuracy)
        == Filter(full, EntryInBracket(w, bracket)) by {
      SortCommutesWithFilter(
        EntriesFor(w, seen, w.teams), EntryInBracket(w, bracket), BoardOrder(byAccuracy, seen.subs));
    }
    RankingIgnored(EntryInBracket(w, bracket), full, Ranked(full));
  }

  // Freeze.

  function Clock(step: Step): int {
    match step
    case Submit(r) => r.now
    case Unlock(r) => r.now
  }

  /** The first `k` steps happen before the freeze and the rest do not. */
  ghost predicate FreezesAt(steps: seq<Step>, freeze: int, k: nat) {
    k <= |steps| && forall i :: 0 <= i < |steps| ==> (Clock(steps[i]) < freeze <==> i < k)
  }

  /** With a monotone clock every run splits at the freeze. */
  lemma {:induction false} MonotoneClockSplits(steps: seq<Step>, freeze: int) returns (k: nat)
    requires forall i, j :: 0 <= i < j < |steps| ==> Clock(steps[i]) <= Clock(steps[j])
    ensures FreezesAt(steps, freeze, k)
  {
    k := |steps|;
    if steps != [] && Clock(steps[k - 1]) >= freeze {
      k := MonotoneClockSplits(steps[..|steps| - 1], freeze);
      forall i | 0 <= i < |steps| - 1
        ensures Clock(steps[i]) < freeze <==> i < k
      {
        assert steps[i] == steps[..|steps| - 1][i];
      }
    }
  }

  lemma FreezesBefore(steps: seq<Step>, freeze: int, k: nat)
    requires FreezesAt(steps, freeze, k) && steps != []
    ensures var n := |steps| - 1; FreezesAt(steps[..n], freeze, if k <= n then k else n)
  {
    forall i | 0 <= i < |steps| - 1
      ensures steps[..|steps| - 1][i] == steps[i]
    {
    }
  }

  lemma {:induction false} FrozenLogsArePrefixes(w: World, steps: seq<Step>, freeze: int, k: nat)
    requires FreezesAt(steps, freeze, k)
    ensures Frozen(Run(w, steps), Some(freeze)) == Run(w, steps[..k])
  {
    if steps == [] {
    } else {
      var n := |steps| - 1;
      FreezesBefore(steps, freeze, k);
      FrozenLogsArePrefixes(w, steps[..n], freeze, if k <= n then k else n);
      FrozenStep(w, Run(w, steps[..n]), steps[n], freeze);
      if k <= n {
        assert steps[..n][..k] == steps[..k];
      } else {
        assert steps[..n][..n] == steps[..n] && steps[..k] == steps;
      }
    }
  }

  lemma FrozenSnoc<T>(log: seq<T>, x: T, before: T -> bool)
    ensures !before(x) ==> Filter(log + [x], before) == Filter(log, before)
    ensures before(x) && Filter(log, before) == log ==> Filter(log + [x], before) == log + [x]
  {
    FilterSnoc(log, x, before);
  }

  lemma FrozenSubmit(w: World, subs: seq<Submission>, r: SubmitRequest, freeze: int)
    ensures var before := SubmittedBefore(freeze);
      && (r.now >= freeze ==> Filter(SubmitLog(w, subs, r), before) == Filter(subs, before))
      && (r.now < freeze && Filter(subs, before) == subs ==>
            Filter(SubmitLog(w, subs, r), before) == SubmitLog(w, subs, r))
  {
    var a := Assess(w, subs, r);
    if a.Ok? {
      FrozenSnoc(subs, a.value, SubmittedBefore(freeze));
    }
  }

  lemma FrozenUnlock(w: World, subs: seq<Submission>, unlocks: seq<HintUnlock>, r: UnlockRequest, freeze: int)
    ensures var before, after := UnlockedBefore(freeze), UnlockLog(w, subs, unlocks, r);
      && (r.now >= freeze ==> Filter(after, before) == Filter(unlocks, before))
      && (r.now < freeze && Filter(unlocks, before) == unlocks ==> Filter(after, before) == after)
  {
    var a := AssessUnlock(w, subs, unlocks, r);
    if a.Charged? {
      FrozenSnoc(unlocks, a.unlock, UnlockedBefore(freeze));
    }
  }

  lemma FrozenStep(w: World, st: State, step: Step, freeze: int)
    ensures Clock(step) >= freeze ==> Frozen(Next(w, st, step), Some(freeze)) == Frozen(st, Some(freeze))
    ensures Clock(step) < freeze && Frozen(st, Some(freeze)) == st ==>
      Frozen(Next(w, st, step), Some(freeze)) == Next(w, st, step)
  {
    match step
    case Submit(r) => FrozenSubmit(w, st.subs, r, freeze);
    case Unlock(r) => FrozenUnlock(w, st.subs, st.unlocks, r, freeze);
  }

  /** The frozen board after any run is the live board at the moment of the freeze. */
  lemma FrozenBoardStandsStill(
      w: World, steps: seq<Step>, freeze: int, k: nat, bracket: Option<string>, byAccuracy: bool)
    requires FreezesAt(steps, freeze, k)
    ensures GetBoard(w, Run(w, steps), bracket, byAccuracy, Some(freeze))
         == GetBoard(w, Run(w, steps[..k]), bracket, byAccuracy, None)
  {
    FrozenLogsArePrefixes(w, steps, freeze, k);
  }
}
