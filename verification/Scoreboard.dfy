/** Scores recomputed from the submission log. A challenge is split into parts:
    each partial flag of a `Multi` validator, or the whole challenge. */
module Scoreboard {
  import opened Prelude
  import opened Text
  import opened Flags
  import opened Ledger
  import opened Scoring

  datatype Part = Whole | Piece(partial: PartialFlag)

  datatype SolveScore = SolveScore(points: int, lastSolveTime: Option<int>, solvedIds: seq<string>)

  function Pieces(partials: seq<PartialFlag>): seq<Part> {
    seq(|partials|, i requires 0 <= i < |partials| => Piece(partials[i]))
  }

  function Parts(c: Challenge): seq<Part> {
    if c.flag.Multi? then Pieces(c.flag.partials) else [Whole]
  }

  /** What a challenge is worth to each of `solveCount` solvers. */
  function BasePoints(c: Challenge, solveCount: nat): U32 {
    match c.mode
    case PointValue => ParseUnsigned(c.equation, U32_MAX).GetOr(100)
    case PointAttribution => ParseUnsigned(c.equation, U32_MAX).GetOr(100)
    case DynamicDecay(initial, minimum, decay) => DynamicPoints(initial, minimum, decay, solveCount)
  }

  function Weighted(base: U32, weight: real): int {
    Round(base as real * weight)
  }

  /** What the scoreboard credits for one part. */
  function PartPoints(part: Part, base: U32): int {
    match part
    case Whole => base
    case Piece(partial) => SaturateI64(Weighted(base, partial.weight))
  }

  predicate MatchesPart(o: Oracle, part: Part, s: Submission) {
    part.Piece? ==> IsMatch(o, part.partial.validator, s.providedFlag, Some(s.providedFlag))
  }

  predicate Hit(o: Oracle, teamId: string, challengeId: string, part: Part, s: Submission) {
    s.teamId == Some(teamId) && CorrectOn(challengeId, s) && MatchesPart(o, part, s)
  }

  predicate Scored(o: Oracle, team: Team, c: Challenge, part: Part, subs: seq<Submission>) {
    if c.teamConsensus then
      team.memberIds != []
      && forall m :: m in team.memberIds ==>
           exists s :: s in subs && s.accountId == m && Hit(o, team.id, c.id, part, s)
    else
      exists s :: s in subs && Hit(o, team.id, c.id, part, s)
  }

  /** What one part adds to a team's points. */
  function Contribution(o: Oracle, team: Team, c: Challenge, part: Part, subs: seq<Submission>, base: U32): int {
    if Scored(o, team, c, part, subs) then PartPoints(part, base) else 0
  }

  function PointsFromParts(o: Oracle, team: Team, c: Challenge, parts: seq<Part>, subs: seq<Submission>, base: U32)
    : int
  {
    if parts == [] then 0
    else
      var n := |parts| - 1;
      PointsFromParts(o, team, c, parts[..n], subs, base) + Contribution(o, team, c, parts[n], subs, base)
  }

  function SolveCount(solvers: map<string, set<string>>, challengeId: string): nat {
    if challengeId in solvers then |solvers[challengeId]| else 0
  }

  function SolvedChallenges(subs: seq<Submission>): set<string> {
    set s | s in subs && s.isCorrect :: s.challengeId
  }

  /** The distinct solvers of every challenge that has a correct submission. */
  function SolveCounts(subs: seq<Submission>): map<string, set<string>> {
    map id | id in SolvedChallenges(subs) :: Solvers(subs, id)
  }

  lemma NoSolversUnlessSolved(subs: seq<Submission>, challengeId: string)
    requires challengeId !in SolvedChallenges(subs)
    ensures Solvers(subs, challengeId) == {}
  {
  }

  lemma SolveCountsAgree(subs: seq<Submission>, challengeId: string)
    ensures SolveCount(SolveCounts(subs), challengeId) == |Solvers(subs, challengeId)|
  {
    if challengeId !in SolvedChallenges(subs) {
      NoSolversUnlessSolved(subs, challengeId);
    }
  }

  function ChallengePoints(
      o: Oracle, team: Team, c: Challenge, subs: seq<Submission>, solvers: map<string, set<string>>)
    : int
  {
    PointsFromParts(o, team, c, Parts(c), subs, BasePoints(c, SolveCount(solvers, c.id)))
  }

  function PointsFromSolves(
      o: Oracle, team: Team, challenges: seq<Challenge>, subs: seq<Submission>, solvers: map<string, set<string>>)
    : int
  {
    if challenges == [] then 0
    else
      var n := |challenges| - 1;
      PointsFromSolves(o, team, challenges[..n], subs, solvers)
      + ChallengePoints(o, team, challenges[n], subs, solvers)
  }

  // Last solve time and solved ids.

  function Later(a: Option<int>, b: Option<int>): Option<int> {
    if a.None? then b
    else if b.None? then a
    else if a.value < b.value then b else a
  }

  function LatestTime(subs: seq<Submission>): Option<int> {
    if subs == [] then None
    else Later(LatestTime(subs[..|subs| - 1]), Some(subs[|subs| - 1].submittedAt))
  }

  function HitBy(o: Oracle, teamId: string, challengeId: string, part: Part): Submission -> bool {
    (s: Submission) => Hit(o, teamId, challengeId, part, s)
  }

  function Hits(o: Oracle, team: Team, c: Challenge, part: Part, subs: seq<Submission>): seq<Submission> {
    Filter(subs, HitBy(o, team.id, c.id, part))
  }

  function LastHit(o: Oracle, team: Team, c: Challenge, parts: seq<Part>, subs: seq<Submission>): Option<int> {
    if parts == [] then None
    else
      var n := |parts| - 1;
      Later(LastHit(o, team, c, parts[..n], subs),
            if Scored(o, team, c, parts[n], subs) then LatestTime(Hits(o, team, c, parts[n], subs)) else None)
  }

  function LastSolve(o: Oracle, team: Team, challenges: seq<Challenge>, subs: seq<Submission>): Option<int> {
    if challenges == [] then None
    else
      var n := |challenges| - 1;
      Later(LastSolve(o, team, challenges[..n], subs),
            LastHit(o, team, challenges[n], Parts(challenges[n]), subs))
  }

  /** `s` is a hit on part `part` of `c`, and the team scored that part. */
  ghost predicate CountsFor(o: Oracle, team: Team, c: Challenge, part: Part, subs: seq<Submission>, s: Submission) {
    s in subs && Scored(o, team, c, part, subs) && Hit(o, team.id, c.id, part, s)
  }

  lemma {:induction false} LatestTimeBounds(subs: seq<Submission>, s: Submission)
    requires s in subs
    ensures LatestTime(subs).Some? && s.submittedAt <= LatestTime(subs).value
  {
    if s != subs[|subs| - 1] {
      LatestTimeBounds(subs[..|subs| - 1], s);
    }
  }

  lemma {:induction false} LatestTimeAttained(subs: seq<Submission>) returns (s: Submission)
    requires LatestTime(subs).Some?
    ensures s in subs && Some(s.submittedAt) == LatestTime(subs)
  {
    s := subs[|subs| - 1];
    if LatestTime(subs) != Some(s.submittedAt) {
      s := LatestTimeAttained(subs[..|subs| - 1]);
    }
  }

  lemma {:induction false} LastHitBounds(
      o: Oracle, team: Team, c: Challenge, parts: seq<Part>, j: int, subs: seq<Submission>, s: Submission)
    requires 0 <= j < |parts| && CountsFor(o, team, c, parts[j], subs, s)
    ensures LastHit(o, team, c, parts, subs).Some? && s.submittedAt <= LastHit(o, team, c, parts, subs).value
  {
    var n := |parts| - 1;
    if j == n {
      FilterMember(subs, HitBy(o, team.id, c.id, parts[n]), s);
      LatestTimeBounds(Hits(o, team, c, parts[n], subs), s);
    } else {
      LastHitBounds(o, team, c, parts[..n], j, subs, s);
    }
  }

  lemma {:induction false} LastHitAttained(
      o: Oracle, team: Team, c: Challenge, parts: seq<Part>, subs: seq<Submission>) returns (j: int, s: Submission)
    requires LastHit(o, team, c, parts, subs).Some?
    ensures 0 <= j < |parts| && CountsFor(o, team, c, parts[j], subs, s)
    ensures Some(s.submittedAt) == LastHit(o, team, c, parts, subs)
  {
    var n := |parts| - 1;
    if LastHit(o, team, c, parts[..n], subs) == LastHit(o, team, c, parts, subs) {
      j, s := LastHitAttained(o, team, c, parts[..n], subs);
    } else {
      j := n;
      s := LatestTimeAttained(Hits(o, team, c, parts[n], subs));
      FilterMember(subs, HitBy(o, team.id, c.id, parts[n]), s);
    }
  }

  /** No submission that counts towards a scored part is later than the tie-break time ... */
  lemma {:induction false} LastSolveBounds(
      o: Oracle, team: Team, challenges: seq<Challenge>, i: int, j: int, subs: seq<Submission>, s: Submission)
    requires 0 <= i < |challenges| && 0 <= j < |Parts(challenges[i])|
    requires CountsFor(o, team, challenges[i], Parts(challenges[i])[j], subs, s)
    ensures LastSolve(o, team, challenges, subs).Some?
    ensures s.submittedAt <= LastSolve(o, team, challenges, subs).value
  {
    var n := |challenges| - 1;
    if i == n {
      LastHitBounds(o, team, challenges[n], Parts(challenges[n]), j, subs, s);
    } else {
      LastSolveBounds(o, team, challenges[..n], i, j, subs, s);
    }
  }

  /** ... and when there is one, a submission that counts was made at it. */
  lemma {:induction false} LastSolveAttained(
      o: Oracle, team: Team, challenges: seq<Challenge>, subs: seq<Submission>)
    returns (i: int, j: int, s: Submission)
    requires LastSolve(o, team, challenges, subs).Some?
    ensures 0 <= i < |challenges| && 0 <= j < |Parts(challenges[i])|
    ensures CountsFor(o, team, challenges[i], Parts(challenges[i])[j], subs, s)
    ensures Some(s.submittedAt) == LastSolve(o, team, challenges, subs)
  {
    var n := |challenges| - 1;
    if LastSolve(o, team, challenges[..n], subs) == LastSolve(o, team, challenges, subs) {
      i, j, s := LastSolveAttained(o, team, challenges[..n], subs);
    } else {
      i := n;
      j, s := LastHitAttained(o, team, challenges[n], Parts(challenges[n]), subs);
    }
  }

  predicate AnyScored(o: Oracle, team: Team, c: Challenge, parts: seq<Part>, subs: seq<Submission>) {
    exists i :: 0 <= i < |parts| && Scored(o, team, c, parts[i], subs)
  }

  function SolvedIds(o: Oracle, team: Team, challenges: seq<Challenge>, subs: seq<Submission>): seq<string> {
    if challenges == [] then []
    else
      var n := |challenges| - 1;
      var c := challenges[n];
      SolvedIds(o, team, challenges[..n], subs) + (if AnyScored(o, team, c, Parts(c), subs) then [c.id] else [])
  }

  function TeamSolveScore(
      o: Oracle, team: Team, challenges: seq<Challenge>, subs: seq<Submission>, solvers: map<string, set<string>>)
    : SolveScore
  {
    SolveScore(
      PointsFromSolves(o, team, challenges, subs, solvers),
      LastSolve(o, team, challenges, subs),
      SolvedIds(o, team, challenges, subs))
  }

  // Hint costs.

  function UnlockedBy(teamId: Option<string>, accountId: Option<string>): HintUnlock -> bool {
    (u: HintUnlock) =>
      if teamId.Some? then u.teamId == teamId
      else u.teamId.None? && accountId == Some(u.accountId)
  }

  function SumCosts(unlocks: seq<HintUnlock>): nat {
    if unlocks == [] then 0 else SumCosts(unlocks[..|unlocks| - 1]) + unlocks[|unlocks| - 1].cost
  }

  function TotalHintCost(unlocks: seq<HintUnlock>, teamId: Option<string>, accountId: Option<string>): nat {
    SumCosts(Filter(unlocks, UnlockedBy(teamId, accountId)))
  }

  function ApplyHintDeduction(points: int, spent: int, mode: HintDeductionMode): int {
    match mode
    case Free => points
    case AllowNegative => points - spent
    case FloorZero => if points - spent < 0 then 0 else points - spent
    case Gate => if points - spent < 0 then 0 else points - spent
  }

  // The loops of the service.

  method BuildChallengeSolvers(submissions: seq<Submission>) returns (solvers: map<string, set<string>>)
    ensures solvers == SolveCounts(submissions)
  {
    solvers := map[];
    for i := 0 to |submissions|
      invariant solvers == SolveCounts(submissions[..i])
    {
      var sub := submissions[i];
      SolverCounted(submissions, i);
      if sub.isCorrect {
        var entry := if sub.challengeId in solvers then solvers[sub.challengeId] else {};
        solvers := solvers[sub.challengeId := entry + {SolverKey(sub)}];
      }
    }
    assert submissions[..|submissions|] == submissions;
  }

  lemma SolveCountsSnoc(subs: seq<Submission>, s: Submission)
    ensures SolveCounts(subs + [s])
         == if !s.isCorrect then SolveCounts(subs)
            else SolveCounts(subs)[s.challengeId := Solvers(subs, s.challengeId) + {SolverKey(s)}]
  {
    assert SolvedChallenges(subs + [s]) == SolvedChallenges(subs) + (if s.isCorrect then {s.challengeId} else {});
    forall id | id in SolvedChallenges(subs + [s]) && !CorrectOn(id, s)
      ensures Solvers(subs + [s], id) == Solvers(subs, id)
    {
      SolversSnoc(subs, s, id);
    }
    SolversSnoc(subs, s, s.challengeId);
    if s.isCorrect {
      assert SolveCounts(subs + [s])
          == SolveCounts(subs)[s.challengeId := Solvers(subs, s.challengeId) + {SolverKey(s)}];
    } else {
      assert SolveCounts(subs + [s]) == SolveCounts(subs);
    }
  }

  /** One turn of a loop that collects solvers. */
  lemma SolverCounted(subs: seq<Submission>, i: nat)
    requires i < |subs|
    ensures var counts, sub := SolveCounts(subs[..i]), subs[i];
      var entry := if sub.challengeId in counts then counts[sub.challengeId] else {};
      SolveCounts(subs[..i + 1])
      == if sub.isCorrect then counts[sub.challengeId := entry + {SolverKey(sub)}] else counts
  {
    SolveCountsSnoc(subs[..i], subs[i]);
    assert subs[..i + 1] == subs[..i] + [subs[i]];
    if subs[i].challengeId !in SolveCounts(subs[..i]) {
      NoSolversUnlessSolved(subs[..i], subs[i].challengeId);
    }
  }

  function CreditedTo(o: Oracle, challengeId: string, part: Part): Submission -> bool {
    (s: Submission) => CorrectOn(challengeId, s) && MatchesPart(o, part, s)
  }

  predicate EveryMemberIn(team: Team, subs: seq<Submission>) {
    team.memberIds != []
    && forall m :: m in team.memberIds ==> exists s :: s in subs && s.accountId == m
  }

  /** The source's two-stage filter selects the hits, and its emptiness and
      membership tests on them decide `Scored`. */
  lemma ScoredByHits(o: Oracle, team: Team, c: Challenge, part: Part, subs: seq<Submission>)
    ensures Filter(Filter(subs, ByTeam(team.id)), CreditedTo(o, c.id, part)) == Hits(o, team, c, part, subs)
    ensures Scored(o, team, c, part, subs)
        <==> if c.teamConsensus then EveryMemberIn(team, Hits(o, team, c, part, subs))
             else Hits(o, team, c, part, subs) != []
  {
    FilterTwice(subs, ByTeam(team.id), CreditedTo(o, c.id, part), HitBy(o, team.id, c.id, part));
    var hits := Hits(o, team, c, part, subs);
    forall s ensures s in hits <==> s in subs && Hit(o, team.id, c.id, part, s) {
      FilterMember(subs, HitBy(o, team.id, c.id, part), s);
    }
    if hits != [] {
      assert hits[0] in hits;
    }
  }

  method ComputeTeamSolveScore(
      o: Oracle, team: Team, challenges: seq<Challenge>, submissions: seq<Submission>,
      challengeSolvers: map<string, set<string>>)
    returns (score: SolveScore)
    ensures score == TeamSolveScore(o, team, challenges, submissions, challengeSolvers)
  {
    var teamSubs := Filter(submissions, ByTeam(team.id));
    var points, lastSolveTime, solvedIds := 0, None, [];
    for i := 0 to |challenges|
      invariant SolveScore(points, lastSolveTime, solvedIds)
             == TeamSolveScore(o, team, challenges[..i], submissions, challengeSolvers)
    {
      var challenge := challenges[i];
      assert challenges[..i + 1][..i] == challenges[..i];
      var decayedPoints := BasePoints(challenge, SolveCount(challengeSolvers, challenge.id));
      var scored, gained, last := ScoreChallenge(o, team, challenge, teamSubs, submissions, decayedPoints);
      points := points + gained;
      lastSolveTime := Later(lastSolveTime, last);
      if scored {
        solvedIds := solvedIds + [challenge.id];
      }
    }
    assert challenges[..|challenges|] == challenges;
    score := SolveScore(points, lastSolveTime, solvedIds);
  }

  method ScoreChallenge(
      o: Oracle, team: Team, challenge: Challenge, teamSubs: seq<Submission>, ghost submissions: seq<Submission>,
      decayedPoints: U32)
    returns (scored: bool, points: int, last: Option<int>)
    requires teamSubs == Filter(submissions, ByTeam(team.id))
    ensures scored == AnyScored(o, team, challenge, Parts(challenge), submissions)
    ensures points == PointsFromParts(o, team, challenge, Parts(challenge), submissions, decayedPoints)
    ensures last == LastHit(o, team, challenge, Parts(challenge), submissions)
  {
    if challenge.flag.Multi? {
      scored, points, last :=
        ScorePartials(o, team, challenge, challenge.flag.partials, teamSubs, submissions, decayedPoints);
    } else {
      var cSubs := Filter(teamSubs, CreditedTo(o, challenge.id, Whole));
      ScoredByHits(o, team, challenge, Whole, submissions);
      OnePart(o, team, challenge, Whole, submissions, decayedPoints);
      scored := if challenge.teamConsensus then EveryMemberIn(team, cSubs) else cSubs != [];
      points, last := 0, None;
      if scored {
        points, last := decayedPoints, LatestTime(cSubs);
      }
    }
  }

  lemma OnePart(o: Oracle, team: Team, c: Challenge, part: Part, subs: seq<Submission>, base: U32)
    ensures PointsFromParts(o, team, c, [part], subs, base)
         == if Scored(o, team, c, part, subs) then PartPoints(part, base) else 0
    ensures LastHit(o, team, c, [part], subs)
         == if Scored(o, team, c, part, subs) then LatestTime(Hits(o, team, c, part, subs)) else None
    ensures AnyScored(o, team, c, [part], subs) <==> Scored(o, team, c, part, subs)
  {
    assert [part][..0] == [];
    assert [part][0] == part;
  }

  method ScorePartials(
      o: Oracle, team: Team, challenge: Challenge, partials: seq<PartialFlag>, teamSubs: seq<Submission>,
      ghost submissions: seq<Submission>, decayedPoints: U32)
    returns (scored: bool, points: int, last: Option<int>)
    requires teamSubs == Filter(submissions, ByTeam(team.id))
    ensures scored == AnyScored(o, team, challenge, Pieces(partials), submissions)
    ensures points == PointsFromParts(o, team, challenge, Pieces(partials), submissions, decayedPoints)
    ensures last == LastHit(o, team, challenge, Pieces(partials), submissions)
  {
    scored, points, last := false, 0, None;
    ghost var parts := Pieces(partials);
    for j := 0 to |partials|
      invariant scored == AnyScored(o, team, challenge, parts[..j], submissions)
      invariant points == PointsFromParts(o, team, challenge, parts[..j], submissions, decayedPoints)
      invariant last == LastHit(o, team, challenge, parts[..j], submissions)
    {
      var part := Piece(partials[j]);
      var pfSubs := Filter(teamSubs, CreditedTo(o, challenge.id, part));
      ScoredByHits(o, team, challenge, part, submissions);
      var scoredThisPart := if challenge.teamConsensus then EveryMemberIn(team, pfSubs) else pfSubs != [];
      assert parts[..j + 1] == parts[..j] + [part];
      AnyScoredSnoc(o, team, challenge, parts[..j], part, submissions);
      if scoredThisPart {
        points := points + SaturateI64(Weighted(decayedPoints, partials[j].weight));
        scored := true;
        last := Later(last, LatestTime(pfSubs));
      }
    }
    assert parts[..|partials|] == parts;
  }

  lemma AnyScoredSnoc(o: Oracle, team: Team, c: Challenge, parts: seq<Part>, part: Part, subs: seq<Submission>)
    ensures AnyScored(o, team, c, parts + [part], subs)
       <==> AnyScored(o, team, c, parts, subs) || Scored(o, team, c, part, subs)
  {
    var all := parts + [part];
    assert all[|parts|] == part;
    forall i | 0 <= i < |parts| ensures all[i] == parts[i] {}
  }
}
