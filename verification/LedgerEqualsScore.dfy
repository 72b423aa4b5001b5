/** For fixed-value challenges without consensus, the sum of a team's stored
    points is the score recomputed from the log, in every reachable state. */
module LedgerEqualsScore {
  import opened Prelude
  import opened Flags
  import opened Ledger
  import opened Scoreboard
  import opened Solve
  import opened Hints
  import opened Runs
  import opened Monotonicity
  import opened Agreement
  import opened GateSolvency

  /** The points stored on a team's correct submissions. */
  function StoredPoints(subs: seq<Submission>, teamId: string): int {
    if subs == [] then 0
    else
      var s := subs[|subs| - 1];
      StoredPoints(subs[..|subs| - 1], teamId) + (if s.isCorrect && s.teamId == Some(teamId) then s.points else 0)
  }

  /** The partials are separate, and every weighted value fits the unsigned 32-bit field. */
  ghost predicate WellPartitioned(o: Oracle, c: Challenge) {
    c.flag.Multi? ==>
      && Separate(o, c.flag.partials)
      && forall i :: 0 <= i < |c.flag.partials| ==>
           0 <= Weighted(BasePoints(c, 0), c.flag.partials[i].weight) <= U32_MAX
  }

  ghost predicate Plain(o: Oracle, c: Challenge) {
    FixedValue(c) && !c.teamConsensus && WellPartitioned(o, c)
  }

  // Sums that differ in one term.

  lemma {:induction false} PartsDifferAt(
      o: Oracle, team: Team, c: Challenge, parts: seq<Part>, k: int, d: int,
      subs: seq<Submission>, subs': seq<Submission>, base: U32)
    requires forall j :: 0 <= j < |parts| ==>
      Contribution(o, team, c, parts[j], subs', base)
      == Contribution(o, team, c, parts[j], subs, base) + (if j == k then d else 0)
    ensures PointsFromParts(o, team, c, parts, subs', base)
         == PointsFromParts(o, team, c, parts, subs, base) + (if 0 <= k < |parts| then d else 0)
  {
    if parts == [] {
    } else {
      PartsDifferAt(o, team, c, parts[..|parts| - 1], k, d, subs, subs', base);
    }
  }

  lemma {:induction false} SolvesDifferAt(
      o: Oracle, team: Team, challenges: seq<Challenge>, k: int, d: int,
      subs: seq<Submission>, solvers: map<string, set<string>>,
      subs': seq<Submission>, solvers': map<string, set<string>>)
    requires forall i :: 0 <= i < |challenges| ==>
      ChallengePoints(o, team, challenges[i], subs', solvers')
      == ChallengePoints(o, team, challenges[i], subs, solvers) + (if i == k then d else 0)
    ensures PointsFromSolves(o, team, challenges, subs', solvers')
         == PointsFromSolves(o, team, challenges, subs, solvers) + (if 0 <= k < |challenges| then d else 0)
  {
    if challenges == [] {
    } else {
      SolvesDifferAt(o, team, challenges[..|challenges| - 1], k, d, subs, solvers, subs', solvers');
    }
  }

  /** A submission that is no hit on any part of `c` leaves its points alone. */
  lemma UntouchedChallenge(o: Oracle, team: Team, c: Challenge, subs: seq<Submission>, s: Submission)
    requires FixedValue(c)
    requires s.challengeId != c.id || !s.isCorrect || s.teamId != Some(team.id)
    ensures ChallengePoints(o, team, c, subs + [s], SolveCounts(subs + [s]))
         == ChallengePoints(o, team, c, subs, SolveCounts(subs))
  {
    ValueAfter(c, subs, s);
    forall j | 0 <= j < |Parts(c)|
      ensures Contribution(o, team, c, Parts(c)[j], subs + [s], Value(c, subs))
           == Contribution(o, team, c, Parts(c)[j], subs, Value(c, subs))
    {
      ScoredAfter(o, team, c, Parts(c)[j], subs, s);
    }
    PartsDifferAt(o, team, c, Parts(c), 0, 0, subs, subs + [s], Value(c, subs));
  }

  /** The index of the part that an accepted submission solves. */
  lemma MatchedIndex(w: World, c: Challenge, r: SubmitRequest) returns (k: int)
    requires Plain(w.oracle, c) && Correct(w, c, r)
    ensures 0 <= k < |Parts(c)| && Parts(c)[k] == MatchedPart(w, c, r)
    ensures c.flag.Multi? ==> IsFirstMatch(w.oracle, c.flag.partials, k, r.flag, r.activeFlag)
  {
    k := 0;
    if c.flag.Multi? {
      FirstMatchingIsFirst(w.oracle, c.flag.partials, r.flag, r.activeFlag);
      k :| IsFirstMatch(w.oracle, c.flag.partials, k, r.flag, r.activeFlag);
    }
  }

  /** The part solved was open before; it is now scored. */
  lemma MatchedPartOpens(w: World, team: Team, c: Challenge, subs: seq<Submission>, r: SubmitRequest, k: int)
    requires Plain(w.oracle, c) && Correct(w, c, r) && c.id == r.challengeId && r.teamId == Some(team.id)
    requires !Duplicate(w, c, Existing(subs, r), r)
    requires 0 <= k < |Parts(c)| && Parts(c)[k] == MatchedPart(w, c, r)
    requires c.flag.Multi? ==> IsFirstMatch(w.oracle, c.flag.partials, k, r.flag, r.activeFlag)
    ensures !Scored(w.oracle, team, c, Parts(c)[k], subs)
    ensures Hit(w.oracle, team.id, c.id, Parts(c)[k], Record(w, c, subs, r))
  {
    var part := Parts(c)[k];
    forall x | x in subs
      ensures !Hit(w.oracle, team.id, c.id, part, x)
    {
      FilterMember(subs, SolveOf(r.challengeId, r.teamId, r.accountId), x);
      if c.flag.Multi? {
        MatchIgnoresActiveFlag(w.oracle, part.partial.validator, x.providedFlag, Some(x.providedFlag), r.activeFlag);
      }
    }
    if c.flag.Multi? {
      MatchIgnoresActiveFlag(w.oracle, part.partial.validator, r.flag, Some(r.flag), r.activeFlag);
    }
  }

  lemma OtherPartsMissed(w: World, team: Team, c: Challenge, subs: seq<Submission>, r: SubmitRequest, k: int, j: int)
    requires Plain(w.oracle, c) && Correct(w, c, r) && c.id == r.challengeId
    requires 0 <= k < |Parts(c)| && 0 <= j < |Parts(c)| && j != k
    requires c.flag.Multi? ==> IsFirstMatch(w.oracle, c.flag.partials, k, r.flag, r.activeFlag)
    ensures !Hit(w.oracle, team.id, c.id, Parts(c)[j], Record(w, c, subs, r))
  {
    var partials := c.flag.partials;
    MatchIgnoresActiveFlag(w.oracle, partials[k].validator, r.flag, r.activeFlag, None);
    MatchIgnoresActiveFlag(w.oracle, partials[j].validator, r.flag, Some(r.flag), None);
    var lo, hi := if j < k then j else k, if j < k then k else j;
    assert !(IsMatch(w.oracle, partials[lo].validator, r.flag, None)
             && IsMatch(w.oracle, partials[hi].validator, r.flag, None));
  }

  lemma AcceptedChallenge(w: World, team: Team, c: Challenge, subs: seq<Submission>, r: SubmitRequest)
    requires FindChallenge(w.challenges, r.challengeId) == Some(c) && Plain(w.oracle, c)
    requires Assess(w, subs, r).Ok? && Assess(w, subs, r).value.isCorrect && r.teamId == Some(team.id)
    ensures var s := Assess(w, subs, r).value;
      ChallengePoints(w.oracle, team, c, subs + [s], SolveCounts(subs + [s]))
      == ChallengePoints(w.oracle, team, c, subs, SolveCounts(subs)) + s.points
  {
    var s := Assess(w, subs, r).value;
    var base := Value(c, subs);
    ValueAfter(c, subs, s);
    var k := MatchedIndex(w, c, r);
    MatchedPartOpens(w, team, c, subs, r, k);
    assert s in subs + [s];
    assert PartPoints(Parts(c)[k], base) == s.points;
    forall j | 0 <= j < |Parts(c)|
      ensures Contribution(w.oracle, team, c, Parts(c)[j], subs + [s], base)
           == Contribution(w.oracle, team, c, Parts(c)[j], subs, base) + (if j == k then s.points else 0)
    {
      if j != k {
        OtherPartsMissed(w, team, c, subs, r, k, j);
        ScoredAfter(w.oracle, team, c, Parts(c)[j], subs, s);
      }
    }
    PartsDifferAt(w.oracle, team, c, Parts(c), k, s.points, subs, subs + [s], base);
  }

  ghost function Gain(s: Submission, teamId: string): int {
    if s.isCorrect && s.teamId == Some(teamId) then s.points else 0
  }

  /** The points stored on a team's correct submissions for one challenge. */
  function StoredOn(subs: seq<Submission>, teamId: string, challengeId: string): int {
    if subs == [] then 0
    else
      var s := subs[|subs| - 1];
      StoredOn(subs[..|subs| - 1], teamId, challengeId)
      + (if CorrectOn(challengeId, s) && s.teamId == Some(teamId) then s.points else 0)
  }

  /** For each such challenge, whatever the others of the event are: in every reachable
      state the points stored for it are those that it adds to the team's score. */
  lemma {:induction false} StoredEqualsAdded(w: World, team: Team, steps: seq<Step>, c: Challenge)
    requires FindChallenge(w.challenges, c.id) == Some(c) && Plain(w.oracle, c)
    ensures var subs := Run(w, steps).subs;
      StoredOn(subs, team.id, c.id) == ChallengePoints(w.oracle, team, c, subs, SolveCounts(subs))
  {
    if steps == [] {
      NothingFromEmptyLog(w, team, c);
    } else {
      var n := |steps| - 1;
      var subs := Run(w, steps[..n]).subs;
      StoredEqualsAdded(w, team, steps[..n], c);
      if steps[n].Submit? && Assess(w, subs, steps[n].submit).Ok? {
        var s := Assess(w, subs, steps[n].submit).value;
        assert (subs + [s])[..|subs|] == subs;
        if CorrectOn(c.id, s) && s.teamId == Some(team.id) {
          AcceptedChallenge(w, team, c, subs, steps[n].submit);
        } else {
          UntouchedChallenge(w.oracle, team, c, subs, s);
        }
      }
    }
  }

  /** One call moves the stored sum and the recomputed score by the same amount. */
  lemma SubmitGains(w: World, team: Team, subs: seq<Submission>, r: SubmitRequest)
    requires UniqueIds(w) && forall c :: c in w.challenges ==> Plain(w.oracle, c)
    requires Assess(w, subs, r).Ok?
    ensures EarnedPoints(w, team, subs + [Assess(w, subs, r).value])
         == EarnedPoints(w, team, subs) + Gain(Assess(w, subs, r).value, team.id)
  {
    var s := Assess(w, subs, r).value;
    var c := FindChallenge(w.challenges, r.challengeId).value;
    var k :| 0 <= k < |w.challenges| && w.challenges[k] == c;
    forall i | 0 <= i < |w.challenges|
      ensures ChallengePoints(w.oracle, team, w.challenges[i], subs + [s], SolveCounts(subs + [s]))
           == ChallengePoints(w.oracle, team, w.challenges[i], subs, SolveCounts(subs))
              + (if i == k then Gain(s, team.id) else 0)
    {
      assert w.challenges[i] in w.challenges;
      if i == k && s.isCorrect && s.teamId == Some(team.id) {
        AcceptedChallenge(w, team, c, subs, r);
      } else {
        UntouchedChallenge(w.oracle, team, w.challenges[i], subs, s);
      }
    }
    SolvesDifferAt(w.oracle, team, w.challenges, k, Gain(s, team.id),
                   subs, SolveCounts(subs), subs + [s], SolveCounts(subs + [s]));
  }

  /** Where all challenges are such, the points stored for a team are its score. */
  lemma {:induction false} StoredEqualsEarned(w: World, team: Team, steps: seq<Step>)
    requires UniqueIds(w) && forall c :: c in w.challenges ==> Plain(w.oracle, c)
    ensures StoredPoints(Run(w, steps).subs, team.id) == EarnedPoints(w, team, Run(w, steps).subs)
  {
    if steps == [] {
      ZeroFromEmptyLog(w, team, w.challenges);
    } else {
      var n := |steps| - 1;
      var subs := Run(w, steps[..n]).subs;
      StoredEqualsEarned(w, team, steps[..n]);
      if steps[n].Submit? && Assess(w, subs, steps[n].submit).Ok? {
        var s := Assess(w, subs, steps[n].submit).value;
        SubmitGains(w, team, subs, steps[n].submit);
        assert (subs + [s])[..|subs|] == subs;
      }
    }
  }
}
