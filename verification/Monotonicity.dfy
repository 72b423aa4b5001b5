/** How one more submission moves every team's recomputed score. */
module Monotonicity {
  import opened Prelude
  import opened Flags
  import opened Ledger
  import opened Scoring
  import opened Scoreboard
  import opened Hints

  ghost predicate NonNegativeWeights(c: Challenge) {
    c.flag.Multi? ==> forall i :: 0 <= i < |c.flag.partials| ==> c.flag.partials[i].weight >= 0.0
  }

  ghost predicate DecaysDown(c: Challenge) {
    c.mode.DynamicDecay? ==> c.mode.minimum <= c.mode.initial
  }

  ghost predicate FixedValue(c: Challenge) {
    !c.mode.DynamicDecay?
  }

  /** Solves never make a challenge of this mode cheaper. */
  predicate NeverFalls(mode: ScoringMode) {
    mode.DynamicDecay? ==> mode.initial <= mode.minimum
  }

  lemma BasePointsOrder(c: Challenge, m: nat, n: nat)
    requires m <= n
    ensures DecaysDown(c) ==> BasePoints(c, n) <= BasePoints(c, m)
    ensures NeverFalls(c.mode) ==> BasePoints(c, m) <= BasePoints(c, n)
  {
    if c.mode.DynamicDecay? {
      DecayMovesTowardsMinimum(c.mode.initial, c.mode.minimum, c.mode.decay, m, n);
    }
  }

  lemma WeightedOrder(a: U32, b: U32, weight: real)
    requires a <= b && weight >= 0.0
    ensures 0 <= Weighted(a, weight) <= Weighted(b, weight)
  {
    assert 0.0 <= a as real * weight <= b as real * weight;
    RoundMonotone(a as real * weight, b as real * weight);
  }

  lemma PartPointsOrder(c: Challenge, j: int, a: U32, b: U32)
    requires a <= b && NonNegativeWeights(c) && 0 <= j < |Parts(c)|
    ensures 0 <= PartPoints(Parts(c)[j], a) <= PartPoints(Parts(c)[j], b)
  {
    if c.flag.Multi? {
      WeightedOrder(a, b, c.flag.partials[j].weight);
    }
  }

  /** A part once scored stays scored, and a submission that is no hit on a part
      leaves it as it was. */
  lemma ScoredAfter(o: Oracle, team: Team, c: Challenge, part: Part, subs: seq<Submission>, s: Submission)
    ensures Scored(o, team, c, part, subs) ==> Scored(o, team, c, part, subs + [s])
    ensures !Hit(o, team.id, c.id, part, s) ==>
      (Scored(o, team, c, part, subs + [s]) <==> Scored(o, team, c, part, subs))
  {
    assert forall x :: x in subs + [s] <==> x in subs || x == s;
  }

  lemma HitIsSolver(o: Oracle, team: Team, c: Challenge, part: Part, subs: seq<Submission>, s: Submission)
    requires s in subs && Hit(o, team.id, c.id, part, s)
    ensures team.id in Solvers(subs, c.id)
  {
    assert SolverKey(s) == team.id;
  }

  lemma ScoredHasHit(o: Oracle, team: Team, c: Challenge, part: Part, subs: seq<Submission>) returns (s: Submission)
    requires Scored(o, team, c, part, subs)
    ensures s in subs && Hit(o, team.id, c.id, part, s)
  {
    if c.teamConsensus {
      var m := team.memberIds[0];
      assert m in team.memberIds;
      s :| s in subs && s.accountId == m && Hit(o, team.id, c.id, part, s);
    } else {
      s :| s in subs && Hit(o, team.id, c.id, part, s);
    }
  }

  lemma NothingScoredWithoutHits(o: Oracle, team: Team, c: Challenge, part: Part, subs: seq<Submission>)
    requires team.id !in Solvers(subs, c.id)
    ensures !Scored(o, team, c, part, subs)
  {
    if Scored(o, team, c, part, subs) {
      var s := ScoredHasHit(o, team, c, part, subs);
      HitIsSolver(o, team, c, part, subs, s);
    }
  }

  // Sums are compared term by term.

  lemma {:induction false} PartsOrder(
      o: Oracle, team: Team, c: Challenge, parts: seq<Part>,
      subs: seq<Submission>, base: U32, subs': seq<Submission>, base': U32)
    requires forall j :: 0 <= j < |parts| ==>
      Contribution(o, team, c, parts[j], subs, base) <= Contribution(o, team, c, parts[j], subs', base')
    ensures PointsFromParts(o, team, c, parts, subs, base) <= PointsFromParts(o, team, c, parts, subs', base')
  {
    if parts == [] {
    } else {
      PartsOrder(o, team, c, parts[..|parts| - 1], subs, base, subs', base');
    }
  }

  lemma {:induction false} SolvesOrder(
      o: Oracle, team: Team, challenges: seq<Challenge>,
      subs: seq<Submission>, solvers: map<string, set<string>>,
      subs': seq<Submission>, solvers': map<string, set<string>>)
    requires forall i :: 0 <= i < |challenges| ==>
      ChallengePoints(o, team, challenges[i], subs, solvers) <= ChallengePoints(o, team, challenges[i], subs', solvers')
    ensures PointsFromSolves(o, team, challenges, subs, solvers)
         <= PointsFromSolves(o, team, challenges, subs', solvers')
  {
    if challenges == [] {
    } else {
      SolvesOrder(o, team, challenges[..|challenges| - 1], subs, solvers, subs', solvers');
    }
  }

  ghost function Value(c: Challenge, subs: seq<Submission>): U32 {
    BasePoints(c, SolveCount(SolveCounts(subs), c.id))
  }

  /** More solvers, or the same, after one more submission. */
  lemma ValueAfter(c: Challenge, subs: seq<Submission>, s: Submission)
    ensures DecaysDown(c) ==> Value(c, subs + [s]) <= Value(c, subs)
    ensures NeverFalls(c.mode) ==> Value(c, subs) <= Value(c, subs + [s])
    ensures FixedValue(c) ==> Value(c, subs + [s]) == Value(c, subs)
    ensures !CorrectOn(c.id, s) || SolverKey(s) in Solvers(subs, c.id) ==> Value(c, subs + [s]) == Value(c, subs)
  {
    SolveCountsAgree(subs, c.id);
    SolveCountsAgree(subs + [s], c.id);
    SolversSnoc(subs, s, c.id);
    if !CorrectOn(c.id, s) || SolverKey(s) in Solvers(subs, c.id) {
      assert Solvers(subs + [s], c.id) == Solvers(subs, c.id);
    }
    SubsetCardinality(Solvers(subs, c.id), Solvers(subs + [s], c.id));
    BasePointsOrder(c, |Solvers(subs, c.id)|, |Solvers(subs + [s], c.id)|);
  }

  lemma OthersChallengePoints(o: Oracle, team: Team, c: Challenge, subs: seq<Submission>, s: Submission)
    requires s.teamId != Some(team.id) && NonNegativeWeights(c) && DecaysDown(c)
    ensures ChallengePoints(o, team, c, subs + [s], SolveCounts(subs + [s]))
         <= ChallengePoints(o, team, c, subs, SolveCounts(subs))
  {
    ValueAfter(c, subs, s);
    var parts := Parts(c);
    forall j | 0 <= j < |parts|
      ensures Contribution(o, team, c, parts[j], subs + [s], Value(c, subs + [s]))
           <= Contribution(o, team, c, parts[j], subs, Value(c, subs))
    {
      ScoredAfter(o, team, c, parts[j], subs, s);
      PartPointsOrder(c, j, Value(c, subs + [s]), Value(c, subs));
    }
    PartsOrder(o, team, c, parts, subs + [s], Value(c, subs + [s]), subs, Value(c, subs));
  }

  lemma OwnChallengePoints(o: Oracle, team: Team, c: Challenge, subs: seq<Submission>, s: Submission)
    requires NonNegativeWeights(c)
    requires NeverFalls(c.mode) || s.teamId == Some(team.id)
    ensures ChallengePoints(o, team, c, subs, SolveCounts(subs))
         <= ChallengePoints(o, team, c, subs + [s], SolveCounts(subs + [s]))
  {
    ValueAfter(c, subs, s);
    var parts := Parts(c);
    forall j | 0 <= j < |parts|
      ensures Contribution(o, team, c, parts[j], subs, Value(c, subs))
           <= Contribution(o, team, c, parts[j], subs + [s], Value(c, subs + [s]))
    {
      ScoredAfter(o, team, c, parts[j], subs, s);
      PartPointsOrder(c, j, Value(c, subs + [s]), Value(c, subs + [s]));
      if Value(c, subs) <= Value(c, subs + [s]) {
        PartPointsOrder(c, j, Value(c, subs), Value(c, subs + [s]));
      } else {
        NothingScoredWithoutHits(o, team, c, parts[j], subs);
      }
    }
    PartsOrder(o, team, c, parts, subs, Value(c, subs), subs + [s], Value(c, subs + [s]));
  }

  /** For every mix of fixed, decaying, weighted and consensus challenges, a
      submission never raises the score of a team that did not make it ... */
  lemma SubmissionNeverRaisesOthers(w: World, team: Team, subs: seq<Submission>, s: Submission)
    requires forall c :: c in w.challenges ==> NonNegativeWeights(c) && DecaysDown(c)
    requires s.teamId != Some(team.id)
    ensures EarnedPoints(w, team, subs + [s]) <= EarnedPoints(w, team, subs)
  {
    forall i | 0 <= i < |w.challenges|
      ensures ChallengePoints(w.oracle, team, w.challenges[i], subs + [s], SolveCounts(subs + [s]))
           <= ChallengePoints(w.oracle, team, w.challenges[i], subs, SolveCounts(subs))
    {
      OthersChallengePoints(w.oracle, team, w.challenges[i], subs, s);
    }
    SolvesOrder(w.oracle, team, w.challenges, subs + [s], SolveCounts(subs + [s]), subs, SolveCounts(subs));
  }

  /** ... and never lowers the score of the team that made it, or of any team
      when no challenge can fall in value. */
  lemma SubmissionNeverLowers(w: World, team: Team, subs: seq<Submission>, s: Submission)
    requires forall c :: c in w.challenges ==> NonNegativeWeights(c)
    requires s.teamId == Some(team.id) || forall c :: c in w.challenges ==> NeverFalls(c.mode)
    ensures EarnedPoints(w, team, subs) <= EarnedPoints(w, team, subs + [s])
  {
    forall i | 0 <= i < |w.challenges|
      ensures ChallengePoints(w.oracle, team, w.challenges[i], subs, SolveCounts(subs))
           <= ChallengePoints(w.oracle, team, w.challenges[i], subs + [s], SolveCounts(subs + [s]))
    {
      OwnChallengePoints(w.oracle, team, w.challenges[i], subs, s);
    }
    SolvesOrder(w.oracle, team, w.challenges, subs, SolveCounts(subs), subs + [s], SolveCounts(subs + [s]));
  }
}
