/** Under the gate no team ever owes more than it has earned. */
module GateSolvency {
  import opened Prelude
  import opened Ledger
  import opened Scoreboard
  import opened Solve
  import opened Hints
  import opened Runs
  import opened Monotonicity

  /** One more record adds its cost to its team's total, or to its account's where it
      is of no team. */
  lemma TotalSnoc(unlocks: seq<HintUnlock>, u: HintUnlock, teamId: Option<string>, accountId: Option<string>)
    ensures TotalHintCost(unlocks + [u], teamId, accountId) == TotalHintCost(unlocks, teamId, accountId)
      + match teamId
        case Some(team) => (if u.teamId == Some(team) then u.cost else 0)
        case None => (if u.teamId == None && accountId == Some(u.accountId) then u.cost else 0)
  {
    var keep := UnlockedBy(teamId, accountId);
    FilterSnoc(unlocks, u, keep);
    if keep(u) {
      assert (Filter(unlocks, keep) + [u])[..|Filter(unlocks, keep)|] == Filter(unlocks, keep);
    }
  }

  lemma SpentSnoc(unlocks: seq<HintUnlock>, u: HintUnlock, teamId: string)
    ensures SpentPoints(unlocks + [u], teamId)
         == SpentPoints(unlocks, teamId) + (if u.teamId == Some(teamId) then u.cost else 0)
  {
    TotalSnoc(unlocks, u, Some(teamId), None);
  }

  ghost predicate Solvent(w: World, team: Team, st: State) {
    SpentPoints(st.unlocks, team.id) <= EarnedPoints(w, team, st.subs)
  }

  /** The gate let the charge through, so the team could pay it. */
  lemma ChargeWasAffordable(w: World, team: Team, subs: seq<Submission>, unlocks: seq<HintUnlock>, r: UnlockRequest)
    requires w.deduction == Gate && FindTeam(w.teams, team.id) == Some(team)
    requires AssessUnlock(w, subs, unlocks, r).Charged? && r.teamId == Some(team.id)
    ensures AssessUnlock(w, subs, unlocks, r).unlock.cost
         <= EarnedPoints(w, team, subs) - SpentPoints(unlocks, team.id)
  {
    var c := FindChallenge(w.challenges, r.challengeId).value;
    assert GateError(w, subs, unlocks, r, Cost(w, c, subs, r)).None?;
  }

  lemma UnlockKeepsSolvency(w: World, team: Team, subs: seq<Submission>, unlocks: seq<HintUnlock>, r: UnlockRequest)
    requires w.deduction == Gate && FindTeam(w.teams, team.id) == Some(team)
    requires SpentPoints(unlocks, team.id) <= EarnedPoints(w, team, subs)
    ensures SpentPoints(UnlockLog(w, subs, unlocks, r), team.id) <= EarnedPoints(w, team, subs)
  {
    var a := AssessUnlock(w, subs, unlocks, r);
    if a.Charged? {
      SpentSnoc(unlocks, a.unlock, team.id);
      if r.teamId == Some(team.id) {
        ChargeWasAffordable(w, team, subs, unlocks, r);
      }
    }
  }

  /** A step keeps a team solvent if it is an unlock by anybody, a submission of
      that team, or any submission at all when no challenge can fall in value. */
  lemma StepKeepsSolvency(w: World, team: Team, st: State, step: Step)
    requires w.deduction == Gate && FindTeam(w.teams, team.id) == Some(team)
    requires forall c :: c in w.challenges ==> NonNegativeWeights(c)
    requires step.Submit? ==>
      step.submit.teamId == Some(team.id) || forall c :: c in w.challenges ==> NeverFalls(c.mode)
    requires Solvent(w, team, st)
    ensures Solvent(w, team, Next(w, st, step))
  {
    match step
    case Submit(r) =>
      var a := Assess(w, st.subs, r);
      if a.Ok? {
        SubmissionNeverLowers(w, team, st.subs, a.value);
      }
    case Unlock(r) =>
      UnlockKeepsSolvency(w, team, st.subs, st.unlocks, r);
  }

  /** Board points are exactly earned minus spent: the floor at zero never bites. */
  lemma {:induction false} GateNeverOverdraws(w: World, team: Team, steps: seq<Step>)
    requires w.deduction == Gate && FindTeam(w.teams, team.id) == Some(team)
    requires forall c :: c in w.challenges ==> NonNegativeWeights(c) && NeverFalls(c.mode)
    ensures Solvent(w, team, Run(w, steps))
    ensures var earned, spent := EarnedPoints(w, team, Run(w, steps).subs), SpentPoints(Run(w, steps).unlocks, team.id);
      ApplyHintDeduction(earned, spent, Gate) == earned - spent
  {
    if steps == [] {
      ZeroFromEmptyLog(w, team, w.challenges);
    } else {
      var n := |steps| - 1;
      GateNeverOverdraws(w, team, steps[..n]);
      StepKeepsSolvency(w, team, Run(w, steps[..n]), steps[n]);
    }
  }

  lemma {:induction false} NothingFromParts(w: World, team: Team, c: Challenge, parts: seq<Part>, base: U32)
    ensures PointsFromParts(w.oracle, team, c, parts, [], base) == 0
  {
    if parts == [] {
    } else {
      NothingScoredWithoutHits(w.oracle, team, c, parts[|parts| - 1], []);
      NothingFromParts(w, team, c, parts[..|parts| - 1], base);
    }
  }

  lemma NothingFromEmptyLog(w: World, team: Team, c: Challenge)
    ensures ChallengePoints(w.oracle, team, c, [], SolveCounts([])) == 0
  {
    NothingFromParts(w, team, c, Parts(c), BasePoints(c, SolveCount(SolveCounts([]), c.id)));
  }

  lemma {:induction false} ZeroFromEmptyLog(w: World, team: Team, challenges: seq<Challenge>)
    ensures PointsFromSolves(w.oracle, team, challenges, [], SolveCounts([])) == 0
  {
    if challenges == [] {
    } else {
      NothingFromEmptyLog(w, team, challenges[|challenges| - 1]);
      ZeroFromEmptyLog(w, team, challenges[..|challenges| - 1]);
    }
  }
}
