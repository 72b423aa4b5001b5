/** What the challenge pages show, against what submit and the scoreboard do. */
module ChallengeViews {
  import opened Prelude
  import opened Text
  import opened Flags
  import opened Ledger
  import opened Scoring
  import opened Scoreboard
  import opened Solve
  import opened Runs
  import opened Monotonicity

  method ChallengeSolveCounts(submissions: seq<Submission>) returns (counts: map<string, set<string>>)
    ensures counts == SolveCounts(submissions)
  {
    counts := map[];
    for i := 0 to |submissions|
      invariant counts == SolveCounts(submissions[..i])
    {
      var sub := submissions[i];
      SolverCounted(submissions, i);
      if sub.isCorrect {
        var entry := if sub.challengeId in counts then counts[sub.challengeId] else {};
        counts := counts[sub.challengeId := entry + {SolverKey(sub)}];
      }
    }
    assert submissions[..|submissions|] == submissions;
  }

  function CurrentPoints(c: Challenge, solveCount: nat): U32 {
    match c.mode
    case DynamicDecay(initial, minimum, decay) => DynamicPoints(initial, minimum, decay, AtLeastOne(solveCount))
    case _ => ParseUnsigned(c.equation, U32_MAX).GetOr(100)
  }

  /** The price shown on the page is the value the scoreboard credits. */
  lemma PageShowsBoardValue(c: Challenge, subs: seq<Submission>)
    ensures CurrentPoints(c, SolveCount(SolveCounts(subs), c.id)) == Value(c, subs)
  {
  }

  ghost predicate HitsSomePart(o: Oracle, c: Challenge, s: Submission) {
    exists k :: 0 <= k < |Parts(c)| && MatchesPart(o, Parts(c)[k], s)
  }

  lemma AcceptedHitsSomePart(w: World, c: Challenge, subs: seq<Submission>, r: SubmitRequest)
    requires Correct(w, c, r)
    ensures HitsSomePart(w.oracle, c, Record(w, c, subs, r))
  {
    var s := Record(w, c, subs, r);
    if c.flag.Multi? {
      FirstMatchingIsFirst(w.oracle, c.flag.partials, r.flag, r.activeFlag);
      var k :| IsFirstMatch(w.oracle, c.flag.partials, k, r.flag, r.activeFlag);
      MatchesItself(w.oracle, c.flag.partials[k].validator, r.flag, r.activeFlag);
      assert MatchesPart(w.oracle, Parts(c)[k], s);
    } else {
      assert MatchesPart(w.oracle, Parts(c)[0], s);
    }
  }

  lemma {:induction false} CorrectRecordsHit(w: World, steps: seq<Step>, c: Challenge, s: Submission)
    requires FindChallenge(w.challenges, c.id) == Some(c)
    requires s in Run(w, steps).subs && CorrectOn(c.id, s)
    ensures HitsSomePart(w.oracle, c, s)
  {
    var n := |steps| - 1;
    var subs := Run(w, steps[..n]).subs;
    if s in subs {
      CorrectRecordsHit(w, steps[..n], c, s);
    } else {
      AcceptedHitsSomePart(w, c, subs, steps[n].submit);
    }
  }

  lemma {:induction false} SolvedIdsMember(
      o: Oracle, team: Team, challenges: seq<Challenge>, subs: seq<Submission>, id: string)
    ensures id in SolvedIds(o, team, challenges, subs)
       <==> exists i :: 0 <= i < |challenges| && challenges[i].id == id
                        && AnyScored(o, team, challenges[i], Parts(challenges[i]), subs)
  {
    if challenges == [] {
    } else {
      var n := |challenges| - 1;
      SolvedIdsMember(o, team, challenges[..n], subs, id);
      forall i | 0 <= i < n ensures challenges[..n][i] == challenges[i] {}
    }
  }

  function Listed(o: Oracle, team: Team, subs: seq<Submission>): Challenge -> bool {
    (c: Challenge) => exists k :: 0 <= k < |Parts(c)| && Scored(o, team, c, Parts(c)[k], subs)
  }

  function IdsOf(challenges: seq<Challenge>): seq<string> {
    seq(|challenges|, i requires 0 <= i < |challenges| => challenges[i].id)
  }

  /** The list is in challenge order, with one entry for each challenge scored in part
      or whole. */
  lemma {:induction false} SolvedIdsInOrder(o: Oracle, team: Team, challenges: seq<Challenge>, subs: seq<Submission>)
    ensures SolvedIds(o, team, challenges, subs) == IdsOf(Filter(challenges, Listed(o, team, subs)))
  {
    if challenges == [] {
    } else {
      var n := |challenges| - 1;
      SolvedIdsInOrder(o, team, challenges[..n], subs);
      assert Listed(o, team, subs)(challenges[n]) <==> AnyScored(o, team, challenges[n], Parts(challenges[n]), subs);
    }
  }

  /** Whatever the scoreboard lists for a team, the page marks as solved. */
  lemma ListedIsMarked(
      o: Oracle, team: Team, challenges: seq<Challenge>, subs: seq<Submission>, id: string, accountId: string)
    requires id in SolvedIds(o, team, challenges, subs)
    ensures id in SolvedIdsOf(subs, Some(team.id), accountId)
  {
    SolvedIdsMember(o, team, challenges, subs, id);
    var i :| 0 <= i < |challenges| && challenges[i].id == id
             && AnyScored(o, team, challenges[i], Parts(challenges[i]), subs);
    var c := challenges[i];
    var j :| 0 <= j < |Parts(c)| && Scored(o, team, c, Parts(c)[j], subs);
    var s := ScoredHasHit(o, team, c, Parts(c)[j], subs);
  }

  /** For a challenge without consensus, in every reachable state, the page marks it
      solved for a team exactly when the scoreboard lists it among the team's solves. */
  lemma SolvedMarksAgree(w: World, team: Team, steps: seq<Step>, k: int, accountId: string)
    requires UniqueIds(w) && 0 <= k < |w.challenges| && !w.challenges[k].teamConsensus
    ensures w.challenges[k].id in SolvedIdsOf(Run(w, steps).subs, Some(team.id), accountId)
       <==> w.challenges[k].id in SolvedIds(w.oracle, team, w.challenges, Run(w, steps).subs)
  {
    var c := w.challenges[k];
    var subs := Run(w, steps).subs;
    FindChallengeByIndex(w.challenges, k);
    SolvedIdsMember(w.oracle, team, w.challenges, subs, c.id);
    if c.id in SolvedIdsOf(subs, Some(team.id), accountId) {
      var s :| s in subs && CorrectOn(c.id, s) && s.teamId == Some(team.id);
      CorrectRecordsHit(w, steps, c, s);
      var j :| 0 <= j < |Parts(c)| && MatchesPart(w.oracle, Parts(c)[j], s);
      assert Hit(w.oracle, team.id, c.id, Parts(c)[j], s);
      assert Scored(w.oracle, team, c, Parts(c)[j], subs);
    } else if c.id in SolvedIds(w.oracle, team, w.challenges, subs) {
      ListedIsMarked(w.oracle, team, w.challenges, subs, c.id, accountId);
    }
  }
}
