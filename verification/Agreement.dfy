/** The points snapshotted at submission against the points recomputed from the log. */
module Agreement {
  import opened Prelude
  import opened Ledger
  import opened Scoreboard
  import opened Solve
  import opened Monotonicity

  function MatchedPart(w: World, c: Challenge, r: SubmitRequest): Part {
    var pf := Matched(w, c, r);
    if pf.Some? then Piece(pf.value) else Whole
  }

  // Solver counts: the one submit extrapolates and the one rebuilt afterwards.

  ghost predicate ByKnownTeam(w: World, s: Submission) {
    s.teamId.Some? && FindTeam(w.teams, s.teamId.value).Some?
  }

  ghost predicate SolvedOnlyByKnownTeams(w: World, subs: seq<Submission>, challengeId: string) {
    forall s :: s in subs && CorrectOn(challengeId, s) ==> ByKnownTeam(w, s)
  }

  /** No account id of a solo solver is also the id of a team. */
  ghost predicate IdsDisjoint(subs: seq<Submission>, challengeId: string, teamIds: set<string>) {
    forall s :: s in subs && CorrectOn(challengeId, s) && s.teamId.None? ==> s.accountId !in teamIds
  }

  lemma ExistingDecides(subs: seq<Submission>, r: SubmitRequest)
    ensures Existing(subs, r) == []
       <==> forall s :: s in subs && CorrectOn(r.challengeId, s) ==> !Owns(r.teamId, r.accountId, s)
  {
    var keep := SolveOf(r.challengeId, r.teamId, r.accountId);
    forall s ensures s in Existing(subs, r) <==> s in subs && keep(s) {
      FilterMember(subs, keep, s);
    }
    if Existing(subs, r) != [] {
      assert Existing(subs, r)[0] in Existing(subs, r);
    }
  }

  lemma KnownTeamsAreSolvers(w: World, c: Challenge, subs: seq<Submission>)
    requires !c.teamConsensus
    ensures FullSolveTeams(w, c, subs) <= Solvers(subs, c.id)
    ensures IdsDisjoint(subs, c.id, SolvingTeams(subs, c.id)) ==>
      (SolvedOnlyByKnownTeams(w, subs, c.id) <==> FullSolveTeams(w, c, subs) == Solvers(subs, c.id))
  {
    FullTeamsAreSolvers(w, c, subs);
    if SolvedOnlyByKnownTeams(w, subs, c.id) {
      forall k | k in Solvers(subs, c.id)
        ensures k in FullSolveTeams(w, c, subs)
      {
        var s :| s in subs && CorrectOn(c.id, s) && SolverKey(s) == k;
        assert ByKnownTeam(w, s);
      }
    } else {
      var s :| s in subs && CorrectOn(c.id, s) && !ByKnownTeam(w, s);
      assert SolverKey(s) in Solvers(subs, c.id);
    }
  }

  lemma ProperSubsetSmaller<T>(a: set<T>, b: set<T>)
    requires a <= b
    ensures |a| == |b| <==> a == b
  {
    assert b == a + (b - a);
  }

  /** For a team's submission on a challenge without consensus, the solve count
      that submit uses equals the number of distinct solvers after the save
      exactly when every earlier solve was made by a team that still exists. */
  lemma TeamCountAgrees(w: World, c: Challenge, subs: seq<Submission>, r: SubmitRequest, s: Submission)
    requires !c.teamConsensus && r.challengeId == c.id && r.teamId.Some?
    requires CorrectOn(c.id, s) && s.teamId == r.teamId
    requires IdsDisjoint(subs, c.id, SolvingTeams(subs, c.id) + {r.teamId.value})
    ensures NextSolveCount(w, c, subs, r) == |Solvers(subs + [s], c.id)|
       <==> SolvedOnlyByKnownTeams(w, subs, c.id)
  {
    var t := r.teamId.value;
    ExistingDecides(subs, r);
    SolversSnoc(subs, s, c.id);
    KnownTeamsAreSolvers(w, c, subs);
    ProperSubsetSmaller(FullSolveTeams(w, c, subs), Solvers(subs, c.id));
    TeamKeyMeansOwn(subs, c.id, t);
    if t in Solvers(subs, c.id) {
      assert Solvers(subs, c.id) + {t} == Solvers(subs, c.id);
    }
  }

  lemma TeamKeyMeansOwn(subs: seq<Submission>, challengeId: string, t: string)
    requires forall s :: s in subs && CorrectOn(challengeId, s) && s.teamId.None? ==> s.accountId != t
    ensures t in Solvers(subs, challengeId)
       <==> exists s :: s in subs && CorrectOn(challengeId, s) && s.teamId == Some(t)
  {
    if s :| s in subs && CorrectOn(challengeId, s) && s.teamId == Some(t) {
      assert SolverKey(s) == t;
    }
  }

  /** A solo player's submission is priced by accounts, and as one more of them each
      time; the scoreboard counts teams and solo accounts. So the two counts agree
      exactly when there were as many solving accounts as solvers, or one less where
      the account was a solver already. */
  lemma SoloCountAgrees(w: World, c: Challenge, subs: seq<Submission>, r: SubmitRequest, s: Submission)
    requires r.challengeId == c.id && r.teamId.None?
    requires CorrectOn(c.id, s) && s.teamId.None? && s.accountId == r.accountId
    ensures NextSolveCount(w, c, subs, r) == |Solvers(subs + [s], c.id)|
       <==> |SolvingAccounts(subs, c.id)| + (if r.accountId in Solvers(subs, c.id) then 1 else 0)
            == |Solvers(subs, c.id)|
  {
    SolversSnoc(subs, s, c.id);
    if r.accountId in Solvers(subs, c.id) {
      assert Solvers(subs, c.id) + {r.accountId} == Solvers(subs, c.id);
    }
  }

  /** Where all solvers play solo that means: on the account's first correct submission. */
  lemma SoloCountAgreesAmongSolo(w: World, c: Challenge, subs: seq<Submission>, r: SubmitRequest, s: Submission)
    requires r.challengeId == c.id && r.teamId.None?
    requires CorrectOn(c.id, s) && s.teamId.None? && s.accountId == r.accountId
    requires forall x :: x in subs && CorrectOn(c.id, x) ==> x.teamId.None?
    ensures NextSolveCount(w, c, subs, r) == |Solvers(subs + [s], c.id)| <==> Existing(subs, r) == []
  {
    SoloCountAgrees(w, c, subs, r, s);
    ExistingDecides(subs, r);
    assert SolvingAccounts(subs, c.id) == Solvers(subs, c.id);
  }

  /** The solve count that submit priced the record by is that of the rebuilt log. */
  ghost predicate CountsAgree(w: World, c: Challenge, subs: seq<Submission>, r: SubmitRequest) {
    NextSolveCount(w, c, subs, r) == |Solvers(SubmitLog(w, subs, r), c.id)|
  }

  lemma BaseIsValue(w: World, c: Challenge, subs: seq<Submission>, r: SubmitRequest, s: Submission)
    requires SubmitLog(w, subs, r) == subs + [s] && CorrectOn(c.id, s)
    requires FixedValue(c) || CountsAgree(w, c, subs, r)
    ensures BasePoints(c, AtLeastOne(NextSolveCount(w, c, subs, r))) == Value(c, subs + [s])
  {
    SolversSnoc(subs, s, c.id);
    SolveCountsAgree(subs + [s], c.id);
    assert SolverKey(s) in Solvers(subs + [s], c.id);
    assert |Solvers(subs + [s], c.id)| >= 1;
  }

  /** What submit stores is what the scoreboard credits right after the save, for
      whole challenges and partials, teams and solo players, with and without
      consensus: wherever the counts agree or do not matter, and exactly when the
      weighted value fits the unsigned 32-bit field. */
  lemma StoredEqualsCredited(w: World, c: Challenge, subs: seq<Submission>, r: SubmitRequest)
    requires FindChallenge(w.challenges, r.challengeId) == Some(c)
    requires Assess(w, subs, r).Ok? && Assess(w, subs, r).value.isCorrect
    requires FixedValue(c) || CountsAgree(w, c, subs, r)
    ensures var value := Value(c, SubmitLog(w, subs, r));
      && (MatchedPart(w, c, r).Whole? ==> Assess(w, subs, r).value.points == value)
      && (MatchedPart(w, c, r).Piece? ==>
            var exact := Weighted(value, MatchedPart(w, c, r).partial.weight);
            Assess(w, subs, r).value.points == PartPoints(MatchedPart(w, c, r), value) <==> 0 <= exact <= U32_MAX)
  {
    BaseIsValue(w, c, subs, r, Assess(w, subs, r).value);
  }

  /** For a team, on a challenge without consensus that only known teams have solved,
      the counts do agree. */
  lemma KnownTeamsCountsAgree(w: World, c: Challenge, subs: seq<Submission>, r: SubmitRequest)
    requires FindChallenge(w.challenges, r.challengeId) == Some(c) && !c.teamConsensus
    requires Assess(w, subs, r).Ok? && Assess(w, subs, r).value.isCorrect
    requires r.teamId.Some? && SolvedOnlyByKnownTeams(w, subs, c.id)
    ensures CountsAgree(w, c, subs, r)
  {
    TeamCountAgrees(w, c, subs, r, Assess(w, subs, r).value);
  }

  // Consensus challenges.

  /** Every member of the team already has a correct submission of its own. */
  ghost predicate AlreadyComplete(team: Team, subs: seq<Submission>, challengeId: string) {
    forall m :: m in team.memberIds ==> SolvedFor(subs, challengeId, team.id, m)
  }

  lemma ExistingSolvers(subs: seq<Submission>, r: SubmitRequest, m: string)
    requires r.teamId.Some?
    ensures (exists x :: x in Existing(subs, r) && x.accountId == m)
       <==> SolvedFor(subs, r.challengeId, r.teamId.value, m)
  {
    var keep := SolveOf(r.challengeId, r.teamId, r.accountId);
    forall s ensures s in Existing(subs, r) <==> s in subs && keep(s) {
      FilterMember(subs, keep, s);
    }
  }

  lemma ReachesMeansComplete(w: World, c: Challenge, subs: seq<Submission>, r: SubmitRequest, s: Submission, team: Team)
    requires c.teamConsensus && r.challengeId == c.id && r.teamId == Some(team.id)
    requires FindTeam(w.teams, team.id) == Some(team)
    requires CorrectOn(c.id, s) && s.teamId == r.teamId && s.accountId == r.accountId
    ensures ReachesConsensus(w, c, Existing(subs, r), r) <==> AlreadyComplete(team, subs + [s], c.id)
  {
    forall m | m in team.memberIds
      ensures SolvedFor(subs + [s], c.id, team.id, m)
         <==> m == r.accountId || exists x :: x in Existing(subs, r) && x.accountId == m
    {
      ExistingSolvers(subs, r, m);
      SolvedForSnoc(subs, s, c.id, team.id, m);
    }
  }

  lemma FullTeamsAfter(w: World, c: Challenge, subs: seq<Submission>, s: Submission, team: Team)
    requires c.teamConsensus && FindTeam(w.teams, team.id) == Some(team)
    requires CorrectOn(c.id, s) && s.teamId == Some(team.id)
    ensures FullSolveTeams(w, c, subs + [s])
         == FullSolveTeams(w, c, subs)
            + (if team.memberIds != [] && AlreadyComplete(team, subs + [s], c.id) then {team.id} else {})
    ensures team.id in FullSolveTeams(w, c, subs) <==> team.memberIds != [] && AlreadyComplete(team, subs, c.id)
  {
    assert SolvingTeams(subs + [s], c.id) == SolvingTeams(subs, c.id) + {team.id};
    forall t, m ensures SolvedFor(subs + [s], c.id, t, m)
                   <==> SolvedFor(subs, c.id, t, m) || (t == team.id && m == s.accountId) {
      SolvedForSnoc(subs, s, c.id, t, m);
    }
    if team.memberIds != [] && AlreadyComplete(team, subs, c.id) {
      SolvedForKnown(subs, c.id, team.id, team.memberIds[0]);
    }
  }

  /** On a consensus challenge submit extrapolates the count it would find after the
      save, and one more if the team was complete before: a member's later partial, or
      anything an outsider submits for the team, is counted again. */
  lemma ConsensusNextCount(w: World, c: Challenge, subs: seq<Submission>, r: SubmitRequest, s: Submission, team: Team)
    requires c.teamConsensus && r.challengeId == c.id && r.teamId == Some(team.id)
    requires FindTeam(w.teams, team.id) == Some(team)
    requires CorrectOn(c.id, s) && s.teamId == r.teamId && s.accountId == r.accountId
    ensures NextSolveCount(w, c, subs, r)
         == LiveSolveCount(w, c, subs + [s], r.teamId) + (if AlreadyComplete(team, subs, c.id) then 1 else 0)
  {
    ReachesMeansComplete(w, c, subs, r, s, team);
    FullTeamsAfter(w, c, subs, s, team);
    forall m | m in team.memberIds && SolvedFor(subs, c.id, team.id, m)
      ensures SolvedFor(subs + [s], c.id, team.id, m)
    {
      SolvedForSnoc(subs, s, c.id, team.id, m);
    }
    var before := FullSolveTeams(w, c, subs);
    if team.id in before {
      assert before + {team.id} == before;
    }
  }

  lemma FullTeamsAreSolvers(w: World, c: Challenge, subs: seq<Submission>)
    ensures FullSolveTeams(w, c, subs) <= Solvers(subs, c.id)
  {
    forall t | t in FullSolveTeams(w, c, subs)
      ensures t in Solvers(subs, c.id)
    {
      var s :| s in subs && CorrectOn(c.id, s) && s.teamId == Some(t);
      assert SolverKey(s) == t;
    }
  }

  /** Against the scoreboard, which counts every solver, complete or not: the counts
      agree exactly when after the save no solver but complete teams is left - or, where
      the team was complete before, exactly one. */
  lemma ConsensusCountAgrees(w: World, c: Challenge, subs: seq<Submission>, r: SubmitRequest, s: Submission, team: Team)
    requires c.teamConsensus && r.challengeId == c.id && r.teamId == Some(team.id)
    requires FindTeam(w.teams, team.id) == Some(team)
    requires CorrectOn(c.id, s) && s.teamId == r.teamId && s.accountId == r.accountId
    ensures NextSolveCount(w, c, subs, r) == |Solvers(subs + [s], c.id)|
       <==> |Solvers(subs + [s], c.id) - FullSolveTeams(w, c, subs + [s])|
            == if AlreadyComplete(team, subs, c.id) then 1 else 0
  {
    ConsensusNextCount(w, c, subs, r, s, team);
    FullTeamsAreSolvers(w, c, subs + [s]);
    var full, all := FullSolveTeams(w, c, subs + [s]), Solvers(subs + [s], c.id);
    assert full + (all - full) == all;
  }

  ghost predicate ByCompleteTeam(w: World, c: Challenge, subs: seq<Submission>, x: Submission) {
    x.teamId.Some? && FullySolved(w, c, subs, x.teamId.value)
  }

  lemma OnlyCompleteTeams(w: World, c: Challenge, subs: seq<Submission>)
    requires IdsDisjoint(subs, c.id, SolvingTeams(subs, c.id))
    ensures Solvers(subs, c.id) - FullSolveTeams(w, c, subs) == {}
       <==> forall x :: x in subs && CorrectOn(c.id, x) ==> ByCompleteTeam(w, c, subs, x)
  {
    var full := FullSolveTeams(w, c, subs);
    forall x | x in subs && CorrectOn(c.id, x)
      ensures SolverKey(x) in full <==> ByCompleteTeam(w, c, subs, x)
    {
    }
    if Solvers(subs, c.id) - full == {} {
      forall x | x in subs && CorrectOn(c.id, x)
        ensures ByCompleteTeam(w, c, subs, x)
      {
        assert SolverKey(x) in Solvers(subs, c.id);
        assert SolverKey(x) !in Solvers(subs, c.id) - full;
      }
    }
  }

  /** In terms of the log: a team that was not complete before is priced by the right
      count exactly when every correct submission is then one of a complete team. */
  lemma IncompleteCountAgrees(
      w: World, c: Challenge, subs: seq<Submission>, r: SubmitRequest, s: Submission, team: Team)
    requires c.teamConsensus && r.challengeId == c.id && r.teamId == Some(team.id)
    requires FindTeam(w.teams, team.id) == Some(team) && !AlreadyComplete(team, subs, c.id)
    requires CorrectOn(c.id, s) && s.teamId == r.teamId && s.accountId == r.accountId
    requires IdsDisjoint(subs + [s], c.id, SolvingTeams(subs + [s], c.id))
    ensures NextSolveCount(w, c, subs, r) == |Solvers(subs + [s], c.id)|
       <==> forall x :: x in subs + [s] && CorrectOn(c.id, x) ==> ByCompleteTeam(w, c, subs + [s], x)
  {
    ConsensusCountAgrees(w, c, subs, r, s, team);
    OnlyCompleteTeams(w, c, subs + [s]);
  }

  /** And a team that is not known is always priced by too low a count. */
  lemma UnknownTeamCountsLow(w: World, c: Challenge, subs: seq<Submission>, r: SubmitRequest, s: Submission)
    requires c.teamConsensus && r.challengeId == c.id && r.teamId.Some?
    requires FindTeam(w.teams, r.teamId.value).None? && CorrectOn(c.id, s) && s.teamId == r.teamId
    ensures NextSolveCount(w, c, subs, r) < |Solvers(subs + [s], c.id)|
  {
    var t, full := r.teamId.value, FullSolveTeams(w, c, subs);
    FullTeamsAreSolvers(w, c, subs);
    SolversSnoc(subs, s, c.id);
    assert SolverKey(s) == t && t !in full;
    SubsetCardinality(full + {t}, Solvers(subs + [s], c.id));
  }

  /** Whole challenges: the teams that submit counts as having solved one, with or
      without consensus, are exactly the known teams that the scoreboard scores on it. */
  lemma FullTeamsAreScored(w: World, c: Challenge, subs: seq<Submission>, team: Team)
    requires !c.flag.Multi? && FindTeam(w.teams, team.id) == Some(team)
    ensures team.id in FullSolveTeams(w, c, subs) <==> Scored(w.oracle, team, c, Whole, subs)
  {
    forall m ensures SolvedFor(subs, c.id, team.id, m)
      <==> exists s :: s in subs && s.accountId == m && Hit(w.oracle, team.id, c.id, Whole, s) {
      if s :| s in subs && s.accountId == m && Hit(w.oracle, team.id, c.id, Whole, s) {
        assert SolvedFor(subs, c.id, team.id, m);
      }
    }
    if c.teamConsensus && team.memberIds != [] && SolvedFor(subs, c.id, team.id, team.memberIds[0]) {
      SolvedForKnown(subs, c.id, team.id, team.memberIds[0]);
    }
    if c.teamConsensus && team.memberIds != [] {
      assert team.memberIds[0] in team.memberIds;
    }
  }
}
