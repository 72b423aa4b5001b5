/** Runs in which a later partial flag is miscounted: the second flag of a challenge's
    only solver is priced for two solvers, and announced as first blood like the first. */
module LaterPartials {
  import opened Prelude
  import opened Flags
  import opened Ledger
  import opened Solve
  import opened Runs
  import opened Agreement
  import opened FirstBlood

  const LEFT := PartialFlag("left", Static("x"), 0.5)
  const RIGHT := PartialFlag("right", Static("y"), 0.5)
  const CREW := Team("crew", "Crew", ["ann"], "open")

  function Halves(consensus: bool): Challenge {
    Challenge("rev", DynamicDecay(100, 0, 1), "", Multi([LEFT, RIGHT]), [], [], consensus, Visible, None)
  }

  /** The event is that of a solo player, or of a consensus team of one. */
  function Event(o: Oracle, teamId: Option<string>): World {
    World([Halves(teamId.Some?)], [CREW], o, FloorZero)
  }

  function First(teamId: Option<string>): SubmitRequest {
    SubmitRequest("rev", teamId, "ann", "x", None, 1)
  }

  function Second(teamId: Option<string>): SubmitRequest {
    SubmitRequest("rev", teamId, "ann", "y", None, 2)
  }

  lemma Verdicts(o: Oracle, teamId: Option<string>)
    ensures FindChallenge(Event(o, teamId).challenges, "rev") == Some(Halves(teamId.Some?))
    ensures FindTeam(Event(o, teamId).teams, "crew") == Some(CREW)
    ensures Matched(Event(o, teamId), Halves(teamId.Some?), First(teamId)) == Some(LEFT)
    ensures Matched(Event(o, teamId), Halves(teamId.Some?), Second(teamId)) == Some(RIGHT)
  {
    FirstOfTwo(o, LEFT, RIGHT, "x", None);
    FirstOfTwo(o, LEFT, RIGHT, "y", None);
  }

  predicate SolvedByAnn(teamId: Option<string>, s: Submission) {
    CorrectOn("rev", s) && s.teamId == teamId && s.accountId == "ann"
  }

  lemma FirstAccepted(o: Oracle, teamId: Option<string>) returns (a: Submission)
    ensures Assess(Event(o, teamId), [], First(teamId)) == Ok(a)
    ensures SolvedByAnn(teamId, a) && a.providedFlag == "x"
  {
    Verdicts(o, teamId);
    assert Existing([], First(teamId)) == [];
    a := Record(Event(o, teamId), Halves(teamId.Some?), [], First(teamId));
  }

  lemma SecondAccepted(o: Oracle, teamId: Option<string>, a: Submission) returns (b: Submission)
    requires a.providedFlag == "x"
    ensures Assess(Event(o, teamId), [a], Second(teamId)) == Ok(b) && SolvedByAnn(teamId, b)
  {
    var r := Second(teamId);
    b := Record(Event(o, teamId), Halves(teamId.Some?), [a], r);
    Verdicts(o, teamId);
    forall s | s in Existing([a], r)
      ensures s == a
    {
      FilterMember([a], SolveOf(r.challengeId, r.teamId, r.accountId), s);
    }
  }

  lemma OneSolver(teamId: Option<string>, a: Submission, b: Submission)
    requires SolvedByAnn(teamId, a) && SolvedByAnn(teamId, b)
    ensures Solvers([a], "rev") == Solvers([a, b], "rev") == {SolverKey(a)}
    ensures SolvingAccounts([a], "rev") == {"ann"}
  {
  }

  lemma SoloCountedAgain(w: World, c: Challenge, subs: seq<Submission>, r: SubmitRequest)
    requires r.teamId.None? && |SolvingAccounts(subs, c.id)| == 1
    ensures NextSolveCount(w, c, subs, r) == 2
  {
  }

  /** A team of one that has solved is complete, and counted again. */
  lemma TeamCountedAgain(w: World, c: Challenge, team: Team, a: Submission, b: Submission, r: SubmitRequest)
    requires c.teamConsensus && FindTeam(w.teams, team.id) == Some(team) && team.memberIds == [r.accountId]
    requires r.challengeId == c.id && r.teamId == Some(team.id)
    requires CorrectOn(c.id, a) && a.teamId == r.teamId && a.accountId == r.accountId
    requires CorrectOn(c.id, b) && b.teamId == r.teamId && b.accountId == r.accountId
    requires Solvers([a] + [b], c.id) == {team.id}
    ensures NextSolveCount(w, c, [a], r) == 2
  {
    assert a in [a] && SolvedFor([a], c.id, team.id, r.accountId);
    ConsensusNextCount(w, c, [a], r, b, team);
    FullTeamsAreSolvers(w, c, [a] + [b]);
    FullTeamsAfter(w, c, [a], b, team);
    assert FullSolveTeams(w, c, [a] + [b]) == {team.id};
  }

  /** Two accepted flags on one challenge, which leave it with a single solver. */
  ghost predicate TwoFlags(w: World, p: SubmitRequest, q: SubmitRequest, a: Submission, b: Submission) {
    && p.challengeId == q.challengeId
    && Assess(w, [], p) == Ok(a) && Assess(w, [a], q) == Ok(b) && a.isCorrect && b.isCorrect
    && |Solvers([a], p.challengeId)| == 1 && |Solvers([a, b], p.challengeId)| == 1
  }

  lemma SecondMiscounted(w: World, c: Challenge, p: SubmitRequest, q: SubmitRequest, a: Submission, b: Submission)
    requires TwoFlags(w, p, q, a, b) && c.id == p.challengeId && NextSolveCount(w, c, [a], q) == 2
    ensures var subs := Run(w, [Submit(p)]).subs;
      && SubmitAnswer(w, subs, q).Ok?
      && NextSolveCount(w, c, subs, q) == 2 && |Solvers(SubmitLog(w, subs, q), c.id)| == 1
  {
    RunOne(w, Submit(p));
    assert [] + [a] == [a] && [a] + [b] == [a, b];
  }

  lemma BothAnnounced(
      w: World, cfg: NotificationConfig, p: SubmitRequest, q: SubmitRequest, a: Submission, b: Submission)
    requires cfg.broadcastSolves && cfg.broadcastFirstBloods && TwoFlags(w, p, q, a, b)
    ensures Announcements(w, cfg, [Submit(p)] + [Submit(q)])
         == [Announcement(p.challengeId, FirstBloodKind)] + [Announcement(q.challengeId, FirstBloodKind)]
  {
    RunOne(w, Submit(p));
    assert [] + [a] == [a] && [a] + [b] == [a, b];
    FirstAnnounced(w, cfg, p, a);
    OneMoreFirstBlood(w, cfg, [Submit(p)], [a], q, b);
  }

  lemma OneSolverAnnounced(w: World, cfg: NotificationConfig, subs: seq<Submission>, r: SubmitRequest, s: Submission)
    requires cfg.broadcastSolves && cfg.broadcastFirstBloods
    requires Assess(w, subs, r) == Ok(s) && s.isCorrect && |Solvers(subs + [s], r.challengeId)| == 1
    ensures Announce(w, cfg, subs, r) == [Announcement(r.challengeId, FirstBloodKind)]
  {
    AnnouncedFromLog(w, cfg, subs, r);
  }

  lemma OneMoreFirstBlood(
      w: World, cfg: NotificationConfig, steps: seq<Step>, subs: seq<Submission>, r: SubmitRequest, s: Submission)
    requires cfg.broadcastSolves && cfg.broadcastFirstBloods && Run(w, steps).subs == subs
    requires Assess(w, subs, r) == Ok(s) && s.isCorrect && |Solvers(subs + [s], r.challengeId)| == 1
    ensures Announcements(w, cfg, steps + [Submit(r)])
         == Announcements(w, cfg, steps) + [Announcement(r.challengeId, FirstBloodKind)]
  {
    AnnouncementsSnoc(w, cfg, steps, r);
    OneSolverAnnounced(w, cfg, subs, r, s);
  }

  lemma FirstAnnounced(w: World, cfg: NotificationConfig, r: SubmitRequest, s: Submission)
    requires cfg.broadcastSolves && cfg.broadcastFirstBloods
    requires Assess(w, [], r) == Ok(s) && s.isCorrect && |Solvers([s], r.challengeId)| == 1
    ensures Announcements(w, cfg, [Submit(r)]) == [Announcement(r.challengeId, FirstBloodKind)]
  {
    assert [] + [s] == [s] && [] + [Submit(r)] == [Submit(r)];
    OneMoreFirstBlood(w, cfg, [], [], r, s);
  }

  lemma AnnouncementsSnoc(w: World, cfg: NotificationConfig, steps: seq<Step>, r: SubmitRequest)
    ensures Announcements(w, cfg, steps + [Submit(r)])
         == Announcements(w, cfg, steps) + Announce(w, cfg, Run(w, steps).subs, r)
  {
    assert (steps + [Submit(r)])[..|steps|] == steps;
  }

  /** Of a solo player, and of the only member of a consensus team, a reachable state
      in which the counts differ, 2 against 1, and both flags are announced as first blood. */
  lemma LaterPartialMiscounted(o: Oracle, cfg: NotificationConfig, teamId: Option<string>)
    returns (steps: seq<Step>, r: SubmitRequest)
    requires cfg.broadcastSolves && cfg.broadcastFirstBloods && (teamId == None || teamId == Some("crew"))
    ensures var w, subs := Event(o, teamId), Run(Event(o, teamId), steps).subs;
      && SubmitAnswer(w, subs, r).Ok? && r.teamId == teamId
      && NextSolveCount(w, Halves(teamId.Some?), subs, r) == 2 && |Solvers(SubmitLog(w, subs, r), "rev")| == 1
    ensures Announcements(Event(o, teamId), cfg, steps + [Submit(r)])
         == [Announcement("rev", FirstBloodKind)] + [Announcement("rev", FirstBloodKind)]
  {
    var w, c := Event(o, teamId), Halves(teamId.Some?);
    steps, r := [Submit(First(teamId))], Second(teamId);
    var a := FirstAccepted(o, teamId);
    var b := SecondAccepted(o, teamId, a);
    OneSolver(teamId, a, b);
    CountedAgain(o, teamId, a, b);
    SecondMiscounted(w, c, First(teamId), r, a, b);
    BothAnnounced(w, cfg, First(teamId), r, a, b);
  }

  lemma CountedAgain(o: Oracle, teamId: Option<string>, a: Submission, b: Submission)
    requires teamId == None || teamId == Some("crew")
    requires SolvedByAnn(teamId, a) && SolvedByAnn(teamId, b)
    ensures NextSolveCount(Event(o, teamId), Halves(teamId.Some?), [a], Second(teamId)) == 2
  {
    OneSolver(teamId, a, b);
    if teamId.None? {
      SoloCountedAgain(Event(o, teamId), Halves(false), [a], Second(teamId));
    } else {
      Verdicts(o, teamId);
      assert [a] + [b] == [a, b];
      TeamCountedAgain(Event(o, teamId), Halves(true), CREW, a, b, Second(teamId));
    }
  }
}
