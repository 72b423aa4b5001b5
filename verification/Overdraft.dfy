/** Which scoring modes the gate can be trusted with: in every other mode a team
    that could pay for its hint owes more than it has once enough other teams have
    solved the challenge. */
module Overdraft {
  import opened Prelude
  import opened Flags
  import opened Ledger
  import opened Scoring
  import opened Scoreboard
  import opened Solve
  import opened Hints
  import opened Runs
  import opened Monotonicity
  import opened GateSolvency

  // One challenge, whose hint costs all it is worth at first, and any number of teams.

  predicate Falls(mode: ScoringMode) {
    mode.DynamicDecay? && mode.minimum < mode.initial
  }

  function PricedChallenge(mode: ScoringMode): Challenge
    requires Falls(mode)
  {
    Challenge("pwn", mode, "", Static("flag"), [Hint("look", Fixed(mode.initial))], [], false, Visible, None)
  }

  function Tally(i: nat): string {
    seq(i, _ => '|')
  }

  function TeamNo(i: nat): Team {
    Team(Tally(i), Tally(i), [Tally(i) + "captain"], "open")
  }

  function Event(o: Oracle, mode: ScoringMode, last: nat): World
    requires Falls(mode)
  {
    World([PricedChallenge(mode)], seq(last + 1, i requires 0 <= i => TeamNo(i)), o, Gate)
  }

  function SolveBy(i: nat): SubmitRequest {
    SubmitRequest("pwn", Some(Tally(i)), Tally(i) + "captain", "flag", None, i)
  }

  const ASK := UnlockRequest("pwn", 0, Some(Tally(0)), Tally(0) + "captain", 0, false)

  /** Team 0 solves and buys the hint; then teams 1 to `last` solve as well. */
  function Crowd(last: nat): seq<Step> {
    if last == 0 then [Submit(SolveBy(0)), Unlock(ASK)] else Crowd(last - 1) + [Submit(SolveBy(last))]
  }

  lemma Lookups(w: World, c: Challenge, team: Team)
    requires |w.challenges| > 0 && w.challenges[0] == c && |w.teams| > 0 && w.teams[0] == team
    ensures FindChallenge(w.challenges, c.id) == Some(c) && FindTeam(w.teams, team.id) == Some(team)
  {
  }

  /** A first submission of the flag by a team that has not solved yet. */
  lemma FlagAccepted(w: World, c: Challenge, subs: seq<Submission>, r: SubmitRequest)
    requires FindChallenge(w.challenges, r.challengeId) == Some(c)
    requires c.flag == Static(r.flag) && !c.teamConsensus && c.requirements == [] && c.maxAttempts.None?
    requires forall i :: 0 <= i < |subs| ==> !Owns(r.teamId, r.accountId, subs[i])
    ensures Assess(w, subs, r).Ok?
    ensures var s := Assess(w, subs, r).value; CorrectOn(c.id, s) && s.teamId == r.teamId
  {
    FilterNone(subs, SolveOf(r.challengeId, r.teamId, r.accountId));
  }

  // What a challenge without parts is worth to a team that has solved it.

  lemma OnlyChallenge(o: Oracle, team: Team, c: Challenge, subs: seq<Submission>)
    ensures PointsFromSolves(o, team, [c], subs, SolveCounts(subs))
         == ChallengePoints(o, team, c, subs, SolveCounts(subs))
  {
    assert [c][..0] == [];
  }

  lemma WholeChallenge(o: Oracle, team: Team, c: Challenge, subs: seq<Submission>, s: Submission)
    requires !c.flag.Multi? && !c.teamConsensus && s in subs && CorrectOn(c.id, s) && s.teamId == Some(team.id)
    ensures ChallengePoints(o, team, c, subs, SolveCounts(subs)) == BasePoints(c, |Solvers(subs, c.id)|)
  {
    SolveCountsAgree(subs, c.id);
    OnePart(o, team, c, Whole, subs, Value(c, subs));
    assert Hit(o, team.id, c.id, Whole, s);
    assert Parts(c) == [Whole];
  }

  lemma SolverEarns(w: World, c: Challenge, team: Team, subs: seq<Submission>, s: Submission)
    requires w.challenges == [c] && !c.flag.Multi? && !c.teamConsensus
    requires s in subs && CorrectOn(c.id, s) && s.teamId == Some(team.id)
    ensures EarnedPoints(w, team, subs) == BasePoints(c, |Solvers(subs, c.id)|)
  {
    OnlyChallenge(w.oracle, team, c, subs);
    WholeChallenge(w.oracle, team, c, subs, s);
  }

  // The run.

  /** The log after teams 0 to `last` have solved, each once. */
  ghost predicate SolvedInTurn(subs: seq<Submission>, last: nat) {
    |subs| == last + 1
    && forall i :: 0 <= i <= last ==> CorrectOn("pwn", subs[i]) && subs[i].teamId == Some(Tally(i))
  }

  lemma {:induction false} SolversInTurn(subs: seq<Submission>, last: nat)
    requires SolvedInTurn(subs, last)
    ensures |Solvers(subs, "pwn")| == last + 1
    ensures forall key :: key in Solvers(subs, "pwn") ==> |key| <= last
  {
    var before := subs[..last];
    assert subs == before + [subs[last]];
    SolversSnoc(before, subs[last], "pwn");
    if last == 0 {
      assert Solvers([], "pwn") == {};
    } else {
      SolversInTurn(before, last - 1);
      assert Tally(last) !in Solvers(before, "pwn");
    }
  }

  /** Team 0 has earned the full value and spends it all. */
  lemma HintBought(w: World, c: Challenge, team: Team, a: Submission, r: UnlockRequest, price: U32)
    requires w.challenges == [c] && w.deduction == Gate && FindTeam(w.teams, team.id) == Some(team)
    requires FindChallenge(w.challenges, r.challengeId) == Some(c) && c.visibility == Visible && c.requirements == []
    requires r.hintIndex == 0 && |c.hints| == 1 && c.hints[0].cost == Fixed(price)
    requires r.teamId == Some(team.id)
    requires EarnedPoints(w, team, [a]) == price
    ensures UnlockLog(w, [a], [], r)
         == [HintUnlock(r.challengeId, 0, r.teamId, r.accountId, price, r.now)]
  {
    assert Filter([], UnlockedBy(r.teamId, None)) == [];
    assert PriorUnlock([], r) == None;
    assert SpentPoints([], team.id) == 0;
    assert Cost(w, c, [a], r) == price;
  }

  lemma SpentOnOne(u: HintUnlock, teamId: string)
    requires u.teamId == Some(teamId)
    ensures SpentPoints([u], teamId) == u.cost
  {
    SpentSnoc([], u, teamId);
    assert [] + [u] == [u] && SpentPoints([], teamId) == 0;
  }

  lemma RunStart(w: World, a: Submission, unlocks: seq<HintUnlock>, r: SubmitRequest, q: UnlockRequest)
    requires Assess(w, [], r) == Ok(a) && UnlockLog(w, [a], [], q) == unlocks
    ensures Run(w, [Submit(r), Unlock(q)]) == State([a], unlocks)
  {
    RunTwo(w, Submit(r), Unlock(q));
    assert [] + [a] == [a];
  }

  lemma CrowdStarts(w: World, c: Challenge, team: Team, mode: ScoringMode)
    requires Falls(mode) && c == PricedChallenge(mode) && w.challenges == [c] && w.deduction == Gate
    requires team.id == Tally(0) && FindTeam(w.teams, team.id) == Some(team)
    ensures var st := Run(w, Crowd(0)); SolvedInTurn(st.subs, 0) && SpentPoints(st.unlocks, team.id) == mode.initial
  {
    var r := SolveBy(0);
    assert FindChallenge(w.challenges, c.id) == Some(c);
    FlagAccepted(w, c, [], r);
    var a := Assess(w, [], r).value;
    SolversInTurn([a], 0);
    SolverEarns(w, c, team, [a], a);
    HintBought(w, c, team, a, ASK, mode.initial);
    var u := HintUnlock("pwn", 0, ASK.teamId, ASK.accountId, mode.initial, 0);
    SpentOnOne(u, team.id);
    RunStart(w, a, [u], r, ASK);
  }

  lemma OneMoreSolves(w: World, c: Challenge, subs: seq<Submission>, last: nat)
    requires last >= 1 && SolvedInTurn(subs, last - 1)
    requires w.challenges == [c] && c.id == "pwn" && c.flag == Static("flag")
    requires !c.teamConsensus && c.requirements == [] && c.maxAttempts.None?
    ensures SolvedInTurn(SubmitLog(w, subs, SolveBy(last)), last)
  {
    var r := SolveBy(last);
    forall i | 0 <= i < |subs|
      ensures !Owns(r.teamId, r.accountId, subs[i])
    {
      assert |Tally(i)| == i && |Tally(last)| == last;
    }
    assert FindChallenge(w.challenges, c.id) == Some(c);
    FlagAccepted(w, c, subs, r);
  }

  lemma {:induction false} CrowdSolves(w: World, c: Challenge, team: Team, mode: ScoringMode, last: nat)
    requires Falls(mode) && c == PricedChallenge(mode) && w.challenges == [c] && w.deduction == Gate
    requires team.id == Tally(0) && FindTeam(w.teams, team.id) == Some(team)
    ensures var st := Run(w, Crowd(last));
      SolvedInTurn(st.subs, last) && SpentPoints(st.unlocks, team.id) == mode.initial
  {
    if last == 0 {
      CrowdStarts(w, c, team, mode);
    } else {
      CrowdSolves(w, c, team, mode, last - 1);
      RunSnoc(w, Crowd(last - 1), Submit(SolveBy(last)));
      OneMoreSolves(w, c, Run(w, Crowd(last - 1)).subs, last);
    }
  }

  // The value has fallen by then.

  lemma LessThanHalf(v: real, span: real, a: real, b: real)
    requires v * (a + b) == span * a && 0.0 <= a < b && span > 0.0
    ensures v < span / 2.0
  {
    var half := span / 2.0;
    assert (half - v) * (a + b) == half * (b - a);
    assert half * (b - a) > 0.0;
    PositiveFactor(half - v, a + b);
  }

  lemma PositiveFactor(x: real, y: real)
    requires x * y > 0.0 && y > 0.0
    ensures x > 0.0
  {
  }

  lemma RoundBelow(v: real, n: nat)
    requires v < n as real - 0.5
    ensures Round(v) < n
  {
  }

  lemma SquareLarger(n: nat)
    ensures Square(n) < Square(n + 1)
  {
  }

  /** After `decay + 2` solves a challenge that can fall has fallen. */
  lemma FallenByThen(initial: U32, minimum: U32, decay: U32)
    requires minimum < initial
    ensures DynamicPoints(initial, minimum, decay, decay + 2) < initial
  {
    var v := DecayedValue(initial, minimum, decay, decay + 1);
    DecayEquation(initial, minimum, decay, decay + 1);
    SquareLarger(decay);
    LessThanHalf(v - minimum as real, initial as real - minimum as real,
                 Square(decay) as real, Square(decay + 1) as real);
    RoundBelow(v, initial);
  }

  lemma EventIsProper(o: Oracle, mode: ScoringMode, last: nat)
    requires Falls(mode)
    ensures UniqueIds(Event(o, mode, last)) && FindTeam(Event(o, mode, last).teams, Tally(0)) == Some(TeamNo(0))
  {
    var w := Event(o, mode, last);
    assert |w.teams| == last + 1 && forall i :: 0 <= i <= last ==> |w.teams[i].id| == i;
    Lookups(w, PricedChallenge(mode), TeamNo(0));
  }

  lemma InsolventByThen(w: World, c: Challenge, team: Team, mode: ScoringMode, st: State)
    requires Falls(mode) && c == PricedChallenge(mode) && w.challenges == [c] && team.id == Tally(0)
    requires SolvedInTurn(st.subs, mode.decay + 1) && SpentPoints(st.unlocks, team.id) == mode.initial
    ensures !Solvent(w, team, st)
  {
    SolversInTurn(st.subs, mode.decay + 1);
    SolverEarns(w, c, team, st.subs, st.subs[0]);
    FallenByThen(mode.initial, mode.minimum, mode.decay);
  }

  /** In every mode that can fall, a run under the gate that leaves a team insolvent. */
  lemma DecayCanOverdraw(o: Oracle, mode: ScoringMode) returns (w: World, team: Team, steps: seq<Step>)
    requires Falls(mode)
    ensures w.oracle == o && w.deduction == Gate && UniqueIds(w) && FindTeam(w.teams, team.id) == Some(team)
    ensures forall c :: c in w.challenges ==> NonNegativeWeights(c) && c.mode == mode
    ensures !Solvent(w, team, Run(w, steps))
  {
    var last: nat := mode.decay + 1;
    w, team, steps := Event(o, mode, last), TeamNo(0), Crowd(last);
    EventIsProper(o, mode, last);
    CrowdSolves(w, PricedChallenge(mode), team, mode, last);
    InsolventByThen(w, PricedChallenge(mode), team, mode, Run(w, steps));
  }

  /** Every event under the gate whose challenges have this mode, and no negative
      weights, keeps every team solvent in every run. */
  ghost predicate GateHolds(mode: ScoringMode) {
    forall w: World, team: Team, steps: seq<Step> ::
      w.deduction == Gate && FindTeam(w.teams, team.id) == Some(team)
      && (forall c :: c in w.challenges ==> NonNegativeWeights(c) && c.mode == mode) ==>
        Solvent(w, team, Run(w, steps))
  }

  /** The gate keeps its promise exactly in the modes that solves cannot make cheaper. */
  lemma GateHoldsExactly(mode: ScoringMode)
    ensures GateHolds(mode) <==> NeverFalls(mode)
  {
    if NeverFalls(mode) {
      forall w: World, team: Team, steps: seq<Step> |
        w.deduction == Gate && FindTeam(w.teams, team.id) == Some(team)
        && forall c :: c in w.challenges ==> NonNegativeWeights(c) && c.mode == mode
        ensures Solvent(w, team, Run(w, steps))
      {
        GateNeverOverdraws(w, team, steps);
      }
    } else {
      var o := Oracle((p, f) => false, (s, f) => false, (s, n, t) => None);
      var w, team, steps := DecayCanOverdraw(o, mode);
    }
  }
}
