/** The gate against the board: a hint is refused for its price exactly when it costs
    more than the board shows for the team. */
module GateDecisions {
  import opened Prelude
  import opened Ledger
  import opened Scoreboard
  import opened Solve
  import opened Hints
  import opened Runs
  import opened Monotonicity
  import opened GateSolvency
  import opened Board
  import opened Decisions

  // The board, entry by entry.

  lemma MultisetMember<T>(a: seq<T>, b: seq<T>, x: T)
    requires multiset(a) == multiset(b)
    ensures x in a <==> x in b
  {
    assert x in multiset(a) <==> x in multiset(b);
  }

  /** Every entry of a board belongs to a team that takes part in it, and shows its
      name, its points, its last solve and its solved challenges. */
  lemma EntriesShowTeams(w: World, st: State, bracket: Option<string>, byAccuracy: bool, freeze: Option<int>, i: int)
    returns (team: Team)
    requires 0 <= i < |GetBoard(w, st, bracket, byAccuracy, freeze)|
    ensures var e, seen := GetBoard(w, st, bracket, byAccuracy, freeze)[i], Frozen(st, freeze);
      && team in w.teams && (bracket.Some? ==> team.bracket == bracket.value)
      && e.teamId == team.id && e.teamName == team.name
      && e.points
         == ApplyHintDeduction(EarnedPoints(w, team, seen.subs), SpentPoints(seen.unlocks, team.id), w.deduction)
      && e.lastSolveTime == LastSolve(w.oracle, team, w.challenges, seen.subs)
      && e.solves == SolvedIds(w.oracle, team, w.challenges, seen.subs)
  {
    var seen := Frozen(st, freeze);
    var entries := SortedEntries(w, seen, TeamsOf(w, bracket), byAccuracy);
    var unsorted := EntriesFor(w, seen, TeamsOf(w, bracket));
    BoardIsRanked(w, st, bracket, byAccuracy, freeze);
    MultisetMember(entries, unsorted, entries[i]);
    var k :| 0 <= k < |unsorted| && unsorted[k] == entries[i];
    team := TeamsOf(w, bracket)[k];
    if bracket.Some? {
      FilterMember(w.teams, InBracket(bracket.value), team);
    }
  }

  /** And every such team has one. */
  lemma TeamsHaveEntries(
      w: World, st: State, bracket: Option<string>, byAccuracy: bool, freeze: Option<int>, team: Team)
    returns (i: int)
    requires team in w.teams && (bracket.Some? ==> team.bracket == bracket.value)
    ensures 0 <= i < |GetBoard(w, st, bracket, byAccuracy, freeze)|
    ensures GetBoard(w, st, bracket, byAccuracy, freeze)[i].teamId == team.id
  {
    var seen := Frozen(st, freeze);
    var entries := SortedEntries(w, seen, TeamsOf(w, bracket), byAccuracy);
    if bracket.Some? {
      FilterMember(w.teams, InBracket(bracket.value), team);
    }
    var k :| 0 <= k < |TeamsOf(w, bracket)| && TeamsOf(w, bracket)[k] == team;
    BoardIsRanked(w, st, bracket, byAccuracy, freeze);
    var unsorted := EntriesFor(w, seen, TeamsOf(w, bracket));
    MultisetMember(entries, unsorted, unsorted[k]);
    i :| 0 <= i < |entries| && entries[i] == unsorted[k];
  }

  /** What each deduction mode makes of points and costs. */
  lemma DeductionExactly(points: int, spent: nat)
    ensures ApplyHintDeduction(points, spent, Free) == points
    ensures ApplyHintDeduction(points, spent, AllowNegative) + spent == points
    ensures forall mode :: mode == FloorZero || mode == Gate ==>
      var left := ApplyHintDeduction(points, spent, mode);
      left >= 0 && (if spent <= points then left + spent == points else left == 0)
  {
  }

  // The gate.

  /** The price is more than the team has earned less what it has spent. */
  lemma GateExactly(w: World, st: State, r: UnlockRequest, price: U32)
    ensures GateError(w, st.subs, st.unlocks, r, price) == Some(TeamNotFound)
       <==> w.deduction == Gate && r.teamId.Some? && forall t :: t in w.teams ==> t.id != r.teamId.value
    ensures GateError(w, st.subs, st.unlocks, r, price).Some? ==> w.deduction == Gate && r.teamId.Some?
    ensures forall team: Team ::
      w.deduction == Gate && r.teamId == Some(team.id) && FindTeam(w.teams, team.id) == Some(team) ==>
      (GateError(w, st.subs, st.unlocks, r, price) == Some(InsufficientPoints)
       <==> price > EarnedPoints(w, team, st.subs) - SpentPoints(st.unlocks, team.id))
  {
  }

  /** Under the gate, in any state in which a team is solvent: a hint that it may ask
      for, and has not paid, is refused for its price exactly when the price is more
      than the live board shows for the team; otherwise it is charged that price. */
  lemma GateAgreesWithBoard(w: World, c: Challenge, st: State, r: UnlockRequest, team: Team, byAccuracy: bool, i: int)
    requires w.deduction == Gate && UniqueIds(w)
    requires FindChallenge(w.challenges, r.challengeId) == Some(c) && MayAsk(c, st.subs, r) && !Paid(st.unlocks, r)
    requires r.teamId == Some(team.id) && FindTeam(w.teams, team.id) == Some(team) && Solvent(w, team, st)
    requires 0 <= i < |GetBoard(w, st, None, byAccuracy, None)|
    requires GetBoard(w, st, None, byAccuracy, None)[i].teamId == team.id
    ensures var shown, price := GetBoard(w, st, None, byAccuracy, None)[i].points, Cost(w, c, st.subs, r);
      && IsPrice(w.oracle, c.hints[r.hintIndex], |Solvers(st.subs, c.id)|, r.now, price)
      && (price > shown ==>
            && UnlockAnswer(w, st.subs, st.unlocks, r) == Err(InsufficientPoints)
            && UnlockLog(w, st.subs, st.unlocks, r) == st.unlocks)
      && (price <= shown ==>
            && UnlockAnswer(w, st.subs, st.unlocks, r) == Ok(UnlockResult(c.hints[r.hintIndex].content, price, false))
            && UnlockLog(w, st.subs, st.unlocks, r)
               == st.unlocks + [HintUnlock(r.challengeId, r.hintIndex, r.teamId, r.accountId, price, r.now)])
  {
    var price := Cost(w, c, st.subs, r);
    ShownIsLeft(w, st, team, byAccuracy, i);
    CostIsPrice(w, c, st.subs, r);
    GateExactly(w, st, r, price);
    UnlockDecides(w, c, st, r);
  }

  lemma ShownIsLeft(w: World, st: State, team: Team, byAccuracy: bool, i: int)
    requires w.deduction == Gate && UniqueIds(w) && FindTeam(w.teams, team.id) == Some(team) && Solvent(w, team, st)
    requires 0 <= i < |GetBoard(w, st, None, byAccuracy, None)|
    requires GetBoard(w, st, None, byAccuracy, None)[i].teamId == team.id
    ensures GetBoard(w, st, None, byAccuracy, None)[i].points
         == EarnedPoints(w, team, st.subs) - SpentPoints(st.unlocks, team.id)
  {
    var shown := EntriesShowTeams(w, st, None, byAccuracy, None, i);
    var k :| 0 <= k < |w.teams| && w.teams[k] == shown;
    FindTeamByIndex(w.teams, k);
  }
}
