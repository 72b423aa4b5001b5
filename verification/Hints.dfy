/** Hint unlocking: charged once, at the cost of the moment. */
module Hints {
  import opened Prelude
  import opened Flags
  import opened Ledger
  import opened Scoreboard
  import opened Solve

  datatype UnlockRequest = UnlockRequest(
    challengeId: string,
    hintIndex: nat,
    teamId: Option<string>,
    accountId: string,
    now: int,
    isAdmin: bool)

  datatype UnlockResult = UnlockResult(content: string, cost: U32, alreadyUnlocked: bool)

  /** A script's value is clamped below at zero and then truncated to 32 bits;
      a script that fails costs nothing. */
  function EvaluateCost(o: Oracle, cost: HintCost, solves: nat, now: int): U32 {
    match cost
    case Fixed(c) => c
    case CostScript(source) =>
      var v := o.hintCost(source, solves, now);
      if v.None? || v.value < 0 then 0 else v.value % (U32_MAX + 1)
  }

  /** Unlike `Owns`, a solo player's solves do not include those made in a team. */
  predicate OwnsAlone(teamId: Option<string>, accountId: string, s: Submission) {
    if teamId.Some? then s.teamId == teamId else s.teamId.None? && s.accountId == accountId
  }

  function SolvedIdsAlone(subs: seq<Submission>, teamId: Option<string>, accountId: string): set<string> {
    set s | s in subs && s.isCorrect && OwnsAlone(teamId, accountId, s) :: s.challengeId
  }

  predicate OwnsUnlock(teamId: Option<string>, accountId: string, u: HintUnlock) {
    if teamId.Some? then u.teamId == teamId else u.teamId.None? && u.accountId == accountId
  }

  predicate IsFor(r: UnlockRequest, u: HintUnlock) {
    u.challengeId == r.challengeId && OwnsUnlock(r.teamId, r.accountId, u)
  }

  function UnlocksFor(r: UnlockRequest): HintUnlock -> bool {
    (u: HintUnlock) => IsFor(r, u)
  }

  function FirstWithIndex(unlocks: seq<HintUnlock>, hintIndex: nat): Option<HintUnlock> {
    if unlocks == [] then None
    else if unlocks[0].hintIndex == hintIndex then Some(unlocks[0])
    else FirstWithIndex(unlocks[1..], hintIndex)
  }

  function PriorUnlock(unlocks: seq<HintUnlock>, r: UnlockRequest): Option<HintUnlock> {
    FirstWithIndex(Filter(unlocks, UnlocksFor(r)), r.hintIndex)
  }

  predicate Permitted(c: Challenge, subs: seq<Submission>, r: UnlockRequest) {
    RequirementsMet(c, SolvedIdsAlone(subs, r.teamId, r.accountId))
  }

  function Cost(w: World, c: Challenge, subs: seq<Submission>, r: UnlockRequest): U32
    requires r.hintIndex < |c.hints|
  {
    EvaluateCost(w.oracle, c.hints[r.hintIndex].cost, |Solvers(subs, c.id)|, r.now)
  }

  function EarnedPoints(w: World, team: Team, subs: seq<Submission>): int {
    PointsFromSolves(w.oracle, team, w.challenges, subs, SolveCounts(subs))
  }

  function SpentPoints(unlocks: seq<HintUnlock>, teamId: string): nat {
    TotalHintCost(unlocks, Some(teamId), None)
  }

  /** The gate: a team must exist and be able to pay. */
  function GateError(w: World, subs: seq<Submission>, unlocks: seq<HintUnlock>, r: UnlockRequest, cost: U32)
    : Option<ServiceError>
  {
    if w.deduction != Gate || r.teamId.None? then None
    else
      var team := FindTeam(w.teams, r.teamId.value);
      if team.None? then Some(TeamNotFound)
      else if EarnedPoints(w, team.value, subs) - SpentPoints(unlocks, r.teamId.value) < cost then
        Some(InsufficientPoints)
      else None
  }

  datatype Assessment = Refused(error: ServiceError) | Already(prior: HintUnlock) | Charged(unlock: HintUnlock)

  function AssessUnlock(w: World, subs: seq<Submission>, unlocks: seq<HintUnlock>, r: UnlockRequest): Assessment {
    var found := FindChallenge(w.challenges, r.challengeId);
    if found.None? then Refused(ChallengeNotFound)
    else
      var c := found.value;
      if !r.isAdmin && c.visibility != Visible then Refused(ChallengeLocked)
      else if !r.isAdmin && !Permitted(c, subs, r) then Refused(RequirementsNotMet)
      else if r.hintIndex >= |c.hints| then Refused(HintNotFound)
      else if PriorUnlock(unlocks, r).Some? then Already(PriorUnlock(unlocks, r).value)
      else
        var cost := Cost(w, c, subs, r);
        var gate := GateError(w, subs, unlocks, r, cost);
        if gate.Some? then Refused(gate.value)
        else Charged(HintUnlock(r.challengeId, r.hintIndex, r.teamId, r.accountId, cost, r.now))
  }

  function UnlockLog(w: World, subs: seq<Submission>, unlocks: seq<HintUnlock>, r: UnlockRequest): seq<HintUnlock> {
    var a := AssessUnlock(w, subs, unlocks, r);
    if a.Charged? then unlocks + [a.unlock] else unlocks
  }

  function HintContent(w: World, r: UnlockRequest): string {
    var found := FindChallenge(w.challenges, r.challengeId);
    if found.Some? && r.hintIndex < |found.value.hints| then found.value.hints[r.hintIndex].content else ""
  }

  function UnlockAnswer(w: World, subs: seq<Submission>, unlocks: seq<HintUnlock>, r: UnlockRequest)
    : Result<UnlockResult, ServiceError>
  {
    match AssessUnlock(w, subs, unlocks, r)
    case Refused(error) => Err(error)
    case Already(prior) => Ok(UnlockResult(HintContent(w, r), prior.cost, true))
    case Charged(unlock) => Ok(UnlockResult(HintContent(w, r), unlock.cost, false))
  }

  method UnlockHint(store: Store, w: World, r: UnlockRequest) returns (answer: Result<UnlockResult, ServiceError>)
    modifies store
    ensures answer == UnlockAnswer(w, old(store.submissions), old(store.hintUnlocks), r)
    ensures store.hintUnlocks == UnlockLog(w, old(store.submissions), old(store.hintUnlocks), r)
    ensures store.submissions == old(store.submissions)
  {
    var found := FindChallenge(w.challenges, r.challengeId);
    if found.None? {
      return Err(ChallengeNotFound);
    }
    var challenge := found.value;
    var allSubs := store.submissions;
    if !r.isAdmin {
      if challenge.visibility != Visible {
        return Err(ChallengeLocked);
      }
      if challenge.requirements != [] {
        var solved := SolvedIdsAlone(allSubs, r.teamId, r.accountId);
        if !RequirementsMet(challenge, solved) {
          return Err(RequirementsNotMet);
        }
      }
    }
    if r.hintIndex >= |challenge.hints| {
      return Err(HintNotFound);
    }
    var hint := challenge.hints[r.hintIndex];
    var existing := Filter(store.hintUnlocks, UnlocksFor(r));
    var prior := FirstWithIndex(existing, r.hintIndex);
    if prior.Some? {
      return Ok(UnlockResult(hint.content, prior.value.cost, true));
    }
    var cost := EvaluateCost(w.oracle, hint.cost, |Solvers(allSubs, r.challengeId)|, r.now);
    if w.deduction == Gate && r.teamId.Some? {
      var team := FindTeam(w.teams, r.teamId.value);
      if team.None? {
        return Err(TeamNotFound);
      }
      var solvers := BuildChallengeSolvers(allSubs);
      var score := ComputeTeamSolveScore(w.oracle, team.value, w.challenges, allSubs, solvers);
      var priorSpent := TotalHintCost(store.hintUnlocks, r.teamId, None);
      if score.points - priorSpent < cost {
        return Err(InsufficientPoints);
      }
    }
    var unlock := HintUnlock(r.challengeId, r.hintIndex, r.teamId, r.accountId, cost, r.now);
    store.hintUnlocks := store.hintUnlocks + [unlock];
    answer := Ok(UnlockResult(hint.content, cost, false));
  }
}
