/** Exactly how submit and unlock decide, read off the log and the request. */
module Decisions {
  import opened Prelude
  import opened Flags
  import opened Ledger
  import opened Scoreboard
  import opened Solve
  import opened Hints
  import opened Runs
  import opened AttemptCaps
  import opened HintCharges

  // Submit.

  /** The record is of the team, or for a player without one of the account. */
  predicate Mine(s: Submission, teamId: Option<string>, accountId: string) {
    match teamId
    case Some(team) => s.teamId == Some(team)
    case None => s.accountId == accountId
  }

  ghost predicate SolvedOn(subs: seq<Submission>, id: string, teamId: Option<string>, accountId: string) {
    exists i :: 0 <= i < |subs| && subs[i].isCorrect && subs[i].challengeId == id && Mine(subs[i], teamId, accountId)
  }

  ghost predicate LacksRequirement(c: Challenge, subs: seq<Submission>, r: SubmitRequest) {
    exists id :: id in c.requirements && !SolvedOn(subs, id, r.teamId, r.accountId)
  }

  ghost predicate TriedOut(c: Challenge, subs: seq<Submission>, r: SubmitRequest) {
    c.maxAttempts.Some?
    && Tried(c.maxAttempts.value.mode, subs, r.challengeId, r.teamId, r.accountId) >= c.maxAttempts.value.limit
  }

  /** An earlier correct submission that makes a new one a repetition: for a partial
      flag one that it matches, under consensus one of the same account, and otherwise any. */
  predicate Repeated(w: World, c: Challenge, r: SubmitRequest, s: Submission) {
    && s.isCorrect && s.challengeId == r.challengeId && Mine(s, r.teamId, r.accountId)
    && if c.flag.Multi? then
         var pf := Matched(w, c, r);
         pf.Some? && IsMatch(w.oracle, pf.value.validator, s.providedFlag, r.activeFlag)
       else c.teamConsensus ==> s.accountId == r.accountId
  }

  ghost predicate IsRepetition(w: World, c: Challenge, subs: seq<Submission>, r: SubmitRequest) {
    exists i :: 0 <= i < |subs| && Repeated(w, c, r, subs[i])
  }

  lemma RequirementsExactly(c: Challenge, subs: seq<Submission>, r: SubmitRequest)
    ensures RequirementsMet(c, SolvedIdsOf(subs, r.teamId, r.accountId)) <==> !LacksRequirement(c, subs, r)
  {
    forall id ensures id in SolvedIdsOf(subs, r.teamId, r.accountId) <==> SolvedOn(subs, id, r.teamId, r.accountId) {
    }
  }

  lemma DuplicateExactly(w: World, c: Challenge, subs: seq<Submission>, r: SubmitRequest)
    requires Correct(w, c, r) && c.id == r.challengeId
    ensures Duplicate(w, c, Existing(subs, r), r) <==> IsRepetition(w, c, subs, r)
  {
    var keep := SolveOf(r.challengeId, r.teamId, r.accountId);
    forall s ensures s in Existing(subs, r) <==> s in subs && keep(s) {
      FilterMember(subs, keep, s);
    }
    if IsRepetition(w, c, subs, r) {
      var i :| 0 <= i < |subs| && Repeated(w, c, r, subs[i]);
      assert subs[i] in Existing(subs, r);
    }
    if Existing(subs, r) != [] {
      var s := Existing(subs, r)[0];
      assert s in Existing(subs, r);
    }
    forall s | s in Existing(subs, r)
      ensures exists i :: 0 <= i < |subs| && subs[i] == s
    {
    }
  }

  /** Which error, if any, answers a submission, and what is saved. */
  lemma SubmitDecides(w: World, c: Challenge, subs: seq<Submission>, r: SubmitRequest)
    requires FindChallenge(w.challenges, r.challengeId) == Some(c)
    ensures var answer := SubmitAnswer(w, subs, r);
      && (answer == Err(MaxAttemptsReached) <==> TriedOut(c, subs, r))
      && (answer == Err(RequirementsNotMet) <==> !TriedOut(c, subs, r) && LacksRequirement(c, subs, r))
      && (!TriedOut(c, subs, r) && !LacksRequirement(c, subs, r) ==>
            && (answer == Err(IncorrectFlag) <==> !Correct(w, c, r))
            && (answer == Err(AlreadySolved) <==> Correct(w, c, r) && IsRepetition(w, c, subs, r))
            && (answer.Ok? <==> Correct(w, c, r) && !IsRepetition(w, c, subs, r)))
  {
    if c.maxAttempts.Some? {
      AttemptsAreTries(c.maxAttempts.value.mode, subs, r.challengeId, r.teamId, r.accountId);
    }
    RequirementsExactly(c, subs, r);
    if Correct(w, c, r) {
      DuplicateExactly(w, c, subs, r);
    }
  }

  /** An answered or incorrect flag is saved, with the fields of the request; a call
      that is refused before leaves no record. */
  lemma SubmitSaves(w: World, subs: seq<Submission>, r: SubmitRequest)
    ensures var answer, log := SubmitAnswer(w, subs, r), SubmitLog(w, subs, r);
      if answer.Ok? || answer == Err(IncorrectFlag) then
        && |log| == |subs| + 1 && log[..|subs|] == subs
        && var s := log[|subs|];
           && s.challengeId == r.challengeId && s.teamId == r.teamId && s.accountId == r.accountId
           && s.providedFlag == r.flag && s.submittedAt == r.now && s.isCorrect == answer.Ok?
           && (answer.Ok? ==> answer.value == s)
      else log == subs
    ensures SubmitAnswer(w, subs, r) == Err(ChallengeNotFound)
       <==> forall c :: c in w.challenges ==> c.id != r.challengeId
  {
  }

  // Unlock.

  /** Like `Mine`, but what a player did in a team is not the solo player's. */
  predicate MineAlone(teamOf: Option<string>, accountOf: string, teamId: Option<string>, accountId: string) {
    match teamId
    case Some(team) => teamOf == Some(team)
    case None => teamOf.None? && accountOf == accountId
  }

  ghost predicate LacksForHint(c: Challenge, subs: seq<Submission>, r: UnlockRequest) {
    exists id :: id in c.requirements
      && forall i :: 0 <= i < |subs| && subs[i].isCorrect && subs[i].challengeId == id ==>
           !MineAlone(subs[i].teamId, subs[i].accountId, r.teamId, r.accountId)
  }

  predicate PaidBy(r: UnlockRequest, u: HintUnlock) {
    u.challengeId == r.challengeId && u.hintIndex == r.hintIndex
    && MineAlone(u.teamId, u.accountId, r.teamId, r.accountId)
  }

  ghost predicate Paid(unlocks: seq<HintUnlock>, r: UnlockRequest) {
    exists i :: 0 <= i < |unlocks| && PaidBy(r, unlocks[i])
  }

  /** The challenge is visible and its requirements are solved, or an administrator asks. */
  ghost predicate MaySee(c: Challenge, subs: seq<Submission>, r: UnlockRequest) {
    r.isAdmin || (c.visibility == Visible && !LacksForHint(c, subs, r))
  }

  ghost predicate MayAsk(c: Challenge, subs: seq<Submission>, r: UnlockRequest) {
    MaySee(c, subs, r) && r.hintIndex < |c.hints|
  }

  lemma PermittedExactly(c: Challenge, subs: seq<Submission>, r: UnlockRequest)
    ensures Permitted(c, subs, r) <==> !LacksForHint(c, subs, r)
  {
    var solved := SolvedIdsAlone(subs, r.teamId, r.accountId);
    if Permitted(c, subs, r) {
      forall id | id in c.requirements
        ensures exists i :: 0 <= i < |subs| && subs[i].isCorrect && subs[i].challengeId == id
                            && MineAlone(subs[i].teamId, subs[i].accountId, r.teamId, r.accountId)
      {
        var s :| s in subs && s.isCorrect && OwnsAlone(r.teamId, r.accountId, s) && s.challengeId == id;
        var i :| 0 <= i < |subs| && subs[i] == s;
        assert MineAlone(subs[i].teamId, subs[i].accountId, r.teamId, r.accountId);
      }
    } else {
      var id :| id in c.requirements && id !in solved;
      forall i | 0 <= i < |subs| && subs[i].isCorrect && subs[i].challengeId == id
        ensures !MineAlone(subs[i].teamId, subs[i].accountId, r.teamId, r.accountId)
      {
        assert subs[i] in subs;
      }
    }
  }

  lemma PaidExactly(unlocks: seq<HintUnlock>, r: UnlockRequest)
    ensures PriorUnlock(unlocks, r).Some? <==> Paid(unlocks, r)
    ensures PriorUnlock(unlocks, r).Some? ==> PaidBy(r, PriorUnlock(unlocks, r).value)
  {
    PriorUnlockFinds(unlocks, r);
    forall u ensures ChargesFor(r, u) <==> PaidBy(r, u) {
    }
  }

  /** Which error answers a request that may not be made at all. */
  lemma UnlockRefuses(w: World, st: State, r: UnlockRequest)
    ensures var answer := UnlockAnswer(w, st.subs, st.unlocks, r);
      && (answer == Err(ChallengeNotFound) <==> forall c :: c in w.challenges ==> c.id != r.challengeId)
      && forall c :: FindChallenge(w.challenges, r.challengeId) == Some(c) ==>
           && (answer == Err(ChallengeLocked) <==> !r.isAdmin && c.visibility != Visible)
           && (answer == Err(RequirementsNotMet)
               <==> !r.isAdmin && c.visibility == Visible && LacksForHint(c, st.subs, r))
           && (answer == Err(HintNotFound) <==> MaySee(c, st.subs, r) && r.hintIndex >= |c.hints|)
  {
    var found := FindChallenge(w.challenges, r.challengeId);
    if found.Some? {
      PermittedExactly(found.value, st.subs, r);
    }
  }

  /** The price of a hint: fixed, or what the script makes of the number of distinct
      solvers and the time - nothing if it fails or is negative, and cut to 32 bits. */
  ghost predicate IsPrice(o: Oracle, hint: Hint, solvers: nat, now: int, price: int) {
    match hint.cost
    case Fixed(cost) => price == cost
    case CostScript(source) =>
      match o.hintCost(source, solvers, now)
      case None => price == 0
      case Some(value) =>
        if value < 0 then price == 0
        else 0 <= price <= U32_MAX && exists k :: Wraps(value, price, k)
  }

  ghost predicate Wraps(value: int, price: int, k: int) {
    value == k * (U32_MAX + 1) + price
  }

  lemma CostIsPrice(w: World, c: Challenge, subs: seq<Submission>, r: UnlockRequest)
    requires r.hintIndex < |c.hints|
    ensures IsPrice(w.oracle, c.hints[r.hintIndex], |Solvers(subs, c.id)|, r.now, Cost(w, c, subs, r))
  {
    var hint := c.hints[r.hintIndex];
    if hint.cost.CostScript? {
      var v := w.oracle.hintCost(hint.cost.source, |Solvers(subs, c.id)|, r.now);
      if v.Some? && v.value >= 0 {
        assert Wraps(v.value, v.value % (U32_MAX + 1), v.value / (U32_MAX + 1));
      }
    }
  }

  /** A request that may be made: paid before, it is answered at the price paid, and
      nothing is saved; else the gate decides, and what passes it is saved at its price. */
  lemma UnlockDecides(w: World, c: Challenge, st: State, r: UnlockRequest)
    requires FindChallenge(w.challenges, r.challengeId) == Some(c) && MayAsk(c, st.subs, r)
    ensures var answer, log := UnlockAnswer(w, st.subs, st.unlocks, r), UnlockLog(w, st.subs, st.unlocks, r);
      var price, content := Cost(w, c, st.subs, r), c.hints[r.hintIndex].content;
      if Paid(st.unlocks, r) then
        && log == st.unlocks
        && exists u :: u in st.unlocks && PaidBy(r, u) && answer == Ok(UnlockResult(content, u.cost, true))
      else if GateError(w, st.subs, st.unlocks, r, price).Some? then
        log == st.unlocks && answer == Err(GateError(w, st.subs, st.unlocks, r, price).value)
      else
        && log == st.unlocks + [HintUnlock(r.challengeId, r.hintIndex, r.teamId, r.accountId, price, r.now)]
        && answer == Ok(UnlockResult(content, price, false))
  {
    PermittedExactly(c, st.subs, r);
    PaidExactly(st.unlocks, r);
    PriorUnlockFinds(st.unlocks, r);
  }
}
