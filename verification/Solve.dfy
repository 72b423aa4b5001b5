/** Flag submission: one call either leaves the log alone or appends one record. */
module Solve {
  import opened Prelude
  import opened Text
  import opened Flags
  import opened Ledger
  import opened Scoring
  import opened Scoreboard

  datatype ServiceError =
    | ChallengeNotFound
    | MaxAttemptsReached
    | RequirementsNotMet
    | AlreadySolved
    | IncorrectFlag
    | ChallengeLocked
    | HintNotFound
    | TeamNotFound
    | InsufficientPoints

  /** One call of `submit_flag`. `activeFlag` is what the instance repository
      answers, and `now` what the clock reads, during the call. */
  datatype SubmitRequest = SubmitRequest(
    challengeId: string,
    teamId: Option<string>,
    accountId: string,
    flag: string,
    activeFlag: Option<string>,
    now: int)

  function TrimmedFlags(subs: seq<Submission>): set<string> {
    set s | s in subs :: Trim(s.providedFlag)
  }

  function AttemptCount(mode: AttemptCountMode, prior: seq<Submission>): nat {
    match mode
    case All => |prior|
    case IncorrectOnly => |Filter(prior, Incorrect())|
    case Unique => |TrimmedFlags(prior)|
    case UniqueIncorrect => |TrimmedFlags(Filter(prior, Incorrect()))|
  }

  function Attempts(mode: AttemptCountMode, subs: seq<Submission>, challengeId: string,
                    teamId: Option<string>, accountId: string): nat
  {
    AttemptCount(mode, Filter(subs, AttemptOn(challengeId, teamId, accountId)))
  }

  predicate OutOfAttempts(c: Challenge, subs: seq<Submission>, r: SubmitRequest) {
    c.maxAttempts.Some?
    && Attempts(c.maxAttempts.value.mode, subs, r.challengeId, r.teamId, r.accountId) >= c.maxAttempts.value.limit
  }

  function SolvedIdsOf(subs: seq<Submission>, teamId: Option<string>, accountId: string): set<string> {
    set s | s in subs && s.isCorrect && Owns(teamId, accountId, s) :: s.challengeId
  }

  predicate RequirementsMet(c: Challenge, solved: set<string>) {
    forall id :: id in c.requirements ==> id in solved
  }

  function Matched(w: World, c: Challenge, r: SubmitRequest): Option<PartialFlag> {
    FindMatchingPartial(w.oracle, c.flag, r.flag, r.activeFlag)
  }

  predicate Correct(w: World, c: Challenge, r: SubmitRequest) {
    if c.flag.Multi? then Matched(w, c, r).Some? else IsMatch(w.oracle, c.flag, r.flag, r.activeFlag)
  }

  function Existing(subs: seq<Submission>, r: SubmitRequest): seq<Submission> {
    Filter(subs, SolveOf(r.challengeId, r.teamId, r.accountId))
  }

  predicate Duplicate(w: World, c: Challenge, existing: seq<Submission>, r: SubmitRequest) {
    var pf := Matched(w, c, r);
    if pf.Some? then
      exists s :: s in existing && IsMatch(w.oracle, pf.value.validator, s.providedFlag, r.activeFlag)
    else if c.teamConsensus then exists s :: s in existing && s.accountId == r.accountId
    else existing != []
  }

  // The live solve count.

  predicate SolvedFor(subs: seq<Submission>, challengeId: string, teamId: string, accountId: string) {
    exists s :: s in subs && CorrectOn(challengeId, s) && s.teamId == Some(teamId) && s.accountId == accountId
  }

  function SolvingTeams(subs: seq<Submission>, challengeId: string): set<string> {
    set s | s in subs && CorrectOn(challengeId, s) && s.teamId.Some? :: s.teamId.value
  }

  predicate FullySolved(w: World, c: Challenge, subs: seq<Submission>, teamId: string) {
    var team := FindTeam(w.teams, teamId);
    team.Some?
    && (c.teamConsensus ==>
          team.value.memberIds != []
          && forall m :: m in team.value.memberIds ==> SolvedFor(subs, c.id, teamId, m))
  }

  function FullSolveTeams(w: World, c: Challenge, subs: seq<Submission>): set<string> {
    set t | t in SolvingTeams(subs, c.id) && FullySolved(w, c, subs, t)
  }

  function SolvingAccounts(subs: seq<Submission>, challengeId: string): set<string> {
    set s | s in subs && CorrectOn(challengeId, s) :: s.accountId
  }

  function LiveSolveCount(w: World, c: Challenge, subs: seq<Submission>, teamId: Option<string>): nat {
    if teamId.Some? then |FullSolveTeams(w, c, subs)| else |SolvingAccounts(subs, c.id)|
  }

  predicate ReachesConsensus(w: World, c: Challenge, existing: seq<Submission>, r: SubmitRequest) {
    if r.teamId.None? then true
    else if !c.teamConsensus then existing == []
    else
      var team := FindTeam(w.teams, r.teamId.value);
      team.Some?
      && forall m :: m in team.value.memberIds ==>
           m == r.accountId || exists s :: s in existing && s.accountId == m
  }

  function NextSolveCount(w: World, c: Challenge, subs: seq<Submission>, r: SubmitRequest): nat {
    var count := LiveSolveCount(w, c, subs, r.teamId);
    if ReachesConsensus(w, c, Existing(subs, r), r) then count + 1 else count
  }

  function AtLeastOne(n: nat): nat {
    if n == 0 then 1 else n
  }

  function PointsAwarded(w: World, c: Challenge, subs: seq<Submission>, r: SubmitRequest): U32 {
    if !Correct(w, c, r) then 0
    else
      var base := BasePoints(c, AtLeastOne(NextSolveCount(w, c, subs, r)));
      var pf := Matched(w, c, r);
      if pf.Some? then SaturateU32(Weighted(base, pf.value.weight)) else base
  }

  function Record(w: World, c: Challenge, subs: seq<Submission>, r: SubmitRequest): Submission {
    Submission(r.challengeId, r.teamId, r.accountId, PointsAwarded(w, c, subs, r), r.flag, Correct(w, c, r), r.now)
  }

  /** The error that stops a call before anything is saved, or the record saved. */
  function Assess(w: World, subs: seq<Submission>, r: SubmitRequest): Result<Submission, ServiceError> {
    var found := FindChallenge(w.challenges, r.challengeId);
    if found.None? then Err(ChallengeNotFound)
    else
      var c := found.value;
      if OutOfAttempts(c, subs, r) then Err(MaxAttemptsReached)
      else if !RequirementsMet(c, SolvedIdsOf(subs, r.teamId, r.accountId)) then Err(RequirementsNotMet)
      else if Correct(w, c, r) && Duplicate(w, c, Existing(subs, r), r) then Err(AlreadySolved)
      else Ok(Record(w, c, subs, r))
  }

  function SubmitLog(w: World, subs: seq<Submission>, r: SubmitRequest): seq<Submission> {
    var a := Assess(w, subs, r);
    if a.Ok? then subs + [a.value] else subs
  }

  function SubmitAnswer(w: World, subs: seq<Submission>, r: SubmitRequest): Result<Submission, ServiceError> {
    var a := Assess(w, subs, r);
    if a.Ok? && !a.value.isCorrect then Err(IncorrectFlag) else a
  }

  /** The repositories as in-memory logs. */
  class Store {
    var submissions: seq<Submission>
    var hintUnlocks: seq<HintUnlock>

    constructor ()
      ensures submissions == [] && hintUnlocks == []
    {
      submissions, hintUnlocks := [], [];
    }

    /** `find_by_team` for a team player, `find_all` for a solo player. */
    function VisibleTo(teamId: Option<string>): seq<Submission>
      reads this
    {
      if teamId.Some? then Filter(submissions, ByTeam(teamId.value)) else submissions
    }
  }

  lemma VisibleThenOwned(
      subs: seq<Submission>, visible: seq<Submission>, teamId: Option<string>, keep: Submission -> bool)
    requires visible == if teamId.Some? then Filter(subs, ByTeam(teamId.value)) else subs
    requires forall s :: keep(s) && teamId.Some? ==> s.teamId == teamId
    ensures Filter(visible, keep) == Filter(subs, keep)
  {
    if teamId.Some? {
      FilterTwice(subs, ByTeam(teamId.value), keep, keep);
    }
  }

  /** `m` lists, for every team with a correct submission, the accounts behind its submissions. */
  ghost predicate ListsTeamSolves(m: map<string, seq<string>>, subs: seq<Submission>, challengeId: string) {
    && m.Keys == SolvingTeams(subs, challengeId)
    && forall t, a :: t in m ==> (a in m[t] <==> SolvedFor(subs, challengeId, t, a))
  }

  lemma SolvedForSnoc(subs: seq<Submission>, s: Submission, challengeId: string, t: string, a: string)
    ensures SolvedFor(subs + [s], challengeId, t, a)
       <==> SolvedFor(subs, challengeId, t, a)
            || (CorrectOn(challengeId, s) && s.teamId == Some(t) && s.accountId == a)
  {
    if SolvedFor(subs, challengeId, t, a) {
      var x :| x in subs && CorrectOn(challengeId, x) && x.teamId == Some(t) && x.accountId == a;
      assert x in subs + [s];
    }
  }

  lemma SolvedForKnown(subs: seq<Submission>, challengeId: string, t: string, a: string)
    requires SolvedFor(subs, challengeId, t, a)
    ensures t in SolvingTeams(subs, challengeId)
  {
  }

  method CollectTeamSolves(subs: seq<Submission>, challengeId: string) returns (teamSolves: map<string, seq<string>>)
    ensures ListsTeamSolves(teamSolves, subs, challengeId)
  {
    teamSolves := map[];
    for i := 0 to |subs|
      invariant ListsTeamSolves(teamSolves, subs[..i], challengeId)
    {
      var s := subs[i];
      ghost var before := teamSolves;
      if CorrectOn(challengeId, s) && s.teamId.Some? {
        var t := s.teamId.value;
        var users := if t in teamSolves then teamSolves[t] else [];
        teamSolves := teamSolves[t := users + [s.accountId]];
      }
      assert subs[..i + 1] == subs[..i] + [s];
      forall t, a | t in teamSolves
        ensures a in teamSolves[t] <==> SolvedFor(subs[..i + 1], challengeId, t, a)
      {
        SolvedForSnoc(subs[..i], s, challengeId, t, a);
        if SolvedFor(subs[..i], challengeId, t, a) {
          SolvedForKnown(subs[..i], challengeId, t, a);
        }
      }
    }
    assert subs[..|subs|] == subs;
  }

  predicate ReachedConsensus(w: World, c: Challenge, teamId: string, userIds: seq<string>) {
    var team := FindTeam(w.teams, teamId);
    team.Some?
    && if c.teamConsensus then
         team.value.memberIds != [] && forall m :: m in team.value.memberIds ==> m in userIds
       else userIds != []
  }

  lemma ReachedMeansFullySolved(
      w: World, c: Challenge, m: map<string, seq<string>>, subs: seq<Submission>, t: string)
    requires ListsTeamSolves(m, subs, c.id) && t in m
    ensures ReachedConsensus(w, c, t, m[t]) <==> FullySolved(w, c, subs, t)
  {
    var s :| s in subs && CorrectOn(c.id, s) && s.teamId == Some(t);
    assert SolvedFor(subs, c.id, t, s.accountId);
  }

  method CountFullSolveTeams(w: World, c: Challenge, subs: seq<Submission>) returns (count: nat)
    ensures count == |FullSolveTeams(w, c, subs)|
  {
    var teamSolves := CollectTeamSolves(subs, c.id);
    count := 0;
    var todo := teamSolves.Keys;
    ghost var counted: set<string> := {};
    while todo != {}
      invariant todo <= teamSolves.Keys
      invariant counted == set t | t in teamSolves.Keys - todo && FullySolved(w, c, subs, t)
      invariant count == |counted|
    {
      var t :| t in todo;
      ReachedMeansFullySolved(w, c, teamSolves, subs, t);
      if ReachedConsensus(w, c, t, teamSolves[t]) {
        count, counted := count + 1, counted + {t};
      }
      todo := todo - {t};
    }
    assert counted == FullSolveTeams(w, c, subs);
  }

  method LiveCount(w: World, c: Challenge, subs: seq<Submission>, teamId: Option<string>) returns (count: nat)
    ensures count == LiveSolveCount(w, c, subs, teamId)
  {
    if teamId.Some? {
      count := CountFullSolveTeams(w, c, subs);
    } else {
      count := |SolvingAccounts(subs, c.id)|;
    }
  }

  lemma SolvedAmongVisible(subs: seq<Submission>, visible: seq<Submission>, teamId: Option<string>, accountId: string)
    requires visible == if teamId.Some? then Filter(subs, ByTeam(teamId.value)) else subs
    ensures SolvedIdsOf(visible, teamId, accountId) == SolvedIdsOf(subs, teamId, accountId)
  {
    if teamId.Some? {
      forall s ensures s in visible <==> s in subs && s.teamId == teamId {
        FilterMember(subs, ByTeam(teamId.value), s);
      }
    }
  }

  method AttemptsExhausted(store: Store, c: Challenge, r: SubmitRequest) returns (refused: bool)
    ensures refused == OutOfAttempts(c, store.submissions, r)
  {
    refused := false;
    if c.maxAttempts.Some? {
      var all := store.VisibleTo(r.teamId);
      var prior := Filter(all, AttemptOn(r.challengeId, r.teamId, r.accountId));
      VisibleThenOwned(store.submissions, all, r.teamId, AttemptOn(r.challengeId, r.teamId, r.accountId));
      refused := AttemptCount(c.maxAttempts.value.mode, prior) >= c.maxAttempts.value.limit;
    }
  }

  method PrerequisitesMet(store: Store, c: Challenge, r: SubmitRequest) returns (met: bool)
    ensures met == RequirementsMet(c, SolvedIdsOf(store.submissions, r.teamId, r.accountId))
  {
    met := true;
    if c.requirements != [] {
      var subs := store.VisibleTo(r.teamId);
      SolvedAmongVisible(store.submissions, subs, r.teamId, r.accountId);
      met := RequirementsMet(c, SolvedIdsOf(subs, r.teamId, r.accountId));
    }
  }

  method Award(w: World, c: Challenge, subs: seq<Submission>, existing: seq<Submission>, r: SubmitRequest)
    returns (points: U32)
    requires FindChallenge(w.challenges, r.challengeId) == Some(c) && existing == Existing(subs, r)
    ensures points == PointsAwarded(w, c, subs, r)
  {
    var solveCount := LiveCount(w, c, subs, r.teamId);
    var nextSolveCount := if ReachesConsensus(w, c, existing, r) then solveCount + 1 else solveCount;
    points := 0;
    if Correct(w, c, r) {
      points := BasePoints(c, AtLeastOne(nextSolveCount));
      var partial := Matched(w, c, r);
      if partial.Some? {
        points := SaturateU32(Weighted(points, partial.value.weight));
      }
    }
  }

  method SubmitFlag(store: Store, w: World, r: SubmitRequest) returns (answer: Result<Submission, ServiceError>)
    modifies store
    ensures answer == SubmitAnswer(w, old(store.submissions), r)
    ensures store.submissions == SubmitLog(w, old(store.submissions), r)
    ensures store.hintUnlocks == old(store.hintUnlocks)
  {
    var found := FindChallenge(w.challenges, r.challengeId);
    if found.None? {
      return Err(ChallengeNotFound);
    }
    var challenge := found.value;
    var refused := AttemptsExhausted(store, challenge, r);
    if refused {
      return Err(MaxAttemptsReached);
    }
    var met := PrerequisitesMet(store, challenge, r);
    if !met {
      return Err(RequirementsNotMet);
    }
    var visible := store.VisibleTo(r.teamId);
    var existing := Filter(visible, SolveOf(r.challengeId, r.teamId, r.accountId));
    VisibleThenOwned(store.submissions, visible, r.teamId, SolveOf(r.challengeId, r.teamId, r.accountId));
    var isCorrect := Correct(w, challenge, r);
    if isCorrect && Duplicate(w, challenge, existing, r) {
      return Err(AlreadySolved);
    }
    var points := Award(w, challenge, store.submissions, existing, r);
    var submission := Submission(r.challengeId, r.teamId, r.accountId, points, r.flag, isCorrect, r.now);
    store.submissions := store.submissions + [submission];
    answer := if isCorrect then Ok(submission) else Err(IncorrectFlag);
  }
}
