/** The entities of a competition and the two append-only logs. Identifiers are
    strings; teams and challenges are fixed for the length of a run. */
module Ledger {
  import opened Prelude
  import opened Flags

  datatype ScoringMode =
    | PointValue
    | PointAttribution
    | DynamicDecay(initial: U32, minimum: U32, decay: U32)

  datatype AttemptCountMode = All | Unique | IncorrectOnly | UniqueIncorrect

  datatype MaxAttempts = MaxAttempts(limit: U32, mode: AttemptCountMode)

  datatype Visibility = Visible | Hidden | Locked

  datatype HintCost = Fixed(cost: U32) | CostScript(source: string)

  datatype Hint = Hint(content: string, cost: HintCost)

  datatype Challenge = Challenge(
    id: string,
    mode: ScoringMode,
    equation: string,
    flag: FlagValidator,
    hints: seq<Hint>,
    requirements: seq<string>,
    teamConsensus: bool,
    visibility: Visibility,
    maxAttempts: Option<MaxAttempts>)

  datatype Team = Team(id: string, name: string, memberIds: seq<string>, bracket: string)

  datatype Submission = Submission(
    challengeId: string,
    teamId: Option<string>,
    accountId: string,
    points: U32,
    providedFlag: string,
    isCorrect: bool,
    submittedAt: int)

  datatype HintUnlock = HintUnlock(
    challengeId: string,
    hintIndex: nat,
    teamId: Option<string>,
    accountId: string,
    cost: U32,
    unlockedAt: int)

  datatype HintDeductionMode = Free | FloorZero | AllowNegative | Gate

  /** What stays fixed during a run: `challenges` and `teams` are what the
      repositories return from `find_all`. */
  datatype World = World(
    challenges: seq<Challenge>,
    teams: seq<Team>,
    oracle: Oracle,
    deduction: HintDeductionMode)

  /** Ids are the primary keys of their repositories. */
  ghost predicate UniqueIds(w: World) {
    && (forall i, j :: 0 <= i < j < |w.challenges| ==> w.challenges[i].id != w.challenges[j].id)
    && (forall i, j :: 0 <= i < j < |w.teams| ==> w.teams[i].id != w.teams[j].id)
  }

  function FindChallenge(challenges: seq<Challenge>, id: string): (r: Option<Challenge>)
    ensures r.Some? ==> r.value in challenges && r.value.id == id
    ensures r.None? ==> forall c :: c in challenges ==> c.id != id
  {
    if challenges == [] then None
    else if challenges[0].id == id then Some(challenges[0])
    else FindChallenge(challenges[1..], id)
  }

  function FindTeam(teams: seq<Team>, id: string): (r: Option<Team>)
    ensures r.Some? ==> r.value in teams && r.value.id == id
    ensures r.None? ==> forall t :: t in teams ==> t.id != id
  {
    if teams == [] then None
    else if teams[0].id == id then Some(teams[0])
    else FindTeam(teams[1..], id)
  }

  lemma {:induction false} FindTeamByIndex(teams: seq<Team>, i: int)
    requires 0 <= i < |teams| && forall a, b :: 0 <= a < b < |teams| ==> teams[a].id != teams[b].id
    ensures FindTeam(teams, teams[i].id) == Some(teams[i])
  {
    if i == 0 {
    } else {
      FindTeamByIndex(teams[1..], i - 1);
    }
  }

  lemma {:induction false} FindChallengeByIndex(challenges: seq<Challenge>, i: int)
    requires 0 <= i < |challenges| && forall a, b :: 0 <= a < b < |challenges| ==> challenges[a].id != challenges[b].id
    ensures FindChallenge(challenges, challenges[i].id) == Some(challenges[i])
  {
    if i == 0 {
    } else {
      FindChallengeByIndex(challenges[1..], i - 1);
    }
  }

  // Named predicates for the filters of the services.

  function ByTeam(teamId: string): Submission -> bool {
    (s: Submission) => s.teamId == Some(teamId)
  }

  /** What the source selects with `find_by_team` for a team player, and with
      `find_all` plus a test on the account for a solo player. */
  predicate Owns(teamId: Option<string>, accountId: string, s: Submission) {
    if teamId.Some? then s.teamId == teamId else s.accountId == accountId
  }

  function AttemptOn(challengeId: string, teamId: Option<string>, accountId: string): Submission -> bool {
    (s: Submission) => s.challengeId == challengeId && Owns(teamId, accountId, s)
  }

  function SolveOf(challengeId: string, teamId: Option<string>, accountId: string): Submission -> bool {
    (s: Submission) => s.challengeId == challengeId && s.isCorrect && Owns(teamId, accountId, s)
  }

  function Incorrect(): Submission -> bool {
    (s: Submission) => !s.isCorrect
  }

  predicate CorrectOn(challengeId: string, s: Submission) {
    s.isCorrect && s.challengeId == challengeId
  }

  /** Who solved, as one string: the team if there is one, else the account. */
  function SolverKey(s: Submission): string {
    if s.teamId.Some? then s.teamId.value else s.accountId
  }

  function Solvers(subs: seq<Submission>, challengeId: string): set<string> {
    set s | s in subs && CorrectOn(challengeId, s) :: SolverKey(s)
  }

  lemma SolversSnoc(subs: seq<Submission>, s: Submission, challengeId: string)
    ensures Solvers(subs + [s], challengeId)
         == Solvers(subs, challengeId) + (if CorrectOn(challengeId, s) then {SolverKey(s)} else {})
  {
  }
}
