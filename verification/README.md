# cctf-rs: scoring ledger, SMTP pair, rate limiter, instanced flags

This project models the parts of cctf-rs (a capture-the-flag platform) whose
correctness spans several functions, and proves what they promise together.

**The scoring ledger.** A competition's state is two append-only logs: flag
submissions and hint unlocks. `submit_flag` and `unlock_hint` extend them and
snapshot a price into each record; the scoreboard ignores the snapshots and
recomputes every score from the logs. `Ledger` holds the entities, `Solve`,
`Hints`, `Scoreboard` and `Board` the operations: the loops of the source are
methods over a `Store` object and over maps, each proved against a specification
function, and `Runs` folds those functions into whole runs of serialised calls.
The other modules prove theorems about every reachable state:

- `Judgements`, `Decisions`, `GateDecisions`: exactly how each submission and each
  request for a hint is decided, read off the flag, the log and the board;
- `AttemptCaps`, `Requirements`, `FirstBlood`, `HintCharges`, `Partials`: what a
  run never does (exceed a limit, solve before its prerequisites, announce first
  blood twice, charge twice, score one partial flag twice);
- `Monotonicity`, `GateSolvency`, `Overdraft`: how scores move, and in exactly which
  scoring modes a gated hint stays paid for;
- `Agreement`, `SoloPlay`, `LaterPartials`, `LedgerEqualsScore`, `ChallengeViews`: when
  the several independent counts of the same facts agree;
- `PartValues`, `Numerals`: what partial flags and fixed values are worth;
- `StableSorting`, `Board`: brackets, freeze and ranking.

**The SMTP pair.** `SmtpParsing`, `SmtpServer` and `SmtpClient` model the catcher
and the sender as loops over byte streams (`Wire`), proved against functions from
everything a side reads to everything it writes. `CommandLines` says exactly which
line is which command, with which address; on it `SessionSafety` and `WireSafety` prove
command ordering (section 4.1.4 of RFC 5321). `DataTransparency` proves dot-stuffing
(section 4.5.2), `MailLaws` and `SenderLaws` how messages are read and what happens when
things go wrong, and `SmtpExchange` with `SmtpDelivery` connects the two sides: a complete
run is any pair of streams of which each is what one side writes on reading the
other, however the network cut and delayed the bytes. Multi-line replies (section
4.2.1) are part of that exchange. `SmtpTls` shows what happens to a sender that
insists on STARTTLS, and `CatcherEdges` what the catcher makes of lines that no
well-behaved sender writes.

**Two small pieces.** `RateLimiting` proves the sliding window for every window of
every run; `InstancedFlags` proves exactly when rendered flags are unique.

Modelling choices. Regular expressions and scripts are arbitrary deterministic
functions. `f64` scoring is exact over the reals, with `round` and the saturating
casts written out; `decay == 0` gives the ratio zero, as the source's infinity
does. The clock, random parts, message dates and ids are parameters. Strings are
sequences of Unicode scalar values; where the source measures or slices bytes, the
model measures UTF-8 bytes, and a slice inside a character is a panic (`Crash`,
`Panicked`). Each service call is one atomic step; teams and challenges are fixed
during a run.

Where the code differs from what its documentation or one's expectation says, the
model follows the code:

- On a `Multi` challenge with team consensus whose partial flags are separate - no
  flag matches two of them, and none is instanced - no partial ever scores for a team
  with two different members: the second member's flag is refused as already solved
  (`Partials.ConsensusPartialScoredExactly` says exactly when one scores). With
  overlapping partials it can score (`Partials.OverlapScores`).
- `Gate` is documented as refusing a hint that a team cannot afford
  (src/libs/types/config.rs:12). That keeps teams solvent exactly in the scoring modes
  that solves cannot make cheaper; in every other one, other teams' solves can
  afterwards leave a team owing more than it has (`Overdraft.GateHoldsExactly`).
- On a challenge with partial flags a later partial of a solo player, or of a complete
  consensus team, is priced as if one more solver existed, and is announced as first
  blood again when nobody else has solved (`LaterPartials.LaterPartialMiscounted` gives
  both runs; `Agreement.SoloCountAgrees`, `Agreement.ConsensusCountAgrees` and
  `FirstBlood.FirstBloodExactly` say exactly when).
- Rendered instance flags are unique for brace-free random parts of one length of ten
  characters or more, as the 32-character parts of src/libs/services/instancer.rs:57
  are, and not for one to nine characters (`InstancedFlags.UniqueExactlyWhenLong`).
- The catcher answers 250 to a MAIL command whose argument does not start with FROM:,
  and then refuses every DATA until a MAIL with that keyword
  (`CatcherEdges.AddresslessMailRefusesData`). After the keyword anything is taken for
  an address, nothing at all included (`CatcherEdges.EmptyAddressIsAccepted`).
- The catcher panics on a command whose separator is a white-space character of more
  than one byte, and on MAIL or RCPT when the keyword FROM: or TO: would end inside a
  character of the argument (`CommandLines.CrashExactly`).
- A sender that insists on STARTTLS takes a catcher's host name whose first word is
  STARTTLS for the extension, asks for it and is rejected with 502
  (`SmtpTls.StartTlsDeliversNothing`).

## Model

| member | source | states |
|---|---|---|
| Scoring.DecayMovesTowardsMinimum | src/libs/services/solve.rs:26-35 | Dynamic points are the full value for at most one solve, always lie between the two bounds after rounding, and move only towards the minimum as solves arrive, with the bounds either way round |
| Scoring.DecayEquation | src/libs/services/solve.rs:30-33 | The curve without quotients: after x + 1 solves the span left above the minimum is d²/(d² + x²) of the whole, zero decay included |
| Scoring.PointsAreNearest | src/libs/services/solve.rs:33-34 | From the second solve on the points are the curve's value to the nearest integer, halves up |
| Flags.FirstMatchingIsFirst | src/libs/types/flags.rs:115-126 | The partial found is the earliest that matches, and one is found exactly when the validator as a whole accepts the flag |
| Flags.MatchIgnoresActiveFlag | src/libs/types/flags.rs:65-98 | A validator with no instanced part inside gives the same verdict whatever active flag it is handed, as the scoreboard relies on |
| Flags.MatchesItself | src/libs/services/scoreboard.rs:90-92 | Handing the provided flag over as the active flag, as the scoreboard does, can add matches but never loses one that submit accepted, for every validator |
| Trimming.CoreExactly | src/libs/types/flags.rs:67 | Trimming yields the one text that is the given one without white space around it |
| Judgements.StaticJudged | src/libs/types/flags.rs:67 | Once attempts and requirements are passed, a submission to a static challenge is found correct if and only if it and the flag are the same text with white space around it |
| Judgements.InstancedJudged | src/libs/types/flags.rs:75-81 | To an instanced challenge, if and only if a live instance has that same text for its flag |
| Judgements.PatternJudged | src/libs/types/flags.rs:68-93 | To a pattern or a script, if and only if it accepts the text without the white space around it |
| Judgements.PartialsJudged | src/libs/types/flags.rs:94-126 | To partial flags, if and only if it would be for a challenge with one of them for its only flag |
| Judgements.OuterSpaceIgnored | src/libs/types/flags.rs:65-98 | For every validator, nested ones included, white space around the submission does not change the verdict |
| Scoreboard.BuildChallengeSolvers | src/libs/services/scoreboard.rs:19-37 | The loop builds, for each challenge with a correct submission, the set of its distinct solvers |
| Scoreboard.SolveCountsAgree | src/libs/services/scoreboard.rs:64-67 | The count looked up in that map is the number of distinct solvers in the log, missing challenges included |
| Scoreboard.ComputeTeamSolveScore | src/libs/services/scoreboard.rs:48-162 | The loop over challenges yields the sum of the team's credited points, its last solve time and the solved ids in challenge order |
| Scoreboard.ScoreChallenge | src/libs/services/scoreboard.rs:83-150 | One challenge: whether any part of it is scored, what it adds, and its latest counting submission |
| Scoreboard.ScorePartials | src/libs/services/scoreboard.rs:84-120 | The loop over partial flags adds each scored part once, at its weight, and keeps the latest time |
| PartValues.StoredIsNearest | src/libs/services/solve.rs:246-265 | A wrong flag stores nothing, a whole challenge its value, and a partial flag its value times its weight to the nearest integer, halves away from zero, within 32 bits |
| PartValues.CreditIsNearest | src/libs/services/scoreboard.rs:97-109 | The board credits a partial flag with value times weight to the nearest integer, within 64 bits, if it is scored, and with nothing if it is not |
| PartValues.CreditFollowsWeights | src/libs/services/scoreboard.rs:84-120 | A challenge is credited with the sum of value times weight over the parts scored, within half a point for each part |
| PartValues.AllPartsAreTheWhole | src/libs/services/scoreboard.rs:84-120 | All parts together, where their weights add up to one, are worth the whole within half a point for each |
| Numerals.NumeralsParse | src/libs/services/scoreboard.rs:70 | A decimal numeral, perhaps with a plus sign and leading zeros, is read as its number if that is in range |
| Numerals.OnlyDigitsParse | src/libs/services/scoreboard.rs:70 | Nothing but digits after at most one plus sign is read at all |
| Numerals.FixedValueExactly | src/libs/services/scoreboard.rs:69-73 | A challenge of fixed value is worth the number its equation is, and 100 points where that is no number of 32 bits |
| Scoreboard.ScoredByHits | src/libs/services/scoreboard.rs:85-105 | Filtering by team and then by part selects exactly the hits, and they decide scoring: some hit, or one by every member of a non-empty team |
| Scoreboard.LastSolveBounds | src/libs/services/scoreboard.rs:112-118 | No submission that counts towards a scored part is later than the tie-break time |
| Scoreboard.LastSolveAttained | src/libs/services/scoreboard.rs:142-148 | The tie-break time, when there is one, is the time of a submission that counts |
| Solve.SubmitFlag | src/libs/services/solve.rs:54-288 | One call answers as `SubmitAnswer` says, appends at most the one assessed record to the submission log, and leaves the unlocks alone |
| Solve.AttemptsExhausted | src/libs/services/solve.rs:67-100 | A call is refused for attempts by the count over the requester's own earlier submissions, although the repositories are queried differently for teams and solo players |
| Solve.PrerequisitesMet | src/libs/services/solve.rs:101-120 | Whether every requirement is among the requester's own correct submissions |
| Solve.CollectTeamSolves | src/libs/services/solve.rs:182-193 | The map's keys are the teams with a correct submission, and its lists hold exactly the accounts behind them |
| Solve.CountFullSolveTeams | src/libs/services/solve.rs:181-211 | The counting loop, in any iteration order, counts the known teams that have fully solved the challenge |
| Solve.Award | src/libs/services/solve.rs:180-265 | The points snapshotted into a record are those of the set-based solve counts, whichever way the loops arrive at them |
| Hints.UnlockHint | src/libs/services/hint.rs:63-171 | One call answers as `UnlockAnswer` says, appends at most the one charged record, and leaves the submissions alone |
| Runs.Perform | src/libs/services/solve.rs:54-288 | The services, called one after another on a store, take the steps from which runs are built |
| Runs.LogsOnlyGrow | src/libs/services/solve.rs:279 | Both logs are append-only over every run |
| AttemptCaps.OneMoreAttempt | src/libs/services/solve.rs:80-94 | In each of the four counting modes exactly which submissions use up an attempt, repeats up to surrounding white space included |
| AttemptCaps.AttemptsAreTries | src/libs/services/solve.rs:73-94 | What submit counts is the number of places in the log at which the team, or the account, tried the challenge, or of the different flags at them |
| AttemptCaps.CapHolds | src/libs/services/solve.rs:67-100 | In every run the tries that can be read off the log - all, the wrong ones, the different flags or the different wrong flags, by the mode - stay within the limit of a challenge, for a team or an account that always plays solo |
| AttemptCaps.RefusedExactlyAtTheCap | src/libs/services/solve.rs:95-99 | In every reachable state a submission is refused for attempts if and only if those tries have reached the limit, at which they then stand exactly for a team or an account that always plays solo |
| Decisions.SubmitDecides | src/libs/services/solve.rs:67-178 | Exactly when each answer is given, read off the log: refused for attempts, for a requirement that is not solved, as incorrect, as solved already, or accepted |
| Decisions.DuplicateExactly | src/libs/services/solve.rs:138-178 | A correct flag repeats if and only if the log has a correct record of the same owner on the challenge: one whose flag matches the same partial, one of the same account under consensus, and otherwise any |
| Decisions.SubmitSaves | src/libs/services/solve.rs:267-287 | A judged flag is saved with the fields of the request, a refused call leaves no record, and an unknown challenge is answered as such |
| Decisions.UnlockRefuses | src/libs/services/hint.rs:72-113 | Exactly when a request for a hint is refused as unknown, locked, lacking a requirement or naming no hint |
| Decisions.UnlockDecides | src/libs/services/hint.rs:114-170 | A request that may be made is answered at the price paid before, or as the gate says, or charged and saved with its fields |
| Decisions.CostIsPrice | src/libs/services/hint.rs:125-136 | A hint's price is fixed, or the script's value for the number of distinct solvers and the time, none if that fails or is negative, and cut to 32 bits |
| Requirements.RequirementSolvedBefore | src/libs/services/solve.rs:101-120 | Every record on a challenge is preceded by its owner's correct solve of each requirement |
| Requirements.ChainSolvedBefore | src/libs/services/solve.rs:101-120 | Transitively: a solve is preceded by the same viewer's solve of whatever lies at the end of a chain of requirements |
| Requirements.ChainRecordedBefore | src/libs/services/solve.rs:101-120 | Whoever plays how: every record, even an incorrect one, is preceded by a record on whatever lies at the end of a chain of requirements |
| Requirements.CycleNeverSolved | src/libs/services/solve.rs:112-119 | On a challenge on or behind a requirement cycle there is no record at all, correct or not, of anybody, in any run |
| Monotonicity.SubmissionNeverRaisesOthers | src/libs/services/scoreboard.rs:48-162 | With non-negative weights and decays whose minimum is at most their initial value, one more submission never raises the score of a team that did not make it, for every mix of such challenges, with and without consensus |
| Monotonicity.SubmissionNeverLowers | src/libs/services/scoreboard.rs:48-162 | With non-negative weights, it never lowers the score of the team that made it, nor of any team when no challenge can fall in value, rising decay included |
| GateSolvency.StepKeepsSolvency | src/libs/services/hint.rs:137-155 | Under the gate, with non-negative weights, a solvent team stays solvent through any unlock, its own submissions in every mode, and all submissions when no challenge can fall in value |
| GateSolvency.GateNeverOverdraws | src/libs/services/scoreboard.rs:166-188 | In every run under the gate, with non-negative weights and any mix of challenges that cannot fall in value, hint costs never exceed earnings, so board points are exactly earned minus spent |
| GateSolvency.TotalSnoc | src/libs/services/scoreboard.rs:166-179 | One more record adds its cost to its team's total, or to its account's where it is of no team |
| GateDecisions.GateAgreesWithBoard | src/libs/services/hint.rs:137-155 | Where a team is solvent, a hint it may ask for and has not paid is refused for its price if and only if the price is more than the live board shows for the team, and is charged that price otherwise |
| GateDecisions.GateExactly | src/libs/services/hint.rs:137-155 | In any state the gate refuses an unknown team, and a known one if and only if the price is more than it has earned less what it has spent |
| GateDecisions.DeductionExactly | src/libs/services/scoreboard.rs:182-188 | Free hints leave the points, negative scores make points and costs add up, and the two floors do so down to zero |
| Overdraft.DecayCanOverdraw | src/libs/services/hint.rs:145-154 | For every decay whose minimum lies below its initial value, an event and a run under the gate after which a team owes more than it has earned |
| Overdraft.GateHoldsExactly | src/libs/services/hint.rs:137-155 | All runs of all events in one scoring mode, with non-negative weights, keep every team solvent under the gate if and only if the mode is not a decay with its minimum below its initial value |
| Overdraft.FallenByThen | src/libs/services/solve.rs:26-35 | A challenge that can fall has fallen, rounding included, by the time it has decay + 2 solves |
| Agreement.TeamCountAgrees | src/libs/services/solve.rs:181-244 | Without consensus, where no solo solver has the id of a team, the count that submit extrapolates equals the scoreboard's solver count after the save if and only if every earlier solve was made by a team that still exists |
| Agreement.SoloCountAgrees | src/libs/services/solve.rs:212-244 | For a solo submission on any challenge and any log, the two counts agree if and only if there were as many solving accounts as solvers, or one fewer where the account was a solver already |
| Agreement.SoloCountAgreesAmongSolo | src/libs/services/solve.rs:212-244 | Where only solo players have solved, that is if and only if it is the account's first correct submission |
| Agreement.ConsensusCountAgrees | src/libs/services/solve.rs:193-244 | Under consensus the count that submit extrapolates for a known team equals the scoreboard's solver count after the save if and only if no solver but complete teams is left then - or exactly one, where the team was complete before |
| Agreement.ConsensusNextCount | src/libs/services/solve.rs:193-244 | That extrapolated count is the one submit would find after the save, and one more if the team was complete before |
| Agreement.IncompleteCountAgrees | src/libs/services/scoreboard.rs:19-37 | In terms of the log, ids being disjoint: for a team that was not complete before, if and only if every correct submission is then one of a complete team |
| Agreement.UnknownTeamCountsLow | src/libs/services/solve.rs:196-233 | For a team that is not known the count is always below the scoreboard's |
| Agreement.FullTeamsAreScored | src/libs/services/solve.rs:193-211 | On a challenge without partial flags, with or without consensus, the teams that submit counts as having solved it are exactly the known teams that the scoreboard scores on it |
| Agreement.StoredEqualsCredited | src/libs/services/solve.rs:246-265 | For teams and solo players, with and without consensus: where the value is fixed or the counts agree - the other rows on counts say exactly when - what submit stores is what the scoreboard credits right after the save: for whole challenges always, for partials if and only if the weighted value fits 32 bits |
| Agreement.KnownTeamsCountsAgree | src/libs/services/solve.rs:180-244 | The counts do agree for a team on a challenge without consensus that only known teams have solved, on first solves and later partials alike |
| SoloPlay.AccountsMatchSolvers | src/libs/services/solve.rs:212-219 | In every run of accounts that keep to one team or to solo play, team ids not being account ids, a single-flag challenge has as many solving accounts as solvers, teams and solo players mixed |
| SoloPlay.SoloCountAgreesOnSingleFlags | src/libs/services/solve.rs:212-244 | In every such run a solo player's accepted solve of a single-flag challenge is priced by the right count |
| LaterPartials.LaterPartialMiscounted | src/libs/services/solve.rs:236-244 | For a solo player and for a one-member consensus team, a run whose last step, a second partial flag of the only solver, is priced for two solvers and announced as first blood again |
| LedgerEqualsScore.SubmitGains | src/libs/services/scoreboard.rs:83-150 | On fixed-value challenges without consensus, with separate partials, one accepted record raises its team's recomputed score by exactly its stored points, and nobody else's |
| LedgerEqualsScore.StoredEqualsAdded | src/libs/services/solve.rs:152-279 | For each fixed-value challenge without consensus, with separate partials, in an event of any others, in every reachable state: the points stored for a team on it are what it adds to the team's recomputed score |
| LedgerEqualsScore.StoredEqualsEarned | src/libs/services/solve.rs:152-279 | Where all challenges are such and ids are unique, in every reachable state, a team's stored points sum to the score recomputed from the log |
| Partials.AcceptedOncePerPartial | src/libs/services/solve.rs:153-163 | Where no partial is instanced, overlapping or not, no submission of a team is accepted for a partial flag that an earlier one of the team already matched |
| Partials.OneHitPerPartial | src/libs/services/solve.rs:153-163 | Where no flag matches two partials and none is instanced, in every reachable state a team has at most one submission to its credit on each partial flag |
| Partials.SharedPartialsNeverScore | src/libs/services/scoreboard.rs:97-102 | Under team consensus a separate partial flag is never scored for a team with two different members |
| Partials.ConsensusPartialScoredExactly | src/libs/services/scoreboard.rs:97-107 | Under team consensus, in every reachable state, a separate partial flag is scored if and only if all members of the non-empty team are one account and that account has a matching submission |
| Partials.OverlapScores | src/libs/services/scoreboard.rs:85-103 | Why they must be separate: a run in which two members' flags, accepted for two overlapping partials, both count for one of them and score it |
| StableSorting.StableSortIsUnique | src/libs/services/scoreboard.rs:268-287 | For a total preorder, being sorted and keeping every class of ties in order leaves one result, so the model's sort is the library's |
| StableSorting.SortSorted | src/libs/services/scoreboard.rs:268-287 | The sort sorts, for any total preorder |
| StableSorting.SortTies | src/libs/services/scoreboard.rs:268-287 | The sort keeps the order of elements the comparator does not tell apart |
| StableSorting.SortCommutesWithFilter | src/libs/services/scoreboard.rs:215-218 | Sorting a selection is selecting from the sorted whole |
| Board.GetScoreboard | src/libs/services/scoreboard.rs:211-293 | The service's filters, loop, sort and rank assignment produce the specified board and change nothing |
| Board.ComparatorsAreTotalPreorders | src/libs/services/scoreboard.rs:256-288 | Both two-key comparators are total preorders, and swapping their arguments swaps the verdict |
| Board.BoardIsRanked | src/libs/services/scoreboard.rs:240-291 | The board is one entry for each team, in ranking order by points and tie-break, numbered from 1 |
| Board.AccuracyExactly | src/libs/services/scoreboard.rs:257-267 | The accuracies compared are correct submissions per submission of each team in the log, a team without any counting as fully accurate |
| GateDecisions.EntriesShowTeams | src/libs/services/scoreboard.rs:241-254 | Every entry belongs to a team that takes part in the board, with its name, its deducted points, its last solve and its solved challenges |
| GateDecisions.TeamsHaveEntries | src/libs/services/scoreboard.rs:215-254 | Every such team has an entry |
| Board.BracketBoardIsFilteredBoard | src/libs/services/scoreboard.rs:215-292 | Team ids being unique, a bracket's board is the full board restricted to it: same entries, points and order, ranks renumbered from 1 |
| Board.MonotoneClockSplits | src/libs/services/scoreboard.rs:220-239 | With a monotone clock every run splits at the freeze time |
| Board.FrozenLogsArePrefixes | src/libs/services/scoreboard.rs:220-239 | In a run that splits at the freeze, as every run with a monotone clock does, what the freeze lets through of both logs is the state of the run at that moment |
| Board.FrozenBoardStandsStill | src/libs/services/scoreboard.rs:219-292 | The frozen board after such a run is the live board at the moment of the freeze: no later step changes points, tie-breaks or ranks |
| FirstBlood.FirstBloodExactly | src/libs/api/solve.rs:111-135 | On any challenge and under any configuration an accepted solve is first blood if and only if no other solver has a correct submission on it, and it is announced once, as what it is, if that kind is broadcast |
| FirstBlood.FirstBloodOnce | src/libs/api/solve.rs:111-135 | With both broadcasts on, and team ids not being account ids, in every run a single-flag challenge has been announced if and only if it has a solve, and only its first announcement is first blood |
| FirstBlood.AnnouncementsAreFiltered | src/libs/api/solve.rs:107-135 | Under any configuration what is broadcast during a run is what would be with both kinds on, less the kind that is off |
| FirstBlood.OneSolvePerOwner | src/libs/services/solve.rs:138-178 | Every reachable log has at most one correct submission per owner on a single-flag challenge |
| HintCharges.AtMostOneRecord | src/libs/services/hint.rs:114-124 | Each team or solo account holds at most one record for each hint of each challenge, in every reachable state |
| HintCharges.TotalIsOverDistinctHints | src/libs/services/scoreboard.rs:166-179 | The records whose costs make up an owner's total, which are also those shown to the viewer, belong to pairwise distinct hints |
| HintCharges.UnlockLeavesOneRecord | src/libs/services/hint.rs:156-170 | After a successful unlock the requester has been charged for the hint exactly the cost returned |
| HintCharges.ChargeIsFinal | src/libs/services/hint.rs:114-124 | The charge for a hint never changes afterwards, however the run goes on |
| HintCharges.ReunlockIsFree | src/libs/services/hint.rs:118-124 | Asking again after any further steps, by the same owner and as an administrator if it was first asked as one, succeeds, records nothing and returns the original cost, whatever the live cost has become |
| ChallengeViews.ChallengeSolveCounts | src/libs/api/challenges.rs:32-48 | The page's own loop builds the same solver sets as the scoreboard's |
| ChallengeViews.PageShowsBoardValue | src/libs/api/challenges.rs:50-61 | The price the page shows is the value the scoreboard credits at that moment, although one clamps the count and the other does not |
| ChallengeViews.ListedIsMarked | src/libs/api/challenges.rs:79-95 | Whatever challenge the scoreboard lists for a team, with or without consensus, the page marks as solved |
| ChallengeViews.SolvedIdsInOrder | src/libs/services/scoreboard.rs:152-154 | The list of solved challenges is in challenge order, with one entry for each that is scored in part or whole |
| ChallengeViews.SolvedMarksAgree | src/libs/api/challenges.rs:79-95 | Without consensus, ids being unique, for every validator and in every reachable state, the page marks a challenge solved for a team if and only if the scoreboard lists it among the team's solves |
| RateLimiting.RateLimiter.CheckLimit | src/libs/api/extract.rs:162-175 | One call prunes and extends only its own key's entry and grants as the pruned length allows |
| RateLimiting.KeysAreIndependent | src/libs/api/extract.rs:165 | What the table holds for a key, and what it was granted, is what that key's own calls alone would have led to |
| RateLimiting.NoWindowExceedsTheLimit | src/libs/api/extract.rs:162-175 | No window of the configured length, wherever it starts, in any run with a monotone clock, holds more grants than the limit |
| RateLimiting.DeniedExactlyWhenFull | src/libs/api/extract.rs:167-174 | With a monotone clock, a call is denied if and only if the window that ends now holds exactly the limit, counted over all grants ever made although old entries are dropped |
| InstancedFlags.RenderInstancedFlag | src/libs/services/instancer.rs:11-27 | The imperative rewriting, in each of its branches, produces the specified rendering |
| InstancedFlags.RenderIsInjective | src/libs/services/instancer.rs:11-27 | For every template and challenge id, two brace-free random parts of equal length, at least ten, that render alike are equal |
| InstancedFlags.ShortPartsCollide | src/libs/services/instancer.rs:26 | For every length from one to nine, two different random parts, a template and a challenge id that render alike |
| InstancedFlags.UniqueExactlyWhenLong | src/libs/services/instancer.rs:11-27 | Rendering is injective on brace-free random parts of equal length, for all templates and challenge ids, if and only if that length is zero or at least ten |
| InstancedFlags.RandomPartPlaced | src/libs/services/instancer.rs:16-25 | In a template without placeholders the random part goes between empty braces at the end if the template is ASCII, before any other closing brace at the end after an underscore, and else to the end |
| InstancedFlags.PlaceholdersFilled | src/libs/services/instancer.rs:13-26 | A template with a place for the random part is rendered piece by piece: every {{random}} and {{uuid}} becomes that part, every {{challenge}} the challenge id, and all other text stays |
| InstancedFlags.ReplaceExactly | src/libs/services/instancer.rs:14-15 | A placeholder is replaced at its first occurrence, what comes before is left, and what comes after is treated alike |
| InstancedFlags.ReplaceNothing | src/libs/services/instancer.rs:26 | Without an occurrence nothing changes |
| SmtpParsing.ReadData | src/libs/services/email/server.rs:72-93 | The loop consumes lines up to the terminating dot and returns them un-stuffed, or reports end of stream or a message over the limit |
| SmtpServer.ServeCommand | src/libs/services/email/server.rs:160-214 | One turn of the command loop leaves exactly the rest of the session still to be served |
| SmtpServer.HandleConnection | src/libs/services/email/server.rs:143-216 | Over a whole connection the catcher writes, keeps and ends as the session function of the input says |
| SessionSafety.DeliveriesAreJustified | src/libs/services/email/server.rs:154-214 | Whatever is sent and however commands are parsed, DATA is accepted exactly in an envelope with a sender and recipients, each delivery hands over exactly the recipients accepted since the latest MAIL, with no RSET or delivery between, the mailbox grows by exactly the deliveries, and the output is the replies to the lines and texts read |
| SessionSafety.EventsAreInput | src/libs/services/email/server.rs:154-214 | The record of a session is what its input begins with, line by line and message text by message text |
| WireSafety.ConnectionIsSafe | src/libs/services/email/server.rs:143-216 | For whole connections, on the wire: DATA is answered 354 exactly when a MAIL line has given a sender and RCPT lines recipients since, with no RSET line or message between; each delivery has that sender and those recipients, in order; every other line is answered as its command; and the output is the greeting and these replies |
| CommandLines.LineExactly | src/libs/services/email/server.rs:95-101 | Every line is white space, or a word with or without an argument, or has a separator of more than one byte |
| CommandLines.UpperExactly | src/libs/services/email/server.rs:98-99 | A word is a command name in any case, the two further characters whose upper case is an ASCII letter included |
| CommandLines.CommandExactly | src/libs/services/email/server.rs:163-212 | Exactly which lines are HELO, EHLO, DATA, RSET, NOOP, VRFY, QUIT, and which are blank |
| CommandLines.UnknownExactly | src/libs/services/email/server.rs:212 | Exactly which lines are none of the nine commands |
| CommandLines.SendersExactly | src/libs/services/email/server.rs:171-175 | Exactly which lines are a MAIL with which address, and which a MAIL without one |
| CommandLines.RecipientsExactly | src/libs/services/email/server.rs:176-182 | Exactly which lines are a RCPT with which address, and which a RCPT without one |
| CommandLines.AddressExactly | src/libs/services/email/server.rs:103-107 | An address is found, be it empty or not an address at all, if and only if the argument starts with the keyword in any case |
| CommandLines.AddressPartExactly | src/libs/services/email/server.rs:108-113 | The address is what the angle brackets hold, up to the first closing one or the end, and without brackets the whole text, in each case without white space around |
| CommandLines.CrashExactly | src/libs/services/email/server.rs:95-114 | A command line makes the catcher panic if and only if its separator has more than one byte, or it is a MAIL or RCPT in whose argument byte 5 or byte 3 falls inside a character |
| CommandLines.BytePrefixFails | src/libs/services/email/server.rs:105 | Slicing off the first bytes of a string fails exactly past its end or inside one of its characters |
| CatcherEdges.GreetingReplies | src/libs/services/email/server.rs:164-169 | What HELO, EHLO and QUIT lines are answered |
| CatcherEdges.EnvelopeReplies | src/libs/services/email/server.rs:171-182 | What MAIL and RCPT lines are answered, with and without an address |
| CatcherEdges.DataReply | src/libs/services/email/server.rs:184-187 | A DATA line without a complete envelope is answered 503 |
| CatcherEdges.ResetReply | src/libs/services/email/server.rs:196-200 | An RSET line is answered 250 |
| CatcherEdges.NoopReply | src/libs/services/email/server.rs:201 | A NOOP line is answered 250 |
| CatcherEdges.VrfyReply | src/libs/services/email/server.rs:202 | A VRFY line is answered 252 |
| CatcherEdges.BlankReply | src/libs/services/email/server.rs:211 | A blank line is answered 500 |
| CatcherEdges.UnknownReply | src/libs/services/email/server.rs:212 | A line that is none of the nine commands is answered 502 |
| CatcherEdges.TooLongLineEnds | src/libs/services/email/server.rs:66-68 | A line over the limit ends the session, with nothing answered or kept |
| SmtpClient.BuildMessage | src/libs/services/email/client.rs:260-285 | The pushes produce the header lines, a blank line and the stuffed body lines, each ended by CR LF |
| SmtpClient.ReadReply | src/libs/services/email/client.rs:153-177 | The loop reads one reply of one or more lines, and its error cases are those of the source |
| SmtpClient.Command | src/libs/services/email/client.rs:190-205 | A command is written whole, and it succeeds if and only if the reply has the expected code |
| SmtpClient.SendEmail | src/libs/services/email/client.rs:289-373 | What the sender writes and how it ends, for every stream of replies |
| SenderLaws.CredentialsNeedTls | src/libs/services/email/client.rs:290-292 | With credentials and without TLS nothing is written at all |
| SenderLaws.UnexpectedCodeStops | src/libs/services/email/client.rs:196-204 | After replies as expected, the first that is not stops the sender: it has written the texts of the steps up to there and reports that code |
| SenderLaws.SilenceStops | src/libs/services/email/client.rs:161-163 | Where the replies break off it likewise stops, with an end of stream |
| SenderLaws.QuitOnlyAfterSuccess | src/libs/services/email/client.rs:371 | QUIT follows a dialogue that went well and no other |
| SenderLaws.BadReplies | src/libs/services/email/client.rs:164-170 | A reply line shorter than its code, or with a code that is no number, is invalid |
| SenderLaws.BareCodeEndsReply | src/libs/services/email/client.rs:171 | A code with nothing after it ends a reply, as a code with a space does |
| SenderLaws.StepsExpect | src/libs/services/email/client.rs:297-370 | The dialogue has six steps, expecting 220, 250, 250, 250, 354 and 250, each under the name its failure is reported with |
| SenderLaws.HeaderSafeKeeps | src/libs/services/email/client.rs:256-258 | A header value without line ends is written as it is |
| SenderLaws.HeaderSafeDrops | src/libs/services/email/client.rs:256-258 | Of any other only the line ends are left out |
| SenderLaws.DomainExactly | src/libs/services/email/client.rs:262-265 | The domain of the Message-ID is what follows the last at sign, and localhost if that is nothing or there is none |
| SenderLaws.AddressHeadersWritten | src/libs/services/email/client.rs:268-270 | The first three header lines give From, To and Subject |
| SenderLaws.OtherHeadersWritten | src/libs/services/email/client.rs:271-274 | The others give the date, the message id, and the two fixed ones |
| DataTransparency.StuffingIsUndone | src/libs/services/email/client.rs:276-283 | A stuffed line is never the terminator, and un-stuffing restores the line |
| DataTransparency.ReadWritten | src/libs/services/email/server.rs:72-93 | Of lines none of which reads as the terminator, the catcher consumes exactly what was written up to and including the terminating line, or reports a message over the limit exactly when it is |
| DataTransparency.BrokenOff | src/libs/services/email/server.rs:77-80 | A text that breaks off before its terminating line is no message |
| DataTransparency.SplitLinesIsFaithful | src/libs/services/email/client.rs:276 | The lines of a body hold no newline and joined again give the body |
| DataTransparency.BodyPassesThrough | src/libs/services/email/client.rs:276-283 | Every body within the limit arrives line by line, each line without trailing carriage returns and with one newline |
| MessageParsing.SplitAfterBlock | src/libs/services/email/server.rs:127-132 | After a block of non-empty header lines without line ends, the first blank line splits a received message into its headers and its body, whatever the body holds |
| MessageParsing.LinesOfJoined | src/libs/services/email/server.rs:117 | Splitting the header block into lines recovers the header lines |
| MailLaws.SplitOnceExactly | src/libs/services/email/server.rs:128-130 | A text is cut at the first separator, if there is one |
| MailLaws.HeadersEndAtBlankLine | src/libs/services/email/server.rs:127-132 | Headers end at the first blank line of CR LF, and only where there is none at the first of bare line feeds |
| MailLaws.LinesExactly | src/libs/services/email/server.rs:117 | Lines end at a line feed, with or without a carriage return before it, and the last needs none |
| MailLaws.HeaderExactly | src/libs/services/email/server.rs:116-125 | The value read is that of the first line whose text before its first colon is the name, in any case and without white space around |
| MailLaws.EnvelopeFillsIn | src/libs/services/email/server.rs:133-140 | Where a message has no From, To or Subject, the sender and recipients of the envelope and an empty subject take their place |
| MailLaws.NoBlankLine | src/libs/services/email/server.rs:128-132 | A message without a blank line is all body |
| SmtpExchange.Advance | src/libs/services/email/client.rs:196-204 | A pair of streams, each written on reading the other, goes through one exchange and is such a pair for the rest |
| SmtpDelivery.ParsesBack | src/libs/services/email/server.rs:127-141 | Sender, date and message id being free of line ends, the catcher's parser recovers the sender, recipient, subject and body that the builder wrote, whatever the envelope says |
| SmtpDelivery.EveryRunDelivers | src/libs/services/email/client.rs:289-373 | End to end, for names without line ends and command lines within the limit, any subject and any body: a complete plaintext run delivers if and only if the message is within the limit. Then the sender gets each reply it expects and returns Ok, the catcher ends in order, and the mailbox grows by exactly this email; otherwise the mailbox is unchanged and the sender ends without a reply |
| SmtpDelivery.ARunExists | src/libs/services/email/server.rs:143-216 | Such a run exists for every such sender and message, of any size, so the theorem is not about nothing |
| SmtpTls.StartTlsDeliversNothing | src/libs/services/email/client.rs:306-310 | A sender that insists on STARTTLS leaves the mailbox as it was and reports the extension missing, or, where the host name reads like it, a rejection with 502 |
| SmtpTls.AStartTlsRunExists | src/libs/services/email/server.rs:212 | Such a complete run exists for every message, EHLO line within the limit and host name without line ends |
| SmtpTls.MisleadingHostName | src/libs/services/email/client.rs:237-245 | There is a host name that is taken for the extension |
| CatcherEdges.SeparatorPanics | src/libs/services/email/server.rs:98 | Any verb followed by a no-break space makes it panic |
| CatcherEdges.MailPanics | src/libs/services/email/server.rs:105 | A MAIL line with a plain space that makes it panic |
| CatcherEdges.RcptPanics | src/libs/services/email/server.rs:105 | A RCPT line with a plain space that makes it panic |
| CatcherEdges.AddresslessMailRefusesData | src/libs/services/email/server.rs:176-193 | MAIL on its own, or with an argument that does not start with FROM:, is answered 250, and until a MAIL with that keyword every DATA among the following commands, up to a QUIT or a panic, is answered 503, whatever recipients are given, and nothing is delivered |
| CatcherEdges.ResetRefusesData | src/libs/services/email/server.rs:196-200 | In every session an RSET line is answered 250, and until a MAIL with its keyword every DATA among the following commands, up to a QUIT or a panic, is answered 503 and nothing is delivered |
| CatcherEdges.AddresslessWitness | src/libs/services/email/server.rs:105-107 | The word MAIL on its own is such a line |
| CatcherEdges.EmptyAddressIsAccepted | src/libs/services/email/server.rs:108-113 | MAIL FROM: with nothing after it is not: it gives an empty address |
| CatcherEdges.AnyAddressOpens | src/libs/services/email/server.rs:176-187 | After any address, empty or not, and an accepted recipient, DATA is accepted |

## Left out

- GateSolvency.GateNeverOverdraws: requires that no challenge can fall in value, because it is false of every decay that can (`Overdraft.GateHoldsExactly`).
- Partials.OneHitPerPartial: requires separate partials, because an overlapping flag also counts for partials that submit never compared it with (`Partials.OverlapScores`).
- Partials.SharedPartialsNeverScore: requires separate partials, for the same reason.
- LedgerEqualsScore.SubmitGains: has the conditions of StoredEqualsEarned, below.
- LedgerEqualsScore.StoredEqualsAdded: has them for its own challenge only.
- Monotonicity.SubmissionNeverRaisesOthers: requires minimum at most initial, because a decay with the bounds reversed makes a challenge dearer for all its solvers, and non-negative weights.
- LedgerEqualsScore.StoredEqualsEarned: requires that no flag matches two partials of a challenge, that none of them is instanced, and that weighted values fit 32 bits; the scoreboard and submit judge partials differently otherwise.
- FirstBlood.FirstBloodOnce: is about single-flag challenges; on others a solver's later partials are announced as first blood again, as `FirstBlood.FirstBloodExactly` says.
- ChallengeViews.SolvedMarksAgree: is about challenges without consensus, because the page counts any correct submission of the team.
- SmtpClient.SendEmail: ends where STARTTLS is granted; the TLS handshake, the second EHLO and AUTH LOGIN with its capability check are not modelled, because TLS and Base64 are libraries.
- SmtpDelivery.EveryRunDelivers: covers plaintext sessions without credentials, with names free of line ends and command lines the catcher accepts.
- Requirements.ChainSolvedBefore: for a solo viewer it assumes that this account never submits in a team.
- SoloPlay.SoloCountAgreesOnSingleFlags: assumes accounts that keep to one team or to solo play, and team ids that are not account ids.
- Reading as the source reads: a stream with invalid UTF-8, and input or output errors other than its end.
- Parallel connections to one catcher, and the interleaving of two calls inside one service; there is no transaction in the source.
- Editing or deleting challenges, teams and submissions during a run, and accounts that switch teams where a theorem says so.
- IEEE rounding inside the decay formula, weights that are not numbers, and 32-bit overflow of attempt and solve counts.
- Record ids, submitter addresses, email ids and timestamps, which no other field depends on.
- `to_uppercase` beyond the characters that can form a command verb.
- `export_ctftime`, which reads the unfiltered log and is not covered by the freeze theorem.
- The internals of regular expressions, rhai scripts, JWT, Argon2, HMAC, Base64 and TLS.
- Postgres repositories, Kubernetes instances, file storage, the web handlers, event streams and the user interface.
