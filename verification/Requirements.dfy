/** Prerequisites: the correct submissions of a run respect the requirement graph. */
module Requirements {
  import opened Prelude
  import opened Ledger
  import opened Solve
  import opened Runs

  ghost predicate Requires(w: World, id: string, prerequisite: string) {
    FindChallenge(w.challenges, id).Some? && prerequisite in FindChallenge(w.challenges, id).value.requirements
  }

  /** A walk in the requirement graph, each challenge requiring the next. */
  ghost predicate Chain(w: World, ids: seq<string>) {
    ids != [] && forall i :: 0 <= i < |ids| - 1 ==> Requires(w, ids[i], ids[i + 1])
  }

  /** Submission `i` is a correct one on `id` that the viewer owns. */
  ghost predicate SolvedAt(subs: seq<Submission>, i: int, id: string, teamId: Option<string>, accountId: string) {
    0 <= i < |subs| && CorrectOn(id, subs[i]) && Owns(teamId, accountId, subs[i])
  }

  ghost predicate SubmitsAs(step: Step, teamId: Option<string>, accountId: string) {
    step.Submit? && step.submit.teamId == teamId && step.submit.accountId == accountId
  }

  /** Whose solves are followed: a team's, or those of an account that always plays solo. */
  ghost predicate Viewer(steps: seq<Step>, teamId: Option<string>, accountId: string) {
    teamId.None? ==> AlwaysSolo(steps, accountId)
  }

  /** Every record comes from a request of the run. */
  lemma {:induction false} RecordsComeFromSteps(w: World, steps: seq<Step>, i: int) returns (k: int)
    requires 0 <= i < |Run(w, steps).subs|
    ensures 0 <= k < |steps|
    ensures SubmitsAs(steps[k], Run(w, steps).subs[i].teamId, Run(w, steps).subs[i].accountId)
  {
    k := |steps| - 1;
    if i < |Run(w, steps[..k]).subs| {
      k := RecordsComeFromSteps(w, steps[..k], i);
    }
  }

  /** One edge: a correct submission comes after one on each requirement. */
  lemma {:induction false} RequirementSolvedBefore(
      w: World, steps: seq<Step>, i: int, id: string, prerequisite: string)
    returns (j: int)
    requires 0 <= i < |Run(w, steps).subs| && Run(w, steps).subs[i].challengeId == id
    requires Requires(w, id, prerequisite)
    ensures 0 <= j < i
    ensures SolvedAt(Run(w, steps).subs, j, prerequisite,
                     Run(w, steps).subs[i].teamId, Run(w, steps).subs[i].accountId)
  {
    var n := |steps| - 1;
    var before := Run(w, steps[..n]).subs;
    if i < |before| {
      j := RequirementSolvedBefore(w, steps[..n], i, id, prerequisite);
      assert before[j] == Run(w, steps).subs[j] && before[i] == Run(w, steps).subs[i];
    } else {
      var r := steps[n].submit;
      assert prerequisite in SolvedIdsOf(before, r.teamId, r.accountId);
      var s :| s in before && s.isCorrect && Owns(r.teamId, r.accountId, s) && s.challengeId == prerequisite;
      j :| 0 <= j < |before| && before[j] == s;
    }
  }

  /** The owner of a later record owns what the owner of an earlier one owned. */
  lemma OwnersChain(w: World, steps: seq<Step>, i: int, j: int, teamId: Option<string>, accountId: string)
    requires Viewer(steps, teamId, accountId)
    requires 0 <= i < |Run(w, steps).subs| && 0 <= j < |Run(w, steps).subs|
    requires Owns(teamId, accountId, Run(w, steps).subs[i])
    requires Owns(Run(w, steps).subs[i].teamId, Run(w, steps).subs[i].accountId, Run(w, steps).subs[j])
    ensures Owns(teamId, accountId, Run(w, steps).subs[j])
  {
    if teamId.None? {
      var k := RecordsComeFromSteps(w, steps, i);
    }
  }

  /** Transitively: a solve is preceded by the same viewer's solve of every
      challenge at the end of a chain of requirements. */
  lemma {:induction false} ChainSolvedBefore(
      w: World, steps: seq<Step>, ids: seq<string>, i: int, teamId: Option<string>, accountId: string)
    returns (j: int)
    requires Viewer(steps, teamId, accountId) && Chain(w, ids)
    requires SolvedAt(Run(w, steps).subs, i, ids[0], teamId, accountId)
    ensures SolvedAt(Run(w, steps).subs, j, ids[|ids| - 1], teamId, accountId)
    ensures if |ids| == 1 then j == i else j < i
    decreases |ids|
  {
    if |ids| == 1 {
      j := i;
    } else {
      var k := RequirementSolvedBefore(w, steps, i, ids[0], ids[1]);
      OwnersChain(w, steps, i, k, teamId, accountId);
      j := ChainSolvedBefore(w, steps, ids[1..], k, teamId, accountId);
    }
  }

  /** For any owner, and for records that are not even correct: each is preceded by a
      record on whatever lies at the end of a chain of requirements. */
  lemma {:induction false} ChainRecordedBefore(w: World, steps: seq<Step>, ids: seq<string>, i: int) returns (j: int)
    requires Chain(w, ids) && 0 <= i < |Run(w, steps).subs| && Run(w, steps).subs[i].challengeId == ids[0]
    ensures 0 <= j <= i && Run(w, steps).subs[j].challengeId == ids[|ids| - 1]
    ensures |ids| > 1 ==> j < i
    decreases |ids|
  {
    if |ids| == 1 {
      j := i;
    } else {
      var k := RequirementSolvedBefore(w, steps, i, ids[0], ids[1]);
      j := ChainRecordedBefore(w, steps, ids[1..], k);
    }
  }

  /** A challenge on or behind a requirement cycle has no record at all, in any run. */
  lemma {:induction false} CycleNeverSolved(w: World, steps: seq<Step>, ids: seq<string>, k: nat, i: int)
    requires Chain(w, ids) && k < |ids| - 1 && ids[k] == ids[|ids| - 1]
    requires 0 <= i < |Run(w, steps).subs|
    ensures Run(w, steps).subs[i].challengeId != ids[0]
    decreases i
  {
    if Run(w, steps).subs[i].challengeId == ids[0] {
      var j := ChainRecordedBefore(w, steps, ids[..k + 1], i);
      var cycle := ids[k..];
      var m := ChainRecordedBefore(w, steps, cycle, j);
      CycleNeverSolved(w, steps, cycle, 0, m);
    }
  }
}
