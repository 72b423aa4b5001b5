/** Solo players among teams: in whole runs, the price that submit extrapolates for
    them on single-flag challenges is right. */
module SoloPlay {
  import opened Prelude
  import opened Ledger
  import opened Solve
  import opened Runs
  import opened Agreement
  import opened FirstBlood

  /** No account plays both solo and in a team, or in two teams. */
  ghost predicate Settled(steps: seq<Step>) {
    forall i, j :: 0 <= i < |steps| && 0 <= j < |steps| && steps[i].Submit? && steps[j].Submit? ==>
      steps[i].submit.accountId == steps[j].submit.accountId ==>
      steps[i].submit.teamId == steps[j].submit.teamId
  }

  ghost predicate LogSettled(steps: seq<Step>, subs: seq<Submission>) {
    forall s, j :: s in subs && 0 <= j < |steps| && steps[j].Submit? && steps[j].submit.accountId == s.accountId ==>
      steps[j].submit.teamId == s.teamId
  }

  lemma {:induction false} RunSettled(w: World, steps: seq<Step>, k: nat)
    requires Settled(steps) && k <= |steps|
    ensures LogSettled(steps, Run(w, steps[..k]).subs)
  {
    if k == 0 {
    } else {
      assert steps[..k][..k - 1] == steps[..k - 1];
      RunSettled(w, steps, k - 1);
    }
  }

  lemma SolvingAccountsSnoc(subs: seq<Submission>, s: Submission, challengeId: string)
    ensures SolvingAccounts(subs + [s], challengeId)
         == SolvingAccounts(subs, challengeId) + (if CorrectOn(challengeId, s) then {s.accountId} else {})
  {
  }

  /** An accepted solve of a single-flag challenge adds one account and one solver. */
  lemma NewAccountAndKey(w: World, c: Challenge, all: seq<Step>, k: nat, subs: seq<Submission>)
    requires k < |all| && all[k].Submit? && LogNamesApart(all, subs) && LogSettled(all, subs)
    requires FindChallenge(w.challenges, c.id) == Some(c) && SingleFlag(c) && all[k].submit.challengeId == c.id
    requires SubmitAnswer(w, subs, all[k].submit).Ok?
    ensures all[k].submit.accountId !in SolvingAccounts(subs, c.id)
    ensures SolverKey(SubmitAnswer(w, subs, all[k].submit).value) !in Solvers(subs, c.id)
  {
    var r := all[k].submit;
    NewSolverKey(w, c, all, k, subs, r);
    forall s | s in subs && CorrectOn(c.id, s)
      ensures s.accountId != r.accountId
    {
      AcceptedIsNewOwner(w, c, subs, r, s);
    }
  }

  lemma StillMatching(w: World, c: Challenge, all: seq<Step>, k: nat, subs: seq<Submission>)
    requires k < |all| && all[k].Submit? && LogNamesApart(all, subs) && LogSettled(all, subs)
    requires FindChallenge(w.challenges, c.id) == Some(c) && SingleFlag(c)
    requires |SolvingAccounts(subs, c.id)| == |Solvers(subs, c.id)|
    ensures var after := SubmitLog(w, subs, all[k].submit); |SolvingAccounts(after, c.id)| == |Solvers(after, c.id)|
  {
    var a := Assess(w, subs, all[k].submit);
    if a.Ok? {
      if CorrectOn(c.id, a.value) {
        NewAccountAndKey(w, c, all, k, subs);
      }
      GrowTogether(subs, a.value, c.id);
    }
  }

  lemma GrowTogether(subs: seq<Submission>, s: Submission, id: string)
    requires |SolvingAccounts(subs, id)| == |Solvers(subs, id)|
    requires CorrectOn(id, s) ==> s.accountId !in SolvingAccounts(subs, id) && SolverKey(s) !in Solvers(subs, id)
    ensures |SolvingAccounts(subs + [s], id)| == |Solvers(subs + [s], id)|
  {
    SolvingAccountsSnoc(subs, s, id);
    SolversSnoc(subs, s, id);
  }

  /** In a run of settled accounts a single-flag challenge has as many solving accounts
      as solvers, teams and solo players mixed. */
  lemma {:induction false} AccountsMatchSolvers(w: World, all: seq<Step>, k: nat, c: Challenge)
    requires NamesApart(all) && Settled(all) && k <= |all|
    requires FindChallenge(w.challenges, c.id) == Some(c) && SingleFlag(c)
    ensures var subs := Run(w, all[..k]).subs; |SolvingAccounts(subs, c.id)| == |Solvers(subs, c.id)|
  {
    if k == 0 {
      assert SolvingAccounts([], c.id) == {} && Solvers([], c.id) == {};
    } else {
      var subs := Run(w, all[..k - 1]).subs;
      assert all[..k][..k - 1] == all[..k - 1];
      AccountsMatchSolvers(w, all, k - 1, c);
      if all[k - 1].Submit? {
        RunNamesApart(w, all, k - 1);
        RunSettled(w, all, k - 1);
        StillMatching(w, c, all, k - 1, subs);
      }
    }
  }

  /** So a solo player's accepted solve of a single-flag challenge is priced by the
      right count in every run, whoever else has solved it. */
  lemma SoloCountAgreesOnSingleFlags(w: World, all: seq<Step>, k: nat, c: Challenge)
    requires NamesApart(all) && Settled(all) && k < |all| && all[k].Submit?
    requires FindChallenge(w.challenges, c.id) == Some(c) && SingleFlag(c)
    requires all[k].submit.challengeId == c.id && all[k].submit.teamId.None?
    requires SubmitAnswer(w, Run(w, all[..k]).subs, all[k].submit).Ok?
    ensures CountsAgree(w, c, Run(w, all[..k]).subs, all[k].submit)
  {
    var subs, r := Run(w, all[..k]).subs, all[k].submit;
    AccountsMatchSolvers(w, all, k, c);
    RunNamesApart(w, all, k);
    RunSettled(w, all, k);
    NewAccountAndKey(w, c, all, k, subs);
    SoloCountAgrees(w, c, subs, r, SubmitAnswer(w, subs, r).value);
  }
}
