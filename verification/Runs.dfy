/** Whole runs: serialised calls, each of them one atomic step on the two logs. */
module Runs {
  import opened Ledger
  import opened Solve
  import opened Hints

  datatype State = State(subs: seq<Submission>, unlocks: seq<HintUnlock>)

  datatype Step = Submit(submit: SubmitRequest) | Unlock(unlock: UnlockRequest)

  function Next(w: World, st: State, step: Step): State {
    match step
    case Submit(r) => State(SubmitLog(w, st.subs, r), st.unlocks)
    case Unlock(r) => State(st.subs, UnlockLog(w, st.subs, st.unlocks, r))
  }

  /** The state after `steps`, starting from empty logs. */
  function Run(w: World, steps: seq<Step>): State {
    if steps == [] then State([], [])
    else Next(w, Run(w, steps[..|steps| - 1]), steps[|steps| - 1])
  }

  /** `accountId` never submits as part of a team. */
  ghost predicate AlwaysSolo(steps: seq<Step>, accountId: string) {
    forall i :: 0 <= i < |steps| && steps[i].Submit? && steps[i].submit.accountId == accountId ==>
      steps[i].submit.teamId.None?
  }

  lemma RunSnoc(w: World, steps: seq<Step>, step: Step)
    ensures Run(w, steps + [step]) == Next(w, Run(w, steps), step)
  {
    assert (steps + [step])[..|steps|] == steps;
  }

  lemma RunOne(w: World, p: Step)
    ensures Run(w, [p]) == Next(w, State([], []), p)
  {
    RunSnoc(w, [], p);
    assert [] + [p] == [p];
  }

  lemma RunTwo(w: World, p: Step, q: Step)
    ensures Run(w, [p, q]) == Next(w, Next(w, State([], []), p), q)
  {
    RunOne(w, p);
    RunSnoc(w, [p], q);
    assert [p] + [q] == [p, q];
  }

  /** The stores of the services step as `Next` says. */
  method Perform(store: Store, w: World, step: Step)
    modifies store
    ensures State(store.submissions, store.hintUnlocks)
         == Next(w, State(old(store.submissions), old(store.hintUnlocks)), step)
  {
    match step
    case Submit(r) => var answer := SubmitFlag(store, w, r);
    case Unlock(r) => var answer := UnlockHint(store, w, r);
  }

  ghost predicate IsPrefix<T>(a: seq<T>, b: seq<T>) {
    |a| <= |b| && b[..|a|] == a
  }

  /** Both logs are append-only. */
  lemma {:induction false} LogsOnlyGrow(w: World, steps: seq<Step>, k: nat)
    requires k <= |steps|
    ensures IsPrefix(Run(w, steps[..k]).subs, Run(w, steps).subs)
    ensures IsPrefix(Run(w, steps[..k]).unlocks, Run(w, steps).unlocks)
  {
    if k == |steps| {
      assert steps[..k] == steps;
    } else {
      var before := steps[..|steps| - 1];
      assert before[..k] == steps[..k];
      LogsOnlyGrow(w, before, k);
    }
  }
}
