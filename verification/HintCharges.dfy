/** Over a whole run every hint is charged at most once per owner. */
module HintCharges {
  import opened Prelude
  import opened Ledger
  import opened Scoreboard
  import opened Hints
  import opened Runs

  /** The records that charge the requester for the hint requested. */
  predicate ChargesFor(r: UnlockRequest, u: HintUnlock) {
    IsFor(r, u) && u.hintIndex == r.hintIndex
  }

  function ChargeRecords(r: UnlockRequest): HintUnlock -> bool {
    (u: HintUnlock) => ChargesFor(r, u)
  }

  lemma {:induction false} FirstWithIndexFinds(unlocks: seq<HintUnlock>, hintIndex: nat)
    ensures FirstWithIndex(unlocks, hintIndex).None? <==> forall u :: u in unlocks ==> u.hintIndex != hintIndex
    ensures FirstWithIndex(unlocks, hintIndex).Some? ==>
      var u := FirstWithIndex(unlocks, hintIndex).value; u in unlocks && u.hintIndex == hintIndex
  {
    if unlocks != [] && unlocks[0].hintIndex != hintIndex {
      FirstWithIndexFinds(unlocks[1..], hintIndex);
    }
  }

  lemma PriorUnlockFinds(unlocks: seq<HintUnlock>, r: UnlockRequest)
    ensures PriorUnlock(unlocks, r).None? <==> forall u :: u in unlocks ==> !ChargesFor(r, u)
    ensures PriorUnlock(unlocks, r).Some? ==>
      PriorUnlock(unlocks, r).value in unlocks && ChargesFor(r, PriorUnlock(unlocks, r).value)
  {
    FirstWithIndexFinds(Filter(unlocks, UnlocksFor(r)), r.hintIndex);
    forall u ensures u in Filter(unlocks, UnlocksFor(r)) <==> u in unlocks && IsFor(r, u) {
      FilterMember(unlocks, UnlocksFor(r), u);
    }
  }

  lemma UnlockAddsNoDuplicate(
      w: World, subs: seq<Submission>, unlocks: seq<HintUnlock>, q: UnlockRequest, r: UnlockRequest)
    requires |Filter(unlocks, ChargeRecords(r))| <= 1
    ensures |Filter(UnlockLog(w, subs, unlocks, q), ChargeRecords(r))| <= 1
  {
    var a := AssessUnlock(w, subs, unlocks, q);
    if a.Charged? {
      FilterSnoc(unlocks, a.unlock, ChargeRecords(r));
      if ChargesFor(r, a.unlock) {
        PriorUnlockFinds(unlocks, q);
        forall i | 0 <= i < |unlocks|
          ensures !ChargeRecords(r)(unlocks[i])
        {
          assert unlocks[i] in unlocks;
        }
        FilterNone(unlocks, ChargeRecords(r));
      }
    }
  }

  /** Each owner holds at most one record for each hint of each challenge. */
  lemma {:induction false} AtMostOneRecord(w: World, steps: seq<Step>, r: UnlockRequest)
    ensures |Filter(Run(w, steps).unlocks, ChargeRecords(r))| <= 1
  {
    if steps == [] {
    } else {
      var n := |steps| - 1;
      AtMostOneRecord(w, steps[..n], r);
      if steps[n].Unlock? {
        var st := Run(w, steps[..n]);
        UnlockAddsNoDuplicate(w, st.subs, st.unlocks, steps[n].unlock, r);
      }
    }
  }

  ghost predicate DistinctHints(unlocks: seq<HintUnlock>) {
    forall i, j :: 0 <= i < j < |unlocks| ==>
      !(unlocks[i].challengeId == unlocks[j].challengeId && unlocks[i].hintIndex == unlocks[j].hintIndex)
  }

  lemma ChargeIsNew(w: World, subs: seq<Submission>, unlocks: seq<HintUnlock>, r: UnlockRequest,
                    teamId: Option<string>, accountId: Option<string>, i: int)
    requires AssessUnlock(w, subs, unlocks, r).Charged?
    requires UnlockedBy(teamId, accountId)(AssessUnlock(w, subs, unlocks, r).unlock)
    requires 0 <= i < |Filter(unlocks, UnlockedBy(teamId, accountId))|
    ensures var u := Filter(unlocks, UnlockedBy(teamId, accountId))[i];
      !(u.challengeId == r.challengeId && u.hintIndex == r.hintIndex)
  {
    var keep := UnlockedBy(teamId, accountId);
    PriorUnlockFinds(unlocks, r);
    FilterMember(unlocks, keep, Filter(unlocks, keep)[i]);
  }

  /** The costs that `TotalHintCost` adds up for a team, or for a solo account,
      belong to pairwise distinct hints. */
  lemma {:induction false} TotalIsOverDistinctHints(
      w: World, steps: seq<Step>, teamId: Option<string>, accountId: Option<string>)
    ensures DistinctHints(Filter(Run(w, steps).unlocks, UnlockedBy(teamId, accountId)))
  {
    if steps == [] {
    } else {
      var n := |steps| - 1;
      TotalIsOverDistinctHints(w, steps[..n], teamId, accountId);
      var st := Run(w, steps[..n]);
      if steps[n].Unlock? && AssessUnlock(w, st.subs, st.unlocks, steps[n].unlock).Charged? {
        var u := AssessUnlock(w, st.subs, st.unlocks, steps[n].unlock).unlock;
        var keep := UnlockedBy(teamId, accountId);
        FilterSnoc(st.unlocks, u, keep);
        if keep(u) {
          forall i | 0 <= i < |Filter(st.unlocks, keep)|
            ensures !(Filter(st.unlocks, keep)[i].challengeId == u.challengeId
                      && Filter(st.unlocks, keep)[i].hintIndex == u.hintIndex)
          {
            ChargeIsNew(w, st.subs, st.unlocks, steps[n].unlock, teamId, accountId, i);
          }
        }
      }
    }
  }

  /** What the requester has been charged so far for the hint requested. */
  function Charged(unlocks: seq<HintUnlock>, r: UnlockRequest): nat {
    SumCosts(Filter(unlocks, ChargeRecords(r)))
  }

  /** The same owner asks for the same hint again, perhaps through another account of
      the team and at another time, and as an administrator if it was asked as one. */
  ghost predicate SameHint(r: UnlockRequest, q: UnlockRequest) {
    && r.challengeId == q.challengeId && r.hintIndex == q.hintIndex && (r.isAdmin ==> q.isAdmin)
    && r.teamId == q.teamId && (r.teamId.None? ==> r.accountId == q.accountId)
  }

  lemma SolvedIdsGrow(subs: seq<Submission>, later: seq<Submission>, teamId: Option<string>, accountId: string)
    requires IsPrefix(subs, later)
    ensures SolvedIdsAlone(subs, teamId, accountId) <= SolvedIdsAlone(later, teamId, accountId)
  {
    assert forall s :: s in subs ==> s in later;
  }

  lemma SoleRecord(unlocks: seq<HintUnlock>, r: UnlockRequest, u: HintUnlock)
    requires u in unlocks && ChargesFor(r, u)
    requires |Filter(unlocks, ChargeRecords(r))| <= 1
    ensures Filter(unlocks, ChargeRecords(r)) == [u]
  {
    FilterMember(unlocks, ChargeRecords(r), u);
  }

  lemma SumOfOne(u: HintUnlock)
    ensures SumCosts([u]) == u.cost
  {
    assert [u][..0] == [];
  }

  /** After a successful unlock the hint has been charged at the cost returned. */
  lemma UnlockLeavesOneRecord(w: World, steps: seq<Step>, r: UnlockRequest)
    requires UnlockAnswer(w, Run(w, steps).subs, Run(w, steps).unlocks, r).Ok?
    ensures var after := Run(w, steps + [Unlock(r)]).unlocks;
      Charged(after, r) == UnlockAnswer(w, Run(w, steps).subs, Run(w, steps).unlocks, r).value.cost
      && exists u :: u in after && ChargesFor(r, u)
  {
    var st := Run(w, steps);
    var after := Run(w, steps + [Unlock(r)]).unlocks;
    RunSnoc(w, steps, Unlock(r));
    AtMostOneRecord(w, steps + [Unlock(r)], r);
    PriorUnlockFinds(st.unlocks, r);
    var a := AssessUnlock(w, st.subs, st.unlocks, r);
    var u := if a.Charged? then a.unlock else a.prior;
    assert u in after && ChargesFor(r, u);
    SoleRecord(after, r, u);
    SumOfOne(u);
  }

  /** The charge never changes afterwards, however the run goes on. */
  lemma {:induction false} ChargeIsFinal(w: World, steps: seq<Step>, k: nat, r: UnlockRequest)
    requires k <= |steps|
    requires exists u :: u in Run(w, steps[..k]).unlocks && ChargesFor(r, u)
    ensures Charged(Run(w, steps).unlocks, r) == Charged(Run(w, steps[..k]).unlocks, r)
    ensures exists u :: u in Run(w, steps).unlocks && ChargesFor(r, u)
  {
    var u :| u in Run(w, steps[..k]).unlocks && ChargesFor(r, u);
    LogsOnlyGrow(w, steps, k);
    var before, after := Run(w, steps[..k]).unlocks, Run(w, steps).unlocks;
    assert u in after[..|before|];
    AtMostOneRecord(w, steps[..k], r);
    AtMostOneRecord(w, steps, r);
    SoleRecord(before, r, u);
    SoleRecord(after, r, u);
  }

  /** A request whose hint has been charged at `paid` is answered from the record. */
  lemma AnsweredFromRecord(w: World, st: State, q: UnlockRequest, paid: U32)
    requires AssessUnlock(w, st.subs, st.unlocks, q).Already?
    requires |Filter(st.unlocks, ChargeRecords(q))| <= 1 && Charged(st.unlocks, q) == paid
    ensures UnlockAnswer(w, st.subs, st.unlocks, q) == Ok(UnlockResult(HintContent(w, q), paid, true))
    ensures UnlockLog(w, st.subs, st.unlocks, q) == st.unlocks
  {
    PriorUnlockFinds(st.unlocks, q);
    var u := PriorUnlock(st.unlocks, q).value;
    SoleRecord(st.unlocks, q, u);
    SumOfOne(u);
  }

  lemma StillPermitted(w: World, st: State, later: State, r: UnlockRequest, q: UnlockRequest)
    requires !AssessUnlock(w, st.subs, st.unlocks, r).Refused? && SameHint(r, q)
    requires SolvedIdsAlone(st.subs, r.teamId, r.accountId) <= SolvedIdsAlone(later.subs, r.teamId, r.accountId)
    requires exists u :: u in later.unlocks && ChargesFor(r, u)
    ensures AssessUnlock(w, later.subs, later.unlocks, q).Already?
  {
    PriorUnlockFinds(later.unlocks, q);
    assert SolvedIdsAlone(later.subs, r.teamId, r.accountId) == SolvedIdsAlone(later.subs, q.teamId, q.accountId);
  }

  lemma SameCharges(unlocks: seq<HintUnlock>, r: UnlockRequest, q: UnlockRequest)
    requires SameHint(r, q)
    ensures Filter(unlocks, ChargeRecords(r)) == Filter(unlocks, ChargeRecords(q))
  {
    FilterSame(unlocks, ChargeRecords(r), ChargeRecords(q));
  }

  /** Asking again later, after any further steps, succeeds, records nothing and
      answers with the original cost - whatever the live cost has become. */
  lemma ReunlockIsFree(w: World, steps: seq<Step>, more: seq<Step>, r: UnlockRequest, q: UnlockRequest)
    requires UnlockAnswer(w, Run(w, steps).subs, Run(w, steps).unlocks, r).Ok?
    requires SameHint(r, q)
    ensures var paid := UnlockAnswer(w, Run(w, steps).subs, Run(w, steps).unlocks, r).value.cost;
      var st := Run(w, steps + [Unlock(r)] + more);
      && UnlockAnswer(w, st.subs, st.unlocks, q) == Ok(UnlockResult(HintContent(w, q), paid, true))
      && UnlockLog(w, st.subs, st.unlocks, q) == st.unlocks
      && Charged(st.unlocks, q) == paid
  {
    var all := steps + [Unlock(r)] + more;
    var paid := UnlockAnswer(w, Run(w, steps).subs, Run(w, steps).unlocks, r).value.cost;
    var k := |steps| + 1;
    assert all[..|steps|] == steps && all[..k] == steps + [Unlock(r)];
    assert Charged(Run(w, all).unlocks, r) == paid && exists u :: u in Run(w, all).unlocks && ChargesFor(r, u) by {
      UnlockLeavesOneRecord(w, steps, r);
      ChargeIsFinal(w, all, k, r);
    }
    assert AssessUnlock(w, Run(w, all).subs, Run(w, all).unlocks, q).Already? by {
      LogsOnlyGrow(w, all, |steps|);
      SolvedIdsGrow(Run(w, steps).subs, Run(w, all).subs, r.teamId, r.accountId);
      StillPermitted(w, Run(w, steps), Run(w, all), r, q);
    }
    SameCharges(Run(w, all).unlocks, r, q);
    AtMostOneRecord(w, all, q);
    AnsweredFromRecord(w, Run(w, all), q, paid);
  }
}
