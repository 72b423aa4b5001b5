/** Attempt limits hold in every reachable state, in all four counting modes. */
module AttemptCaps {
  import opened Prelude
  import opened Text
  import opened Ledger
  import opened Solve
  import opened Runs

  lemma TrimmedFlagsSnoc(subs: seq<Submission>, s: Submission)
    ensures TrimmedFlags(subs + [s]) == TrimmedFlags(subs) + {Trim(s.providedFlag)}
  {
  }

  lemma OneMoreFlag(subs: seq<Submission>, s: Submission)
    ensures |TrimmedFlags(subs + [s])|
         == |TrimmedFlags(subs)| + (if Trim(s.providedFlag) in TrimmedFlags(subs) then 0 else 1)
  {
    TrimmedFlagsSnoc(subs, s);
    var flags := TrimmedFlags(subs);
    if Trim(s.providedFlag) in flags {
      assert flags + {Trim(s.providedFlag)} == flags;
    }
  }

  /** `s` repeats a flag already tried, up to surrounding white space. */
  ghost predicate Repeats(prior: seq<Submission>, s: Submission) {
    exists p :: p in prior && Trim(p.providedFlag) == Trim(s.providedFlag)
  }

  ghost predicate RepeatsIncorrect(prior: seq<Submission>, s: Submission) {
    exists p :: p in prior && !p.isCorrect && Trim(p.providedFlag) == Trim(s.providedFlag)
  }

  /** What an attempt costs in each mode: everything, only new flags, only wrong
      flags, or only wrong flags not tried before. */
  ghost predicate UsesAttempt(mode: AttemptCountMode, prior: seq<Submission>, s: Submission) {
    match mode
    case All => true
    case Unique => !Repeats(prior, s)
    case IncorrectOnly => !s.isCorrect
    case UniqueIncorrect => !s.isCorrect && !RepeatsIncorrect(prior, s)
  }

  lemma OneMoreAttempt(mode: AttemptCountMode, prior: seq<Submission>, s: Submission)
    ensures AttemptCount(mode, prior + [s])
         == AttemptCount(mode, prior) + (if UsesAttempt(mode, prior, s) then 1 else 0)
  {
    match mode
    case All =>
    case IncorrectOnly =>
      FilterSnoc(prior, s, Incorrect());
    case Unique =>
      OneMoreFlag(prior, s);
    case UniqueIncorrect =>
      var wrong := Filter(prior, Incorrect());
      FilterSnoc(prior, s, Incorrect());
      OneMoreFlag(wrong, s);
      forall p ensures p in wrong <==> p in prior && !p.isCorrect {
        FilterMember(prior, Incorrect(), p);
      }
  }

  /** For a team the account does not matter. */
  lemma AttemptsOfTeam(
      mode: AttemptCountMode, subs: seq<Submission>, id: string, teamId: Option<string>, a: string, b: string)
    requires teamId.Some?
    ensures Attempts(mode, subs, id, teamId, a) == Attempts(mode, subs, id, teamId, b)
  {
    FilterSame(subs, AttemptOn(id, teamId, a), AttemptOn(id, teamId, b));
  }

  lemma AttemptsAfterSubmit(
      w: World, subs: seq<Submission>, r: SubmitRequest, c: Challenge, teamId: Option<string>, accountId: string)
    requires FindChallenge(w.challenges, c.id) == Some(c) && c.maxAttempts.Some?
    requires teamId.None? && r.accountId == accountId ==> r.teamId.None?
    requires Attempts(c.maxAttempts.value.mode, subs, c.id, teamId, accountId) <= c.maxAttempts.value.limit
    ensures Attempts(c.maxAttempts.value.mode, SubmitLog(w, subs, r), c.id, teamId, accountId)
         <= c.maxAttempts.value.limit
  {
    var a := Assess(w, subs, r);
    var mode := c.maxAttempts.value.mode;
    if a.Ok? {
      var keep := AttemptOn(c.id, teamId, accountId);
      FilterSnoc(subs, a.value, keep);
      if keep(a.value) {
        if teamId.Some? {
          AttemptsOfTeam(mode, subs, c.id, teamId, accountId, r.accountId);
        }
        assert !OutOfAttempts(c, subs, r);
        OneMoreAttempt(mode, Filter(subs, keep), a.value);
      }
    }
  }

  // The count, read off the log.

  /** The places of the log at which a team, or a player without one, tried the challenge. */
  function Tries(subs: seq<Submission>, id: string, teamId: Option<string>, accountId: string): set<int> {
    match teamId
    case Some(team) => set i | 0 <= i < |subs| && subs[i].challengeId == id && subs[i].teamId == Some(team)
    case None => set i | 0 <= i < |subs| && subs[i].challengeId == id && subs[i].accountId == accountId
  }

  function FlagsAt(subs: seq<Submission>, places: set<int>): set<string> {
    set i | i in places && 0 <= i < |subs| :: Trim(subs[i].providedFlag)
  }

  function WrongAt(subs: seq<Submission>, places: set<int>): set<int> {
    set i | i in places && 0 <= i < |subs| && !subs[i].isCorrect
  }

  /** All tries, the wrong ones, the different flags tried, the different wrong flags. */
  function Tried(mode: AttemptCountMode, subs: seq<Submission>, id: string,
                 teamId: Option<string>, accountId: string): nat
  {
    var tries := Tries(subs, id, teamId, accountId);
    match mode
    case All => |tries|
    case IncorrectOnly => |WrongAt(subs, tries)|
    case Unique => |FlagsAt(subs, tries)|
    case UniqueIncorrect => |FlagsAt(subs, WrongAt(subs, tries))|
  }

  lemma FilterFlags(subs: seq<Submission>, keep: Submission -> bool)
    ensures TrimmedFlags(Filter(subs, keep)) == FlagsAt(subs, PlacesOf(subs, keep))
  {
    forall s ensures s in Filter(subs, keep) <==> s in subs && keep(s) {
      FilterMember(subs, keep, s);
    }
    forall flag | flag in TrimmedFlags(Filter(subs, keep))
      ensures flag in FlagsAt(subs, PlacesOf(subs, keep))
    {
      var s :| s in Filter(subs, keep) && Trim(s.providedFlag) == flag;
      var i :| 0 <= i < |subs| && subs[i] == s;
      assert i in PlacesOf(subs, keep);
    }
  }

  function WrongOnes(keep: Submission -> bool): Submission -> bool {
    (s: Submission) => keep(s) && !s.isCorrect
  }

  /** What submit counts is what can be read off the log. */
  lemma AttemptsAreTries(
      mode: AttemptCountMode, subs: seq<Submission>, id: string, teamId: Option<string>, accountId: string)
    ensures Attempts(mode, subs, id, teamId, accountId) == Tried(mode, subs, id, teamId, accountId)
  {
    var keep := AttemptOn(id, teamId, accountId);
    var wrong := WrongOnes(keep);
    FilterTwice(subs, keep, Incorrect(), wrong);
    assert PlacesOf(subs, keep) == Tries(subs, id, teamId, accountId);
    assert PlacesOf(subs, wrong) == WrongAt(subs, Tries(subs, id, teamId, accountId));
    FilterCounts(subs, keep);
    FilterCounts(subs, wrong);
    FilterFlags(subs, keep);
    FilterFlags(subs, wrong);
  }

  lemma {:induction false} CountStaysWithin(
      w: World, steps: seq<Step>, c: Challenge, teamId: Option<string>, accountId: string)
    requires FindChallenge(w.challenges, c.id) == Some(c) && c.maxAttempts.Some?
    requires teamId.None? ==> AlwaysSolo(steps, accountId)
    ensures Attempts(c.maxAttempts.value.mode, Run(w, steps).subs, c.id, teamId, accountId)
         <= c.maxAttempts.value.limit
  {
    if steps == [] {
      assert Filter([], AttemptOn(c.id, teamId, accountId)) == [];
      assert TrimmedFlags([]) == {};
    } else {
      var n := |steps| - 1;
      CountStaysWithin(w, steps[..n], c, teamId, accountId);
      if steps[n].Submit? {
        AttemptsAfterSubmit(w, Run(w, steps[..n]).subs, steps[n].submit, c, teamId, accountId);
      }
    }
  }

  /** No run brings a team, or an account that always plays solo, over the limit. */
  lemma CapHolds(w: World, steps: seq<Step>, c: Challenge, teamId: Option<string>, accountId: string)
    requires FindChallenge(w.challenges, c.id) == Some(c) && c.maxAttempts.Some?
    requires teamId.None? ==> AlwaysSolo(steps, accountId)
    ensures Tried(c.maxAttempts.value.mode, Run(w, steps).subs, c.id, teamId, accountId) <= c.maxAttempts.value.limit
  {
    CountStaysWithin(w, steps, c, teamId, accountId);
    AttemptsAreTries(c.maxAttempts.value.mode, Run(w, steps).subs, c.id, teamId, accountId);
  }

  lemma RefusedExactly(w: World, subs: seq<Submission>, c: Challenge, r: SubmitRequest)
    requires FindChallenge(w.challenges, r.challengeId) == Some(c) && c.maxAttempts.Some?
    ensures SubmitAnswer(w, subs, r) == Err(MaxAttemptsReached)
       <==> Tried(c.maxAttempts.value.mode, subs, c.id, r.teamId, r.accountId) >= c.maxAttempts.value.limit
  {
    AttemptsAreTries(c.maxAttempts.value.mode, subs, c.id, r.teamId, r.accountId);
  }

  /** A call is refused for its attempts exactly when the count has reached the limit,
      at which it then stands for a team or an account that always plays solo. */
  lemma RefusedExactlyAtTheCap(w: World, steps: seq<Step>, c: Challenge, r: SubmitRequest)
    requires FindChallenge(w.challenges, r.challengeId) == Some(c) && c.maxAttempts.Some?
    ensures var tried := Tried(c.maxAttempts.value.mode, Run(w, steps).subs, c.id, r.teamId, r.accountId);
      && (SubmitAnswer(w, Run(w, steps).subs, r) == Err(MaxAttemptsReached) <==> tried >= c.maxAttempts.value.limit)
      && ((r.teamId.None? ==> AlwaysSolo(steps, r.accountId)) ==> tried <= c.maxAttempts.value.limit)
  {
    RefusedExactly(w, Run(w, steps).subs, c, r);
    if r.teamId.None? ==> AlwaysSolo(steps, r.accountId) {
      CapHolds(w, steps, c, r.teamId, r.accountId);
    }
  }
}
