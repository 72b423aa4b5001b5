/** Broadcasts: first blood is drawn once. */
module FirstBlood {
  import opened Prelude
  import opened Ledger
  import opened Solve
  import opened Runs
  import opened Agreement

  datatype NotificationKind = FirstBloodKind | SolveKind

  datatype NotificationConfig = NotificationConfig(broadcastSolves: bool, broadcastFirstBloods: bool)

  /** Decided from the log after the save. */
  function BroadcastFor(cfg: NotificationConfig, subs: seq<Submission>, s: Submission): Option<NotificationKind> {
    if !cfg.broadcastSolves && !cfg.broadcastFirstBloods then None
    else
      var firstBlood := |Solvers(subs, s.challengeId)| <= 1;
      var kind := if firstBlood then FirstBloodKind else SolveKind;
      var wanted := if firstBlood then cfg.broadcastFirstBloods else cfg.broadcastSolves;
      if wanted then Some(kind) else None
  }

  datatype Announcement = Announcement(challengeId: string, kind: NotificationKind)

  function Announce(w: World, cfg: NotificationConfig, subs: seq<Submission>, r: SubmitRequest): seq<Announcement> {
    var answer := SubmitAnswer(w, subs, r);
    if answer.Err? then []
    else
      var kind := BroadcastFor(cfg, SubmitLog(w, subs, r), answer.value);
      if kind.None? then [] else [Announcement(r.challengeId, kind.value)]
  }

  /** Everything broadcast during a run. */
  function Announcements(w: World, cfg: NotificationConfig, steps: seq<Step>): seq<Announcement> {
    if steps == [] then []
    else
      var n := |steps| - 1;
      Announcements(w, cfg, steps[..n])
      + (if steps[n].Submit? then Announce(w, cfg, Run(w, steps[..n]).subs, steps[n].submit) else [])
  }

  lemma AtMostOne<T>(s: set<T>, x: T)
    requires x in s
    ensures |s| <= 1 <==> s == {x}
  {
    if |s| <= 1 {
      assert |s - {x}| == |s| - 1;
      assert s == {x} + (s - {x});
    }
  }

  lemma OnlySolver(subs: seq<Submission>, s: Submission)
    requires s.isCorrect
    ensures |Solvers(subs + [s], s.challengeId)| <= 1
       <==> forall x :: x in subs && CorrectOn(s.challengeId, x) ==> SolverKey(x) == SolverKey(s)
  {
    var before := Solvers(subs, s.challengeId);
    SolversSnoc(subs, s, s.challengeId);
    AtMostOne(before + {SolverKey(s)}, SolverKey(s));
    if x :| x in subs && CorrectOn(s.challengeId, x) && SolverKey(x) != SolverKey(s) {
      assert SolverKey(x) in before;
    }
  }

  lemma AnnouncedFromLog(w: World, cfg: NotificationConfig, subs: seq<Submission>, r: SubmitRequest)
    requires cfg.broadcastSolves && cfg.broadcastFirstBloods && SubmitAnswer(w, subs, r).Ok?
    ensures var s := SubmitAnswer(w, subs, r).value;
      && s.isCorrect && s.challengeId == r.challengeId
      && Announce(w, cfg, subs, r)
         == [Announcement(r.challengeId,
                          if |Solvers(subs + [s], r.challengeId)| <= 1 then FirstBloodKind else SolveKind)]
  {
  }

  /** No other solver has a correct submission on the challenge of `s`. */
  ghost predicate NoOtherSolver(subs: seq<Submission>, s: Submission) {
    forall x :: x in subs && CorrectOn(s.challengeId, x) ==> SolverKey(x) == SolverKey(s)
  }

  /** For any challenge and any configuration: an accepted solve is first blood exactly
      when no other solver has a correct submission on the challenge, and it is
      announced as what it is if that kind is broadcast. */
  lemma FirstBloodExactly(w: World, cfg: NotificationConfig, subs: seq<Submission>, r: SubmitRequest)
    requires SubmitAnswer(w, subs, r).Ok?
    ensures Announce(w, cfg, subs, r)
         == if NoOtherSolver(subs, SubmitAnswer(w, subs, r).value)
            then (if cfg.broadcastFirstBloods then [Announcement(r.challengeId, FirstBloodKind)] else [])
            else (if cfg.broadcastSolves then [Announcement(r.challengeId, SolveKind)] else [])
  {
    OnlySolver(subs, SubmitAnswer(w, subs, r).value);
  }

  const EVERYTHING := NotificationConfig(true, true)

  function Wanted(cfg: NotificationConfig): Announcement -> bool {
    (a: Announcement) => if a.kind == FirstBloodKind then cfg.broadcastFirstBloods else cfg.broadcastSolves
  }

  lemma AnnounceFiltered(w: World, cfg: NotificationConfig, subs: seq<Submission>, r: SubmitRequest)
    ensures Announce(w, cfg, subs, r) == Filter(Announce(w, EVERYTHING, subs, r), Wanted(cfg))
  {
    if SubmitAnswer(w, subs, r).Ok? {
      FirstBloodExactly(w, cfg, subs, r);
      FirstBloodExactly(w, EVERYTHING, subs, r);
      var a := Announce(w, EVERYTHING, subs, r)[0];
      FilterSnoc([], a, Wanted(cfg));
      assert [] + [a] == [a];
    }
  }

  /** What is broadcast under any configuration is what would be broadcast with both
      kinds on, less the kind that is off. */
  lemma {:induction false} AnnouncementsAreFiltered(w: World, cfg: NotificationConfig, steps: seq<Step>)
    ensures Announcements(w, cfg, steps) == Filter(Announcements(w, EVERYTHING, steps), Wanted(cfg))
  {
    if steps == [] {
    } else {
      var n := |steps| - 1;
      AnnouncementsAreFiltered(w, cfg, steps[..n]);
      if steps[n].Submit? {
        var subs := Run(w, steps[..n]).subs;
        var more := Announce(w, EVERYTHING, subs, steps[n].submit);
        AnnounceFiltered(w, cfg, subs, steps[n].submit);
        FilterAppend(Announcements(w, EVERYTHING, steps[..n]), more, Wanted(cfg));
      } else {
        assert Announcements(w, cfg, steps[..n]) + [] == Announcements(w, cfg, steps[..n]);
        assert Announcements(w, EVERYTHING, steps) == Announcements(w, EVERYTHING, steps[..n]);
      }
    }
  }

  ghost predicate SingleFlag(c: Challenge) {
    !c.flag.Multi? && !c.teamConsensus
  }

  /** Team ids and account ids never coincide. */
  ghost predicate NamesApart(steps: seq<Step>) {
    forall i, j :: 0 <= i < |steps| && 0 <= j < |steps| && steps[i].Submit? && steps[j].Submit? ==>
      steps[i].submit.teamId != Some(steps[j].submit.accountId)
  }

  /** On a single-flag challenge nobody is accepted twice. */
  lemma AcceptedIsNewOwner(w: World, c: Challenge, subs: seq<Submission>, r: SubmitRequest, s: Submission)
    requires FindChallenge(w.challenges, r.challengeId) == Some(c) && SingleFlag(c)
    requires SubmitAnswer(w, subs, r).Ok? && s in subs && CorrectOn(c.id, s)
    ensures !Owns(r.teamId, r.accountId, s)
  {
    ExistingDecides(subs, r);
  }

  ghost predicate LogNamesApart(steps: seq<Step>, subs: seq<Submission>) {
    forall s, j :: s in subs && 0 <= j < |steps| && steps[j].Submit? ==>
      steps[j].submit.teamId != Some(s.accountId) && s.teamId != Some(steps[j].submit.accountId)
  }

  lemma {:induction false} RunNamesApart(w: World, steps: seq<Step>, k: nat)
    requires NamesApart(steps) && k <= |steps|
    ensures LogNamesApart(steps, Run(w, steps[..k]).subs)
  {
    if k == 0 {
    } else {
      assert steps[..k][..k - 1] == steps[..k - 1];
      RunNamesApart(w, steps, k - 1);
    }
  }

  lemma NewSolverKey(w: World, c: Challenge, all: seq<Step>, k: nat, subs: seq<Submission>, r: SubmitRequest)
    requires k < |all| && all[k] == Submit(r) && LogNamesApart(all, subs)
    requires FindChallenge(w.challenges, r.challengeId) == Some(c) && SingleFlag(c)
    requires SubmitAnswer(w, subs, r).Ok?
    ensures forall s :: s in subs && CorrectOn(c.id, s) ==> SolverKey(s) != SolverKey(SubmitAnswer(w, subs, r).value)
  {
    forall s | s in subs && CorrectOn(c.id, s)
      ensures SolverKey(s) != SolverKey(SubmitAnswer(w, subs, r).value)
    {
      AcceptedIsNewOwner(w, c, subs, r, s);
    }
  }

  ghost predicate Announced(said: seq<Announcement>, id: string) {
    exists i :: 0 <= i < |said| && said[i].challengeId == id
  }

  /** Among the announcements about `id` exactly the first is first blood. */
  ghost predicate FirstIsFirstBlood(said: seq<Announcement>, id: string) {
    forall i :: 0 <= i < |said| && said[i].challengeId == id ==>
      (said[i].kind == FirstBloodKind <==> forall j :: 0 <= j < i ==> said[j].challengeId != id)
  }

  ghost predicate HasSolve(subs: seq<Submission>, id: string) {
    exists s :: s in subs && CorrectOn(id, s)
  }

  lemma HasSolveSnoc(subs: seq<Submission>, s: Submission, id: string)
    ensures HasSolve(subs + [s], id) <==> HasSolve(subs, id) || CorrectOn(id, s)
  {
    if HasSolve(subs, id) {
      var x :| x in subs && CorrectOn(id, x);
      assert x in subs + [s];
    }
    assert s in subs + [s];
  }

  lemma AnnouncedSnoc(said: seq<Announcement>, a: Announcement, id: string)
    requires FirstIsFirstBlood(said, id)
    requires a.challengeId == id ==> (a.kind == FirstBloodKind <==> !Announced(said, id))
    ensures Announced(said + [a], id) <==> Announced(said, id) || a.challengeId == id
    ensures FirstIsFirstBlood(said + [a], id)
  {
    var all := said + [a];
    assert all[|said|] == a;
    assert forall i :: 0 <= i < |said| ==> all[i] == said[i];
  }

  /** With both broadcasts on, in every run: a single-flag challenge has been
      announced exactly when it has a solve, and only its first announcement is
      first blood. */
  lemma {:induction false} FirstBloodOnce(w: World, cfg: NotificationConfig, all: seq<Step>, k: nat, c: Challenge)
    requires cfg.broadcastSolves && cfg.broadcastFirstBloods
    requires NamesApart(all) && k <= |all|
    requires FindChallenge(w.challenges, c.id) == Some(c) && SingleFlag(c)
    ensures FirstIsFirstBlood(Announcements(w, cfg, all[..k]), c.id)
    ensures Announced(Announcements(w, cfg, all[..k]), c.id) <==> HasSolve(Run(w, all[..k]).subs, c.id)
  {
    if k == 0 {
    } else {
      var said := Announcements(w, cfg, all[..k - 1]);
      var subs := Run(w, all[..k - 1]).subs;
      assert all[..k][..k - 1] == all[..k - 1];
      FirstBloodOnce(w, cfg, all, k - 1, c);
      if all[k - 1].Submit? {
        RunNamesApart(w, all, k - 1);
        AnnounceOnce(w, cfg, all, k - 1, c, said, subs);
      } else {
        assert Announcements(w, cfg, all[..k]) == said;
      }
    }
  }

  lemma AnnounceOnce(
      w: World, cfg: NotificationConfig, all: seq<Step>, k: nat, c: Challenge,
      said: seq<Announcement>, subs: seq<Submission>)
    requires cfg.broadcastSolves && cfg.broadcastFirstBloods
    requires k < |all| && all[k].Submit? && LogNamesApart(all, subs)
    requires FindChallenge(w.challenges, c.id) == Some(c) && SingleFlag(c)
    requires FirstIsFirstBlood(said, c.id) && (Announced(said, c.id) <==> HasSolve(subs, c.id))
    ensures var said' := said + Announce(w, cfg, subs, all[k].submit);
      && FirstIsFirstBlood(said', c.id)
      && (Announced(said', c.id) <==> HasSolve(SubmitLog(w, subs, all[k].submit), c.id))
  {
    var r := all[k].submit;
    if Assess(w, subs, r).Ok? {
      HasSolveSnoc(subs, Assess(w, subs, r).value, c.id);
    }
    if SubmitAnswer(w, subs, r).Ok? {
      FirstBloodExactly(w, cfg, subs, r);
      if r.challengeId == c.id {
        NewSolverKey(w, c, all, k, subs, r);
      }
      AnnouncedSnoc(said, Announce(w, cfg, subs, r)[0], c.id);
      assert Announce(w, cfg, subs, r) == [Announce(w, cfg, subs, r)[0]];
    } else {
      assert said + Announce(w, cfg, subs, r) == said;
    }
  }

  /** At most one correct submission per owner on a single-flag challenge. */
  lemma {:induction false} OneSolvePerOwner(w: World, steps: seq<Step>, c: Challenge, i: int, j: int)
    requires FindChallenge(w.challenges, c.id) == Some(c) && SingleFlag(c)
    requires 0 <= i < j < |Run(w, steps).subs|
    requires CorrectOn(c.id, Run(w, steps).subs[i]) && CorrectOn(c.id, Run(w, steps).subs[j])
    ensures !Owns(Run(w, steps).subs[j].teamId, Run(w, steps).subs[j].accountId, Run(w, steps).subs[i])
  {
    var n := |steps| - 1;
    var subs := Run(w, steps[..n]).subs;
    if j < |subs| {
      OneSolvePerOwner(w, steps[..n], c, i, j);
    } else {
      AcceptedIsNewOwner(w, c, subs, steps[n].submit, subs[i]);
    }
  }
}
