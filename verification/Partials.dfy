/** Weighted partial flags over whole runs: each is accepted once per team. Where no
    flag matches two of them, that is what the scoreboard wants without consensus,
    and defeats it with consensus. */
module Partials {
  import opened Prelude
  import opened Flags
  import opened Ledger
  import opened Scoreboard
  import opened Solve
  import opened Runs

  ghost predicate PartsInstanceFree(c: Challenge) {
    c.flag.Multi? && forall i :: 0 <= i < |c.flag.partials| ==> InstanceFree(c.flag.partials[i].validator)
  }

  ghost predicate SeparatePartials(o: Oracle, c: Challenge) {
    c.flag.Multi? && Separate(o, c.flag.partials)
  }

  /** `s` is a correct submission of the team that submit accepted for partial `k`. */
  ghost predicate AcceptedFor(o: Oracle, teamId: string, c: Challenge, k: int, s: Submission) {
    s.teamId == Some(teamId) && CorrectOn(c.id, s) && c.flag.Multi?
    && IsFirstMatch(o, c.flag.partials, k, s.providedFlag, None)
  }

  /** Without instanced parts the first match does not depend on the active flag. */
  lemma FirstMatchIgnoresActiveFlag(
      o: Oracle, c: Challenge, k: int, flag: string, a: Option<string>, b: Option<string>)
    requires PartsInstanceFree(c) && IsFirstMatch(o, c.flag.partials, k, flag, a)
    ensures IsFirstMatch(o, c.flag.partials, k, flag, b)
  {
    forall j | 0 <= j <= k
      ensures IsMatch(o, c.flag.partials[j].validator, flag, a) == IsMatch(o, c.flag.partials[j].validator, flag, b)
    {
      MatchIgnoresActiveFlag(o, c.flag.partials[j].validator, flag, a, b);
    }
  }

  /** Where no flag matches two partials, the one matched is the one accepted for. */
  lemma HitMeansAccepted(o: Oracle, teamId: string, c: Challenge, k: int, s: Submission)
    requires SeparatePartials(o, c) && 0 <= k < |Parts(c)| && Hit(o, teamId, c.id, Parts(c)[k], s)
    ensures AcceptedFor(o, teamId, c, k, s)
  {
    var partials := c.flag.partials;
    MatchIgnoresActiveFlag(o, partials[k].validator, s.providedFlag, Some(s.providedFlag), None);
  }

  lemma SecondRefused(
      w: World, c: Challenge, subs: seq<Submission>, r: SubmitRequest, teamId: string, k: int, x: Submission)
    requires FindChallenge(w.challenges, r.challengeId) == Some(c) && PartsInstanceFree(c)
    requires 0 <= k < |Parts(c)| && x in subs && Hit(w.oracle, teamId, c.id, Parts(c)[k], x)
    requires Assess(w, subs, r).Ok?
    ensures !AcceptedFor(w.oracle, teamId, c, k, Assess(w, subs, r).value)
  {
    var s := Assess(w, subs, r).value;
    if AcceptedFor(w.oracle, teamId, c, k, s) {
      FirstMatchIgnoresActiveFlag(w.oracle, c, k, r.flag, None, r.activeFlag);
      FirstMatchingIsFirst(w.oracle, c.flag.partials, r.flag, r.activeFlag);
      var v := c.flag.partials[k].validator;
      MatchIgnoresActiveFlag(w.oracle, v, x.providedFlag, Some(x.providedFlag), r.activeFlag);
      FilterMember(subs, SolveOf(r.challengeId, r.teamId, r.accountId), x);
    }
  }

  /** In every reachable state no submission of a team was accepted for a partial flag
      that an earlier one of the same team already matched, whatever else it matched. */
  lemma {:induction false} AcceptedOncePerPartial(
      w: World, steps: seq<Step>, c: Challenge, teamId: string, k: int, i: int, j: int)
    requires FindChallenge(w.challenges, c.id) == Some(c) && PartsInstanceFree(c)
    requires 0 <= k < |Parts(c)| && 0 <= i < j < |Run(w, steps).subs|
    requires Hit(w.oracle, teamId, c.id, Parts(c)[k], Run(w, steps).subs[i])
    ensures !AcceptedFor(w.oracle, teamId, c, k, Run(w, steps).subs[j])
  {
    var n := |steps| - 1;
    var subs := Run(w, steps[..n]).subs;
    if j < |subs| {
      AcceptedOncePerPartial(w, steps[..n], c, teamId, k, i, j);
    } else if steps[n].submit.challengeId == c.id {
      SecondRefused(w, c, subs, steps[n].submit, teamId, k, subs[i]);
    }
  }

  /** So where no flag matches two partials, a team has at most one submission to its
      credit on each of them. */
  lemma OneHitPerPartial(w: World, steps: seq<Step>, c: Challenge, teamId: string, k: int, i: int, j: int)
    requires FindChallenge(w.challenges, c.id) == Some(c) && SeparatePartials(w.oracle, c)
    requires 0 <= k < |Parts(c)| && 0 <= i < j < |Run(w, steps).subs|
    requires Hit(w.oracle, teamId, c.id, Parts(c)[k], Run(w, steps).subs[i])
    ensures !Hit(w.oracle, teamId, c.id, Parts(c)[k], Run(w, steps).subs[j])
  {
    AcceptedOncePerPartial(w, steps, c, teamId, k, i, j);
    if Hit(w.oracle, teamId, c.id, Parts(c)[k], Run(w, steps).subs[j]) {
      HitMeansAccepted(w.oracle, teamId, c, k, Run(w, steps).subs[j]);
    }
  }

  lemma MemberHit(o: Oracle, team: Team, c: Challenge, part: Part, subs: seq<Submission>, m: string) returns (i: int)
    requires c.teamConsensus && Scored(o, team, c, part, subs) && m in team.memberIds
    ensures 0 <= i < |subs| && subs[i].accountId == m && Hit(o, team.id, c.id, part, subs[i])
  {
    var x :| x in subs && x.accountId == m && Hit(o, team.id, c.id, part, x);
    i :| 0 <= i < |subs| && subs[i] == x;
  }

  /** Under team consensus a separate partial flag is never scored for a team with two
      different members: the second one's correct flag is refused as already solved. */
  lemma SharedPartialsNeverScore(w: World, steps: seq<Step>, c: Challenge, team: Team, k: int, a: string, b: string)
    requires FindChallenge(w.challenges, c.id) == Some(c) && SeparatePartials(w.oracle, c) && c.teamConsensus
    requires 0 <= k < |Parts(c)| && a in team.memberIds && b in team.memberIds && a != b
    ensures !Scored(w.oracle, team, c, Parts(c)[k], Run(w, steps).subs)
  {
    var part := Parts(c)[k];
    if Scored(w.oracle, team, c, part, Run(w, steps).subs) {
      var i := MemberHit(w.oracle, team, c, part, Run(w, steps).subs, a);
      var j := MemberHit(w.oracle, team, c, part, Run(w, steps).subs, b);
      if i < j {
        OneHitPerPartial(w, steps, c, team.id, k, i, j);
      } else {
        OneHitPerPartial(w, steps, c, team.id, k, j, i);
      }
    }
  }

  /** The team has members, and all of them are this account. */
  ghost predicate OnlyMember(team: Team, accountId: string) {
    team.memberIds != [] && forall m :: m in team.memberIds ==> m == accountId
  }

  ghost predicate HitByAccount(
      o: Oracle, team: Team, c: Challenge, part: Part, subs: seq<Submission>, accountId: string)
  {
    exists s :: s in subs && s.accountId == accountId && Hit(o, team.id, c.id, part, s)
  }

  /** Exactly when a separate partial flag is scored under team consensus, in every
      reachable state: the team has a single account for a member, which has a hit. */
  lemma ConsensusPartialScoredExactly(w: World, steps: seq<Step>, c: Challenge, team: Team, k: int)
    requires FindChallenge(w.challenges, c.id) == Some(c) && SeparatePartials(w.oracle, c) && c.teamConsensus
    requires 0 <= k < |Parts(c)|
    ensures Scored(w.oracle, team, c, Parts(c)[k], Run(w, steps).subs)
       <==> exists a :: OnlyMember(team, a) && HitByAccount(w.oracle, team, c, Parts(c)[k], Run(w, steps).subs, a)
  {
    if Scored(w.oracle, team, c, Parts(c)[k], Run(w, steps).subs) {
      var a := team.memberIds[0];
      assert a in team.memberIds;
      forall m | m in team.memberIds
        ensures m == a
      {
        if m != a {
          SharedPartialsNeverScore(w, steps, c, team, k, a, m);
        }
      }
      assert OnlyMember(team, a) && HitByAccount(w.oracle, team, c, Parts(c)[k], Run(w, steps).subs, a);
    }
  }

  // Why the partials must be separate: a flag that also matches another partial
  // counts there, although submit has never compared it with that one.

  const NARROW := PartialFlag("narrow", Static("x"), 0.5)
  const WIDE := PartialFlag("wide", Regex(""), 0.5)
  const OVERLAPPING := Challenge("web", PointValue, "100", Multi([NARROW, WIDE]), [], [], true, Visible, None)
  const PAIR := Team("pair", "Pair", ["ann", "bob"], "open")

  function MatchAll(): Oracle {
    Oracle((p, f) => true, (s, f) => false, (s, n, t) => None)
  }

  function Event(): World {
    World([OVERLAPPING], [PAIR], MatchAll(), FloorZero)
  }

  const ANN := SubmitRequest("web", Some("pair"), "ann", "y", None, 1)
  const BOB := SubmitRequest("web", Some("pair"), "bob", "x", None, 2)

  lemma Verdicts()
    ensures !IsMatch(MatchAll(), NARROW.validator, "y", None) && IsMatch(MatchAll(), NARROW.validator, "x", None)
    ensures forall flag, active :: IsMatch(MatchAll(), WIDE.validator, flag, active)
    ensures FindChallenge(Event().challenges, "web") == Some(OVERLAPPING)
    ensures FindMatchingPartial(MatchAll(), OVERLAPPING.flag, "y", None) == Some(WIDE)
    ensures FindMatchingPartial(MatchAll(), OVERLAPPING.flag, "x", None) == Some(NARROW)
  {
    FirstOfTwo(MatchAll(), NARROW, WIDE, "y", None);
    FirstOfTwo(MatchAll(), NARROW, WIDE, "x", None);
  }

  lemma AnnAccepted()
    ensures Assess(Event(), [], ANN) == Ok(Record(Event(), OVERLAPPING, [], ANN))
    ensures Hit(MatchAll(), "pair", "web", Piece(WIDE), Record(Event(), OVERLAPPING, [], ANN))
  {
    Verdicts();
    assert Existing([], ANN) == [];
  }

  lemma BobAccepted(a: Submission)
    requires a.providedFlag == "y"
    ensures Assess(Event(), [a], BOB) == Ok(Record(Event(), OVERLAPPING, [a], BOB))
    ensures Hit(MatchAll(), "pair", "web", Piece(WIDE), Record(Event(), OVERLAPPING, [a], BOB))
  {
    Verdicts();
    forall s | s in Existing([a], BOB)
      ensures s == a
    {
      FilterMember([a], SolveOf(BOB.challengeId, BOB.teamId, BOB.accountId), s);
    }
  }

  /** Two members' flags, accepted for two different partials, both count for one. */
  lemma OverlapScores() returns (steps: seq<Step>)
    ensures FindChallenge(Event().challenges, "web") == Some(OVERLAPPING)
    ensures PartsInstanceFree(OVERLAPPING) && !SeparatePartials(MatchAll(), OVERLAPPING)
    ensures Scored(MatchAll(), PAIR, OVERLAPPING, Piece(WIDE), Run(Event(), steps).subs)
    ensures Piece(WIDE) in Parts(OVERLAPPING)
  {
    steps := [Submit(ANN), Submit(BOB)];
    AnnAccepted();
    var a := Record(Event(), OVERLAPPING, [], ANN);
    BobAccepted(a);
    var b := Record(Event(), OVERLAPPING, [a], BOB);
    RunTwo(Event(), Submit(ANN), Submit(BOB));
    assert [] + [a] == [a] && [a] + [b] == [a, b];
    BothCount(MatchAll(), PAIR, OVERLAPPING, Piece(WIDE), a, b);
    OverlapIsReal();
  }

  lemma BothCount(o: Oracle, team: Team, c: Challenge, part: Part, a: Submission, b: Submission)
    requires c.teamConsensus && team.memberIds == [a.accountId, b.accountId]
    requires Hit(o, team.id, c.id, part, a) && Hit(o, team.id, c.id, part, b)
    ensures Scored(o, team, c, part, [a, b])
  {
    assert a in [a, b] && b in [a, b];
  }

  lemma OverlapIsReal()
    ensures FindChallenge(Event().challenges, "web") == Some(OVERLAPPING) && Piece(WIDE) in Parts(OVERLAPPING)
    ensures PartsInstanceFree(OVERLAPPING) && !SeparatePartials(MatchAll(), OVERLAPPING)
  {
    Verdicts();
    var partials := OVERLAPPING.flag.partials;
    assert partials[0] == NARROW && partials[1] == WIDE;
    assert IsMatch(MatchAll(), partials[1].validator, "x", None);
    assert Parts(OVERLAPPING)[1] == Piece(WIDE);
  }
}
