/** How submit judges a flag, validator by validator, in terms of the text submitted. */
module Judgements {
  import opened Prelude
  import opened Text
  import opened Trimming
  import opened Flags
  import opened Ledger
  import opened Solve

  /** The call gets as far as looking at the flag. */
  ghost predicate Judged(w: World, subs: seq<Submission>, r: SubmitRequest) {
    var answer := SubmitAnswer(w, subs, r);
    answer != Err(ChallengeNotFound) && answer != Err(MaxAttemptsReached) && answer != Err(RequirementsNotMet)
  }

  ghost predicate FoundCorrect(w: World, subs: seq<Submission>, r: SubmitRequest) {
    Judged(w, subs, r) && SubmitAnswer(w, subs, r) != Err(IncorrectFlag)
  }

  ghost predicate Asked(w: World, c: Challenge, subs: seq<Submission>, r: SubmitRequest) {
    FindChallenge(w.challenges, r.challengeId) == Some(c) && Judged(w, subs, r)
  }

  /** A static flag: the same text up to white space around it. */
  lemma StaticJudged(w: World, c: Challenge, subs: seq<Submission>, r: SubmitRequest)
    requires Asked(w, c, subs, r) && c.flag.Static?
    ensures FoundCorrect(w, subs, r) <==> SameCore(c.flag.flag, r.flag)
  {
    SameCoreExactly(c.flag.flag, r.flag);
  }

  /** An instanced flag: likewise, against the flag of an instance that is live. */
  lemma InstancedJudged(w: World, c: Challenge, subs: seq<Submission>, r: SubmitRequest)
    requires Asked(w, c, subs, r) && c.flag.Instanced?
    ensures FoundCorrect(w, subs, r) <==> r.activeFlag.Some? && SameCore(r.activeFlag.value, r.flag)
  {
    if r.activeFlag.Some? {
      SameCoreExactly(r.activeFlag.value, r.flag);
    }
  }

  /** A pattern or a script: whatever it says of the core of the text. */
  lemma PatternJudged(w: World, c: Challenge, subs: seq<Submission>, r: SubmitRequest, core: string)
    requires Asked(w, c, subs, r) && CoreOf(r.flag, core)
    ensures c.flag.Regex? ==> (FoundCorrect(w, subs, r) <==> w.oracle.regex(c.flag.pattern, core))
    ensures c.flag.Script? ==> (FoundCorrect(w, subs, r) <==> w.oracle.script(c.flag.source, core))
  {
    CoreExactly(r.flag, core);
  }

  /** Partial flags: correct if it would be for one of them alone. */
  lemma PartialsJudged(w: World, c: Challenge, subs: seq<Submission>, r: SubmitRequest)
    requires Asked(w, c, subs, r) && c.flag.Multi?
    ensures FoundCorrect(w, subs, r)
       <==> exists i :: 0 <= i < |c.flag.partials| && Alone(w, c, subs, r, i)
  {
    CorrectIsMatch(w, c, r);
    assert FoundCorrect(w, subs, r) <==> Correct(w, c, r);
    forall i | 0 <= i < |c.flag.partials|
      ensures Alone(w, c, subs, r, i) <==> IsMatch(w.oracle, c.flag.partials[i].validator, r.flag, r.activeFlag)
    {
      OnlyPartial(w, c, subs, r, i);
    }
  }

  /** The challenge with one of its partial flags for its only flag. */
  function OnlyPart(c: Challenge, i: int): Challenge
    requires c.flag.Multi? && 0 <= i < |c.flag.partials|
  {
    c.(flag := c.flag.partials[i].validator)
  }

  ghost predicate Alone(w: World, c: Challenge, subs: seq<Submission>, r: SubmitRequest, i: int)
    requires c.flag.Multi? && 0 <= i < |c.flag.partials|
  {
    FoundCorrect(w.(challenges := [OnlyPart(c, i)]), subs, r)
  }

  lemma OnlyPartial(w: World, c: Challenge, subs: seq<Submission>, r: SubmitRequest, i: int)
    requires Asked(w, c, subs, r) && c.flag.Multi? && 0 <= i < |c.flag.partials|
    ensures Alone(w, c, subs, r, i) <==> IsMatch(w.oracle, c.flag.partials[i].validator, r.flag, r.activeFlag)
  {
    var part := OnlyPart(c, i);
    var alone := w.(challenges := [part]);
    assert FindChallenge(alone.challenges, r.challengeId) == Some(part);
    CorrectIsMatch(alone, part, r);
  }

  lemma {:induction false} SpaceIgnored(
      o: Oracle, v: FlagValidator, a: string, b: string, live: Option<string>, live': Option<string>)
    requires Trim(a) == Trim(b) && live.Some? == live'.Some?
    requires live.Some? ==> Trim(live.value) == Trim(live'.value)
    ensures IsMatch(o, v, a, live) == IsMatch(o, v, b, live')
    decreases v
  {
    if v.Multi? {
      forall i | 0 <= i < |v.partials|
        ensures IsMatch(o, v.partials[i].validator, a, live) == IsMatch(o, v.partials[i].validator, b, live')
      {
        SpaceIgnored(o, v.partials[i].validator, a, b, live, live');
      }
    }
  }

  lemma CorrectIsMatch(w: World, c: Challenge, r: SubmitRequest)
    ensures Correct(w, c, r) <==> IsMatch(w.oracle, c.flag, r.flag, r.activeFlag)
  {
    if c.flag.Multi? {
      FirstMatchingIsFirst(w.oracle, c.flag.partials, r.flag, r.activeFlag);
    }
  }

  lemma CorrectIgnoresSpace(w: World, c: Challenge, r: SubmitRequest, flag: string)
    requires Trim(r.flag) == Trim(flag)
    ensures Correct(w, c, r.(flag := flag)) <==> Correct(w, c, r)
  {
    CorrectIsMatch(w, c, r);
    CorrectIsMatch(w, c, r.(flag := flag));
    SpaceIgnored(w.oracle, c.flag, r.flag, flag, r.activeFlag, r.activeFlag);
  }

  /** For every validator: white space around the flag does not change the verdict. */
  lemma OuterSpaceIgnored(w: World, c: Challenge, subs: seq<Submission>, r: SubmitRequest, flag: string)
    requires Asked(w, c, subs, r) && SameCore(r.flag, flag)
    ensures FoundCorrect(w, subs, r.(flag := flag)) <==> FoundCorrect(w, subs, r)
  {
    SameCoreExactly(r.flag, flag);
    CorrectIgnoresSpace(w, c, r, flag);
  }
}
