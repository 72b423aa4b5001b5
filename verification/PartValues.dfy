/** What a weighted partial flag is worth: the product, to the nearest point. */
module PartValues {
  import opened Prelude
  import opened Flags
  import opened Ledger
  import opened Scoring
  import opened Scoreboard
  import opened Solve

  /** The nearest integer, halves away from zero. */
  predicate Nearest(n: int, exact: real) {
    && -0.5 <= n as real - exact <= 0.5
    && (n as real - exact == 0.5 ==> exact >= 0.0)
    && (n as real - exact == -0.5 ==> exact <= 0.0)
  }

  /** The same within a range, and its nearer end outside. */
  predicate NearestWithin(n: int, exact: real, low: int, high: int) {
    if exact < low as real then n == low
    else if exact > high as real then n == high
    else Nearest(n, exact)
  }

  lemma RoundedWithin(exact: real, low: int, high: int)
    requires low <= high
    ensures NearestWithin(if Round(exact) < low then low else if Round(exact) > high then high else Round(exact),
                          exact, low, high)
  {
    RoundIsNearest(exact);
    RoundInteger(low);
    RoundInteger(high);
    if exact <= low as real {
      RoundMonotone(exact, low as real);
    } else {
      RoundMonotone(low as real, exact);
    }
    if exact <= high as real {
      RoundMonotone(exact, high as real);
    } else {
      RoundMonotone(high as real, exact);
    }
  }

  lemma StoredNearest(pf: PartialFlag, value: U32)
    ensures NearestWithin(SaturateU32(Weighted(value, pf.weight)), value as real * pf.weight, 0, U32_MAX)
  {
    RoundedWithin(value as real * pf.weight, 0, U32_MAX);
  }

  /** What an accepted submission stores: nothing for a wrong flag, the value for the
      whole challenge, and for a partial flag value times weight. */
  lemma StoredIsNearest(w: World, c: Challenge, subs: seq<Submission>, r: SubmitRequest)
    requires FindChallenge(w.challenges, r.challengeId) == Some(c) && Assess(w, subs, r).Ok?
    ensures var s, value, pf :=
        Assess(w, subs, r).value, BasePoints(c, AtLeastOne(NextSolveCount(w, c, subs, r))), Matched(w, c, r);
      && (!s.isCorrect ==> s.points == 0)
      && (s.isCorrect && pf.None? ==> s.points == value)
      && (s.isCorrect && pf.Some? ==> NearestWithin(s.points, value as real * pf.value.weight, 0, U32_MAX))
  {
    var value, pf := BasePoints(c, AtLeastOne(NextSolveCount(w, c, subs, r))), Matched(w, c, r);
    PointsStored(w, c, subs, r);
    if pf.Some? {
      StoredNearest(pf.value, value);
    }
  }

  lemma PointsStored(w: World, c: Challenge, subs: seq<Submission>, r: SubmitRequest)
    requires FindChallenge(w.challenges, r.challengeId) == Some(c) && Assess(w, subs, r).Ok?
    ensures var s, value, pf :=
        Assess(w, subs, r).value, BasePoints(c, AtLeastOne(NextSolveCount(w, c, subs, r))), Matched(w, c, r);
      s.points == if !s.isCorrect then 0 else if pf.None? then value else SaturateU32(Weighted(value, pf.value.weight))
  {
  }

  lemma PartPointsNearest(pf: PartialFlag, value: U32)
    ensures NearestWithin(PartPoints(Piece(pf), value), value as real * pf.weight, -I64_MAX - 1, I64_MAX)
  {
    RoundedWithin(value as real * pf.weight, -I64_MAX - 1, I64_MAX);
  }

  /** What the scoreboard credits for a partial flag: value times weight if it is
      scored, and nothing if it is not. */
  lemma CreditIsNearest(o: Oracle, team: Team, c: Challenge, pf: PartialFlag, subs: seq<Submission>, value: U32)
    ensures var credit := PointsFromParts(o, team, c, [Piece(pf)], subs, value);
      if Scored(o, team, c, Piece(pf), subs)
      then NearestWithin(credit, value as real * pf.weight, -I64_MAX - 1, I64_MAX)
      else credit == 0
  {
    OnePart(o, team, c, Piece(pf), subs, value);
    PartPointsNearest(pf, value);
  }

  function WeightOf(part: Part): real {
    match part
    case Whole => 1.0
    case Piece(pf) => pf.weight
  }

  /** No weighted value leaves the range of a signed 64-bit integer. */
  ghost predicate InRange(parts: seq<Part>, value: U32) {
    forall i :: 0 <= i < |parts| ==>
      -I64_MAX as real <= value as real * WeightOf(parts[i]) <= I64_MAX as real
  }

  ghost predicate WithinHalves(credit: int, exact: real, parts: nat) {
    -0.5 * parts as real <= credit as real - exact <= 0.5 * parts as real
  }

  /** The product for one part that is scored, and nothing for one that is not. */
  function ExactPart(o: Oracle, team: Team, c: Challenge, part: Part, subs: seq<Submission>, value: real): real {
    if Scored(o, team, c, part, subs) then value * WeightOf(part) else 0.0
  }

  function ExactCredit(o: Oracle, team: Team, c: Challenge, parts: seq<Part>, subs: seq<Submission>, value: real)
    : real
  {
    if parts == [] then 0.0
    else
      var n := |parts| - 1;
      ExactCredit(o, team, c, parts[..n], subs, value) + ExactPart(o, team, c, parts[n], subs, value)
  }

  lemma PartWithinHalf(o: Oracle, team: Team, c: Challenge, part: Part, subs: seq<Submission>, value: U32)
    requires -I64_MAX as real <= value as real * WeightOf(part) <= I64_MAX as real
    ensures WithinHalves(Contribution(o, team, c, part, subs, value),
                         ExactPart(o, team, c, part, subs, value as real), 1)
  {
    RoundedWithin(value as real * WeightOf(part), -I64_MAX - 1, I64_MAX);
  }

  lemma OneMoreHalf(credit: int, exact: real, term: int, product: real, parts: nat)
    requires WithinHalves(credit, exact, parts) && WithinHalves(term, product, 1)
    ensures WithinHalves(credit + term, exact + product, parts + 1)
  {
  }

  /** A challenge is credited with its value times the weights scored, within half a
      point for each part. */
  lemma {:induction false} CreditFollowsWeights(
      o: Oracle, team: Team, c: Challenge, parts: seq<Part>, subs: seq<Submission>, value: U32)
    requires InRange(parts, value)
    ensures WithinHalves(PointsFromParts(o, team, c, parts, subs, value),
                         ExactCredit(o, team, c, parts, subs, value as real), |parts|)
  {
    if parts == [] {
    } else {
      var n := |parts| - 1;
      CreditFollowsWeights(o, team, c, parts[..n], subs, value);
      PartWithinHalf(o, team, c, parts[n], subs, value);
      OneMoreHalf(PointsFromParts(o, team, c, parts[..n], subs, value),
                  ExactCredit(o, team, c, parts[..n], subs, value as real),
                  Contribution(o, team, c, parts[n], subs, value),
                  ExactPart(o, team, c, parts[n], subs, value as real), n);
    }
  }

  function TotalWeight(parts: seq<Part>): real {
    if parts == [] then 0.0 else TotalWeight(parts[..|parts| - 1]) + WeightOf(parts[|parts| - 1])
  }

  function TotalCredit(parts: seq<Part>, value: real): real {
    if parts == [] then 0.0 else TotalCredit(parts[..|parts| - 1], value) + value * WeightOf(parts[|parts| - 1])
  }

  lemma {:induction false} AllScoredExactly(
      o: Oracle, team: Team, c: Challenge, parts: seq<Part>, subs: seq<Submission>, value: real)
    requires forall i :: 0 <= i < |parts| ==> Scored(o, team, c, parts[i], subs)
    ensures ExactCredit(o, team, c, parts, subs, value) == TotalCredit(parts, value)
  {
    if parts == [] {
    } else {
      AllScoredExactly(o, team, c, parts[..|parts| - 1], subs, value);
    }
  }

  lemma Distributes(value: real, a: real, b: real)
    ensures value * (a + b) == value * a + value * b
    ensures value * 0.0 == 0.0 && value * 1.0 == value
  {
  }

  lemma {:induction false} TotalIsProduct(parts: seq<Part>, value: real)
    ensures TotalCredit(parts, value) == value * TotalWeight(parts)
  {
    if parts == [] {
      Distributes(value, 0.0, 0.0);
    } else {
      var n := |parts| - 1;
      TotalIsProduct(parts[..n], value);
      Distributes(value, TotalWeight(parts[..n]), WeightOf(parts[n]));
    }
  }

  /** So all parts together, where the weights add up to one, are worth the whole,
      within half a point for each part. */
  lemma AllPartsAreTheWhole(o: Oracle, team: Team, c: Challenge, subs: seq<Submission>, value: U32)
    requires InRange(Parts(c), value) && TotalWeight(Parts(c)) == 1.0
    requires forall i :: 0 <= i < |Parts(c)| ==> Scored(o, team, c, Parts(c)[i], subs)
    ensures WithinHalves(PointsFromParts(o, team, c, Parts(c), subs, value), value as real, |Parts(c)|)
  {
    AllScoredExactly(o, team, c, Parts(c), subs, value as real);
    CreditFollowsWeights(o, team, c, Parts(c), subs, value);
    TotalIsProduct(Parts(c), value as real);
    Distributes(value as real, 0.0, 0.0);
  }
}
