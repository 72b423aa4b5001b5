/** Flag validators. Regular expressions and rhai scripts are arbitrary
    deterministic functions, held together in an `Oracle`. */
module Flags {
  import opened Prelude
  import opened Text

  datatype PartialFlag = PartialFlag(id: string, validator: FlagValidator, weight: real)

  datatype FlagValidator =
    | Static(flag: string)
    | Regex(pattern: string)
    | Script(source: string)
    | Instanced
    | Multi(partials: seq<PartialFlag>)

  /** `regex(p, f)`: `p` compiles and matches `f`. `script(s, f)`: `s` evaluates
      to true on `f`. `hintCost(s, solves, now)`: the value of a cost script, if
      it evaluates to one. */
  datatype Oracle = Oracle(
    regex: (string, string) -> bool,
    script: (string, string) -> bool,
    hintCost: (string, nat, int) -> Option<int>)

  predicate IsMatch(o: Oracle, v: FlagValidator, submitted: string, active: Option<string>)
    decreases v
  {
    match v
    case Static(flag) => Trim(flag) == Trim(submitted)
    case Regex(pattern) => o.regex(pattern, Trim(submitted))
    case Script(source) => o.script(source, Trim(submitted))
    case Instanced => active.Some? && Trim(active.value) == Trim(submitted)
    case Multi(partials) =>
      exists i :: 0 <= i < |partials| && IsMatch(o, partials[i].validator, submitted, active)
  }

  function FirstMatching(o: Oracle, partials: seq<PartialFlag>, submitted: string, active: Option<string>)
    : Option<PartialFlag>
  {
    if partials == [] then None
    else if IsMatch(o, partials[0].validator, submitted, active) then Some(partials[0])
    else FirstMatching(o, partials[1..], submitted, active)
  }

  function FindMatchingPartial(o: Oracle, v: FlagValidator, submitted: string, active: Option<string>)
    : Option<PartialFlag>
  {
    if v.Multi? then FirstMatching(o, v.partials, submitted, active) else None
  }

  ghost predicate IsFirstMatch(
      o: Oracle, partials: seq<PartialFlag>, i: int, submitted: string, active: Option<string>)
  {
    && 0 <= i < |partials|
    && IsMatch(o, partials[i].validator, submitted, active)
    && forall j :: 0 <= j < i ==> !IsMatch(o, partials[j].validator, submitted, active)
  }

  /** The partial found is the earliest one that matches, and one is found
      exactly when the validator as a whole matches. */
  lemma {:induction false} FirstMatchingIsFirst(
      o: Oracle, partials: seq<PartialFlag>, submitted: string, active: Option<string>)
    ensures FirstMatching(o, partials, submitted, active).Some? <==> IsMatch(o, Multi(partials), submitted, active)
    ensures forall i :: IsFirstMatch(o, partials, i, submitted, active) ==>
      FirstMatching(o, partials, submitted, active) == Some(partials[i])
    ensures FirstMatching(o, partials, submitted, active).Some? ==>
      exists i :: IsFirstMatch(o, partials, i, submitted, active)
  {
    if partials == [] {
    } else if IsMatch(o, partials[0].validator, submitted, active) {
      assert IsFirstMatch(o, partials, 0, submitted, active);
    } else {
      var rest := partials[1..];
      FirstMatchingIsFirst(o, rest, submitted, active);
      forall i | 1 <= i < |partials|
        ensures IsFirstMatch(o, rest, i - 1, submitted, active) <==> IsFirstMatch(o, partials, i, submitted, active)
      {
        assert forall j :: 1 <= j <= i ==> partials[j] == rest[j - 1];
        assert forall j :: 0 <= j < i ==> partials[j + 1] == rest[j];
      }
      if FirstMatching(o, rest, submitted, active).Some? {
        var i :| IsFirstMatch(o, rest, i, submitted, active);
        assert IsFirstMatch(o, partials, i + 1, submitted, active);
      }
      forall i | 0 <= i < |partials| && IsMatch(o, partials[i].validator, submitted, active)
        ensures IsMatch(o, Multi(rest), submitted, active)
      {
        assert rest[i - 1] == partials[i];
      }
    }
  }

  lemma FirstOfTwo(o: Oracle, a: PartialFlag, b: PartialFlag, flag: string, active: Option<string>)
    ensures FirstMatching(o, [a, b], flag, active)
         == if IsMatch(o, a.validator, flag, active) then Some(a)
            else if IsMatch(o, b.validator, flag, active) then Some(b) else None
  {
    assert [a, b][1..] == [b] && [b][1..] == [];
    assert FirstMatching(o, [b], flag, active) == if IsMatch(o, b.validator, flag, active) then Some(b) else None;
  }

  /** A flag that was accepted is accepted again with itself as the active flag, which
      is how the scoreboard looks at it: it can add matches but never lose one. */
  lemma {:induction false} MatchesItself(o: Oracle, v: FlagValidator, submitted: string, active: Option<string>)
    requires IsMatch(o, v, submitted, active)
    ensures IsMatch(o, v, submitted, Some(submitted))
    decreases v
  {
    if v.Multi? {
      var i :| 0 <= i < |v.partials| && IsMatch(o, v.partials[i].validator, submitted, active);
      MatchesItself(o, v.partials[i].validator, submitted, active);
    }
  }

  /** No `Instanced` validator anywhere inside. */
  predicate InstanceFree(v: FlagValidator)
    decreases v
  {
    match v
    case Instanced => false
    case Multi(partials) => forall i :: 0 <= i < |partials| ==> InstanceFree(partials[i].validator)
    case _ => true
  }

  /** Such a validator never looks at the active flag, so the scoreboard, which
      passes the provided flag in its place, sees the same verdict as submit. */
  lemma {:induction false} MatchIgnoresActiveFlag(
      o: Oracle, v: FlagValidator, submitted: string, a: Option<string>, b: Option<string>)
    requires InstanceFree(v)
    ensures IsMatch(o, v, submitted, a) == IsMatch(o, v, submitted, b)
    decreases v
  {
    if v.Multi? {
      forall i | 0 <= i < |v.partials|
        ensures IsMatch(o, v.partials[i].validator, submitted, a)
             == IsMatch(o, v.partials[i].validator, submitted, b)
      {
        MatchIgnoresActiveFlag(o, v.partials[i].validator, submitted, a, b);
      }
    }
  }

  /** No flag matches two of the partials, and none is compared with a live instance flag. */
  ghost predicate Separate(o: Oracle, partials: seq<PartialFlag>) {
    && (forall i :: 0 <= i < |partials| ==> InstanceFree(partials[i].validator))
    && (forall i, j, flag :: 0 <= i < j < |partials| ==>
          !(IsMatch(o, partials[i].validator, flag, None) && IsMatch(o, partials[j].validator, flag, None)))
  }
}
