/** Options, results, machine integers and the few sequence operations that the
    models of the services share. */
module Prelude {

  datatype Option<+T> = None | Some(value: T) {
    function GetOr(default: T): T {
      if Some? then value else default
    }
  }

  datatype Result<+T, +E> = Ok(value: T) | Err(error: E)

  const U32_MAX := 0xFFFF_FFFF
  const I64_MAX := 0x7FFF_FFFF_FFFF_FFFF

  type U32 = n: int | 0 <= n <= U32_MAX

  /** The elements that satisfy `keep`, in order. */
  function Filter<T>(xs: seq<T>, keep: T -> bool): seq<T> {
    if xs == [] then []
    else
      var n := |xs| - 1;
      if keep(xs[n]) then Filter(xs[..n], keep) + [xs[n]] else Filter(xs[..n], keep)
  }

  lemma {:induction false} FilterMember<T>(xs: seq<T>, keep: T -> bool, x: T)
    ensures x in Filter(xs, keep) <==> x in xs && keep(x)
  {
    if xs == [] {
    } else {
      FilterMember(xs[..|xs| - 1], keep, x);
    }
  }

  lemma FilterSnoc<T>(xs: seq<T>, x: T, keep: T -> bool)
    ensures Filter(xs + [x], keep) == if keep(x) then Filter(xs, keep) + [x] else Filter(xs, keep)
  {
    assert (xs + [x])[..|xs|] == xs;
  }

  lemma {:induction false} FilterAppend<T>(xs: seq<T>, ys: seq<T>, keep: T -> bool)
    ensures Filter(xs + ys, keep) == Filter(xs, keep) + Filter(ys, keep)
  {
    if ys == [] {
      assert xs + ys == xs;
    } else {
      var n := |ys| - 1;
      FilterAppend(xs, ys[..n], keep);
      assert (xs + ys)[..|xs + ys| - 1] == xs + ys[..n];
    }
  }

  lemma {:induction false} FilterNone<T>(xs: seq<T>, keep: T -> bool)
    requires forall i :: 0 <= i < |xs| ==> !keep(xs[i])
    ensures Filter(xs, keep) == []
  {
    if xs == [] {
    } else {
      FilterNone(xs[..|xs| - 1], keep);
    }
  }

  lemma {:induction false} FilterSame<T>(xs: seq<T>, p: T -> bool, q: T -> bool)
    requires forall i :: 0 <= i < |xs| ==> p(xs[i]) == q(xs[i])
    ensures Filter(xs, p) == Filter(xs, q)
  {
    if xs == [] {
    } else {
      FilterSame(xs[..|xs| - 1], p, q);
    }
  }

  lemma {:induction false} FilterTwice<T>(xs: seq<T>, p: T -> bool, q: T -> bool, both: T -> bool)
    requires forall i :: 0 <= i < |xs| ==> both(xs[i]) == (p(xs[i]) && q(xs[i]))
    ensures Filter(Filter(xs, p), q) == Filter(xs, both)
  {
    if xs == [] {
    } else {
      var n := |xs| - 1;
      FilterTwice(xs[..n], p, q, both);
      if p(xs[n]) {
        FilterSnoc(Filter(xs[..n], p), xs[n], q);
      }
    }
  }

  /** The places at which such elements stand. */
  function PlacesOf<T>(xs: seq<T>, keep: T -> bool): set<int> {
    set i | 0 <= i < |xs| && keep(xs[i])
  }

  lemma {:induction false} FilterCounts<T>(xs: seq<T>, keep: T -> bool)
    ensures |Filter(xs, keep)| == |PlacesOf(xs, keep)|
  {
    if xs == [] {
    } else {
      var n := |xs| - 1;
      FilterCounts(xs[..n], keep);
      assert PlacesOf(xs, keep) == PlacesOf(xs[..n], keep) + (if keep(xs[n]) then {n} else {});
    }
  }

  lemma SubsetCardinality<T>(a: set<T>, b: set<T>)
    requires a <= b
    ensures |a| <= |b|
  {
    assert b == a + (b - a);
  }
}
