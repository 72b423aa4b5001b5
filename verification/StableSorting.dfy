/** What `slice::sort_by` promises: a stable sort. `StableSort` is shown to be the
    only function with that promise, and to commute with filtering. */
module StableSorting {
  import opened Prelude

  type Order<!T> = (T, T) -> bool

  ghost predicate TotalPreorder<T(!new)>(le: Order<T>) {
    && (forall a, b :: le(a, b) || le(b, a))
    && (forall a, b, c :: le(a, b) && le(b, c) ==> le(a, c))
  }

  function Insert<T>(x: T, ys: seq<T>, le: Order<T>): seq<T> {
    if ys == [] then [x]
    else if le(x, ys[0]) then [x] + ys
    else [ys[0]] + Insert(x, ys[1..], le)
  }

  function StableSort<T>(xs: seq<T>, le: Order<T>): seq<T> {
    if xs == [] then [] else Insert(xs[0], StableSort(xs[1..], le), le)
  }

  ghost predicate Sorted<T>(xs: seq<T>, le: Order<T>) {
    forall i, j :: 0 <= i < j < |xs| ==> le(xs[i], xs[j])
  }

  /** The elements that the order does not tell apart from `pivot`. */
  function Ties<T>(pivot: T, le: Order<T>): T -> bool {
    (x: T) => le(pivot, x) && le(x, pivot)
  }

  /** `ys` lists every class of ties in the order in which `xs` does. */
  ghost predicate SameTies<T(!new)>(xs: seq<T>, ys: seq<T>, le: Order<T>) {
    forall pivot :: Filter(xs, Ties(pivot, le)) == Filter(ys, Ties(pivot, le))
  }

  lemma FilterCons<T>(x: T, ys: seq<T>, keep: T -> bool)
    ensures Filter([x] + ys, keep) == (if keep(x) then [x] else []) + Filter(ys, keep)
  {
    FilterAppend([x], ys, keep);
    assert [x][..0] == [];
  }

  lemma {:induction false} InsertSorted<T(!new)>(x: T, ys: seq<T>, le: Order<T>)
    requires TotalPreorder(le) && Sorted(ys, le)
    ensures Sorted(Insert(x, ys, le), le)
    ensures forall y :: y in Insert(x, ys, le) ==> y == x || y in ys
  {
    if ys != [] && !le(x, ys[0]) {
      InsertSorted(x, ys[1..], le);
      var rest := Insert(x, ys[1..], le);
      forall j | 0 <= j < |rest|
        ensures le(ys[0], rest[j])
      {
        assert rest[j] in rest;
      }
    }
  }

  lemma {:induction false} SortSorted<T(!new)>(xs: seq<T>, le: Order<T>)
    requires TotalPreorder(le)
    ensures Sorted(StableSort(xs, le), le)
  {
    if xs == [] {
    } else {
      SortSorted(xs[1..], le);
      InsertSorted(xs[0], StableSort(xs[1..], le), le);
    }
  }

  lemma {:induction false} InsertTies<T(!new)>(x: T, ys: seq<T>, le: Order<T>, pivot: T)
    requires TotalPreorder(le)
    ensures Filter(Insert(x, ys, le), Ties(pivot, le))
         == (if Ties(pivot, le)(x) then [x] else []) + Filter(ys, Ties(pivot, le))
  {
    var keep := Ties(pivot, le);
    if ys == [] || le(x, ys[0]) {
      FilterCons(x, ys, keep);
      assert ys == [] ==> [x] + ys == [x];
    } else {
      InsertTies(x, ys[1..], le, pivot);
      FilterCons(ys[0], Insert(x, ys[1..], le), keep);
      FilterCons(ys[0], ys[1..], keep);
      assert ys == [ys[0]] + ys[1..];
    }
  }

  lemma {:induction false} SortTies<T(!new)>(xs: seq<T>, le: Order<T>, pivot: T)
    requires TotalPreorder(le)
    ensures Filter(StableSort(xs, le), Ties(pivot, le)) == Filter(xs, Ties(pivot, le))
  {
    if xs == [] {
    } else {
      SortTies(xs[1..], le, pivot);
      InsertTies(xs[0], StableSort(xs[1..], le), le, pivot);
      FilterCons(xs[0], xs[1..], Ties(pivot, le));
      assert xs == [xs[0]] + xs[1..];
    }
  }

  /** The first element of a class of ties opens the class wherever it is listed. */
  lemma HeadOfClass<T(!new)>(xs: seq<T>, le: Order<T>)
    requires TotalPreorder(le) && xs != []
    ensures Filter(xs, Ties(xs[0], le)) == [xs[0]] + Filter(xs[1..], Ties(xs[0], le))
  {
    FilterCons(xs[0], xs[1..], Ties(xs[0], le));
    assert xs == [xs[0]] + xs[1..];
  }

  lemma SortedHeadsAgree<T(!new)>(xs: seq<T>, ys: seq<T>, le: Order<T>)
    requires TotalPreorder(le) && Sorted(xs, le) && Sorted(ys, le) && SameTies(xs, ys, le)
    requires xs != []
    ensures ys != [] && xs[0] == ys[0]
  {
    HeadOfClass(xs, le);
    FilterMember(ys, Ties(xs[0], le), xs[0]);
    assert xs[0] in ys;
    HeadOfClass(ys, le);
    FilterMember(xs, Ties(ys[0], le), ys[0]);
    assert ys[0] in xs;
    assert le(xs[0], ys[0]) && le(ys[0], xs[0]);
    FilterSame(ys, Ties(xs[0], le), Ties(ys[0], le));
    assert ([xs[0]] + Filter(xs[1..], Ties(xs[0], le)))[0] == xs[0];
  }

  /** Sortedness and stability leave one result. */
  lemma {:induction false} StableSortIsUnique<T(!new)>(xs: seq<T>, ys: seq<T>, le: Order<T>)
    requires TotalPreorder(le) && Sorted(xs, le) && Sorted(ys, le) && SameTies(xs, ys, le)
    ensures xs == ys
  {
    if xs == [] {
      if ys != [] {
        SortedHeadsAgree(ys, xs, le);
      }
    } else {
      SortedHeadsAgree(xs, ys, le);
      forall pivot
        ensures Filter(xs[1..], Ties(pivot, le)) == Filter(ys[1..], Ties(pivot, le))
      {
        FilterCons(xs[0], xs[1..], Ties(pivot, le));
        FilterCons(ys[0], ys[1..], Ties(pivot, le));
        assert xs == [xs[0]] + xs[1..] && ys == [ys[0]] + ys[1..];
        assert Filter(xs, Ties(pivot, le)) == Filter(ys, Ties(pivot, le));
        var head := if Ties(pivot, le)(xs[0]) then [xs[0]] else [];
        assert (head + Filter(xs[1..], Ties(pivot, le)))[|head|..] == Filter(xs[1..], Ties(pivot, le));
      }
      StableSortIsUnique(xs[1..], ys[1..], le);
    }
  }

  lemma {:induction false} FilterSorted<T(!new)>(xs: seq<T>, keep: T -> bool, le: Order<T>)
    requires Sorted(xs, le)
    ensures Sorted(Filter(xs, keep), le)
  {
    if xs == [] {
    } else {
      var n := |xs| - 1;
      FilterSorted(xs[..n], keep, le);
      forall x | x in Filter(xs[..n], keep)
        ensures le(x, xs[n])
      {
        FilterMember(xs[..n], keep, x);
      }
    }
  }

  lemma FiltersCommute<T>(xs: seq<T>, p: T -> bool, q: T -> bool)
    ensures Filter(Filter(xs, p), q) == Filter(Filter(xs, q), p)
  {
    var both := (x: T) => p(x) && q(x);
    FilterTwice(xs, p, q, both);
    FilterTwice(xs, q, p, both);
  }

  lemma SortCommutesWithFilter<T(!new)>(xs: seq<T>, keep: T -> bool, le: Order<T>)
    requires TotalPreorder(le)
    ensures Filter(StableSort(xs, le), keep) == StableSort(Filter(xs, keep), le)
  {
    var a := Filter(StableSort(xs, le), keep);
    var b := StableSort(Filter(xs, keep), le);
    SortSorted(xs, le);
    FilterSorted(StableSort(xs, le), keep, le);
    SortSorted(Filter(xs, keep), le);
    forall pivot
      ensures Filter(a, Ties(pivot, le)) == Filter(b, Ties(pivot, le))
    {
      FiltersCommute(StableSort(xs, le), keep, Ties(pivot, le));
      SortTies(xs, le, pivot);
      FiltersCommute(xs, keep, Ties(pivot, le));
      SortTies(Filter(xs, keep), le, pivot);
    }
    StableSortIsUnique(a, b, le);
  }
}
