/** What is left of a list when some of it goes: the rest of it, in its order. */
module Sequences {

  /** The elements that `keeps` says stay. */
  function Filter<T>(xs: seq<T>, keeps: T -> bool): seq<T> {
    if |xs| == 0 then []
    else (if keeps(xs[0]) then [xs[0]] else []) + Filter(xs[1..], keeps)
  }

  /** part is whole with some of its places left out: each element stands at its own place, and the places ascend. */
  ghost predicate Subsequence<T(!new)>(part: seq<T>, whole: seq<T>) {
    exists at: seq<nat> :: PlacedAt(part, whole, at)
  }

  ghost predicate PlacedAt<T>(part: seq<T>, whole: seq<T>, at: seq<nat>) {
    && |at| == |part|
    && (forall k :: 0 <= k < |at| ==> at[k] < |whole| && whole[at[k]] == part[k])
    && forall j, k :: 0 <= j < k < |at| ==> at[j] < at[k]
  }

  /** One more in front of the whole, taken or not. */
  lemma PartOfCons<T(!new)>(part: seq<T>, x: T, rest: seq<T>)
    requires Subsequence(part, rest)
    ensures Subsequence(part, [x] + rest) && Subsequence([x] + part, [x] + rest)
  {
    var at: seq<nat> :| PlacedAt(part, rest, at);
    var on: seq<nat> := seq(|at|, k requires 0 <= k < |at| => at[k] + 1);
    assert PlacedAt(part, [x] + rest, on);
    assert PlacedAt([x] + part, [x] + rest, [0] + on);
  }

  /** A filter keeps the order, keeps each element as often as it was there, and keeps no other. */
  lemma {:induction false} FilterKeeps<T(!new)>(xs: seq<T>, keeps: T -> bool)
    ensures Subsequence(Filter(xs, keeps), xs)
    ensures forall x :: multiset(Filter(xs, keeps))[x] == if keeps(x) then multiset(xs)[x] else 0
  {
    hide Filter, Subsequence;
    FilterEmpty(keeps);
    if |xs| == 0 {
      NothingIsPart(xs);
    } else {
      var first, rest := xs[0], xs[1..];
      FilterKeeps(rest, keeps);
      PartOfCons(Filter(rest, keeps), first, rest);
      FilterCons(first, rest, keeps);
      assert xs == [first] + rest;
    }
  }

  lemma NothingIsPart<T(!new)>(whole: seq<T>)
    ensures Subsequence([], whole)
  {
    assert PlacedAt([], whole, []);
  }

  lemma FilterEmpty<T>(keeps: T -> bool)
    ensures Filter([], keeps) == []
  {
  }

  lemma {:induction false} FilterSnoc<T>(xs: seq<T>, x: T, keeps: T -> bool)
    ensures Filter(xs + [x], keeps) == if keeps(x) then Filter(xs, keeps) + [x] else Filter(xs, keeps)
  {
    hide Filter;
    FilterEmpty(keeps);
    if |xs| == 0 {
      assert xs + [x] == [x] + [];
      FilterCons(x, [], keeps);
    } else {
      var first, rest := xs[0], xs[1..];
      FilterSnoc(rest, x, keeps);
      assert xs == [first] + rest && xs + [x] == [first] + (rest + [x]);
      FilterCons(first, rest + [x], keeps);
      FilterCons(first, rest, keeps);
      var left := Filter(rest, keeps);
      assert [first] + (left + [x]) == ([first] + left) + [x];
    }
  }

  lemma {:induction false} SameFilter<T>(xs: seq<T>, p: T -> bool, q: T -> bool)
    requires forall x :: x in xs ==> p(x) == q(x)
    ensures Filter(xs, p) == Filter(xs, q)
  {
    if |xs| > 0 {
      assert xs == [xs[0]] + xs[1..];
      SameFilter(xs[1..], p, q);
    }
  }

  lemma {:induction false} FilterAll<T>(xs: seq<T>, keeps: T -> bool)
    requires forall x :: x in xs ==> keeps(x)
    ensures Filter(xs, keeps) == xs
  {
    if |xs| > 0 {
      assert xs == [xs[0]] + xs[1..];
      FilterAll(xs[1..], keeps);
    }
  }

  lemma {:induction false} FilterNone<T>(xs: seq<T>, keeps: T -> bool)
    requires forall x :: x in xs ==> !keeps(x)
    ensures Filter(xs, keeps) == []
  {
    if |xs| > 0 {
      assert xs == [xs[0]] + xs[1..];
      FilterNone(xs[1..], keeps);
    }
  }

  lemma FilterCons<T>(x: T, xs: seq<T>, keeps: T -> bool)
    ensures Filter([x] + xs, keeps) == if keeps(x) then [x] + Filter(xs, keeps) else Filter(xs, keeps)
  {
    assert ([x] + xs)[1..] == xs;
    assert [] + Filter(xs, keeps) == Filter(xs, keeps);
  }

  lemma {:induction false} FilterTwice<T>(xs: seq<T>, p: T -> bool, q: T -> bool, both: T -> bool)
    requires forall x :: x in xs ==> (both(x) <==> p(x) && q(x))
    ensures Filter(Filter(xs, p), q) == Filter(xs, both)
  {
    if |xs| > 0 {
      var x, rest := xs[0], xs[1..];
      assert xs == [x] + rest;
      FilterTwice(rest, p, q, both);
      FilterCons(x, rest, p);
      FilterCons(x, rest, both);
      FilterCons(x, Filter(rest, p), q);
    }
  }
}
