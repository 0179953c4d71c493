/**
 * What the database does with a `findMany({ where, orderBy: { createdAt: "desc" } })`
 * query: keep the rows the `where` object accepts, then order them newest first.
 * Rows with equal timestamps keep their physical order (the sort is stable);
 * the database itself leaves that order open.
 */
module Query {

  /** `where`: the rows that satisfy `keep`, in their original order. */
  function Filter<T(!new)>(xs: seq<T>, keep: T -> bool): (r: seq<T>)
    ensures |r| <= |xs|
    ensures forall y :: y in r <==> y in xs && keep(y)
    ensures multiset(r) <= multiset(xs)
  {
    if xs == [] then []
    else
      var rest := Filter(xs[1..], keep);
      assert xs == [xs[0]] + xs[1..];
      if keep(xs[0]) then [xs[0]] + rest else rest
  }

  /** No value occurs twice. */
  ghost predicate Distinct<T(!new)>(xs: seq<T>) {
    forall y :: multiset(xs)[y] <= 1
  }

  lemma FilterKeepsDistinct<T(!new)>(xs: seq<T>, keep: T -> bool)
    requires Distinct(xs)
    ensures Distinct(Filter(xs, keep))
  {
    var r := Filter(xs, keep);
    forall y ensures multiset(r)[y] <= 1 {
      assert multiset(r)[y] <= multiset(xs)[y];
    }
  }

  /** `Distinct` in terms of positions: no two positions hold the same value. */
  lemma {:induction false} DistinctIffPairwise<T(!new)>(xs: seq<T>)
    ensures Distinct(xs) <==> forall i, j :: 0 <= i < j < |xs| ==> xs[i] != xs[j]
  {
    if xs != [] {
      var tail := xs[1..];
      assert xs == [xs[0]] + tail;
      DistinctIffPairwise(tail);
      assert forall y :: multiset(xs)[y] == multiset([xs[0]])[y] + multiset(tail)[y];
      assert forall i :: 1 <= i < |xs| ==> xs[i] == tail[i - 1];
      assert xs[0] in tail <==> multiset(tail)[xs[0]] > 0;
    }
  }

  /** `orderBy: { createdAt: "desc" }` holds of a list. */
  ghost predicate NewestFirst<T(!new)>(xs: seq<T>, created: T -> int) {
    forall i, j :: 0 <= i < j < |xs| ==> created(xs[i]) >= created(xs[j])
  }

  lemma ConsNewest<T(!new)>(a: T, rest: seq<T>, created: T -> int)
    requires NewestFirst(rest, created)
    requires rest == [] || created(a) >= created(rest[0])
    ensures NewestFirst([a] + rest, created)
  {
    var r := [a] + rest;
    forall i, j | 0 <= i < j < |r| ensures created(r[i]) >= created(r[j]) {
      if i == 0 && j > 1 {
        assert created(rest[0]) >= created(rest[j - 1]);
      }
    }
  }

  /** Insert `x` into a newest-first list, before every row that is not newer than it. */
  function InsertNewest<T(!new)>(x: T, xs: seq<T>, created: T -> int): (r: seq<T>)
    requires NewestFirst(xs, created)
    ensures NewestFirst(r, created)
    ensures multiset(r) == multiset(xs) + multiset{x}
    ensures r[0] == x || (xs != [] && r[0] == xs[0])
  {
    if xs == [] || created(x) >= created(xs[0]) then
      ConsNewest(x, xs, created);
      [x] + xs
    else
      var rest := InsertNewest(x, xs[1..], created);
      assert xs == [xs[0]] + xs[1..];
      ConsNewest(xs[0], rest, created);
      [xs[0]] + rest
  }

  /** A stable sort of `xs`, newest first. */
  function SortNewest<T(!new)>(xs: seq<T>, created: T -> int): (r: seq<T>)
    ensures NewestFirst(r, created)
    ensures multiset(r) == multiset(xs)
    ensures |r| == |xs|
  {
    if xs == [] then []
    else
      assert xs == [xs[0]] + xs[1..];
      InsertNewest(xs[0], SortNewest(xs[1..], created), created)
  }

  lemma SortedMembers<T(!new)>(xs: seq<T>, created: T -> int)
    ensures forall y :: y in SortNewest(xs, created) <==> y in xs
    ensures Distinct(xs) ==> Distinct(SortNewest(xs, created))
  {
    var r := SortNewest(xs, created);
    forall y ensures y in r <==> y in xs {
      assert y in r <==> y in multiset(r);
    }
  }
}
