/** Filtering, taking and summing over lists. */
module Sequences {
  import opened Ordering

  function Filter<T>(xs: seq<T>, p: T -> bool): seq<T> {
    if |xs| == 0 then []
    else
      var front, last := Filter(xs[..|xs| - 1], p), xs[|xs| - 1];
      if p(last) then front + [last] else front
  }

  function Take<T>(xs: seq<T>, limit: int): seq<T> {
    if limit <= 0 then [] else if limit < |xs| then xs[..limit] else xs
  }

  method SelectFirst<T>(nodes: seq<T>, wanted: T -> bool, limit: int) returns (selected: seq<T>)
    requires limit > 0
    ensures selected == Take(Filter(nodes, wanted), limit)
  {
    selected := [];
    for i := 0 to |nodes|
      invariant selected == Filter(nodes[..i], wanted) && |selected| < limit
    {
      assert nodes[..i + 1][..i] == nodes[..i];
      if !wanted(nodes[i]) { continue; }
      selected := selected + [nodes[i]];
      if |selected| == limit {
        FilterExtends(nodes, wanted, i + 1);
        return;
      }
    }
    assert nodes[..|nodes|] == nodes;
  }

  lemma {:induction false} FilterHas<T(!new)>(xs: seq<T>, p: T -> bool)
    ensures forall x :: x in Filter(xs, p) <==> x in xs && p(x)
  {
    if |xs| > 0 {
      FilterHas(xs[..|xs| - 1], p);
      assert xs == xs[..|xs| - 1] + [xs[|xs| - 1]];
    }
  }

  lemma {:induction false} FilterAll<T>(xs: seq<T>, p: T -> bool)
    requires forall x :: x in xs ==> p(x)
    ensures Filter(xs, p) == xs
  {
    if |xs| > 0 {
      FilterAll(xs[..|xs| - 1], p);
    }
  }

  lemma {:induction false} FilterNone<T>(xs: seq<T>, p: T -> bool)
    requires forall x :: x in xs ==> !p(x)
    ensures Filter(xs, p) == []
  {
    if |xs| > 0 {
      FilterNone(xs[..|xs| - 1], p);
    }
  }

  lemma {:induction false} FilterFront<T>(xs: seq<T>, p: T -> bool)
    requires |xs| > 0
    ensures Filter(xs, p) == (if p(xs[0]) then [xs[0]] else []) + Filter(xs[1..], p)
  {
    if |xs| > 1 {
      FilterFront(xs[..|xs| - 1], p);
      assert xs[..|xs| - 1][1..] == xs[1..][..|xs| - 2];
    }
  }

  lemma {:induction false} FilterExtends<T>(xs: seq<T>, p: T -> bool, i: nat)
    requires i <= |xs|
    ensures |Filter(xs[..i], p)| <= |Filter(xs, p)|
    ensures Filter(xs, p)[..|Filter(xs[..i], p)|] == Filter(xs[..i], p)
  {
    if i < |xs| {
      assert xs[..|xs| - 1][..i] == xs[..i];
      FilterExtends(xs[..|xs| - 1], p, i);
    } else {
      assert xs[..i] == xs;
    }
  }

  lemma {:induction false} FilterCounts<T(!new)>(xs: seq<T>, p: T -> bool)
    ensures forall x :: multiset(Filter(xs, p))[x] == if p(x) then multiset(xs)[x] else 0
  {
    if |xs| > 0 {
      FilterCounts(xs[..|xs| - 1], p);
      assert xs == xs[..|xs| - 1] + [xs[|xs| - 1]];
    }
  }

  /** How many elements pass does not depend on their order. */
  lemma FilterIgnoresOrder<T(!new)>(xs: seq<T>, ys: seq<T>, p: T -> bool)
    requires multiset(xs) == multiset(ys)
    ensures multiset(Filter(xs, p)) == multiset(Filter(ys, p))
    ensures |Filter(xs, p)| == |Filter(ys, p)|
  {
    FilterCounts(xs, p);
    FilterCounts(ys, p);
    assert forall x :: multiset(Filter(xs, p))[x] == multiset(Filter(ys, p))[x];
    assert |Filter(xs, p)| == |multiset(Filter(xs, p))|;
    assert |Filter(ys, p)| == |multiset(Filter(ys, p))|;
  }

  lemma {:induction false} FilterKeepsSorted<T(!new)>(xs: seq<T>, p: T -> bool, less: (T, T) -> bool)
    requires IsSorted(xs, less)
    ensures IsSorted(Filter(xs, p), less)
  {
    if |xs| > 0 {
      var front, last := xs[..|xs| - 1], xs[|xs| - 1];
      FilterKeepsSorted(front, p, less);
      FilterHas(front, p);
      var r := Filter(front, p);
      forall i | 0 <= i < |r| ensures !less(last, r[i]) {
        assert r[i] in r && r[i] in front;
        var k :| 0 <= k < |front| && front[k] == r[i];
        assert !less(xs[|xs| - 1], xs[k]);
      }
    }
  }

  lemma InTake<T>(xs: seq<T>, limit: nat, i: nat)
    requires i < |xs|
    ensures i < |Take(xs, limit)| ==> xs[i] in Take(xs, limit)
  {
    if i < |Take(xs, limit)| {
      assert Take(xs, limit)[i] == xs[i];
    }
  }

  lemma TakeIsLowest<T(!new)>(xs: seq<T>, limit: nat, less: (T, T) -> bool)
    requires IsSorted(xs, less)
    ensures forall x :: x in Take(xs, limit) ==> x in xs
    ensures forall x, y :: x in Take(xs, limit) && y in xs && y !in Take(xs, limit) ==> !less(y, x)
  {
    var chosen := Take(xs, limit);
    forall x, y | x in chosen && y in xs && y !in chosen ensures !less(y, x) {
      var i :| 0 <= i < |chosen| && chosen[i] == x;
      var j :| 0 <= j < |xs| && xs[j] == y;
      InTake(xs, limit, j);
      assert xs[i] == x;
    }
  }

  function Sum<T>(xs: seq<T>, f: T -> int): int {
    if |xs| == 0 then 0 else Sum(xs[..|xs| - 1], f) + f(xs[|xs| - 1])
  }

  lemma {:induction false} SumSplits<T>(xs: seq<T>, ys: seq<T>, f: T -> int)
    ensures Sum(xs + ys, f) == Sum(xs, f) + Sum(ys, f)
  {
    if |ys| == 0 {
      assert xs + ys == xs;
    } else {
      SumSplits(xs, ys[..|ys| - 1], f);
      assert (xs + ys)[..|xs + ys| - 1] == xs + ys[..|ys| - 1];
    }
  }

  lemma SumWithout<T>(xs: seq<T>, i: nat, f: T -> int)
    requires i < |xs|
    ensures Sum(xs, f) == Sum(xs[..i] + xs[i + 1..], f) + f(xs[i])
  {
    assert xs == xs[..i + 1] + xs[i + 1..];
    assert xs[..i + 1][..i] == xs[..i];
    SumSplits(xs[..i + 1], xs[i + 1..], f);
    SumSplits(xs[..i], xs[i + 1..], f);
  }

  lemma WithoutOne<T>(xs: seq<T>, i: nat)
    requires i < |xs|
    ensures multiset(xs[..i] + xs[i + 1..]) == multiset(xs) - multiset{xs[i]}
  {
    assert xs == xs[..i] + [xs[i]] + xs[i + 1..];
  }

  /** A sum does not depend on the order of the list. */
  lemma {:induction false} SumIgnoresOrder<T(!new)>(xs: seq<T>, ys: seq<T>, f: T -> int)
    requires multiset(xs) == multiset(ys)
    ensures Sum(xs, f) == Sum(ys, f)
  {
    assert |xs| == |multiset(xs)| == |multiset(ys)| == |ys|;
    if |xs| > 0 {
      var last := xs[|xs| - 1];
      assert xs == xs[..|xs| - 1] + [last];
      assert last in multiset(ys);
      var i :| 0 <= i < |ys| && ys[i] == last;
      SumWithout(ys, i, f);
      WithoutOne(ys, i);
      assert multiset(xs[..|xs| - 1]) == multiset(xs) - multiset{last};
      SumIgnoresOrder(xs[..|xs| - 1], ys[..i] + ys[i + 1..], f);
    }
  }

  lemma {:induction false} SumUpdated<T>(xs: seq<T>, i: nat, x: T, f: T -> int)
    requires i < |xs|
    ensures Sum(xs[i := x], f) == Sum(xs, f) - f(xs[i]) + f(x)
  {
    var ys := xs[i := x];
    if i == |xs| - 1 {
      assert ys[..|ys| - 1] == xs[..|xs| - 1];
    } else {
      assert ys[..|ys| - 1] == xs[..|xs| - 1][i := x];
      SumUpdated(xs[..|xs| - 1], i, x, f);
    }
  }

  lemma {:induction false} SumBounds<T>(xs: seq<T>, f: T -> int, g: T -> int)
    requires forall x :: x in xs ==> f(x) <= g(x)
    ensures Sum(xs, f) <= Sum(xs, g)
  {
    if |xs| > 0 {
      SumBounds(xs[..|xs| - 1], f, g);
    }
  }

  lemma {:induction false} SumOfSums<T>(xs: seq<T>, f: T -> int, g: T -> int, h: T -> int)
    requires forall x :: x in xs ==> h(x) == f(x) + g(x)
    ensures Sum(xs, h) == Sum(xs, f) + Sum(xs, g)
  {
    if |xs| > 0 {
      SumOfSums(xs[..|xs| - 1], f, g, h);
    }
  }
}
