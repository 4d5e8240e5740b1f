/** The order of names, and the stable sort the controllers call. */
module Ordering {

  /** Lexicographic order. */
  predicate Less(a: string, b: string) {
    |b| > 0 && (|a| == 0 || a[0] < b[0] || (a[0] == b[0] && Less(a[1..], b[1..])))
  }

  lemma {:induction false} LessIsTotal(a: string, b: string)
    ensures Less(a, b) || Less(b, a) || a == b
    ensures !(Less(a, b) && Less(b, a))
  {
    if |a| > 0 && |b| > 0 && a[0] == b[0] {
      LessIsTotal(a[1..], b[1..]);
      if a[1..] == b[1..] {
        assert a == [a[0]] + a[1..] && b == [b[0]] + b[1..];
      }
    }
  }

  /** The first place where the names differ decides; a name comes before its continuations. */
  lemma {:induction false} LessIsLexicographic(a: string, b: string)
    ensures Less(a, b) <==>
              exists k :: 0 <= k <= |a| && k < |b| && a[..k] == b[..k] && (k < |a| ==> a[k] < b[k])
  {
    if |a| > 0 && |b| > 0 && a[0] == b[0] {
      var s, t := a[1..], b[1..];
      LessIsLexicographic(s, t);
      if Less(a, b) {
        var k :| 0 <= k <= |s| && k < |t| && s[..k] == t[..k] && (k < |s| ==> s[k] < t[k]);
        assert a[..k + 1] == [a[0]] + s[..k] && b[..k + 1] == [b[0]] + t[..k];
      }
      if k :| 0 <= k <= |a| && k < |b| && a[..k] == b[..k] && (k < |a| ==> a[k] < b[k]) {
        assert s[..k - 1] == a[..k][1..] && t[..k - 1] == b[..k][1..];
      }
    } else if |b| > 0 {
      assert a[..0] == b[..0];
      assert |a| > 0 ==> forall k :: 0 < k <= |a| && k < |b| ==> a[..k][0] != b[..k][0];
    }
  }

  lemma {:induction false} LessIsTransitive(a: string, b: string, c: string)
    ensures Less(a, b) && Less(b, c) ==> Less(a, c)
  {
    if |a| > 0 && |b| > 0 && |c| > 0 {
      LessIsTransitive(a[1..], b[1..], c[1..]);
    }
  }

  /** A comparison whose incomparability is transitive: what sorting needs. */
  ghost predicate WeakOrder<T(!new)>(less: (T, T) -> bool) {
    && (forall a, b :: less(a, b) ==> !less(b, a))
    && (forall a, b, c :: !less(b, a) && !less(c, b) ==> !less(c, a))
  }

  lemma LessIsWeakOrder()
    ensures WeakOrder(Less)
  {
    forall a, b ensures Less(a, b) ==> !Less(b, a) {
      LessIsTotal(a, b);
    }
    forall a, b, c | !Less(b, a) && !Less(c, b) ensures !Less(c, a) {
      LessIsTotal(a, b);
      LessIsTotal(b, c);
      LessIsTotal(a, c);
      LessIsTransitive(a, b, c);
    }
  }

  /** After the elements it is not less than: equal elements keep their order. */
  function Insert<T>(xs: seq<T>, x: T, less: (T, T) -> bool): seq<T> {
    if |xs| > 0 && less(x, xs[|xs| - 1]) then Insert(xs[..|xs| - 1], x, less) + [xs[|xs| - 1]] else xs + [x]
  }

  function Sort<T>(xs: seq<T>, less: (T, T) -> bool): seq<T> {
    if |xs| == 0 then [] else Insert(Sort(xs[..|xs| - 1], less), xs[|xs| - 1], less)
  }

  ghost predicate IsSorted<T>(xs: seq<T>, less: (T, T) -> bool) {
    forall i, j :: 0 <= i < j < |xs| ==> !less(xs[j], xs[i])
  }

  lemma {:induction false} InsertKeepsElements<T>(xs: seq<T>, x: T, less: (T, T) -> bool)
    ensures multiset(Insert(xs, x, less)) == multiset(xs) + multiset{x}
    ensures |Insert(xs, x, less)| == |xs| + 1
  {
    if |xs| > 0 {
      InsertKeepsElements(xs[..|xs| - 1], x, less);
      assert xs == xs[..|xs| - 1] + [xs[|xs| - 1]];
    }
  }

  lemma LastApart<T>(xs: seq<T>)
    requires |xs| > 0
    ensures multiset(xs) == multiset(xs[..|xs| - 1]) + multiset{xs[|xs| - 1]}
  {
    assert xs == xs[..|xs| - 1] + [xs[|xs| - 1]];
  }

  lemma {:induction false} SortKeepsElements<T>(xs: seq<T>, less: (T, T) -> bool)
    ensures multiset(Sort(xs, less)) == multiset(xs)
    ensures |Sort(xs, less)| == |xs|
  {
    if |xs| > 0 {
      var front, last := xs[..|xs| - 1], xs[|xs| - 1];
      var sorted := Sort(front, less);
      SortKeepsElements(front, less);
      InsertKeepsElements(sorted, last, less);
      assert Sort(xs, less) == Insert(sorted, last, less);
      LastApart(xs);
    }
  }

  lemma SortHas<T>(xs: seq<T>, less: (T, T) -> bool)
    ensures forall x :: x in Sort(xs, less) <==> x in xs
  {
    SortKeepsElements(xs, less);
    forall x ensures x in Sort(xs, less) <==> x in xs {
      assert x in Sort(xs, less) <==> x in multiset(Sort(xs, less));
      assert x in xs <==> x in multiset(xs);
    }
  }

  lemma InsertHas<T>(xs: seq<T>, x: T, less: (T, T) -> bool)
    ensures forall y :: y in Insert(xs, x, less) <==> y in xs || y == x
  {
    InsertKeepsElements(xs, x, less);
    var r := Insert(xs, x, less);
    forall y ensures y in r <==> y in xs || y == x {
      assert y in r <==> y in multiset(r);
      assert y in xs <==> y in multiset(xs);
    }
  }

  lemma {:induction false} InsertSorts<T(!new)>(xs: seq<T>, x: T, less: (T, T) -> bool)
    requires WeakOrder(less) && IsSorted(xs, less)
    ensures IsSorted(Insert(xs, x, less), less)
  {
    if |xs| > 0 {
      var front, last := xs[..|xs| - 1], xs[|xs| - 1];
      if less(x, last) {
        InsertSorts(front, x, less);
        InsertHas(front, x, less);
        var r := Insert(front, x, less);
        forall i | 0 <= i < |r| ensures !less(last, r[i]) {
          assert r[i] in r;
          if r[i] != x {
            var k :| 0 <= k < |front| && front[k] == r[i];
            assert !less(xs[|xs| - 1], xs[k]);
          }
        }
      } else {
        forall i | 0 <= i < |xs| ensures !less(x, xs[i]) {
          assert i < |xs| - 1 ==> !less(last, xs[i]);
        }
      }
    }
  }

  lemma {:induction false} SortSorts<T(!new)>(xs: seq<T>, less: (T, T) -> bool)
    requires WeakOrder(less)
    ensures IsSorted(Sort(xs, less), less)
  {
    if |xs| > 0 {
      SortSorts(xs[..|xs| - 1], less);
      InsertSorts(Sort(xs[..|xs| - 1], less), xs[|xs| - 1], less);
    }
  }

  /** Sorting what is sorted changes nothing. */
  lemma {:induction false} SortOfSorted<T>(xs: seq<T>, less: (T, T) -> bool)
    requires IsSorted(xs, less)
    ensures Sort(xs, less) == xs
  {
    if |xs| > 0 {
      var front, last := xs[..|xs| - 1], xs[|xs| - 1];
      SortOfSorted(front, less);
      assert |front| > 0 ==> !less(last, front[|front| - 1]);
      assert xs == front + [last];
    }
  }

  /** Strictly increasing: the canonical listing of a set of names. */
  ghost predicate Increasing(names: seq<string>) {
    forall i, j :: 0 <= i < j < |names| ==> Less(names[i], names[j])
  }

  lemma HasItsFirst(xs: seq<string>)
    ensures |xs| > 0 ==> xs[0] in xs
  {}

  /** A set of names has one increasing listing. */
  lemma {:induction false} IncreasingIsCanonical(xs: seq<string>, ys: seq<string>)
    requires Increasing(xs) && Increasing(ys)
    requires forall n :: n in xs <==> n in ys
    ensures xs == ys
    decreases |xs|
  {
    HasItsFirst(xs);
    HasItsFirst(ys);
    if |xs| > 0 {
      SameFirst(xs, ys);
      forall n ensures n in xs[1..] <==> n in ys[1..] {
        RestHas(xs, n);
        RestHas(ys, n);
      }
      IncreasingIsCanonical(xs[1..], ys[1..]);
      assert xs == [xs[0]] + xs[1..] && ys == [ys[0]] + ys[1..];
    }
  }

  lemma RestHas(xs: seq<string>, n: string)
    requires Increasing(xs) && |xs| > 0
    ensures n in xs[1..] <==> n in xs && n != xs[0]
  {
    LessIsTotal(xs[0], xs[0]);
    forall i | 1 <= i < |xs| ensures xs[i] != xs[0] {
      assert Less(xs[0], xs[i]);
    }
    if n in xs && n != xs[0] {
      var i :| 0 <= i < |xs| && xs[i] == n;
      assert xs[1..][i - 1] == n;
    }
  }

  lemma SameFirst(xs: seq<string>, ys: seq<string>)
    requires Increasing(xs) && Increasing(ys) && |xs| > 0 && |ys| > 0
    requires forall n :: n in xs <==> n in ys
    ensures xs[0] == ys[0]
  {
    assert xs[0] in ys && ys[0] in xs;
    RestHas(xs, ys[0]);
    RestHas(ys, xs[0]);
    if xs[0] != ys[0] {
      var i :| 0 <= i < |xs| && xs[i] == ys[0];
      var j :| 0 <= j < |ys| && ys[j] == xs[0];
      assert Less(xs[0], xs[i]) && Less(ys[0], ys[j]);
      LessIsTotal(xs[0], ys[0]);
    }
  }
}
