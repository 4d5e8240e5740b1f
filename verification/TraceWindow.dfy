/** Choosing the busiest stretch of a request trace. */
module TraceWindow {
  import opened Common

  /** Requests per recorded second. */
  type Counts = map<int, int>

  function CountAt(counts: Counts, second: int): int { if second in counts then counts[second] else 0 }

  /** The number of requests in `width` consecutive seconds from `start`. */
  function Requests(counts: Counts, start: int, width: nat): int {
    if width == 0 then 0 else Requests(counts, start, width - 1) + CountAt(counts, start + width - 1)
  }

  ghost predicate Sorted(ts: seq<int>) {
    forall i, j :: 0 <= i < j < |ts| ==> ts[i] < ts[j]
  }

  ghost predicate Timestamps(ts: seq<int>, counts: Counts) {
    Sorted(ts) && forall t :: t in ts <==> t in counts
  }

  /** The recorded seconds in increasing order. */
  method SortedKeys(counts: Counts) returns (ts: seq<int>)
    ensures Timestamps(ts, counts)
  {
    ts := SortSet(counts.Keys);
  }

  method AnyOf<T>(keys: set<T>) returns (key: T)
    requires keys != {}
    ensures key in keys
  {
    key :| key in keys;
  }

  method SortSet(keys: set<int>) returns (ts: seq<int>)
    ensures Sorted(ts) && forall t :: t in ts <==> t in keys
  {
    ts := [];
    var rest := keys;
    while rest != {}
      invariant rest <= keys
      invariant Sorted(ts) && forall t :: t in ts <==> t in keys - rest
      decreases |rest|
    {
      var key := AnyOf(rest);
      ts := InsertSorted(ts, key);
      rest := rest - {key};
    }
  }

  method InsertSorted(ts: seq<int>, key: int) returns (more: seq<int>)
    requires Sorted(ts) && key !in ts
    ensures Sorted(more)
    ensures forall t :: t in more <==> t in ts || t == key
  {
    var i := 0;
    while i < |ts| && ts[i] < key
      invariant 0 <= i <= |ts|
      invariant forall j :: 0 <= j < i ==> ts[j] < key
    {
      i := i + 1;
    }
    more := ts[..i] + [key] + ts[i..];
    KeyFits(ts, key, i);
  }

  lemma KeyFits(ts: seq<int>, key: int, i: nat)
    requires Sorted(ts) && key !in ts && i <= |ts|
    requires (forall j :: 0 <= j < i ==> ts[j] < key) && (i < |ts| ==> ts[i] >= key)
    ensures var more := ts[..i] + [key] + ts[i..];
            Sorted(more) && forall t :: t in more <==> t in ts || t == key
  {
    var low, high := ts[..i], ts[i..];
    assert ts == low + high;
    forall j | 0 <= j < |high| ensures high[j] > key {
      assert high[j] == ts[i + j] && ts[i + j] in ts;
    }
  }

  /** The recorded requests before index `k`. */
  ghost function Prefix(ts: seq<int>, counts: Counts, k: nat): int
    requires k <= |ts|
  {
    if k == 0 then 0 else Prefix(ts, counts, k - 1) + CountAt(counts, ts[k - 1])
  }

  /** The recorded requests from index `i` up to, not including, index `j`. */
  ghost function Span(ts: seq<int>, counts: Counts, i: nat, j: nat): int
    requires i <= |ts| && j <= |ts|
  {
    Prefix(ts, counts, j) - Prefix(ts, counts, i)
  }

  ghost predicate NonNegative(counts: Counts) {
    forall t :: t in counts ==> counts[t] >= 0
  }

  lemma {:induction false} PrefixGrows(ts: seq<int>, counts: Counts, i: nat, j: nat)
    requires i <= j <= |ts| && NonNegative(counts)
    ensures Prefix(ts, counts, i) <= Prefix(ts, counts, j)
  {
    if i < j {
      PrefixGrows(ts, counts, i, j - 1);
    }
  }

  /** An interval that contains exactly the timestamps of indices `i` to `j` holds their requests. */
  lemma {:induction false} RequestsAreSpan(ts: seq<int>, counts: Counts, start: int, width: nat, i: nat, j: nat)
    requires Timestamps(ts, counts) && i <= j <= |ts|
    requires forall k :: 0 <= k < |ts| ==> (start <= ts[k] <==> i <= k)
    requires forall k :: 0 <= k < |ts| ==> (ts[k] < start + width <==> k < j)
    ensures Requests(counts, start, width) == Span(ts, counts, i, j)
  {
    if width > 0 {
      var last := start + width - 1;
      if last in counts {
        var k :| 0 <= k < |ts| && ts[k] == last;
        assert i <= k < j;
        assert ts[j - 1] <= last;
        assert k == j - 1;
        RequestsAreSpan(ts, counts, start, width - 1, i, j - 1);
      } else {
        forall k | 0 <= k < |ts| ensures ts[k] < start + (width - 1) <==> k < j {
          assert ts[k] in ts && ts[k] != last;
        }
        RequestsAreSpan(ts, counts, start, width - 1, i, j);
      }
    } else {
      assert i < |ts| ==> start <= ts[i];
    }
  }

  /** The first index whose timestamp is at least `bound`. */
  lemma FirstAtLeast(ts: seq<int>, bound: int) returns (i: nat)
    requires Sorted(ts)
    ensures i <= |ts|
    ensures forall k :: 0 <= k < |ts| ==> (ts[k] >= bound <==> i <= k)
  {
    i := 0;
    while i < |ts| && ts[i] < bound
      invariant i <= |ts|
      invariant forall k :: 0 <= k < i ==> ts[k] < bound
    {
      i := i + 1;
    }
  }

  lemma StretchesEndingHere(ts: seq<int>, counts: Counts, left: nat, end: nat)
    requires left <= end <= |ts| && NonNegative(counts)
    ensures forall i: nat {:trigger Span(ts, counts, i, end)} :: left <= i <= end ==>
              Span(ts, counts, i, end) <= Span(ts, counts, left, end)
  {
    forall i: nat {:trigger Span(ts, counts, i, end)} | left <= i <= end
      ensures Span(ts, counts, i, end) <= Span(ts, counts, left, end)
    {
      PrefixGrows(ts, counts, left, i);
    }
  }

  /** What the search knows once the timestamps before index `n` are passed: the best stretch so far. */
  ghost predicate Best(ts: seq<int>, counts: Counts, width: int, n: nat, bestSum: int, bestLeft: nat, bestRight: nat)
    requires n <= |ts|
  {
    && bestLeft < bestRight <= n
    && bestSum == Span(ts, counts, bestLeft, bestRight)
    && ts[bestRight - 1] - ts[bestLeft] < width
    && (forall i, j :: 0 <= i < j <= n && ts[j - 1] - ts[i] < width ==> Span(ts, counts, i, j) <= bestSum)
    && (forall i, j :: 0 <= i < j <= n && ts[j - 1] - ts[i] < width && Span(ts, counts, i, j) == bestSum ==>
          bestLeft <= i)
  }

  /** The chosen window: no stretch of the same length holds more requests, and no recorded second before its
      start begins a stretch that holds as many. */
  ghost predicate Busiest(counts: Counts, width: nat, start: int, end: int) {
    && start in counts && end == start + width - 1
    && (forall s: int :: Requests(counts, s, width) <= Requests(counts, start, width))
    && (forall s :: s in counts && Requests(counts, s, width) == Requests(counts, start, width) ==> start <= s)
  }

  /** Any interval holds at most the best sum; one that starts at a recorded second is that second's stretch. */
  lemma IntervalAtMostBest(ts: seq<int>, counts: Counts, width: nat, bestSum: int, bestLeft: nat, bestRight: nat,
                           s: int)
    returns (i: nat, j: nat)
    requires Timestamps(ts, counts) && NonNegative(counts)
    requires Best(ts, counts, width, |ts|, bestSum, bestLeft, bestRight)
    ensures i <= j <= |ts|
    ensures forall k :: 0 <= k < |ts| ==> (s <= ts[k] <==> i <= k)
    ensures forall k :: 0 <= k < |ts| ==> (ts[k] < s + width <==> k < j)
    ensures Requests(counts, s, width) == Span(ts, counts, i, j) <= bestSum
  {
    i := FirstAtLeast(ts, s);
    j := FirstAtLeast(ts, s + width);
    assert j < |ts| ==> ts[j] >= s;
    RequestsAreSpan(ts, counts, s, width, i, j);
    if i < j {
      assert ts[j - 1] - ts[i] < width;
    } else {
      PrefixGrows(ts, counts, bestLeft, bestRight);
    }
  }

  lemma SortedAt(ts: seq<int>, i: nat, j: nat)
    requires Sorted(ts) && i < |ts| && j < |ts|
    ensures i < j ==> ts[i] < ts[j]
  {}

  lemma BestIsBusiest(ts: seq<int>, counts: Counts, width: nat, bestSum: int, bestLeft: nat, bestRight: nat)
    requires Timestamps(ts, counts) && NonNegative(counts)
    requires Best(ts, counts, width, |ts|, bestSum, bestLeft, bestRight)
    ensures Busiest(counts, width, ts[bestLeft], ts[bestLeft] + width - 1)
    ensures Requests(counts, ts[bestLeft], width) == bestSum
  {
    var start := ts[bestLeft];
    assert start in ts;
    var i, j := IntervalAtMostBest(ts, counts, width, bestSum, bestLeft, bestRight, start);
    assert i <= bestLeft && ts[i] >= start;
    assert ts[bestRight - 1] < start + width;
    PrefixGrows(ts, counts, bestRight, j);
    forall s: int ensures Requests(counts, s, width) <= bestSum {
      var _, _ := IntervalAtMostBest(ts, counts, width, bestSum, bestLeft, bestRight, s);
    }
    forall s | s in counts && Requests(counts, s, width) == bestSum ensures start <= s {
      var i', j' := IntervalAtMostBest(ts, counts, width, bestSum, bestLeft, bestRight, s);
      assert s in ts;
      var k :| 0 <= k < |ts| && ts[k] == s;
      assert i' <= k < j';
      assert ts[j' - 1] - ts[i'] < width;
      SortedAt(ts, bestLeft, i');
      SortedAt(ts, i', k);
    }
  }

  /** Moving the right end one timestamp further keeps the best stretch known. */
  lemma BestExtends(ts: seq<int>, counts: Counts, width: nat, right: nat, bestSum: int, bestLeft: nat, bestRight: nat,
                    left: nat)
    requires right < |ts| && Sorted(ts) && NonNegative(counts) && width > 0
    requires left <= right && ts[right] - ts[left] < width
    requires forall k :: 0 <= k < left ==> ts[right] - ts[k] >= width
    requires right > 0 ==> bestLeft <= left && Best(ts, counts, width, right, bestSum, bestLeft, bestRight)
    requires right == 0 ==> bestSum == -1
    ensures var current := Span(ts, counts, left, right + 1);
            if current > bestSum then Best(ts, counts, width, right + 1, current, left, right + 1)
            else right > 0 && Best(ts, counts, width, right + 1, bestSum, bestLeft, bestRight)
  {
    var current := Span(ts, counts, left, right + 1);
    StretchesEndingHere(ts, counts, left, right + 1);
    PrefixGrows(ts, counts, left, right + 1);
    forall i, j | 0 <= i < j <= right + 1 && ts[j - 1] - ts[i] < width
      ensures (Span(ts, counts, i, j) <= current && left <= i) || (j <= right && Span(ts, counts, i, j) <= bestSum)
    {
      if j == right + 1 {
        assert left <= i;
      }
    }
  }

  /** The inner loop: timestamps too old for a window that ends at `right` leave it. */
  method DropOld(ts: seq<int>, counts: Counts, width: int, right: nat, left: nat, current: int)
    returns (leftNow: nat, currentNow: int)
    requires Timestamps(ts, counts) && right < |ts| && left < |ts|
    requires current == Span(ts, counts, left, right + 1)
    requires width > 0 ==> left <= right && forall k :: 0 <= k < left ==> ts[right] - ts[k] >= width
    requires width <= 0 ==> right <= left
    ensures left <= leftNow <= |ts|
    ensures leftNow < |ts| ==> ts[right] - ts[leftNow] < width
    ensures currentNow == Span(ts, counts, leftNow, right + 1)
    ensures if width > 0 then leftNow <= right else right < leftNow
    ensures width > 0 ==> forall k :: 0 <= k < leftNow ==> ts[right] - ts[k] >= width
  {
    leftNow, currentNow := left, current;
    while leftNow < |ts| && ts[right] - ts[leftNow] >= width
      invariant left <= leftNow <= |ts|
      invariant width > 0 ==> leftNow <= right
      invariant currentNow == Span(ts, counts, leftNow, right + 1)
      invariant width > 0 ==> forall k :: 0 <= k < leftNow ==> ts[right] - ts[k] >= width
    {
      assert ts[leftNow] in ts;
      currentNow := currentNow - counts[ts[leftNow]];
      leftNow := leftNow + 1;
    }
  }

  /** The two-pointer search. A window of no seconds, or fewer, walks off the end of the timestamps. */
  method ChooseWindow(counts: Counts, width: int) returns (r: Result<(int, int)>)
    requires NonNegative(counts)
    ensures r.Failure? <==> counts.Keys == {} || width <= 0
    ensures r.Success? ==> Busiest(counts, width, r.value.0, r.value.1)
  {
    var ts := SortedKeys(counts);
    if |ts| == 0 {
      assert counts.Keys == {} by {
        assert forall t :: t in counts.Keys ==> t in ts;
      }
      return Failure("no timestamps available");
    }
    assert ts[0] in ts;
    var left: nat, current, bestSum := 0, 0, -1;
    var bestStart, bestEnd := ts[0], ts[0];
    ghost var bestLeft: nat, bestRight: nat := 0, 0;
    for right := 0 to |ts|
      invariant 0 <= left < |ts| && (right == 0 ==> left == 0 && bestSum == -1)
      invariant current == Span(ts, counts, left, right)
      invariant width <= 0 ==> right <= left
      invariant width > 0 && right > 0 ==> bestLeft <= left < right
      invariant width > 0 && right > 0 ==> forall k :: 0 <= k < left ==> ts[right - 1] - ts[k] >= width
      invariant width > 0 && right > 0 ==> bestStart == ts[bestLeft] && bestEnd == bestStart + width - 1
      invariant width > 0 && right > 0 ==> Best(ts, counts, width, right, bestSum, bestLeft, bestRight)
    {
      assert ts[right] in ts;
      left, current := DropOld(ts, counts, width, right, left, current + counts[ts[right]]);
      if left == |ts| {
        return Failure("list index out of range");
      }
      if width > 0 {
        BestExtends(ts, counts, width, right, bestSum, bestLeft, bestRight, left);
      }
      if current > bestSum {
        bestSum := current;
        bestStart := ts[left];
        bestEnd := bestStart + width - 1;
        if width > 0 {
          bestLeft, bestRight := left, right + 1;
        }
      }
    }
    BestIsBusiest(ts, counts, width, bestSum, bestLeft, bestRight);
    r := Success((bestStart, bestEnd));
  }
}
