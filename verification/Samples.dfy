/** Latency samples and what a linear-bucket histogram knows about them (bench/hist.go). */
module Samples {
  import opened Wrappers

  const BUCKET_WIDTH: nat := 100_000          // 100 microseconds, in nanoseconds
  const MAX_LATENCY: nat := 10_000_000_000    // 10 seconds
  const BUCKETS: nat := MAX_LATENCY / BUCKET_WIDTH + 1
  const OVERFLOW: nat := BUCKETS - 1          // the bucket of everything from MAX_LATENCY on
  const MAX_UINT64: nat := 0xFFFF_FFFF_FFFF_FFFF

  /** The bucket of a sample. */
  function Slot(ns: nat): (i: nat)
    ensures i < BUCKETS
    ensures i < OVERFLOW ==> i * BUCKET_WIDTH <= ns < i * BUCKET_WIDTH + BUCKET_WIDTH
    ensures i == OVERFLOW ==> MAX_LATENCY <= ns
  {
    Min(ns / BUCKET_WIDTH, OVERFLOW)
  }

  function Tally(samples: seq<nat>, i: nat): nat {
    if samples == [] then 0
    else Tally(samples[..|samples| - 1], i) + if Slot(samples[|samples| - 1]) == i then 1 else 0
  }

  function Total(samples: seq<nat>): nat {
    if samples == [] then 0 else Total(samples[..|samples| - 1]) + samples[|samples| - 1]
  }

  function Least(samples: seq<nat>): nat {
    if samples == [] then MAX_UINT64 else Min(Least(samples[..|samples| - 1]), samples[|samples| - 1])
  }

  function Greatest(samples: seq<nat>): nat {
    if samples == [] then 0 else Max(Greatest(samples[..|samples| - 1]), samples[|samples| - 1])
  }

  /** Everything a histogram keeps of its samples. */
  datatype Summary = Summary(tallies: seq<nat>, count: nat, total: nat, least: nat, greatest: nat)

  function Summarize(samples: seq<nat>): Summary {
    Summary(seq(BUCKETS, i requires 0 <= i => Tally(samples, i)), |samples|,
            Total(samples), Least(samples), Greatest(samples))
  }

  lemma OneSampleMore(samples: seq<nat>, x: nat)
    ensures var more := samples + [x];
            && (forall i :: Tally(more, i) == Tally(samples, i) + if Slot(x) == i then 1 else 0)
            && Total(more) == Total(samples) + x
            && Least(more) == Min(Least(samples), x)
            && Greatest(more) == Max(Greatest(samples), x)
  {
    assert (samples + [x])[..|samples|] == samples;
  }

  lemma {:induction false} SummaryConcat(a: seq<nat>, b: seq<nat>)
    ensures forall i :: Tally(a + b, i) == Tally(a, i) + Tally(b, i)
    ensures Total(a + b) == Total(a) + Total(b)
    ensures Least(a + b) == Min(Least(a), Least(b))
    ensures Greatest(a + b) == Max(Greatest(a), Greatest(b))
  {
    if b == [] {
      assert a + b == a;
      LeastAtMost(a);
    } else {
      var n := |b| - 1;
      assert (a + b)[..|a + b| - 1] == a + b[..n];
      SummaryConcat(a, b[..n]);
    }
  }

  lemma {:induction false} LeastAtMost(samples: seq<nat>)
    ensures Least(samples) <= MAX_UINT64
  {
    if samples != [] {
      LeastAtMost(samples[..|samples| - 1]);
    }
  }

  lemma SummarySwap(front: seq<nat>, x: nat, back: seq<nat>)
    ensures Summarize(front + ([x] + back)) == Summarize(front + back + [x])
  {
    SummaryConcat(front, [x] + back);
    SummaryConcat([x], back);
    SummaryConcat(front + back, [x]);
    SummaryConcat(front, back);
    LeastAtMost(front);
  }

  lemma SummaryWithout(samples: seq<nat>, k: nat)
    requires k < |samples|
    ensures var rest := samples[..k] + samples[k + 1..];
            && multiset(samples) == multiset(rest) + multiset{samples[k]}
            && Summarize(samples) == Summarize(rest + [samples[k]])
  {
    assert samples == samples[..k] + ([samples[k]] + samples[k + 1..]);
    SummarySwap(samples[..k], samples[k], samples[k + 1..]);
  }

  /** The order of the samples does not matter: a histogram is a function of their multiset. */
  lemma {:induction false} SummaryIgnoresOrder(a: seq<nat>, b: seq<nat>)
    requires multiset(a) == multiset(b)
    ensures Summarize(a) == Summarize(b)
    decreases |a|
  {
    assert |a| == |multiset(a)| == |multiset(b)| == |b|;
    if a != [] {
      var n := |a| - 1;
      var x := a[n];
      assert a == a[..n] + [x];
      assert x in multiset(b);
      var k :| 0 <= k < |b| && b[k] == x;
      var rest := b[..k] + b[k + 1..];
      SummaryWithout(b, k);
      assert multiset(a[..n]) == multiset(a) - multiset{x} && multiset(rest) == multiset(b) - multiset{x};
      SummaryIgnoresOrder(a[..n], rest);
      SameStep(a[..n], rest, x);
    } else {
      assert b == [];
    }
  }

  lemma SameStep(a: seq<nat>, b: seq<nat>, x: nat)
    requires Summarize(a) == Summarize(b)
    ensures Summarize(a + [x]) == Summarize(b + [x])
  {
    forall i | 0 <= i < BUCKETS
      ensures Tally(a + [x], i) == Tally(b + [x], i)
    {
      assert Summarize(a).tallies[i] == Summarize(b).tallies[i];
      SummaryConcat(a, [x]);
      SummaryConcat(b, [x]);
    }
    SummaryConcat(a, [x]);
    SummaryConcat(b, [x]);
    assert Summarize(a + [x]).tallies == Summarize(b + [x]).tallies;
  }

  // ----- Ranks -----

  /** The number of samples below `x`. */
  function CountLess(samples: seq<nat>, x: nat): nat {
    if samples == [] then 0
    else CountLess(samples[..|samples| - 1], x) + if samples[|samples| - 1] < x then 1 else 0
  }

  /** The number of samples in buckets before `i`. */
  function CountBefore(samples: seq<nat>, i: nat): nat {
    if samples == [] then 0
    else CountBefore(samples[..|samples| - 1], i) + if Slot(samples[|samples| - 1]) < i then 1 else 0
  }

  /** `x` is the sample of this rank: the one at position `rank` - 1 when the samples are sorted. */
  ghost predicate HasRank(samples: seq<nat>, x: nat, rank: nat) {
    x in samples && CountLess(samples, x) < rank <= CountLess(samples, x + 1)
  }

  lemma {:induction false} CountsCompare(samples: seq<nat>, x: nat, y: nat)
    requires x <= y
    ensures CountLess(samples, x) <= CountLess(samples, y) <= |samples|
    ensures CountLess(samples, x) < CountLess(samples, x + 1) ==> x in samples
    ensures CountLess(samples, 0) == 0
  {
    if samples != [] {
      CountsCompare(samples[..|samples| - 1], x, y);
    }
  }

  /** Exactly one sample has any given rank. */
  lemma RankUnique(samples: seq<nat>, rank: nat)
    requires 1 <= rank <= |samples|
    ensures exists x: nat :: HasRank(samples, x, rank)
    ensures forall x: nat, y: nat :: HasRank(samples, x, rank) && HasRank(samples, y, rank) ==> x == y
  {
    AllBelow(samples, Greatest(samples) + 1);
    var x := FindRank(samples, rank, Greatest(samples));
    forall x: nat, y: nat | HasRank(samples, x, rank) && HasRank(samples, y, rank)
      ensures x == y
    {
      if x < y {
        CountsCompare(samples, x + 1, y);
      } else if y < x {
        CountsCompare(samples, y + 1, x);
      }
    }
  }

  lemma {:induction false} AllBelow(samples: seq<nat>, x: nat)
    requires Greatest(samples) < x
    ensures CountLess(samples, x) == |samples|
  {
    if samples != [] {
      AllBelow(samples[..|samples| - 1], x);
    }
  }

  lemma {:induction false} FindRank(samples: seq<nat>, rank: nat, hi: nat) returns (x: nat)
    requires 1 <= rank <= CountLess(samples, hi + 1)
    ensures HasRank(samples, x, rank)
    decreases hi
  {
    CountsCompare(samples, hi, hi);
    if CountLess(samples, hi) < rank {
      x := hi;
    } else {
      x := FindRank(samples, rank, hi - 1);
    }
  }

  lemma {:induction false} CountLessConcat(a: seq<nat>, b: seq<nat>, x: nat)
    ensures CountLess(a + b, x) == CountLess(a, x) + CountLess(b, x)
  {
    if b == [] {
      assert a + b == a;
    } else {
      assert (a + b)[..|a + b| - 1] == a + b[..|b| - 1];
      CountLessConcat(a, b[..|b| - 1], x);
    }
  }

  lemma CountLessWithout(b: seq<nat>, k: nat, x: nat)
    requires k < |b|
    ensures var rest := b[..k] + b[k + 1..];
            && multiset(b) == multiset(rest) + multiset{b[k]}
            && CountLess(b, x) == CountLess(rest, x) + if b[k] < x then 1 else 0
  {
    assert [b[k]][..0] == [];
    assert b == b[..k] + ([b[k]] + b[k + 1..]);
    CountLessConcat(b[..k], [b[k]] + b[k + 1..], x);
    CountLessConcat([b[k]], b[k + 1..], x);
    CountLessConcat(b[..k], b[k + 1..], x);
  }

  lemma {:induction false} CountLessIgnoresOrder(a: seq<nat>, b: seq<nat>, x: nat)
    requires multiset(a) == multiset(b)
    ensures CountLess(a, x) == CountLess(b, x)
  {
    assert |a| == |multiset(a)| == |multiset(b)| == |b|;
    if a != [] {
      var n := |a| - 1;
      var last := a[n];
      assert a == a[..n] + [last];
      assert last in multiset(b);
      var k :| 0 <= k < |b| && b[k] == last;
      var rest := b[..k] + b[k + 1..];
      CountLessWithout(b, k, x);
      assert multiset(a[..n]) == multiset(a) - multiset{last} && multiset(rest) == multiset(b) - multiset{last};
      CountLessIgnoresOrder(a[..n], rest, x);
    }
  }

  /** The same samples in ascending order. */
  ghost predicate SortedFrom(samples: seq<nat>, sorted: seq<nat>) {
    multiset(sorted) == multiset(samples) && forall i, j | 0 <= i <= j < |sorted| :: sorted[i] <= sorted[j]
  }

  /** In ascending samples, those below `x` are the first ones. */
  lemma {:induction false} SortedCounts(sorted: seq<nat>, x: nat, i: nat)
    requires forall i, j | 0 <= i <= j < |sorted| :: sorted[i] <= sorted[j]
    requires i < |sorted|
    ensures sorted[i] < x <==> i < CountLess(sorted, x)
    ensures CountLess(sorted, x) <= |sorted|
  {
    var n := |sorted| - 1;
    CountsCompare(sorted, x, x);
    CountsCompare(sorted[..n], x, x);
    if i < n {
      SortedCounts(sorted[..n], x, i);
      SortedCounts(sorted[..n], x, n - 1);
    } else if 0 < n {
      SortedCounts(sorted[..n], x, n - 1);
    } else {
      assert sorted[..0] == [];
    }
  }

  /** The sample of a rank is the one at that position when the samples are sorted. */
  lemma RankOfSorted(samples: seq<nat>, sorted: seq<nat>, rank: nat)
    requires SortedFrom(samples, sorted) && 1 <= rank <= |samples|
    ensures |sorted| == |samples|
    ensures forall x: nat :: HasRank(samples, x, rank) <==> x == sorted[rank - 1]
  {
    assert |sorted| == |multiset(sorted)| == |multiset(samples)| == |samples|;
    var x := sorted[rank - 1];
    SortedCounts(sorted, x, rank - 1);
    SortedCounts(sorted, x + 1, rank - 1);
    CountLessIgnoresOrder(sorted, samples, x);
    CountLessIgnoresOrder(sorted, samples, x + 1);
    assert x in multiset(samples);
    assert HasRank(samples, x, rank);
    RankUnique(samples, rank);
    forall y: nat
      ensures HasRank(samples, y, rank) <==> y == x
    {
      assert HasRank(samples, y, rank) && HasRank(samples, x, rank) ==> y == x;
    }
  }

  lemma {:induction false} BeforeNext(samples: seq<nat>, i: nat)
    ensures CountBefore(samples, i + 1) == CountBefore(samples, i) + Tally(samples, i)
    ensures CountBefore(samples, 0) == 0
    ensures CountBefore(samples, BUCKETS) == |samples|
  {
    if samples != [] {
      BeforeNext(samples[..|samples| - 1], i);
    }
  }

  lemma {:induction false} BeforeMonotone(samples: seq<nat>, i: nat, j: nat)
    requires i <= j
    ensures CountBefore(samples, i) <= CountBefore(samples, j)
  {
    if samples != [] {
      BeforeMonotone(samples[..|samples| - 1], i, j);
    }
  }

  /** Counting samples below a value and counting whole buckets bound each other. */
  lemma {:induction false} SlotsAndValues(samples: seq<nat>, x: nat)
    ensures CountBefore(samples, Slot(x)) <= CountLess(samples, x)
    ensures CountLess(samples, x + 1) <= CountBefore(samples, Slot(x) + 1)
  {
    if samples != [] {
      SlotsAndValues(samples[..|samples| - 1], x);
    }
  }

  // ----- Quantiles -----

  /** The bucket whose samples include the one of this rank. */
  ghost predicate Straddles(samples: seq<nat>, i: nat, rank: nat) {
    i < BUCKETS && CountBefore(samples, i) < rank <= CountBefore(samples, i + 1)
  }

  /** What stands for a bucket: its middle, and for the overflow bucket the exact maximum. */
  function Representative(samples: seq<nat>, i: nat): nat {
    if i == OVERFLOW then Greatest(samples)
    else (i * BUCKET_WIDTH + (i * BUCKET_WIDTH + BUCKET_WIDTH)) / 2
  }

  ghost predicate IsQuantile(samples: seq<nat>, rank: nat, r: nat) {
    exists i: nat :: Straddles(samples, i, rank) && r == Representative(samples, i)
  }

  lemma StraddledBucketIsSlot(samples: seq<nat>, i: nat, rank: nat, x: nat)
    requires Straddles(samples, i, rank) && HasRank(samples, x, rank)
    ensures Slot(x) == i
  {
    SlotsAndValues(samples, x);
    if Slot(x) < i {
      BeforeMonotone(samples, Slot(x) + 1, i);
    } else if i < Slot(x) {
      BeforeMonotone(samples, i + 1, Slot(x));
    }
  }

  /** A quantile is within half a bucket of the sample of its rank, or the exact maximum when that sample overflows. */
  lemma QuantileError(samples: seq<nat>, rank: nat, r: nat, x: nat)
    requires IsQuantile(samples, rank, r) && HasRank(samples, x, rank)
    ensures if x < MAX_LATENCY then 2 * (r - x) <= BUCKET_WIDTH && 2 * (x - r) <= BUCKET_WIDTH
            else r == Greatest(samples)
  {
    var i: nat :| Straddles(samples, i, rank) && r == Representative(samples, i);
    StraddledBucketIsSlot(samples, i, rank, x);
  }

  lemma {:induction false} SampleAtMostGreatest(samples: seq<nat>, x: nat)
    requires x in samples
    ensures x <= Greatest(samples)
  {
    var n := |samples| - 1;
    if x != samples[n] {
      SampleAtMostGreatest(samples[..n], x);
    }
  }

  /** Quantiles never decrease with the rank; in particular there is at most one for each rank. */
  lemma QuantileMonotone(samples: seq<nat>, k: nat, l: nat, r: nat, s: nat)
    requires 1 <= k <= l <= |samples|
    requires IsQuantile(samples, k, r) && IsQuantile(samples, l, s)
    ensures r <= s
  {
    var i: nat :| Straddles(samples, i, k) && r == Representative(samples, i);
    var j: nat :| Straddles(samples, j, l) && s == Representative(samples, j);
    if j < i {
      BeforeMonotone(samples, j + 1, i);
    }
    if j == OVERFLOW && i < j {
      RankUnique(samples, l);
      var x: nat :| HasRank(samples, x, l);
      StraddledBucketIsSlot(samples, j, l, x);
      SampleAtMostGreatest(samples, x);
    }
  }

  // ----- Extremes and the mean -----

  lemma {:induction false} GreatestOfSorted(sorted: seq<nat>)
    requires sorted != [] && forall i, j | 0 <= i <= j < |sorted| :: sorted[i] <= sorted[j]
    ensures Greatest(sorted) == sorted[|sorted| - 1]
  {
    var n := |sorted| - 1;
    if n > 0 {
      GreatestOfSorted(sorted[..n]);
    } else {
      assert Greatest(sorted[..0]) == 0;
    }
  }

  lemma {:induction false} ExtremesAreSamples(samples: seq<nat>)
    requires samples != [] && forall x | x in samples :: x <= MAX_UINT64
    ensures Least(samples) in samples && Greatest(samples) in samples
    ensures forall x | x in samples :: Least(samples) <= x <= Greatest(samples)
  {
    var n := |samples| - 1;
    var init := samples[..n];
    assert forall x | x in init :: x in samples;
    assert forall x | x in samples :: x in init || x == samples[n];
    if init != [] {
      ExtremesAreSamples(init);
    } else {
      assert samples[n] in samples;
      assert Least(init) == MAX_UINT64 && Greatest(init) == 0;
    }
  }

  lemma {:induction false} TotalBounds(samples: seq<nat>)
    ensures Least(samples) * |samples| <= Total(samples) <= Greatest(samples) * |samples|
  {
    if samples != [] {
      var n := |samples| - 1;
      TotalBounds(samples[..n]);
      OneMore(Least(samples), Least(samples[..n]), n);
      OneMore(Greatest(samples[..n]), Greatest(samples), n);
    }
  }

  lemma OneMore(a: nat, b: nat, n: nat)
    requires a <= b
    ensures a * n <= b * n && a * (n + 1) == a * n + a && b * (n + 1) == b * n + b
  {
    assert b * n == a * n + (b - a) * n;
  }

  lemma {:induction false} MulCancel(a: nat, b: nat, n: nat)
    requires a * n < b * n + n
    ensures a <= b
  {
    if b < a {
      OneMore(b, b, n);
      OneMore(b + 1, a, n);
    }
  }

  lemma {:induction false} DivideBetween(lo: nat, total: nat, hi: nat, n: nat)
    requires n > 0 && lo * n <= total <= hi * n
    ensures lo <= total / n <= hi
  {
    var q := total / n;
    assert total == q * n + total % n;
    MulCancel(lo, q, n);
    MulCancel(q, hi, n);
  }

  lemma {:induction false} MeanBetween(samples: seq<nat>)
    requires samples != []
    ensures Least(samples) <= Total(samples) / |samples| <= Greatest(samples)
  {
    TotalBounds(samples);
    DivideBetween(Least(samples), Total(samples), Greatest(samples), |samples|);
  }
}
