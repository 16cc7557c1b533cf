/** The linear-bucket histogram (bench/hist.go) and the merge of a run's histograms (bench/load.go:156-159). */
module Histograms {
  import opened Wrappers
  import opened Samples

  /** A time.Duration: a signed 64-bit number of nanoseconds. */
  type Duration = d: int | -0x8000_0000_0000_0000 <= d < 0x8000_0000_0000_0000

  /** The sample that a latency counts as. */
  function SampleOf(d: Duration): nat {
    if d < 0 then 0 else d
  }

  /** The smallest integer not below `x`. */
  function Ceil(x: real): int {
    -((-x).Floor)
  }

  function Clamp(p: real): real {
    if p < 0.0 then 0.0 else if p > 1.0 then 1.0 else p
  }

  /** The rank that percentile `p` of `n` samples asks for. */
  function Rank(n: nat, p: real): nat {
    Max(1, Ceil(n as real * Clamp(p)))
  }

  lemma CeilMonotone(x: real, y: real)
    requires x <= y
    ensures Ceil(x) <= Ceil(y)
  {
    var a, b := (-y).Floor, (-x).Floor;
    assert a as real <= -y <= -x;
    assert -x < (b + 1) as real;
  }

  lemma RankInRange(n: nat, p: real)
    requires n > 0
    ensures 1 <= Rank(n, p) <= n
  {
    ScaleMonotone(n, Clamp(p), 1.0);
  }

  /** At least one sample, and no fewer than the fraction `q` of `n`. */
  predicate Covers(k: nat, n: nat, q: real) {
    1 <= k && n as real * q <= k as real
  }

  /** What a percentile asks for: the least rank, from 1 on, that leaves no fewer than n * p samples at or below it. */
  lemma RankIsLeast(n: nat, p: real)
    requires n > 0
    ensures var q := if p < 0.0 then 0.0 else if p > 1.0 then 1.0 else p;
            && Covers(Rank(n, p), n, q) && Rank(n, p) <= n
            && forall k: nat | Covers(k, n, q) :: Rank(n, p) <= k
  {
    RankInRange(n, p);
    var x := n as real * Clamp(p);
    assert (-x).Floor as real <= -x < ((-x).Floor + 1) as real;
  }

  lemma ScaleMonotone(n: nat, p: real, q: real)
    requires p <= q
    ensures n as real * p <= n as real * q
  {
    assert n as real * q == n as real * p + n as real * (q - p);
  }

  lemma RankMonotone(n: nat, p: real, q: real)
    requires p <= q
    ensures Rank(n, p) <= Rank(n, q)
  {
    ScaleMonotone(n, Clamp(p), Clamp(q));
    CeilMonotone(n as real * Clamp(p), n as real * Clamp(q));
  }

  /** For every set of samples and every p <= q, the quantile at p is at most the quantile at q. */
  lemma PercentileMonotone(samples: seq<nat>, p: real, q: real, r: nat, s: nat)
    requires samples != [] && p <= q
    requires IsQuantile(samples, Rank(|samples|, p), r) && IsQuantile(samples, Rank(|samples|, q), s)
    ensures r <= s
  {
    RankInRange(|samples|, p);
    RankInRange(|samples|, q);
    RankMonotone(|samples|, p, q);
    QuantileMonotone(samples, Rank(|samples|, p), Rank(|samples|, q), r, s);
  }

  method TargetRank(n: nat, p: real) returns (target: nat)
    requires n > 0
    ensures target == Rank(n, p) && 1 <= target <= n
  {
    var q := p;
    if q < 0.0 {
      q := 0.0;
    }
    if q > 1.0 {
      q := 1.0;
    }
    RankInRange(n, p);
    var ceil := Ceil(n as real * q);
    if ceil <= 0 {
      return 1;
    }
    return ceil;
  }

  lemma LastIsGreatest(samples: seq<nat>, sorted: seq<nat>)
    requires SortedFrom(samples, sorted) && samples != []
    ensures |sorted| == |samples| && sorted[|sorted| - 1] == Greatest(samples)
  {
    SummaryIgnoresOrder(sorted, samples);
    assert |sorted| == |multiset(sorted)| == |multiset(samples)| == |samples|;
    GreatestOfSorted(sorted);
  }

  class Hist {
    var buckets: array<nat>
    var count: nat
    var sumNs: nat
    var minNs: nat
    var maxNs: nat
    ghost var samples: seq<nat>  // every sample observed or merged in

    ghost predicate Valid()
      reads this, buckets
    {
      && buckets.Length == BUCKETS
      && (forall i | 0 <= i < BUCKETS :: buckets[i] == Tally(samples, i))
      && count == |samples|
      && sumNs == Total(samples)
      && minNs == Least(samples)
      && maxNs == Greatest(samples)
      && forall x | x in samples :: x <= MAX_UINT64
    }

    /** Every field of the histogram. */
    ghost function Fields(): Summary
      reads this, buckets
    {
      Summary(buckets[..], count, sumNs, minNs, maxNs)
    }

    constructor ()
      ensures Valid() && fresh(buckets) && samples == []
    {
      buckets := new nat[BUCKETS](_ => 0);
      count := 0;
      sumNs := 0;
      minNs := MAX_UINT64;
      maxNs := 0;
      samples := [];
    }

    method Observe(d: Duration)
      requires Valid()
      modifies this, buckets
      ensures Valid() && buckets == old(buckets) && samples == old(samples) + [if d < 0 then 0 else d]
    {
      var ns: nat := if d < 0 then 0 else d;
      OneSampleMore(samples, ns);
      var i := ns / BUCKET_WIDTH;
      if i >= buckets.Length {
        i := buckets.Length - 1;
      }
      buckets[i] := buckets[i] + 1;
      count := count + 1;
      sumNs := sumNs + ns;
      if ns < minNs {
        minNs := ns;
      }
      if ns > maxNs {
        maxNs := ns;
      }
      samples := samples + [ns];
    }

    /** The loop of Merge. */
    method AddBuckets(o: Hist)
      requires Valid() && o.Valid() && (o == this || o.buckets != buckets)
      modifies buckets
      ensures forall j | 0 <= j < BUCKETS :: buckets[j] == old(buckets[j]) + old(o.buckets[j])
    {
      var i := 0;
      while i < o.buckets.Length
        invariant 0 <= i <= BUCKETS
        invariant forall j | 0 <= j < i :: buckets[j] == old(buckets[j]) + old(o.buckets[j])
        invariant forall j | i <= j < BUCKETS :: buckets[j] == old(buckets[j]) && o.buckets[j] == old(o.buckets[j])
      {
        buckets[i] := buckets[i] + o.buckets[i];
        i := i + 1;
      }
    }

    /** After a merge, also with itself, the histogram is one that observed the samples of both. */
    method Merge(o: Hist?)
      requires Valid()
      requires o != null ==> o.Valid() && (o == this || o.buckets != buckets)
      modifies this, buckets
      ensures Valid() && buckets == old(buckets)
      ensures samples == if o == null then old(samples) else old(samples) + old(o.samples)
    {
      if o == null || o.count == 0 {
        assert o != null ==> old(samples) + o.samples == old(samples);
        return;
      }
      AddBuckets(o);
      count := count + o.count;
      sumNs := sumNs + o.sumNs;
      if o.minNs < minNs {
        minNs := o.minNs;
      }
      if o.maxNs > maxNs {
        maxNs := o.maxNs;
      }
      SummaryConcat(samples, o.samples);
      samples := samples + o.samples;
    }

    /**
      The quantile at `p`: within half a bucket of the sample that stands at the
      rank `p` asks for when the samples are sorted, or the exact maximum when
      that sample is in the overflow bucket.
     */
    method Percentile(p: real) returns (r: nat)
      requires Valid()
      ensures count == 0 ==> r == 0
      ensures count > 0 ==> IsQuantile(samples, Rank(|samples|, p), r)
      ensures count > 0 ==>
                forall sorted | SortedFrom(samples, sorted) ::
                  && 1 <= Rank(|samples|, p) <= |samples| == |sorted|
                  && var x := sorted[Rank(|samples|, p) - 1];
                     if x < 10_000_000_000 then 2 * (r - x) <= 100_000 && 2 * (x - r) <= 100_000
                     else r == sorted[|sorted| - 1]
    {
      if count == 0 {
        return 0;
      }
      var target := TargetRank(count, p);
      BeforeNext(samples, 0);
      r := maxNs;
      var cum := 0;
      var i := 0;
      ghost var found := false;
      while i < buckets.Length
        invariant 0 <= i <= BUCKETS && !found
        invariant cum == CountBefore(samples, i) < target
      {
        BeforeNext(samples, i);
        cum := cum + buckets[i];
        if cum >= target {
          if i < buckets.Length - 1 {
            var low := i * BUCKET_WIDTH;
            var high := low + BUCKET_WIDTH;
            r := (low + high) / 2;
          }
          found := true;
          break;
        }
        i := i + 1;
      }
      assert found;  // the return after the loop of the source is never taken
      assert Straddles(samples, i, target) && r == Representative(samples, i);
      forall sorted | SortedFrom(samples, sorted)
        ensures |sorted| == |samples|
        ensures var x := sorted[target - 1];
                if x < 10_000_000_000 then 2 * (r - x) <= 100_000 && 2 * (x - r) <= 100_000
                else r == sorted[|sorted| - 1]
      {
        RankOfSorted(samples, sorted, target);
        QuantileError(samples, target, r, sorted[target - 1]);
        LastIsGreatest(samples, sorted);
      }
    }

    method Mean() returns (r: nat)
      requires Valid()
      ensures r == if samples == [] then 0 else Total(samples) / |samples|
      ensures samples != [] ==> Least(samples) <= r <= Greatest(samples)
    {
      if count == 0 {
        return 0;
      }
      MeanBetween(samples);
      return sumNs / count;
    }

    method Min() returns (r: nat)
      requires Valid()
      ensures if samples == [] then r == 0 else r in samples && forall x | x in samples :: r <= x
    {
      if count == 0 {
        return 0;
      }
      ExtremesAreSamples(samples);
      return minNs;
    }

    method Max() returns (r: nat)
      requires Valid()
      ensures if samples == [] then r == 0 else r in samples && forall x | x in samples :: x <= r
    {
      if count > 0 {
        ExtremesAreSamples(samples);
      }
      return maxNs;
    }
  }

  /** The fields of a histogram are those of its samples. */
  lemma FieldsSummarize(h: Hist)
    requires h.Valid()
    ensures h.Fields() == Summarize(h.samples)
  {
    assert h.buckets[..] == Summarize(h.samples).tallies;
  }

  /** Two histograms with the same samples, in whatever order and however merged, are the same in every field. */
  lemma HistDetermined(a: Hist, b: Hist)
    requires a.Valid() && b.Valid() && multiset(a.samples) == multiset(b.samples)
    ensures a.Fields() == b.Fields()
  {
    SummaryIgnoresOrder(a.samples, b.samples);
    FieldsSummarize(a);
    FieldsSummarize(b);
  }

  ghost function Flatten(parts: seq<seq<nat>>): seq<nat> {
    if parts == [] then [] else Flatten(parts[..|parts| - 1]) + parts[|parts| - 1]
  }

  ghost function SamplesOf(hists: seq<Hist>): seq<seq<nat>>
    reads hists
  {
    seq(|hists|, i requires 0 <= i < |hists| reads hists => hists[i].samples)
  }

  /**
    The end of a run: a new histogram into which every worker's histogram is
    merged. However the samples were split over the workers and in whatever
    order they came, its fields are those of one histogram that observed all.
   */
  method MergeAll(hists: seq<Hist>) returns (total: Hist)
    requires forall i | 0 <= i < |hists| :: hists[i].Valid()
    ensures fresh(total) && fresh(total.buckets) && total.Valid()
    ensures total.samples == Flatten(SamplesOf(hists))
    ensures forall all: seq<nat> | multiset(all) == multiset(Flatten(SamplesOf(hists))) ::
              total.Fields() == Summarize(all)
  {
    total := new Hist();
    var i := 0;
    while i < |hists|
      invariant 0 <= i <= |hists|
      invariant fresh(total) && fresh(total.buckets) && total.Valid()
      invariant total.samples == Flatten(SamplesOf(hists)[..i])
    {
      total.Merge(hists[i]);
      i := i + 1;
      assert SamplesOf(hists)[..i][..i - 1] == SamplesOf(hists)[..i - 1];
    }
    assert SamplesOf(hists)[..i] == SamplesOf(hists);
    FieldsSummarize(total);
    forall all: seq<nat> | multiset(all) == multiset(total.samples)
      ensures Summarize(all) == Summarize(total.samples)
    {
      SummaryIgnoresOrder(all, total.samples);
    }
  }
}
