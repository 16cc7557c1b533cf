/** Outcome counters and the accounting of a benchmark run (bench/counters.go, bench/load.go:100-172). */
module Load {
  import opened Wrappers
  import opened Histograms

  const CLASSES: nat := 6

  /** The status class of a code; 0 also stands for transport errors and for codes outside the classes. */
  function ClassOf(code: int): (i: nat)
    ensures i < CLASSES
    ensures 100 <= code < 600 ==> 100 * i <= code < 100 * i + 100
    ensures code < 100 || code >= 600 ==> i == 0
  {
    if code > 0 && code / 100 < CLASSES then code / 100 else 0
  }

  predicate IsOk(code: int) {
    200 <= code < 400
  }

  class Counters {
    var ok: nat
    var err: nat
    const status: array<nat>

    ghost predicate Valid()
      reads this
    {
      status.Length == CLASSES
    }

    constructor ()
      ensures Valid() && fresh(status) && ok == err == 0 && status[..] == [0, 0, 0, 0, 0, 0]
    {
      ok, err := 0, 0;
      status := new nat[CLASSES](_ => 0);
    }

    method AddStatus(code: int)
      requires Valid()
      modifies this, status
      ensures Valid()
      ensures status[..] == old(status[..])[ClassOf(code) := old(status[ClassOf(code)]) + 1]
      ensures ok == old(ok) + (if 200 <= code < 400 then 1 else 0)
      ensures err == old(err) + (if 200 <= code < 400 then 0 else 1)
    {
      var idx := 0;
      if code > 0 {
        idx := code / 100;
        if idx < 0 || idx >= status.Length {
          idx := 0;
        }
      }
      status[idx] := status[idx] + 1;
      if code >= 200 && code < 400 {
        ok := ok + 1;
      } else {
        err := err + 1;
      }
    }

    method ByClass() returns (r: array<nat>)
      requires Valid()
      ensures fresh(r) && r[..] == status[..]
    {
      r := new nat[CLASSES];
      var i := 0;
      while i < r.Length
        invariant 0 <= i <= CLASSES
        invariant r[..i] == status[..i]
      {
        r[i] := status[i];
        i := i + 1;
      }
      assert r[..i] == r[..] && status[..i] == status[..];
    }
  }

  // ----- Workers that run at the same time -----

  /**
    Where a worker is: between requests, between its two counter increments, or
    done with both and about to observe the latency.
   */
  datatype Pc = Ready | HalfCounted(code: int) | Counted

  /** Each worker has the samples of its own histogram. */
  datatype Bench = Bench(ok: nat, err: nat, status: seq<nat>, workers: seq<Pc>, samples: seq<seq<nat>>)

  datatype Action = BumpStatus(w: nat, code: int) | BumpOutcome(w: nat) | Observe(w: nat, latency: Duration)

  ghost predicate Shaped(b: Bench) {
    |b.status| == CLASSES && |b.samples| == |b.workers|
  }

  ghost predicate Enabled(b: Bench, a: Action) {
    && Shaped(b)
    && a.w < |b.workers|
    && match a
       case BumpStatus(w, _) => b.workers[w].Ready?
       case BumpOutcome(w) => b.workers[w].HalfCounted?
       case Observe(w, _) => b.workers[w].Counted?
  }

  ghost function Next(b: Bench, a: Action): Bench
    requires Enabled(b, a)
  {
    match a
    case BumpStatus(w, code) =>
      b.(status := b.status[ClassOf(code) := b.status[ClassOf(code)] + 1], workers := b.workers[w := HalfCounted(code)])
    case BumpOutcome(w) =>
      var bumped := b.(workers := b.workers[w := Counted]);
      if IsOk(b.workers[w].code) then bumped.(ok := b.ok + 1) else bumped.(err := b.err + 1)
    case Observe(w, latency) =>
      b.(samples := b.samples[w := b.samples[w] + [SampleOf(latency)]], workers := b.workers[w := Ready])
  }

  ghost predicate Legal(b: Bench, actions: seq<Action>)
    decreases |actions|, 0
  {
    actions == [] ||
    (Legal(b, actions[..|actions| - 1]) && Enabled(Run(b, actions[..|actions| - 1]), actions[|actions| - 1]))
  }

  ghost function Run(b: Bench, actions: seq<Action>): Bench
    requires Legal(b, actions)
    decreases |actions|, 1
  {
    if actions == [] then b else Next(Run(b, actions[..|actions| - 1]), actions[|actions| - 1])
  }

  function NewBench(concurrency: nat): Bench {
    Bench(0, 0, [0, 0, 0, 0, 0, 0], seq(concurrency, _ => Ready), seq(concurrency, _ => []))
  }

  /** The latencies that a worker has observed, in order; a negative one counts as 0. */
  function Latencies(actions: seq<Action>, w: nat): seq<nat> {
    if actions == [] then []
    else
      var last := actions[|actions| - 1];
      Latencies(actions[..|actions| - 1], w)
      + if last.Observe? && last.w == w then [if last.latency < 0 then 0 else last.latency] else []
  }

  /** In every run each worker's histogram has got exactly the latencies that the worker observed. */
  lemma {:induction false} SamplesAreLatencies(concurrency: nat, actions: seq<Action>, w: nat)
    requires Legal(NewBench(concurrency), actions) && w < concurrency
    ensures var b := Run(NewBench(concurrency), actions);
            |b.workers| == |b.samples| == concurrency && b.samples[w] == Latencies(actions, w)
  {
    if actions != [] {
      SamplesAreLatencies(concurrency, actions[..|actions| - 1], w);
    }
  }

  // ----- Sums -----

  ghost function SumBy<T>(s: seq<T>, f: T -> int): int {
    if s == [] then 0 else SumBy(s[..|s| - 1], f) + f(s[|s| - 1])
  }

  lemma {:induction false} SumByUpdate<T>(s: seq<T>, f: T -> int, i: nat, x: T)
    requires i < |s|
    ensures SumBy(s[i := x], f) == SumBy(s, f) - f(s[i]) + f(x)
  {
    var n := |s| - 1;
    if i < n {
      SumByUpdate(s[..n], f, i, x);
      assert s[i := x][..n] == s[..n][i := x];
    } else {
      assert s[i := x][..n] == s[..n];
    }
  }

  lemma {:induction false} SumByZero<T>(s: seq<T>, f: T -> int)
    requires forall i | 0 <= i < |s| :: f(s[i]) == 0
    ensures SumBy(s, f) == 0
  {
    if s != [] {
      SumByZero(s[..|s| - 1], f);
    }
  }

  function Length(samples: seq<nat>): int {
    |samples|
  }

  /** 1 for a worker between its two counter increments. */
  function Halfway(pc: Pc): int {
    if pc.HalfCounted? then 1 else 0
  }

  function HalfwayOk(pc: Pc): int {
    if pc.HalfCounted? && IsOk(pc.code) then 1 else 0
  }

  /** 1 for a worker whose status is counted and whose latency is not observed yet. */
  function Unobserved(pc: Pc): int {
    if pc.Ready? then 0 else 1
  }

  function StatusTotal(b: Bench): int
    requires |b.status| == CLASSES
  {
    b.status[0] + b.status[1] + b.status[2] + b.status[3] + b.status[4] + b.status[5]
  }

  ghost predicate Balanced(b: Bench) {
    && Shaped(b)
    && StatusTotal(b) - (b.ok + b.err) == SumBy(b.workers, Halfway)
    && b.status[2] + b.status[3] - b.ok == SumBy(b.workers, HalfwayOk)
    && StatusTotal(b) - SumBy(b.samples, Length) == SumBy(b.workers, Unobserved)
  }

  lemma ActionKeepsBalance(b: Bench, a: Action)
    requires Balanced(b) && Enabled(b, a)
    ensures Balanced(Next(b, a))
  {
    var pc := Next(b, a).workers[a.w];
    SumByUpdate(b.workers, Halfway, a.w, pc);
    SumByUpdate(b.workers, HalfwayOk, a.w, pc);
    SumByUpdate(b.workers, Unobserved, a.w, pc);
    if a.Observe? {
      SumByUpdate(b.samples, Length, a.w, Next(b, a).samples[a.w]);
    }
  }

  /**
    Under every interleaving the status classes are ahead of the outcome
    counters by exactly the number of workers between their two increments.
   */
  lemma {:induction false} CountersBalance(concurrency: nat, actions: seq<Action>)
    requires Legal(NewBench(concurrency), actions)
    ensures Balanced(Run(NewBench(concurrency), actions))
  {
    var start := NewBench(concurrency);
    if actions == [] {
      SumByZero(start.workers, Halfway);
      SumByZero(start.workers, HalfwayOk);
      SumByZero(start.workers, Unobserved);
      SumByZero(start.samples, Length);
    } else {
      CountersBalance(concurrency, actions[..|actions| - 1]);
      ActionKeepsBalance(Run(start, actions[..|actions| - 1]), actions[|actions| - 1]);
    }
  }

  lemma {:induction false} FlattenLength(parts: seq<seq<nat>>)
    ensures |Flatten(parts)| == SumBy(parts, Length)
  {
    if parts != [] {
      FlattenLength(parts[..|parts| - 1]);
    }
  }

  /**
    When all workers have finished, the merged histogram counts as many samples
    as there are statuses, and as there are successes and errors together; the
    successes are the 2xx and 3xx classes and the errors all the others.
   */
  lemma FinishedRunAgrees(concurrency: nat, actions: seq<Action>)
    requires Legal(NewBench(concurrency), actions)
    requires forall i | 0 <= i < |Run(NewBench(concurrency), actions).workers| ::
               Run(NewBench(concurrency), actions).workers[i].Ready?
    ensures var b := Run(NewBench(concurrency), actions);
            && Shaped(b)
            && |Flatten(b.samples)| == StatusTotal(b) == b.ok + b.err
            && b.ok == b.status[2] + b.status[3]
            && b.err == b.status[0] + b.status[1] + b.status[4] + b.status[5]
  {
    CountersBalance(concurrency, actions);
    var b := Run(NewBench(concurrency), actions);
    SumByZero(b.workers, Halfway);
    SumByZero(b.workers, HalfwayOk);
    SumByZero(b.workers, Unobserved);
    FlattenLength(b.samples);
  }
}
