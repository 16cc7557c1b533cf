/**
  A cluster of state machines over one committed log (raft/node.go).

  The log is append-only and applied in order. A node keeps its database file
  over a crash, and a restart runs Restore on top of that file and applies the
  log again from the snapshot's index on. `high` is the highest log position
  whose effect may be in the file, and `stale` are the keys that restores may
  have left behind; no step's effect on the rest depends on them.
 */
module Clusters {
  import opened Wrappers
  import opened Entries
  import opened Replay
  import opened History
  import opened Restores

  /**
    A snapshot at a log position: the entries it lists, the data they were
    listed from, and the high-water mark and stale keys of the node that took it.
   */
  datatype Snapshot = Snapshot(entries: seq<Entry>, data: map<Key, Entry>, index: nat, high: nat, stale: set<Key>)

  /** A node without a snapshot restarts like one with a snapshot of nothing. */
  const NO_SNAPSHOT := Snapshot([], map[], 0, 0, {})

  datatype Node = Node(db: Db, applied: nat, high: nat, snap: Snapshot, up: bool, stale: set<Key>)

  const NEW_NODE := Node(EMPTY_DB, 0, 0, NO_SNAPSHOT, true, {})

  datatype Cluster = Cluster(log: seq<Op>, nodes: seq<Node>)

  datatype Step =
    | Commit(op: Op)
    | Apply(n: nat)
    | Take(n: nat, entries: seq<Entry>)
    | Crash(n: nat)
    | Receive(n: nat, from: nat)
    | RunRestore(n: nat, upTo: nat)

  function LogView(log: seq<Op>): View {
    FoldOps(map[], log)
  }

  function SnapView(snap: Snapshot): View {
    ViewOf(snap.data)
  }

  function NodeView(node: Node): View {
    ViewOf(node.db.data)
  }

  /**
    What outlives a restore and a replay up to `high`: the keys of the view that
    the snapshot lacks and that the log does not write in between.
   */
  ghost function LeftBehind(view: View, snap: Snapshot, log: seq<Op>, high: nat): set<Key>
    requires snap.index <= high <= |log|
  {
    set k | k in view && k !in SnapView(snap) && !Touches(log[snap.index..high], k)
  }

  /** The key that an operation writes. */
  function Writes(op: Op): set<Key> {
    if op.OpInvalid? then {} else {op.key}
  }

  /** The positions of a snapshot lie in the log: so they do in every reachable cluster. */
  predicate InLog(snap: Snapshot, high: nat, log: seq<Op>) {
    snap.index <= high <= |log|
  }

  ghost predicate Enabled(c: Cluster, step: Step) {
    match step
    case Commit(_) => true
    case Apply(n) => n < |c.nodes| && c.nodes[n].up && c.nodes[n].applied < |c.log|
    case Take(n, entries) => n < |c.nodes| && c.nodes[n].up && IsListing(c.nodes[n].db.data, "", entries)
    case Crash(n) => n < |c.nodes|
    case Receive(n, from) =>
      && n < |c.nodes| && from < |c.nodes|
      && InLog(c.nodes[from].snap, Max(c.nodes[n].high, c.nodes[from].snap.high), c.log)
    case RunRestore(n, upTo) => n < |c.nodes| && !c.nodes[n].up && upTo <= |c.nodes[n].snap.entries|
  }

  /** One step; a restore that stops before its last entry leaves the node down. */
  ghost function NextNode(c: Cluster, step: Step): Node
    requires Enabled(c, step) && !step.Commit?
  {
    var node := c.nodes[step.n];
    match step
    case Apply(_) =>
      node.(db := ApplyOp(node.db, c.log[node.applied]),
            applied := node.applied + 1,
            high := Max(node.high, node.applied + 1),
            stale := node.stale - Writes(c.log[node.applied]))
    case Take(_, entries) =>
      node.(snap := Snapshot(entries, node.db.data, node.applied, node.high, node.stale))
    case Crash(_) => node.(up := false, stale := node.stale + node.snap.stale)
    case Receive(_, from) =>
      var snap := c.nodes[from].snap;
      var high := Max(node.high, snap.high);
      node.(snap := snap, high := high, up := false,
            stale := snap.stale + LeftBehind(NodeView(node), snap, c.log, high))
    case RunRestore(_, upTo) =>
      node.(db := RestoreDb(node.db, node.snap.entries[..upTo]),
            applied := node.snap.index,
            up := upTo == |node.snap.entries|)
  }

  ghost function Next(c: Cluster, step: Step): Cluster
    requires Enabled(c, step)
  {
    if step.Commit? then c.(log := c.log + [step.op])
    else c.(nodes := c.nodes[step.n := NextNode(c, step)])
  }

  /** Every step of the run is enabled where it is taken. */
  ghost predicate Legal(c: Cluster, steps: seq<Step>)
    decreases |steps|, 0
  {
    steps == [] ||
    (Legal(c, steps[..|steps| - 1]) && Enabled(Run(c, steps[..|steps| - 1]), steps[|steps| - 1]))
  }

  ghost function Run(c: Cluster, steps: seq<Step>): Cluster
    requires Legal(c, steps)
    decreases |steps|, 1
  {
    if steps == [] then c else Next(Run(c, steps[..|steps| - 1]), steps[|steps| - 1])
  }

  ghost predicate Fresh(c: Cluster) {
    c.log == [] && forall i | 0 <= i < |c.nodes| :: c.nodes[i] == NEW_NODE
  }

  /** The operations committed, in order. */
  function Committed(steps: seq<Step>): seq<Op> {
    if steps == [] then []
    else Committed(steps[..|steps| - 1]) + if steps[|steps| - 1].Commit? then [steps[|steps| - 1].op] else []
  }

  /** The log is what was committed, whatever the nodes do. */
  lemma {:induction false} LogIsCommitted(c: Cluster, steps: seq<Step>)
    requires Legal(c, steps)
    ensures Run(c, steps).log == c.log + Committed(steps) && |Run(c, steps).nodes| == |c.nodes|
  {
    if steps != [] {
      LogIsCommitted(c, steps[..|steps| - 1]);
    }
  }

  // ----- The invariant -----

  /** Replaying the log from `at` up to `high` over this view ends in the view of the log. */
  ghost predicate CatchesUp(view: View, log: seq<Op>, at: nat, high: nat) {
    at <= high <= |log| && FoldOps(view, log[at..high]) == LogView(log[..high])
  }

  /** The same for every key but the stale ones. */
  ghost predicate CatchesUpExcept(view: View, log: seq<Op>, at: nat, high: nat, stale: set<Key>) {
    at <= high <= |log| &&
    forall k | k !in stale :: Lookup(FoldOps(view, log[at..high]), k) == Lookup(LogView(log[..high]), k)
  }

  /**
    The stale keys are no more than that: one that the rest of the log does not
    write is shown by the view and not by the log.
   */
  ghost predicate StaleAreStrays(view: View, log: seq<Op>, at: nat, high: nat, stale: set<Key>) {
    at <= high <= |log| &&
    forall k | k in stale && !Touches(log[at..high], k) :: k in view && k !in LogView(log[..high])
  }

  ghost predicate SnapshotSound(snap: Snapshot, log: seq<Op>) {
    && KeysAgree(snap.data)
    && IsListing(snap.data, "", snap.entries)
    && CatchesUpExcept(SnapView(snap), log, snap.index, snap.high, snap.stale)
    && StaleAreStrays(SnapView(snap), log, snap.index, snap.high, snap.stale)
  }

  ghost predicate NodeSound(node: Node, log: seq<Op>) {
    && CountersSound(node.db)
    && SnapshotSound(node.snap, log)
    && node.snap.high <= node.high <= |log|
    && if node.up then
         && node.snap.index <= node.applied
         && CatchesUpExcept(NodeView(node), log, node.applied, node.high, node.stale)
         && StaleAreStrays(NodeView(node), log, node.applied, node.high, node.stale)
       else
         && node.snap.stale + LeftBehind(NodeView(node), node.snap, log, node.high) <= node.stale
         && StaleAreStrays(NodeView(node) + SnapView(node.snap), log, node.snap.index, node.high, node.stale)
  }

  ghost predicate ClusterSound(c: Cluster) {
    forall i | 0 <= i < |c.nodes| :: NodeSound(c.nodes[i], c.log)
  }

  lemma LogViewSplit(log: seq<Op>, i: nat, j: nat)
    requires i <= j <= |log|
    ensures LogView(log[..j]) == FoldOps(LogView(log[..i]), log[i..j])
  {
    assert log[..j] == log[..i] + log[i..j];
    FoldConcat(map[], log[..i], log[i..j]);
  }

  /** What catches up with one position catches up with every later one. */
  lemma CatchesUpFurther(view: View, log: seq<Op>, at: nat, high: nat, further: nat, stale: set<Key>)
    requires CatchesUpExcept(view, log, at, high, stale) && high <= further <= |log|
    ensures CatchesUpExcept(view, log, at, further, stale)
  {
    var rest := log[high..further];
    assert log[at..further] == log[at..high] + rest;
    FoldConcat(view, log[at..high], rest);
    LogViewSplit(log, high, further);
    forall k | k !in stale
      ensures Lookup(FoldOps(view, log[at..further]), k) == Lookup(LogView(log[..further]), k)
    {
      FoldAt(FoldOps(view, log[at..high]), LogView(log[..high]), rest, k);
      FoldAt(LogView(log[..high]), LogView(log[..high]), rest, k);
    }
  }

  lemma TouchesInParts(log: seq<Op>, a: nat, b: nat, c: nat, k: Key)
    requires a <= b <= c <= |log|
    ensures Touches(log[a..c], k) <==> Touches(log[a..b], k) || Touches(log[b..c], k)
  {
    if Touches(log[a..c], k) {
      var j :| 0 <= j < c - a && OpOn(log[a..c][j], k);
      if j < b - a {
        assert OpOn(log[a..b][j], k);
      } else {
        assert OpOn(log[b..c][j - (b - a)], k);
      }
    }
    if Touches(log[a..b], k) {
      var j :| 0 <= j < b - a && OpOn(log[a..b][j], k);
      assert OpOn(log[a..c][j], k);
    }
    if Touches(log[b..c], k) {
      var j :| 0 <= j < c - b && OpOn(log[b..c][j], k);
      assert OpOn(log[a..c][b - a + j], k);
    }
  }

  lemma LogViewKeeps(log: seq<Op>, i: nat, j: nat, k: Key)
    requires i <= j <= |log| && !Touches(log[i..j], k)
    ensures Lookup(LogView(log[..j]), k) == Lookup(LogView(log[..i]), k)
  {
    LogViewSplit(log, i, j);
    FoldAt(LogView(log[..i]), LogView(log[..i]), log[i..j], k);
  }

  lemma StraysFurther(view: View, log: seq<Op>, at: nat, high: nat, further: nat, stale: set<Key>)
    requires StaleAreStrays(view, log, at, high, stale) && high <= further <= |log|
    ensures StaleAreStrays(view, log, at, further, stale)
  {
    forall k | k in stale && !Touches(log[at..further], k)
      ensures k in view && k !in LogView(log[..further])
    {
      TouchesInParts(log, at, high, further, k);
      LogViewKeeps(log, high, further, k);
    }
  }

  /** A key that is left behind is not in the view of the log. */
  lemma LeftBehindStrays(view: View, snap: Snapshot, log: seq<Op>, high: nat, k: Key)
    requires SnapshotSound(snap, log) && snap.high <= high <= |log|
    requires k in LeftBehind(view, snap, log, high)
    ensures k !in LogView(log[..high])
  {
    TouchesInParts(log, snap.index, snap.high, high, k);
    FoldAt(SnapView(snap), SnapView(snap), log[snap.index..snap.high], k);
    LogViewKeeps(log, snap.high, high, k);
  }

  /** After a restore, what is stale in the snapshot and what is left behind are strays. */
  lemma RestoredStrays(view: View, snap: Snapshot, log: seq<Op>, high: nat)
    requires SnapshotSound(snap, log) && snap.high <= high <= |log|
    ensures StaleAreStrays(view + SnapView(snap), log, snap.index, high,
                           snap.stale + LeftBehind(view, snap, log, high))
  {
    StraysFurther(SnapView(snap), log, snap.index, snap.high, high, snap.stale);
    forall k | k in LeftBehind(view, snap, log, high)
      ensures k !in LogView(log[..high])
    {
      LeftBehindStrays(view, snap, log, high, k);
    }
  }

  /**
    The exact condition for a restore over a live file: for every position
    `high` from the snapshot's own mark on, replaying the log up to `high`
    over the restored file gives the log's view if and only if no key that the
    file holds and the snapshot lacks is left behind, and every key that is
    stale in the snapshot itself is written in between.
   */
  lemma RestoreCatchesUpIff(view: View, snap: Snapshot, log: seq<Op>, high: nat)
    requires SnapshotSound(snap, log) && snap.high <= high <= |log|
    ensures CatchesUp(view + SnapView(snap), log, snap.index, high)
            <==> LeftBehind(view, snap, log, high) == {}
                 && forall k | k in snap.stale :: Touches(log[snap.index..high], k)
  {
    var rest := log[snap.index..high];
    var stale := snap.stale + LeftBehind(view, snap, log, high);
    RestoredCatchesUp(view, snap, log, high, stale);
    RestoredStrays(view, snap, log, high);
    CatchesUpIff(view + SnapView(snap), log, snap.index, high, stale);
    if forall k | k in stale :: Touches(rest, k) {
      assert forall k | k in LeftBehind(view, snap, log, high) :: k in stale;
      assert LeftBehind(view, snap, log, high) == {};
    }
  }

  /** A view with exactly these stale keys catches up if and only if the rest of the log writes them all. */
  lemma CatchesUpIff(view: View, log: seq<Op>, at: nat, high: nat, stale: set<Key>)
    requires CatchesUpExcept(view, log, at, high, stale) && StaleAreStrays(view, log, at, high, stale)
    ensures CatchesUp(view, log, at, high) <==> forall k | k in stale :: Touches(log[at..high], k)
  {
    var rest := log[at..high];
    LogViewSplit(log, at, high);
    forall k
      ensures Touches(rest, k) ==> Lookup(FoldOps(view, rest), k) == Lookup(LogView(log[..high]), k)
      ensures k in stale && !Touches(rest, k) ==> Lookup(FoldOps(view, rest), k) != Lookup(LogView(log[..high]), k)
    {
      FoldAt(view, LogView(log[..at]), rest, k);
    }
    if forall k | k in stale :: Touches(rest, k) {
      SameLookups(FoldOps(view, rest), LogView(log[..high]));
    }
  }

  /** The plain condition on keys is a special case: it leaves nothing behind. */
  lemma KeysInSnapshotSuffice(view: View, snap: Snapshot, log: seq<Op>, high: nat)
    requires snap.index <= high <= |log| && view.Keys <= snap.data.Keys
    ensures LeftBehind(view, snap, log, high) == {}
  {
  }

  // ----- Every step keeps the invariant -----

  lemma CommitKeepsSound(node: Node, log: seq<Op>, op: Op)
    requires NodeSound(node, log)
    ensures NodeSound(node, log + [op])
  {
    var log' := log + [op];
    SliceUnchanged(log, op, node.snap.index, node.snap.high);
    SliceUnchanged(log, op, node.snap.index, node.high);
    if node.up {
      SliceUnchanged(log, op, node.applied, node.high);
    }
  }

  lemma SliceUnchanged(log: seq<Op>, op: Op, i: nat, j: nat)
    requires i <= j <= |log|
    ensures (log + [op])[i..j] == log[i..j] && (log + [op])[..j] == log[..j]
  {
  }

  lemma ApplyCatchesUp(view: View, log: seq<Op>, i: nat, high: nat, stale: set<Key>)
    requires CatchesUpExcept(view, log, i, high, stale) && i < |log|
    ensures CatchesUpExcept(ApplyView(view, log[i]), log, i + 1, Max(high, i + 1), stale - Writes(log[i]))
  {
    var further := Max(high, i + 1);
    var rest := log[i..further];
    CatchesUpFurther(view, log, i, high, further, stale);
    assert rest == [log[i]] + log[i + 1..further];
    FoldConcat(view, [log[i]], log[i + 1..further]);
    FoldOne(view, log[i]);
    forall k | k in Writes(log[i])
      ensures Lookup(FoldOps(view, rest), k) == Lookup(LogView(log[..further]), k)
    {
      assert OpOn(rest[0], k);
      FoldAt(view, LogView(log[..i]), rest, k);
      LogViewSplit(log, i, further);
    }
  }

  lemma ApplyKeepsStrays(view: View, log: seq<Op>, i: nat, high: nat, stale: set<Key>)
    requires StaleAreStrays(view, log, i, high, stale) && i < |log|
    ensures StaleAreStrays(ApplyView(view, log[i]), log, i + 1, Max(high, i + 1), stale - Writes(log[i]))
  {
    var further := Max(high, i + 1);
    StraysFurther(view, log, i, high, further, stale);
    forall k | k in stale - Writes(log[i]) && !Touches(log[i + 1..further], k)
      ensures k in ApplyView(view, log[i]) && k !in LogView(log[..further])
    {
      TouchesInParts(log, i, i + 1, further, k);
    }
  }

  lemma ApplyKeepsSound(node: Node, log: seq<Op>)
    requires NodeSound(node, log) && node.up && node.applied < |log|
    ensures NodeSound(node.(db := ApplyOp(node.db, log[node.applied]), applied := node.applied + 1,
                            high := Max(node.high, node.applied + 1),
                            stale := node.stale - Writes(log[node.applied])), log)
  {
    var op := log[node.applied];
    ApplyCommutes(node.db, op);
    ApplyCatchesUp(NodeView(node), log, node.applied, node.high, node.stale);
    ApplyKeepsStrays(NodeView(node), log, node.applied, node.high, node.stale);
    CountersAfterOne(node.db, op);
  }

  lemma CountersAfterOne(db: Db, op: Op)
    requires CountersSound(db)
    ensures CountersSound(ApplyOp(db, op))
  {
    CountersStaySound(db, [op]);
    assert ApplyAll(db, []) == db && [op][..0] == [];
  }

  /** A node that goes down leaves nothing behind that was not stale already: it was caught up on every other key. */
  lemma CrashLeavesNothing(node: Node, log: seq<Op>)
    requires NodeSound(node, log) && node.up
    ensures LeftBehind(NodeView(node), node.snap, log, node.high) <= node.stale + node.snap.stale
  {
    var view, snap := NodeView(node), node.snap;
    CatchesUpFurther(SnapView(snap), log, snap.index, snap.high, node.high, snap.stale);
    forall k | k in LeftBehind(view, snap, log, node.high)
      ensures k in node.stale + snap.stale
    {
      var long, short := log[snap.index..node.high], log[node.applied..node.high];
      FoldAt(view, view, short, k);
      FoldAt(SnapView(snap), view, long, k);
      if node.applied <= node.high {
        TouchesInParts(log, snap.index, node.applied, node.high, k);
      }
    }
  }

  lemma CrashKeepsStrays(node: Node, log: seq<Op>)
    requires NodeSound(node, log) && node.up
    ensures StaleAreStrays(NodeView(node) + SnapView(node.snap), log, node.snap.index, node.high,
                           node.stale + node.snap.stale)
  {
    var snap := node.snap;
    StraysFurther(SnapView(snap), log, snap.index, snap.high, node.high, snap.stale);
    forall k | k in node.stale && !Touches(log[snap.index..node.high], k)
      ensures k in NodeView(node) && k !in LogView(log[..node.high])
    {
      TouchesInParts(log, snap.index, node.applied, node.high, k);
    }
  }

  lemma CrashKeepsSound(node: Node, log: seq<Op>)
    requires NodeSound(node, log)
    ensures NodeSound(node.(up := false, stale := node.stale + node.snap.stale), log)
  {
    if node.up {
      CrashLeavesNothing(node, log);
      CrashKeepsStrays(node, log);
    } else {
      assert node.stale + node.snap.stale == node.stale;
    }
  }

  /** Restoring a snapshot over a view catches up on every key that is neither stale in the snapshot nor left behind. */
  lemma RestoredCatchesUp(view: View, snap: Snapshot, log: seq<Op>, high: nat, stale: set<Key>)
    requires SnapshotSound(snap, log) && snap.high <= high <= |log|
    requires snap.stale + LeftBehind(view, snap, log, high) <= stale
    ensures CatchesUpExcept(view + SnapView(snap), log, snap.index, high, stale)
  {
    CatchesUpFurther(SnapView(snap), log, snap.index, snap.high, high, snap.stale);
    var rest := log[snap.index..high];
    forall k | k !in stale
      ensures Lookup(FoldOps(view + SnapView(snap), rest), k) == Lookup(LogView(log[..high]), k)
    {
      assert k !in LeftBehind(view, snap, log, high);
      FoldAt(view + SnapView(snap), SnapView(snap), rest, k);
      FoldAt(SnapView(snap), SnapView(snap), rest, k);
    }
  }

  lemma RestoreKeepsSound(node: Node, log: seq<Op>, upTo: nat)
    requires NodeSound(node, log) && !node.up && upTo <= |node.snap.entries|
    ensures NodeSound(node.(db := RestoreDb(node.db, node.snap.entries[..upTo]),
                            applied := node.snap.index,
                            up := upTo == |node.snap.entries|), log)
  {
    var snap := node.snap;
    var part := snap.entries[..upTo];
    var after := RestoreDb(node.db, part);
    CountersStaySound(node.db, PutsOf(part));
    if upTo == |snap.entries| {
      assert part == snap.entries;
      RestoreExactIff(node.db, snap.data, part);
      RestoredCatchesUp(NodeView(node), snap, log, node.high, node.stale);
    } else {
      FullListingMentions(snap.data, snap.entries);
      forall k | k in after.data && k !in snap.data
        ensures k in node.db.data
      {
        RestoredLookup(node.db, snap.data, part, k);
      }
      assert LeftBehind(ViewOf(after.data), snap, log, node.high) <= LeftBehind(NodeView(node), snap, log, node.high);
      forall k | k in node.db.data
        ensures k in after.data
      {
        RestoredLookup(node.db, snap.data, part, k);
      }
    }
  }

  lemma ReceiveKeepsSound(node: Node, snap: Snapshot, log: seq<Op>)
    requires NodeSound(node, log) && SnapshotSound(snap, log)
    ensures var high := Max(node.high, snap.high);
            && InLog(snap, high, log)
            && NodeSound(node.(snap := snap, high := high, up := false,
                               stale := snap.stale + LeftBehind(NodeView(node), snap, log, high)), log)
  {
    RestoredStrays(NodeView(node), snap, log, Max(node.high, snap.high));
  }

  lemma StepKeepsSound(c: Cluster, step: Step)
    requires ClusterSound(c) && Enabled(c, step)
    ensures ClusterSound(Next(c, step))
  {
    if step.Commit? {
      forall i | 0 <= i < |c.nodes|
        ensures NodeSound(c.nodes[i], c.log + [step.op])
      {
        CommitKeepsSound(c.nodes[i], c.log, step.op);
      }
    } else {
      var node := c.nodes[step.n];
      match step
      case Apply(_) => ApplyKeepsSound(node, c.log);
      case Take(_, entries) =>
      case Crash(_) => CrashKeepsSound(node, c.log);
      case Receive(_, from) =>
        assert NodeSound(c.nodes[from], c.log);
        ReceiveKeepsSound(node, c.nodes[from].snap, c.log);
      case RunRestore(_, upTo) => RestoreKeepsSound(node, c.log, upTo);
    }
  }

  lemma {:induction false} RunKeepsSound(c: Cluster, steps: seq<Step>)
    requires Fresh(c) && Legal(c, steps)
    ensures ClusterSound(Run(c, steps))
  {
    if steps == [] {
      CountersSoundFromEmpty([]);
    } else {
      RunKeepsSound(c, steps[..|steps| - 1]);
      StepKeepsSound(Run(c, steps[..|steps| - 1]), steps[|steps| - 1]);
    }
  }

  /**
    State machine safety: in every run, crashes in the middle of a restore and
    received snapshots included, a running node whose applied index has reached
    its high-water mark disagrees with the log up to that index on exactly its
    stale keys. It shows those, and the log does not: all that restores can do
    is bring deleted keys back. Its entries have sound version counters.
   */
  lemma CaughtUpNodesAgreeWithLog(c: Cluster, steps: seq<Step>, n: nat)
    requires Fresh(c) && Legal(c, steps) && n < |Run(c, steps).nodes|
    ensures var c' := Run(c, steps);
            var node := c'.nodes[n];
            && CountersSound(node.db)
            && (node.up && node.applied == node.high ==>
                  && node.applied <= |c'.log|
                  && var view := LogView(c'.log[..node.applied]);
                     && (forall k :: k in node.stale <==> Lookup(NodeView(node), k) != Lookup(view, k))
                     && NodeView(node).Keys == view.Keys + node.stale && view.Keys !! node.stale
                     && (NodeView(node) == view <==> node.stale == {}))
  {
    RunKeepsSound(c, steps);
    var c' := Run(c, steps);
    var node := c'.nodes[n];
    assert NodeSound(node, c'.log);
    if node.up && node.applied == node.high {
      DisagreesExactly(node, c'.log);
    }
  }

  lemma DisagreesExactly(node: Node, log: seq<Op>)
    requires NodeSound(node, log) && node.up && node.applied == node.high
    ensures var view := LogView(log[..node.applied]);
            && (forall k :: k in node.stale <==> Lookup(NodeView(node), k) != Lookup(view, k))
            && NodeView(node).Keys == view.Keys + node.stale && view.Keys !! node.stale
            && (NodeView(node) == view <==> node.stale == {})
  {
    var view := LogView(log[..node.applied]);
    assert log[node.applied..node.high] == [];
    forall k
      ensures k in node.stale <==> Lookup(NodeView(node), k) != Lookup(view, k)
      ensures k in node.stale ==> k in NodeView(node) && k !in view
      ensures k !in node.stale ==> (k in NodeView(node) <==> k in view)
    {
      assert k in NodeView(node) <==> Lookup(NodeView(node), k).Some?;
      assert k in view <==> Lookup(view, k).Some?;
    }
    if node.stale == {} {
      SameLookups(NodeView(node), view);
    }
  }

  /** Two nodes caught up with the same position hold the same value under every key that is stale in neither. */
  lemma CaughtUpNodesAgree(c: Cluster, steps: seq<Step>, m: nat, n: nat)
    requires Fresh(c) && Legal(c, steps) && m < |Run(c, steps).nodes| && n < |Run(c, steps).nodes|
    ensures var a, b := Run(c, steps).nodes[m], Run(c, steps).nodes[n];
            a.up && b.up && a.applied == a.high == b.applied == b.high ==>
              && (forall k | k !in a.stale && k !in b.stale :: Lookup(NodeView(a), k) == Lookup(NodeView(b), k))
              && (a.stale == b.stale == {} ==> NodeView(a) == NodeView(b))
  {
    CaughtUpNodesAgreeWithLog(c, steps, m);
    CaughtUpNodesAgreeWithLog(c, steps, n);
  }

  /** A received snapshot that leaves nothing behind. */
  ghost predicate CleanStep(c: Cluster, step: Step)
    requires Enabled(c, step)
  {
    step.Receive? ==>
      var snap := c.nodes[step.from].snap;
      LeftBehind(NodeView(c.nodes[step.n]), snap, c.log, Max(c.nodes[step.n].high, snap.high)) == {}
  }

  ghost predicate CleanRun(c: Cluster, steps: seq<Step>)
    requires Legal(c, steps)
  {
    steps == [] ||
    (CleanRun(c, steps[..|steps| - 1]) && CleanStep(Run(c, steps[..|steps| - 1]), steps[|steps| - 1]))
  }

  ghost predicate NoStaleKeys(c: Cluster) {
    forall i | 0 <= i < |c.nodes| :: c.nodes[i].stale == c.nodes[i].snap.stale == {}
  }

  lemma CleanStepKeepsNone(c: Cluster, step: Step)
    requires NoStaleKeys(c) && Enabled(c, step) && CleanStep(c, step)
    ensures NoStaleKeys(Next(c, step))
  {
    if !step.Commit? {
      var node := NextNode(c, step);
      assert c.nodes[step.n].stale == {};
      assert node.stale == {};
    }
  }

  /** In a run whose receives leave nothing behind, and so in one without receives, no node ever has a stale key. */
  lemma {:induction false} NothingStale(c: Cluster, steps: seq<Step>)
    requires Fresh(c) && Legal(c, steps) && CleanRun(c, steps)
    ensures NoStaleKeys(Run(c, steps))
  {
    if steps != [] {
      NothingStale(c, steps[..|steps| - 1]);
      CleanStepKeepsNone(Run(c, steps[..|steps| - 1]), steps[|steps| - 1]);
    }
  }

  /** So in such a run a caught-up node shows exactly the view of the log. */
  lemma CleanRunsAgreeWithLog(c: Cluster, steps: seq<Step>, n: nat)
    requires Fresh(c) && Legal(c, steps) && CleanRun(c, steps) && n < |Run(c, steps).nodes|
    ensures var c' := Run(c, steps);
            var node := c'.nodes[n];
            node.up && node.applied == node.high ==>
              node.applied <= |c'.log| && NodeView(node) == LogView(c'.log[..node.applied])
  {
    NothingStale(c, steps);
    CaughtUpNodesAgreeWithLog(c, steps, n);
  }

  // ----- What does not hold -----

  /**
    A follower that has the put but not the delete of a key, and restores a
    snapshot taken after the delete, shows the deleted key for as long as no
    later operation touches it: Restore does not replace the state.
   */
  lemma LaggingFollowerResurrects(key: Key, value: Value, tail: seq<Op>)
    requires !Touches(tail, key)
    ensures var log := [OpPut(key, value), OpDelete(key)] + tail;
            var snap := Snapshot([], map[], 2, 2, {});
            var restored := RestoreDb(ApplyOp(EMPTY_DB, log[0]), snap.entries);
            && SnapshotSound(snap, log)
            && key in FoldOps(ViewOf(restored.data), log[2..])
            && key !in LogView(log)
  {
    var log := [OpPut(key, value), OpDelete(key)] + tail;
    var db := ApplyOp(EMPTY_DB, log[0]);
    assert log[..2] == [OpPut(key, value), OpDelete(key)] && log[2..] == tail;
    FoldOne(map[], OpPut(key, value));
    assert log[..2][..1] == [OpPut(key, value)];
    assert LogView(log[..2]) == map[key := value] - {key} == map[];
    assert log[2..2] == [];
    FoldConcat(map[], log[..2], tail);
    assert log == log[..2] + tail;
    FoldAt(ViewOf(db.data), map[], tail, key);
    FoldAt(map[], map[], tail, key);
  }

  lemma OneStepMore(c: Cluster, steps: seq<Step>, step: Step) returns (more: seq<Step>)
    requires Legal(c, steps) && Enabled(Run(c, steps), step)
    ensures more == steps + [step]
    ensures Legal(c, more) && Run(c, more) == Next(Run(c, steps), step)
  {
    more := steps + [step];
    assert more[..|more| - 1] == steps;
  }

  /** A follower that has applied only the put, and a peer with a snapshot taken after the delete. */
  lemma SnapshotAfterDelete(put: Op, del: Op) returns (steps: seq<Step>)
    requires put.OpPut? && del == OpDelete(put.key)
    ensures var c := Cluster([], [NEW_NODE, NEW_NODE]);
            var once := ApplyOp(EMPTY_DB, put);
            && Legal(c, steps)
            && Run(c, steps) == Cluster([put, del], [Node(once, 1, 1, NO_SNAPSHOT, true, {}),
                                                     Node(Db(map[], 2), 2, 2, Snapshot([], map[], 2, 2, {}), true, {})])
  {
    var c := Cluster([], [NEW_NODE, NEW_NODE]);
    var once := ApplyOp(EMPTY_DB, put);
    var behind := Node(once, 1, 1, NO_SNAPSHOT, true, {});
    var ahead := Node(Db(map[], 2), 2, 2, NO_SNAPSHOT, true, {});
    var none: set<Key> := {};
    assert none - Writes(put) == none && none - Writes(del) == none;
    assert ApplyOp(once, del) == Db(map[], 2);
    steps := [];
    steps := OneStepMore(c, steps, Commit(put));
    steps := OneStepMore(c, steps, Commit(del));
    assert Run(c, steps) == Cluster([put, del], [NEW_NODE, NEW_NODE]);
    steps := OneStepMore(c, steps, Apply(0));
    assert Run(c, steps) == Cluster([put, del], [behind, NEW_NODE]);
    steps := OneStepMore(c, steps, Apply(1));
    assert Run(c, steps) == Cluster([put, del], [behind, behind]);
    steps := OneStepMore(c, steps, Apply(1));
    assert Run(c, steps) == Cluster([put, del], [behind, ahead]);
    steps := OneStepMore(c, steps, Take(1, []));
  }

  /** Such a run of the cluster: node 0 has caught up with the log and shows the key that the log has deleted. */
  lemma DeletedKeyReturns() returns (c: Cluster, steps: seq<Step>)
    ensures Fresh(c) && Legal(c, steps) && |Run(c, steps).nodes| == 2
    ensures var node := Run(c, steps).nodes[0];
            && node.up && node.applied == node.high == |Run(c, steps).log|
            && "a" in NodeView(node) && "a" !in LogView(Run(c, steps).log) && node.stale == {"a"}
  {
    c := Cluster([], [NEW_NODE, NEW_NODE]);
    var put, del := OpPut("a", "1"), OpDelete("a");
    var once := ApplyOp(EMPTY_DB, put);
    var snap := Snapshot([], map[], 2, 2, {});
    steps := SnapshotAfterDelete(put, del);
    NothingWrittenBetween([put, del], ViewOf(once.data), snap);
    steps := OneStepMore(c, steps, Receive(0, 1));
    assert Run(c, steps).nodes[0] == Node(once, 1, 2, snap, false, {"a"});
    assert RestoreDb(once, []) == once;
    steps := OneStepMore(c, steps, RunRestore(0, 0));
    assert Run(c, steps).log == [put, del];
    LaggingFollowerResurrects("a", "1", []);
    assert [put, del] + [] == [put, del];
  }

  lemma NothingWrittenBetween(log: seq<Op>, view: View, snap: Snapshot)
    requires snap.data == map[] && snap.index == |log|
    ensures LeftBehind(view, snap, log, |log|) == view.Keys
  {
    assert log[|log|..|log|] == [];
  }

  /** Agreement is on keys and values only: here a node restarts, re-applies the log, and its revision runs ahead. */
  lemma RevisionsDiverge() returns (c: Cluster, steps: seq<Step>)
    ensures Fresh(c) && Legal(c, steps) && |Run(c, steps).nodes| == 2
    ensures var a, b := Run(c, steps).nodes[0], Run(c, steps).nodes[1];
            && a.up && b.up && a.applied == a.high == b.applied == b.high
            && NodeView(a) == NodeView(b) && a.db.rev == 2 && b.db.rev == 1
  {
    c := Cluster([], [NEW_NODE, NEW_NODE]);
    var op := OpPut("a", "1");
    var once := ApplyOp(EMPTY_DB, op);
    var done := Node(once, 1, 1, NO_SNAPSHOT, true, {});
    var none: set<Key> := {};
    assert none - Writes(op) == none && none + none == none;
    steps := [];
    steps := OneStepMore(c, steps, Commit(op));
    steps := OneStepMore(c, steps, Apply(0));
    steps := OneStepMore(c, steps, Apply(1));
    assert Run(c, steps) == Cluster([op], [done, done]);
    steps := OneStepMore(c, steps, Crash(0));
    assert Run(c, steps) == Cluster([op], [done.(up := false), done]);
    assert RestoreDb(once, []) == once;
    steps := OneStepMore(c, steps, RunRestore(0, 0));
    assert Run(c, steps) == Cluster([op], [done.(applied := 0), done]);
    steps := OneStepMore(c, steps, Apply(0));
  }
}
