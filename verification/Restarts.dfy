/** What a restart over its own file does to the revision of a node (raft/node.go:346-367, store/bolt.go:87-126). */
module Restarts {
  import opened Wrappers
  import opened Entries
  import opened Replay
  import opened History
  import opened Restores
  import opened Clusters

  // ----- How operations move the revision -----

  /** The operations of a sequence that take effect: each records one event. */
  function Effects(db: Db, ops: seq<Op>): nat {
    |RecordAll(Ledger(db, []), ops).events|
  }

  predicate NoEffect(db: Db, op: Op) {
    op.OpInvalid? || (op.OpDelete? && op.key !in db.data)
  }

  lemma {:induction false} RevisionCountsEffects(db: Db, ops: seq<Op>)
    ensures ApplyAll(db, ops).rev == db.rev + Effects(db, ops)
    ensures RecordAll(Ledger(db, []), ops).db == ApplyAll(db, ops)
  {
    if ops != [] {
      RevisionCountsEffects(db, ops[..|ops| - 1]);
    }
  }

  lemma {:induction false} ApplyAllConcat(db: Db, a: seq<Op>, b: seq<Op>)
    ensures ApplyAll(db, a + b) == ApplyAll(ApplyAll(db, a), b)
  {
    if b == [] {
      assert a + b == a;
    } else {
      assert (a + b)[..|a + b| - 1] == a + b[..|b| - 1];
      ApplyAllConcat(db, a, b[..|b| - 1]);
    }
  }

  /** Which operations take effect depends on the keys of the store only. */
  lemma {:induction false} EffectsByKeys(db: Db, other: Db, ops: seq<Op>)
    requires db.data.Keys == other.data.Keys
    ensures ApplyAll(db, ops).data.Keys == ApplyAll(other, ops).data.Keys
    ensures ApplyAll(db, ops).rev - db.rev == ApplyAll(other, ops).rev - other.rev
  {
    if ops != [] {
      EffectsByKeys(db, other, ops[..|ops| - 1]);
      var x, y := ApplyAll(db, ops[..|ops| - 1]), ApplyAll(other, ops[..|ops| - 1]);
      SameKeysStep(x, y, ops[|ops| - 1]);
    }
  }

  lemma SameKeysStep(x: Db, y: Db, op: Op)
    requires x.data.Keys == y.data.Keys
    ensures ApplyOp(x, op).data.Keys == ApplyOp(y, op).data.Keys
    ensures ApplyOp(x, op).rev - x.rev == ApplyOp(y, op).rev - y.rev
  {
    if op.OpPut? {
      assert ApplyOp(x, op).data.Keys == x.data.Keys + {op.key} == ApplyOp(y, op).data.Keys;
    } else if op.OpDelete? {
      assert op.key in x.data <==> op.key in y.data.Keys;
      assert ApplyOp(x, op).data.Keys == x.data.Keys - {op.key} == ApplyOp(y, op).data.Keys;
    }
  }

  /** A sequence moves nothing exactly when it has no put and deletes only absent keys. */
  lemma {:induction false} NoEffectIff(db: Db, ops: seq<Op>)
    ensures db.rev <= ApplyAll(db, ops).rev
    ensures ApplyAll(db, ops).rev == db.rev <==> forall i | 0 <= i < |ops| :: NoEffect(db, ops[i])
    ensures ApplyAll(db, ops).rev == db.rev ==> ApplyAll(db, ops) == db
  {
    if ops != [] {
      var init := ops[..|ops| - 1];
      NoEffectIff(db, init);
      assert forall i | 0 <= i < |init| :: init[i] == ops[i];
    }
  }

  // ----- A node that only applies -----

  /** The steps of this node are applies and snapshots: it neither stops nor receives. */
  ghost predicate OnlyApplies(steps: seq<Step>, n: nat) {
    forall i | 0 <= i < |steps| ::
      steps[i].Commit? || steps[i].n != n || steps[i].Apply? || steps[i].Take?
  }

  /** A node that has never stopped holds the store that the log makes of an empty one. */
  ghost predicate Unbroken(node: Node, log: seq<Op>) {
    && node.applied == node.high <= |log|
    && node.db == ApplyAll(EMPTY_DB, log[..node.applied])
    && node.stale == node.snap.stale == {}
  }

  lemma {:induction false} NeverStoppedIsUnbroken(c: Cluster, steps: seq<Step>, n: nat)
    requires Fresh(c) && Legal(c, steps) && OnlyApplies(steps, n) && n < |c.nodes|
    ensures var c' := Run(c, steps);
            n < |c'.nodes| && c'.nodes[n].up && Unbroken(c'.nodes[n], c'.log)
  {
    if steps != [] {
      NeverStoppedIsUnbroken(c, steps[..|steps| - 1], n);
      StepKeepsUnbroken(Run(c, steps[..|steps| - 1]), steps[|steps| - 1], n);
    }
  }

  lemma StepKeepsUnbroken(c: Cluster, step: Step, n: nat)
    requires Enabled(c, step) && n < |c.nodes| && c.nodes[n].up && Unbroken(c.nodes[n], c.log)
    requires step.Commit? || step.n != n || step.Apply? || step.Take?
    ensures var c' := Next(c, step);
            n < |c'.nodes| && c'.nodes[n].up && Unbroken(c'.nodes[n], c'.log)
  {
    var at := c.nodes[n].applied;
    if step.Commit? {
      SliceUnchanged(c.log, step.op, 0, at);
    } else if step.n == n && step.Apply? {
      assert c.log[..at + 1][..at] == c.log[..at];
      var none: set<Key> := {};
      assert none - Writes(c.log[at]) == none;
    }
  }

  // ----- A node that restarts over its own file -----

  /** None of these steps makes the node install a received snapshot; it may stop, restore and take its own at will. */
  ghost predicate NeverReceives(steps: seq<Step>, n: nat) {
    forall i | 0 <= i < |steps| :: steps[i].Receive? ==> steps[i].n != n
  }

  /** Restoring the node's own snapshot over its file and applying the log again would show what it shows now. */
  ghost predicate Refreshes(node: Node, log: seq<Op>) {
    && node.snap.index <= node.applied <= |log|
    && FoldOps(NodeView(node) + SnapView(node.snap), log[node.snap.index..node.applied]) == NodeView(node)
  }

  ghost predicate OwnFile(node: Node, log: seq<Op>) {
    && NodeSound(node, log)
    && node.stale == node.snap.stale == {}
    && (node.up ==> Refreshes(node, log))
  }

  /** The revision that the node will have when it has caught up with its high-water mark. */
  ghost function Pending(node: Node, log: seq<Op>): nat
    requires NodeSound(node, log)
  {
    if node.up then ApplyAll(node.db, log[node.applied..node.high]).rev
    else ApplyAll(RestoreDb(node.db, node.snap.entries), log[node.snap.index..node.high]).rev
  }

  /** The revision that the log alone gives at a position. */
  function LogRev(log: seq<Op>, at: nat): nat
    requires at <= |log|
  {
    ApplyAll(EMPTY_DB, log[..at]).rev
  }

  /**
    What the restart that a crash brings about adds to the revision: one for
    each entry of the snapshot, and one for each operation up to where the node
    had been that takes effect again. A restore that stops early leaves what it
    has put already.
   */
  ghost function Gain(c: Cluster, step: Step, n: nat): nat
    requires ClusterSound(c) && Enabled(c, step)
  {
    if step.Crash? && step.n == n && c.nodes[n].up then
      var node := c.nodes[n];
      assert NodeSound(node, c.log);
      |node.snap.entries| + Effects(RestoreDb(node.db, node.snap.entries), c.log[node.snap.index..node.applied])
    else if step.RunRestore? && step.n == n && step.upTo < |c.nodes[n].snap.entries| then
      step.upTo
    else 0
  }

  ghost function TotalGain(c: Cluster, steps: seq<Step>, n: nat): nat
    requires Fresh(c) && Legal(c, steps)
  {
    if steps == [] then 0
    else
      var init := steps[..|steps| - 1];
      RunKeepsSound(c, init);
      TotalGain(c, init, n) + Gain(Run(c, init), steps[|steps| - 1], n)
  }

  /** The snapshot is empty and nothing that is applied again takes effect; an interrupted restore has put nothing. */
  ghost predicate GainsNothing(c: Cluster, step: Step, n: nat)
    requires Enabled(c, step)
  {
    && (step.Crash? && step.n == n && c.nodes[n].up ==>
          && c.nodes[n].snap.entries == []
          && forall i | c.nodes[n].snap.index <= i < c.nodes[n].applied && i < |c.log| ::
               NoEffect(c.nodes[n].db, c.log[i]))
    && (step.RunRestore? && step.n == n && step.upTo < |c.nodes[n].snap.entries| ==> step.upTo == 0)
  }

  ghost predicate EveryRestartGainsNothing(c: Cluster, steps: seq<Step>, n: nat)
    requires Legal(c, steps)
  {
    steps == [] ||
    (EveryRestartGainsNothing(c, steps[..|steps| - 1], n)
     && GainsNothing(Run(c, steps[..|steps| - 1]), steps[|steps| - 1], n))
  }

  /** A restart moves no revision exactly when it restores nothing and nothing that it re-applies takes effect. */
  lemma RestartMovesNothingIff(node: Node, log: seq<Op>)
    requires node.snap.index <= node.applied <= |log|
    ensures |node.snap.entries|
            + Effects(RestoreDb(node.db, node.snap.entries), log[node.snap.index..node.applied]) == 0
            <==> node.snap.entries == []
                 && forall i | node.snap.index <= i < node.applied && i < |log| :: NoEffect(node.db, log[i])
  {
    var ops := log[node.snap.index..node.applied];
    assert forall i | node.snap.index <= i < node.applied :: ops[i - node.snap.index] == log[i];
    if node.snap.entries == [] {
      assert RestoreDb(node.db, node.snap.entries) == node.db;
      NoEffectIff(node.db, ops);
      RevisionCountsEffects(node.db, ops);
    }
  }

  lemma GainsNothingIff(c: Cluster, step: Step, n: nat)
    requires ClusterSound(c) && Enabled(c, step)
    ensures Gain(c, step, n) == 0 <==> GainsNothing(c, step, n)
  {
    if step.Crash? && step.n == n && c.nodes[n].up {
      assert NodeSound(c.nodes[n], c.log);
      RestartMovesNothingIff(c.nodes[n], c.log);
    }
  }

  lemma {:induction false} TotalGainZeroIff(c: Cluster, steps: seq<Step>, n: nat)
    requires Fresh(c) && Legal(c, steps)
    ensures TotalGain(c, steps, n) == 0 <==> EveryRestartGainsNothing(c, steps, n)
  {
    if steps != [] {
      var init := steps[..|steps| - 1];
      TotalGainZeroIff(c, init, n);
      RunKeepsSound(c, init);
      GainsNothingIff(Run(c, init), steps[|steps| - 1], n);
    }
  }

  lemma {:induction false} NeverStoppedGainsNothing(c: Cluster, steps: seq<Step>, n: nat)
    requires Fresh(c) && Legal(c, steps) && OnlyApplies(steps, n)
    ensures TotalGain(c, steps, n) == 0
  {
    if steps != [] {
      NeverStoppedGainsNothing(c, steps[..|steps| - 1], n);
      assert steps[|steps| - 1].Commit? || steps[|steps| - 1].n != n
             || steps[|steps| - 1].Apply? || steps[|steps| - 1].Take?;
    }
  }

  lemma SameViewSameKeys(x: Db, y: Db)
    requires ViewOf(x.data) == ViewOf(y.data)
    ensures x.data.Keys == y.data.Keys
  {
    assert ViewOf(x.data).Keys == x.data.Keys && ViewOf(y.data).Keys == y.data.Keys;
  }

  /** Back where it had been, the restarted node shows the view it had, at a revision that has grown by the gain. */
  lemma ReplayedNode(c: Cluster, n: nat)
    requires ClusterSound(c) && n < |c.nodes| && c.nodes[n].up && OwnFile(c.nodes[n], c.log)
    ensures var node := c.nodes[n];
            var again := ApplyAll(RestoreDb(node.db, node.snap.entries), c.log[node.snap.index..node.applied]);
            ViewOf(again.data) == NodeView(node) && again.rev == node.db.rev + Gain(c, Crash(n), n)
  {
    var node := c.nodes[n];
    var restored := RestoreDb(node.db, node.snap.entries);
    var ops := c.log[node.snap.index..node.applied];
    RestoredView(node.db, node.snap.data, node.snap.entries);
    ApplyAllCommutes(restored, ops);
    RestoreAdvances(node.db, node.snap.entries);
    RevisionCountsEffects(restored, ops);
  }

  // ----- What each step of the node does to its pending revision -----

  lemma CrashAddsGain(c: Cluster, n: nat)
    requires ClusterSound(c) && n < |c.nodes| && c.nodes[n].up && OwnFile(c.nodes[n], c.log)
    requires NodeSound(NextNode(c, Crash(n)), c.log)
    ensures Pending(NextNode(c, Crash(n)), c.log) == Pending(c.nodes[n], c.log) + Gain(c, Crash(n), n)
  {
    var node := c.nodes[n];
    var restored := RestoreDb(node.db, node.snap.entries);
    var again, more := c.log[node.snap.index..node.applied], c.log[node.applied..node.high];
    assert c.log[node.snap.index..node.high] == again + more;
    ApplyAllConcat(restored, again, more);
    ReplayedNode(c, n);
    SameViewSameKeys(ApplyAll(restored, again), node.db);
    EffectsByKeys(ApplyAll(restored, again), node.db, more);
  }

  lemma {:induction false} RestoredKeys(db: Db, entries: seq<Entry>)
    ensures RestoreDb(db, entries).data.Keys == db.data.Keys + KeysOf(entries)
  {
    if entries == [] {
      assert KeysOf(entries) == {};
    } else {
      var n := |entries| - 1;
      PutsOfStep(entries);
      RestoredKeys(db, entries[..n]);
      assert KeysOf(entries) == KeysOf(entries[..n]) + {entries[n].key};
    }
  }

  /** A restore over what an earlier one has put already reaches the same keys, that much later. */
  lemma RestoredTwice(db: Db, entries: seq<Entry>, upTo: nat)
    requires upTo <= |entries|
    ensures var once, twice := RestoreDb(db, entries), RestoreDb(RestoreDb(db, entries[..upTo]), entries);
            once.data.Keys == twice.data.Keys && twice.rev == once.rev + upTo
  {
    var part := RestoreDb(db, entries[..upTo]);
    RestoreAdvances(db, entries[..upTo]);
    RestoreAdvances(db, entries);
    RestoreAdvances(part, entries);
    RestoredKeys(db, entries[..upTo]);
    RestoredKeys(db, entries);
    RestoredKeys(part, entries);
    assert KeysOf(entries[..upTo]) <= KeysOf(entries);
  }

  lemma RestoreRefreshes(node: Node, log: seq<Op>)
    requires SnapshotSound(node.snap, log)
    ensures Refreshes(node.(db := RestoreDb(node.db, node.snap.entries), applied := node.snap.index), log)
  {
    var snap := node.snap;
    RestoredView(node.db, snap.data, snap.entries);
    assert log[snap.index..snap.index] == [];
    assert NodeView(node) + SnapView(snap) + SnapView(snap) == NodeView(node) + SnapView(snap);
  }

  /** A complete restore does what was pending; one that stops early leaves what it has put to be put again. */
  lemma RestoreAddsGain(node: Node, log: seq<Op>, upTo: nat, node': Node)
    requires NodeSound(node, log) && !node.up && upTo <= |node.snap.entries| && NodeSound(node', log)
    requires node' == node.(db := RestoreDb(node.db, node.snap.entries[..upTo]), applied := node.snap.index,
                            up := upTo == |node.snap.entries|)
    ensures Pending(node', log) == Pending(node, log) + if node'.up then 0 else upTo
  {
    var entries := node.snap.entries;
    if upTo == |entries| {
      assert entries[..upTo] == entries;
    } else {
      RestoredTwice(node.db, entries, upTo);
      EffectsByKeys(RestoreDb(node.db, entries), RestoreDb(node'.db, entries), log[node.snap.index..node.high]);
    }
  }

  lemma ApplyFirst(db: Db, log: seq<Op>, i: nat, j: nat)
    requires i < j <= |log|
    ensures ApplyAll(db, log[i..j]) == ApplyAll(ApplyOp(db, log[i]), log[i + 1..j])
  {
    assert log[i..j] == [log[i]] + log[i + 1..j];
    ApplyAllConcat(db, [log[i]], log[i + 1..j]);
    assert [log[i]][..0] == [] && ApplyAll(db, []) == db;
  }

  lemma ApplyRefreshes(node: Node, log: seq<Op>)
    requires Refreshes(node, log) && node.applied < |log|
    ensures Refreshes(node.(db := ApplyOp(node.db, log[node.applied]), applied := node.applied + 1), log)
  {
    var op := log[node.applied];
    var view, over := NodeView(node), SnapView(node.snap);
    var view' := ApplyView(view, op);
    var again, longer := log[node.snap.index..node.applied], log[node.snap.index..node.applied + 1];
    assert longer[..|longer| - 1] == again;
    ApplyCommutes(node.db, op);
    forall k | !Touches(longer, k)
      ensures Lookup(view' + over, k) == Lookup(view + over, k)
    {
      assert !OpOn(longer[|longer| - 1], k);
      assert Lookup(view', k) == Lookup(view, k);
    }
    ReplayAgrees(view' + over, view + over, longer);
  }

  /** Past its high-water mark, where it shows the log's view, the node goes on as the log alone would. */
  lemma ApplyNewEntry(node: Node, log: seq<Op>)
    requires OwnFile(node, log) && node.up && node.applied == node.high < |log|
    ensures ApplyOp(node.db, log[node.high]).rev - node.db.rev == LogRev(log, node.high + 1) - LogRev(log, node.high)
  {
    var alone := ApplyAll(EMPTY_DB, log[..node.high]);
    DisagreesExactly(node, log);
    ApplyAllCommutes(EMPTY_DB, log[..node.high]);
    assert ViewOf(EMPTY_DB.data) == map[];
    SameViewSameKeys(node.db, alone);
    SameKeysStep(node.db, alone, log[node.high]);
    assert log[..node.high + 1][..node.high] == log[..node.high];
  }

  lemma ApplyKeepsOwnFile(c: Cluster, n: nat)
    requires Enabled(c, Apply(n)) && OwnFile(c.nodes[n], c.log)
    requires NodeSound(NextNode(c, Apply(n)), c.log)
    ensures OwnFile(NextNode(c, Apply(n)), c.log)
  {
    var node := c.nodes[n];
    var none: set<Key> := {};
    assert none - Writes(c.log[node.applied]) == none;
    ApplyRefreshes(node, c.log);
  }

  lemma ApplyAddsNothing(node: Node, log: seq<Op>, node': Node)
    requires OwnFile(node, log) && node.up && node.applied < |log| && NodeSound(node', log) && node'.up
    requires node'.db == ApplyOp(node.db, log[node.applied]) && node'.applied == node.applied + 1
    requires node'.high == Max(node.high, node.applied + 1)
    ensures Pending(node', log) - LogRev(log, node'.high) == Pending(node, log) - LogRev(log, node.high)
  {
    if node.applied < node.high {
      ApplyFirst(node.db, log, node.applied, node.high);
    } else {
      ApplyNewEntry(node, log);
      assert log[node.high..node.high] == [] && log[node.high + 1..node.high + 1] == [];
    }
  }

  lemma CommitAddsNothing(node: Node, log: seq<Op>, op: Op)
    requires OwnFile(node, log) && NodeSound(node, log + [op])
    ensures OwnFile(node, log + [op])
    ensures Pending(node, log + [op]) == Pending(node, log) && LogRev(log + [op], node.high) == LogRev(log, node.high)
  {
    SliceUnchanged(log, op, node.snap.index, node.high);
    if node.up {
      SliceUnchanged(log, op, node.applied, node.high);
      SliceUnchanged(log, op, node.snap.index, node.applied);
    }
  }

  lemma TakeAddsNothing(c: Cluster, n: nat, entries: seq<Entry>)
    requires ClusterSound(c) && Enabled(c, Take(n, entries)) && OwnFile(c.nodes[n], c.log)
    requires NodeSound(NextNode(c, Take(n, entries)), c.log)
    ensures OwnFile(NextNode(c, Take(n, entries)), c.log)
    ensures Pending(NextNode(c, Take(n, entries)), c.log) == Pending(c.nodes[n], c.log)
  {
    var node := c.nodes[n];
    assert NodeView(node) + NodeView(node) == NodeView(node);
    assert c.log[node.applied..node.applied] == [];
  }

  /** The pending revision is what the log alone gives plus what the restarts so far have added. */
  ghost predicate Accounted(node: Node, log: seq<Op>, gained: nat) {
    OwnFile(node, log) && Pending(node, log) == LogRev(log, node.high) + gained
  }

  lemma OwnStepAccounts(c: Cluster, step: Step, n: nat, gained: nat)
    requires ClusterSound(c) && Enabled(c, step) && !step.Commit? && !step.Receive? && step.n == n
    requires Accounted(c.nodes[n], c.log, gained) && NodeSound(NextNode(c, step), c.log)
    ensures Accounted(NextNode(c, step), c.log, gained + Gain(c, step, n))
  {
    match step
    case Apply(_) =>
      ApplyKeepsOwnFile(c, n);
      ApplyAddsNothing(c.nodes[n], c.log, NextNode(c, step));
    case Take(_, entries) => TakeAddsNothing(c, n, entries);
    case Crash(_) =>
      if c.nodes[n].up {
        CrashAddsGain(c, n);
      }
    case RunRestore(_, upTo) => RestoreAccounts(c, n, upTo, gained);
  }

  lemma RestoreAccounts(c: Cluster, n: nat, upTo: nat, gained: nat)
    requires ClusterSound(c) && Enabled(c, RunRestore(n, upTo))
    requires Accounted(c.nodes[n], c.log, gained) && NodeSound(NextNode(c, RunRestore(n, upTo)), c.log)
    ensures Accounted(NextNode(c, RunRestore(n, upTo)), c.log, gained + Gain(c, RunRestore(n, upTo), n))
  {
    var entries := c.nodes[n].snap.entries;
    RestoreAddsGain(c.nodes[n], c.log, upTo, NextNode(c, RunRestore(n, upTo)));
    if upTo == |entries| {
      assert entries[..upTo] == entries;
      RestoreRefreshes(c.nodes[n], c.log);
    }
  }

  lemma StepAccounts(c: Cluster, step: Step, n: nat, gained: nat)
    requires ClusterSound(c) && Enabled(c, step) && n < |c.nodes| && (step.Receive? ==> step.n != n)
    requires ClusterSound(Next(c, step)) && Accounted(c.nodes[n], c.log, gained)
    ensures Accounted(Next(c, step).nodes[n], Next(c, step).log, gained + Gain(c, step, n))
  {
    assert NodeSound(Next(c, step).nodes[n], Next(c, step).log);
    if step.Commit? {
      CommitAddsNothing(c.nodes[n], c.log, step.op);
    } else if step.n == n {
      OwnStepAccounts(c, step, n, gained);
    }
  }

  lemma FreshAccounted(c: Cluster, n: nat)
    requires Fresh(c) && ClusterSound(c) && n < |c.nodes|
    ensures Accounted(c.nodes[n], c.log, 0)
  {
    assert NodeSound(c.nodes[n], c.log) && c.nodes[n] == NEW_NODE;
    assert c.log[0..0] == [];
  }

  /**
    In every run in which node `n` restarts only over its own file, any number
    of times and with restores that stop anywhere, the revision it will have
    when it has caught up is the one that the log alone gives plus the gains of
    its restarts: it never falls behind.
   */
  lemma {:induction false} RestartsAddUp(c: Cluster, steps: seq<Step>, n: nat)
    requires Fresh(c) && Legal(c, steps) && NeverReceives(steps, n) && n < |c.nodes|
    ensures n < |Run(c, steps).nodes|
    ensures Accounted(Run(c, steps).nodes[n], Run(c, steps).log, TotalGain(c, steps, n))
  {
    RunKeepsSound(c, steps);
    if steps == [] {
      FreshAccounted(c, n);
    } else {
      var init, step := steps[..|steps| - 1], steps[|steps| - 1];
      RunKeepsSound(c, init);
      RestartsAddUp(c, init, n);
      assert steps[|steps| - 1] == step;
      var mid := Run(c, init);
      assert Run(c, steps) == Next(mid, step);
      StepAccounts(mid, step, n, TotalGain(c, init, n));
    }
  }

  /**
    So when such a node has caught up it shows the log's view at a revision
    ahead of the log's by the gains, and equal to it if and only if every
    restart found an empty snapshot and nothing to apply that took effect, and
    no restore stopped after it had put an entry.
   */
  lemma RestartKeepsRevisionIff(c: Cluster, steps: seq<Step>, n: nat)
    requires Fresh(c) && Legal(c, steps) && NeverReceives(steps, n) && n < |c.nodes|
    ensures var c' := Run(c, steps);
            && n < |c'.nodes|
            && var node := c'.nodes[n];
            && (node.up && node.applied == node.high ==>
                  && node.applied <= |c'.log|
                  && NodeView(node) == LogView(c'.log[..node.applied])
                  && node.db.rev == LogRev(c'.log, node.applied) + TotalGain(c, steps, n)
                  && (node.db.rev == LogRev(c'.log, node.applied) <==> EveryRestartGainsNothing(c, steps, n)))
  {
    RestartsAddUp(c, steps, n);
    TotalGainZeroIff(c, steps, n);
    CaughtUpNodesAgreeWithLog(c, steps, n);
    var node := Run(c, steps).nodes[n];
    if node.up && node.applied == node.high {
      assert Run(c, steps).log[node.applied..node.high] == [];
    }
  }

  /** Two such nodes at the same position show the same view, and their revisions differ by what each has gained. */
  lemma RestartedPeersDiffer(c: Cluster, steps: seq<Step>, m: nat, n: nat)
    requires Fresh(c) && Legal(c, steps) && m < |c.nodes| && n < |c.nodes|
    requires NeverReceives(steps, m) && NeverReceives(steps, n)
    ensures var c' := Run(c, steps);
            && m < |c'.nodes| && n < |c'.nodes|
            && var a, b := c'.nodes[m], c'.nodes[n];
            && (a.up && b.up && a.applied == a.high == b.applied == b.high ==>
                  && NodeView(a) == NodeView(b)
                  && a.db.rev - b.db.rev == TotalGain(c, steps, m) - TotalGain(c, steps, n))
  {
    RestartKeepsRevisionIff(c, steps, m);
    RestartKeepsRevisionIff(c, steps, n);
  }
}
