/** What holds of the client in every run of the replica protocol, and what does not. */
module ReplicaResults {
  import opened Wrappers
  import opened Text
  import opened Entries
  import opened Replay
  import opened History
  import opened Restores
  import opened WatchRing
  import opened Sdk
  import opened Deliveries
  import opened ReplicaProtocol

  /** Every matching event below this position has been delivered. */
  ghost predicate NothingMissed(s: System, account: Account)
    requires account.upto <= |Events(s)|
  {
    forall i | 0 <= i < account.upto && HasPrefix(Events(s)[i].entry.key, s.prefix) :: i in account.got
  }

  /** The namespace as the server's store showed it after the first `n` mutations. */
  function NamespaceAt(s: System, n: nat): View
    requires n <= |Events(s)|
  {
    NamespaceView(Fold(map[], Events(s)[..n]), s.prefix)
  }

  // ----- Runs in which no revision is damaged -----

  ghost predicate Undamaged(s: System) {
    && s.client.account.inOrder && !s.client.account.damaged
    && s.cache.account.inOrder && !s.cache.account.damaged
    && s.lost.skipped == {}
  }

  ghost predicate KeepsRevisions(steps: seq<Step>) {
    forall i | 0 <= i < |steps| :: !steps[i].DamageRevision?
  }

  lemma EmptyRange(lo: nat, hi: nat)
    requires hi <= lo
    ensures Range(lo, hi) == {}
  {
  }

  lemma {:induction false} StepKeepsUndamaged(s: System, step: Step)
    requires Sound(s) && Undamaged(s) && Enabled(s, step) && !step.DamageRevision?
    ensures Undamaged(Next(s, step))
  {
    var c := s.client;
    if step.ApplyPoll? {
      EmptyRange(c.account.upto, Min(c.revision, c.phase.hi));
    } else if step.FinishPoll? {
      EmptyRange(c.account.upto, Min(c.revision, c.phase.rev));
    }
  }

  lemma {:induction false} RunKeepsUndamaged(s: System, steps: seq<Step>)
    requires Sound(s) && Undamaged(s) && Legal(s, steps) && KeepsRevisions(steps)
    ensures Undamaged(Run(s, steps))
  {
    if steps != [] {
      var init := steps[..|steps| - 1];
      RunKeepsUndamaged(s, init);
      RunKeepsSound(s, init);
      StepKeepsUndamaged(Run(s, init), steps[|steps| - 1]);
    }
  }

  // ----- Accounting and convergence -----

  /**
    In every interleaving the client's configs are exactly those of the events
    it got, in order, and whatever it lacks was passed over in a gap, by
    eviction, or by a damaged revision; between polls its revision says how far
    it is, unless it has just been loaded from the cache file. Without damage to
    a revision nothing ever comes out of order, and no revision, loaded or not,
    claims more than the client has accounted for.
   */
  lemma {:induction false} ClientAccounted(start: System, steps: seq<Step>)
    requires Initial(start) && Legal(start, steps)
    ensures var s := Run(start, steps);
            var c := s.client;
            && c.account.upto <= |Events(s)|
            && (c.account.inOrder ==> c.configs == ConfigsAfter(Events(s), c.account.got, s.prefix))
            && (forall i | 0 <= i < c.account.upto && i !in c.account.got :: IsLost(s.lost, i))
            && (forall i | i in c.account.got :: i < c.account.upto)
            && (c.phase.Idle? && !c.recovered ==> c.account.upto == c.revision)
            && (KeepsRevisions(steps) ==> c.account.inOrder && c.revision <= c.account.upto && s.lost.skipped == {})
  {
    InitialIsSound(start);
    RunKeepsSound(start, steps);
    if KeepsRevisions(steps) {
      RunKeepsUndamaged(start, steps);
    }
  }

  /**
    The client's configs equal its namespace at its position of the history,
    which between polls is its revision, provided no matching event was passed
    over and none came out of order.
   */
  lemma {:induction false} ClientConverges(start: System, steps: seq<Step>)
    requires Initial(start) && Legal(start, steps)
    ensures var s := Run(start, steps);
            var c := s.client;
            && c.account.upto <= |Events(s)|
            && (c.account.inOrder && NothingMissed(s, c.account) ==> c.configs == NamespaceAt(s, c.account.upto))
            && (c.phase.Idle? && !c.recovered ==> c.account.upto == c.revision)
            && (KeepsRevisions(steps) ==> c.account.inOrder && c.revision <= c.account.upto)
            && ((forall i | 0 <= i < |Events(s)| && IsLost(s.lost, i) :: !HasPrefix(Events(s)[i].entry.key, s.prefix))
                ==> NothingMissed(s, c.account))
  {
    ClientAccounted(start, steps);
    var s := Run(start, steps);
    var account := s.client.account;
    if account.inOrder && NothingMissed(s, account) {
      AllDelivered(Events(s), account.got, s.prefix, account.upto);
    }
  }

  /**
    The configs of a cache file that load accepts are the namespace at the
    position of its account, provided its client had missed nothing. Unless the
    revision beside them was damaged, it claims no more than that.
   */
  lemma {:induction false} CacheReflects(start: System, steps: seq<Step>)
    requires Initial(start) && Legal(start, steps)
    requires var cache := Run(start, steps).cache; cache.slot.Holds? && Intact(start.checksum, cache.slot.file)
    ensures var s := Run(start, steps);
            var account := s.cache.account;
            && account.upto <= |Events(s)|
            && (account.inOrder && NothingMissed(s, account) ==>
                  s.cache.slot.file.configs == NamespaceAt(s, account.upto))
            && (!account.damaged ==> s.cache.slot.file.revision <= account.upto)
            && (KeepsRevisions(steps) ==> account.inOrder && !account.damaged)
  {
    InitialIsSound(start);
    RunKeepsSound(start, steps);
    ParametersFixed(start, steps);
    if KeepsRevisions(steps) {
      RunKeepsUndamaged(start, steps);
    }
    var s := Run(start, steps);
    if s.cache.account.inOrder && NothingMissed(s, s.cache.account) {
      AllDelivered(Events(s), s.cache.account.got, s.prefix, s.cache.account.upto);
    }
  }

  lemma StepFixesParameters(s: System, step: Step)
    requires Enabled(s, step)
    ensures var s' := Next(s, step); s'.prefix == s.prefix && s'.checksum == s.checksum && s'.caching == s.caching
  {
  }

  lemma {:induction false} ParametersFixed(start: System, steps: seq<Step>)
    requires Legal(start, steps)
    ensures var s := Run(start, steps);
            s.prefix == start.prefix && s.checksum == start.checksum && s.caching == start.caching
  {
    if steps != [] {
      ParametersFixed(start, steps[..|steps| - 1]);
      StepFixesParameters(Run(start, steps[..|steps| - 1]), steps[|steps| - 1]);
    }
  }

  ghost predicate Converged(s: System) {
    && s.client.phase.Idle? && !s.client.recovered && s.client.account.inOrder
    && s.client.account.upto <= |Events(s)| && NothingMissed(s, s.client.account)
  }

  /**
    A client that restarted from its cache file and has polled since, and one
    that never stopped, hold the same configs at the same revision of the same
    history, provided neither missed a matching event.
   */
  lemma RecoveredClientAgrees(startA: System, stepsA: seq<Step>, startB: System, stepsB: seq<Step>)
    requires Initial(startA) && Legal(startA, stepsA) && Initial(startB) && Legal(startB, stepsB)
    requires startA.prefix == startB.prefix
    ensures var a, b := Run(startA, stepsA), Run(startB, stepsB);
            Events(a) == Events(b) && a.client.revision == b.client.revision && Converged(a) && Converged(b)
            ==> a.client.configs == b.client.configs
  {
    ClientConverges(startA, stepsA);
    ClientConverges(startB, stepsB);
    ParametersFixed(startA, stepsA);
    ParametersFixed(startB, stepsB);
  }

  // ----- Restart from the cache file -----

  /** The file is the saved one, except perhaps for its revision. */
  ghost predicate FileOf(saved: System, s: System) {
    && saved.cache.slot.Holds? && s.cache.slot.Holds?
    && s.cache.slot.file == saved.cache.slot.file.(revision := s.cache.slot.file.revision)
    && s.cache.account == saved.cache.account.(damaged := s.cache.account.damaged)
  }

  lemma StepKeepsFile(saved: System, s: System, step: Step)
    requires FileOf(saved, s) && Enabled(s, step) && !step.SaveCache? && !step.DamageCache?
    ensures FileOf(saved, Next(s, step))
    ensures !step.DamageRevision? ==> Next(s, step).cache == s.cache
  {
  }

  lemma {:induction false} FileKept(saved: System, steps: seq<Step>)
    requires Legal(saved, steps) && saved.cache.slot.Holds?
    requires forall i | 0 <= i < |steps| :: !steps[i].SaveCache? && !steps[i].DamageCache?
    ensures FileOf(saved, Run(saved, steps))
    ensures KeepsRevisions(steps) ==> Run(saved, steps).cache == saved.cache
  {
    if steps != [] {
      FileKept(saved, steps[..|steps| - 1]);
      StepKeepsFile(saved, Run(saved, steps[..|steps| - 1]), steps[|steps| - 1]);
    }
  }

  /** A client whose pull fails takes over a file whose checksum is that of its configs; without one it has nothing. */
  lemma LoadedClient(s: System)
    requires Sound(s) && Enabled(s, FailPull)
    ensures var c, slot := Next(s, FailPull).client, s.cache.slot;
            if s.caching && slot.Holds? && s.checksum(slot.file.configs) == slot.file.checksum then
              c == Replica(slot.file.configs, slot.file.revision, Idle, s.cache.account, true)
            else
              c == Replica(map[], 0, Idle, NOTHING_GOT, false)
  {
    assert s.client == NEW_REPLICA.(phase := s.client.phase);
    if s.cache.slot.Holds? {
      var configs := s.cache.slot.file.configs;
      assert map[] + configs == configs;
    }
  }

  /**
    Load accepts what save wrote. However server and client go on after a save,
    as long as the file is not saved again or damaged in its configs: when the
    client's next pull fails, it has the saved configs and their account, with
    the revision that is then in the file, the saved one if that was not damaged.
   */
  lemma RestartFromCache(s: System, steps: seq<Step>)
    requires Sound(s) && Enabled(s, SaveCache) && s.caching && Legal(Next(s, SaveCache), steps)
    requires forall i | 0 <= i < |steps| :: !steps[i].SaveCache? && !steps[i].DamageCache?
    requires Enabled(Run(Next(s, SaveCache), steps), FailPull)
    ensures var end := Run(Next(s, SaveCache), steps);
            && end.cache.slot.Holds?
            && Next(end, FailPull).client
               == Replica(s.client.configs, end.cache.slot.file.revision, Idle,
                          s.client.account.(damaged := end.cache.account.damaged), true)
            && (KeepsRevisions(steps) ==>
                  end.cache.slot.file.revision == s.client.revision
                  && end.cache.account.damaged == s.client.account.damaged)
  {
    var saved := Next(s, SaveCache);
    assert saved.cache == Cache(Holds(Saved(s.checksum, s.client.configs, s.client.revision)), s.client.account);
    StepKeepsSound(s, SaveCache);
    FileKept(saved, steps);
    ParametersFixed(saved, steps);
    RunKeepsSound(saved, steps);
    LoadedClient(Run(saved, steps));
  }

  // ----- What a pull misses -----

  /** A full pull gives the namespace as List saw it; what came between List and Rev is claimed but missing. */
  lemma PullMissesExactly(s: System)
    requires Sound(s) && Enabled(s, ApplyPull)
    ensures var PullReady(_, at, rev) := s.client.phase;
            var c := Next(s, ApplyPull).client;
            && at <= rev <= |Events(s)| && c.configs == NamespaceAt(s, at)
            && c.revision == c.account.upto == rev
            && (forall i | 0 <= i < rev :: i !in c.account.got <==> at <= i)
  {
    var PullReady(entries, at, rev) := s.client.phase;
    PulledNamespace(s, entries, at);
    PulledClient(s);
    RangeHolds(0, at);
  }

  lemma PulledClient(s: System)
    requires Enabled(s, ApplyPull)
    ensures var PullReady(entries, at, rev) := s.client.phase;
            Next(s, ApplyPull).client
            == Replica(FoldOps(s.client.configs, PutsOf(entries)), rev, Pulled, Account(Range(0, at), rev, true, false),
                       s.client.recovered)
  {
  }

  /** A pull is right at the revision it claims exactly when every key written between List and Rev ended as it was. */
  lemma {:induction false} PullConvergesIff(s: System)
    requires Sound(s) && Enabled(s, ApplyPull)
    ensures var PullReady(_, at, rev) := s.client.phase;
            && at <= rev <= |Events(s)|
            && (Next(s, ApplyPull).client.configs == NamespaceAt(s, rev)
                <==> forall k | Touches(Relevant(Events(s)[at..rev], s.prefix), k) ::
                       Lookup(NamespaceAt(s, at), k) == Lookup(NamespaceAt(s, rev), k))
  {
    PullMissesExactly(s);
    var at, rev := s.client.phase.at, s.client.phase.rev;
    var between := Relevant(Events(s)[at..rev], s.prefix);
    NamespaceAdvances(Events(s), s.prefix, at, rev);
    if forall k | Touches(between, k) :: Lookup(NamespaceAt(s, at), k) == Lookup(NamespaceAt(s, rev), k) {
      forall k
        ensures Lookup(NamespaceAt(s, at), k) == Lookup(NamespaceAt(s, rev), k)
      {
        FoldAt(NamespaceAt(s, at), NamespaceAt(s, at), between, k);
      }
      SameLookups(NamespaceAt(s, at), NamespaceAt(s, rev));
    }
  }

  // ----- What a poll misses -----

  /** The rest of a poll once its response has arrived. */
  ghost function CompletePoll(s: System): (s': System)
    requires Sound(s) && Enabled(s, ApplyPoll)
    ensures Sound(s')
  {
    StepKeepsSound(s, ApplyPoll);
    var applied := Next(s, ApplyPoll);
    if applied.client.phase.unsaved then
      StepKeepsSound(applied, SaveCache);
      StepKeepsSound(Next(applied, SaveCache), FinishPoll);
      Next(Next(applied, SaveCache), FinishPoll)
    else
      StepKeepsSound(applied, FinishPoll);
      Next(applied, FinishPoll)
  }

  lemma AppliedClient(s: System)
    requires Enabled(s, ApplyPoll)
    ensures var PollReady(events, lo, hi, rev) := s.client.phase;
            Next(s, ApplyPoll).client
            == Replica(FoldOps(s.client.configs, OpsFor(events)), s.client.revision, Applied(rev, events != []),
                       PolledAccount(s.client.account, lo, hi), s.client.recovered)
  {
  }

  lemma SavedClient(s: System)
    requires Enabled(s, SaveCache) && s.client.phase.Applied?
    ensures Next(s, SaveCache).client == s.client.(phase := Applied(s.client.phase.rev, false))
  {
  }

  /** The client after it has finished a poll whose reply carries the revision `rev`. */
  ghost function FinishedReplica(c: Replica, rev: nat): Replica {
    var kept := c.account.damaged && rev == 0;
    Replica(c.configs, if rev > 0 then rev else c.revision, Idle, c.account.(upto := rev, damaged := kept), kept)
  }

  lemma FinishedClient(s: System)
    requires Enabled(s, FinishPoll)
    ensures Next(s, FinishPoll).client == FinishedReplica(s.client, s.client.phase.rev)
  {
  }

  lemma {:induction false} CompletedClient(s: System)
    requires Sound(s) && Enabled(s, ApplyPoll)
    ensures var PollReady(events, lo, hi, rev) := s.client.phase;
            CompletePoll(s).client
            == FinishedReplica(
                 Replica(FoldOps(s.client.configs, OpsFor(events)), s.client.revision, Applied(rev, false),
                         PolledAccount(s.client.account, lo, hi), s.client.recovered), rev)
  {
    AppliedClient(s);
    var applied := Next(s, ApplyPoll);
    if applied.client.phase.unsaved {
      SavedClient(applied);
      FinishedClient(Next(applied, SaveCache));
    } else {
      FinishedClient(applied);
    }
  }

  /**
    A completed poll delivers exactly the positions [lo, hi) that it collected.
    Of the positions that its new revision claims, a client that was up to date
    with its old revision misses exactly those that had been evicted before the
    collection and those that came between the collection and the reading of Rev.
   */
  lemma {:induction false} PollMissesExactly(s: System)
    requires Sound(s) && Enabled(s, ApplyPoll)
    ensures var c := CompletePoll(s).client;
            var PollReady(events, lo, hi, rev) := s.client.phase;
            && c.phase.Idle? && c.account.upto == rev
            && (rev > 0 || !s.client.account.damaged ==> !c.recovered && c.revision == rev)
            && (forall i :: i in c.account.got <==> i in s.client.account.got || lo <= i < hi)
            && (!s.client.recovered ==>
                  forall i | s.client.revision <= i < rev :: i !in c.account.got <==> i < lo || hi <= i)
  {
    CompletedClient(s);
    RangeHolds(s.client.phase.lo, s.client.phase.hi);
  }

  /** The operations on the client's namespace at positions [lo, hi). */
  ghost function OpsBetween(s: System, lo: nat, hi: nat): seq<Op>
    requires hi <= |Events(s)|
  {
    if lo <= hi then Relevant(Events(s)[lo..hi], s.prefix) else []
  }

  lemma {:induction false} CompletedLookup(s: System, k: Key)
    requires Sound(s) && Enabled(s, ApplyPoll)
    ensures var PollReady(events, lo, hi, rev) := s.client.phase;
            && hi <= |Events(s)|
            && Lookup(CompletePoll(s).client.configs, k)
               == Lookup(if Touches(OpsBetween(s, lo, hi), k) then NamespaceAt(s, hi) else s.client.configs, k)
  {
    var PollReady(events, lo, hi, rev) := s.client.phase;
    CompletedClient(s);
    RevisionsConsecutive(EMPTY_DB, s.server.ledger);
    if lo <= hi {
      PolledLookup(Events(s), s.prefix, s.client.configs, s.client.revision, lo, hi, k);
    } else {
      assert OpsFor(events) == [];
    }
  }

  /**
    When a poll leaves the client right at the revision it claims, whatever the
    client had, and whatever was evicted or fell in the gap: exactly when every
    key written among the collected events has its value of the collection still
    at the reading of Rev, and every other key had that value already.
   */
  lemma {:induction false} PollConvergesIff(s: System)
    requires Sound(s) && Enabled(s, ApplyPoll)
    ensures var PollReady(events, lo, hi, rev) := s.client.phase;
            && hi <= rev <= |Events(s)|
            && (CompletePoll(s).client.configs == NamespaceAt(s, rev)
                <==> forall k ::
                       Lookup(if Touches(OpsBetween(s, lo, hi), k) then NamespaceAt(s, hi) else s.client.configs, k)
                       == Lookup(NamespaceAt(s, rev), k))
  {
    var PollReady(events, lo, hi, rev) := s.client.phase;
    var configs := CompletePoll(s).client.configs;
    forall k
      ensures Lookup(configs, k)
           == Lookup(if Touches(OpsBetween(s, lo, hi), k) then NamespaceAt(s, hi) else s.client.configs, k)
    {
      CompletedLookup(s, k);
    }
    if forall k :: Lookup(configs, k) == Lookup(NamespaceAt(s, rev), k) {
      SameLookups(configs, NamespaceAt(s, rev));
    }
  }

  predicate Polling(phase: Phase) {
    phase.Idle? || phase.Collected? || phase.PollReady?
  }

  lemma KeptByStep(s: System, step: Step)
    requires Enabled(s, step) && Polling(s.client.phase) && !step.ApplyPoll? && !step.CrashClient?
    ensures var c := Next(s, step).client;
            Polling(c.phase) && c == s.client.(phase := c.phase)
  {
  }

  /** Until it applies a poll, or crashes, a client keeps its configs, its revision and its account. */
  lemma {:induction false} KeptUntilApplied(s: System, steps: seq<Step>)
    requires Legal(s, steps) && Polling(s.client.phase)
    requires forall i | 0 <= i < |steps| :: !steps[i].ApplyPoll? && !steps[i].CrashClient?
    ensures var c := Run(s, steps).client;
            Polling(c.phase) && c == s.client.(phase := c.phase)
  {
    if steps != [] {
      KeptUntilApplied(s, steps[..|steps| - 1]);
      KeptByStep(Run(s, steps[..|steps| - 1]), steps[|steps| - 1]);
    }
  }

  /**
    A client that has everything up to a position, but was loaded with another
    revision, makes a poll without eviction or gap: it then misses exactly the
    positions from its own up to that revision. If nothing had come out of order
    its configs are then right exactly when every key written at those
    positions, and not written again at a collected one, has ended as it was;
    so they are whenever the revision in the file was not too high.
   */
  lemma {:induction false} WrongRevisionMissesExactly(s: System)
    requires Sound(s) && Enabled(s, ApplyPoll)
    requires s.client.phase.lo == s.client.revision && s.client.phase.hi == s.client.phase.rev
    requires forall i | 0 <= i < s.client.account.upto :: i in s.client.account.got
    ensures var c := CompletePoll(s).client;
            var upto, rev := s.client.account.upto, s.client.phase.rev;
            && c.account.upto == rev <= |Events(s)|
            && (forall i | 0 <= i < rev :: i !in c.account.got <==> upto <= i < s.client.revision)
            && (NothingMissed(s, c.account)
                <==> forall i | upto <= i < Min(s.client.revision, rev) :: !HasPrefix(Events(s)[i].entry.key, s.prefix))
            && upto <= rev
            && (s.client.account.inOrder ==>
                  (c.configs == NamespaceAt(s, rev)
                   <==> forall k | Touches(OpsBetween(s, upto, Min(s.client.revision, rev)), k)
                                   && !Touches(OpsBetween(s, s.client.revision, rev), k) ::
                          Lookup(NamespaceAt(s, upto), k) == Lookup(NamespaceAt(s, rev), k)))
            && (s.client.account.inOrder && s.client.revision <= upto ==> c.configs == NamespaceAt(s, rev))
  {
    PollMissesExactly(s);
    if s.client.account.inOrder {
      WrongRevisionConvergesIff(s);
    }
  }

  lemma {:induction false} WrongRevisionConvergesIff(s: System)
    requires Sound(s) && Enabled(s, ApplyPoll) && s.client.account.inOrder
    requires s.client.phase.lo == s.client.revision && s.client.phase.hi == s.client.phase.rev
    requires forall i | 0 <= i < s.client.account.upto :: i in s.client.account.got
    ensures var upto, rev := s.client.account.upto, s.client.phase.rev;
            && upto <= rev <= |Events(s)|
            && (CompletePoll(s).client.configs == NamespaceAt(s, rev)
                <==> forall k | Touches(OpsBetween(s, upto, Min(s.client.revision, rev)), k)
                                && !Touches(OpsBetween(s, s.client.revision, rev), k) ::
                       Lookup(NamespaceAt(s, upto), k) == Lookup(NamespaceAt(s, rev), k))
  {
    var upto, rev := s.client.account.upto, s.client.phase.rev;
    AllDelivered(Events(s), s.client.account.got, s.prefix, upto);
    PollConvergesIff(s);
    forall k | !Touches(OpsBetween(s, upto, Min(s.client.revision, rev)), k)
               && !Touches(OpsBetween(s, s.client.revision, rev), k)
      ensures Lookup(NamespaceAt(s, upto), k) == Lookup(NamespaceAt(s, rev), k)
    {
      OpsInParts(s, upto, s.client.revision, rev, k);
      NamespaceAdvances(Events(s), s.prefix, upto, rev);
      FoldAt(NamespaceAt(s, upto), NamespaceAt(s, upto), OpsBetween(s, upto, rev), k);
    }
  }

  /** What is written in [lo, hi) is written below or from `mid` on. */
  lemma OpsInParts(s: System, lo: nat, mid: nat, hi: nat, k: Key)
    requires lo <= hi <= |Events(s)|
    ensures Touches(OpsBetween(s, lo, hi), k) ==>
              Touches(OpsBetween(s, lo, Min(mid, hi)), k) || Touches(OpsBetween(s, mid, hi), k)
  {
    if Touches(OpsBetween(s, lo, hi), k) {
      var all := OpsBetween(s, lo, hi);
      var i :| 0 <= i < |all| && OpOn(all[i], k);
      if lo + i < mid {
        assert OpsBetween(s, lo, Min(mid, hi))[i] == all[i];
      } else {
        assert OpsBetween(s, mid, hi)[lo + i - mid] == all[i];
      }
    }
  }

  // ----- Losses that are real, and stay -----

  /** A mutation that comes between the collection of a poll and its reading of Rev. */
  ghost function WriteInGap(s: System, op: Op): (answered: System)
    requires Sound(s) && s.client.phase.Collected? && s.server.ring == |Events(s)|
    ensures Sound(answered) && Enabled(answered, ApplyPoll)
  {
    StepKeepsSound(s, Write(op));
    StepKeepsSound(Next(s, Write(op)), ReadPollRev);
    Next(Next(s, Write(op)), ReadPollRev)
  }

  lemma WrittenClient(s: System, op: Op)
    requires ServerSound(s) && Enabled(s, Write(op)) && EventOf(s.server.ledger.db, op).Some?
    ensures var written := Next(s, Write(op));
            written.client == s.client && written.server.ledger.db.rev == |Events(s)| + 1
  {
    RecordExplains(EMPTY_DB, s.server.ledger, op);
  }

  lemma AnsweredClient(s: System)
    requires Enabled(s, ReadPollRev)
    ensures var Collected(events, lo, hi) := s.client.phase;
            Next(s, ReadPollRev).client == s.client.(phase := PollReady(events, lo, hi, s.server.ledger.db.rev))
  {
  }

  lemma GapClient(s: System, op: Op)
    requires Sound(s) && s.client.phase.Collected? && s.server.ring == |Events(s)|
    requires EventOf(s.server.ledger.db, op).Some?
    ensures var Collected(events, lo, hi) := s.client.phase;
            WriteInGap(s, op).client == s.client.(phase := PollReady(events, lo, hi, |Events(s)| + 1))
  {
    WrittenClient(s, op);
    AnsweredClient(Next(s, Write(op)));
  }

  /** Such a mutation is claimed by the client's new revision but not delivered. */
  lemma {:induction false} WriteInGapIsLost(s: System, op: Op)
    requires Sound(s) && s.client.phase.Collected? && s.server.ring == |Events(s)|
    requires EventOf(s.server.ledger.db, op).Some?
    ensures var c := CompletePoll(WriteInGap(s, op)).client;
            |Events(s)| !in c.account.got && |Events(s)| < c.revision
  {
    var n := |Events(s)|;
    assert s.client.phase.hi <= n && n !in s.client.account.got;
    GapClient(s, op);
    PollMissesExactly(WriteInGap(s, op));
  }

  predicate Pulling(phase: Phase) {
    phase.Starting? || phase.Listed? || phase.PullReady?
  }

  /** The client's revision and its account are both past a position that it has not got. */
  ghost predicate PassedOver(c: Replica, i: nat) {
    !Pulling(c.phase) && i < c.revision && i < c.account.upto && i !in c.account.got
  }

  lemma MissedStaysMissed(s: System, step: Step, i: nat)
    requires Sound(s) && Enabled(s, step) && PassedOver(s.client, i) && !step.CrashClient?
    ensures PassedOver(Next(s, step).client, i)
  {
    if step.ApplyPoll? {
      RangeHolds(s.client.phase.lo, s.client.phase.hi);
    }
  }

  /** What a client has passed over no later poll brings, as long as it runs. */
  lemma {:induction false} MissedForGood(s: System, steps: seq<Step>, i: nat)
    requires Sound(s) && Legal(s, steps) && PassedOver(s.client, i)
    requires forall j | 0 <= j < |steps| :: !steps[j].CrashClient?
    ensures PassedOver(Run(s, steps).client, i)
  {
    if steps != [] {
      var init := steps[..|steps| - 1];
      MissedForGood(s, init, i);
      RunKeepsSound(s, init);
      MissedStaysMissed(Run(s, init), steps[|steps| - 1], i);
    }
  }

  // ----- Runs that lose an event -----

  lemma OneStepMore(s: System, steps: seq<Step>, step: Step) returns (more: seq<Step>)
    requires Legal(s, steps) && Enabled(Run(s, steps), step)
    ensures more == steps + [step]
    ensures Legal(s, more) && Run(s, more) == Next(Run(s, steps), step)
  {
    more := steps + [step];
    assert more[..|more| - 1] == steps;
  }

  /** A server whose store is empty and a new client of it. */
  ghost function EmptySystem(checksum: Checksum, caching: bool): System {
    System(Server(Ledger(EMPTY_DB, []), 0, 0, 4096), NEW_REPLICA, Cache(Missing, NOTHING_GOT), "t/n/", caching,
           checksum, NOTHING_LOST)
  }

  /** The client has pulled nothing and, if it has a cache directory, saved that. */
  lemma PulledNothing(checksum: Checksum, caching: bool) returns (steps: seq<Step>)
    ensures var start := EmptySystem(checksum, caching);
            && Initial(start) && Legal(start, steps)
            && Run(start, steps)
               == start.(client := NEW_REPLICA.(phase := Idle),
                         cache := if caching then Cache(Holds(Saved(checksum, map[], 0)), NOTHING_GOT) else start.cache)
  {
    var start := EmptySystem(checksum, caching);
    steps := [];
    steps := OneStepMore(start, steps, ListNamespace([]));
    assert Run(start, steps) == start.(client := NEW_REPLICA.(phase := Listed([], 0)));
    steps := OneStepMore(start, steps, ReadPullRev);
    assert Run(start, steps) == start.(client := NEW_REPLICA.(phase := PullReady([], 0, 0)));
    steps := OneStepMore(start, steps, ApplyPull);
    assert FoldOps(map[], PutsOf([])) == map[] && Range(0, 0) == {};
    assert Run(start, steps) == start.(client := NEW_REPLICA.(phase := Pulled));
    steps := OneStepMore(start, steps, SaveCache);
  }

  /** The client is idle at the server's revision and lacks the one entry of its namespace. */
  ghost predicate LacksEntry(s: System) {
    && s.client.phase.Idle? && !s.client.recovered && s.client.revision == s.server.ledger.db.rev == 1
    && s.client.configs == map[]
    && NamespaceView(s.server.ledger.db.data, s.prefix) == map["t/n/a" := "v"]
  }

  lemma EntryOfNamespace(s: System)
    requires s.prefix == "t/n/" && s.server.ledger == Record(Ledger(EMPTY_DB, []), OpPut("t/n/a", "v"))
    ensures NamespaceView(s.server.ledger.db.data, s.prefix) == map["t/n/a" := "v"]
  {
    assert "t/n/a"[..4] == "t/n/";
  }

  /** A poll whose reply carries no events changes only the client's account and revision. */
  lemma EmptyPoll(start: System, steps: seq<Step>) returns (more: seq<Step>)
    requires Legal(start, steps)
    requires Run(start, steps).client.phase.PollReady? && Run(start, steps).client.phase.events == []
    ensures Legal(start, more)
    ensures var s := Run(start, steps);
            var PollReady(_, lo, hi, rev) := s.client.phase;
            var account := PolledAccount(s.client.account, lo, hi);
            var lost := PolledLost(s.lost, s.client.revision, s.client.account.upto, lo, hi);
            Run(start, more)
            == s.(client := FinishedReplica(s.client.(account := account), rev),
                  lost := FinishedLost(lost, s.client.revision, account.upto, rev))
  {
    var s := Run(start, steps);
    assert FoldOps(s.client.configs, OpsFor([])) == s.client.configs;
    more := OneStepMore(start, steps, ApplyPoll);
    more := OneStepMore(start, more, FinishPoll);
  }

  /** The client has polled and collected nothing. */
  lemma CollectedNothing(checksum: Checksum) returns (steps: seq<Step>)
    ensures var start := EmptySystem(checksum, false);
            && Initial(start) && Legal(start, steps)
            && Run(start, steps) == start.(client := NEW_REPLICA.(phase := Collected([], 0, 0)))
  {
    var start := EmptySystem(checksum, false);
    steps := PulledNothing(checksum, false);
    steps := OneStepMore(start, steps, Collect);
    assert Run(start, steps).client == NEW_REPLICA.(phase := Collected([], 0, 0));
  }

  /** Then the first put comes, and the poll reads its revision. */
  lemma PutInGap(s: System)
    requires s.client == NEW_REPLICA.(phase := Collected([], 0, 0))
    requires s.server == Server(Ledger(EMPTY_DB, []), 0, 0, 4096)
    ensures var op := OpPut("t/n/a", "v");
            && Enabled(s, Write(op)) && Enabled(Next(s, Write(op)), ReadPollRev)
            && var answered := Next(Next(s, Write(op)), ReadPollRev);
               && answered.client == NEW_REPLICA.(phase := PollReady([], 0, 0, 1)) && answered.prefix == s.prefix
               && answered.server.ledger == Record(Ledger(EMPTY_DB, []), op)
  {
    var written := Next(s, Write(OpPut("t/n/a", "v")));
    assert written.client == s.client && written.server.ledger.db.rev == 1;
    AnsweredClient(written);
  }

  lemma AnsweredInGap(checksum: Checksum) returns (steps: seq<Step>)
    ensures var start := EmptySystem(checksum, false);
            && Initial(start) && Legal(start, steps)
            && var s := Run(start, steps);
               && s.client == NEW_REPLICA.(phase := PollReady([], 0, 0, 1)) && s.prefix == "t/n/"
               && s.server.ledger == Record(Ledger(EMPTY_DB, []), OpPut("t/n/a", "v"))
  {
    var start := EmptySystem(checksum, false);
    steps := CollectedNothing(checksum);
    PutInGap(Run(start, steps));
    steps := OneStepMore(start, steps, Write(OpPut("t/n/a", "v")));
    steps := OneStepMore(start, steps, ReadPollRev);
  }

  /** The gap is real: a put between the collection of a poll and its reading of Rev. */
  lemma GapHappens(checksum: Checksum) returns (start: System, steps: seq<Step>)
    ensures Initial(start) && Legal(start, steps) && LacksEntry(Run(start, steps))
  {
    start := EmptySystem(checksum, false);
    steps := AnsweredInGap(checksum);
    steps := EmptyPoll(start, steps);
    EntryOfNamespace(Run(start, steps));
  }

  /** A client that was loaded with revision 1 from a file of revision 0, just before the first put was published. */
  lemma LoadedTooHigh(checksum: Checksum) returns (steps: seq<Step>)
    ensures Initial(EmptySystem(checksum, true)) && Legal(EmptySystem(checksum, true), steps)
    ensures var s := Run(EmptySystem(checksum, true), steps);
            && s.client == Replica(map[], 1, Idle, NOTHING_GOT.(damaged := true), true)
            && s.server == Server(Record(Ledger(EMPTY_DB, []), OpPut("t/n/a", "v")), 0, 1, 4096)
            && s.prefix == "t/n/" && s.lost == NOTHING_LOST
  {
    var start := EmptySystem(checksum, true);
    steps := PulledNothing(checksum, true);
    steps := OneStepMore(start, steps, DamageRevision(1));
    var damaged := Cache(Holds(Saved(checksum, map[], 0).(revision := 1)), NOTHING_GOT.(damaged := true));
    assert Run(start, steps) == start.(client := NEW_REPLICA.(phase := Idle), cache := damaged);
    steps := OneStepMore(start, steps, CrashClient);
    assert Run(start, steps) == start.(cache := damaged);
    steps := OneStepMore(start, steps, Write(OpPut("t/n/a", "v")));
    steps := OneStepMore(start, steps, Publish);
    assert Run(start, steps).cache == damaged && Run(start, steps).client == NEW_REPLICA;
    steps := OneStepMore(start, steps, FailPull);
  }

  /**
    Damage to a revision is real: without any gap or eviction, a client whose
    file was damaged in its revision alone, which its checksum cannot show,
    passes over an event and ends at the server's revision without it.
   */
  lemma DamageHappens(checksum: Checksum) returns (start: System, steps: seq<Step>)
    ensures Initial(start) && Legal(start, steps) && LacksEntry(Run(start, steps))
    ensures Run(start, steps).lost == Lost({}, {}, {0})
  {
    start := EmptySystem(checksum, true);
    steps := LoadedTooHigh(checksum);
    var loaded := Run(start, steps);
    assert loaded.client.revision == 1;
    NothingNewer(loaded);
    steps := OneStepMore(start, steps, Collect);
    assert Run(start, steps).client == loaded.client.(phase := Collected([], 1, 1));
    steps := OneStepMore(start, steps, ReadPollRev);
    assert Run(start, steps).client == loaded.client.(phase := PollReady([], 1, 1, 1));
    steps := EmptyPoll(start, steps);
    RangeHolds(0, 1);
    RangeHolds(1, 1);
    assert Range(0, 1) == {0} && Range(1, 1) == {};
    EntryOfNamespace(Run(start, steps));
  }

  lemma NothingNewer(s: System)
    requires s.server.base == 0 && s.server.ring == |Events(s)| == 1 && Events(s)[0].entry.revision <= s.client.revision
    requires s.server.capacity >= 1
    ensures Matching(Retained(Events(s)[0..1], s.server.capacity), s.client.revision, s.prefix) == []
  {
    assert Events(s)[0..1] == Events(s) && Events(s)[..0] == [];
  }
}
