/**
  What polls and pulls deliver, told from the ring of the server, its restarts
  and the moments at which the server collects and reads Rev
  (server/watch.go:90-110, store/watch.go:124-151, server/server.go:214-232).
 */
module Polls {
  import opened Wrappers
  import opened Entries
  import opened Replay
  import opened History
  import opened Restores
  import opened WatchRing
  import opened Sdk
  import opened Deliveries
  import opened ReplicaProtocol
  import opened ReplicaResults

  // ----- The answer of the ring -----

  /** Position `i` is one of the newest `capacity` ones published since the server started. */
  predicate InRing(s: System, i: nat) {
    s.server.base <= i < s.server.ring <= i + s.server.capacity
  }

  /** The positions of the ring's events that are newer than the client's revision and under its prefix, in order. */
  ghost predicate AsksFor(s: System, at: seq<nat>) {
    && Ascending(at)
    && forall i: nat ::
         i in at <==> InRing(s, i) && i < |Events(s)| && s.client.revision < Events(s)[i].entry.revision
                      && s.prefix <= Events(s)[i].entry.key
  }

  /** The server collects for a client exactly what the client asks for, in order. */
  lemma CollectAnswers(s: System) returns (at: seq<nat>)
    requires Sound(s) && Enabled(s, Collect)
    ensures AsksFor(s, at)
    ensures var c := Next(s, Collect).client;
            c.phase.Collected? && Picked(Events(s), at, c.phase.events) && c == s.client.(phase := c.phase)
  {
    var low, ring := RingLow(s.server), s.server.ring;
    at := MatchingPicks(Events(s), low, ring, s.client.revision, s.prefix);
    assert Retained(Events(s)[s.server.base..ring], s.server.capacity) == Events(s)[low..ring];
  }

  // ----- A poll from its collection to its end -----

  /** Steps that are not the client's own. */
  ghost predicate ServerSide(steps: seq<Step>) {
    forall i | 0 <= i < |steps| ::
      || steps[i].Write? || steps[i].Publish? || steps[i].RestartServer?
      || steps[i].DamageCache? || steps[i].DamageRevision?
  }

  ghost predicate NoNewStart(steps: seq<Step>) {
    forall i | 0 <= i < |steps| ::
      !steps[i].Collect? && !steps[i].FailPoll? && !steps[i].FailPull? && !steps[i].CrashClient?
  }

  lemma {:induction false} ServerGoesOn(s: System, steps: seq<Step>)
    requires Legal(s, steps) && ServerSide(steps)
    ensures Run(s, steps).client == s.client && Events(s) <= Events(Run(s, steps))
  {
    if steps != [] {
      ServerGoesOn(s, steps[..|steps| - 1]);
      assert !steps[|steps| - 1].Collect?;
    }
  }

  /** Collection, steps of the server, and the reading of Rev. */
  ghost predicate Answers(s: System, a: seq<Step>) {
    && Sound(s) && Enabled(s, Collect) && ServerSide(a)
    && Legal(Next(s, Collect), a) && Enabled(Run(Next(s, Collect), a), ReadPollRev)
  }

  /** The state in which Rev is read. */
  ghost function Reading(s: System, a: seq<Step>): System
    requires Answers(s, a)
  {
    Run(Next(s, Collect), a)
  }

  /** From then on, no step abandons the poll, and it ends. */
  ghost predicate WholePoll(s: System, a: seq<Step>, b: seq<Step>) {
    && Answers(s, a) && Legal(Next(Reading(s, a), ReadPollRev), b) && NoNewStart(b)
    && Run(Next(Reading(s, a), ReadPollRev), b).client.phase.Idle?
  }

  /** The client while it works on the answer that `r` has got. */
  ghost predicate WorksOn(r: Replica, c: Replica) {
    && r.phase.PollReady?
    && var done := r.(configs := FoldOps(r.configs, OpsFor(r.phase.events)),
                      account := PolledAccount(r.account, r.phase.lo, r.phase.hi));
    match c.phase
    case PollReady(_, _, _, _) => c == r
    case Applied(rev, _) => rev == r.phase.rev && c == done.(phase := c.phase)
    case Idle => c == FinishedReplica(done, r.phase.rev)
    case _ => false
  }

  lemma KeepsWorking(r: Replica, s: System, step: Step)
    requires WorksOn(r, s.client) && Enabled(s, step) && NoNewStart([step])
    ensures WorksOn(r, Next(s, step).client)
  {
    var steps := [step];
    assert !steps[0].Collect? && !steps[0].FailPoll? && !steps[0].FailPull? && !steps[0].CrashClient?;
  }

  lemma {:induction false} RunWorksOn(s: System, steps: seq<Step>)
    requires Legal(s, steps) && NoNewStart(steps) && s.client.phase.PollReady?
    ensures WorksOn(s.client, Run(s, steps).client)
  {
    if steps != [] {
      RunWorksOn(s, steps[..|steps| - 1]);
      KeepsWorking(s.client, Run(s, steps[..|steps| - 1]), steps[|steps| - 1]);
    }
  }

  /** When Rev is read, the client is as the collection left it, and Rev is the number of events. */
  lemma ReadClient(s: System, a: seq<Step>)
    requires Answers(s, a)
    ensures var c, m := Next(s, Collect).client, Reading(s, a);
            && c.phase.Collected? && Events(s) <= Events(m) && m.client == c
            && Next(m, ReadPollRev).client
               == c.(phase := PollReady(c.phase.events, c.phase.lo, c.phase.hi, |Events(m)|))
  {
    var collected := Next(s, Collect);
    ServerGoesOn(collected, a);
    StepKeepsSound(s, Collect);
    RunKeepsSound(collected, a);
    CollectOnlyReads(s);
    PollRead(Reading(s, a));
  }

  lemma CollectOnlyReads(s: System)
    requires Enabled(s, Collect)
    ensures Next(s, Collect).client.phase.Collected? && Events(Next(s, Collect)) == Events(s)
  {
  }

  lemma PollRead(m: System)
    requires Sound(m) && Enabled(m, ReadPollRev)
    ensures var c := m.client;
            Next(m, ReadPollRev).client == c.(phase := PollReady(c.phase.events, c.phase.lo, c.phase.hi, |Events(m)|))
  {
    AnsweredClient(m);
  }

  /**
    A whole poll, with any steps of the server in between: the client applies
    exactly the events it asked for at the collection, in order, and moves to the
    revision of the moment at which Rev was read. Of the positions up to there,
    it has newly got those in the ring at the collection, and no others.
   */
  lemma PollExactly(s: System, a: seq<Step>, b: seq<Step>) returns (at: seq<nat>, found: seq<Event>)
    requires WholePoll(s, a, b)
    ensures AsksFor(s, at) && Picked(Events(s), at, found)
    ensures var rev := |Events(Reading(s, a))|;
            var c := Run(Next(Reading(s, a), ReadPollRev), b).client;
            && Events(s) <= Events(Reading(s, a)) && c.configs == FoldOps(s.client.configs, OpsFor(found))
            && c.account.upto == rev && c.revision == (if rev > 0 then rev else s.client.revision)
            && (forall i: nat :: i in c.account.got <==>
                  i in s.client.account.got || (InRing(s, i) && s.client.revision <= i))
  {
    at := CollectAnswers(s);
    var collected := Next(s, Collect);
    found := collected.client.phase.events;
    ReadClient(s, a);
    RunWorksOn(Next(Reading(s, a), ReadPollRev), b);
    RangeHolds(collected.client.phase.lo, collected.client.phase.hi);
  }

  // ----- A pull from its listing to its end -----

  ghost predicate Lists(s: System, entries: seq<Entry>, a: seq<Step>) {
    && Sound(s) && Enabled(s, ListNamespace(entries)) && ServerSide(a)
    && Legal(Next(s, ListNamespace(entries)), a)
    && Enabled(Run(Next(s, ListNamespace(entries)), a), ReadPullRev)
  }

  ghost function ReadingPull(s: System, entries: seq<Entry>, a: seq<Step>): System
    requires Lists(s, entries, a)
  {
    Run(Next(s, ListNamespace(entries)), a)
  }

  ghost predicate PullsWith(r: Replica, c: Replica) {
    && r.phase.PullReady?
    && match c.phase
       case PullReady(_, _, _) => c == r
       case Pulled => c == Replica(FoldOps(r.configs, PutsOf(r.phase.entries)), r.phase.rev, Pulled,
                                   Account(Range(0, r.phase.at), r.phase.rev, true, false), r.recovered)
       case Idle => c == Replica(FoldOps(r.configs, PutsOf(r.phase.entries)), r.phase.rev, Idle,
                                 Account(Range(0, r.phase.at), r.phase.rev, true, false), r.recovered)
       case _ => false
  }

  lemma KeepsPulling(r: Replica, s: System, step: Step)
    requires PullsWith(r, s.client) && Enabled(s, step) && NoNewStart([step])
    ensures PullsWith(r, Next(s, step).client)
  {
    var steps := [step];
    assert !steps[0].Collect? && !steps[0].FailPoll? && !steps[0].FailPull? && !steps[0].CrashClient?;
  }

  lemma {:induction false} RunPullsWith(s: System, steps: seq<Step>)
    requires Legal(s, steps) && NoNewStart(steps) && s.client.phase.PullReady?
    ensures PullsWith(s.client, Run(s, steps).client)
  {
    if steps != [] {
      RunPullsWith(s, steps[..|steps| - 1]);
      KeepsPulling(s.client, Run(s, steps[..|steps| - 1]), steps[|steps| - 1]);
    }
  }

  lemma ReadPullClient(s: System, entries: seq<Entry>, a: seq<Step>)
    requires Lists(s, entries, a)
    ensures var m := ReadingPull(s, entries, a);
            && Events(s) <= Events(m)
            && Next(m, ReadPullRev).client
               == NEW_REPLICA.(phase := PullReady(entries, |Events(s)|, |Events(m)|))
  {
    var listed := Next(s, ListNamespace(entries));
    ListedClient(s, entries);
    ServerGoesOn(listed, a);
    StepKeepsSound(s, ListNamespace(entries));
    RunKeepsSound(listed, a);
    PullRead(ReadingPull(s, entries, a));
  }

  lemma ListedClient(s: System, entries: seq<Entry>)
    requires Sound(s) && Enabled(s, ListNamespace(entries))
    ensures s.client == NEW_REPLICA
    ensures Next(s, ListNamespace(entries)).client == NEW_REPLICA.(phase := Listed(entries, |Events(s)|))
    ensures Events(Next(s, ListNamespace(entries))) == Events(s)
  {
  }

  lemma PullRead(m: System)
    requires Sound(m) && Enabled(m, ReadPullRev)
    ensures Next(m, ReadPullRev).client
         == m.client.(phase := PullReady(m.client.phase.entries, m.client.phase.at, |Events(m)|))
  {
  }

  /**
    A whole pull, with any steps of the server in between: the configs are the
    namespace of the moment of the listing, the revision is that of the moment at
    which Rev was read, and what came in between is what the client lacks.
   */
  lemma PullExactly(s: System, entries: seq<Entry>, a: seq<Step>, b: seq<Step>)
    requires Lists(s, entries, a) && Legal(Next(ReadingPull(s, entries, a), ReadPullRev), b) && NoNewStart(b)
    requires Run(Next(ReadingPull(s, entries, a), ReadPullRev), b).client.phase.Idle?
    ensures var rev := |Events(ReadingPull(s, entries, a))|;
            var c := Run(Next(ReadingPull(s, entries, a), ReadPullRev), b).client;
            && Events(s) <= Events(ReadingPull(s, entries, a)) && c.configs == NamespaceAt(s, |Events(s)|)
            && c.revision == c.account.upto == rev && forall i: nat :: i in c.account.got <==> i < |Events(s)|
  {
    ReadPullClient(s, entries, a);
    RunPullsWith(Next(ReadingPull(s, entries, a), ReadPullRev), b);
    assert Events(s)[..|Events(s)|] == Events(s);
    PulledNamespace(s, entries, |Events(s)|);
    RangeHolds(0, |Events(s)|);
  }

  // ----- What the server and the cache file hold -----

  /** The operations written, in order. */
  function Written(steps: seq<Step>): seq<Op> {
    if steps == [] then []
    else Written(steps[..|steps| - 1]) + if steps[|steps| - 1].Write? then [steps[|steps| - 1].op] else []
  }

  /** The server's store and history are what its writes make of those at the start, whatever else happens. */
  lemma {:induction false} LedgerOfWrites(s: System, steps: seq<Step>)
    requires Legal(s, steps)
    ensures Run(s, steps).server.ledger == RecordAll(s.server.ledger, Written(steps))
  {
    if steps != [] {
      var init, step := steps[..|steps| - 1], steps[|steps| - 1];
      LedgerOfWrites(s, init);
      if step.Write? {
        assert Written(steps)[..|Written(steps)| - 1] == Written(init);
      } else {
        assert Written(steps) == Written(init);
      }
    }
  }

  ghost predicate KeepsFile(steps: seq<Step>) {
    forall i | 0 <= i < |steps| :: !steps[i].DamageCache? && !steps[i].DamageRevision?
  }

  /** A file that is there is intact; at rest it has the client's configs, and if there is none the client has none. */
  ghost predicate CacheCurrent(s: System) {
    && s.caching && !s.cache.slot.Corrupt?
    && (s.cache.slot.Holds? ==> s.checksum(s.cache.slot.file.configs) == s.cache.slot.file.checksum)
    && (Polling(s.client.phase) || (s.client.phase.Applied? && !s.client.phase.unsaved) ==>
          s.client.configs == if s.cache.slot.Holds? then s.cache.slot.file.configs else map[])
  }

  lemma StepKeepsCurrent(s: System, step: Step)
    requires Sound(s) && CacheCurrent(s) && Enabled(s, step) && !step.DamageCache? && !step.DamageRevision?
    ensures CacheCurrent(Next(s, step))
  {
    if step.FailPull? {
      assert s.client.configs == map[];
    } else if step.ApplyPoll? {
      assert OpsFor([]) == [];
    }
  }

  /** Unless the file is damaged, a client with a cache directory has saved all its configs whenever it is at rest. */
  lemma {:induction false} CacheIsCurrent(start: System, steps: seq<Step>)
    requires Initial(start) && start.caching && Legal(start, steps) && KeepsFile(steps)
    ensures CacheCurrent(Run(start, steps))
  {
    if steps != [] {
      var init := steps[..|steps| - 1];
      CacheIsCurrent(start, init);
      InitialIsSound(start);
      RunKeepsSound(start, init);
      StepKeepsCurrent(Run(start, init), steps[|steps| - 1]);
    }
  }

  // ----- What may be evicted -----

  /** The server has restarted since, or at least `capacity` events have been published after this one. */
  predicate Overrun(server: Server, i: nat) {
    i < server.base || i + server.capacity < server.ring
  }

  ghost predicate EvictionsSound(s: System) {
    && RingInHistory(s)
    && (forall i | i in s.lost.evicted :: Overrun(s.server, i))
    && (s.client.phase.Collected? || s.client.phase.PollReady? ==>
          forall i | s.client.revision <= i < s.client.phase.lo :: Overrun(s.server, i))
  }

  lemma CollectPassesOver(s: System)
    requires RingInHistory(s)
    ensures forall i: nat | i < RingLow(s.server) :: Overrun(s.server, i)
  {
  }

  lemma ServerOnlyGrows(s: System, step: Step)
    requires RingInHistory(s) && Enabled(s, step)
    ensures RingInHistory(Next(s, step))
    ensures forall i: nat | Overrun(s.server, i) :: Overrun(Next(s, step).server, i)
  {
  }

  lemma StepEvicts(s: System, step: Step)
    requires Sound(s) && EvictionsSound(s) && Enabled(s, step)
    ensures EvictionsSound(Next(s, step))
  {
    ServerOnlyGrows(s, step);
    if step.ApplyPoll? {
      RangeHolds(s.client.revision, s.client.phase.lo);
    } else if step.Collect? {
      CollectPassesOver(s);
    }
  }

  /** In every run, what was evicted lay before a restart of the server or had `capacity` events after it. */
  lemma {:induction false} EvictedWereOverrun(start: System, steps: seq<Step>)
    requires Initial(start) && Legal(start, steps)
    ensures EvictionsSound(Run(start, steps))
  {
    if steps != [] {
      var init := steps[..|steps| - 1];
      EvictedWereOverrun(start, init);
      InitialIsSound(start);
      RunKeepsSound(start, init);
      StepEvicts(Run(start, init), steps[|steps| - 1]);
    }
  }

  ghost predicate NeverRestarts(steps: seq<Step>) {
    forall i | 0 <= i < |steps| :: !steps[i].RestartServer?
  }

  lemma {:induction false} RingKept(start: System, steps: seq<Step>)
    requires Legal(start, steps) && NeverRestarts(steps)
    ensures var server := Run(start, steps).server;
            server.base == start.server.base && server.capacity == start.server.capacity
  {
    if steps != [] {
      RingKept(start, steps[..|steps| - 1]);
      assert !steps[|steps| - 1].RestartServer?;
    }
  }

  /** After a restart of the server its ring holds only what has been published since, up to the next one. */
  lemma RingSinceRestart(s: System, steps: seq<Step>, i: nat)
    requires Enabled(s, RestartServer) && Legal(Next(s, RestartServer), steps) && NeverRestarts(steps)
    requires InRing(Run(Next(s, RestartServer), steps), i)
    ensures |Events(s)| <= i
  {
    RingKept(Next(s, RestartServer), steps);
  }

  /** Without a restart and with no more events than the ring has room for, only what was there before it is evicted. */
  lemma NothingEvicted(start: System, steps: seq<Step>)
    requires Initial(start) && Legal(start, steps) && NeverRestarts(steps)
    requires Run(start, steps).server.ring <= start.server.base + start.server.capacity
    ensures forall i | i in Run(start, steps).lost.evicted :: i < start.server.base
  {
    EvictedWereOverrun(start, steps);
    RingKept(start, steps);
  }

  // ----- What may fall in a gap -----

  lemma {:induction false} LegalBefore(s: System, steps: seq<Step>, j: nat)
    requires Legal(s, steps) && j <= |steps|
    ensures Legal(s, steps[..j])
  {
    if j == |steps| {
      assert steps[..j] == steps;
    } else {
      LegalBefore(s, steps[..|steps| - 1], j);
      assert steps[..j] == steps[..|steps| - 1][..j];
    }
  }

  /** What a client can be given at this moment: what is published for a poll, what is stored for a pull. */
  ghost predicate Gathers(s: System, step: Step, upTo: nat) {
    (step.Collect? && upTo == s.server.ring) || (step.ListNamespace? && upTo == |Events(s)|)
  }

  /** At step `j` the data of a pull or poll were gathered, all below `upTo`. */
  ghost predicate GatheredAt(start: System, steps: seq<Step>, j: nat, upTo: nat) {
    && j < |steps| && Legal(start, steps[..j])
    && Gathers(Run(start, steps[..j]), steps[j], upTo)
  }

  /** After that, at step `l`, Rev was read, at or above `rev`. */
  ghost predicate ReadAt(start: System, steps: seq<Step>, j: nat, l: nat, rev: nat) {
    && j < l < |steps| && Legal(start, steps[..l])
    && (steps[l].ReadPollRev? || steps[l].ReadPullRev?) && rev <= |Events(Run(start, steps[..l]))|
  }

  /** Position `i` came after the data were gathered and before Rev was read. */
  ghost predicate FellBetween(start: System, steps: seq<Step>, i: nat, j: nat, l: nat, upTo: nat) {
    GatheredAt(start, steps, j, upTo) && upTo <= i && ReadAt(start, steps, j, l, i + 1)
  }

  ghost predicate FellInGap(start: System, steps: seq<Step>, i: nat) {
    exists j: nat, l: nat, upTo: nat :: FellBetween(start, steps, i, j, l, upTo)
  }

  /** What the client would pass over with the revision it has read, or has yet to read. */
  ghost predicate GapAhead(start: System, steps: seq<Step>, c: Replica) {
    match c.phase
    case Listed(_, at) => exists j: nat :: GatheredAt(start, steps, j, at)
    case Collected(_, _, hi) => exists j: nat :: GatheredAt(start, steps, j, hi)
    case PullReady(_, at, rev) => forall i: nat | at <= i < rev :: FellInGap(start, steps, i)
    case PollReady(_, _, hi, rev) => forall i: nat | hi <= i < rev :: FellInGap(start, steps, i)
    case Applied(rev, _) => forall i: nat | c.account.upto <= i < rev :: FellInGap(start, steps, i)
    case _ => true
  }

  ghost predicate GapsSound(start: System, steps: seq<Step>)
    requires Legal(start, steps)
  {
    var s := Run(start, steps);
    && (forall i | i in s.lost.gaps :: FellInGap(start, steps, i))
    && GapAhead(start, steps, s.client)
  }

  lemma GatheredStays(start: System, steps: seq<Step>, step: Step, j: nat, upTo: nat)
    requires GatheredAt(start, steps, j, upTo)
    ensures GatheredAt(start, steps + [step], j, upTo)
  {
    assert (steps + [step])[..j] == steps[..j];
  }

  lemma GapStays(start: System, steps: seq<Step>, step: Step, i: nat)
    requires FellInGap(start, steps, i)
    ensures FellInGap(start, steps + [step], i)
  {
    var j: nat, l: nat, upTo: nat :| FellBetween(start, steps, i, j, l, upTo);
    GatheredStays(start, steps, step, j, upTo);
    assert (steps + [step])[..l] == steps[..l];
    assert FellBetween(start, steps + [step], i, j, l, upTo);
  }

  lemma GapsStay(start: System, steps: seq<Step>, step: Step)
    ensures forall i | FellInGap(start, steps, i) :: FellInGap(start, steps + [step], i)
  {
    forall i | FellInGap(start, steps, i)
      ensures FellInGap(start, steps + [step], i)
    {
      GapStays(start, steps, step, i);
    }
  }

  /** The reading of Rev makes a gap of what came since the data were gathered. */
  lemma ReadMakesGap(start: System, steps: seq<Step>, step: Step, j: nat, upTo: nat)
    requires Legal(start, steps) && GatheredAt(start, steps, j, upTo) && (step.ReadPollRev? || step.ReadPullRev?)
    ensures forall i: nat | upTo <= i < |Events(Run(start, steps))| :: FellInGap(start, steps + [step], i)
  {
    GatheredStays(start, steps, step, j, upTo);
    assert (steps + [step])[..|steps|] == steps;
    forall i: nat | upTo <= i < |Events(Run(start, steps))|
      ensures FellInGap(start, steps + [step], i)
    {
      assert FellBetween(start, steps + [step], i, j, |steps|, upTo);
    }
  }

  lemma StepGathers(start: System, steps: seq<Step>, step: Step)
    requires Legal(start, steps) && (step.Collect? || step.ListNamespace?)
    ensures GatheredAt(start, steps + [step], |steps|,
                       if step.Collect? then Run(start, steps).server.ring else |Events(Run(start, steps))|)
  {
    assert (steps + [step])[..|steps|] == steps;
  }

  lemma NewGaps(s: System, step: Step)
    requires Sound(s) && Enabled(s, step)
    ensures forall i | i in Next(s, step).lost.gaps ::
              || i in s.lost.gaps
              || (step.ApplyPull? && s.client.phase.at <= i < s.client.phase.rev)
              || (step.FinishPoll? && s.client.account.upto <= i < s.client.phase.rev)
  {
    if step.ApplyPull? {
      RangeHolds(s.client.phase.at, s.client.phase.rev);
    } else if step.FinishPoll? {
      RangeHolds(Max(s.client.account.upto, s.client.revision), s.client.phase.rev);
    }
  }

  lemma AheadStays(start: System, steps: seq<Step>, step: Step, c: Replica)
    requires GapAhead(start, steps, c)
    ensures GapAhead(start, steps + [step], c)
  {
    GapsStay(start, steps, step);
    if c.phase.Collected? || c.phase.Listed? {
      var upTo := if c.phase.Collected? then c.phase.hi else c.phase.at;
      var j: nat :| GatheredAt(start, steps, j, upTo);
      GatheredStays(start, steps, step, j, upTo);
    }
  }

  lemma ReadingLooksAhead(start: System, steps: seq<Step>, step: Step)
    requires Legal(start, steps) && Sound(Run(start, steps)) && Enabled(Run(start, steps), step)
    requires GapsSound(start, steps) && (step.ReadPollRev? || step.ReadPullRev?)
    ensures GapAhead(start, steps + [step], Next(Run(start, steps), step).client)
  {
    var c := Run(start, steps).client;
    var upTo := if c.phase.Collected? then c.phase.hi else c.phase.at;
    var j: nat :| GatheredAt(start, steps, j, upTo);
    ReadMakesGap(start, steps, step, j, upTo);
  }

  /** Apart from gathering and reading, a step leaves the client with no more to pass over. */
  lemma StepLooksAhead(start: System, steps: seq<Step>, s: System, step: Step)
    requires Enabled(s, step) && GapAhead(start, steps, s.client)
    requires !step.Collect? && !step.ListNamespace? && !step.ReadPollRev? && !step.ReadPullRev?
    ensures GapAhead(start, steps, Next(s, step).client)
  {
  }

  lemma StepKeepsGaps(start: System, steps: seq<Step>, step: Step)
    requires Legal(start, steps) && Sound(Run(start, steps)) && Enabled(Run(start, steps), step)
    requires GapsSound(start, steps) && Legal(start, steps + [step])
    requires Run(start, steps + [step]) == Next(Run(start, steps), step)
    ensures GapsSound(start, steps + [step])
  {
    var s := Run(start, steps);
    NewGaps(s, step);
    GapsStay(start, steps, step);
    if step.Collect? || step.ListNamespace? {
      StepGathers(start, steps, step);
    } else if step.ReadPollRev? || step.ReadPullRev? {
      ReadingLooksAhead(start, steps, step);
    } else {
      StepLooksAhead(start, steps, s, step);
      AheadStays(start, steps, step, Next(s, step).client);
    }
  }

  /**
    In every run, what a client lacks as a gap had not been published when its
    poll collected, or not been stored when its pull listed, and was stored when
    Rev was read after that.
   */
  lemma {:induction false} GapsFellBetween(start: System, steps: seq<Step>)
    requires Initial(start) && Legal(start, steps)
    ensures GapsSound(start, steps)
  {
    if steps != [] {
      var init, step := steps[..|steps| - 1], steps[|steps| - 1];
      GapsFellBetween(start, init);
      InitialIsSound(start);
      RunKeepsSound(start, init);
      assert steps == init + [step];
      StepKeepsGaps(start, init, step);
    }
  }

  // ----- Healthy runs -----

  /** Nothing is stored between the listing or collection and the reading of Rev, or half-published at a collection. */
  ghost predicate QuietStep(s: System, step: Step) {
    && (step.Write? ==> !s.client.phase.Listed? && !s.client.phase.Collected?)
    && (step.Collect? ==> s.server.ring == |Events(s)|)
  }

  ghost predicate QuietRun(s: System, steps: seq<Step>)
    requires Legal(s, steps)
  {
    steps == [] ||
    (QuietRun(s, steps[..|steps| - 1]) && QuietStep(Run(s, steps[..|steps| - 1]), steps[|steps| - 1]))
  }

  /** Data and revision of the client are of the same moment. */
  ghost predicate NoGap(s: System) {
    && s.lost.gaps == {}
    && match s.client.phase
       case Listed(_, at) => at == |Events(s)|
       case Collected(_, _, hi) => hi == |Events(s)|
       case PullReady(_, at, rev) => at == rev
       case PollReady(_, _, hi, rev) => hi == rev
       case Applied(rev, _) => s.client.account.upto == rev
       case _ => true
  }

  lemma QuietStepKeepsNoGap(s: System, step: Step)
    requires Sound(s) && NoGap(s) && Enabled(s, step) && QuietStep(s, step)
    ensures NoGap(Next(s, step))
  {
    NewGaps(s, step);
  }

  lemma {:induction false} QuietRunHasNoGap(start: System, steps: seq<Step>)
    requires Initial(start) && Legal(start, steps) && QuietRun(start, steps)
    ensures NoGap(Run(start, steps))
  {
    if steps != [] {
      var init := steps[..|steps| - 1];
      QuietRunHasNoGap(start, init);
      InitialIsSound(start);
      RunKeepsSound(start, init);
      QuietStepKeepsNoGap(Run(start, init), steps[|steps| - 1]);
    }
  }

  /** No restart, no more events than the ring has room for, no damage to a revision, and quiet readings. */
  ghost predicate HealthyRun(start: System, steps: seq<Step>) {
    && Initial(start) && start.server.base == 0 && Legal(start, steps)
    && NeverRestarts(steps) && KeepsRevisions(steps) && QuietRun(start, steps)
    && Run(start, steps).server.ring <= start.server.capacity
  }

  /**
    In a healthy run a client loses nothing: whatever crashes, failed pulls and
    polls and lost or damaged cached configs it goes through, its configs are
    always its namespace at its position, which between polls is its revision.
   */
  lemma HealthyRunConverges(start: System, steps: seq<Step>)
    requires HealthyRun(start, steps)
    ensures var s := Run(start, steps);
            var c := s.client;
            && s.lost == NOTHING_LOST
            && c.account.upto <= |Events(s)| && c.configs == NamespaceAt(s, c.account.upto)
            && c.revision <= c.account.upto
            && (c.phase.Idle? && !c.recovered ==> c.account.upto == c.revision)
  {
    var s := Run(start, steps);
    NothingEvicted(start, steps);
    QuietRunHasNoGap(start, steps);
    ClientAccounted(start, steps);
    ClientConverges(start, steps);
    assert s.lost.evicted == {};
  }

  // ----- A poll at the end of a healthy run -----

  lemma {:induction false} RunInParts(s: System, a: seq<Step>, b: seq<Step>)
    requires Legal(s, a) && Legal(Run(s, a), b)
    ensures Legal(s, a + b) && Run(s, a + b) == Run(Run(s, a), b)
  {
    if b == [] {
      assert a + b == a;
    } else {
      RunInParts(s, a, b[..|b| - 1]);
      assert (a + b)[..|a + b| - 1] == a + b[..|b| - 1];
    }
  }

  lemma StepFirst(s: System, step: Step, steps: seq<Step>)
    requires Enabled(s, step) && Legal(Next(s, step), steps)
    ensures Legal(s, [step] + steps) && Run(s, [step] + steps) == Run(Next(s, step), steps)
  {
    assert [step][..0] == [] && Legal(s, []) && Run(s, []) == s;
    RunInParts(s, [step], steps);
  }

  /** The steps of a poll: the server takes `a` before Rev is read, and client and server take `b` after it. */
  function PollSteps(a: seq<Step>, b: seq<Step>): seq<Step> {
    [Collect] + (a + ([ReadPollRev] + b))
  }

  lemma PollIsRun(start: System, steps: seq<Step>, a: seq<Step>, b: seq<Step>)
    requires Legal(start, steps) && WholePoll(Run(start, steps), a, b)
    ensures var s := Run(start, steps);
            && Legal(start, steps + PollSteps(a, b))
            && Run(start, steps + PollSteps(a, b)) == Run(Next(Reading(s, a), ReadPollRev), b)
  {
    var s := Run(start, steps);
    StepFirst(Reading(s, a), ReadPollRev, b);
    RunInParts(Next(s, Collect), a, [ReadPollRev] + b);
    StepFirst(s, Collect, a + ([ReadPollRev] + b));
    RunInParts(start, steps, PollSteps(a, b));
  }

  /** And a poll of a healthy run brings the client up to date: it holds the namespace as it was when Rev was read. */
  lemma HealthyPollCatchesUp(start: System, steps: seq<Step>, a: seq<Step>, b: seq<Step>)
    requires Legal(start, steps) && WholePoll(Run(start, steps), a, b)
    requires HealthyRun(start, steps + PollSteps(a, b))
    ensures Legal(start, steps + PollSteps(a, b))
    ensures var s, e := Run(start, steps), Run(start, steps + PollSteps(a, b));
            && |Events(s)| <= |Events(Reading(s, a))| <= |Events(e)|
            && e.client.configs == NamespaceAt(e, |Events(Reading(s, a))|)
  {
    PollIsRun(start, steps, a, b);
    HealthyRunConverges(start, steps + PollSteps(a, b));
    var at, found := PollExactly(Run(start, steps), a, b);
  }

  // ----- A healthy run that delivers an event -----

  ghost predicate HealthySteps(start: System, steps: seq<Step>) {
    Legal(start, steps) && NeverRestarts(steps) && KeepsRevisions(steps) && QuietRun(start, steps)
  }

  lemma HealthyStepMore(start: System, steps: seq<Step>, step: Step) returns (more: seq<Step>)
    requires HealthySteps(start, steps) && Enabled(Run(start, steps), step) && QuietStep(Run(start, steps), step)
    requires !step.RestartServer? && !step.DamageRevision?
    ensures more == steps + [step] && HealthySteps(start, more) && Run(start, more) == Next(Run(start, steps), step)
  {
    more := OneStepMore(start, steps, step);
    assert more[..|more| - 1] == steps;
  }

  lemma PulledHealthily(checksum: Checksum) returns (steps: seq<Step>)
    ensures var start := EmptySystem(checksum, false);
            && Initial(start) && HealthySteps(start, steps)
            && Run(start, steps) == start.(client := NEW_REPLICA.(phase := Idle))
  {
    var start := EmptySystem(checksum, false);
    steps := [];
    steps := HealthyStepMore(start, steps, ListNamespace([]));
    assert Run(start, steps) == start.(client := NEW_REPLICA.(phase := Listed([], 0)));
    steps := HealthyStepMore(start, steps, ReadPullRev);
    assert Run(start, steps) == start.(client := NEW_REPLICA.(phase := PullReady([], 0, 0)));
    PulledEmpty(Run(start, steps));
    steps := HealthyStepMore(start, steps, ApplyPull);
    steps := HealthyStepMore(start, steps, SaveCache);
  }

  lemma PulledEmpty(s: System)
    requires s.client == NEW_REPLICA.(phase := PullReady([], 0, 0)) && s.lost == NOTHING_LOST
    ensures Next(s, ApplyPull) == s.(client := NEW_REPLICA.(phase := Pulled))
  {
    assert FoldOps(map[], PutsOf([])) == map[] && Range(0, 0) == {};
  }

  /** The client has pulled nothing, and then the first put of its namespace is published. */
  lemma PublishedPut(checksum: Checksum) returns (steps: seq<Step>)
    ensures var start := EmptySystem(checksum, false);
            && Initial(start) && HealthySteps(start, steps)
            && Run(start, steps)
               == start.(client := NEW_REPLICA.(phase := Idle),
                         server := Server(Record(Ledger(EMPTY_DB, []), OpPut("t/n/a", "v")), 0, 1, 4096))
  {
    var start := EmptySystem(checksum, false);
    steps := PulledHealthily(checksum);
    steps := HealthyStepMore(start, steps, Write(OpPut("t/n/a", "v")));
    steps := HealthyStepMore(start, steps, Publish);
  }

  lemma PolledPut(checksum: Checksum) returns (steps: seq<Step>)
    ensures var start := EmptySystem(checksum, false);
            && Initial(start) && HealthySteps(start, steps)
            && var s := Run(start, steps);
               && s.client.phase.PollReady? && s.client.phase.rev == 1 && s.prefix == "t/n/"
               && s.server == Server(Record(Ledger(EMPTY_DB, []), OpPut("t/n/a", "v")), 0, 1, 4096)
  {
    var start := EmptySystem(checksum, false);
    steps := PublishedPut(checksum);
    steps := HealthyStepMore(start, steps, Collect);
    assert Run(start, steps).client.phase.Collected?;
    steps := HealthyStepMore(start, steps, ReadPollRev);
  }

  /** The healthy run that goes on with a poll: it delivers the entry. */
  lemma DeliveryHappens(checksum: Checksum) returns (start: System, steps: seq<Step>)
    ensures HealthyRun(start, steps)
    ensures var s := Run(start, steps);
            && s.client.phase.Idle? && s.client.revision == s.server.ledger.db.rev == 1
            && s.client.configs == map["t/n/a" := "v"]
  {
    start := EmptySystem(checksum, false);
    steps := PolledPut(checksum);
    InitialIsSound(start);
    RunKeepsSound(start, steps);
    steps := PollEnds(start, steps);
    FirstEntryHeld(start, steps);
  }

  lemma PollEnds(start: System, steps: seq<Step>) returns (more: seq<Step>)
    requires HealthySteps(start, steps) && Sound(Run(start, steps)) && Run(start, steps).client.phase.PollReady?
    ensures HealthySteps(start, more)
    ensures var s, e := Run(start, steps), Run(start, more);
            && e.server == s.server && e.prefix == s.prefix && e.client.phase.Idle?
            && e.client.account.upto == s.client.phase.rev
            && (s.client.phase.rev > 0 ==> e.client.revision == s.client.phase.rev)
  {
    more := HealthyStepMore(start, steps, ApplyPoll);
    if Run(start, more).client.phase.unsaved {
      more := HealthyStepMore(start, more, SaveCache);
    }
    more := HealthyStepMore(start, more, FinishPoll);
  }

  lemma FirstEntryHeld(start: System, steps: seq<Step>)
    requires HealthyRun(start, steps)
    requires var s := Run(start, steps);
             && s.prefix == "t/n/" && s.server.ledger == Record(Ledger(EMPTY_DB, []), OpPut("t/n/a", "v"))
             && s.client.account.upto == 1
    ensures Run(start, steps).client.configs == map["t/n/a" := "v"]
  {
    var s := Run(start, steps);
    HealthyRunConverges(start, steps);
    EntryOfNamespace(s);
    HistoryExplains(EMPTY_DB, [OpPut("t/n/a", "v")]);
    assert [OpPut("t/n/a", "v")][..0] == [];
    assert Events(s)[..1] == Events(s);
  }
}
