/**
  One server, its writer and one client, in every interleaving
  (store/watchable.go, server/watch.go, server/server.go:214-232, sdk/client.go).

  A write is two steps, because the store shows it before the ring does. A full
  pull is List, then Rev, then the client's update; a poll is the collection of
  events, then Rev, then the client's update, the cache file, and the move of
  the revision. The server may restart on its data, the client may crash and
  fall back to its cache file, and the cache file may be lost or damaged. The
  checksum in the file is that of its configs, so load notices damage to them;
  it takes over the revision beside them as it finds it.

  Event `i` of the history has revision `i + 1`, so a revision is also the
  number of events up to it. The fields `account`, `recovered` and `lost` only
  keep account; nothing else in a step depends on them.
 */
module ReplicaProtocol {
  import opened Wrappers
  import opened Entries
  import opened Replay
  import opened History
  import opened Restores
  import opened WatchRing
  import opened Sdk
  import opened Deliveries

  /** The ring holds events of positions [base, ring), as far as its capacity goes. */
  datatype Server = Server(ledger: Ledger, base: nat, ring: nat, capacity: nat)

  datatype Phase =
    | Starting
    | Listed(entries: seq<Entry>, at: nat)
    | PullReady(entries: seq<Entry>, at: nat, rev: nat)
    | Pulled
    | Idle
    | Collected(events: seq<Event>, lo: nat, hi: nat)
    | PollReady(events: seq<Event>, lo: nat, hi: nat, rev: nat)
    | Applied(rev: nat, unsaved: bool)

  /**
    What a client has been given: the positions `got`, all below `upto`.
    `inOrder` says that a later event never came before an earlier one of the
    last poll, and `damaged` that the revision beside it comes from a file whose
    revision was damaged.
   */
  datatype Account = Account(got: set<nat>, upto: nat, inOrder: bool, damaged: bool)

  /** `recovered` means loaded from the cache file and not polled since. */
  datatype Replica = Replica(configs: View, revision: nat, phase: Phase, account: Account, recovered: bool)

  /** The cache file with the account of the client that saved it. */
  datatype Cache = Cache(slot: CacheSlot, account: Account)

  /**
    The positions that a client passed over: `gaps`, because their events came
    between the collection of its data and the reading of Rev; `evicted`,
    because the ring no longer held them; `skipped`, because a damaged revision
    claimed them.
   */
  datatype Lost = Lost(gaps: set<nat>, evicted: set<nat>, skipped: set<nat>)

  datatype System = System(
    server: Server, client: Replica, cache: Cache, prefix: string, caching: bool, checksum: Checksum, lost: Lost)

  datatype Step =
    | Write(op: Op)
    | Publish
    | RestartServer
    | ListNamespace(entries: seq<Entry>)
    | ReadPullRev
    | ApplyPull
    | FailPull
    | Collect
    | ReadPollRev
    | ApplyPoll
    | SaveCache
    | FinishPoll
    | FailPoll
    | CrashClient
    | DamageCache(slot: CacheSlot)
    | DamageRevision(revision: nat)

  const NOTHING_GOT := Account({}, 0, true, false)

  const NEW_REPLICA := Replica(map[], 0, Starting, NOTHING_GOT, false)

  const NOTHING_LOST := Lost({}, {}, {})

  function Events(s: System): seq<Event> {
    s.server.ledger.events
  }

  /** The ring's positions lie in the history: so they do in every reachable state. */
  predicate RingInHistory(s: System) {
    s.server.base <= s.server.ring <= |Events(s)|
  }

  /** The lowest position whose event the ring still holds. */
  function RingLow(server: Server): nat
    requires server.base <= server.ring
  {
    server.base + Oldest(server.ring - server.base, server.capacity)
  }

  ghost predicate ServerSound(s: System) {
    && KeysAgree(s.server.ledger.db.data)
    && Explains(EMPTY_DB, s.server.ledger)
    && RingInHistory(s) && |Events(s)| <= s.server.ring + 1
  }

  ghost predicate Enabled(s: System, step: Step) {
    var phase := s.client.phase;
    match step
    case Write(_) => s.server.ring == |Events(s)|
    case Publish => s.server.ring < |Events(s)|
    case RestartServer => !phase.Listed? && !phase.Collected?
    case ListNamespace(entries) => phase.Starting? && IsListing(s.server.ledger.db.data, s.prefix, entries)
    case ReadPullRev => phase.Listed?
    case ApplyPull => phase.PullReady?
    case FailPull => phase.Starting? || phase.Listed? || phase.PullReady?
    case Collect => phase.Idle? && RingInHistory(s)
    case ReadPollRev => phase.Collected?
    case ApplyPoll => phase.PollReady?
    case SaveCache => phase.Pulled? || (phase.Applied? && phase.unsaved)
    case FinishPoll => phase.Applied? && !phase.unsaved
    case FailPoll => phase.Collected? || phase.PollReady?
    case CrashClient => true
    case DamageCache(slot) => slot.Holds? ==> !Intact(s.checksum, slot.file)
    case DamageRevision(_) => s.cache.slot.Holds?
  }

  /** The client when its pull has failed: what the cache file gives it, or nothing. */
  function Fallback(s: System): Replica {
    var c := s.client.(phase := Idle);
    if s.caching && s.cache.slot.Holds? && Intact(s.checksum, s.cache.slot.file) then
      c.(configs := c.configs + s.cache.slot.file.configs, revision := s.cache.slot.file.revision,
         account := s.cache.account, recovered := true)
    else c
  }

  /** The account after a poll of positions [lo, hi). */
  ghost function PolledAccount(account: Account, lo: nat, hi: nat): Account {
    account.(got := account.got + Range(lo, hi), upto := Max(account.upto, hi),
             inOrder := account.inOrder && (lo < hi ==> account.upto <= hi))
  }

  /** What a poll of positions [lo, hi) passes over, by a client of this revision. */
  ghost function PolledLost(lost: Lost, revision: nat, upto: nat, lo: nat, hi: nat): Lost {
    lost.(evicted := lost.evicted + Range(revision, lo),
          skipped := lost.skipped + Range(upto, Min(revision, hi)))
  }

  /** What a client passes over when it takes over the revision `rev`. */
  ghost function FinishedLost(lost: Lost, revision: nat, upto: nat, rev: nat): Lost {
    lost.(gaps := lost.gaps + Range(Max(upto, revision), rev),
          skipped := lost.skipped + Range(upto, Min(revision, rev)))
  }

  ghost function Next(s: System, step: Step): System
    requires Enabled(s, step)
  {
    var server, client := s.server, s.client;
    var phase := client.phase;
    match step
    case Write(op) => s.(server := server.(ledger := Record(server.ledger, op)))
    case Publish => s.(server := server.(ring := server.ring + 1))
    case RestartServer => s.(server := server.(base := |Events(s)|, ring := |Events(s)|))
    case ListNamespace(entries) => s.(client := client.(phase := Listed(entries, |Events(s)|)))
    case ReadPullRev => s.(client := client.(phase := PullReady(phase.entries, phase.at, server.ledger.db.rev)))
    case ApplyPull =>
      s.(client := client.(configs := FoldOps(client.configs, PutsOf(phase.entries)), revision := phase.rev,
                           phase := Pulled, account := Account(Range(0, phase.at), phase.rev, true, false)),
         lost := s.lost.(gaps := s.lost.gaps + Range(phase.at, phase.rev)))
    case FailPull => s.(client := Fallback(s))
    case Collect =>
      var held := Retained(Events(s)[server.base..server.ring], server.capacity);
      s.(client := client.(phase := Collected(Matching(held, client.revision, s.prefix),
                                              Max(client.revision, RingLow(server)), server.ring)))
    case ReadPollRev =>
      s.(client := client.(phase := PollReady(phase.events, phase.lo, phase.hi, server.ledger.db.rev)))
    case ApplyPoll =>
      s.(client := client.(configs := FoldOps(client.configs, OpsFor(phase.events)),
                           phase := Applied(phase.rev, phase.events != []),
                           account := PolledAccount(client.account, phase.lo, phase.hi)),
         lost := PolledLost(s.lost, client.revision, client.account.upto, phase.lo, phase.hi))
    case SaveCache =>
      var saved := if s.caching
        then Cache(Holds(Saved(s.checksum, client.configs, client.revision)), client.account)
        else s.cache;
      s.(client := client.(phase := if phase.Pulled? then Idle else phase.(unsaved := false)), cache := saved)
    case FinishPoll =>
      // a server without any revision leaves the client its own
      var kept := client.account.damaged && phase.rev == 0;
      s.(client := client.(revision := if phase.rev > 0 then phase.rev else client.revision, phase := Idle,
                           account := client.account.(upto := phase.rev, damaged := kept), recovered := kept),
         lost := FinishedLost(s.lost, client.revision, client.account.upto, phase.rev))
    case FailPoll => s.(client := client.(phase := Idle))
    case CrashClient => s.(client := NEW_REPLICA)
    case DamageCache(slot) => s.(cache := Cache(slot, NOTHING_GOT))
    case DamageRevision(revision) =>
      s.(cache := Cache(Holds(s.cache.slot.file.(revision := revision)), s.cache.account.(damaged := true)))
  }

  // ----- The invariant -----

  ghost predicate IsLost(lost: Lost, i: nat) {
    i in lost.gaps || i in lost.evicted || i in lost.skipped
  }

  ghost predicate LostWithin(lost: Lost, more: Lost) {
    lost.gaps <= more.gaps && lost.evicted <= more.evicted && lost.skipped <= more.skipped
  }

  /** What the account lacks below `upto` was passed over; configs that came in order are those of the events got. */
  ghost predicate Accounted(s: System, configs: View, account: Account) {
    && account.upto <= |Events(s)|
    && (forall i | i in account.got :: i < account.upto)
    && (forall i | 0 <= i < account.upto :: i in account.got || IsLost(s.lost, i))
    && (account.inOrder ==> configs == ConfigsAfter(Events(s), account.got, s.prefix))
  }

  /** A revision of the account: it claims nothing beyond, and nothing was got beyond both it and the ring. */
  ghost predicate Fits(revision: nat, account: Account, ring: nat) {
    revision <= account.upto <= Max(revision, ring)
  }

  ghost predicate UpToDate(c: Replica) {
    c.account.upto == c.revision && !c.account.damaged
  }

  ghost predicate PhaseSound(s: System) {
    var c := s.client;
    match c.phase
    case Starting => c == NEW_REPLICA
    case Listed(entries, at) =>
      && c == NEW_REPLICA.(phase := c.phase) && at <= |Events(s)|
      && IsListing(Fold(map[], Events(s)[..at]), s.prefix, entries)
    case PullReady(entries, at, rev) =>
      && c == NEW_REPLICA.(phase := c.phase) && at <= rev <= |Events(s)|
      && IsListing(Fold(map[], Events(s)[..at]), s.prefix, entries)
    case Pulled => UpToDate(c) && !c.recovered
    case Idle => !c.recovered ==> UpToDate(c)
    case Collected(events, lo, hi) => PollSound(s, events, lo, hi)
    case PollReady(events, lo, hi, rev) =>
      PollSound(s, events, lo, hi) && c.account.upto <= rev && hi <= rev <= |Events(s)|
    case Applied(rev, _) => c.account.upto <= rev <= |Events(s)|
  }

  /** A collected poll carries the matching events of positions [lo, hi). */
  ghost predicate PollSound(s: System, events: seq<Event>, lo: nat, hi: nat) {
    && s.client.revision <= lo && hi <= s.server.ring && hi <= |Events(s)|
    && (!s.client.recovered ==> UpToDate(s.client))
    && (!s.client.account.damaged ==> s.client.account.upto <= Max(s.client.revision, hi))
    && if lo <= hi then events == Matching(Events(s)[lo..hi], s.client.revision, s.prefix) else events == []
  }

  ghost predicate CacheSound(s: System) {
    s.cache.slot.Holds? && Intact(s.checksum, s.cache.slot.file) ==>
      && Accounted(s, s.cache.slot.file.configs, s.cache.account)
      && (!s.cache.account.damaged ==> Fits(s.cache.slot.file.revision, s.cache.account, s.server.ring))
  }

  ghost predicate Sound(s: System) {
    && ServerSound(s)
    && Accounted(s, s.client.configs, s.client.account)
    && (!s.client.account.damaged ==> Fits(s.client.revision, s.client.account, s.server.ring))
    && PhaseSound(s)
    && CacheSound(s)
  }

  /** A new client in front of a server that has run since its store was empty. */
  ghost predicate Initial(s: System) {
    && ServerSound(s)
    && s.client == NEW_REPLICA && s.cache == Cache(Missing, NOTHING_GOT) && s.lost == NOTHING_LOST
  }

  // ----- Every step keeps the invariant -----

  lemma AccountKept(s: System, s': System, configs: View, account: Account)
    requires Accounted(s, configs, account)
    requires Events(s') == Events(s) && s'.prefix == s.prefix && LostWithin(s.lost, s'.lost)
    ensures Accounted(s', configs, account)
  {
  }

  lemma AccountGrows(s: System, s': System, configs: View, account: Account, ev: Event)
    requires Accounted(s, configs, account)
    requires Events(s') == Events(s) + [ev] && s'.prefix == s.prefix && s'.lost == s.lost
    ensures Accounted(s', configs, account)
  {
    AppendUndelivered(Events(s), ev, account.got, s.prefix);
  }

  lemma PhaseGrows(s: System, s': System, ev: Event)
    requires PhaseSound(s) && s'.client == s.client && s'.prefix == s.prefix
    requires Events(s') == Events(s) + [ev] && s'.server.ring == s.server.ring
    ensures PhaseSound(s')
  {
    match s.client.phase
    case Listed(entries, at) => assert Events(s')[..at] == Events(s)[..at];
    case PullReady(entries, at, rev) => assert Events(s')[..at] == Events(s)[..at];
    case Collected(events, lo, hi) => PollGrows(s, s', ev, events, lo, hi);
    case PollReady(events, lo, hi, rev) => PollGrows(s, s', ev, events, lo, hi);
    case _ =>
  }

  lemma PollGrows(s: System, s': System, ev: Event, events: seq<Event>, lo: nat, hi: nat)
    requires PollSound(s, events, lo, hi) && s'.client == s.client && s'.prefix == s.prefix
    requires Events(s') == Events(s) + [ev] && s'.server.ring == s.server.ring
    ensures PollSound(s', events, lo, hi)
  {
    if lo <= hi {
      assert Events(s')[lo..hi] == Events(s)[lo..hi];
    }
  }

  lemma WriteKeepsSound(s: System, op: Op)
    requires Sound(s) && Enabled(s, Write(op))
    ensures Sound(Next(s, Write(op)))
  {
    var s' := Next(s, Write(op));
    RecordExplains(EMPTY_DB, s.server.ledger, op);
    var recorded := EventOf(s.server.ledger.db, op);
    if recorded.Some? {
      var ev := recorded.value;
      AccountGrows(s, s', s.client.configs, s.client.account, ev);
      PhaseGrows(s, s', ev);
      if s.cache.slot.Holds? {
        var file := s.cache.slot.file;
        if Intact(s.checksum, file) {
          AccountGrows(s, s', file.configs, s.cache.account, ev);
        }
      }
    } else {
      assert s' == s;
    }
  }

  lemma {:induction false} ApplyPullKeepsSound(s: System)
    requires Sound(s) && Enabled(s, ApplyPull)
    ensures Sound(Next(s, ApplyPull))
  {
    var s' := Next(s, ApplyPull);
    PullAccounted(s, s', s.client.phase.entries, s.client.phase.at, s.client.phase.rev);
    CacheKept(s, s');
  }

  lemma {:induction false} PullAccounted(s: System, s': System, entries: seq<Entry>, at: nat, rev: nat)
    requires ServerSound(s) && at <= rev <= |Events(s)|
    requires IsListing(Fold(map[], Events(s)[..at]), s.prefix, entries)
    requires Events(s') == Events(s) && s'.prefix == s.prefix && Range(at, rev) <= s'.lost.gaps
    ensures Accounted(s', FoldOps(map[], PutsOf(entries)), Account(Range(0, at), rev, true, false))
  {
    PulledNamespace(s, entries, at);
    RangeHolds(0, at);
    RangeHolds(at, rev);
    AllDelivered(Events(s), Range(0, at), s.prefix, at);
  }

  /** What a client without configs makes of a listing is the namespace that was listed. */
  lemma PulledNamespace(s: System, entries: seq<Entry>, at: nat)
    requires ServerSound(s) && at <= |Events(s)|
    requires IsListing(Fold(map[], Events(s)[..at]), s.prefix, entries)
    ensures FoldOps(map[], PutsOf(entries)) == NamespaceView(Fold(map[], Events(s)[..at]), s.prefix)
  {
    var data := Fold(map[], Events(s)[..at]);
    HistoryPrefixKeysAgree(s.server.ledger, at);
    PullAddsNamespace(map[], data, s.prefix, entries);
    assert map[] + NamespaceView(data, s.prefix) == NamespaceView(data, s.prefix);
  }

  lemma {:induction false} HistoryPrefixKeysAgree(l: Ledger, n: nat)
    requires Explains(EMPTY_DB, l) && n <= |l.events|
    ensures KeysAgree(Fold(map[], l.events[..n]))
  {
    if n > 0 {
      HistoryPrefixKeysAgree(l, n - 1);
      assert l.events[..n][..n - 1] == l.events[..n - 1];
    }
  }

  lemma CacheKept(s: System, s': System)
    requires CacheSound(s) && s'.cache == s.cache && s'.checksum == s.checksum
    requires Events(s') == Events(s) && s'.prefix == s.prefix && s'.server.ring >= s.server.ring
    requires LostWithin(s.lost, s'.lost)
    ensures CacheSound(s')
  {
  }

  lemma CollectKeepsSound(s: System)
    requires Sound(s) && Enabled(s, Collect)
    ensures Sound(Next(s, Collect))
  {
    var s' := Next(s, Collect);
    RevisionsConsecutive(EMPTY_DB, s.server.ledger);
    CollectedFromRing(s);
    AccountKept(s, s', s.client.configs, s.client.account);
    CacheKept(s, s');
  }

  lemma CollectedFromRing(s: System)
    requires RingInHistory(s)
    requires forall i | 0 <= i < |Events(s)| :: Events(s)[i].entry.revision == i + 1
    ensures var held := Retained(Events(s)[s.server.base..s.server.ring], s.server.capacity);
            var lo, hi := Max(s.client.revision, RingLow(s.server)), s.server.ring;
            Matching(held, s.client.revision, s.prefix)
            == if lo <= hi then Matching(Events(s)[lo..hi], s.client.revision, s.prefix) else []
  {
    var held := Retained(Events(s)[s.server.base..s.server.ring], s.server.capacity);
    assert held == Events(s)[RingLow(s.server)..s.server.ring];
    CollectedAre(Events(s), RingLow(s.server), s.server.ring, s.client.revision, s.prefix);
  }

  /** The ring's events that are newer than `after` are those of the positions from `after` on. */
  lemma CollectedAre(events: seq<Event>, low: nat, hi: nat, after: nat, prefix: string)
    requires low <= hi <= |events|
    requires forall i | 0 <= i < |events| :: events[i].entry.revision == i + 1
    ensures var lo := Max(after, low);
            Matching(events[low..hi], after, prefix)
            == if lo <= hi then Matching(events[lo..hi], after, prefix) else []
  {
    var lo := Max(after, low);
    if lo <= hi {
      assert events[low..hi] == events[low..lo] + events[lo..hi];
      OldEventsFilteredOut(events[low..lo], events[lo..hi], after, prefix);
    } else {
      assert events[low..hi] == events[low..hi] + [];
      OldEventsFilteredOut(events[low..hi], [], after, prefix);
    }
  }

  lemma {:induction false} OldEventsFilteredOut(stale: seq<Event>, rest: seq<Event>, afterRev: nat, prefix: string)
    requires forall i | 0 <= i < |stale| :: stale[i].entry.revision <= afterRev
    ensures Matching(stale + rest, afterRev, prefix) == Matching(rest, afterRev, prefix)
  {
    if rest != [] {
      var n := |rest| - 1;
      OldEventsFilteredOut(stale, rest[..n], afterRev, prefix);
      assert (stale + rest)[..|stale + rest| - 1] == stale + rest[..n];
    } else if stale != [] {
      OldEventsFilteredOut(stale[..|stale| - 1], [], afterRev, prefix);
      assert stale + [] == stale && stale[..|stale| - 1] + [] == stale[..|stale| - 1];
    }
  }

  lemma ApplyPollKeepsSound(s: System)
    requires Sound(s) && Enabled(s, ApplyPoll)
    ensures Sound(Next(s, ApplyPoll))
  {
    var s' := Next(s, ApplyPoll);
    var PollReady(events, lo, hi, rev) := s.client.phase;
    PollAccounted(s, s', events, lo, hi);
    CacheKept(s, s');
  }

  lemma {:induction false} PollAccounted(s: System, s': System, events: seq<Event>, lo: nat, hi: nat)
    requires ServerSound(s) && PollSound(s, events, lo, hi)
    requires Accounted(s, s.client.configs, s.client.account)
    requires Events(s') == Events(s) && s'.prefix == s.prefix
    requires s'.lost == PolledLost(s.lost, s.client.revision, s.client.account.upto, lo, hi)
    ensures Accounted(s', FoldOps(s.client.configs, OpsFor(events)), PolledAccount(s.client.account, lo, hi))
  {
    var account := s.client.account;
    RangeHolds(lo, hi);
    RangeHolds(s.client.revision, lo);
    RangeHolds(account.upto, Min(s.client.revision, hi));
    if PolledAccount(account, lo, hi).inOrder {
      PolledConfigs(s, events, lo, hi);
    }
  }

  /** A poll that came in order leaves the configs of a client that got its positions too. */
  lemma {:induction false} PolledConfigs(s: System, events: seq<Event>, lo: nat, hi: nat)
    requires ServerSound(s) && PollSound(s, events, lo, hi)
    requires Accounted(s, s.client.configs, s.client.account) && PolledAccount(s.client.account, lo, hi).inOrder
    ensures FoldOps(s.client.configs, OpsFor(events))
         == ConfigsAfter(Events(s), s.client.account.got + Range(lo, hi), s.prefix)
  {
    var account := s.client.account;
    RevisionsConsecutive(EMPTY_DB, s.server.ledger);
    if lo < hi {
      PollDelivers(Events(s), account.got, lo, hi, s.client.revision, s.prefix);
    } else {
      RangeHolds(lo, hi);
      assert account.got + Range(lo, hi) == account.got;
      assert lo == hi ==> Events(s)[lo..hi] == [];
      assert OpsFor(events) == [];
    }
  }

  lemma FinishPollKeepsSound(s: System)
    requires Sound(s) && Enabled(s, FinishPoll)
    ensures Sound(Next(s, FinishPoll))
  {
    var s' := Next(s, FinishPoll);
    var upto, revision, rev := s.client.account.upto, s.client.revision, s.client.phase.rev;
    RangeHolds(Max(upto, revision), rev);
    RangeHolds(upto, Min(revision, rev));
    CacheKept(s, s');
  }

  lemma FailPullKeepsSound(s: System)
    requires Sound(s) && Enabled(s, FailPull)
    ensures Sound(Next(s, FailPull))
  {
    assert s.client.configs == map[];
    if s.cache.slot.Holds? {
      var file := s.cache.slot.file;
      assert map[] + file.configs == file.configs;
    }
  }

  lemma SaveCacheKeepsSound(s: System)
    requires Sound(s) && Enabled(s, SaveCache)
    ensures Sound(Next(s, SaveCache))
  {
    var s' := Next(s, SaveCache);
    AccountKept(s, s', s.client.configs, s.client.account);
  }

  lemma ServerStepKeepsSound(s: System, step: Step)
    requires Sound(s) && Enabled(s, step) && (step.Publish? || step.RestartServer?)
    ensures Sound(Next(s, step))
  {
    CacheKept(s, Next(s, step));
  }

  lemma ListKeepsSound(s: System, entries: seq<Entry>)
    requires Sound(s) && Enabled(s, ListNamespace(entries))
    ensures Sound(Next(s, ListNamespace(entries)))
  {
    assert Events(s)[..|Events(s)|] == Events(s);
    AccountKept(s, Next(s, ListNamespace(entries)), s.client.configs, s.client.account);
    CacheKept(s, Next(s, ListNamespace(entries)));
  }

  lemma ReadRevKeepsSound(s: System, step: Step)
    requires Sound(s) && Enabled(s, step) && (step.ReadPullRev? || step.ReadPollRev?)
    ensures Sound(Next(s, step))
  {
    AccountKept(s, Next(s, step), s.client.configs, s.client.account);
    CacheKept(s, Next(s, step));
  }

  lemma FailPollKeepsSound(s: System)
    requires Sound(s) && Enabled(s, FailPoll)
    ensures Sound(Next(s, FailPoll))
  {
    AccountKept(s, Next(s, FailPoll), s.client.configs, s.client.account);
    CacheKept(s, Next(s, FailPoll));
  }

  lemma CrashKeepsSound(s: System)
    requires Sound(s)
    ensures Sound(Next(s, CrashClient))
  {
    NothingDelivered(Next(s, CrashClient));
    CacheKept(s, Next(s, CrashClient));
  }

  lemma DamageKeepsSound(s: System, slot: CacheSlot)
    requires Sound(s) && Enabled(s, DamageCache(slot))
    ensures Sound(Next(s, DamageCache(slot)))
  {
    AccountKept(s, Next(s, DamageCache(slot)), s.client.configs, s.client.account);
  }

  lemma DamageRevisionKeepsSound(s: System, revision: nat)
    requires Sound(s) && Enabled(s, DamageRevision(revision))
    ensures Sound(Next(s, DamageRevision(revision)))
  {
    AccountKept(s, Next(s, DamageRevision(revision)), s.client.configs, s.client.account);
  }

  lemma {:induction false} StepKeepsSound(s: System, step: Step)
    requires Sound(s) && Enabled(s, step)
    ensures Sound(Next(s, step))
  {
    match step
    case Write(op) => WriteKeepsSound(s, op);
    case Publish => ServerStepKeepsSound(s, step);
    case RestartServer => ServerStepKeepsSound(s, step);
    case ListNamespace(entries) => ListKeepsSound(s, entries);
    case ReadPullRev => ReadRevKeepsSound(s, step);
    case ApplyPull => ApplyPullKeepsSound(s);
    case FailPull => FailPullKeepsSound(s);
    case Collect => CollectKeepsSound(s);
    case ReadPollRev => ReadRevKeepsSound(s, step);
    case ApplyPoll => ApplyPollKeepsSound(s);
    case SaveCache => SaveCacheKeepsSound(s);
    case FinishPoll => FinishPollKeepsSound(s);
    case FailPoll => FailPollKeepsSound(s);
    case CrashClient => CrashKeepsSound(s);
    case DamageCache(slot) => DamageKeepsSound(s, slot);
    case DamageRevision(revision) => DamageRevisionKeepsSound(s, revision);
  }

  lemma NothingDelivered(s: System)
    ensures Accounted(s, map[], NOTHING_GOT)
  {
    FoldNothing(map[], Delivered(Events(s), {}, s.prefix));
  }

  // ----- Runs -----

  ghost predicate Legal(s: System, steps: seq<Step>)
    decreases |steps|, 0
  {
    steps == [] ||
    (Legal(s, steps[..|steps| - 1]) && Enabled(Run(s, steps[..|steps| - 1]), steps[|steps| - 1]))
  }

  ghost function Run(s: System, steps: seq<Step>): System
    requires Legal(s, steps)
    decreases |steps|, 1
  {
    if steps == [] then s else Next(Run(s, steps[..|steps| - 1]), steps[|steps| - 1])
  }

  lemma {:induction false} RunKeepsSound(s: System, steps: seq<Step>)
    requires Sound(s) && Legal(s, steps)
    ensures Sound(Run(s, steps))
  {
    if steps != [] {
      RunKeepsSound(s, steps[..|steps| - 1]);
      StepKeepsSound(Run(s, steps[..|steps| - 1]), steps[|steps| - 1]);
    }
  }

  lemma InitialIsSound(s: System)
    requires Initial(s)
    ensures Sound(s)
  {
    NothingDelivered(s);
  }
}
