# PaladinCore: a verified model

A Dafny model of PaladinCore, a replicated and versioned key-value store with a
bounded change feed and a client-side replica, and proofs about it.
`dafny verify dfyconfig.toml` checks everything.

## What is modelled

- **The revision store** (`Entries`, `BoltStore`, `Text`). One global revision,
  four counters per entry, transactions that fail in their body or at their
  commit, reopening of the file, and the cursor scan behind `List`.
- **The history** (`History`, `Replay`, `Restore`, `Conservation`). The store
  together with the unbounded sequence of its change events. The other parts
  are stated against this one sequence: it can be read forwards, backwards, and
  projected to keys and values.
- **The watch ring** (`WatchCache`, `Monitor`, `WatchableStore`). The ring
  buffer as a class proved against the tail of the history, and the
  condition-variable protocol as a state machine whose steps are single
  lock, check, enlist, release, change and broadcast actions.
- **The replicated state machine** (`Fsm`, `Cluster`, `Restarts`). `Apply`, `Snapshot` and
  `Restore` as a class, and a cluster as a state machine: commit, apply, take a
  snapshot, crash, receive any snapshot, run a restore up to any entry.
- **The HTTP layer** (`ConfigKeys`, `Server`). Path parsing and key printing,
  the dispatch and status codes of the config handler, the watch encoding.
- **The client** (`Client`, `Deliveries`, `ReplicaProtocol`, `ReplicaResults`,
  `Polls`). The client as a
  class, and one server, writer and client in every interleaving. A write shows
  in the store before it shows in the ring; a pull is List, then Rev; a poll is
  collection, then Rev; the client applies, saves its file and moves its
  revision in separate steps; server and client may restart at any of them, and
  the cache file may be lost, damaged, or damaged in its revision alone.
- **The benchmark** (`Samples`, `Hist`, `Load`). The histogram, its quantiles
  and merge, and the counters of workers that run at the same time.

Classes carry the source's fields and are updated in place. Each method is
proved against functions of its inputs and old state, and the laws are proved
about those functions and about runs of the state machines.

## What the proofs found

- `Restore` does not replace the state, as its comment says
  (raft/node.go:346): it re-puts the snapshot's entries on top. It is exact if
  and only if every live key is in the snapshot (`RestoreExactIff`). A replay of
  the log afterwards repairs it if and only if every key that only the old
  state had, and every stale key of the snapshot itself, is written again in
  between (`RestoreCatchesUpIff`). Otherwise a key is left behind: a follower
  that lags behind a delete and receives a snapshot shows the deleted key until
  somebody writes it again (`LaggingFollowerResurrects`; `DeletedKeyReturns` is
  a run of the cluster in which it happens). In every run a node that has caught
  up disagrees with the log on exactly its stale keys, and there it shows a key
  that the log does not have: restores can only bring deleted keys back, never
  lose one or change a value (`CaughtUpNodesAgreeWithLog`). In a run whose
  received snapshots leave nothing behind there are none
  (`CleanRunsAgreeWithLog`). Crash and restart over a node's own file never
  leave anything behind.
- Replicas agree on keys and values only. Each restart of a node over its own
  file adds the entries it restores and the operations that take effect again to
  the revision, and each restore that stops early the entries it has put. The
  revision never falls behind what the log gives, runs ahead of it by exactly
  the sum of these, and equals it if and only if there were none
  (`RestartsAddUp`, `RestartKeepsRevisionIff`; `RevisionsDiverge` is a run in
  which there was one). Restored onto an empty store instead, a snapshot gets a
  revision that falls short of its own (`RestoreDrift`).
- A poll reads `Rev` after it has collected its events (server/watch.go:91 and
  108), and the client adopts it as its revision. What is published in between
  is skipped by that poll and by every later one, until the client crashes and
  pulls again (`WriteInGapIsLost`, `MissedForGood`). The same holds for `List`
  and `Rev` in a full pull (server/server.go:216 and 228). `PollMissesExactly`
  and `PullMissesExactly` say precisely what is missed, `PollConvergesIff` and
  `PullConvergesIff` when the client is right all the same, and `GapHappens` is
  a run in which it is not. With nothing missed the client converges
  (`ClientConverges`).
- Apart from such gaps and damage a client loses only what the ring can no longer
  hold: an evicted event lay before a restart of the server or had as many events
  after it as the ring has room for (`EvictedWereOverrun`), and a gap was really
  stored between collection and reading (`GapsFellBetween`). A poll delivers
  exactly what it asked the ring for (`PollExactly`). So without a restart,
  without damage, with room in the ring and with quiet readings the client always
  holds its namespace, through crashes and failed polls (`HealthyRunConverges`),
  and every poll brings it up to date (`HealthyPollCatchesUp`).
- The checksum of the cache file covers the configs, not the revision beside
  them (sdk/client.go:312 and 334), and load adopts that revision as it finds it
  (sdk/client.go:342). A file whose revision alone is damaged is accepted. After
  its next poll without eviction or gap the client misses exactly the positions
  from its own up to that revision, so nothing if the revision is too low and
  everything in between if it is too high; its configs are right exactly when
  every key written there, and not collected again, has ended as it was
  (`WrongRevisionMissesExactly`; `DamageHappens` is a run in which an event is
  lost).
- After failed commits, a reopening of the file takes `Rev` back by their number
  (`RevFallsBackIff`; `RevGoesBack` is such a run), although returned revisions
  never go back (`RevisionsIncrease`).
- The comment on the ring speaks of a binary search on revisions
  (store/watch.go:41); the code scans, and the model scans. The comment on the
  body limit (server/server.go:164) reads like a refusal; the code drops the
  excess silently, and so does the model.

## Conventions

Keys are valid UTF-8, whose byte order is code-point order, so a Dafny `string`
stands for a key. Values and bodies are strings whose characters stand for
bytes. Counters are unbounded. A deadline, an I/O fault, the position at which a
restore fails and the checksum function are parameters. Bookkeeping fields
(`high` and `stale` of a node and `data`, `high` and `stale` of a snapshot;
`account`, `recovered` and `lost` of the replica protocol) decide nothing but
each other.

## Model

| member | source | states |
|---|---|---|
| BoltStores.BoltStore.Open | store/bolt.go:34-65 | A store opens with the data of its file and the persisted revision, 0 when there is none. |
| BoltStores.BoltStore.Put | store/bolt.go:67-131 | A put succeeds exactly when no fault meets it; its new state, file and cached revision, and its result are those of PutState; a failed commit has already advanced the cached revision. |
| BoltStores.BoltStore.Delete | store/bolt.go:153-194 | A delete reports a missing key exactly when there is none, changes nothing then, and otherwise has the state and result of DeleteState. |
| BoltStores.BoltStore.Get | store/bolt.go:133-151 | The live entry, or the missing-key error. |
| BoltStores.BoltStore.Rev | store/bolt.go:222-227 | The cached revision. |
| BoltStores.BoltStore.List | store/bolt.go:196-220 | Seeking and stopping at the first key without the prefix returns exactly the entries under the prefix, each once; of two of their keys the earlier is a proper prefix of the later, or smaller at the first character where they differ. |
| Text.BeforeIff | store/bolt.go:209-215 | The order in which the cursor walks is the lexicographic one: a proper prefix comes first, and else the smaller of the first characters that differ. |
| Entries.ListingAscends | store/bolt.go:209-215 | The keys of a listing ascend in that order. |
| Text.PrefixContiguous | store/bolt.go:209-215 | Past the prefix, no key after a key without the prefix has it. |
| Entries.ListingUnique | store/bolt.go:196-220 | There is only one listing of given data and prefix. |
| BoltStores.RevisionsIncrease | store/bolt.go:87-130 | Over every run with failed transactions and reopened files, returned revisions strictly increase and lie between the first and the last persisted revision. |
| BoltStores.RevFallsBackIff | store/bolt.go:54-64 | In every run from an opened file, a call takes the visible revision back exactly when it reopens the file and a commit has failed since the last successful mutation or reopening, and by the number of those commits. |
| BoltStores.LeadIsFailedCommits | store/bolt.go:118-128 | In every run the cached revision is ahead of the persisted one by exactly the failed commits since the last successful mutation or reopening. |
| BoltStores.DataOfSuccesses | store/bolt.go:67-194 | In every run with failed transactions and reopened files the keys, values and versions are what the operations that no fault met make of those at the start. |
| BoltStores.RevGoesBack | store/bolt.go:54-64 | On an empty file, a put that fails at its commit shows revision 1, and the reopening shows 0. |
| History.HistoryExplains | store/watchable.go:29-58 | Folding all events gives the data and revision; each put's previous entry is the one live just before, None exactly when absent; each delete's entry is the one it removed. |
| History.RevisionsConsecutive | store/bolt.go:87-126 | Events carry consecutive revisions. |
| History.HistoryReversible | store/watchable.go:29-58 | Undoing the events since any earlier moment recovers the exact entries of that moment. |
| History.CountersSoundFromEmpty | store/bolt.go:87-126 | In every store grown from empty, 1 <= create <= mod = revision <= rev, 1 <= version <= mod - create + 1, and no two live keys share a mod or a create revision. |
| Conservation.RevisionConserved | store/bolt.go:87-126 | In every run of operations and restores from empty, the revision is the sum of live versions plus (version + 1) over all deletes. |
| Conservation.RevisionSplits | store/bolt.go:164-186 | The revision is the number of live keys plus one for every overwrite and two for every delete. |
| Conservation.RestoreDrift | raft/node.go:346-367 | Restored onto an empty store, the revision is the number of entries and falls short of the snapshot's by the stated sum; it agrees exactly when nothing was overwritten or deleted. |
| Replay.ReplayAgrees | raft/node.go:355-362 | Replaying operations over two views ends in the same view exactly when the views agree on every untouched key. |
| Replay.Redelivery | sdk/client.go:231-244 | Delivering operations again after some of them have been delivered ends as if all had been delivered once. |
| Restores.RestoreExactIff | raft/node.go:346-367 | Restore gives the snapshot's view exactly when every live key is in the snapshot; otherwise precisely the extra keys survive with their old entries. |
| Restores.RestoredLookup | raft/node.go:358-362 | Also after a restore that stopped early: restored keys have the snapshot's value, all others what they had. |
| Restores.ListingSize | raft/node.go:336-344 | A snapshot has one entry for each live key. |
| WatchRing.WatchCache.constructor | store/watch.go:51-59 | An empty, open ring of the capacity. |
| WatchRing.WatchCache.Append | store/watch.go:61-72 | The event is the newest of the history; the slots still hold the newest min(count, capacity) events. |
| WatchRing.WatchCache.GetEventsLocked | store/watch.go:124-151 | Exactly the matching events among the last min(count, capacity) of the unbounded history, in order. |
| WatchRing.WatchCache.CheckOnce | store/watch.go:90-103 | One pass of the waiting loop: nothing when closed or when late and nothing found, the found events when open, else it waits. |
| WatchRing.WatchCache.Len | store/watch.go:153-162 | The number of retained events. |
| WatchRing.WatchCache.Close | store/watch.go:164-170 | The ring is closed and its events are kept. |
| WatchRing.MatchingMembers | store/watch.go:139-149 | A query finds exactly the wanted events. |
| WatchRing.RingAnswers | store/watch.go:124-151 | A query answers, in order and each once, the events at exactly the positions that have no more than capacity events from them to the end of the history, a later revision and the prefix. |
| WatchRing.QueryMissesNothingIff | store/watch.go:126-151 | With serial writes retained revisions are consecutive, an unfiltered query is a suffix of the ring, and it misses nothing exactly when afterRev >= rev - min(count, capacity). |
| WatchableStores.WatchableStore.constructor | store/watchable.go:15-21 | A ring of 4096 events, empty, in front of the store as it is. |
| WatchableStores.WatchableStore.Put | store/watchable.go:29-43 | A successful put adds exactly its event to the ring; a failed one adds none. |
| WatchableStores.WatchableStore.Delete | store/watchable.go:45-58 | A successful delete adds exactly its event; a failed one adds none. |
| WatchableStores.WatchableStore.Close | store/watchable.go:60-64 | Closing closes the ring. |
| WatchMonitor.NoLostWakeUp | store/watch.go:83-122 | In every reachable state a parked, un-notified caller has nothing to be told, except while the thread that changed the ring is about to broadcast, which notifies it. |
| WatchMonitor.CheckTellsAll | store/watch.go:89-103 | A check gives nothing when the ring is closed; else exactly the events that a query must answer at that moment, in order; and if there are none, nothing when late, else the caller goes on to wait. |
| WatchMonitor.ReturnsAreAnswers | store/watch.go:83-122 | In every run, what a call has returned is what such a check of its own gave: all the events it had to get then, or nothing because the ring was closed or it was late with none. |
| WatchMonitor.ReturnsAreJustified | store/watch.go:89-103 | A call returns nothing only when closed or when late at its last empty check; what it returns was appended and asked for. |
| WatchMonitor.RunRecords | store/watch.go:61-72 | In every run the history is that of the appends made, closed says that a close was made, and every call keeps its revision and prefix. |
| WatchMonitor.WakesAreTold | store/watch.go:109-121 | In every run a waiting caller that has been notified was so by a broadcast or a timer since it began to wait. |
| WatchMonitor.CallersCanCheck | store/watch.go:120 | In every reachable state a caller that enters or was notified can come to its next check within four steps. |
| WatchMonitor.CallsCanReturn | store/watch.go:109-121 | In every reachable state every call that has not returned can, once late and told by its timer, return within eight steps. |
| WatchMonitor.MutualExclusion | store/watch.go:86-87 | At most one thread is between lock and unlock. |
| WatchMonitor.RunKeepsSound | store/watch.go:61-122 | The invariant behind both holds in every reachable state. |
| Fsms.FSM.Apply | raft/node.go:305-333 | An entry of type put stores its value under its key, one of type delete removes its key or reports that it is missing, each recording its event; one that does not decode, has another type, misses its key or fails changes no data and records none. |
| Fsms.ProposedIsDecoded | server/raft_server.go:94-129 | Every put and delete that the leader proposes is decoded to the same operation with the same key and value. |
| Fsms.DecodesIff | raft/node.go:305-332 | Which log entries stand for a put, which for a delete; garbage and every other type for neither. |
| Fsms.FSM.Snapshot | raft/node.go:335-344 | All entries in lexicographic order of their keys, with the revision. |
| Fsms.FSM.Restore | raft/node.go:346-367 | The entries before a failing one are re-put on top of the store; a put that fails at its commit has advanced the cached revision once more; the watch ring sees none of it; an undecodable snapshot changes nothing. |
| Clusters.CaughtUpNodesAgreeWithLog | raft/node.go:301-367 | In every run, with crashes in the middle of a restore and with any snapshot received, a running node whose applied index has reached its high-water mark disagrees with the view of the log up to there on exactly its stale keys, all of them keys that it shows and the log does not; it agrees entirely if and only if there is none. Its counters are sound. |
| Clusters.CaughtUpNodesAgree | raft/node.go:292-299 | Two nodes caught up to the same position hold the same value under every key that is stale in neither. |
| Clusters.NothingStale | raft/node.go:346-367 | In a run whose received snapshots leave nothing behind, and so in one without any, no node ever has a stale key. |
| Clusters.CleanRunsAgreeWithLog | raft/node.go:301-367 | In such a run a caught-up node shows exactly the view of the log. |
| Clusters.RestoreCatchesUpIff | raft/node.go:346-367 | Restoring any sound snapshot over a live file and replaying reaches the log's view exactly when no key that only the file has stays unwritten in between, and no key that is stale in the snapshot itself does. |
| Clusters.KeysInSnapshotSuffice | raft/node.go:355-362 | When every live key is in the snapshot, the file leaves nothing behind. |
| Clusters.LogIsCommitted | raft/node.go:140-165 | The log of every run is the sequence of operations committed. |
| Clusters.ApplyKeepsSound | raft/node.go:305-333 | Applying an entry, new or again, keeps a node able to catch up on all but its stale keys, and these exact; it takes the key it writes off them. |
| Clusters.CrashKeepsSound | raft/node.go:71-119 | A node that goes down leaves nothing behind that was not stale already, and its stale keys stay exact. |
| Clusters.RestoreKeepsSound | raft/node.go:346-367 | Wherever a restore stops, the node stays able to catch up on all but its stale keys, and these stay exact. |
| Clusters.RunKeepsSound | raft/node.go:292-367 | The invariant holds in every reachable cluster, whatever snapshots are received. |
| Clusters.LaggingFollowerResurrects | raft/node.go:346-362 | A follower without the delete that restores a snapshot taken after it shows the deleted key for as long as no operation touches it. |
| Clusters.DeletedKeyReturns | raft/node.go:346-362 | A run of the cluster after which a caught-up node shows a key that the log has deleted. |
| Clusters.RevisionsDiverge | raft/node.go:186-189 | A run in which two caught-up nodes agree on the view and the restarted one is at a higher revision. |
| Restarts.RestartsAddUp | raft/node.go:346-367 | In every run in which a node restarts only over its own file, any number of times and with restores that stop anywhere, the revision it will have when it has caught up is the one the log alone gives plus the gains of its restarts. |
| Restarts.RestartKeepsRevisionIff | raft/node.go:346-367 | Caught up, such a node shows the log's view at the log's revision plus those gains; the two are equal exactly when every restart found an empty snapshot and only operations to apply again that were invalid or deleted an absent key, and no restore stopped after it had put an entry. |
| Restarts.RestartedPeersDiffer | raft/node.go:186-189 | Two such nodes at the same position show the same view, and their revisions differ by the difference of their gains. |
| Restarts.NeverStoppedGainsNothing | raft/node.go:305-333 | A node that has never stopped has gained nothing. |
| Restarts.ReplayedNode | raft/node.go:355-362 | A node that crashes and restores its own snapshot is, back where it had been, at the view it had and at a revision that has grown by the gain, however often it had restarted before. |
| Restarts.NeverStoppedIsUnbroken | raft/node.go:305-333 | A node that has never stopped holds the store that the log makes of an empty one. |
| Restarts.NoEffectIff | store/bolt.go:153-186 | A sequence of operations moves no revision exactly when it has no put and deletes only absent keys. |
| ConfigKeys.SplitN | server/server.go:88-98 | At most n parts, all slash-free except possibly the n-th. |
| ConfigKeys.ParsePrintedIff | server/server.go:80-103 | Parsing a printed key gives the triple back exactly when tenant and namespace are slash-free and the name does not end in a slash. |
| ConfigKeys.PrintParsed | server/server.go:80-103 | Printing a parsed path that names a key gives the path without route and trailing slash. |
| ConfigKeys.StoreKeyInjective | server/server.go:101-103 | With slash-free tenant and namespace, keys are equal exactly when the triples are. |
| ConfigKeys.ListPrefixSelects | server/server.go:105-110 | A stored key has the listing prefix exactly when tenant and namespace are those asked for. |
| ConfigKeys.NamespaceListing | server/server.go:214-232 | Listing a namespace returns exactly the entries stored under that pair and no other's. |
| ConfigKeys.PullAndWatchAgreeIff | server/watch.go:54-63 | Where the multiplexer's slash cleaning sends a client, the prefixes that it pulls and watches are the same for every slash-free tenant and namespace that are not `.` or `..`, except that the watch of a client with neither is refused. |
| HttpServer.HandleConfig | server/server.go:112-232 | The state change and reply of each verb: 201 exactly when the key was absent and 200 when it was replaced, 404 exactly when missing, 400 without a name, 405 for other verbs, 500 on a failed transaction. |
| HttpServer.ReadBody | server/server.go:164 | A body of up to 2^20 characters is taken whole, and of a longer one the first 2^20. |
| HttpServer.EncodeEvents | server/watch.go:93-103 | The events in order, each named PUT or DELETE with its whole entry and previous entry; a client that applies them does what they did to the store. |
| Sdk.WireKeepsMeaning | server/watch.go:95-98 | The client reads an encoded event as the operation that caused it, and only events named PUT or DELETE as one. |
| Sdk.Client.constructor | sdk/client.go:84-93 | A new client has no configs and revision 0. |
| Sdk.Client.ApplyPull | sdk/client.go:177-188 | The pulled entries go on top of the configs, the revision becomes the response's, and both are saved. |
| Sdk.Client.ApplyPoll | sdk/client.go:231-244 | The events are applied in order; the file pairs the new configs with the old revision; a revision of 0 is ignored. |
| Sdk.Client.ApplyEvents | sdk/client.go:248-271 | The events act in order as puts and deletes; unknown types do nothing. |
| Sdk.Client.SaveToCache | sdk/client.go:298-315 | The file holds configs, revision and checksum, when a directory is configured. |
| Sdk.Client.LoadFromCache | sdk/client.go:317-350 | Load succeeds exactly when a file is there whose checksum is that of its configs; it adds them and takes the revision; a failed load changes nothing. |
| Sdk.PullAddsNamespace | sdk/client.go:177-181 | A pull puts exactly the namespace on top of the configs. |
| Deliveries.PollDelivers | sdk/client.go:248-271 | A poll of positions [lo, hi) makes the configs those of a client that got all of them once, whatever it had got before. |
| Deliveries.AllDelivered | sdk/client.go:248-271 | A client that got every matching event up to a position shows the namespace at that position. |
| ReplicaProtocol.RunKeepsSound | sdk/client.go:146-271 | The invariant of server, client and cache file holds in every interleaving, damage to the file's revision included. |
| ReplicaResults.ClientAccounted | sdk/client.go:191-246 | The configs are those of exactly the events delivered, in order; what lacks below the client's position fell in a gap, was evicted, or was claimed by a damaged revision; without such damage nothing comes out of order and no revision claims too much. |
| ReplicaResults.ClientConverges | sdk/client.go:191-271 | With no matching event missed and none out of order the configs equal the namespace at the client's position, which between polls is its revision. |
| ReplicaResults.CacheReflects | sdk/client.go:298-350 | The configs of a file that load accepts are the namespace at the position of its account, if its client had missed nothing; its revision claims no more than that unless the revision was damaged. |
| ReplicaResults.LoadedClient | sdk/client.go:94-99 | A client whose pull fails has the configs and revision of the file if its checksum is that of its configs, and else nothing. |
| ReplicaResults.RestartFromCache | sdk/client.go:94-99 | Load accepts what save wrote: after any further steps without another save or damage to the configs, a failed pull restores the saved configs with the revision then in the file, the saved one if that was not damaged. |
| ReplicaResults.RecoveredClientAgrees | sdk/client.go:317-350 | A client that restarted from its file and polled holds what one that never stopped holds. |
| ReplicaResults.PullMissesExactly | server/server.go:214-231 | A pull gives the namespace at the time of List and misses exactly what came before Rev was read. |
| ReplicaResults.PullConvergesIff | server/server.go:214-231 | A pull is right at the revision it claims exactly when every key written between List and Rev ended as it was. |
| Polls.CollectAnswers | server/watch.go:90-91 | The server collects for a poll exactly the events among the newest ones in its ring that are after the client's revision and under its prefix, in order. |
| Polls.PollExactly | sdk/client.go:191-246 | A whole poll, with any steps of the server in between, applies exactly those events in order, moves to the revision of the moment at which Rev was read, and newly gets exactly the positions that were in the ring at the collection. |
| Polls.PullExactly | sdk/client.go:146-189 | A whole pull, with any steps of the server in between, gives the namespace of the moment of List at the revision of the moment of Rev. |
| Polls.EvictedWereOverrun | store/watch.go:129-134 | In every run an evicted position lay before a restart of the server or had at least capacity events published after it. |
| Polls.NothingEvicted | store/watch.go:129-134 | In a run without restarts that publishes no more events than the ring has room for, nothing published in it is evicted. |
| Polls.RingSinceRestart | store/watchable.go:15-21 | After a restart of the server its ring holds only what was published since. |
| Polls.GapsFellBetween | server/watch.go:91-110 | In every run a gap position was not yet published when a poll collected, or not yet stored when a pull listed, and was stored when Rev was read after that. |
| Polls.LedgerOfWrites | store/watchable.go:29-58 | In every run the store and its history are what the writes make of those at the start. |
| Polls.CacheIsCurrent | sdk/client.go:231-234 | Unless the file is damaged, a client with a cache directory has all its configs in it whenever it has none to save. |
| Polls.HealthyRunConverges | sdk/client.go:146-271 | Without server restarts, with at most capacity events, no damaged revision and no write between gathering and Rev, nothing is lost and the configs are always the namespace at the client's position, which between polls is its revision, through crashes and failed requests. |
| Polls.HealthyPollCatchesUp | sdk/client.go:191-246 | A poll at the end of such a run leaves the client with the namespace as it was when Rev was read. |
| Polls.DeliveryHappens | sdk/client.go:191-246 | Such a run from an empty store, in which a poll delivers the first entry. |
| ReplicaResults.PollMissesExactly | server/watch.go:91-110 | A completed poll of an up-to-date client misses exactly the evicted positions and those between collection and the reading of Rev. |
| ReplicaResults.PollConvergesIff | server/watch.go:91-110 | With any configs, eviction and gap, a poll leaves the client right at its new revision exactly when every key written among the collected events still has its value of the collection when Rev is read, and every other key had the right value already. |
| ReplicaResults.WrongRevisionMissesExactly | sdk/client.go:338-342 | A client loaded with a wrong revision misses, after a poll without eviction or gap, exactly the positions from its own up to that revision; its configs are right exactly when every key written there, and not at a collected position, has ended as it was, so always when the revision was not too high. |
| ReplicaResults.KeptUntilApplied | sdk/client.go:191-232 | From load to the application of its next poll a client keeps configs, revision and account. |
| ReplicaResults.DamageHappens | sdk/client.go:333-342 | A run from an empty store, without gap or eviction, in which a file damaged in its revision alone makes the client pass over the only entry. |
| ReplicaResults.GapHappens | server/watch.go:91-110 | A run from an empty store after which the client is at the server's revision and lacks its only entry. |
| ReplicaResults.WriteInGapIsLost | server/watch.go:91-110 | A mutation between collection and the reading of Rev is claimed by the new revision and not delivered. |
| ReplicaResults.MissedForGood | sdk/client.go:199-205 | No later poll delivers what was passed over, as long as the client runs. |
| Samples.SummaryConcat | bench/hist.go:69-85 | Tallies, total, least and greatest of joined samples come from those of the parts. |
| Samples.SummaryIgnoresOrder | bench/hist.go:48-67 | What a histogram keeps depends on the multiset of its samples only. |
| Samples.RankUnique | bench/hist.go:100-103 | Exactly one sample value has any given rank. |
| Samples.RankOfSorted | bench/hist.go:100-103 | It is the one at that place when the samples are sorted. |
| Samples.QuantileError | bench/hist.go:104-115 | A quantile is within half a bucket width of the sample of its rank, or the exact maximum when that sample overflows. |
| Samples.QuantileMonotone | bench/hist.go:104-115 | Quantiles do not decrease with the rank. |
| Samples.ExtremesAreSamples | bench/hist.go:130-139 | Least and greatest are samples, and bound all of them. |
| Samples.MeanBetween | bench/hist.go:122-128 | The integer mean lies between least and greatest. |
| Histograms.Hist.constructor | bench/hist.go:38-46 | A histogram of no samples. |
| Histograms.Hist.Observe | bench/hist.go:48-67 | Every field accounts for one more sample, the latency itself, or 0 for a negative one. |
| Histograms.Hist.Merge | bench/hist.go:69-85 | Every field accounts for the samples of both, also when the other is nil or empty. |
| Histograms.Hist.Percentile | bench/hist.go:87-117 | 0 when empty; otherwise within half of 100 microseconds of the sample at the rank asked for when the samples are sorted, or the greatest sample when that one is of 10 seconds or more; the return after the loop is never taken. |
| Histograms.RankIsLeast | bench/hist.go:94-103 | That rank is the least one from 1 on that is at least n p, with p below 0 taken as 0 and above 1 as 1. |
| Histograms.Hist.Mean | bench/hist.go:122-128 | The integer mean, between least and greatest when there are samples. |
| Histograms.Hist.Min | bench/hist.go:130-136 | The least sample, 0 when empty. |
| Histograms.Hist.Max | bench/hist.go:138-139 | The greatest sample, 0 when empty. |
| Histograms.PercentileMonotone | bench/hist.go:94-103 | Percentiles do not decrease with p. |
| Histograms.HistDetermined | bench/hist.go:48-85 | Two histograms of the same multiset of samples are equal in every field, however observed and merged. |
| Histograms.MergeAll | bench/load.go:156-159 | The merged histogram has the fields of one that observed all samples, however they were split over the workers and ordered. |
| Load.Counters.AddStatus | bench/counters.go:18-33 | One status class and one of the outcome counters go up by one. |
| Load.ClassOf | bench/counters.go:18-27 | Codes from 100 to 599 are counted in the class of their hundred, all others in class 0. |
| Load.Counters.ByClass | bench/counters.go:41-48 | A copy of the status counts. |
| Load.CountersBalance | bench/load.go:128-133 | Under every interleaving the status total exceeds ok + err by exactly the workers between their two increments, and the observed samples by the workers that have not observed yet. |
| Load.SamplesAreLatencies | bench/load.go:100-133 | In every run each worker's histogram gets exactly the latencies that the worker observed, in order. |
| Load.FinishedRunAgrees | bench/load.go:147-172 | After all workers have finished, the count of samples, the status total and ok + err are equal; ok is the 2xx and 3xx classes and err all others. |

## Left out

- The consensus library: elections, log replication and quorum. The model assumes one append-only committed log, applied in order, and snapshots that do not overlap with Apply.
- bbolt itself: pages, locking and fsync. A bucket is a map, a transaction commits or fails as a whole; its refusal of empty and oversized keys is one of the faults a transaction may meet. The file of a store holds every entry under its own key.
- I/O faults outside the revision store, its wrapper, the state machine and the config handler: the cluster and the replica protocol assume that writes succeed.
- WaitForEvents as one method: a call that blocks on a condition variable has no sequential contract. `CheckOnce` is one pass of its loop, and `WatchMonitor` is the loop with its lock, its waits and its timer.
- Wake-up at the deadline: the timer broadcasts without the lock, so it may come before the caller is on the notify list; nothing is claimed about when a late call returns.
- Concurrent writers in standalone mode: the replica protocol has one writer, whose store change and ring append are separate steps.
- A closed ring in the replica protocol: the server closes it only when it stops.
- Raft nodes as servers of clients: the replica protocol has no Restore, which changes the store without any event.
- JSON, SHA-256 and HTTP: values are passed as they are, and the checksum is a parameter. Of the path cleaning of the HTTP multiplexer, which comes before the handlers, the model has the collapse of repeated slashes and not the treatment of dot segments.
- Damage to the cached configs that leaves their checksum right, a collision of the hash, is not a step of the replica protocol.
- Parsing of the revision and timeout parameters of a watch, and its 400 replies.
- Change callbacks of the client (OnChange), metrics and logging.
- Forwarding to the leader, join and leave, peer addresses.
- 64-bit wrap-around of revisions and counters, and floating-point rounding of percentiles: p is a real number.
- Warm-up and shutdown filtering of benchmark samples: a filtered request takes no action in the model.
- Batching, leases, multi-key transactions and other features that appear only in the design documents.
