/** The client replica and its cache file (sdk/client.go). */
module Sdk {
  import opened Wrappers
  import opened Text
  import opened Entries
  import opened Replay
  import opened History
  import opened Restores

  /** An event on the wire: its type is a name, and a client ignores names it does not know. */
  datatype WireEvent = WireEvent(kind: string, entry: Entry, prev: Option<Entry>)

  datatype ConfigResponse = ConfigResponse(revision: nat, configs: seq<Entry>)

  datatype WatchResponse = WatchResponse(revision: nat, events: seq<WireEvent>)

  datatype CacheFile = CacheFile(checksum: string, revision: nat, configs: View)

  /** What is at the path of the cache file. */
  datatype CacheSlot = Missing | Corrupt | Holds(file: CacheFile)

  /** The checksum of a set of configs; any function of them will do. */
  type Checksum = View -> string

  function Saved(checksum: Checksum, configs: View, revision: nat): CacheFile {
    CacheFile(checksum(configs), revision, configs)
  }

  predicate Intact(checksum: Checksum, file: CacheFile) {
    checksum(file.configs) == file.checksum
  }

  function Encode(ev: Event): WireEvent {
    WireEvent(match ev.kind case EventPut => "PUT" case EventDelete => "DELETE", ev.entry, ev.prev)
  }

  function WireOp(e: WireEvent): Op {
    if e.kind == "PUT" then OpPut(e.entry.key, e.entry.value)
    else if e.kind == "DELETE" then OpDelete(e.entry.key)
    else OpInvalid
  }

  /** What the client does with an event is what the event did to the store. */
  lemma WireKeepsMeaning(ev: Event)
    ensures WireOp(Encode(ev)) == OpFor(ev)
    ensures forall kind, e, prev ::
              WireOp(WireEvent(kind, e, prev))
              == if kind == "PUT" then OpPut(e.key, e.value)
                 else if kind == "DELETE" then OpDelete(e.key) else OpInvalid
  {
    assert "PUT"[0] != "DELETE"[0];
  }

  function WireOps(events: seq<WireEvent>): seq<Op> {
    seq(|events|, i requires 0 <= i < |events| => WireOp(events[i]))
  }

  class Client {
    const caching: bool  // a cache directory is configured
    const checksum: Checksum
    var configs: View
    var revision: nat
    var slot: CacheSlot

    constructor (caching: bool, checksum: Checksum, slot: CacheSlot)
      ensures this.caching == caching && this.checksum == checksum && this.slot == slot
      ensures configs == map[] && revision == 0
    {
      this.caching := caching;
      this.checksum := checksum;
      this.slot := slot;
      this.configs := map[];
      this.revision := 0;
    }

    /** The part of fullPull after the response has arrived. */
    method ApplyPull(resp: ConfigResponse)
      modifies this
      ensures configs == FoldOps(old(configs), PutsOf(resp.configs)) && revision == resp.revision
      ensures slot == if caching then Holds(Saved(checksum, configs, revision)) else old(slot)
    {
      var i := 0;
      while i < |resp.configs|
        invariant 0 <= i <= |resp.configs|
        invariant configs == FoldOps(old(configs), PutsOf(resp.configs[..i]))
        invariant slot == old(slot)
      {
        var item := resp.configs[i];
        PutsOfStep(resp.configs[..i + 1]);
        assert resp.configs[..i + 1][..i] == resp.configs[..i];
        configs := configs[item.key := item.value];
        i := i + 1;
      }
      assert resp.configs[..i] == resp.configs;
      revision := resp.revision;
      SaveToCache();
    }

    /** The part of watchLoop after a response: the file is saved before the revision moves on. */
    method ApplyPoll(resp: WatchResponse)
      modifies this
      ensures configs == FoldOps(old(configs), WireOps(resp.events))
      ensures revision == if resp.revision > 0 then resp.revision else old(revision)
      ensures slot == if caching && resp.events != [] then Holds(Saved(checksum, configs, old(revision))) else old(slot)
    {
      assert FoldOps(configs, WireOps([])) == configs;
      if |resp.events| > 0 {
        ApplyEvents(resp.events);
        SaveToCache();
      }
      if resp.revision > 0 {
        revision := resp.revision;
      }
    }

    method ApplyEvents(events: seq<WireEvent>)
      modifies this`configs
      ensures configs == FoldOps(old(configs), WireOps(events))
    {
      var i := 0;
      while i < |events|
        invariant 0 <= i <= |events|
        invariant configs == FoldOps(old(configs), WireOps(events[..i]))
      {
        var e := events[i];
        var ops := WireOps(events[..i + 1]);
        assert ops[..i] == WireOps(events[..i]) && ops[i] == WireOp(e);
        if e.kind == "PUT" {
          configs := configs[e.entry.key := e.entry.value];
        } else if e.kind == "DELETE" {
          configs := configs - {e.entry.key};
        }
        i := i + 1;
      }
      assert events[..i] == events;
    }

    method SaveToCache()
      modifies this`slot
      ensures slot == if caching then Holds(CacheFile(checksum(configs), revision, configs)) else old(slot)
    {
      if !caching {
        return;
      }
      slot := Holds(CacheFile(checksum(configs), revision, configs));
    }

    /** Accepts a file exactly when its checksum is that of its configs, and then adds them to what is there. */
    method LoadFromCache() returns (err: Option<Error>)
      modifies this`configs, this`revision
      ensures err.None? <==> caching && slot.Holds? && checksum(slot.file.configs) == slot.file.checksum
      ensures err.None? ==> configs == old(configs) + slot.file.configs && revision == slot.file.revision
      ensures err.Some? ==> configs == old(configs) && revision == old(revision)
    {
      if !caching {
        return Some(NoCacheDir);
      }
      if slot.Missing? {
        return Some(IoError);
      }
      if slot.Corrupt? {
        return Some(DecodeError);
      }
      var file := slot.file;
      if checksum(file.configs) != file.checksum {
        return Some(ChecksumMismatch);
      }
      var rest := file.configs.Keys;
      while rest != {}
        invariant rest <= file.configs.Keys
        invariant configs == old(configs) + (map k | k in file.configs && k !in rest :: file.configs[k])
        invariant revision == old(revision)
        decreases rest
      {
        var k :| k in rest;
        configs := configs[k := file.configs[k]];
        rest := rest - {k};
      }
      assert (map k | k in file.configs && k !in rest :: file.configs[k]) == file.configs;
      revision := file.revision;
      return None;
    }
  }

  // ----- Pulling a namespace -----

  /** The keys and values of a namespace. */
  function NamespaceView(data: map<Key, Entry>, prefix: string): View {
    map k | k in data && HasPrefix(k, prefix) :: data[k].value
  }

  lemma {:induction false} PutsLookup(v: View, data: map<Key, Entry>, entries: seq<Entry>, k: Key)
    requires Excerpt(data, entries)
    ensures Lookup(FoldOps(v, PutsOf(entries)), k)
         == if Mentions(entries, k) then (if k in data then Some(data[k].value) else None) else Lookup(v, k)
  {
    if entries != [] {
      var n := |entries| - 1;
      PutsOfStep(entries);
      PutsLookup(v, data, entries[..n], k);
      assert forall i | 0 <= i < n :: entries[..n][i] == entries[i];
    }
  }

  /** A full pull puts exactly the namespace on top of what the client had. */
  lemma PullAddsNamespace(v: View, data: map<Key, Entry>, prefix: string, entries: seq<Entry>)
    requires KeysAgree(data) && IsListing(data, prefix, entries)
    ensures FoldOps(v, PutsOf(entries)) == v + NamespaceView(data, prefix)
  {
    forall k
      ensures Lookup(FoldOps(v, PutsOf(entries)), k) == Lookup(v + NamespaceView(data, prefix), k)
    {
      PutsLookup(v, data, entries, k);
      if k in data && HasPrefix(k, prefix) {
        var i :| 0 <= i < |entries| && entries[i] == data[k];
        assert Mentions(entries, k);
      }
    }
    SameLookups(FoldOps(v, PutsOf(entries)), v + NamespaceView(data, prefix));
  }
}
