/** What restoring a snapshot does to a store that is not cleared first (raft/node.go:346-367). */
module Restores {
  import opened Wrappers
  import opened Text
  import opened Entries
  import opened Replay

  function PutsOf(entries: seq<Entry>): (ops: seq<Op>) {
    seq(|entries|, i requires 0 <= i < |entries| => OpPut(entries[i].key, entries[i].value))
  }

  /** Restore re-puts every entry of the snapshot and clears nothing. */
  function RestoreDb(db: Db, entries: seq<Entry>): Db {
    ApplyAll(db, PutsOf(entries))
  }

  lemma PutsOfStep(entries: seq<Entry>)
    requires entries != []
    ensures var n := |entries| - 1;
            PutsOf(entries)[..n] == PutsOf(entries[..n])
            && PutsOf(entries)[n] == OpPut(entries[n].key, entries[n].value)
  {
  }

  lemma RestoreStep(db: Db, entries: seq<Entry>, i: nat)
    requires i < |entries|
    ensures RestoreDb(db, entries[..i + 1]) == PutDb(RestoreDb(db, entries[..i]), entries[i].key, entries[i].value)
  {
    assert entries[..i + 1][..i] == entries[..i];
    PutsOfStep(entries[..i + 1]);
  }

  ghost predicate Mentions(entries: seq<Entry>, k: Key) {
    exists i :: 0 <= i < |entries| && entries[i].key == k
  }

  /** Every entry is the one that `data` holds under its key: a part of a snapshot of `data`. */
  ghost predicate Excerpt(data: map<Key, Entry>, entries: seq<Entry>) {
    forall i | 0 <= i < |entries| :: Lookup(data, entries[i].key) == Some(entries[i])
  }

  /** Also for a restore that stops early: mentioned keys get the snapshot's value, the rest keep what they had. */
  lemma {:induction false} RestoredLookup(db: Db, data: map<Key, Entry>, entries: seq<Entry>, k: Key)
    requires Excerpt(data, entries)
    ensures var after := RestoreDb(db, entries).data;
            if Mentions(entries, k) then k in data && k in after && after[k].value == data[k].value
            else Lookup(after, k) == Lookup(db.data, k)
  {
    if entries != [] {
      var n := |entries| - 1;
      PutsOfStep(entries);
      RestoredLookup(db, data, entries[..n], k);
      assert forall i | 0 <= i < n :: entries[..n][i] == entries[i];
    }
  }

  lemma {:induction false} RestoreAdvances(db: Db, entries: seq<Entry>)
    ensures RestoreDb(db, entries).rev == db.rev + |entries|
  {
    if entries != [] {
      PutsOfStep(entries);
      RestoreAdvances(db, entries[..|entries| - 1]);
    }
  }

  lemma {:induction false} RestoreKeepsKeys(db: Db, ops: seq<Op>)
    requires KeysAgree(db.data)
    ensures KeysAgree(ApplyAll(db, ops).data)
  {
    if ops != [] {
      RestoreKeepsKeys(db, ops[..|ops| - 1]);
    }
  }

  lemma FullListingMentions(data: map<Key, Entry>, entries: seq<Entry>)
    requires KeysAgree(data) && IsListing(data, "", entries)
    ensures Excerpt(data, entries)
    ensures forall k :: Mentions(entries, k) <==> k in data
  {
    forall k | k in data
      ensures Mentions(entries, k)
    {
      assert HasPrefix(k, "");
      assert data[k] in entries;
    }
  }

  ghost function KeysOf(entries: seq<Entry>): set<Key> {
    set i | 0 <= i < |entries| :: entries[i].key
  }

  lemma {:induction false} AscendingKeysCount(entries: seq<Entry>)
    requires forall i, j | 0 <= i < j < |entries| :: Before(entries[i].key, entries[j].key)
    ensures |KeysOf(entries)| == |entries|
  {
    if entries != [] {
      var n := |entries| - 1;
      AscendingKeysCount(entries[..n]);
      BeforeIrreflexive(entries[n].key);
      assert KeysOf(entries) == KeysOf(entries[..n]) + {entries[n].key};
    }
  }

  lemma ListingSize(data: map<Key, Entry>, entries: seq<Entry>)
    requires KeysAgree(data) && IsListing(data, "", entries)
    ensures |entries| == |data|
  {
    AscendingKeysCount(entries);
    forall k | k in data
      ensures k in KeysOf(entries)
    {
      assert HasPrefix(k, "");
      var i :| 0 <= i < |entries| && entries[i] == data[k];
    }
    assert KeysOf(entries) == data.Keys;
  }

  /** What a complete restore leaves under one key. */
  lemma RestoredEntry(db: Db, snap: map<Key, Entry>, entries: seq<Entry>, k: Key)
    requires KeysAgree(snap) && IsListing(snap, "", entries)
    ensures var after := RestoreDb(db, entries).data;
            && Lookup(ViewOf(after), k) == Lookup(ViewOf(db.data) + ViewOf(snap), k)
            && (k in after <==> k in snap || k in db.data)
            && (k !in snap ==> Lookup(after, k) == Lookup(db.data, k))
  {
    FullListingMentions(snap, entries);
    RestoredLookup(db, snap, entries, k);
  }

  lemma RestoredView(db: Db, snap: map<Key, Entry>, entries: seq<Entry>)
    requires KeysAgree(snap) && IsListing(snap, "", entries)
    ensures ViewOf(RestoreDb(db, entries).data) == ViewOf(db.data) + ViewOf(snap)
  {
    forall k
      ensures Lookup(ViewOf(RestoreDb(db, entries).data), k) == Lookup(ViewOf(db.data) + ViewOf(snap), k)
    {
      RestoredEntry(db, snap, entries, k);
    }
    SameLookups(ViewOf(RestoreDb(db, entries).data), ViewOf(db.data) + ViewOf(snap));
  }

  lemma OverlayExactIff(v: View, w: View)
    ensures v + w == w <==> v.Keys <= w.Keys
  {
    if v + w == w {
      assert (v + w).Keys == v.Keys + w.Keys;
    }
  }

  /**
    Restore is exact if and only if every key live before it is in the snapshot.
    Otherwise precisely the extra keys survive, with their old entries.
   */
  lemma RestoreExactIff(db: Db, snap: map<Key, Entry>, entries: seq<Entry>)
    requires KeysAgree(snap) && IsListing(snap, "", entries)
    ensures var after := RestoreDb(db, entries).data;
            && (ViewOf(after) == ViewOf(snap) <==> db.data.Keys <= snap.Keys)
            && ViewOf(after) == ViewOf(db.data) + ViewOf(snap)
            && after.Keys == db.data.Keys + snap.Keys
            && forall k | k in db.data && k !in snap :: Lookup(after, k) == Some(db.data[k])
  {
    RestoredView(db, snap, entries);
    OverlayExactIff(ViewOf(db.data), ViewOf(snap));
    assert ViewOf(db.data).Keys == db.data.Keys && ViewOf(snap).Keys == snap.Keys;
    var after := RestoreDb(db, entries).data;
    forall k
      ensures k in after <==> k in snap || k in db.data
      ensures k !in snap ==> Lookup(after, k) == Lookup(db.data, k)
    {
      RestoredEntry(db, snap, entries, k);
    }
  }
}
