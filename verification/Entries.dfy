/** The data model of the store: entries, events and the effect of one operation (store/store.go). */
module Entries {
  import opened Wrappers
  import opened Text

  type Key = string
  type Value = string

  datatype Entry = Entry(
    key: Key, value: Value, revision: nat, createRevision: nat, modRevision: nat, version: nat)

  datatype EventType = EventPut | EventDelete

  datatype Event = Event(kind: EventType, entry: Entry, prev: Option<Entry>)

  datatype PutResult = PutResult(entry: Entry, prev: Option<Entry>)

  datatype Error = KeyNotFound | IoError | DecodeError | UnknownOp | NoCacheDir | ChecksumMismatch

  /** A replicated operation; `OpInvalid` is one that does not decode or has an unknown type. */
  datatype Op = OpPut(key: Key, value: Value) | OpDelete(key: Key) | OpInvalid

  /** A store on which every transaction commits: its data and its revision. */
  datatype Db = Db(data: map<Key, Entry>, rev: nat)

  const EMPTY_DB := Db(map[], 0)

  /** The entry that a put of `value` under `key` writes. */
  function NewEntry(db: Db, key: Key, value: Value): Entry {
    if key in db.data then
      Entry(key, value, db.rev + 1, db.data[key].createRevision, db.rev + 1, db.data[key].version + 1)
    else
      Entry(key, value, db.rev + 1, db.rev + 1, db.rev + 1, 1)
  }

  function PutDb(db: Db, key: Key, value: Value): Db {
    Db(db.data[key := NewEntry(db, key, value)], db.rev + 1)
  }

  function DeleteDb(db: Db, key: Key): Db {
    if key in db.data then Db(db.data - {key}, db.rev + 1) else db
  }

  function ApplyOp(db: Db, op: Op): Db {
    match op
    case OpPut(key, value) => PutDb(db, key, value)
    case OpDelete(key) => DeleteDb(db, key)
    case OpInvalid => db
  }

  /** The change event of an operation; a failed operation has none. */
  function EventOf(db: Db, op: Op): Option<Event> {
    match op
    case OpPut(key, value) => Some(Event(EventPut, NewEntry(db, key, value), Lookup(db.data, key)))
    case OpDelete(key) =>
      if key in db.data then
        Some(Event(EventDelete, db.data[key].(revision := db.rev + 1), None))
      else
        None
    case OpInvalid => None
  }

  function ApplyAll(db: Db, ops: seq<Op>): Db {
    if ops == [] then db else ApplyOp(ApplyAll(db, ops[..|ops| - 1]), ops[|ops| - 1])
  }

  /** Every entry sits under its own key. */
  ghost predicate KeysAgree(data: map<Key, Entry>) {
    forall k | k in data :: data[k].key == k
  }

  /** `entries` are exactly the entries of `data` under `prefix`, each once, in key order. */
  ghost predicate IsListing(data: map<Key, Entry>, prefix: string, entries: seq<Entry>) {
    && (forall i | 0 <= i < |entries| ::
          HasPrefix(entries[i].key, prefix) && Lookup(data, entries[i].key) == Some(entries[i]))
    && (forall i, j | 0 <= i < j < |entries| :: Before(entries[i].key, entries[j].key))
    && (forall k | k in data && HasPrefix(k, prefix) :: data[k] in entries)
  }

  /** The keys of a listing ascend: each is a proper prefix of the next, or smaller where they first differ. */
  lemma ListingAscends(data: map<Key, Entry>, prefix: string, entries: seq<Entry>)
    requires IsListing(data, prefix, entries)
    ensures forall i, j | 0 <= i < j < |entries| :: SortsBefore(entries[i].key, entries[j].key)
  {
    forall i, j | 0 <= i < j < |entries|
      ensures SortsBefore(entries[i].key, entries[j].key)
    {
      BeforeIff(entries[i].key, entries[j].key);
    }
  }

  /** There is only one listing, so `List` is a function of the data and the prefix. */
  lemma {:induction false} ListingUnique(data: map<Key, Entry>, prefix: string, a: seq<Entry>, b: seq<Entry>)
    requires IsListing(data, prefix, a) && IsListing(data, prefix, b)
    ensures a == b
  {
    forall e
      ensures e in a <==> e in b
    {
    }
    AscendingUnique(a, b);
  }

  lemma {:induction false} AscendingUnique(a: seq<Entry>, b: seq<Entry>)
    requires forall i, j | 0 <= i < j < |a| :: Before(a[i].key, a[j].key)
    requires forall i, j | 0 <= i < j < |b| :: Before(b[i].key, b[j].key)
    requires forall e :: e in a <==> e in b
    ensures a == b
  {
    assert a == [] || a[0] in b;
    assert b == [] || b[0] in a;
    if a != [] {
      var j :| 0 <= j < |b| && b[j] == a[0];
      var i :| 0 <= i < |a| && a[i] == b[0];
      if 0 < i && 0 < j {
        BeforeTransitive(a[0].key, b[0].key, a[0].key);
        BeforeIrreflexive(a[0].key);
      }
      assert a[0] == b[0];
      BeforeIrreflexive(a[0].key);
      assert a[0] !in a[1..] && b[0] !in b[1..];
      assert a == [a[0]] + a[1..] && b == [b[0]] + b[1..];
      forall e
        ensures e in a[1..] <==> e in b[1..]
      {
        assert e in a <==> e in b;
      }
      AscendingUnique(a[1..], b[1..]);
    }
  }
}
