/** The replicated state machine over the watchable store (raft/node.go:297-367). */
module Fsms {
  import opened Wrappers
  import opened Text
  import opened Entries
  import opened BoltStores
  import opened History
  import opened Restores
  import opened WatchableStores

  /** The bytes of a log entry: what they decode to, if they do. */
  datatype LogData = Garbage | Encoded(kind: string, key: Key, value: Value)

  datatype OpResult = OpResult(entry: Option<Entry>, prev: Option<Entry>, err: Option<Error>)

  datatype SnapshotData = SnapshotData(entries: seq<Entry>, rev: nat)

  /** The operation a log entry stands for. */
  function DecodeOp(log: LogData): Op {
    if log.Garbage? then OpInvalid
    else if log.kind == "put" then OpPut(log.key, log.value)
    else if log.kind == "delete" then OpDelete(log.key)
    else OpInvalid
  }

  /** The log entry that the leader proposes for an operation; a delete carries no value. */
  function Propose(op: Op): LogData
    requires !op.OpInvalid?
  {
    match op
    case OpPut(key, value) => Encoded("put", key, value)
    case OpDelete(key) => Encoded("delete", key, "")
  }

  /** What every node decodes is what the leader proposed. */
  lemma ProposedIsDecoded(op: Op)
    requires !op.OpInvalid?
    ensures DecodeOp(Propose(op)) == op
  {
    assert "put"[0] != "delete"[0];
  }

  /** A put, a delete and nothing else: which log entries stand for which operation. */
  lemma DecodesIff(log: LogData, key: Key, value: Value)
    ensures DecodeOp(log) == OpPut(key, value) <==> log == Encoded("put", key, value)
    ensures DecodeOp(log) == OpDelete(key) <==> log.Encoded? && log.kind == "delete" && log.key == key
    ensures DecodeOp(log).OpInvalid? <==> log.Garbage? || (log.kind != "put" && log.kind != "delete")
  {
    assert "put"[0] != "delete"[0];
  }

  class FSM {
    const store: WatchableStore

    constructor (store: WatchableStore)
      ensures this.store == store
    {
      this.store := store;
    }

    /**
      Applies one committed entry; an entry that does not apply changes nothing
      and records no event, and a failing transaction records no event either.
     */
    method Apply(log: LogData, fault: Fault) returns (r: OpResult)
      requires store.Valid()
      modifies store.bs, store.wc, store.wc.buf
      ensures store.Valid() && store.wc.buf == old(store.wc.buf)
      ensures fault == NoFault || r.err == Some(KeyNotFound) ==>
                store.Ledger() == Record(old(store.Ledger()), DecodeOp(log))
      ensures r.err.Some? ==> store.wc.history == old(store.wc.history) && store.bs.disk == old(store.bs.disk)
      ensures fault == NoFault ==>
              var ev := EventOf(old(store.bs.Db()), DecodeOp(log));
              && (r.err.None? <==> ev.Some?)
              && (ev.Some? ==> r.entry == Some(ev.value.entry) && r.prev == ev.value.prev)
      ensures log.Encoded? && log.kind == "put" && fault == NoFault ==>
                && r.err.None? && r.entry.Some? && r.entry.value.key == log.key && r.entry.value.value == log.value
                && store.bs.disk.data == old(store.bs.disk.data)[log.key := r.entry.value]
                && r.prev == Lookup(old(store.bs.disk.data), log.key)
      ensures log.Encoded? && log.kind == "delete" ==>
                && (r.err == Some(KeyNotFound) <==> log.key !in old(store.bs.disk.data))
                && (fault == NoFault ==> store.bs.disk.data == old(store.bs.disk.data) - {log.key})
      ensures log.Garbage? || (log.kind != "put" && log.kind != "delete") ==>
                && r == OpResult(None, None, Some(if log.Garbage? then DecodeError else UnknownOp))
                && store.bs.State() == old(store.bs.State())
    {
      if log.Garbage? {
        return OpResult(None, None, Some(DecodeError));
      }
      if log.kind == "put" {
        var put := store.Put(log.key, log.value, fault);
        if put.Failure? {
          return OpResult(None, None, Some(put.error));
        }
        return OpResult(Some(put.value.entry), put.value.prev, None);
      } else if log.kind == "delete" {
        var deleted := store.Delete(log.key, fault);
        if deleted.Failure? {
          return OpResult(None, None, Some(deleted.error));
        }
        return OpResult(Some(deleted.value), None, None);
      } else {
        return OpResult(None, None, Some(UnknownOp));
      }
    }

    method Snapshot() returns (snap: SnapshotData)
      requires store.Valid()
      ensures IsListing(store.bs.disk.data, "", snap.entries) && snap.rev == store.bs.rev
      ensures forall i, j | 0 <= i < j < |snap.entries| :: SortsBefore(snap.entries[i].key, snap.entries[j].key)
    {
      var entries := store.bs.List("");
      var rev := store.bs.Rev();
      return SnapshotData(entries, rev);
    }

    /**
      Re-puts the entries one by one, beside the watch ring, on top of what is
      there; the put of entry `failAt`, if there is one, meets `fault`. A put
      that fails ends the restore, and one that fails at its commit has already
      advanced the cached revision.
     */
    method Restore(decoded: Option<SnapshotData>, failAt: nat, fault: Fault) returns (err: Option<Error>)
      requires store.Valid()
      modifies store.bs
      ensures store.Valid() && store.wc.history == old(store.wc.history)
      ensures err.None? <==> decoded.Some? && (|decoded.value.entries| <= failAt || fault == NoFault)
      ensures decoded.None? ==> store.bs.State() == old(store.bs.State())
      ensures decoded.Some? ==>
                var entries := decoded.value.entries;
                var done := RestoreDb(old(store.bs.Db()), if err.None? then entries else entries[..failAt]);
                && store.bs.disk.data == done.data
                && store.bs.rev == done.rev + (if err.Some? && fault == CommitFault then 1 else 0)
    {
      if decoded.None? {
        return Some(DecodeError);
      }
      var entries := decoded.value.entries;
      var i := 0;
      while i < |entries|
        invariant 0 <= i <= |entries| && (i <= failAt || fault == NoFault)
        invariant store.Valid()
        invariant store.bs.Db() == RestoreDb(old(store.bs.Db()), entries[..i])
      {
        var e := entries[i];
        var r := store.bs.Put(e.key, e.value, if i == failAt then fault else NoFault);
        if r.Failure? {
          return Some(r.error);
        }
        RestoreStep(old(store.bs.Db()), entries, i);
        i := i + 1;
      }
      assert entries[..i] == entries;
      return None;
    }
  }
}
