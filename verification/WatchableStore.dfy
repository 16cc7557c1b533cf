/** A store whose every mutation is also appended to the watch ring (store/watchable.go). */
module WatchableStores {
  import opened Wrappers
  import opened Entries
  import opened BoltStores
  import opened History
  import opened WatchRing

  const DEFAULT_WATCH_CACHE_SIZE: nat := 4096

  class WatchableStore {
    const bs: BoltStore
    const wc: WatchCache

    ghost predicate Valid()
      reads this, bs, wc, wc.buf
    {
      bs.Valid() && wc.Valid() && wc.capacity > 0
    }

    /** The store with the events since its ring was created. */
    ghost function Ledger(): History.Ledger
      reads this, bs, wc
    {
      History.Ledger(bs.Db(), wc.history)
    }

    constructor (bs: BoltStore)
      requires bs.Valid()
      ensures Valid() && this.bs == bs && fresh(wc) && fresh(wc.buf)
      ensures Ledger() == History.Ledger(bs.Db(), []) && wc.capacity == DEFAULT_WATCH_CACHE_SIZE
    {
      this.bs := bs;
      this.wc := new WatchCache(DEFAULT_WATCH_CACHE_SIZE);
    }

    method Put(key: Key, value: Value, fault: Fault) returns (r: Result<PutResult, Error>)
      requires Valid()
      modifies bs, wc, wc.buf
      ensures Valid() && wc.buf == old(wc.buf)
      ensures (bs.State(), r) == PutState(old(bs.State()), key, value, fault)
      ensures r.Success? <==> fault == NoFault
      ensures r.Success? ==> Ledger() == Record(old(Ledger()), OpPut(key, value))
      ensures r.Failure? ==> wc.history == old(wc.history)
    {
      r := bs.Put(key, value, fault);
      if r.Failure? {
        return;
      }
      wc.Append(Event(EventPut, r.value.entry, r.value.prev));
    }

    method Delete(key: Key, fault: Fault) returns (r: Result<Entry, Error>)
      requires Valid()
      modifies bs, wc, wc.buf
      ensures Valid() && wc.buf == old(wc.buf)
      ensures (bs.State(), r) == DeleteState(old(bs.State()), key, fault)
      ensures r.Success? || r == Failure(KeyNotFound) ==> Ledger() == Record(old(Ledger()), OpDelete(key))
      ensures r.Failure? ==> wc.history == old(wc.history)
    {
      r := bs.Delete(key, fault);
      if r.Failure? {
        return;
      }
      wc.Append(Event(EventDelete, r.value, None));
    }

    method Close()
      requires Valid()
      modifies wc`closed
      ensures Valid() && wc.closed
    {
      wc.Close();
    }
  }
}
