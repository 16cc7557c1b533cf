/** Where the revision of a store comes from, and how far Restore makes it drift (store/bolt.go, raft/node.go). */
module Conservation {
  import opened Wrappers
  import opened Entries
  import opened History
  import opened Restores

  // ----- Sums over the live entries -----

  ghost function Sum(data: map<Key, Entry>, f: Entry -> int): int {
    if data == map[] then 0
    else
      var k :| k in data;
      f(data[k]) + Sum(data - {k}, f)
  }

  /** The order of summation does not matter: any key may be taken out first. */
  lemma {:induction false} SumTakeOut(data: map<Key, Entry>, f: Entry -> int, k: Key)
    requires k in data
    ensures Sum(data, f) == f(data[k]) + Sum(data - {k}, f)
    decreases |data|
  {
    var j :| j in data && Sum(data, f) == f(data[j]) + Sum(data - {j}, f);
    if j != k {
      SumTakeOut(data - {j}, f, k);
      SumTakeOut(data - {k}, f, j);
      assert data - {j} - {k} == data - {k} - {j};
    }
  }

  lemma SumUpdate(data: map<Key, Entry>, f: Entry -> int, k: Key, e: Entry)
    ensures Sum(data[k := e], f) == f(e) + Sum(data - {k}, f)
  {
    SumTakeOut(data[k := e], f, k);
    assert data[k := e] - {k} == data - {k};
  }

  function VersionOf(e: Entry): int {
    e.version
  }

  function OverwritesOf(e: Entry): int {
    e.version - 1
  }

  lemma {:induction false} VersionsCountEntries(data: map<Key, Entry>)
    ensures Sum(data, VersionOf) == Sum(data, OverwritesOf) + |data|
    decreases |data|
  {
    if data != map[] {
      var k :| k in data;
      SumTakeOut(data, VersionOf, k);
      SumTakeOut(data, OverwritesOf, k);
      VersionsCountEntries(data - {k});
      assert |data.Keys| == |(data - {k}).Keys| + 1 by {
        assert data.Keys == (data - {k}).Keys + {k};
      }
    }
  }

  // ----- Sums over the mutations -----

  /** The sum of (Version + 1) over the deletes of a history. */
  function DeletedWeight(events: seq<Event>): nat {
    if events == [] then 0
    else
      var ev := events[|events| - 1];
      DeletedWeight(events[..|events| - 1]) + if ev.kind.EventDelete? then ev.entry.version + 1 else 0
  }

  function Deletes(events: seq<Event>): nat {
    if events == [] then 0
    else Deletes(events[..|events| - 1]) + if events[|events| - 1].kind.EventDelete? then 1 else 0
  }

  function Overwrites(events: seq<Event>): nat {
    if events == [] then 0
    else Overwrites(events[..|events| - 1]) + if events[|events| - 1].prev.Some? then 1 else 0
  }

  // ----- Conservation -----

  /** What happens to a store: operations, and snapshots restored on top of it. */
  datatype Action = Operate(op: Op) | RestoreFrom(entries: seq<Entry>)

  function Act(l: Ledger, a: Action): Ledger {
    match a
    case Operate(op) => Record(l, op)
    case RestoreFrom(entries) => RecordAll(l, PutsOf(entries))
  }

  function ActAll(l: Ledger, actions: seq<Action>): Ledger {
    if actions == [] then l else Act(ActAll(l, actions[..|actions| - 1]), actions[|actions| - 1])
  }

  ghost predicate Conserved(l: Ledger) {
    l.db.rev == Sum(l.db.data, VersionOf) + DeletedWeight(l.events)
  }

  lemma PutConserves(l: Ledger, key: Key, value: Value)
    requires Conserved(l)
    ensures Conserved(Record(l, OpPut(key, value)))
  {
    var l' := Record(l, OpPut(key, value));
    assert l'.events[..|l.events|] == l.events;
    SumUpdate(l.db.data, VersionOf, key, NewEntry(l.db, key, value));
    if key in l.db.data {
      SumTakeOut(l.db.data, VersionOf, key);
    } else {
      assert l.db.data - {key} == l.db.data;
    }
  }

  lemma DeleteConserves(l: Ledger, key: Key)
    requires Conserved(l) && key in l.db.data
    ensures Conserved(Record(l, OpDelete(key)))
  {
    var l' := Record(l, OpDelete(key));
    assert l'.events[..|l.events|] == l.events;
    SumTakeOut(l.db.data, VersionOf, key);
  }

  lemma RecordConserves(l: Ledger, op: Op)
    requires Conserved(l)
    ensures Conserved(Record(l, op))
  {
    match op
    case OpPut(key, value) => PutConserves(l, key, value);
    case OpDelete(key) =>
      if key in l.db.data {
        DeleteConserves(l, key);
      }
    case OpInvalid =>
  }

  lemma {:induction false} RecordAllConserves(l: Ledger, ops: seq<Op>)
    requires Conserved(l)
    ensures Conserved(RecordAll(l, ops))
  {
    if ops != [] {
      RecordAllConserves(l, ops[..|ops| - 1]);
      RecordConserves(RecordAll(l, ops[..|ops| - 1]), ops[|ops| - 1]);
    }
  }

  /** From an empty store the revision is always the sum of the live versions plus (Version + 1) for every delete. */
  lemma {:induction false} RevisionConserved(actions: seq<Action>)
    ensures Conserved(ActAll(Ledger(EMPTY_DB, []), actions))
  {
    if actions != [] {
      RevisionConserved(actions[..|actions| - 1]);
      var l := ActAll(Ledger(EMPTY_DB, []), actions[..|actions| - 1]);
      match actions[|actions| - 1]
      case Operate(op) => RecordConserves(l, op);
      case RestoreFrom(entries) => RecordAllConserves(l, PutsOf(entries));
    }
  }

  // ----- Drift -----

  /** Every overwrite costs one revision beyond the number of keys, every delete two. */
  lemma {:induction false} RevisionSplits(ops: seq<Op>)
    ensures var l := RecordAll(Ledger(EMPTY_DB, []), ops);
            l.db.rev == |l.db.data| + Overwrites(l.events) + 2 * Deletes(l.events)
  {
    if ops != [] {
      RevisionSplits(ops[..|ops| - 1]);
      var l := RecordAll(Ledger(EMPTY_DB, []), ops[..|ops| - 1]);
      var op := ops[|ops| - 1];
      var l' := Record(l, op);
      if l'.events != l.events {
        assert l'.events[..|l.events|] == l.events;
        if op.OpPut? {
          assert l'.db.data.Keys == l.db.data.Keys + {op.key};
        } else {
          assert l.db.data.Keys == l'.db.data.Keys + {op.key};
        }
      }
    }
  }

  lemma {:induction false} QuietMeansNone(events: seq<Event>)
    ensures Overwrites(events) == 0 && Deletes(events) == 0
            <==> forall i | 0 <= i < |events| :: events[i].kind.EventPut? && events[i].prev.None?
    ensures DeletedWeight(events) >= Deletes(events)
  {
    if events != [] {
      var init := events[..|events| - 1];
      QuietMeansNone(init);
      assert forall i | 0 <= i < |init| :: init[i] == events[i];
    }
  }

  /**
    Restored onto an empty store, a snapshot gets the number of its entries as
    revision. That falls short of the revision it was taken at by exactly the
    overwrites of the live keys plus (Version + 1) for every past delete, so
    the two agree exactly when nothing was ever overwritten or deleted.
   */
  lemma RestoreDrift(ops: seq<Op>, entries: seq<Entry>)
    requires IsListing(ApplyAll(EMPTY_DB, ops).data, "", entries)
    ensures var l := RecordAll(Ledger(EMPTY_DB, []), ops);
            var restored := RestoreDb(EMPTY_DB, entries);
            && restored.rev == |entries| == |l.db.data|
            && l.db.rev - restored.rev == Sum(l.db.data, OverwritesOf) + DeletedWeight(l.events)
            && (l.db.rev == restored.rev
                <==> forall i | 0 <= i < |l.events| :: l.events[i].kind.EventPut? && l.events[i].prev.None?)
  {
    var l := RecordAll(Ledger(EMPTY_DB, []), ops);
    HistoryExplains(EMPTY_DB, ops);
    RestoreAdvances(EMPTY_DB, entries);
    ListingSize(l.db.data, entries);
    RecordAllConserves(Ledger(EMPTY_DB, []), ops);
    VersionsCountEntries(l.db.data);
    RevisionSplits(ops);
    QuietMeansNone(l.events);
  }
}
