/**
  The store together with its unbounded history of change events.

  Every successful mutation adds one event (store/watchable.go:30-58); the
  watch ring, the replicas and the clients are all stated against this history.
 */
module History {
  import opened Wrappers
  import opened Entries

  datatype Ledger = Ledger(db: Db, events: seq<Event>)

  function Record(l: Ledger, op: Op): Ledger {
    var ev := EventOf(l.db, op);
    Ledger(ApplyOp(l.db, op), if ev.Some? then l.events + [ev.value] else l.events)
  }

  function RecordAll(l: Ledger, ops: seq<Op>): Ledger {
    if ops == [] then l else Record(RecordAll(l, ops[..|ops| - 1]), ops[|ops| - 1])
  }

  // ----- Reading a history forwards -----

  function Play(data: map<Key, Entry>, ev: Event): map<Key, Entry> {
    match ev.kind
    case EventPut => data[ev.entry.key := ev.entry]
    case EventDelete => data - {ev.entry.key}
  }

  function Fold(data: map<Key, Entry>, events: seq<Event>): map<Key, Entry> {
    if events == [] then data else Play(Fold(data, events[..|events| - 1]), events[|events| - 1])
  }

  /** Event `i` is what a mutation of the data before it must have recorded. */
  ghost predicate EventFits(base: Db, events: seq<Event>, i: nat)
    requires i < |events|
  {
    var before := Fold(base.data, events[..i]);
    var ev := events[i];
    match ev.kind
    case EventPut =>
      && ev.prev == Lookup(before, ev.entry.key)
      && ev.entry == NewEntry(Db(before, base.rev + i), ev.entry.key, ev.entry.value)
    case EventDelete =>
      && ev.prev == None
      && ev.entry.key in before
      && ev.entry == before[ev.entry.key].(revision := base.rev + i + 1)
  }

  /** The events explain how the ledger's store came about from `base`. */
  ghost predicate Explains(base: Db, l: Ledger) {
    && l.db.rev == base.rev + |l.events|
    && l.db.data == Fold(base.data, l.events)
    && forall i | 0 <= i < |l.events| :: EventFits(base, l.events, i)
  }

  lemma RecordExplains(base: Db, l: Ledger, op: Op)
    requires KeysAgree(l.db.data) && Explains(base, l)
    ensures KeysAgree(ApplyOp(l.db, op).data) && Explains(base, Record(l, op))
  {
    var l' := Record(l, op);
    if l'.events != l.events {
      assert l'.events[..|l.events|] == l.events;
      forall i | 0 <= i < |l'.events|
        ensures EventFits(base, l'.events, i)
      {
        if i < |l.events| {
          assert l'.events[..i] == l.events[..i];
          assert EventFits(base, l.events, i);
        }
      }
    }
  }

  /** The event stream determines the store: folding it from the start gives the current data and revision. */
  lemma {:induction false} HistoryExplains(base: Db, ops: seq<Op>)
    requires KeysAgree(base.data)
    ensures var l := RecordAll(Ledger(base, []), ops);
            l.db == ApplyAll(base, ops) && KeysAgree(l.db.data) && Explains(base, l)
  {
    if ops != [] {
      HistoryExplains(base, ops[..|ops| - 1]);
      RecordExplains(base, RecordAll(Ledger(base, []), ops[..|ops| - 1]), ops[|ops| - 1]);
    }
  }

  /** Event `i` of an explained history carries the revision `i + 1` past the base. */
  lemma RevisionsConsecutive(base: Db, l: Ledger)
    requires Explains(base, l)
    ensures forall i | 0 <= i < |l.events| :: l.events[i].entry.revision == base.rev + i + 1
  {
    forall i | 0 <= i < |l.events|
      ensures l.events[i].entry.revision == base.rev + i + 1
    {
      assert EventFits(base, l.events, i);
    }
  }

  /** The operation that repeats an event's effect on the view. */
  function OpFor(ev: Event): Op {
    match ev.kind
    case EventPut => OpPut(ev.entry.key, ev.entry.value)
    case EventDelete => OpDelete(ev.entry.key)
  }

  // ----- Reading a history backwards -----

  /** Takes back one event; a deleted entry gets the revision it had while it was live. */
  function Undo(data: map<Key, Entry>, ev: Event): map<Key, Entry> {
    match ev.kind
    case EventPut =>
      if ev.prev.Some? then data[ev.entry.key := ev.prev.value] else data - {ev.entry.key}
    case EventDelete => data[ev.entry.key := ev.entry.(revision := ev.entry.modRevision)]
  }

  function UndoLast(data: map<Key, Entry>, events: seq<Event>, n: nat): map<Key, Entry>
    requires n <= |events|
    decreases n
  {
    if n == 0 then data
    else UndoLast(Undo(data, events[|events| - 1]), events[..|events| - 1], n - 1)
  }

  ghost predicate LiveRevisions(data: map<Key, Entry>) {
    forall k | k in data :: data[k].revision == data[k].modRevision
  }

  lemma {:induction false} FoldStaysLive(base: Db, events: seq<Event>, n: nat)
    requires LiveRevisions(base.data) && n <= |events|
    requires forall i | 0 <= i < |events| :: EventFits(base, events, i)
    ensures LiveRevisions(Fold(base.data, events[..n]))
  {
    if n > 0 {
      FoldStaysLive(base, events, n - 1);
      assert EventFits(base, events, n - 1);
      assert events[..n][..n - 1] == events[..n - 1];
    }
  }

  lemma {:induction false} UndoIsBackwardsFold(base: Db, events: seq<Event>, n: nat)
    requires LiveRevisions(base.data) && n <= |events|
    requires forall i | 0 <= i < |events| :: EventFits(base, events, i)
    ensures UndoLast(Fold(base.data, events), events, n) == Fold(base.data, events[..|events| - n])
  {
    if n == 0 {
      assert events[..|events|] == events;
    } else {
      var m := |events| - 1;
      var init := events[..m];
      forall i | 0 <= i < m
        ensures EventFits(base, init, i)
      {
        assert EventFits(base, events, i);
        assert init[..i] == events[..i];
      }
      FoldStaysLive(base, events, m);
      assert EventFits(base, events, m);
      assert Undo(Fold(base.data, events), events[m]) == Fold(base.data, init);
      UndoIsBackwardsFold(base, init, n - 1);
      assert init[..m - (n - 1)] == events[..|events| - n];
    }
  }

  /** Undoing the events since any earlier moment recovers exactly the entries of that moment. */
  lemma {:induction false} HistoryReversible(base: Db, before: seq<Op>, after: seq<Op>)
    requires KeysAgree(base.data) && LiveRevisions(base.data)
    ensures var mid := RecordAll(Ledger(base, []), before);
            var end := RecordAll(mid, after);
            && mid.events <= end.events
            && end.db.rev - mid.db.rev == |end.events| - |mid.events|
            && UndoLast(end.db.data, end.events, |end.events| - |mid.events|) == mid.db.data
  {
    HistoryExplains(base, before);
    var mid := RecordAll(Ledger(base, []), before);
    ExplainsOnwards(base, mid, after);
    var end := RecordAll(mid, after);
    UndoIsBackwardsFold(base, end.events, |end.events| - |mid.events|);
    assert end.events[..|mid.events|] == mid.events;
  }

  lemma {:induction false} ExplainsOnwards(base: Db, l: Ledger, ops: seq<Op>)
    requires KeysAgree(l.db.data) && Explains(base, l)
    ensures var l' := RecordAll(l, ops);
            KeysAgree(l'.db.data) && Explains(base, l') && l.events <= l'.events
  {
    if ops != [] {
      ExplainsOnwards(base, l, ops[..|ops| - 1]);
      RecordExplains(base, RecordAll(l, ops[..|ops| - 1]), ops[|ops| - 1]);
    }
  }

  // ----- The four version counters -----

  /** What holds of every entry, and of every two entries, of a store that grew from nothing. */
  ghost predicate CountersSound(db: Db) {
    && KeysAgree(db.data)
    && (forall k | k in db.data ::
          var e := db.data[k];
          && 1 <= e.createRevision <= e.modRevision == e.revision <= db.rev
          && 1 <= e.version <= e.modRevision - e.createRevision + 1)
    && (forall j, k | j in db.data && k in db.data && j != k ::
          && db.data[j].modRevision != db.data[k].modRevision
          && db.data[j].createRevision != db.data[k].createRevision)
  }

  lemma {:induction false} CountersStaySound(db: Db, ops: seq<Op>)
    requires CountersSound(db)
    ensures CountersSound(ApplyAll(db, ops))
  {
    if ops != [] {
      CountersStaySound(db, ops[..|ops| - 1]);
    }
  }

  lemma {:induction false} CountersSoundFromEmpty(ops: seq<Op>)
    ensures CountersSound(ApplyAll(EMPTY_DB, ops))
  {
    CountersStaySound(EMPTY_DB, ops);
  }
}
