/** The revision store over a transactional bucket (store/bolt.go). */
module BoltStores {
  import opened Wrappers
  import opened Text
  import opened Entries
  import opened Replay

  /** What the database file holds: the data bucket and the revision of the meta bucket. */
  datatype Disk = Disk(data: map<Key, Entry>, rev: Option<nat>)

  /** How a transaction goes wrong: inside its body, or when it commits. */
  datatype Fault = NoFault | TxFault | CommitFault

  function PersistedRev(disk: Disk): nat {
    if disk.rev.Some? then disk.rev.value else 0
  }

  /** The state of an open store: its file and the revision cached in memory. */
  datatype BoltState = BoltState(disk: Disk, rev: nat)

  /** A put whose transaction meets `fault`: the new state and what the caller gets. */
  function PutState(s: BoltState, key: Key, value: Value, fault: Fault): (BoltState, Result<PutResult, Error>) {
    var db := Db(s.disk.data, s.rev);
    match fault
    case TxFault => (s, Failure(IoError))
    case CommitFault => (s.(rev := s.rev + 1), Failure(IoError))
    case NoFault =>
      (BoltState(Disk(PutDb(db, key, value).data, Some(s.rev + 1)), s.rev + 1),
       Success(PutResult(NewEntry(db, key, value), Lookup(db.data, key))))
  }

  function DeleteState(s: BoltState, key: Key, fault: Fault): (BoltState, Result<Entry, Error>) {
    if key !in s.disk.data then (s, Failure(KeyNotFound)) else
    match fault
    case TxFault => (s, Failure(IoError))
    case CommitFault => (s.(rev := s.rev + 1), Failure(IoError))
    case NoFault =>
      (BoltState(Disk(s.disk.data - {key}, Some(s.rev + 1)), s.rev + 1),
       Success(s.disk.data[key].(revision := s.rev + 1)))
  }

  class BoltStore {
    var disk: Disk
    var rev: nat

    ghost predicate Valid()
      reads this
    {
      PersistedRev(disk) <= rev && KeysAgree(disk.data)
    }

    function State(): BoltState
      reads this
    {
      BoltState(disk, rev)
    }

    /** The store as the other components see it. */
    function Db(): Db
      reads this
    {
      Entries.Db(disk.data, rev)
    }

    constructor Open(disk: Disk)
      requires KeysAgree(disk.data)
      ensures Valid() && State() == BoltState(disk, PersistedRev(disk))
    {
      this.disk := disk;
      this.rev := PersistedRev(disk);
    }

    method Put(key: Key, value: Value, fault: Fault) returns (r: Result<PutResult, Error>)
      requires Valid()
      modifies this
      ensures Valid()
      ensures (State(), r) == PutState(old(State()), key, value, fault)
      ensures r.Success? <==> fault == NoFault
      ensures r.Success? ==> Db() == PutDb(old(Db()), key, value)
      ensures r.Success? ==>
                && disk.rev == Some(rev) && rev == old(rev) + 1
                && disk.data == old(disk.data)[key := r.value.entry] && r.value.prev == Lookup(old(disk.data), key)
                && r.value.entry.key == key && r.value.entry.value == value
                && r.value.entry.revision == r.value.entry.modRevision == rev
      ensures r.Failure? ==> disk == old(disk)
    {
      var tx := disk;
      var prev := Lookup(tx.data, key);
      var newRev := rev + 1;
      var entry := Entry(key, value, newRev, newRev, newRev, 1);
      if prev.Some? {
        entry := entry.(createRevision := prev.value.createRevision, version := prev.value.version + 1);
      }
      if fault == TxFault {
        return Failure(IoError);
      }
      tx := Disk(tx.data[key := entry], Some(newRev));
      rev := newRev;
      if fault == CommitFault {
        return Failure(IoError);
      }
      disk := tx;
      return Success(PutResult(entry, prev));
    }

    method Delete(key: Key, fault: Fault) returns (r: Result<Entry, Error>)
      requires Valid()
      modifies this
      ensures Valid()
      ensures (State(), r) == DeleteState(old(State()), key, fault)
      ensures r.Success? ==> Db() == DeleteDb(old(Db()), key)
      ensures r == Failure(KeyNotFound) <==> key !in old(disk.data)
      ensures r.Success? ==>
                && disk == Disk(old(disk.data) - {key}, Some(rev)) && rev == old(rev) + 1
                && r.value == old(disk.data)[key].(revision := rev)
      ensures r.Failure? ==> disk == old(disk)
    {
      var tx := disk;
      if key !in tx.data {
        return Failure(KeyNotFound);
      }
      var deleted := tx.data[key];
      tx := tx.(data := tx.data - {key});
      var newRev := rev + 1;
      if fault == TxFault {
        return Failure(IoError);
      }
      tx := tx.(rev := Some(newRev));
      rev := newRev;
      if fault == CommitFault {
        return Failure(IoError);
      }
      disk := tx;
      return Success(deleted.(revision := newRev));
    }

    method Rev() returns (r: nat)
      ensures r == rev
    {
      return rev;
    }

    method Get(key: Key) returns (r: Result<Entry, Error>)
      requires Valid()
      ensures r == if key in disk.data then Success(disk.data[key]) else Failure(KeyNotFound)
    {
      if key !in disk.data {
        return Failure(KeyNotFound);
      }
      return Success(disk.data[key]);
    }

    /** Seeks to the prefix and walks the cursor until the first key without it. */
    method List(prefix: string) returns (entries: seq<Entry>)
      requires Valid()
      ensures IsListing(disk.data, prefix, entries)
      ensures forall i, j | 0 <= i < j < |entries| :: SortsBefore(entries[i].key, entries[j].key)
    {
      var data := disk.data;
      entries := [];
      var k := Seek(data, prefix);
      ghost var ahead := data.Keys;
      while k.Some? && HasPrefix(k.value, prefix)
        invariant k.Some? ==> k.value in data && k.value in ahead && !Before(k.value, prefix)
        invariant forall c | c in data && k.Some? && Before(k.value, c) :: c in ahead
        invariant forall i | 0 <= i < |entries| ::
            HasPrefix(entries[i].key, prefix) && Lookup(data, entries[i].key) == Some(entries[i])
            && (k.Some? ==> Before(entries[i].key, k.value))
        invariant forall i, j | 0 <= i < j < |entries| :: Before(entries[i].key, entries[j].key)
        invariant forall c | c in data && !Before(c, prefix) && (k.None? || Before(c, k.value)) :: data[c] in entries
        decreases ahead
      {
        var at := k.value;
        entries := entries + [data[at]];
        k := NextAfter(data, at);
        ahead := set c | c in data && Before(at, c);
        BeforeIrreflexive(at);
        StepKeepsOrder(data, prefix, entries, at, k);
      }
      NothingLeftOut(data, prefix, entries, k);
      ListingAscends(data, prefix, entries);
    }
  }

  /** The scan may stop at the first key without the prefix. */
  lemma NothingLeftOut(data: map<Key, Entry>, prefix: string, entries: seq<Entry>, stop: Option<Key>)
    requires stop.Some? ==> !Before(stop.value, prefix) && !HasPrefix(stop.value, prefix)
    requires forall c | c in data && !Before(c, prefix) && (stop.None? || Before(c, stop.value)) :: data[c] in entries
    ensures forall c | c in data && HasPrefix(c, prefix) :: data[c] in entries
  {
    forall c | c in data && HasPrefix(c, prefix)
      ensures data[c] in entries
    {
      PrefixComesFirst(c, prefix);
      if stop.Some? && !Before(c, stop.value) {
        BeforeTotal(c, stop.value);
        if Before(stop.value, c) {
          PrefixContiguous(prefix, stop.value, c);
        }
      }
    }
  }

  lemma NothingBeforeLeast(candidates: set<Key>, k: Option<Key>)
    requires forall c | c in candidates :: k.Some? && (c == k.value || Before(k.value, c))
    ensures forall c | c in candidates :: k.Some? && !Before(c, k.value)
  {
    forall c | c in candidates
      ensures !Before(c, k.value)
    {
      BeforeIrreflexive(c);
      if Before(c, k.value) && Before(k.value, c) {
        BeforeTransitive(c, k.value, c);
      }
    }
  }

  /** Cursor.Seek: the first key that is not before the prefix. */
  method Seek(data: map<Key, Entry>, prefix: string) returns (k: Option<Key>)
    ensures k.Some? ==> k.value in data && !Before(k.value, prefix)
    ensures forall c | c in data && !Before(c, prefix) :: k.Some? && !Before(c, k.value)
  {
    var candidates := set c | c in data && !Before(c, prefix);
    k := Least(candidates);
    NothingBeforeLeast(candidates, k);
    assert forall c | c in data && !Before(c, prefix) :: c in candidates;
  }

  /** Cursor.Next: the first key after `at`. */
  method NextAfter(data: map<Key, Entry>, at: Key) returns (k: Option<Key>)
    ensures k.Some? ==> k.value in data && Before(at, k.value)
    ensures forall c | c in data && Before(at, c) :: k.Some? && (c == k.value || Before(k.value, c))
  {
    var candidates := set c | c in data && Before(at, c);
    k := Least(candidates);
    assert forall c | c in data && Before(at, c) :: c in candidates;
  }

  /** The cursor position after `at`: everything collected lies before it, nothing lies between. */
  lemma StepKeepsOrder(data: map<Key, Entry>, prefix: string, entries: seq<Entry>, at: Key, next: Option<Key>)
    requires at in data && !Before(at, prefix) && KeysAgree(data)
    requires next.Some? ==> next.value in data && Before(at, next.value)
    requires forall c | c in data && Before(at, c) :: next.Some? && (c == next.value || Before(next.value, c))
    requires |entries| > 0 && entries[|entries| - 1] == data[at]
    requires forall i | 0 <= i < |entries| - 1 :: Before(entries[i].key, at)
    requires forall c | c in data && !Before(c, prefix) && Before(c, at) :: data[c] in entries
    ensures next.Some? ==> !Before(next.value, prefix)
    ensures forall c | c in data && next.Some? && Before(next.value, c) :: Before(at, c)
    ensures forall i | 0 <= i < |entries| && next.Some? :: Before(entries[i].key, next.value)
    ensures forall c | c in data && !Before(c, prefix) && (next.None? || Before(c, next.value)) :: data[c] in entries
  {
    if next.Some? {
      if Before(next.value, prefix) {
        BeforeTransitive(at, next.value, prefix);
      }
      forall c | c in data && Before(next.value, c)
        ensures Before(at, c)
      {
        BeforeTransitive(at, next.value, c);
      }
      forall i | 0 <= i < |entries| - 1
        ensures Before(entries[i].key, next.value)
      {
        BeforeTransitive(entries[i].key, at, next.value);
      }
    }
    forall c | c in data && !Before(c, prefix) && (next.None? || Before(c, next.value))
      ensures data[c] in entries
    {
      BeforeTotal(c, at);
      if Before(at, c) && next.Some? && Before(next.value, c) {
        BeforeTransitive(c, next.value, c);
      }
      BeforeIrreflexive(c);
    }
  }

  /** The least of a set of keys: the key the cursor finds first. */
  method Least(candidates: set<Key>) returns (k: Option<Key>)
    ensures k.None? <==> candidates == {}
    ensures k.Some? ==> k.value in candidates
    ensures forall c | c in candidates :: k.Some? && (c == k.value || Before(k.value, c))
  {
    k := None;
    var rest := candidates;
    while rest != {}
      invariant rest <= candidates
      invariant k.None? <==> rest == candidates
      invariant k.Some? ==> k.value in candidates
      invariant forall c | c in candidates && c !in rest :: k.Some? && (c == k.value || Before(k.value, c))
      decreases rest
    {
      var c :| c in rest;
      if k.None? || Before(c, k.value) {
        if k.Some? {
          forall d | d in candidates && d !in rest && d != k.value
            ensures Before(c, d)
          {
            BeforeTransitive(c, k.value, d);
          }
        }
        k := Some(c);
      } else {
        BeforeTotal(c, k.value);
      }
      rest := rest - {c};
    }
  }

  // ----- Runs with failing transactions and reopened files -----

  datatype Call = CallPut(key: Key, value: Value, fault: Fault) | CallDelete(key: Key, fault: Fault) | CallReopen

  /** One call: the new state, and the revision a successful mutation returned. */
  function Perform(s: BoltState, call: Call): (BoltState, Option<nat>) {
    match call
    case CallPut(key, value, fault) =>
      var (s', r) := PutState(s, key, value, fault);
      (s', if r.Success? then Some(r.value.entry.revision) else None)
    case CallDelete(key, fault) =>
      var (s', r) := DeleteState(s, key, fault);
      (s', if r.Success? then Some(r.value.revision) else None)
    case CallReopen => (BoltState(s.disk, PersistedRev(s.disk)), None)
  }

  /** A whole run: the final state, and the revisions returned by its successful mutations. */
  function PerformAll(s: BoltState, calls: seq<Call>): (BoltState, seq<nat>) {
    if calls == [] then (s, [])
    else
      var (mid, revs) := PerformAll(s, calls[..|calls| - 1]);
      var (s', r) := Perform(mid, calls[|calls| - 1]);
      (s', if r.Some? then revs + [r.value] else revs)
  }

  /**
    Returned revisions strictly increase over every run, failed commits and
    reopened files included: the cached revision never falls below the
    persisted one, and the persisted one is never below a returned one.
   */
  lemma {:induction false} RevisionsIncrease(s: BoltState, calls: seq<Call>)
    requires PersistedRev(s.disk) <= s.rev
    ensures var (s', revs) := PerformAll(s, calls);
            && PersistedRev(s'.disk) <= s'.rev
            && (forall i | 0 <= i < |revs| :: PersistedRev(s.disk) < revs[i] <= PersistedRev(s'.disk))
            && PersistedRev(s.disk) <= PersistedRev(s'.disk)
            && (forall i, j | 0 <= i < j < |revs| :: revs[i] < revs[j])
  {
    if calls != [] {
      RevisionsIncrease(s, calls[..|calls| - 1]);
    }
  }

  /** The operations of the calls that no fault met. */
  function Committed(calls: seq<Call>): seq<Op> {
    if calls == [] then []
    else
      var init := Committed(calls[..|calls| - 1]);
      match calls[|calls| - 1]
      case CallPut(key, value, fault) => if fault == NoFault then init + [OpPut(key, value)] else init
      case CallDelete(key, fault) => if fault == NoFault then init + [OpDelete(key)] else init
      case CallReopen => init
  }

  /** The same keys, values and versions. */
  ghost predicate SameContents(x: map<Key, Entry>, y: map<Key, Entry>) {
    && x.Keys == y.Keys
    && forall k | k in x :: x[k].value == y[k].value && x[k].version == y[k].version
  }

  lemma PerformKeepsContents(s: BoltState, db: Db, call: Call)
    requires SameContents(s.disk.data, db.data)
    ensures SameContents(Perform(s, call).0.disk.data, ApplyAll(db, Committed([call])).data)
  {
    assert [call][..0] == [] && Committed([]) == [];
    var ops := Committed([call]);
    assert ops == [] || (ops == [ops[0]] && ops[..0] == []);
    assert ApplyAll(db, []) == db;
  }

  lemma CommittedStep(db: Db, calls: seq<Call>)
    requires calls != []
    ensures var init := calls[..|calls| - 1];
            ApplyAll(db, Committed(calls)) == ApplyAll(ApplyAll(db, Committed(init)), Committed([calls[|calls| - 1]]))
  {
    var init, last := Committed(calls[..|calls| - 1]), Committed([calls[|calls| - 1]]);
    assert [calls[|calls| - 1]][..0] == [] && Committed([]) == [];
    assert Committed(calls) == init + last;
    assert last == [] || (last == [last[0]] && last[..0] == [] && (init + last)[..|init|] == init);
  }

  /**
    The data outlive failed transactions and reopened files: in every run they
    are what the operations that no fault met make of the data at the start.
   */
  lemma {:induction false} DataOfSuccesses(s: BoltState, calls: seq<Call>)
    ensures SameContents(PerformAll(s, calls).0.disk.data,
                         ApplyAll(Entries.Db(s.disk.data, s.rev), Committed(calls)).data)
    ensures ViewOf(PerformAll(s, calls).0.disk.data) == FoldOps(ViewOf(s.disk.data), Committed(calls))
  {
    var db := Entries.Db(s.disk.data, s.rev);
    if calls != [] {
      var init, call := calls[..|calls| - 1], calls[|calls| - 1];
      DataOfSuccesses(s, init);
      PerformKeepsContents(PerformAll(s, init).0, ApplyAll(db, Committed(init)), call);
      CommittedStep(db, calls);
    }
    ApplyAllCommutes(db, Committed(calls));
    SameContentsSameView(PerformAll(s, calls).0.disk.data, ApplyAll(db, Committed(calls)).data);
  }

  lemma SameContentsSameView(x: map<Key, Entry>, y: map<Key, Entry>)
    requires SameContents(x, y)
    ensures ViewOf(x) == ViewOf(y)
  {
    assert ViewOf(x).Keys == x.Keys && ViewOf(y).Keys == y.Keys;
  }

  /** A call whose transaction gets as far as its commit, and fails there. */
  predicate FailsCommit(s: BoltState, call: Call) {
    match call
    case CallPut(_, _, fault) => fault == CommitFault
    case CallDelete(key, fault) => fault == CommitFault && key in s.disk.data
    case CallReopen => false
  }

  /** The failed commits since the last successful mutation or reopening. */
  function FailedCommits(s: BoltState, calls: seq<Call>): nat {
    if calls == [] then 0
    else
      var before, last := PerformAll(s, calls[..|calls| - 1]).0, calls[|calls| - 1];
      if last.CallReopen? || Perform(before, last).1.Some? then 0
      else FailedCommits(s, calls[..|calls| - 1]) + if FailsCommit(before, last) then 1 else 0
  }

  /** In every run from an opened file the cached revision is ahead of the persisted one by exactly those commits. */
  lemma {:induction false} LeadIsFailedCommits(disk: Disk, calls: seq<Call>)
    ensures var start := BoltState(disk, PersistedRev(disk));
            var s := PerformAll(start, calls).0;
            s.rev == PersistedRev(s.disk) + FailedCommits(start, calls)
  {
    if calls != [] {
      LeadIsFailedCommits(disk, calls[..|calls| - 1]);
    }
  }

  /**
    The revision that a reader sees goes back at a call of a run exactly when
    the call reopens the file and a commit has failed since the last successful
    mutation or reopening; it goes back by the number of those commits.
   */
  lemma RevFallsBackIff(disk: Disk, calls: seq<Call>, call: Call)
    ensures var start := BoltState(disk, PersistedRev(disk));
            var s := PerformAll(start, calls).0;
            var s' := Perform(s, call).0;
            && (s'.rev < s.rev <==> call.CallReopen? && FailedCommits(start, calls) > 0)
            && (s'.rev < s.rev ==> s.rev - s'.rev == FailedCommits(start, calls))
  {
    LeadIsFailedCommits(disk, calls);
  }

  /** Such a run: on an empty file, a put fails at its commit and shows revision 1; after the reopening it is 0. */
  lemma RevGoesBack(key: Key, value: Value)
    ensures var start := BoltState(Disk(map[], None), 0);
            var put := CallPut(key, value, CommitFault);
            && PerformAll(start, [put]).0.rev == 1
            && PerformAll(start, [put, CallReopen]).0.rev == 0
  {
    var start := BoltState(Disk(map[], None), 0);
    var put := CallPut(key, value, CommitFault);
    assert PerformAll(start, []) == (start, []) && [put][..0] == [] && [put, CallReopen][..1] == [put];
  }
}
