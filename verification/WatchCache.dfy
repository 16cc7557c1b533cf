/** The ring buffer of recent events (store/watch.go). */
module WatchRing {
  import opened Wrappers
  import opened Text
  import opened Entries
  import opened History

  /** The position of the oldest event that a ring of this capacity still holds after `count` events. */
  function Oldest(count: nat, capacity: nat): nat {
    if count > capacity then count - capacity else 0
  }

  function Retained(history: seq<Event>, capacity: nat): seq<Event> {
    history[Oldest(|history|, capacity)..]
  }

  predicate Wanted(ev: Event, afterRev: nat, prefix: string) {
    afterRev < ev.entry.revision && HasPrefix(ev.entry.key, prefix)
  }

  /** The wanted events, in their order. */
  function Matching(events: seq<Event>, afterRev: nat, prefix: string): seq<Event> {
    if events == [] then []
    else
      var init := Matching(events[..|events| - 1], afterRev, prefix);
      var last := events[|events| - 1];
      if Wanted(last, afterRev, prefix) then init + [last] else init
  }

  class WatchCache {
    var buf: array<Event>
    const capacity: nat
    var count: nat
    var closed: bool
    ghost var history: seq<Event>  // every event ever appended

    ghost predicate Valid()
      reads this, buf
    {
      && buf.Length == capacity
      && |history| == count
      && (capacity == 0 ==> count == 0)
      && forall i | Oldest(count, capacity) <= i < count :: buf[i % capacity] == history[i]
    }

    constructor (capacity: nat)
      ensures Valid() && fresh(buf)
      ensures this.capacity == capacity && history == [] && !closed
    {
      this.capacity := capacity;
      buf := new Event[capacity];
      count := 0;
      closed := false;
      history := [];
    }

    method Append(event: Event)
      requires Valid() && capacity > 0
      modifies this, buf
      ensures Valid() && buf == old(buf)
      ensures history == old(history) + [event] && closed == old(closed)
    {
      var pos := count % capacity;
      forall i | Oldest(count + 1, capacity) <= i < count
        ensures i % capacity != pos
      {
        ModDistinct(i, count, capacity);
      }
      buf[pos] := event;
      count := count + 1;
      history := history + [event];
    }

    /** Exactly the wanted events among the last min(count, capacity) of the whole history, in order. */
    method GetEventsLocked(afterRev: nat, prefix: string) returns (result: seq<Event>)
      requires Valid()
      ensures result == Matching(Retained(history, capacity), afterRev, prefix)
    {
      if count == 0 {
        return [];
      }
      var oldest := 0;
      if count > capacity {
        oldest := count - capacity;
      }
      result := [];
      var i := oldest;
      while i < count
        invariant oldest <= i <= count
        invariant result == Matching(history[oldest..i], afterRev, prefix)
      {
        var pos := i % capacity;
        var ev := buf[pos];
        assert history[oldest..i + 1][..i - oldest] == history[oldest..i];
        i := i + 1;
        if ev.entry.revision <= afterRev {
          continue;
        }
        if prefix != "" && !HasPrefix(ev.entry.key, prefix) {
          continue;
        }
        result := result + [ev];
      }
      assert history[oldest..count] == Retained(history, capacity);
    }

    /**
      One pass of the loop in WaitForEvents: what the call returns, or None when
      it goes on to wait. `late` says that the deadline has passed.
     */
    method CheckOnce(afterRev: nat, prefix: string, late: bool) returns (r: Option<seq<Event>>)
      requires Valid()
      ensures var found := Matching(Retained(history, capacity), afterRev, prefix);
              && (r == Some([]) <==> closed || (found == [] && late))
              && (r.Some? && r.value != [] ==> !closed && r.value == found)
              && (r.None? <==> !closed && found == [] && !late)
    {
      if closed {
        return Some([]);
      }
      var events := GetEventsLocked(afterRev, prefix);
      if |events| > 0 {
        return Some(events);
      }
      if late {
        return Some([]);
      }
      return None;
    }

    method Len() returns (n: nat)
      requires Valid()
      ensures n == |Retained(history, capacity)|
    {
      if count < capacity {
        return count;
      }
      return capacity;
    }

    method Close()
      requires Valid()
      modifies this`closed
      ensures Valid() && closed
    {
      closed := true;
    }
  }

  /** Two positions less than a capacity apart do not share a slot. */
  lemma {:induction false} ModDistinct(i: nat, j: nat, capacity: nat)
    requires i < j < i + capacity
    ensures i % capacity != j % capacity
  {
    if i % capacity == j % capacity {
      var d := j / capacity - i / capacity;
      assert j - i == capacity * d;
      MulBounds(capacity, d);
    }
  }

  lemma MulBounds(a: nat, b: int)
    ensures b >= 1 ==> a * b >= a
    ensures b <= 0 ==> a * b <= 0
  {
    if b >= 1 {
      assert a * b == a + a * (b - 1);
    } else {
      assert a * b == -(a * -b);
    }
  }

  // ----- Properties of queries -----

  lemma {:induction false} MatchingMembers(events: seq<Event>, afterRev: nat, prefix: string, ev: Event)
    ensures ev in Matching(events, afterRev, prefix) <==> ev in events && Wanted(ev, afterRev, prefix)
  {
    if events != [] {
      var n := |events| - 1;
      MatchingMembers(events[..n], afterRev, prefix, ev);
      assert events == events[..n] + [events[n]];
    }
  }

  /** Over consecutive revisions an unfiltered query is a suffix of the history. */
  lemma {:induction false} MatchingIsSuffix(events: seq<Event>, first: nat, afterRev: nat)
    requires forall i | 0 <= i < |events| :: events[i].entry.revision == first + i
    ensures var from := if afterRev < first then 0 else Min(afterRev + 1 - first, |events|);
            Matching(events, afterRev, "") == events[from..]
  {
    if events != [] {
      MatchingIsSuffix(events[..|events| - 1], first, afterRev);
    }
  }

  ghost predicate Ascending(at: seq<nat>) {
    forall j, k | 0 <= j < k < |at| :: at[j] < at[k]
  }

  /** The events at these positions of the history, one after the other. */
  ghost predicate Picked(history: seq<Event>, at: seq<nat>, found: seq<Event>) {
    && |found| == |at|
    && forall j | 0 <= j < |at| :: at[j] < |history| && found[j] == history[at[j]]
  }

  /**
    What a query must answer: the positions, in ascending order, of the events
    with no more than `capacity` from them to the end of the history, a revision
    after `afterRev` and the prefix.
   */
  ghost predicate AnswerAt(history: seq<Event>, capacity: nat, afterRev: nat, prefix: string, at: seq<nat>) {
    && Ascending(at)
    && forall i: nat ::
         i in at <==> i < |history| <= i + capacity
                      && afterRev < history[i].entry.revision && prefix <= history[i].entry.key
  }

  /** The query of a part of the history finds exactly the wanted positions in it, in order. */
  lemma {:induction false} MatchingPicks(history: seq<Event>, lo: nat, hi: nat, afterRev: nat, prefix: string)
    returns (at: seq<nat>)
    requires lo <= hi <= |history|
    ensures Ascending(at) && Picked(history, at, Matching(history[lo..hi], afterRev, prefix))
    ensures forall i: nat ::
              i in at <==> lo <= i < hi && afterRev < history[i].entry.revision && prefix <= history[i].entry.key
  {
    if lo == hi {
      at := [];
    } else {
      at := MatchingPicks(history, lo, hi - 1, afterRev, prefix);
      assert history[lo..hi][..hi - 1 - lo] == history[lo..hi - 1];
      if afterRev < history[hi - 1].entry.revision && prefix <= history[hi - 1].entry.key {
        at := at + [hi - 1];
      }
    }
  }

  /** What the ring answers is what a query must answer. */
  lemma RingAnswers(history: seq<Event>, capacity: nat, afterRev: nat, prefix: string) returns (at: seq<nat>)
    ensures AnswerAt(history, capacity, afterRev, prefix, at)
    ensures Picked(history, at, Matching(Retained(history, capacity), afterRev, prefix))
  {
    at := MatchingPicks(history, Oldest(|history|, capacity), |history|, afterRev, prefix);
    assert history[Oldest(|history|, capacity)..|history|] == Retained(history, capacity);
  }

  ghost predicate HasRevision(events: seq<Event>, r: nat) {
    exists i :: 0 <= i < |events| && events[i].entry.revision == r
  }

  /**
    A store that was at `base` when its ring was created: the ring's revisions
    are consecutive, a query after `afterRev` yields a suffix of the ring, and
    it misses no revision in (afterRev, rev] if and only if `afterRev` is at
    least rev - min(count, capacity).
   */
  lemma QueryMissesNothingIff(base: Db, l: Ledger, capacity: nat, afterRev: nat)
    requires Explains(base, l)
    ensures var ring := Retained(l.events, capacity);
            var result := Matching(ring, afterRev, "");
            && (forall i | 0 <= i < |ring| :: ring[i].entry.revision == l.db.rev - |ring| + i + 1)
            && |ring| == Min(|l.events|, capacity)
            && |result| <= |ring| && result == ring[|ring| - |result|..]
            && ((forall r | afterRev < r <= l.db.rev :: HasRevision(result, r))
                <==> afterRev >= l.db.rev - Min(|l.events|, capacity))
  {
    RevisionsConsecutive(base, l);
    var ring := Retained(l.events, capacity);
    var first := l.db.rev - |ring| + 1;
    MatchingIsSuffix(ring, first, afterRev);
    var result := Matching(ring, afterRev, "");
    if afterRev >= l.db.rev - |ring| {
      forall r | afterRev < r <= l.db.rev
        ensures HasRevision(result, r)
      {
        assert result[r - afterRev - 1].entry.revision == r;
      }
    } else {
      assert !HasRevision(result, afterRev + 1);
    }
  }
}
