/** What a client's configs are after some of the events of a history have been delivered to it. */
module Deliveries {
  import opened Wrappers
  import opened Text
  import opened Entries
  import opened Replay
  import opened History
  import opened WatchRing
  import opened Sdk

  /** The history as a client of `prefix` saw it that got the events at `got` and no others. */
  function Delivered(events: seq<Event>, got: set<nat>, prefix: string): seq<Op> {
    seq(|events|, i requires 0 <= i < |events| =>
      if i in got && HasPrefix(events[i].entry.key, prefix) then OpFor(events[i]) else OpInvalid)
  }

  function ConfigsAfter(events: seq<Event>, got: set<nat>, prefix: string): View {
    FoldOps(map[], Delivered(events, got, prefix))
  }

  /** The history as a client of `prefix` sees it that gets everything. */
  function Relevant(events: seq<Event>, prefix: string): seq<Op> {
    seq(|events|, i requires 0 <= i < |events| =>
      if HasPrefix(events[i].entry.key, prefix) then OpFor(events[i]) else OpInvalid)
  }

  predicate Within(lo: nat, hi: nat, i: nat) {
    lo <= i < hi
  }

  /** The positions lo, ..., hi - 1. */
  function Range(lo: nat, hi: nat): set<nat> {
    set i: nat | i < hi && Within(lo, hi, i)
  }

  lemma RangeHolds(lo: nat, hi: nat)
    ensures forall i :: i in Range(lo, hi) <==> lo <= i < hi
  {
    forall i: nat
      ensures i in Range(lo, hi) <==> lo <= i < hi
    {
      assert lo <= i < hi ==> Within(lo, hi, i);
    }
  }

  /** An event that no client has got yet changes nothing. */
  lemma AppendUndelivered(events: seq<Event>, ev: Event, got: set<nat>, prefix: string)
    requires |events| !in got
    ensures ConfigsAfter(events + [ev], got, prefix) == ConfigsAfter(events, got, prefix)
  {
    var ops := Delivered(events + [ev], got, prefix);
    assert ops[..|events|] == Delivered(events, got, prefix);
  }

  function OpsFor(events: seq<Event>): seq<Op> {
    seq(|events|, i requires 0 <= i < |events| => OpFor(events[i]))
  }

  /** Filtering events or turning the unwanted ones into no-operations comes to the same. */
  lemma {:induction false} FilterIsMask(v: View, events: seq<Event>, afterRev: nat, prefix: string)
    requires forall i | 0 <= i < |events| :: events[i].entry.revision > afterRev
    ensures FoldOps(v, OpsFor(Matching(events, afterRev, prefix)))
         == FoldOps(v, Relevant(events, prefix))
  {
    if events != [] {
      var n := |events| - 1;
      FilterIsMask(v, events[..n], afterRev, prefix);
      assert Relevant(events, prefix)[..n] == Relevant(events[..n], prefix);
      var found := Matching(events, afterRev, prefix);
      if HasPrefix(events[n].entry.key, prefix) {
        assert OpsFor(found)[..|found| - 1] == OpsFor(Matching(events[..n], afterRev, prefix));
      }
    }
  }

  /**
    A poll delivers every matching event of positions [lo, hi), whether or not
    some of them were delivered before (to a client whose cache file held newer
    configs than its revision says), and the configs become those of a client
    that got all of them once, in order.
   */
  lemma PollDelivers(events: seq<Event>, got: set<nat>, lo: nat, hi: nat, afterRev: nat, prefix: string)
    requires lo <= hi <= |events|
    requires forall i | i in got :: i < hi
    requires forall i | lo <= i < hi :: events[i].entry.revision > afterRev
    ensures FoldOps(ConfigsAfter(events, got, prefix), OpsFor(Matching(events[lo..hi], afterRev, prefix)))
         == ConfigsAfter(events, got + Range(lo, hi), prefix)
  {
    var before, after := Delivered(events, got, prefix), Delivered(events, got + Range(lo, hi), prefix);
    var all := Relevant(events[lo..hi], prefix);
    FilterIsMask(ConfigsAfter(events, got, prefix), events[lo..hi], afterRev, prefix);
    DeliveredParts(events, got, lo, hi, prefix);
    FoldInThree(before, lo, hi);
    FoldInThree(after, lo, hi);
    Redelivery(FoldOps(map[], before[..lo]), before[lo..hi], all);
  }

  lemma DeliveredParts(events: seq<Event>, got: set<nat>, lo: nat, hi: nat, prefix: string)
    requires lo <= hi <= |events|
    requires forall i | i in got :: i < hi
    ensures var before, after := Delivered(events, got, prefix), Delivered(events, got + Range(lo, hi), prefix);
            && before[..lo] == after[..lo]
            && after[lo..hi] == Relevant(events[lo..hi], prefix)
            && (forall i | 0 <= i < hi - lo :: before[lo..hi][i] == after[lo..hi][i] || before[lo..hi][i] == OpInvalid)
            && (forall i | hi <= i < |events| :: before[i] == OpInvalid && after[i] == OpInvalid)
  {
  }

  lemma FoldInThree(ops: seq<Op>, lo: nat, hi: nat)
    requires lo <= hi <= |ops|
    requires forall i | hi <= i < |ops| :: ops[i] == OpInvalid
    ensures FoldOps(map[], ops) == FoldOps(FoldOps(map[], ops[..lo]), ops[lo..hi])
  {
    assert ops == ops[..hi] + ops[hi..] && ops[..hi] == ops[..lo] + ops[lo..hi];
    FoldConcat(map[], ops[..hi], ops[hi..]);
    FoldConcat(map[], ops[..lo], ops[lo..hi]);
    FoldNothing(FoldOps(map[], ops[..hi]), ops[hi..]);
  }

  /** A client that has every matching event up to position `n`, and none from there on, shows the namespace at `n`. */
  lemma {:induction false} AllDelivered(events: seq<Event>, got: set<nat>, prefix: string, n: nat)
    requires n <= |events|
    requires forall i | i in got :: i < n
    requires forall i | 0 <= i < n && HasPrefix(events[i].entry.key, prefix) :: i in got
    ensures ConfigsAfter(events, got, prefix) == NamespaceView(Fold(map[], events[..n]), prefix)
  {
    var ops := Delivered(events, got, prefix);
    FoldInThree(ops, n, n);
    assert ops[n..n] == [];
    PrefixDelivered(events, got, prefix, n);
  }

  lemma PlayNamespace(data: map<Key, Entry>, ev: Event, prefix: string)
    ensures NamespaceView(Play(data, ev), prefix)
         == if HasPrefix(ev.entry.key, prefix) then ApplyView(NamespaceView(data, prefix), OpFor(ev))
            else NamespaceView(data, prefix)
  {
  }

  lemma {:induction false} PrefixDelivered(events: seq<Event>, got: set<nat>, prefix: string, n: nat)
    requires n <= |events|
    requires forall i | 0 <= i < n && HasPrefix(events[i].entry.key, prefix) :: i in got
    ensures FoldOps(map[], Delivered(events, got, prefix)[..n]) == NamespaceView(Fold(map[], events[..n]), prefix)
  {
    if n > 0 {
      PrefixDelivered(events, got, prefix, n - 1);
      var ops := Delivered(events, got, prefix);
      assert ops[..n][..n - 1] == ops[..n - 1] && events[..n][..n - 1] == events[..n - 1];
      PlayNamespace(Fold(map[], events[..n - 1]), events[n - 1], prefix);
    }
  }

  /** The namespace at a later position is the earlier one with the relevant operations in between. */
  lemma {:induction false} NamespaceAdvances(events: seq<Event>, prefix: string, lo: nat, hi: nat)
    requires lo <= hi <= |events|
    ensures NamespaceView(Fold(map[], events[..hi]), prefix)
         == FoldOps(NamespaceView(Fold(map[], events[..lo]), prefix), Relevant(events[lo..hi], prefix))
  {
    if lo < hi {
      NamespaceAdvances(events, prefix, lo, hi - 1);
      var ops := Relevant(events[lo..hi], prefix);
      assert ops[..|ops| - 1] == Relevant(events[lo..hi - 1], prefix);
      assert events[..hi][..hi - 1] == events[..hi - 1];
      PlayNamespace(Fold(map[], events[..hi - 1]), events[hi - 1], prefix);
    }
  }

  /**
    What a poll of positions [lo, hi) makes of any configs: a key written among
    the collected events gets what the namespace has at `hi`, and every other
    key keeps what it had.
   */
  lemma {:induction false} PolledLookup(
      events: seq<Event>, prefix: string, configs: View, after: nat, lo: nat, hi: nat, k: Key)
    requires after <= lo <= hi <= |events|
    requires forall i | 0 <= i < |events| :: events[i].entry.revision == i + 1
    ensures Lookup(FoldOps(configs, OpsFor(Matching(events[lo..hi], after, prefix))), k)
         == if Touches(Relevant(events[lo..hi], prefix), k)
            then Lookup(NamespaceView(Fold(map[], events[..hi]), prefix), k)
            else Lookup(configs, k)
  {
    var start := NamespaceView(Fold(map[], events[..lo]), prefix);
    FilterIsMask(configs, events[lo..hi], after, prefix);
    NamespaceAdvances(events, prefix, lo, hi);
    FoldAt(configs, start, Relevant(events[lo..hi], prefix), k);
  }
}
