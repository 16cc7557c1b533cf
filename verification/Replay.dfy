/**
  The key-to-value view of a store, and what replaying operations does to it.

  `ReplayAgrees` is the fact that both the restart of a replica
  (raft/node.go:346-367) and the restart of a client from its cache file
  (sdk/client.go:298-350) rest on.
 */
module Replay {
  import opened Wrappers
  import opened Entries

  type View = map<Key, Value>

  function ViewOf(data: map<Key, Entry>): View {
    map k | k in data :: data[k].value
  }

  function ApplyView(v: View, op: Op): View {
    match op
    case OpPut(key, value) => v[key := value]
    case OpDelete(key) => v - {key}
    case OpInvalid => v
  }

  function FoldOps(v: View, ops: seq<Op>): View {
    if ops == [] then v else ApplyView(FoldOps(v, ops[..|ops| - 1]), ops[|ops| - 1])
  }

  predicate OpOn(op: Op, k: Key) {
    (op.OpPut? || op.OpDelete?) && op.key == k
  }

  ghost predicate Touches(ops: seq<Op>, k: Key) {
    exists i :: 0 <= i < |ops| && OpOn(ops[i], k)
  }

  /** An operation acts on the view of a store as it acts on the store. */
  lemma ApplyCommutes(db: Db, op: Op)
    ensures ViewOf(ApplyOp(db, op).data) == ApplyView(ViewOf(db.data), op)
  {
  }

  lemma {:induction false} ApplyAllCommutes(db: Db, ops: seq<Op>)
    ensures ViewOf(ApplyAll(db, ops).data) == FoldOps(ViewOf(db.data), ops)
  {
    if ops != [] {
      ApplyAllCommutes(db, ops[..|ops| - 1]);
      ApplyCommutes(ApplyAll(db, ops[..|ops| - 1]), ops[|ops| - 1]);
    }
  }

  lemma FoldOne(v: View, op: Op)
    ensures FoldOps(v, [op]) == ApplyView(v, op)
  {
    assert FoldOps(v, []) == v && [op][..0] == [];
  }

  lemma {:induction false} FoldConcat(v: View, a: seq<Op>, b: seq<Op>)
    ensures FoldOps(v, a + b) == FoldOps(FoldOps(v, a), b)
  {
    if b == [] {
      assert a + b == a;
    } else {
      assert (a + b)[..|a + b| - 1] == a + b[..|b| - 1];
      FoldConcat(v, a, b[..|b| - 1]);
    }
  }

  /** A key that is never touched keeps what it had; a touched key forgets it. */
  lemma {:induction false} FoldAt(v: View, w: View, ops: seq<Op>, k: Key)
    ensures !Touches(ops, k) ==> Lookup(FoldOps(v, ops), k) == Lookup(v, k)
    ensures Touches(ops, k) ==> Lookup(FoldOps(v, ops), k) == Lookup(FoldOps(w, ops), k)
  {
    if ops != [] {
      var init := ops[..|ops| - 1];
      FoldAt(v, w, init, k);
      assert forall i | 0 <= i < |init| :: init[i] == ops[i];
      if Touches(init, k) {
        assert Touches(ops, k);
      }
    }
  }

  /** Replaying operations over two views gives the same view exactly when the two agree on every untouched key. */
  lemma ReplayAgrees(v: View, w: View, ops: seq<Op>)
    ensures FoldOps(v, ops) == FoldOps(w, ops)
            <==> forall k | !Touches(ops, k) :: Lookup(v, k) == Lookup(w, k)
  {
    forall k
      ensures !Touches(ops, k) ==>
                Lookup(FoldOps(v, ops), k) == Lookup(v, k) && Lookup(FoldOps(w, ops), k) == Lookup(w, k)
      ensures Touches(ops, k) ==> Lookup(FoldOps(v, ops), k) == Lookup(FoldOps(w, ops), k)
    {
      FoldAt(v, w, ops, k);
      FoldAt(w, v, ops, k);
    }
    if forall k | !Touches(ops, k) :: Lookup(v, k) == Lookup(w, k) {
      SameLookups(FoldOps(v, ops), FoldOps(w, ops));
    }
  }

  lemma SameLookups(v: View, w: View)
    requires forall k :: Lookup(v, k) == Lookup(w, k)
    ensures v == w
  {
    assert forall k :: k in v <==> Lookup(v, k).Some?;
    assert forall k :: k in w <==> Lookup(w, k).Some?;
    assert forall k | k in v :: v[k] == Lookup(v, k).value;
    assert forall k | k in w :: w[k] == Lookup(w, k).value;
  }

  lemma TouchedByPart(some: seq<Op>, all: seq<Op>, k: Key)
    requires |some| == |all|
    requires forall i | 0 <= i < |all| :: some[i] == all[i] || some[i] == OpInvalid
    ensures Touches(some, k) ==> Touches(all, k)
  {
    if Touches(some, k) {
      var i :| 0 <= i < |some| && OpOn(some[i], k);
      assert OpOn(all[i], k);
    }
  }

  /**
    Delivering operations again, after some of them have been delivered
    already, ends where delivering all of them once would have ended.
   */
  lemma Redelivery(v: View, some: seq<Op>, all: seq<Op>)
    requires |some| == |all|
    requires forall i | 0 <= i < |all| :: some[i] == all[i] || some[i] == OpInvalid
    ensures FoldOps(FoldOps(v, some), all) == FoldOps(v, all)
  {
    forall k | !Touches(all, k)
      ensures Lookup(FoldOps(v, some), k) == Lookup(v, k)
    {
      TouchedByPart(some, all, k);
      FoldAt(v, v, some, k);
    }
    ReplayAgrees(FoldOps(v, some), v, all);
  }

  lemma {:induction false} FoldNothing(v: View, ops: seq<Op>)
    requires forall i | 0 <= i < |ops| :: ops[i] == OpInvalid
    ensures FoldOps(v, ops) == v
  {
    if ops != [] {
      FoldNothing(v, ops[..|ops| - 1]);
    }
  }
}
