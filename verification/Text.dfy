/**
  Byte order and prefixes of keys.

  A key is valid UTF-8, and the byte order of UTF-8 is the order of its code
  points, so a Dafny `string` compared character by character stands for a key.
 */
module Text {

  predicate HasPrefix(s: string, prefix: string) {
    prefix <= s
  }

  /** Strict lexicographic order: the order in which a bucket keeps its keys. */
  predicate Before(a: string, b: string) {
    b != [] && (a == [] || a[0] < b[0] || (a[0] == b[0] && Before(a[1..], b[1..])))
  }

  /** The same order in plain terms: a proper prefix comes first, and else the first character that differs decides. */
  ghost predicate SortsBefore(a: string, b: string) {
    || a < b
    || exists i :: 0 <= i < |a| && i < |b| && a[..i] == b[..i] && a[i] < b[i]
  }

  lemma {:induction false} BeforeIff(a: string, b: string)
    ensures Before(a, b) <==> SortsBefore(a, b)
  {
    if a != [] && b != [] && a[0] == b[0] {
      BeforeIff(a[1..], b[1..]);
      TailsDecide(a, b);
    } else if a != [] && b != [] {
      assert a[..0] == b[..0];
      assert forall i | 0 < i < |a| && i < |b| :: a[..i][0] != b[..i][0];
    }
  }

  lemma TailsDecide(a: string, b: string)
    requires a != [] && b != [] && a[0] == b[0]
    ensures SortsBefore(a, b) <==> SortsBefore(a[1..], b[1..])
  {
    var s, t := a[1..], b[1..];
    assert a == [a[0]] + s && b == [b[0]] + t;
    assert a < b <==> s < t;
    if i :| 0 <= i < |a| && i < |b| && a[..i] == b[..i] && a[i] < b[i] {
      assert s[..i - 1] == a[..i][1..] && t[..i - 1] == b[..i][1..];
      assert s[i - 1] < t[i - 1];
    }
    if i :| 0 <= i < |s| && i < |t| && s[..i] == t[..i] && s[i] < t[i] {
      assert a[..i + 1] == [a[0]] + s[..i] && b[..i + 1] == [b[0]] + t[..i];
      assert a[i + 1] < b[i + 1];
    }
  }

  lemma {:induction false} BeforeIrreflexive(a: string)
    ensures !Before(a, a)
  {
    if a != [] {
      BeforeIrreflexive(a[1..]);
    }
  }

  lemma {:induction false} BeforeTransitive(a: string, b: string, c: string)
    requires Before(a, b) && Before(b, c)
    ensures Before(a, c)
  {
    if a != [] && a[0] == b[0] == c[0] {
      BeforeTransitive(a[1..], b[1..], c[1..]);
    }
  }

  lemma {:induction false} BeforeTotal(a: string, b: string)
    ensures Before(a, b) || a == b || Before(b, a)
  {
    if a != [] && b != [] && a[0] == b[0] {
      BeforeTotal(a[1..], b[1..]);
      assert a == [a[0]] + a[1..] && b == [b[0]] + b[1..];
    }
  }

  /** A key never sorts before one of its own prefixes. */
  lemma {:induction false} PrefixComesFirst(s: string, prefix: string)
    requires HasPrefix(s, prefix)
    ensures !Before(s, prefix)
  {
    if prefix != [] {
      PrefixComesFirst(s[1..], prefix[1..]);
    }
  }

  /**
    The keys that share a prefix are contiguous: once the order has passed the
    prefix and reached a key without it, no later key has it either.
   */
  lemma {:induction false} PrefixContiguous(prefix: string, k: string, later: string)
    requires !Before(k, prefix) && !HasPrefix(k, prefix)
    requires Before(k, later)
    ensures !HasPrefix(later, prefix)
  {
    if k != [] && later[0] == k[0] == prefix[0] {
      assert prefix == [prefix[0]] + prefix[1..] && k == [k[0]] + k[1..];
      assert !HasPrefix(k[1..], prefix[1..]);
      PrefixContiguous(prefix[1..], k[1..], later[1..]);
    }
  }
}
