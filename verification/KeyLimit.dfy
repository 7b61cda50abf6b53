/** The key limit over whole histories: how many live keys any prefix of a history
of batches leaves. */
module KeyLimit {
  import opened Model

  lemma SubsetCardinality(a: set<Bytes>, b: set<Bytes>)
    requires a <= b
    ensures |a| <= |b|
  {
    assert b == a + (b - a);
  }

  lemma AliveShrinks(v: View, now: nat)
    ensures |Alive(v, now)| <= |v|
  {
    SubsetCardinality(Alive(v, now).Keys, v.Keys);
  }

  /** No prefix of a history has more live keys than the limit. */
  ghost predicate PrefixesWithin(start: View, batches: seq<Batch>, now: nat) {
    forall n :: 0 <= n <= |batches| ==> WithinAt(start, batches, n, now)
  }

  ghost predicate WithinAt(start: View, batches: seq<Batch>, n: nat, now: nat)
    requires n <= |batches|
  {
    |Alive(ApplyAll(start, batches[..n]), now)| <= MAX_KEYS
  }

  /** Entries only expire. */
  lemma PrefixesWithinLater(start: View, batches: seq<Batch>, earlier: nat, later: nat)
    requires earlier <= later && PrefixesWithin(start, batches, earlier)
    ensures PrefixesWithin(start, batches, later)
  {
    forall n | 0 <= n <= |batches| ensures WithinAt(start, batches, n, later) {
      assert WithinAt(start, batches, n, earlier);
      var v := ApplyAll(start, batches[..n]);
      AliveTwice(v, earlier, later);
      AliveShrinks(Alive(v, earlier), later);
    }
  }

  lemma PrefixesWithinPart(start: View, batches: seq<Batch>, n: nat, now: nat)
    requires PrefixesWithin(start, batches, now) && n <= |batches|
    ensures PrefixesWithin(start, batches[..n], now)
  {
    forall k | 0 <= k <= n ensures WithinAt(start, batches[..n], k, now) {
      assert WithinAt(start, batches, k, now) && batches[..n][..k] == batches[..k];
    }
  }

  /** A history that goes on where another one ends. */
  lemma PrefixesJoin(base: View, a: seq<Batch>, start: View, b: seq<Batch>, now: nat)
    requires PrefixesWithin(base, a, now) && PrefixesWithin(start, b, now) && Alive(ApplyAll(base, a), now) == Alive(start, now)
    ensures PrefixesWithin(base, a + b, now)
  {
    var all := a + b;
    forall n | 0 <= n <= |all| ensures WithinAt(base, all, n, now) {
      if n <= |a| {
        assert WithinAt(base, a, n, now);
        SamePrefix(base, a, all, n, now);
      } else {
        var k := n - |a|;
        assert WithinAt(start, b, k, now);
        JoinedPrefix(base, a, start, b, k, n, now);
      }
    }
  }

  lemma SamePrefix(base: View, a: seq<Batch>, all: seq<Batch>, n: nat, now: nat)
    requires n <= |a| <= |all| && all[..|a|] == a && WithinAt(base, a, n, now)
    ensures WithinAt(base, all, n, now)
  {
    assert all[..n] == all[..|a|][..n];
  }

  lemma JoinedPrefix(base: View, a: seq<Batch>, start: View, b: seq<Batch>, k: nat, n: nat, now: nat)
    requires k <= |b| && n == |a| + k && WithinAt(start, b, k, now) && Alive(ApplyAll(base, a), now) == Alive(start, now)
    ensures WithinAt(base, a + b, n, now)
  {
    var part := b[..k];
    assert (a + b)[..n] == a + part;
    ApplyAllConcat(base, a, part);
    ApplyAllAlive(ApplyAll(base, a), start, part, now);
  }
}
