/** Merging the maps of the shards: since every key is routed to one shard, the
shards together behave as one map, and its size and cardinality are the sums. */
module Merge {
  import opened Model
  import opened Shards
  import opened ShardObject

  const NUM_SHARDS: nat := 64

  function ShardFor(hash: Bytes -> nat, key: Bytes): (i: nat)
    ensures i < NUM_SHARDS
  {
    hash(key) % NUM_SHARDS
  }

  ghost predicate Routed(views: seq<Contents>, hash: Bytes -> nat) {
    forall i, k :: 0 <= i < |views| && k in views[i] ==> ShardFor(hash, k) == i
  }

  ghost function Merged(views: seq<Contents>): Contents {
    if views == [] then map[] else Merged(views[..|views| - 1]) + views[|views| - 1]
  }

  function Sum(counts: seq<nat>): nat {
    if counts == [] then 0 else Sum(counts[..|counts| - 1]) + counts[|counts| - 1]
  }

  lemma {:induction false} MergedLookup(views: seq<Contents>, hash: Bytes -> nat, key: Bytes)
    requires Routed(views, hash)
    ensures Lookup(Merged(views), key)
         == if ShardFor(hash, key) < |views| then Lookup(views[ShardFor(hash, key)], key) else None
  {
    if views != [] {
      MergedLookup(views[..|views| - 1], hash, key);
    }
  }

  /** Changing one shard's map changes the merged map as it changes that shard's. */
  lemma MergedUpdate(views: seq<Contents>, i: nat, m: Contents, hash: Bytes -> nat, key: Bytes)
    requires Routed(views, hash) && i < |views| && Routed(views[i := m], hash)
    ensures Lookup(Merged(views[i := m]), key)
         == if ShardFor(hash, key) == i then Lookup(m, key) else Lookup(Merged(views), key)
  {
    MergedLookup(views, hash, key);
    MergedLookup(views[i := m], hash, key);
  }

  /** Setting the slot of a key in its own shard sets it in the merged map. */
  lemma MergedAmend(views: seq<Contents>, hash: Bytes -> nat, key: Bytes, change: Option<Entry>)
    requires Routed(views, hash) && |views| == NUM_SHARDS
    ensures
      var i := ShardFor(hash, key);
      && Lookup(Merged(views), key) == Lookup(views[i], key)
      && Routed(views[i := Amend(views[i], key, change)], hash)
      && Merged(views[i := Amend(views[i], key, change)]) == Amend(Merged(views), key, change)
  {
    var i := ShardFor(hash, key);
    var m := Amend(views[i], key, change);
    var after := Amend(Merged(views), key, change);
    MergedLookup(views, hash, key);
    forall k ensures Lookup(Merged(views[i := m]), k) == Lookup(after, k) {
      MergedUpdate(views, i, m, hash, k);
      MergedLookup(views, hash, k);
    }
    SameLookups(Merged(views[i := m]), after);
  }

  // ---- Sweeping all shards ----

  ghost function SweptUpTo(views: seq<Contents>, n: nat, now: nat): (r: seq<Contents>)
    ensures |r| == |views|
  {
    seq(|views|, j requires 0 <= j < |views| => if j < n then Swept(views[j], now) else views[j])
  }

  lemma SweptNone(views: seq<Contents>, now: nat)
    ensures SweptUpTo(views, 0, now) == views
  {
  }

  lemma SweptUpToStep(views: seq<Contents>, n: nat, now: nat)
    requires n < |views|
    ensures SweptUpTo(views, n, now)[n := Swept(views[n], now)] == SweptUpTo(views, n + 1, now)
  {
  }

  lemma SweptRouted(views: seq<Contents>, n: nat, now: nat, hash: Bytes -> nat)
    requires Routed(views, hash)
    ensures Routed(SweptUpTo(views, n, now), hash)
  {
  }

  lemma MergedSwept(views: seq<Contents>, now: nat, hash: Bytes -> nat)
    requires Routed(views, hash)
    ensures Merged(SweptUpTo(views, |views|, now)) == Swept(Merged(views), now)
  {
    var all := SweptUpTo(views, |views|, now);
    SweptRouted(views, |views|, now, hash);
    forall k ensures Lookup(Merged(all), k) == Lookup(Swept(Merged(views), now), k) {
      MergedLookup(views, hash, k);
      MergedLookup(all, hash, k);
    }
    SameLookups(Merged(all), Swept(Merged(views), now));
  }

  // ---- Sums ----

  lemma {:induction false} SumUpdate(counts: seq<nat>, i: nat, n: nat)
    requires i < |counts|
    ensures Sum(counts[i := n]) == Sum(counts) - counts[i] + n
    ensures counts[i] <= Sum(counts)
  {
    var last := |counts| - 1;
    if i < last {
      SumUpdate(counts[..last], i, n);
      assert counts[i := n][..last] == counts[..last][i := n];
    } else {
      assert counts[i := n][..last] == counts[..last];
    }
  }

  lemma UnionWithout(a: Contents, b: Contents, key: Bytes)
    requires key in b && key !in a
    ensures key in a + b && (a + b)[key] == b[key]
    ensures a + b - {key} == a + (b - {key})
  {
  }

  lemma {:induction false} DisjointTotals(a: Contents, b: Contents, sizeOf: Sizer)
    requires a.Keys !! b.Keys
    ensures TotalSize(a + b, sizeOf) == TotalSize(a, sizeOf) + TotalSize(b, sizeOf)
    ensures |a + b| == |a| + |b|
    decreases |b|
  {
    if b == map[] {
      assert a + b == a;
    } else {
      var k :| k in b;
      var rest, union := b - {k}, a + b;
      RemoveAccounting(b, k, sizeOf);
      DisjointTotals(a, rest, sizeOf);
      UnionWithout(a, b, k);
      assert union - {k} == a + rest;
      RemoveAccounting(union, k, sizeOf);
    }
  }

  ghost function Sizes(views: seq<Contents>, sizeOf: Sizer): (r: seq<nat>)
    ensures |r| == |views|
    ensures forall i :: 0 <= i < |views| ==> r[i] == TotalSize(views[i], sizeOf)
  {
    seq(|views|, i requires 0 <= i < |views| => TotalSize(views[i], sizeOf))
  }

  ghost function Cardinalities(views: seq<Contents>): (r: seq<nat>)
    ensures |r| == |views|
    ensures forall i :: 0 <= i < |views| ==> r[i] == |views[i]|
  {
    seq(|views|, i requires 0 <= i < |views| => |views[i]|)
  }

  /** What the first `n` shards hold once they are swept. */
  ghost function SweptCount(views: seq<Contents>, n: nat, now: nat): nat
    requires n <= |views|
  {
    if n == 0 then 0 else SweptCount(views, n - 1, now) + |Swept(views[n - 1], now)|
  }

  ghost function SweptBytes(views: seq<Contents>, n: nat, now: nat, sizeOf: Sizer): nat
    requires n <= |views|
  {
    if n == 0 then 0 else SweptBytes(views, n - 1, now, sizeOf) + TotalSize(Swept(views[n - 1], now), sizeOf)
  }

  lemma {:induction false} SweptSums(views: seq<Contents>, n: nat, now: nat, sizeOf: Sizer)
    requires n <= |views|
    ensures var swept := SweptUpTo(views, |views|, now);
      && SweptCount(views, n, now) == Sum(Cardinalities(swept)[..n])
      && SweptBytes(views, n, now, sizeOf) == Sum(Sizes(swept, sizeOf)[..n])
  {
    if n > 0 {
      var m := n - 1;
      var swept := SweptUpTo(views, |views|, now);
      var counts, sizes := Cardinalities(swept), Sizes(swept, sizeOf);
      SweptSums(views, m, now, sizeOf);
      assert counts[..n][..m] == counts[..m] && counts[..n][m] == |Swept(views[m], now)|;
      assert sizes[..n][..m] == sizes[..m] && sizes[..n][m] == TotalSize(Swept(views[m], now), sizeOf);
    }
  }

  lemma SweptTotals(views: seq<Contents>, now: nat, hash: Bytes -> nat, sizeOf: Sizer)
    requires Routed(views, hash)
    ensures
      var swept := SweptUpTo(views, |views|, now);
      && Merged(swept) == Swept(Merged(views), now)
      && SweptCount(views, |views|, now) == |Merged(swept)|
      && SweptBytes(views, |views|, now, sizeOf) == TotalSize(Merged(swept), sizeOf)
  {
    var swept := SweptUpTo(views, |views|, now);
    MergedSwept(views, now, hash);
    SweptRouted(views, |views|, now, hash);
    MergedTotals(swept, hash, sizeOf);
    SweptSums(views, |views|, now, sizeOf);
    assert Cardinalities(swept)[..|views|] == Cardinalities(swept);
    assert Sizes(swept, sizeOf)[..|views|] == Sizes(swept, sizeOf);
  }

  /** The merged map's size and cardinality are the sums over the shards. */
  lemma {:induction false} MergedTotals(views: seq<Contents>, hash: Bytes -> nat, sizeOf: Sizer)
    requires Routed(views, hash)
    ensures TotalSize(Merged(views), sizeOf) == Sum(Sizes(views, sizeOf))
    ensures |Merged(views)| == Sum(Cardinalities(views))
  {
    if views != [] {
      var n := |views| - 1;
      var front := views[..n];
      MergedTotals(front, hash, sizeOf);
      assert Sizes(views, sizeOf)[..n] == Sizes(front, sizeOf);
      assert Cardinalities(views)[..n] == Cardinalities(front);
      forall k | k in Merged(front) ensures k !in views[n] {
        MergedLookup(front, hash, k);
      }
      DisjointTotals(Merged(front), views[n], sizeOf);
    }
  }

  /** `items` lists the live entries of the first n shards, each once. */
  ghost predicate Gathered(items: seq<(Bytes, Entry)>, views: seq<Contents>, n: nat, now: nat)
    requires n <= |views|
  {
    Enumerates(items, Merged(SweptUpTo(views, n, now)[..n]))
  }

  lemma GatherNext(items: seq<(Bytes, Entry)>, part: seq<(Bytes, Entry)>, views: seq<Contents>, n: nat, now: nat, hash: Bytes -> nat)
    requires Routed(views, hash) && n < |views|
    requires Gathered(items, views, n, now) && Enumerates(part, Swept(views[n], now))
    ensures Gathered(items + part, views, n + 1, now)
  {
    var swept := SweptUpTo(views, n + 1, now);
    SweptRouted(views, n + 1, now, hash);
    assert swept[..n + 1][..n] == swept[..n] == SweptUpTo(views, n, now)[..n];
    forall k | k in Merged(swept[..n]) ensures k !in swept[n] {
      MergedLookup(swept[..n], hash, k);
    }
    EnumerateDisjoint(items, Merged(swept[..n]), part, swept[n]);
  }

  lemma GatherAll(items: seq<(Bytes, Entry)>, views: seq<Contents>, now: nat, hash: Bytes -> nat)
    requires Routed(views, hash) && Gathered(items, views, |views|, now)
    ensures Enumerates(items, Swept(Merged(views), now))
    ensures Merged(SweptUpTo(views, |views|, now)) == Swept(Merged(views), now)
  {
    var swept := SweptUpTo(views, |views|, now);
    assert swept[..|views|] == swept;
    MergedSwept(views, now, hash);
  }
}
