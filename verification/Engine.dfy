/** The sharded engine. Its shards together are one map, `Contents()`; every
operation is stated on that map, and none of them can tell whether a snapshot
epoch is active. The shared key counter always equals the number of entries. */
module EngineObject {
  import opened Model
  import opened Shards
  import opened ShardObject
  import opened Merge
  import opened Effects

  lemma {:induction false} AllEmpty(views: seq<Contents>)
    requires forall i :: 0 <= i < |views| ==> views[i] == map[]
    ensures Merged(views) == map[] && Sum(Cardinalities(views)) == 0
  {
    if views != [] {
      AllEmpty(views[..|views| - 1]);
      assert Cardinalities(views)[..|views| - 1] == Cardinalities(views[..|views| - 1]);
    }
  }

  method NewShards(counter: KeyCounter, sizeOf: Sizer) returns (list: seq<Shard>)
    ensures |list| == NUM_SHARDS && forall i :: 0 <= i < |list| ==> fresh(list[i])
    ensures forall i :: 0 <= i < |list| ==> list[i].total == counter && list[i].sizeOf == sizeOf && list[i].Blank()
    ensures forall i, j :: 0 <= i < j < |list| ==> list[i] != list[j]
  {
    list := [];
    while |list| < NUM_SHARDS
      invariant |list| <= NUM_SHARDS
      invariant forall i :: 0 <= i < |list| ==> fresh(list[i])
      invariant forall i :: 0 <= i < |list| ==> list[i].total == counter && list[i].sizeOf == sizeOf && list[i].Blank()
      invariant forall i, j :: 0 <= i < j < |list| ==> list[i] != list[j]
      decreases NUM_SHARDS - |list|
    {
      var shard := new Shard(counter, sizeOf);
      list := list + [shard];
    }
  }

  class Engine {
    const shards: seq<Shard>
    const total: KeyCounter
    const hash: Bytes -> nat
    const sizeOf: Sizer
    var snapshotActive: bool
    ghost const Repr: set<object>

    ghost predicate Assembled() {
      && |shards| == NUM_SHARDS
      && (forall i, j :: 0 <= i < j < |shards| ==> shards[i] != shards[j])
      && (forall i :: 0 <= i < |shards| ==> shards[i].total == total && shards[i].sizeOf == sizeOf)
      && Repr == {this, total} + set s <- shards
    }

    ghost function Views(): (r: seq<Contents>)
      reads shards
      ensures |r| == |shards|
      ensures forall i :: 0 <= i < |shards| ==> r[i] == shards[i].data.View()
    {
      seq(|shards|, i requires 0 <= i < |shards| reads shards => shards[i].data.View())
    }

    /** The frozen maps of the active snapshot epoch, shard by shard. */
    ghost function Bases(): (r: seq<Option<Contents>>)
      reads shards
      ensures |r| == |shards|
      ensures forall i :: 0 <= i < |shards| ==> r[i] == shards[i].data.Base()
    {
      seq(|shards|, i requires 0 <= i < |shards| reads shards => shards[i].data.Base())
    }

    /** Ordinary operations leave a snapshot epoch and its frozen maps alone. */
    ghost predicate Same(active: bool, bases: seq<Option<Contents>>)
      reads this, shards
    {
      snapshotActive == active && Bases() == bases
    }

    ghost predicate Valid()
      reads Repr, shards, total
    {
      && Assembled()
      && (forall i :: 0 <= i < |shards| ==> shards[i].Valid())
      && Routed(Views(), hash)
      && total.n == Sum(Cardinalities(Views()))
      && (!snapshotActive ==> forall i :: 0 <= i < |shards| ==> shards[i].data.Flat?)
    }

    ghost function Contents(): Contents
      reads shards
    {
      Merged(Views())
    }

    constructor (hash: Bytes -> nat, sizeOf: Sizer)
      ensures Valid() && !snapshotActive && Contents() == map[]
      ensures this.hash == hash && this.sizeOf == sizeOf
      ensures fresh(Repr)
    {
      var counter := new KeyCounter();
      var list := NewShards(counter, sizeOf);
      shards := list;
      total := counter;
      this.hash := hash;
      this.sizeOf := sizeOf;
      snapshotActive := false;
      Repr := {this, counter} + set s <- list;
      new;
      assert Assembled();
      EmptyIsValid();
    }

    lemma EmptyIsValid()
      requires Assembled() && total.n == 0 && !snapshotActive
      requires forall j :: 0 <= j < |shards| ==> shards[j].Blank()
      ensures Valid() && Contents() == map[]
    {
      forall j | 0 <= j < |shards| ensures shards[j].Valid() && shards[j].data.Flat? && |shards[j].data.View()| == 0 {
        shards[j].BlankIsValid();
      }
      AllEmpty(Views());
    }

    /** The shared counter and the size counters are exact. */
    lemma CountersExact()
      requires Valid()
      ensures total.n == |Contents()|
      ensures TotalSize(Contents(), sizeOf) == Sum(Sizes(Views(), sizeOf))
    {
      MergedTotals(Views(), hash, sizeOf);
    }

    lemma ShardCountFits(i: nat)
      requires Valid() && i < |shards|
      ensures shards[i].keyCount <= total.n
    {
      SumUpdate(Cardinalities(Views()), i, 0);
    }

    /** After one shard has been changed by its own operations the engine is
        valid again, and its merged map changed at that shard only. */
    twostate lemma OneShardChanged(i: nat)
      requires old(Valid()) && Assembled() && i < |shards|
      requires forall j :: 0 <= j < |shards| && j != i ==> unchanged(shards[j])
      requires shards[i].Valid()
      requires Routed(old(Views())[i := shards[i].data.View()], hash)
      requires total.n == old(total.n) + shards[i].keyCount - old(shards[i].keyCount)
      requires snapshotActive == old(snapshotActive) && shards[i].data.Base() == old(shards[i].data.Base())
      ensures Valid() && Same(old(snapshotActive), old(Bases()))
      ensures Views() == old(Views())[i := shards[i].data.View()]
    {
      var m := shards[i].data.View();
      var before := old(Views());
      assert Views() == before[i := m];
      assert Bases() == old(Bases());
      assert Cardinalities(Views()) == Cardinalities(before)[i := |m|] by {
        assert forall j :: 0 <= j < |before| ==> Cardinalities(Views())[j] == if j == i then |m| else |before[j]|;
      }
      SumUpdate(Cardinalities(before), i, |m|);
      forall j | 0 <= j < |shards| ensures shards[j].Valid() {
        if j != i {
          assert old(shards[j].Valid());
        }
      }
    }

    // ---- Operations on one key ----

    method Peek(key: Bytes, now: nat) returns (r: Option<Entry>)
      requires Valid()
      modifies Repr
      ensures Valid() && Same(old(snapshotActive), old(Bases()))
      ensures r == Live(Lookup(old(Contents()), key), now)
      ensures Contents() == Amend(old(Contents()), key, r)
    {
      var i := ShardFor(hash, key);
      ShardCountFits(i);
      MergedAmend(Views(), hash, key, Live(Lookup(Views()[i], key), now));
      var _ := shards[i].PurgeIfExpired(key, now);
      OneShardChanged(i);
      r := shards[i].data.Get(key);
    }

    method Get(key: Bytes, now: nat) returns (r: Option<Entry>)
      requires Valid()
      modifies Repr
      ensures Valid() && Same(old(snapshotActive), old(Bases()))
      ensures r == Touched(Lookup(old(Contents()), key), now)
      ensures Contents() == Amend(old(Contents()), key, r)
      ensures
        var live := Live(Lookup(old(Contents()), key), now);
        r == if live.None? then None else Some(Entry(live.value.value, live.value.expiresAt, live.value.createdAt, now))
    {
      var i := ShardFor(hash, key);
      ShardCountFits(i);
      MergedAmend(Views(), hash, key, Touched(Lookup(Views()[i], key), now));
      r := shards[i].Get(key, now);
      OneShardChanged(i);
    }

    /** Stores an entry without looking at any expiry. */
    method Insert(key: Bytes, entry: Entry, now: nat) returns (previous: Option<Entry>)
      requires Valid()
      modifies Repr
      ensures Valid() && Same(old(snapshotActive), old(Bases()))
      ensures previous == Lookup(old(Contents()), key)
      ensures Contents() == Amend(old(Contents()), key, Some(entry))
    {
      var i := ShardFor(hash, key);
      ShardCountFits(i);
      MergedAmend(Views(), hash, key, Some(entry));
      previous := shards[i].Insert(key, entry, now);
      OneShardChanged(i);
    }

    method Remove(key: Bytes, now: nat) returns (removed: Option<Entry>)
      requires Valid()
      modifies Repr
      ensures Valid() && Same(old(snapshotActive), old(Bases()))
      ensures removed == Live(Lookup(old(Contents()), key), now)
      ensures Contents() == Amend(old(Contents()), key, None)
    {
      var i := ShardFor(hash, key);
      ShardCountFits(i);
      MergedAmend(Views(), hash, key, None);
      removed := shards[i].Remove(key, now);
      OneShardChanged(i);
    }

    /** Installs an entry exactly; one that has expired removes the key instead. */
    method ApplyEntry(key: Bytes, entry: Entry, now: nat) returns (previous: Option<Entry>)
      requires Valid()
      modifies Repr
      ensures Valid() && Same(old(snapshotActive), old(Bases()))
      ensures previous == Live(Lookup(old(Contents()), key), now)
      ensures Contents() == Amend(old(Contents()), key, Live(Some(entry), now))
    {
      AmendTwice(Contents(), key, Live(Lookup(Contents(), key), now), Live(Some(entry), now));
      var _ := Peek(key, now);
      if !Unexpired(entry.expiresAt, now) {
        previous := Remove(key, now);
      } else {
        previous := Insert(key, entry, now);
      }
    }

    method Set(key: Bytes, value: Value, expiresAt: Option<Word64>, now: nat) returns (previous: Option<Entry>)
      requires Valid()
      modifies Repr
      ensures Valid() && Same(old(snapshotActive), old(Bases()))
      ensures previous == Live(Lookup(old(Contents()), key), now)
      ensures Contents() == Amend(old(Contents()), key, Live(Some(Entry(value, expiresAt, now, now)), now))
    {
      previous := ApplyEntry(key, Entry(value, expiresAt, now, now), now);
    }

    method Delete(key: Bytes, now: nat) returns (deleted: bool)
      requires Valid()
      modifies Repr
      ensures Valid() && Same(old(snapshotActive), old(Bases()))
      ensures deleted == Live(Lookup(old(Contents()), key), now).Some?
      ensures Contents() == Amend(old(Contents()), key, None)
    {
      var removed := Remove(key, now);
      deleted := removed.Some?;
    }

    method UpdateIfExists(key: Bytes, f: Value -> Update, now: nat) returns (found: bool)
      requires Valid()
      modifies Repr
      ensures Valid() && Same(old(snapshotActive), old(Bases()))
      ensures found == Live(Lookup(old(Contents()), key), now).Some?
      ensures Contents() == Amend(old(Contents()), key, Updated(Lookup(old(Contents()), key), f, now))
    {
      var i := ShardFor(hash, key);
      ShardCountFits(i);
      MergedAmend(Views(), hash, key, Updated(Lookup(Views()[i], key), f, now));
      found := shards[i].UpdateIfExists(key, f, now);
      OneShardChanged(i);
    }

    method UpdateOrInsert(key: Bytes, initial: Value, f: (Entry, bool) -> Entry, now: nat)
      requires Valid()
      modifies Repr
      ensures Valid() && Same(old(snapshotActive), old(Bases()))
      ensures Contents() == Amend(old(Contents()), key, Upserted(Lookup(old(Contents()), key), initial, f, now))
      ensures key in Contents() && Contents()[key] ==
        var live := Live(Lookup(old(Contents()), key), now);
        if live.None? then f(Entry(initial, None, now, now), false)
        else f(Entry(live.value.value, live.value.expiresAt, live.value.createdAt, now), true)
    {
      var i := ShardFor(hash, key);
      ShardCountFits(i);
      MergedAmend(Views(), hash, key, Upserted(Lookup(Views()[i], key), initial, f, now));
      shards[i].UpdateOrInsert(key, initial, f, now);
      OneShardChanged(i);
    }

    method SetExpiry(key: Bytes, timestamp: Word64, requireExpiry: Option<bool>, now: nat) returns (updated: bool)
      requires Valid()
      modifies Repr
      ensures Valid() && Same(old(snapshotActive), old(Bases()))
      ensures updated == ExpiryAllowed(Lookup(old(Contents()), key), requireExpiry, now)
      ensures Contents() == Amend(old(Contents()), key, Reexpired(Lookup(old(Contents()), key), timestamp, requireExpiry, now))
    {
      var i := ShardFor(hash, key);
      ShardCountFits(i);
      MergedAmend(Views(), hash, key, Reexpired(Lookup(Views()[i], key), timestamp, requireExpiry, now));
      updated := shards[i].SetExpiry(key, timestamp, requireExpiry, now);
      OneShardChanged(i);
    }

    /** `Some(true)` stores only an absent key, `Some(false)` only a present one. */
    method SetConditional(key: Bytes, value: Value, expiresAt: Option<Word64>, condition: Option<bool>, now: nat)
      returns (allowed: bool)
      requires Valid()
      modifies Repr
      ensures Valid() && Same(old(snapshotActive), old(Bases()))
      ensures
        var live := Live(Lookup(old(Contents()), key), now);
        && allowed == (condition.Some? ==> condition.value == live.None?)
        && Contents() == Amend(old(Contents()), key, if allowed then Some(Entry(value, expiresAt, now, now)) else live)
    {
      AmendTwice(Contents(), key, Live(Lookup(Contents(), key), now), Some(Entry(value, expiresAt, now, now)));
      var live := Peek(key, now);
      allowed := match condition
        case Some(true) => live.None?
        case Some(false) => live.Some?
        case None => true;
      if allowed {
        var _ := Insert(key, Entry(value, expiresAt, now, now), now);
      }
    }

    method SetIfAbsent(key: Bytes, value: Value, now: nat) returns (inserted: bool)
      requires Valid()
      modifies Repr
      ensures Valid() && Same(old(snapshotActive), old(Bases()))
      ensures inserted == Live(Lookup(old(Contents()), key), now).None?
      ensures Contents() == Amend(old(Contents()), key, Defaulted(Lookup(old(Contents()), key), Entry(value, None, now, now), now))
      ensures key in Contents() && Contents()[key] == if inserted then Entry(value, None, now, now) else old(Contents())[key]
    {
      var i := ShardFor(hash, key);
      ShardCountFits(i);
      MergedAmend(Views(), hash, key, Defaulted(Lookup(Views()[i], key), Entry(value, None, now, now), now));
      inserted := shards[i].InsertIfAbsent(key, Entry(value, None, now, now), now);
      OneShardChanged(i);
    }

    // ---- Operations on two keys, which may live in different shards ----

    /** Moves a live entry with its timestamps; the destination is overwritten. */
    method Rename(from: Bytes, to: Bytes, now: nat) returns (moved: bool)
      requires Valid()
      modifies Repr
      ensures Valid() && Same(old(snapshotActive), old(Bases()))
      ensures
        var live := Live(Lookup(old(Contents()), from), now);
        var cleared := Amend(old(Contents()), from, None);
        moved == live.Some? && Contents() == if moved then Amend(cleared, to, live) else cleared
    {
      var entry := Remove(from, now);
      moved := entry.Some?;
      if moved {
        var _ := Insert(to, entry.value, now);
      }
    }

    /** Copies a live entry with fresh timestamps; a key copied onto itself stays as it is. */
    method Copy(from: Bytes, to: Bytes, now: nat) returns (copied: bool)
      requires Valid()
      modifies Repr
      ensures Valid() && Same(old(snapshotActive), old(Bases()))
      ensures
        var live := Live(Lookup(old(Contents()), from), now);
        var swept := Amend(old(Contents()), from, live);
        && copied == live.Some?
        && Contents() ==
             if copied && from != to then Amend(swept, to, Some(Entry(live.value.value, live.value.expiresAt, now, now)))
             else swept
    {
      var source := Peek(from, now);
      copied := source.Some?;
      if copied && from != to {
        var _ := Insert(to, Entry(source.value.value, source.value.expiresAt, now, now), now);
      }
    }

    // ---- Operations on every shard ----

    /** Sweeps one shard; the merged map loses exactly that shard's expired keys. */
    method SweepShard(i: nat, now: nat) returns (count: nat)
      requires Valid() && i < |shards|
      modifies Repr
      ensures Valid() && Same(old(snapshotActive), old(Bases()))
      ensures Views() == old(Views())[i := Swept(old(Views())[i], now)]
      ensures count == old(total.n) - total.n
    {
      ShardCountFits(i);
      count := shards[i].ExpireKeys(now);
      OneShardChanged(i);
    }

    /** Sweeps the next shard and returns what it then holds. */
    method SweepNext(i: nat, now: nat, ghost views: seq<Contents>) returns (bytes: nat, keys: nat)
      requires Valid() && i < |shards| == |views| && Views() == SweptUpTo(views, i, now)
      modifies Repr
      ensures Valid() && Same(old(snapshotActive), old(Bases()))
      ensures Views() == SweptUpTo(views, i + 1, now)
      ensures bytes == TotalSize(Swept(views[i], now), sizeOf) && keys == |Swept(views[i], now)|
    {
      SweptUpToStep(views, i, now);
      var _ := SweepShard(i, now);
      bytes, keys := shards[i].memBytes, shards[i].keyCount;
    }

    /** Returns the number of live keys. */
    method KeyCount(now: nat) returns (keys: nat)
      requires Valid()
      modifies Repr
      ensures Valid() && Same(old(snapshotActive), old(Bases()))
      ensures Contents() == Swept(old(Contents()), now)
      ensures keys == |Contents()|
    {
      ghost var views := Views();
      SweptNone(views, now);
      keys := 0;
      var i := 0;
      while i < |shards|
        invariant 0 <= i <= |shards|
        invariant Valid() && Same(old(snapshotActive), old(Bases()))
        invariant Views() == SweptUpTo(views, i, now)
        invariant keys == SweptCount(views, i, now)
      {
        var size, count := SweepNext(i, now, views);
        keys := keys + count;
        i := i + 1;
      }
      SweptTotals(views, now, hash, sizeOf);
    }

    /** Returns the logical size of the live dataset. */
    method TotalMemoryBytes(now: nat) returns (bytes: nat)
      requires Valid()
      modifies Repr
      ensures Valid() && Same(old(snapshotActive), old(Bases()))
      ensures Contents() == Swept(old(Contents()), now)
      ensures bytes == TotalSize(Contents(), sizeOf)
    {
      ghost var views := Views();
      SweptNone(views, now);
      bytes := 0;
      var i := 0;
      while i < |shards|
        invariant 0 <= i <= |shards|
        invariant Valid() && Same(old(snapshotActive), old(Bases()))
        invariant Views() == SweptUpTo(views, i, now)
        invariant bytes == SweptBytes(views, i, now, sizeOf)
      {
        var size, count := SweepNext(i, now, views);
        bytes := bytes + size;
        i := i + 1;
      }
      SweptTotals(views, now, hash, sizeOf);
    }

    /** Sweeps every shard and returns how many keys had expired. */
    method GcExpired(now: nat) returns (count: nat)
      requires Valid()
      modifies Repr
      ensures Valid() && Same(old(snapshotActive), old(Bases()))
      ensures Contents() == Swept(old(Contents()), now)
      ensures count == |old(Contents())| - |Contents()|
    {
      ghost var views := Views();
      CountersExact();
      count := 0;
      var i := 0;
      while i < |shards|
        invariant 0 <= i <= |shards|
        invariant Valid() && Same(old(snapshotActive), old(Bases()))
        invariant Views() == SweptUpTo(views, i, now)
        invariant count == old(total.n) - total.n
      {
        SweptUpToStep(views, i, now);
        var swept := SweepShard(i, now);
        count := count + swept;
        i := i + 1;
      }
      MergedSwept(views, now, hash);
      CountersExact();
    }

    /** Lists every live entry exactly once. */
    method SweepAndVisit(i: nat, now: nat) returns (part: seq<(Bytes, Entry)>)
      requires Valid() && i < |shards|
      modifies Repr
      ensures Valid() && Same(old(snapshotActive), old(Bases()))
      ensures Views() == old(Views())[i := Swept(old(Views())[i], now)]
      ensures Enumerates(part, Swept(old(Views())[i], now))
    {
      ghost var view := Views()[i];
      var _ := SweepShard(i, now);
      assert Views()[i] == Swept(view, now);
      part := Visit(shards[i].data);
    }

    method SnapshotAll(now: nat) returns (items: seq<(Bytes, Entry)>)
      requires Valid()
      modifies Repr
      ensures Valid() && Same(old(snapshotActive), old(Bases()))
      ensures Contents() == Swept(old(Contents()), now)
      ensures Enumerates(items, Contents())
    {
      ghost var views := Views();
      items := [];
      var i := 0;
      while i < |shards|
        invariant 0 <= i <= |shards|
        invariant Valid() && Same(old(snapshotActive), old(Bases()))
        invariant Views() == SweptUpTo(views, i, now)
        invariant Gathered(items, views, i, now)
      {
        SweptUpToStep(views, i, now);
        assert Views()[i] == views[i];
        var part := SweepAndVisit(i, now);
        GatherNext(items, part, views, i, now, hash);
        items := items + part;
        i := i + 1;
      }
      GatherAll(items, views, now, hash);
    }

    // ---- Snapshot epochs ----

    /** Switching one shard between its two representations changes nothing visible. */
    twostate lemma OneShardRebased(i: nat)
      requires old(Valid()) && Assembled() && i < |shards|
      requires forall j :: 0 <= j < |shards| && j != i ==> unchanged(shards[j])
      requires shards[i].Valid() && shards[i].data.View() == old(shards[i].data.View())
      requires total.n == old(total.n) && snapshotActive
      ensures Valid() && Views() == old(Views())
      ensures Bases() == old(Bases())[i := shards[i].data.Base()]
    {
      assert Views() == old(Views());
      assert Bases() == old(Bases())[i := shards[i].data.Base()];
    }

    /** No shard is frozen where the epoch begins or ends. */
    method SetActive(active: bool)
      requires Valid() && forall j :: 0 <= j < |shards| ==> Bases()[j] == None
      modifies this`snapshotActive
      ensures Valid() && snapshotActive == active && Views() == old(Views()) && Bases() == old(Bases())
    {
      forall j | 0 <= j < |shards| ensures shards[j].data.Flat? {
        assert Bases()[j] == None;
      }
      snapshotActive := active;
    }

    /** Freezes every shard. Epochs do not nest: a second one fails closed. */
    method BeginSnapshot() returns (ghost captured: seq<Contents>)
      requires Valid() && !snapshotActive
      modifies Repr
      ensures Valid() && snapshotActive
      ensures Views() == old(Views()) == captured
      ensures Bases() == Frozen(captured, 0)
    {
      captured := Views();
      SetActive(true);
      ghost var bases := Bases();
      var i := 0;
      while i < |shards|
        invariant 0 <= i <= |shards|
        invariant Valid() && snapshotActive && Views() == captured && Bases() == bases
        invariant forall j :: 0 <= j < |bases| ==> bases[j] == if j < i then Some(captured[j]) else None
      {
        FreezeShard(i);
        bases := bases[i := Some(captured[i])];
        i := i + 1;
      }
    }

    method FreezeShard(i: nat)
      requires Valid() && snapshotActive && i < |shards| && Bases()[i] == None
      modifies Repr
      ensures Valid() && snapshotActive && Views() == old(Views())
      ensures Bases() == old(Bases())[i := Some(old(Views())[i])]
    {
      var _ := shards[i].BeginSnapshot();
      OneShardRebased(i);
    }

    method FinishSnapshotShard(i: nat)
      requires Valid() && snapshotActive && i < |shards| && shards[i].data.Overlay?
      modifies Repr
      ensures Valid() && snapshotActive && Views() == old(Views())
      ensures Bases() == old(Bases())[i := None]
    {
      FoldShard(i);
    }

    method FoldShard(i: nat)
      requires Valid() && snapshotActive && i < |shards|
      modifies Repr
      ensures Valid() && snapshotActive && Views() == old(Views())
      ensures Bases() == old(Bases())[i := None]
    {
      var _ := shards[i].FinishSnapshot();
      OneShardRebased(i);
    }

    /** Folds whatever deltas are left and closes the epoch. */
    method FinishSnapshot()
      requires Valid() && snapshotActive
      modifies Repr
      ensures Valid() && !snapshotActive && Views() == old(Views())
    {
      ghost var views, bases := Views(), Bases();
      var i := 0;
      while i < |shards|
        invariant 0 <= i <= |shards|
        invariant Valid() && snapshotActive && Views() == views && Bases() == bases
        invariant forall j :: 0 <= j < i ==> bases[j] == None
      {
        FoldShard(i);
        bases := bases[i := None];
        i := i + 1;
      }
      SetActive(false);
    }

    // ---- Eviction ----

    /** The best candidate over all shards; on equal scores the first shard wins. */
    method GlobalCandidate(policy: Policy, protected: set<Bytes>, picks: nat -> nat) returns (best: Option<Bytes>)
      requires Valid()
      ensures best.None? <==> NoneEligible(Contents(), policy, protected)
      ensures best.Some? ==> IsVictim(Contents(), policy, protected, best.value)
      ensures best.Some? && (policy == AllKeysLru || policy == VolatileLru) ==>
        forall k :: k in Contents() && k !in protected && (policy == VolatileLru ==> Contents()[k].expiresAt != None) ==>
          Contents()[best.value].lastAccessed <= Contents()[k].lastAccessed
      ensures best.Some? ==>
        && best.value in Contents() && best.value !in protected
        && (policy == VolatileLru || policy == VolatileRandom ==> Contents()[best.value].expiresAt != None)
    {
      ghost var views := Views();
      var leader: Option<(nat, Bytes, nat)> := None;
      var i := 0;
      while i < |shards|
        invariant 0 <= i <= |shards|
        invariant Leads(views, i, policy, protected, leader)
      {
        var candidate := shards[i].EvictionCandidate(policy, protected, picks(i));
        LeadsStep(views, i, policy, protected, leader, candidate);
        leader := Better(leader, candidate, i);
        i := i + 1;
      }
      LeaderIsGlobal(views, hash, policy, protected, leader);
      best := if leader.Some? then Some(leader.value.1) else None;
      if best.Some? {
        VictimIff(Contents(), policy, protected, best.value);
      }
    }

    /** One round of eviction, on a dataset without expired entries. */
    method EvictOne(policy: Policy, protected: set<Bytes>, picks: nat -> nat, now: nat) returns (victim: Option<(Bytes, Entry)>)
      requires Valid() && AllLive(Contents(), now)
      modifies Repr
      ensures Valid() && Same(old(snapshotActive), old(Bases()))
      ensures victim.None? ==> NoneEligible(old(Contents()), policy, protected) && Contents() == old(Contents())
      ensures victim.Some? ==>
        && IsVictim(old(Contents()), policy, protected, victim.value.0)
        && old(Contents())[victim.value.0] == victim.value.1
        && Contents() == old(Contents()) - {victim.value.0}
    {
      var best := GlobalCandidate(policy, protected, picks);
      if best.None? {
        return None;
      }
      var removed := Remove(best.value, now);
      victim := Some((best.value, removed.value));
    }

    /** Removes victims until the dataset fits or nothing may be evicted.
        `picks` stands for the clock-derived choices of the random policies. */
    method EvictToFit(limit: nat, policy: Policy, protected: set<Bytes>, picks: (nat, nat) -> nat, now: nat)
      returns (evicted: seq<(Bytes, Entry)>)
      requires Valid()
      modifies Repr
      ensures Valid() && Same(old(snapshotActive), old(Bases()))
      ensures policy.NoEviction? || limit == 0 ==> evicted == [] && Contents() == old(Contents())
      ensures !policy.NoEviction? && limit != 0 ==>
        && EvictionRun(Swept(old(Contents()), now), evicted, limit, policy, protected, sizeOf)
        && Contents() == Dropping(Swept(old(Contents()), now), EvictedKeys(evicted))
        && (TotalSize(Contents(), sizeOf) <= limit || NoneEligible(Contents(), policy, protected))
      ensures TakenInOrder(Swept(old(Contents()), now), evicted, policy, protected)
    {
      evicted := [];
      if policy.NoEviction? || limit == 0 {
        return;
      }
      ghost var start := Swept(Contents(), now);
      var bytes := TotalMemoryBytes(now);
      while limit < bytes
        invariant Valid() && Same(old(snapshotActive), old(Bases()))
        invariant Contents() == Dropping(start, EvictedKeys(evicted))
        invariant EvictionRun(start, evicted, limit, policy, protected, sizeOf)
        invariant bytes == TotalSize(Contents(), sizeOf)
        invariant AllLive(Contents(), now)
        decreases |Contents()|
      {
        ghost var m := Contents();
        var victim := EvictOne(policy, protected, i => picks(|evicted|, i), now);
        if victim.None? {
          RunTakesInOrder(start, evicted, limit, policy, protected, sizeOf);
          return;
        }
        RemoveCardinality(m, victim.value.0);
        ExtendRun(start, evicted, victim.value, limit, policy, protected, sizeOf);
        SweptFixpoint(Contents(), now);
        evicted := evicted + [victim.value];
        bytes := TotalMemoryBytes(now);
      }
      RunTakesInOrder(start, evicted, limit, policy, protected, sizeOf);
    }

    // ---- Replacing the dataset ----

    method ReplaceAll(entries: seq<(Bytes, Entry)>, now: nat)
      requires Valid() && !snapshotActive
      modifies Repr
      ensures Valid() && !snapshotActive
      ensures Contents() == Collected(entries)
    {
      ClearAll(now);
      var i := 0;
      while i < |entries|
        invariant 0 <= i <= |entries|
        invariant Valid() && !snapshotActive
        invariant Contents() == Collected(entries[..i])
      {
        CollectedStep(entries, i);
        var _ := Insert(entries[i].0, entries[i].1, now);
        i := i + 1;
      }
      assert entries[..i] == entries;
    }

    method ClearShards(now: nat)
      requires Assembled()
      modifies set s <- shards
      ensures forall j :: 0 <= j < |shards| ==> shards[j].Blank()
    {
      var i := 0;
      while i < |shards|
        invariant 0 <= i <= |shards|
        invariant forall j :: 0 <= j < i ==> shards[j].Blank()
      {
        shards[i].Clear(now);
        i := i + 1;
      }
    }

    method ClearAll(now: nat)
      requires Valid() && !snapshotActive
      modifies Repr
      ensures Valid() && !snapshotActive && Contents() == map[]
    {
      ClearShards(now);
      total.n := 0;
      EmptyIsValid();
    }
  }

  // ---- What eviction guarantees ----

  /** Under the LRU policies, a least recently accessed key of the whole dataset. */
  ghost predicate IsVictim(m: Contents, policy: Policy, protected: set<Bytes>, key: Bytes) {
    key in m && LocalBest(m, policy, protected, key, Score(policy, m[key]))
  }

  /** Every victim was chosen, and removed, while the rest was above the limit. */
  ghost predicate EvictionRun(start: Contents, evicted: seq<(Bytes, Entry)>, limit: nat, policy: Policy,
                              protected: set<Bytes>, sizeOf: Sizer)
  {
    forall i :: 0 <= i < |evicted| ==> EvictionStep(start, evicted, i, limit, policy, protected, sizeOf)
  }

  ghost predicate EvictionStep(start: Contents, evicted: seq<(Bytes, Entry)>, i: nat, limit: nat, policy: Policy,
                               protected: set<Bytes>, sizeOf: Sizer)
    requires i < |evicted|
  {
    var m := Dropping(start, EvictedKeys(evicted[..i]));
    && limit < TotalSize(m, sizeOf)
    && IsVictim(m, policy, protected, evicted[i].0)
    && m[evicted[i].0] == evicted[i].1
  }

  lemma ExtendRun(start: Contents, evicted: seq<(Bytes, Entry)>, victim: (Bytes, Entry), limit: nat, policy: Policy,
                  protected: set<Bytes>, sizeOf: Sizer)
    requires EvictionRun(start, evicted, limit, policy, protected, sizeOf)
    requires
      var m := Dropping(start, EvictedKeys(evicted));
      && limit < TotalSize(m, sizeOf)
      && IsVictim(m, policy, protected, victim.0)
      && m[victim.0] == victim.1
    ensures EvictionRun(start, evicted + [victim], limit, policy, protected, sizeOf)
    ensures Dropping(start, EvictedKeys(evicted + [victim])) == Dropping(start, EvictedKeys(evicted)) - {victim.0}
  {
    var all := evicted + [victim];
    forall i | 0 <= i < |all| ensures EvictionStep(start, all, i, limit, policy, protected, sizeOf) {
      assert all[..i] == evicted[..i];
      if i < |evicted| {
        assert EvictionStep(start, evicted, i, limit, policy, protected, sizeOf);
      } else {
        assert evicted[..i] == evicted;
      }
    }
    assert EvictedKeys(all)[..|evicted|] == EvictedKeys(evicted);
  }

  /** Victims are never protected, are distinct, and are recorded with the
      entry they held when eviction began. */
  lemma RunVictims(start: Contents, evicted: seq<(Bytes, Entry)>, limit: nat, policy: Policy,
                   protected: set<Bytes>, sizeOf: Sizer)
    requires EvictionRun(start, evicted, limit, policy, protected, sizeOf)
    ensures forall i :: 0 <= i < |evicted| ==>
      evicted[i].0 !in protected && evicted[i].0 in start && start[evicted[i].0] == evicted[i].1
    ensures forall i, j :: 0 <= i < j < |evicted| ==> evicted[i].0 != evicted[j].0
  {
    forall i | 0 <= i < |evicted|
      ensures evicted[i].0 !in protected && evicted[i].0 in start && start[evicted[i].0] == evicted[i].1
      ensures evicted[i].0 !in EvictedKeys(evicted[..i])
    {
      assert EvictionStep(start, evicted, i, limit, policy, protected, sizeOf);
      DroppingLookup(start, EvictedKeys(evicted[..i]), evicted[i].0);
    }
    forall i, j | 0 <= i < j < |evicted| ensures evicted[i].0 != evicted[j].0 {
      assert EvictedKeys(evicted[..j])[i] == evicted[i].0;
    }
  }

  /** A victim is an unprotected key, with an expiry where the policy asks for one.
      Unless the policy is a random one, no such key was accessed less recently. */
  lemma VictimIff(m: Contents, policy: Policy, protected: set<Bytes>, key: Bytes)
    ensures IsVictim(m, policy, protected, key) <==>
      && key in m && key !in protected
      && (policy == VolatileLru || policy == VolatileRandom ==> m[key].expiresAt != None)
      && (policy != AllKeysRandom && policy != VolatileRandom ==>
            forall k :: k in m && k !in protected && (policy == VolatileLru ==> m[k].expiresAt != None) ==>
              m[key].lastAccessed <= m[k].lastAccessed)
  {
  }

  lemma NoneEligibleIff(m: Contents, policy: Policy, protected: set<Bytes>)
    ensures NoneEligible(m, policy, protected) <==>
      forall k :: k in m ==> k in protected || ((policy == VolatileLru || policy == VolatileRandom) && m[k].expiresAt == None)
  {
  }

  /** What was taken and when, in terms of the dataset at the start: over the limit
      and, under the policies by last access, never before a key that was accessed
      less recently. */
  ghost predicate TakenInOrder(start: Contents, evicted: seq<(Bytes, Entry)>, policy: Policy, protected: set<Bytes>) {
    forall i :: 0 <= i < |evicted| ==> TakenNext(start, evicted, i, policy, protected)
  }

  ghost predicate TakenNext(start: Contents, evicted: seq<(Bytes, Entry)>, i: nat, policy: Policy, protected: set<Bytes>)
    requires i < |evicted|
  {
    var (key, entry) := evicted[i];
    && key in start && start[key] == entry && key !in protected && key !in EvictedKeys(evicted[..i])
    && (policy == VolatileLru || policy == VolatileRandom ==> entry.expiresAt != None)
    && (policy == AllKeysLru || policy == VolatileLru ==>
          forall k :: k in start && k !in protected && k !in EvictedKeys(evicted[..i])
                      && (policy == VolatileLru ==> start[k].expiresAt != None) ==>
            entry.lastAccessed <= start[k].lastAccessed)
  }

  lemma RunTakesInOrder(start: Contents, evicted: seq<(Bytes, Entry)>, limit: nat, policy: Policy, protected: set<Bytes>, sizeOf: Sizer)
    requires EvictionRun(start, evicted, limit, policy, protected, sizeOf)
    ensures TakenInOrder(start, evicted, policy, protected)
  {
    forall i | 0 <= i < |evicted| ensures TakenNext(start, evicted, i, policy, protected) {
      TakesNext(start, evicted, i, limit, policy, protected, sizeOf);
    }
  }

  lemma TakesNext(start: Contents, evicted: seq<(Bytes, Entry)>, i: nat, limit: nat, policy: Policy, protected: set<Bytes>, sizeOf: Sizer)
    requires i < |evicted| && EvictionRun(start, evicted, limit, policy, protected, sizeOf)
    ensures TakenNext(start, evicted, i, policy, protected)
  {
    var gone, key := EvictedKeys(evicted[..i]), evicted[i].0;
    var m := Dropping(start, gone);
    assert EvictionStep(start, evicted, i, limit, policy, protected, sizeOf);
    VictimIff(m, policy, protected, key);
    DroppingLookup(start, gone, key);
    forall k | k in start && k !in gone ensures k in m && m[k] == start[k] {
      DroppingLookup(start, gone, k);
    }
  }

  ghost predicate AllLive(m: Contents, now: nat) {
    forall k :: k in m ==> Unexpired(m[k].expiresAt, now)
  }

  lemma SweptFixpoint(m: Contents, now: nat)
    requires AllLive(m, now)
    ensures Swept(m, now) == m
  {
  }

  /** The leader after scanning the first n shards, and its shard. */
  ghost predicate Leads(views: seq<Contents>, n: nat, policy: Policy, protected: set<Bytes>, leader: Option<(nat, Bytes, nat)>)
    requires n <= |views|
  {
    && (leader.None? ==> forall j :: 0 <= j < n ==> NoneEligible(views[j], policy, protected))
    && (leader.Some? ==>
          && leader.value.0 < n
          && LocalBest(views[leader.value.0], policy, protected, leader.value.1, leader.value.2)
          && forall j :: 0 <= j < n ==> AllScoreAtLeast(views[j], policy, protected, leader.value.2))
  }

  function Better(leader: Option<(nat, Bytes, nat)>, candidate: Option<(Bytes, nat)>, i: nat): Option<(nat, Bytes, nat)> {
    if candidate.Some? && (leader.None? || candidate.value.1 < leader.value.2)
    then Some((i, candidate.value.0, candidate.value.1))
    else leader
  }

  lemma LeadsStep(views: seq<Contents>, n: nat, policy: Policy, protected: set<Bytes>,
                  leader: Option<(nat, Bytes, nat)>, candidate: Option<(Bytes, nat)>)
    requires n < |views| && Leads(views, n, policy, protected, leader)
    requires candidate.None? <==> NoneEligible(views[n], policy, protected)
    requires candidate.Some? ==> LocalBest(views[n], policy, protected, candidate.value.0, candidate.value.1)
    ensures Leads(views, n + 1, policy, protected, Better(leader, candidate, n))
  {
    var next := Better(leader, candidate, n);
    if next.Some? {
      forall j | 0 <= j < n + 1 ensures AllScoreAtLeast(views[j], policy, protected, next.value.2) {
        if j < n && leader.None? {
          assert NoneEligible(views[j], policy, protected);
        }
      }
    }
  }

  lemma LeaderIsGlobal(views: seq<Contents>, hash: Bytes -> nat, policy: Policy, protected: set<Bytes>,
                       leader: Option<(nat, Bytes, nat)>)
    requires Routed(views, hash) && |views| == NUM_SHARDS
    requires Leads(views, |views|, policy, protected, leader)
    ensures leader.None? <==> NoneEligible(Merged(views), policy, protected)
    ensures leader.Some? ==> IsVictim(Merged(views), policy, protected, leader.value.1)
  {
    var m := Merged(views);
    forall k | k in m ensures k in views[ShardFor(hash, k)] && views[ShardFor(hash, k)][k] == m[k] {
      MergedLookup(views, hash, k);
    }
    if leader.Some? {
      MergedLookup(views, hash, leader.value.1);
    }
  }

  /** The frozen maps of an epoch in which the first `finished` shards are done. */
  ghost function Frozen(captured: seq<Contents>, finished: nat): (r: seq<Option<Contents>>)
    ensures |r| == |captured|
  {
    seq(|captured|, i requires 0 <= i < |captured| => if i < finished then None else Some(captured[i]))
  }

  lemma CollectedStep(entries: seq<(Bytes, Entry)>, i: nat)
    requires i < |entries|
    ensures Collected(entries[..i + 1]) == Amend(Collected(entries[..i]), entries[i].0, Some(entries[i].1))
  {
    assert entries[..i + 1][..i] == entries[..i];
  }

  /** The map that a list of entries describes; a later entry wins. */
  function Collected(entries: seq<(Bytes, Entry)>): Contents {
    if entries == [] then map[]
    else Amend(Collected(entries[..|entries| - 1]), entries[|entries| - 1].0, Some(entries[|entries| - 1].1))
  }
}
