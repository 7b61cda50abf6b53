/** The shard object: every operation keeps the size and key counters exact and
acts on the visible map as on a plain map, in flat and in snapshot mode. */
module ShardObject {
  import opened Model
  import opened Shards

  /** The engine-wide count of physically present keys, shared by all shards. */
  class KeyCounter {
    var n: nat

    constructor ()
      ensures n == 0
    {
      n := 0;
    }

    method Add()
      modifies this
      ensures n == old(n) + 1
    {
      n := n + 1;
    }

    /** A checked decrement: it leaves a zero count alone. */
    method Remove()
      modifies this
      ensures n == if old(n) == 0 then 0 else old(n) - 1
    {
      if n > 0 {
        n := n - 1;
      }
    }
  }

  datatype Update = Keep(value: Value) | Drop

  datatype Policy = NoEviction | AllKeysLru | VolatileLru | AllKeysRandom | VolatileRandom {
    predicate Volatile() { VolatileLru? || VolatileRandom? }
    predicate Random() { AllKeysRandom? || VolatileRandom? }
  }

  predicate Expired(m: Contents, key: Bytes, now: nat) {
    key in m && !Unexpired(m[key].expiresAt, now)
  }

  // What each operation does to the slot of its key.

  /** An expired entry is no entry. */
  function Live(slot: Option<Entry>, now: nat): Option<Entry> {
    if slot.Some? && Unexpired(slot.value.expiresAt, now) then slot else None
  }

  function Touched(slot: Option<Entry>, now: nat): Option<Entry> {
    var live := Live(slot, now);
    if live.Some? then Some(live.value.(lastAccessed := now)) else None
  }

  function Updated(slot: Option<Entry>, f: Value -> Update, now: nat): Option<Entry> {
    var live := Live(slot, now);
    if live.None? then None
    else match f(live.value.value)
      case Drop => None
      case Keep(value) => Some(live.value.(value := value, lastAccessed := now))
  }

  function Upserted(slot: Option<Entry>, initial: Value, f: (Entry, bool) -> Entry, now: nat): Option<Entry> {
    var live := Live(slot, now);
    if live.Some? then Some(f(live.value.(lastAccessed := now), true))
    else Some(f(Entry(initial, None, now, now), false))
  }

  function Defaulted(slot: Option<Entry>, entry: Entry, now: nat): Option<Entry> {
    if Live(slot, now).None? then Some(entry) else Live(slot, now)
  }

  predicate ExpiryAllowed(slot: Option<Entry>, requireExpiry: Option<bool>, now: nat) {
    var live := Live(slot, now);
    live.Some? && (requireExpiry.Some? ==> requireExpiry.value == live.value.expiresAt.Some?)
  }

  function Reexpired(slot: Option<Entry>, timestamp: Word64, requireExpiry: Option<bool>, now: nat): Option<Entry> {
    var live := Live(slot, now);
    if !ExpiryAllowed(slot, requireExpiry, now) then live
    else if timestamp <= now then None
    else Some(live.value.(expiresAt := Some(timestamp)))
  }

  /** The map with every expired key swept away. */
  function Swept(m: Contents, now: nat): Contents {
    map k | k in m && Unexpired(m[k].expiresAt, now) :: m[k]
  }

  predicate Eligible(policy: Policy, protected: set<Bytes>, key: Bytes, entry: Entry) {
    key !in protected && (policy.Volatile() ==> entry.expiresAt.Some?)
  }

  function Minus(a: nat, b: nat): nat {
    if b <= a then a - b else 0
  }

  class Shard {
    var data: ShardData
    var opCount: nat
    var lastModified: nat
    var memBytes: nat
    var keyCount: nat
    const total: KeyCounter
    const sizeOf: Sizer

    ghost predicate Valid()
      reads this
    {
      && memBytes == TotalSize(data.View(), sizeOf)
      && keyCount == |data.View()|
    }

    constructor (total: KeyCounter, sizeOf: Sizer)
      ensures Valid() && data == Flat(map[])
      ensures this.total == total && this.sizeOf == sizeOf
      ensures opCount == memBytes == keyCount == 0
    {
      data := Flat(map[]);
      opCount, lastModified, memBytes, keyCount := 0, 0, 0, 0;
      this.total := total;
      this.sizeOf := sizeOf;
    }

    method PurgeIfExpired(key: Bytes, now: nat) returns (purged: bool)
      requires Valid() && keyCount <= total.n
      modifies this, total
      ensures Valid() && total.n == old(total.n) + keyCount - old(keyCount)
      ensures data.View() == Amend(old(data.View()), key, Live(Lookup(old(data.View()), key), now))
      ensures purged == Expired(old(data.View()), key, now)
      ensures data.Base() == old(data.Base())
    {
      var found := data.Get(key);
      purged := found.Some? && !Unexpired(found.value.expiresAt, now);
      if purged {
        CountPositive(data.View(), key);
        Discard(key);
      }
    }

    /** Replaces or adds an entry and settles every counter. */
    method Insert(key: Bytes, entry: Entry, now: nat) returns (previous: Option<Entry>)
      requires Valid() && keyCount <= total.n
      modifies this, total
      ensures Valid() && total.n == old(total.n) + keyCount - old(keyCount)
      ensures data.View() == Amend(old(data.View()), key, Some(entry))
      ensures previous == Lookup(old(data.View()), key)
      ensures data.Base() == old(data.Base())
    {
      opCount := opCount + 1;
      lastModified := now;
      InsertAccounting(data.View(), key, entry, sizeOf);
      var inserted := data.Insert(key, entry);
      data := inserted.0;
      previous := inserted.1;
      if previous.None? {
        keyCount := keyCount + 1;
        total.Add();
      } else {
        memBytes := Minus(memBytes, sizeOf(key, previous.value.value));
      }
      memBytes := memBytes + sizeOf(key, entry.value);
    }

    /** An expired key is absent: it is swept, and nothing is returned. */
    method Remove(key: Bytes, now: nat) returns (removed: Option<Entry>)
      requires Valid() && keyCount <= total.n
      modifies this, total
      ensures Valid() && total.n == old(total.n) + keyCount - old(keyCount)
      ensures data.View() == Amend(old(data.View()), key, None)
      ensures removed == Live(Lookup(old(data.View()), key), now)
      ensures data.Base() == old(data.Base())
    {
      AmendTwice(data.View(), key, Live(Lookup(data.View(), key), now), None);
      var purged := PurgeIfExpired(key, now);
      if purged {
        return None;
      }
      removed := RemoveUnexpired(key, now);
    }

    /** Removes whatever the slot holds. */
    method RemoveUnexpired(key: Bytes, now: nat) returns (removed: Option<Entry>)
      requires Valid() && keyCount <= total.n
      modifies this, total
      ensures Valid() && total.n == old(total.n) + keyCount - old(keyCount)
      ensures data.View() == Amend(old(data.View()), key, None)
      ensures removed == Lookup(old(data.View()), key)
      ensures data.Base() == old(data.Base())
    {
      RemoveAccounting(data.View(), key, sizeOf);
      opCount, lastModified := opCount + 1, now;
      var result := data.Remove(key);
      data := result.0;
      removed := result.1;
      if removed.Some? {
        memBytes := Minus(memBytes, sizeOf(key, removed.value.value));
        keyCount := Minus(keyCount, 1);
        total.Remove();
      }
    }

    /** Overwrites an existing entry in place; the value may change size. */
    method Rewrite(key: Bytes, entry: Entry)
      requires Valid() && key in data.View()
      modifies this`data, this`memBytes
      ensures Valid()
      ensures data.View() == Amend(old(data.View()), key, Some(entry))
      ensures data.Base() == old(data.Base())
    {
      InsertAccounting(data.View(), key, entry, sizeOf);
      var before := data.Get(key);
      data := data.Write(key, entry);
      memBytes := Minus(memBytes, sizeOf(key, before.value.value)) + sizeOf(key, entry.value);
    }

    /** A read refreshes `lastAccessed` of the entry it returns. */
    method Get(key: Bytes, now: nat) returns (r: Option<Entry>)
      requires Valid() && keyCount <= total.n
      modifies this, total
      ensures Valid() && total.n == old(total.n) + keyCount - old(keyCount)
      ensures r == Touched(Lookup(old(data.View()), key), now)
      ensures data.View() == Amend(old(data.View()), key, r)
      ensures data.Base() == old(data.Base())
    {
      var _ := PurgeIfExpired(key, now);
      var found := data.Get(key);
      if found.None? {
        return None;
      }
      var entry := found.value.(lastAccessed := now);
      Rewrite(key, entry);
      r := Some(entry);
    }

    /** Mutates an existing value; dropping it removes the key. */
    method UpdateIfExists(key: Bytes, f: Value -> Update, now: nat) returns (found: bool)
      requires Valid() && keyCount <= total.n
      modifies this, total
      ensures Valid() && total.n == old(total.n) + keyCount - old(keyCount)
      ensures found == Live(Lookup(old(data.View()), key), now).Some?
      ensures data.View() == Amend(old(data.View()), key, Updated(Lookup(old(data.View()), key), f, now))
      ensures data.Base() == old(data.Base())
    {
      var _ := PurgeIfExpired(key, now);
      var current := data.Get(key);
      found := current.Some?;
      if found {
        opCount := opCount + 1;
        lastModified := now;
        match f(current.value.value) {
          case Keep(value) =>
            Rewrite(key, current.value.(value := value, lastAccessed := now));
          case Drop =>
            CountPositive(data.View(), key);
            Discard(key);
        }
      }
    }

    /** Mutates an entry in place, starting from a default when the key is absent. */
    method UpdateOrInsert(key: Bytes, initial: Value, f: (Entry, bool) -> Entry, now: nat)
      requires Valid() && keyCount <= total.n
      modifies this, total
      ensures Valid() && total.n == old(total.n) + keyCount - old(keyCount)
      ensures data.View() == Amend(old(data.View()), key, Upserted(Lookup(old(data.View()), key), initial, f, now))
      ensures data.Base() == old(data.Base())
    {
      ghost var start := data.View();
      var _ := PurgeIfExpired(key, now);
      opCount := opCount + 1;
      lastModified := now;
      var current := data.Get(key);
      var existed := current.Some?;
      var entry := if existed then current.value else Entry(initial, None, now, now);
      var result := f(entry.(lastAccessed := now), existed);
      AmendTwice(start, key, Live(Lookup(start, key), now), Some(result));
      if existed {
        Rewrite(key, result);
      } else {
        Introduce(key, entry, result);
      }
    }

    /** The default goes in first, and the update then writes through it. */
    method Introduce(key: Bytes, entry: Entry, result: Entry)
      requires Valid() && key !in data.View()
      modifies this`data, this`memBytes, this`keyCount, total
      ensures Valid() && keyCount == old(keyCount) + 1 && total.n == old(total.n) + 1
      ensures data.View() == Amend(old(data.View()), key, Some(result))
      ensures data.Base() == old(data.Base())
    {
      ghost var m := data.View();
      InsertAccounting(m, key, result, sizeOf);
      AmendTwice(m, key, Some(entry), Some(result));
      data := data.Insert(key, entry).0;
      keyCount := keyCount + 1;
      total.Add();
      data := data.Write(key, result);
      assert data.View() == Amend(m, key, Some(result));
      memBytes := memBytes + sizeOf(key, result.value);
    }

    /** Changes an expiry; a deadline that has passed deletes the key. */
    method SetExpiry(key: Bytes, timestamp: Word64, requireExpiry: Option<bool>, now: nat) returns (updated: bool)
      requires Valid() && keyCount <= total.n
      modifies this, total
      ensures Valid() && total.n == old(total.n) + keyCount - old(keyCount)
      ensures updated == ExpiryAllowed(Lookup(old(data.View()), key), requireExpiry, now)
      ensures data.View() == Amend(old(data.View()), key, Reexpired(Lookup(old(data.View()), key), timestamp, requireExpiry, now))
      ensures data.Base() == old(data.Base())
    {
      AmendTwice(data.View(), key, Live(Lookup(data.View(), key), now),
                 Reexpired(Lookup(data.View(), key), timestamp, requireExpiry, now));
      var purged := PurgeIfExpired(key, now);
      if purged {
        return false;
      }
      var current := data.Get(key);
      if current.None? {
        return false;
      }
      if requireExpiry.Some? && requireExpiry.value != current.value.expiresAt.Some? {
        return false;
      }
      if timestamp <= now {
        var removed := Remove(key, now);
        return removed.Some?;
      }
      Rewrite(key, current.value.(expiresAt := Some(timestamp)));
      opCount := opCount + 1;
      lastModified := now;
      updated := true;
    }

    method InsertIfAbsent(key: Bytes, entry: Entry, now: nat) returns (inserted: bool)
      requires Valid() && keyCount <= total.n
      modifies this, total
      ensures Valid() && total.n == old(total.n) + keyCount - old(keyCount)
      ensures inserted == Live(Lookup(old(data.View()), key), now).None?
      ensures data.View() == Amend(old(data.View()), key, Defaulted(Lookup(old(data.View()), key), entry, now))
      ensures data.Base() == old(data.Base())
    {
      AmendTwice(data.View(), key, Live(Lookup(data.View(), key), now), Some(entry));
      var _ := PurgeIfExpired(key, now);
      if data.Get(key).Some? {
        return false;
      }
      opCount := opCount + 1;
      lastModified := now;
      Add(key, entry);
      inserted := true;
    }

    /** Sweeps every expired key and returns how many there were. */
    method ExpireKeys(now: nat) returns (count: nat)
      requires Valid() && keyCount <= total.n
      modifies this, total
      ensures Valid() && total.n == old(total.n) + keyCount - old(keyCount)
      ensures data.View() == Swept(old(data.View()), now)
      ensures count == old(keyCount) - keyCount
      ensures data.Base() == old(data.Base())
    {
      var items := Visit(data);
      ghost var m := data.View();
      var expired := CollectExpired(items, m, now);
      count := |expired|;
      var i := 0;
      while i < |expired|
        invariant 0 <= i <= |expired|
        invariant Valid() && keyCount <= total.n
        invariant total.n == old(total.n) + keyCount - old(keyCount)
        invariant keyCount == old(keyCount) - i
        invariant data.View() == Dropping(m, expired[..i])
        invariant data.Base() == old(data.Base())
      {
        var next := i + 1;
        assert Expired(m, expired[i], now);
        DroppingNext(m, expired, i, next);
        CountPositive(data.View(), expired[i]);
        Discard(expired[i]);
        i := next;
      }
      assert expired[..i] == expired;
      DroppingIsSwept(m, expired, now);
    }

    /** Stores a key that is known to be absent. */
    method Add(key: Bytes, entry: Entry)
      requires Valid() && keyCount <= total.n && key !in data.View()
      modifies this, total
      ensures Valid() && keyCount == old(keyCount) + 1 && total.n == old(total.n) + 1
      ensures data.View() == Amend(old(data.View()), key, Some(entry))
      ensures data.Base() == old(data.Base())
    {
      InsertAccounting(data.View(), key, entry, sizeOf);
      data := data.Insert(key, entry).0;
      memBytes := memBytes + sizeOf(key, entry.value);
      keyCount := keyCount + 1;
      total.Add();
    }

    /** Removes a key that is known to be present. */
    method Discard(key: Bytes)
      requires Valid() && 0 < keyCount <= total.n && key in data.View()
      modifies this, total
      ensures Valid() && keyCount == old(keyCount) - 1 && total.n == old(total.n) - 1
      ensures data.View() == Amend(old(data.View()), key, None)
      ensures data.Base() == old(data.Base())
    {
      ghost var view := data.View();
      ghost var rest := view - {key};
      RemoveAccounting(view, key, sizeOf);
      var result := data.Remove(key);
      var size := sizeOf(key, result.1.value.value);
      var bytes, keys := Minus(memBytes, size), Minus(keyCount, 1);
      assert TotalSize(rest, sizeOf) == bytes && |rest| == keys;
      data, memBytes, keyCount := result.0, bytes, keys;
      total.Remove();
    }

    /** The best local victim: any eligible key for a random policy, otherwise a
        least recently accessed one. `pick` stands for the clock-derived index. */
    method EvictionCandidate(policy: Policy, protected: set<Bytes>, pick: nat) returns (r: Option<(Bytes, nat)>)
      ensures r.None? <==> NoneEligible(data.View(), policy, protected)
      ensures r.Some? ==> LocalBest(data.View(), policy, protected, r.value.0, r.value.1)
      ensures r.Some? ==>
        var m, (key, score) := data.View(), r.value;
        && key in m && key !in protected && (policy == VolatileLru || policy == VolatileRandom ==> m[key].expiresAt != None)
        && (policy == AllKeysLru || policy == VolatileLru ==>
              && score == m[key].lastAccessed
              && forall k :: k in m && k !in protected && (policy == VolatileLru ==> m[k].expiresAt != None) ==>
                   m[key].lastAccessed <= m[k].lastAccessed)
    {
      var items := Visit(data);
      var eligible := CollectEligible(items, data.View(), policy, protected);
      if eligible == [] {
        return None;
      }
      if policy.Random() {
        return Some((eligible[pick % |eligible|].0, 0));
      }
      var best := 0;
      var i := 1;
      while i < |eligible|
        invariant 0 <= best < i <= |eligible|
        invariant forall j :: 0 <= j < i ==> eligible[best].1.lastAccessed <= eligible[j].1.lastAccessed
      {
        if eligible[i].1.lastAccessed < eligible[best].1.lastAccessed {
          best := i;
        }
        i := i + 1;
      }
      r := Some((eligible[best].0, eligible[best].1.lastAccessed));
    }

    /** Freezes the current map as the base of a snapshot. */
    method BeginSnapshot() returns (base: Contents)
      requires Valid() && data.Flat?
      modifies this`data
      ensures Valid() && base == old(data.View()) == data.View()
      ensures data.Base() == Some(base)
    {
      base := data.data;
      data := Overlay(base, map[]);
      assert data.View() == base;
    }

    method FinishSnapshot() returns (active: bool)
      requires Valid()
      modifies this`data
      ensures Valid() && data.View() == old(data.View())
      ensures data.Flat? && active == old(data.Overlay?)
    {
      active := data.Overlay?;
      if active {
        var folded := FoldDelta(data.base, data.changes);
        data := Flat(folded);
      }
    }

    ghost predicate Blank()
      reads this
    {
      data == Flat(map[]) && memBytes == 0 && keyCount == 0
    }

    lemma BlankIsValid()
      requires Blank()
      ensures Valid() && data.Flat? && |data.View()| == 0
    {
    }

    /** Starts the shard afresh; the caller resets the shared key count. */
    method Clear(now: nat)
      modifies this
      ensures Blank()
    {
      data := Flat(map[]);
      memBytes := 0;
      keyCount := 0;
      opCount := opCount + 1;
      lastModified := now;
    }
  }

  /** Random policies score every candidate alike; the others by last access. */
  function Score(policy: Policy, entry: Entry): nat {
    if policy.Random() then 0 else entry.lastAccessed
  }

  ghost predicate NoneEligible(m: Contents, policy: Policy, protected: set<Bytes>) {
    forall k :: k in m ==> !Eligible(policy, protected, k, m[k])
  }

  ghost predicate AllScoreAtLeast(m: Contents, policy: Policy, protected: set<Bytes>, score: nat) {
    forall k :: k in m && Eligible(policy, protected, k, m[k]) ==> score <= Score(policy, m[k])
  }

  /** An eligible key that no other eligible key beats. */
  ghost predicate LocalBest(m: Contents, policy: Policy, protected: set<Bytes>, key: Bytes, score: nat) {
    && key in m && Eligible(policy, protected, key, m[key]) && score == Score(policy, m[key])
    && AllScoreAtLeast(m, policy, protected, score)
  }

  lemma CountPositive(m: Contents, key: Bytes)
    requires key in m
    ensures |m| > 0
  {
    RemoveCardinality(m, key);
  }

  ghost function Dropping(m: Contents, keys: seq<Bytes>): Contents {
    if keys == [] then m else Dropping(m, keys[..|keys| - 1]) - {keys[|keys| - 1]}
  }

  lemma {:induction false} DroppingLookup(m: Contents, keys: seq<Bytes>, key: Bytes)
    ensures Lookup(Dropping(m, keys), key) == if key in keys then None else Lookup(m, key)
  {
    if keys != [] {
      DroppingLookup(m, keys[..|keys| - 1], key);
      assert keys == keys[..|keys| - 1] + [keys[|keys| - 1]];
    }
  }

  /** Dropping one more of several distinct keys of a dataset. */
  lemma DroppingNext(m: Contents, keys: seq<Bytes>, i: nat, next: nat)
    requires next == i + 1 <= |keys| && keys[i] in m
    requires forall j :: 0 <= j < i ==> keys[j] != keys[i]
    ensures keys[i] in Dropping(m, keys[..i])
    ensures Amend(Dropping(m, keys[..i]), keys[i], None) == Dropping(m, keys[..next])
  {
    DroppingLookup(m, keys[..i], keys[i]);
    assert keys[..next][..i] == keys[..i];
  }

  lemma DroppingIsSwept(m: Contents, keys: seq<Bytes>, now: nat)
    requires forall k :: k in keys <==> Expired(m, k, now)
    ensures Dropping(m, keys) == Swept(m, now)
  {
    forall k ensures Lookup(Dropping(m, keys), k) == Lookup(Swept(m, now), k) {
      DroppingLookup(m, keys, k);
    }
    SameLookups(Dropping(m, keys), Swept(m, now));
  }

  method CollectExpired(items: seq<(Bytes, Entry)>, ghost m: Contents, now: nat) returns (expired: seq<Bytes>)
    requires Enumerates(items, m)
    ensures forall k :: k in expired <==> Expired(m, k, now)
    ensures forall i, j :: 0 <= i < j < |expired| ==> expired[i] != expired[j]
  {
    expired := [];
    var i := 0;
    while i < |items|
      invariant 0 <= i <= |items|
      invariant forall k :: k in expired ==> Expired(m, k, now)
      invariant forall j :: 0 <= j < |expired| ==> exists l :: 0 <= l < i && items[l].0 == expired[j]
      invariant forall j :: 0 <= j < i && !Unexpired(items[j].1.expiresAt, now) ==> items[j].0 in expired
      invariant forall i, j :: 0 <= i < j < |expired| ==> expired[i] != expired[j]
    {
      if !Unexpired(items[i].1.expiresAt, now) {
        expired := expired + [items[i].0];
      }
      i := i + 1;
    }
    forall k | Expired(m, k, now) ensures k in expired {
      assert (k, m[k]) in items;
    }
  }

  method CollectEligible(items: seq<(Bytes, Entry)>, ghost m: Contents, policy: Policy, protected: set<Bytes>)
    returns (eligible: seq<(Bytes, Entry)>)
    requires Enumerates(items, m)
    ensures forall i :: 0 <= i < |eligible| ==>
      eligible[i].0 in m && m[eligible[i].0] == eligible[i].1 && Eligible(policy, protected, eligible[i].0, eligible[i].1)
    ensures forall k :: k in m && Eligible(policy, protected, k, m[k]) ==> (k, m[k]) in eligible
  {
    eligible := [];
    var i := 0;
    while i < |items|
      invariant 0 <= i <= |items|
      invariant forall j :: 0 <= j < |eligible| ==>
        eligible[j].0 in m && m[eligible[j].0] == eligible[j].1 && Eligible(policy, protected, eligible[j].0, eligible[j].1)
      invariant forall j :: 0 <= j < i && Eligible(policy, protected, items[j].0, items[j].1) ==> items[j] in eligible
    {
      if Eligible(policy, protected, items[i].0, items[i].1) {
        eligible := eligible + [items[i]];
      }
      i := i + 1;
    }
    forall k | k in m && Eligible(policy, protected, k, m[k]) ensures (k, m[k]) in eligible {
      assert (k, m[k]) in items;
      var j :| 0 <= j < |items| && items[j] == (k, m[k]);
      assert items[j] in eligible;
    }
  }

  /** An entry counts until its expiry is reached, and then the slot is empty. */
  lemma LiveIff(slot: Option<Entry>, now: nat)
    ensures Live(slot, now) == slot || Live(slot, now) == None
    ensures Live(slot, now).Some? <==> slot.Some? && (slot.value.expiresAt == None || (slot.value.expiresAt.Some? && now < slot.value.expiresAt.value))
  {
  }

  /** An expiry may change when the entry is live and has one, has none, or either,
      as demanded; a deadline that has passed deletes, and nothing else changes. */
  lemma ReexpiredIs(e: Entry, timestamp: Word64, requireExpiry: Option<bool>, now: nat)
    requires e.expiresAt.None? || now < e.expiresAt.value
    ensures ExpiryAllowed(Some(e), requireExpiry, now) <==>
      requireExpiry == None || (requireExpiry == Some(true) && e.expiresAt != None) || (requireExpiry == Some(false) && e.expiresAt == None)
    ensures !ExpiryAllowed(None, requireExpiry, now) && Reexpired(None, timestamp, requireExpiry, now) == None
    ensures Reexpired(Some(e), timestamp, requireExpiry, now) ==
      if !ExpiryAllowed(Some(e), requireExpiry, now) then Some(e)
      else if timestamp <= now then None
      else Some(Entry(e.value, Some(timestamp), e.createdAt, e.lastAccessed))
  {
  }

  /** An update sees the value of a live entry and keeps its expiry and creation. */
  lemma UpdatedIs(e: Entry, f: Value -> Update, now: nat)
    requires e.expiresAt.None? || now < e.expiresAt.value
    ensures f(e.value) == Drop ==> Updated(Some(e), f, now) == None
    ensures f(e.value) != Drop ==> Updated(Some(e), f, now) == Some(Entry(f(e.value).value, e.expiresAt, e.createdAt, now))
    ensures Updated(None, f, now) == None
  {
  }
}
