/** The engine's contents as admission and eviction see them: whole entries, with
their access times, up to expired ones that have not been swept yet. */
module Datasets {
  import opened Model
  import opened Effects
  import opened Shards
  import opened ShardObject

  /** The live entry of a key. */
  function At(m: Contents, key: Bytes, now: nat): Option<Entry> { Live(Lookup(m, key), now) }

  /** Entry for entry the same live dataset. */
  ghost predicate SameLive(a: Contents, b: Contents, now: nat) {
    forall k :: At(a, k, now) == At(b, k, now)
  }

  lemma SweptAt(m: Contents, key: Bytes, now: nat)
    ensures Lookup(Swept(m, now), key) == At(m, key, now) && At(Swept(m, now), key, now) == At(m, key, now)
    ensures Lookup(Visible(m, now), key) == PersistOption(At(m, key, now))
  {
  }

  lemma AtLater(m: Contents, key: Bytes, earlier: nat, later: nat)
    requires earlier <= later
    ensures At(m, key, later) == Live(At(m, key, earlier), later)
  {
  }

  lemma SameLiveIff(a: Contents, b: Contents, now: nat)
    ensures SameLive(a, b, now) <==> Swept(a, now) == Swept(b, now)
  {
    if SameLive(a, b, now) {
      forall k ensures Lookup(Swept(a, now), k) == Lookup(Swept(b, now), k) {
        SweptAt(a, k, now);
        SweptAt(b, k, now);
      }
      SameLookups(Swept(a, now), Swept(b, now));
    } else {
      var k :| At(a, k, now) != At(b, k, now);
      SweptAt(a, k, now);
      SweptAt(b, k, now);
    }
  }

  lemma SameLiveLater(a: Contents, b: Contents, earlier: nat, later: nat)
    requires earlier <= later && SameLive(a, b, earlier)
    ensures SameLive(a, b, later) && Swept(a, later) == Swept(b, later) && Visible(a, later) == Visible(b, later)
  {
    forall k ensures At(a, k, later) == At(b, k, later) {
      AtLater(a, k, earlier, later);
      AtLater(b, k, earlier, later);
    }
    SameLiveIff(a, b, later);
    SameVisible(a, b, later);
  }

  lemma SameVisible(a: Contents, b: Contents, now: nat)
    requires SameLive(a, b, now)
    ensures Visible(a, now) == Visible(b, now)
  {
    forall k ensures Lookup(Visible(a, now), k) == Lookup(Visible(b, now), k) {
      SweptAt(a, k, now);
      SweptAt(b, k, now);
    }
    SameLookups(Visible(a, now), Visible(b, now));
  }

  lemma SweptSame(m: Contents, now: nat)
    ensures SameLive(m, Swept(m, now), now)
  {
  }

  lemma PeekedSame(m: Contents, key: Bytes, now: nat)
    ensures SameLive(Amend(m, key, At(m, key, now)), m, now)
  {
  }

  // ---- Reading ----

  function TouchedAll(m: Contents, keys: seq<Bytes>, now: nat): Contents {
    if keys == [] then m
    else
      var front, key := TouchedAll(m, keys[..|keys| - 1], now), keys[|keys| - 1];
      Amend(front, key, Touched(Lookup(front, key), now))
  }

  lemma TouchedNext(m: Contents, keys: seq<Bytes>, i: nat, now: nat)
    requires i < |keys|
    ensures var front := TouchedAll(m, keys[..i], now);
      TouchedAll(m, keys[..i + 1], now) == Amend(front, keys[i], Touched(Lookup(front, keys[i]), now))
  {
    assert keys[..i + 1][..i] == keys[..i];
  }

  lemma {:induction false} TouchedVisible(m: Contents, keys: seq<Bytes>, now: nat)
    ensures Visible(TouchedAll(m, keys, now), now) == Visible(m, now)
  {
    if keys != [] {
      TouchedVisible(m, keys[..|keys| - 1], now);
    }
  }

  /** The live entries of the given keys. */
  function Entries(m: Contents, keys: seq<Bytes>, now: nat): map<Bytes, Option<Entry>> {
    map k | k in keys :: At(m, k, now)
  }

  lemma EntriesNext(m: Contents, keys: seq<Bytes>, i: nat, now: nat)
    requires i < |keys|
    ensures Entries(m, keys[..i + 1], now) == Entries(m, keys[..i], now)[keys[i] := At(m, keys[i], now)]
  {
    assert keys[..i + 1] == keys[..i] + [keys[i]];
  }

  lemma EntriesCapture(m: Contents, keys: seq<Bytes>, now: nat)
    ensures Captures(Entries(m, keys, now), keys, Visible(m, now))
  {
    forall k | k in keys ensures PersistOption(At(m, k, now)) == Lookup(Visible(m, now), k) {
      SweptAt(m, k, now);
    }
  }

  // ---- Writing ----

  /** One key holds the slot, if that is live; the others are as they were. */
  ghost predicate SlotSet(start: Contents, key: Bytes, slot: Option<Entry>, m: Contents, now: nat) {
    forall k :: At(m, k, now) == if k == key then Live(slot, now) else At(start, k, now)
  }

  /** The given slots are put back over `start`. */
  ghost predicate Undone(start: Contents, before: map<Bytes, Option<Entry>>, m: Contents, now: nat) {
    forall k :: At(m, k, now) == if k in before then Live(before[k], now) else At(start, k, now)
  }

  lemma UndoneLater(start: Contents, before: map<Bytes, Option<Entry>>, m: Contents, earlier: nat, later: nat)
    requires earlier <= later && Undone(start, before, m, earlier)
    ensures Undone(start, before, m, later)
  {
    forall k ensures At(m, k, later) == if k in before then Live(before[k], later) else At(start, k, later) {
      AtLater(m, k, earlier, later);
      AtLater(start, k, earlier, later);
    }
  }

  /** The victims are gone, the others are as they were. */
  ghost predicate Removed(start: Contents, evicted: seq<(Bytes, Entry)>, m: Contents, now: nat) {
    forall k :: At(m, k, now) == if k in EvictedKeys(evicted) then None else At(start, k, now)
  }

  lemma RemovedLater(start: Contents, evicted: seq<(Bytes, Entry)>, m: Contents, earlier: nat, later: nat)
    requires earlier <= later && Removed(start, evicted, m, earlier)
    ensures Removed(start, evicted, m, later)
  {
    forall k ensures At(m, k, later) == if k in EvictedKeys(evicted) then None else At(start, k, later) {
      AtLater(m, k, earlier, later);
      AtLater(start, k, earlier, later);
    }
  }

  lemma RemovedNone(start: Contents, m: Contents, now: nat)
    requires SameLive(start, m, now)
    ensures Removed(start, [], m, now)
  {
  }

  lemma RemovedIsDropping(start: Contents, evicted: seq<(Bytes, Entry)>, m: Contents, now: nat)
    ensures Removed(start, evicted, m, now) <==> SameLive(m, Dropping(start, EvictedKeys(evicted)), now)
  {
    var keys := EvictedKeys(evicted);
    forall k ensures At(Dropping(start, keys), k, now) == if k in keys then None else At(start, k, now) {
      DroppingLookup(start, keys, k);
    }
  }

  /** The last entry remembered for each uncaptured victim is put back. */
  ghost predicate VictimsBack(start: Contents, evicted: seq<(Bytes, Entry)>, captured: set<Bytes>, m: Contents, now: nat) {
    forall k :: At(m, k, now) == VictimSlot(start, evicted, captured, k, now)
  }

  function VictimSlot(start: Contents, evicted: seq<(Bytes, Entry)>, captured: set<Bytes>, key: Bytes, now: nat): Option<Entry> {
    var last := LastEvicted(evicted, key);
    if key !in captured && last.Some? then Live(last, now) else At(start, key, now)
  }

  lemma VictimStep(start: Contents, evicted: seq<(Bytes, Entry)>, i: nat, next: nat, captured: set<Bytes>, m: Contents, m': Contents, now: nat)
    requires next == i + 1 <= |evicted| && VictimsBack(start, evicted[..i], captured, m, now)
    requires if evicted[i].0 in captured then SameLive(m, m', now) else SlotSet(m, evicted[i].0, Some(evicted[i].1), m', now)
    ensures VictimsBack(start, evicted[..next], captured, m', now)
  {
    assert evicted[..next][..i] == evicted[..i];
    forall k ensures At(m', k, now) == VictimSlot(start, evicted[..next], captured, k, now) {
      assert At(m, k, now) == VictimSlot(start, evicted[..i], captured, k, now);
    }
  }

  /** Captured entries are put back, and then the victims. */
  lemma RestoredDataset(start: Contents, reset: Contents, m: Contents, rollback: Rollback, now: nat)
    requires Undone(start, rollback.before, reset, now)
    requires VictimsBack(reset, rollback.evicted, rollback.before.Keys, m, now)
    ensures RestoredBy(Visible(m, now), Visible(start, now), rollback, now)
    ensures rollback.evicted == [] ==> Undone(start, rollback.before, m, now)
  {
    forall k ensures Lookup(Visible(m, now), k) == AliveOption(RestoredEntry(rollback, k, Lookup(Visible(start, now), k)), now) {
      assert At(m, k, now) == VictimSlot(reset, rollback.evicted, rollback.before.Keys, k, now);
      SweptAt(m, k, now);
      SweptAt(start, k, now);
    }
  }
}
