/** Deriving the committed effects of a mutation, and undoing it.

`Derive` is the canonical batch of a mutation; `Restored` is what a rollback
puts back. `Journal` is the record that a commit group keeps of its tentative
mutations: it replays forwards to the new state and backwards to the old one.
*/
module Effects {
  import opened Model

  function Flatten(before: map<Bytes, Option<Entry>>, key: Bytes): Option<Entry> {
    if key in before then before[key] else None
  }

  /** `before` holds the entries of exactly `keys`, as they are in `state`. */
  ghost predicate Captures(before: map<Bytes, Option<Entry>>, keys: seq<Bytes>, state: View) {
    && (forall k :: k in before <==> k in keys)
    && (forall k :: k in before ==> PersistOption(before[k]) == Lookup(state, k))
  }

  function AliveOption(entry: Option<PersistentEntry>, now: nat): Option<PersistentEntry> {
    if entry.Some? && Unexpired(entry.value.expiresAt, now) then entry else None
  }

  // ---- The canonical batch ----

  /** One deletion for each distinct eviction victim, in eviction order. */
  function Evictions(evicted: seq<Bytes>): Batch {
    if evicted == [] then []
    else
      var front := evicted[..|evicted| - 1];
      var key := evicted[|evicted| - 1];
      if key in front then Evictions(front) else Evictions(front) + [Delete(key)]
  }

  function Change(key: Bytes, previous: Option<PersistentEntry>, current: Option<PersistentEntry>, wasEvicted: bool): Batch {
    if previous == current && !wasEvicted then []
    else if current.Some? then [Put(key, current.value)]
    else if !wasEvicted then [Delete(key)]
    else []
  }

  function Changes(keys: seq<Bytes>, before: map<Bytes, Option<Entry>>, evicted: seq<Bytes>, current: View): Batch {
    if keys == [] then []
    else
      var key := keys[|keys| - 1];
      Changes(keys[..|keys| - 1], before, evicted, current)
      + Change(key, PersistOption(Flatten(before, key)), Lookup(current, key), key in evicted)
  }

  function Derive(keys: seq<Bytes>, before: map<Bytes, Option<Entry>>, evicted: seq<Bytes>, current: View): Batch {
    Evictions(evicted) + Changes(keys, before, evicted, current)
  }

  lemma ChangesStep(keys: seq<Bytes>, i: nat, before: map<Bytes, Option<Entry>>, evicted: seq<Bytes>, current: View)
    requires i < |keys|
    ensures Changes(keys[..i + 1], before, evicted, current)
         == Changes(keys[..i], before, evicted, current)
          + Change(keys[i], PersistOption(Flatten(before, keys[i])), Lookup(current, keys[i]), keys[i] in evicted)
  {
    assert keys[..i + 1][..i] == keys[..i];
  }

  lemma {:induction false} EvictionsDelete(v: View, evicted: seq<Bytes>, key: Bytes)
    ensures Lookup(ApplyBatch(v, Evictions(evicted)), key) == if key in evicted then None else Lookup(v, key)
  {
    if evicted != [] {
      var front := evicted[..|evicted| - 1];
      EvictionsDelete(v, front, key);
      assert evicted == front + [evicted[|evicted| - 1]];
      if evicted[|evicted| - 1] !in front {
        var batch := Evictions(evicted);
        assert batch[..|batch| - 1] == Evictions(front);
      }
    }
  }

  lemma {:induction false} ChangesInstall(v: View, keys: seq<Bytes>, before: map<Bytes, Option<Entry>>,
                                          evicted: seq<Bytes>, current: View, key: Bytes)
    requires forall k :: k in keys && k in evicted ==> k !in v
    requires forall k :: k in keys && k !in evicted ==> PersistOption(Flatten(before, k)) == Lookup(v, k)
    ensures Lookup(ApplyBatch(v, Changes(keys, before, evicted, current)), key)
         == if key in keys then Lookup(current, key) else Lookup(v, key)
  {
    if keys != [] {
      var front, last := keys[..|keys| - 1], keys[|keys| - 1];
      assert keys == front + [last];
      ChangesInstall(v, front, before, evicted, current, key);
      ChangesInstall(v, front, before, evicted, current, last);
      var previous, changes := PersistOption(Flatten(before, last)), Changes(front, before, evicted, current);
      ApplyBatchConcat(v, changes, Change(last, previous, Lookup(current, last), last in evicted));
      ChangeInstalls(ApplyBatch(v, changes), last, previous, Lookup(current, last), last in evicted, key);
    }
  }

  /** One change sets its key, which is absent if it was evicted, holds the previous
      entry, or was set before. */
  lemma ChangeInstalls(v: View, key: Bytes, previous: Option<PersistentEntry>, current: Option<PersistentEntry>, wasEvicted: bool, k: Bytes)
    requires Lookup(v, key) == current || Lookup(v, key) == if wasEvicted then None else previous
    ensures Lookup(ApplyBatch(v, Change(key, previous, current, wasEvicted)), k) == if k == key then current else Lookup(v, k)
  {
    var change := Change(key, previous, current, wasEvicted);
    if change != [] {
      assert change[..|change| - 1] == [];
    }
  }

  /** Replaying the derived batch on the state before the mutation gives the
      state after it, at the instant `now` at which the batch was derived.
      Only changed keys have to be named, and a victim outside them stays gone. */
  lemma DeriveReplaysMutation(start: View, after: View, keys: seq<Bytes>, before: map<Bytes, Option<Entry>>,
                              evicted: seq<Bytes>, now: nat)
    requires forall k :: k in keys ==> PersistOption(Flatten(before, k)) == Lookup(start, k)
    requires forall k :: k !in keys && k !in evicted ==> Lookup(Alive(start, now), k) == Lookup(after, k)
    requires forall k :: k in evicted && k !in keys ==> k !in after
    requires Alive(after, now) == after
    ensures Alive(ApplyBatch(start, Derive(keys, before, evicted, after)), now) == after
  {
    var cleared := ApplyBatch(start, Evictions(evicted));
    ApplyBatchConcat(start, Evictions(evicted), Changes(keys, before, evicted, after));
    var replayed := ApplyBatch(start, Derive(keys, before, evicted, after));
    forall k ensures Lookup(cleared, k) == if k in evicted then None else Lookup(start, k) {
      EvictionsDelete(start, evicted, k);
    }
    forall k | k in keys && k in evicted ensures k !in cleared {
      assert Lookup(cleared, k) == None;
    }
    forall k ensures Lookup(Alive(replayed, now), k) == Lookup(after, k) {
      ChangesInstall(cleared, keys, before, evicted, after, k);
      assert Lookup(Alive(after, now), k) == Lookup(after, k);
      assert Lookup(Alive(start, now), k) == AliveOption(Lookup(start, k), now);
      assert Lookup(Alive(replayed, now), k) == AliveOption(Lookup(replayed, k), now);
    }
    SameLookups(Alive(replayed, now), after);
  }

  /** A missing batch means exactly that nothing persistent changed. */
  lemma {:induction false} DeriveEmptyIffUnchanged(keys: seq<Bytes>, before: map<Bytes, Option<Entry>>,
                                                   evicted: seq<Bytes>, current: View)
    ensures Derive(keys, before, evicted, current) == []
       <==> evicted == [] && forall k :: k in keys ==> PersistOption(Flatten(before, k)) == Lookup(current, k)
  {
    EvictionsEmptyIff(evicted);
    if evicted == [] {
      ChangesEmptyIff(keys, before, current);
    }
  }

  lemma {:induction false} EvictionsEmptyIff(evicted: seq<Bytes>)
    ensures Evictions(evicted) == [] <==> evicted == []
  {
    if evicted != [] {
      EvictionsEmptyIff(evicted[..|evicted| - 1]);
    }
  }

  lemma {:induction false} ChangesEmptyIff(keys: seq<Bytes>, before: map<Bytes, Option<Entry>>, current: View)
    ensures Changes(keys, before, [], current) == []
       <==> forall k :: k in keys ==> PersistOption(Flatten(before, k)) == Lookup(current, k)
  {
    if keys != [] {
      var front, last := keys[..|keys| - 1], keys[|keys| - 1];
      assert keys == front + [last];
      ChangesEmptyIff(front, before, current);
    }
  }

  /** Whatever was live when a batch was derived can be encoded: an expiry of
      zero, which the wire format reserves for "none", never occurs. */
  lemma {:induction false} DerivedExpiryIsNeverZero(keys: seq<Bytes>, before: map<Bytes, Option<Entry>>,
                                                    evicted: seq<Bytes>, current: View, now: nat)
    requires Alive(current, now) == current
    ensures ExpiriesSafe(Derive(keys, before, evicted, current))
  {
    EvictionsAreDeletes(evicted);
    ChangesAreAlive(keys, before, evicted, current, now);
    var batch := Derive(keys, before, evicted, current);
    forall i | 0 <= i < |batch| ensures ExpirySafe(batch[i]) {
      assert batch[i] in Evictions(evicted) || batch[i] in Changes(keys, before, evicted, current);
    }
  }

  lemma {:induction false} EvictionsAreDeletes(evicted: seq<Bytes>)
    ensures forall e :: e in Evictions(evicted) ==> e.Delete?
  {
    if evicted != [] {
      EvictionsAreDeletes(evicted[..|evicted| - 1]);
    }
  }

  lemma {:induction false} ChangesAreAlive(keys: seq<Bytes>, before: map<Bytes, Option<Entry>>,
                                           evicted: seq<Bytes>, current: View, now: nat)
    requires Alive(current, now) == current
    ensures forall e :: e in Changes(keys, before, evicted, current) && e.Put? ==> Unexpired(e.entry.expiresAt, now)
  {
    if keys != [] {
      ChangesAreAlive(keys[..|keys| - 1], before, evicted, current, now);
      var last := keys[|keys| - 1];
      assert Lookup(Alive(current, now), last) == Lookup(current, last);
    }
  }

  /** The change seen in `held` is gone at `later`: every key that had not changed
      is still as it was, and every key that had changed was absent before and has
      expired since. */
  predicate Vanished(keys: seq<Bytes>, before: map<Bytes, Option<Entry>>, held: View, later: nat) {
    forall k :: k in keys ==> KeyVanished(PersistOption(Flatten(before, k)), Lookup(held, k), later)
  }

  predicate KeyVanished(was: Option<PersistentEntry>, is_: Option<PersistentEntry>, later: nat) {
    if was == is_ then is_.None? || Unexpired(is_.value.expiresAt, later)
    else was.None? && !Unexpired(is_.value.expiresAt, later)
  }

  /** Without victims, a later derivation finds nothing exactly when the change has
      vanished by then. */
  lemma DeriveLaterEmptyIff(keys: seq<Bytes>, before: map<Bytes, Option<Entry>>, held: View, later: nat)
    ensures Derive(keys, before, [], Alive(held, later)) == [] <==> Vanished(keys, before, held, later)
  {
    DeriveEmptyIffUnchanged(keys, before, [], Alive(held, later));
    forall k ensures PersistOption(Flatten(before, k)) == Lookup(Alive(held, later), k)
                <==> KeyVanished(PersistOption(Flatten(before, k)), Lookup(held, k), later)
    {
      LookupAlive(held, k, later);
    }
  }

  /** The branch "derivation became empty after admission" is reachable once the
      clock moves between the two derivations: a key stored at 5 with expiry 6
      is a change when it is first derived and no change a second later. */
  lemma DerivationCanBecomeEmpty(key: Bytes, value: Value)
    ensures
      var contents := map[key := Entry(value, Some(6), 5, 5)];
      var before: map<Bytes, Option<Entry>> := map[key := None];
      && Derive([key], before, [], Visible(contents, 5)) != []
      && Derive([key], before, [], Visible(contents, 6)) == []
  {
    var contents := map[key := Entry(value, Some(6), 5, 5)];
    var before: map<Bytes, Option<Entry>> := map[key := None];
    DeriveEmptyIffUnchanged([key], before, [], Visible(contents, 5));
    DeriveEmptyIffUnchanged([key], before, [], Visible(contents, 6));
    assert key in [key];
  }

  // ---- Rollback ----

  datatype Rollback = Rollback(before: map<Bytes, Option<Entry>>, evicted: seq<(Bytes, Entry)>)

  function EvictedKeys(evicted: seq<(Bytes, Entry)>): (keys: seq<Bytes>)
    ensures |keys| == |evicted|
    ensures forall i :: 0 <= i < |evicted| ==> keys[i] == evicted[i].0
  {
    seq(|evicted|, i requires 0 <= i < |evicted| => evicted[i].0)
  }

  /** The entry last recorded for a victim. */
  function LastEvicted(evicted: seq<(Bytes, Entry)>, key: Bytes): (r: Option<Entry>)
    ensures r.Some? <==> exists i :: 0 <= i < |evicted| && evicted[i].0 == key
    ensures r.Some? ==> (key, r.value) in evicted
  {
    if evicted == [] then None
    else if evicted[|evicted| - 1].0 == key then Some(evicted[|evicted| - 1].1)
    else
      var front := evicted[..|evicted| - 1];
      assert evicted == front + [evicted[|evicted| - 1]];
      LastEvicted(front, key)
  }

  /** What a key holds after the rollback has been restored over `held`. */
  function RestoredEntry(rollback: Rollback, key: Bytes, held: Option<PersistentEntry>): Option<PersistentEntry> {
    if key in rollback.before then PersistOption(rollback.before[key])
    else if LastEvicted(rollback.evicted, key).Some? then Some(Persist(LastEvicted(rollback.evicted, key).value))
    else held
  }

  /** `v` is what restoring the rollback over `held` leaves live. */
  ghost predicate RestoredBy(v: View, held: View, rollback: Rollback, now: nat) {
    forall k :: Lookup(v, k) == AliveOption(RestoredEntry(rollback, k, Lookup(held, k)), now)
  }

  /** The rollback remembers `start` wherever `after` may differ from it. */
  ghost predicate Reverts(rollback: Rollback, start: View, after: View, now: nat) {
    && (forall k :: k in rollback.before ==>
          AliveOption(PersistOption(rollback.before[k]), now) == Lookup(Alive(start, now), k))
    && (forall i :: 0 <= i < |rollback.evicted| && rollback.evicted[i].0 !in rollback.before ==>
          AliveOption(Some(Persist(rollback.evicted[i].1)), now) == Lookup(Alive(start, now), rollback.evicted[i].0))
    && (forall k :: k !in rollback.before && LastEvicted(rollback.evicted, k).None? ==>
          Lookup(Alive(start, now), k) == Lookup(Alive(after, now), k))
  }

  lemma AliveOptionLater(entry: Option<PersistentEntry>, earlier: nat, later: nat)
    requires earlier <= later
    ensures AliveOption(AliveOption(entry, earlier), later) == AliveOption(entry, later)
  {
  }

  lemma LookupAlive(v: View, key: Bytes, now: nat)
    ensures Lookup(Alive(v, now), key) == AliveOption(Lookup(v, key), now)
  {
  }

  lemma RevertsLater(rollback: Rollback, start: View, after: View, earlier: nat, later: nat)
    requires earlier <= later
    requires Reverts(rollback, start, after, earlier)
    ensures Reverts(rollback, start, after, later)
  {
    forall v, k ensures AliveOption(Lookup(Alive(v, earlier), k), later) == Lookup(Alive(v, later), k) {
      LookupAlive(v, k, earlier);
      LookupAlive(v, k, later);
    }
    forall k | k in rollback.before
      ensures AliveOption(PersistOption(rollback.before[k]), later) == Lookup(Alive(start, later), k)
    {
      assert AliveOption(Lookup(Alive(start, earlier), k), later) == Lookup(Alive(start, later), k);
      AliveOptionLater(PersistOption(rollback.before[k]), earlier, later);
    }
    forall i | 0 <= i < |rollback.evicted| && rollback.evicted[i].0 !in rollback.before
      ensures AliveOption(Some(Persist(rollback.evicted[i].1)), later) == Lookup(Alive(start, later), rollback.evicted[i].0)
    {
      var k := rollback.evicted[i].0;
      assert AliveOption(Lookup(Alive(start, earlier), k), later) == Lookup(Alive(start, later), k);
      AliveOptionLater(Some(Persist(rollback.evicted[i].1)), earlier, later);
    }
    forall k | k !in rollback.before && LastEvicted(rollback.evicted, k).None?
      ensures Lookup(Alive(start, later), k) == Lookup(Alive(after, later), k)
    {
      assert AliveOption(Lookup(Alive(start, earlier), k), later) == Lookup(Alive(start, later), k);
      assert AliveOption(Lookup(Alive(after, earlier), k), later) == Lookup(Alive(after, later), k);
    }
  }

  /** Restoring over the after-state gives back the start-state. */
  lemma RestoreReverts(rollback: Rollback, start: View, after: View, restored: View, now: nat)
    requires Reverts(rollback, start, after, now)
    requires RestoredBy(restored, Alive(after, now), rollback, now)
    ensures restored == Alive(start, now)
  {
    forall k ensures Lookup(restored, k) == Lookup(Alive(start, now), k) {
      assert Lookup(restored, k) == AliveOption(RestoredEntry(rollback, k, Lookup(Alive(after, now), k)), now);
      if k !in rollback.before {
        if LastEvicted(rollback.evicted, k).Some? {
          var i :| 0 <= i < |rollback.evicted| && rollback.evicted[i] == (k, LastEvicted(rollback.evicted, k).value);
          assert rollback.evicted[i].0 == k;
        } else {
          LookupAlive(after, k, now);
        }
      }
    }
    SameLookups(restored, Alive(start, now));
  }

  // ---- The journal of a group ----

  /** `states` are the persistent states between consecutive mutations; batch i
      takes states[i] to states[i + 1] and rollback i takes it back. */
  ghost predicate Journal(batches: seq<Batch>, rollbacks: seq<Rollback>, states: seq<View>, now: nat) {
    && |rollbacks| == |batches|
    && |states| == |batches| + 1
    && (forall i :: 0 <= i < |batches| ==> StepHolds(batches[i], rollbacks[i], states[i], states[i + 1], now))
  }

  ghost predicate StepHolds(batch: Batch, rollback: Rollback, start: View, after: View, now: nat) {
    && batch != [] && ExpiriesSafe(batch)
    && Alive(ApplyBatch(start, batch), now) == Alive(after, now)
    && Reverts(rollback, start, after, now)
  }

  lemma StepHoldsLater(batch: Batch, rollback: Rollback, start: View, after: View, earlier: nat, later: nat)
    requires earlier <= later
    requires StepHolds(batch, rollback, start, after, earlier)
    ensures StepHolds(batch, rollback, start, after, later)
  {
    SameAliveLater(ApplyBatch(start, batch), after, earlier, later);
    RevertsLater(rollback, start, after, earlier, later);
  }

  lemma JournalLater(batches: seq<Batch>, rollbacks: seq<Rollback>, states: seq<View>, earlier: nat, later: nat)
    requires earlier <= later
    requires Journal(batches, rollbacks, states, earlier)
    ensures Journal(batches, rollbacks, states, later)
  {
    forall i | 0 <= i < |batches| ensures StepHolds(batches[i], rollbacks[i], states[i], states[i + 1], later) {
      StepHoldsLater(batches[i], rollbacks[i], states[i], states[i + 1], earlier, later);
    }
  }

  /** Only the live part of a boundary state matters. */
  lemma StepHoldsFrom(batch: Batch, rollback: Rollback, start: View, start': View, after: View, now: nat)
    requires StepHolds(batch, rollback, start, after, now)
    requires Alive(start, now) == Alive(start', now)
    ensures StepHolds(batch, rollback, start', after, now)
  {
    ApplyBatchAlive(start, start', batch, now);
  }

  lemma JournalConcat(b1: seq<Batch>, r1: seq<Rollback>, s1: seq<View>,
                      b2: seq<Batch>, r2: seq<Rollback>, s2: seq<View>, now: nat)
    requires Journal(b1, r1, s1, now) && Journal(b2, r2, s2, now)
    requires Alive(s1[|s1| - 1], now) == Alive(s2[0], now)
    ensures Journal(b1 + b2, r1 + r2, s1 + s2[1..], now)
  {
    var b, r, s := b1 + b2, r1 + r2, s1 + s2[1..];
    forall i | 0 <= i < |b| ensures StepHolds(b[i], r[i], s[i], s[i + 1], now) {
      if i < |b1| {
        assert StepHolds(b1[i], r1[i], s1[i], s1[i + 1], now);
      } else if i == |b1| {
        assert StepHolds(b2[0], r2[0], s2[0], s2[1], now);
        StepHoldsFrom(b2[0], r2[0], s2[0], s1[|s1| - 1], s2[1], now);
      } else {
        assert StepHolds(b2[i - |b1|], r2[i - |b1|], s2[i - |b1|], s2[i - |b1| + 1], now);
      }
    }
  }

  /** Forwards: the batches of a journal fold its first state into its last. */
  lemma {:induction false} JournalReplays(batches: seq<Batch>, rollbacks: seq<Rollback>, states: seq<View>, now: nat)
    requires Journal(batches, rollbacks, states, now)
    ensures Alive(ApplyAll(states[0], batches), now) == Alive(states[|batches|], now)
  {
    if batches != [] {
      var n := |batches| - 1;
      assert Journal(batches[..n], rollbacks[..n], states[..n + 1], now) by {
        forall i | 0 <= i < n ensures StepHolds(batches[..n][i], rollbacks[..n][i], states[..n + 1][i], states[..n + 1][i + 1], now) {
          assert StepHolds(batches[i], rollbacks[i], states[i], states[i + 1], now);
        }
      }
      JournalReplays(batches[..n], rollbacks[..n], states[..n + 1], now);
      assert StepHolds(batches[n], rollbacks[n], states[n], states[n + 1], now);
      ApplyBatchAlive(ApplyAll(states[0], batches[..n]), states[n], batches[n], now);
    }
  }

  // ---- The contents and the order of the canonical batch ----

  lemma {:induction false} EvictionsIff(evicted: seq<Bytes>, effect: Effect)
    ensures effect in Evictions(evicted) <==> effect.Delete? && effect.key in evicted
  {
    if evicted != [] {
      var front, key := evicted[..|evicted| - 1], evicted[|evicted| - 1];
      assert evicted == front + [key];
      EvictionsIff(front, effect);
    }
  }

  lemma {:induction false} ChangesIff(keys: seq<Bytes>, before: map<Bytes, Option<Entry>>, evicted: seq<Bytes>, current: View, effect: Effect)
    ensures effect in Changes(keys, before, evicted, current) <==>
      && effect.key in keys
      && effect in Change(effect.key, PersistOption(Flatten(before, effect.key)), Lookup(current, effect.key), effect.key in evicted)
  {
    if keys != [] {
      var front, key := keys[..|keys| - 1], keys[|keys| - 1];
      assert keys == front + [key];
      ChangesIff(front, before, evicted, current, effect);
    }
  }

  /** The batch holds exactly these effects: the entry that a named key now has, if
      it was evicted or had another before; and the deletion of every victim and of
      every named key that is gone. */
  lemma DeriveIff(keys: seq<Bytes>, before: map<Bytes, Option<Entry>>, evicted: seq<Bytes>, current: View, key: Bytes, entry: PersistentEntry)
    requires forall k :: k in keys ==> k in before
    ensures Put(key, entry) in Derive(keys, before, evicted, current) <==>
      && key in keys && key in current && current[key] == entry
      && (key in evicted || before[key] == None || PersistentEntry(before[key].value.value, before[key].value.expiresAt) != entry)
    ensures Delete(key) in Derive(keys, before, evicted, current) <==>
      key in evicted || (key in keys && key !in current && before[key] != None)
  {
    EvictionsIff(evicted, Put(key, entry));
    EvictionsIff(evicted, Delete(key));
    ChangesIff(keys, before, evicted, current, Put(key, entry));
    ChangesIff(keys, before, evicted, current, Delete(key));
  }

  /** The victims come first, in eviction order, each once; then the keys in the
      given order, so that naming more keys only extends the batch. */
  lemma {:induction false} DeriveInOrder(keys: seq<Bytes>, more: seq<Bytes>, before: map<Bytes, Option<Entry>>, evicted: seq<Bytes>, current: View)
    ensures Derive(keys, before, evicted, current) <= Derive(keys + more, before, evicted, current)
    ensures (forall i, j :: 0 <= i < j < |evicted| ==> evicted[i] != evicted[j]) ==>
      && |evicted| <= |Derive(keys, before, evicted, current)|
      && forall i :: 0 <= i < |evicted| ==> Derive(keys, before, evicted, current)[i] == Delete(evicted[i])
  {
    if more == [] {
      assert keys + more == keys;
      DistinctEvictions(evicted);
    } else {
      var n := |more| - 1;
      DeriveInOrder(keys, more[..n], before, evicted, current);
      var all := keys + more;
      assert all[..|all| - 1] == keys + more[..n];
    }
  }

  lemma {:induction false} DistinctEvictions(evicted: seq<Bytes>)
    ensures (forall i, j :: 0 <= i < j < |evicted| ==> evicted[i] != evicted[j]) ==>
      |Evictions(evicted)| == |evicted| && forall i :: 0 <= i < |evicted| ==> Evictions(evicted)[i] == Delete(evicted[i])
  {
    if evicted != [] {
      DistinctEvictions(evicted[..|evicted| - 1]);
    }
  }

  lemma DeriveOne(key: Bytes, before: map<Bytes, Option<Entry>>, evicted: seq<Bytes>, current: View)
    ensures Derive([key], before, evicted, current)
         == Evictions(evicted) + Change(key, PersistOption(Flatten(before, key)), Lookup(current, key), key in evicted)
  {
    ChangesStep([key], 0, before, evicted, current);
    assert [key][..0] == [] && [key][..1] == [key];
  }
}
