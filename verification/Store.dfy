/** The typed store over the engine: tentative mutations, admission and rollback. */
module StoreObject {
  import opened Model
  import opened Effects
  import opened Shards
  import opened ShardObject
  import opened EngineObject
  import opened Datasets

  /** The environment: a wall clock that is read once per stage and never runs
      backwards, and the nanosecond counter that random eviction draws from. How
      far the clock moves and what is drawn is up to the environment. */
  class Clock {
    var now: nat
    var ticks: seq<nat>
    var draws: seq<(nat, nat) -> nat>

    constructor (now: nat, ticks: seq<nat>, draws: seq<(nat, nat) -> nat>)
      ensures this.now == now && this.ticks == ticks && this.draws == draws
    {
      this.now := now;
      this.ticks := ticks;
      this.draws := draws;
    }

    method Read() returns (t: nat)
      modifies this
      ensures t == now && old(now) <= now
    {
      if ticks != [] {
        now := now + ticks[0];
        ticks := ticks[1..];
      }
      t := now;
    }

    method Draw() returns (picks: (nat, nat) -> nat)
      modifies this`draws
    {
      picks := (round, shard) => 0;
      if draws != [] {
        picks := draws[0];
        draws := draws[1..];
      }
    }
  }

  // ---- What the engine's slot operations do to the persistent view ----

  lemma VisibleSwept(m: Contents, now: nat)
    ensures Visible(Swept(m, now), now) == Visible(m, now)
    ensures |Swept(m, now)| == |Visible(m, now)|
  {
    assert Swept(m, now).Keys == Visible(m, now).Keys;
  }

  lemma VisibleIsAlive(m: Contents, now: nat)
    ensures Alive(Visible(m, now), now) == Visible(m, now)
  {
  }

  function KeyLimitRequiresExactCount(physicalKeys: nat, possibleNewKeys: nat): bool {
    possibleNewKeys > 0 && physicalKeys + possibleNewKeys > MAX_KEYS
  }

  datatype AdmissionError = KeyLimit | Maxmemory

  /** A command of the data set: the keys it may change, the keys it merely
      reads, and the entry it leaves in each changed key. Everything a typed
      command does is a function of the live entries of its own keys. */
  datatype Command = Command(write: bool, keys: seq<Bytes>, reads_: seq<Bytes>,
                             update: (Bytes, map<Bytes, Option<Entry>>, nat) -> Option<Entry>)
  {
    /** Only write commands have persistent keys. */
    function Affected(): seq<Bytes> {
      if write then keys else []
    }
  }

  /** How the dataset is measured, and what may be removed to keep it within which
      bound. */
  datatype Limits = Limits(sizeOf: Sizer, policy: Policy, maxMemory: nat)

  class Store {
    const engine: Engine
    const clock: Clock
    const maxMemory: nat
    const policy: Policy
    ghost const Repr: set<object>

    ghost predicate Valid()
      reads engine, engine.Repr, engine.shards, engine.total
    {
      && Repr == engine.Repr + {clock}
      && clock !in engine.Repr
      && engine.Valid()
    }

    constructor (engine: Engine, clock: Clock, maxMemory: nat, policy: Policy)
      requires engine.Valid() && clock !in engine.Repr
      ensures Valid() && this.engine == engine && this.clock == clock
      ensures this.maxMemory == maxMemory && this.policy == policy
    {
      this.engine := engine;
      this.clock := clock;
      this.maxMemory := maxMemory;
      this.policy := policy;
      Repr := engine.Repr + {clock};
    }

    ghost function Bounds(): Limits { Limits(engine.sizeOf, policy, maxMemory) }

    /** The persistent state at the last reading of the clock. */
    ghost function State(): View
      reads engine.shards, clock
    {
      Visible(engine.Contents(), clock.now)
    }

    /** What happens elsewhere does not concern the store. */
    twostate lemma Unmoved()
      requires old(Valid()) && unchanged(Repr)
      ensures Valid() && engine.Contents() == old(engine.Contents()) && clock.now == old(clock.now)
    {
    }

    /** Reads the clock. */
    method Now() returns (now: nat)
      requires Valid()
      modifies clock
      ensures Valid() && now == clock.now && old(clock.now) <= now
      ensures engine.Contents() == old(engine.Contents())
    {
      now := clock.Read();
    }

    /** Reads an entry without refreshing its access time. */
    method PeekEntry(key: Bytes, now: nat) returns (entry: Option<Entry>)
      requires Valid() && now == clock.now
      modifies engine.Repr
      ensures Valid() && SameLive(engine.Contents(), old(engine.Contents()), now)
      ensures entry == At(old(engine.Contents()), key, now)
    {
      PeekedSame(engine.Contents(), key, now);
      entry := engine.Peek(key, now);
    }

    /** Captures the live entries of `keys`, each distinct key once. */
    method CaptureEntries(keys: seq<Bytes>, now: nat) returns (before: map<Bytes, Option<Entry>>)
      requires Valid() && now == clock.now
      modifies engine.Repr
      ensures Valid() && SameLive(engine.Contents(), old(engine.Contents()), now)
      ensures before == Entries(old(engine.Contents()), keys, now)
      ensures Captures(before, keys, old(State()))
    {
      before := map[];
      ghost var start := engine.Contents();
      var i := 0;
      while i < |keys|
        invariant 0 <= i <= |keys|
        invariant Valid() && now == clock.now && SameLive(engine.Contents(), start, now)
        invariant before == Entries(start, keys[..i], now)
      {
        EntriesNext(start, keys, i, now);
        var entry := PeekEntry(keys[i], now);
        before := before[keys[i] := entry];
        i := i + 1;
      }
      assert keys[..i] == keys;
      EntriesCapture(start, keys, now);
    }

    /** Puts an entry back exactly, or deletes the key. */
    method InstallSlot(key: Bytes, slot: Option<Entry>, now: nat)
      requires Valid() && now == clock.now
      modifies engine.Repr
      ensures Valid() && SlotSet(old(engine.Contents()), key, slot, engine.Contents(), now)
    {
      match slot {
        case Some(entry) =>
          var _ := engine.ApplyEntry(key, entry, now);
        case None =>
          var _ := engine.Delete(key, now);
      }
    }

    method RestoreBefore(before: map<Bytes, Option<Entry>>, now: nat)
      requires Valid() && now == clock.now
      modifies engine.Repr
      ensures Valid() && Undone(old(engine.Contents()), before, engine.Contents(), now)
    {
      ghost var start := engine.Contents();
      var pending := before.Keys;
      while pending != {}
        invariant Valid() && now == clock.now && pending <= before.Keys
        invariant PartlyUndone(start, before, pending, engine.Contents(), now)
        decreases |pending|
      {
        var key :| key in pending;
        InstallSlot(key, before[key], now);
        pending := Without(pending, key);
      }
    }

    method RestoreEvicted(evicted: seq<(Bytes, Entry)>, before: map<Bytes, Option<Entry>>, now: nat)
      requires Valid() && now == clock.now
      modifies engine.Repr
      ensures Valid() && VictimsBack(old(engine.Contents()), evicted, before.Keys, engine.Contents(), now)
    {
      ghost var start := engine.Contents();
      var i := 0;
      while i < |evicted|
        invariant 0 <= i <= |evicted|
        invariant Valid() && now == clock.now
        invariant VictimsBack(start, evicted[..i], before.Keys, engine.Contents(), now)
      {
        var next := i + 1;
        ghost var m := engine.Contents();
        RestoreVictim(evicted[i].0, evicted[i].1, before, now);
        VictimStep(start, evicted, i, next, before.Keys, m, engine.Contents(), now);
        i := next;
      }
      assert evicted[..i] == evicted;
    }

    method RestoreVictim(key: Bytes, entry: Entry, before: map<Bytes, Option<Entry>>, now: nat)
      requires Valid() && now == clock.now
      modifies engine.Repr
      ensures Valid()
      ensures if key in before then SameLive(old(engine.Contents()), engine.Contents(), now)
              else SlotSet(old(engine.Contents()), key, Some(entry), engine.Contents(), now)
    {
      if key !in before {
        InstallSlot(key, Some(entry), now);
      }
    }

    /** Installs what a rollback remembers: first the captured entries, in any
        order, then the victims that were not captured themselves. */
    method RestoreEntries(rollback: Rollback)
      requires Valid()
      modifies Repr
      ensures Valid() && old(clock.now) <= clock.now
      ensures RestoredBy(State(), Visible(old(engine.Contents()), clock.now), rollback, clock.now)
      ensures rollback.evicted == [] ==> Undone(old(engine.Contents()), rollback.before, engine.Contents(), clock.now)
    {
      ghost var contents := engine.Contents();
      var now := Now();
      RestoreAt(rollback, now);
    }

    method RestoreAt(rollback: Rollback, now: nat)
      requires Valid() && now == clock.now
      modifies engine.Repr
      ensures Valid() && RestoredBy(State(), old(State()), rollback, now)
      ensures rollback.evicted == [] ==> Undone(old(engine.Contents()), rollback.before, engine.Contents(), now)
    {
      ghost var start := engine.Contents();
      RestoreBefore(rollback.before, now);
      ghost var reset := engine.Contents();
      RestoreEvicted(rollback.evicted, rollback.before, now);
      RestoredDataset(start, reset, engine.Contents(), rollback, now);
    }

    /** Executes a command at one instant. */
    method Execute(command: Command)
      requires Valid()
      modifies Repr
      ensures Valid() && old(clock.now) <= clock.now
      ensures Executes(old(engine.Contents()), command, engine.Contents(), clock.now)
    {
      ghost var contents := engine.Contents();
      var now := Now();
      ExecuteAt(command, now);
    }

    method ExecuteAt(command: Command, now: nat)
      requires Valid() && now == clock.now
      modifies engine.Repr
      ensures Valid() && Executes(old(engine.Contents()), command, engine.Contents(), now)
    {
      TouchAll(command.reads_, now);
      ghost var touched := engine.Contents();
      var before := CaptureEntries(command.Affected(), now);
      InstallUpdates(command, before, now);
    }

    method InstallUpdates(command: Command, seen: map<Bytes, Option<Entry>>, now: nat)
      requires Valid() && now == clock.now
      modifies engine.Repr
      ensures Valid() && Stored(old(engine.Contents()), command, command.Affected(), seen, engine.Contents(), now)
    {
      ghost var start := engine.Contents();
      var keys := command.Affected();
      var i := 0;
      while i < |keys|
        invariant 0 <= i <= |keys|
        invariant Valid() && now == clock.now
        invariant Stored(start, command, keys[..i], seen, engine.Contents(), now)
      {
        ghost var m := engine.Contents();
        InstallSlot(keys[i], command.update(keys[i], seen, now), now);
        StoredNext(start, command, keys, i, seen, m, engine.Contents(), now);
        i := i + 1;
      }
      assert keys[..i] == keys;
    }

    method TouchAll(keys: seq<Bytes>, now: nat)
      requires Valid() && now == clock.now
      modifies engine.Repr
      ensures Valid() && engine.Contents() == TouchedAll(old(engine.Contents()), keys, now)
    {
      ghost var start := engine.Contents();
      var i := 0;
      while i < |keys|
        invariant 0 <= i <= |keys|
        invariant Valid() && now == clock.now && engine.Contents() == TouchedAll(start, keys[..i], now)
      {
        TouchedNext(start, keys, i, now);
        var _ := engine.Get(keys[i], now);
        i := i + 1;
      }
      assert keys[..i] == keys;
    }

    /** Compares before and after and lists the canonical effects. */
    method DeriveCommittedBatch(keys: seq<Bytes>, before: map<Bytes, Option<Entry>>, evicted: seq<(Bytes, Entry)>)
      returns (batch: Batch)
      requires Valid()
      modifies Repr
      ensures Valid() && old(clock.now) <= clock.now
      ensures SameLive(engine.Contents(), old(engine.Contents()), clock.now)
      ensures State() == Visible(old(engine.Contents()), clock.now)
      ensures batch == Derive(keys, before, EvictedKeys(evicted), State())
    {
      ghost var contents := engine.Contents();
      var now := Now();
      batch := DeriveAt(keys, before, evicted, now);
      SameVisible(engine.Contents(), contents, now);
    }

    method DeriveAt(keys: seq<Bytes>, before: map<Bytes, Option<Entry>>, evicted: seq<(Bytes, Entry)>, now: nat)
      returns (batch: Batch)
      requires Valid() && now == clock.now
      modifies engine.Repr
      ensures Valid() && SameLive(engine.Contents(), old(engine.Contents()), now)
      ensures batch == Derive(keys, before, EvictedKeys(evicted), old(State()))
    {
      var effects, deleted := DeleteEvicted(evicted);
      var changes := DeriveChanges(keys, before, EvictedKeys(evicted), deleted, now);
      batch := effects + changes;
    }

    method DeriveChanges(keys: seq<Bytes>, before: map<Bytes, Option<Entry>>, ghost evicted: seq<Bytes>, deleted: set<Bytes>, now: nat)
      returns (batch: Batch)
      requires Valid() && now == clock.now
      requires forall k :: k in deleted <==> k in evicted
      modifies engine.Repr
      ensures Valid() && SameLive(engine.Contents(), old(engine.Contents()), now)
      ensures batch == Changes(keys, before, evicted, old(State()))
    {
      ghost var start, state := engine.Contents(), State();
      batch := [];
      var i := 0;
      while i < |keys|
        invariant 0 <= i <= |keys|
        invariant Valid() && now == clock.now && SameLive(engine.Contents(), start, now)
        invariant batch == Changes(keys[..i], before, evicted, state)
      {
        var current := PeekEntry(keys[i], now);
        SweptAt(start, keys[i], now);
        ChangesStep(keys, i, before, evicted, state);
        batch := batch + Change(keys[i], PersistOption(Flatten(before, keys[i])), PersistOption(current), keys[i] in deleted);
        i := i + 1;
      }
      assert keys[..i] == keys;
    }

    /** Deletes a key and says whether it was live. */
    method DeleteBytes(key: Bytes) returns (deleted: bool)
      requires Valid()
      modifies Repr
      ensures Valid() && old(clock.now) <= clock.now
      ensures deleted == At(old(engine.Contents()), key, clock.now).Some?
      ensures SlotSet(old(engine.Contents()), key, None, engine.Contents(), clock.now)
    {
      ghost var contents := engine.Contents();
      var now := Now();
      deleted := engine.Delete(key, now);
    }

    /** Counts the live keys, sweeping the expired ones. */
    method LiveKeyCount() returns (keys: nat)
      requires Valid()
      modifies Repr
      ensures Valid() && old(clock.now) <= clock.now
      ensures State() == Visible(old(engine.Contents()), clock.now)
      ensures engine.Contents() == Swept(old(engine.Contents()), clock.now)
      ensures keys == |State()|
    {
      var now := Now();
      VisibleSwept(engine.Contents(), now);
      keys := engine.KeyCount(now);
    }

    /** Measures the live dataset, sweeping the expired keys. */
    method UsedMemory() returns (bytes: nat)
      requires Valid()
      modifies Repr
      ensures Valid() && old(clock.now) <= clock.now
      ensures State() == Visible(old(engine.Contents()), clock.now)
      ensures engine.Contents() == Swept(old(engine.Contents()), clock.now)
      ensures bytes == TotalSize(engine.Contents(), engine.sizeOf)
    {
      var now := Now();
      VisibleSwept(engine.Contents(), now);
      bytes := engine.TotalMemoryBytes(now);
    }

    /** Replays a committed batch, as recovery and replicas do. */
    method ApplyCommittedBatch(batch: Batch)
      requires Valid()
      modifies Repr
      ensures Valid() && old(clock.now) <= clock.now
      ensures State() == Alive(ApplyBatch(Visible(old(engine.Contents()), clock.now), batch), clock.now)
    {
      var now := Now();
      VisibleIsAlive(engine.Contents(), now);
      ApplyAt(batch, now);
    }

    method ApplyEffectAt(effect: Effect, now: nat, ghost v: View)
      requires Valid() && now == clock.now && State() == Alive(v, now)
      modifies engine.Repr
      ensures Valid() && now == clock.now && State() == Alive(ApplyEffect(v, effect), now)
    {
      ghost var m := engine.Contents();
      SlotIsEffect(v, effect, now);
      match effect {
        case Put(key, entry) =>
          var slot := Some(Entry(entry.value, entry.expiresAt, now, now));
          InstallSlot(key, slot, now);
          SlotVisible(m, key, slot, engine.Contents(), now);
        case Delete(key) =>
          InstallSlot(key, None, now);
          SlotVisible(m, key, None, engine.Contents(), now);
      }
    }

    method ApplyAt(batch: Batch, now: nat)
      requires Valid() && now == clock.now && State() == Alive(State(), now)
      modifies engine.Repr
      ensures Valid() && State() == Alive(ApplyBatch(old(State()), batch), now)
    {
      ghost var start := State();
      var i := 0;
      while i < |batch|
        invariant 0 <= i <= |batch|
        invariant Valid() && now == clock.now
        invariant State() == Alive(ApplyBatch(start, batch[..i]), now)
      {
        ghost var v := ApplyBatch(start, batch[..i]);
        ApplyEffectAt(batch[i], now, v);
        var next := i + 1;
        ApplyNext(start, batch, i, next);
        i := next;
      }
      assert batch[..i] == batch;
    }
  }

  method DeleteEvicted(evicted: seq<(Bytes, Entry)>) returns (batch: Batch, deleted: set<Bytes>)
    ensures batch == Evictions(EvictedKeys(evicted))
    ensures forall k :: k in deleted <==> k in EvictedKeys(evicted)
  {
    batch, deleted := [], {};
    var keys := EvictedKeys(evicted);
    var i := 0;
    while i < |evicted|
      invariant 0 <= i <= |evicted|
      invariant batch == Evictions(keys[..i])
      invariant forall k :: k in deleted <==> k in keys[..i]
    {
      assert keys[..i + 1][..i] == keys[..i];
      if evicted[i].0 !in deleted {
        deleted := deleted + {evicted[i].0};
        batch := batch + [Delete(evicted[i].0)];
      }
      i := i + 1;
    }
    assert keys[..i] == keys;
  }

  // ---- Executing commands ----

  /** A command refreshes what it reads and stores what its update says, on the live
      entries of its own keys; every other entry stays as it is. */
  ghost predicate Executes(start: Contents, command: Command, m: Contents, now: nat) {
    var touched := TouchedAll(start, command.reads_, now);
    Stored(touched, command, command.Affected(), Entries(touched, command.Affected(), now), m, now)
  }

  ghost predicate Stored(start: Contents, command: Command, keys: seq<Bytes>, seen: map<Bytes, Option<Entry>>, m: Contents, now: nat) {
    forall k :: At(m, k, now) == if k in keys then Live(command.update(k, seen, now), now) else At(start, k, now)
  }

  lemma StoredNext(start: Contents, command: Command, keys: seq<Bytes>, i: nat, seen: map<Bytes, Option<Entry>>, m: Contents, m': Contents, now: nat)
    requires i < |keys| && Stored(start, command, keys[..i], seen, m, now)
    requires SlotSet(m, keys[i], command.update(keys[i], seen, now), m', now)
    ensures Stored(start, command, keys[..i + 1], seen, m', now)
  {
    assert keys[..i + 1] == keys[..i] + [keys[i]];
  }

  /** Seen from the persistent state, only the command's keys change. */
  lemma ExecutesVisible(start: Contents, command: Command, m: Contents, now: nat)
    requires Executes(start, command, m, now)
    ensures forall k :: k !in command.Affected() ==> Lookup(Visible(m, now), k) == Lookup(Visible(start, now), k)
  {
    var touched := TouchedAll(start, command.reads_, now);
    TouchedVisible(start, command.reads_, now);
    forall k | k !in command.Affected() ensures Lookup(Visible(m, now), k) == Lookup(Visible(start, now), k) {
      SweptAt(m, k, now);
      SweptAt(touched, k, now);
    }
  }

  lemma ApplyNext(v: View, batch: Batch, i: nat, next: nat)
    requires next == i + 1 <= |batch|
    ensures ApplyBatch(v, batch[..next]) == ApplyEffect(ApplyBatch(v, batch[..i]), batch[i])
  {
    assert batch[..next][..i] == batch[..i];
  }

  lemma SlotIsEffect(v: View, effect: Effect, now: nat)
    ensures Alive(ApplyEffect(v, effect), now) ==
      match effect
      case Put(key, entry) => SetSlot(Alive(v, now), key, Some(entry), now)
      case Delete(key) => SetSlot(Alive(v, now), key, None, now)
  {
  }

  // ---- Restoring slot by slot ----

  function SetSlot(v: View, key: Bytes, slot: Option<PersistentEntry>, now: nat): View {
    var alive := AliveOption(slot, now);
    if alive.Some? then v[key := alive.value] else v - {key}
  }

  lemma SlotVisible(start: Contents, key: Bytes, slot: Option<Entry>, m: Contents, now: nat)
    requires SlotSet(start, key, slot, m, now)
    ensures Visible(m, now) == SetSlot(Visible(start, now), key, PersistOption(slot), now)
  {
    var v := SetSlot(Visible(start, now), key, PersistOption(slot), now);
    forall k ensures Lookup(Visible(m, now), k) == Lookup(v, k) {
      SweptAt(m, k, now);
      SweptAt(start, k, now);
    }
    SameLookups(Visible(m, now), v);
  }

  /** All but the pending slots are put back. */
  ghost predicate PartlyUndone(start: Contents, before: map<Bytes, Option<Entry>>, pending: set<Bytes>, m: Contents, now: nat) {
    forall k :: At(m, k, now) == if k in before && k !in pending then Live(before[k], now) else At(start, k, now)
  }
}
