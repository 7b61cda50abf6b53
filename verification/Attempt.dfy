/** A tentative mutation: it captures the exact state it may change, admits or
refuses the result, and can undo itself together with its eviction victims. */
module Attempts {
  import opened Model
  import opened Effects
  import opened Shards
  import opened ShardObject
  import opened EngineObject
  import opened Datasets
  import opened StoreObject
  import opened KeyLimit

  function Missing(before: map<Bytes, Option<Entry>>): set<Bytes> {
    set k | k in before && before[k].None?
  }

  /** What the attempt knows about the key limit: either the live keys were
      counted, or no overflow is possible without counting them. */
  ghost predicate KeyGuard(before: map<Bytes, Option<Entry>>, counted: Option<nat>, start: View) {
    if counted.Some? then counted.value <= |start|
    else |Missing(before)| == 0 || |start| + |Missing(before)| <= MAX_KEYS
  }

  /** Outside the captured keys the persistent state is still that of `start`. */
  ghost predicate OnlyCapturedChanged(start: View, before: map<Bytes, Option<Entry>>, v: View, now: nat) {
    forall k :: k !in before ==> Lookup(v, k) == Lookup(Alive(start, now), k)
  }

  /** Every live key was there at the start or is one of the missing ones. */
  lemma GrowthBound(start: View, before: map<Bytes, Option<Entry>>, keys: seq<Bytes>, v: View, now: nat)
    requires Captures(before, keys, start) && OnlyCapturedChanged(start, before, v, now)
    ensures |v| <= |start| + |Missing(before)|
  {
    forall k | k in v.Keys ensures k in start.Keys + Missing(before) {
      if k !in before {
        assert Lookup(v, k) == Lookup(Alive(start, now), k);
      } else {
        assert PersistOption(before[k]) == Lookup(start, k);
      }
    }
    SubsetCardinality(v.Keys, start.Keys + Missing(before));
  }

  /** The key-limit shortcut is safe: a dataset within the limit stays within it. */
  lemma ShortcutKeepsKeyLimit(start: View, before: map<Bytes, Option<Entry>>, counted: Option<nat>, keys: seq<Bytes>, v: View, now: nat)
    requires Captures(before, keys, start) && OnlyCapturedChanged(start, before, v, now)
    requires KeyGuard(before, counted, start)
    requires counted.Some? ==> |v| <= MAX_KEYS || |v| <= counted.value
    requires |start| <= MAX_KEYS
    ensures |v| <= MAX_KEYS
  {
    GrowthBound(start, before, keys, v, now);
  }

  /** What admission leaves behind: its victims are gone, everything else is as
      it was, and each victim is remembered with the entry it held. */
  ghost predicate VictimsRemoved(held: View, evicted: seq<(Bytes, Entry)>, v: View, now: nat) {
    && (forall k :: Lookup(v, k) == if k in EvictedKeys(evicted) then None else Lookup(held, k))
    && (forall i :: 0 <= i < |evicted| ==> AliveOption(Some(Persist(evicted[i].1)), now) == Lookup(held, evicted[i].0))
  }

  ghost predicate Spared(victims: seq<(Bytes, Entry)>, protected: set<Bytes>) {
    forall i :: 0 <= i < |victims| ==> victims[i].0 !in protected
  }

  /** The live keys are within the limit, or at least did not increase. */
  ghost predicate KeysAdmitted(v: View, counted: Option<nat>) {
    counted.Some? ==> |v| <= MAX_KEYS || |v| <= counted.value
  }

  // ---- What admission compares ----

  /** The totals before the attempt: when the entries were captured, the live keys
      counted, where that was needed, and the live dataset measured. */
  datatype Baseline = Baseline(since: nat, counted: nat, measured: nat, keys: Option<nat>, bytes: Option<nat>)

  /** They are those of the dataset that the attempt began with. */
  ghost predicate Totals(b: Baseline, l: Limits, start: Contents, keys: seq<Bytes>) {
    && b.since <= b.counted <= b.measured
    && (b.keys.Some? ==> b.keys.value == |Swept(start, b.counted)|)
    && (b.keys.None? ==>
          var missing := |Missing(Entries(start, keys, b.since))|; missing == 0 || |Swept(start, b.since)| + missing <= MAX_KEYS)
    && (b.bytes.Some? <==> l.maxMemory > 0)
    && (b.bytes.Some? ==> b.bytes.value == TotalSize(Swept(start, b.measured), l.sizeOf))
  }

  /** The dataset is over the memory limit and has grown. */
  ghost predicate Oversized(m: Contents, l: Limits, b: Baseline) {
    l.maxMemory > 0 && b.bytes.Some? && TotalSize(m, l.sizeOf) > l.maxMemory && TotalSize(m, l.sizeOf) > b.bytes.value
  }

  /** The part of a dataset that eviction can never remove. */
  ghost function Lasting(m: Contents, policy: Policy, protected: set<Bytes>): Contents {
    map k | k in m && (policy.NoEviction? || !Eligible(policy, protected, k, m[k])) :: m[k]
  }

  /** Why admission was refused: at `at` the live keys had increased over the limit;
      or the dataset had grown over its limit, and at `later` even the part that
      eviction cannot remove was over it. */
  ghost predicate Justified(error: AdmissionError, held: Contents, l: Limits, protected: set<Bytes>, b: Baseline, at: nat, later: nat) {
    && at <= later
    && match error
       case KeyLimit => b.keys.Some? && |Swept(held, at)| > MAX_KEYS && |Swept(held, at)| > b.keys.value
       case Maxmemory =>
         && Oversized(Swept(held, at), l, b)
         && TotalSize(Swept(Lasting(held, l.policy, protected), later), l.sizeOf) > l.maxMemory
  }

  /** The live keys are within the limit or have not increased. */
  ghost predicate KeysWithin(contents: Contents, b: Baseline, at: nat) {
    b.keys.Some? ==> |Swept(contents, at)| <= MAX_KEYS || |Swept(contents, at)| <= b.keys.value
  }

  /** When admission looked: it counted the keys, measured the dataset, chose the
      victims and measured what was left. */
  datatype Checks = Checks(counted: nat, measured: nat, chosen: nat, fitted: nat)

  /** Why admission succeeded: the keys had not increased over the limit, what is
      left of the dataset has not grown over its limit, and victims, each of them a
      best one taken while the rest was over the limit, only fell because it had. */
  ghost predicate Granted(evicted: seq<(Bytes, Entry)>, held: Contents, l: Limits, protected: set<Bytes>, b: Baseline, c: Checks) {
    && c.counted <= c.measured <= c.chosen <= c.fitted
    && KeysWithin(held, b, c.counted)
    && (evicted != [] ==> Oversized(Swept(held, c.measured), l, b))
    && EvictionRun(Swept(held, c.chosen), evicted, l.maxMemory, l.policy, protected, l.sizeOf)
    && !Oversized(Swept(Dropping(held, EvictedKeys(evicted)), c.fitted), l, b)
  }

  lemma SweptTwice(m: Contents, now: nat, later: nat)
    requires now <= later
    ensures Swept(Swept(m, now), later) == Swept(m, later)
  {
  }

  lemma SweptLasting(m: Contents, policy: Policy, protected: set<Bytes>, now: nat)
    ensures Swept(Lasting(m, policy, protected), now) == Lasting(Swept(m, now), policy, protected)
  {
  }

  lemma SweptDropping(m: Contents, keys: seq<Bytes>, now: nat)
    ensures Swept(Dropping(m, keys), now) == Dropping(Swept(m, now), keys)
  {
    forall k ensures Lookup(Swept(Dropping(m, keys), now), k) == Lookup(Dropping(Swept(m, now), keys), k) {
      DroppingLookup(m, keys, k);
      DroppingLookup(Swept(m, now), keys, k);
      SweptAt(m, k, now);
      SweptAt(Dropping(m, keys), k, now);
    }
    SameLookups(Swept(Dropping(m, keys), now), Dropping(Swept(m, now), keys));
  }

  /** When eviction has run out of candidates, exactly the lasting part is left. */
  lemma ExhaustedIsLasting(start: Contents, evicted: seq<(Bytes, Entry)>, limit: nat, policy: Policy, protected: set<Bytes>, sizeOf: Sizer)
    requires !policy.NoEviction? && EvictionRun(start, evicted, limit, policy, protected, sizeOf)
    requires NoneEligible(Dropping(start, EvictedKeys(evicted)), policy, protected)
    ensures Dropping(start, EvictedKeys(evicted)) == Lasting(start, policy, protected)
  {
    var left, lasting := Dropping(start, EvictedKeys(evicted)), Lasting(start, policy, protected);
    RunVictims(start, evicted, limit, policy, protected, sizeOf);
    forall k ensures Lookup(left, k) == Lookup(lasting, k) {
      DroppingLookup(start, EvictedKeys(evicted), k);
      if k in EvictedKeys(evicted) {
        var i :| 0 <= i < |evicted| && evicted[i].0 == k;
        assert EvictionStep(start, evicted, i, limit, policy, protected, sizeOf);
      } else if k in start {
        assert k in left && left[k] == start[k];
      }
    }
    SameLookups(left, lasting);
  }

  class MutationAttempt {
    const store: Store
    const before: map<Bytes, Option<Entry>>
    const memoryBefore: Option<nat>
    const keyCountBefore: Option<nat>
    var evicted: seq<(Bytes, Entry)>
    ghost const contents: Contents
    ghost const start: View
    ghost const keys: seq<Bytes>
    ghost const baseline: Baseline

    /** What the capture established; nothing of it ever changes. */
    ghost predicate Sound() {
      && before == Entries(contents, keys, baseline.since) && start == Visible(contents, baseline.since)
      && Totals(baseline, store.Bounds(), contents, keys)
      && baseline.keys == keyCountBefore && baseline.bytes == memoryBefore
      && Captures(before, keys, start) && KeyGuard(before, keyCountBefore, start)
    }

    ghost predicate Valid()
      reads this, store.engine, store.engine.Repr, store.engine.shards, store.engine.total, store.clock
    {
      && Sound()
      && store.Valid() && this !in store.Repr
      && baseline.measured <= store.clock.now
    }

    constructor (store: Store, keys: seq<Bytes>)
      requires store.Valid()
      modifies store.Repr
      ensures Valid() && this.store == store && this.keys == keys && evicted == []
      ensures contents == old(store.engine.Contents()) && old(store.clock.now) <= baseline.since
      ensures SameLive(store.engine.Contents(), contents, store.clock.now)
    {
      ghost var m := store.engine.Contents();
      var captured, count, memory;
      ghost var b;
      captured, count, memory, b := Capture(store, keys);
      EntriesCapture(m, keys, b.since);
      GuardFromTotals(b, store.Bounds(), m, keys);
      this.store := store;
      this.keys := keys;
      contents := m;
      before := captured;
      start := Visible(m, b.since);
      baseline := b;
      keyCountBefore := count;
      memoryBefore := memory;
      evicted := [];
    }

    /** Admits the tentative state or says why not. On success the victims are gone
        and remembered, and the checks that passed are stated; on refusal the
        tentative state is as it was, and its reason held at the stated instants.
        `held` are contents with the live entries that are judged. */
    method Admit(protected: set<Bytes>, ghost held: Contents) returns (refusal: Option<AdmissionError>, ghost at: nat, ghost later: nat, ghost c: Checks)
      requires Valid() && evicted == [] && SameLive(store.engine.Contents(), held, store.clock.now)
      modifies this, store.Repr
      ensures Valid() && old(store.clock.now) <= store.clock.now
      ensures refusal.Some? ==>
        && evicted == [] && SameLive(store.engine.Contents(), held, store.clock.now)
        && old(store.clock.now) <= at && later <= store.clock.now
        && Justified(refusal.value, held, store.Bounds(), protected, baseline, at, later)
      ensures refusal.None? ==>
        && old(store.clock.now) <= c.counted && c.fitted <= store.clock.now
        && Removed(held, evicted, store.engine.Contents(), store.clock.now)
        && Granted(evicted, held, store.Bounds(), protected, baseline, c)
    {
      var victims;
      refusal, victims, at, later, c := AdmitState(store, protected, keyCountBefore, memoryBefore, baseline, held);
      label before:
      evicted := victims;
      store.Unmoved@before();
    }
  }

  lemma GuardFromTotals(b: Baseline, l: Limits, m: Contents, keys: seq<Bytes>)
    requires Totals(b, l, m, keys)
    ensures KeyGuard(Entries(m, keys, b.since), b.keys, Visible(m, b.since))
  {
    VisibleSwept(m, b.since);
    VisibleSwept(m, b.counted);
    LiveCountShrinks(m, b.since, b.counted);
  }

  method AdmitState(store: Store, protected: set<Bytes>, counted: Option<nat>, memoryBefore: Option<nat>, ghost b: Baseline, ghost held: Contents)
    returns (refusal: Option<AdmissionError>, victims: seq<(Bytes, Entry)>, ghost at: nat, ghost later: nat, ghost c: Checks)
    requires store.Valid() && b.keys == counted && b.bytes == memoryBefore && (memoryBefore.Some? <==> store.maxMemory > 0)
    requires SameLive(store.engine.Contents(), held, store.clock.now)
    modifies store.Repr
    ensures store.Valid() && old(store.clock.now) <= store.clock.now
    ensures refusal.Some? ==>
      && victims == [] && SameLive(store.engine.Contents(), held, store.clock.now)
      && old(store.clock.now) <= at && later <= store.clock.now
      && Justified(refusal.value, held, store.Bounds(), protected, b, at, later)
    ensures refusal.None? ==>
      && old(store.clock.now) <= c.counted && c.fitted <= store.clock.now
      && Removed(held, victims, store.engine.Contents(), store.clock.now)
      && Granted(victims, held, store.Bounds(), protected, b, c)
  {
    var within := CheckKeyLimit(store, counted, b, held);
    if !within {
      at, later := store.clock.now, store.clock.now;
      return Some(KeyLimit), [], at, later, Checks(at, at, at, at);
    }
    refusal, victims, at, later, c := AdmitMemory(store, memoryBefore, protected, b, held);
  }

  /** Counts the live keys again if they were counted before. */
  method CheckKeyLimit(store: Store, counted: Option<nat>, ghost b: Baseline, ghost held: Contents) returns (within: bool)
    requires store.Valid() && SameLive(store.engine.Contents(), held, store.clock.now) && b.keys == counted
    modifies store.Repr
    ensures store.Valid() && old(store.clock.now) <= store.clock.now
    ensures SameLive(store.engine.Contents(), held, store.clock.now)
    ensures within <==> KeysWithin(held, b, store.clock.now)
  {
    ghost var m, begun := store.engine.Contents(), store.clock.now;
    within := true;
    if counted.Some? {
      var keys := store.LiveKeyCount();
      SameLiveLater(m, held, begun, store.clock.now);
      VisibleSwept(held, store.clock.now);
      SweptSame(held, store.clock.now);
      within := keys <= MAX_KEYS || keys <= counted.value;
    }
  }

  method AdmitMemory(store: Store, memoryBefore: Option<nat>, protected: set<Bytes>, ghost b: Baseline, ghost contents: Contents)
    returns (refusal: Option<AdmissionError>, victims: seq<(Bytes, Entry)>, ghost at: nat, ghost later: nat, ghost c: Checks)
    requires store.Valid() && b.bytes == memoryBefore && (memoryBefore.Some? <==> store.maxMemory > 0)
    requires SameLive(store.engine.Contents(), contents, store.clock.now)
    requires KeysWithin(contents, b, store.clock.now)
    modifies store.Repr
    ensures store.Valid() && old(store.clock.now) <= store.clock.now
    ensures refusal.Some? ==>
      && refusal == Some(Maxmemory) && victims == []
      && SameLive(store.engine.Contents(), contents, store.clock.now)
      && old(store.clock.now) <= at && later <= store.clock.now
      && Justified(Maxmemory, contents, store.Bounds(), protected, b, at, later)
    ensures refusal.None? ==>
      && old(store.clock.now) <= c.counted && c.fitted <= store.clock.now
      && Removed(contents, victims, store.engine.Contents(), store.clock.now)
      && Granted(victims, contents, store.Bounds(), protected, b, c)
  {
    ghost var begun := store.clock.now;
    refusal, victims, at, later := None, [], begun, begun;
    if store.maxMemory == 0 {
      RemovedNone(contents, store.engine.Contents(), begun);
      c := GrantedAsIs(contents, store.Bounds(), protected, b, begun, begun);
      return;
    }
    var after := MeasureAgain(store, contents);
    at := store.clock.now;
    if after <= store.maxMemory || after <= memoryBefore.value {
      RemovedNone(contents, store.engine.Contents(), at);
      c := GrantedAsIs(contents, store.Bounds(), protected, b, begun, at);
      return;
    }
    refusal, victims, later, c := RelieveOrRefuse(store, protected, b, contents, begun, at);
  }

  /** A dataset that has grown over its limit is relieved, or the change refused. */
  method RelieveOrRefuse(store: Store, protected: set<Bytes>, ghost b: Baseline, ghost contents: Contents, ghost counted: nat, ghost at: nat)
    returns (refusal: Option<AdmissionError>, victims: seq<(Bytes, Entry)>, ghost later: nat, ghost c: Checks)
    requires store.Valid() && counted <= at == store.clock.now && KeysWithin(contents, b, counted)
    requires store.engine.Contents() == Swept(contents, at) && Oversized(Swept(contents, at), store.Bounds(), b)
    modifies store.Repr
    ensures store.Valid() && at <= store.clock.now
    ensures refusal.Some? ==>
      && refusal == Some(Maxmemory) && victims == []
      && SameLive(store.engine.Contents(), contents, store.clock.now)
      && later <= store.clock.now && Justified(Maxmemory, contents, store.Bounds(), protected, b, at, later)
    ensures refusal.None? ==>
      && c.counted == counted && c.fitted <= store.clock.now
      && Removed(contents, victims, store.engine.Contents(), store.clock.now)
      && Granted(victims, contents, store.Bounds(), protected, b, c)
  {
    var fits;
    ghost var chosen;
    fits, victims, chosen, later := RelieveMemory(store, protected, contents, at);
    refusal, c := None, Checks(counted, at, chosen, later);
    if fits {
      c := GrantedRelieved(victims, contents, store.Bounds(), protected, b, counted, at, chosen, later);
    } else {
      refusal := Some(Maxmemory);
    }
  }

  lemma GrantedAsIs(contents: Contents, l: Limits, protected: set<Bytes>, b: Baseline, counted: nat, at: nat) returns (c: Checks)
    requires counted <= at && KeysWithin(contents, b, counted) && !Oversized(Swept(contents, at), l, b)
    ensures c.counted == counted && c.fitted == at && Granted([], contents, l, protected, b, c)
  {
    c := Checks(counted, at, at, at);
  }

  lemma GrantedRelieved(victims: seq<(Bytes, Entry)>, contents: Contents, l: Limits, protected: set<Bytes>, b: Baseline,
                        counted: nat, at: nat, chosen: nat, later: nat)
    returns (c: Checks)
    requires counted <= at <= chosen <= later && KeysWithin(contents, b, counted) && Oversized(Swept(contents, at), l, b)
    requires EvictionRun(Swept(contents, chosen), victims, l.maxMemory, l.policy, protected, l.sizeOf)
    requires TotalSize(Swept(Dropping(contents, EvictedKeys(victims)), later), l.sizeOf) <= l.maxMemory
    ensures c.counted == counted && c.fitted == later && Granted(victims, contents, l, protected, b, c)
  {
    c := Checks(counted, at, chosen, later);
  }

  /** Measures the dataset, told from contents with the same live entries. */
  method MeasureAgain(store: Store, ghost contents: Contents) returns (bytes: nat)
    requires store.Valid() && SameLive(store.engine.Contents(), contents, store.clock.now)
    modifies store.Repr
    ensures store.Valid() && old(store.clock.now) <= store.clock.now
    ensures store.engine.Contents() == Swept(contents, store.clock.now) && SameLive(store.engine.Contents(), contents, store.clock.now)
    ensures bytes == TotalSize(Swept(contents, store.clock.now), store.engine.sizeOf)
  {
    ghost var m, begun := store.engine.Contents(), store.clock.now;
    bytes := store.UsedMemory();
    SameLiveLater(m, contents, begun, store.clock.now);
    SweptSame(contents, store.clock.now);
  }

  /** Makes room in a dataset that has just been measured, told from the contents
      before that. */
  method RelieveMemory(store: Store, protected: set<Bytes>, ghost contents: Contents, ghost at: nat)
    returns (fits: bool, victims: seq<(Bytes, Entry)>, ghost chosen: nat, ghost later: nat)
    requires store.Valid() && store.maxMemory > 0 && at == store.clock.now && store.engine.Contents() == Swept(contents, at)
    requires TotalSize(store.engine.Contents(), store.engine.sizeOf) > store.maxMemory
    modifies store.Repr
    ensures store.Valid() && at <= chosen <= later <= store.clock.now
    ensures !fits ==>
      && victims == [] && SameLive(store.engine.Contents(), contents, store.clock.now)
      && TotalSize(Swept(Lasting(contents, store.policy, protected), later), store.engine.sizeOf) > store.maxMemory
    ensures fits ==>
      && Removed(contents, victims, store.engine.Contents(), store.clock.now)
      && EvictionRun(Swept(contents, chosen), victims, store.maxMemory, store.policy, protected, store.engine.sizeOf)
      && TotalSize(Swept(Dropping(contents, EvictedKeys(victims)), later), store.engine.sizeOf) <= store.maxMemory
  {
    SweptSame(contents, at);
    SweptTwice(contents, at, at);
    if store.policy.NoEviction? {
      assert Lasting(store.engine.Contents(), store.policy, protected) == store.engine.Contents();
      SweptLasting(contents, store.policy, protected, at);
      return false, [], at, at;
    }
    fits, victims, chosen, later := EvictOrUndo(store, protected, contents);
  }

  /** Evicts down to the limit; if that is impossible every victim returns. */
  method EvictOrUndo(store: Store, protected: set<Bytes>, ghost contents: Contents)
    returns (fits: bool, victims: seq<(Bytes, Entry)>, ghost chosen: nat, ghost later: nat)
    requires store.Valid() && store.maxMemory > 0 && !store.policy.NoEviction?
    requires SameLive(store.engine.Contents(), contents, store.clock.now)
    modifies store.Repr
    ensures store.Valid() && old(store.clock.now) <= chosen <= later <= store.clock.now
    ensures !fits ==>
      && victims == [] && SameLive(store.engine.Contents(), contents, store.clock.now)
      && TotalSize(Swept(Lasting(contents, store.policy, protected), later), store.engine.sizeOf) > store.maxMemory
    ensures fits ==>
      && Removed(contents, victims, store.engine.Contents(), store.clock.now)
      && EvictionRun(Swept(contents, chosen), victims, store.maxMemory, store.policy, protected, store.engine.sizeOf)
      && TotalSize(Swept(Dropping(contents, EvictedKeys(victims)), later), store.engine.sizeOf) <= store.maxMemory
  {
    ghost var begun := store.clock.now;
    victims, chosen := EvictVictims(store, protected, contents);
    ghost var left := store.engine.Contents();
    var used := store.UsedMemory();
    later := store.clock.now;
    SweptSame(left, later);
    RemovedLater(contents, victims, left, chosen, later);
    fits := used <= store.maxMemory;
    if fits {
      LeftIsDropping(contents, victims, left, later);
    } else {
      StillTooLarge(contents, left, store.Bounds(), protected, chosen, later);
      UndoEviction(store, victims, contents, chosen, protected);
      victims := [];
    }
  }

  lemma LeftIsDropping(contents: Contents, victims: seq<(Bytes, Entry)>, left: Contents, now: nat)
    requires Removed(contents, victims, left, now)
    ensures Swept(left, now) == Swept(Dropping(contents, EvictedKeys(victims)), now)
  {
    RemovedIsDropping(contents, victims, left, now);
    SameLiveIff(left, Dropping(contents, EvictedKeys(victims)), now);
  }

  lemma StillTooLarge(contents: Contents, left: Contents, l: Limits, protected: set<Bytes>, at: nat, later: nat)
    requires at <= later && TotalSize(Swept(left, later), l.sizeOf) > l.maxMemory
    requires TotalSize(left, l.sizeOf) <= l.maxMemory || left == Lasting(Swept(contents, at), l.policy, protected)
    ensures TotalSize(Swept(Lasting(contents, l.policy, protected), later), l.sizeOf) > l.maxMemory
  {
    TotalSizeWithin(Swept(left, later), left, l.sizeOf);
    SweptTwice(contents, at, later);
    SweptLasting(Swept(contents, at), l.policy, protected, later);
    SweptLasting(contents, l.policy, protected, later);
  }

  method UndoEviction(store: Store, victims: seq<(Bytes, Entry)>, ghost contents: Contents, ghost chosen: nat, ghost protected: set<Bytes>)
    requires store.Valid() && chosen <= store.clock.now && Removed(contents, victims, store.engine.Contents(), store.clock.now)
    requires EvictionRun(Swept(contents, chosen), victims, store.maxMemory, store.policy, protected, store.engine.sizeOf)
    modifies store.Repr
    ensures store.Valid() && old(store.clock.now) <= store.clock.now
    ensures SameLive(store.engine.Contents(), contents, store.clock.now)
  {
    ghost var left, begun := store.engine.Contents(), store.clock.now;
    var now := store.Now();
    RemovedLater(contents, victims, left, begun, now);
    store.RestoreEvicted(victims, map[], now);
    VictimsReturn(contents, victims, left, store.engine.Contents(), chosen, now, store.Bounds(), protected);
  }

  /** Restoring the victims of an eviction brings back the dataset before it. */
  lemma VictimsReturn(contents: Contents, victims: seq<(Bytes, Entry)>, left: Contents, m: Contents, chosen: nat, now: nat, l: Limits, protected: set<Bytes>)
    requires chosen <= now && Removed(contents, victims, left, now) && VictimsBack(left, victims, {}, m, now)
    requires EvictionRun(Swept(contents, chosen), victims, l.maxMemory, l.policy, protected, l.sizeOf)
    ensures SameLive(m, contents, now)
  {
    var captured: set<Bytes> := {};
    RunVictims(Swept(contents, chosen), victims, l.maxMemory, l.policy, protected, l.sizeOf);
    forall k ensures At(m, k, now) == At(contents, k, now) {
      assert At(m, k, now) == VictimSlot(left, victims, captured, k, now);
      var last := LastEvicted(victims, k);
      if last.Some? {
        var i :| 0 <= i < |victims| && victims[i] == (k, last.value);
        SweptAt(contents, k, chosen);
        assert Lookup(Swept(contents, chosen), k) == last;
        AtLater(contents, k, chosen, now);
      } else {
        assert k !in EvictedKeys(victims);
      }
    }
  }

  method EvictVictims(store: Store, protected: set<Bytes>, ghost contents: Contents) returns (victims: seq<(Bytes, Entry)>, ghost chosen: nat)
    requires store.Valid() && store.maxMemory > 0 && !store.policy.NoEviction?
    requires SameLive(store.engine.Contents(), contents, store.clock.now)
    modifies store.Repr
    ensures store.Valid() && old(store.clock.now) <= chosen == store.clock.now
    ensures Removed(contents, victims, store.engine.Contents(), chosen)
    ensures EvictionRun(Swept(contents, chosen), victims, store.maxMemory, store.policy, protected, store.engine.sizeOf)
    ensures TotalSize(store.engine.Contents(), store.engine.sizeOf) <= store.maxMemory
      || store.engine.Contents() == Lasting(Swept(contents, chosen), store.policy, protected)
  {
    ghost var m, begun := store.engine.Contents(), store.clock.now;
    var picks := store.clock.Draw();
    var now := store.Now();
    chosen := now;
    SameLiveLater(m, contents, begun, now);
    victims := EvictVictimsAt(store, protected, picks, now, contents);
  }

  method EvictVictimsAt(store: Store, protected: set<Bytes>, picks: (nat, nat) -> nat, now: nat, ghost contents: Contents)
    returns (victims: seq<(Bytes, Entry)>)
    requires store.Valid() && store.maxMemory > 0 && !store.policy.NoEviction? && now == store.clock.now
    requires Swept(store.engine.Contents(), now) == Swept(contents, now)
    modifies store.engine.Repr
    ensures store.Valid() && Removed(contents, victims, store.engine.Contents(), now)
    ensures EvictionRun(Swept(contents, now), victims, store.maxMemory, store.policy, protected, store.engine.sizeOf)
    ensures TotalSize(store.engine.Contents(), store.engine.sizeOf) <= store.maxMemory
      || store.engine.Contents() == Lasting(Swept(contents, now), store.policy, protected)
  {
    ghost var start := Swept(contents, now);
    victims := store.engine.EvictToFit(store.maxMemory, store.policy, protected, picks, now);
    DroppedIsRemoved(contents, victims, store.engine.Contents(), now);
    if TotalSize(store.engine.Contents(), store.engine.sizeOf) > store.maxMemory {
      ExhaustedIsLasting(start, victims, store.maxMemory, store.policy, protected, store.engine.sizeOf);
    }
  }

  lemma DroppedIsRemoved(contents: Contents, victims: seq<(Bytes, Entry)>, m: Contents, now: nat)
    requires m == Dropping(Swept(contents, now), EvictedKeys(victims))
    ensures Removed(contents, victims, m, now)
  {
    SweptDropping(contents, EvictedKeys(victims), now);
    SweptSame(Dropping(contents, EvictedKeys(victims)), now);
    RemovedIsDropping(contents, victims, m, now);
  }

  // ---- Victims, seen from the persistent state ----

  lemma RemovedVisible(held: Contents, evicted: seq<(Bytes, Entry)>, m: Contents, l: Limits, protected: set<Bytes>, b: Baseline, c: Checks, now: nat)
    requires Removed(held, evicted, m, now) && Granted(evicted, held, l, protected, b, c) && c.chosen <= now
    ensures VictimsRemoved(Visible(held, now), evicted, Visible(m, now), now) && Spared(evicted, protected)
  {
    RunVictims(Swept(held, c.chosen), evicted, l.maxMemory, l.policy, protected, l.sizeOf);
    forall k ensures Lookup(Visible(m, now), k) == if k in EvictedKeys(evicted) then None else Lookup(Visible(held, now), k) {
      SweptAt(m, k, now);
      SweptAt(held, k, now);
    }
    forall i | 0 <= i < |evicted|
      ensures AliveOption(Some(Persist(evicted[i].1)), now) == Lookup(Visible(held, now), evicted[i].0)
    {
      var k := evicted[i].0;
      SweptAt(held, k, c.chosen);
      assert Lookup(Swept(held, c.chosen), k) == Some(evicted[i].1);
      AtLater(held, k, c.chosen, now);
      SweptAt(held, k, now);
    }
  }

  /** The key check still holds of what is left at any later time. */
  lemma GrantedKeys(evicted: seq<(Bytes, Entry)>, held: Contents, m: Contents, l: Limits, protected: set<Bytes>, b: Baseline, c: Checks, now: nat)
    requires Removed(held, evicted, m, now) && Granted(evicted, held, l, protected, b, c) && c.fitted <= now
    ensures KeysAdmitted(Visible(m, now), b.keys)
  {
    RemovedVisible(held, evicted, m, l, protected, b, c, now);
    RemovalShrinks(Visible(held, now), evicted, Visible(m, now), now);
    LiveCountShrinks(held, c.counted, now);
    VisibleSwept(held, c.counted);
  }

  lemma RemovalShrinks(held: View, victims: seq<(Bytes, Entry)>, v: View, now: nat)
    requires VictimsRemoved(held, victims, v, now)
    ensures |v| <= |held|
  {
    forall k | k in v.Keys ensures k in held.Keys {
      assert Lookup(v, k) == if k in EvictedKeys(victims) then None else Lookup(held, k);
    }
    SubsetCardinality(v.Keys, held.Keys);
  }

  // ---- Capturing ----

  /** Captures the state that an attempt starts from. */
  method Capture(store: Store, keys: seq<Bytes>)
    returns (before: map<Bytes, Option<Entry>>, count: Option<nat>, memory: Option<nat>, ghost b: Baseline)
    requires store.Valid()
    modifies store.Repr
    ensures store.Valid() && old(store.clock.now) <= b.since && b.measured <= store.clock.now
    ensures before == Entries(old(store.engine.Contents()), keys, b.since)
    ensures Totals(b, store.Bounds(), old(store.engine.Contents()), keys) && b.keys == count && b.bytes == memory
    ensures SameLive(store.engine.Contents(), old(store.engine.Contents()), store.clock.now)
  {
    ghost var contents := store.engine.Contents();
    var now := store.Now();
    before := store.CaptureEntries(keys, now);
    count, memory, b := MeasureBaseline(store, |Missing(before)|, keys, contents, now);
  }

  /** The second half of starting an attempt: exact totals where they are needed. */
  method MeasureBaseline(store: Store, possibleNewKeys: nat, ghost keys: seq<Bytes>, ghost contents: Contents, ghost since: nat)
    returns (count: Option<nat>, memory: Option<nat>, ghost b: Baseline)
    requires store.Valid() && since == store.clock.now && SameLive(store.engine.Contents(), contents, since)
    requires possibleNewKeys == |Missing(Entries(contents, keys, since))|
    modifies store.Repr
    ensures store.Valid() && since == b.since && b.measured <= store.clock.now
    ensures Totals(b, store.Bounds(), contents, keys) && b.keys == count && b.bytes == memory
    ensures SameLive(store.engine.Contents(), contents, store.clock.now)
  {
    count := CountIfNeeded(store, possibleNewKeys, contents);
    ghost var counted := store.clock.now;
    memory, b := None, Baseline(since, counted, counted, count, None);
    if store.maxMemory > 0 {
      var bytes := MeasureAgain(store, contents);
      memory, b := Some(bytes), Baseline(since, counted, store.clock.now, count, Some(bytes));
    }
  }

  method CountIfNeeded(store: Store, possibleNewKeys: nat, ghost contents: Contents) returns (count: Option<nat>)
    requires store.Valid() && SameLive(store.engine.Contents(), contents, store.clock.now)
    modifies store.Repr
    ensures store.Valid() && old(store.clock.now) <= store.clock.now
    ensures SameLive(store.engine.Contents(), contents, store.clock.now)
    ensures count.Some? ==> count.value == |Swept(contents, store.clock.now)|
    ensures count.None? ==> possibleNewKeys == 0 || |Swept(contents, old(store.clock.now))| + possibleNewKeys <= MAX_KEYS
  {
    ghost var m, begun := store.engine.Contents(), store.clock.now;
    PhysicalBound(store);
    SameLiveIff(m, contents, begun);
    count := None;
    if KeyLimitRequiresExactCount(store.engine.total.n, possibleNewKeys) {
      var keys := store.LiveKeyCount();
      ghost var now := store.clock.now;
      SameLiveLater(m, contents, begun, now);
      SweptSame(m, now);
      VisibleSwept(m, now);
      count := Some(keys);
    }
  }

  lemma PhysicalBound(store: Store)
    requires store.Valid()
    ensures |Swept(store.engine.Contents(), store.clock.now)| <= store.engine.total.n
  {
    store.engine.CountersExact();
    SubsetCardinality(Swept(store.engine.Contents(), store.clock.now).Keys, store.engine.Contents().Keys);
  }

  lemma LiveCountShrinks(m: Contents, earlier: nat, later: nat)
    requires earlier <= later
    ensures |Visible(m, later)| <= |Visible(m, earlier)|
  {
    SubsetCardinality(Visible(m, later).Keys, Visible(m, earlier).Keys);
  }
}
