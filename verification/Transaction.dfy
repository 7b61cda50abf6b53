/** Transactions: many commands, one batch, one rollback.

`baseline` remembers the start-of-transaction entry of every key that any
command of the transaction may have changed or evicted, however often. */
module Transactions {
  import opened Model
  import opened Effects
  import opened Shards
  import opened ShardObject
  import opened Datasets
  import opened StoreObject
  import opened Attempts
  import opened CommandRuns
  import opened Prepare
  import opened KeyLimit

  /** The baseline holds the start values of its keys, and every other key still
      has its start value. */
  ghost predicate Baselined(start: View, baseline: map<Bytes, Option<Entry>>, v: View, now: nat) {
    && (forall k :: k in baseline ==> AliveOption(PersistOption(baseline[k]), now) == Lookup(Alive(start, now), k))
    && (forall k :: k !in baseline ==> Lookup(v, k) == Lookup(Alive(start, now), k))
  }

  lemma BaselinedLater(start: View, baseline: map<Bytes, Option<Entry>>, v: View, earlier: nat, later: nat)
    requires earlier <= later && Baselined(start, baseline, v, earlier)
    ensures Baselined(start, baseline, Alive(v, later), later)
  {
    forall k | k in baseline ensures AliveOption(PersistOption(baseline[k]), later) == Lookup(Alive(start, later), k) {
      AliveOptionLater(PersistOption(baseline[k]), earlier, later);
      LookupAlive(start, k, earlier);
      LookupAlive(start, k, later);
    }
    forall k | k !in baseline ensures Lookup(Alive(v, later), k) == Lookup(Alive(start, later), k) {
      LookupAlive(v, k, later);
      LookupAlive(start, k, earlier);
      LookupAlive(start, k, later);
    }
  }

  /** Recording a key that has not changed yet. */
  lemma BaselinedRecord(start: View, baseline: map<Bytes, Option<Entry>>, v: View, now: nat, key: Bytes, entry: Option<Entry>)
    requires Baselined(start, baseline, v, now)
    requires key in baseline || AliveOption(PersistOption(entry), now) == Lookup(v, key)
    ensures Baselined(start, Recorded(baseline, key, entry), v, now)
  {
  }

  function Recorded(baseline: map<Bytes, Option<Entry>>, key: Bytes, entry: Option<Entry>): map<Bytes, Option<Entry>> {
    if key in baseline then baseline else baseline[key := entry]
  }

  /** Changing recorded keys only. */
  lemma BaselinedChange(start: View, baseline: map<Bytes, Option<Entry>>, v: View, after: View, now: nat)
    requires Baselined(start, baseline, v, now)
    requires forall k :: k !in baseline ==> Lookup(after, k) == Lookup(v, k)
    ensures Baselined(start, baseline, after, now)
  {
  }

  /** The start-state with the recorded entries taken literally. */
  ghost function Literal(start: View, baseline: map<Bytes, Option<Entry>>, now: nat): View {
    map k | k in start.Keys + baseline.Keys &&
            (if k in baseline then baseline[k].Some? else Unexpired(start[k].expiresAt, now))
      :: if k in baseline then Persist(baseline[k].value) else start[k]
  }

  lemma LiteralLookup(start: View, baseline: map<Bytes, Option<Entry>>, now: nat, key: Bytes)
    ensures Lookup(Literal(start, baseline, now), key)
         == if key in baseline then PersistOption(baseline[key]) else Lookup(Alive(start, now), key)
  {
  }

  /** One derivation over the recorded keys is exact for the whole transaction. */
  lemma TransactionStepHolds(start: View, baseline: map<Bytes, Option<Entry>>, keys: seq<Bytes>, v: View, now: nat)
    requires Baselined(start, baseline, v, now) && Alive(v, now) == v
    requires forall k :: k in baseline <==> k in keys
    ensures
      var batch := Derive(keys, baseline, [], v);
      if batch == [] then v == Alive(start, now) else StepHolds(batch, Rollback(baseline, []), start, v, now)
  {
    var literal := Literal(start, baseline, now);
    forall k ensures Lookup(Alive(literal, now), k) == Lookup(Alive(start, now), k) {
      LiteralLookup(start, baseline, now, k);
      LookupAlive(literal, k, now);
      LookupAlive(start, k, now);
    }
    SameLookups(Alive(literal, now), Alive(start, now));
    forall k | k in keys ensures PersistOption(Flatten(baseline, k)) == Lookup(literal, k) {
      LiteralLookup(start, baseline, now, k);
    }
    DeriveReplaysMutation(literal, v, keys, baseline, [], now);
    var batch := Derive(keys, baseline, [], v);
    DerivedExpiryIsNeverZero(keys, baseline, [], v, now);
    ApplyBatchAlive(literal, start, batch, now);
    if batch != [] {
      assert Reverts(Rollback(baseline, []), start, v, now) by {
        forall k | k !in baseline ensures Lookup(Alive(start, now), k) == Lookup(Alive(v, now), k) {
        }
      }
    }
  }

  // ---- Sorting the changed keys ----

  predicate Precedes(a: Bytes, b: Bytes) {
    if a == [] then true
    else if b == [] then false
    else a[0] < b[0] || (a[0] == b[0] && Precedes(a[1..], b[1..]))
  }

  /** The strings agree up to `i`, where the first one is smaller. */
  predicate DifferAt(a: Bytes, b: Bytes, i: nat) {
    i < |a| && i < |b| && a[..i] == b[..i] && a[i] < b[i]
  }

  lemma {:induction false} PrecedesIf(a: Bytes, b: Bytes, i: nat)
    requires a <= b || DifferAt(a, b, i)
    ensures Precedes(a, b)
  {
    if a != [] && a[0] == b[0] {
      if a <= b {
        PrecedesIf(a[1..], b[1..], 0);
      } else {
        var k := i - 1;
        assert a[1..][..k] == a[..i][1..] && b[1..][..k] == b[..i][1..];
        PrecedesIf(a[1..], b[1..], k);
      }
    }
  }

  lemma {:induction false} PrecedesOnlyIf(a: Bytes, b: Bytes) returns (i: nat)
    requires Precedes(a, b)
    ensures a <= b || DifferAt(a, b, i)
  {
    i := 0;
    if a != [] && a[0] == b[0] {
      var k := PrecedesOnlyIf(a[1..], b[1..]);
      i := k + 1;
      assert a == [a[0]] + a[1..] && b == [b[0]] + b[1..];
      if DifferAt(a[1..], b[1..], k) {
        assert a[..i] == [a[0]] + a[1..][..k] && b[..i] == [b[0]] + b[1..][..k];
      }
    }
  }

  /** The order of bytes: a prefix, or smaller where they first differ. */
  lemma PrecedesIff(a: Bytes, b: Bytes)
    ensures Precedes(a, b) <==> a <= b || exists i :: DifferAt(a, b, i)
  {
    if Precedes(a, b) {
      var i := PrecedesOnlyIf(a, b);
    }
    if a <= b {
      PrecedesIf(a, b, 0);
    } else if exists i :: DifferAt(a, b, i) {
      var i :| DifferAt(a, b, i);
      PrecedesIf(a, b, i);
    }
  }

  lemma {:induction false} PrecedesTotal(a: Bytes, b: Bytes)
    ensures Precedes(a, b) || Precedes(b, a)
  {
    if a != [] && b != [] && a[0] == b[0] {
      PrecedesTotal(a[1..], b[1..]);
    }
  }

  lemma {:induction false} PrecedesTransitive(a: Bytes, b: Bytes, c: Bytes)
    requires Precedes(a, b) && Precedes(b, c)
    ensures Precedes(a, c)
  {
    if a != [] && b != [] && c != [] && a[0] == b[0] == c[0] {
      PrecedesTransitive(a[1..], b[1..], c[1..]);
    }
  }

  /** The list is in lexicographic order. */
  ghost predicate Ordered(keys: seq<Bytes>) {
    forall i, j :: 0 <= i < j < |keys| ==> Precedes(keys[i], keys[j])
  }

  function InsertKey(keys: seq<Bytes>, key: Bytes): (r: seq<Bytes>)
    ensures multiset(r) == multiset(keys) + multiset{key}
  {
    if keys == [] then [key]
    else if Precedes(key, keys[0]) then
      assert multiset([key] + keys) == multiset(keys) + multiset{key};
      [key] + keys
    else
      assert keys == [keys[0]] + keys[1..];
      [keys[0]] + InsertKey(keys[1..], key)
  }

  lemma {:induction false} InsertOrders(keys: seq<Bytes>, key: Bytes)
    requires Ordered(keys)
    ensures Ordered(InsertKey(keys, key))
  {
    if keys != [] {
      if Precedes(key, keys[0]) {
        FirstPrecedes(key, keys);
      } else {
        PrecedesTotal(key, keys[0]);
        InsertOrders(keys[1..], key);
        var others := InsertKey(keys[1..], key);
        forall k | k in others ensures Precedes(keys[0], k) {
          assert k in multiset(others);
        }
      }
    }
  }

  lemma FirstPrecedes(key: Bytes, keys: seq<Bytes>)
    requires Ordered(keys) && keys != [] && Precedes(key, keys[0])
    ensures Ordered([key] + keys)
  {
    var all := [key] + keys;
    forall i, j | 0 <= i < j < |all| ensures Precedes(all[i], all[j]) {
      if i == 0 && j > 1 {
        PrecedesTransitive(key, keys[0], keys[j - 1]);
      }
    }
  }

  /** Sorting fixes the order of effects: the same keys, in order. */
  function SortKeys(keys: seq<Bytes>): (r: seq<Bytes>)
    ensures Ordered(r) && multiset(r) == multiset(keys)
  {
    if keys == [] then []
    else
      var n := |keys| - 1;
      var sorted := SortKeys(keys[..n]);
      assert keys == keys[..n] + [keys[n]];
      InsertOrders(sorted, keys[n]);
      InsertKey(sorted, keys[n])
  }

  // ---- Recording ----

  /** `changed` names each recorded key once. */
  ghost predicate Tracks(baseline: map<Bytes, Option<Entry>>, changed: seq<Bytes>) {
    multiset(changed) == multiset(baseline.Keys)
  }

  /** Records a key that is new with the entry it held. */
  method RecordKey(baseline: map<Bytes, Option<Entry>>, changed: seq<Bytes>, key: Bytes, entry: Option<Entry>,
                   ghost start: View, ghost v: View, ghost now: nat)
    returns (baseline': map<Bytes, Option<Entry>>, changed': seq<Bytes>)
    requires Tracks(baseline, changed) && Baselined(start, baseline, v, now)
    requires AliveOption(PersistOption(entry), now) == Lookup(v, key)
    ensures Tracks(baseline', changed') && Baselined(start, baseline', v, now)
    ensures key in baseline' && baseline.Keys <= baseline'.Keys
  {
    baseline', changed' := baseline, changed;
    BaselinedRecord(start, baseline, v, now, key, entry);
    if key !in baseline {
      baseline', changed' := baseline[key := entry], changed + [key];
      assert baseline'.Keys == baseline.Keys + {key};
    }
  }

  /** The first `i` keys are recorded. */
  ghost predicate Covers(baseline: map<Bytes, Option<Entry>>, keys: seq<Bytes>, i: nat)
    requires i <= |keys|
  {
    forall j :: 0 <= j < i ==> keys[j] in baseline
  }

  lemma CoversNext(baseline: map<Bytes, Option<Entry>>, baseline': map<Bytes, Option<Entry>>, keys: seq<Bytes>, i: nat, next: nat)
    requires next == i + 1 <= |keys| && Covers(baseline, keys, i) && baseline.Keys <= baseline'.Keys && keys[i] in baseline'
    ensures Covers(baseline', keys, next)
  {
  }

  /** Records the captured entry of each affected key that is new. */
  method RecordAffected(baseline: map<Bytes, Option<Entry>>, changed: seq<Bytes>, keys: seq<Bytes>,
                        before: map<Bytes, Option<Entry>>, ghost start: View, ghost v: View, ghost now: nat)
    returns (baseline': map<Bytes, Option<Entry>>, changed': seq<Bytes>)
    requires Tracks(baseline, changed) && Baselined(start, baseline, v, now)
    requires forall k :: k in keys ==> k in before && AliveOption(PersistOption(before[k]), now) == Lookup(v, k)
    ensures Tracks(baseline', changed') && Baselined(start, baseline', v, now)
    ensures baseline.Keys <= baseline'.Keys && Covers(baseline', keys, |keys|)
  {
    baseline', changed' := baseline, changed;
    var i := 0;
    while i < |keys|
      invariant 0 <= i <= |keys| && baseline.Keys <= baseline'.Keys && Covers(baseline', keys, i)
      invariant Tracks(baseline', changed') && Baselined(start, baseline', v, now)
    {
      var next := i + 1;
      ghost var recorded := baseline';
      baseline', changed' := RecordKey(baseline', changed', keys[i], before[keys[i]], start, v, now);
      CoversNext(recorded, baseline', keys, i, next);
      i := next;
    }
  }

  /** Records each eviction victim that is new. */
  method RecordVictims(baseline: map<Bytes, Option<Entry>>, changed: seq<Bytes>, victims: seq<(Bytes, Entry)>,
                       ghost start: View, ghost v: View, ghost now: nat)
    returns (baseline': map<Bytes, Option<Entry>>, changed': seq<Bytes>)
    requires Tracks(baseline, changed) && Baselined(start, baseline, v, now)
    requires forall i :: 0 <= i < |victims| ==> AliveOption(Some(Persist(victims[i].1)), now) == Lookup(v, victims[i].0)
    ensures Tracks(baseline', changed') && Baselined(start, baseline', v, now)
    ensures baseline.Keys <= baseline'.Keys && Covers(baseline', EvictedKeys(victims), |victims|)
  {
    ghost var keys := EvictedKeys(victims);
    baseline', changed' := baseline, changed;
    var i := 0;
    while i < |victims|
      invariant 0 <= i <= |victims| && baseline.Keys <= baseline'.Keys && Covers(baseline', keys, i)
      invariant Tracks(baseline', changed') && Baselined(start, baseline', v, now)
    {
      var next := i + 1;
      ghost var recorded := baseline';
      baseline', changed' := RecordKey(baseline', changed', victims[i].0, Some(victims[i].1), start, v, now);
      CoversNext(recorded, baseline', keys, i, next);
      i := next;
    }
  }

  /** Afterwards the victims are gone. */
  method RecordRemoval(baseline: map<Bytes, Option<Entry>>, changed: seq<Bytes>, victims: seq<(Bytes, Entry)>,
                       ghost start: View, ghost held: View, ghost v: View, ghost now: nat)
    returns (baseline': map<Bytes, Option<Entry>>, changed': seq<Bytes>)
    requires Tracks(baseline, changed) && Baselined(start, baseline, held, now) && VictimsRemoved(held, victims, v, now)
    ensures Tracks(baseline', changed') && Baselined(start, baseline', v, now)
  {
    baseline', changed' := RecordVictims(baseline, changed, victims, start, held, now);
    forall k | k !in baseline' ensures Lookup(v, k) == Lookup(held, k) {
      assert k !in EvictedKeys(victims);
    }
    BaselinedChange(start, baseline', held, v, now);
  }

  // ---- One command of a transaction ----

  /** Captures the affected keys of a write and records those that are new. */
  method CaptureAffected(store: Store, keys: seq<Bytes>, baseline: map<Bytes, Option<Entry>>, changed: seq<Bytes>, ghost start: View)
    returns (attempt: MutationAttempt, baseline': map<Bytes, Option<Entry>>, changed': seq<Bytes>)
    requires store.Valid() && Tracks(baseline, changed) && Baselined(start, baseline, store.State(), store.clock.now)
    modifies store.Repr
    ensures fresh(attempt) && attempt.Valid() && attempt.store == store && attempt.evicted == [] && attempt.keys == keys
    ensures attempt.contents == old(store.engine.Contents()) && old(store.clock.now) <= attempt.baseline.since
    ensures SameLive(store.engine.Contents(), attempt.contents, store.clock.now)
    ensures Tracks(baseline', changed') && Baselined(start, baseline', store.State(), store.clock.now)
    ensures forall k :: k in keys ==> k in baseline'
  {
    ghost var contents, t0 := store.engine.Contents(), store.clock.now;
    attempt := new MutationAttempt(store, keys);
    ghost var t1, v := store.clock.now, store.State();
    SameVisible(store.engine.Contents(), contents, t1);
    CapturedEntries(attempt, contents, t0, v, t1, start, baseline);
    baseline', changed' := RecordAffected(baseline, changed, keys, attempt.before, start, v, t1);
  }

  lemma CapturedEntries(attempt: MutationAttempt, contents: Contents, t0: nat, v: View, t1: nat, start: View, baseline: map<Bytes, Option<Entry>>)
    requires attempt.Sound() && attempt.contents == contents && t0 <= attempt.baseline.since <= t1 && v == Visible(contents, t1)
    requires Baselined(start, baseline, Visible(contents, t0), t0)
    ensures Baselined(start, baseline, v, t1)
    ensures forall k :: k in attempt.keys ==> k in attempt.before && AliveOption(PersistOption(attempt.before[k]), t1) == Lookup(v, k)
  {
    VisibleLater(contents, t0, t1);
    VisibleLater(contents, attempt.baseline.since, t1);
    BaselinedLater(start, baseline, Visible(contents, t0), t0, t1);
    forall k | k in attempt.keys ensures k in attempt.before && AliveOption(PersistOption(attempt.before[k]), t1) == Lookup(v, k) {
      LookupAlive(attempt.start, k, t1);
    }
  }

  /** Whatever an attempt leaves behind, only recorded keys differ. */
  lemma AttemptBaselined(attempt: MutationAttempt, command: Command, held: Contents, at: nat, start: View, baseline: map<Bytes, Option<Entry>>,
                         v: View, earlier: nat, now: nat)
    requires Tried(attempt, command, held, at) && at <= now && earlier <= now && Baselined(start, baseline, v, earlier)
    requires Alive(v, now) == Alive(attempt.start, now) && forall k :: k in attempt.keys ==> k in baseline
    ensures Baselined(start, baseline, Visible(held, now), now)
  {
    BaselinedLater(start, baseline, v, earlier, now);
    TriedLater(attempt, command, held, at, now);
    BaselinedChange(start, baseline, Alive(v, now), Visible(held, now), now);
  }

  /** Admits the command's change and records its victims, or undoes it. */
  method AdmitRecorded(attempt: MutationAttempt, keys: seq<Bytes>, baseline: map<Bytes, Option<Entry>>, changed: seq<Bytes>,
                       ghost start: View, ghost command: Command, ghost held: Contents, ghost at: nat, ghost v: View, ghost earlier: nat)
    returns (baseline': map<Bytes, Option<Entry>>, changed': seq<Bytes>, ghost verdict: Verdict)
    requires attempt.Valid() && attempt.evicted == [] && keys == attempt.keys
    requires Tried(attempt, command, held, at) && at <= attempt.store.clock.now
    requires SameLive(attempt.store.engine.Contents(), held, attempt.store.clock.now)
    requires Tracks(baseline, changed) && Recording(attempt, start, baseline, v, earlier) && earlier <= at
    modifies attempt, attempt.store.Repr
    ensures attempt.Valid() && old(attempt.store.clock.now) <= attempt.store.clock.now
    ensures Tracks(baseline', changed') && Baselined(start, baseline', attempt.store.State(), attempt.store.clock.now)
    ensures !verdict.NoChange?
    ensures Settled(attempt, command, held, at, verdict, attempt.store.engine.Contents(), attempt.store.clock.now)
    ensures |attempt.start| <= MAX_KEYS ==> |attempt.store.State()| <= MAX_KEYS
  {
    var refusal;
    ghost var checked, later, c;
    refusal, checked, later, c := AdmitProbed(attempt, keys, command, held);
    baseline', changed' := baseline, changed;
    if refusal.None? {
      ghost var now, m := attempt.store.clock.now, attempt.store.engine.Contents();
      GrantedVisible(attempt, command, held, at, attempt.evicted, m, c, now);
      RecordedHeld(attempt, command, held, at, start, baseline, v, earlier, now);
      baseline', changed' := RecordRemoval(baseline, changed, attempt.evicted, start, Visible(held, now), Visible(m, now), now);
      verdict := Admitted(attempt.evicted, c);
    } else {
      verdict := Refusal(refusal.value, checked, later);
      UndoAttempt(attempt, command, held, at);
      AliveShrinks(attempt.start, attempt.store.clock.now);
      RecordedStart(attempt, start, baseline, v, earlier, attempt.store.clock.now);
    }
  }

  /** `v` is the state that the attempt began with, as recorded. */
  ghost predicate Recording(attempt: MutationAttempt, start: View, baseline: map<Bytes, Option<Entry>>, v: View, earlier: nat) {
    && attempt.baseline.since <= earlier && v == Visible(attempt.contents, earlier) && Baselined(start, baseline, v, earlier)
    && forall k :: k in attempt.keys ==> k in baseline
  }

  lemma RecordedStart(attempt: MutationAttempt, start: View, baseline: map<Bytes, Option<Entry>>, v: View, earlier: nat, now: nat)
    requires attempt.Sound() && earlier <= now && Recording(attempt, start, baseline, v, earlier)
    ensures Alive(v, now) == Alive(attempt.start, now) && Baselined(start, baseline, Alive(attempt.start, now), now)
  {
    VisibleLater(attempt.contents, earlier, now);
    VisibleLater(attempt.contents, attempt.baseline.since, now);
    BaselinedLater(start, baseline, v, earlier, now);
  }

  lemma RecordedHeld(attempt: MutationAttempt, command: Command, held: Contents, at: nat, start: View, baseline: map<Bytes, Option<Entry>>,
                     v: View, earlier: nat, now: nat)
    requires Tried(attempt, command, held, at) && earlier <= at <= now && Recording(attempt, start, baseline, v, earlier)
    ensures Baselined(start, baseline, Visible(held, now), now)
  {
    RecordedStart(attempt, start, baseline, v, earlier, now);
    AttemptBaselined(attempt, command, held, at, start, baseline, v, earlier, now);
  }

  /** Probes for a change and admits it. */
  method SettleRecorded(attempt: MutationAttempt, keys: seq<Bytes>, baseline: map<Bytes, Option<Entry>>, changed: seq<Bytes>,
                        ghost start: View, ghost command: Command, ghost held: Contents, ghost at: nat, ghost v: View, ghost earlier: nat)
    returns (baseline': map<Bytes, Option<Entry>>, changed': seq<Bytes>, ghost verdict: Verdict)
    requires attempt.Valid() && attempt.evicted == [] && keys == attempt.keys
    requires Tried(attempt, command, held, at) && at == attempt.store.clock.now && attempt.store.engine.Contents() == held
    requires Tracks(baseline, changed) && Recording(attempt, start, baseline, v, earlier) && earlier <= at
    modifies attempt, attempt.store.Repr
    ensures attempt.Valid() && at <= attempt.store.clock.now
    ensures Tracks(baseline', changed') && Baselined(start, baseline', attempt.store.State(), attempt.store.clock.now)
    ensures Settled(attempt, command, held, at, verdict, attempt.store.engine.Contents(), attempt.store.clock.now)
    ensures verdict.NoChange? ==> attempt.store.State() == Alive(attempt.start, attempt.store.clock.now)
    ensures |attempt.start| <= MAX_KEYS ==> |attempt.store.State()| <= MAX_KEYS
  {
    baseline', changed', verdict := baseline, changed, NoChange;
    var changes := Probe(attempt, keys, command, held, at);
    if changes {
      baseline', changed', verdict := AdmitRecorded(attempt, keys, baseline, changed, start, command, held, at, v, earlier);
    } else {
      RecordedStart(attempt, start, baseline, v, earlier, attempt.store.clock.now);
      AliveShrinks(attempt.start, attempt.store.clock.now);
    }
  }

  method TransactionWrite(store: Store, command: Command, baseline: map<Bytes, Option<Entry>>, changed: seq<Bytes>, ghost start: View)
    returns (baseline': map<Bytes, Option<Entry>>, changed': seq<Bytes>, ghost t: Trace)
    requires store.Valid() && Tracks(baseline, changed) && Baselined(start, baseline, store.State(), store.clock.now)
    modifies store.Repr
    ensures store.Valid() && old(store.clock.now) <= store.clock.now
    ensures Tracks(baseline', changed') && Baselined(start, baseline', store.State(), store.clock.now)
    ensures Ran(store.Bounds(), old(store.engine.Contents()), command, t, store.engine.Contents(), store.clock.now)
    ensures |old(store.State())| <= MAX_KEYS ==> |store.State()| <= MAX_KEYS
  {
    ghost var contents, begun := store.engine.Contents(), store.clock.now;
    var attempt;
    attempt, baseline', changed' := CaptureAffected(store, command.Affected(), baseline, changed, start);
    ghost var v, earlier := store.State(), store.clock.now;
    SameVisible(store.engine.Contents(), contents, earlier);
    ExecuteTentative(attempt, command);
    ghost var held, at, verdict := store.engine.Contents(), store.clock.now, NoChange;
    baseline', changed', verdict := SettleRecorded(attempt, command.Affected(), baseline', changed', start, command, held, at, v, earlier);
    t := Trace(attempt.baseline, at, held, verdict, at);
    SettledRan(attempt, command, held, at, verdict, at, store.engine.Contents(), store.clock.now);
    LiveCountShrinks(contents, begun, attempt.baseline.since);
  }

  method TransactionRead(store: Store, command: Command, ghost baseline: map<Bytes, Option<Entry>>, ghost start: View)
    returns (ghost t: Trace)
    requires store.Valid() && !command.write && Baselined(start, baseline, store.State(), store.clock.now)
    modifies store.Repr
    ensures store.Valid() && old(store.clock.now) <= store.clock.now
    ensures Baselined(start, baseline, store.State(), store.clock.now)
    ensures Ran(store.Bounds(), old(store.engine.Contents()), command, t, store.engine.Contents(), store.clock.now)
    ensures |old(store.State())| <= MAX_KEYS ==> |store.State()| <= MAX_KEYS
  {
    ghost var contents, begun := store.engine.Contents(), store.clock.now;
    store.Execute(command);
    ghost var now := store.clock.now;
    t := ReadRan(store.Bounds(), contents, command, store.engine.Contents(), now);
    VisibleLater(contents, begun, now);
    BaselinedLater(start, baseline, Visible(contents, begun), begun, now);
    LiveCountShrinks(contents, begun, now);
  }

  /** A command without persistent keys changes nothing persistent. */
  lemma ReadRan(l: Limits, contents: Contents, command: Command, m: Contents, now: nat) returns (t: Trace)
    requires !command.write && Executes(contents, command, m, now)
    ensures Ran(l, contents, command, t, m, now) && Visible(m, now) == Visible(contents, now)
  {
    ExecutesVisible(contents, command, m, now);
    SameLookups(Visible(m, now), Visible(contents, now));
    var bytes := if l.maxMemory > 0 then Some(TotalSize(Swept(contents, now), l.sizeOf)) else None;
    t := Trace(Baseline(now, now, now, None, bytes), now, m, NoChange, now);
    assert Missing(Entries(contents, command.Affected(), now)) == {};
  }

  /** One command of the transaction, recorded at the end of its execution. */
  method TransactionStep(store: Store, commands: seq<Command>, i: nat, ghost next: nat, baseline: map<Bytes, Option<Entry>>, changed: seq<Bytes>,
                         ghost start: View, ghost contents: Contents, ghost e: Execution)
    returns (baseline': map<Bytes, Option<Entry>>, changed': seq<Bytes>, ghost e': Execution)
    requires store.Valid() && i < |commands| && next == i + 1
    requires Tracks(baseline, changed) && Baselined(start, baseline, store.State(), store.clock.now)
    requires Progress(store, commands, i, e, contents)
    modifies store.Repr
    ensures store.Valid() && old(store.clock.now) <= store.clock.now
    ensures Tracks(baseline', changed') && Baselined(start, baseline', store.State(), store.clock.now)
    ensures Progress(store, commands, next, e', contents)
    ensures |old(store.State())| <= MAX_KEYS ==> |store.State()| <= MAX_KEYS
  {
    ghost var m, t0, t := store.engine.Contents(), store.clock.now, Trace(Baseline(0, 0, 0, None, None), 0, map[], NoChange, 0);
    baseline', changed' := baseline, changed;
    if commands[i].write {
      baseline', changed', t := TransactionWrite(store, commands[i], baseline, changed, start);
    } else {
      t := TransactionRead(store, commands[i], baseline, start);
    }
    ghost var after, now := store.engine.Contents(), store.clock.now;
    PerformedLater(store.Bounds(), commands[..i], e, contents, m, t0, now);
    PerformedUpTo(store.Bounds(), commands, i, next, e, contents, t, after, now);
    e' := Execution(e.traces + [t], e.mids + [after]);
  }

  /** The first `i` commands ran and left the contents that the store holds. */
  ghost predicate Progress(store: Store, commands: seq<Command>, i: nat, e: Execution, contents: Contents)
    requires i <= |commands|
    reads store.engine.shards, store.clock
  {
    && Performed(store.Bounds(), commands[..i], e, contents, store.engine.Contents(), store.clock.now)
    && e.mids[i] == store.engine.Contents()
  }

  /** The recorded keys, each once, in byte order. */
  ghost predicate Names(keys: seq<Bytes>, baseline: map<Bytes, Option<Entry>>) {
    Ordered(keys) && multiset(keys) == multiset(baseline.Keys)
  }

  /** Runs all commands, each of them exactly once and in order, and derives the one
      batch of the transaction. */
  method PrepareTransaction(store: Store, commands: seq<Command>)
    returns (batch: Batch, rollback: Rollback, keys: seq<Bytes>, ghost e: Execution)
    requires store.Valid()
    modifies store.Repr
    ensures store.Valid() && old(store.clock.now) <= store.clock.now
    ensures Performed(store.Bounds(), commands, e, old(store.engine.Contents()), store.engine.Contents(), store.clock.now)
    ensures batch == [] ==> store.State() == Visible(old(store.engine.Contents()), store.clock.now)
    ensures batch != [] ==>
      StepHolds(batch, rollback, Visible(old(store.engine.Contents()), store.clock.now), store.State(), store.clock.now)
    ensures Names(keys, rollback.before) && batch == Derive(keys, rollback.before, [], store.State())
    ensures |old(store.State())| <= MAX_KEYS ==> |store.State()| <= MAX_KEYS
  {
    ghost var contents, begun := store.engine.Contents(), store.clock.now;
    ghost var start := store.State();
    var baseline, changed;
    baseline, changed, e := RunTransaction(store, commands);
    rollback := Rollback(baseline, []);
    ghost var m, t1 := store.engine.Contents(), store.clock.now;
    batch, keys := DeriveTransaction(store, baseline, changed, start);
    ghost var now := store.clock.now;
    ghost var derived := store.engine.Contents();
    SweptWithin(m, derived, t1, now);
    PerformedLater(store.Bounds(), commands, e, contents, m, t1, now);
    PerformedTo(store.Bounds(), commands, e, contents, m, derived, now);
    TransactionConcluded(contents, begun, batch, rollback, Visible(derived, now), now);
  }

  lemma SweptWithin(m: Contents, derived: Contents, earlier: nat, now: nat)
    requires earlier <= now && SameLive(m, derived, now)
    ensures |Visible(derived, now)| <= |Visible(m, earlier)|
  {
    SameVisible(m, derived, now);
    LiveCountShrinks(m, earlier, now);
  }

  lemma TransactionConcluded(contents: Contents, begun: nat, batch: Batch, rollback: Rollback, v: View, now: nat)
    requires begun <= now
    requires if batch == [] then v == Alive(Visible(contents, begun), now) else StepHolds(batch, rollback, Visible(contents, begun), v, now)
    ensures if batch == [] then v == Visible(contents, now) else StepHolds(batch, rollback, Visible(contents, now), v, now)
  {
    VisibleLater(contents, begun, now);
    VisibleIsAlive(contents, now);
    if batch != [] {
      StepHoldsFrom(batch, rollback, Visible(contents, begun), Visible(contents, now), v, now);
    }
  }

  method RunTransaction(store: Store, commands: seq<Command>)
    returns (baseline: map<Bytes, Option<Entry>>, changed: seq<Bytes>, ghost e: Execution)
    requires store.Valid()
    modifies store.Repr
    ensures store.Valid() && old(store.clock.now) <= store.clock.now
    ensures Tracks(baseline, changed) && Baselined(old(store.State()), baseline, store.State(), store.clock.now)
    ensures Performed(store.Bounds(), commands, e, old(store.engine.Contents()), store.engine.Contents(), store.clock.now)
    ensures |old(store.State())| <= MAX_KEYS ==> |store.State()| <= MAX_KEYS
  {
    ghost var contents, start, begun := store.engine.Contents(), store.State(), store.clock.now;
    VisibleIsAlive(contents, begun);
    PerformedNothing(store.Bounds(), contents, begun);
    baseline, changed, e := map[], [], Execution([], [contents]);
    var i := 0;
    assert commands[..0] == [];
    while i < |commands|
      invariant 0 <= i <= |commands|
      invariant store.Valid() && begun <= store.clock.now
      invariant Tracks(baseline, changed) && Baselined(start, baseline, store.State(), store.clock.now)
      invariant Progress(store, commands, i, e, contents)
      invariant |start| <= MAX_KEYS ==> |store.State()| <= MAX_KEYS
    {
      var next := i + 1;
      baseline, changed, e := TransactionStep(store, commands, i, next, baseline, changed, start, contents, e);
      i := next;
    }
    assert commands[..i] == commands;
  }

  method DeriveTransaction(store: Store, baseline: map<Bytes, Option<Entry>>, changed: seq<Bytes>, ghost start: View)
    returns (batch: Batch, keys: seq<Bytes>)
    requires store.Valid() && Tracks(baseline, changed) && Baselined(start, baseline, store.State(), store.clock.now)
    modifies store.Repr
    ensures store.Valid() && old(store.clock.now) <= store.clock.now
    ensures SameLive(old(store.engine.Contents()), store.engine.Contents(), store.clock.now)
    ensures if batch == [] then store.State() == Alive(start, store.clock.now)
            else StepHolds(batch, Rollback(baseline, []), start, store.State(), store.clock.now)
    ensures Names(keys, baseline) && batch == Derive(keys, baseline, [], store.State())
  {
    ghost var contents, t0 := store.engine.Contents(), store.clock.now;
    keys := SortKeys(changed);
    forall k ensures k in keys <==> k in baseline {
      assert k in multiset(keys) <==> k in multiset(baseline.Keys);
    }
    batch := store.DeriveCommittedBatch(keys, baseline, []);
    ghost var now := store.clock.now;
    VisibleLater(contents, t0, now);
    VisibleIsAlive(contents, now);
    BaselinedLater(start, baseline, Visible(contents, t0), t0, now);
    TransactionStepHolds(start, baseline, keys, Visible(contents, now), now);
  }
}
