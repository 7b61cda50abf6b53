/** Speculative execution of one commit request under the commit boundary.

Each preparation either leaves the persistent state as it found it, or returns
the canonical batches of what it changed together with the rollbacks that undo
it; `Journal` says that both are exact. */
module Prepare {
  import opened Model
  import opened Effects
  import opened Shards
  import opened ShardObject
  import opened Datasets
  import opened StoreObject
  import opened Attempts
  import opened CommandRuns
  import opened KeyLimit

  /** Victims are never captured keys, so batch and rollback cover every change. */
  lemma AttemptReverts(start: View, before: map<Bytes, Option<Entry>>, keys: seq<Bytes>, held: View,
                       evicted: seq<(Bytes, Entry)>, after: View, now: nat)
    requires Captures(before, keys, start)
    requires OnlyCapturedChanged(start, before, held, now)
    requires VictimsRemoved(held, evicted, after, now) && Spared(evicted, before.Keys)
    ensures Reverts(Rollback(before, evicted), start, after, now)
  {
    forall k | k in before ensures AliveOption(PersistOption(before[k]), now) == Lookup(Alive(start, now), k) {
      LookupAlive(start, k, now);
    }
    forall k | k !in before && LastEvicted(evicted, k).None?
      ensures Lookup(Alive(start, now), k) == Lookup(Alive(after, now), k)
    {
      assert k !in EvictedKeys(evicted);
      LookupAlive(after, k, now);
      assert Lookup(after, k) == Lookup(held, k) == Lookup(Alive(start, now), k);
      LookupAlive(start, k, now);
    }
  }

  lemma ChangedLater(start: View, before: map<Bytes, Option<Entry>>, v: View, earlier: nat, later: nat)
    requires earlier <= later && OnlyCapturedChanged(start, before, v, earlier)
    ensures OnlyCapturedChanged(start, before, Alive(v, later), later)
  {
    forall k | k !in before ensures Lookup(Alive(v, later), k) == Lookup(Alive(start, later), k) {
      LookupAlive(v, k, later);
      LookupAlive(start, k, earlier);
      LookupAlive(start, k, later);
    }
  }

  /** The batch derived after admission is exact in both directions. */
  lemma AdmittedStepHolds(start: View, before: map<Bytes, Option<Entry>>, keys: seq<Bytes>, held: View,
                          evicted: seq<(Bytes, Entry)>, after: View, now: nat)
    requires Captures(before, keys, start)
    requires OnlyCapturedChanged(start, before, held, now)
    requires VictimsRemoved(held, evicted, after, now) && Spared(evicted, before.Keys)
    requires Alive(after, now) == after
    requires Derive(keys, before, EvictedKeys(evicted), after) != []
    ensures StepHolds(Derive(keys, before, EvictedKeys(evicted), after), Rollback(before, evicted), start, after, now)
  {
    var victims := EvictedKeys(evicted);
    forall k | k in keys ensures PersistOption(Flatten(before, k)) == Lookup(start, k) {
      assert k in before;
    }
    forall k | k !in keys && k !in victims ensures Lookup(Alive(start, now), k) == Lookup(after, k) {
      assert k !in before;
      assert Lookup(after, k) == Lookup(held, k);
    }
    forall k | k in victims && k !in keys ensures k !in after {
      assert Lookup(after, k) == None;
    }
    DeriveReplaysMutation(start, after, keys, before, victims, now);
    DerivedExpiryIsNeverZero(keys, before, victims, after, now);
    AttemptReverts(start, before, keys, held, evicted, after, now);
  }

  /** No batch means that every captured key is as it was, hence that nothing changed. */
  lemma NoBatchNoChange(start: View, before: map<Bytes, Option<Entry>>, keys: seq<Bytes>, v: View, now: nat)
    requires Captures(before, keys, start)
    requires OnlyCapturedChanged(start, before, v, now)
    requires Alive(v, now) == v && Derive(keys, before, [], v) == []
    ensures v == Alive(start, now)
  {
    forall k | k in keys ensures PersistOption(Flatten(before, k)) == Lookup(start, k) {
      assert k in before;
    }
    forall k | k !in keys ensures Lookup(Alive(start, now), k) == Lookup(v, k) {
      assert k !in before;
    }
    DeriveReplaysMutation(start, v, keys, before, [], now);
  }

  /** The batch derived after admission is empty exactly when there were no victims
      and the change has vanished since: this is when preparation fails. */
  lemma SecondDerivationEmptyIff(before: map<Bytes, Option<Entry>>, keys: seq<Bytes>, held: View,
                                 evicted: seq<(Bytes, Entry)>, after: View, now: nat, later: nat)
    requires (forall k :: k in before <==> k in keys) && now <= later
    requires VictimsRemoved(held, evicted, after, now) && Spared(evicted, before.Keys)
    ensures Derive(keys, before, EvictedKeys(evicted), Alive(after, later)) == []
       <==> evicted == [] && Vanished(keys, before, held, later)
  {
    DeriveEmptyIffUnchanged(keys, before, EvictedKeys(evicted), Alive(after, later));
    if evicted == [] {
      forall k ensures Lookup(after, k) == Lookup(held, k) {
      }
      SameLookups(after, held);
      DeriveLaterEmptyIff(keys, before, held, later);
    } else {
      assert EvictedKeys(evicted) != [];
    }
  }

  // ---- One tentative command ----

  datatype Preparation =
    | Unchanged
    | Refused(error: AdmissionError)
    | Mutation(batch: Batch, rollback: Rollback)
    | Failed

  /** The command was executed as part of the attempt, leaving `held` at `at`. */
  ghost predicate Tried(attempt: MutationAttempt, command: Command, held: Contents, at: nat) {
    && attempt.Sound() && attempt.keys == command.Affected() && attempt.baseline.measured <= at
    && Executes(attempt.contents, command, held, at)
    && OnlyCapturedChanged(attempt.start, attempt.before, Visible(held, at), at)
  }

  /** Executing depends on the live entries only. */
  lemma ExecutesFrom(a: Contents, m: Contents, command: Command, after: Contents, now: nat)
    requires SameLive(a, m, now) && Executes(m, command, after, now)
    ensures Executes(a, command, after, now)
  {
    TouchedSame(a, m, command.reads_, now);
    var x, y := TouchedAll(a, command.reads_, now), TouchedAll(m, command.reads_, now);
    assert Entries(x, command.Affected(), now) == Entries(y, command.Affected(), now);
  }

  lemma {:induction false} TouchedSame(a: Contents, m: Contents, keys: seq<Bytes>, now: nat)
    requires SameLive(a, m, now)
    ensures SameLive(TouchedAll(a, keys, now), TouchedAll(m, keys, now), now)
  {
    if keys != [] {
      var front, key := keys[..|keys| - 1], keys[|keys| - 1];
      TouchedSame(a, m, front, now);
      var x, y := TouchedAll(a, front, now), TouchedAll(m, front, now);
      assert At(x, key, now) == At(y, key, now);
      forall k ensures At(TouchedAll(a, keys, now), k, now) == At(TouchedAll(m, keys, now), k, now) {
        assert At(x, k, now) == At(y, k, now);
      }
    }
  }

  lemma ExecutedIsTried(attempt: MutationAttempt, command: Command, captured: Contents, held: Contents, at: nat)
    requires attempt.Sound() && attempt.keys == command.Affected() && attempt.baseline.measured <= at
    requires SameLive(captured, attempt.contents, at) && Executes(captured, command, held, at)
    ensures Tried(attempt, command, held, at)
  {
    ExecutesFrom(attempt.contents, captured, command, held, at);
    ExecutesVisible(attempt.contents, command, held, at);
    VisibleLater(attempt.contents, attempt.baseline.since, at);
  }

  /** Executes the command tentatively. */
  method ExecuteTentative(attempt: MutationAttempt, command: Command)
    requires attempt.Valid() && attempt.keys == command.Affected()
    requires SameLive(attempt.store.engine.Contents(), attempt.contents, attempt.store.clock.now)
    modifies attempt.store.Repr
    ensures attempt.Valid() && old(attempt.store.clock.now) <= attempt.store.clock.now
    ensures Tried(attempt, command, attempt.store.engine.Contents(), attempt.store.clock.now)
  {
    ghost var captured, t0 := attempt.store.engine.Contents(), attempt.store.clock.now;
    attempt.store.Execute(command);
    ghost var at := attempt.store.clock.now;
    SameLiveLater(captured, attempt.contents, t0, at);
    ExecutedIsTried(attempt, command, captured, attempt.store.engine.Contents(), at);
  }

  /** What is left of an attempt's result later on. */
  lemma TriedLater(attempt: MutationAttempt, command: Command, held: Contents, at: nat, later: nat)
    requires Tried(attempt, command, held, at) && at <= later
    ensures OnlyCapturedChanged(attempt.start, attempt.before, Visible(held, later), later)
    ensures Alive(Visible(held, later), later) == Visible(held, later)
  {
    ChangedLater(attempt.start, attempt.before, Visible(held, at), at, later);
    VisibleLater(held, at, later);
    VisibleIsAlive(held, later);
  }

  lemma SameVanished(keys: seq<Bytes>, before: map<Bytes, Option<Entry>>, held: Contents, earlier: nat, later: nat)
    requires earlier <= later
    ensures Vanished(keys, before, Visible(held, earlier), later) <==> Derive(keys, before, [], Visible(held, later)) == []
  {
    VisibleLater(held, earlier, later);
    DeriveLaterEmptyIff(keys, before, Visible(held, earlier), later);
  }

  /** Whether the command changed anything persistent. */
  method Probe(attempt: MutationAttempt, keys: seq<Bytes>, ghost command: Command, ghost held: Contents, ghost at: nat) returns (changed: bool)
    requires attempt.Valid() && keys == attempt.keys && Tried(attempt, command, held, at) && at == attempt.store.clock.now
    requires attempt.store.engine.Contents() == held
    modifies attempt.store.Repr
    ensures attempt.Valid() && at <= attempt.store.clock.now
    ensures SameLive(attempt.store.engine.Contents(), held, attempt.store.clock.now)
    ensures changed <==> !Vanished(keys, attempt.before, Visible(held, at), attempt.store.clock.now)
    ensures !changed ==> attempt.store.State() == Alive(attempt.start, attempt.store.clock.now)
  {
    var batch := attempt.store.DeriveCommittedBatch(keys, attempt.before, []);
    changed := batch != [];
    ghost var now := attempt.store.clock.now;
    TriedLater(attempt, command, held, at, now);
    SameVanished(keys, attempt.before, held, at, now);
    if !changed {
      NoBatchNoChange(attempt.start, attempt.before, keys, Visible(held, now), now);
    }
  }

  /** Admission of what the attempt has stored. */
  method AdmitProbed(attempt: MutationAttempt, keys: seq<Bytes>, ghost command: Command, ghost held: Contents)
    returns (refusal: Option<AdmissionError>, ghost at: nat, ghost later: nat, ghost c: Checks)
    requires attempt.Valid() && attempt.evicted == [] && keys == attempt.keys == command.Affected()
    requires SameLive(attempt.store.engine.Contents(), held, attempt.store.clock.now)
    modifies attempt, attempt.store.Repr
    ensures attempt.Valid() && old(attempt.store.clock.now) <= attempt.store.clock.now
    ensures refusal.Some? ==>
      && attempt.evicted == [] && SameLive(attempt.store.engine.Contents(), held, attempt.store.clock.now)
      && old(attempt.store.clock.now) <= at && later <= attempt.store.clock.now
      && Justified(refusal.value, held, attempt.store.Bounds(), KeySet(command), attempt.baseline, at, later)
    ensures refusal.None? ==>
      && old(attempt.store.clock.now) <= c.counted && c.fitted <= attempt.store.clock.now
      && Removed(held, attempt.evicted, attempt.store.engine.Contents(), attempt.store.clock.now)
      && Granted(attempt.evicted, held, attempt.store.Bounds(), KeySet(command), attempt.baseline, c)
  {
    var protected := set k | k in keys;
    assert protected == KeySet(command);
    refusal, at, later, c := attempt.Admit(protected, held);
  }

  /** What a granted admission means for the persistent state. */
  lemma GrantedVisible(attempt: MutationAttempt, command: Command, held: Contents, at: nat, evicted: seq<(Bytes, Entry)>, m: Contents, c: Checks, now: nat)
    requires Tried(attempt, command, held, at) && at <= c.counted && c.fitted <= now
    requires Removed(held, evicted, m, now) && Granted(evicted, held, attempt.store.Bounds(), KeySet(command), attempt.baseline, c)
    ensures VictimsRemoved(Visible(held, now), evicted, Visible(m, now), now) && Spared(evicted, attempt.before.Keys)
    ensures OnlyCapturedChanged(attempt.start, attempt.before, Visible(held, now), now)
    ensures |attempt.start| <= MAX_KEYS ==> |Visible(m, now)| <= MAX_KEYS
  {
    RemovedVisible(held, evicted, m, attempt.store.Bounds(), KeySet(command), attempt.baseline, c, now);
    GrantedKeys(evicted, held, m, attempt.store.Bounds(), KeySet(command), attempt.baseline, c, now);
    TriedLater(attempt, command, held, at, now);
    assert attempt.before.Keys == KeySet(command);
    RemovalShrinks(Visible(held, now), evicted, Visible(m, now), now);
    GrowthBound(attempt.start, attempt.before, attempt.keys, Visible(held, now), now);
  }

  /** Undoes an attempt whose victims are already back, or that has none. */
  method UndoAttempt(attempt: MutationAttempt, ghost command: Command, ghost held: Contents, ghost at: nat)
    requires attempt.Valid() && attempt.evicted == [] && Tried(attempt, command, held, at) && at <= attempt.store.clock.now
    requires SameLive(attempt.store.engine.Contents(), held, attempt.store.clock.now)
    modifies attempt.store.Repr
    ensures attempt.Valid() && old(attempt.store.clock.now) <= attempt.store.clock.now
    ensures Undone(held, attempt.before, attempt.store.engine.Contents(), attempt.store.clock.now)
    ensures attempt.store.State() == Alive(attempt.start, attempt.store.clock.now)
  {
    ghost var m, begun := attempt.store.engine.Contents(), attempt.store.clock.now;
    attempt.store.RestoreEntries(Rollback(attempt.before, []));
    ghost var now := attempt.store.clock.now;
    SameLiveLater(m, held, begun, now);
    UndoneState(attempt, command, held, at, attempt.store.engine.Contents(), now);
  }

  lemma UndoneState(attempt: MutationAttempt, command: Command, held: Contents, at: nat, m: Contents, now: nat)
    requires Tried(attempt, command, held, at) && at <= now && Undone(held, attempt.before, m, now)
    ensures Visible(m, now) == Alive(attempt.start, now)
  {
    TriedLater(attempt, command, held, at, now);
    forall k ensures Lookup(Visible(m, now), k) == Lookup(Alive(attempt.start, now), k) {
      SweptAt(m, k, now);
      SweptAt(held, k, now);
      LookupAlive(attempt.start, k, now);
    }
    SameLookups(Visible(m, now), Alive(attempt.start, now));
  }

  /** Derives the batch of an admitted mutation, or undoes a mutation that has
      vanished meanwhile. */
  method DeriveAdmitted(attempt: MutationAttempt, keys: seq<Bytes>, ghost command: Command, ghost held: Contents, ghost at: nat, ghost c: Checks)
    returns (r: Preparation, ghost derived: nat)
    requires attempt.Valid() && keys == attempt.keys && Tried(attempt, command, held, at) && at <= c.counted && c.fitted <= attempt.store.clock.now
    requires Removed(held, attempt.evicted, attempt.store.engine.Contents(), attempt.store.clock.now)
    requires Granted(attempt.evicted, held, attempt.store.Bounds(), KeySet(command), attempt.baseline, c)
    modifies attempt.store.Repr
    ensures attempt.Valid() && old(attempt.store.clock.now) <= derived <= attempt.store.clock.now
    ensures r.Mutation? || r.Failed?
    ensures r.Failed? <==> attempt.evicted == [] && Vanished(keys, attempt.before, Visible(held, at), derived)
    ensures r.Failed? ==> attempt.store.State() == Alive(attempt.start, attempt.store.clock.now)
    ensures r.Mutation? ==> Removed(held, attempt.evicted, attempt.store.engine.Contents(), attempt.store.clock.now)
    ensures r.Mutation? ==> r.batch == Canonical(keys, attempt.before, attempt.evicted, held, derived)
    ensures r.Mutation? ==> StepHolds(r.batch, r.rollback, attempt.start, attempt.store.State(), attempt.store.clock.now)
  {
    ghost var m, begun := attempt.store.engine.Contents(), attempt.store.clock.now;
    var batch := attempt.store.DeriveCommittedBatch(keys, attempt.before, attempt.evicted);
    derived := attempt.store.clock.now;
    RemovedLater(held, attempt.evicted, m, begun, derived);
    GrantedVisible(attempt, command, held, at, attempt.evicted, m, c, derived);
    DerivedEmptyIff(attempt, keys, held, at, m, derived);
    VisibleIsAlive(m, derived);
    assert batch == Canonical(keys, attempt.before, attempt.evicted, held, derived) by {
      RemovedIsDropping(held, attempt.evicted, m, derived);
      SameVisible(m, Dropping(held, EvictedKeys(attempt.evicted)), derived);
    }
    if batch == [] {
      UndoAttempt(attempt, command, held, at);
      return Failed, derived;
    }
    AdmittedStepHolds(attempt.start, attempt.before, keys, Visible(held, derived), attempt.evicted, Visible(m, derived), derived);
    r := Mutation(batch, Rollback(attempt.before, attempt.evicted));
  }

  lemma DerivedEmptyIff(attempt: MutationAttempt, keys: seq<Bytes>, held: Contents, at: nat, m: Contents, derived: nat)
    requires attempt.Sound() && keys == attempt.keys && at <= derived
    requires VictimsRemoved(Visible(held, derived), attempt.evicted, Visible(m, derived), derived)
    requires Spared(attempt.evicted, attempt.before.Keys)
    ensures Derive(keys, attempt.before, EvictedKeys(attempt.evicted), Visible(m, derived)) == []
       <==> attempt.evicted == [] && Vanished(keys, attempt.before, Visible(held, at), derived)
  {
    VisibleIsAlive(m, derived);
    SecondDerivationEmptyIff(attempt.before, keys, Visible(held, derived), attempt.evicted, Visible(m, derived), derived, derived);
    SameVanished(keys, attempt.before, held, at, derived);
    SameVanished(keys, attempt.before, held, derived, derived);
  }

  /** The verdict and the result follow from what the derivations saw: nothing
      changed, or admission refused, or the change vanished, or it is a mutation. */
  ghost predicate Judged(keys: seq<Bytes>, before: map<Bytes, Option<Entry>>, held: View, p: Probing, verdict: Verdict, r: Preparation) {
    && (r.Unchanged? <==> Vanished(keys, before, held, p.probed))
    && (r.Unchanged? <==> verdict.NoChange?)
    && (r.Refused? <==> verdict.Refusal?) && (r.Refused? ==> verdict.error == r.error)
    && (r.Failed? <==> verdict.Admitted? && verdict.evicted == [] && Vanished(keys, before, held, p.derived))
  }

  /** How an attempt ended, told from the contents after its execution. */
  ghost predicate Settled(attempt: MutationAttempt, command: Command, held: Contents, at: nat, verdict: Verdict, m: Contents, now: nat) {
    match verdict
    case NoChange => SameLive(m, held, now)
    case Refusal(error, checked, later) =>
      && at <= checked && later <= now
      && Justified(error, held, attempt.store.Bounds(), KeySet(command), attempt.baseline, checked, later)
      && Undone(held, attempt.before, m, now)
    case Admitted(evicted, checks) =>
      && at <= checks.counted && checks.fitted <= now
      && Granted(evicted, held, attempt.store.Bounds(), KeySet(command), attempt.baseline, checks)
      && Removed(held, evicted, m, now)
  }

  /** Executes nothing more: it probes for a change, admits it and derives the
      batch, or puts the start-state back. */
  method Settle(attempt: MutationAttempt, keys: seq<Bytes>, ghost command: Command, ghost held: Contents, ghost at: nat)
    returns (r: Preparation, ghost verdict: Verdict, ghost p: Probing)
    requires attempt.Valid() && attempt.evicted == [] && keys == attempt.keys
    requires Tried(attempt, command, held, at) && at == attempt.store.clock.now && attempt.store.engine.Contents() == held
    modifies attempt, attempt.store.Repr
    ensures attempt.Valid() && at <= p.probed <= p.derived <= attempt.store.clock.now
    ensures Judged(keys, attempt.before, Visible(held, at), p, verdict, r)
    ensures !r.Failed? ==> Settled(attempt, command, held, at, verdict, attempt.store.engine.Contents(), attempt.store.clock.now)
    ensures r.Failed? ==>
      && p.probed <= verdict.checks.counted && verdict.checks.fitted <= p.derived
      && Granted([], held, attempt.store.Bounds(), KeySet(command), attempt.baseline, verdict.checks)
    ensures !r.Mutation? ==> attempt.store.State() == Alive(attempt.start, attempt.store.clock.now)
    ensures r.Mutation? ==> StepHolds(r.batch, r.rollback, attempt.start, attempt.store.State(), attempt.store.clock.now)
    ensures r.Mutation? ==> verdict.Admitted? && r.batch == Canonical(keys, attempt.before, verdict.evicted, held, p.derived)
    ensures |attempt.start| <= MAX_KEYS ==> |attempt.store.State()| <= MAX_KEYS
  {
    var changed := Probe(attempt, keys, command, held, at);
    ghost var probed := attempt.store.clock.now;
    if !changed {
      AliveShrinks(attempt.start, probed);
      return Unchanged, NoChange, Probing(probed, probed);
    }
    ghost var derived;
    r, verdict, derived := AdmitChange(attempt, keys, command, held, at);
    p := Probing(probed, derived);
  }

  /** Admits a change and derives its batch, or takes it back. */
  method AdmitChange(attempt: MutationAttempt, keys: seq<Bytes>, ghost command: Command, ghost held: Contents, ghost at: nat)
    returns (r: Preparation, ghost verdict: Verdict, ghost derived: nat)
    requires attempt.Valid() && attempt.evicted == [] && keys == attempt.keys
    requires Tried(attempt, command, held, at) && at <= attempt.store.clock.now
    requires SameLive(attempt.store.engine.Contents(), held, attempt.store.clock.now)
    modifies attempt, attempt.store.Repr
    ensures attempt.Valid() && old(attempt.store.clock.now) <= derived <= attempt.store.clock.now
    ensures !r.Unchanged? && !verdict.NoChange?
    ensures (r.Refused? <==> verdict.Refusal?) && (r.Refused? ==> verdict.error == r.error)
    ensures r.Failed? <==> verdict.Admitted? && verdict.evicted == [] && Vanished(keys, attempt.before, Visible(held, at), derived)
    ensures !r.Failed? ==> Settled(attempt, command, held, at, verdict, attempt.store.engine.Contents(), attempt.store.clock.now)
    ensures r.Failed? ==>
      && old(attempt.store.clock.now) <= verdict.checks.counted && verdict.checks.fitted <= derived
      && Granted([], held, attempt.store.Bounds(), KeySet(command), attempt.baseline, verdict.checks)
    ensures !r.Mutation? ==> attempt.store.State() == Alive(attempt.start, attempt.store.clock.now)
    ensures r.Mutation? ==> StepHolds(r.batch, r.rollback, attempt.start, attempt.store.State(), attempt.store.clock.now)
    ensures r.Mutation? ==> verdict.Admitted? && r.batch == Canonical(keys, attempt.before, verdict.evicted, held, derived)
    ensures |attempt.start| <= MAX_KEYS ==> |attempt.store.State()| <= MAX_KEYS
  {
    var refusal;
    ghost var checked, later, c;
    refusal, checked, later, c := AdmitProbed(attempt, keys, command, held);
    if refusal.Some? {
      derived := attempt.store.clock.now;
      UndoAttempt(attempt, command, held, at);
      AliveShrinks(attempt.start, attempt.store.clock.now);
      return Refused(refusal.value), Refusal(refusal.value, checked, later), derived;
    }
    verdict := Admitted(attempt.evicted, c);
    r, derived := DeriveAdmitted(attempt, keys, command, held, at, c);
    if r.Failed? {
      AliveShrinks(attempt.start, attempt.store.clock.now);
    } else {
      GrantedVisible(attempt, command, held, at, attempt.evicted, attempt.store.engine.Contents(), c, attempt.store.clock.now);
    }
  }

  /** The trace of a settled command. */
  lemma SettledRan(attempt: MutationAttempt, command: Command, held: Contents, at: nat, verdict: Verdict, derived: nat, m: Contents, now: nat)
    requires Tried(attempt, command, held, at) && at <= derived && at <= now && Settled(attempt, command, held, at, verdict, m, now)
    requires verdict.NoChange? ==> Visible(m, now) == Alive(attempt.start, now)
    ensures Ran(attempt.store.Bounds(), attempt.contents, command, Trace(attempt.baseline, at, held, verdict, derived), m, now)
  {
    VisibleLater(attempt.contents, attempt.baseline.since, now);
  }

  /** Runs one command. Its own update is what was executed; the result follows from
      what the two derivations saw; batch and rollback are exact. */
  method PrepareCommandOperation(store: Store, command: Command) returns (r: Preparation, ghost t: Trace, ghost p: Probing)
    requires store.Valid()
    modifies store.Repr
    ensures store.Valid() && old(store.clock.now) <= t.baseline.since <= t.at <= p.probed <= p.derived <= store.clock.now
    ensures !r.Failed? ==> Ran(store.Bounds(), old(store.engine.Contents()), command, t, store.engine.Contents(), store.clock.now)
    ensures r.Failed? ==> Fails(store.Bounds(), old(store.engine.Contents()), command, t, p)
    ensures Judged(command.Affected(), Entries(old(store.engine.Contents()), command.Affected(), t.baseline.since),
                   Visible(t.held, t.at), p, t.verdict, r)
    ensures !r.Mutation? ==> store.State() == Visible(old(store.engine.Contents()), store.clock.now)
    ensures r.Mutation? ==>
      StepHolds(r.batch, r.rollback, Visible(old(store.engine.Contents()), store.clock.now), store.State(), store.clock.now)
    ensures r.Mutation? ==> t.verdict.Admitted? && t.derived == p.derived && r.batch == BatchOf(old(store.engine.Contents()), command, t)
    ensures |old(store.State())| <= MAX_KEYS ==> |store.State()| <= MAX_KEYS
  {
    ghost var contents, begun := store.engine.Contents(), store.clock.now;
    var attempt := new MutationAttempt(store, command.Affected());
    ExecuteTentative(attempt, command);
    ghost var held, at := store.engine.Contents(), store.clock.now;
    ghost var verdict;
    r, verdict, p := Settle(attempt, command.Affected(), command, held, at);
    t := Trace(attempt.baseline, at, held, verdict, p.derived);
    Concluded(attempt, command, held, at, verdict, p, r, begun, store.engine.Contents(), store.clock.now);
  }

  /** What a settled attempt means for the contents it began with. */
  lemma Concluded(attempt: MutationAttempt, command: Command, held: Contents, at: nat, verdict: Verdict, p: Probing, r: Preparation,
                  begun: nat, m: Contents, now: nat)
    requires Tried(attempt, command, held, at) && begun <= attempt.baseline.since && at <= p.probed <= p.derived <= now
    requires Judged(attempt.keys, attempt.before, Visible(held, at), p, verdict, r)
    requires !r.Failed? ==> Settled(attempt, command, held, at, verdict, m, now)
    requires r.Failed? ==>
      && p.probed <= verdict.checks.counted && verdict.checks.fitted <= p.derived
      && Granted([], held, attempt.store.Bounds(), KeySet(command), attempt.baseline, verdict.checks)
    requires !r.Mutation? ==> Visible(m, now) == Alive(attempt.start, now)
    requires r.Mutation? ==> StepHolds(r.batch, r.rollback, attempt.start, Visible(m, now), now)
    ensures var l, t := attempt.store.Bounds(), Trace(attempt.baseline, at, held, verdict, p.derived);
      && (!r.Failed? ==> Ran(l, attempt.contents, command, t, m, now))
      && (r.Failed? ==> Fails(l, attempt.contents, command, t, p))
    ensures !r.Mutation? ==> Visible(m, now) == Visible(attempt.contents, now)
    ensures r.Mutation? ==> StepHolds(r.batch, r.rollback, Visible(attempt.contents, now), Visible(m, now), now)
    ensures |attempt.start| <= |Visible(attempt.contents, begun)|
  {
    VisibleLater(attempt.contents, attempt.baseline.since, now);
    VisibleIsAlive(attempt.contents, now);
    LiveCountShrinks(attempt.contents, begun, attempt.baseline.since);
    if !r.Failed? {
      SettledRan(attempt, command, held, at, verdict, p.derived, m, now);
    }
    if r.Mutation? {
      StepHoldsFrom(r.batch, r.rollback, attempt.start, Visible(attempt.contents, now), Visible(m, now), now);
    }
  }
}
