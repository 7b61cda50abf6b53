/** The master commit coordinator.

A FIFO group of requests is executed speculatively, its batches get contiguous
sequence numbers, and one physical append accepts the group, rejects it, or
leaves the outcome unknown. */
module Commit {
  import opened Model
  import opened Effects
  import opened Shards
  import opened ShardObject
  import opened Datasets
  import opened StoreObject
  import opened Attempts
  import opened CommandRuns
  import opened Prepare
  import opened Transactions
  import opened Backlog
  import opened KeyLimit

  const MAX_SEQUENCE: nat := 0xFFFF_FFFF_FFFF_FFFF
  const MAX_COMMIT_GROUP_REQUESTS: nat := 64
  const MAX_COMMIT_GROUP_LOGICAL_MUTATIONS: nat := 256
  const MAX_COMMIT_GROUP_INPUT_BYTES: nat := 8 * 1024 * 1024

  datatype Operation =
    | Single(command: Command)
    | Group(commands: seq<Command>)
    | Transaction(commands: seq<Command>)
    | ObpSet(key: Bytes, value: Bytes)
    | ObpDelete(key: Bytes)

  datatype Request = Request(operation: Operation, bytes: nat) {
    function Mutations(): nat {
      if operation.Group? && |operation.commands| > 1 then |operation.commands| else 1
    }
  }

  function SetCommand(key: Bytes, value: Bytes): Command {
    Command(true, [key], [], (k, seen, now) => Some(Entry(Blob(value), None, now, now)))
  }

  function DeleteCommand(key: Bytes): Command {
    Command(true, [key], [], (k, seen, now) => None)
  }

  /** The commands that an operation consists of, in order. */
  function CommandsOf(operation: Operation): seq<Command> {
    match operation
    case Single(command) => [command]
    case Group(commands) => commands
    case Transaction(commands) => commands
    case ObpSet(key, value) => [SetCommand(key, value)]
    case ObpDelete(key) => [DeleteCommand(key)]
  }

  datatype Prepared = Prepared(batches: seq<Batch>, rollbacks: seq<Rollback>)

  // ---- A request's journal ----

  /** The request's batches lead from `start` to `after` and its rollbacks back. */
  ghost predicate Records(p: Prepared, states: seq<View>, start: Contents, after: Contents, now: nat) {
    && Journal(p.batches, p.rollbacks, states, now)
    && Alive(states[0], now) == Visible(start, now)
    && Alive(states[|p.batches|], now) == Visible(after, now)
  }

  lemma RecordsNothing(start: Contents, now: nat)
    ensures Records(Prepared([], []), [Visible(start, now)], start, start, now)
  {
    VisibleIsAlive(start, now);
  }

  lemma RecordsLater(p: Prepared, states: seq<View>, start: Contents, after: Contents, earlier: nat, later: nat)
    requires earlier <= later && Records(p, states, start, after, earlier)
    ensures Records(p, states, start, after, later)
  {
    JournalLater(p.batches, p.rollbacks, states, earlier, later);
    AliveTwice(states[0], earlier, later);
    AliveTwice(states[|p.batches|], earlier, later);
    VisibleLater(start, earlier, later);
    VisibleLater(after, earlier, later);
  }

  /** Nothing persistent has changed since. */
  lemma RecordsTo(p: Prepared, states: seq<View>, start: Contents, middle: Contents, after: Contents, now: nat)
    requires Records(p, states, start, middle, now) && Visible(middle, now) == Visible(after, now)
    ensures Records(p, states, start, after, now)
  {
  }

  /** One more mutation at the end of a journal. */
  lemma RecordsStep(p: Prepared, states: seq<View>, start: Contents, middle: Contents, batch: Batch, rollback: Rollback, after: Contents, now: nat)
    requires Records(p, states, start, middle, now)
    requires StepHolds(batch, rollback, Visible(middle, now), Visible(after, now), now)
    ensures Records(Prepared(p.batches + [batch], p.rollbacks + [rollback]), states + [Visible(after, now)], start, after, now)
  {
    var v, w := Visible(middle, now), Visible(after, now);
    VisibleIsAlive(middle, now);
    VisibleIsAlive(after, now);
    assert Journal([batch], [rollback], [v, w], now);
    JournalConcat(p.batches, p.rollbacks, states, [batch], [rollback], [v, w], now);
    assert [v, w][1..] == [w];
  }

  /** No state has more live keys than the limit. */
  ghost predicate AllWithin(states: seq<View>, now: nat) {
    forall i :: 0 <= i < |states| ==> |Alive(states[i], now)| <= MAX_KEYS
  }

  lemma AllWithinLater(states: seq<View>, earlier: nat, later: nat)
    requires earlier <= later && AllWithin(states, earlier)
    ensures AllWithin(states, later)
  {
    forall i | 0 <= i < |states| ensures |Alive(states[i], later)| <= MAX_KEYS {
      AliveTwice(states[i], earlier, later);
      AliveShrinks(Alive(states[i], earlier), later);
    }
  }

  lemma AllWithinNext(states: seq<View>, m: Contents, now: nat)
    requires AllWithin(states, now) && |Visible(m, now)| <= MAX_KEYS
    ensures AllWithin(states + [Visible(m, now)], now)
  {
    VisibleIsAlive(m, now);
  }

  /** Restores a request's rollbacks, last first: dependent writes and victims
      come back in the opposite order of their removal. */
  method UndoRequest(store: Store, p: Prepared, ghost states: seq<View>, ghost start: Contents)
    requires store.Valid() && Records(p, states, start, store.engine.Contents(), store.clock.now)
    modifies store.Repr
    ensures store.Valid() && old(store.clock.now) <= store.clock.now
    ensures store.State() == Visible(start, store.clock.now)
  {
    ghost var begun := store.clock.now;
    var i := |p.rollbacks|;
    while i > 0
      invariant 0 <= i <= |p.rollbacks|
      invariant store.Valid() && begun <= store.clock.now
      invariant Journal(p.batches, p.rollbacks, states, store.clock.now)
      invariant store.State() == Alive(states[i], store.clock.now)
    {
      ghost var t0 := store.clock.now;
      i := i - 1;
      assert StepHolds(p.batches[i], p.rollbacks[i], states[i], states[i + 1], t0);
      RestoreOne(store, p.rollbacks[i], states[i], states[i + 1]);
      JournalLater(p.batches, p.rollbacks, states, t0, store.clock.now);
    }
    AliveTwice(states[0], begun, store.clock.now);
    VisibleLater(start, begun, store.clock.now);
  }

  method RestoreOne(store: Store, rollback: Rollback, ghost start: View, ghost after: View)
    requires store.Valid() && store.State() == Alive(after, store.clock.now)
    requires Reverts(rollback, start, after, store.clock.now)
    modifies store.Repr
    ensures store.Valid() && old(store.clock.now) <= store.clock.now
    ensures store.State() == Alive(start, store.clock.now)
  {
    ghost var contents, t0 := store.engine.Contents(), store.clock.now;
    store.RestoreEntries(rollback);
    RevertsLater(rollback, start, after, t0, store.clock.now);
    VisibleLater(contents, t0, store.clock.now);
    AliveTwice(after, t0, store.clock.now);
    RestoreReverts(rollback, start, after, store.State(), store.clock.now);
  }

  // ---- Preparing a request ----

  /** Command `done` failed after the ones before it ran: admission granted a change
      that had vanished when its batch was derived. */
  datatype Failure = Failure(done: nat, e: Execution, t: Trace, p: Probing)

  ghost predicate Stopped(l: Limits, commands: seq<Command>, f: Failure, start: Contents, now: nat) {
    && f.done < |commands| && Chained(l, commands[..f.done], f.e, now) && f.e.mids[0] == start
    && Fails(l, f.e.mids[f.done], commands[f.done], f.t, f.p)
  }

  lemma StoppedLater(l: Limits, commands: seq<Command>, f: Failure, start: Contents, earlier: nat, later: nat)
    requires earlier <= later && Stopped(l, commands, f, start, earlier)
    ensures Stopped(l, commands, f, start, later)
  {
    PerformedLater(l, commands[..f.done], f.e, start, f.e.mids[f.done], earlier, later);
  }

  /** What preparing a request achieved: its commands ran and are recorded, or one
      of them failed and everything is undone. */
  ghost predicate Prepares(l: Limits, commands: seq<Command>, failure: Option<Failure>, p: Prepared, states: seq<View>, e: Execution,
                           start: Contents, after: Contents, now: nat) {
    if failure.Some? then Stopped(l, commands, failure.value, start, now) && Visible(after, now) == Visible(start, now)
    else Records(p, states, start, after, now) && Performed(l, commands, e, start, after, now)
  }

  /** The key limit is kept by every recorded state. */
  ghost predicate KeepsLimit(before: nat, states: seq<View>, v: View, now: nat) {
    before <= MAX_KEYS ==> AllWithin(states, now) && |v| <= MAX_KEYS
  }

  /** A pipelined group: each command is its own logical mutation. */
  method PrepareGroup(store: Store, commands: seq<Command>, ghost start: Contents)
    returns (ok: bool, p: Prepared, ghost states: seq<View>, ghost e: Execution, ghost failure: Option<Failure>)
    requires store.Valid() && store.engine.Contents() == start
    modifies store.Repr
    ensures store.Valid() && old(store.clock.now) <= store.clock.now
    ensures ok <==> failure.None?
    ensures Prepares(store.Bounds(), commands, failure, p, states, e, start, store.engine.Contents(), store.clock.now)
    ensures ok ==> p.batches == BatchesOf(commands, e)
    ensures KeepsLimit(|old(store.State())|, states, store.State(), store.clock.now)
  {
    ghost var begun, live := store.clock.now, |store.State()|;
    p, states, e, failure := Prepared([], []), [Visible(start, begun)], Execution([], [start]), None;
    RecordsNothing(start, begun);
    VisibleIsAlive(start, begun);
    PerformedNothing(store.Bounds(), start, begun);
    var i := 0;
    assert commands[..0] == [];
    while i < |commands|
      invariant 0 <= i <= |commands|
      invariant store.Valid() && begun <= store.clock.now && failure.None?
      invariant Records(p, states, start, store.engine.Contents(), store.clock.now)
      invariant Progress(store, commands, i, e, start) && p.batches == BatchesOf(commands[..i], e)
      invariant KeepsLimit(live, states, store.State(), store.clock.now)
    {
      var done, next := true, i + 1;
      done, p, states, e, failure := PrepareNext(store, commands, i, next, p, states, e, start, live);
      if !done {
        UndoFailed(store, p, states, start, commands, failure.value, live);
        return false, p, states, e, failure;
      }
      i := next;
    }
    assert commands[..i] == commands;
    ok := true;
  }

  method UndoFailed(store: Store, p: Prepared, ghost states: seq<View>, ghost start: Contents, ghost commands: seq<Command>, ghost f: Failure, ghost live: nat)
    requires store.Valid() && Records(p, states, start, store.engine.Contents(), store.clock.now)
    requires Stopped(store.Bounds(), commands, f, start, store.clock.now) && KeepsLimit(live, states, store.State(), store.clock.now)
    modifies store.Repr
    ensures store.Valid() && old(store.clock.now) <= store.clock.now
    ensures Stopped(store.Bounds(), commands, f, start, store.clock.now) && store.State() == Visible(start, store.clock.now)
    ensures KeepsLimit(live, states, store.State(), store.clock.now)
  {
    ghost var t0 := store.clock.now;
    UndoRequest(store, p, states, start);
    ghost var now := store.clock.now;
    StoppedLater(store.Bounds(), commands, f, start, t0, now);
    if live <= MAX_KEYS {
      AllWithinLater(states, t0, now);
      LiveCountShrinks(start, t0, now);
    }
  }

  method PrepareNext(store: Store, commands: seq<Command>, i: nat, ghost next: nat, p: Prepared, ghost states: seq<View>, ghost e: Execution,
                     ghost start: Contents, ghost live: nat)
    returns (ok: bool, p': Prepared, ghost states': seq<View>, ghost e': Execution, ghost failure: Option<Failure>)
    requires store.Valid() && i < |commands| && next == i + 1
    requires Records(p, states, start, store.engine.Contents(), store.clock.now) && Progress(store, commands, i, e, start)
    requires KeepsLimit(live, states, store.State(), store.clock.now) && p.batches == BatchesOf(commands[..i], e)
    modifies store.Repr
    ensures store.Valid() && old(store.clock.now) <= store.clock.now
    ensures Records(p', states', start, store.engine.Contents(), store.clock.now)
    ensures ok <==> failure.None?
    ensures ok ==> Progress(store, commands, next, e', start) && p'.batches == BatchesOf(commands[..next], e')
    ensures !ok ==> Stopped(store.Bounds(), commands, failure.value, start, store.clock.now)
    ensures KeepsLimit(live, states', store.State(), store.clock.now)
  {
    ghost var m, t0, l := store.engine.Contents(), store.clock.now, store.Bounds();
    var r;
    ghost var t, probing;
    r, p', states', t, probing := RecordCommand(store, commands[i], p, states, start, live);
    ghost var now := store.clock.now;
    PerformedLater(l, commands[..i], e, start, m, t0, now);
    ok, e', failure := !r.Failed?, e, None;
    if ok {
      PerformedUpTo(l, commands, i, next, e, start, t, store.engine.Contents(), now);
      BatchesUpTo(commands, i, next, e, t, store.engine.Contents());
      e' := Execution(e.traces + [t], e.mids + [store.engine.Contents()]);
    } else {
      failure := Some(Failure(i, e, t, probing));
    }
  }

  /** Runs a command and extends the request's journal by its mutation, if any. */
  method RecordCommand(store: Store, command: Command, p: Prepared, ghost states: seq<View>, ghost start: Contents, ghost live: nat)
    returns (r: Preparation, p': Prepared, ghost states': seq<View>, ghost t: Trace, ghost probing: Probing)
    requires store.Valid() && Records(p, states, start, store.engine.Contents(), store.clock.now)
    requires KeepsLimit(live, states, store.State(), store.clock.now)
    modifies store.Repr
    ensures store.Valid() && old(store.clock.now) <= store.clock.now
    ensures Records(p', states', start, store.engine.Contents(), store.clock.now)
    ensures !r.Failed? ==> Ran(store.Bounds(), old(store.engine.Contents()), command, t, store.engine.Contents(), store.clock.now)
    ensures r.Failed? ==> Fails(store.Bounds(), old(store.engine.Contents()), command, t, probing)
    ensures !r.Failed? ==>
      p'.batches == p.batches + if t.verdict.Admitted? then [BatchOf(old(store.engine.Contents()), command, t)] else []
    ensures KeepsLimit(live, states', store.State(), store.clock.now)
  {
    ghost var m, t0 := store.engine.Contents(), store.clock.now;
    r, t, probing := PrepareCommandOperation(store, command);
    ghost var after, now := store.engine.Contents(), store.clock.now;
    RecordsLater(p, states, start, m, t0, now);
    if live <= MAX_KEYS {
      AllWithinLater(states, t0, now);
    }
    if r.Mutation? {
      RecordsStep(p, states, start, m, r.batch, r.rollback, after, now);
      p' := Prepared(p.batches + [r.batch], p.rollbacks + [r.rollback]);
      states' := states + [Visible(after, now)];
      if live <= MAX_KEYS {
        AllWithinNext(states, after, now);
      }
    } else {
      p', states' := p, states;
      RecordsTo(p, states, start, m, after, now);
    }
  }

  /** A deletion over the binary protocol bypasses admission: it only shrinks. */
  method PrepareDelete(store: Store, key: Bytes) returns (batch: Batch, rollback: Rollback, ghost t: Trace)
    requires store.Valid()
    modifies store.Repr
    ensures store.Valid() && old(store.clock.now) <= store.clock.now
    ensures Ran(store.Bounds(), old(store.engine.Contents()), DeleteCommand(key), t, store.engine.Contents(), store.clock.now)
    ensures batch == [] ==> store.State() == Visible(old(store.engine.Contents()), store.clock.now)
    ensures batch != [] ==>
      StepHolds(batch, rollback, Visible(old(store.engine.Contents()), store.clock.now), store.State(), store.clock.now)
    ensures |store.State()| <= |Visible(old(store.engine.Contents()), store.clock.now)|
    ensures if t.verdict.Admitted? then batch == [Delete(key)] == BatchOf(old(store.engine.Contents()), DeleteCommand(key), t) else batch == []
  {
    var attempt := new MutationAttempt(store, [key]);
    rollback := Rollback(attempt.before, []);
    ghost var captured, t1 := store.engine.Contents(), store.clock.now;
    var deleted := store.DeleteBytes(key);
    batch := if deleted then [Delete(key)] else [];
    ghost var m, now := store.engine.Contents(), store.clock.now;
    SameLiveLater(captured, attempt.contents, t1, now);
    DeleteStep(attempt, key, deleted, m, now);
    t := DeleteRan(attempt, key, deleted, m, now);
  }

  /** A deletion ran as the command that leaves nothing. Admission would have granted
      it: neither the keys nor the size can have grown. */
  lemma DeleteRan(attempt: MutationAttempt, key: Bytes, deleted: bool, m: Contents, now: nat) returns (t: Trace)
    requires attempt.Sound() && attempt.keys == [key] && attempt.baseline.measured <= now && SlotSet(attempt.contents, key, None, m, now)
    requires deleted == At(attempt.contents, key, now).Some? && (!deleted ==> Visible(m, now) == Visible(attempt.contents, now))
    ensures Ran(attempt.store.Bounds(), attempt.contents, DeleteCommand(key), t, m, now)
    ensures if deleted then t.verdict.Admitted? && BatchOf(attempt.contents, DeleteCommand(key), t) == [Delete(key)] else t.verdict.NoChange?
  {
    var b, l := attempt.baseline, attempt.store.Bounds();
    assert TouchedAll(attempt.contents, [], now) == attempt.contents;
    assert Executes(attempt.contents, DeleteCommand(key), m, now);
    ShrunkWithin(attempt.contents, key, m, b.counted, now);
    ShrunkWithin(attempt.contents, key, m, b.measured, now);
    SubsetCardinality(Swept(m, now).Keys, Swept(attempt.contents, b.counted).Keys);
    TotalSizeWithin(Swept(m, now), Swept(attempt.contents, b.measured), l.sizeOf);
    var c := GrantedAsIs(m, l, KeySet(DeleteCommand(key)), b, now, now);
    RemovedNone(m, m, now);
    t := Trace(b, now, m, if deleted then Admitted([], c) else NoChange, now);
    if deleted {
      DeletionDerived(attempt, key, m, now);
    }
  }

  lemma DeletionDerived(attempt: MutationAttempt, key: Bytes, m: Contents, now: nat)
    requires attempt.Sound() && attempt.keys == [key] && attempt.baseline.since <= now && SlotSet(attempt.contents, key, None, m, now)
    requires At(attempt.contents, key, now).Some?
    ensures Canonical([key], Entries(attempt.contents, [key], attempt.baseline.since), [], m, now) == [Delete(key)]
  {
    var none: seq<(Bytes, Entry)> := [];
    var before := Entries(attempt.contents, [key], attempt.baseline.since);
    assert EvictedKeys(none) == [];
    AtLater(attempt.contents, key, attempt.baseline.since, now);
    assert At(m, key, now) == None;
    SweptAt(m, key, now);
    DeriveOne(key, before, [], Visible(m, now));
    assert Canonical([key], before, none, m, now) == Derive([key], before, [], Visible(m, now));
  }

  lemma ShrunkWithin(start: Contents, key: Bytes, m: Contents, earlier: nat, now: nat)
    requires earlier <= now && SlotSet(start, key, None, m, now)
    ensures Within(Swept(m, now), Swept(start, earlier))
  {
    forall k | k in Swept(m, now) ensures k in Swept(start, earlier) && Swept(m, now)[k] == Swept(start, earlier)[k] {
      SweptAt(m, k, now);
      SweptAt(start, k, earlier);
      AtLater(start, k, earlier, now);
    }
  }

  lemma DeleteStep(attempt: MutationAttempt, key: Bytes, deleted: bool, m: Contents, now: nat)
    requires attempt.Sound() && attempt.keys == [key] && attempt.baseline.since <= now
    requires deleted == At(attempt.contents, key, now).Some? && SlotSet(attempt.contents, key, None, m, now)
    ensures !deleted ==> Visible(m, now) == Visible(attempt.contents, now)
    ensures deleted ==> StepHolds([Delete(key)], Rollback(attempt.before, []), Visible(attempt.contents, now), Visible(m, now), now)
    ensures |Visible(m, now)| <= |Visible(attempt.contents, now)|
  {
    var start, v := Visible(attempt.contents, now), Visible(m, now);
    SlotVisible(attempt.contents, key, None, m, now);
    SweptAt(attempt.contents, key, now);
    SubsetCardinality(v.Keys, start.Keys);
    VisibleIsAlive(attempt.contents, now);
    VisibleLater(attempt.contents, attempt.baseline.since, now);
    if deleted {
      DeleteHolds(start, attempt.before, attempt.start, key, now);
    } else {
      assert v == start;
    }
  }

  lemma DeleteHolds(start: View, before: map<Bytes, Option<Entry>>, captured: View, key: Bytes, now: nat)
    requires Alive(start, now) == start == Alive(captured, now) && Captures(before, [key], captured)
    ensures StepHolds([Delete(key)], Rollback(before, []), start, start - {key}, now)
  {
    var batch, v := [Delete(key)], start - {key};
    assert batch[..0] == [];
    forall k | k in v ensures Unexpired(v[k].expiresAt, now) {
      assert k in Alive(start, now);
    }
    assert ApplyBatch(start, batch) == v && Alive(v, now) == v;
    forall k | k in before ensures AliveOption(PersistOption(before[k]), now) == Lookup(Alive(start, now), k) {
      LookupAlive(captured, k, now);
    }
  }

  /** A transaction commits as one batch at most, everything else as exactly the
      batches of its commands. */
  ghost predicate Journaled(operation: Operation, p: Prepared, e: Execution) {
    if operation.Transaction? then |p.batches| <= 1 else IsBatches(CommandsOf(operation), e, p.batches)
  }

  method PrepareRequest(store: Store, operation: Operation, ghost start: Contents)
    returns (ok: bool, p: Prepared, ghost states: seq<View>, ghost e: Execution, ghost failure: Option<Failure>)
    requires store.Valid() && store.engine.Contents() == start
    modifies store.Repr
    ensures store.Valid() && old(store.clock.now) <= store.clock.now
    ensures ok <==> failure.None?
    ensures Prepares(store.Bounds(), CommandsOf(operation), failure, p, states, e, start, store.engine.Contents(), store.clock.now)
    ensures ok ==> Journaled(operation, p, e)
    ensures KeepsLimit(|old(store.State())|, states, store.State(), store.clock.now)
  {
    ok, failure := true, None;
    match operation {
      case Transaction(commands) =>
        p, states, e := PrepareWhole(store, commands, start);
      case ObpDelete(key) =>
        p, states, e := PrepareDeletion(store, key, start);
      case _ =>
        ok, p, states, e, failure := PrepareGroup(store, CommandsOf(operation), start);
    }
  }

  method PrepareWhole(store: Store, commands: seq<Command>, ghost start: Contents)
    returns (p: Prepared, ghost states: seq<View>, ghost e: Execution)
    requires store.Valid() && store.engine.Contents() == start
    modifies store.Repr
    ensures store.Valid() && old(store.clock.now) <= store.clock.now
    ensures Prepares(store.Bounds(), commands, None, p, states, e, start, store.engine.Contents(), store.clock.now) && |p.batches| <= 1
    ensures KeepsLimit(|old(store.State())|, states, store.State(), store.clock.now)
  {
    ghost var begun := store.clock.now;
    var batch, rollback, keys;
    batch, rollback, keys, e := PrepareTransaction(store, commands);
    p := PreparedOf(batch, rollback);
    states := OneOrNone(batch, rollback, start, store.engine.Contents(), begun, store.clock.now);
  }

  method PrepareDeletion(store: Store, key: Bytes, ghost start: Contents)
    returns (p: Prepared, ghost states: seq<View>, ghost e: Execution)
    requires store.Valid() && store.engine.Contents() == start
    modifies store.Repr
    ensures store.Valid() && old(store.clock.now) <= store.clock.now
    ensures Prepares(store.Bounds(), [DeleteCommand(key)], None, p, states, e, start, store.engine.Contents(), store.clock.now)
    ensures p.batches == BatchesOf([DeleteCommand(key)], e)
    ensures KeepsLimit(|old(store.State())|, states, store.State(), store.clock.now)
  {
    ghost var begun := store.clock.now;
    var batch, rollback;
    ghost var t;
    batch, rollback, t := PrepareDelete(store, key);
    p := PreparedOf(batch, rollback);
    ghost var m, now := store.engine.Contents(), store.clock.now;
    LiveCountShrinks(start, begun, now);
    states := OneOrNone(batch, rollback, start, m, begun, now);
    e := OneCommand(store.Bounds(), start, DeleteCommand(key), t, m, now);
    assert p.batches == if t.verdict.Admitted? then [BatchOf(start, DeleteCommand(key), t)] else [];
  }

  lemma OneCommand(l: Limits, start: Contents, command: Command, t: Trace, after: Contents, now: nat) returns (e: Execution)
    requires Ran(l, start, command, t, after, now)
    ensures Performed(l, [command], e, start, after, now)
    ensures BatchesOf([command], e) == if t.verdict.Admitted? then [BatchOf(start, command, t)] else []
  {
    PerformedNothing(l, start, now);
    PerformedNext(l, [], Execution([], [start]), start, command, t, after, now);
    BatchesNext([], Execution([], [start]), command, t, after);
    assert [] + [command] == [command];
    e := Execution([] + [t], [start] + [after]);
  }

  function PreparedOf(batch: Batch, rollback: Rollback): Prepared {
    if batch == [] then Prepared([], []) else Prepared([batch], [rollback])
  }

  lemma OneOrNone(batch: Batch, rollback: Rollback, start: Contents, after: Contents, begun: nat, now: nat) returns (states: seq<View>)
    requires begun <= now
    requires batch == [] ==> Visible(after, now) == Visible(start, now)
    requires batch != [] ==> StepHolds(batch, rollback, Visible(start, now), Visible(after, now), now)
    ensures Records(PreparedOf(batch, rollback), states, start, after, now)
    ensures |Visible(start, begun)| <= MAX_KEYS && |Visible(after, now)| <= MAX_KEYS ==> AllWithin(states, now)
  {
    var v := Visible(start, now);
    RecordsNothing(start, now);
    VisibleIsAlive(start, now);
    LiveCountShrinks(start, begun, now);
    states := [v];
    if batch != [] {
      RecordsStep(Prepared([], []), [v], start, start, batch, rollback, after, now);
      assert [] + [batch] == [batch] && [] + [rollback] == [rollback];
      VisibleIsAlive(after, now);
      states := [v] + [Visible(after, now)];
    }
  }

  // ---- A group's journal ----

  ghost predicate GroupRecords(prepared: seq<Prepared>, journals: seq<seq<View>>, marks: seq<Contents>, now: nat) {
    && |journals| == |prepared| && |marks| == |prepared| + 1
    && forall j :: 0 <= j < |prepared| ==> Records(prepared[j], journals[j], marks[j], marks[j + 1], now)
  }

  function AllBatches(prepared: seq<Prepared>): seq<Batch> {
    if prepared == [] then [] else AllBatches(prepared[..|prepared| - 1]) + prepared[|prepared| - 1].batches
  }

  lemma GroupRecordsLater(prepared: seq<Prepared>, journals: seq<seq<View>>, marks: seq<Contents>, earlier: nat, later: nat)
    requires earlier <= later && GroupRecords(prepared, journals, marks, earlier)
    ensures GroupRecords(prepared, journals, marks, later)
  {
    forall j | 0 <= j < |prepared| ensures Records(prepared[j], journals[j], marks[j], marks[j + 1], later) {
      RecordsLater(prepared[j], journals[j], marks[j], marks[j + 1], earlier, later);
    }
  }

  lemma GroupRecordsExtend(prepared: seq<Prepared>, journals: seq<seq<View>>, marks: seq<Contents>,
                           p: Prepared, states: seq<View>, after: Contents, now: nat)
    requires GroupRecords(prepared, journals, marks, now)
    requires Records(p, states, marks[|prepared|], after, now)
    ensures GroupRecords(prepared + [p], journals + [states], marks + [after], now)
  {
  }

  /** Forwards: the group's batches fold the pre-group state into the current one. */
  lemma {:induction false} GroupReplays(prepared: seq<Prepared>, journals: seq<seq<View>>, marks: seq<Contents>, now: nat)
    requires GroupRecords(prepared, journals, marks, now)
    ensures Alive(ApplyAll(Visible(marks[0], now), AllBatches(prepared)), now) == Visible(marks[|prepared|], now)
  {
    var start := Visible(marks[0], now);
    if prepared == [] {
      VisibleIsAlive(marks[0], now);
    } else {
      var n := |prepared| - 1;
      assert GroupRecords(prepared[..n], journals[..n], marks[..n + 1], now);
      GroupReplays(prepared[..n], journals[..n], marks[..n + 1], now);
      var p, front := prepared[n], AllBatches(prepared[..n]);
      assert Records(p, journals[n], marks[n], marks[n + 1], now);
      JournalReplays(p.batches, p.rollbacks, journals[n], now);
      ApplyAllConcat(start, front, p.batches);
      ApplyAllAlive(ApplyAll(start, front), journals[n][0], p.batches, now);
    }
  }

  ghost predicate JournalsWithin(journals: seq<seq<View>>, now: nat) {
    forall j :: 0 <= j < |journals| ==> AllWithin(journals[j], now)
  }

  lemma PrefixWithin(start: View, p: Prepared, states: seq<View>, k: nat, now: nat)
    requires Journal(p.batches, p.rollbacks, states, now) && AllWithin(states, now) && k <= |p.batches|
    requires Alive(states[0], now) == Alive(start, now)
    ensures |Alive(ApplyAll(start, p.batches[..k]), now)| <= MAX_KEYS
  {
    var batches, rollbacks, part := p.batches[..k], p.rollbacks[..k], states[..k + 1];
    forall i | 0 <= i < k ensures StepHolds(batches[i], rollbacks[i], part[i], part[i + 1], now) {
      assert StepHolds(p.batches[i], p.rollbacks[i], states[i], states[i + 1], now);
    }
    JournalReplays(batches, rollbacks, part, now);
    ApplyAllAlive(start, states[0], batches, now);
  }

  lemma {:induction false} GroupWithin(prepared: seq<Prepared>, journals: seq<seq<View>>, marks: seq<Contents>, now: nat)
    requires GroupRecords(prepared, journals, marks, now) && JournalsWithin(journals, now) && |Visible(marks[0], now)| <= MAX_KEYS
    ensures PrefixesWithin(Visible(marks[0], now), AllBatches(prepared), now)
  {
    var start, all := Visible(marks[0], now), AllBatches(prepared);
    if prepared == [] {
      VisibleIsAlive(marks[0], now);
      assert all[..0] == [];
    } else {
      var n := |prepared| - 1;
      var before, p, front := marks[..n + 1], prepared[n], AllBatches(prepared[..n]);
      assert GroupRecords(prepared[..n], journals[..n], before, now) && JournalsWithin(journals[..n], now);
      GroupWithin(prepared[..n], journals[..n], before, now);
      GroupReplays(prepared[..n], journals[..n], before, now);
      assert Records(p, journals[n], marks[n], marks[n + 1], now) && AllWithin(journals[n], now);
      forall i | 0 <= i <= |all| ensures WithinAt(start, all, i, now) {
        LastPrefix(start, front, p, journals[n], i, now);
      }
    }
  }

  lemma LastPrefix(start: View, front: seq<Batch>, p: Prepared, states: seq<View>, i: nat, now: nat)
    requires PrefixesWithin(start, front, now) && Journal(p.batches, p.rollbacks, states, now) && AllWithin(states, now)
    requires Alive(ApplyAll(start, front), now) == Alive(states[0], now) && i <= |front + p.batches|
    ensures WithinAt(start, front + p.batches, i, now)
  {
    if i <= |front| {
      assert WithinAt(start, front, i, now);
      assert (front + p.batches)[..i] == front[..i];
    } else {
      var k := i - |front|;
      assert (front + p.batches)[..i] == front + p.batches[..k];
      ApplyAllConcat(start, front, p.batches[..k]);
      PrefixWithin(ApplyAll(start, front), p, states, k, now);
    }
  }

  /** What every committed batch is: nonempty, and fit for the wire. */
  predicate Committable(batch: Batch) { batch != [] && ExpiriesSafe(batch) }

  predicate AllCommittable(batches: seq<Batch>) {
    forall i :: 0 <= i < |batches| ==> Committable(batches[i])
  }

  lemma {:induction false} AllBatchesCommittable(prepared: seq<Prepared>, journals: seq<seq<View>>, marks: seq<Contents>, now: nat)
    requires GroupRecords(prepared, journals, marks, now)
    ensures AllCommittable(AllBatches(prepared))
  {
    if prepared != [] {
      var n := |prepared| - 1;
      assert GroupRecords(prepared[..n], journals[..n], marks[..n + 1], now);
      AllBatchesCommittable(prepared[..n], journals[..n], marks[..n + 1], now);
      assert Records(prepared[n], journals[n], marks[n], marks[n + 1], now);
      forall i | 0 <= i < |prepared[n].batches| ensures Committable(prepared[n].batches[i]) {
        assert StepHolds(prepared[n].batches[i], prepared[n].rollbacks[i], journals[n][i], journals[n][i + 1], now);
      }
    }
  }

  /** Backwards: undoing the requests last first restores the pre-group state. */
  method RollbackPrepared(store: Store, prepared: seq<Prepared>, ghost journals: seq<seq<View>>, ghost marks: seq<Contents>)
    requires store.Valid() && GroupRecords(prepared, journals, marks, store.clock.now)
    requires store.State() == Visible(marks[|prepared|], store.clock.now)
    modifies store.Repr
    ensures store.Valid() && old(store.clock.now) <= store.clock.now
    ensures store.State() == Visible(marks[0], store.clock.now)
  {
    var j := |prepared|;
    while j > 0
      invariant 0 <= j <= |prepared|
      invariant store.Valid() && old(store.clock.now) <= store.clock.now
      invariant GroupRecords(prepared, journals, marks, store.clock.now)
      invariant store.State() == Visible(marks[j], store.clock.now)
    {
      ghost var t0, next := store.clock.now, marks[j];
      j := j - 1;
      RecordsTo(prepared[j], journals[j], marks[j], next, store.engine.Contents(), t0);
      UndoRequest(store, prepared[j], journals[j], marks[j]);
      GroupRecordsLater(prepared, journals, marks, t0, store.clock.now);
    }
  }

  // ---- What became of a group ----

  /** Everything known about an executed group: per request what it recorded and how
      its commands ran, with the contents in between; or, after some requests, the
      failure of one command. */
  datatype Report = Report(prepared: seq<Prepared>, journals: seq<seq<View>>, marks: seq<Contents>, executions: seq<Execution>,
                           failure: Option<Failure>)

  /** The requests ran one after the other, request j from marks[j] to marks[j + 1],
      and the recorded batches and rollbacks lead there and back. */
  ghost predicate Carried(l: Limits, requests: seq<Request>, r: Report, start: Contents, now: nat) {
    && |r.prepared| == |requests| == |r.executions|
    && GroupRecords(r.prepared, r.journals, r.marks, now) && r.marks[0] == start
    && AllRan(l, requests, r.executions, r.marks, now) && AllJournaled(requests, r.prepared, r.executions)
  }

  /** Each request runs all its commands, in order and once. */
  ghost predicate AllRan(l: Limits, requests: seq<Request>, executions: seq<Execution>, marks: seq<Contents>, now: nat)
    requires |executions| == |requests| && |marks| == |requests| + 1
  {
    forall j :: 0 <= j < |requests| ==>
      Performed(l, CommandsOf(requests[j].operation), executions[j], marks[j], marks[j + 1], now)
  }

  lemma AllRanNext(l: Limits, requests: seq<Request>, executions: seq<Execution>, marks: seq<Contents>,
                   request: Request, e: Execution, after: Contents, now: nat)
    requires |executions| == |requests| && |marks| == |requests| + 1 && AllRan(l, requests, executions, marks, now)
    requires Performed(l, CommandsOf(request.operation), e, marks[|requests|], after, now)
    ensures AllRan(l, requests + [request], executions + [e], marks + [after], now)
  {
    var all, es, ms := requests + [request], executions + [e], marks + [after];
    forall j | 0 <= j < |all| ensures Performed(l, CommandsOf(all[j].operation), es[j], ms[j], ms[j + 1], now) {
      if j < |requests| {
        assert Performed(l, CommandsOf(requests[j].operation), executions[j], marks[j], marks[j + 1], now);
      }
    }
  }

  /** And records its batches. */
  ghost predicate AllJournaled(requests: seq<Request>, prepared: seq<Prepared>, executions: seq<Execution>)
    requires |prepared| == |executions| == |requests|
  {
    forall j :: 0 <= j < |requests| ==> Journaled(requests[j].operation, prepared[j], executions[j])
  }

  lemma AllJournaledNext(requests: seq<Request>, prepared: seq<Prepared>, executions: seq<Execution>, request: Request, p: Prepared, e: Execution)
    requires |prepared| == |executions| == |requests| && AllJournaled(requests, prepared, executions)
    requires Journaled(request.operation, p, e)
    ensures AllJournaled(requests + [request], prepared + [p], executions + [e])
  {
  }

  lemma CarriedLater(l: Limits, requests: seq<Request>, r: Report, start: Contents, earlier: nat, later: nat)
    requires earlier <= later && Carried(l, requests, r, start, earlier)
    ensures Carried(l, requests, r, start, later)
  {
    GroupRecordsLater(r.prepared, r.journals, r.marks, earlier, later);
    forall j | 0 <= j < |requests|
      ensures Performed(l, CommandsOf(requests[j].operation), r.executions[j], r.marks[j], r.marks[j + 1], later)
    {
      PerformedLater(l, CommandsOf(requests[j].operation), r.executions[j], r.marks[j], r.marks[j + 1], earlier, later);
    }
  }

  lemma CarriedNext(l: Limits, requests: seq<Request>, r: Report, start: Contents, request: Request, all: seq<Request>,
                    p: Prepared, states: seq<View>, e: Execution, after: Contents, now: nat)
    requires Carried(l, requests, r, start, now) && all == requests + [request]
    requires Records(p, states, r.marks[|requests|], after, now)
    requires Performed(l, CommandsOf(request.operation), e, r.marks[|requests|], after, now) && Journaled(request.operation, p, e)
    ensures Carried(l, all, Report(r.prepared + [p], r.journals + [states], r.marks + [after], r.executions + [e], None), start, now)
  {
    GroupRecordsExtend(r.prepared, r.journals, r.marks, p, states, after, now);
    AllRanNext(l, requests, r.executions, r.marks, request, e, after, now);
    AllJournaledNext(requests, r.prepared, r.executions, request, p, e);
  }

  lemma CarriedUpTo(l: Limits, requests: seq<Request>, i: nat, next: nat, r: Report, start: Contents,
                    p: Prepared, states: seq<View>, e: Execution, after: Contents, now: nat)
    requires next == i + 1 <= |requests| && Carried(l, requests[..i], r, start, now)
    requires Records(p, states, r.marks[i], after, now) && Performed(l, CommandsOf(requests[i].operation), e, r.marks[i], after, now)
    requires Journaled(requests[i].operation, p, e)
    ensures Carried(l, requests[..next],
                    Report(r.prepared + [p], r.journals + [states], r.marks + [after], r.executions + [e], None), start, now)
    ensures (r.marks + [after])[next] == after
  {
    var front, request, all := requests[..i], requests[i], requests[..next];
    PrefixNext(requests, i, next);
    CarriedAs(l, front, r, start, request, all, p, states, e, after, now, i, next);
  }

  lemma PrefixNext(requests: seq<Request>, i: nat, next: nat)
    requires next == i + 1 <= |requests|
    ensures requests[..next] == requests[..i] + [requests[i]]
  {
  }

  lemma CarriedAs(l: Limits, front: seq<Request>, r: Report, start: Contents, request: Request, all: seq<Request>,
                  p: Prepared, states: seq<View>, e: Execution, after: Contents, now: nat, i: nat, next: nat)
    requires |front| == i && next == i + 1 && all == front + [request] && Carried(l, front, r, start, now)
    requires Records(p, states, r.marks[i], after, now) && Performed(l, CommandsOf(request.operation), e, r.marks[i], after, now)
    requires Journaled(request.operation, p, e)
    ensures Carried(l, all, Report(r.prepared + [p], r.journals + [states], r.marks + [after], r.executions + [e], None), start, now)
    ensures (r.marks + [after])[next] == after
  {
    CarriedNext(l, front, r, start, request, all, p, states, e, after, now);
  }

  /** The group failed: the requests before one of them ran, and in that one the
      change of a command vanished. */
  ghost predicate FailedIn(l: Limits, requests: seq<Request>, r: Report, start: Contents, now: nat) {
    var j := |r.prepared|;
    && j < |requests| && r.failure.Some? && Carried(l, requests[..j], r, start, now)
    && Stopped(l, CommandsOf(requests[j].operation), r.failure.value, r.marks[j], now)
  }

  /** What a report says about the group, whatever storage did with it. */
  ghost predicate Reported(l: Limits, requests: seq<Request>, r: Report, start: Contents, now: nat) {
    if r.failure.Some? then FailedIn(l, requests, r, start, now) else Carried(l, requests, r, start, now)
  }

  lemma ReportedLater(l: Limits, requests: seq<Request>, r: Report, start: Contents, earlier: nat, later: nat)
    requires earlier <= later && Reported(l, requests, r, start, earlier)
    ensures Reported(l, requests, r, start, later)
  {
    if r.failure.Some? {
      var j := |r.prepared|;
      CarriedLater(l, requests[..j], r, start, earlier, later);
      StoppedLater(l, CommandsOf(requests[j].operation), r.failure.value, r.marks[j], earlier, later);
    } else {
      CarriedLater(l, requests, r, start, earlier, later);
    }
  }

  /** How the result follows from preparation, the sequences left and the outcome of
      the append: only an acknowledged append, or nothing to append, completes a
      group; a rejected one is undone; an unknown one fences the coordinator off. */
  predicate Decides(outcome: Outcome, sequence: nat, r: Report, result: GroupResult) {
    Decided(outcome, sequence, r.failure.Some?, |AllBatches(r.prepared)|, result)
  }

  predicate Decided(outcome: Outcome, sequence: nat, failed: bool, batches: nat, result: GroupResult) {
    if failed || sequence + batches > MAX_SEQUENCE then result.Reverted?
    else if batches == 0 || outcome.Accepted? then result.Completed?
    else if outcome.Rejected? then result.Reverted?
    else result.Fenced?
  }

  // ---- The coordinator ----

  datatype GroupResult = Completed | Declined | Reverted | Fenced

  datatype Outcome = Accepted | Rejected | Indeterminate

  /** One record of the binlog. */
  type Record = Retained

  /** Contiguous sequence numbers after `sequence`. */
  function Numbered(sequence: nat, batches: seq<Batch>): (r: seq<Record>)
    ensures |r| == |batches|
    ensures forall i :: 0 <= i < |batches| ==> r[i] == Retained(sequence + i + 1, batches[i])
  {
    seq(|batches|, i requires 0 <= i < |batches| => Retained(sequence + i + 1, batches[i]))
  }

  function Payloads(log: seq<Record>): (r: seq<Batch>)
    ensures |r| == |log|
    ensures forall i :: 0 <= i < |log| ==> r[i] == log[i].batch
  {
    seq(|log|, i requires 0 <= i < |log| => log[i].batch)
  }

  ghost predicate Folds(v: View, base: View, log: seq<Record>, now: nat) {
    v == Alive(ApplyAll(base, Payloads(log)), now)
  }

  /** Binlog, backlog and live stream hold the same batches at the same contiguous
      sequences. */
  ghost predicate LogOk(first: nat, sequence: nat, log: seq<Record>, backlog: seq<Record>, published: seq<Record>) {
    && sequence == first + |log| && sequence <= MAX_SEQUENCE
    && log == Numbered(first, Payloads(log)) && AllCommittable(Payloads(log))
    && published == log && backlog == Newest(log)
  }

  lemma LogOkNext(first: nat, sequence: nat, log: seq<Record>, backlog: seq<Record>, published: seq<Record>, records: seq<Record>)
    requires LogOk(first, sequence, log, backlog, published)
    requires records == Numbered(sequence, Payloads(records)) && sequence + |records| <= MAX_SEQUENCE && AllCommittable(Payloads(records))
    ensures LogOk(first, sequence + |records|, log + records, Newest(log + records), published + records)
  {
    NumberedConcat(first, log, records);
    PayloadsConcat(log, records);
  }

  /** Pushes an accepted group to the backlog of everything before it. */
  method PushAll(backlog: seq<Record>, records: seq<Record>, ghost before: seq<Record>) returns (backlog': seq<Record>)
    requires backlog == Newest(before)
    ensures backlog' == Newest(before + records)
  {
    backlog' := backlog;
    assert before + records[..0] == before;
    for i := 0 to |records|
      invariant backlog' == Newest(before + records[..i])
    {
      NewestNext(before + records[..i], records[i]);
      assert before + records[..i] + [records[i]] == before + records[..i + 1];
      backlog' := PushAndTrim(backlog', records[i]);
    }
    assert records[..|records|] == records;
  }

  /** Numbers the batches of a group and hands them to storage in one append. */
  method AppendRecords(sequence: nat, batches: seq<Batch>, outcome: Outcome) returns (result: GroupResult, records: seq<Record>)
    requires sequence <= MAX_SEQUENCE
    ensures !result.Declined? && Decided(outcome, sequence, false, |batches|, result)
    ensures result.Completed? ==> records == Numbered(sequence, batches) && sequence + |records| <= MAX_SEQUENCE
  {
    var numbered := AssignSequences(sequence, batches);
    if numbered.None? {
      return Reverted, [];
    }
    records := numbered.value;
    if records == [] || outcome.Accepted? {
      return Completed, records;
    }
    result := if outcome.Rejected? then Reverted else Fenced;
  }

  /** The live state is the fold of the log, unless an unknown outcome has fenced it
      off, and neither it nor any prefix of the log has passed the key limit. */
  ghost predicate Sits(v: View, base: View, log: seq<Record>, fenced: bool, now: nat) {
    && (!fenced ==> Folds(v, base, log, now))
    && (|base| <= MAX_KEYS ==> |v| <= MAX_KEYS && PrefixesWithin(base, Payloads(log), now))
  }

  lemma SitsAtFirst(m: Contents, now: nat)
    ensures Sits(Visible(m, now), Visible(m, now), [], false, now)
  {
    var none: seq<Batch> := [];
    VisibleIsAlive(m, now);
    assert Payloads([]) == none && none[..0] == none;
  }

  /** A group that has been prepared and not yet been committed. */
  ghost predicate Ready(prepared: seq<Prepared>, journals: seq<seq<View>>, marks: seq<Contents>, base: View, log: seq<Record>,
                        m: Contents, begun: nat, now: nat) {
    && begun <= now && GroupRecords(prepared, journals, marks, now) && Visible(m, now) == Visible(marks[|prepared|], now)
    && Sits(Visible(marks[0], begun), base, log, false, begun)
    && (|base| <= MAX_KEYS ==> JournalsWithin(journals, now) && |Visible(m, now)| <= MAX_KEYS)
  }

  /** Publishing it extends the fold. */
  lemma ReadySits(prepared: seq<Prepared>, journals: seq<seq<View>>, marks: seq<Contents>, base: View, log: seq<Record>,
                  records: seq<Record>, m: Contents, begun: nat, now: nat)
    requires Ready(prepared, journals, marks, base, log, m, begun, now) && Payloads(records) == AllBatches(prepared)
    ensures Sits(Visible(m, now), base, log + records, false, now)
    ensures Visible(m, now) == Alive(ApplyAll(Visible(marks[0], now), AllBatches(prepared)), now)
  {
    var batches, start := AllBatches(prepared), Visible(marks[0], now);
    GroupReplays(prepared, journals, marks, now);
    VisibleLater(marks[0], begun, now);
    FoldsLater(Visible(marks[0], begun), base, log, begun, now);
    FoldExtends(start, base, log, batches, now);
    PayloadsConcat(log, records);
    if |base| <= MAX_KEYS {
      LiveCountShrinks(marks[0], begun, now);
      GroupWithin(prepared, journals, marks, now);
      PrefixesWithinLater(base, Payloads(log), begun, now);
      PrefixesJoin(base, Payloads(log), start, batches, now);
    }
  }

  /** Undoing it, or never having changed anything, keeps the fold. */
  lemma UndoneSits(start: Contents, base: View, log: seq<Record>, begun: nat, now: nat)
    requires begun <= now && Sits(Visible(start, begun), base, log, false, begun)
    ensures Sits(Visible(start, now), base, log, false, now)
  {
    VisibleLater(start, begun, now);
    FoldsLater(Visible(start, begun), base, log, begun, now);
    LiveCountShrinks(start, begun, now);
    if |base| <= MAX_KEYS {
      PrefixesWithinLater(base, Payloads(log), begun, now);
    }
  }

  lemma FencedSits(prepared: seq<Prepared>, journals: seq<seq<View>>, marks: seq<Contents>, base: View, log: seq<Record>,
                   m: Contents, begun: nat, now: nat)
    requires Ready(prepared, journals, marks, base, log, m, begun, now)
    ensures Sits(Visible(m, now), base, log, true, now)
  {
    if |base| <= MAX_KEYS {
      PrefixesWithinLater(base, Payloads(log), begun, now);
    }
  }

  class Coordinator {
    const store: Store
    var sequence: nat
    var log: seq<Record>
    var backlog: seq<Record>
    var published: seq<Record>
    var acceptingWrites: bool
    var failStopped: bool
    ghost const base: View
    ghost const first: nat

    ghost predicate Contiguous()
      reads this
    {
      LogOk(first, sequence, log, backlog, published) && (failStopped ==> !acceptingWrites)
    }

    /** The mutation invariant: live state is the fold of exactly those batches,
        unless an unknown outcome has fenced it off. */
    ghost predicate Valid()
      reads this, store.engine, store.engine.Repr, store.engine.shards, store.engine.total, store.clock
    {
      && store.Valid() && this !in store.Repr
      && Contiguous()
      && Sits(store.State(), base, log, failStopped, store.clock.now)
    }

    ghost function Shown(): Standing
      reads this, store.engine.shards, store.clock
    {
      Standing(log, sequence, store.engine.Contents(), store.clock.now, acceptingWrites)
    }

    constructor (store: Store, sequence: nat)
      requires store.Valid() && sequence <= MAX_SEQUENCE
      ensures Valid() && this.store == store && first == sequence && log == [] && base == store.State()
      ensures acceptingWrites && !failStopped
    {
      this.store := store;
      this.sequence := sequence;
      log, backlog, published := [], [], [];
      acceptingWrites, failStopped := true, false;
      SitsAtFirst(store.engine.Contents(), store.clock.now);
      base := store.State();
      first := sequence;
      label before: new;
      store.Unmoved@before();
    }

    /** Records one accepted group: the binlog already holds it, so the sequence
        advances, the backlog keeps the newest records, and all are broadcast. */
    method Publish(records: seq<Record>)
      requires Contiguous() && records == Numbered(sequence, Payloads(records)) && sequence + |records| <= MAX_SEQUENCE
      requires AllCommittable(Payloads(records))
      modifies this
      ensures Contiguous() && log == old(log) + records
      ensures acceptingWrites == old(acceptingWrites) && failStopped == old(failStopped)
    {
      LogOkNext(first, sequence, log, backlog, published, records);
      var newest := PushAll(backlog, records, log);
      log, sequence := log + records, sequence + |records|;
      backlog, published := newest, published + records;
    }

    /** One group under the commit boundary. `outcome` is what the single physical
        append reports; `report` tells how each request ran. */
    method ProcessCommitGroup(requests: seq<Request>, outcome: Outcome) returns (result: GroupResult, ghost report: Report)
      requires Valid()
      modifies this, store.Repr
      ensures Valid() && old(store.clock.now) <= store.clock.now
      ensures result.Declined? <==> !old(acceptingWrites)
      ensures result.Declined? ==> unchanged(this) && unchanged(store.Repr)
      ensures !result.Declined? ==>
        && Reported(store.Bounds(), requests, report, old(store.engine.Contents()), store.clock.now)
        && Decides(outcome, old(sequence), report, result)
      ensures result.Completed? ==>
        && log == old(log) + Numbered(old(sequence), AllBatches(report.prepared))
        && SameLive(store.engine.Contents(), report.marks[|requests|], store.clock.now)
        && store.State() == Alive(ApplyAll(Visible(old(store.engine.Contents()), store.clock.now), AllBatches(report.prepared)), store.clock.now)
        && acceptingWrites && !failStopped
      ensures result.Reverted? ==>
        && log == old(log) && !acceptingWrites && failStopped == old(failStopped)
        && store.State() == Visible(old(store.engine.Contents()), store.clock.now)
      ensures result.Fenced? ==> log == old(log) && failStopped && !acceptingWrites
    {
      if failStopped || !acceptingWrites {
        return Declined, Report([], [], [], [], None);
      }
      result, report := ExecuteGroup(requests, outcome, store.engine.Contents());
    }

    method ExecuteGroup(requests: seq<Request>, outcome: Outcome, ghost start: Contents)
      returns (result: GroupResult, ghost report: Report)
      requires Valid() && acceptingWrites && !failStopped && start == store.engine.Contents()
      modifies this, store.Repr
      ensures Valid() && old(store.clock.now) <= store.clock.now && !result.Declined?
      ensures Reported(store.Bounds(), requests, report, start, store.clock.now) && Decides(outcome, old(sequence), report, result)
      ensures result.Completed? ==>
        && log == old(log) + Numbered(old(sequence), AllBatches(report.prepared))
        && SameLive(store.engine.Contents(), report.marks[|requests|], store.clock.now)
        && store.State() == Alive(ApplyAll(Visible(start, store.clock.now), AllBatches(report.prepared)), store.clock.now)
        && acceptingWrites && !failStopped
      ensures result.Reverted? ==>
        log == old(log) && !acceptingWrites && !failStopped && store.State() == Visible(start, store.clock.now)
      ensures result.Fenced? ==> log == old(log) && failStopped && !acceptingWrites
    {
      ghost var t0 := store.clock.now;
      var ok, prepared;
      ok, prepared, report := PrepareAll(store, requests, start);
      if !ok {
        StopWriting(start, t0);
        return Reverted, report;
      }
      ghost var t1 := store.clock.now;
      result := CommitPrepared(prepared, outcome, report.journals, report.marks, t0);
      CarriedLater(store.Bounds(), requests, report, start, t1, store.clock.now);
    }

    /** Preparation has undone itself: nothing is appended, and writes stop. */
    method StopWriting(ghost start: Contents, ghost begun: nat)
      requires store.Valid() && this !in store.Repr && Contiguous() && !failStopped
      requires begun <= store.clock.now && Sits(Visible(start, begun), base, log, false, begun)
      requires store.State() == Visible(start, store.clock.now)
      modifies this
      ensures Valid() && log == old(log) && !acceptingWrites && !failStopped
      ensures store.State() == old(store.State()) && store.clock.now == old(store.clock.now)
    {
      UndoneSits(start, base, log, begun, store.clock.now);
      label before:
      acceptingWrites := false;
      store.Unmoved@before();
    }

    /** Numbers and appends what the group prepared, and obeys the outcome. */
    method CommitPrepared(prepared: seq<Prepared>, outcome: Outcome,
                          ghost journals: seq<seq<View>>, ghost marks: seq<Contents>, ghost begun: nat)
      returns (result: GroupResult)
      requires store.Valid() && this !in store.Repr && Contiguous() && acceptingWrites && !failStopped
      requires Ready(prepared, journals, marks, base, log, store.engine.Contents(), begun, store.clock.now)
      requires SameLive(store.engine.Contents(), marks[|prepared|], store.clock.now)
      modifies this, store.Repr
      ensures Valid() && old(store.clock.now) <= store.clock.now
      ensures Decided(outcome, old(sequence), false, |AllBatches(prepared)|, result)
      ensures result.Completed? ==>
        && log == old(log) + Numbered(old(sequence), AllBatches(prepared))
        && SameLive(store.engine.Contents(), marks[|prepared|], store.clock.now)
        && store.State() == Alive(ApplyAll(Visible(marks[0], store.clock.now), AllBatches(prepared)), store.clock.now)
        && acceptingWrites && !failStopped
      ensures result.Reverted? ==>
        log == old(log) && !acceptingWrites && !failStopped && store.State() == Visible(marks[0], store.clock.now)
      ensures result.Fenced? ==> log == old(log) && failStopped && !acceptingWrites
    {
      var records;
      result, records := AppendRecords(sequence, AllBatches(prepared), outcome);
      match result {
        case Reverted => RevertGroup(prepared, journals, marks, begun);
        case Fenced => Fence(prepared, journals, marks, begun);
        case Completed => CompleteGroup(prepared, records, journals, marks, begun);
      }
    }

    /** The outcome is unknown: nothing is undone, and nothing is accepted again. */
    method Fence(ghost prepared: seq<Prepared>, ghost journals: seq<seq<View>>, ghost marks: seq<Contents>, ghost begun: nat)
      requires store.Valid() && this !in store.Repr && Contiguous()
      requires Ready(prepared, journals, marks, base, log, store.engine.Contents(), begun, store.clock.now)
      modifies this
      ensures Valid() && log == old(log) && failStopped && !acceptingWrites && store.clock.now == old(store.clock.now)
    {
      FencedSits(prepared, journals, marks, base, log, store.engine.Contents(), begun, store.clock.now);
      label before:
      acceptingWrites, failStopped := false, true;
      store.Unmoved@before();
    }

    /** The append was acknowledged: the tentative state becomes authoritative. */
    method CompleteGroup(ghost prepared: seq<Prepared>, records: seq<Record>, ghost journals: seq<seq<View>>, ghost marks: seq<Contents>, ghost begun: nat)
      requires store.Valid() && this !in store.Repr && Contiguous() && acceptingWrites && !failStopped
      requires Ready(prepared, journals, marks, base, log, store.engine.Contents(), begun, store.clock.now)
      requires records == Numbered(sequence, AllBatches(prepared)) && sequence + |records| <= MAX_SEQUENCE
      modifies this
      ensures Valid() && log == old(log) + records && acceptingWrites && !failStopped
      ensures store.engine.Contents() == old(store.engine.Contents()) && store.clock.now == old(store.clock.now)
      ensures store.State() == Alive(ApplyAll(Visible(marks[0], store.clock.now), AllBatches(prepared)), store.clock.now)
    {
      ghost var m, now := store.engine.Contents(), store.clock.now;
      AllBatchesCommittable(prepared, journals, marks, now);
      PayloadsOfNumbered(sequence, AllBatches(prepared));
      ReadySits(prepared, journals, marks, base, log, records, m, begun, now);
      label before:
      Publish(records);
      store.Unmoved@before();
    }

    /** A definitive rejection: undo everything and stop accepting writes. */
    method RevertGroup(prepared: seq<Prepared>, ghost journals: seq<seq<View>>, ghost marks: seq<Contents>, ghost begun: nat)
      requires store.Valid() && this !in store.Repr && Contiguous() && !failStopped
      requires begun <= store.clock.now && GroupRecords(prepared, journals, marks, store.clock.now)
      requires store.State() == Visible(marks[|prepared|], store.clock.now) && Sits(Visible(marks[0], begun), base, log, false, begun)
      modifies this, store.Repr
      ensures Valid() && old(store.clock.now) <= store.clock.now
      ensures log == old(log) && !acceptingWrites && !failStopped && store.State() == Visible(marks[0], store.clock.now)
    {
      ghost var start := marks[0];
      RollbackPrepared(store, prepared, journals, marks);
      StopWriting(start, begun);
    }
  }

  /** Executes all requests of a group; a failure undoes those before it. */
  method PrepareAll(store: Store, requests: seq<Request>, ghost start: Contents)
    returns (ok: bool, prepared: seq<Prepared>, ghost report: Report)
    requires store.Valid() && store.engine.Contents() == start
    modifies store.Repr
    ensures store.Valid() && old(store.clock.now) <= store.clock.now
    ensures Reported(store.Bounds(), requests, report, start, store.clock.now) && (ok <==> report.failure.None?)
    ensures ok ==> prepared == report.prepared && store.engine.Contents() == report.marks[|requests|]
    ensures ok && |old(store.State())| <= MAX_KEYS ==> JournalsWithin(report.journals, store.clock.now) && |store.State()| <= MAX_KEYS
    ensures !ok ==> store.State() == Visible(start, store.clock.now)
  {
    ghost var begun, live := store.clock.now, |store.State()|;
    prepared, report := [], Report([], [], [start], [], None);
    var i := 0;
    assert requests[..0] == [];
    while i < |requests|
      invariant 0 <= i <= |requests|
      invariant store.Valid() && begun <= store.clock.now
      invariant Carried(store.Bounds(), requests[..i], report, start, store.clock.now) && report.failure.None? && prepared == report.prepared
      invariant store.engine.Contents() == report.marks[i]
      invariant live <= MAX_KEYS ==> JournalsWithin(report.journals, store.clock.now) && |store.State()| <= MAX_KEYS
    {
      var next := i + 1;
      ok, prepared, report := PrepareOne(store, requests, i, next, prepared, report, start, live);
      if !ok {
        return;
      }
      i := next;
    }
    assert requests[..i] == requests;
    ok := true;
  }

  /** Executes the next request, or undoes the whole group so far. */
  method PrepareOne(store: Store, requests: seq<Request>, i: nat, ghost next: nat, prepared: seq<Prepared>, ghost report: Report,
                    ghost start: Contents, ghost live: nat)
    returns (ok: bool, prepared': seq<Prepared>, ghost report': Report)
    requires store.Valid() && i < |requests| && next == i + 1 && prepared == report.prepared && report.failure.None?
    requires Carried(store.Bounds(), requests[..i], report, start, store.clock.now) && store.engine.Contents() == report.marks[i]
    requires live <= MAX_KEYS ==> JournalsWithin(report.journals, store.clock.now) && |store.State()| <= MAX_KEYS
    modifies store.Repr
    ensures store.Valid() && old(store.clock.now) <= store.clock.now
    ensures ok <==> report'.failure.None?
    ensures ok ==>
      && Carried(store.Bounds(), requests[..next], report', start, store.clock.now)
      && prepared' == report'.prepared && store.engine.Contents() == report'.marks[next]
    ensures ok && live <= MAX_KEYS ==> JournalsWithin(report'.journals, store.clock.now) && |store.State()| <= MAX_KEYS
    ensures !ok ==>
      && FailedIn(store.Bounds(), requests, report', start, store.clock.now)
      && store.State() == Visible(start, store.clock.now)
  {
    ghost var t0, mark, l := store.clock.now, store.engine.Contents(), store.Bounds();
    var p;
    ghost var states, e, failure;
    ok, p, states, e, failure := PrepareRequest(store, requests[i].operation, mark);
    ghost var after, now := store.engine.Contents(), store.clock.now;
    CarriedLater(l, requests[..i], report, start, t0, now);
    if !ok {
      prepared', report' := prepared, report.(failure := failure);
      UndoPrepared(store, requests, prepared, report', start);
      return;
    }
    CarriedUpTo(l, requests, i, next, report, start, p, states, e, after, now);
    if live <= MAX_KEYS {
      JournalsWithinNext(report.journals, states, t0, now);
    }
    prepared' := prepared + [p];
    report' := Report(report.prepared + [p], report.journals + [states], report.marks + [after], report.executions + [e], None);
  }

  /** One request has failed and undone itself; the ones before it follow. */
  method UndoPrepared(store: Store, ghost requests: seq<Request>, prepared: seq<Prepared>, ghost report: Report, ghost start: Contents)
    requires store.Valid() && prepared == report.prepared && FailedIn(store.Bounds(), requests, report, start, store.clock.now)
    requires store.State() == Visible(report.marks[|prepared|], store.clock.now)
    modifies store.Repr
    ensures store.Valid() && old(store.clock.now) <= store.clock.now
    ensures FailedIn(store.Bounds(), requests, report, start, store.clock.now) && store.State() == Visible(start, store.clock.now)
  {
    ghost var t0 := store.clock.now;
    RollbackPrepared(store, prepared, report.journals, report.marks);
    ReportedLater(store.Bounds(), requests, report, start, t0, store.clock.now);
  }

  lemma JournalsWithinNext(journals: seq<seq<View>>, states: seq<View>, earlier: nat, now: nat)
    requires earlier <= now && JournalsWithin(journals, earlier) && AllWithin(states, now)
    ensures JournalsWithin(journals + [states], now)
  {
    forall j | 0 <= j < |journals| ensures AllWithin(journals[j], now) {
      AllWithinLater(journals[j], earlier, now);
    }
  }

  /** Numbers the batches consecutively; running out of sequences is an error. */
  method AssignSequences(sequence: nat, batches: seq<Batch>) returns (r: Option<seq<Record>>)
    requires sequence <= MAX_SEQUENCE
    ensures r == if sequence + |batches| <= MAX_SEQUENCE then Some(Numbered(sequence, batches)) else None
  {
    var records: seq<Record> := [];
    var next := sequence;
    while |records| < |batches|
      invariant |records| <= |batches| && next == sequence + |records| <= MAX_SEQUENCE
      invariant records == Numbered(sequence, batches)[..|records|]
      decreases |batches| - |records|
    {
      if next == MAX_SEQUENCE {
        return None;
      }
      next := next + 1;
      records := records + [Retained(next, batches[|records|])];
    }
    assert Numbered(sequence, batches)[..|records|] == Numbered(sequence, batches);
    r := Some(records);
  }

  lemma NumberedConcat(first: nat, log: seq<Record>, records: seq<Record>)
    requires log == Numbered(first, Payloads(log)) && records == Numbered(first + |log|, Payloads(records))
    ensures log + records == Numbered(first, Payloads(log + records))
  {
    var all := log + records;
    forall i | 0 <= i < |all| ensures all[i] == Numbered(first, Payloads(all))[i] {
      if i < |log| {
        assert log[i] == Numbered(first, Payloads(log))[i];
      } else {
        assert records[i - |log|] == Numbered(first + |log|, Payloads(records))[i - |log|];
      }
    }
  }

  lemma FoldsLater(v: View, base: View, log: seq<Record>, earlier: nat, later: nat)
    requires earlier <= later && Folds(v, base, log, earlier)
    ensures Folds(Alive(v, later), base, log, later)
  {
    AliveTwice(ApplyAll(base, Payloads(log)), earlier, later);
  }

  lemma PayloadsConcat(log: seq<Record>, records: seq<Record>)
    ensures Payloads(log + records) == Payloads(log) + Payloads(records)
  {
  }

  lemma PayloadsOfNumbered(sequence: nat, batches: seq<Batch>)
    ensures Payloads(Numbered(sequence, batches)) == batches
  {
  }

  lemma FoldExtends(v: View, base: View, log: seq<Record>, batches: seq<Batch>, now: nat)
    requires Folds(v, base, log, now)
    ensures Alive(ApplyAll(v, batches), now) == Alive(ApplyAll(base, Payloads(log) + batches), now)
  {
    var committed := ApplyAll(base, Payloads(log));
    AliveTwice(committed, now, now);
    ApplyAllAlive(v, committed, batches, now);
    ApplyAllConcat(base, Payloads(log), batches);
  }

  // ---- The worker loop ----

  function TotalMutations(group: seq<Request>): nat {
    if group == [] then 0 else TotalMutations(group[..|group| - 1]) + group[|group| - 1].Mutations()
  }

  function TotalBytes(group: seq<Request>): nat {
    if group == [] then 0 else TotalBytes(group[..|group| - 1]) + group[|group| - 1].bytes
  }

  /** A group respects the execution limits; a request that exceeds them on its
      own forms a group by itself. */
  ghost predicate WithinLimits(group: seq<Request>) {
    && 1 <= |group| <= MAX_COMMIT_GROUP_REQUESTS
    && (|group| > 1 ==>
          TotalMutations(group) <= MAX_COMMIT_GROUP_LOGICAL_MUTATIONS && TotalBytes(group) <= MAX_COMMIT_GROUP_INPUT_BYTES)
  }

  function Flattened(groups: seq<seq<Request>>): seq<Request> {
    if groups == [] then [] else Flattened(groups[..|groups| - 1]) + groups[|groups| - 1]
  }

  lemma MoveFirst(group: seq<Request>, rest: seq<Request>)
    requires rest != []
    ensures group + rest == group + [rest[0]] + rest[1..]
  {
  }

  lemma GrowGroup(group: seq<Request>, request: Request)
    requires WithinLimits(group) && |group| < MAX_COMMIT_GROUP_REQUESTS
    ensures TotalMutations(group + [request]) == TotalMutations(group) + request.Mutations()
    ensures TotalBytes(group + [request]) == TotalBytes(group) + request.bytes
    ensures TotalMutations(group) + request.Mutations() <= MAX_COMMIT_GROUP_LOGICAL_MUTATIONS
         && TotalBytes(group) + request.bytes <= MAX_COMMIT_GROUP_INPUT_BYTES
       <==> WithinLimits(group + [request])
  {
    assert (group + [request])[..|group|] == group;
  }

  /** Takes the oldest request and as many successors as have arrived and fit;
      one that does not fit is kept aside as the first of the next group. A group
      stays short only for such a request or because nothing more has arrived. */
  method FormGroup(first: Request, arrived: seq<Request>, visible: nat)
    returns (group: seq<Request>, deferred: Option<Request>, rest: seq<Request>)
    ensures WithinLimits(group)
    ensures [first] + arrived == group + (Pending(deferred) + rest)
    ensures deferred.Some? ==> |group| < MAX_COMMIT_GROUP_REQUESTS && !WithinLimits(group + [deferred.value])
    ensures deferred.None? ==> |group| == MAX_COMMIT_GROUP_REQUESTS || rest == [] || |group| > visible
  {
    group, deferred, rest := [first], None, arrived;
    var mutations, bytes := first.Mutations(), first.bytes;
    assert group[..0] == [];
    while |group| < MAX_COMMIT_GROUP_REQUESTS && rest != [] && |group| <= visible
      invariant WithinLimits(group) && mutations == TotalMutations(group) && bytes == TotalBytes(group)
      invariant [first] + arrived == group + rest
      decreases |rest|
    {
      var request := rest[0];
      MoveFirst(group, rest);
      GrowGroup(group, request);
      rest := rest[1..];
      if mutations + request.Mutations() > MAX_COMMIT_GROUP_LOGICAL_MUTATIONS
         || bytes + request.bytes > MAX_COMMIT_GROUP_INPUT_BYTES {
        deferred := Some(request);
        assert group + [request] + rest == group + (Pending(deferred) + rest);
        return;
      }
      mutations, bytes := mutations + request.Mutations(), bytes + request.bytes;
      group := group + [request];
    }
  }

  function Pending(deferred: Option<Request>): seq<Request> {
    if deferred.Some? then [deferred.value] else []
  }

  // ---- A whole run of the worker ----

  /** One round: the group, whether writes were accepted, what came out, and the
      contents and sequence on both sides. */
  datatype Round = Round(group: seq<Request>, accepting: bool, result: GroupResult, report: Report, sequence: nat,
                         start: Contents, end: Contents, begun: nat, now: nat)

  /** A round is declined exactly when writes are no longer accepted. Otherwise its
      requests ran, and outcome and state follow. */
  ghost predicate RoundOk(l: Limits, r: Round, outcome: Outcome) {
    && r.begun <= r.now && (r.result.Declined? <==> !r.accepting)
    && (r.result.Declined? ==> r.end == r.start)
    && (!r.result.Declined? ==>
          Reported(l, r.group, r.report, r.start, r.now) && Decides(outcome, r.sequence, r.report, r.result))
    && (r.result.Completed? ==> SameLive(r.end, r.report.marks[|r.group|], r.now))
    && (r.result.Reverted? ==> Visible(r.end, r.now) == Visible(r.start, r.now))
  }

  function CommittedBy(r: Round): seq<Batch> {
    if r.result.Completed? then AllBatches(r.report.prepared) else []
  }

  function CommittedIn(rounds: seq<Round>): seq<Batch> {
    if rounds == [] then [] else CommittedIn(rounds[..|rounds| - 1]) + CommittedBy(rounds[|rounds| - 1])
  }

  /** Round i + 1 continues where round i ended; after a round that did not complete
      no write is accepted. */
  ghost predicate Continues(a: Round, b: Round) {
    && b.start == a.end && b.begun == a.now && b.sequence == a.sequence + |CommittedBy(a)|
    && (b.accepting <==> a.accepting && a.result.Completed?)
  }

  ghost predicate Rounds(l: Limits, rounds: seq<Round>, outcomes: nat -> Outcome) {
    && (forall i :: 0 <= i < |rounds| ==> RoundOk(l, rounds[i], outcomes(i)))
    && (forall i, j :: 0 <= i && j == i + 1 < |rounds| ==> Continues(rounds[i], rounds[j]))
  }

  /** From the first round that does not complete, every later one is declined. */
  lemma {:induction false} FailureIsFinal(l: Limits, rounds: seq<Round>, outcomes: nat -> Outcome, i: nat, j: nat)
    requires Rounds(l, rounds, outcomes) && i < j < |rounds| && !rounds[i].result.Completed?
    ensures rounds[j].result.Declined?
    decreases j
  {
    assert RoundOk(l, rounds[j], outcomes(j)) && RoundOk(l, rounds[i], outcomes(i));
    assert Continues(rounds[j - 1], rounds[j]);
    if i < j - 1 {
      FailureIsFinal(l, rounds, outcomes, i, j - 1);
    }
  }

  function GroupsOf(rounds: seq<Round>): seq<seq<Request>> {
    if rounds == [] then [] else GroupsOf(rounds[..|rounds| - 1]) + [rounds[|rounds| - 1].group]
  }

  lemma RoundsNext(l: Limits, rounds: seq<Round>, outcomes: nat -> Outcome, r: Round)
    requires Rounds(l, rounds, outcomes) && RoundOk(l, r, outcomes(|rounds|))
    requires rounds != [] ==> Continues(rounds[|rounds| - 1], r)
    ensures Rounds(l, rounds + [r], outcomes)
  {
    var all := rounds + [r];
    forall i | 0 <= i < |all| ensures RoundOk(l, all[i], outcomes(i)) {
      if i < |rounds| {
        assert RoundOk(l, rounds[i], outcomes(i)) && all[i] == rounds[i];
      } else {
        assert all[i] == r;
      }
    }
    ContinuesNext(rounds, r);
  }

  lemma ContinuesNext(rounds: seq<Round>, r: Round)
    requires forall i, j :: 0 <= i && j == i + 1 < |rounds| ==> Continues(rounds[i], rounds[j])
    requires rounds != [] ==> Continues(rounds[|rounds| - 1], r)
    ensures var all := rounds + [r]; forall i, j :: 0 <= i && j == i + 1 < |all| ==> Continues(all[i], all[j])
  {
    var all := rounds + [r];
    forall i, j | 0 <= i && j == i + 1 < |all| ensures Continues(all[i], all[j]) {
      if j < |rounds| {
        assert Continues(rounds[i], rounds[j]) && all[i] == rounds[i] && all[j] == rounds[j];
      } else {
        assert all[i] == rounds[|rounds| - 1] && all[j] == r;
      }
    }
  }

  /** What a coordinator shows between rounds. */
  datatype Standing = Standing(log: seq<Record>, sequence: nat, contents: Contents, now: nat, accepting: bool)

  /** `s` is where `rounds` have led from `s0`. */
  ghost predicate Stands(s0: Standing, rounds: seq<Round>, s: Standing) {
    && s.log == s0.log + Numbered(s0.sequence, CommittedIn(rounds)) && s.sequence == s0.sequence + |CommittedIn(rounds)|
    && (if rounds == [] then s == s0 else Begins(s0, rounds[0]) && Ends(rounds[|rounds| - 1], s))
  }

  ghost predicate Begins(s: Standing, r: Round) {
    r.start == s.contents && r.begun == s.now && r.sequence == s.sequence && r.accepting == s.accepting
  }

  ghost predicate Ends(r: Round, s: Standing) {
    && s.contents == r.end && s.now == r.now && s.sequence == r.sequence + |CommittedBy(r)|
    && (s.accepting <==> r.accepting && r.result.Completed?)
  }

  lemma CommittedNext(rounds: seq<Round>, r: Round)
    ensures CommittedIn(rounds + [r]) == CommittedIn(rounds) + CommittedBy(r)
    ensures GroupsOf(rounds + [r]) == GroupsOf(rounds) + [r.group]
  {
    var all := rounds + [r];
    assert all[..|all| - 1] == rounds;
  }

  lemma StandsNext(s0: Standing, rounds: seq<Round>, s: Standing, r: Round, s': Standing)
    requires Stands(s0, rounds, s)
    requires Begins(s, r) && Ends(r, s') && s'.log == s.log + Numbered(s.sequence, CommittedBy(r))
    ensures Stands(s0, rounds + [r], s')
  {
    var all := rounds + [r];
    CommittedNext(rounds, r);
    LogNext(s0.log, s0.sequence, CommittedIn(rounds), CommittedBy(r));
    FirstAndLast(rounds, r);
    assert s'.log == s0.log + Numbered(s0.sequence, CommittedIn(all));
    assert s'.sequence == s0.sequence + |CommittedIn(all)|;
  }

  lemma FirstAndLast(rounds: seq<Round>, r: Round)
    ensures var all := rounds + [r]; all[|all| - 1] == r && all[0] == if rounds == [] then r else rounds[0]
  {
  }

  lemma LogNext(log: seq<Record>, sequence: nat, before: seq<Batch>, by_: seq<Batch>)
    ensures log + Numbered(sequence, before) + Numbered(sequence + |before|, by_) == log + Numbered(sequence, before + by_)
  {
    NumberedNext(sequence, before, by_);
  }

  lemma NumberedNext(sequence: nat, a: seq<Batch>, b: seq<Batch>)
    ensures Numbered(sequence, a + b) == Numbered(sequence, a) + Numbered(sequence + |a|, b)
  {
  }

  /** Processes one group and records the round. */
  method ProcessRound(c: Coordinator, group: seq<Request>, outcome: Outcome) returns (ghost r: Round)
    requires c.Valid()
    modifies c, c.store.Repr
    ensures c.Valid() && RoundOk(c.store.Bounds(), r, outcome) && r.group == group
    ensures Begins(old(c.Shown()), r) && Ends(r, c.Shown())
    ensures c.log == old(c.log) + Numbered(old(c.sequence), CommittedBy(r))
  {
    ghost var start, begun, sequence, accepting := c.store.engine.Contents(), c.store.clock.now, c.sequence, c.acceptingWrites;
    var result;
    ghost var report;
    result, report := c.ProcessCommitGroup(group, outcome);
    r := Round(group, accepting, result, report, sequence, start, c.store.engine.Contents(), begun, c.store.clock.now);
    assert c.log == old(c.log) + Numbered(sequence, CommittedBy(r));
  }

  /** The worker: every request is taken exactly once, in arrival order, in groups
      within the limits, and each group is processed in its round. The log grows by
      exactly the batches of the completed rounds. `visible(n)` bounds what has
      arrived in round n and `outcomes(n)` is what storage does with its append. */
  method RunCoordinator(coordinator: Coordinator, queue: seq<Request>, visible: nat -> nat, outcomes: nat -> Outcome)
    returns (ghost rounds: seq<Round>)
    requires coordinator.Valid()
    modifies coordinator, coordinator.store.Repr
    ensures coordinator.Valid() && Rounds(coordinator.store.Bounds(), rounds, outcomes)
    ensures Flattened(GroupsOf(rounds)) == queue && forall g :: g in GroupsOf(rounds) ==> WithinLimits(g)
    ensures Stands(old(coordinator.Shown()), rounds, coordinator.Shown())
    ensures Sits(coordinator.store.State(), coordinator.base, coordinator.log, coordinator.failStopped, coordinator.store.clock.now)
  {
    ghost var s0 := coordinator.Shown();
    rounds := [];
    var round: nat, deferred: Option<Request>, rest := 0, None, queue;
    NothingYet(s0, queue);
    while rest != [] || deferred.Some?
      invariant coordinator.Valid() && Rounds(coordinator.store.Bounds(), rounds, outcomes) && round == |rounds|
      invariant Stands(s0, rounds, coordinator.Shown())
      invariant Dealt(GroupsOf(rounds), Pending(deferred) + rest, queue)
      decreases |Pending(deferred) + rest|
    {
      deferred, rest, rounds := RunRound(coordinator, deferred, rest, visible, outcomes, round, queue, rounds, s0);
      round := round + 1;
    }
    assert Pending(deferred) + rest == [];
    assert Flattened(GroupsOf(rounds)) + [] == Flattened(GroupsOf(rounds));
  }

  lemma NothingYet(s: Standing, queue: seq<Request>)
    ensures Stands(s, [], s) && Dealt(GroupsOf([]), Pending(None) + queue, queue)
  {
    assert Numbered(s.sequence, []) == [] && s.log + [] == s.log;
    assert Flattened([]) + (Pending(None) + queue) == queue;
  }

  /** Forms one group from what is waiting and processes it. */
  method RunRound(coordinator: Coordinator, deferred: Option<Request>, rest: seq<Request>, visible: nat -> nat, outcomes: nat -> Outcome,
                  round: nat, ghost queue: seq<Request>, ghost rounds: seq<Round>, ghost s0: Standing)
    returns (deferred': Option<Request>, rest': seq<Request>, ghost rounds': seq<Round>)
    requires coordinator.Valid() && Rounds(coordinator.store.Bounds(), rounds, outcomes) && round == |rounds|
    requires Stands(s0, rounds, coordinator.Shown())
    requires Dealt(GroupsOf(rounds), Pending(deferred) + rest, queue) && (rest != [] || deferred.Some?)
    modifies coordinator, coordinator.store.Repr
    ensures coordinator.Valid() && Rounds(coordinator.store.Bounds(), rounds', outcomes) && |rounds'| == round + 1
    ensures Stands(s0, rounds', coordinator.Shown())
    ensures Dealt(GroupsOf(rounds'), Pending(deferred') + rest', queue)
    ensures |Pending(deferred') + rest'| < |Pending(deferred) + rest|
  {
    var first, arrived := NextRequest(deferred, rest);
    ghost var waiting, s := Pending(deferred) + rest, coordinator.Shown();
    var group;
    group, deferred', rest' := FormGroup(first, arrived, visible(round));
    DealtStep(GroupsOf(rounds), group, waiting, Pending(deferred') + rest', queue);
    rounds' := ProcessNext(coordinator, group, outcomes, round, rounds, s0, s);
  }

  /** Processes a group and adds its round to those before it. */
  method ProcessNext(coordinator: Coordinator, group: seq<Request>, outcomes: nat -> Outcome, round: nat,
                     ghost rounds: seq<Round>, ghost s0: Standing, ghost s: Standing)
    returns (ghost rounds': seq<Round>)
    requires coordinator.Valid() && Rounds(coordinator.store.Bounds(), rounds, outcomes) && round == |rounds|
    requires Stands(s0, rounds, s) && s == coordinator.Shown()
    modifies coordinator, coordinator.store.Repr
    ensures coordinator.Valid() && Rounds(coordinator.store.Bounds(), rounds', outcomes) && |rounds'| == round + 1
    ensures Stands(s0, rounds', coordinator.Shown()) && GroupsOf(rounds') == GroupsOf(rounds) + [group]
  {
    ghost var r := ProcessRound(coordinator, group, outcomes(round));
    ghost var s' := coordinator.Shown();
    RoundAdded(coordinator.store.Bounds(), rounds, outcomes, r, s0, s, s');
    rounds' := rounds + [r];
  }

  lemma RoundAdded(l: Limits, rounds: seq<Round>, outcomes: nat -> Outcome, r: Round, s0: Standing, s: Standing, s': Standing)
    requires Rounds(l, rounds, outcomes) && RoundOk(l, r, outcomes(|rounds|)) && Stands(s0, rounds, s)
    requires Begins(s, r) && Ends(r, s') && s'.log == s.log + Numbered(s.sequence, CommittedBy(r))
    ensures Rounds(l, rounds + [r], outcomes) && Stands(s0, rounds + [r], s') && GroupsOf(rounds + [r]) == GroupsOf(rounds) + [r.group]
  {
    StandsNext(s0, rounds, s, r, s');
    assert rounds != [] ==> Continues(rounds[|rounds| - 1], r);
    RoundsNext(l, rounds, outcomes, r);
    CommittedNext(rounds, r);
  }

  /** The groups so far and what still waits make up the queue, in order. */
  ghost predicate Dealt(groups: seq<seq<Request>>, waiting: seq<Request>, queue: seq<Request>) {
    && Flattened(groups) + waiting == queue
    && forall g :: g in groups ==> WithinLimits(g)
  }

  lemma DealtStep(groups: seq<seq<Request>>, group: seq<Request>, waiting: seq<Request>, left: seq<Request>, queue: seq<Request>)
    requires Dealt(groups, waiting, queue) && waiting == group + left && WithinLimits(group)
    ensures Dealt(groups + [group], left, queue)
  {
    assert (groups + [group])[..|groups|] == groups;
    assert Flattened(groups) + group + left == Flattened(groups) + (group + left);
  }

  method NextRequest(deferred: Option<Request>, rest: seq<Request>) returns (first: Request, arrived: seq<Request>)
    requires deferred.Some? || rest != []
    ensures [first] + arrived == Pending(deferred) + rest
  {
    if deferred.Some? {
      first, arrived := deferred.value, rest;
    } else {
      first, arrived := rest[0], rest[1..];
    }
  }
}
