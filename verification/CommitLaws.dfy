/** What the operations of the coordinator do, what they put into the log, and how
much of it fits into one group. */
module CommitLaws {
  import opened Model
  import opened Effects
  import opened Shards
  import opened ShardObject
  import opened EngineObject
  import opened Datasets
  import opened StoreObject
  import opened CommandRuns
  import opened RunLaws
  import opened Commit

  // ---- Single operations ----

  /** The one command of a request of a single command: how it ran and what it
      recorded. */
  lemma OneRan(l: Limits, requests: seq<Request>, r: Report, start: Contents, now: nat, j: nat, command: Command)
    returns (t: Trace, after: Contents)
    requires Carried(l, requests, r, start, now) && j < |requests| && CommandsOf(requests[j].operation) == [command]
    requires !requests[j].operation.Transaction?
    ensures r.executions[j].traces == [t] && Ran(l, r.marks[j], command, t, after, now)
    ensures Visible(after, now) == Visible(r.marks[j + 1], now)
    ensures r.prepared[j].batches == if t.verdict.Admitted? then [BatchOf(r.marks[j], command, t)] else []
  {
    var e := r.executions[j];
    assert Performed(l, CommandsOf(requests[j].operation), r.executions[j], r.marks[j], r.marks[j + 1], now);
    assert Journaled(requests[j].operation, r.prepared[j], r.executions[j]);
    t, after := e.traces[0], e.mids[1];
    assert Ran(l, e.mids[0], [command][0], e.traces[0], e.mids[1], now);
    SameVisible(after, r.marks[j + 1], now);
    assert e.traces == [] + [t] && e.mids == [e.mids[0]] + [after] && [command] == [] + [command];
    BatchesNext([], Execution([], [e.mids[0]]), command, t, after);
  }

  /** Storing over the binary protocol leaves the value, without an expiry, at the
      key, and every other entry as it was unless it was evicted; a refusal leaves
      everything as it was. */
  lemma ObpSetIs(l: Limits, requests: seq<Request>, r: Report, start: Contents, now: nat, j: nat, key: Bytes, value: Bytes, k: Bytes)
    requires Carried(l, requests, r, start, now) && j < |requests| && requests[j].operation == ObpSet(key, value)
    ensures |r.executions[j].traces| == 1
    ensures var verdict, before, after := r.executions[j].traces[0].verdict, Visible(r.marks[j], now), Visible(r.marks[j + 1], now);
      && (!verdict.Refusal? ==> key in after && after[key] == PersistentEntry(Blob(value), None))
      && (k != key || verdict.Refusal? ==>
            Lookup(after, k) == if verdict.Admitted? && k in EvictedKeys(verdict.evicted) then None else Lookup(before, k))
  {
    var t, after := OneRan(l, requests, r, start, now, j, SetCommand(key, value));
    SetLeaves(l, r.marks[j], key, value, t, after, now, k);
  }

  lemma SetLeaves(l: Limits, start: Contents, key: Bytes, value: Bytes, t: Trace, after: Contents, now: nat, k: Bytes)
    requires Ran(l, start, SetCommand(key, value), t, after, now)
    ensures !t.verdict.Refusal? ==> Lookup(Visible(after, now), key) == Some(PersistentEntry(Blob(value), None))
    ensures k != key || t.verdict.Refusal? ==>
      Lookup(Visible(after, now), k) ==
        if t.verdict.Admitted? && k in EvictedKeys(t.verdict.evicted) then None else Lookup(Visible(start, now), k)
  {
    var command := SetCommand(key, value);
    RunLeaves(l, start, command, t, after, now, key);
    RunLeaves(l, start, command, t, after, now, k);
    if t.verdict.Admitted? {
      KeySpared(l, start, command, t, after, now, key);
    }
  }

  /** A command never evicts its own keys. */
  lemma KeySpared(l: Limits, start: Contents, command: Command, t: Trace, after: Contents, now: nat, key: Bytes)
    requires Ran(l, start, command, t, after, now) && t.verdict.Admitted? && command.write && key in command.keys
    ensures key !in EvictedKeys(t.verdict.evicted)
  {
    AdmissionIs(l, start, command, t, after, now);
    var evicted, m, protected := t.verdict.evicted, Swept(t.held, t.verdict.checks.chosen), set k | command.write && k in command.keys;
    forall i | 0 <= i < |evicted| ensures evicted[i].0 != key {
      assert TakenNext(m, evicted, i, l.policy, protected);
    }
  }

  /** The deletions of the victims, in the order of their eviction. */
  function Deletions(evicted: seq<(Bytes, Entry)>): seq<Effect> {
    seq(|evicted|, i requires 0 <= i < |evicted| => Delete(evicted[i].0))
  }

  /** It records nothing unless it was admitted; then one batch: the victims, and the
      new entry unless the key held it already. */
  lemma ObpSetRecords(l: Limits, requests: seq<Request>, r: Report, start: Contents, now: nat, j: nat, key: Bytes, value: Bytes)
    requires Carried(l, requests, r, start, now) && j < |requests| && requests[j].operation == ObpSet(key, value)
    ensures |r.executions[j].traces| == 1
    ensures var verdict, entry := r.executions[j].traces[0].verdict, PersistentEntry(Blob(value), None);
      r.prepared[j].batches ==
        if !verdict.Admitted? then []
        else [Deletions(verdict.evicted) + if Lookup(Visible(r.marks[j], now), key) == Some(entry) then [] else [Put(key, entry)]]
  {
    var t, after := OneRan(l, requests, r, start, now, j, SetCommand(key, value));
    if t.verdict.Admitted? {
      SetDerives(l, r.marks[j], key, value, t, after, now);
    }
  }

  lemma SetDerives(l: Limits, start: Contents, key: Bytes, value: Bytes, t: Trace, after: Contents, now: nat)
    requires Ran(l, start, SetCommand(key, value), t, after, now) && t.verdict.Admitted? && t.at <= t.derived
    ensures var entry, batch := PersistentEntry(Blob(value), None), BatchOf(start, SetCommand(key, value), t);
      batch == Deletions(t.verdict.evicted) + if Lookup(Visible(start, now), key) == Some(entry) then [] else [Put(key, entry)]
  {
    var command, evicted, since := SetCommand(key, value), t.verdict.evicted, t.baseline.since;
    var victims, before := EvictedKeys(evicted), Entries(start, command.Affected(), since);
    var left := Dropping(t.held, victims);
    KeySpared(l, start, command, t, after, now, key);
    VictimsDistinct(l, start, command, t, after, now);
    DeriveOne(key, before, victims, Visible(left, t.derived));
    ExecutionIs(start, command, t.held, t.at);
    assert At(t.held, key, t.at) == Some(Entry(Blob(value), None, t.at, t.at));
    DroppingLookup(t.held, victims, key);
    SweptAt(left, key, t.derived);
    SweptAt(start, key, since);
    SweptAt(start, key, now);
  }

  lemma VictimsDistinct(l: Limits, start: Contents, command: Command, t: Trace, after: Contents, now: nat)
    requires Ran(l, start, command, t, after, now) && t.verdict.Admitted?
    ensures Evictions(EvictedKeys(t.verdict.evicted)) == Deletions(t.verdict.evicted)
  {
    var evicted := t.verdict.evicted;
    RunVictims(Swept(t.held, t.verdict.checks.chosen), evicted, l.maxMemory, l.policy, KeySet(command), l.sizeOf);
    DistinctEvictions(EvictedKeys(evicted));
  }

  /** Deleting over the binary protocol takes away the key and nothing else, is never
      refused and never costs a victim; its one batch says exactly that, and there is
      one whenever the key was there. */
  lemma ObpDeleteIs(l: Limits, requests: seq<Request>, r: Report, start: Contents, now: nat, j: nat, key: Bytes)
    requires Carried(l, requests, r, start, now) && j < |requests| && requests[j].operation == ObpDelete(key)
    ensures Visible(r.marks[j + 1], now) == Visible(r.marks[j], now) - {key}
    ensures r.prepared[j].batches == [] || r.prepared[j].batches == [[Delete(key)]]
    ensures key in Visible(r.marks[j], now) ==> r.prepared[j].batches == [[Delete(key)]]
  {
    var t, after := OneRan(l, requests, r, start, now, j, DeleteCommand(key));
    DeleteLeaves(l, r.marks[j], key, t, after, now);
    if t.verdict.Admitted? {
      assert Records(r.prepared[j], r.journals[j], r.marks[j], r.marks[j + 1], now);
      assert StepHolds(r.prepared[j].batches[0], r.prepared[j].rollbacks[0], r.journals[j][0], r.journals[j][1], now);
    }
  }

  predicate IsDeletion(batch: Batch, key: Bytes) { batch == [] || batch == [Delete(key)] }

  lemma DeleteLeaves(l: Limits, start: Contents, key: Bytes, t: Trace, after: Contents, now: nat)
    requires Ran(l, start, DeleteCommand(key), t, after, now)
    ensures Visible(after, now) == Visible(start, now) - {key}
    ensures t.verdict.Admitted? ==> IsDeletion(BatchOf(start, DeleteCommand(key), t), key)
    ensures key in Visible(start, now) ==> t.verdict.Admitted?
  {
    var command := DeleteCommand(key);
    DeletionShrinks(start, key, t.held, t.at);
    ShrinkingIsFree(l, start, command, t, after, now);
    forall k ensures Lookup(Visible(after, now), k) == Lookup(Visible(start, now) - {key}, k) {
      RunLeaves(l, start, command, t, after, now, k);
    }
    SameLookups(Visible(after, now), Visible(start, now) - {key});
    if t.verdict.Admitted? {
      DeleteDerives(start, key, t);
    } else {
      RunLeaves(l, start, command, t, after, now, key);
    }
  }

  lemma DeleteDerives(start: Contents, key: Bytes, t: Trace)
    requires Executes(start, DeleteCommand(key), t.held, t.at) && t.verdict.Admitted? && t.verdict.evicted == [] && t.at <= t.derived
    ensures IsDeletion(BatchOf(start, DeleteCommand(key), t), key)
  {
    var command, none := DeleteCommand(key), EvictedKeys(t.verdict.evicted);
    assert none == [] && Dropping(t.held, none) == t.held;
    ExecutionIs(start, command, t.held, t.at);
    AtLater(t.held, key, t.at, t.derived);
    SweptAt(t.held, key, t.derived);
    DeriveOne(key, Entries(start, command.Affected(), t.baseline.since), none, Visible(t.held, t.derived));
  }

  lemma DeletionShrinks(start: Contents, key: Bytes, held: Contents, at: nat)
    requires Executes(start, DeleteCommand(key), held, at)
    ensures Within(Swept(held, at), Swept(start, at))
  {
    ExecutionIs(start, DeleteCommand(key), held, at);
    forall k | k in Swept(held, at) ensures k in Swept(start, at) && Swept(start, at)[k] == Swept(held, at)[k] {
      SweptAt(held, k, at);
      SweptAt(start, k, at);
      assert At(held, k, at) == Left(start, DeleteCommand(key), k, at);
    }
  }

  /** A command, a pipeline and a transaction run all their commands, each of them once and in
      order, each on what the one before it left. A transaction commits as one batch
      at most, a pipeline as the batch of each command that changed something. */
  lemma CommandsRun(l: Limits, requests: seq<Request>, r: Report, start: Contents, now: nat, j: nat, commands: seq<Command>)
    requires Carried(l, requests, r, start, now) && j < |requests|
    requires requests[j].operation == Group(commands) || requests[j].operation == Transaction(commands)
      || (requests[j].operation.Single? && commands == [requests[j].operation.command])
    ensures var e := r.executions[j];
      && |e.traces| == |commands| && |e.mids| == |commands| + 1 && e.mids[0] == r.marks[j]
      && SameLive(e.mids[|commands|], r.marks[j + 1], now)
      && (forall i :: 0 <= i < |commands| ==> Ran(l, e.mids[i], commands[i], e.traces[i], e.mids[i + 1], now))
    ensures requests[j].operation.Transaction? ==> |r.prepared[j].batches| <= 1
    ensures !requests[j].operation.Transaction? ==> r.prepared[j].batches == BatchesOf(commands, r.executions[j])
  {
    assert Performed(l, CommandsOf(requests[j].operation), r.executions[j], r.marks[j], r.marks[j + 1], now);
    assert Journaled(requests[j].operation, r.prepared[j], r.executions[j]);
  }

  // ---- The limits of a group ----

  lemma BatchesOfOne(l: Limits, requests: seq<Request>, r: Report, start: Contents, now: nat, j: nat)
    requires Carried(l, requests, r, start, now) && j < |requests|
    ensures |r.prepared[j].batches| <= requests[j].Mutations()
  {
    assert Performed(l, CommandsOf(requests[j].operation), r.executions[j], r.marks[j], r.marks[j + 1], now);
    assert Journaled(requests[j].operation, r.prepared[j], r.executions[j]);
  }

  lemma {:induction false} BatchesWithin(prepared: seq<Prepared>, group: seq<Request>)
    requires |prepared| == |group| && forall j :: 0 <= j < |group| ==> |prepared[j].batches| <= group[j].Mutations()
    ensures |AllBatches(prepared)| <= TotalMutations(group)
  {
    if group != [] {
      var n := |group| - 1;
      BatchesWithin(prepared[..n], group[..n]);
    }
  }

  /** A group of several requests commits at most 256 batches. */
  lemma GroupIsBounded(l: Limits, group: seq<Request>, r: Report, start: Contents, now: nat)
    requires Carried(l, group, r, start, now) && WithinLimits(group) && |group| > 1
    ensures |AllBatches(r.prepared)| <= 256
  {
    forall j | 0 <= j < |group| ensures |r.prepared[j].batches| <= group[j].Mutations() {
      BatchesOfOne(l, group, r, start, now, j);
    }
    BatchesWithin(r.prepared, group);
  }

  /** What becomes of a round: only what was acknowledged, or had nothing to record,
      completes; what was rejected, failed before or found no sequence left is undone;
      what is unknown stops the coordinator. */
  lemma RoundIs(l: Limits, r: Round, outcome: Outcome)
    requires RoundOk(l, r, outcome)
    ensures r.result == Declined <==> !r.accepting
    ensures r.accepting && (r.report.failure.Some? || r.sequence + |AllBatches(r.report.prepared)| > 18_446_744_073_709_551_615) ==>
      r.result == Reverted
    ensures r.accepting && r.report.failure.None? && r.sequence + |AllBatches(r.report.prepared)| <= 18_446_744_073_709_551_615 ==>
      && (r.result == Completed <==> AllBatches(r.report.prepared) == [] || outcome == Accepted)
      && (r.result == Reverted <==> AllBatches(r.report.prepared) != [] && outcome == Rejected)
      && (r.result == Fenced <==> AllBatches(r.report.prepared) != [] && outcome == Indeterminate)
  {
  }

  // ---- What counts towards the limits ----

  /** A pipeline counts as its commands, anything else as one mutation. */
  function Weight(group: seq<Request>): nat {
    if group == [] then 0
    else
      var n := if group[0].operation.Group? then |group[0].operation.commands| else 1;
      (if n == 0 then 1 else n) + Weight(group[1..])
  }

  function Volume(group: seq<Request>): nat {
    if group == [] then 0 else group[0].bytes + Volume(group[1..])
  }

  lemma {:induction false} WeightNext(group: seq<Request>, request: Request)
    ensures Weight(group + [request]) == Weight(group) + request.Mutations()
    ensures Volume(group + [request]) == Volume(group) + request.bytes
  {
    var all := group + [request];
    if group == [] {
      assert all == [request] && all[1..] == [];
    } else {
      assert all[1..] == group[1..] + [request];
      WeightNext(group[1..], request);
    }
  }

  lemma {:induction false} WeightIs(group: seq<Request>)
    ensures TotalMutations(group) == Weight(group) && TotalBytes(group) == Volume(group)
  {
    if group != [] {
      var n := |group| - 1;
      WeightIs(group[..n]);
      WeightNext(group[..n], group[n]);
      assert group == group[..n] + [group[n]];
    }
  }

  /** A group is one request, or up to 64 of at most 256 mutations and 8 MiB together. */
  lemma WithinLimitsIff(group: seq<Request>)
    ensures WithinLimits(group) <==> |group| == 1 || (2 <= |group| <= 64 && Weight(group) <= 256 && Volume(group) <= 8_388_608)
  {
    WeightIs(group);
  }
}
