/** What it means that a command ran: its update took place on the live entries of
its keys, and admission then kept it, at the price of victims, or took it back.
Everything is told from the engine's contents, with their access times. */
module CommandRuns {
  import opened Model
  import opened Effects
  import opened Shards
  import opened ShardObject
  import opened Datasets
  import opened StoreObject
  import opened Attempts

  datatype Verdict =
    | NoChange
    | Refusal(error: AdmissionError, at: nat, later: nat)
    | Admitted(evicted: seq<(Bytes, Entry)>, checks: Checks)

  /** `held` are the contents right after the command ran, at instant `at`; if it
      was a mutation of its own, its batch was derived at instant `derived`. */
  datatype Trace = Trace(baseline: Baseline, at: nat, held: Contents, verdict: Verdict, derived: nat)

  function KeySet(command: Command): set<Bytes> { set k | k in command.Affected() }

  /** The command was executed on `start`, and its totals are those of `start`. */
  ghost predicate Began(l: Limits, start: Contents, command: Command, t: Trace) {
    && Totals(t.baseline, l, start, command.Affected()) && t.baseline.measured <= t.at
    && Executes(start, command, t.held, t.at)
  }

  /** The command took `start` to `after`. */
  ghost predicate Ran(l: Limits, start: Contents, command: Command, t: Trace, after: Contents, now: nat) {
    && Began(l, start, command, t) && t.at <= now && t.at <= t.derived
    && match t.verdict
       case NoChange => SameLive(after, t.held, now) && Visible(after, now) == Visible(start, now)
       case Refusal(error, at, later) =>
         && t.at <= at && later <= now && Justified(error, t.held, l, KeySet(command), t.baseline, at, later)
         && Undone(t.held, Entries(start, command.Affected(), t.baseline.since), after, now)
       case Admitted(evicted, checks) =>
         && t.at <= checks.counted && checks.fitted <= now
         && Granted(evicted, t.held, l, KeySet(command), t.baseline, checks)
         && Removed(t.held, evicted, after, now)
  }

  lemma RanLater(l: Limits, start: Contents, command: Command, t: Trace, after: Contents, earlier: nat, later: nat)
    requires earlier <= later && Ran(l, start, command, t, after, earlier)
    ensures Ran(l, start, command, t, after, later)
  {
    match t.verdict
    case NoChange =>
      SameLiveLater(after, t.held, earlier, later);
      SameVisibleLater(after, start, earlier, later);
    case Refusal(_, _, _) => UndoneLater(t.held, Entries(start, command.Affected(), t.baseline.since), after, earlier, later);
    case Admitted(evicted, _) => RemovedLater(t.held, evicted, after, earlier, later);
  }

  /** When the two derivations of a command looked. */
  datatype Probing = Probing(probed: nat, derived: nat)

  /** The one way in which preparation fails: admission granted a change without
      victims that had vanished when its batch was derived. */
  ghost predicate Fails(l: Limits, start: Contents, command: Command, t: Trace, p: Probing) {
    && Began(l, start, command, t) && t.verdict.Admitted? && t.verdict.evicted == []
    && Granted([], t.held, l, KeySet(command), t.baseline, t.verdict.checks)
    && t.at <= p.probed <= t.verdict.checks.counted && t.verdict.checks.fitted <= p.derived
    && var before := Entries(start, command.Affected(), t.baseline.since); var held := Visible(t.held, t.at);
       !Vanished(command.Affected(), before, held, p.probed) && Vanished(command.Affected(), before, held, p.derived)
  }

  // ---- Commands in a row ----

  /** One trace per command, and the contents between them. */
  datatype Execution = Execution(traces: seq<Trace>, mids: seq<Contents>)

  ghost predicate Chained(l: Limits, commands: seq<Command>, e: Execution, now: nat) {
    && |e.traces| == |commands| && |e.mids| == |commands| + 1
    && forall i :: 0 <= i < |commands| ==> Ran(l, e.mids[i], commands[i], e.traces[i], e.mids[i + 1], now)
  }

  /** The commands took `start` to `after`, one after the other. */
  ghost predicate Performed(l: Limits, commands: seq<Command>, e: Execution, start: Contents, after: Contents, now: nat) {
    Chained(l, commands, e, now) && e.mids[0] == start && SameLive(e.mids[|commands|], after, now)
  }

  lemma PerformedNothing(l: Limits, start: Contents, now: nat)
    ensures Performed(l, [], Execution([], [start]), start, start, now)
  {
  }

  lemma PerformedLater(l: Limits, commands: seq<Command>, e: Execution, start: Contents, after: Contents, earlier: nat, later: nat)
    requires earlier <= later && Performed(l, commands, e, start, after, earlier)
    ensures Performed(l, commands, e, start, after, later)
  {
    forall i | 0 <= i < |commands| ensures Ran(l, e.mids[i], commands[i], e.traces[i], e.mids[i + 1], later) {
      RanLater(l, e.mids[i], commands[i], e.traces[i], e.mids[i + 1], earlier, later);
    }
    SameLiveLater(e.mids[|commands|], after, earlier, later);
  }

  /** Afterwards only the expired entries were swept. */
  lemma PerformedTo(l: Limits, commands: seq<Command>, e: Execution, start: Contents, after: Contents, after': Contents, now: nat)
    requires Performed(l, commands, e, start, after, now) && SameLive(after, after', now)
    ensures Performed(l, commands, e, start, after', now)
  {
  }

  lemma PerformedNext(l: Limits, commands: seq<Command>, e: Execution, start: Contents, command: Command, t: Trace, after: Contents, now: nat)
    requires Chained(l, commands, e, now) && e.mids[0] == start && Ran(l, e.mids[|commands|], command, t, after, now)
    ensures Performed(l, commands + [command], Execution(e.traces + [t], e.mids + [after]), start, after, now)
  {
    var all, traces, mids := commands + [command], e.traces + [t], e.mids + [after];
    forall i | 0 <= i < |all| ensures Ran(l, mids[i], all[i], traces[i], mids[i + 1], now) {
      if i < |commands| {
        assert Ran(l, e.mids[i], commands[i], e.traces[i], e.mids[i + 1], now);
        assert mids[i] == e.mids[i] && mids[i + 1] == e.mids[i + 1] && all[i] == commands[i] && traces[i] == e.traces[i];
      } else {
        assert mids[i] == e.mids[|commands|] && mids[i + 1] == after && all[i] == command && traces[i] == t;
      }
    }
    assert mids[0] == start && mids[|all|] == after;
  }

  lemma PerformedUpTo(l: Limits, commands: seq<Command>, i: nat, next: nat, e: Execution, start: Contents, t: Trace, after: Contents, now: nat)
    requires next == i + 1 <= |commands| && |e.mids| == next && Performed(l, commands[..i], e, start, e.mids[i], now)
    requires Ran(l, e.mids[i], commands[i], t, after, now)
    ensures Performed(l, commands[..next], Execution(e.traces + [t], e.mids + [after]), start, after, now) && (e.mids + [after])[next] == after
  {
    PerformedNext(l, commands[..i], e, start, commands[i], t, after, now);
    assert commands[..i] + [commands[i]] == commands[..next];
  }

  // ---- The batches of commands ----

  /** What is derived once the victims are gone from `held`. */
  ghost function Canonical(keys: seq<Bytes>, before: map<Bytes, Option<Entry>>, evicted: seq<(Bytes, Entry)>, held: Contents, derived: nat): Batch {
    Derive(keys, before, EvictedKeys(evicted), Visible(Dropping(held, EvictedKeys(evicted)), derived))
  }

  /** The batch of a command that was admitted. */
  ghost function BatchOf(start: Contents, command: Command, t: Trace): Batch
    requires t.verdict.Admitted?
  {
    Canonical(command.Affected(), Entries(start, command.Affected(), t.baseline.since), t.verdict.evicted, t.held, t.derived)
  }

  /** One batch for each command that was admitted, in order. */
  ghost function BatchesOf(commands: seq<Command>, e: Execution): (r: seq<Batch>)
    requires |commands| == |e.traces| <= |e.mids|
    ensures |r| == AdmittedIn(e.traces)
    decreases |commands|
  {
    if commands == [] then []
    else
      var n := |commands| - 1;
      BatchesOf(commands[..n], Execution(e.traces[..n], e.mids))
      + if e.traces[n].verdict.Admitted? then [BatchOf(e.mids[n], commands[n], e.traces[n])] else []
  }

  ghost predicate IsBatches(commands: seq<Command>, e: Execution, batches: seq<Batch>) {
    |commands| == |e.traces| <= |e.mids| && batches == BatchesOf(commands, e)
  }

  lemma {:induction false} BatchesOfPart(commands: seq<Command>, traces: seq<Trace>, mids: seq<Contents>, mids': seq<Contents>)
    requires |commands| == |traces| <= |mids| && mids <= mids'
    ensures BatchesOf(commands, Execution(traces, mids)) == BatchesOf(commands, Execution(traces, mids'))
    decreases |commands|
  {
    if commands != [] {
      var n := |commands| - 1;
      BatchesOfPart(commands[..n], traces[..n], mids, mids');
    }
  }

  lemma BatchesNext(commands: seq<Command>, e: Execution, command: Command, t: Trace, after: Contents)
    requires |commands| == |e.traces| && |e.mids| == |commands| + 1
    ensures BatchesOf(commands + [command], Execution(e.traces + [t], e.mids + [after]))
         == BatchesOf(commands, e) + if t.verdict.Admitted? then [BatchOf(e.mids[|commands|], command, t)] else []
  {
    var all, traces, mids, n := commands + [command], e.traces + [t], e.mids + [after], |commands|;
    assert all[..n] == commands && traces[..n] == e.traces && mids[n] == e.mids[n];
    BatchesOfPart(commands, e.traces, e.mids, mids);
  }

  lemma BatchesUpTo(commands: seq<Command>, i: nat, next: nat, e: Execution, t: Trace, after: Contents)
    requires next == i + 1 <= |commands| && |e.traces| == i && |e.mids| == next
    ensures BatchesOf(commands[..next], Execution(e.traces + [t], e.mids + [after]))
         == BatchesOf(commands[..i], e) + if t.verdict.Admitted? then [BatchOf(e.mids[i], commands[i], t)] else []
  {
    BatchesNext(commands[..i], e, commands[i], t, after);
    assert commands[..i] + [commands[i]] == commands[..next];
  }

  /** How many of the commands changed something. */
  function AdmittedIn(traces: seq<Trace>): (n: nat)
    ensures n <= |traces|
  {
    if traces == [] then 0
    else
      var k := |traces| - 1;
      AdmittedIn(traces[..k]) + if traces[k].verdict.Admitted? then 1 else 0
  }
}
