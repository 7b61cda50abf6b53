/** What a run of a command means, told without the steps that lead there: what it
leaves at each key, when it is refused, and what it may evict. */
module RunLaws {
  import opened Model
  import opened Effects
  import opened Shards
  import opened ShardObject
  import opened EngineObject
  import opened Datasets
  import opened StoreObject
  import opened Attempts
  import opened CommandRuns
  import KeyLimit

  /** A live entry as a command finds it: a read has refreshed its access time. */
  function Refreshed(m: Contents, key: Bytes, reads_: seq<Bytes>, now: nat): Option<Entry> {
    if key !in m || (m[key].expiresAt.Some? && m[key].expiresAt.value <= now) then None
    else if key in reads_ then Some(Entry(m[key].value, m[key].expiresAt, m[key].createdAt, now))
    else Some(m[key])
  }

  /** What a command is shown: the live entries of the keys that it may change. */
  function Seen(start: Contents, command: Command, now: nat): map<Bytes, Option<Entry>> {
    map k | command.write && k in command.keys :: Refreshed(start, k, command.reads_, now)
  }

  function Left(start: Contents, command: Command, key: Bytes, now: nat): Option<Entry> {
    if command.write && key in command.keys then Live(command.update(key, Seen(start, command, now), now), now)
    else Refreshed(start, key, command.reads_, now)
  }

  lemma {:induction false} ReadsRefresh(m: Contents, keys: seq<Bytes>, key: Bytes, now: nat)
    ensures At(TouchedAll(m, keys, now), key, now) == Refreshed(m, key, keys, now)
  {
    if keys != [] {
      var n := |keys| - 1;
      ReadsRefresh(m, keys[..n], key, now);
      assert keys == keys[..n] + [keys[n]];
    }
  }

  /** Execution leaves at each key of a write command what its update makes of the
      entries it is shown, and every other key as it was. */
  lemma ExecutionIs(start: Contents, command: Command, m: Contents, now: nat)
    requires Executes(start, command, m, now)
    ensures forall k :: At(m, k, now) == Left(start, command, k, now)
  {
    var touched := TouchedAll(start, command.reads_, now);
    forall k ensures At(touched, k, now) == Refreshed(start, k, command.reads_, now) {
      ReadsRefresh(start, command.reads_, k, now);
    }
    assert Entries(touched, command.Affected(), now) == Seen(start, command, now);
  }

  lemma RefreshedPersists(m: Contents, key: Bytes, keys: seq<Bytes>, earlier: nat, later: nat)
    requires earlier <= later
    ensures PersistOption(Live(Refreshed(m, key, keys, earlier), later)) == Lookup(Visible(m, later), key)
  {
  }

  /** What the persistent state holds after a run. A run that was admitted leaves
      the update of the command at its keys, nothing at its victims and everything
      else as it was; any other run leaves everything as it was. */
  lemma RunLeaves(l: Limits, start: Contents, command: Command, t: Trace, after: Contents, now: nat, key: Bytes)
    requires Ran(l, start, command, t, after, now)
    ensures Lookup(Visible(after, now), key) ==
      if t.verdict.Admitted? && key in EvictedKeys(t.verdict.evicted) then None
      else if t.verdict.Admitted? && command.write && key in command.keys
      then AliveOption(PersistOption(command.update(key, Seen(start, command, t.at), t.at)), now)
      else Lookup(Visible(start, now), key)
    ensures t.verdict.NoChange? && command.write && key in command.keys ==>
      Lookup(Visible(start, now), key) == AliveOption(PersistOption(command.update(key, Seen(start, command, t.at), t.at)), now)
  {
    ExecutionIs(start, command, t.held, t.at);
    RefreshedPersists(start, key, command.reads_, t.at, now);
    AtLater(t.held, key, t.at, now);
    AtLater(start, key, t.baseline.since, now);
    SweptAt(after, key, now);
    SweptAt(start, key, now);
  }

  /** A refusal is due to growth: of the live keys over a million, or of the dataset
      over its limit, where even the keys that may not be evicted are too much. */
  lemma RefusalIs(l: Limits, start: Contents, command: Command, t: Trace, after: Contents, now: nat)
    requires Ran(l, start, command, t, after, now) && t.verdict.Refusal?
    ensures t.verdict.error.KeyLimit? ==>
      && |Swept(t.held, t.verdict.at)| > 1_000_000
      && |Swept(t.held, t.verdict.at)| > |Swept(start, t.baseline.counted)|
    ensures t.verdict.error.Maxmemory? ==>
      && 0 < l.maxMemory < TotalSize(Swept(t.held, t.verdict.at), l.sizeOf)
      && TotalSize(Swept(t.held, t.verdict.at), l.sizeOf) > TotalSize(Swept(start, t.baseline.measured), l.sizeOf)
      && forall part :: Stays(part, Swept(t.held, t.verdict.later), l.policy, command) ==> TotalSize(part, l.sizeOf) > l.maxMemory
  {
    var held, later := t.held, t.verdict.later;
    forall part | Stays(part, Swept(held, later), l.policy, command)
      ensures part == Swept(Lasting(held, l.policy, KeySet(command)), later)
    {
      StaysIsLasting(part, held, l.policy, command, later);
    }
  }

  lemma StaysIsLasting(part: Contents, held: Contents, policy: Policy, command: Command, later: nat)
    requires Stays(part, Swept(held, later), policy, command)
    ensures part == Swept(Lasting(held, policy, KeySet(command)), later)
  {
  }

  /** `part` is what eviction for the command may not remove of `m`: everything
      without a policy; otherwise its own keys and, under a volatile policy, the keys
      that never expire. */
  ghost predicate Stays(part: Contents, m: Contents, policy: Policy, command: Command) {
    part == map k | k in m && (policy == NoEviction || (command.write && k in command.keys)
                               || ((policy == VolatileLru || policy == VolatileRandom) && m[k].expiresAt == None)) :: m[k]
  }

  /** What was admitted is within the memory limit or has not grown; and victims fell
      only over the limit, none of them a key of the command, in the order of the
      policy. */
  lemma AdmissionIs(l: Limits, start: Contents, command: Command, t: Trace, after: Contents, now: nat)
    requires Ran(l, start, command, t, after, now) && t.verdict.Admitted?
    ensures
      || l.maxMemory == 0
      || TotalSize(Swept(after, now), l.sizeOf) <= l.maxMemory
      || TotalSize(Swept(after, now), l.sizeOf) <= TotalSize(Swept(start, t.baseline.measured), l.sizeOf)
    ensures t.verdict.evicted != [] ==>
      && 0 < l.maxMemory < TotalSize(Swept(t.held, t.verdict.checks.measured), l.sizeOf)
      && TotalSize(Swept(t.held, t.verdict.checks.measured), l.sizeOf) > TotalSize(Swept(start, t.baseline.measured), l.sizeOf)
    ensures TakenInOrder(Swept(t.held, t.verdict.checks.chosen), t.verdict.evicted, l.policy, set k | command.write && k in command.keys)
  {
    var evicted, c := t.verdict.evicted, t.verdict.checks;
    assert KeySet(command) == set k | command.write && k in command.keys;
    RunTakesInOrder(Swept(t.held, c.chosen), evicted, l.maxMemory, l.policy, KeySet(command), l.sizeOf);
    LeftShrinks(t.held, evicted, after, c.fitted, now, l.sizeOf);
  }

  lemma LeftShrinks(held: Contents, evicted: seq<(Bytes, Entry)>, after: Contents, fitted: nat, now: nat, sizeOf: Sizer)
    requires fitted <= now && Removed(held, evicted, after, now)
    ensures TotalSize(Swept(after, now), sizeOf) <= TotalSize(Swept(Dropping(held, EvictedKeys(evicted)), fitted), sizeOf)
  {
    var left := Dropping(held, EvictedKeys(evicted));
    RemovedIsDropping(held, evicted, after, now);
    SameLiveIff(after, left, now);
    SweptTwice(left, fitted, now);
    TotalSizeWithin(Swept(left, now), Swept(left, fitted), sizeOf);
  }

  /** A store within a million live keys stays within them. */
  lemma RunKeepsKeyLimit(l: Limits, start: Contents, command: Command, t: Trace, after: Contents, now: nat)
    requires Ran(l, start, command, t, after, now) && t.verdict.Admitted? && |Visible(start, t.baseline.since)| <= 1_000_000
    ensures |Visible(after, now)| <= 1_000_000
  {
    var keys, since, evicted := command.Affected(), t.baseline.since, t.verdict.evicted;
    var before, v := Entries(start, keys, since), Visible(start, since);
    EntriesCapture(start, keys, since);
    GuardFromTotals(t.baseline, l, start, keys);
    forall k | k !in before ensures Lookup(Visible(t.held, now), k) == Lookup(Alive(v, now), k) {
      ExecutionIs(start, command, t.held, t.at);
      RefreshedPersists(start, k, command.reads_, t.at, now);
      AtLater(t.held, k, t.at, now);
      SweptAt(t.held, k, now);
      VisibleLater(start, since, now);
    }
    GrowthBound(v, before, keys, Visible(t.held, now), now);
    RemovedVisible(t.held, evicted, after, l, KeySet(command), t.baseline, t.verdict.checks, now);
    GrantedKeys(evicted, t.held, after, l, KeySet(command), t.baseline, t.verdict.checks, now);
    RemovalShrinks(Visible(t.held, now), evicted, Visible(after, now), now);
  }

  /** What only takes away is never refused and never costs a victim. */
  lemma ShrinkingIsFree(l: Limits, start: Contents, command: Command, t: Trace, after: Contents, now: nat)
    requires Ran(l, start, command, t, after, now) && Within(Swept(t.held, t.at), Swept(start, t.at))
    ensures !t.verdict.Refusal? && (t.verdict.Admitted? ==> t.verdict.evicted == [])
  {
    var b := t.baseline;
    if t.verdict.Refusal? {
      RefusalIs(l, start, command, t, after, now);
      Shrinks(start, t.held, t.at, b.counted, t.verdict.at, l.sizeOf);
      Shrinks(start, t.held, t.at, b.measured, t.verdict.at, l.sizeOf);
    } else if t.verdict.Admitted? {
      AdmissionIs(l, start, command, t, after, now);
      Shrinks(start, t.held, t.at, b.measured, t.verdict.checks.measured, l.sizeOf);
    }
  }

  lemma Shrinks(start: Contents, held: Contents, at: nat, earlier: nat, later: nat, sizeOf: Sizer)
    requires earlier <= at <= later && Within(Swept(held, at), Swept(start, at))
    ensures TotalSize(Swept(held, later), sizeOf) <= TotalSize(Swept(start, earlier), sizeOf)
    ensures |Swept(held, later)| <= |Swept(start, earlier)|
  {
    var small, large := Swept(held, later), Swept(start, earlier);
    forall k | k in small ensures k in large && large[k] == small[k] {
      assert k in Swept(held, at);
    }
    TotalSizeWithin(small, large, sizeOf);
    KeyLimit.SubsetCardinality(small.Keys, large.Keys);
  }
}
