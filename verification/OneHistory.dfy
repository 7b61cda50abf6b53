/** One history for the live state, the binlog, recovery, snapshots and replicas:
what the coordinator commits is what the files hold, what startup restores and
what a synchronization sends. */
module OneHistory {
  import opened Model
  import opened Shards
  import opened ShardObject
  import opened EngineObject
  import opened Wire
  import opened BatchCodec
  import opened Framing
  import opened Logs
  import opened Recovery
  import opened Ranges
  import opened Backlog
  import opened KeyLimit
  import StoreObject
  import SnapshotEpoch
  import Commit
  import CrashSafety
  import Replication

  // ---- From the coordinator's log to an encoded history ----

  /** JSON documents of the log survive their own serialization. */
  predicate LogFaithful(log: seq<Retained>, f: Formats) {
    forall i :: 0 <= i < |log| ==> BatchFaithful(f.json, log[i].batch)
  }

  /** `more` are the encodings of the records. */
  ghost predicate Encodes(more: seq<Committed>, log: seq<Retained>, f: Formats) {
    && |more| == |log|
    && forall i :: 0 <= i < |log| ==> more[i].batch == log[i].batch && CommittedOk(more[i], log[i].sequence, f)
  }

  lemma EncodesNext(more: seq<Committed>, log: seq<Retained>, i: nat, c: Committed, f: Formats)
    requires i < |log| && Encodes(more, log[..i], f) && c.batch == log[i].batch && CommittedOk(c, log[i].sequence, f)
    ensures Encodes(more + [c], log[..i + 1], f)
  {
    var grown, part := more + [c], log[..i + 1];
    forall j | 0 <= j < |part| ensures grown[j].batch == part[j].batch && CommittedOk(grown[j], part[j].sequence, f) {
      if j < i {
        assert log[..i][j] == part[j];
      }
    }
  }

  /** Some effect, their number or the record they make exceeds what the format can
      hold. Storage refuses such a batch, so that none is ever committed. */
  ghost predicate Unencodable(batch: Batch) {
    |batch| >= U32_LIMIT
    || exists ws :: |ws| <= |batch| && BatchRepresents(ws, batch[..|ws|])
         && (!EffectsAccepted(ws) || OVERHEAD + |BatchBytes(ws)| > MAX_BINLOG_RECORD_SIZE)
  }

  /** A batch that was committed is read back as itself from its record, unless it
      cannot be encoded at all. */
  method EncodeRecord(sequence: nat, batch: Batch, f: Formats) returns (payload: Option<Bytes>)
    requires 0 < sequence <= Commit.MAX_SEQUENCE && Commit.Committable(batch) && BatchFaithful(f.json, batch)
    ensures payload.Some? ==> CommittedOk(Committed(payload.value, batch), sequence, f)
    ensures payload.None? ==> Unencodable(batch)
  {
    var encoded;
    ghost var ws;
    encoded, ws := EncodeCommittedBatch(batch);
    if encoded.None? {
      return None;
    }
    var record := EncodeFramedRecord(sequence, encoded.value, [], f.crc);
    if record.None? {
      assert batch[..|ws|] == batch;
      return None;
    }
    assert encoded.value != [];
    payload := encoded;
  }

  /** Encodes what the coordinator has committed: every batch in its log gives a
      record that decodes to exactly that batch. */
  method EncodeLog(log: seq<Retained>, f: Formats, ghost first: nat) returns (payloads: Option<seq<Bytes>>, ghost more: seq<Committed>)
    requires log == Commit.Numbered(first, Commit.Payloads(log)) && first + |log| <= Commit.MAX_SEQUENCE
    requires Commit.AllCommittable(Commit.Payloads(log)) && LogFaithful(log, f)
    ensures payloads.Some? ==> Encodes(more, log, f) && |payloads.value| == |log|
    ensures payloads.Some? ==> forall i :: 0 <= i < |log| ==> payloads.value[i] == more[i].payload
    ensures payloads.None? ==> exists i :: 0 <= i < |log| && Unencodable(log[i].batch)
  {
    var done: seq<Bytes> := [];
    more := [];
    var i := 0;
    while i < |log|
      invariant 0 <= i <= |log| && |done| == i && Encodes(more, log[..i], f)
      invariant forall j :: 0 <= j < i ==> done[j] == more[j].payload
    {
      assert log[i] == Commit.Numbered(first, Commit.Payloads(log))[i];
      assert Commit.Committable(Commit.Payloads(log)[i]);
      var payload := EncodeRecord(log[i].sequence, log[i].batch, f);
      if payload.None? {
        return None, more;
      }
      ghost var c := Committed(payload.value, log[i].batch);
      EncodesNext(more, log, i, c, f);
      done, more := done + [payload.value], more + [c];
      i := i + 1;
    }
    assert log[..i] == log;
    payloads := Some(done);
  }

  // ---- The live state is the fold of that history ----

  /** At `now`, the history folds to `v`. */
  ghost predicate FoldsTo(h: seq<Committed>, v: View, now: nat) {
    v == Alive(StateAt(h, |h|), now)
  }

  lemma BatchesOfJoin(h: seq<Committed>, more: seq<Committed>, log: seq<Retained>, f: Formats)
    requires Encodes(more, log, f)
    ensures StateAt(h + more, |h + more|) == ApplyAll(StateAt(h, |h|), Commit.Payloads(log))
  {
    var whole := h + more;
    StateSplits(whole, |h|, |whole|);
    assert whole[..|h|] == h[..|h|];
    SameState(whole, h, |h|);
    assert BatchesIn(whole, |h|, |whole|) == Commit.Payloads(log);
  }

  /** A coordinator that was started over the state of a history extends it: the
      live state is the fold of the old history and everything committed since. */
  lemma LiveStateIsFold(h: seq<Committed>, more: seq<Committed>, log: seq<Retained>, base: View, v: View, begun: nat, now: nat, f: Formats)
    requires FoldsTo(h, base, begun) && begun <= now && Encodes(more, log, f) && Commit.Folds(v, base, log, now)
    ensures FoldsTo(h + more, v, now)
  {
    BatchesOfJoin(h, more, log, f);
    AliveTwice(StateAt(h, |h|), begun, now);
    ApplyAllAlive(base, StateAt(h, |h|), Commit.Payloads(log), now);
  }

  // ---- Appending and recovering it ----

  function Appends(more: seq<Committed>): seq<CrashSafety.Step> {
    seq(|more|, i requires 0 <= i < |more| => CrashSafety.Append(more[i]))
  }

  /** `t` differs from `s` by these appended records. */
  ghost predicate Extended(s: CrashSafety.World, more: seq<Committed>, t: CrashSafety.World) {
    t.up && t.now == s.now && t.history == s.history + more
  }

  lemma ExtendedNext(s: CrashSafety.World, more: seq<Committed>, t: CrashSafety.World, c: Committed, f: Formats)
    requires Extended(s, more, t) && CommittedOk(c, |s.history| + |more| + 1, f)
    ensures CrashSafety.Enabled(t, CrashSafety.Append(c), f)
    ensures Extended(s, more + [c], CrashSafety.Next(t, CrashSafety.Append(c), f))
  {
    assert s.history + more + [c] == s.history + (more + [c]);
  }

  lemma AppendsSplit(more: seq<Committed>)
    requires more != []
    ensures var k := |more| - 1; more == more[..k] + [more[k]] && Appends(more) == Appends(more[..k]) + [CrashSafety.Append(more[k])]
  {
  }

  lemma {:induction false} AppendsRun(s: CrashSafety.World, more: seq<Committed>, f: Formats)
    requires s.up && forall i :: 0 <= i < |more| ==> CommittedOk(more[i], |s.history| + i + 1, f)
    ensures CrashSafety.Run(s, Appends(more), f) && Extended(s, more, CrashSafety.Final(s, Appends(more), f))
    decreases |more|
  {
    if more == [] {
      assert Appends(more) == [] && s.history + more == s.history;
    } else {
      var k := |more| - 1;
      var front, c := more[..k], more[k];
      var steps, step := Appends(front), CrashSafety.Append(c);
      AppendsRun(s, front, f);
      AppendsSplit(more);
      ExtendedNext(s, front, CrashSafety.Final(s, steps, f), c, f);
      CrashSafety.RunOneMore(s, steps, step, f);
    }
  }

  /** The files of a coordinator: its records are appended one by one to those of
      the history it was started on. */
  lemma LogIsAppended(s: CrashSafety.World, more: seq<Committed>, log: seq<Retained>, f: Formats) returns (t: CrashSafety.World)
    requires CrashSafety.Inv(s, f) && s.up && Encodes(more, log, f) && log == Commit.Numbered(|s.history|, Commit.Payloads(log))
    ensures CrashSafety.Run(s, Appends(more), f) && t == CrashSafety.Final(s, Appends(more), f)
    ensures CrashSafety.Inv(t, f) && t.up && t.now == s.now && t.history == s.history + more
  {
    forall i | 0 <= i < |more| ensures CommittedOk(more[i], |s.history| + i + 1, f) {
      assert log[i] == Commit.Numbered(|s.history|, Commit.Payloads(log))[i];
    }
    AppendsRun(s, more, f);
    t := CrashSafety.Final(s, Appends(more), f);
    CrashSafety.RunKeeps(s, Appends(more), f);
  }

  /** After a crash that finds everything synced, startup restores the live state
      and the sequence of the coordinator. */
  lemma RecoveredIsLive(u: CrashSafety.World, v: View, now: nat, f: Formats)
    requires CrashSafety.Inv(u, f) && !u.up && u.durable == |u.history| && FoldsTo(u.history, v, now) && now <= u.now
    ensures CrashSafety.Enabled(u, CrashSafety.Recover, f)
    ensures var r := CrashSafety.Startup(u, f); r.lastSequence == |u.history| && Alive(r.contents, u.now) == Alive(v, u.now)
  {
    CrashSafety.CrashRecovers(u, f);
    AliveTwice(StateAt(u.history, |u.history|), now, u.now);
  }

  /** The steps end in a crash, `seconds` later, from which startup restores the
      state `v` at `sequence`. */
  ghost predicate Restores(s: CrashSafety.World, steps: seq<CrashSafety.Step>, seconds: nat, sequence: nat, v: View, f: Formats) {
    && CrashSafety.Run(s, steps, f)
    && var u := CrashSafety.Final(s, steps, f); var r := CrashSafety.Startup(u, f);
       && !u.up && u.now == s.now + seconds && CrashSafety.Enabled(u, CrashSafety.Recover, f)
       && r.lastSequence == sequence && Alive(r.contents, u.now) == Alive(v, u.now)
  }

  /** What a coordinator has committed survives: encode its log, append it, sync,
      and let any crash and any time follow. */
  method CommittedSurvives(c: Commit.Coordinator, f: Formats, ghost s: CrashSafety.World, ghost begun: nat, ghost seconds: nat)
    returns (payloads: Option<seq<Bytes>>, ghost steps: seq<CrashSafety.Step>)
    requires c.Valid() && !c.failStopped && LogFaithful(c.log, f)
    requires CrashSafety.Inv(s, f) && s.up && c.first == |s.history| && s.now == c.store.clock.now
    requires FoldsTo(s.history, c.base, begun) && begun <= s.now
    ensures payloads.None? ==> exists i :: 0 <= i < |c.log| && Unencodable(c.log[i].batch)
    ensures payloads.Some? ==> Restores(s, steps, seconds, c.sequence, c.store.State(), f)
  {
    assert c.sequence == c.first + |c.log|;
    payloads, steps := LogSurvives(c.log, f, c.base, c.store.State(), s, begun, seconds);
  }

  method LogSurvives(log: seq<Retained>, f: Formats, ghost base: View, ghost v: View, ghost s: CrashSafety.World, ghost begun: nat, ghost seconds: nat)
    returns (payloads: Option<seq<Bytes>>, ghost steps: seq<CrashSafety.Step>)
    requires log == Commit.Numbered(|s.history|, Commit.Payloads(log)) && |s.history| + |log| <= Commit.MAX_SEQUENCE
    requires Commit.AllCommittable(Commit.Payloads(log)) && LogFaithful(log, f)
    requires CrashSafety.Inv(s, f) && s.up && FoldsTo(s.history, base, begun) && begun <= s.now && Commit.Folds(v, base, log, s.now)
    ensures payloads.None? ==> exists i :: 0 <= i < |log| && Unencodable(log[i].batch)
    ensures payloads.Some? ==> Restores(s, steps, seconds, |s.history| + |log|, v, f)
  {
    ghost var more;
    payloads, more := EncodeLog(log, f, |s.history|);
    steps := [];
    if payloads.Some? {
      LiveStateIsFold(s.history, more, log, base, v, begun, s.now, f);
      steps := SyncedThenCrashed(s, more, log, v, seconds, f);
    }
  }

  lemma SyncedThenCrashed(s: CrashSafety.World, more: seq<Committed>, log: seq<Retained>, v: View, seconds: nat, f: Formats)
    returns (steps: seq<CrashSafety.Step>)
    requires CrashSafety.Inv(s, f) && s.up && Encodes(more, log, f) && log == Commit.Numbered(|s.history|, Commit.Payloads(log))
    requires FoldsTo(s.history + more, v, s.now)
    ensures Restores(s, steps, seconds, |s.history| + |log|, v, f)
  {
    var t := LogIsAppended(s, more, log, f);
    var appends := Appends(more);
    CrashSafety.RunOneMore(s, appends, CrashSafety.Sync, f);
    var synced := CrashSafety.Next(t, CrashSafety.Sync, f);
    CrashSafety.SyncKeeps(t, f);
    var cut := CrashSafety.Crash(|synced.active|);
    CrashSafety.RunOneMore(s, appends + [CrashSafety.Sync], cut, f);
    var crashed := CrashSafety.Next(synced, cut, f);
    CrashSafety.CrashKeeps(synced, |synced.active|, f);
    var tick := CrashSafety.Tick(seconds);
    CrashSafety.RunOneMore(s, appends + [CrashSafety.Sync] + [cut], tick, f);
    CrashSafety.TickKeeps(crashed, seconds, f);
    steps := appends + [CrashSafety.Sync] + [cut] + [tick];
    RecoveredIsLive(CrashSafety.Next(crashed, tick, f), v, s.now, f);
  }

  // ---- Snapshots of the live state ----

  /** The listed entries, as they are written and sent. */
  function Persisted(items: seq<(Bytes, Entry)>): (r: seq<(Bytes, PersistentEntry)>)
    ensures |r| == |items| && forall i :: 0 <= i < |items| ==> r[i] == (items[i].0, Persist(items[i].1))
  {
    seq(|items|, i requires 0 <= i < |items| => (items[i].0, Persist(items[i].1)))
  }

  /** A listing of the live entries lists the visible state. */
  lemma ListedState(items: seq<(Bytes, Entry)>, contents: Contents, now: nat)
    requires Enumerates(items, Swept(contents, now))
    ensures CrashSafety.ListsEntries(Persisted(items), Visible(contents, now))
    ensures Replication.DistinctEntries(Persisted(items))
  {
    var entries, live := Persisted(items), Swept(contents, now);
    forall k | k in Visible(contents, now) ensures exists i :: 0 <= i < |entries| && entries[i].0 == k {
      assert (k, live[k]) in items;
      var i :| 0 <= i < |items| && items[i] == (k, live[k]);
      assert entries[i].0 == k;
    }
  }

  /** Listed entries are collected to what they list. */
  lemma ListedIsStaged(entries: seq<(Bytes, PersistentEntry)>, view: View)
    requires CrashSafety.ListsEntries(entries, view)
    ensures Replication.Staged(entries) == view
  {
    StagedGathers(entries, |entries|);
    assert entries[..|entries|] == entries;
    var staged := Replication.Staged(entries);
    forall k | k in view ensures k in staged && staged[k] == view[k] {
      var i :| 0 <= i < |entries| && entries[i].0 == k;
    }
    forall k | k in staged ensures k in view {
      Replication.StagedKeys(entries, |entries|, k);
    }
  }

  lemma {:induction false} StagedGathers(entries: seq<(Bytes, PersistentEntry)>, n: nat)
    requires n <= |entries| && Replication.DistinctEntries(entries)
    ensures var staged := Replication.Staged(entries[..n]);
      forall i :: 0 <= i < n ==> entries[i].0 in staged && staged[entries[i].0] == entries[i].1
  {
    if n > 0 {
      StagedGathers(entries, n - 1);
      assert entries[..n][..n - 1] == entries[..n - 1];
    }
  }

  /** The number of listed entries is the number of live keys. */
  lemma ListedCount(items: seq<(Bytes, Entry)>, contents: Contents, now: nat)
    requires Enumerates(items, Swept(contents, now))
    ensures |items| == |Visible(contents, now)|
  {
    EnumerationLength(items, Swept(contents, now));
    StoreObject.VisibleSwept(contents, now);
  }

  /** Compaction: the snapshot of an engine that holds the fold of the history may
      be written at the history's sequence, whatever clients do meanwhile. */
  method CaptureForCompaction(engine: Engine, first: seq<SnapshotEpoch.LiveOp>, interference: nat -> seq<SnapshotEpoch.LiveOp>,
                              ghost w: CrashSafety.World, now: nat, f: Formats)
    returns (items: seq<(Bytes, Entry)>)
    requires engine.Valid() && !engine.snapshotActive && w.up && w.now == now
    requires FoldsTo(w.history, Visible(engine.Contents(), now), now)
    modifies engine.Repr
    ensures engine.Valid() && !engine.snapshotActive
    ensures CrashSafety.Enabled(w, CrashSafety.WriteTemp(Persisted(items)), f)
  {
    ghost var contents := engine.Contents();
    ghost var victims;
    items, victims := SnapshotEpoch.TakeSnapshot(engine, now, first, interference);
    ListedState(items, contents, now);
  }

  // ---- Replicas of the live state ----

  /** The history of the master is that of its files. */
  ghost predicate Replicates(s: Replication.System, h: seq<Committed>) {
    Replication.HistoryOf(s) == BatchesIn(h, 0, |h|)
  }

  lemma SameStates(h: seq<Committed>, n: nat)
    requires n <= |h|
    ensures Replication.StateOf(BatchesIn(h, 0, |h|), n) == StateAt(h, n)
  {
    assert BatchesIn(h, 0, |h|)[..n] == BatchesIn(h, 0, n);
  }

  /** Full synchronization: what the engine lists may be sent as the baseline at the
      master's sequence. A coordinator that began within the key limit has never
      passed it, so that the replica accepts the size of the baseline. */
  method CaptureForReplica(c: Commit.Coordinator, now: nat, ghost s: Replication.System, ghost h: seq<Committed>) returns (items: seq<(Bytes, Entry)>)
    requires c.Valid() && now == c.store.clock.now && s.session.NeedsFull? && !s.master.gate && s.now == now
    requires Replicates(s, h) && FoldsTo(h, c.store.State(), now)
    modifies c.store.engine.Repr
    ensures c.Valid() && c.store.State() == old(c.store.State())
    ensures Replication.Enabled(s, Replication.CaptureFull(Persisted(items))) && |items| == |c.store.State()|
    ensures |c.base| <= MAX_KEYS ==> !Replication.TooLarge(Replication.FullResync(s.master.replid, |h|, |items|))
  {
    ghost var contents := c.store.engine.Contents();
    items := c.store.engine.SnapshotAll(now);
    ListedCount(items, contents, now);
    BaselineListed(items, contents, now, s, h);
    StoreObject.VisibleSwept(contents, now);
  }

  lemma BaselineListed(items: seq<(Bytes, Entry)>, contents: Contents, now: nat, s: Replication.System, h: seq<Committed>)
    requires Enumerates(items, Swept(contents, now)) && s.session.NeedsFull? && !s.master.gate && s.now == now
    requires Replicates(s, h) && FoldsTo(h, Visible(contents, now), now)
    ensures Replication.Enabled(s, Replication.CaptureFull(Persisted(items)))
  {
    ListedState(items, contents, now);
    ListedIsStaged(Persisted(items), Visible(contents, now));
    SameStates(h, |h|);
    StoreObject.VisibleIsAlive(contents, now);
  }

  /** The files of a replica after a full synchronization: the baseline and nothing
      else. */
  ghost function BaselineFiles(h: seq<Committed>, n: nat, entries: seq<(Bytes, PersistentEntry)>, now: nat): CrashSafety.World
    requires n <= |h|
  {
    CrashSafety.World(true, now, h[..n], n, [], map[], n, [], n, None, Some(Versioned(n, entries)), None)
  }

  /** They are files of the master's history, from which everything proved about
      crashes goes on to hold. */
  lemma BaselineHolds(h: seq<Committed>, n: nat, entries: seq<(Bytes, PersistentEntry)>, captured: nat, now: nat, f: Formats)
    requires Encoded(h, f) && n <= |h| && captured <= now
    requires CrashSafety.ListsEntries(entries, Alive(StateAt(h, n), captured))
    ensures CrashSafety.Inv(BaselineFiles(h, n, entries, now), f)
  {
    CrashSafety.ListedIsFaithful(entries, StateAt(h, n), captured);
    SameState(h, h[..n], n);
    forall i | 0 <= i < n ensures CommittedOk(h[..n][i], i + 1, f) {
      assert CommittedOk(h[i], i + 1, f);
    }
    CrashSafety.EmptyFile(h[..n], n, n, f);
  }

  /** A ready replica that crashes over its files may go on with what startup makes
      of them: the prefix that survived is one of its master's states. */
  lemma ReplicaRestarts(s: Replication.System, u: CrashSafety.World, f: Formats)
    requires Replication.ReplicaOk(s.histories, s.replica, s.now) && s.replica.ready
    requires CrashSafety.Inv(u, f) && !u.up && u.now == s.now
    requires BatchesIn(u.history, 0, |u.history|) == s.histories[s.replica.replid][..s.replica.sequence]
    requires s.replica.baseline == WatermarkOf(Chosen(u.snapshot, u.backup))
    ensures CrashSafety.Enabled(u, CrashSafety.Recover, f)
    ensures var r := CrashSafety.Startup(u, f);
      Replication.Enabled(s, Replication.RestartReplica(r.lastSequence, true, r.contents))
  {
    CrashSafety.CrashRecovers(u, f);
    var r := CrashSafety.Startup(u, f);
    assert s.replica.baseline <= u.durable;
    PrefixRestarts(s, u.history, r.lastSequence, r.contents);
  }

  lemma PrefixRestarts(s: Replication.System, h: seq<Committed>, n: nat, contents: View)
    requires Replication.ReplicaOk(s.histories, s.replica, s.now) && s.replica.ready
    requires s.replica.baseline <= n <= |h| && BatchesIn(h, 0, |h|) == s.histories[s.replica.replid][..s.replica.sequence]
    requires Alive(contents, s.now) == Alive(StateAt(h, n), s.now)
    ensures Replication.Enabled(s, Replication.RestartReplica(n, true, contents))
  {
    SameStates(h, n);
    var all := s.histories[s.replica.replid];
    assert all[..s.replica.sequence][..n] == all[..n];
  }

  // ---- The key limit over lifetimes ----

  /** The whole history within the limit, with what a coordinator has added to it. */
  lemma HistoryStaysWithin(h: seq<Committed>, more: seq<Committed>, log: seq<Retained>, base: View, begun: nat, now: nat, f: Formats)
    requires FoldsTo(h, base, begun) && begun <= now && Encodes(more, log, f)
    requires PrefixesWithin(map[], BatchesIn(h, 0, |h|), begun) && PrefixesWithin(base, Commit.Payloads(log), now)
    ensures PrefixesWithin(map[], BatchesIn(h + more, 0, |h + more|), now)
  {
    var batches := BatchesIn(h, 0, |h|);
    PrefixesWithinLater(map[], batches, begun, now);
    AliveTwice(StateAt(h, |h|), begun, now);
    PrefixesJoin(map[], batches, base, Commit.Payloads(log), now);
    assert BatchesIn(h + more, 0, |h + more|) == batches + Commit.Payloads(log);
  }

  /** Whatever prefix a crash leaves, the recovered dataset is within the limit: the
      next coordinator begins within it again. */
  lemma RecoveredWithinLimit(u: CrashSafety.World, f: Formats)
    requires CrashSafety.Inv(u, f) && !u.up && PrefixesWithin(map[], BatchesIn(u.history, 0, |u.history|), u.now)
    ensures |Alive(CrashSafety.Startup(u, f).contents, u.now)| <= MAX_KEYS
  {
    CrashSafety.CrashRecovers(u, f);
    StateWithin(u.history, CrashSafety.Startup(u, f).lastSequence, u.now);
  }

  lemma StateWithin(h: seq<Committed>, n: nat, now: nat)
    requires n <= |h| && PrefixesWithin(map[], BatchesIn(h, 0, |h|), now)
    ensures |Alive(StateAt(h, n), now)| <= MAX_KEYS
  {
    var batches := BatchesIn(h, 0, |h|);
    assert WithinAt(map[], batches, n, now) && batches[..n] == BatchesIn(h, 0, n);
  }
}
