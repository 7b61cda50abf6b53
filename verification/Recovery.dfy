/** Recovery: inspect and repair the catalog, load the snapshot, replay what it
does not cover. */
module Recovery {
  import opened Model
  import opened Framing
  import opened Scan
  import opened Logs
  import opened History
  import opened BatchCodec

  /** A snapshot file is a versioned list of entries, or something recovery does
      not accept. */
  datatype SnapshotFile =
    | Versioned(watermark: nat, entries: seq<(Bytes, PersistentEntry)>)
    | Unreadable

  /** Sealed segments by the end sequence in their file name. */
  type Catalog = map<nat, Bytes>

  // ---- Replay ----

  /** The records above a watermark, in order. */
  function After(log: Log, watermark: nat): Log {
    if log == [] then []
    else
      var front, last := After(log[..|log| - 1], watermark), log[|log| - 1];
      if last.sequence <= watermark then front else front + [last]
  }

  function BatchesOf(log: Log): (r: seq<Batch>)
    ensures |r| == |log| && forall i :: 0 <= i < |log| ==> r[i] == log[i].batch
  {
    seq(|log|, i requires 0 <= i < |log| => log[i].batch)
  }

  /** A history that starts no later than the record after the watermark. */
  predicate Reaches(log: Log, watermark: nat) {
    log == [] || log[0].sequence <= watermark + 1
  }

  function Covered(log: Log, watermark: nat): nat
    requires Reaches(log, watermark)
  {
    if log == [] then 0
    else
      var n := watermark + 1 - log[0].sequence;
      if n < |log| then n else |log|
  }

  /** Replay takes exactly the sequences watermark + 1, watermark + 2, ..., each
      once and in order. */
  lemma {:induction false} AfterIsSuffix(log: Log, watermark: nat)
    requires Contiguous(log) && Reaches(log, watermark)
    ensures After(log, watermark) == log[Covered(log, watermark)..]
    ensures forall i :: 0 <= i < |After(log, watermark)| ==> After(log, watermark)[i].sequence == watermark + 1 + i
  {
    if log != [] {
      var front, last := log[..|log| - 1], log[|log| - 1];
      AfterIsSuffix(front, watermark);
      if last.sequence > watermark {
        var k := Covered(log, watermark);
        assert Covered(front, watermark) == k;
        assert front[k..] + [last] == log[k..];
      }
    }
  }

  lemma AfterNext(log: Log, next: LogRecord, watermark: nat)
    ensures After(log + [next], watermark)
         == if next.sequence <= watermark then After(log, watermark) else After(log, watermark) + [next]
  {
    assert (log + [next])[..|log + [next]| - 1] == log;
  }

  /** The staging state after replaying `done`. */
  ghost predicate Replayed(done: Log, watermark: nat, base: View, staging: View, expected: nat, count: nat) {
    && staging == ApplyAll(base, BatchesOf(After(done, watermark)))
    && count == |After(done, watermark)| && expected == watermark + 1 + count
  }

  lemma ReplaySkips(done: Log, next: LogRecord, watermark: nat, base: View, staging: View, expected: nat, count: nat)
    requires Replayed(done, watermark, base, staging, expected, count) && next.sequence <= watermark
    ensures Replayed(done + [next], watermark, base, staging, expected, count)
  {
    AfterNext(done, next, watermark);
  }

  lemma ReplayApplies(done: Log, next: LogRecord, watermark: nat, base: View, staging: View, expected: nat, count: nat)
    requires Replayed(done, watermark, base, staging, expected, count) && next.sequence > watermark
    ensures Replayed(done + [next], watermark, base, ApplyBatch(staging, next.batch), expected + 1, count + 1)
  {
    AfterNext(done, next, watermark);
    var after := After(done, watermark);
    assert BatchesOf(after + [next]) == BatchesOf(after) + [next.batch];
    var batches := BatchesOf(after);
    assert (batches + [next.batch])[..|batches + [next.batch]| - 1] == batches;
  }

  /** In a gap-free history that reaches back far enough, the next record above
      the watermark is always the expected one. */
  lemma NextIsExpected(done: Log, next: LogRecord, rest: Log, watermark: nat)
    requires Contiguous(done + [next] + rest) && Reaches(done + [next] + rest, watermark)
    requires next.sequence > watermark
    ensures next.sequence == watermark + 1 + |After(done, watermark)|
  {
    var grown := done + [next];
    ContiguousPart(grown, rest);
    assert (grown + rest)[0] == grown[0];
    AfterIsSuffix(grown, watermark);
    AfterNext(done, next, watermark);
    assert After(grown, watermark)[|After(done, watermark)|] == next;
  }

  datatype Replay = Replay(staging: View, expected: nat, count: nat)

  /** Replays one record. The contiguity error cannot occur. */
  method ReplayRecord(record: Bytes, watermark: nat, r: Replay, f: Formats,
                      ghost done: Log, ghost next: LogRecord, ghost rest: Log, ghost base: View)
    returns (r': Option<Replay>)
    requires DecodeOne(record, f) == Some(next)
    requires Contiguous(done + [next] + rest) && Reaches(done + [next] + rest, watermark)
    requires Replayed(done, watermark, base, r.staging, r.expected, r.count)
    ensures r'.Some? && Replayed(done + [next], watermark, base, r'.value.staging, r'.value.expected, r'.value.count)
  {
    var decoded := DecodeRecord(record, f.crc);
    var sequence := decoded.value.sequence;
    if sequence <= watermark {
      ReplaySkips(done, next, watermark, base, r.staging, r.expected, r.count);
      return Some(r);
    }
    NextIsExpected(done, next, rest, watermark);
    if r.expected != sequence {
      return None;
    }
    var batch := DecodeCommittedBatch(decoded.value.payload, f.json);
    ReplayApplies(done, next, watermark, base, r.staging, r.expected, r.count);
    r' := Some(Replay(ApplyBatch(r.staging, batch.value), r.expected + 1, r.count + 1));
  }

  lemma LogSplit(before: Log, log: Log, rest: Log, i: nat)
    requires i < |log|
    ensures before + log[..i] + [log[i]] == before + log[..i + 1]
    ensures before + log[..i] + [log[i]] + (log[i + 1..] + rest) == before + log + rest
  {
  }

  method ReplayRecords(records: seq<Bytes>, watermark: nat, start: Replay, f: Formats,
                       ghost before: Log, ghost log: Log, ghost rest: Log, ghost base: View)
    returns (r: Option<Replay>)
    requires |log| == |records| && Visited(records, log, f)
    requires Contiguous(before + log + rest) && Reaches(before + log + rest, watermark)
    requires Replayed(before, watermark, base, start.staging, start.expected, start.count)
    ensures r.Some? && Replayed(before + log, watermark, base, r.value.staging, r.value.expected, r.value.count)
  {
    assert before + log[..0] == before;
    var state := start;
    var i := 0;
    while i < |records|
      invariant 0 <= i <= |records|
      invariant Replayed(before + log[..i], watermark, base, state.staging, state.expected, state.count)
    {
      assert DecodeOne(records[i], f) == Some(log[i]);
      LogSplit(before, log, rest, i);
      var next := ReplayRecord(records[i], watermark, state, f, before + log[..i], log[i], log[i + 1..] + rest, base);
      if next.None? {
        return None;
      }
      state := next.value;
      i := i + 1;
    }
    assert log[..i] == log;
    r := Some(state);
  }

  method ReplayFile(file: Bytes, watermark: nat, start: Replay, f: Formats,
                    ghost before: Log, ghost info: FileInfo, ghost rest: Log, ghost base: View)
    returns (r: Option<Replay>)
    requires InfoOf(file, f) == Some(info)
    requires Contiguous(before + info.log + rest) && Reaches(before + info.log + rest, watermark)
    requires Replayed(before, watermark, base, start.staging, start.expected, start.count)
    ensures r.Some? && Replayed(before + info.log, watermark, base, r.value.staging, r.value.expected, r.value.count)
  {
    var records, validLen, end := ForEachBinlogRecord(file);
    assert Visited(records, info.log, f) by {
      assert info.log == DecodeAll(records, f);
    }
    r := ReplayRecords(records, watermark, start, f, before, info.log, rest, base);
  }

  /** `infos` describe `files`. */
  ghost predicate Read(files: seq<Bytes>, infos: seq<FileInfo>, f: Formats) {
    |files| == |infos| && forall i :: 0 <= i < |files| ==> InfoOf(files[i], f) == Some(infos[i])
  }

  lemma SplitAt(infos: seq<FileInfo>, i: nat) returns (rest: Log)
    requires i < |infos|
    ensures Joined(infos) == Joined(infos[..i]) + infos[i].log + rest
    ensures Joined(infos[..i + 1]) == Joined(infos[..i]) + infos[i].log
  {
    rest := JoinedSplit(infos, i);
    assert infos[..i + 1] == infos[..i] + [infos[i]];
    JoinedNext(infos[..i], infos[i]);
  }

  method ReplayAt(file: Bytes, watermark: nat, start: Replay, f: Formats, ghost infos: seq<FileInfo>, ghost i: nat, ghost base: View)
    returns (r: Option<Replay>)
    requires i < |infos| && InfoOf(file, f) == Some(infos[i])
    requires Contiguous(Joined(infos)) && Reaches(Joined(infos), watermark)
    requires Replayed(Joined(infos[..i]), watermark, base, start.staging, start.expected, start.count)
    ensures r.Some? && Replayed(Joined(infos[..i + 1]), watermark, base, r.value.staging, r.value.expected, r.value.count)
  {
    ghost var before, log := Joined(infos[..i]), infos[i].log;
    ghost var rest := SplitAt(infos, i);
    r := ReplayFile(file, watermark, start, f, before, infos[i], rest, base);
  }

  /** Replays the whole history above the watermark. It never fails. */
  method ReplayFiles(files: seq<Bytes>, watermark: nat, base: View, f: Formats, ghost infos: seq<FileInfo>)
    returns (r: Option<Replay>)
    requires Read(files, infos, f)
    requires Contiguous(Joined(infos)) && Reaches(Joined(infos), watermark)
    ensures r.Some? && Replayed(Joined(infos), watermark, base, r.value.staging, r.value.expected, r.value.count)
  {
    var state := Replay(base, watermark + 1, 0);
    var i := 0;
    while i < |files|
      invariant 0 <= i <= |files|
      invariant Replayed(Joined(infos[..i]), watermark, base, state.staging, state.expected, state.count)
    {
      var next := ReplayAt(files[i], watermark, state, f, infos, i, base);
      if next.None? {
        return None;
      }
      state := next.value;
      i := i + 1;
    }
    assert infos[..i] == infos;
    r := Some(state);
  }

  // ---- Snapshot entries ----

  /** Entries that have expired by the time of loading are skipped. */
  function Loaded(entries: seq<(Bytes, PersistentEntry)>, now: nat): View {
    if entries == [] then map[]
    else
      var front, last := Loaded(entries[..|entries| - 1], now), entries[|entries| - 1];
      if Unexpired(last.1.expiresAt, now) then front[last.0 := last.1] else front
  }

  method LoadSnapshotEntries(entries: seq<(Bytes, PersistentEntry)>, now: nat) returns (staging: View)
    ensures staging == Loaded(entries, now)
  {
    staging := map[];
    var i := 0;
    while i < |entries|
      invariant 0 <= i <= |entries| && staging == Loaded(entries[..i], now)
    {
      assert entries[..i + 1][..i] == entries[..i];
      if Unexpired(entries[i].1.expiresAt, now) {
        staging := staging[entries[i].0 := entries[i].1];
      }
      i := i + 1;
    }
    assert entries[..i] == entries;
  }

  // ---- The outcome of recovery ----

  datatype RecoveryState = RecoveryState(contents: View, lastSequence: nat, watermark: nat, replayed: nat)

  /** The primary snapshot, or the backup while an installation was interrupted. */
  function Chosen(snapshot: Option<SnapshotFile>, backup: Option<SnapshotFile>): Option<SnapshotFile> {
    if snapshot.Some? then snapshot else backup
  }

  function WatermarkOf(chosen: Option<SnapshotFile>): nat {
    if chosen.Some? && chosen.value.Versioned? then chosen.value.watermark else 0
  }

  function EntriesOf(chosen: Option<SnapshotFile>): seq<(Bytes, PersistentEntry)> {
    if chosen.Some? && chosen.value.Versioned? then chosen.value.entries else []
  }

  function Max(a: nat, b: nat): nat { if a > b then a else b }

  /** The snapshot with exactly the records above its watermark applied. */
  function Recovered(chosen: Option<SnapshotFile>, log: Log, now: nat): RecoveryState {
    var w := WatermarkOf(chosen);
    RecoveryState(ApplyAll(Loaded(EntriesOf(chosen), now), BatchesOf(After(log, w))), Max(w, LastOf(log)), w, |After(log, w)|)
  }
}
