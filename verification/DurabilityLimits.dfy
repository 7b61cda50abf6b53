/** Where durability depends on more than the recovery code checks: a snapshot
above the synced log, and segment removal that skips a segment. */
module DurabilityLimits {
  import opened Model
  import opened Wire
  import opened BatchCodec
  import opened Framing
  import opened Scan
  import opened Logs
  import opened History
  import opened Recovery
  import opened Directories
  import opened Ranges
  import opened CrashSafety

  // ---- A snapshot above the surviving log ----

  /** Recovery resumes after the watermark even when the log ends below it. The
      next append then keeps the history gap-free exactly when the log reached the
      watermark or was empty. */
  lemma AppendAfterRecoveryIff(log: Log, chosen: Option<SnapshotFile>, now: nat, batch: Batch)
    requires Contiguous(log) && Reaches(log, WatermarkOf(chosen))
    ensures var next := LogRecord(Recovered(chosen, log, now).lastSequence + 1, batch);
      Contiguous(log + [next]) <==> log == [] || WatermarkOf(chosen) <= LastOf(log)
  {
    var next := LogRecord(Recovered(chosen, log, now).lastSequence + 1, batch);
    ContiguousJoin(log, [next]);
  }

  /** A record that does not follow the last one of a file makes it unreadable. */
  lemma GapIsRefused(h: seq<Committed>, lo: nat, n: nat, c: Committed, sequence: nat, f: Formats)
    requires Encoded(h, f) && lo < n <= |h| && CommittedOk(c, sequence, f) && sequence != n + 1
    ensures InfoOf(FileOf(h, lo, n, f) + Frame(RecordBytes(sequence, c.payload, f.crc)), f).None?
  {
    var record := RecordBytes(sequence, c.payload, f.crc);
    var front, records := RecordsIn(h, lo, n, f), RecordsIn(h, lo, n, f) + [record];
    FramesNext(front, record);
    RecordsWritten(h, lo, n, f);
    DecodeWritten(f.crc, sequence, c.payload);
    ScanWhole(records, f.crc);
    RecordsDecode(h, lo, n, f);
    LogRuns(h, lo, n);
    VisitedGap(records, LogIn(h, lo, n), LogRecord(sequence, c.batch), f);
  }

  lemma FramesNext(records: seq<Bytes>, record: Bytes)
    ensures Frames(records + [record]) == Frames(records) + Frame(record)
  {
    var grown := records + [record];
    FramesSplit(grown, |records|);
    assert grown[..|records|] == records && grown[|records|..] == [record];
    assert Frames([record]) == Frame(record) + Frames([]);
  }

  lemma ScanWhole(records: seq<Bytes>, crc: Checksum)
    requires AllWritten(records, crc)
    ensures ScanFile(Frames(records)).records == records
  {
    ScanFrames(records, [], crc);
    assert Frames(records) + [] == Frames(records) && records + ScanFile([]).records == records;
  }

  /** The world after its temporary snapshot is renamed into place. */
  function Installed(s: World): World { s.(snapshot := s.temp, temp := None) }

  /** What startup finds on disk. */
  datatype Files = Files(ends: seq<nat>, sealed: Catalog, active: Bytes, chosen: Option<SnapshotFile>)

  function FilesOf(s: World): Files { Files(s.ends, s.sealed, s.active, Chosen(s.snapshot, s.backup)) }

  /** The `k` oldest segments are covered by the snapshot. */
  ghost predicate Cleanable(s: Files, k: nat) {
    k <= |s.ends| && forall i :: 0 <= i < k ==> s.ends[i] <= WatermarkOf(s.chosen)
  }

  /** Startup succeeds with one more record in the active file, when the `k` oldest
      segments have been removed. */
  ghost predicate LoadsWith(s: Files, k: nat, record: Bytes, f: Formats) {
    && k <= |s.ends|
    && Loadable(s.ends[k..], Without(s.sealed, s.ends[..k]), ValidPart(s.active, f) + Frame(record), s.chosen, f)
  }

  /** The record after `last` can be appended and read back. */
  ghost predicate Appends(s: Files, k: nat, c: Committed, last: nat, f: Formats) {
    var next := last + 1;
    Cleanable(s, k) && CommittedOk(c, next, f) ==> LoadsWith(s, k, RecordBytes(next, c.payload, f.crc), f)
  }

  /** Startup succeeds on a crashed world, and again after one more record is
      appended, when the clean-up in between has removed the `k` oldest segments. */
  ghost predicate Resumes(s: World, k: nat, c: Committed, f: Formats) {
    Enabled(s, Recover, f) && Appends(FilesOf(s), k, c, Startup(s, f).lastSequence, f)
  }

  /** No crash at this point endangers the directory. */
  ghost predicate Safe(s: World, f: Formats) {
    forall cut, k, c :: Enabled(s, Crash(cut), f) ==> Resumes(CrashSafety.Next(s, Crash(cut), f), k, c, f)
  }

  /** A crash that loses nothing. */
  lemma WholeLoads(s: World, f: Formats)
    requires Inv(s, f) && s.up
    ensures Loadable(s.ends, s.sealed, s.active, Chosen(s.snapshot, s.backup), f)
  {
    var cut := |s.active|;
    assert s.active[..cut] == s.active;
    FileLonger(s.history, s.activeFrom, s.durable, |s.history|, f);
    CrashKeeps(s, cut, f);
    CrashRecovers(CrashSafety.Next(s, Crash(cut), f), f);
  }

  lemma AppendLoads(s: World, c: Committed, f: Formats)
    requires Inv(s, f) && Enabled(s, Append(c), f)
    ensures Loadable(s.ends, s.sealed, s.active + Frame(RecordBytes(|s.history| + 1, c.payload, f.crc)), Chosen(s.snapshot, s.backup), f)
  {
    AppendKeeps(s, c, f);
    WholeLoads(CrashSafety.Next(s, Append(c), f), f);
  }

  /** What recovery and clean-up leave, as the next append finds it. */
  lemma RestartedWorld(s: World, k: nat, f: Formats) returns (t: World)
    requires Inv(s, f) && !s.up && Cleanable(FilesOf(s), k)
    ensures Inv(t, f) && t.up && |t.history| == Startup(s, f).lastSequence
    ensures t.ends == s.ends[k..] && t.sealed == Without(s.sealed, s.ends[..k]) && t.active == ValidPart(s.active, f)
    ensures t.snapshot == s.snapshot && t.backup == s.backup
  {
    CrashRecovers(s, f);
    RestartRuns(s, k, f);
    RunKeeps(s, [Recover] + Removals(k), f);
    t := Shortened(CrashSafety.Next(s, Recover, f), k);
  }

  lemma CrashedResumes(s: World, k: nat, c: Committed, f: Formats)
    requires Inv(s, f) && !s.up
    ensures Resumes(s, k, c, f)
  {
    CrashRecovers(s, f);
    if Cleanable(FilesOf(s), k) && CommittedOk(c, Startup(s, f).lastSequence + 1, f) {
      var t := RestartedWorld(s, k, f);
      AppendLoads(t, c, f);
    }
  }

  /** The files after a crash that keeps the records up to `n`, below the watermark
      of the installed snapshot. */
  ghost predicate Behind(s: World, n: nat, f: Formats) {
    && !s.up && Encoded(s.history, f) && Laid(s.history, s.base, s.ends, s.sealed, f) && |s.ends| <= MAX_BINLOG_SEGMENTS
    && s.activeFrom == Lo(s.base, s.ends, |s.ends|) <= n <= |s.history| && s.active == FileOf(s.history, s.activeFrom, n, f)
    && s.base <= WatermarkOf(s.snapshot) && n < WatermarkOf(s.snapshot) && s.snapshot.Some? && s.snapshot.value.Versioned?
  }

  lemma BehindCatalog(s: World, n: nat, f: Formats)
    requires Behind(s, n, f)
    ensures s.base <= s.activeFrom && CatalogOk(s.ends, s.sealed, s.active, f)
    ensures HistoryLog(s.ends, s.sealed, s.active, f) == LogIn(s.history, s.base, n)
  {
    LaidAscends(s.history, s.base, s.ends, s.sealed, |s.ends|, f);
    LaidInfos(s.history, s.base, s.ends, s.sealed, f);
    WholeFile(s.history, s.activeFrom, n, f);
    CrashedJoined(s.history, s.base, s.ends, InfosOf(s.ends, s.sealed, f), InfoOf(s.active, f).value, n);
    CatalogOfSound(s.ends, s.sealed, s.active, f);
  }

  /** Such a directory still starts, and goes on after the watermark. */
  lemma BehindStarts(s: World, n: nat, f: Formats)
    requires Behind(s, n, f)
    ensures Enabled(s, Recover, f) && Startup(s, f).lastSequence == WatermarkOf(s.snapshot)
  {
    BehindCatalog(s, n, f);
    LogRuns(s.history, s.base, n);
    var log := LogIn(s.history, s.base, n);
    assert LastOf(log) <= n && Reaches(log, WatermarkOf(s.snapshot));
  }

  lemma ValidWhole(h: seq<Committed>, lo: nat, n: nat, f: Formats)
    requires Encoded(h, f) && lo <= n <= |h|
    ensures ValidPart(FileOf(h, lo, n, f), f) == FileOf(h, lo, n, f)
  {
    WholeFile(h, lo, n, f);
    var file := FileOf(h, lo, n, f);
    assert file[..|file|] == file;
  }

  lemma RefusedRecord(s: World, k: nat, record: Bytes, f: Formats)
    requires InfoOf(ValidPart(s.active, f) + Frame(record), f).None?
    ensures !LoadsWith(FilesOf(s), k, record, f)
  {
  }

  lemma GapAfter(h: seq<Committed>, lo: nat, n: nat, c: Committed, sequence: nat, f: Formats)
    requires Encoded(h, f) && lo < n <= |h| && CommittedOk(c, sequence, f) && sequence != n + 1
    ensures InfoOf(ValidPart(FileOf(h, lo, n, f), f) + Frame(RecordBytes(sequence, c.payload, f.crc)), f).None?
  {
    ValidWhole(h, lo, n, f);
    GapIsRefused(h, lo, n, c, sequence, f);
  }

  /** With a surviving record in the active file, no clean-up helps. */
  lemma GapInActive(s: World, n: nat, k: nat, c: Committed, sequence: nat, f: Formats)
    requires Behind(s, n, f) && s.activeFrom < n && CommittedOk(c, sequence, f) && sequence == WatermarkOf(s.snapshot) + 1
    ensures !LoadsWith(FilesOf(s), k, RecordBytes(sequence, c.payload, f.crc), f)
  {
    GapAfter(s.history, s.activeFrom, n, c, sequence, f);
    RefusedRecord(s, k, RecordBytes(sequence, c.payload, f.crc), f);
  }

  /** With an empty active file, the last segment is the one before the gap. */
  lemma GapAfterSegments(s: World, c: Committed, sequence: nat, f: Formats)
    requires Behind(s, s.activeFrom, f) && s.ends != [] && CommittedOk(c, sequence, f) && sequence == WatermarkOf(s.snapshot) + 1
    ensures !LoadsWith(FilesOf(s), 0, RecordBytes(sequence, c.payload, f.crc), f)
  {
    var frame := Frame(RecordBytes(sequence, c.payload, f.crc));
    ValidWhole(s.history, s.activeFrom, s.activeFrom, f);
    EmptyFile(s.history, s.activeFrom, s.activeFrom, f);
    assert s.active + frame == frame;
    assert s.ends[0..] == s.ends && Without(s.sealed, s.ends[..0]) == s.sealed;
    OneRecord(c, sequence, f);
    SegmentsJoined(s, f);
    GapInCatalog(s.ends, s.sealed, frame, sequence, f);
  }

  lemma SegmentsJoined(s: World, f: Formats)
    requires Behind(s, s.activeFrom, f) && s.ends != []
    ensures Readable(s.ends, s.sealed, f) && NoneTorn(InfosOf(s.ends, s.sealed, f))
    ensures var log := Joined(InfosOf(s.ends, s.sealed, f)); Contiguous(log) && log != [] && LastOf(log) == s.activeFrom
  {
    SegmentsHoldRecords(s, f);
    LaidInfos(s.history, s.base, s.ends, s.sealed, f);
    var infos := InfosOf(s.ends, s.sealed, f);
    SpansJoined(s.history, s.base, s.ends, infos, |s.ends|);
    assert infos[..|s.ends|] == infos;
    LogRuns(s.history, s.base, s.activeFrom);
  }

  lemma GapInCatalog(ends: seq<nat>, sealed: Catalog, active: Bytes, sequence: nat, f: Formats)
    requires Readable(ends, sealed, f) && NoneTorn(InfosOf(ends, sealed, f)) && InfoOf(active, f).Some?
    requires var log := Joined(InfosOf(ends, sealed, f)); Contiguous(log) && log != [] && LastOf(log) + 1 != sequence
    requires FirstOf(InfoOf(active, f).value.log) == Some(sequence)
    ensures !CatalogOk(ends, sealed, active, f)
  {
    var infos, info := InfosOf(ends, sealed, f), InfoOf(active, f).value;
    InfoContiguous(active, f);
    JoinedNext(infos, info);
    ContiguousJoin(Joined(infos), info.log);
  }

  lemma SegmentsHoldRecords(s: World, f: Formats)
    requires Laid(s.history, s.base, s.ends, s.sealed, f) && s.ends != [] && s.activeFrom == Lo(s.base, s.ends, |s.ends|)
    ensures s.base < s.activeFrom
  {
    var n := |s.ends| - 1;
    LaidAscends(s.history, s.base, s.ends, s.sealed, n, f);
    assert SegmentAt(s.history, s.base, s.ends, s.sealed, n, f);
  }

  lemma OneRecord(c: Committed, sequence: nat, f: Formats)
    requires CommittedOk(c, sequence, f)
    ensures InfoOf(Frame(RecordBytes(sequence, c.payload, f.crc)), f).Some?
    ensures InfoOf(Frame(RecordBytes(sequence, c.payload, f.crc)), f).value.log == [LogRecord(sequence, c.batch)]
  {
    var record, log := RecordBytes(sequence, c.payload, f.crc), [LogRecord(sequence, c.batch)];
    var records := [record];
    DecodeWritten(f.crc, sequence, c.payload);
    assert Frames(records) == Frame(record) + Frames([]) && records[..1] == records;
    CutIsTorn(records, |Frames(records)|, 1, f.crc);
    assert Frames(records)[..|Frames(records)|] == Frame(record);
    assert DecodeOne(records[0], f) == Some(log[0]);
    InfoOfScan(Frame(record), records, log, |Frames(records)|, Clean, f);
  }

  /** A crash that keeps the records up to `n` and nothing else. */
  lemma CrashBehind(s: World, n: nat, f: Formats) returns (cut: nat)
    requires Inv(s, f) && s.up && s.temp.Some? && s.snapshot.None? && s.durable <= n < WatermarkOf(s.temp)
    ensures Enabled(Installed(s), Crash(cut), f) && Behind(CrashSafety.Next(Installed(s), Crash(cut), f), n, f)
  {
    cut := |FileOf(s.history, s.activeFrom, n, f)|;
    FileLonger(s.history, s.activeFrom, s.durable, n, f);
    FileStarts(s.history, s.activeFrom, n, f);
  }

  lemma FileStarts(h: seq<Committed>, lo: nat, n: nat, f: Formats)
    requires lo <= n <= |h|
    ensures |FileOf(h, lo, n, f)| <= |FileOf(h, lo, |h|, f)|
    ensures FileOf(h, lo, |h|, f)[..|FileOf(h, lo, n, f)|] == FileOf(h, lo, n, f)
  {
    FramesSplit(RecordsIn(h, lo, |h|, f), n - lo);
    RecordsPrefix(h, lo, n, |h|, f);
  }

  lemma GuardedIsSafe(s: World, f: Formats)
    requires Inv(s, f) && Enabled(s, Install, f)
    ensures Safe(Installed(s), f)
  {
    var t := Installed(s);
    RenamesKeep(s, Install, f);
    forall cut, k, c | Enabled(t, Crash(cut), f) ensures Resumes(CrashSafety.Next(t, Crash(cut), f), k, c, f) {
      CrashKeeps(t, cut, f);
      CrashedResumes(CrashSafety.Next(t, Crash(cut), f), k, c, f);
    }
  }

  /** The crash that loses everything not synced. */
  lemma BehindIsLost(s: World, n: nat, c: Committed, sequence: nat, f: Formats)
    requires Behind(s, n, f) && s.ends != [] && CommittedOk(c, sequence, f) && sequence == WatermarkOf(s.snapshot) + 1
    ensures !LoadsWith(FilesOf(s), 0, RecordBytes(sequence, c.payload, f.crc), f)
  {
    if s.activeFrom < n {
      GapInActive(s, n, 0, c, sequence, f);
    } else {
      GapAfterSegments(s, c, sequence, f);
    }
  }

  /** Startup goes on after `last`, and the next record cannot be read back. */
  lemma LostFails(s: World, c: Committed, last: nat, sequence: nat, f: Formats)
    requires Startup(s, f).lastSequence == last && sequence == last + 1 && CommittedOk(c, sequence, f)
    requires !LoadsWith(FilesOf(s), 0, RecordBytes(sequence, c.payload, f.crc), f)
    ensures !Resumes(s, 0, c, f)
  {
    NotAppended(s, c, last, sequence, f);
  }

  lemma NotAppended(s: World, c: Committed, last: nat, sequence: nat, f: Formats)
    requires sequence == last + 1 && CommittedOk(c, sequence, f) && !LoadsWith(FilesOf(s), 0, RecordBytes(sequence, c.payload, f.crc), f)
    ensures !Appends(FilesOf(s), 0, c, last, f)
  {
    var next := last + 1;
    assert next == sequence && Cleanable(FilesOf(s), 0);
    assert RecordBytes(next, c.payload, f.crc) == RecordBytes(sequence, c.payload, f.crc);
  }

  lemma UnguardedFails(s: World, c: Committed, sequence: nat, f: Formats) returns (cut: nat)
    requires Inv(s, f) && s.up && s.temp.Some? && s.snapshot.None? && s.ends != [] && !Guard(s)
    requires CommittedOk(c, sequence, f) && sequence == WatermarkOf(s.temp) + 1
    ensures Enabled(Installed(s), Crash(cut), f) && !Resumes(CrashSafety.Next(Installed(s), Crash(cut), f), 0, c, f)
  {
    cut := CrashBehind(s, s.durable, f);
    var t := CrashSafety.Next(Installed(s), Crash(cut), f);
    BehindStarts(t, s.durable, f);
    BehindIsLost(t, s.durable, c, sequence, f);
    LostFails(t, c, WatermarkOf(t.snapshot), sequence, f);
  }

  // Without sealed segments one unsynced record does no harm: it survives whole, or
  // nothing is left of the log.

  lemma NoSegments(ends: seq<nat>, sealed: Catalog, active: Bytes, f: Formats)
    requires |ends| == 0 && InfoOf(active, f).Some?
    ensures CatalogOk(ends, sealed, active, f) && HistoryLog(ends, sealed, active, f) == InfoOf(active, f).value.log
  {
    var infos, info := InfosOf(ends, sealed, f), InfoOf(active, f).value;
    InfoContiguous(active, f);
    JoinedNext(infos, info);
    assert Joined(infos) + info.log == info.log;
    CatalogOfSound(ends, sealed, active, f);
  }

  lemma AloneStarts(s: World, f: Formats)
    requires !s.up && s.ends == [] && s.snapshot.Some? && s.snapshot.value.Versioned?
    requires InfoOf(s.active, f).Some? && InfoOf(s.active, f).value.log == []
    ensures Enabled(s, Recover, f) && Startup(s, f).lastSequence == WatermarkOf(s.snapshot)
  {
    NoSegments(s.ends, s.sealed, s.active, f);
  }

  lemma AloneLoads(s: World, k: nat, record: Bytes, sequence: nat, f: Formats)
    requires s.ends == [] && k == 0 && s.snapshot.Some? && s.snapshot.value.Versioned? && ValidPart(s.active, f) == []
    requires InfoOf(Frame(record), f).Some? && FirstOf(InfoOf(Frame(record), f).value.log) == Some(sequence) && sequence <= WatermarkOf(s.snapshot) + 1
    ensures LoadsWith(FilesOf(s), k, record, f)
  {
    assert [] + Frame(record) == Frame(record) && s.ends[k..] == [];
    NoSegments(s.ends[k..], Without(s.sealed, s.ends[..k]), Frame(record), f);
  }

  lemma AloneAppends(s: World, k: nat, c: Committed, last: nat, f: Formats)
    requires s.ends == [] && s.snapshot.Some? && s.snapshot.value.Versioned? && ValidPart(s.active, f) == [] && last == WatermarkOf(s.snapshot)
    ensures Appends(FilesOf(s), k, c, last, f)
  {
    var sequence := last + 1;
    if Cleanable(FilesOf(s), k) && CommittedOk(c, sequence, f) {
      OneRecord(c, sequence, f);
      AloneLoads(s, k, RecordBytes(sequence, c.payload, f.crc), sequence, f);
    }
  }

  /** The surviving records reach the watermark: as good as synced. */
  lemma ReachedResumes(s: World, t: World, n: nat, k: nat, c: Committed, f: Formats)
    requires Inv(s, f) && s.up && s.temp.Some? && s.snapshot.None? && WatermarkOf(s.temp) <= n <= |s.history| && s.durable <= n
    requires !t.up && t == Installed(s).(up := false, active := t.active)
    requires |t.active| <= |s.active| && t.active == s.active[..|t.active|] && |FileOf(s.history, s.activeFrom, n, f)| <= |t.active|
    ensures Resumes(t, k, c, f)
  {
    var synced := t.(durable := n);
    SyncedHolds(s, synced, n, f);
    CrashedResumes(synced, k, c, f);
    SameFilesResume(synced, t, k, c, f);
  }

  /** Only the files matter, and the time. */
  lemma SameFilesResume(a: World, b: World, k: nat, c: Committed, f: Formats)
    requires !a.up && !b.up && a.ends == b.ends && a.sealed == b.sealed && a.active == b.active
    requires a.snapshot == b.snapshot && a.backup == b.backup && a.now == b.now && Resumes(a, k, c, f)
    ensures Resumes(b, k, c, f)
  {
  }

  lemma SyncedHolds(s: World, t: World, n: nat, f: Formats)
    requires Inv(s, f) && s.up && s.temp.Some? && s.snapshot.None? && WatermarkOf(s.temp) <= n <= |s.history| && s.durable <= n
    requires t == Installed(s).(up := false, active := t.active, durable := n)
    requires |t.active| <= |s.active| && t.active == s.active[..|t.active|] && |FileOf(s.history, s.activeFrom, n, f)| <= |t.active|
    ensures Inv(t, f)
  {
    SnapshotCarries(s.temp, s.history, |s.history|, s.now, t.history, n, t.now);
    SnapshotCarries(s.backup, s.history, s.durable, s.now, t.history, n, t.now);
  }

  lemma SingleIsSafe(s: World, f: Formats)
    requires Inv(s, f) && s.up && s.temp.Some? && s.snapshot.None? && s.ends == []
    requires !Guard(s) && WatermarkOf(s.temp) == s.activeFrom + 1
    ensures Safe(Installed(s), f)
  {
    forall cut, k, c | Enabled(Installed(s), Crash(cut), f)
      ensures Resumes(CrashSafety.Next(Installed(s), Crash(cut), f), k, c, f)
    {
      var t := CrashSafety.Next(Installed(s), Crash(cut), f);
      var n := CutSurvivors(s.history, s.activeFrom, t.active, f);
      if n > s.activeFrom {
        ReachedResumes(s, t, n, k, c, f);
      } else {
        EmptyFile(s.history, s.activeFrom, n, f);
        AloneStarts(t, f);
        AloneAppends(t, k, c, WatermarkOf(t.snapshot), f);
      }
    }
  }

  lemma SeveralAreUnsafe(s: World, c: Committed, sequence: nat, f: Formats) returns (cut: nat)
    requires Inv(s, f) && s.up && s.temp.Some? && s.snapshot.None? && s.ends == []
    requires s.activeFrom + 1 < WatermarkOf(s.temp) && !Guard(s) && CommittedOk(c, sequence, f) && sequence == WatermarkOf(s.temp) + 1
    ensures Enabled(Installed(s), Crash(cut), f) && !Resumes(CrashSafety.Next(Installed(s), Crash(cut), f), 0, c, f)
  {
    var n := if s.durable > s.activeFrom then s.durable else s.activeFrom + 1;
    cut := CrashBehind(s, n, f);
    var t := CrashSafety.Next(Installed(s), Crash(cut), f);
    BehindStarts(t, n, f);
    GapInActive(t, n, 0, c, sequence, f);
    LostFails(t, c, WatermarkOf(t.snapshot), sequence, f);
  }

  /** Installing a snapshot leaves the directory safe exactly when the log up to its
      watermark is synced, or it is the first record of a log without segments. */
  lemma InstallIsSafeIff(s: World, c: Committed, f: Formats)
    requires Inv(s, f) && s.up && s.temp.Some? && s.snapshot.None?
    requires CommittedOk(c, WatermarkOf(s.temp) + 1, f)
    ensures Safe(Installed(s), f) <==> Guard(s) || (s.ends == [] && WatermarkOf(s.temp) == s.activeFrom + 1)
  {
    if Guard(s) {
      GuardedIsSafe(s, f);
    } else if s.ends != [] {
      var cut := UnguardedFails(s, c, WatermarkOf(s.temp) + 1, f);
    } else if WatermarkOf(s.temp) == s.activeFrom + 1 {
      SingleIsSafe(s, f);
    } else {
      var cut := SeveralAreUnsafe(s, c, WatermarkOf(s.temp) + 1, f);
    }
  }

  // ---- Compaction with a full catalog ----

  /** Compaction seals the active file, which syncs it, before it captures a
      snapshot; it skips that when the catalog is full. */
  predicate Compacts(s: World) {
    s.up && s.temp.Some? && s.snapshot.None? && (Guard(s) || |s.ends| == MAX_BINLOG_SEGMENTS)
  }

  /** `n` segments of one record each, no snapshot. */
  ghost predicate Filled(s: World, h: seq<Committed>, n: nat, now: nat)
    requires n <= |h|
  {
    && s.up && s.now == now && s.base == 0 && s.history == h[..n] && s.active == [] && s.activeFrom == s.durable == n
    && |s.ends| == n && (forall i :: 0 <= i < n ==> s.ends[i] == i + 1)
    && s.temp == s.snapshot == s.backup == None
  }

  lemma FilledNext(s: World, h: seq<Committed>, n: nat, now: nat, f: Formats)
    requires Encoded(h, f) && n < |h| && n < MAX_BINLOG_SEGMENTS && Filled(s, h, n, now)
    ensures Enabled(s, Append(h[n]), f)
    ensures Enabled(CrashSafety.Next(s, Append(h[n]), f), Seal, f)
    ensures Filled(CrashSafety.Next(CrashSafety.Next(s, Append(h[n]), f), Seal, f), h, n + 1, now)
  {
    assert h[..n + 1] == h[..n] + [h[n]];
    assert CommittedOk(h[n], n + 1, f);
    var frame := Frame(RecordBytes(n + 1, h[n].payload, f.crc));
    assert |frame| >= 4;
    assert [] + frame == frame;
  }

  lemma {:induction false} FilledReached(s: World, h: seq<Committed>, n: nat, f: Formats) returns (steps: seq<CrashSafety.Step>)
    requires Init(s) && Encoded(h, f) && n <= |h| && n <= MAX_BINLOG_SEGMENTS
    ensures Run(s, steps, f) && Filled(Final(s, steps, f), h, n, s.now)
  {
    if n == 0 {
      steps := [];
    } else {
      var before := FilledReached(s, h, n - 1, f);
      FilledNext(Final(s, before, f), h, n - 1, s.now, f);
      RunOneMore(s, before, Append(h[n - 1]), f);
      RunOneMore(s, before + [Append(h[n - 1])], Seal, f);
      steps := before + [Append(h[n - 1])] + [Seal];
    }
  }

  /** Two more records, not synced, and a snapshot of the result. */
  ghost predicate Pending(s: World, h: seq<Committed>, now: nat) {
    var n := MAX_BINLOG_SEGMENTS;
    && s.up && s.now == now && |h| == n + 2 && s.history == h && |s.ends| == n && s.activeFrom == s.durable == n
    && s.temp.Some? && WatermarkOf(s.temp) == n + 2 && s.snapshot == s.backup == None
  }

  lemma PendingNext(s: World, h: seq<Committed>, entries: seq<(Bytes, PersistentEntry)>, now: nat, f: Formats)
    requires Encoded(h, f) && |h| == MAX_BINLOG_SEGMENTS + 2 && Filled(s, h, MAX_BINLOG_SEGMENTS, now)
    requires ListsEntries(entries, Alive(StateAt(h, |h|), now))
    ensures var n := MAX_BINLOG_SEGMENTS; Enabled(s, Append(h[n]), f)
    ensures var n := MAX_BINLOG_SEGMENTS; var t := CrashSafety.Next(s, Append(h[n]), f); Enabled(t, Append(h[n + 1]), f)
    ensures var n := MAX_BINLOG_SEGMENTS;
      var t := CrashSafety.Next(CrashSafety.Next(s, Append(h[n]), f), Append(h[n + 1]), f);
      Enabled(t, WriteTemp(entries), f) && Pending(CrashSafety.Next(t, WriteTemp(entries), f), h, now)
  {
    var n := MAX_BINLOG_SEGMENTS;
    assert CommittedOk(h[n], n + 1, f) && CommittedOk(h[n + 1], n + 2, f);
    assert h[..n] + [h[n]] + [h[n + 1]] == h;
  }

  lemma PendingReached(s: World, h: seq<Committed>, entries: seq<(Bytes, PersistentEntry)>, f: Formats)
    returns (steps: seq<CrashSafety.Step>)
    requires Init(s) && Encoded(h, f) && |h| == MAX_BINLOG_SEGMENTS + 2
    requires ListsEntries(entries, Alive(StateAt(h, |h|), s.now))
    ensures Run(s, steps, f) && Pending(Final(s, steps, f), h, s.now)
  {
    var n := MAX_BINLOG_SEGMENTS;
    var filled := FilledReached(s, h, n, f);
    PendingNext(Final(s, filled, f), h, entries, s.now, f);
    var first, second, write := Append(h[n]), Append(h[n + 1]), WriteTemp(entries);
    RunOneMore(s, filled, first, f);
    RunOneMore(s, filled + [first], second, f);
    RunOneMore(s, filled + [first] + [second], write, f);
    steps := filled + [first] + [second] + [write];
  }

  /** Compaction reaches the unsafe installation: with the catalog full and two
      records not synced, a crash after the installation may keep the first of them
      only. Startup then goes on after the watermark, and with the next record the
      directory is lost, whatever the clean-up removes. */
  lemma FullCatalogLosesDirectory(s: World, h: seq<Committed>, entries: seq<(Bytes, PersistentEntry)>, c: Committed, f: Formats)
    returns (steps: seq<CrashSafety.Step>, cut: nat)
    requires Init(s) && Encoded(h, f) && |h| == MAX_BINLOG_SEGMENTS + 2 && CommittedOk(c, |h| + 1, f)
    requires ListsEntries(entries, Alive(StateAt(h, |h|), s.now))
    ensures Run(s, steps, f) && Compacts(Final(s, steps, f)) && !Guard(Final(s, steps, f))
    ensures Enabled(Installed(Final(s, steps, f)), Crash(cut), f)
    ensures var crashed := CrashSafety.Next(Installed(Final(s, steps, f)), Crash(cut), f);
      && Enabled(crashed, Recover, f) && Startup(crashed, f).lastSequence == |h|
      && forall k :: 0 <= k <= |crashed.ends| ==> !Resumes(crashed, k, c, f)
  {
    steps := PendingReached(s, h, entries, f);
    var t := Final(s, steps, f);
    InitHolds(s, f);
    RunKeeps(s, steps, f);
    var n := MAX_BINLOG_SEGMENTS + 1;
    cut := CrashBehind(t, n, f);
    var crashed := CrashSafety.Next(Installed(t), Crash(cut), f);
    BehindStarts(crashed, n, f);
    forall k | 0 <= k <= |crashed.ends| ensures !Resumes(crashed, k, c, f) {
      EndsBelow(crashed, n, f);
      GapInActive(crashed, n, k, c, |h| + 1, f);
    }
  }

  lemma EndsBelow(s: World, n: nat, f: Formats)
    requires Behind(s, n, f)
    ensures forall k :: 0 <= k <= |s.ends| ==> Cleanable(FilesOf(s), k)
  {
    forall i | 0 <= i < |s.ends| ensures s.ends[i] <= s.activeFrom {
    }
  }

  // ---- Removing covered segments when one of them cannot be removed ----

  function Kept(files: seq<FileInfo>, keep: seq<bool>): seq<FileInfo>
    requires |files| == |keep|
  {
    if files == [] then []
    else
      var n := |files| - 1;
      var front := Kept(files[..n], keep[..n]);
      if keep[n] then front + [files[n]] else front
  }

  /** Only the oldest segments are gone. */
  predicate OldestGone(keep: seq<bool>) {
    forall i, j :: 0 <= i < j < |keep| && keep[i] ==> keep[j]
  }

  predicate AllHoldRecords(files: seq<FileInfo>) {
    forall i :: 0 <= i < |files| ==> files[i].log != []
  }

  lemma {:induction false} KeptLast(files: seq<FileInfo>, keep: seq<bool>)
    requires |files| == |keep| && AllHoldRecords(files) && Contiguous(Joined(files))
    ensures Joined(Kept(files, keep)) != [] ==> Joined(files) != [] && LastOf(Joined(Kept(files, keep))) <= LastOf(Joined(files))
    ensures (forall i :: 0 <= i < |keep| ==> !keep[i]) <==> Joined(Kept(files, keep)) == []
  {
    if files != [] {
      var n := |files| - 1;
      var front, last := Joined(files[..n]), files[n].log;
      ContiguousPart(front, last);
      ContiguousJoin(front, last);
      KeptLast(files[..n], keep[..n]);
      assert last[|last| - 1].sequence >= last[0].sequence;
      if keep[n] {
        JoinedNext(Kept(files[..n], keep[..n]), files[n]);
      } else {
        assert forall i | 0 <= i < n :: keep[..n][i] == keep[i];
      }
    }
  }

  /** With later records in place, the history that remains is gap-free exactly when
      only the oldest segments were removed: one failed removal before a successful
      one makes the next startup fail. */
  lemma {:induction false} RemovalLeavesHistoryIff(files: seq<FileInfo>, keep: seq<bool>, rest: Log)
    requires |files| == |keep| && AllHoldRecords(files) && rest != [] && Contiguous(Joined(files) + rest)
    ensures Contiguous(Joined(Kept(files, keep)) + rest) <==> OldestGone(keep)
  {
    if files == [] {
      assert Joined(Kept(files, keep)) + rest == Joined(files) + rest;
    } else {
      var n := |files| - 1;
      var front, last := files[..n], files[n].log;
      assert Joined(files) + rest == Joined(front) + (last + rest);
      if keep[n] {
        var before := keep[..n];
        RemovalLeavesHistoryIff(front, before, last + rest);
        JoinedNext(Kept(front, before), files[n]);
        assert Joined(Kept(files, keep)) + rest == Joined(Kept(front, before)) + (last + rest);
        LastKept(keep, n);
      } else {
        LastRemoved(files, keep, rest);
      }
    }
  }

  lemma LastKept(keep: seq<bool>, n: nat)
    requires |keep| == n + 1 && keep[n]
    ensures OldestGone(keep) <==> OldestGone(keep[..n])
  {
    var before := keep[..n];
    assert forall i | 0 <= i < n :: before[i] == keep[i];
  }

  /** What ends earlier than the records before `rest` leaves a gap. */
  lemma EarlierLeavesGap(whole: Log, kept: Log, rest: Log)
    requires Contiguous(whole + rest) && whole != [] && kept != [] && rest != [] && LastOf(kept) < LastOf(whole)
    ensures !Contiguous(kept + rest)
  {
    ContiguousPart(whole, rest);
    ContiguousJoin(whole, rest);
    if Contiguous(kept + rest) {
      ContiguousPart(kept, rest);
      ContiguousJoin(kept, rest);
    }
  }

  lemma EndsEarlier(front: Log, last: Log)
    requires Contiguous(front + last) && front != [] && last != []
    ensures LastOf(front) < LastOf(front + last)
  {
    var whole := front + last;
    assert whole[|front| - 1] == front[|front| - 1];
  }

  lemma LastRemoved(files: seq<FileInfo>, keep: seq<bool>, rest: Log)
    requires |files| == |keep| && files != [] && AllHoldRecords(files) && rest != [] && Contiguous(Joined(files) + rest)
    requires !keep[|keep| - 1]
    ensures Contiguous(Joined(Kept(files, keep)) + rest) <==> OldestGone(keep)
  {
    var n := |files| - 1;
    var before := keep[..n];
    var front, last, kept := Joined(files[..n]), files[n].log, Joined(Kept(files[..n], before));
    ContiguousPart(Joined(files), rest);
    ContiguousPart(front, last);
    KeptLast(files[..n], before);
    assert forall i | 0 <= i < n :: before[i] == keep[i];
    assert OldestGone(keep) <==> forall i :: 0 <= i < n ==> !before[i];
    if kept == [] {
      assert kept + rest == rest;
    } else {
      EndsEarlier(front, last);
      EarlierLeavesGap(front + last, kept, rest);
    }
  }

  // ---- A removal that fails before others succeed ----

  /** Three segments under a snapshot, and one more record. */
  ghost predicate Covered(s: World, h: seq<Committed>, f: Formats) {
    && Inv(s, f) && !s.up && |h| == 4 && s.history == h && s.base == 0 && s.ends == [1, 2, 3] && s.activeFrom == 3
    && s.active == FileOf(h, 3, 4, f) && s.snapshot.Some? && WatermarkOf(s.snapshot) == 3
  }

  /** Its running counterpart. */
  ghost predicate Covering(s: World, h: seq<Committed>) {
    && s.up && |h| == 4 && s.history == h && s.base == 0 && s.ends == [1, 2, 3] && s.activeFrom == 3
    && s.snapshot.Some? && WatermarkOf(s.snapshot) == 3
  }

  lemma CoveringNext(s: World, h: seq<Committed>, entries: seq<(Bytes, PersistentEntry)>, now: nat, f: Formats)
    requires Encoded(h, f) && |h| == 4 && Filled(s, h, 3, now) && ListsEntries(entries, Alive(StateAt(h[..3], 3), now))
    ensures Enabled(s, WriteTemp(entries), f)
    ensures Enabled(CrashSafety.Next(s, WriteTemp(entries), f), Install, f)
    ensures var t := CrashSafety.Next(CrashSafety.Next(s, WriteTemp(entries), f), Install, f);
      Enabled(t, Append(h[3]), f) && Covering(CrashSafety.Next(t, Append(h[3]), f), h)
  {
    assert CommittedOk(h[3], 4, f) && h[..3] + [h[3]] == h;
    assert s.ends == [1, 2, 3];
  }

  lemma CoveringReached(s: World, h: seq<Committed>, entries: seq<(Bytes, PersistentEntry)>, f: Formats) returns (steps: seq<CrashSafety.Step>)
    requires Init(s) && Encoded(h, f) && |h| == 4 && ListsEntries(entries, Alive(StateAt(h[..3], 3), s.now))
    ensures Run(s, steps, f) && Covering(Final(s, steps, f), h)
  {
    var filled := FilledReached(s, h, 3, f);
    CoveringNext(Final(s, filled, f), h, entries, s.now, f);
    var write, last := WriteTemp(entries), Append(h[3]);
    RunOneMore(s, filled, write, f);
    RunOneMore(s, filled + [write], Install, f);
    RunOneMore(s, filled + [write] + [Install], last, f);
    steps := filled + [write] + [Install] + [last];
  }

  lemma CoveredReached(s: World, h: seq<Committed>, entries: seq<(Bytes, PersistentEntry)>, f: Formats) returns (steps: seq<CrashSafety.Step>)
    requires Init(s) && Encoded(h, f) && |h| == 4 && ListsEntries(entries, Alive(StateAt(h[..3], 3), s.now))
    ensures Run(s, steps, f) && Covered(Final(s, steps, f), h, f)
  {
    var running := CoveringReached(s, h, entries, f);
    var t := Final(s, running, f);
    InitHolds(s, f);
    RunKeeps(s, running, f);
    var crash := Crash(|t.active|);
    CoveringCrashes(t, h, f);
    RunOneMore(s, running, crash, f);
    steps := running + [crash];
  }

  lemma CoveringCrashes(t: World, h: seq<Committed>, f: Formats)
    requires Inv(t, f) && Covering(t, h)
    ensures Enabled(t, Crash(|t.active|), f) && Covered(CrashSafety.Next(t, Crash(|t.active|), f), h, f)
  {
    FileLonger(t.history, t.activeFrom, t.durable, |t.history|, f);
    assert t.active[..|t.active|] == t.active;
    CrashKeeps(t, |t.active|, f);
  }

  /** What the clean-up leaves when the oldest segment cannot be removed. */
  lemma OneLeft(t: World, h: seq<Committed>, f: Formats) returns (left: Catalog)
    requires Covered(t, h, f)
    ensures Cleaned(t.ends, t.sealed, left, WatermarkOf(Chosen(t.snapshot, t.backup)), {2, 3}, f)
    ensures Lists([1], left) && 1 in left && InfoOf(left[1], f).Some?
    ensures InfoOf(left[1], f).value.log == LogIn(h, 0, 1) && !InfoOf(left[1], f).value.torn
  {
    LaidInfos(h, t.base, t.ends, t.sealed, f);
    LaidInfoAt(h, t.base, t.ends, t.sealed, 0, f);
    LastIsKept(t.ends, t.sealed, f);
    left := OldestOnly(t.ends, t.sealed);
  }

  lemma OldestOnly(ends: seq<nat>, sealed: Catalog) returns (left: Catalog)
    requires ends == [1, 2, 3] && Lists(ends, sealed)
    ensures left == map e | e in sealed && !(e <= 3 && e in {2, 3}) :: sealed[e]
    ensures Lists([1], left) && 1 in left && left[1] == sealed[1]
  {
    left := map e | e in sealed && !(e <= 3 && e in {2, 3}) :: sealed[e];
    forall e ensures e in left <==> e == 1 {
      assert e in sealed <==> e in ends;
    }
  }

  /** One segment, and an active file that does not go on where it ends. */
  lemma LeftIsRefused(left: Catalog, ends: seq<nat>, e: nat, first: FileInfo, active: Bytes, sequence: nat, chosen: Option<SnapshotFile>, f: Formats)
    requires ends == [e] && e in left && InfoOf(left[e], f) == Some(first) && !first.torn
    requires Contiguous(first.log) && first.log != [] && LastOf(first.log) + 1 != sequence
    requires InfoOf(active, f).Some? && FirstOf(InfoOf(active, f).value.log) == Some(sequence)
    ensures !Loadable(ends, left, active, chosen, f)
  {
    OneInfo(left, ends, e, first, f);
    GapInCatalog(ends, left, active, sequence, f);
  }

  lemma OneInfo(left: Catalog, ends: seq<nat>, e: nat, first: FileInfo, f: Formats)
    requires ends == [e] && e in left && InfoOf(left[e], f) == Some(first) && !first.torn
    ensures Readable(ends, left, f) && NoneTorn(InfosOf(ends, left, f)) && Joined(InfosOf(ends, left, f)) == first.log
  {
    var infos := InfosOf(ends, left, f);
    assert InfoOf(left[ends[0]], f) == Some(infos[0]);
    OneJoined(infos, first);
  }

  lemma OneJoined(infos: seq<FileInfo>, info: FileInfo)
    requires |infos| == 1 && infos[0] == info
    ensures Joined(infos) == info.log
  {
    var none: seq<FileInfo> := [];
    assert infos == none + [info];
    JoinedNext(none, info);
    assert Joined(none) + info.log == info.log;
  }

  /** Startup succeeds on such a directory. If the clean-up behind it then removes
      the second and third segment but not the first, what it leaves is refused by
      every later startup. */
  lemma FailedRemovalLosesDirectory(s: World, h: seq<Committed>, entries: seq<(Bytes, PersistentEntry)>, f: Formats)
    returns (steps: seq<CrashSafety.Step>, left: Catalog)
    requires Init(s) && Encoded(h, f) && |h| == 4 && ListsEntries(entries, Alive(StateAt(h[..3], 3), s.now))
    ensures Run(s, steps, f) && Enabled(Final(s, steps, f), Recover, f)
    ensures var t := Final(s, steps, f);
      && Cleaned(t.ends, t.sealed, left, WatermarkOf(Chosen(t.snapshot, t.backup)), {2, 3}, f)
      && Lists([1], left) && !Loadable([1], left, ValidPart(t.active, f), Chosen(t.snapshot, t.backup), f)
  {
    steps := CoveredReached(s, h, entries, f);
    var t := Final(s, steps, f);
    CrashRecovers(t, f);
    left := OneLeft(t, h, f);
    ValidWhole(h, t.activeFrom, |h|, f);
    WholeFile(h, t.activeFrom, |h|, f);
    LogRuns(h, 0, 1);
    LogRuns(h, t.activeFrom, |h|);
    LeftIsRefused(left, [1], 1, InfoOf(left[1], f).value, t.active, |h|, Chosen(t.snapshot, t.backup), f);
  }
}
