/** Durability as a step system: appends, syncs, seals, snapshot installation one
rename at a time, cleanup one segment at a time, and a crash at any point that
keeps any byte prefix of the unsynced part of the active file. */
module CrashSafety {
  import opened Model
  import opened Wire
  import opened Framing
  import opened Scan
  import opened Logs
  import opened History
  import opened Recovery
  import opened Directories
  import opened Ranges

  /** `base`, `activeFrom` and `durable` are bookkeeping about the bytes: the first
      segment starts after `base`, the active file after `activeFrom`, and every
      record up to `durable` is known to be synced. */
  datatype World = World(
    up: bool,
    now: nat,
    history: seq<Committed>,
    base: nat,
    ends: seq<nat>,
    sealed: Catalog,
    activeFrom: nat,
    active: Bytes,
    durable: nat,
    temp: Option<SnapshotFile>,
    snapshot: Option<SnapshotFile>,
    backup: Option<SnapshotFile>)

  datatype Step =
    | Append(committed: Committed)
    | Sync
    | Seal
    | WriteTemp(entries: seq<(Bytes, PersistentEntry)>)
    | MoveAside
    | Install
    | MoveBack
    | RemoveSegment
    | Tick(seconds: nat)
    | Crash(cut: nat)
    | Recover

  // ---- Snapshots that stand for a prefix of the history ----

  /** From `since` on, loading the entries gives the live part of the view. */
  ghost predicate Faithful(entries: seq<(Bytes, PersistentEntry)>, view: View, since: nat) {
    forall t :: t >= since ==> Loaded(entries, t) == Alive(view, t)
  }

  ghost predicate SnapshotOk(file: Option<SnapshotFile>, h: seq<Committed>, limit: nat, now: nat) {
    file.Some? ==>
      && file.value.Versioned? && file.value.watermark <= limit && file.value.watermark <= |h|
      && Faithful(file.value.entries, StateAt(h, file.value.watermark), now)
  }

  /** Each entry of the view once, in any order. */
  ghost predicate ListsEntries(entries: seq<(Bytes, PersistentEntry)>, view: View) {
    && (forall i :: 0 <= i < |entries| ==> entries[i].0 in view && view[entries[i].0] == entries[i].1)
    && (forall i, j :: 0 <= i < j < |entries| ==> entries[i].0 != entries[j].0)
    && (forall k :: k in view ==> exists i :: 0 <= i < |entries| && entries[i].0 == k)
  }

  ghost predicate Gathered(entries: seq<(Bytes, PersistentEntry)>, n: nat, loaded: View, t: nat)
    requires n <= |entries|
  {
    && (forall i :: 0 <= i < n && Unexpired(entries[i].1.expiresAt, t) ==> entries[i].0 in loaded && loaded[entries[i].0] == entries[i].1)
    && (forall k :: k in loaded ==> exists i :: 0 <= i < n && entries[i].0 == k && Unexpired(entries[i].1.expiresAt, t))
  }

  lemma {:induction false} LoadedGathers(entries: seq<(Bytes, PersistentEntry)>, n: nat, t: nat)
    requires n <= |entries| && forall i, j :: 0 <= i < j < |entries| ==> entries[i].0 != entries[j].0
    ensures Gathered(entries, n, Loaded(entries[..n], t), t)
  {
    if n > 0 {
      LoadedGathers(entries, n - 1, t);
      assert entries[..n][..n - 1] == entries[..n - 1];
      var before := Loaded(entries[..n - 1], t);
      forall k | k in Loaded(entries[..n], t)
        ensures exists i :: 0 <= i < n && entries[i].0 == k && Unexpired(entries[i].1.expiresAt, t)
      {
        if k in before {
          var i :| 0 <= i < n - 1 && entries[i].0 == k && Unexpired(entries[i].1.expiresAt, t);
        } else {
          assert entries[n - 1].0 == k;
        }
      }
    }
  }

  /** A snapshot that lists the live entries at capture stays faithful. */
  lemma ListedIsFaithful(entries: seq<(Bytes, PersistentEntry)>, view: View, captured: nat)
    requires ListsEntries(entries, Alive(view, captured))
    ensures Faithful(entries, view, captured)
  {
    forall t | t >= captured ensures Loaded(entries, t) == Alive(view, t) {
      LoadedGathers(entries, |entries|, t);
      assert entries[..|entries|] == entries;
      var loaded := Loaded(entries, t);
      forall k | k in Alive(view, t) ensures k in loaded && loaded[k] == view[k] {
        assert k in Alive(view, captured);
        var i :| 0 <= i < |entries| && entries[i].0 == k;
      }
      forall k | k in loaded ensures k in Alive(view, t) {
        var i :| 0 <= i < |entries| && entries[i].0 == k && Unexpired(entries[i].1.expiresAt, t);
      }
    }
  }

  // ---- Steps ----

  ghost predicate Enabled(s: World, step: Step, f: Formats) {
    match step
    case Append(c) => s.up && CommittedOk(c, |s.history| + 1, f)
    case Sync => s.up
    case Seal => s.up && s.active != [] && |s.ends| < MAX_BINLOG_SEGMENTS
    case WriteTemp(entries) => s.up && ListsEntries(entries, Alive(StateAt(s.history, |s.history|), s.now))
    case MoveAside => s.up && s.temp.Some? && s.snapshot.Some?
    case Install => s.up && s.temp.Some? && s.snapshot.None? && Guard(s)
    case MoveBack => s.up && s.snapshot.None? && s.backup.Some?
    case RemoveSegment => s.up && s.ends != [] && s.ends[0] <= WatermarkOf(Chosen(s.snapshot, s.backup))
    case Tick(_) => true
    case Crash(cut) => s.up && s.activeFrom <= s.durable <= |s.history|
      && |FileOf(s.history, s.activeFrom, s.durable, f)| <= cut <= |s.active|
    case Recover => !s.up && Loadable(s.ends, s.sealed, s.active, Chosen(s.snapshot, s.backup), f)
  }

  /** A snapshot may replace the log up to its watermark only when the log up to
      there is on disk. */
  predicate Guard(s: World) {
    WatermarkOf(s.temp) <= s.durable
  }

  /** What recovery computes for a directory. */
  ghost function Startup(s: World, f: Formats): RecoveryState {
    Recovered(Chosen(s.snapshot, s.backup), HistoryLog(s.ends, s.sealed, s.active, f), s.now)
  }

  /** Recovery syncs the active file only when it cuts off a torn tail; otherwise
      the records it reads stay as durable as they were. */
  ghost function Next(s: World, step: Step, f: Formats): World
    requires Enabled(s, step, f)
  {
    match step
    case Append(c) => s.(history := s.history + [c], active := s.active + Frame(RecordBytes(|s.history| + 1, c.payload, f.crc)))
    case Sync => s.(durable := |s.history|)
    case Seal =>
      var end := |s.history|;
      s.(ends := s.ends + [end], sealed := s.sealed[end := s.active], active := [], activeFrom := end, durable := end)
    case WriteTemp(entries) => s.(temp := Some(Versioned(|s.history|, entries)))
    case MoveAside => s.(backup := s.snapshot, snapshot := None)
    case Install => s.(snapshot := s.temp, temp := None)
    case MoveBack => s.(snapshot := s.backup, backup := None)
    case RemoveSegment => s.(base := s.ends[0], sealed := s.sealed - {s.ends[0]}, ends := s.ends[1..])
    case Tick(seconds) => s.(now := s.now + seconds)
    case Crash(cut) => s.(up := false, active := s.active[..cut], temp := None)
    case Recover =>
      var n := Startup(s, f).lastSequence;
      s.(up := true, active := ValidPart(s.active, f),
         durable := if InfoOf(s.active, f).value.torn then n else s.durable,
         history := if n <= |s.history| then s.history[..n] else s.history)
  }

  // ---- The invariant ----

  function Lo(base: nat, ends: seq<nat>, i: nat): nat
    requires i <= |ends|
  {
    if i == 0 then base else ends[i - 1]
  }

  /** Segment `i` is the whole file of the records between two ends. */
  ghost predicate SegmentAt(h: seq<Committed>, base: nat, ends: seq<nat>, sealed: Catalog, i: nat, f: Formats)
    requires i < |ends|
  {
    Lo(base, ends, i) < ends[i] <= |h| && ends[i] in sealed && sealed[ends[i]] == FileOf(h, Lo(base, ends, i), ends[i], f)
  }

  ghost predicate Laid(h: seq<Committed>, base: nat, ends: seq<nat>, sealed: Catalog, f: Formats) {
    Lists(ends, sealed) && forall i :: 0 <= i < |ends| ==> SegmentAt(h, base, ends, sealed, i, f)
  }

  /** The active file: whole while running, cut somewhere behind the synced part
      after a crash. */
  ghost predicate ActiveOk(s: World, f: Formats)
    requires s.activeFrom <= s.durable <= |s.history|
  {
    var whole := FileOf(s.history, s.activeFrom, |s.history|, f);
    if s.up then s.active == whole
    else
      && |FileOf(s.history, s.activeFrom, s.durable, f)| <= |s.active| <= |whole|
      && s.active == whole[..|s.active|]
  }

  /** Installed snapshots are covered by synced log; the one being prepared stands
      for a later point of the history. */
  ghost predicate SnapshotsOk(s: World) {
    && SnapshotOk(s.snapshot, s.history, s.durable, s.now) && SnapshotOk(s.backup, s.history, s.durable, s.now)
    && SnapshotOk(s.temp, s.history, |s.history|, s.now) && (!s.up ==> s.temp.None?)
    && (s.temp.Some? ==> WatermarkOf(Chosen(s.snapshot, s.backup)) <= WatermarkOf(s.temp))
  }

  ghost predicate Inv(s: World, f: Formats) {
    && Encoded(s.history, f)
    && Laid(s.history, s.base, s.ends, s.sealed, f) && |s.ends| <= MAX_BINLOG_SEGMENTS
    && s.activeFrom == Lo(s.base, s.ends, |s.ends|) && s.activeFrom <= s.durable <= |s.history|
    && ActiveOk(s, f)
    && SnapshotsOk(s)
    && s.base <= WatermarkOf(Chosen(s.snapshot, s.backup))
  }

  ghost predicate Init(s: World) {
    s.up && s.history == [] && s.base == s.activeFrom == s.durable == 0 && s.ends == [] && s.sealed == map[] && s.active == []
    && s.temp == s.snapshot == s.backup == None
  }

  lemma InitHolds(s: World, f: Formats)
    requires Init(s)
    ensures Inv(s, f)
  {
  }

  // ---- What carries over from one history to another ----

  lemma SnapshotCarries(file: Option<SnapshotFile>, h: seq<Committed>, limit: nat, now: nat, k: seq<Committed>, limit': nat, now': nat)
    requires SnapshotOk(file, h, limit, now) && now <= now' && WatermarkOf(file) <= limit' && WatermarkOf(file) <= |k|
    requires file.Some? ==> h[..WatermarkOf(file)] == k[..WatermarkOf(file)]
    ensures SnapshotOk(file, k, limit', now')
  {
    if file.Some? {
      SameState(h, k, file.value.watermark);
    }
  }

  lemma LaidCarries(h: seq<Committed>, k: seq<Committed>, base: nat, ends: seq<nat>, sealed: Catalog, f: Formats)
    requires Laid(h, base, ends, sealed, f)
    requires var top := Lo(base, ends, |ends|); top <= |k| && top <= |h| && h[..top] == k[..top]
    ensures Laid(k, base, ends, sealed, f)
  {
    var top := Lo(base, ends, |ends|);
    forall i | 0 <= i < |ends| ensures SegmentAt(k, base, ends, sealed, i, f) {
      assert SegmentAt(h, base, ends, sealed, i, f);
      assert ends[i] <= top;
      assert h[..ends[i]] == h[..top][..ends[i]] && k[..ends[i]] == k[..top][..ends[i]];
      SameFile(h, k, Lo(base, ends, i), ends[i], f);
    }
  }

  /** Time passes and the history grows, or shrinks to its durable part. */
  lemma SnapshotsCarry(s: World, t: World)
    requires SnapshotsOk(s) && s.now <= t.now && (s.temp.Some? ==> s.durable <= |s.history| <= |t.history|)
    requires s.durable <= t.durable <= |t.history| && s.durable <= |s.history|
    requires t.snapshot == s.snapshot && t.backup == s.backup && t.temp == s.temp && (s.temp.Some? ==> t.up)
    requires forall n :: 0 <= n <= |s.history| && n <= |t.history| ==> s.history[..n] == t.history[..n]
    ensures SnapshotsOk(t)
  {
    SnapshotCarries(s.snapshot, s.history, s.durable, s.now, t.history, t.durable, t.now);
    SnapshotCarries(s.backup, s.history, s.durable, s.now, t.history, t.durable, t.now);
    SnapshotCarries(s.temp, s.history, |s.history|, s.now, t.history, |t.history|, t.now);
  }

  // ---- Every step keeps the invariant ----

  lemma EncodedGrows(h: seq<Committed>, c: Committed, f: Formats)
    requires Encoded(h, f) && CommittedOk(c, |h| + 1, f)
    ensures Encoded(h + [c], f)
  {
    var k := h + [c];
    forall i | 0 <= i < |k| ensures CommittedOk(k[i], i + 1, f) {
    }
  }

  lemma AppendKeeps(s: World, c: Committed, f: Formats)
    requires Inv(s, f) && Enabled(s, Append(c), f)
    ensures Inv(Next(s, Append(c), f), f)
  {
    var h, k := s.history, s.history + [c];
    assert forall n | 0 <= n <= |h| :: h[..n] == k[..n];
    LaidCarries(h, k, s.base, s.ends, s.sealed, f);
    SnapshotsCarry(s, Next(s, Append(c), f));
    FileGrows(h, c, s.activeFrom, f);
    EncodedGrows(h, c, f);
  }

  lemma SyncKeeps(s: World, f: Formats)
    requires Inv(s, f) && Enabled(s, Sync, f)
    ensures Inv(Next(s, Sync, f), f)
  {
  }

  lemma SealKeeps(s: World, f: Formats)
    requires Inv(s, f) && Enabled(s, Seal, f)
    ensures Inv(Next(s, Seal, f), f)
  {
    var end := |s.history|;
    EmptyFile(s.history, s.activeFrom, end, f);
    LaidSeal(s.history, s.base, s.ends, s.sealed, s.active, f);
    EmptyFile(s.history, end, end, f);
  }

  lemma EmptyFile(h: seq<Committed>, lo: nat, hi: nat, f: Formats)
    requires lo <= hi <= |h|
    ensures FileOf(h, lo, hi, f) == [] <==> lo == hi
  {
    if lo < hi {
      FileLonger(h, lo, hi, hi, f);
    }
  }

  lemma LaidSeal(h: seq<Committed>, base: nat, ends: seq<nat>, sealed: Catalog, file: Bytes, f: Formats)
    requires Laid(h, base, ends, sealed, f) && Lo(base, ends, |ends|) < |h|
    requires file == FileOf(h, Lo(base, ends, |ends|), |h|, f)
    ensures Laid(h, base, ends + [|h|], sealed[|h| := file], f)
  {
    var ends', sealed' := ends + [|h|], sealed[|h| := file];
    ListsNext(ends, sealed, |h|, file);
    forall i | 0 <= i < |ends'| ensures SegmentAt(h, base, ends', sealed', i, f) {
      assert Lo(base, ends', i) == Lo(base, ends, i);
      if i < |ends| {
        assert SegmentAt(h, base, ends, sealed, i, f);
        assert ends[i] < |h|;
      }
    }
  }

  lemma LaidTail(h: seq<Committed>, base: nat, ends: seq<nat>, sealed: Catalog, f: Formats)
    requires Laid(h, base, ends, sealed, f) && ends != []
    ensures Laid(h, ends[0], ends[1..], sealed - {ends[0]}, f)
    ensures Lo(ends[0], ends[1..], |ends| - 1) == Lo(base, ends, |ends|)
  {
    var tail, rest := ends[1..], sealed - {ends[0]};
    ListsTail(ends, sealed);
    forall i | 0 <= i < |tail| ensures SegmentAt(h, ends[0], tail, rest, i, f) {
      assert SegmentAt(h, base, ends, sealed, i + 1, f);
      assert Lo(ends[0], tail, i) == Lo(base, ends, i + 1);
    }
  }

  lemma WriteTempKeeps(s: World, entries: seq<(Bytes, PersistentEntry)>, f: Formats)
    requires Inv(s, f) && Enabled(s, WriteTemp(entries), f)
    ensures Inv(Next(s, WriteTemp(entries), f), f)
  {
    ListedIsFaithful(entries, StateAt(s.history, |s.history|), s.now);
  }

  lemma RenamesKeep(s: World, step: Step, f: Formats)
    requires Inv(s, f) && (step.MoveAside? || step.Install? || step.MoveBack?) && Enabled(s, step, f)
    ensures Inv(Next(s, step, f), f)
  {
  }

  lemma RemoveKeeps(s: World, f: Formats)
    requires Inv(s, f) && Enabled(s, RemoveSegment, f)
    ensures Inv(Next(s, RemoveSegment, f), f)
  {
    LaidTail(s.history, s.base, s.ends, s.sealed, f);
  }

  lemma TickKeeps(s: World, seconds: nat, f: Formats)
    requires Inv(s, f)
    ensures Inv(Next(s, Tick(seconds), f), f)
  {
    SnapshotsCarry(s, Next(s, Tick(seconds), f));
  }

  lemma CrashKeeps(s: World, cut: nat, f: Formats)
    requires Inv(s, f) && Enabled(s, Crash(cut), f)
    ensures Inv(Next(s, Crash(cut), f), f)
  {
  }

  // ---- What recovery finds ----

  /** `infos` are the consecutive ranges between the ends. */
  ghost predicate Spans(h: seq<Committed>, base: nat, ends: seq<nat>, infos: seq<FileInfo>) {
    && |infos| == |ends| && base <= |h|
    && forall i :: 0 <= i < |ends| ==> SpanAt(h, base, ends, infos, i)
  }

  ghost predicate SpanAt(h: seq<Committed>, base: nat, ends: seq<nat>, infos: seq<FileInfo>, i: nat)
    requires i < |ends| && |infos| == |ends|
  {
    Lo(base, ends, i) < ends[i] <= |h| && infos[i].log == LogIn(h, Lo(base, ends, i), ends[i])
  }

  lemma SpansSegments(h: seq<Committed>, base: nat, ends: seq<nat>, infos: seq<FileInfo>)
    requires Spans(h, base, ends, infos)
    ensures SegmentsOk(ends, infos)
  {
    forall i | 0 <= i < |ends| ensures SegmentOk(ends[i], infos[i]) {
      assert SpanAt(h, base, ends, infos, i);
      LogRuns(h, Lo(base, ends, i), ends[i]);
    }
  }

  lemma {:induction false} SpansJoined(h: seq<Committed>, base: nat, ends: seq<nat>, infos: seq<FileInfo>, n: nat)
    requires Spans(h, base, ends, infos) && n <= |ends|
    ensures base <= Lo(base, ends, n) <= |h|
    ensures Joined(infos[..n]) == LogIn(h, base, Lo(base, ends, n))
  {
    if n > 0 {
      SpansJoined(h, base, ends, infos, n - 1);
      assert SpanAt(h, base, ends, infos, n - 1);
      assert infos[..n] == infos[..n - 1] + [infos[n - 1]];
      JoinedNext(infos[..n - 1], infos[n - 1]);
      LogSplits(h, base, Lo(base, ends, n - 1), ends[n - 1]);
    }
  }

  lemma LogSplits(h: seq<Committed>, lo: nat, mid: nat, hi: nat)
    requires lo <= mid <= hi <= |h|
    ensures LogIn(h, lo, hi) == LogIn(h, lo, mid) + LogIn(h, mid, hi)
  {
  }

  lemma LaidInfoAt(h: seq<Committed>, base: nat, ends: seq<nat>, sealed: Catalog, i: nat, f: Formats)
    requires Laid(h, base, ends, sealed, f) && Encoded(h, f) && i < |ends|
    ensures ends[i] in sealed && Lo(base, ends, i) < ends[i] <= |h| && InfoOf(sealed[ends[i]], f).Some?
    ensures InfoOf(sealed[ends[i]], f).value.log == LogIn(h, Lo(base, ends, i), ends[i])
    ensures !InfoOf(sealed[ends[i]], f).value.torn
  {
    assert SegmentAt(h, base, ends, sealed, i, f);
    WholeFile(h, Lo(base, ends, i), ends[i], f);
  }

  lemma LaidInfos(h: seq<Committed>, base: nat, ends: seq<nat>, sealed: Catalog, f: Formats)
    requires Laid(h, base, ends, sealed, f) && Encoded(h, f) && base <= |h|
    ensures Readable(ends, sealed, f) && NoneTorn(InfosOf(ends, sealed, f))
    ensures Spans(h, base, ends, InfosOf(ends, sealed, f))
  {
    forall i | 0 <= i < |ends| ensures ends[i] in sealed && InfoOf(sealed[ends[i]], f).Some? {
      LaidInfoAt(h, base, ends, sealed, i, f);
    }
    var infos := InfosOf(ends, sealed, f);
    forall i | 0 <= i < |ends| ensures SpanAt(h, base, ends, infos, i) && !infos[i].torn {
      LaidInfoAt(h, base, ends, sealed, i, f);
    }
  }

  lemma {:induction false} LaidAscends(h: seq<Committed>, base: nat, ends: seq<nat>, sealed: Catalog, n: nat, f: Formats)
    requires Laid(h, base, ends, sealed, f) && n <= |ends|
    ensures base <= Lo(base, ends, n)
  {
    if n > 0 {
      LaidAscends(h, base, ends, sealed, n - 1, f);
      assert SegmentAt(h, base, ends, sealed, n - 1, f);
    }
  }

  /** A cut behind the file of some records keeps all of them whole. */
  lemma KeepsWhole(h: seq<Committed>, lo: nat, durable: nat, cut: nat, m: nat, f: Formats)
    requires lo <= durable <= |h| && |FileOf(h, lo, durable, f)| <= cut
    requires WholeRecords(RecordsIn(h, lo, |h|, f), cut, m)
    ensures durable <= lo + m
  {
    var n := lo + m;
    if n < durable {
      RecordsPrefix(h, lo, n + 1, |h|, f);
      FileLonger(h, lo, n + 1, durable, f);
    }
  }

  /** How many records a cut leaves, and what inspection finds of them. */
  lemma CutSurvivors(h: seq<Committed>, lo: nat, active: Bytes, f: Formats) returns (n: nat)
    requires Encoded(h, f) && lo <= |h| && |active| <= |FileOf(h, lo, |h|, f)| && active == FileOf(h, lo, |h|, f)[..|active|]
    ensures lo <= n <= |h| && WholeRecords(RecordsIn(h, lo, |h|, f), |active|, n - lo)
    ensures |FileOf(h, lo, n, f)| <= |active| && ValidPart(active, f) == FileOf(h, lo, n, f)
    ensures InfoOf(active, f).Some? && InfoOf(active, f).value.log == LogIn(h, lo, n)
  {
    var m := WholeRecordsExist(RecordsIn(h, lo, |h|, f), |active|);
    n := lo + m;
    CutFile(h, lo, |h|, |active|, m, f);
    var whole := FileOf(h, lo, n, f);
    assert active[..|whole|] == FileOf(h, lo, |h|, f)[..|whole|];
  }

  /** How many records survive: at least the durable ones. */
  lemma Survivors(s: World, f: Formats) returns (n: nat)
    requires Inv(s, f) && !s.up
    ensures s.durable <= n <= |s.history|
    ensures ValidPart(s.active, f) == FileOf(s.history, s.activeFrom, n, f)
    ensures InfoOf(s.active, f).Some? && InfoOf(s.active, f).value.log == LogIn(s.history, s.activeFrom, n)
  {
    n := CutSurvivors(s.history, s.activeFrom, s.active, f);
    KeepsWhole(s.history, s.activeFrom, s.durable, |s.active|, n - s.activeFrom, f);
  }

  lemma CatalogOfSound(ends: seq<nat>, sealed: Catalog, active: Bytes, f: Formats)
    requires Readable(ends, sealed, f) && InfoOf(active, f).Some? && |ends| <= MAX_BINLOG_SEGMENTS
    requires Sound(ends, InfosOf(ends, sealed, f), InfoOf(active, f).value)
    ensures CatalogOk(ends, sealed, active, f)
  {
    SoundIsOk(ends, InfosOf(ends, sealed, f), InfoOf(active, f).value);
  }

  /** After any crash the catalog is admissible and holds a prefix of the history. */
  lemma CrashedCatalog(s: World, f: Formats) returns (n: nat)
    requires Inv(s, f) && !s.up
    ensures s.base <= s.durable <= n <= |s.history| && ValidPart(s.active, f) == FileOf(s.history, s.activeFrom, n, f)
    ensures CatalogOk(s.ends, s.sealed, s.active, f)
    ensures HistoryLog(s.ends, s.sealed, s.active, f) == LogIn(s.history, s.base, n)
  {
    n := Survivors(s, f);
    LaidAscends(s.history, s.base, s.ends, s.sealed, |s.ends|, f);
    LaidInfos(s.history, s.base, s.ends, s.sealed, f);
    CrashedJoined(s.history, s.base, s.ends, InfosOf(s.ends, s.sealed, f), InfoOf(s.active, f).value, n);
    CatalogOfSound(s.ends, s.sealed, s.active, f);
  }

  lemma CrashedJoined(h: seq<Committed>, base: nat, ends: seq<nat>, infos: seq<FileInfo>, info: FileInfo, n: nat)
    requires Spans(h, base, ends, infos) && NoneTorn(infos) && Lo(base, ends, |ends|) <= n <= |h|
    requires info.log == LogIn(h, Lo(base, ends, |ends|), n)
    ensures base <= n && Joined(infos + [info]) == LogIn(h, base, n) && Sound(ends, infos, info)
  {
    SpansSegments(h, base, ends, infos);
    SpansJoined(h, base, ends, infos, |ends|);
    assert infos[..|ends|] == infos;
    JoinedNext(infos, info);
    LogSplits(h, base, Lo(base, ends, |ends|), n);
    LogRuns(h, base, n);
  }

  /** Loading a faithful snapshot and replaying the rest gives the live part of the
      history's state. */
  lemma ReplayedState(h: seq<Committed>, base: nat, n: nat, chosen: Option<SnapshotFile>, now: nat)
    requires base <= WatermarkOf(chosen) <= n <= |h| && SnapshotOk(chosen, h, n, now)
    ensures var r := Recovered(chosen, LogIn(h, base, n), now);
      && r.lastSequence == n && r.replayed == n - WatermarkOf(chosen)
      && Alive(r.contents, now) == Alive(StateAt(h, n), now)
  {
    var w := WatermarkOf(chosen);
    ReplayedRange(h, base, w, n);
    LogRuns(h, base, n);
    var loaded := Loaded(EntriesOf(chosen), now);
    LoadedIsState(h, chosen, n, now);
    ApplyAllAlive(loaded, StateAt(h, w), BatchesIn(h, w, n), now);
    StateSplits(h, w, n);
  }

  /** Replay takes exactly the range above the watermark. */
  lemma ReplayedRange(h: seq<Committed>, base: nat, w: nat, n: nat)
    requires base <= w <= n <= |h|
    ensures After(LogIn(h, base, n), w) == LogIn(h, w, n)
    ensures BatchesOf(After(LogIn(h, base, n), w)) == BatchesIn(h, w, n)
  {
    LogRuns(h, base, n);
    AfterIsSuffix(LogIn(h, base, n), w);
    RangeTail(h, base, w, n);
  }

  lemma RangeTail(h: seq<Committed>, base: nat, w: nat, n: nat)
    requires base <= w <= n <= |h|
    ensures LogIn(h, base, n)[w - base..] == LogIn(h, w, n) && BatchesOf(LogIn(h, w, n)) == BatchesIn(h, w, n)
  {
  }

  lemma LoadedIsState(h: seq<Committed>, chosen: Option<SnapshotFile>, limit: nat, now: nat)
    requires SnapshotOk(chosen, h, limit, now) && WatermarkOf(chosen) <= |h|
    ensures Alive(Loaded(EntriesOf(chosen), now), now) == Alive(StateAt(h, WatermarkOf(chosen)), now)
  {
    if chosen.Some? {
      var view := StateAt(h, chosen.value.watermark);
      assert Loaded(chosen.value.entries, now) == Alive(view, now);
      AliveTwice(view, now, now);
    } else {
      assert Loaded([], now) == map[];
      assert BatchesIn(h, 0, 0) == [];
    }
  }

  /** The main result about one crash: startup succeeds, keeps everything that was
      synced, and recovers exactly the state of the surviving prefix. */
  lemma CrashRecovers(s: World, f: Formats)
    requires Inv(s, f) && !s.up
    ensures Enabled(s, Recover, f)
    ensures var r := Startup(s, f);
      && s.durable <= r.lastSequence <= |s.history|
      && Alive(r.contents, s.now) == Alive(StateAt(s.history, r.lastSequence), s.now)
      && ValidPart(s.active, f) == FileOf(s.history, s.activeFrom, r.lastSequence, f)
  {
    var n := CrashedCatalog(s, f);
    var chosen := Chosen(s.snapshot, s.backup);
    SnapshotCarries(chosen, s.history, s.durable, s.now, s.history, n, s.now);
    ReplayedState(s.history, s.base, n, chosen, s.now);
    LogRuns(s.history, s.base, n);
    assert Reaches(LogIn(s.history, s.base, n), WatermarkOf(chosen));
  }

  /** Going on with a shorter history that keeps all that was durable. */
  lemma TruncationKeeps(s: World, n: nat, t: World, f: Formats)
    requires Inv(s, f) && !s.up && s.durable <= t.durable <= n <= |s.history|
    requires t == s.(up := true, active := FileOf(s.history, s.activeFrom, n, f), durable := t.durable, history := s.history[..n])
    ensures Inv(t, f)
  {
    var h, k := s.history, t.history;
    assert forall m | 0 <= m <= n :: h[..m] == k[..m];
    LaidCarries(h, k, s.base, s.ends, s.sealed, f);
    SameFile(h, k, s.activeFrom, n, f);
    SnapshotsCarry(s, t);
    forall i | 0 <= i < |k| ensures CommittedOk(k[i], i + 1, f) {
      assert CommittedOk(h[i], i + 1, f);
    }
  }

  lemma RecoverKeeps(s: World, f: Formats)
    requires Inv(s, f) && Enabled(s, Recover, f)
    ensures Inv(Next(s, Recover, f), f)
  {
    CrashRecovers(s, f);
    TruncationKeeps(s, Startup(s, f).lastSequence, Next(s, Recover, f), f);
  }

  lemma StepKeeps(s: World, step: Step, f: Formats)
    requires Inv(s, f) && Enabled(s, step, f)
    ensures Inv(Next(s, step, f), f)
  {
    match step
    case Append(c) => AppendKeeps(s, c, f);
    case Sync => SyncKeeps(s, f);
    case Seal => SealKeeps(s, f);
    case WriteTemp(entries) => WriteTempKeeps(s, entries, f);
    case MoveAside => RenamesKeep(s, step, f);
    case Install => RenamesKeep(s, step, f);
    case MoveBack => RenamesKeep(s, step, f);
    case RemoveSegment => RemoveKeeps(s, f);
    case Tick(seconds) => TickKeeps(s, seconds, f);
    case Crash(cut) => CrashKeeps(s, cut, f);
    case Recover => RecoverKeeps(s, f);
  }

  // ---- Whole runs ----

  ghost predicate Run(s: World, steps: seq<Step>, f: Formats)
    decreases |steps|
  {
    steps == [] || (Enabled(s, steps[0], f) && Run(Next(s, steps[0], f), steps[1..], f))
  }

  ghost function Final(s: World, steps: seq<Step>, f: Formats): World
    requires Run(s, steps, f)
    decreases |steps|
  {
    if steps == [] then s else Final(Next(s, steps[0], f), steps[1..], f)
  }

  lemma {:induction false} RunOneMore(s: World, steps: seq<Step>, step: Step, f: Formats)
    requires Run(s, steps, f) && Enabled(Final(s, steps, f), step, f)
    ensures Run(s, steps + [step], f) && Final(s, steps + [step], f) == Next(Final(s, steps, f), step, f)
    decreases |steps|
  {
    var grown := steps + [step];
    if steps == [] {
      assert grown[1..] == [];
    } else {
      assert grown[1..] == steps[1..] + [step];
      RunOneMore(Next(s, steps[0], f), steps[1..], step, f);
    }
  }

  lemma {:induction false} RunKeeps(s: World, steps: seq<Step>, f: Formats)
    requires Inv(s, f) && Run(s, steps, f)
    ensures Inv(Final(s, steps, f), f)
    decreases |steps|
  {
    if steps != [] {
      StepKeeps(s, steps[0], f);
      RunKeeps(Next(s, steps[0], f), steps[1..], f);
    }
  }

  /** Crash safety of every run, with crashes and recoveries anywhere in it: at any
      crash, startup succeeds and yields the state of a prefix of the committed
      history that contains everything synced. */
  lemma EveryRunRecovers(s: World, steps: seq<Step>, f: Formats)
    requires Init(s) && Run(s, steps, f) && !Final(s, steps, f).up
    ensures var t := Final(s, steps, f); var r := Startup(t, f);
      && Loadable(t.ends, t.sealed, t.active, Chosen(t.snapshot, t.backup), f)
      && t.durable <= r.lastSequence <= |t.history|
      && Alive(r.contents, t.now) == Alive(StateAt(t.history, r.lastSequence), t.now)
  {
    InitHolds(s, f);
    RunKeeps(s, steps, f);
    CrashRecovers(Final(s, steps, f), f);
  }

  /** Everything durable in `s` is the same in `t`, and still durable. */
  ghost predicate KeepsDurable(s: World, t: World) {
    s.durable <= |s.history| && s.durable <= t.durable <= |t.history| && t.history[..s.durable] == s.history[..s.durable]
  }

  lemma KeepsDurableTwice(s: World, t: World, u: World)
    requires KeepsDurable(s, t) && KeepsDurable(t, u)
    ensures KeepsDurable(s, u)
  {
    var n, m := s.durable, t.durable;
    assert u.history[..n] == u.history[..m][..n] && t.history[..n] == t.history[..m][..n];
  }

  lemma PrefixKeepsDurable(s: World, n: nat, t: World)
    requires s.durable <= t.durable <= n <= |s.history| && t.history == s.history[..n]
    ensures KeepsDurable(s, t)
  {
    assert s.history[..n][..s.durable] == s.history[..s.durable];
  }

  lemma RecoveryKeepsDurable(s: World, f: Formats)
    requires Inv(s, f) && Enabled(s, Recover, f)
    ensures KeepsDurable(s, Next(s, Recover, f))
  {
    CrashRecovers(s, f);
    PrefixKeepsDurable(s, Startup(s, f).lastSequence, Next(s, Recover, f));
  }

  lemma RunningKeepsDurable(s: World, step: Step, f: Formats)
    requires Inv(s, f) && Enabled(s, step, f) && !step.Recover?
    ensures KeepsDurable(s, Next(s, step, f))
  {
    if step.Append? {
      assert (s.history + [step.committed])[..s.durable] == s.history[..s.durable];
    }
  }

  lemma StepKeepsDurable(s: World, step: Step, f: Formats)
    requires Inv(s, f) && Enabled(s, step, f)
    ensures KeepsDurable(s, Next(s, step, f))
  {
    if step.Recover? {
      RecoveryKeepsDurable(s, f);
    } else {
      RunningKeepsDurable(s, step, f);
    }
  }

  /** What was synced once is part of the history for ever, across any number of
      crashes. */
  lemma {:induction false} SyncedSurvives(s: World, steps: seq<Step>, f: Formats)
    requires Inv(s, f) && Run(s, steps, f)
    ensures KeepsDurable(s, Final(s, steps, f))
    decreases |steps|
  {
    if steps != [] {
      var t := Next(s, steps[0], f);
      StepKeepsDurable(s, steps[0], f);
      StepKeeps(s, steps[0], f);
      SyncedSurvives(t, steps[1..], f);
      KeepsDurableTwice(s, t, Final(s, steps, f));
    }
  }

  // ---- The recovery code on the files that a crash has left ----

  function Without(sealed: Catalog, gone: seq<nat>): Catalog {
    map e | e in sealed && e !in gone :: sealed[e]
  }

  function Removals(k: nat): seq<Step> { seq(k, _ => RemoveSegment) }

  /** How far covered segments can be removed, up to a limit. */
  ghost predicate Removed(s: World, limit: nat, k: nat) {
    && k <= limit <= |s.ends|
    && (forall i :: 0 <= i < k ==> s.ends[i] <= WatermarkOf(Chosen(s.snapshot, s.backup)))
    && (k < limit ==> WatermarkOf(Chosen(s.snapshot, s.backup)) < s.ends[k])
  }

  lemma {:induction false} RemovedExists(s: World, limit: nat) returns (k: nat)
    requires limit <= |s.ends| && Ascending(s.ends)
    ensures Removed(s, limit, k)
  {
    if limit == 0 {
      k := 0;
    } else {
      k := RemovedExists(s, limit - 1);
      if k == limit - 1 && s.ends[k] <= WatermarkOf(Chosen(s.snapshot, s.backup)) {
        k := limit;
      }
    }
  }

  /** The world without its `k` oldest segments. */
  ghost function Shortened(s: World, k: nat): World
    requires k <= |s.ends|
  {
    s.(base := Lo(s.base, s.ends, k), sealed := Without(s.sealed, s.ends[..k]), ends := s.ends[k..])
  }

  lemma ShortenedNext(s: World, k: nat, f: Formats)
    requires s.up && k < |s.ends| && s.ends[k] <= WatermarkOf(Chosen(s.snapshot, s.backup))
    ensures Enabled(Shortened(s, k), RemoveSegment, f)
    ensures var next := k + 1; Next(Shortened(s, k), RemoveSegment, f) == Shortened(s, next)
  {
    var next := k + 1;
    assert s.ends[..next] == s.ends[..k] + [s.ends[k]];
    assert s.ends[k..][1..] == s.ends[next..];
    assert Without(s.sealed, s.ends[..next]) == Without(s.sealed, s.ends[..k]) - {s.ends[k]};
  }

  lemma {:induction false} RemovalRuns(s: World, steps: seq<Step>, t: World, k: nat, f: Formats)
    requires Run(s, steps, f) && Final(s, steps, f) == t && t.up && k <= |t.ends|
    requires forall i :: 0 <= i < k ==> t.ends[i] <= WatermarkOf(Chosen(t.snapshot, t.backup))
    ensures Run(s, steps + Removals(k), f) && Final(s, steps + Removals(k), f) == Shortened(t, k)
  {
    if k == 0 {
      assert steps + Removals(0) == steps;
      assert Without(t.sealed, t.ends[..0]) == t.sealed && t.ends[0..] == t.ends;
    } else {
      var fewer := k - 1;
      RemovalRuns(s, steps, t, fewer, f);
      ShortenedNext(t, fewer, f);
      assert steps + Removals(k) == (steps + Removals(fewer)) + [RemoveSegment];
      RunOneMore(s, steps + Removals(fewer), RemoveSegment, f);
    }
  }

  /** The model's startup ends with the covered segments gone. */
  lemma RestartRuns(s: World, k: nat, f: Formats)
    requires Enabled(s, Recover, f) && k <= |s.ends|
    requires forall i :: 0 <= i < k ==> s.ends[i] <= WatermarkOf(Chosen(s.snapshot, s.backup))
    ensures Run(s, [Recover] + Removals(k), f) && Final(s, [Recover] + Removals(k), f) == Shortened(Next(s, Recover, f), k)
  {
    var t := Next(s, Recover, f);
    assert [Recover][1..] == [] && Run(t, [], f) && Final(t, [], f) == t;
    RemovalRuns(s, [Recover], t, k, f);
  }

  /** What the clean-up loop leaves of a catalog of whole files. */
  lemma CleanedOldest(s: World, removable: set<nat>, limit: nat, k: nat, after: Catalog, f: Formats)
    requires Lists(s.ends, s.sealed) && Readable(s.ends, s.sealed, f) && NoneTorn(InfosOf(s.ends, s.sealed, f))
    requires Removed(s, limit, k) && forall i :: 0 <= i < |s.ends| ==> (s.ends[i] in removable <==> i < limit)
    requires Cleaned(s.ends, s.sealed, after, WatermarkOf(Chosen(s.snapshot, s.backup)), removable, f)
    ensures after == Without(s.sealed, s.ends[..k])
  {
    LastIsKept(s.ends, s.sealed, f);
    OldestDropped(s.ends, s.sealed, after, WatermarkOf(Chosen(s.snapshot, s.backup)), removable, limit, k);
  }

  lemma OldestDropped(ends: seq<nat>, catalog: Catalog, after: Catalog, watermark: nat, removable: set<nat>, limit: nat, k: nat)
    requires Lists(ends, catalog) && k <= limit <= |ends|
    requires forall i :: 0 <= i < |ends| ==> (ends[i] in removable <==> i < limit)
    requires (forall i :: 0 <= i < k ==> ends[i] <= watermark) && (k < limit ==> watermark < ends[k])
    requires after == map e | e in catalog && !(e <= watermark && e in removable) :: catalog[e]
    ensures after == Without(catalog, ends[..k])
  {
    forall e | e in catalog ensures e in ends[..k] <==> e <= watermark && e in removable {
      OldestRemovable(ends, removable, limit, k, watermark, e);
    }
  }

  lemma OldestRemovable(ends: seq<nat>, removable: set<nat>, limit: nat, k: nat, watermark: nat, e: nat)
    requires Ascending(ends) && e in ends && k <= limit <= |ends|
    requires forall i :: 0 <= i < |ends| ==> (ends[i] in removable <==> i < limit)
    requires (forall i :: 0 <= i < k ==> ends[i] <= watermark) && (k < limit ==> watermark < ends[k])
    ensures e in ends[..k] <==> e <= watermark && e in removable
  {
    OldestCovered(ends, k, e);
  }

  /** In an ascending list, the first `k` elements are those below the next one. */
  lemma OldestCovered(ends: seq<nat>, k: nat, e: nat)
    requires Ascending(ends) && k <= |ends| && e in ends
    ensures exists i :: 0 <= i < |ends| && ends[i] == e && (e in ends[..k] <==> i < k)
    ensures k < |ends| ==> (e in ends[..k] <==> e < ends[k])
  {
    var i :| 0 <= i < |ends| && ends[i] == e;
    if i < k {
      assert ends[..k][i] == e;
    }
  }

  /** Startup on the files of a crashed world, where the file system lets the
      `limit` oldest segments be removed: it ends with the files that the model has
      after recovering and removing every covered one of them, and so in a state
      from which all of the above goes on to hold. */
  method RestartAfterCrash(dir: Directory, f: Formats, now: nat, removable: set<nat>, ghost limit: nat, ghost s: World)
    returns (r: Option<RecoveryState>, ghost k: nat)
    requires Inv(s, f) && !s.up && now == s.now
    requires dir.sealed == s.sealed && dir.active == s.active && dir.snapshot == s.snapshot && dir.backup == s.backup
    requires limit <= |s.ends| && forall i :: 0 <= i < |s.ends| ==> (s.ends[i] in removable <==> i < limit)
    modifies dir
    ensures r.Some? && s.durable <= r.value.lastSequence <= |s.history|
    ensures Alive(r.value.contents, now) == Alive(StateAt(s.history, r.value.lastSequence), now)
    ensures Removed(s, limit, k) && Run(s, [Recover] + Removals(k), f) && Inv(Final(s, [Recover] + Removals(k), f), f)
    ensures var t := Final(s, [Recover] + Removals(k), f);
      && t.up && |t.history| == r.value.lastSequence
      && dir.sealed == t.sealed && dir.active == t.active && dir.snapshot == t.snapshot && dir.backup == t.backup
  {
    CrashRecovers(s, f);
    k := RemovedExists(s, limit);
    RestartedFiles(s, k, f);
    r := dir.LoadData(f, now, removable, s.ends);
    CleanedOldest(s, removable, limit, k, dir.sealed, f);
  }

  /** What the model's startup leaves, field by field. */
  lemma RestartedFiles(s: World, k: nat, f: Formats)
    requires Inv(s, f) && !s.up && k <= |s.ends|
    requires forall i :: 0 <= i < k ==> s.ends[i] <= WatermarkOf(Chosen(s.snapshot, s.backup))
    ensures Run(s, [Recover] + Removals(k), f) && Inv(Final(s, [Recover] + Removals(k), f), f)
    ensures var t := Final(s, [Recover] + Removals(k), f);
      && t.up && |t.history| == Startup(s, f).lastSequence
      && t.sealed == Without(s.sealed, s.ends[..k]) && t.active == ValidPart(s.active, f)
      && t.snapshot == s.snapshot && t.backup == s.backup
    ensures Readable(s.ends, s.sealed, f) && NoneTorn(InfosOf(s.ends, s.sealed, f))
  {
    CrashRecovers(s, f);
    LaidInfos(s.history, s.base, s.ends, s.sealed, f);
    RestartRuns(s, k, f);
    RunKeeps(s, [Recover] + Removals(k), f);
  }
}
