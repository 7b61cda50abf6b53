/** A node's life across full synchronizations, compactions, promotions and crashes
at every step in between.

Files are described by whose history they hold: a snapshot by its lineage and
watermark, a binlog file by its lineage and the range of sequences in it. */
module ReplicaLifecycle {
  import opened Model
  import opened ReplicaState
  import History

  /** The history of an upstream master, or one with local commits in it. */
  datatype Lineage = Upstream(replid: nat) | Local

  datatype Snapshot = Snapshot(lineage: Lineage, watermark: nat)

  /** Holds the records after `lo` up to `hi`. */
  datatype Range = Range(lineage: Lineage, lo: nat, hi: nat)

  /** `log` lists the files that hold records, oldest first; the last one is the
      active file when `activeUsed`. */
  datatype Disk = Disk(marker: StateFile, snapshot: Option<Snapshot>, backup: Option<Snapshot>, log: seq<Range>, activeUsed: bool)

  datatype Role = Down | AsReplica | AsMaster

  /** How far a full synchronization has come. */
  datatype Phase =
    | Idle
    | Receiving(replid: nat, sequence: nat)
    | Clearing(replid: nat, sequence: nat)
    | Removing(replid: nat, sequence: nat)
    | Renaming(replid: nat, sequence: nat)
    | Marking(replid: nat, sequence: nat)
    | Marked(replid: nat, sequence: nat)

  datatype Compaction = NoCompaction | Captured(watermark: nat) | Aside(watermark: nat) | Unmarked(watermark: nat)

  /** `lineage` is bookkeeping: whose history the files hold. */
  datatype Node = Node(
    disk: Disk, role: Role, ready: bool, upstream: nat, stopping: bool, promoted: bool,
    phase: Phase, compaction: Compaction,
    lineage: Lineage)

  function Chosen(d: Disk): Option<Snapshot> { if d.snapshot.Some? then d.snapshot else d.backup }

  function Watermark(d: Disk): nat { if Chosen(d).Some? then Chosen(d).value.watermark else 0 }

  function Sequence(d: Disk): nat {
    if d.log != [] && d.log[|d.log| - 1].hi > Watermark(d) then d.log[|d.log| - 1].hi else Watermark(d)
  }

  /** One history: the snapshot and the log belong together, without a gap, and the
      log reaches from the watermark or before to the watermark or after. */
  predicate Consistent(d: Disk, l: Lineage) {
    && (Chosen(d).Some? ==> Chosen(d).value.lineage == l)
    && (forall i :: 0 <= i < |d.log| ==> d.log[i].lineage == l)
    && Linked(d.log)
    && (d.log != [] ==> d.log[0].lo <= Watermark(d) <= d.log[|d.log| - 1].hi)
    && (d.activeUsed ==> d.log != [])
  }

  /** Every file holds records, and each begins where the one before it ends. */
  predicate Linked(log: seq<Range>) {
    && (forall i :: 0 <= i < |log| ==> log[i].lo < log[i].hi)
    && (forall i, j :: 0 <= i && j == i + 1 < |log| ==> log[i].hi == log[j].lo)
  }

  /** What data loading demands. */
  predicate Loads(d: Disk) { Linked(d.log) && (d.log != [] ==> d.log[0].lo <= Watermark(d)) }

  datatype Step =
    | StartReplica
    | StartMaster
    | BeginFull(replid: nat, sequence: nat)
    | AbandonFull
    | InstallBegin
    | TruncateActive
    | RemoveSegment
    | MoveAside
    | InstallSnapshot
    | MarkReady
    | FinishFull
    | ApplyEffect
    | LocalCommit
    | Seal
    | CompactCapture
    | CompactCaptureFull
    | CompactAside
    | CompactInstall
    | CompactMark
    | Cleanup
    | RequestPromotion
    | Promote
    | Crash(kept: nat)

  /** No more segment can be sealed: compaction then captures without sealing. */
  predicate CatalogFull(d: Disk) { |SealedFiles(d)| >= History.MAX_BINLOG_SEGMENTS }

  /** Full synchronization is refused once promotion has begun. */
  predicate AcceptsUpstream(s: Node) { s.role.AsReplica? && !s.promoted && !s.stopping }

  predicate Enabled(s: Node, step: Step) {
    var d := s.disk;
    match step
    case StartReplica => s.role.Down? && Loads(d) && Load(d.marker, Watermark(d)).Ok?
    case StartMaster => s.role.Down? && Loads(d) && Load(d.marker, Watermark(d)).Ok?
      && Load(d.marker, Watermark(d)) != Ok(Some(Installing))
    case BeginFull(replid, _) => AcceptsUpstream(s) && s.phase.Idle? && replid != 0
    case AbandonFull => s.phase.Receiving?
    case InstallBegin => AcceptsUpstream(s) && s.phase.Receiving? && s.compaction.NoCompaction?
    case TruncateActive => s.phase.Clearing?
    case RemoveSegment => s.phase.Removing? && d.log != []
    case MoveAside => s.phase.Removing? && d.log == []
    case InstallSnapshot => s.phase.Renaming?
    case MarkReady => s.phase.Marking?
    case FinishFull => s.phase.Marked?
    case ApplyEffect => s.role.AsReplica? && s.ready && s.phase.Idle?
    case LocalCommit => s.role.AsMaster?
    case Seal => !s.role.Down? && (s.phase.Idle? || s.phase.Receiving?) && !CatalogFull(d)
    case CompactCapture => !s.role.Down? && s.compaction.NoCompaction? && (s.phase.Idle? || s.phase.Receiving?) && !CatalogFull(d)
    case CompactCaptureFull => !s.role.Down? && s.compaction.NoCompaction? && (s.phase.Idle? || s.phase.Receiving?) && CatalogFull(d)
    case CompactAside => s.compaction.Captured?
    case CompactInstall => s.compaction.Aside?
    case CompactMark => s.compaction.Unmarked?
    case Cleanup => !s.role.Down? && (s.phase.Idle? || s.phase.Receiving?)
      && |d.log| > (if d.activeUsed then 1 else 0) && d.log[0].hi <= Watermark(d)
    case RequestPromotion => s.role.AsReplica? && s.ready
    case Promote => s.role.AsReplica? && s.ready && s.phase.Idle?
    case Crash(kept) => !s.role.Down? && (d.activeUsed && d.log != [] ==>
        d.log[|d.log| - 1].lo <= kept <= d.log[|d.log| - 1].hi && Watermark(d) <= kept)
  }

  /** The log after one more record, in the active file. */
  function Appended(d: Disk, l: Lineage): Disk {
    var n := Sequence(d);
    if d.activeUsed && d.log != [] then
      var k := |d.log| - 1;
      d.(log := d.log[..k] + [d.log[k].(hi := n + 1)])
    else d.(log := d.log + [Range(l, n, n + 1)], activeUsed := true)
  }

  function LoseTail(d: Disk, kept: nat): Disk {
    if d.activeUsed && d.log != [] then
      var k := |d.log| - 1;
      if kept <= d.log[k].lo then d.(log := d.log[..k], activeUsed := false)
      else d.(log := d.log[..k] + [d.log[k].(hi := kept)])
    else d.(activeUsed := false)
  }

  /** The same files, seen as a history that now has local commits. */
  function Relabelled(d: Disk): Disk {
    var log := seq(|d.log|, i requires 0 <= i < |d.log| => d.log[i].(lineage := Local));
    d.(snapshot := if d.snapshot.Some? then Some(d.snapshot.value.(lineage := Local)) else None,
       backup := if d.backup.Some? then Some(d.backup.value.(lineage := Local)) else None,
       log := log)
  }

  function SetAside(d: Disk): Disk {
    if d.snapshot.Some? then d.(backup := d.snapshot, snapshot := None) else d
  }

  ghost function Next(s: Node, step: Step): Node
    requires Enabled(s, step)
  {
    var d := s.disk;
    match step
    case StartReplica =>
      var state := Load(d.marker, Watermark(d)).value;
      var known := state.Some? && state.value.Ready?;
      s.(role := AsReplica, ready := known, upstream := if known then state.value.replid else 0)
    case StartMaster =>
      var state := Load(d.marker, Watermark(d)).value;
      s.(role := AsMaster, ready := false, upstream := 0,
         disk := if state.Some? && state.value.Ready? then d.(marker := FileFor(Detached)) else d)
    case BeginFull(replid, sequence) =>
      s.(disk := d.(marker := FileFor(Installing)), ready := false, upstream := 0, phase := Receiving(replid, sequence))
    case AbandonFull => s.(phase := Idle)
    case InstallBegin =>
      s.(disk := d.(marker := FileFor(Installing)), ready := false, phase := Clearing(s.phase.replid, s.phase.sequence))
    case TruncateActive =>
      s.(disk := d.(log := SealedFiles(d), activeUsed := false), phase := Removing(s.phase.replid, s.phase.sequence))
    case RemoveSegment => s.(disk := d.(log := d.log[1..]))
    case MoveAside => s.(disk := SetAside(d), phase := Renaming(s.phase.replid, s.phase.sequence))
    case InstallSnapshot =>
      s.(disk := d.(snapshot := Some(Snapshot(Upstream(s.phase.replid), s.phase.sequence))),
         phase := Marking(s.phase.replid, s.phase.sequence), lineage := Upstream(s.phase.replid))
    case MarkReady =>
      s.(disk := d.(marker := FileFor(Ready(s.phase.replid, s.phase.sequence))), phase := Marked(s.phase.replid, s.phase.sequence))
    case FinishFull => s.(ready := true, upstream := s.phase.replid, phase := Idle)
    case ApplyEffect => s.(disk := Appended(d, Upstream(s.upstream)))
    case LocalCommit => s.(disk := Appended(Relabelled(d), Local), lineage := Local)
    case Seal => s.(disk := d.(activeUsed := false))
    case CompactCapture => s.(disk := d.(activeUsed := false), compaction := Captured(Sequence(d)))
    case CompactCaptureFull => s.(compaction := Captured(Sequence(d)))
    case CompactAside => s.(disk := SetAside(d), compaction := Aside(s.compaction.watermark))
    case CompactInstall =>
      s.(disk := d.(snapshot := Some(Snapshot(s.lineage, s.compaction.watermark))), compaction := Unmarked(s.compaction.watermark))
    case CompactMark =>
      s.(disk := if s.upstream != 0 then d.(marker := FileFor(Ready(s.upstream, s.compaction.watermark))) else d,
         compaction := NoCompaction)
    case Cleanup => s.(disk := d.(log := d.log[1..]))
    case RequestPromotion => s.(stopping := true)
    case Promote =>
      s.(disk := d.(marker := FileFor(Detached)), ready := false, upstream := 0, promoted := true, role := AsMaster)
    case Crash(kept) =>
      s.(disk := LoseTail(d, kept), role := Down, ready := false, upstream := 0, stopping := false, promoted := false,
         phase := Idle, compaction := NoCompaction)
  }

  // ---- The invariant ----

  predicate Claims(file: StateFile) { file.Fields? && file.status == "READY" }

  predicate Unfinished(file: StateFile) { file == FileFor(Installing) }

  /** The files belong together unless an installation is in progress or was
      interrupted, and a READY file names whose history they hold. Even then the
      binlog files that are left follow each other. */
  ghost predicate DiskOk(s: Node) {
    && Linked(s.disk.log)
    && (!Unfinished(s.disk.marker) ==> Consistent(s.disk, s.lineage))
    && (Claims(s.disk.marker) ==> s.disk.marker.replid != 0 && s.lineage == Upstream(s.disk.marker.replid))
    && (s.disk.marker.Missing? || s.disk.marker == FileFor(Detached) || Unfinished(s.disk.marker) || Claims(s.disk.marker))
  }

  ghost predicate RoleOk(s: Node) {
    match s.role
    case Down => !s.ready && s.phase.Idle? && s.compaction.NoCompaction? && !s.promoted && !s.stopping && s.upstream == 0
    case AsMaster => !s.ready && s.upstream == 0 && s.phase.Idle? && (s.disk.marker.Missing? || s.disk.marker == FileFor(Detached))
    case AsReplica =>
      && !s.promoted && (s.ready <==> s.upstream != 0)
      && (s.ready ==> s.phase.Idle? && Claims(s.disk.marker) && s.disk.marker.replid == s.upstream)
  }

  /** While files are being replaced the marker says so; once they are, they hold
      the new baseline and nothing else. */
  ghost predicate PhaseOk(s: Node) {
    match s.phase
    case Idle => true
    case Receiving(replid, _) => replid != 0 && s.role.AsReplica? && Unfinished(s.disk.marker)
    case Clearing(replid, _) => replid != 0 && s.role.AsReplica? && Unfinished(s.disk.marker) && s.compaction.NoCompaction?
    case Removing(replid, _) => replid != 0 && s.role.AsReplica? && Unfinished(s.disk.marker) && s.compaction.NoCompaction? && !s.disk.activeUsed
    case Renaming(replid, _) =>
      && replid != 0 && s.role.AsReplica? && Unfinished(s.disk.marker) && s.compaction.NoCompaction?
      && !s.disk.activeUsed && s.disk.log == []
    case Marking(replid, sequence) =>
      && replid != 0 && s.role.AsReplica? && Unfinished(s.disk.marker) && s.compaction.NoCompaction?
      && Baseline(s, replid, sequence)
    case Marked(replid, sequence) =>
      && replid != 0 && s.role.AsReplica? && s.disk.marker == FileFor(Ready(replid, sequence))
      && s.compaction.NoCompaction? && Baseline(s, replid, sequence)
  }

  ghost predicate Baseline(s: Node, replid: nat, sequence: nat) {
    && s.disk.snapshot == Some(Snapshot(Upstream(replid), sequence)) && s.disk.log == [] && !s.disk.activeUsed
    && s.lineage == Upstream(replid)
  }

  /** The files still form one history while a compaction runs. */
  ghost predicate CompactionOk(s: Node) {
    match s.compaction
    case NoCompaction => true
    case Captured(w) => (s.phase.Idle? || s.phase.Receiving?) && Watermark(s.disk) <= w <= Sequence(s.disk)
    case Aside(w) => (s.phase.Idle? || s.phase.Receiving?) && Watermark(s.disk) <= w <= Sequence(s.disk)
    case Unmarked(w) => (s.phase.Idle? || s.phase.Receiving?) && Watermark(s.disk) == w
  }

  /** Until files are removed for a new baseline, the old ones could be loaded. */
  ghost predicate StillLoads(s: Node) {
    !s.role.Down? && (s.phase.Idle? || s.phase.Receiving? || s.phase.Clearing?) ==> Loads(s.disk)
  }

  ghost predicate Inv(s: Node) {
    DiskOk(s) && RoleOk(s) && PhaseOk(s) && CompactionOk(s) && StillLoads(s)
  }

  // ---- Every step keeps the invariant ----

  lemma AppendConsistent(d: Disk, l: Lineage)
    requires Consistent(d, l)
    ensures Consistent(Appended(d, l), l) && Watermark(Appended(d, l)) == Watermark(d)
    ensures Sequence(Appended(d, l)) == Sequence(d) + 1
  {
    if d.activeUsed && d.log != [] {
      GrownConsistent(d, l);
    } else {
      BegunConsistent(d, l);
    }
  }

  lemma GrownConsistent(d: Disk, l: Lineage)
    requires Consistent(d, l) && d.activeUsed && d.log != []
    ensures Consistent(Appended(d, l), l) && Watermark(Appended(d, l)) == Watermark(d)
    ensures Sequence(Appended(d, l)) == Sequence(d) + 1
  {
    var k, after := |d.log| - 1, Appended(d, l);
    assert after.log[k] == d.log[k].(hi := Sequence(d) + 1) && forall i | 0 <= i < k :: after.log[i] == d.log[i];
  }

  lemma BegunConsistent(d: Disk, l: Lineage)
    requires Consistent(d, l) && !(d.activeUsed && d.log != [])
    ensures Consistent(Appended(d, l), l) && Watermark(Appended(d, l)) == Watermark(d)
    ensures Sequence(Appended(d, l)) == Sequence(d) + 1
  {
    var n, after := Sequence(d), Appended(d, l);
    assert after.log[|d.log|] == Range(l, n, n + 1) && forall i | 0 <= i < |d.log| :: after.log[i] == d.log[i];
  }

  lemma RelabelConsistent(d: Disk, l: Lineage)
    requires Consistent(d, l)
    ensures Consistent(Relabelled(d), Local)
    ensures Watermark(Relabelled(d)) == Watermark(d) && Sequence(Relabelled(d)) == Sequence(d)
  {
  }

  lemma LoseConsistent(d: Disk, l: Lineage, kept: nat)
    requires Consistent(d, l)
    requires d.activeUsed ==> d.log[|d.log| - 1].lo <= kept <= d.log[|d.log| - 1].hi && Watermark(d) <= kept
    ensures Consistent(LoseTail(d, kept), l)
  {
  }

  lemma SetAsideKeeps(d: Disk, l: Lineage)
    ensures Chosen(SetAside(d)) == Chosen(d) && Watermark(SetAside(d)) == Watermark(d) && Sequence(SetAside(d)) == Sequence(d)
    ensures Consistent(d, l) ==> Consistent(SetAside(d), l)
  {
  }

  lemma TailConsistent(d: Disk, l: Lineage)
    requires Consistent(d, l) && |d.log| > (if d.activeUsed then 1 else 0) && d.log[0].hi <= Watermark(d)
    ensures Consistent(d.(log := d.log[1..]), l)
  {
    var tail := d.log[1..];
    assert forall i | 0 <= i < |tail| :: tail[i] == d.log[i + 1];
    if tail != [] {
      assert d.log[0].hi == d.log[1].lo;
    }
  }

  lemma InstallConsistent(d: Disk, l: Lineage, w: nat)
    requires Consistent(d, l) && Watermark(d) <= w <= Sequence(d)
    ensures Consistent(d.(snapshot := Some(Snapshot(l, w))), l)
  {
  }

  lemma StartKeeps(s: Node, step: Step)
    requires Inv(s) && (step.StartReplica? || step.StartMaster?) && Enabled(s, step)
    ensures Inv(Next(s, step))
  {
    if step.StartReplica? {
      StartReplicaKeeps(s);
    } else {
      StartMasterKeeps(s);
    }
  }

  lemma StartReplicaKeeps(s: Node)
    requires Inv(s) && Enabled(s, StartReplica)
    ensures Inv(Next(s, StartReplica))
  {
  }

  lemma StartMasterKeeps(s: Node)
    requires Inv(s) && Enabled(s, StartMaster)
    ensures Inv(Next(s, StartMaster))
  {
  }

  lemma FullSyncKeeps(s: Node, step: Step)
    requires Inv(s) && Enabled(s, step)
    requires step.BeginFull? || step.AbandonFull? || step.InstallBegin? || step.TruncateActive? || step.RemoveSegment? || step.MoveAside?
    ensures Inv(Next(s, step))
  {
  }

  lemma BaselineKeeps(s: Node, step: Step)
    requires Inv(s) && Enabled(s, step) && (step.InstallSnapshot? || step.MarkReady? || step.FinishFull?)
    ensures Inv(Next(s, step))
  {
  }

  lemma CommitKeeps(s: Node, step: Step)
    requires Inv(s) && Enabled(s, step) && (step.ApplyEffect? || step.LocalCommit?)
    ensures Inv(Next(s, step))
  {
    if step.ApplyEffect? {
      AppendConsistent(s.disk, s.lineage);
    } else {
      RelabelConsistent(s.disk, s.lineage);
      AppendConsistent(Relabelled(s.disk), Local);
    }
  }

  lemma SealKeeps(s: Node, step: Step)
    requires Inv(s) && Enabled(s, step) && (step.Seal? || step.CompactCapture? || step.CompactCaptureFull?)
    ensures Inv(Next(s, step))
  {
  }

  lemma CompactAsideKeeps(s: Node)
    requires Inv(s) && Enabled(s, CompactAside)
    ensures Inv(Next(s, CompactAside))
  {
    SetAsideKeeps(s.disk, s.lineage);
  }

  lemma CompactInstallKeeps(s: Node, step: Step)
    requires Inv(s) && Enabled(s, step) && (step.CompactInstall? || step.CompactMark?)
    ensures Inv(Next(s, step))
  {
    if step.CompactInstall? && !Unfinished(s.disk.marker) {
      InstallConsistent(s.disk, s.lineage, s.compaction.watermark);
    }
  }

  lemma CleanupKeeps(s: Node)
    requires Inv(s) && Enabled(s, Cleanup)
    ensures Inv(Next(s, Cleanup))
  {
    if !Unfinished(s.disk.marker) {
      TailConsistent(s.disk, s.lineage);
    }
  }

  lemma PromotionKeeps(s: Node, step: Step)
    requires Inv(s) && (step.RequestPromotion? || step.Promote?) && Enabled(s, step)
    ensures Inv(Next(s, step))
  {
  }

  lemma CrashKeeps(s: Node, kept: nat)
    requires Inv(s) && Enabled(s, Crash(kept))
    ensures Inv(Next(s, Crash(kept)))
  {
    if !Unfinished(s.disk.marker) {
      LoseConsistent(s.disk, s.lineage, kept);
    }
  }

  predicate OfFullSync(step: Step) {
    step.BeginFull? || step.AbandonFull? || step.InstallBegin? || step.TruncateActive? || step.RemoveSegment? || step.MoveAside?
    || step.InstallSnapshot? || step.MarkReady? || step.FinishFull?
  }

  lemma InstallationKeeps(s: Node, step: Step)
    requires Inv(s) && Enabled(s, step) && OfFullSync(step)
    ensures Inv(Next(s, step))
  {
    if step.InstallSnapshot? || step.MarkReady? || step.FinishFull? {
      BaselineKeeps(s, step);
    } else {
      FullSyncKeeps(s, step);
    }
  }

  lemma CompactionKeeps(s: Node, step: Step)
    requires Inv(s) && Enabled(s, step) && (step.CompactAside? || step.CompactInstall? || step.CompactMark? || step.Cleanup?)
    ensures Inv(Next(s, step))
  {
    if step.CompactAside? {
      CompactAsideKeeps(s);
    } else if step.Cleanup? {
      CleanupKeeps(s);
    } else {
      CompactInstallKeeps(s, step);
    }
  }

  lemma StepKeeps(s: Node, step: Step)
    requires Inv(s) && Enabled(s, step)
    ensures Inv(Next(s, step))
  {
    if OfFullSync(step) {
      InstallationKeeps(s, step);
    } else if step.CompactAside? || step.CompactInstall? || step.CompactMark? || step.Cleanup? {
      CompactionKeeps(s, step);
    } else if step.StartReplica? || step.StartMaster? {
      StartKeeps(s, step);
    } else if step.ApplyEffect? || step.LocalCommit? {
      CommitKeeps(s, step);
    } else if step.Seal? || step.CompactCapture? || step.CompactCaptureFull? {
      SealKeeps(s, step);
    } else if step.RequestPromotion? || step.Promote? {
      PromotionKeeps(s, step);
    } else {
      CrashKeeps(s, step.kept);
    }
  }

  // ---- Whole runs ----

  /** A new data directory. */
  predicate Init(s: Node) {
    s == Node(Disk(Missing, None, None, [], false), Down, false, 0, false, false, Idle, NoCompaction, Local)
  }

  ghost predicate Run(s: Node, steps: seq<Step>)
    decreases |steps|
  {
    steps == [] || (Enabled(s, steps[0]) && Run(Next(s, steps[0]), steps[1..]))
  }

  ghost function Final(s: Node, steps: seq<Step>): Node
    requires Run(s, steps)
    decreases |steps|
  {
    if steps == [] then s else Final(Next(s, steps[0]), steps[1..])
  }

  lemma {:induction false} RunKeeps(s: Node, steps: seq<Step>)
    requires Inv(s) && Run(s, steps)
    ensures Inv(Final(s, steps))
    decreases |steps|
  {
    if steps != [] {
      StepKeeps(s, steps[0]);
      RunKeeps(Next(s, steps[0]), steps[1..]);
    }
  }

  /** Whatever was interrupted: a restarted replica resumes an identity only over
      files that hold exactly that master's history from the stated baseline on, a
      master starts only over one consistent history, and an unfinished
      installation gives neither. */
  lemma RestartIsSafe(s: Node, steps: seq<Step>)
    requires Init(s) && Run(s, steps) && Final(s, steps).role.Down?
    ensures var t := Final(s, steps); var d := t.disk;
      && (Enabled(t, StartReplica) && Next(t, StartReplica).ready ==>
            (d.marker == FileFor(Ready(Next(t, StartReplica).upstream, Watermark(d)))
             && Consistent(d, Upstream(Next(t, StartReplica).upstream)) && Watermark(d) <= Sequence(d)))
      && (Enabled(t, StartMaster) ==> Consistent(d, t.lineage))
      && (Unfinished(d.marker) ==> !Enabled(t, StartMaster) && (Enabled(t, StartReplica) ==> !Next(t, StartReplica).ready))
  {
    RunKeeps(s, steps);
  }

  predicate FromUpstream(step: Step) {
    step.BeginFull? || step.InstallBegin? || step.TruncateActive? || step.RemoveSegment? || step.MoveAside? || step.InstallSnapshot?
    || step.MarkReady? || step.FinishFull? || step.ApplyEffect?
  }

  /** Once promoted, and until the process ends, no step of any run installs an
      upstream effect or any part of an upstream baseline. */
  lemma {:induction false} PromotionIsFinal(s: Node, steps: seq<Step>, i: nat)
    requires Inv(s) && s.promoted && Run(s, steps) && i < |steps|
    requires forall j :: 0 <= j < |steps| ==> !steps[j].Crash?
    ensures !FromUpstream(steps[i]) && Final(s, steps).promoted && Final(s, steps).role.AsMaster?
    decreases |steps|
  {
    StepKeeps(s, steps[0]);
    var t := Next(s, steps[0]);
    if |steps| > 1 {
      PromotionIsFinal(t, steps[1..], if i == 0 then 0 else i - 1);
    }
  }

  // ---- An interrupted removal of the old history ----

  /** The sealed files, which stay when the active one is emptied. */
  function SealedFiles(d: Disk): seq<Range> {
    if d.activeUsed && d.log != [] then d.log[..|d.log| - 1] else d.log
  }

  /** The installation goes as far as removing `k` files. */
  function Removals(k: nat): seq<Step> {
    [TruncateActive] + seq(k, _ => RemoveSegment)
  }

  lemma {:induction false} RemovalsRun(s: Node, k: nat)
    requires Inv(s) && s.phase.Clearing? && k <= |SealedFiles(s.disk)|
    ensures Run(s, Removals(k))
    ensures Final(s, Removals(k)).phase.Removing? && Final(s, Removals(k)).role.AsReplica?
    ensures Final(s, Removals(k)).disk == s.disk.(log := SealedFiles(s.disk)[k..], activeUsed := false)
  {
    if k == 0 {
      assert Removals(0) == [TruncateActive] && Removals(0)[1..] == [];
      assert Run(Next(s, TruncateActive), []);
    } else {
      var fewer := k - 1;
      RemovalsRun(s, fewer);
      assert Removals(k) == Removals(fewer) + [RemoveSegment];
      RunOneMore(s, Removals(fewer), RemoveSegment);
    }
  }

  lemma {:induction false} EndsAscend(log: seq<Range>, i: nat, j: nat)
    requires Linked(log) && i <= j < |log|
    ensures log[i].hi <= log[j].hi
  {
    if i < j {
      EndsAscend(log, i, j - 1);
      assert log[j - 1].hi == log[j].lo;
    }
  }

  lemma RestLoadsIff(files: seq<Range>, k: nat, watermark: nat)
    requires Linked(files) && k <= |files| && (files != [] ==> files[0].lo <= watermark)
    ensures Linked(files[k..])
    ensures (files[k..] != [] ==> files[k..][0].lo <= watermark) <==>
      k == |files| || forall i :: 0 <= i < k ==> files[i].hi <= watermark
  {
    if 0 < k < |files| {
      assert files[k - 1].hi == files[k].lo;
      forall i | 0 <= i < k ensures files[i].hi <= files[k - 1].hi {
        EndsAscend(files, i, k - 1);
      }
    }
  }

  /** No active file is in use then, so the crash changes no file. */
  lemma CrashWhileRemoving(s: Node)
    requires s.phase.Removing? && s.role.AsReplica? && !s.disk.activeUsed && Unfinished(s.disk.marker)
    ensures Enabled(s, Crash(0)) && Next(s, Crash(0)).disk == s.disk
    ensures !Enabled(Next(s, Crash(0)), StartMaster)
    ensures Enabled(Next(s, Crash(0)), StartReplica) <==> Loads(s.disk)
  {
  }

  /** A crash after `k` of the old files are removed: no master starts, and a
      replica starts exactly when all of them are gone or every removed one was
      covered by the old snapshot. */
  lemma InterruptedRemovalStartsIff(s: Node, k: nat)
    requires Inv(s) && s.phase.Clearing? && k <= |SealedFiles(s.disk)|
    ensures Run(s, Removals(k) + [Crash(0)])
    ensures !Enabled(Final(s, Removals(k) + [Crash(0)]), StartMaster)
    ensures Enabled(Final(s, Removals(k) + [Crash(0)]), StartReplica) <==>
      k == |SealedFiles(s.disk)| || forall i :: 0 <= i < k ==> SealedFiles(s.disk)[i].hi <= Watermark(s.disk)
  {
    RemovalsRun(s, k);
    var t := Final(s, Removals(k));
    CrashWhileRemoving(t);
    RunOneMore(s, Removals(k), Crash(0));
    assert Watermark(t.disk) == Watermark(s.disk);
    RestLoadsIff(SealedFiles(s.disk), k, Watermark(s.disk));
  }

  ghost predicate Reaches(s: Node, t: Node) {
    exists steps :: Run(s, steps) && Final(s, steps) == t
  }

  lemma {:induction false} RunOneMore(s: Node, steps: seq<Step>, step: Step)
    requires Run(s, steps) && Enabled(Final(s, steps), step)
    ensures Run(s, steps + [step]) && Final(s, steps + [step]) == Next(Final(s, steps), step)
    decreases |steps|
  {
    var grown := steps + [step];
    if steps == [] {
      assert grown[1..] == [];
    } else {
      assert grown[1..] == steps[1..] + [step];
      RunOneMore(Next(s, steps[0]), steps[1..], step);
    }
  }

  lemma ReachesNext(s: Node, t: Node, step: Step)
    requires Reaches(s, t) && Enabled(t, step)
    ensures Reaches(s, Next(t, step))
  {
    var steps :| Run(s, steps) && Final(s, steps) == t;
    RunOneMore(s, steps, step);
  }

  /** A ready replica with the given log above a baseline at 0. */
  function ReplicaWith(log: seq<Range>, activeUsed: bool): Node {
    Node(Disk(FileFor(Ready(1, 0)), Some(Snapshot(Upstream(1), 0)), None, log, activeUsed),
         AsReplica, true, 1, false, false, Idle, NoCompaction, Upstream(1))
  }

  lemma FirstBaselineReached(s: Node)
    requires Init(s)
    ensures Reaches(s, ReplicaWith([], false))
  {
    FirstRenameReached(s);
    var t4 := FirstRename();
    var t5 := Next(t4, InstallSnapshot);
    ReachesNext(s, t4, InstallSnapshot);
    var t6 := Next(t5, MarkReady);
    ReachesNext(s, t5, MarkReady);
    ReachesNext(s, t6, FinishFull);
  }

  /** A new replica about to rename its first snapshot into place. */
  function FirstRename(): Node {
    Node(Disk(FileFor(Installing), None, None, [], false),
         AsReplica, false, 0, false, false, Renaming(1, 0), NoCompaction, Local)
  }

  lemma FirstRenameReached(s: Node)
    requires Init(s)
    ensures Reaches(s, FirstRename())
  {
    assert Run(s, []) && Final(s, []) == s;
    var t0 := Next(s, StartReplica);
    ReachesNext(s, s, StartReplica);
    var t1 := Next(t0, BeginFull(1, 0));
    ReachesNext(s, t0, BeginFull(1, 0));
    var t2 := Next(t1, InstallBegin);
    ReachesNext(s, t1, InstallBegin);
    var t3 := Next(t2, TruncateActive);
    ReachesNext(s, t2, TruncateActive);
    ReachesNext(s, t3, MoveAside);
  }

  lemma OneSegmentReached(s: Node)
    requires Init(s)
    ensures Reaches(s, ReplicaWith([Range(Upstream(1), 0, 1)], false))
  {
    FirstBaselineReached(s);
    var first := Range(Upstream(1), 0, 1);
    ReachesNext(s, ReplicaWith([], false), ApplyEffect);
    assert [] + [first] == [first];
    ReachesNext(s, ReplicaWith([first], true), Seal);
  }

  lemma TwoSegmentsReached(s: Node)
    requires Init(s)
    ensures Reaches(s, ReplicaWith([Range(Upstream(1), 0, 1), Range(Upstream(1), 1, 2)], false))
  {
    OneSegmentReached(s);
    var first, second := Range(Upstream(1), 0, 1), Range(Upstream(1), 1, 2);
    ReachesNext(s, ReplicaWith([first], false), ApplyEffect);
    assert [first] + [second] == [first, second];
    ReachesNext(s, ReplicaWith([first, second], true), Seal);
  }

  /** The same replica while it removes its files for a new baseline at 7. */
  function RemovingWith(log: seq<Range>): Node {
    Node(Disk(FileFor(Installing), Some(Snapshot(Upstream(1), 0)), None, log, false),
         AsReplica, false, 0, false, false, Removing(2, 7), NoCompaction, Upstream(1))
  }

  lemma RemovalReached(s: Node, log: seq<Range>)
    requires Reaches(s, ReplicaWith(log, false))
    ensures Reaches(s, RemovingWith(log))
  {
    var t0 := ReplicaWith(log, false);
    var t1 := Next(t0, BeginFull(2, 7));
    ReachesNext(s, t0, BeginFull(2, 7));
    var t2 := Next(t1, InstallBegin);
    ReachesNext(s, t1, InstallBegin);
    ReachesNext(s, t2, TruncateActive);
  }

  /** It does fail: with two sealed segments above a snapshot at 0, a crash after the
      older one is removed leaves a directory that starts in no role. */
  lemma InterruptedRemovalCanRefuse(s: Node) returns (t: Node)
    requires Init(s)
    ensures Reaches(s, t) && t.role.Down? && !Enabled(t, StartReplica) && !Enabled(t, StartMaster)
  {
    TwoSegmentsReached(s);
    var log := [Range(Upstream(1), 0, 1), Range(Upstream(1), 1, 2)];
    RemovalReached(s, log);
    ReachesNext(s, RemovingWith(log), RemoveSegment);
    assert log[1..] == [log[1]];
    ReachesNext(s, RemovingWith([log[1]]), Crash(0));
    t := Next(RemovingWith([log[1]]), Crash(0));
  }

  // ---- A full synchronization can be completed ----

  /** A replica that holds exactly a master's baseline and knows it. */
  ghost predicate Holds(t: Node, replid: nat, sequence: nat) {
    && t.role.AsReplica? && t.ready && t.upstream == replid && t.phase.Idle? && t.compaction.NoCompaction?
    && t.disk.marker == Fields("READY", replid, sequence) && t.disk.snapshot == Some(Snapshot(Upstream(replid), sequence))
    && t.disk.log == [] && !t.disk.activeUsed
  }

  /** Whatever a replica's files hold, they can be replaced by a new baseline. */
  lemma FullSyncCompletes(s: Node, replid: nat, sequence: nat) returns (t: Node)
    requires Inv(s) && AcceptsUpstream(s) && s.phase.Idle? && s.compaction.NoCompaction? && replid != 0
    ensures Reaches(s, t) && Holds(t, replid, sequence)
  {
    assert Run(s, []) && Final(s, []) == s;
    var s1 := Next(s, BeginFull(replid, sequence));
    ReachesNext(s, s, BeginFull(replid, sequence));
    StepKeeps(s, BeginFull(replid, sequence));
    var s2 := Next(s1, InstallBegin);
    ReachesNext(s, s1, InstallBegin);
    StepKeeps(s1, InstallBegin);
    var s3 := Emptied(s, s2);
    t := Completed(s, s3);
  }

  lemma Emptied(s: Node, s2: Node) returns (t: Node)
    requires Reaches(s, s2) && Inv(s2) && s2.phase.Clearing?
    ensures Reaches(s, t) && Inv(t) && t.phase == Removing(s2.phase.replid, s2.phase.sequence) && t.disk.log == []
  {
    var k := |SealedFiles(s2.disk)|;
    RemovalsRun(s2, k);
    RemovalsReached(s, s2, k);
    RunKeeps(s2, Removals(k));
    t := Final(s2, Removals(k));
  }

  lemma {:induction false} RemovalsReached(s: Node, s2: Node, k: nat)
    requires Reaches(s, s2) && Inv(s2) && s2.phase.Clearing? && k <= |SealedFiles(s2.disk)| && Run(s2, Removals(k))
    ensures Reaches(s, Final(s2, Removals(k)))
    ensures Final(s2, Removals(k)).phase == Removing(s2.phase.replid, s2.phase.sequence)
  {
    if k == 0 {
      assert Removals(0) == [TruncateActive] && Removals(0)[1..] == [];
      ReachesNext(s, s2, TruncateActive);
    } else {
      var fewer := k - 1;
      RemovalsRun(s2, fewer);
      RemovalsReached(s, s2, fewer);
      assert Removals(k) == Removals(fewer) + [RemoveSegment];
      RunOneMore(s2, Removals(fewer), RemoveSegment);
      ReachesNext(s, Final(s2, Removals(fewer)), RemoveSegment);
    }
  }

  lemma Completed(s: Node, s3: Node) returns (t: Node)
    requires Reaches(s, s3) && Inv(s3) && s3.phase.Removing? && s3.disk.log == []
    ensures Reaches(s, t) && Holds(t, s3.phase.replid, s3.phase.sequence)
  {
    var s4 := Next(s3, MoveAside);
    ReachesNext(s, s3, MoveAside);
    var s5 := Next(s4, InstallSnapshot);
    ReachesNext(s, s4, InstallSnapshot);
    var s6 := Next(s5, MarkReady);
    ReachesNext(s, s5, MarkReady);
    t := Next(s6, FinishFull);
    ReachesNext(s, s6, FinishFull);
  }

  /** From then on a crash costs nothing: the identity is resumed. */
  lemma BaselineResumes(t: Node, replid: nat, sequence: nat)
    requires Inv(t) && Holds(t, replid, sequence) && replid != 0
    ensures Run(t, [Crash(0), StartReplica])
    ensures var u := Final(t, [Crash(0), StartReplica]);
      u.role.AsReplica? && u.ready && u.upstream == replid && u.disk == t.disk
  {
    var u := Next(t, Crash(0));
    assert [Crash(0), StartReplica][1..] == [StartReplica] && [StartReplica][1..] == [];
    assert Run(u, [StartReplica]);
  }
}
