/** A compaction that is not interrupted: from any running directory it leads to the
snapshot alone. */
module Compaction {
  import opened Model
  import opened Logs
  import opened History
  import opened Recovery
  import opened Ranges
  import opened Directories
  import opened CrashSafety

  /** The active file is sealed unless it is empty; everything is synced then. */
  lemma SealedFirst(s: World, f: Formats) returns (steps: seq<Step>)
    requires Inv(s, f) && s.up && (s.active == [] || |s.ends| < 1024)
    ensures Run(s, steps, f)
    ensures var t := Final(s, steps, f);
      && Inv(t, f) && t.up && t.history == s.history && t.now == s.now && t.snapshot == s.snapshot && t.backup == s.backup
      && t.active == [] && t.durable == |s.history|
  {
    steps := [];
    if s.active == [] {
      EmptyFile(s.history, s.activeFrom, |s.history|, f);
    } else {
      StepKeeps(s, Seal, f);
      RunOneMore(s, steps, Seal, f);
      assert steps + [Seal] == [Seal];
      steps := [Seal];
    }
  }

  /** The snapshot is written and takes the place of the one before, if any. */
  lemma Replaced(s: World, steps: seq<Step>, t: World, entries: seq<(Bytes, PersistentEntry)>, f: Formats) returns (more: seq<Step>)
    requires Run(s, steps, f) && Final(s, steps, f) == t && Inv(t, f) && t.up && t.durable == |t.history|
    requires ListsEntries(entries, Alive(StateAt(t.history, |t.history|), t.now))
    ensures Run(s, more, f)
    ensures Final(s, more, f) ==
      t.(temp := None, snapshot := Some(Versioned(|t.history|, entries)), backup := if t.snapshot.Some? then t.snapshot else t.backup)
  {
    var write := WriteTemp(entries);
    RunOneMore(s, steps, write, f);
    more := steps + [write];
    if t.snapshot.Some? {
      RunOneMore(s, more, MoveAside, f);
      more := more + [MoveAside];
    }
    RunOneMore(s, more, Install, f);
    more := more + [Install];
  }

  lemma AllCovered(t: World, f: Formats, i: nat)
    requires Laid(t.history, t.base, t.ends, t.sealed, f) && i < |t.ends|
    ensures t.ends[i] <= |t.history|
  {
    assert SegmentAt(t.history, t.base, t.ends, t.sealed, i, f);
  }

  /** With room for one more segment, a compaction can always be completed: the
      snapshot holds the whole history and no binlog file is left. */
  lemma CompactionCompletes(s: World, entries: seq<(Bytes, PersistentEntry)>, f: Formats) returns (steps: seq<Step>)
    requires Inv(s, f) && s.up && (s.active == [] || |s.ends| < 1024)
    requires ListsEntries(entries, Alive(StateAt(s.history, |s.history|), s.now))
    ensures Run(s, steps, f)
    ensures var t := Final(s, steps, f);
      && t.up && t.history == s.history && t.durable == |s.history|
      && t.snapshot == Some(Versioned(|s.history|, entries)) && t.ends == [] && t.sealed == map[] && t.active == []
  {
    var sealing := SealedFirst(s, f);
    var t := Final(s, sealing, f);
    var replacing := Replaced(s, sealing, t, entries, f);
    var u, k := Final(s, replacing, f), |t.ends|;
    forall i | 0 <= i < k ensures u.ends[i] <= WatermarkOf(Chosen(u.snapshot, u.backup)) {
      AllCovered(t, f, i);
    }
    RemovalRuns(s, replacing, u, k, f);
    steps := replacing + Removals(k);
    AllShortened(u);
  }

  lemma AllShortened(u: World)
    requires Lists(u.ends, u.sealed)
    ensures Shortened(u, |u.ends|).ends == [] && Shortened(u, |u.ends|).sealed == map[]
  {
    var k := |u.ends|;
    assert u.ends[..k] == u.ends && u.ends[k..] == [];
  }

  /** A snapshot that was moved aside is found again, and can be moved back. */
  lemma MovedBack(s: World, f: Formats)
    requires Inv(s, f) && s.up && s.temp.Some? && s.snapshot.Some?
    ensures Run(s, [MoveAside, MoveBack], f)
    ensures Final(s, [MoveAside, MoveBack], f) == s.(backup := None)
    ensures Chosen(Next(s, MoveAside, f).snapshot, Next(s, MoveAside, f).backup) == s.snapshot
  {
    var t := Next(s, MoveAside, f);
    assert [MoveAside, MoveBack][1..] == [MoveBack] && [MoveBack][1..] == [];
    assert Run(t, [MoveBack], f);
  }
}
