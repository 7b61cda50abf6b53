/** The binlog history: the sealed segments in ascending order and then the
active file, checked and repaired as one catalog. */
module History {
  import opened Model
  import opened Logs

  const MAX_BINLOG_SEGMENTS: nat := 1024

  predicate Ascending(ends: seq<nat>) {
    forall i, j :: 0 <= i < j < |ends| ==> ends[i] < ends[j]
  }

  /** All records of a list of files, in file order. */
  function Joined(files: seq<FileInfo>): Log {
    if files == [] then [] else Joined(files[..|files| - 1]) + files[|files| - 1].log
  }

  lemma JoinedNext(files: seq<FileInfo>, file: FileInfo)
    ensures Joined(files + [file]) == Joined(files) + file.log
  {
    assert (files + [file])[..|files + [file]| - 1] == files;
  }

  lemma ContiguousJoin(a: Log, b: Log)
    requires Contiguous(a) && Contiguous(b)
    ensures Contiguous(a + b) <==> a == [] || b == [] || LastOf(a) + 1 == b[0].sequence
  {
    var c := a + b;
    if a == [] {
      assert c == b;
    } else if b == [] {
      assert c == a;
    } else {
      assert c[|a|] == b[0] && c[0] == a[0];
    }
  }

  lemma ContiguousPart(a: Log, b: Log)
    requires Contiguous(a + b)
    ensures Contiguous(a) && Contiguous(b)
  {
    var c := a + b;
    forall i | 0 <= i < |a| ensures a[i].sequence == a[0].sequence + i {
      assert c[i] == a[i];
    }
    forall i | 0 <= i < |b| ensures b[i].sequence == b[0].sequence + i {
      assert c[|a| + i] == b[i] && c[|a|] == b[0];
    }
  }

  lemma {:induction false} JoinedPrefix(files: seq<FileInfo>, n: nat)
    requires n <= |files| && Contiguous(Joined(files))
    ensures Contiguous(Joined(files[..n]))
  {
    if n < |files| {
      var front := files[..|files| - 1];
      ContiguousPart(Joined(front), files[|files| - 1].log);
      assert front[..n] == files[..n];
      JoinedPrefix(front, n);
    } else {
      assert files[..n] == files;
    }
  }

  // ---- What a sound history is ----

  /** A sealed segment holds records and ends where its name says. */
  predicate SegmentOk(end: nat, file: FileInfo) {
    file.log != [] && LastOf(file.log) == end
  }

  predicate SegmentsOk(ends: seq<nat>, files: seq<FileInfo>) {
    |ends| == |files| && forall i :: 0 <= i < |files| ==> SegmentOk(ends[i], files[i])
  }

  predicate NoneTorn(files: seq<FileInfo>) {
    forall i :: 0 <= i < |files| ==> !files[i].torn
  }

  /** Every sealed segment is whole and named by its last record, and the
      segments followed by the active file form one gap-free run. */
  predicate Sound(ends: seq<nat>, files: seq<FileInfo>, active: FileInfo) {
    NoneTorn(files) && SegmentsOk(ends, files) && Contiguous(Joined(files + [active]))
  }

  // ---- Repairing a torn last segment ----

  /** Only the last segment may be torn, and only if nothing follows it. */
  predicate Repairable(ends: seq<nat>, files: seq<FileInfo>, active: FileInfo)
    requires |ends| == |files|
  {
    files == [] || (
      var n := |files| - 1;
      && NoneTorn(files[..n])
      && (files[n].torn ==> active.log == [] && !NameTaken(ends, files)))
  }

  /** Another segment is already named after the last record of the last one. */
  predicate NameTaken(ends: seq<nat>, files: seq<FileInfo>)
    requires |ends| == |files| && files != []
  {
    var n := |files| - 1;
    files[n].log != [] && LastOf(files[n].log) in ends[..n]
  }

  function RepairedEnds(ends: seq<nat>, files: seq<FileInfo>): seq<nat>
    requires |ends| == |files|
  {
    if files == [] || !files[|files| - 1].torn then ends
    else if files[|files| - 1].log == [] then ends[..|ends| - 1]
    else ends[..|ends| - 1] + [LastOf(files[|files| - 1].log)]
  }

  function RepairedFiles(files: seq<FileInfo>): seq<FileInfo> {
    if files == [] || !files[|files| - 1].torn then files
    else if files[|files| - 1].log == [] then files[..|files| - 1]
    else files[..|files| - 1] + [files[|files| - 1].(torn := false)]
  }

  /** Repair drops bytes, never records. */
  lemma RepairKeepsRecords(files: seq<FileInfo>)
    ensures Joined(RepairedFiles(files)) == Joined(files)
  {
    if files != [] && files[|files| - 1].torn {
      var n := |files| - 1;
      assert files == files[..n] + [files[n]];
      JoinedNext(files[..n], files[n]);
      JoinedNext(files[..n], files[n].(torn := false));
    }
  }

  /** Everything that inspection demands of a catalog. */
  predicate HistoryOk(ends: seq<nat>, files: seq<FileInfo>, active: FileInfo)
    requires |ends| == |files|
  {
    && |ends| <= MAX_BINLOG_SEGMENTS
    && Repairable(ends, files, active)
    && SegmentsOk(RepairedEnds(ends, files), RepairedFiles(files))
    && Contiguous(Joined(RepairedFiles(files) + [active]))
  }

  lemma RepairedIsSound(ends: seq<nat>, files: seq<FileInfo>, active: FileInfo)
    requires |ends| == |files| && HistoryOk(ends, files, active)
    ensures Sound(RepairedEnds(ends, files), RepairedFiles(files), active)
  {
    if files != [] {
      var n := |files| - 1;
      assert files == files[..n] + [files[n]];
    }
  }

  /** A sound catalog is admitted as it stands. */
  lemma SoundIsOk(ends: seq<nat>, files: seq<FileInfo>, active: FileInfo)
    requires |ends| <= MAX_BINLOG_SEGMENTS && Sound(ends, files, active)
    ensures HistoryOk(ends, files, active)
    ensures RepairedEnds(ends, files) == ends && RepairedFiles(files) == files
  {
  }

  function EndOf(log: Log): Option<nat> { if log == [] then None else Some(LastOf(log)) }

  /** One more file keeps the history gap-free exactly when it starts right after
      the previous end. */
  lemma JoinStep(files: seq<FileInfo>, file: FileInfo)
    requires Contiguous(Joined(files)) && Contiguous(file.log)
    ensures var before, grown := Joined(files), Joined(files + [file]);
      && EndOf(grown) == (if file.log == [] then EndOf(before) else EndOf(file.log))
      && (Contiguous(grown) <==> before == [] || file.log == [] || LastOf(before) + 1 == file.log[0].sequence)
  {
    var before := Joined(files);
    JoinedNext(files, file);
    ContiguousJoin(before, file.log);
    if file.log == [] {
      assert before + file.log == before;
    }
  }

  lemma AscendingNext(ends: seq<nat>, e: nat)
    requires Ascending(ends) && (ends == [] || ends[|ends| - 1] < e)
    ensures Ascending(ends + [e])
  {
  }

  /** In a sound history the declared ends ascend, so the order of the files is
      the order of their names. */
  lemma {:induction false} SoundAscends(ends: seq<nat>, files: seq<FileInfo>)
    requires SegmentsOk(ends, files) && Contiguous(Joined(files))
    ensures Ascending(ends)
    ensures files != [] ==> EndOf(Joined(files)) == Some(ends[|ends| - 1])
  {
    if files != [] {
      var n := |files| - 1;
      var fronts, front, log := ends[..n], Joined(files[..n]), files[n].log;
      assert SegmentOk(ends[n], files[n]);
      ContiguousPart(front, log);
      SoundAscends(fronts, files[..n]);
      ContiguousJoin(front, log);
      assert log[|log| - 1].sequence >= log[0].sequence;
      AscendingNext(fronts, ends[n]);
      assert ends == fronts + [ends[n]];
    }
  }

  // ---- The checks, on what inspection remembers ----

  ghost predicate Summarize(inspections: seq<Inspection>, files: seq<FileInfo>) {
    && |inspections| == |files|
    && forall i :: 0 <= i < |files| ==> inspections[i] == Summary(files[i]) && Contiguous(files[i].log)
  }

  method FirstTorn(inspections: seq<Inspection>) returns (index: nat)
    ensures index <= |inspections|
    ensures index < |inspections| ==> inspections[index].tornTail
    ensures forall i :: 0 <= i < index ==> !inspections[i].tornTail
  {
    index := 0;
    while index < |inspections| && !inspections[index].tornTail
      invariant index <= |inspections|
      invariant forall i :: 0 <= i < index ==> !inspections[i].tornTail
    {
      index := index + 1;
    }
  }

  /** What the first torn segment means for repair. */
  lemma TornDecision(ends: seq<nat>, inspections: seq<Inspection>, files: seq<FileInfo>, active: FileInfo, index: nat)
    requires |ends| == |files| && Summarize(inspections, files) && index <= |files|
    requires index < |files| ==> inspections[index].tornTail
    requires forall i :: 0 <= i < index ==> !inspections[i].tornTail
    ensures index == |files| ==>
      Repairable(ends, files, active) && RepairedEnds(ends, files) == ends && RepairedFiles(files) == files
    ensures index < |files| && (index + 1 != |files| || active.log != []) ==> !Repairable(ends, files, active)
    ensures index + 1 == |files| && active.log == [] ==>
      (Repairable(ends, files, active) <==> !NameTaken(ends, files))
  {
    assert forall i | 0 <= i < |files| :: files[i].torn == inspections[i].tornTail;
    if index + 1 < |files| {
      assert files[..|files| - 1][index].torn;
    } else if index + 1 == |files| {
      assert NoneTorn(files[..index]);
    }
  }

  method CheckSegments(ends: seq<nat>, inspections: seq<Inspection>, ghost files: seq<FileInfo>) returns (ok: bool)
    requires |ends| == |inspections| && Summarize(inspections, files)
    ensures ok <==> SegmentsOk(ends, files)
  {
    var i := 0;
    while i < |ends|
      invariant 0 <= i <= |ends|
      invariant forall j :: 0 <= j < i ==> SegmentOk(ends[j], files[j])
    {
      assert inspections[i] == Summary(files[i]);
      if inspections[i].minSequence.None? || inspections[i].maxSequence != ends[i] {
        assert !SegmentOk(ends[i], files[i]);
        return false;
      }
      i := i + 1;
    }
    ok := true;
  }

  /** Whether a file may follow those before it is decided by their last sequence
      and its first. */
  lemma FileFollows(files: seq<FileInfo>, file: FileInfo, inspection: Inspection, previous: Option<nat>)
    requires Contiguous(Joined(files)) && previous == EndOf(Joined(files))
    requires inspection == Summary(file) && Contiguous(file.log)
    ensures Contiguous(Joined(files + [file])) <==>
      previous.None? || inspection.minSequence.None? || previous.value + 1 == inspection.minSequence.value
    ensures EndOf(Joined(files + [file])) == if inspection.minSequence.Some? then Some(inspection.maxSequence) else previous
  {
    JoinStep(files, file);
  }

  /** Comparing each file's first sequence with the previous end decides whether
      the whole history runs without a gap. */
  method CheckContiguous(inspections: seq<Inspection>, ghost files: seq<FileInfo>) returns (ok: bool)
    requires Summarize(inspections, files)
    ensures ok <==> Contiguous(Joined(files))
  {
    var previous: Option<nat> := None;
    var i := 0;
    while i < |inspections|
      invariant 0 <= i <= |inspections|
      invariant Contiguous(Joined(files[..i])) && previous == EndOf(Joined(files[..i]))
    {
      var next, inspection := i + 1, inspections[i];
      FileFollows(files[..i], files[i], inspection, previous);
      assert files[..next] == files[..i] + [files[i]];
      if inspection.minSequence.Some? {
        if previous.Some? && previous.value + 1 != inspection.minSequence.value {
          if Contiguous(Joined(files)) {
            JoinedPrefix(files, next);
          }
          return false;
        }
        previous := Some(inspection.maxSequence);
      }
      i := next;
    }
    assert files[..i] == files;
    ok := true;
  }

  // ---- What replay needs of the whole history ----

  lemma {:induction false} JoinedSplit(files: seq<FileInfo>, i: nat) returns (rest: Log)
    requires i < |files|
    ensures Joined(files) == Joined(files[..i]) + files[i].log + rest
  {
    var n := |files| - 1;
    if i == n {
      rest := [];
      assert Joined(files) + [] == Joined(files);
    } else {
      var others := JoinedSplit(files[..n], i);
      assert files[..n][..i] == files[..i];
      rest := others + files[n].log;
    }
  }

  /** The first sequence of the history is that of the first file with records. */
  method FirstSequence(inspections: seq<Inspection>, ghost files: seq<FileInfo>) returns (first: Option<nat>)
    requires Summarize(inspections, files)
    ensures first == FirstOf(Joined(files))
  {
    var i := 0;
    while i < |inspections|
      invariant 0 <= i <= |inspections| && Joined(files[..i]) == []
    {
      assert files[..i + 1] == files[..i] + [files[i]];
      JoinedNext(files[..i], files[i]);
      if inspections[i].minSequence.Some? {
        ghost var rest := JoinedSplit(files, i);
        assert Joined(files)[0] == files[i].log[0];
        return inspections[i].minSequence;
      }
      i := i + 1;
    }
    assert files[..i] == files;
    first := None;
  }

  /** The greatest sequence of any file is the last of the whole history. */
  method GreatestSequence(inspections: seq<Inspection>, ghost files: seq<FileInfo>) returns (last: nat)
    requires Summarize(inspections, files) && Contiguous(Joined(files))
    ensures last == LastOf(Joined(files))
  {
    last := 0;
    var i := 0;
    while i < |inspections|
      invariant 0 <= i <= |inspections| && last == LastOf(Joined(files[..i]))
    {
      JoinedPrefix(files, i + 1);
      assert files[..i + 1] == files[..i] + [files[i]];
      JoinedLast(files[..i], files[i]);
      if inspections[i].maxSequence > last {
        last := inspections[i].maxSequence;
      }
      i := i + 1;
    }
    assert files[..i] == files;
  }

  lemma JoinedLast(files: seq<FileInfo>, file: FileInfo)
    requires Contiguous(Joined(files + [file]))
    ensures var before := LastOf(Joined(files)); var last := LastOf(file.log);
      LastOf(Joined(files + [file])) == if last > before then last else before
  {
    JoinedNext(files, file);
    var before := Joined(files);
    if file.log == [] {
      assert before + file.log == before;
    } else if before != [] {
      var whole := before + file.log;
      assert whole[|before| - 1] == before[|before| - 1];
    }
  }

  /** A torn segment is the last one, with nothing behind it; a whole one ends with
      the record it is named after. */
  lemma AcceptedAt(ends: seq<nat>, files: seq<FileInfo>, active: FileInfo, i: nat)
    requires |ends| == |files| && HistoryOk(ends, files, active) && i < |files|
    ensures files[i].torn ==> i == |files| - 1 && active.log == []
    ensures !files[i].torn ==> files[i].log != [] && LastOf(files[i].log) == ends[i]
  {
    var n := |files| - 1;
    if i < n {
      assert files[..n][i] == files[i];
    }
    if !files[i].torn {
      assert SegmentOk(RepairedEnds(ends, files)[i], RepairedFiles(files)[i]);
    }
  }

  /** Nothing else is asked: a sound history of up to 1024 segments is accepted. */
  lemma SoundIsAccepted(ends: seq<nat>, files: seq<FileInfo>, active: FileInfo)
    requires |ends| == |files| <= 1024 && Sound(ends, files, active)
    ensures HistoryOk(ends, files, active)
  {
    if files != [] {
      assert forall i | 0 <= i < |files| - 1 :: files[..|files| - 1][i] == files[i];
    }
  }

  lemma WholeIsKept(ends: seq<nat>, files: seq<FileInfo>)
    requires |ends| == |files| && (files != [] ==> !files[|files| - 1].torn)
    ensures RepairedEnds(ends, files) == ends && RepairedFiles(files) == files
  {
  }
}
