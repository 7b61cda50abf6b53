/** The data directory: sealed segments, the active binlog and the snapshot files,
as startup finds and repairs them. */
module Directories {
  import opened Model
  import opened Scan
  import opened Logs
  import opened History
  import opened Recovery

  /** `ends` lists the catalog in ascending order. */
  ghost predicate Lists(ends: seq<nat>, catalog: Catalog) {
    Ascending(ends) && forall e :: e in ends <==> e in catalog
  }

  lemma InFront(ends: seq<nat>, e: nat)
    requires Ascending(ends) && ends != []
    ensures e in ends[..|ends| - 1] <==> e in ends && e != ends[|ends| - 1]
    ensures e in ends ==> e <= ends[|ends| - 1]
  {
    assert ends == ends[..|ends| - 1] + [ends[|ends| - 1]];
  }

  /** The ascending listing is unique, whatever order the directory is read in. */
  lemma {:induction false} ListsUnique(a: seq<nat>, b: seq<nat>)
    requires Ascending(a) && Ascending(b) && forall e :: e in a <==> e in b
    ensures a == b
  {
    assert |a| > 0 ==> a[|a| - 1] in b;
    assert |b| > 0 ==> b[|b| - 1] in a;
    if a != [] {
      InFront(a, b[|b| - 1]);
      InFront(b, a[|a| - 1]);
      var front, other := a[..|a| - 1], b[..|b| - 1];
      forall e ensures e in front <==> e in other {
        InFront(a, e);
        InFront(b, e);
      }
      ListsUnique(front, other);
      assert a == front + [a[|a| - 1]] && b == other + [b[|b| - 1]];
    }
  }

  function InsertEnd(ends: seq<nat>, e: nat): (r: seq<nat>)
    requires Ascending(ends) && e !in ends
    ensures Ascending(r) && forall x :: x in r <==> x in ends || x == e
  {
    if ends == [] then [e]
    else if ends[|ends| - 1] < e then ends + [e]
    else
      var last := ends[|ends| - 1];
      var front := ends[..|ends| - 1];
      assert ends == front + [last];
      var placed := InsertEnd(front, e);
      assert forall i | 0 <= i < |placed| :: placed[i] in placed && placed[i] < last;
      placed + [last]
  }

  method ListSegments(catalog: Catalog) returns (ends: seq<nat>)
    ensures Lists(ends, catalog)
  {
    ends := [];
    var left := catalog.Keys;
    while left != {}
      invariant Ascending(ends) && left <= catalog.Keys
      invariant forall e :: e in ends <==> e in catalog && e !in left
      decreases |left|
    {
      var e :| e in left;
      ends := InsertEnd(ends, e);
      left := left - {e};
    }
  }

  // ---- Inspecting the listed files ----

  ghost predicate Readable(ends: seq<nat>, catalog: Catalog, f: Formats) {
    forall i :: 0 <= i < |ends| ==> ends[i] in catalog && InfoOf(catalog[ends[i]], f).Some?
  }

  ghost function InfosOf(ends: seq<nat>, catalog: Catalog, f: Formats): (r: seq<FileInfo>)
    requires Readable(ends, catalog, f)
    ensures |r| == |ends| && forall i :: 0 <= i < |ends| ==> InfoOf(catalog[ends[i]], f) == Some(r[i])
  {
    seq(|ends|, i requires 0 <= i < |ends| => InfoOf(catalog[ends[i]], f).value)
  }

  lemma InfoContiguous(file: Bytes, f: Formats)
    requires InfoOf(file, f).Some?
    ensures Contiguous(InfoOf(file, f).value.log)
  {
  }

  ghost predicate Summaries(inspections: seq<Inspection>, ends: seq<nat>, catalog: Catalog, f: Formats) {
    Readable(ends, catalog, f) && Summarize(inspections, InfosOf(ends, catalog, f))
  }

  lemma SummariesNext(inspections: seq<Inspection>, ends: seq<nat>, e: nat, catalog: Catalog, f: Formats)
    requires Summaries(inspections, ends, catalog, f) && e in catalog && InfoOf(catalog[e], f).Some?
    ensures Summaries(inspections + [Summary(InfoOf(catalog[e], f).value)], ends + [e], catalog, f)
  {
    InfoContiguous(catalog[e], f);
    assert Readable(ends + [e], catalog, f);
    assert InfosOf(ends + [e], catalog, f) == InfosOf(ends, catalog, f) + [InfoOf(catalog[e], f).value];
  }

  lemma SummariesUpTo(inspections: seq<Inspection>, ends: seq<nat>, i: nat, next: nat, catalog: Catalog, f: Formats)
    requires next == i + 1 <= |ends| && Summaries(inspections, ends[..i], catalog, f)
    requires ends[i] in catalog && InfoOf(catalog[ends[i]], f).Some?
    ensures Summaries(inspections + [Summary(InfoOf(catalog[ends[i]], f).value)], ends[..next], catalog, f)
  {
    SummariesNext(inspections, ends[..i], ends[i], catalog, f);
    assert ends[..i] + [ends[i]] == ends[..next];
  }

  method InspectSegments(ends: seq<nat>, catalog: Catalog, f: Formats) returns (r: Option<seq<Inspection>>)
    requires forall e :: e in ends ==> e in catalog
    ensures r.Some? <==> Readable(ends, catalog, f)
    ensures r.Some? ==> Summaries(r.value, ends, catalog, f)
  {
    var inspections: seq<Inspection> := [];
    var i := 0;
    while i < |ends|
      invariant 0 <= i <= |ends|
      invariant Summaries(inspections, ends[..i], catalog, f)
    {
      var end := ends[i];
      var inspection := InspectBinlog(catalog[end], f);
      if inspection.None? {
        return None;
      }
      var next := i + 1;
      SummariesUpTo(inspections, ends, i, next, catalog, f);
      inspections, i := inspections + [inspection.value], next;
    }
    assert ends[..i] == ends;
    r := Some(inspections);
  }

  /** What startup demands of the catalog and the active file. */
  ghost predicate CatalogOk(ends: seq<nat>, catalog: Catalog, active: Bytes, f: Formats) {
    && Readable(ends, catalog, f) && InfoOf(active, f).Some?
    && HistoryOk(ends, InfosOf(ends, catalog, f), InfoOf(active, f).value)
  }

  /** The bytes of a file that inspection vouches for. */
  ghost function ValidPart(file: Bytes, f: Formats): Bytes {
    var info := InfoOf(file, f);
    if info.Some? && info.value.validLen <= |file| then file[..info.value.validLen] else file
  }

  /** Repair touches the last segment at most: a torn one is cut after its last
      record and named after it, or removed when it has none. */
  ghost function RepairedCatalog(ends: seq<nat>, catalog: Catalog, f: Formats): Catalog
    requires Readable(ends, catalog, f)
  {
    if ends == [] then catalog
    else
      var end := ends[|ends| - 1];
      var info := InfoOf(catalog[end], f).value;
      if !info.torn then catalog
      else if info.log == [] then catalog - {end}
      else (catalog - {end})[LastOf(info.log) := ValidPart(catalog[end], f)]
  }

  /** `after` lists, in `ends'`, what repairing `catalog` leaves. */
  ghost predicate RepairedTo(ends: seq<nat>, catalog: Catalog, ends': seq<nat>, after: Catalog, f: Formats)
    requires Readable(ends, catalog, f)
  {
    && (forall e :: e in ends' <==> e in after) && Readable(ends', after, f)
    && after == RepairedCatalog(ends, catalog, f)
    && ends' == RepairedEnds(ends, InfosOf(ends, catalog, f))
    && InfosOf(ends', after, f) == RepairedFiles(InfosOf(ends, catalog, f))
  }

  lemma ListsWithoutLast(ends: seq<nat>, catalog: Catalog)
    requires Lists(ends, catalog) && ends != []
    ensures Lists(ends[..|ends| - 1], catalog - {ends[|ends| - 1]})
  {
    var n := |ends| - 1;
    assert ends == ends[..n] + [ends[n]];
  }

  lemma ListsNext(ends: seq<nat>, catalog: Catalog, e: nat, file: Bytes)
    requires Lists(ends, catalog) && (ends == [] || ends[|ends| - 1] < e)
    ensures Lists(ends + [e], catalog[e := file])
  {
    AscendingNext(ends, e);
  }

  lemma ListsTail(ends: seq<nat>, catalog: Catalog)
    requires Lists(ends, catalog) && ends != []
    ensures Lists(ends[1..], catalog - {ends[0]})
  {
    var first, tail := ends[0], ends[1..];
    assert ends == [first] + tail;
    forall i, j | 0 <= i < j < |tail| ensures tail[i] < tail[j] {
      assert tail[i] == ends[i + 1] && tail[j] == ends[j + 1];
    }
    forall e ensures e in tail <==> e in ends && e != first {
      if e in tail {
        var i :| 0 <= i < |tail| && tail[i] == e;
        assert ends[i + 1] == e;
      }
    }
  }

  /** Removing the last segment of a listing. */
  lemma WithoutLast(ends: seq<nat>, catalog: Catalog, f: Formats)
    requires Lists(ends, catalog) && Readable(ends, catalog, f) && ends != []
    ensures var n := |ends| - 1; var after := catalog - {ends[n]};
      && Lists(ends[..n], after) && Readable(ends[..n], after, f)
      && InfosOf(ends[..n], after, f) == InfosOf(ends, catalog, f)[..n]
  {
    var n := |ends| - 1;
    var front, after := ends[..n], catalog - {ends[n]};
    ListsWithoutLast(ends, catalog);
    forall i | 0 <= i < n ensures front[i] in after && after[front[i]] == catalog[ends[i]] {
      assert front[i] == ends[i] && ends[i] < ends[n];
    }
  }

  /** Adding a last segment to a listing. */
  lemma WithLast(ends: seq<nat>, catalog: Catalog, e: nat, file: Bytes, f: Formats)
    requires Readable(ends, catalog, f) && (forall x :: x in ends <==> x in catalog) && e !in ends
    requires InfoOf(file, f).Some?
    ensures var after := catalog[e := file];
      && (forall x :: x in ends + [e] <==> x in after) && Readable(ends + [e], after, f)
      && InfosOf(ends + [e], after, f) == InfosOf(ends, catalog, f) + [InfoOf(file, f).value]
  {
    var after := catalog[e := file];
    assert forall i | 0 <= i < |ends| :: (ends + [e])[i] == ends[i] && ends[i] in ends;
    assert (ends + [e])[|ends|] == e;
  }

  lemma SummarizeFront(inspections: seq<Inspection>, files: seq<FileInfo>)
    requires Summarize(inspections, files) && files != []
    ensures Summarize(inspections[..|files| - 1], files[..|files| - 1])
  {
  }

  lemma SummarizeNext(inspections: seq<Inspection>, files: seq<FileInfo>, file: FileInfo)
    requires Summarize(inspections, files) && Contiguous(file.log)
    ensures Summarize(inspections + [Summary(file)], files + [file])
  {
  }

  /** The records of a catalog and its active file. */
  ghost function HistoryLog(ends: seq<nat>, catalog: Catalog, active: Bytes, f: Formats): Log {
    if Readable(ends, catalog, f) && InfoOf(active, f).Some?
    then Joined(InfosOf(ends, catalog, f) + [InfoOf(active, f).value])
    else []
  }

  lemma RepairKeepsHistory(files: seq<FileInfo>, active: FileInfo)
    ensures Joined(RepairedFiles(files) + [active]) == Joined(files + [active])
  {
    RepairKeepsRecords(files);
    JoinedNext(files, active);
    JoinedNext(RepairedFiles(files), active);
  }

  /** After inspection and repair the remembered summaries describe one gap-free
      history with the records that were found. */
  lemma AdmittedHistory(ends: seq<nat>, before: Catalog, ends': seq<nat>, after: Catalog, inspections: seq<Inspection>,
                        active: Bytes, f: Formats)
    requires CatalogOk(ends, before, active, f) && RepairedTo(ends, before, ends', after, f)
    requires Summaries(inspections, ends', after, f)
    ensures var info := InfoOf(active, f).value; var infos := InfosOf(ends', after, f) + [info];
      && Summarize(inspections + [Summary(info)], infos) && Contiguous(Joined(infos))
      && HistoryLog(ends, before, active, f) == Joined(infos)
  {
    var info := InfoOf(active, f).value;
    RepairKeepsHistory(InfosOf(ends, before, f), info);
    InfoContiguous(active, f);
    SummarizeNext(inspections, InfosOf(ends', after, f), info);
  }

  lemma WholeWhenClean(file: Bytes, f: Formats)
    requires InfoOf(file, f).Some?
    ensures var info := InfoOf(file, f).value;
      info.validLen <= |file| && (!info.torn ==> file[..info.validLen] == file)
  {
    ScanIsPrefix(file);
  }

  /** Recovery succeeds on exactly these directories. */
  ghost predicate Loadable(ends: seq<nat>, catalog: Catalog, active: Bytes, chosen: Option<SnapshotFile>, f: Formats) {
    && chosen != Some(Unreadable) && CatalogOk(ends, catalog, active, f)
    && Reaches(HistoryLog(ends, catalog, active, f), WatermarkOf(chosen))
  }

  /** The repaired catalog without the covered segments that could be removed. */
  ghost predicate Cleaned(ends: seq<nat>, before: Catalog, after: Catalog, watermark: nat, removable: set<nat>, f: Formats) {
    Readable(ends, before, f) &&
    var repaired := RepairedCatalog(ends, before, f);
    after == map e | e in repaired && !(e <= watermark && e in removable) :: repaired[e]
  }

  /** What the first torn segment of a catalog means for repair. */
  lemma RepairDecision(ends: seq<nat>, catalog: Catalog, inspections: seq<Inspection>, info: FileInfo, index: nat, f: Formats)
    requires Lists(ends, catalog) && Summaries(inspections, ends, catalog, f) && index <= |ends|
    requires index < |ends| ==> inspections[index].tornTail
    requires forall i :: 0 <= i < index ==> !inspections[i].tornTail
    ensures index == |ends| ==> Repairable(ends, InfosOf(ends, catalog, f), info) && RepairedTo(ends, catalog, ends, catalog, f)
    ensures index < |ends| && (index + 1 != |ends| || info.log != []) ==> !Repairable(ends, InfosOf(ends, catalog, f), info)
    ensures index + 1 == |ends| && info.log == [] ==>
      (Repairable(ends, InfosOf(ends, catalog, f), info) <==> !NameTaken(ends, InfosOf(ends, catalog, f)))
  {
    TornDecision(ends, inspections, InfosOf(ends, catalog, f), info, index);
    if index == |ends| {
      NothingToRepair(ends, catalog, inspections, f);
    }
  }

  lemma NothingToRepair(ends: seq<nat>, catalog: Catalog, inspections: seq<Inspection>, f: Formats)
    requires Lists(ends, catalog) && Summaries(inspections, ends, catalog, f)
    requires ends != [] ==> !inspections[|ends| - 1].tornTail
    ensures RepairedTo(ends, catalog, ends, catalog, f)
  {
    if ends != [] {
      var info := LastSummary(ends, catalog, inspections, f);
      LastIsKept(ends, catalog, f);
    }
  }

  /** Repair leaves a catalog alone whose last segment is whole. */
  lemma LastIsKept(ends: seq<nat>, catalog: Catalog, f: Formats)
    requires Readable(ends, catalog, f) && (ends != [] ==> !InfosOf(ends, catalog, f)[|ends| - 1].torn)
    ensures RepairedCatalog(ends, catalog, f) == catalog
    ensures RepairedEnds(ends, InfosOf(ends, catalog, f)) == ends
    ensures RepairedFiles(InfosOf(ends, catalog, f)) == InfosOf(ends, catalog, f)
  {
    var infos := InfosOf(ends, catalog, f);
    WholeIsKept(ends, infos);
    if ends != [] {
      LastOfCatalog(ends, catalog, infos[|ends| - 1], f);
    }
  }

  lemma LastOfCatalog(ends: seq<nat>, catalog: Catalog, info: FileInfo, f: Formats)
    requires Readable(ends, catalog, f) && ends != [] && InfoOf(catalog[ends[|ends| - 1]], f) == Some(info) && !info.torn
    ensures RepairedCatalog(ends, catalog, f) == catalog
  {
  }

  /** A torn last segment without records. */
  lemma EmptyRepaired(ends: seq<nat>, catalog: Catalog, inspections: seq<Inspection>, f: Formats)
    requires Lists(ends, catalog) && Summaries(inspections, ends, catalog, f) && ends != []
    requires inspections[|ends| - 1].tornTail && inspections[|ends| - 1].minSequence.None?
    ensures var n := |ends| - 1; var others := catalog - {ends[n]};
      && RepairedTo(ends, catalog, ends[..n], others, f) && Summaries(inspections[..n], ends[..n], others, f)
      && !NameTaken(ends, InfosOf(ends, catalog, f))
  {
    var n := |ends| - 1;
    var infos := InfosOf(ends, catalog, f);
    var info := LastSummary(ends, catalog, inspections, f);
    WithoutLast(ends, catalog, f);
    SummarizeFront(inspections, infos);
  }

  /** A torn last segment with records, none of the others named after them. */
  lemma RenamedRepaired(ends: seq<nat>, catalog: Catalog, inspections: seq<Inspection>, f: Formats)
    requires Lists(ends, catalog) && Summaries(inspections, ends, catalog, f) && ends != []
    requires inspections[|ends| - 1].tornTail && inspections[|ends| - 1].minSequence.Some? && !NameTaken(ends, InfosOf(ends, catalog, f))
    ensures var n := |ends| - 1; var corrected := inspections[n].maxSequence;
      var after := (catalog - {ends[n]})[corrected := ValidPart(catalog[ends[n]], f)];
      && RepairedTo(ends, catalog, ends[..n] + [corrected], after, f)
      && Summaries(inspections[..n] + [inspections[n].(tornTail := false)], ends[..n] + [corrected], after, f)
  {
    var n := |ends| - 1;
    var infos := InfosOf(ends, catalog, f);
    var info := LastSummary(ends, catalog, inspections, f);
    var file := catalog[ends[n]];
    WithoutLast(ends, catalog, f);
    SummarizeFront(inspections, infos);
    TruncationKeepsLog(file, f);
    WithLast(ends[..n], catalog - {ends[n]}, inspections[n].maxSequence, ValidPart(file, f), f);
    SummarizeNext(inspections[..n], infos[..n], info.(torn := false));
  }

  /** The last file, as inspection remembers it. */
  lemma LastSummary(ends: seq<nat>, catalog: Catalog, inspections: seq<Inspection>, f: Formats) returns (info: FileInfo)
    requires Summaries(inspections, ends, catalog, f) && ends != []
    ensures |inspections| == |ends| && info == InfosOf(ends, catalog, f)[|ends| - 1]
    ensures inspections[|ends| - 1] == Summary(info)
    ensures InfoOf(catalog[ends[|ends| - 1]], f) == Some(info) && info.validLen <= |catalog[ends[|ends| - 1]]|
  {
    var n := |ends| - 1;
    info := InfosOf(ends, catalog, f)[n];
    WholeWhenClean(catalog[ends[n]], f);
  }

  /** How the code decides that the name is taken. */
  lemma NameTakenIff(ends: seq<nat>, catalog: Catalog, files: seq<FileInfo>)
    requires Lists(ends, catalog) && |ends| == |files| > 0 && files[|ends| - 1].log != []
    ensures var end := ends[|ends| - 1]; var corrected := LastOf(files[|ends| - 1].log);
      NameTaken(ends, files) <==> corrected != end && corrected in catalog - {end}
  {
    InFront(ends, LastOf(files[|ends| - 1].log));
  }

  lemma FilesRead(files: seq<Bytes>, ends: seq<nat>, catalog: Catalog, active: Bytes, f: Formats)
    requires Readable(ends, catalog, f) && InfoOf(active, f).Some? && |files| == |ends|
    requires forall j :: 0 <= j < |ends| ==> files[j] == catalog[ends[j]]
    ensures Read(files + [active], InfosOf(ends, catalog, f) + [InfoOf(active, f).value], f)
  {
  }

  // ---- Which snapshot startup takes ----

  /** The watermark is that of the primary snapshot, or without one that of the
      backup, or without either zero. */
  predicate Preferred(snapshot: Option<SnapshotFile>, backup: Option<SnapshotFile>, watermark: nat) {
    match snapshot
    case Some(primary) => primary.Versioned? && watermark == primary.watermark
    case None => (
      match backup
      case Some(older) => older.Versioned? && watermark == older.watermark
      case None => watermark == 0)
  }

  lemma PrimaryIsPreferred(snapshot: Option<SnapshotFile>, backup: Option<SnapshotFile>)
    ensures Chosen(snapshot, backup) != Some(Unreadable) ==> Preferred(snapshot, backup, WatermarkOf(Chosen(snapshot, backup)))
  {
  }

  // ---- What startup refuses ----

  /** A file of whole records that goes on with bytes no append can have left is
      refused, as a segment and as the active file. */
  lemma ContradictionIsRefused(ends: seq<nat>, catalog: Catalog, active: Bytes, chosen: Option<SnapshotFile>, f: Formats,
                               file: Bytes, records: seq<Bytes>, t: Bytes)
    requires AllWritten(records, f.crc) && file == Frames(records) + t && Contradictory(t)
    requires file == active || exists e :: e in ends && e in catalog && catalog[e] == file
    ensures !Loadable(ends, catalog, active, chosen, f)
  {
    TailDecides(records, t, f);
  }

  /** What is accepted: at most 1024 segments; every record decodes; only the last
      segment may be torn, and only without a record behind it; every other segment
      ends with the record it is named after; the sequences rise by one from the first
      record to the last; and the first is not above the one after the watermark. */
  lemma LoadableIs(ends: seq<nat>, catalog: Catalog, active: Bytes, chosen: Option<SnapshotFile>, f: Formats)
    requires Loadable(ends, catalog, active, chosen, f)
    ensures chosen != Some(Unreadable) && |ends| <= 1024 && ScanFile(active).end != Corrupt && AllDecode(ScanFile(active).records, f)
    ensures forall i :: 0 <= i < |ends| ==> ends[i] in catalog && SegmentIs(ends, catalog, active, i, f)
    ensures var log := HistoryLog(ends, catalog, active, f);
      && (forall i :: 0 <= i < |log| ==> log[i].sequence == log[0].sequence + i)
      && (log != [] ==> log[0].sequence <= WatermarkOf(chosen) + 1)
  {
    var files, info := InfosOf(ends, catalog, f), InfoOf(active, f).value;
    RepairKeepsHistory(files, info);
    forall i | 0 <= i < |ends| ensures ends[i] in catalog && SegmentIs(ends, catalog, active, i, f) {
      SegmentAccepted(ends, catalog, active, i, f);
    }
  }

  ghost predicate SegmentIs(ends: seq<nat>, catalog: Catalog, active: Bytes, i: nat, f: Formats)
    requires i < |ends| && ends[i] in catalog
  {
    var s := ScanFile(catalog[ends[i]]);
    && s.end != Corrupt && AllDecode(s.records, f)
    && (s.end == Torn ==> i == |ends| - 1 && ScanFile(active).records == [])
    && (s.end == Clean ==> s.records != [] && DecodeOne(s.records[|s.records| - 1], f).value.sequence == ends[i])
  }

  lemma SegmentAccepted(ends: seq<nat>, catalog: Catalog, active: Bytes, i: nat, f: Formats)
    requires CatalogOk(ends, catalog, active, f) && i < |ends|
    ensures ends[i] in catalog && SegmentIs(ends, catalog, active, i, f)
  {
    var files, info := InfosOf(ends, catalog, f), InfoOf(active, f).value;
    assert InfoOf(catalog[ends[i]], f) == Some(files[i]);
    AcceptedAt(ends, files, info, i);
    FileIs(catalog[ends[i]], files[i], f);
    FileIs(active, info, f);
  }

  lemma FileIs(file: Bytes, info: FileInfo, f: Formats)
    requires InfoOf(file, f) == Some(info)
    ensures var s := ScanFile(file);
      && s.end != Corrupt && AllDecode(s.records, f) && info.torn == (s.end == Torn) && |info.log| == |s.records|
      && (info.log != [] ==> LastOf(info.log) == DecodeOne(s.records[|s.records| - 1], f).value.sequence)
  {
  }


  class Directory {
    var sealed: Catalog
    var active: Bytes
    var snapshot: Option<SnapshotFile>
    var backup: Option<SnapshotFile>

    constructor (sealed: Catalog, active: Bytes, snapshot: Option<SnapshotFile>, backup: Option<SnapshotFile>)
      ensures this.sealed == sealed && this.active == active
      ensures this.snapshot == snapshot && this.backup == backup
    {
      this.sealed, this.active, this.snapshot, this.backup := sealed, active, snapshot, backup;
    }

    /** Cuts the torn tail off the last segment, then removes an empty segment or
        renames the rest after its last record. */
    method RepairLastIncompleteSegment(ends: seq<nat>, inspections: seq<Inspection>, f: Formats)
      returns (r: Option<(seq<nat>, seq<Inspection>)>)
      requires Lists(ends, sealed) && Summaries(inspections, ends, sealed, f)
      requires ends != [] && inspections[|ends| - 1].tornTail
      modifies this`sealed
      ensures r.None? <==> NameTaken(ends, InfosOf(ends, old(sealed), f))
      ensures r.Some? ==> RepairedTo(ends, old(sealed), r.value.0, sealed, f)
      ensures r.Some? ==> Summaries(r.value.1, r.value.0, sealed, f)
    {
      var n := |ends| - 1;
      var end, inspection := ends[n], inspections[n];
      ghost var info := LastSummary(ends, sealed, inspections, f);
      var kept := sealed[end][..inspection.validLen];
      var others := sealed - {end};
      if inspection.minSequence.None? {
        EmptyRepaired(ends, sealed, inspections, f);
        sealed := others;
        return Some((ends[..n], inspections[..n]));
      }
      NameTakenIff(ends, sealed, InfosOf(ends, sealed, f));
      var corrected := inspection.maxSequence;
      if corrected != end && corrected in others {
        sealed := sealed[end := kept];
        return None;
      }
      RenamedRepaired(ends, sealed, inspections, f);
      sealed := others[corrected := kept];
      r := Some((ends[..n] + [corrected], inspections[..n] + [inspection.(tornTail := false)]));
    }

    /** A torn segment is repaired only when it is the last one and the active file
        holds no record. */
    method RepairTorn(ends: seq<nat>, inspections: seq<Inspection>, activeInspection: Inspection, f: Formats, ghost info: FileInfo)
      returns (r: Option<(seq<nat>, seq<Inspection>)>)
      requires Lists(ends, sealed) && Summaries(inspections, ends, sealed, f) && activeInspection == Summary(info)
      modifies this`sealed
      ensures r.Some? <==> Repairable(ends, InfosOf(ends, old(sealed), f), info)
      ensures r.Some? ==> RepairedTo(ends, old(sealed), r.value.0, sealed, f)
      ensures r.Some? ==> Summaries(r.value.1, r.value.0, sealed, f)
    {
      var index := FirstTorn(inspections);
      RepairDecision(ends, sealed, inspections, info, index, f);
      if index == |inspections| {
        return Some((ends, inspections));
      }
      if index + 1 != |inspections| || activeInspection.minSequence.Some? {
        return None;
      }
      r := RepairLastIncompleteSegment(ends, inspections, f);
    }

    method InspectHistory(f: Formats, ghost ends: seq<nat>) returns (r: Option<(seq<nat>, seq<Inspection>, Inspection)>)
      requires Lists(ends, sealed)
      modifies this`sealed
      ensures r.Some? <==> CatalogOk(ends, old(sealed), active, f)
      ensures r.Some? ==> RepairedTo(ends, old(sealed), r.value.0, sealed, f)
      ensures r.Some? ==> Summaries(r.value.1, r.value.0, sealed, f) && r.value.2 == Summary(InfoOf(active, f).value)
      ensures r.Some? ==> Sound(r.value.0, InfosOf(r.value.0, sealed, f), InfoOf(active, f).value)
    {
      var listed := ListSegments(sealed);
      ListsUnique(listed, ends);
      if |listed| > MAX_BINLOG_SEGMENTS {
        return None;
      }
      var inspections := InspectSegments(listed, sealed, f);
      if inspections.None? {
        return None;
      }
      var activeInspection := InspectBinlog(active, f);
      if activeInspection.None? {
        return None;
      }
      ghost var info := InfoOf(active, f).value;
      var repaired := RepairTorn(listed, inspections.value, activeInspection.value, f, info);
      if repaired.None? {
        return None;
      }
      var (ends', inspections') := repaired.value;
      ghost var infos := InfosOf(ends', sealed, f);
      InfoContiguous(active, f);
      SummarizeNext(inspections', infos, info);
      var segmentsOk := CheckSegments(ends', inspections', infos);
      if !segmentsOk {
        return None;
      }
      var contiguous := CheckContiguous(inspections' + [activeInspection.value], infos + [info]);
      if contiguous {
        RepairedIsSound(ends, InfosOf(ends, old(sealed), f), info);
        r := Some((ends', inspections', activeInspection.value));
      } else {
        r := None;
      }
    }

    /** The files in replay order. */
    method HistoryFiles(ends: seq<nat>, f: Formats) returns (files: seq<Bytes>)
      requires Readable(ends, sealed, f) && InfoOf(active, f).Some?
      ensures Read(files, InfosOf(ends, sealed, f) + [InfoOf(active, f).value], f)
    {
      files := [];
      var i := 0;
      while i < |ends|
        invariant 0 <= i <= |ends| && |files| == i
        invariant forall j :: 0 <= j < i ==> files[j] == sealed[ends[j]]
      {
        files := files + [sealed[ends[i]]];
        i := i + 1;
      }
      FilesRead(files, ends, sealed, active, f);
      files := files + [active];
    }

    /** Removes the sealed segments that the snapshot covers, as far as the file
        system lets them go. */
    method CleanupCovered(ends: seq<nat>, watermark: nat, removable: set<nat>)
      requires forall e :: e in ends <==> e in sealed
      modifies this`sealed
      ensures sealed == map e | e in old(sealed) && !(e <= watermark && e in removable) :: old(sealed)[e]
    {
      ghost var start := sealed;
      var i := 0;
      while i < |ends|
        invariant 0 <= i <= |ends|
        invariant sealed == map e | e in start && !(e <= watermark && e in removable && e in ends[..i]) :: start[e]
      {
        assert ends[..i + 1] == ends[..i] + [ends[i]];
        if ends[i] <= watermark && ends[i] in removable {
          sealed := sealed - {ends[i]};
        }
        i := i + 1;
      }
      assert ends[..i] == ends;
    }

    /** Loads the snapshot and replays the admitted history. */
    method Rebuild(chosen: Option<SnapshotFile>, ends: seq<nat>, inspections: seq<Inspection>, activeInspection: Inspection,
                   f: Formats, now: nat, ghost infos: seq<FileInfo>)
      returns (r: Option<RecoveryState>)
      requires Readable(ends, sealed, f) && InfoOf(active, f).Some?
      requires infos == InfosOf(ends, sealed, f) + [InfoOf(active, f).value]
      requires Summarize(inspections + [activeInspection], infos) && Contiguous(Joined(infos))
      ensures r.Some? <==> Reaches(Joined(infos), WatermarkOf(chosen))
      ensures r.Some? ==> r.value == Recovered(chosen, Joined(infos), now)
    {
      var watermark := WatermarkOf(chosen);
      var history := inspections + [activeInspection];
      var first := FirstSequence(history, infos);
      if first.Some? && first.value > watermark + 1 {
        return None;
      }
      var base := LoadSnapshotEntries(EntriesOf(chosen), now);
      var files := HistoryFiles(ends, f);
      var replay := ReplayFiles(files, watermark, base, f, infos);
      if replay.None? {
        return None;
      }
      var last := GreatestSequence(history, infos);
      r := Some(RecoveryState(replay.value.staging, Max(watermark, last), watermark, replay.value.count));
    }

    /** Cuts off the torn tail of the active file and drops covered segments. */
    method Settle(ends: seq<nat>, activeInspection: Inspection, watermark: nat, removable: set<nat>, f: Formats, ghost before: seq<nat>, ghost start: Catalog)
      requires InfoOf(active, f).Some? && activeInspection == Summary(InfoOf(active, f).value)
      requires Readable(before, start, f) && RepairedTo(before, start, ends, sealed, f)
      modifies this`sealed, this`active
      ensures active == ValidPart(old(active), f)
      ensures Cleaned(before, start, sealed, watermark, removable, f)
    {
      WholeWhenClean(active, f);
      if activeInspection.tornTail {
        active := active[..activeInspection.validLen];
      }
      CleanupCovered(ends, watermark, removable);
    }

    /** Recovery succeeds exactly on a readable snapshot and an admissible history
        that reaches back to the watermark; the replay-time contiguity error never
        occurs. The result is the snapshot with the later records applied. */
    method LoadData(f: Formats, now: nat, removable: set<nat>, ghost ends: seq<nat>) returns (r: Option<RecoveryState>)
      requires Lists(ends, sealed)
      modifies this`sealed, this`active
      ensures r.Some? <==> Loadable(ends, old(sealed), old(active), Chosen(snapshot, backup), f)
      ensures r.Some? ==> r.value == Recovered(Chosen(snapshot, backup), HistoryLog(ends, old(sealed), old(active), f), now)
      ensures r.Some? ==> active == ValidPart(old(active), f)
      ensures r.Some? ==> Cleaned(ends, old(sealed), sealed, r.value.watermark, removable, f)
      ensures r.None? ==> active == old(active)
      ensures r.Some? ==> Preferred(snapshot, backup, r.value.watermark)
    {
      var chosen := if snapshot.Some? then snapshot else backup;
      if chosen == Some(Unreadable) {
        return None;
      }
      ghost var start := sealed;
      var history := InspectHistory(f, ends);
      if history.None? {
        return None;
      }
      var (ends', inspections, activeInspection) := history.value;
      r := LoadAdmitted(chosen, ends', inspections, activeInspection, f, now, removable, ends, start);
      PrimaryIsPreferred(snapshot, backup);
    }

    /** Loads an inspected and repaired history, then settles the files. */
    method LoadAdmitted(chosen: Option<SnapshotFile>, ends: seq<nat>, inspections: seq<Inspection>, activeInspection: Inspection,
                        f: Formats, now: nat, removable: set<nat>, ghost before: seq<nat>, ghost start: Catalog)
      returns (r: Option<RecoveryState>)
      requires CatalogOk(before, start, active, f) && RepairedTo(before, start, ends, sealed, f)
      requires Summaries(inspections, ends, sealed, f) && activeInspection == Summary(InfoOf(active, f).value)
      modifies this`sealed, this`active
      ensures r.Some? <==> Reaches(HistoryLog(before, start, old(active), f), WatermarkOf(chosen))
      ensures r.Some? ==> r.value == Recovered(chosen, HistoryLog(before, start, old(active), f), now)
      ensures r.Some? ==> active == ValidPart(old(active), f)
      ensures r.Some? ==> Cleaned(before, start, sealed, r.value.watermark, removable, f)
      ensures r.None? ==> active == old(active)
    {
      ghost var infos := InfosOf(ends, sealed, f) + [InfoOf(active, f).value];
      AdmittedHistory(before, start, ends, sealed, inspections, active, f);
      r := Rebuild(chosen, ends, inspections, activeInspection, f, now, infos);
      if r.Some? {
        Settle(ends, activeInspection, r.value.watermark, removable, f, before, start);
      }
    }

    /** Installs a written and synced snapshot by two renames, either of which may
        fail: recovery finds the new snapshot exactly on success, and otherwise
        still the one it would have found before. */
    method InstallSnapshot(temp: SnapshotFile, asideFails: bool, installFails: bool, restoreFails: bool) returns (ok: bool)
      modifies this`snapshot, this`backup
      ensures ok ==> snapshot == Some(temp) && backup == (if old(snapshot).Some? then old(snapshot) else old(backup))
      ensures !ok ==> Chosen(snapshot, backup) == old(Chosen(snapshot, backup))
      ensures ok <==> !(old(snapshot).Some? && asideFails) && !installFails
    {
      if snapshot.Some? {
        if asideFails {
          return false;
        }
        backup, snapshot := snapshot, None;
      }
      if installFails {
        if snapshot.None? && backup.Some? && !restoreFails {
          snapshot, backup := backup, None;
        }
        return false;
      }
      snapshot := Some(temp);
      ok := true;
    }
  }
}
