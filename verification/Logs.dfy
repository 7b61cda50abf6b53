/** What a binlog file holds, and how recovery inspects one. */
module Logs {
  import opened Model
  import opened Wire
  import opened EntryCodec
  import opened BatchCodec
  import opened Framing
  import opened Scan

  /** The uninterpreted parts of the file format. */
  datatype Formats = Formats(crc: Checksum, json: Json)

  datatype LogRecord = LogRecord(sequence: nat, batch: Batch)

  type Log = seq<LogRecord>

  function DecodeOne(record: Bytes, f: Formats): Option<LogRecord> {
    var decoded := DecodeRecord(record, f.crc);
    if decoded.None? then None
    else
      var batch := DecodedBatch(decoded.value.payload, f.json);
      if batch.None? then None else Some(LogRecord(decoded.value.sequence, batch.value))
  }

  predicate AllDecode(records: seq<Bytes>, f: Formats) {
    forall i :: 0 <= i < |records| ==> DecodeOne(records[i], f).Some?
  }

  function DecodeAll(records: seq<Bytes>, f: Formats): (log: Log)
    requires AllDecode(records, f)
    ensures |log| == |records| && forall i :: 0 <= i < |log| ==> DecodeOne(records[i], f) == Some(log[i])
  {
    seq(|records|, i requires 0 <= i < |records| => DecodeOne(records[i], f).value)
  }

  /** Sequences rise by one from the first record on. */
  predicate Contiguous(log: Log) {
    forall i :: 0 <= i < |log| ==> log[i].sequence == log[0].sequence + i
  }

  /** The records of a file, whatever follows its valid part. */
  function LogOf(file: Bytes, f: Formats): Log {
    var records := ScanFile(file).records;
    if AllDecode(records, f) then DecodeAll(records, f) else []
  }

  predicate FileOk(file: Bytes, f: Formats) {
    && !ScanFile(file).end.Corrupt?
    && AllDecode(ScanFile(file).records, f)
    && Contiguous(LogOf(file, f))
  }

  function FirstOf(log: Log): Option<nat> { if log == [] then None else Some(log[0].sequence) }

  function LastOf(log: Log): nat { if log == [] then 0 else log[|log| - 1].sequence }

  /** What inspection establishes about a file. */
  datatype FileInfo = FileInfo(log: Log, validLen: nat, torn: bool)

  function InfoOf(file: Bytes, f: Formats): Option<FileInfo> {
    var s := ScanFile(file);
    if FileOk(file, f) then Some(FileInfo(LogOf(file, f), s.validLen, s.end.Torn?)) else None
  }

  /** What inspection remembers of it. */
  datatype Inspection = Inspection(minSequence: Option<nat>, maxSequence: nat, validLen: nat, tornTail: bool)

  function Summary(info: FileInfo): Inspection {
    Inspection(FirstOf(info.log), LastOf(info.log), info.validLen, info.torn)
  }

  /** The records visited so far decode to `log`, which runs without a gap. */
  ghost predicate Visited(records: seq<Bytes>, log: Log, f: Formats) {
    && |log| <= |records| && Contiguous(log)
    && forall i :: 0 <= i < |log| ==> DecodeOne(records[i], f) == Some(log[i])
  }

  lemma ContiguousNext(log: Log, next: LogRecord)
    requires Contiguous(log) && (log == [] || LastOf(log) + 1 == next.sequence)
    ensures Contiguous(log + [next])
  {
  }

  lemma VisitedNext(records: seq<Bytes>, log: Log, next: LogRecord, f: Formats)
    requires Visited(records, log, f) && |log| < |records|
    requires DecodeOne(records[|log|], f) == Some(next)
    requires log == [] || LastOf(log) + 1 == next.sequence
    ensures Visited(records, log + [next], f)
  {
    ContiguousNext(log, next);
  }

  lemma VisitedGap(records: seq<Bytes>, log: Log, next: LogRecord, f: Formats)
    requires Visited(records, log, f) && |log| < |records|
    requires DecodeOne(records[|log|], f) == Some(next)
    requires log != [] && LastOf(log) + 1 != next.sequence
    ensures AllDecode(records, f) ==> !Contiguous(DecodeAll(records, f))
  {
    if AllDecode(records, f) {
      var whole, i := DecodeAll(records, f), |log|;
      assert DecodeOne(records[i], f) == Some(whole[i]) && DecodeOne(records[i - 1], f) == Some(whole[i - 1]);
      assert DecodeOne(records[0], f) == Some(whole[0]) && log[0] == whole[0];
    }
  }

  lemma VisitedAll(records: seq<Bytes>, log: Log, f: Formats)
    requires Visited(records, log, f) && |log| == |records|
    ensures AllDecode(records, f) && DecodeAll(records, f) == log
  {
  }

  method InspectBinlog(file: Bytes, f: Formats) returns (r: Option<Inspection>)
    ensures r == if InfoOf(file, f).Some? then Some(Summary(InfoOf(file, f).value)) else None
  {
    var records, validLen, end := ForEachBinlogRecord(file);
    var minSequence: Option<nat> := None;
    var maxSequence: nat := 0;
    var lastSequence: Option<nat> := None;
    ghost var log: Log := [];
    var i := 0;
    while i < |records|
      invariant i == |log| && Visited(records, log, f)
      invariant minSequence == FirstOf(log) && maxSequence == LastOf(log)
      invariant lastSequence == if log == [] then None else Some(LastOf(log))
    {
      var decoded := DecodeRecord(records[i], f.crc);
      if decoded.None? {
        return None;
      }
      var sequence := decoded.value.sequence;
      var batch := DecodeCommittedBatch(decoded.value.payload, f.json);
      if batch.None? {
        return None;
      }
      ghost var next := LogRecord(sequence, batch.value);
      if lastSequence.Some? && lastSequence.value + 1 != sequence {
        VisitedGap(records, log, next, f);
        return None;
      }
      VisitedNext(records, log, next, f);
      log := log + [next];
      minSequence := if minSequence.None? then Some(sequence) else minSequence;
      maxSequence, lastSequence := sequence, Some(sequence);
      i := i + 1;
    }
    VisitedAll(records, log, f);
    r := if end.Corrupt? then None else Some(Inspection(minSequence, maxSequence, validLen, end.Torn?));
  }

  // ---- Cutting off a torn tail ----

  lemma FrontOfPrefix(file: Bytes, cut: nat)
    requires Front(file).Next? && |file| - |Front(file).rest| <= cut <= |file|
    ensures Front(file[..cut]).Next?
    ensures Front(file[..cut]).record == Front(file).record
    ensures Front(file[..cut]).rest == Front(file).rest[..cut - (|file| - |Front(file).rest|)]
  {
    var step := Front(file);
    FrontIsFrame(file);
    var size := |Frame(step.record)|;
    assert file[..cut][..4] == file[..4];
    var tail, part := file[4..], file[..cut][4..];
    assert part == tail[..cut - 4];
    assert part[..|step.record|] == tail[..|step.record|];
    assert part[|step.record|..] == tail[|step.record|..][..cut - size];
  }

  /** For every file, keeping the valid part keeps every record and leaves no
      torn tail. */
  lemma {:induction false} ScanOfValidPart(file: Bytes)
    ensures var s := ScanFile(file);
      s.validLen <= |file| && ScanFile(file[..s.validLen]) == Scanned(s.records, s.validLen, Clean)
    decreases |file|
  {
    ScanIsPrefix(file);
    var s := ScanFile(file);
    if Front(file).Next? {
      ScanStep(file);
      ScanOfValidPart(Front(file).rest);
      FrontOfPrefix(file, s.validLen);
      ScanStep(file[..s.validLen]);
    } else {
      assert file[..0] == [];
    }
  }

  lemma TruncationKeepsLog(file: Bytes, f: Formats)
    requires InfoOf(file, f).Some?
    ensures var info := InfoOf(file, f).value;
      info.validLen <= |file| && InfoOf(file[..info.validLen], f) == Some(info.(torn := false))
  {
    ScanOfValidPart(file);
  }

  /** A file whose whole records are followed by a contradiction is refused; one whose
      tail is that of an interrupted append is read up to it, if its records are. */
  lemma TailDecides(records: seq<Bytes>, t: Bytes, f: Formats)
    requires AllWritten(records, f.crc)
    ensures Contradictory(t) ==> InfoOf(Frames(records) + t, f) == None
    ensures Interrupted(t) && AllDecode(records, f) && Contiguous(DecodeAll(records, f)) ==>
      InfoOf(Frames(records) + t, f) == Some(FileInfo(DecodeAll(records, f), |Frames(records)|, true))
  {
    TailIff(records, t, f.crc);
  }
}
