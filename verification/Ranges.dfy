/** A committed history as bytes on disk: which file contents hold a range of it,
and what inspecting them yields after any byte cut. */
module Ranges {
  import opened Model
  import opened Wire
  import opened BatchCodec
  import opened Framing
  import opened Scan
  import opened Logs
  import opened History

  /** An accepted batch and the payload it was encoded to. Entry `i` of a history
      has sequence `i + 1`. */
  datatype Committed = Committed(payload: Bytes, batch: Batch)

  predicate CommittedOk(c: Committed, sequence: nat, f: Formats) {
    Encodable(sequence, c.payload) && c.payload != [] && DecodedBatch(c.payload, f.json) == Some(c.batch)
  }

  ghost predicate Encoded(h: seq<Committed>, f: Formats) {
    forall i :: 0 <= i < |h| ==> CommittedOk(h[i], i + 1, f)
  }

  function RecordAt(h: seq<Committed>, i: nat, f: Formats): Bytes
    requires i < |h|
  {
    RecordBytes(i + 1, h[i].payload, f.crc)
  }

  function RecordsIn(h: seq<Committed>, lo: nat, hi: nat, f: Formats): (r: seq<Bytes>)
    requires lo <= hi <= |h|
    ensures |r| == hi - lo && forall i :: 0 <= i < hi - lo ==> r[i] == RecordAt(h, lo + i, f)
  {
    seq(hi - lo, i requires 0 <= i < hi - lo => RecordAt(h, lo + i, f))
  }

  function LogIn(h: seq<Committed>, lo: nat, hi: nat): (r: Log)
    requires lo <= hi <= |h|
    ensures |r| == hi - lo && forall i :: 0 <= i < hi - lo ==> r[i] == LogRecord(lo + i + 1, h[lo + i].batch)
  {
    seq(hi - lo, i requires 0 <= i < hi - lo => LogRecord(lo + i + 1, h[lo + i].batch))
  }

  /** The file that holds the records after `lo` up to `hi`. */
  function FileOf(h: seq<Committed>, lo: nat, hi: nat, f: Formats): Bytes
    requires lo <= hi <= |h|
  {
    Frames(RecordsIn(h, lo, hi, f))
  }

  lemma RecordDecodes(h: seq<Committed>, i: nat, f: Formats)
    requires Encoded(h, f) && i < |h|
    ensures Written(RecordAt(h, i, f), f.crc)
    ensures DecodeOne(RecordAt(h, i, f), f) == Some(LogRecord(i + 1, h[i].batch))
  {
    assert CommittedOk(h[i], i + 1, f);
    DecodeWritten(f.crc, i + 1, h[i].payload);
  }

  lemma LogRuns(h: seq<Committed>, lo: nat, hi: nat)
    requires lo <= hi <= |h|
    ensures Contiguous(LogIn(h, lo, hi))
    ensures lo < hi ==> FirstOf(LogIn(h, lo, hi)) == Some(lo + 1) && LastOf(LogIn(h, lo, hi)) == hi
  {
  }

  lemma RecordsWritten(h: seq<Committed>, lo: nat, hi: nat, f: Formats)
    requires Encoded(h, f) && lo <= hi <= |h|
    ensures AllWritten(RecordsIn(h, lo, hi, f), f.crc)
  {
    var records := RecordsIn(h, lo, hi, f);
    forall i | 0 <= i < |records| ensures Written(records[i], f.crc) {
      RecordDecodes(h, lo + i, f);
    }
  }

  lemma RecordDecodesIn(h: seq<Committed>, lo: nat, hi: nat, i: nat, f: Formats)
    requires Encoded(h, f) && lo <= hi <= |h| && i < hi - lo
    ensures DecodeOne(RecordsIn(h, lo, hi, f)[i], f) == Some(LogIn(h, lo, hi)[i])
  {
    var k := lo + i;
    RecordDecodes(h, k, f);
    assert RecordsIn(h, lo, hi, f)[i] == RecordAt(h, k, f);
    assert LogIn(h, lo, hi)[i] == LogRecord(k + 1, h[k].batch);
  }

  lemma RecordsDecode(h: seq<Committed>, lo: nat, hi: nat, f: Formats)
    requires Encoded(h, f) && lo <= hi <= |h|
    ensures Visited(RecordsIn(h, lo, hi, f), LogIn(h, lo, hi), f)
  {
    LogRuns(h, lo, hi);
    forall i | 0 <= i < hi - lo ensures DecodeOne(RecordsIn(h, lo, hi, f)[i], f) == Some(LogIn(h, lo, hi)[i]) {
      RecordDecodesIn(h, lo, hi, i, f);
    }
  }

  lemma RecordsPrefix(h: seq<Committed>, lo: nat, mid: nat, hi: nat, f: Formats)
    requires lo <= mid <= hi <= |h|
    ensures RecordsIn(h, lo, hi, f)[..mid - lo] == RecordsIn(h, lo, mid, f)
  {
  }

  lemma InfoOfScan(file: Bytes, records: seq<Bytes>, log: Log, validLen: nat, end: End, f: Formats)
    requires ScanFile(file) == Scanned(records, validLen, end) && !end.Corrupt?
    requires Visited(records, log, f) && |log| == |records|
    ensures InfoOf(file, f) == Some(FileInfo(log, validLen, end.Torn?))
  {
    VisitedAll(records, log, f);
  }

  /** Cutting a file of history at any byte leaves a readable file whose records
      are a prefix; the tail is torn exactly off a record boundary. */
  lemma CutFile(h: seq<Committed>, lo: nat, hi: nat, cut: nat, n: nat, f: Formats)
    requires Encoded(h, f) && lo <= hi <= |h|
    requires WholeRecords(RecordsIn(h, lo, hi, f), cut, n)
    ensures lo + n <= hi
    ensures var whole := FileOf(h, lo, lo + n, f);
      && |whole| <= cut <= |FileOf(h, lo, hi, f)| && FileOf(h, lo, hi, f)[..|whole|] == whole
      && InfoOf(FileOf(h, lo, hi, f)[..cut], f) == Some(FileInfo(LogIn(h, lo, lo + n), |whole|, cut != |whole|))
  {
    var records := RecordsIn(h, lo, hi, f);
    var kept, log := RecordsIn(h, lo, lo + n, f), LogIn(h, lo, lo + n);
    RecordsPrefix(h, lo, lo + n, hi, f);
    FramesSplit(records, n);
    RecordsWritten(h, lo, hi, f);
    CutIsTorn(records, cut, n, f.crc);
    RecordsDecode(h, lo, lo + n, f);
    InfoOfScan(Frames(records)[..cut], kept, log, |Frames(kept)|, if cut == |Frames(kept)| then Clean else Torn, f);
  }

  lemma WholeFile(h: seq<Committed>, lo: nat, hi: nat, f: Formats)
    requires Encoded(h, f) && lo <= hi <= |h|
    ensures InfoOf(FileOf(h, lo, hi, f), f) == Some(FileInfo(LogIn(h, lo, hi), |FileOf(h, lo, hi, f)|, false))
  {
    var records, file := RecordsIn(h, lo, hi, f), FileOf(h, lo, hi, f);
    assert records[..hi - lo] == records;
    CutFile(h, lo, hi, |file|, hi - lo, f);
    assert file[..|file|] == file;
  }

  lemma FileGrows(h: seq<Committed>, c: Committed, lo: nat, f: Formats)
    requires lo <= |h|
    ensures FileOf(h + [c], lo, |h| + 1, f) == FileOf(h, lo, |h|, f) + Frame(RecordBytes(|h| + 1, c.payload, f.crc))
  {
    var record := RecordBytes(|h| + 1, c.payload, f.crc);
    var old_, grown := RecordsIn(h, lo, |h|, f), RecordsIn(h + [c], lo, |h| + 1, f);
    assert grown == old_ + [record];
    FramesSplit(grown, |old_|);
    assert grown[..|old_|] == old_ && grown[|old_|..] == [record];
    assert Frames([record]) == Frame(record) + Frames([]);
  }

  lemma SameFile(h: seq<Committed>, k: seq<Committed>, lo: nat, hi: nat, f: Formats)
    requires lo <= hi <= |h| && hi <= |k| && h[..hi] == k[..hi]
    ensures FileOf(h, lo, hi, f) == FileOf(k, lo, hi, f) && LogIn(h, lo, hi) == LogIn(k, lo, hi)
  {
    forall i | lo <= i < hi ensures h[i] == k[i] {
      assert h[i] == h[..hi][i] && k[i] == k[..hi][i];
    }
    assert RecordsIn(h, lo, hi, f) == RecordsIn(k, lo, hi, f);
  }

  lemma FileLonger(h: seq<Committed>, lo: nat, mid: nat, hi: nat, f: Formats)
    requires lo <= mid <= hi <= |h|
    ensures |FileOf(h, lo, mid, f)| <= |FileOf(h, lo, hi, f)|
    ensures lo < mid ==> FileOf(h, lo, mid, f) != []
  {
    FramesSplit(RecordsIn(h, lo, hi, f), mid - lo);
    RecordsPrefix(h, lo, mid, hi, f);
  }

  // ---- The meaning of a history ----

  function BatchesIn(h: seq<Committed>, lo: nat, hi: nat): (r: seq<Batch>)
    requires lo <= hi <= |h|
    ensures |r| == hi - lo && forall i :: 0 <= i < hi - lo ==> r[i] == h[lo + i].batch
  {
    seq(hi - lo, i requires 0 <= i < hi - lo => h[lo + i].batch)
  }

  /** The state after the first `n` batches. */
  function StateAt(h: seq<Committed>, n: nat): View
    requires n <= |h|
  {
    ApplyAll(map[], BatchesIn(h, 0, n))
  }

  lemma StateSplits(h: seq<Committed>, mid: nat, n: nat)
    requires mid <= n <= |h|
    ensures StateAt(h, n) == ApplyAll(StateAt(h, mid), BatchesIn(h, mid, n))
  {
    assert BatchesIn(h, 0, n) == BatchesIn(h, 0, mid) + BatchesIn(h, mid, n);
    ApplyAllConcat(map[], BatchesIn(h, 0, mid), BatchesIn(h, mid, n));
  }

  lemma SameState(h: seq<Committed>, k: seq<Committed>, n: nat)
    requires n <= |h| && n <= |k| && h[..n] == k[..n]
    ensures StateAt(h, n) == StateAt(k, n)
  {
    forall i | 0 <= i < n ensures h[i] == k[i] {
      assert h[i] == h[..n][i] && k[i] == k[..n][i];
    }
    assert BatchesIn(h, 0, n) == BatchesIn(k, 0, n);
  }
}
