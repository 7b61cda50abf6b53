/** The binlog scanner: which records a file of arbitrary bytes holds, where its
valid part ends, and when a tail may be cut off as an interrupted append. */
module Scan {
  import opened Model
  import opened Wire
  import opened BatchCodec
  import opened Framing

  datatype End = Clean | Torn | Corrupt

  /** What stands at the front of the unread bytes. */
  datatype Step = Stop(end: End) | Next(record: Bytes, rest: Bytes)

  /** `tail`, shorter than `length`, could be the start of an ONX4 record of that
      length. Only such a tail may be dropped. */
  predicate Truncatable(tail: Bytes, length: nat) {
    |tail| < 4 || (StartsWith(tail, ONX4) && (|tail| >= 8 ==> FromBigEndian(tail[4..8]) == length))
  }

  /** A complete record that does not contradict its frame. */
  predicate Consistent(record: Bytes) {
    StartsWith(record, ONX4) && |record| >= 8 ==> FromBigEndian(record[4..8]) == |record|
  }

  function Front(rest: Bytes): (s: Step)
    ensures s.Next? ==> |s.rest| < |rest|
  {
    if rest == [] then Stop(Clean)
    else if |rest| < 4 then Stop(Torn)
    else
      var length := FromBigEndian(rest[..4]);
      var tail := rest[4..];
      if length == 0 || length > MAX_BINLOG_RECORD_SIZE then Stop(Corrupt)
      else if |tail| < length then Stop(if Truncatable(tail, length) then Torn else Corrupt)
      else if Consistent(tail[..length]) then Next(tail[..length], tail[length..])
      else Stop(Corrupt)
  }

  datatype Scanned = Scanned(records: seq<Bytes>, validLen: nat, end: End)

  function ScanFile(rest: Bytes): Scanned
    decreases |rest|
  {
    match Front(rest)
    case Stop(end) => Scanned([], 0, end)
    case Next(record, tail) =>
      var others := ScanFile(tail);
      Scanned([record] + others.records, 4 + |record| + others.validLen, others.end)
  }

  function Frames(records: seq<Bytes>): Bytes {
    if records == [] then [] else Frame(records[0]) + Frames(records[1..])
  }

  lemma FrontIsFrame(rest: Bytes)
    requires Front(rest).Next?
    ensures rest == Frame(Front(rest).record) + Front(rest).rest
  {
    var length := FromBigEndian(rest[..4]);
    var tail := rest[4..];
    FromBigEndianRoundTrip(rest[..4]);
    assert tail == tail[..length] + tail[length..];
    assert rest == rest[..4] + tail;
    Assoc(U32(length), tail[..length], tail[length..]);
  }

  /** For every file: what was visited is exactly the valid part, and the file is
      clean exactly when nothing follows it. */
  lemma {:induction false} ScanIsPrefix(file: Bytes)
    ensures var s := ScanFile(file);
      s.validLen <= |file| && file[..s.validLen] == Frames(s.records) && (s.end.Clean? <==> s.validLen == |file|)
    decreases |file|
  {
    var step := Front(file);
    if step.Next? {
      FrontIsFrame(file);
      ScanIsPrefix(step.rest);
      var others := ScanFile(step.rest);
      var s := ScanFile(file);
      assert s.records[1..] == others.records;
      assert file[..s.validLen] == Frame(step.record) + step.rest[..others.validLen];
    }
  }

  // ---- The scan loop ----

  /** One turn of the loop: the length, the header probe, then the whole record. */
  method ReadRecord(file: Bytes, start: nat) returns (step: Step)
    requires start <= |file|
    ensures step == Front(file[start..])
  {
    var rest := file[start..];
    if |file| - start < 4 {
      return Stop(if |file| != start then Torn else Clean);
    }
    var length := FromBigEndian(rest[..4]);
    if length == 0 || length > MAX_BINLOG_RECORD_SIZE {
      return Stop(Corrupt);
    }
    var tail := rest[4..];
    var available := |file| - (start + 4);
    var probe := if length < 8 then length else 8;
    var readable := if available < probe then available else probe;
    var header := tail[..readable];
    assert forall k | 0 <= k <= readable :: header[..k] == tail[..k];
    assert readable == 8 ==> header[4..8] == tail[4..8];
    if readable < probe {
      if StartsWith(header, ONX3) {
        return Stop(Corrupt);
      }
      if readable >= 4 && !StartsWith(header, ONX4) {
        return Stop(Corrupt);
      }
      return Stop(Torn);
    }
    if StartsWith(header, ONX4) && length >= 8 {
      if FromBigEndian(header[4..8]) != length {
        assert |tail| >= length ==> tail[..length][4..8] == tail[4..8] && tail[..length][..4] == tail[..4];
        return Stop(Corrupt);
      }
    }
    if available < length {
      return Stop(if StartsWith(header, ONX4) then Torn else Corrupt);
    }
    var record := tail[..length];
    assert readable >= 4 ==> record[..4] == header[..4];
    assert length >= 8 ==> record[4..8] == header[4..8];
    step := Next(record, tail[length..]);
  }

  function Following(records: seq<Bytes>, length: nat, s: Scanned): Scanned {
    Scanned(records + s.records, length + s.validLen, s.end)
  }

  lemma FollowingTwice(all: Scanned, a: seq<Bytes>, first: nat, here: Scanned, b: seq<Bytes>, second: nat, rest: Scanned)
    requires all == Following(a, first, here) && here == Following(b, second, rest)
    ensures all == Following(a + b, first + second, rest)
  {
    assert a + (b + rest.records) == a + b + rest.records;
  }

  ghost predicate ScanningAt(file: Bytes, visited: seq<Bytes>, validLen: nat) {
    validLen <= |file| && ScanFile(file) == Following(visited, validLen, ScanFile(file[validLen..]))
  }

  lemma ScanningNext(file: Bytes, visited: seq<Bytes>, validLen: nat, record: Bytes, next: nat)
    requires ScanningAt(file, visited, validLen) && Front(file[validLen..]).Next? && record == Front(file[validLen..]).record
    requires next == validLen + 4 + |record|
    ensures ScanningAt(file, visited + [record], next)
  {
    var rest, size := file[validLen..], 4 + |record|;
    ScanStep(rest);
    var after := rest[size..];
    assert file[next..] == after;
    FollowingTwice(ScanFile(file), visited, validLen, ScanFile(rest), [record], size, ScanFile(after));
  }

  lemma ScanStep(rest: Bytes)
    requires Front(rest).Next?
    ensures var step := Front(rest); var size := 4 + |step.record|;
      && size <= |rest| && step.rest == rest[size..]
      && ScanFile(rest) == Following([step.record], size, ScanFile(step.rest))
  {
    FrontIsFrame(rest);
  }

  method ForEachBinlogRecord(file: Bytes) returns (records: seq<Bytes>, validLen: nat, end: End)
    ensures Scanned(records, validLen, end) == ScanFile(file)
  {
    records, validLen, end := [], 0, Clean;
    assert file[0..] == file;
    while true
      invariant ScanningAt(file, records, validLen)
      decreases |file| - validLen
    {
      var step := ReadRecord(file, validLen);
      if step.Stop? {
        end := step.end;
        return;
      }
      var next := validLen + 4 + |step.record|;
      ScanningNext(file, records, validLen, step.record, next);
      records, validLen := records + [step.record], next;
    }
  }

  // ---- Any byte cut of a log of ONX4 records ----

  /** A record that the encoder produced. */
  ghost predicate Written(record: Bytes, crc: Checksum) {
    exists sequence, payload :: Encodable(sequence, payload) && record == RecordBytes(sequence, payload, crc)
  }

  ghost predicate AllWritten(records: seq<Bytes>, crc: Checksum) {
    forall i :: 0 <= i < |records| ==> Written(records[i], crc)
  }

  lemma WrittenShape(record: Bytes, crc: Checksum)
    requires Written(record, crc)
    ensures OVERHEAD <= |record| <= MAX_BINLOG_RECORD_SIZE
    ensures record[..4] == ONX4 && FromBigEndian(record[4..8]) == |record|
    ensures FromBigEndian(Frame(record)[..4]) == |record| && Frame(record)[4..] == record
  {
    var sequence, payload :| Encodable(sequence, payload) && record == RecordBytes(sequence, payload, crc);
    Powers();
    RecordShape(sequence, payload, crc);
    BigEndianRoundTrip(|record|, 4);
    assert Frame(record)[..4] == U32(|record|);
  }

  /** A whole frame is read whatever follows it. */
  lemma FrontOfFrame(record: Bytes, rest: Bytes, crc: Checksum)
    requires Written(record, crc)
    ensures Front(Frame(record) + rest) == Next(record, rest)
  {
    WrittenShape(record, crc);
    var whole := Frame(record) + rest;
    assert whole[..4] == Frame(record)[..4];
    assert whole[4..] == record + rest;
    assert whole[4..][..|record|] == record && whole[4..][|record|..] == rest;
  }

  /** A frame cut anywhere inside is torn, never corrupt and never clean. */
  lemma FrontOfCut(record: Bytes, cut: nat, crc: Checksum)
    requires Written(record, crc) && 0 < cut < |Frame(record)|
    ensures Front(Frame(record)[..cut]) == Stop(Torn)
  {
    WrittenShape(record, crc);
    var part := Frame(record)[..cut];
    if cut >= 4 {
      var tail := part[4..];
      assert part[..4] == Frame(record)[..4];
      assert tail == record[..cut - 4];
      assert cut >= 8 ==> tail[..4] == record[..4];
      assert cut >= 12 ==> tail[4..8] == record[4..8];
    }
  }

  lemma FramesHead(records: seq<Bytes>)
    requires records != []
    ensures Frames(records) == Frame(records[0]) + Frames(records[1..])
  {
  }

  lemma {:induction false} FramesSplit(records: seq<Bytes>, n: nat)
    requires n <= |records|
    ensures Frames(records) == Frames(records[..n]) + Frames(records[n..])
  {
    if n == 0 {
      assert records[0..] == records;
    } else {
      var tail, fewer := records[1..], n - 1;
      FramesSplit(tail, fewer);
      var front, back := records[..n], records[n..];
      assert front[1..] == tail[..fewer] && tail[fewer..] == back;
      FramesHead(records);
      FramesHead(front);
      Assoc(Frame(records[0]), Frames(front[1..]), Frames(back));
    }
  }

  lemma ScanFrame(record: Bytes, rest: Bytes, crc: Checksum)
    requires Written(record, crc)
    ensures ScanFile(Frame(record) + rest) == Following([record], |Frame(record)|, ScanFile(rest))
  {
    FrontOfFrame(record, rest, crc);
  }

  lemma {:induction false} ScanFrames(records: seq<Bytes>, rest: Bytes, crc: Checksum)
    requires AllWritten(records, crc)
    ensures ScanFile(Frames(records) + rest) == Following(records, |Frames(records)|, ScanFile(rest))
  {
    if records == [] {
      assert Frames(records) + rest == rest;
      assert [] + ScanFile(rest).records == ScanFile(rest).records;
    } else {
      var record, others := records[0], records[1..];
      assert AllWritten(others, crc) by {
        assert forall i | 0 <= i < |others| :: others[i] == records[i + 1];
      }
      ScanFrames(others, rest, crc);
      ScanOneMore(record, others, rest, crc);
      assert [record] + others == records;
    }
  }

  lemma ScanOneMore(record: Bytes, others: seq<Bytes>, rest: Bytes, crc: Checksum)
    requires Written(record, crc)
    requires ScanFile(Frames(others) + rest) == Following(others, |Frames(others)|, ScanFile(rest))
    ensures ScanFile(Frames([record] + others) + rest)
         == Following([record] + others, |Frames([record] + others)|, ScanFile(rest))
  {
    var framed := Frames(others);
    assert ([record] + others)[1..] == others;
    Assoc(Frame(record), framed, rest);
    ScanFrame(record, framed + rest, crc);
    FollowingTwice(ScanFile(Frame(record) + (framed + rest)), [record], |Frame(record)|, ScanFile(framed + rest), others, |framed|, ScanFile(rest));
  }

  /** The log cut at byte `cut` has `n` whole records in front of the cut. */
  predicate WholeRecords(records: seq<Bytes>, cut: nat, n: nat) {
    && n <= |records| && cut <= |Frames(records)|
    && |Frames(records[..n])| <= cut
    && (n < |records| ==> cut < |Frames(records[..n + 1])|)
  }

  /** For any list of encoded records and any byte cut: exactly the complete
      records are visited, their total length is returned, the tail is torn
      exactly when the cut is not on a record boundary, and nothing fails. */
  lemma CutIsTorn(records: seq<Bytes>, cut: nat, n: nat, crc: Checksum)
    requires AllWritten(records, crc) && WholeRecords(records, cut, n)
    ensures ScanFile(Frames(records)[..cut])
         == Scanned(records[..n], |Frames(records[..n])|, if cut == |Frames(records[..n])| then Clean else Torn)
  {
    var whole := Frames(records[..n]);
    FramesSplit(records, n);
    var rest := Frames(records)[|whole|..cut];
    assert Frames(records)[..cut] == whole + rest;
    ScanFrames(records[..n], rest, crc);
    if rest != [] {
      PartOfNext(records, cut, n, rest);
      FrontOfCut(records[n], |rest|, crc);
    }
    assert records[..n] + [] == records[..n];
  }

  /** What a cut leaves behind the whole records is part of the next one. */
  lemma PartOfNext(records: seq<Bytes>, cut: nat, n: nat, rest: Bytes)
    requires WholeRecords(records, cut, n) && rest == Frames(records)[|Frames(records[..n])|..cut] && rest != []
    ensures n < |records| && |rest| < |Frame(records[n])| && rest == Frame(records[n])[..|rest|]
  {
    FramesSplit(records, n);
    assert records[..|records|] == records;
    var more := records[..n + 1];
    FramesSplit(more, n);
    assert more[..n] == records[..n] && more[n..] == [records[n]];
    assert Frames([records[n]]) == Frame(records[n]) + Frames([]);
    assert Frames(records[n..]) == Frame(records[n]) + Frames(records[n..][1..]);
    assert rest == Frames(records[n..])[..|rest|] == Frame(records[n])[..|rest|];
  }

  /** Every cut has such a number of whole records. */
  lemma {:induction false} WholeRecordsExist(records: seq<Bytes>, cut: nat) returns (n: nat)
    requires cut <= |Frames(records)|
    ensures WholeRecords(records, cut, n)
  {
    n := |records|;
    assert records[..n] == records;
    while n > 0 && |Frames(records[..n])| > cut
      invariant n <= |records| && (n < |records| ==> cut < |Frames(records[..n + 1])|)
    {
      n := n - 1;
    }
  }

  // ---- What may follow whole records ----

  /** The number that four bytes of a file denote. */
  function NumberAt(t: Bytes, i: nat): nat
    requires i + 4 <= |t|
  {
    Word(t[i], t[i + 1], t[i + 2], t[i + 3])
  }

  predicate MagicAt(t: Bytes, i: nat)
    requires i + 4 <= |t|
  {
    t[i] == 79 && t[i + 1] == 78 && t[i + 2] == 88 && t[i + 3] == 52
  }

  lemma Bytes4(t: Bytes, i: nat)
    requires i + 4 <= |t|
    ensures FromBigEndian(t[i..i + 4]) == NumberAt(t, i)
    ensures t[i..i + 4] == ONX4 <==> MagicAt(t, i)
  {
    FourBytes(t[i..i + 4]);
    assert MagicAt(t, i) ==> t[i..i + 4] == [79, 78, 88, 52];
  }

  /** An append that was interrupted: less than a length; or a length within the
      limit and fewer bytes than it announces, which do not contradict it: from four
      bytes on they begin with the magic, and from eight on repeat the length. */
  predicate Interrupted(t: Bytes) {
    || 0 < |t| < 4
    || (&& 4 <= |t| && 1 <= NumberAt(t, 0) <= 536_871_936 && |t| - 4 < NumberAt(t, 0)
        && (8 <= |t| ==> MagicAt(t, 4)) && (12 <= |t| ==> NumberAt(t, 8) == NumberAt(t, 0)))
  }

  /** Bytes that no append can have left: a length of zero or over the limit, an
      incomplete record that is not of the current format, or one, complete or not,
      whose header repeats another length. */
  predicate Contradictory(t: Bytes) {
    4 <= |t| && (
      || NumberAt(t, 0) == 0 || NumberAt(t, 0) > 536_871_936
      || (8 <= |t| && |t| - 4 < NumberAt(t, 0) && !MagicAt(t, 4))
      || (12 <= |t| && 8 <= NumberAt(t, 0) && MagicAt(t, 4) && NumberAt(t, 8) != NumberAt(t, 0)))
  }

  lemma FrontIff(t: Bytes)
    ensures Front(t) == Stop(Clean) <==> t == []
    ensures Front(t) == Stop(Torn) <==> Interrupted(t)
    ensures Front(t) == Stop(Corrupt) <==> Contradictory(t)
  {
    if |t| >= 4 {
      var length, tail := FromBigEndian(t[..4]), t[4..];
      Bytes4(t, 0);
      assert t[0..4] == t[..4];
      if |t| >= 8 {
        Bytes4(t, 4);
        assert tail[..4] == t[4..8];
      }
      if |t| >= 12 {
        Bytes4(t, 8);
        assert tail[4..8] == t[8..12];
      }
      if 8 <= length <= |tail| {
        var record := tail[..length];
        assert record[..4] == tail[..4] && record[4..8] == tail[4..8];
      }
    }
  }

  /** Whole records and whatever follows them: the scan stops behind the records,
      with a tail that may be cut off or with corruption, exactly in these cases. */
  lemma TailIff(records: seq<Bytes>, t: Bytes, crc: Checksum)
    requires AllWritten(records, crc)
    ensures var s, at := ScanFile(Frames(records) + t), |Frames(records)|;
      && records <= s.records && at <= s.validLen
      && (s == Scanned(records, at, Clean) <==> t == [])
      && (s == Scanned(records, at, Torn) <==> Interrupted(t))
      && (s == Scanned(records, at, Corrupt) <==> Contradictory(t))
  {
    ScanFrames(records, t, crc);
    FrontIff(t);
    var rest := ScanFile(t);
    if Front(t).Next? {
      ScanStep(t);
    } else {
      assert records + rest.records == records;
    }
  }
}
