/** Versioned binlog records: a checksummed ONX4 record or a checksumless ONX3
one, each framed by its length. The checksum is a parameter. */
module Framing {
  import opened Model
  import opened Wire
  import opened BatchCodec

  /** Any checksum; only its low 32 bits are stored. */
  type Checksum = Bytes -> nat

  const ONX4: Bytes := [79, 78, 88, 52]
  const ONX3: Bytes := [79, 78, 88, 51]

  /** Magic, embedded length, sequence and checksum around the payload. */
  const OVERHEAD: nat := 20

  function Crc(crc: Checksum, b: Bytes): nat { crc(b) % U32_LIMIT }

  predicate StartsWith(b: Bytes, prefix: Bytes) {
    |prefix| <= |b| && b[..|prefix|] == prefix
  }

  function RecordHead(sequence: nat, payload: Bytes): Bytes {
    ONX4 + (U32(OVERHEAD + |payload|) + (U64(sequence) + payload))
  }

  function RecordBytes(sequence: nat, payload: Bytes, crc: Checksum): (r: Bytes)
    ensures |r| == OVERHEAD + |payload|
  {
    var head := RecordHead(sequence, payload);
    head + U32(Crc(crc, head))
  }

  function Frame(record: Bytes): Bytes { U32(|record|) + record }

  predicate Encodable(sequence: nat, payload: Bytes) {
    0 < sequence < U64_LIMIT && OVERHEAD + |payload| <= MAX_BINLOG_RECORD_SIZE
  }

  /** One append buffer grows by the outer length and the record. */
  method EncodeFramedRecord(sequence: nat, payload: Bytes, output: Bytes, crc: Checksum) returns (r: Option<Bytes>)
    requires sequence < U64_LIMIT
    ensures r == if Encodable(sequence, payload) then Some(output + Frame(RecordBytes(sequence, payload, crc))) else None
  {
    var length := OVERHEAD + |payload|;
    if sequence == 0 || length > MAX_BINLOG_RECORD_SIZE {
      return None;
    }
    var framed := output + U32(length);
    var start := |framed|;
    var buffer := framed + ONX4;
    buffer := buffer + U32(length);
    buffer := buffer + U64(sequence);
    buffer := buffer + payload;
    ghost var head := RecordHead(sequence, payload);
    assert buffer == framed + head;
    assert buffer[start..] == head;
    var checksum := Crc(crc, buffer[start..]);
    r := Some(buffer + U32(checksum));
    Assoc(framed, head, U32(checksum));
    Assoc(output, U32(length), RecordBytes(sequence, payload, crc));
  }

  datatype Decoded = Decoded(sequence: nat, payload: Bytes, checksummed: bool)

  /** Sequence and payload after the magic (and the embedded length, if any). */
  function DecodeTail(rest: Bytes, checksummed: bool): Option<Decoded> {
    var sequence := TakeUnsigned(rest, 8);
    if sequence.None? || sequence.value.0 == 0 || sequence.value.1 == [] then None
    else Some(Decoded(sequence.value.0, sequence.value.1, checksummed))
  }

  function DecodeRecord(record: Bytes, crc: Checksum): Option<Decoded> {
    if StartsWith(record, ONX4) then
      if |record| < OVERHEAD then None
      else
        var end := |record| - 4;
        if FromBigEndian(record[end..]) != Crc(crc, record[..end]) then None
        else if FromBigEndian(record[4..8]) != |record| then None
        else DecodeTail(record[8..end], true)
    else if StartsWith(record, ONX3) then DecodeTail(record[4..], false)
    else None
  }

  lemma DecodeTailIff(rest: Bytes, checksummed: bool, sequence: nat, payload: Bytes)
    ensures DecodeTail(rest, checksummed) == Some(Decoded(sequence, payload, checksummed)) <==>
      0 < sequence < U64_LIMIT && payload != [] && rest == U64(sequence) + payload
  {
    Powers();
    TakeUnsignedIff(rest, 8, sequence, payload);
  }

  lemma RecordShape(sequence: nat, payload: Bytes, crc: Checksum)
    ensures var r := RecordBytes(sequence, payload, crc); var end := |r| - 4;
      && r[..4] == ONX4 && r[4..8] == U32(|r|) && r[8..end] == U64(sequence) + payload
      && r[..end] == RecordHead(sequence, payload) && r[end..] == U32(Crc(crc, RecordHead(sequence, payload)))
  {
    var r := RecordBytes(sequence, payload, crc);
    var head := RecordHead(sequence, payload);
    assert r[..|r| - 4] == head && r[|r| - 4..] == U32(Crc(crc, head));
    assert r[..4] == head[..4] && r[4..8] == head[4..8] && r[8..|r| - 4] == head[8..];
    var body := U64(sequence) + payload;
    var sized := U32(|r|) + body;
    assert head == ONX4 + sized;
    assert head[4..8] == sized[..4] && head[8..] == sized[4..];
  }

  /** Decoding accepts exactly the encoder's checksummed records. */
  lemma DecodeRecordIff(record: Bytes, crc: Checksum, sequence: nat, payload: Bytes)
    requires |record| <= MAX_BINLOG_RECORD_SIZE
    ensures DecodeRecord(record, crc) == Some(Decoded(sequence, payload, true)) <==>
      Encodable(sequence, payload) && payload != [] && record == RecordBytes(sequence, payload, crc)
  {
    if Encodable(sequence, payload) && payload != [] && record == RecordBytes(sequence, payload, crc) {
      DecodeWritten(crc, sequence, payload);
    }
    if DecodeRecord(record, crc) == Some(Decoded(sequence, payload, true)) {
      DecodedIsWritten(record, crc, sequence, payload);
    }
  }

  lemma DecodeWritten(crc: Checksum, sequence: nat, payload: Bytes)
    requires Encodable(sequence, payload) && payload != []
    ensures DecodeRecord(RecordBytes(sequence, payload, crc), crc) == Some(Decoded(sequence, payload, true))
  {
    Powers();
    var r := RecordBytes(sequence, payload, crc);
    RecordShape(sequence, payload, crc);
    BigEndianRoundTrip(|r|, 4);
    BigEndianRoundTrip(Crc(crc, RecordHead(sequence, payload)), 4);
    DecodeTailIff(r[8..|r| - 4], true, sequence, payload);
  }

  lemma DecodedIsWritten(record: Bytes, crc: Checksum, sequence: nat, payload: Bytes)
    requires |record| <= MAX_BINLOG_RECORD_SIZE
    requires DecodeRecord(record, crc) == Some(Decoded(sequence, payload, true))
    ensures Encodable(sequence, payload) && payload != [] && record == RecordBytes(sequence, payload, crc)
  {
    var end := |record| - 4;
    var body := record[8..end];
    DecodeTailIff(body, true, sequence, payload);
    FromBigEndianRoundTrip(record[4..8]);
    FromBigEndianRoundTrip(record[end..]);
    assert |body| == 8 + |payload|;
    assert record[..end] == record[..4] + (record[4..8] + body);
    assert record[..end] == RecordHead(sequence, payload);
    assert record == record[..end] + record[end..];
  }

  /** A record of the previous format, "ONX3", has no checksum to fail: any sequence but
      zero and any payload. Everything of neither format is refused. */
  lemma LegacyRecordIs(record: Bytes, crc: Checksum)
    ensures |record| >= 13 && record[..4] == [79, 78, 88, 51] ==>
      DecodeRecord(record, crc) ==
        if FromBigEndian(record[4..12]) == 0 then None else Some(Decoded(FromBigEndian(record[4..12]), record[12..], false))
    ensures |record| < 13 || (record[..4] != [79, 78, 88, 51] && record[..4] != [79, 78, 88, 52]) ==> DecodeRecord(record, crc) == None
  {
    if |record| >= 12 {
      assert record[4..][..8] == record[4..12] && record[4..][8..] == record[12..];
    }
  }
}
