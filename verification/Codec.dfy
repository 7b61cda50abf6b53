/** The wire form of snapshot entries.

A value that holds a hash map or a set is written in whatever order iteration
yields, so the byte format is described on an ordered wire form. Reading accepts
exactly the wire forms that writing produces. */
module Codec {
  import opened Model
  import opened Wire

  datatype WireValue =
    | WBlob(blob: Bytes)
    | WInt(bits: nat)
    | WFloat(bits: nat)
    | WList(items: seq<Bytes>)
    | WHash(flat: seq<Bytes>)     // field, value, field, value, ...
    | WSet(items: seq<Bytes>)
    | WJson(text: Bytes)
    | WVector(words: seq<nat>)

  datatype WireEntry = WireEntry(key: Bytes, expiry: nat, value: WireValue)

  // ---- Writing ----

  function Tag(w: WireValue): Byte {
    match w
    case WBlob(_) => 1
    case WInt(_) => 2
    case WFloat(_) => 3
    case WList(_) => 4
    case WHash(_) => 5
    case WSet(_) => 6
    case WJson(_) => 7
    case WVector(_) => 8
  }

  function Listed(items: seq<Bytes>): Bytes { U32(|items|) + Chunks(items) }

  function Paired(flat: seq<Bytes>): Bytes { U32(|flat| / 2) + Chunks(flat) }

  function Vectored(words: seq<nat>): Bytes { U32(|words|) + Words(words) }

  function Payload(w: WireValue): Bytes {
    match w
    case WBlob(blob) => Chunk(blob)
    case WInt(bits) => U64(bits)
    case WFloat(bits) => U64(bits)
    case WList(items) => Listed(items)
    case WHash(flat) => Paired(flat)
    case WSet(items) => Listed(items)
    case WJson(text) => Chunk(text)
    case WVector(words) => Vectored(words)
  }

  predicate ListFits(items: seq<Bytes>) { |items| < U32_LIMIT && ChunksFit(items) }

  predicate PairsFit(flat: seq<Bytes>) { |flat| % 2 == 0 && |flat| / 2 < U32_LIMIT && ChunksFit(flat) }

  predicate VectorFits(words: seq<nat>) { |words| < U32_LIMIT && WordsFit(words) }

  predicate WireFits(w: WireValue) {
    match w
    case WBlob(blob) => |blob| < U32_LIMIT
    case WInt(bits) => bits < U64_LIMIT
    case WFloat(bits) => bits < U64_LIMIT
    case WList(items) => ListFits(items)
    case WHash(flat) => PairsFit(flat)
    case WSet(items) => ListFits(items)
    case WJson(text) => |text| < U32_LIMIT
    case WVector(words) => VectorFits(words)
  }

  function EntryBytes(e: WireEntry): Bytes {
    Chunk(e.key) + (U64(e.expiry) + ([Tag(e.value)] + Payload(e.value)))
  }

  predicate EntryFits(e: WireEntry) {
    |e.key| < U32_LIMIT && e.expiry < U64_LIMIT && WireFits(e.value)
  }

  // ---- Reading ----

  /** A count that cannot fit in what is left is refused before allocation. */
  function TakeList(rest: Bytes): Read<seq<Bytes>> {
    var count := TakeUnsigned(rest, 4);
    if count.None? || count.value.0 > |count.value.1| / 4 then None
    else TakeChunks(count.value.1, count.value.0)
  }

  function TakePairs(rest: Bytes): Read<seq<Bytes>> {
    var count := TakeUnsigned(rest, 4);
    if count.None? || count.value.0 > |count.value.1| / 8 then None
    else TakeChunks(count.value.1, 2 * count.value.0)
  }

  function TakeVector(rest: Bytes): Read<seq<nat>> {
    var count := TakeUnsigned(rest, 4);
    if count.None? || |count.value.1| < 4 * count.value.0 then None
    else TakeWords(count.value.1, count.value.0)
  }

  function TakeBody(tag: Byte, rest: Bytes): Read<WireValue> {
    match tag
    case 1 => (var r := TakeChunk(rest); if r.None? then None else Some((WBlob(r.value.0), r.value.1)))
    case 2 => (var r := TakeUnsigned(rest, 8); if r.None? then None else Some((WInt(r.value.0), r.value.1)))
    case 3 => (var r := TakeUnsigned(rest, 8); if r.None? then None else Some((WFloat(r.value.0), r.value.1)))
    case 4 => (var r := TakeList(rest); if r.None? then None else Some((WList(r.value.0), r.value.1)))
    case 5 => (var r := TakePairs(rest); if r.None? then None else Some((WHash(r.value.0), r.value.1)))
    case 6 => (var r := TakeList(rest); if r.None? then None else Some((WSet(r.value.0), r.value.1)))
    case 7 => (var r := TakeChunk(rest); if r.None? then None else Some((WJson(r.value.0), r.value.1)))
    case 8 => (var r := TakeVector(rest); if r.None? then None else Some((WVector(r.value.0), r.value.1)))
    case _ => None
  }

  function TakeWire(rest: Bytes): Read<WireValue> {
    if rest == [] then None else TakeBody(rest[0], rest[1..])
  }

  function TakeEntry(record: Bytes): Read<WireEntry> {
    var key := TakeChunk(record);
    if key.None? then None
    else
      var expiry := TakeUnsigned(key.value.1, 8);
      if expiry.None? then None
      else
        var w := TakeWire(expiry.value.1);
        if w.None? then None else Some((WireEntry(key.value.0, expiry.value.0, w.value.0), w.value.1))
  }

  // ---- The readers invert the writers ----

  lemma {:induction false} ChunksLength(items: seq<Bytes>)
    ensures |Chunks(items)| >= 4 * |items|
  {
    if items != [] {
      ChunksLength(items[1..]);
    }
  }

  lemma TakeListRead(items: seq<Bytes>, left: Bytes)
    requires ListFits(items)
    ensures TakeList(Listed(items) + left) == Some((items, left))
  {
    Powers();
    var tail := Chunks(items) + left;
    assert Listed(items) + left == U32(|items|) + tail;
    TakeUnsignedIff(Listed(items) + left, 4, |items|, tail);
    ChunksLength(items);
    TakeChunksRead(items, left);
  }

  lemma TakeListWritten(rest: Bytes, items: seq<Bytes>, left: Bytes)
    requires TakeList(rest) == Some((items, left))
    ensures ListFits(items) && rest == Listed(items) + left
  {
    Powers();
    var (count, tail) := TakeUnsigned(rest, 4).value;
    TakeUnsignedIff(rest, 4, count, tail);
    TakeChunksWritten(tail, count, items, left);
    assert U32(count) + (Chunks(items) + left) == Listed(items) + left;
  }

  lemma TakePairsRead(flat: seq<Bytes>, left: Bytes)
    requires PairsFit(flat)
    ensures TakePairs(Paired(flat) + left) == Some((flat, left))
  {
    Powers();
    var tail := Chunks(flat) + left;
    var count := |flat| / 2;
    assert Paired(flat) + left == U32(count) + tail;
    TakeUnsignedIff(Paired(flat) + left, 4, count, tail);
    ChunksLength(flat);
    TakeChunksRead(flat, left);
    assert 2 * count == |flat|;
  }

  lemma TakePairsWritten(rest: Bytes, flat: seq<Bytes>, left: Bytes)
    requires TakePairs(rest) == Some((flat, left))
    ensures PairsFit(flat) && rest == Paired(flat) + left
  {
    Powers();
    var (count, tail) := TakeUnsigned(rest, 4).value;
    TakeUnsignedIff(rest, 4, count, tail);
    TakeChunksWritten(tail, 2 * count, flat, left);
    assert |flat| / 2 == count;
    assert U32(count) + (Chunks(flat) + left) == Paired(flat) + left;
  }

  lemma {:induction false} WordsLength(words: seq<nat>)
    ensures |Words(words)| == 4 * |words|
  {
    if words != [] {
      WordsLength(words[1..]);
    }
  }

  lemma TakeVectorRead(words: seq<nat>, left: Bytes)
    requires VectorFits(words)
    ensures TakeVector(Vectored(words) + left) == Some((words, left))
  {
    Powers();
    var tail := Words(words) + left;
    assert Vectored(words) + left == U32(|words|) + tail;
    TakeUnsignedIff(Vectored(words) + left, 4, |words|, tail);
    TakeWordsRead(words, left);
    WordsLength(words);
  }

  lemma TakeVectorWritten(rest: Bytes, words: seq<nat>, left: Bytes)
    requires TakeVector(rest) == Some((words, left))
    ensures VectorFits(words) && rest == Vectored(words) + left
  {
    Powers();
    var (count, tail) := TakeUnsigned(rest, 4).value;
    TakeUnsignedIff(rest, 4, count, tail);
    TakeWordsWritten(tail, count, words, left);
    assert U32(count) + (Words(words) + left) == Vectored(words) + left;
  }

  lemma TakeBodyRead(w: WireValue, left: Bytes)
    requires WireFits(w)
    ensures TakeBody(Tag(w), Payload(w) + left) == Some((w, left))
  {
    Powers();
    match w {
      case WBlob(blob) => TakeChunkIff(Payload(w) + left, blob, left);
      case WInt(bits) => TakeUnsignedIff(Payload(w) + left, 8, bits, left);
      case WFloat(bits) => TakeUnsignedIff(Payload(w) + left, 8, bits, left);
      case WList(items) => TakeListRead(items, left);
      case WHash(flat) => TakePairsRead(flat, left);
      case WSet(items) => TakeListRead(items, left);
      case WJson(text) => TakeChunkIff(Payload(w) + left, text, left);
      case WVector(words) => TakeVectorRead(words, left);
    }
  }

  lemma TakeBodyWritten(tag: Byte, rest: Bytes, w: WireValue, left: Bytes)
    requires TakeBody(tag, rest) == Some((w, left))
    ensures tag == Tag(w) && WireFits(w) && rest == Payload(w) + left
  {
    Powers();
    match w {
      case WBlob(blob) => TakeChunkIff(rest, blob, left);
      case WInt(bits) => TakeUnsignedIff(rest, 8, bits, left);
      case WFloat(bits) => TakeUnsignedIff(rest, 8, bits, left);
      case WList(items) => TakeListWritten(rest, items, left);
      case WHash(flat) => TakePairsWritten(rest, flat, left);
      case WSet(items) => TakeListWritten(rest, items, left);
      case WJson(text) => TakeChunkIff(rest, text, left);
      case WVector(words) => TakeVectorWritten(rest, words, left);
    }
  }

  /** Reading an entry from the front of any bytes is exactly undoing a write. */
  lemma TakeEntryIff(record: Bytes, e: WireEntry, left: Bytes)
    ensures TakeEntry(record) == Some((e, left)) <==> EntryFits(e) && record == EntryBytes(e) + left
  {
    if EntryFits(e) && record == EntryBytes(e) + left {
      TakeEntryRead(record, e, left);
    }
    if TakeEntry(record) == Some((e, left)) {
      TakeEntryWritten(record, e, left);
    }
  }

  lemma EntryAssoc(e: WireEntry, left: Bytes)
    ensures EntryBytes(e) + left == Chunk(e.key) + (U64(e.expiry) + ([Tag(e.value)] + (Payload(e.value) + left)))
  {
    var key, expiry, tag, body := Chunk(e.key), U64(e.expiry), [Tag(e.value)], Payload(e.value);
    Assoc(tag, body, left);
    Assoc(expiry, tag + body, left);
    Assoc(key, expiry + (tag + body), left);
  }

  lemma TakeEntryRead(record: Bytes, e: WireEntry, left: Bytes)
    requires EntryFits(e) && record == EntryBytes(e) + left
    ensures TakeEntry(record) == Some((e, left))
  {
    Powers();
    var fourth := Payload(e.value) + left;
    var third := [Tag(e.value)] + fourth;
    var second := U64(e.expiry) + third;
    EntryAssoc(e, left);
    TakeChunkIff(record, e.key, second);
    TakeUnsignedIff(second, 8, e.expiry, third);
    assert third[1..] == fourth;
    TakeBodyRead(e.value, left);
  }

  lemma TakeEntryWritten(record: Bytes, e: WireEntry, left: Bytes)
    requires TakeEntry(record) == Some((e, left))
    ensures EntryFits(e) && record == EntryBytes(e) + left
  {
    Powers();
    var (_, second) := TakeChunk(record).value;
    var (_, third) := TakeUnsigned(second, 8).value;
    TakeChunkIff(record, e.key, second);
    TakeUnsignedIff(second, 8, e.expiry, third);
    TakeBodyWritten(third[0], third[1..], e.value, left);
    assert third == [third[0]] + third[1..];
    EntryAssoc(e, left);
  }
}
