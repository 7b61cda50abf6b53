/** Snapshot entries: values against their wire forms, and the byte loops that
write and read them. */
module EntryCodec {
  import opened Model
  import opened Wire
  import opened Codec

  const MAX_SNAPSHOT_RECORD_SIZE: nat := 512 * 1024 * 1024 + 1024
  const I64_LIMIT: int := 0x8000_0000_0000_0000

  /** JSON text is opaque: a parser maps a text to the canonical text of the
      document it denotes, or rejects it. */
  type Json = Bytes -> Option<Bytes>

  /** Two's complement. */
  function Bits(n: Int64): Word64 { if n < 0 then n + U64_LIMIT else n }

  function Signed(bits: Word64): Int64 { if bits < I64_LIMIT then bits else bits - U64_LIMIT }

  /** Later pairs overwrite earlier ones. */
  function PairsToMap(flat: seq<Bytes>): map<Bytes, Bytes> {
    if |flat| < 2 then map[]
    else PairsToMap(flat[..|flat| - 2])[flat[|flat| - 2] := flat[|flat| - 1]]
  }

  function Members(items: seq<Bytes>): set<Bytes> {
    set b | b in items
  }

  /** `w` writes `v`, in some iteration order for hashes and sets. */
  predicate Represents(w: WireValue, v: Value) {
    match v
    case Blob(blob) => w == WBlob(blob)
    case Int(n) => w == WInt(Bits(n))
    case Float(bits) => w == WFloat(bits)
    case List(items) => w == WList(items)
    case Hash(fields) => w.WHash? && |w.flat| == 2 * |fields| && PairsToMap(w.flat) == fields
    case Set(members) => w.WSet? && |w.items| == |members| && Members(w.items) == members
    case Json(text) => w == WJson(text)
    case Vector(components) => w == WVector(components)
  }

  function FromWire(w: WireValue, json: Json): Option<Value> {
    match w
    case WBlob(blob) => Some(Blob(blob))
    case WInt(bits) => if bits < U64_LIMIT then Some(Int(Signed(bits))) else None
    case WFloat(bits) => if bits < U64_LIMIT then Some(Float(bits)) else None
    case WList(items) => Some(List(items))
    case WHash(flat) => Some(Hash(PairsToMap(flat)))
    case WSet(items) => Some(Set(Members(items)))
    case WJson(text) => if json(text).Some? then Some(Json(json(text).value)) else None
    case WVector(words) => if WordsFit(words) then Some(Vector(words)) else None
  }

  function ExpiryWord(expiresAt: Option<Word64>): Word64 {
    if expiresAt.Some? then expiresAt.value else 0
  }

  function ExpiryOf(word: Word64): Option<Word64> {
    if word != 0 then Some(word) else None
  }

  predicate EntryRepresents(w: WireEntry, key: Bytes, entry: PersistentEntry) {
    w.key == key && w.expiry == ExpiryWord(entry.expiresAt) && Represents(w.value, entry.value)
  }

  function FromEntry(w: WireEntry, json: Json): Option<(Bytes, PersistentEntry)> {
    var value := FromWire(w.value, json);
    if value.None? || w.expiry >= U64_LIMIT then None
    else Some((w.key, PersistentEntry(value.value, ExpiryOf(w.expiry))))
  }

  /** The specification of decoding: a whole record, no trailing bytes. */
  function DecodedEntry(record: Bytes, json: Json): Option<(Bytes, PersistentEntry)> {
    var read := TakeEntry(record);
    if read.None? || read.value.1 != [] then None else FromEntry(read.value.0, json)
  }

  /** JSON text written by the serializer parses back to itself. */
  predicate JsonFaithful(json: Json, v: Value) {
    v.Json? ==> json(v.text) == Some(v.text)
  }

  lemma ValueReadsBack(w: WireValue, v: Value, json: Json)
    requires Represents(w, v) && JsonFaithful(json, v)
    ensures FromWire(w, json) == Some(v)
  {
  }

  /** A written value reads back; an entry does exactly when its expiry is not
      the zero that stands for "none". */
  lemma EntryReadsBackIff(w: WireEntry, key: Bytes, entry: PersistentEntry, json: Json)
    requires EntryRepresents(w, key, entry) && JsonFaithful(json, entry.value) && EntryFits(w)
    ensures DecodedEntry(EntryBytes(w), json) == Some((key, entry)) <==> entry.expiresAt != Some(0)
  {
    var record := EntryBytes(w);
    assert record == record + [];
    TakeEntryIff(record, w, []);
    ValueReadsBack(w.value, entry.value, json);
  }

  /** Every accepted record is the writing of some wire entry. */
  lemma AcceptedIsWritten(record: Bytes, json: Json)
    ensures DecodedEntry(record, json).Some? <==>
      exists w: WireEntry :: EntryFits(w) && record == EntryBytes(w) && FromEntry(w, json).Some?
  {
    if DecodedEntry(record, json).Some? {
      var (w, left) := TakeEntry(record).value;
      TakeEntryIff(record, w, left);
      assert record == EntryBytes(w);
    }
    forall w: WireEntry | EntryFits(w) && record == EntryBytes(w) && FromEntry(w, json).Some?
      ensures DecodedEntry(record, json).Some?
    {
      assert record == EntryBytes(w) + [];
      TakeEntryIff(record, w, []);
    }
  }

  // ---- Writing ----

  method AppendChunk(record: Bytes, b: Bytes) returns (r: Option<Bytes>)
    ensures r == if |b| < U32_LIMIT then Some(record + Chunk(b)) else None
  {
    if |b| >= U32_LIMIT {
      return None;
    }
    var prefixed := record + U32(|b|);
    r := Some(prefixed + b);
    assert prefixed + b == record + Chunk(b);
  }

  lemma {:induction false} ChunksAppend(items: seq<Bytes>, b: Bytes)
    ensures Chunks(items + [b]) == Chunks(items) + Chunk(b)
  {
    if items != [] {
      assert (items + [b])[1..] == items[1..] + [b];
      ChunksAppend(items[1..], b);
      assert Chunk(items[0]) + (Chunks(items[1..]) + Chunk(b)) == Chunks(items) + Chunk(b);
    }
  }

  lemma {:induction false} WordsAppend(words: seq<nat>, n: nat)
    ensures Words(words + [n]) == Words(words) + U32(n)
  {
    if words != [] {
      assert (words + [n])[1..] == words[1..] + [n];
      WordsAppend(words[1..], n);
      assert U32(words[0]) + (Words(words[1..]) + U32(n)) == Words(words) + U32(n);
    }
  }

  /** What has been appended to `record` so far. */
  ghost predicate Appended(record: Bytes, done: seq<Bytes>, output: Bytes) {
    ChunksFit(done) && output == record + Chunks(done)
  }

  lemma AppendedNext(record: Bytes, done: seq<Bytes>, output: Bytes, b: Bytes)
    requires Appended(record, done, output) && |b| < U32_LIMIT
    ensures Appended(record, done + [b], output + Chunk(b))
  {
    ChunksAppend(done, b);
    assert record + Chunks(done) + Chunk(b) == record + (Chunks(done) + Chunk(b));
  }

  method AppendChunks(record: Bytes, items: seq<Bytes>) returns (r: Option<Bytes>)
    ensures r == if ChunksFit(items) then Some(record + Chunks(items)) else None
  {
    var output := record;
    var i := 0;
    while i < |items|
      invariant 0 <= i <= |items|
      invariant Appended(record, items[..i], output)
    {
      var next := AppendChunk(output, items[i]);
      if next.None? {
        return None;
      }
      AppendedNext(record, items[..i], output, items[i]);
      assert items[..i] + [items[i]] == items[..i + 1];
      output, i := next.value, i + 1;
    }
    assert items[..i] == items;
    r := Some(output);
  }

  method AppendList(record: Bytes, items: seq<Bytes>) returns (r: Option<Bytes>)
    ensures r == if ListFits(items) then Some(record + Listed(items)) else None
  {
    if |items| >= U32_LIMIT {
      return None;
    }
    var counted := record + U32(|items|);
    r := AppendChunks(counted, items);
    assert counted + Chunks(items) == record + Listed(items);
  }

  method AppendVector(record: Bytes, words: seq<nat>) returns (r: Option<Bytes>)
    requires WordsFit(words)
    ensures r == if VectorFits(words) then Some(record + Vectored(words)) else None
  {
    if |words| >= U32_LIMIT {
      return None;
    }
    var counted := record + U32(|words|);
    var output := counted;
    var i := 0;
    assert output == counted + Words([]);
    while i < |words|
      invariant 0 <= i <= |words|
      invariant output == counted + Words(words[..i])
    {
      WordsAppend(words[..i], words[i]);
      assert words[..i] + [words[i]] == words[..i + 1];
      output := output + U32(words[i]);
      i := i + 1;
    }
    assert words[..i] == words;
    assert counted + Words(words) == record + Vectored(words);
    r := Some(output);
  }

  /** The pairs written so far are distinct fields of the hash. */
  ghost predicate Unwritten(fields: map<Bytes, Bytes>, left: set<Bytes>, flat: seq<Bytes>) {
    && left <= fields.Keys
    && |flat| == 2 * (|fields| - |left|)
    && PairsToMap(flat) == (map f | f in fields && f !in left :: fields[f])
  }

  lemma UnwrittenStart(fields: map<Bytes, Bytes>)
    ensures Unwritten(fields, fields.Keys, [])
  {
    assert |fields.Keys| == |fields|;
  }

  lemma UnwrittenNext(fields: map<Bytes, Bytes>, left: set<Bytes>, flat: seq<Bytes>, f: Bytes)
    requires Unwritten(fields, left, flat) && f in left
    ensures Unwritten(fields, left - {f}, flat + [f, fields[f]])
  {
    var next := flat + [f, fields[f]];
    assert next[..|next| - 2] == flat;
    assert PairsToMap(next) == (map g | g in fields && g !in left - {f} :: fields[g]);
  }

  lemma UnwrittenDone(fields: map<Bytes, Bytes>, flat: seq<Bytes>)
    requires Unwritten(fields, {}, flat)
    ensures |flat| == 2 * |fields| && PairsToMap(flat) == fields
  {
  }

  method AppendHash(record: Bytes, fields: map<Bytes, Bytes>) returns (r: Option<Bytes>, ghost flat: seq<Bytes>)
    ensures |flat| == 2 * |fields| && PairsToMap(flat) == fields
    ensures r == if PairsFit(flat) then Some(record + Paired(flat)) else None
  {
    var order := [];
    var left := fields.Keys;
    UnwrittenStart(fields);
    while left != {}
      invariant Unwritten(fields, left, order)
      decreases |left|
    {
      var f :| f in left;
      UnwrittenNext(fields, left, order, f);
      order := order + [f, fields[f]];
      left := left - {f};
    }
    UnwrittenDone(fields, order);
    flat := order;
    if |fields| >= U32_LIMIT {
      return None, flat;
    }
    var counted := record + U32(|fields|);
    r := AppendChunks(counted, order);
    assert counted + Chunks(order) == record + Paired(order);
  }

  ghost predicate Unlisted(members: set<Bytes>, left: set<Bytes>, items: seq<Bytes>) {
    && left <= members
    && |items| == |members| - |left|
    && Members(items) == members - left
  }

  lemma UnlistedNext(members: set<Bytes>, left: set<Bytes>, items: seq<Bytes>, b: Bytes)
    requires Unlisted(members, left, items) && b in left
    ensures Unlisted(members, left - {b}, items + [b])
  {
    assert Members(items + [b]) == Members(items) + {b};
  }

  method SetOrder(members: set<Bytes>) returns (items: seq<Bytes>)
    ensures |items| == |members| && Members(items) == members
  {
    items := [];
    var left := members;
    while left != {}
      invariant Unlisted(members, left, items)
      decreases |left|
    {
      var b :| b in left;
      UnlistedNext(members, left, items, b);
      items := items + [b];
      left := left - {b};
    }
  }

  method AppendValue(record: Bytes, v: Value) returns (r: Option<Bytes>, ghost w: WireValue)
    ensures Represents(w, v)
    ensures r == if WireFits(w) then Some(record + ([Tag(w)] + Payload(w))) else None
  {
    match v {
      case Blob(blob) => { r := AppendChunk(record + [1], blob); w := WBlob(blob); }
      case Int(n) => { r := Some(record + [2] + U64(Bits(n))); w := WInt(Bits(n)); }
      case Float(bits) => { r := Some(record + [3] + U64(bits)); w := WFloat(bits); }
      case List(items) => { r := AppendList(record + [4], items); w := WList(items); }
      case Hash(fields) => {
        ghost var flat;
        r, flat := AppendHash(record + [5], fields);
        w := WHash(flat);
      }
      case Set(members) => {
        var items := SetOrder(members);
        r := AppendList(record + [6], items);
        w := WSet(items);
      }
      case Json(text) => { r := AppendChunk(record + [7], text); w := WJson(text); }
      case Vector(components) => { r := AppendVector(record + [8], components); w := WVector(components); }
    }
    assert record + [Tag(w)] + Payload(w) == record + ([Tag(w)] + Payload(w));
  }

  lemma WrittenEntry(key: Bytes, expiry: nat, value: WireValue, prefix: Bytes)
    requires prefix == [] + Chunk(key) + U64(expiry)
    ensures prefix + ([Tag(value)] + Payload(value)) == EntryBytes(WireEntry(key, expiry, value))
  {
    var tail := [Tag(value)] + Payload(value);
    assert [] + Chunk(key) == Chunk(key);
    Assoc(Chunk(key), U64(expiry), tail);
  }

  /** Refused exactly when a length does not fit its prefix or the record is over
      the format limit. */
  method EncodeSnapshotEntry(key: Bytes, entry: PersistentEntry) returns (r: Option<Bytes>, ghost w: WireEntry)
    ensures EntryRepresents(w, key, entry)
    ensures r == if EntryFits(w) && |EntryBytes(w)| <= 536_871_936 then Some(EntryBytes(w)) else None
  {
    var expiry := ExpiryWord(entry.expiresAt);
    var keyed := AppendChunk([], key);
    var prefix := if keyed.Some? then keyed.value + U64(expiry) else [];
    ghost var value;
    r, value := AppendValue(prefix, entry.value);
    w := WireEntry(key, expiry, value);
    if keyed.None? {
      return None, w;
    }
    WrittenEntry(key, expiry, value, prefix);
    if r.Some? && |r.value| > MAX_SNAPSHOT_RECORD_SIZE {
      r := None;
    }
  }

  // ---- Reading: a mutable offset against the unread bytes ----

  /** `r` and `next` are what the reader `spec` yields on the unread bytes. */
  ghost predicate Tracks<T>(bytes: Bytes, spec: Read<T>, r: Option<T>, next: nat) {
    if r.None? then spec.None? else next <= |bytes| && spec == Some((r.value, bytes[next..]))
  }

  method ReadUnsigned(bytes: Bytes, offset: nat, width: nat) returns (r: Option<nat>, next: nat)
    requires offset <= |bytes|
    ensures Tracks(bytes, TakeUnsigned(bytes[offset..], width), r, next)
  {
    if offset + width > |bytes| {
      return None, offset;
    }
    var n: nat, i: nat := 0, 0;
    var slice := bytes[offset..offset + width];
    while i < width
      invariant 0 <= i <= width
      invariant n == FromBigEndian(slice[..i])
    {
      assert slice[..i + 1][..i] == slice[..i];
      n := n * 256 + bytes[offset + i];
      i := i + 1;
    }
    assert slice[..i] == slice == bytes[offset..][..width];
    assert bytes[offset..][width..] == bytes[offset + width..];
    r, next := Some(n), offset + width;
  }

  method ReadWord(bytes: Bytes, offset: nat) returns (r: Option<Word64>, next: nat)
    requires offset <= |bytes|
    ensures Tracks(bytes, TakeUnsigned(bytes[offset..], 8), r, next)
  {
    var n, after := ReadUnsigned(bytes, offset, 8);
    if n.None? {
      return None, offset;
    }
    Powers();
    TakeUnsignedIff(bytes[offset..], 8, n.value, bytes[after..]);
    r, next := Some(n.value), after;
  }

  method ReadChunk(bytes: Bytes, offset: nat) returns (r: Option<Bytes>, next: nat)
    requires offset <= |bytes|
    ensures Tracks(bytes, TakeChunk(bytes[offset..]), r, next)
  {
    var length, start := ReadUnsigned(bytes, offset, 4);
    if length.None? || start + length.value > |bytes| {
      return None, offset;
    }
    next := start + length.value;
    r := Some(bytes[start..next]);
    assert bytes[start..][..length.value] == bytes[start..next];
    assert bytes[start..][length.value..] == bytes[next..];
  }

  ghost function Prepend<T>(done: seq<T>, read: Read<seq<T>>): Read<seq<T>> {
    if read.None? then None else Some((done + read.value.0, read.value.1))
  }

  lemma PrependEnds<T>(done: seq<T>, read: Read<seq<T>>, rest: Bytes)
    ensures Prepend([], read) == read
    ensures Prepend(done, Some(([], rest))) == Some((done, rest))
  {
    if read.Some? {
      assert [] + read.value.0 == read.value.0;
    }
    assert done + [] == done;
  }

  lemma PrependNext(done: seq<Bytes>, rest: Bytes, count: nat)
    requires count > 0 && TakeChunk(rest).Some?
    ensures Prepend(done, TakeChunks(rest, count))
         == Prepend(done + [TakeChunk(rest).value.0], TakeChunks(TakeChunk(rest).value.1, count - 1))
  {
    var (b, tail) := TakeChunk(rest).value;
    var others := TakeChunks(tail, count - 1);
    if others.Some? {
      assert done + ([b] + others.value.0) == done + [b] + others.value.0;
    }
  }

  method ReadChunks(bytes: Bytes, offset: nat, count: nat) returns (r: Option<seq<Bytes>>, next: nat)
    requires offset <= |bytes|
    ensures Tracks(bytes, TakeChunks(bytes[offset..], count), r, next)
  {
    var values := [];
    var left: nat := count;
    next := offset;
    ghost var spec := TakeChunks(bytes[offset..], count);
    PrependEnds([], spec, []);
    while left > 0
      invariant next <= |bytes|
      invariant spec == Prepend(values, TakeChunks(bytes[next..], left))
    {
      var value, after := ReadChunk(bytes, next);
      if value.None? {
        return None, offset;
      }
      PrependNext(values, bytes[next..], left);
      values, next, left := values + [value.value], after, left - 1;
    }
    PrependEnds(values, None, bytes[next..]);
    r := Some(values);
  }

  method ReadList(bytes: Bytes, offset: nat) returns (r: Option<seq<Bytes>>, next: nat)
    requires offset <= |bytes|
    ensures Tracks(bytes, TakeList(bytes[offset..]), r, next)
  {
    var count, start := ReadUnsigned(bytes, offset, 4);
    if count.None? || count.value > (|bytes| - start) / 4 {
      return None, offset;
    }
    r, next := ReadChunks(bytes, start, count.value);
  }

  /** `pairs` have been read into `fields`, and `left` pairs follow. */
  ghost predicate PairsRead(spec: Read<seq<Bytes>>, pairs: seq<Bytes>, fields: map<Bytes, Bytes>, rest: Bytes, left: nat) {
    fields == PairsToMap(pairs) && spec == Prepend(pairs, TakeChunks(rest, 2 * left))
  }

  lemma PairsReadNext(spec: Read<seq<Bytes>>, pairs: seq<Bytes>, fields: map<Bytes, Bytes>, rest: Bytes, left: nat)
    requires PairsRead(spec, pairs, fields, rest, left) && left > 0
    ensures TakeChunk(rest).None? ==> spec.None?
    ensures TakeChunk(rest).Some? ==>
      var (field, middle) := TakeChunk(rest).value;
      if TakeChunk(middle).None? then spec.None?
      else
        var (value, tail) := TakeChunk(middle).value;
        PairsRead(spec, pairs + [field, value], fields[field := value], tail, left - 1)
  {
    if TakeChunk(rest).Some? {
      var (field, middle) := TakeChunk(rest).value;
      PrependNext(pairs, rest, 2 * left);
      if TakeChunk(middle).Some? {
        var value := TakeChunk(middle).value.0;
        PrependNext(pairs + [field], middle, 2 * left - 1);
        var extended := pairs + [field, value];
        assert extended == pairs + [field] + [value];
        assert extended[..|extended| - 2] == pairs;
      }
    }
  }

  method ReadPairs(bytes: Bytes, start: nat, count: nat) returns (r: Option<map<Bytes, Bytes>>, next: nat, ghost flat: Option<seq<Bytes>>)
    requires start <= |bytes|
    ensures Tracks(bytes, TakeChunks(bytes[start..], 2 * count), flat, next)
    ensures r == if flat.Some? then Some(PairsToMap(flat.value)) else None
  {
    var fields: map<Bytes, Bytes> := map[];
    ghost var pairs: seq<Bytes> := [];
    var left: nat := count;
    next := start;
    ghost var spec := TakeChunks(bytes[start..], 2 * count);
    PrependEnds([], spec, []);
    while left > 0
      invariant next <= |bytes| && PairsRead(spec, pairs, fields, bytes[next..], left)
    {
      PairsReadNext(spec, pairs, fields, bytes[next..], left);
      var field, middle := ReadChunk(bytes, next);
      if field.None? {
        return None, start, None;
      }
      var value, after := ReadChunk(bytes, middle);
      if value.None? {
        return None, start, None;
      }
      fields, pairs := fields[field.value := value.value], pairs + [field.value, value.value];
      next, left := after, left - 1;
    }
    PrependEnds(pairs, None, bytes[next..]);
    r, flat := Some(fields), Some(pairs);
  }

  /** Inserts pair by pair, so a repeated field keeps its last value. */
  method ReadHash(bytes: Bytes, offset: nat) returns (r: Option<map<Bytes, Bytes>>, next: nat, ghost flat: Option<seq<Bytes>>)
    requires offset <= |bytes|
    ensures Tracks(bytes, TakePairs(bytes[offset..]), flat, next)
    ensures r == if flat.Some? then Some(PairsToMap(flat.value)) else None
  {
    var count, start := ReadUnsigned(bytes, offset, 4);
    if count.None? || count.value > (|bytes| - start) / 8 {
      return None, offset, None;
    }
    r, next, flat := ReadPairs(bytes, start, count.value);
  }

  lemma PrependWord(done: seq<nat>, rest: Bytes, count: nat)
    requires count > 0 && TakeUnsigned(rest, 4).Some?
    ensures Prepend(done, TakeWords(rest, count))
         == Prepend(done + [TakeUnsigned(rest, 4).value.0], TakeWords(TakeUnsigned(rest, 4).value.1, count - 1))
  {
    var (n, tail) := TakeUnsigned(rest, 4).value;
    var others := TakeWords(tail, count - 1);
    if others.Some? {
      assert done + ([n] + others.value.0) == done + [n] + others.value.0;
    }
  }

  method ReadVector(bytes: Bytes, offset: nat) returns (r: Option<seq<nat>>, next: nat)
    requires offset <= |bytes|
    ensures Tracks(bytes, TakeVector(bytes[offset..]), r, next)
  {
    var count, start := ReadUnsigned(bytes, offset, 4);
    if count.None? || |bytes| - start < 4 * count.value {
      return None, offset;
    }
    var values := [];
    var left: nat := count.value;
    next := start;
    ghost var spec := TakeWords(bytes[start..], count.value);
    PrependEnds([], spec, []);
    while left > 0
      invariant next <= |bytes| && |bytes| - next >= 4 * left
      invariant spec == Prepend(values, TakeWords(bytes[next..], left))
    {
      var word, after := ReadUnsigned(bytes, next, 4);
      PrependWord(values, bytes[next..], left);
      assert |bytes[after..]| == |bytes[next..]| - 4;
      values, next, left := values + [word.value], after, left - 1;
    }
    PrependEnds(values, None, bytes[next..]);
    r := Some(values);
  }

  /** The value decoded is the meaning of the wire value that was read. */
  method ReadValue(bytes: Bytes, offset: nat, tag: Byte, json: Json) returns (r: Option<Value>, next: nat, ghost w: Option<WireValue>)
    requires offset <= |bytes|
    ensures Tracks(bytes, TakeBody(tag, bytes[offset..]), w, next)
    ensures r == if w.Some? then FromWire(w.value, json) else None
  {
    r, next, w := None, offset, None;
    match tag {
      case 1 => {
        var blob;
        blob, next := ReadChunk(bytes, offset);
        if blob.Some? { r, w := Some(Blob(blob.value)), Some(WBlob(blob.value)); }
      }
      case 2 => {
        var bits;
        bits, next := ReadWord(bytes, offset);
        if bits.Some? { r, w := Some(Int(Signed(bits.value))), Some(WInt(bits.value)); }
      }
      case 3 => {
        var bits;
        bits, next := ReadWord(bytes, offset);
        if bits.Some? { r, w := Some(Float(bits.value)), Some(WFloat(bits.value)); }
      }
      case 4 => {
        var items;
        items, next := ReadList(bytes, offset);
        if items.Some? { r, w := Some(List(items.value)), Some(WList(items.value)); }
      }
      case 5 => {
        var fields;
        ghost var flat;
        fields, next, flat := ReadHash(bytes, offset);
        if fields.Some? {
          r, w := Some(Hash(fields.value)), Some(WHash(flat.value));
        }
      }
      case 6 => {
        var items;
        items, next := ReadList(bytes, offset);
        if items.Some? { r, w := Some(Set(Members(items.value))), Some(WSet(items.value)); }
      }
      case 7 => {
        var text;
        text, next := ReadChunk(bytes, offset);
        if text.Some? {
          var parsed := json(text.value);
          w := Some(WJson(text.value));
          r := if parsed.Some? then Some(Json(parsed.value)) else None;
        }
      }
      case 8 => {
        var words;
        words, next := ReadVector(bytes, offset);
        if words.Some? {
          TakeVectorWritten(bytes[offset..], words.value, bytes[next..]);
          r, w := Some(Vector(words.value)), Some(WVector(words.value));
        }
      }
      case _ => {}
    }
  }

  method DecodeSnapshotEntry(record: Bytes, json: Json) returns (r: Option<(Bytes, PersistentEntry)>)
    ensures r == DecodedEntry(record, json)
  {
    assert record[0..] == record;
    var key, afterKey := ReadChunk(record, 0);
    if key.None? {
      return None;
    }
    var expiry, afterExpiry := ReadWord(record, afterKey);
    if expiry.None? || afterExpiry == |record| {
      return None;
    }
    var third := record[afterExpiry..];
    assert third[1..] == record[afterExpiry + 1..];
    var value, end;
    ghost var w;
    value, end, w := ReadValue(record, afterExpiry + 1, third[0], json);
    if value.None? || end != |record| {
      return None;
    }
    r := Some((key.value, PersistentEntry(value.value, ExpiryOf(expiry.value))));
  }
}
