/** The byte-level primitives of the persistent formats: big-endian integers and
length-prefixed chunks. Reading is stated on the bytes that are still unread,
and each reader accepts exactly what the matching writer produces. */
module Wire {
  import opened Model

  const U32_LIMIT: nat := 0x1_0000_0000
  const U64_LIMIT: nat := 0x1_0000_0000_0000_0000

  lemma Assoc(a: Bytes, b: Bytes, c: Bytes)
    ensures (a + b) + c == a + (b + c)
  {
  }

  function Power256(width: nat): nat {
    if width == 0 then 1 else 256 * Power256(width - 1)
  }

  function BigEndian(n: nat, width: nat): (r: Bytes)
    ensures |r| == width
  {
    if width == 0 then [] else BigEndian(n / 256, width - 1) + [n % 256]
  }

  function FromBigEndian(b: Bytes): nat {
    if b == [] then 0 else FromBigEndian(b[..|b| - 1]) * 256 + b[|b| - 1]
  }

  lemma {:induction false} BigEndianRoundTrip(n: nat, width: nat)
    requires n < Power256(width)
    ensures FromBigEndian(BigEndian(n, width)) == n
  {
    if width != 0 {
      var b := BigEndian(n, width);
      assert b[..|b| - 1] == BigEndian(n / 256, width - 1);
      BigEndianRoundTrip(n / 256, width - 1);
    }
  }

  lemma {:induction false} FromBigEndianRoundTrip(b: Bytes)
    ensures FromBigEndian(b) < Power256(|b|)
    ensures BigEndian(FromBigEndian(b), |b|) == b
  {
    if b != [] {
      var front := b[..|b| - 1];
      FromBigEndianRoundTrip(front);
      assert FromBigEndian(b) / 256 == FromBigEndian(front);
      assert b == front + [b[|b| - 1]];
    }
  }

  lemma Powers()
    ensures Power256(4) == U32_LIMIT && Power256(8) == U64_LIMIT
  {
  }

  function U32(n: nat): Bytes { BigEndian(n, 4) }

  function U64(n: nat): Bytes { BigEndian(n, 8) }

  /** A value read from the front of the unread bytes, and what is left. */
  type Read<T> = Option<(T, Bytes)>

  function TakeUnsigned(rest: Bytes, width: nat): Read<nat> {
    if |rest| < width then None else Some((FromBigEndian(rest[..width]), rest[width..]))
  }

  /** A fixed-width integer is read exactly where it was written. */
  lemma TakeUnsignedIff(rest: Bytes, width: nat, n: nat, left: Bytes)
    ensures TakeUnsigned(rest, width) == Some((n, left)) <==> n < Power256(width) && rest == BigEndian(n, width) + left
  {
    if n < Power256(width) && rest == BigEndian(n, width) + left {
      assert rest[..width] == BigEndian(n, width) && rest[width..] == left;
      BigEndianRoundTrip(n, width);
    }
    if TakeUnsigned(rest, width) == Some((n, left)) {
      FromBigEndianRoundTrip(rest[..width]);
      assert rest == rest[..width] + rest[width..];
    }
  }

  // ---- Length-prefixed chunks ----

  function Chunk(b: Bytes): Bytes {
    U32(|b|) + b
  }

  function TakeChunk(rest: Bytes): Read<Bytes> {
    var length := TakeUnsigned(rest, 4);
    if length.None? || |length.value.1| < length.value.0 then None
    else Some((length.value.1[..length.value.0], length.value.1[length.value.0..]))
  }

  lemma TakeChunkIff(rest: Bytes, b: Bytes, left: Bytes)
    ensures TakeChunk(rest) == Some((b, left)) <==> |b| < U32_LIMIT && rest == Chunk(b) + left
  {
    Powers();
    if |b| < U32_LIMIT && rest == Chunk(b) + left {
      assert rest == U32(|b|) + (b + left);
      TakeUnsignedIff(rest, 4, |b|, b + left);
    }
    if TakeChunk(rest) == Some((b, left)) {
      var (length, tail) := TakeUnsigned(rest, 4).value;
      TakeUnsignedIff(rest, 4, length, tail);
      assert tail == b + left;
    }
  }

  function Chunks(items: seq<Bytes>): Bytes {
    if items == [] then [] else Chunk(items[0]) + Chunks(items[1..])
  }

  predicate ChunksFit(items: seq<Bytes>) {
    forall i :: 0 <= i < |items| ==> |items[i]| < U32_LIMIT
  }

  function TakeChunks(rest: Bytes, count: nat): Read<seq<Bytes>> {
    if count == 0 then Some(([], rest))
    else
      var first := TakeChunk(rest);
      if first.None? then None
      else
        var others := TakeChunks(first.value.1, count - 1);
        if others.None? then None else Some(([first.value.0] + others.value.0, others.value.1))
  }

  lemma {:induction false} TakeChunksRead(items: seq<Bytes>, left: Bytes)
    requires ChunksFit(items)
    ensures TakeChunks(Chunks(items) + left, |items|) == Some((items, left))
  {
    if items == [] {
      assert Chunks(items) + left == left;
    } else {
      var tail := Chunks(items[1..]) + left;
      Assoc(Chunk(items[0]), Chunks(items[1..]), left);
      TakeChunkIff(Chunk(items[0]) + tail, items[0], tail);
      TakeChunksRead(items[1..], left);
      assert [items[0]] + items[1..] == items;
    }
  }

  lemma {:induction false} TakeChunksWritten(rest: Bytes, count: nat, items: seq<Bytes>, left: Bytes)
    requires TakeChunks(rest, count) == Some((items, left))
    ensures |items| == count && ChunksFit(items) && rest == Chunks(items) + left
  {
    if count != 0 {
      var (b, tail) := TakeChunk(rest).value;
      var (others, _) := TakeChunks(tail, count - 1).value;
      TakeChunkIff(rest, b, tail);
      TakeChunksWritten(tail, count - 1, others, left);
      assert items[1..] == others;
      Assoc(Chunk(b), Chunks(others), left);
    }
  }

  // ---- Sequences of fixed-width words ----

  function Words(items: seq<nat>): Bytes {
    if items == [] then [] else U32(items[0]) + Words(items[1..])
  }

  predicate WordsFit(items: seq<nat>) {
    forall i :: 0 <= i < |items| ==> items[i] < U32_LIMIT
  }

  function TakeWords(rest: Bytes, count: nat): Read<seq<nat>> {
    if count == 0 then Some(([], rest))
    else
      var first := TakeUnsigned(rest, 4);
      if first.None? then None
      else
        var others := TakeWords(first.value.1, count - 1);
        if others.None? then None else Some(([first.value.0] + others.value.0, others.value.1))
  }

  lemma {:induction false} TakeWordsRead(items: seq<nat>, left: Bytes)
    requires WordsFit(items)
    ensures TakeWords(Words(items) + left, |items|) == Some((items, left))
  {
    Powers();
    if items == [] {
      assert Words(items) + left == left;
    } else {
      var tail := Words(items[1..]) + left;
      Assoc(U32(items[0]), Words(items[1..]), left);
      TakeUnsignedIff(U32(items[0]) + tail, 4, items[0], tail);
      TakeWordsRead(items[1..], left);
      assert [items[0]] + items[1..] == items;
    }
  }

  lemma {:induction false} TakeWordsWritten(rest: Bytes, count: nat, items: seq<nat>, left: Bytes)
    requires TakeWords(rest, count) == Some((items, left))
    ensures |items| == count && WordsFit(items) && rest == Words(items) + left
  {
    Powers();
    if count != 0 {
      var (n, tail) := TakeUnsigned(rest, 4).value;
      var (others, _) := TakeWords(tail, count - 1).value;
      TakeUnsignedIff(rest, 4, n, tail);
      TakeWordsWritten(tail, count - 1, others, left);
      assert items[1..] == others;
      Assoc(U32(n), Words(others), left);
    }
  }

  // ---- The bytes themselves ----

  /** Four bytes, the most significant one first. */
  function Word(a: nat, b: nat, c: nat, d: nat): nat {
    16_777_216 * a + 65_536 * b + 256 * c + d
  }

  lemma FourBytes(b: Bytes)
    requires |b| == 4
    ensures FromBigEndian(b) == Word(b[0], b[1], b[2], b[3])
  {
    var three, two, one := b[..3], b[..2], b[..1];
    assert three[..2] == two && two[..1] == one && one[..0] == [];
    assert FromBigEndian(one) == FromBigEndian([]) * 256 + one[0];
    assert FromBigEndian(two) == FromBigEndian(one) * 256 + two[1];
    assert FromBigEndian(three) == FromBigEndian(two) * 256 + three[2];
    assert FromBigEndian(b) == FromBigEndian(three) * 256 + b[3];
  }
}
