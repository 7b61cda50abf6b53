/** The formats byte by byte: where each part of a record stands and which literal
bytes mark it, in the files and on the wire. */
module Layouts {
  import opened Model
  import opened Wire
  import opened Codec
  import opened EntryCodec
  import opened BatchCodec
  import opened Framing
  import opened Decimal
  import Resp
  import RespLaws
  import Response

  // ---- Numbers ----

  /** The most significant byte comes first. */
  lemma FourOf(n: nat)
    requires n < 4_294_967_296
    ensures U32(n) == [n / 16_777_216, n / 65_536 % 256, n / 256 % 256, n % 256]
  {
    assert BigEndian(n / 256 / 256 / 256 / 256, 0) == [];
    assert BigEndian(n / 256 / 256 / 256, 1) == [n / 256 / 256 / 256 % 256];
    assert BigEndian(n / 256 / 256, 2) == [n / 256 / 256 / 256 % 256, n / 256 / 256 % 256];
    assert BigEndian(n / 256, 3) == [n / 256 / 256 / 256 % 256, n / 256 / 256 % 256, n / 256 % 256];
    assert n / 256 / 256 == n / 65_536 && n / 256 / 256 / 256 == n / 16_777_216;
  }

  /** A long number is its two halves. */
  lemma EightOf(n: nat)
    requires n < U64_LIMIT
    ensures U64(n) == U32(n / 4_294_967_296) + U32(n % 4_294_967_296)
  {
    var high, low := n / 4_294_967_296, n % 4_294_967_296;
    FourOf(low);
    LastFour(n, high, low);
  }

  /** The last four bytes of a long number. */
  lemma LastFour(n: nat, high: nat, low: nat)
    requires n == 4_294_967_296 * high + low && low < 4_294_967_296
    ensures U64(n) == U32(high) + [low / 16_777_216, low / 65_536 % 256, low / 256 % 256, low % 256]
  {
    var n1 := n / 256;
    var n2 := n1 / 256;
    var n3 := n2 / 256;
    assert n1 == 16_777_216 * high + low / 256 && n % 256 == low % 256;
    assert n2 == 65_536 * high + low / 65_536 && n1 % 256 == low / 256 % 256;
    assert n3 == 256 * high + low / 16_777_216 && n2 % 256 == low / 65_536 % 256;
    assert n3 / 256 == high && n3 % 256 == low / 16_777_216;
    assert BigEndian(n3, 5) == BigEndian(high, 4) + [low / 16_777_216];
    assert BigEndian(n2, 6) == BigEndian(n3, 5) + [n2 % 256];
    assert BigEndian(n1, 7) == BigEndian(n2, 6) + [n1 % 256];
    assert BigEndian(n, 8) == BigEndian(n1, 7) + [n % 256];
  }

  /** Integers are written in two's complement. */
  lemma BitsAre(n: Int64)
    ensures Bits(n) == if n < 0 then n + 18_446_744_073_709_551_616 else n
  {
  }

  // ---- Entries, batches and records ----

  /** Key length, key, expiry or zero, a byte for the type, and the value. */
  lemma EntryLayout(e: WireEntry)
    ensures var k, type_ := |e.key|,
        (match e.value
         case WBlob(_) => 1 case WInt(_) => 2 case WFloat(_) => 3 case WList(_) => 4
         case WHash(_) => 5 case WSet(_) => 6 case WJson(_) => 7 case WVector(_) => 8);
      EntryBytes(e) == U32(k) + e.key + U64(e.expiry) + [type_] + ValueBytes(e.value)
  {
  }

  /** A length and the bytes; eight bytes; or a count and the elements. */
  function ValueBytes(w: WireValue): Bytes {
    match w
    case WBlob(b) => U32(|b|) + b
    case WJson(b) => U32(|b|) + b
    case WInt(bits) => U64(bits)
    case WFloat(bits) => U64(bits)
    case WList(items) => U32(|items|) + Chunks(items)
    case WSet(items) => U32(|items|) + Chunks(items)
    case WHash(flat) => U32(|flat| / 2) + Chunks(flat)
    case WVector(words) => U32(|words|) + Words(words)
  }

  /** Elements follow each other, each behind its length. */
  lemma {:induction false} ElementsLayout(items: seq<Bytes>, item: Bytes)
    ensures Chunks(items + [item]) == Chunks(items) + U32(|item|) + item
  {
    if items == [] {
      assert items + [item] == [item] && [item][1..] == [];
    } else {
      assert (items + [item])[1..] == items[1..] + [item];
      ElementsLayout(items[1..], item);
    }
  }

  lemma {:induction false} WordsLayout(words: seq<nat>, word: nat)
    ensures Words(words + [word]) == Words(words) + U32(word)
  {
    if words == [] {
      assert words + [word] == [word] && [word][1..] == [];
    } else {
      assert (words + [word])[1..] == words[1..] + [word];
      WordsLayout(words[1..], word);
    }
  }

  lemma {:induction false} EffectsNext(es: seq<WireEffect>, e: WireEffect)
    ensures EffectsBytes(es + [e]) == EffectsBytes(es) + EffectBytes(e)
  {
    var all := es + [e];
    if es == [] {
      assert all == [e] && all[1..] == [];
      assert EffectsBytes([e]) == EffectBytes(e) + EffectsBytes([]);
    } else {
      assert all[1..] == es[1..] + [e];
      EffectsNext(es[1..], e);
      Assoc(EffectBytes(es[0]), EffectsBytes(es[1..]), EffectBytes(e));
    }
  }

  /** A count and the effects: one for a put and its entry, two for a deletion and
      its key, each behind its length. */
  lemma EffectsLayout(es: seq<WireEffect>, e: WireEffect)
    ensures BatchBytes(es) == U32(|es|) + EffectsBytes(es) && EffectsBytes([]) == []
    ensures EffectsBytes(es + [e]) == EffectsBytes(es) +
      match e
      case WPut(entry) => [1] + U32(|EntryBytes(entry)|) + EntryBytes(entry)
      case WDelete(key) => [2] + U32(|key|) + key
  {
    EffectsNext(es, e);
    EffectLayout(e);
  }

  lemma EffectLayout(e: WireEffect)
    ensures EffectBytes(e) ==
      match e
      case WPut(entry) => [1] + U32(|EntryBytes(entry)|) + EntryBytes(entry)
      case WDelete(key) => [2] + U32(|key|) + key
  {
    var operand := Operand(e);
    Assoc([Opcode(e)], U32(|operand|), operand);
  }

  /** Length, "ONX4", length, sequence, payload, and the checksum of all but the first. */
  lemma RecordLayout(sequence: nat, payload: Bytes, crc: Checksum)
    ensures var length := 20 + |payload|; var head := [79, 78, 88, 52] + U32(length) + U64(sequence) + payload;
      Frame(RecordBytes(sequence, payload, crc)) == U32(length) + head + U32(crc(head) % 4_294_967_296)
  {
    var head := [79, 78, 88, 52] + U32(20 + |payload|) + U64(sequence) + payload;
    assert RecordHead(sequence, payload) == head;
  }

  // ---- The Redis protocol ----

  /** Decimal digits, the most significant one first, without leading zeros. */
  lemma DigitsAre(n: nat, digit: nat)
    requires digit < 10
    ensures Printed(digit) == [48 + digit]
    ensures n > 0 ==> Printed(10 * n + digit) == Printed(n) + [48 + digit]
  {
  }

  lemma CommandLayout(arguments: seq<Bytes>, argument: Bytes)
    ensures RespLaws.Encoding(arguments) == [42] + Printed(|arguments|) + [13, 10] + RespLaws.Bulks(arguments)
    ensures RespLaws.Bulks([argument] + arguments) == [36] + Printed(|argument|) + [13, 10] + argument + [13, 10] + RespLaws.Bulks(arguments)
    ensures RespLaws.Bulks([]) == []
  {
    var all := [argument] + arguments;
    assert all[0] == argument && all[1..] == arguments;
    assert RespLaws.Bulks(all) == RespLaws.Bulk(argument) + RespLaws.Bulks(arguments);
  }

  /** Each kind of reply by its first byte. */
  lemma ReplyLayout(v: Response.Reply)
    ensures Response.Encode(v) ==
      match v
      case SimpleString(text) => [43] + text + [13, 10]
      case ErrorReply(text) => [45] + text + [13, 10]
      case Integer(n) => [58] + (if n < 0 then [45] + Printed(-n) else Printed(n)) + [13, 10]
      case BulkString(None) => [36, 45, 49, 13, 10]
      case BulkString(Some(bulk)) => [36] + Printed(|bulk|) + [13, 10] + bulk + [13, 10]
      case NullArray => [42, 45, 49, 13, 10]
      case Array(items) => [42] + Printed(|items|) + [13, 10] + Response.EncodeAll(items)
  {
    if v.Array? {
      Response.EncodeArray(v);
    }
  }
}
