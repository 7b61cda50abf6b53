/** Replies: the recursive printer, the tokens a reader sees, and the limits a
reader enforces. */
module Response {
  import opened Model
  import opened Decimal
  import opened Resp
  import Wire

  const MAX_RESPONSE_HEADER_SIZE: nat := 64 * 1024
  const I64_LIMIT: int := 0x8000_0000_0000_0000
  const PLUS: Byte := 43
  const MINUS: Byte := 45
  const COLON: Byte := 58

  datatype Reply =
    | SimpleString(text: Bytes)
    | ErrorReply(text: Bytes)
    | Integer(n: int)
    | BulkString(bulk: Option<Bytes>)
    | NullArray
    | Array(items: seq<Reply>)

  datatype ReplyLimits = ReplyLimits(maxDepth: nat, maxArray: nat, maxTotal: nat, maxBulk: nat, maxFrame: nat)

  // ---- Printing ----

  function PrintSigned(n: int): Bytes { if n < 0 then [MINUS] + Printed(-n) else Printed(n) }

  /** The first line, without its terminator. */
  function HeadLine(v: Reply): Bytes {
    match v
    case SimpleString(text) => [PLUS] + text
    case ErrorReply(text) => [MINUS] + text
    case Integer(n) => [COLON] + PrintSigned(n)
    case BulkString(None) => [DOLLAR, 45, 49]
    case BulkString(Some(bulk)) => [DOLLAR] + Printed(|bulk|)
    case NullArray => [STAR, 45, 49]
    case Array(items) => [STAR] + Printed(|items|)
  }

  /** What a reader takes in one go: the line and the payload of a bulk string. */
  function Head(v: Reply): Bytes {
    if v.BulkString? && v.bulk.Some? then HeadLine(v) + CRLF + (v.bulk.value + CRLF) else HeadLine(v) + CRLF
  }

  function Encode(v: Reply): Bytes
    decreases v, if v.Array? then |v.items| + 1 else 0
  {
    if v.Array? then Head(v) + EncodeFrom(v, 0) else Head(v)
  }

  function EncodeFrom(v: Reply, i: nat): Bytes
    requires v.Array? && i <= |v.items|
    decreases v, |v.items| - i
  {
    if i == |v.items| then [] else Encode(v.items[i]) + EncodeFrom(v, i + 1)
  }

  function EncodeAll(items: seq<Reply>): Bytes {
    if items == [] then [] else Encode(items[0]) + EncodeAll(items[1..])
  }

  lemma {:induction false} EncodeFromIsAll(v: Reply, i: nat)
    requires v.Array? && i <= |v.items|
    ensures EncodeFrom(v, i) == EncodeAll(v.items[i..])
    decreases |v.items| - i
  {
    if i < |v.items| {
      assert v.items[i..][1..] == v.items[i + 1..];
      EncodeFromIsAll(v, i + 1);
    }
  }

  /** An array is its header and its elements one after the other. */
  lemma EncodeArray(v: Reply)
    requires v.Array?
    ensures Encode(v) == Head(v) + EncodeAll(v.items)
  {
    EncodeFromIsAll(v, 0);
    assert v.items[0..] == v.items;
  }

  lemma {:induction false} EncodeAllNext(items: seq<Reply>, item: Reply)
    ensures EncodeAll(items + [item]) == EncodeAll(items) + Encode(item)
  {
    if items == [] {
      assert items + [item] == [item];
      assert EncodeAll([item]) == Encode(item) + EncodeAll([]);
    } else {
      assert (items + [item])[1..] == items[1..] + [item];
      EncodeAllNext(items[1..], item);
      Wire.Assoc(Encode(items[0]), EncodeAll(items[1..]), Encode(item));
    }
  }

  lemma ElementPrinted(start: Bytes, front: seq<Reply>, item: Reply, next: seq<Reply>)
    requires next == front + [item]
    ensures start + EncodeAll(front) + Encode(item) == start + EncodeAll(next)
  {
    EncodeAllNext(front, item);
    Appended(start, EncodeAll(front), Encode(item), EncodeAll(next));
  }

  lemma Appended(start: Bytes, a: Bytes, b: Bytes, both: Bytes)
    requires both == a + b
    ensures start + a + b == start + both
  {
  }

  lemma ArrayPrinted(buffer: Bytes, v: Reply)
    requires v.Array?
    ensures buffer + Head(v) + EncodeAll(v.items) == buffer + Encode(v)
  {
    EncodeArray(v);
    Appended(buffer, Head(v), EncodeAll(v.items), Encode(v));
  }

  /** The printer appends to a buffer, element by element. */
  method EncodeInto(v: Reply, buffer: Bytes) returns (output: Bytes)
    ensures output == buffer + Encode(v)
    decreases v
  {
    var start := buffer + Head(v);
    output := start;
    if !v.Array? {
      return;
    }
    var items := v.items;
    ghost var done: seq<Reply> := [];
    assert start + EncodeAll(done) == start;
    var i := 0;
    while i < |items|
      invariant 0 <= i <= |items| && done == items[..i]
      invariant output == start + EncodeAll(done)
    {
      ghost var next := done + [items[i]];
      ElementPrinted(start, done, items[i], next);
      output := EncodeInto(items[i], output);
      i, done := i + 1, next;
    }
    assert done == items;
    ArrayPrinted(buffer, v);
  }

  // ---- What a reader admits ----

  predicate HeadOk(v: Reply, l: ReplyLimits) {
    && LF !in HeadLine(v) && |HeadLine(v)| + 2 <= MAX_RESPONSE_HEADER_SIZE
    && (v.Integer? ==> -I64_LIMIT <= v.n < I64_LIMIT)
    && (v.BulkString? && v.bulk.Some? ==> |v.bulk.value| <= l.maxBulk && |v.bulk.value| < USIZE_LIMIT)
    && (v.Array? ==> |v.items| <= l.maxArray && |v.items| < USIZE_LIMIT)
  }

  /** Every part of the value is admissible, with `room` more levels of nesting. */
  predicate Admissible(v: Reply, room: nat, l: ReplyLimits)
    decreases v
  {
    HeadOk(v, l) && (v.Array? && v.items != [] ==>
      room > 0 && forall i :: 0 <= i < |v.items| ==> Admissible(v.items[i], room - 1, l))
  }

  /** Elements counted against the total limit. */
  function Elements(v: Reply): nat
    decreases v, if v.Array? then |v.items| + 1 else 0
  {
    if v.Array? then |v.items| + ElementsFrom(v, 0) else 0
  }

  function ElementsFrom(v: Reply, i: nat): nat
    requires v.Array? && i <= |v.items|
    decreases v, |v.items| - i
  {
    if i == |v.items| then 0 else Elements(v.items[i]) + ElementsFrom(v, i + 1)
  }

  function AllElements(items: seq<Reply>): nat {
    if items == [] then 0 else Elements(items[0]) + AllElements(items[1..])
  }

  lemma {:induction false} ElementsFromIsAll(v: Reply, i: nat)
    requires v.Array? && i <= |v.items|
    ensures ElementsFrom(v, i) == AllElements(v.items[i..])
    decreases |v.items| - i
  {
    if i < |v.items| {
      assert v.items[i..][1..] == v.items[i + 1..];
      ElementsFromIsAll(v, i + 1);
    }
  }

  lemma ElementsOfArray(v: Reply)
    requires v.Array?
    ensures Elements(v) == |v.items| + AllElements(v.items)
  {
    ElementsFromIsAll(v, 0);
    assert v.items[0..] == v.items;
  }

  predicate Fits(v: Reply, l: ReplyLimits) {
    Admissible(v, l.maxDepth, l) && Elements(v) <= l.maxTotal && |Encode(v)| <= l.maxFrame
  }

  // ---- Tokens ----

  datatype Token = Whole(value: Reply) | Open(count: nat)

  /** Why a reply is refused: one constructor for each error of the reader. */
  datatype ReplyError =
    | LineTooLong | FrameTooLong | MissingLineEnd | EmptyHeader | UnsupportedType
    | BadInteger | BadBulkLength | BulkTooLong | MissingBulkEnd | BadArrayLength | ArrayTooLong
    | TooDeep | TooManyElements | UnexpectedEnd | UnfinishedArray

  datatype TokenRead = End | Fail(error: ReplyError) | Read(token: Token, consumed: nat, rest: Bytes)

  function ParseSigned(bytes: Bytes): Option<int> {
    var negative := bytes != [] && bytes[0] == MINUS;
    var digits := if negative then bytes[1..] else bytes;
    if digits == [] || !AllDigits(digits) then None
    else
      var value: int := ValueOf(digits);
      if negative then if value <= I64_LIMIT then Some(-value) else None
      else if value < I64_LIMIT then Some(value) else None
  }

  /** A length, or none for the null marker. */
  function ParseLength(bytes: Bytes): Option<Option<nat>> {
    if bytes == [45, 49] then Some(None)
    else
      var length := ParseDecimal(bytes);
      if length.None? then None else Some(length)
  }

  function TakeBulkReply(rest: Bytes, content: Bytes, consumed: nat, l: ReplyLimits): TokenRead {
    var length := ParseLength(content);
    if length.None? then Fail(ReplyError.BadBulkLength)
    else if length.value.None? then Read(Whole(BulkString(None)), consumed, rest)
    else
      var n := length.value.value;
      if n > l.maxBulk then Fail(ReplyError.BulkTooLong)
      else if consumed + n + 2 > l.maxFrame then Fail(ReplyError.FrameTooLong)
      else if |rest| < n + 2 then Fail(UnexpectedEnd)
      else if rest[n..n + 2] != CRLF then Fail(ReplyError.MissingBulkEnd)
      else Read(Whole(BulkString(Some(rest[..n]))), consumed + n + 2, rest[n + 2..])
  }

  function TakeArrayReply(rest: Bytes, content: Bytes, consumed: nat, l: ReplyLimits): TokenRead {
    var length := ParseLength(content);
    if length.None? then Fail(ReplyError.BadArrayLength)
    else if length.value.None? then Read(Whole(NullArray), consumed, rest)
    else if length.value.value > l.maxArray then Fail(ArrayTooLong)
    else Read(Open(length.value.value), consumed, rest)
  }

  function TakeTyped(prefix: Byte, content: Bytes, rest: Bytes, consumed: nat, l: ReplyLimits): TokenRead {
    if prefix == PLUS then Read(Whole(SimpleString(content)), consumed, rest)
    else if prefix == MINUS then Read(Whole(ErrorReply(content)), consumed, rest)
    else if prefix == COLON then
      var n := ParseSigned(content);
      if n.None? then Fail(BadInteger) else Read(Whole(Integer(n.value)), consumed, rest)
    else if prefix == DOLLAR then TakeBulkReply(rest, content, consumed, l)
    else if prefix == STAR then TakeArrayReply(rest, content, consumed, l)
    else Fail(UnsupportedType)
  }

  function LineLimit(l: ReplyLimits): nat {
    if MAX_RESPONSE_HEADER_SIZE < l.maxFrame then MAX_RESPONSE_HEADER_SIZE else l.maxFrame
  }

  /** The length of the first line, with its line feed if there is one. */
  function LineLength(s: Bytes): (n: nat)
    ensures n <= |s| && (s != [] ==> n > 0)
  {
    var n := Newline(s);
    if n < |s| then n + 1 else n
  }

  /** One token from the front of the stream. */
  function TakeToken(s: Bytes, consumed: nat, root: bool, l: ReplyLimits): TokenRead {
    if s == [] then if root then End else Fail(UnfinishedArray)
    else
      var n := LineLength(s);
      if n > LineLimit(l) then Fail(ReplyError.LineTooLong)
      else if consumed + n > l.maxFrame then Fail(ReplyError.FrameTooLong)
      else
        var content := Content(s[..n]);
        if content.None? then Fail(ReplyError.MissingLineEnd)
        else if content.value == [] then Fail(EmptyHeader)
        else TakeTyped(content.value[0], content.value[1..], s[n..], consumed + n, l)
  }
}
