/** Commands in the Redis serialization protocol: the buffered decoder and its
encoder. UTF-8 validity is a parameter. */
module Resp {
  import opened Model
  import opened Decimal

  const CR: Byte := 13
  const LF: Byte := 10
  const CRLF: Bytes := [13, 10]
  const STAR: Byte := 42
  const DOLLAR: Byte := 36
  const MAX_RESP_HEADER_LINE_SIZE: nat := 64

  type Utf8 = Bytes -> bool

  datatype Limits = Limits(maxArray: nat, maxBulk: nat, maxInline: nat, maxFrame: nat)

  /** Every limit is a machine word. */
  predicate LimitsOk(l: Limits) {
    l.maxArray < USIZE_LIMIT && l.maxBulk < USIZE_LIMIT && l.maxInline < USIZE_LIMIT && l.maxFrame < USIZE_LIMIT
  }

  datatype RespError =
    | LineTooLong | MissingLineEnd | InlineNotUtf8 | InlineEmpty | TooManyArguments
    | BadArrayLength | EmptyArray | NotABulkString | BadBulkLength | BulkTooLong
    | LengthOverflow | FrameTooLong | MissingBulkEnd | ArgumentNotUtf8

  /** Reading from the front of the bytes that have arrived so far. */
  datatype Taken<T> = Pending | Bad(error: RespError) | Got(value: T, rest: Bytes)

  /** The position of the first line feed, or the length. */
  function Newline(rest: Bytes): (n: nat)
    ensures n <= |rest| && (n < |rest| ==> rest[n] == LF) && forall i :: 0 <= i < n ==> rest[i] != LF
  {
    if rest == [] || rest[0] == LF then 0 else 1 + Newline(rest[1..])
  }

  function Content(line: Bytes): Option<Bytes> {
    var n := |line|;
    if n >= 2 && line[n - 2] == CR && line[n - 1] == LF then Some(line[..n - 2]) else None
  }

  /** One line within a size limit, without its terminator; `rest` starts behind it. */
  function TakeLine(rest: Bytes, limit: nat): Taken<Bytes> {
    var n := Newline(rest);
    if n == |rest| then if n > limit then Bad(LineTooLong) else Pending
    else if n + 1 > limit then Bad(LineTooLong)
    else
      var content := Content(rest[..n + 1]);
      if content.None? then Bad(MissingLineEnd) else Got(content.value, rest[n + 1..])
  }

  /** One bulk string; `cursor` bytes of the frame precede it. */
  function TakeBulk(rest: Bytes, cursor: nat, l: Limits, utf8: Utf8): Taken<Bytes> {
    var line := TakeLine(rest, MAX_RESP_HEADER_LINE_SIZE);
    match line
    case Pending => Pending
    case Bad(error) => Bad(error)
    case Got(header, body) =>
      if header == [] || header[0] != DOLLAR then Bad(NotABulkString)
      else
        var length := ParseDecimal(header[1..]);
        if length.None? then Bad(BadBulkLength)
        else if length.value > l.maxBulk then Bad(BulkTooLong)
        else TakePayload(body, length.value, cursor + |rest| - |body|, l, utf8)
  }

  function TakePayload(body: Bytes, length: nat, start: nat, l: Limits, utf8: Utf8): Taken<Bytes> {
    if start + length + 2 >= USIZE_LIMIT then Bad(LengthOverflow)
    else if start + length + 2 > l.maxFrame then Bad(FrameTooLong)
    else if |body| < length + 2 then Pending
    else if body[length..length + 2] != CRLF then Bad(MissingBulkEnd)
    else if !utf8(body[..length]) then Bad(ArgumentNotUtf8)
    else Got(body[..length], body[length + 2..])
  }

  /** Reads one argument from the unread bytes; the number tells how many bytes of
      the frame precede them. */
  type Reader = (Bytes, nat) -> Taken<Bytes>

  function BulkReader(l: Limits, utf8: Utf8): Reader {
    (rest: Bytes, cursor: nat) => TakeBulk(rest, cursor, l, utf8)
  }

  function Advance(cursor: nat, rest: Bytes, tail: Bytes): nat {
    if |tail| <= |rest| then cursor + |rest| - |tail| else cursor
  }

  /** `count` arguments in a row. */
  function TakeMany(rest: Bytes, count: nat, cursor: nat, one: Reader): Taken<seq<Bytes>>
    decreases count
  {
    if count == 0 then Got([], rest)
    else
      match one(rest, cursor)
      case Pending => Pending
      case Bad(error) => Bad(error)
      case Got(argument, tail) => Cons(argument, TakeMany(tail, count - 1, Advance(cursor, rest, tail), one))
  }

  function Cons(argument: Bytes, others: Taken<seq<Bytes>>): Taken<seq<Bytes>> {
    match others
    case Pending => Pending
    case Bad(error) => Bad(error)
    case Got(arguments, left) => Got([argument] + arguments, left)
  }

  predicate IsSpace(b: Byte) { b == 32 || b == 9 || b == 10 || b == 12 || b == 13 }

  /** The line ends inside a word. */
  predicate EndsInWord(line: Bytes) { line != [] && !IsSpace(line[|line| - 1]) }

  /** One more byte continues the last word, begins a new one, or is white space. */
  function Extend(parts: seq<Bytes>, inWord: bool, b: Byte): seq<Bytes> {
    if IsSpace(b) then parts
    else if inWord && parts != [] then parts[..|parts| - 1] + [parts[|parts| - 1] + [b]]
    else parts + [[b]]
  }

  /** Maximal runs of bytes that are not ASCII white space. */
  function Split(line: Bytes): seq<Bytes> {
    if line == [] then []
    else
      var front := line[..|line| - 1];
      Extend(Split(front), EndsInWord(front), line[|line| - 1])
  }

  function InlineCommand(line: Bytes, l: Limits, utf8: Utf8): Taken<seq<Bytes>> {
    if !utf8(line) then Bad(InlineNotUtf8)
    else
      var parts := Split(line);
      if parts == [] then Bad(InlineEmpty)
      else if |parts| > l.maxArray then Bad(TooManyArguments)
      else Got(parts, [])
  }

  function FirstLineLimit(first: Byte, l: Limits): nat {
    var limit := if first == STAR then MAX_RESP_HEADER_LINE_SIZE else l.maxInline;
    if limit < l.maxFrame then limit else l.maxFrame
  }

  function ArrayLength(header: Bytes, l: Limits): Taken<nat>
    requires header != []
  {
    var count := ParseDecimal(header[1..]);
    if count.None? then Bad(BadArrayLength)
    else if count.value == 0 then Bad(EmptyArray)
    else if count.value > l.maxArray then Bad(TooManyArguments)
    else Got(count.value, [])
  }

  /** The command at the front of `input` and the bytes behind it. */
  function Decode(input: Bytes, l: Limits, utf8: Utf8): Taken<seq<Bytes>> {
    if input == [] then Pending
    else
      var line := TakeLine(input, FirstLineLimit(input[0], l));
      match line
      case Pending => Pending
      case Bad(error) => Bad(error)
      case Got(header, tail) =>
        if input[0] != STAR then
          var inline := InlineCommand(header, l, utf8);
          if inline.Got? then Got(inline.value, tail) else inline
        else if header == [] then Bad(BadArrayLength)
        else
          var count := ArrayLength(header, l);
          match count
          case Pending => Pending
          case Bad(error) => Bad(error)
          case Got(n, _) => TakeMany(tail, n, |input| - |tail|, BulkReader(l, utf8))
  }
}
