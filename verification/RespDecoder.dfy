/** The buffered decoder's loops: a cursor into bytes already received, against the
specification on unread bytes. */
module RespDecoder {
  import opened Model
  import opened Decimal
  import opened Resp

  datatype Outcome<T> = Wait | Fail(error: RespError) | At(value: T, next: nat)

  /** `o` is what `spec` says, with the unread bytes given by a position. */
  ghost predicate Follows<T>(input: Bytes, spec: Taken<T>, o: Outcome<T>) {
    match spec
    case Pending => o == Wait
    case Bad(error) => o == Fail(error)
    case Got(value, rest) => o.At? && o.value == value && o.next <= |input| && rest == input[o.next..]
  }

  method Position(input: Bytes, from: nat) returns (n: nat)
    requires from <= |input|
    ensures n == Newline(input[from..])
  {
    n := 0;
    ghost var rest := input[from..];
    assert rest[0..] == rest;
    while from + n < |input| && input[from + n] != LF
      invariant from + n <= |input|
      invariant Newline(rest) == n + Newline(rest[n..])
    {
      assert rest[n..][1..] == rest[n + 1..];
      n := n + 1;
    }
  }

  method DecodeLine(input: Bytes, from: nat, limit: nat) returns (o: Outcome<Bytes>)
    requires from <= |input|
    ensures Follows(input, TakeLine(input[from..], limit), o)
  {
    var n := Position(input, from);
    if from + n == |input| {
      return if n > limit then Fail(LineTooLong) else Wait;
    }
    if n + 1 > limit {
      return Fail(LineTooLong);
    }
    var end := from + n + 1;
    assert input[from..][..n + 1] == input[from..end] && input[from..][n + 1..] == input[end..];
    var content := Content(input[from..end]);
    o := if content.None? then Fail(MissingLineEnd) else At(content.value, end);
  }

  method DecodePayload(input: Bytes, start: nat, length: nat, l: Limits, utf8: Utf8) returns (o: Outcome<Bytes>)
    requires start <= |input|
    ensures Follows(input, TakePayload(input[start..], length, start, l, utf8), o)
  {
    var end := start + length;
    if end + 2 >= USIZE_LIMIT {
      return Fail(LengthOverflow);
    }
    if end + 2 > l.maxFrame {
      return Fail(FrameTooLong);
    }
    if end + 2 > |input| {
      return Wait;
    }
    ghost var body := input[start..];
    assert body[length..length + 2] == input[end..end + 2] && body[..length] == input[start..end];
    assert body[length + 2..] == input[end + 2..];
    if input[end..end + 2] != CRLF {
      return Fail(MissingBulkEnd);
    }
    if !utf8(input[start..end]) {
      return Fail(ArgumentNotUtf8);
    }
    o := At(input[start..end], end + 2);
  }

  method DecodeBulk(input: Bytes, cursor: nat, l: Limits, utf8: Utf8) returns (o: Outcome<Bytes>)
    requires cursor <= |input|
    ensures Follows(input, TakeBulk(input[cursor..], cursor, l, utf8), o)
  {
    var line := DecodeLine(input, cursor, MAX_RESP_HEADER_LINE_SIZE);
    if !line.At? {
      return line;
    }
    var header := line.value;
    if header == [] || header[0] != DOLLAR {
      return Fail(NotABulkString);
    }
    var length := ParseDecimal(header[1..]);
    if length.None? {
      return Fail(BadBulkLength);
    }
    if length.value > l.maxBulk {
      return Fail(BulkTooLong);
    }
    assert cursor + |input[cursor..]| - |input[line.next..]| == line.next;
    o := DecodePayload(input, line.next, length.value, l, utf8);
  }

  /** The arguments read so far in front of the rest. */
  ghost function Prefixed(done: seq<Bytes>, others: Taken<seq<Bytes>>): Taken<seq<Bytes>> {
    match others
    case Pending => Pending
    case Bad(error) => Bad(error)
    case Got(arguments, left) => Got(done + arguments, left)
  }

  lemma PrefixedNothing(done: seq<Bytes>, others: Taken<seq<Bytes>>, rest: Bytes)
    ensures Prefixed([], others) == others && Prefixed(done, Got([], rest)) == Got(done, rest)
  {
    if others.Got? {
      assert [] + others.value == others.value;
    }
    assert done + [] == done;
  }

  lemma PrefixedCons(done: seq<Bytes>, argument: Bytes, others: Taken<seq<Bytes>>)
    ensures Prefixed(done, Cons(argument, others)) == Prefixed(done + [argument], others)
  {
    if others.Got? {
      assert done + ([argument] + others.value) == done + [argument] + others.value;
    }
  }

  /** One turn of the argument loop, for any reader. */
  lemma TakeManyNext(rest: Bytes, count: nat, cursor: nat, one: Reader, done: seq<Bytes>)
    requires count > 0
    ensures var first := one(rest, cursor); var all := Prefixed(done, TakeMany(rest, count, cursor, one));
      match first
      case Pending => all == Pending
      case Bad(error) => all == Bad(error)
      case Got(argument, tail) =>
        all == Prefixed(done + [argument], TakeMany(tail, count - 1, Advance(cursor, rest, tail), one))
  {
    var first := one(rest, cursor);
    if first.Got? {
      PrefixedCons(done, first.value, TakeMany(first.rest, count - 1, Advance(cursor, rest, first.rest), one));
    }
  }

  lemma TailIsLater(input: Bytes, cursor: nat, end: nat, l: Limits, utf8: Utf8)
    requires cursor <= |input| && end <= |input|
    requires var t := TakeBulk(input[cursor..], cursor, l, utf8); t.Got? && t.rest == input[end..]
    ensures cursor <= end && Advance(cursor, input[cursor..], input[end..]) == end
  {
  }

  /** `arguments` have been read, `left` more follow at `cursor`. */
  ghost predicate Reading(input: Bytes, spec: Taken<seq<Bytes>>, arguments: seq<Bytes>, cursor: nat, left: nat, one: Reader) {
    cursor <= |input| && spec == Prefixed(arguments, TakeMany(input[cursor..], left, cursor, one))
  }

  lemma ReadingStart(input: Bytes, start: nat, count: nat, one: Reader)
    requires start <= |input|
    ensures Reading(input, TakeMany(input[start..], count, start, one), [], start, count, one)
  {
    PrefixedNothing([], TakeMany(input[start..], count, start, one), []);
  }

  lemma ReadingDone(input: Bytes, spec: Taken<seq<Bytes>>, arguments: seq<Bytes>, cursor: nat, one: Reader)
    requires Reading(input, spec, arguments, cursor, 0, one)
    ensures Follows(input, spec, At(arguments, cursor))
  {
    PrefixedNothing(arguments, spec, input[cursor..]);
  }

  lemma ReadingNext(input: Bytes, spec: Taken<seq<Bytes>>, arguments: seq<Bytes>, cursor: nat, left: nat, fewer: nat, one: Reader,
                    o: Outcome<Bytes>)
    requires Reading(input, spec, arguments, cursor, left, one) && left == fewer + 1 && Follows(input, one(input[cursor..], cursor), o)
    requires o.At? ==> Advance(cursor, input[cursor..], input[o.next..]) == o.next
    ensures match o
      case Wait => spec == Pending
      case Fail(error) => spec == Bad(error)
      case At(argument, end) => Reading(input, spec, arguments + [argument], end, fewer, one)
  {
    TakeManyNext(input[cursor..], left, cursor, one, arguments);
  }

  method DecodeNext(input: Bytes, cursor: nat, l: Limits, utf8: Utf8) returns (o: Outcome<Bytes>)
    requires cursor <= |input|
    ensures Follows(input, BulkReader(l, utf8)(input[cursor..], cursor), o)
    ensures o.At? ==> o.next <= |input| && Advance(cursor, input[cursor..], input[o.next..]) == o.next
  {
    o := DecodeBulk(input, cursor, l, utf8);
    if o.At? {
      TailIsLater(input, cursor, o.next, l, utf8);
    }
  }

  method DecodeBulks(input: Bytes, start: nat, count: nat, l: Limits, utf8: Utf8) returns (o: Outcome<seq<Bytes>>)
    requires start <= |input|
    ensures Follows(input, TakeMany(input[start..], count, start, BulkReader(l, utf8)), o)
  {
    ghost var one := BulkReader(l, utf8);
    ReadingStart(input, start, count, one);
    o := DecodeRemaining(input, start, count, l, utf8, one, TakeMany(input[start..], count, start, one));
  }

  method DecodeRemaining(input: Bytes, start: nat, count: nat, l: Limits, utf8: Utf8, ghost one: Reader, ghost spec: Taken<seq<Bytes>>)
    returns (o: Outcome<seq<Bytes>>)
    requires one == BulkReader(l, utf8) && Reading(input, spec, [], start, count, one)
    ensures Follows(input, spec, o)
  {
    var cursor, left := start, count;
    var arguments: seq<Bytes> := [];
    while left > 0
      invariant Reading(input, spec, arguments, cursor, left, one)
    {
      var next := DecodeNext(input, cursor, l, utf8);
      var fewer := left - 1;
      ReadingNext(input, spec, arguments, cursor, left, fewer, one, next);
      if next.Wait? {
        return Wait;
      }
      if next.Fail? {
        return Fail(next.error);
      }
      arguments, cursor, left := arguments + [next.value], next.next, fewer;
    }
    ReadingDone(input, spec, arguments, cursor, one);
    o := At(arguments, cursor);
  }

  method DecodeBufferedCommand(input: Bytes, l: Limits, utf8: Utf8) returns (o: Outcome<seq<Bytes>>)
    ensures Follows(input, Decode(input, l, utf8), o)
  {
    if input == [] {
      return Wait;
    }
    assert input[0..] == input;
    var line := DecodeLine(input, 0, FirstLineLimit(input[0], l));
    match line {
      case Wait => return Wait;
      case Fail(error) => return Fail(error);
      case At(header, next) =>
        if input[0] != STAR {
          var inline := InlineCommand(header, l, utf8);
          return if inline.Got? then At(inline.value, next) else if inline.Bad? then Fail(inline.error) else Wait;
        }
        if header == [] {
          return Fail(BadArrayLength);
        }
        var count := ArrayLength(header, l);
        if !count.Got? {
          return if count.Bad? then Fail(count.error) else Wait;
        }
        assert |input| - |input[next..]| == next;
        o := DecodeBulks(input, next, count.value, l, utf8);
    }
  }
}
