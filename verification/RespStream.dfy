/** The streaming reader over a connection that delivers bytes in arbitrary chunks.
Its contracts speak only of the bytes still to come, so the outcome cannot depend
on how they are cut into chunks; and it agrees with the buffered decoder. */
module RespStream {
  import opened Model
  import opened Decimal
  import opened Resp
  import opened RespDecoder

  datatype Streamed = EndOfStream | Failed | Command(arguments: seq<Bytes>)

  ghost function Flatten(chunks: seq<Bytes>): Bytes {
    if chunks == [] then [] else chunks[0] + Flatten(chunks[1..])
  }

  /** A line of the stream, with its terminator unless the stream ends first. */
  ghost predicate LineRead(s: Bytes, limit: nat, line: Option<Bytes>, rest: Bytes) {
    var n := Newline(s);
    if n < |s| then
      if n + 1 <= limit then line == Some(s[..n + 1]) && rest == s[n + 1..] else line.None?
    else if n <= limit then line == Some(s) && rest == []
    else line.None?
  }

  /** `scratch` holds the start of a line; nothing in it ends the line. */
  ghost predicate Collecting(s: Bytes, scratch: Bytes, rest: Bytes, limit: nat) {
    s == scratch + rest && LF !in scratch && |scratch| <= limit
  }

  lemma {:induction false} NewlineAfter(scratch: Bytes, rest: Bytes)
    requires LF !in scratch
    ensures Newline(scratch + rest) == |scratch| + Newline(rest)
  {
    if scratch == [] {
      assert scratch + rest == rest;
    } else {
      assert (scratch + rest)[0] == scratch[0] && scratch[0] in scratch;
      assert (scratch + rest)[1..] == scratch[1..] + rest;
      NewlineAfter(scratch[1..], rest);
    }
  }

  lemma {:induction false} NewlineOfBuffer(buffer: Bytes, later: Bytes)
    ensures Newline(buffer) < |buffer| ==> Newline(buffer + later) == Newline(buffer)
    ensures Newline(buffer) == |buffer| ==> LF !in buffer
  {
    if buffer != [] && buffer[0] != LF {
      assert (buffer + later)[1..] == buffer[1..] + later;
      NewlineOfBuffer(buffer[1..], later);
    }
  }

  /** What copying the next piece of the buffer does to a line in progress. */
  lemma CopyPiece(s: Bytes, scratch: Bytes, buffer: Bytes, later: Bytes, limit: nat, copied: nat)
    requires Collecting(s, scratch, buffer + later, limit) && buffer != []
    requires var n := Newline(buffer); var available := if n < |buffer| then n + 1 else n;
      copied == if available <= limit + 1 - |scratch| then available else limit + 1 - |scratch|
    ensures var grown := scratch + buffer[..copied]; var rest := buffer[copied..] + later;
      && s == grown + rest && copied > 0
      && (|grown| > limit ==> LineRead(s, limit, None, rest))
      && (|grown| <= limit && grown[|grown| - 1] == LF ==> LineRead(s, limit, Some(grown), rest))
      && (|grown| <= limit && grown[|grown| - 1] != LF ==> Collecting(s, grown, rest, limit) && copied == |buffer|)
  {
    var n := Newline(buffer);
    var grown, rest := scratch + buffer[..copied], buffer[copied..] + later;
    assert buffer == buffer[..copied] + buffer[copied..];
    assert s == grown + rest;
    NewlineOfBuffer(buffer, later);
    NewlineAfter(scratch, buffer + later);
    assert grown[|grown| - 1] == buffer[copied - 1];
    if |grown| <= limit && grown[|grown| - 1] == LF {
      assert s[..|grown|] == grown && s[|grown|..] == rest;
    }
  }

  lemma StreamEnds(s: Bytes, scratch: Bytes, limit: nat)
    requires Collecting(s, scratch, [], limit)
    ensures LineRead(s, limit, Some(scratch), [])
  {
    assert scratch + [] == scratch == s;
    NewlineAfter(scratch, []);
  }

  /** `arguments` have been read and `left` more are expected in `rest`. */
  ghost predicate Expecting(spec: Taken<seq<Bytes>>, arguments: seq<Bytes>, rest: Bytes, cursor: nat, left: nat, one: Reader) {
    spec == Prefixed(arguments, TakeMany(rest, left, cursor, one))
  }

  lemma ExpectingNext(spec: Taken<seq<Bytes>>, arguments: seq<Bytes>, rest: Bytes, cursor: nat, left: nat, fewer: nat, one: Reader)
    requires Expecting(spec, arguments, rest, cursor, left, one) && left == fewer + 1
    ensures var t := one(rest, cursor);
      if t.Got? then Expecting(spec, arguments + [t.value], t.rest, Advance(cursor, rest, t.rest), fewer, one) else !spec.Got?
  {
    TakeManyNext(rest, left, cursor, one, arguments);
  }

  /** Copying the next piece of what remains. */
  lemma PieceRead(s: Bytes, payload: Bytes, rest: Bytes, available: Bytes, copied: nat)
    requires |payload| <= |s| && payload == s[..|payload|] && rest == s[|payload|..]
    requires copied <= |available| <= |rest| && available == rest[..|available|]
    ensures var grown := payload + available[..copied];
      |grown| <= |s| && grown == s[..|grown|] && rest[copied..] == s[|grown|..]
  {
  }

  class Source {
    var buffer: Bytes
    var chunks: seq<Bytes>

    ghost function Remaining(): Bytes
      reads this
    {
      buffer + Flatten(chunks)
    }

    constructor (chunks: seq<Bytes>)
      ensures Remaining() == Flatten(chunks)
    {
      this.buffer, this.chunks := [], chunks;
    }

    /** The buffered bytes; empty only at the end of the stream. */
    method FillBuf() returns (available: Bytes)
      modifies this
      ensures Remaining() == old(Remaining()) && available == buffer
      ensures available == [] <==> old(Remaining()) == []
    {
      while buffer == [] && chunks != []
        invariant Remaining() == old(Remaining())
        decreases |chunks|
      {
        buffer, chunks := chunks[0], chunks[1..];
      }
      available := buffer;
    }

    method Consume(n: nat)
      requires n <= |buffer|
      modifies this
      ensures buffer == old(buffer)[n..] && chunks == old(chunks)
      ensures Remaining() == old(Remaining())[n..]
    {
      buffer := buffer[n..];
    }

    method ReadBoundedLine(limit: nat) returns (line: Option<Bytes>)
      modifies this
      ensures LineRead(old(Remaining()), limit, line, Remaining())
    {
      ghost var s := Remaining();
      var scratch: Bytes := [];
      assert s == scratch + Remaining();
      while true
        invariant Collecting(s, scratch, Remaining(), limit)
        decreases |Remaining()|
      {
        var available := FillBuf();
        if available == [] {
          StreamEnds(s, scratch, limit);
          return Some(scratch);
        }
        var n := Position(available, 0);
        assert available[0..] == available;
        var length := if n < |available| then n + 1 else n;
        var room := limit + 1 - |scratch|;
        var copied := if length <= room then length else room;
        CopyPiece(s, scratch, buffer, Flatten(chunks), limit, copied);
        scratch := scratch + available[..copied];
        Consume(copied);
        if |scratch| > limit {
          return None;
        }
        if copied == length && scratch[|scratch| - 1] == LF {
          return Some(scratch);
        }
      }
    }

    method ReadExact(n: nat) returns (r: Option<Bytes>)
      modifies this
      ensures var s := old(Remaining());
        if |s| < n then r.None? else r == Some(s[..n]) && Remaining() == s[n..]
    {
      ghost var s := Remaining();
      var payload: Bytes := [];
      assert s[..0] == [] && s[0..] == s;
      while |payload| < n
        invariant |payload| <= n && |payload| <= |s| && payload == s[..|payload|] && Remaining() == s[|payload|..]
        decreases n - |payload|
      {
        var available := FillBuf();
        if available == [] {
          return None;
        }
        var wanted := n - |payload|;
        var copied := if |available| < wanted then |available| else wanted;
        ghost var rest := Remaining();
        PieceRead(s, payload, rest, available, copied);
        payload := payload + available[..copied];
        Consume(copied);
      }
      r := Some(payload);
    }

    /** One line, as the buffered decoder takes it; incomplete input is an error. */
    method ReadLine(limit: nat) returns (r: Option<(Bytes, nat)>)
      modifies this
      ensures var s := old(Remaining()); var t := TakeLine(s, limit);
        if t.Got? then r == Some((t.value, |s| - |t.rest|)) && Remaining() == t.rest else r.None?
    {
      ghost var s := Remaining();
      var line := ReadBoundedLine(limit);
      if line.None? {
        return None;
      }
      var content := Content(line.value);
      r := if content.None? then None else Some((content.value, |line.value|));
    }

    /** Payload and terminator, after the frame limit has been checked. */
    method ReadPayload(length: nat, start: nat, l: Limits, utf8: Utf8) returns (r: Option<Bytes>)
      modifies this
      ensures var t := TakePayload(old(Remaining()), length, start, l, utf8);
        if t.Got? then r == Some(t.value) && Remaining() == t.rest else r.None?
    {
      ghost var s := Remaining();
      if start + length + 2 >= USIZE_LIMIT || start + length + 2 > l.maxFrame {
        return None;
      }
      var payload := ReadExact(length);
      if payload.None? {
        return None;
      }
      var terminator := ReadExact(2);
      if |s| >= length + 2 {
        assert s[length..][..2] == s[length..length + 2] && s[length..][2..] == s[length + 2..];
      }
      if terminator.None? || terminator.value != CRLF || !utf8(payload.value) {
        return None;
      }
      r := payload;
    }

    method ReadBulk(cursor: nat, l: Limits, utf8: Utf8) returns (r: Option<(Bytes, nat)>)
      modifies this
      ensures var s := old(Remaining()); var t := BulkReader(l, utf8)(s, cursor);
        if t.Got? then r == Some((t.value, Advance(cursor, s, t.rest))) && Remaining() == t.rest else r.None?
    {
      ghost var s := Remaining();
      var line := ReadLine(MAX_RESP_HEADER_LINE_SIZE);
      if line.None? {
        return None;
      }
      var (header, size) := line.value;
      if header == [] || header[0] != DOLLAR {
        return None;
      }
      var length := ParseDecimal(header[1..]);
      if length.None? || length.value > l.maxBulk {
        return None;
      }
      ghost var body := Remaining();
      var payload := ReadPayload(length.value, cursor + size, l, utf8);
      if payload.None? {
        return None;
      }
      r := Some((payload.value, cursor + size + (length.value + 2)));
    }

    method ReadBulks(count: nat, start: nat, l: Limits, utf8: Utf8, ghost one: Reader, ghost spec: Taken<seq<Bytes>>)
      returns (r: Option<seq<Bytes>>)
      requires one == BulkReader(l, utf8) && spec == TakeMany(Remaining(), count, start, one)
      modifies this
      ensures if spec.Got? then r == Some(spec.value) && Remaining() == spec.rest else r.None?
    {
      var cursor, left := start, count;
      var arguments: seq<Bytes> := [];
      PrefixedNothing([], spec, []);
      while left > 0
        invariant Expecting(spec, arguments, Remaining(), cursor, left, one)
      {
        ghost var rest := Remaining();
        var fewer := left - 1;
        ExpectingNext(spec, arguments, rest, cursor, left, fewer, one);
        var next := ReadBulk(cursor, l, utf8);
        if next.None? {
          return None;
        }
        arguments, cursor, left := arguments + [next.value.0], next.value.1, fewer;
      }
      PrefixedNothing(arguments, spec, Remaining());
      r := Some(arguments);
    }

    /** For every chunking: a command that the buffered decoder accepts is read with
        exactly the same bytes, an error is an error, and incomplete input is an
        error unless nothing was sent at all. */
    method ReadCommand(l: Limits, utf8: Utf8) returns (r: Streamed)
      modifies this
      ensures var s := old(Remaining());
        match Decode(s, l, utf8)
        case Pending => r == if s == [] then EndOfStream else Failed
        case Bad(_) => r == Failed
        case Got(arguments, rest) => r == Command(arguments) && Remaining() == rest
    {
      ghost var s := Remaining();
      var available := FillBuf();
      if available == [] {
        return EndOfStream;
      }
      var first := available[0];
      assert s[0] == first;
      var line := ReadLine(FirstLineLimit(first, l));
      if line.None? {
        return Failed;
      }
      var (header, size) := line.value;
      if first != STAR {
        var inline := InlineCommand(header, l, utf8);
        return if inline.Got? then Command(inline.value) else Failed;
      }
      if header == [] {
        return Failed;
      }
      var count := ArrayLength(header, l);
      if !count.Got? {
        return Failed;
      }
      ghost var one := BulkReader(l, utf8);
      var arguments := ReadBulks(count.value, size, l, utf8, one, TakeMany(Remaining(), count.value, size, one));
      r := if arguments.Some? then Command(arguments.value) else Failed;
    }
  }
}
