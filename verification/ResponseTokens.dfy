/** Tokens against the printer, and reading them from a stream. */
module ResponseTokens {
  import opened Model
  import opened Decimal
  import opened Resp
  import opened RespLaws
  import opened RespStream
  import opened Response

  function TokenOf(v: Reply): Token { if v.Array? then Open(|v.items|) else Whole(v) }

  lemma ParsePrintedSigned(n: int)
    requires -I64_LIMIT <= n < I64_LIMIT
    ensures ParseSigned(PrintSigned(n)) == Some(n)
  {
    if n < 0 {
      PrintedDigits(-n);
      assert PrintSigned(n)[1..] == Printed(-n);
    } else {
      PrintedDigits(n);
      assert IsDigit(Printed(n)[0]);
    }
  }

  lemma ParsePrintedLength(n: nat)
    requires n < USIZE_LIMIT
    ensures ParseLength(Printed(n)) == Some(Some(n))
  {
    PrintedDigits(n);
    ParsePrinted(n);
    assert IsDigit(Printed(n)[0]);
  }

  /** Everything that follows the line of a token. */
  function Payload(v: Reply): Bytes {
    if v.BulkString? && v.bulk.Some? then v.bulk.value + CRLF else []
  }

  lemma TakeWrittenBulkReply(bulk: Bytes, tail: Bytes, consumed: nat, l: ReplyLimits)
    requires |bulk| <= l.maxBulk && |bulk| < USIZE_LIMIT && consumed + |bulk| + 2 <= l.maxFrame
    ensures TakeBulkReply(bulk + CRLF + tail, Printed(|bulk|), consumed, l)
         == Read(Whole(BulkString(Some(bulk))), consumed + |bulk| + 2, tail)
  {
    var n, rest := |bulk|, bulk + CRLF + tail;
    ParsePrintedLength(n);
    assert rest[..n] == bulk && rest[n..n + 2] == CRLF && rest[n + 2..] == tail;
  }

  lemma TakeWrittenTyped(v: Reply, tail: Bytes, consumed: nat, l: ReplyLimits)
    requires HeadOk(v, l) && consumed + |Payload(v)| <= l.maxFrame
    ensures TakeTyped(HeadLine(v)[0], HeadLine(v)[1..], Payload(v) + tail, consumed, l)
         == Read(TokenOf(v), consumed + |Payload(v)|, tail)
  {
    assert [] + tail == tail;
    match v
    case SimpleString(text) => assert HeadLine(v)[1..] == text;
    case ErrorReply(text) => assert HeadLine(v)[1..] == text;
    case Integer(n) =>
      assert HeadLine(v)[1..] == PrintSigned(n);
      ParsePrintedSigned(n);
    case BulkString(bulk) =>
      if bulk.Some? {
        assert HeadLine(v)[1..] == Printed(|bulk.value|);
        TakeWrittenBulkReply(bulk.value, tail, consumed, l);
      }
    case NullArray =>
    case Array(items) =>
      assert HeadLine(v)[1..] == Printed(|items|);
      ParsePrintedLength(|items|);
  }

  lemma HeadSplits(v: Reply, tail: Bytes)
    ensures Head(v) + tail == HeadLine(v) + CRLF + (Payload(v) + tail)
    ensures |Head(v)| == |HeadLine(v)| + 2 + |Payload(v)| && HeadLine(v) != []
  {
    var line := HeadLine(v);
    if v.BulkString? && v.bulk.Some? {
      assert line + CRLF + (v.bulk.value + CRLF) + tail == line + CRLF + ((v.bulk.value + CRLF) + tail);
    } else {
      assert [] + tail == tail;
    }
  }

  lemma TokenOfLine(line: Bytes, rest: Bytes, consumed: nat, after: nat, root: bool, l: ReplyLimits)
    requires line != [] && LF !in line && |line| + 2 <= MAX_RESPONSE_HEADER_SIZE
    requires after == consumed + |line| + 2 && after <= l.maxFrame
    ensures TakeToken(line + CRLF + rest, consumed, root, l) == TakeTyped(line[0], line[1..], rest, after, l)
  {
    TakeWrittenLine(line, rest, LineLimit(l));
  }

  /** A printed head is read back as its token, whatever follows. */
  lemma TakeWrittenToken(v: Reply, tail: Bytes, consumed: nat, root: bool, l: ReplyLimits)
    requires HeadOk(v, l) && consumed + |Head(v)| <= l.maxFrame
    ensures TakeToken(Head(v) + tail, consumed, root, l) == Read(TokenOf(v), consumed + |Head(v)|, tail)
  {
    var line, payload := HeadLine(v), Payload(v);
    var after := consumed + |line| + 2;
    HeadSplits(v, tail);
    assert after + |payload| == consumed + |Head(v)|;
    TokenOfLine(line, payload + tail, consumed, after, root, l);
    TakeWrittenTyped(v, tail, after, l);
  }

  datatype TokenOut = OutEnd | OutFail(error: ReplyError) | Out(token: Token, consumed: nat)

  /** The reader's answer and the stream it leaves are what `spec` says. */
  ghost predicate Answers(spec: TokenRead, out: TokenOut, remaining: Bytes) {
    match spec
    case End => out == OutEnd
    case Fail(error) => out == OutFail(error)
    case Read(token, consumed, rest) => out == Out(token, consumed) && remaining == rest
  }

  method ReadBulkReply(src: Source, content: Bytes, consumed: nat, l: ReplyLimits) returns (out: TokenOut)
    modifies src
    ensures Answers(TakeBulkReply(old(src.Remaining()), content, consumed, l), out, src.Remaining())
  {
    ghost var s := src.Remaining();
    var length := ParseLength(content);
    if length.None? {
      return OutFail(ReplyError.BadBulkLength);
    }
    if length.value.None? {
      return Out(Whole(BulkString(None)), consumed);
    }
    var n := length.value.value;
    if n > l.maxBulk {
      return OutFail(ReplyError.BulkTooLong);
    }
    if consumed + n + 2 > l.maxFrame {
      return OutFail(ReplyError.FrameTooLong);
    }
    var payload := src.ReadExact(n);
    if payload.None? {
      return OutFail(UnexpectedEnd);
    }
    var terminator := src.ReadExact(2);
    if |s| >= n + 2 {
      assert s[n..][..2] == s[n..n + 2] && s[n..][2..] == s[n + 2..];
    }
    if terminator.None? {
      return OutFail(UnexpectedEnd);
    }
    if terminator.value != CRLF {
      return OutFail(ReplyError.MissingBulkEnd);
    }
    out := Out(Whole(BulkString(payload)), consumed + n + 2);
  }

  /** What reading one line of the stream gives, in terms of its length. */
  lemma LineOfStream(s: Bytes, limit: nat, line: Option<Bytes>, rest: Bytes)
    requires LineRead(s, limit, line, rest)
    ensures line.None? <==> LineLength(s) > limit
    ensures line.Some? ==> line.value == s[..LineLength(s)] && rest == s[LineLength(s)..]
  {
  }

  method ReadToken(src: Source, consumed: nat, root: bool, l: ReplyLimits) returns (out: TokenOut)
    modifies src
    ensures Answers(TakeToken(old(src.Remaining()), consumed, root, l), out, src.Remaining())
  {
    ghost var s := src.Remaining();
    var line := src.ReadBoundedLine(LineLimit(l));
    LineOfStream(s, LineLimit(l), line, src.Remaining());
    if line.None? {
      return OutFail(ReplyError.LineTooLong);
    }
    if line.value == [] {
      return if root then OutEnd else OutFail(UnfinishedArray);
    }
    var after := consumed + |line.value|;
    if after > l.maxFrame {
      return OutFail(ReplyError.FrameTooLong);
    }
    var content := Content(line.value);
    if content.None? {
      return OutFail(ReplyError.MissingLineEnd);
    }
    if content.value == [] {
      return OutFail(EmptyHeader);
    }
    out := ReadTyped(src, content.value[0], content.value[1..], after, l);
  }

  method ReadTyped(src: Source, prefix: Byte, content: Bytes, consumed: nat, l: ReplyLimits) returns (out: TokenOut)
    modifies src
    ensures Answers(TakeTyped(prefix, content, old(src.Remaining()), consumed, l), out, src.Remaining())
  {
    if prefix == PLUS {
      return Out(Whole(SimpleString(content)), consumed);
    }
    if prefix == MINUS {
      return Out(Whole(ErrorReply(content)), consumed);
    }
    if prefix == COLON {
      var n := ParseSigned(content);
      return if n.None? then OutFail(BadInteger) else Out(Whole(Integer(n.value)), consumed);
    }
    if prefix == DOLLAR {
      out := ReadBulkReply(src, content, consumed, l);
      return;
    }
    if prefix != STAR {
      return OutFail(UnsupportedType);
    }
    var length := ParseLength(content);
    if length.None? {
      return OutFail(ReplyError.BadArrayLength);
    }
    if length.value.None? {
      return Out(Whole(NullArray), consumed);
    }
    out := if length.value.value > l.maxArray then OutFail(ArrayTooLong) else Out(Open(length.value.value), consumed);
  }
}
