/** What every head of a reply is read as, accepted or not, told from the bytes
alone, and what a nesting or an element too many does. */
module ReplyLaws {
  import opened Model
  import opened Decimal
  import opened Resp
  import opened Response
  import opened ResponseTokens
  import opened ResponseParser
  import CommandLaws

  /** A decimal number with at most a minus sign, within 64 bits. */
  lemma SignedIs(bytes: Bytes)
    ensures bytes == [] || (bytes[0] != 45 && !AllDigits(bytes)) ==> ParseSigned(bytes) == None
    ensures bytes != [] && AllDigits(bytes) ==>
      ParseSigned(bytes) == if ValueOf(bytes) < 9_223_372_036_854_775_808 then Some(ValueOf(bytes)) else None
    ensures bytes != [] && bytes[0] == 45 ==>
      ParseSigned(bytes) ==
        if bytes[1..] != [] && AllDigits(bytes[1..]) && ValueOf(bytes[1..]) <= 9_223_372_036_854_775_808 then Some(-(ValueOf(bytes[1..]) as int)) else None
  {
  }

  /** "-1" is null, anything else a length. */
  lemma LengthIs(bytes: Bytes)
    ensures ParseLength(bytes) ==
      if bytes == [45, 49] then Some(None)
      else if bytes != [] && AllDigits(bytes) && ValueOf(bytes) < 18_446_744_073_709_551_616 then Some(Some(ValueOf(bytes)))
      else None
  {
    CommandLaws.DecimalIs(bytes);
  }

  /** The line of a head: its limits, and the byte that tells the type. */
  lemma HeadIs(prefix: Byte, c: Bytes, more: Bytes, consumed: nat, root: bool, l: ReplyLimits)
    requires prefix != 10 && forall i :: 0 <= i < |c| ==> c[i] != 10
    ensures var t, size := TakeToken([prefix] + c + [13, 10] + more, consumed, root, l), |c| + 3;
      if size > 65_536 || size > l.maxFrame then t == Fail(ReplyError.LineTooLong)
      else if consumed + size > l.maxFrame then t == Fail(ReplyError.FrameTooLong)
      else if prefix == 43 then t == Read(Whole(SimpleString(c)), consumed + size, more)
      else if prefix == 45 then t == Read(Whole(ErrorReply(c)), consumed + size, more)
      else if prefix == 58 then
        t == if ParseSigned(c).None? then Fail(BadInteger) else Read(Whole(Integer(ParseSigned(c).value)), consumed + size, more)
      else if prefix == 36 then t == TakeBulkReply(more, c, consumed + size, l)
      else if prefix == 42 then t == TakeArrayReply(more, c, consumed + size, l)
      else t == Fail(UnsupportedType)
  {
    var line := [prefix] + c;
    var s := line + [13, 10] + more;
    CommandLaws.FirstNewline(line + [13], more);
    assert line + [13] + [10] + more == s;
    var n := |line| + 2;
    assert s[..n] == line + [13, 10] && s[n..] == more && (line + [13, 10])[..n - 2] == line;
    assert line[0] == prefix && line[1..] == c;
  }

  /** What is no head: the end of the stream, an empty line, or one without CR LF. */
  lemma NoHeadIs(c: Bytes, more: Bytes, consumed: nat, root: bool, l: ReplyLimits)
    requires forall i :: 0 <= i < |c| ==> c[i] != 10
    ensures TakeToken([], consumed, root, l) == if root then End else Fail(UnfinishedArray)
    ensures 2 <= l.maxFrame && consumed + 2 <= l.maxFrame ==> TakeToken([13, 10] + more, consumed, root, l) == Fail(EmptyHeader)
    ensures var t, size := TakeToken(c + [10] + more, consumed, root, l), |c| + 1;
      (c == [] || c[|c| - 1] != 13) && size <= 65_536 && size <= l.maxFrame && consumed + size <= l.maxFrame ==> t == Fail(ReplyError.MissingLineEnd)
  {
    CommandLaws.FirstNewline(c, more);
    var bare := c + [10] + more;
    assert bare[..|c| + 1] == c + [10];
    var cr: Bytes := [13];
    CommandLaws.FirstNewline(cr, more);
    var empty := [13, 10] + more;
    assert cr + [10] + more == empty && empty[..2] == [13, 10] && [13, 10][..0] == [];
  }

  /** A bulk string: null, a length out of bounds, an end too early, or its bytes. */
  lemma BulkReplyIs(c: Bytes, rest: Bytes, consumed: nat, l: ReplyLimits)
    ensures var t := TakeBulkReply(rest, c, consumed, l);
      if c == [45, 49] then t == Read(Whole(BulkString(None)), consumed, rest)
      else if c == [] || !AllDigits(c) || ValueOf(c) >= 18_446_744_073_709_551_616 then t == Fail(ReplyError.BadBulkLength)
      else var n := ValueOf(c);
        if n > l.maxBulk then t == Fail(ReplyError.BulkTooLong)
        else if consumed + n + 2 > l.maxFrame then t == Fail(ReplyError.FrameTooLong)
        else if |rest| < n + 2 then t == Fail(UnexpectedEnd)
        else if rest[n] != 13 || rest[n + 1] != 10 then t == Fail(ReplyError.MissingBulkEnd)
        else t == Read(Whole(BulkString(Some(rest[..n]))), consumed + n + 2, rest[n + 2..])
  {
    LengthIs(c);
    if c != [] && AllDigits(c) && ValueOf(c) + 2 <= |rest| {
      CommandLaws.EndsAt(rest, ValueOf(c));
    }
  }

  lemma ArrayReplyIs(c: Bytes, rest: Bytes, consumed: nat, l: ReplyLimits)
    ensures TakeArrayReply(rest, c, consumed, l) ==
      if c == [45, 49] then Read(Whole(NullArray), consumed, rest)
      else if c == [] || !AllDigits(c) || ValueOf(c) >= 18_446_744_073_709_551_616 then Fail(ReplyError.BadArrayLength)
      else if ValueOf(c) > l.maxArray then Fail(ArrayTooLong)
      else Read(Open(ValueOf(c)), consumed, rest)
  {
    LengthIs(c);
  }

  /** An array that is printed within the limits of its head is refused exactly for its
      depth or its elements; an empty one never is. */
  lemma ArrayRefusedIff(v: Reply, more: Bytes, consumed: nat, total: nat, depth: nat, l: ReplyLimits)
    requires v.Array? && HeadOk(v, l) && consumed + |Head(v)| <= l.maxFrame
    ensures var r := TakeReply(LexerOf(l), Cursor(Head(v) + more, consumed, total), depth, l);
      && (v.items == [] ==> r == Value(v, Cursor(more, consumed + |Head(v)|, total)))
      && (v.items != [] && depth >= l.maxDepth ==> r == Refused(TooDeep))
      && (v.items != [] && depth < l.maxDepth && total + |v.items| > l.maxTotal ==> r == Refused(TooManyElements))
  {
    LexerInverts(l);
    var lex := LexerOf(l);
    assert lex(Head(v) + more, consumed, depth == 0 && consumed == 0) == Read(Open(|v.items|), consumed + |Head(v)|, more);
  }
}
