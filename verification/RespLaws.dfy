/** What the buffered decoder promises: its answers are stable under more input, it
inverts the encoder, and every proper prefix of an encoding is incomplete. */
module RespLaws {
  import opened Model
  import opened Decimal
  import opened Resp
  import Wire

  /** `later` is the same answer as `now` with `more` behind the input. */
  predicate Same<T(==)>(now: Taken<T>, later: Taken<T>, more: Bytes) {
    match now
    case Pending => true
    case Bad(error) => later == Bad(error)
    case Got(value, rest) => later == Got(value, rest + more)
  }

  lemma {:induction false} NewlineStable(rest: Bytes, more: Bytes)
    ensures Newline(rest) < |rest| ==> Newline(rest + more) == Newline(rest)
    ensures Newline(rest) == |rest| ==> Newline(rest + more) >= |rest|
  {
    if rest != [] && rest[0] != LF {
      assert (rest + more)[1..] == rest[1..] + more;
      NewlineStable(rest[1..], more);
    }
  }

  lemma TakeLineStable(rest: Bytes, more: Bytes, limit: nat)
    ensures Same(TakeLine(rest, limit), TakeLine(rest + more, limit), more)
  {
    NewlineStable(rest, more);
    var n := Newline(rest);
    if n < |rest| {
      assert (rest + more)[..n + 1] == rest[..n + 1];
      assert (rest + more)[n + 1..] == rest[n + 1..] + more;
    }
  }

  lemma TakePayloadStable(body: Bytes, more: Bytes, length: nat, start: nat, l: Limits, utf8: Utf8)
    ensures Same(TakePayload(body, length, start, l, utf8), TakePayload(body + more, length, start, l, utf8), more)
  {
    if |body| >= length + 2 {
      assert (body + more)[length..length + 2] == body[length..length + 2];
      assert (body + more)[..length] == body[..length];
      assert (body + more)[length + 2..] == body[length + 2..] + more;
    }
  }

  lemma TakeBulkStable(rest: Bytes, more: Bytes, cursor: nat, l: Limits, utf8: Utf8)
    ensures Same(TakeBulk(rest, cursor, l, utf8), TakeBulk(rest + more, cursor, l, utf8), more)
  {
    TakeLineStable(rest, more, MAX_RESP_HEADER_LINE_SIZE);
    var line := TakeLine(rest, MAX_RESP_HEADER_LINE_SIZE);
    if line.Got? && line.value != [] && ParseDecimal(line.value[1..]).Some? {
      TakePayloadStable(line.rest, more, ParseDecimal(line.value[1..]).value, cursor + |rest| - |line.rest|, l, utf8);
    }
  }

  ghost predicate StableReader(one: Reader, more: Bytes) {
    forall rest, cursor :: Same(one(rest, cursor), one(rest + more, cursor), more)
  }

  lemma {:induction false} TakeManyStable(rest: Bytes, more: Bytes, count: nat, cursor: nat, one: Reader)
    requires StableReader(one, more)
    ensures Same(TakeMany(rest, count, cursor, one), TakeMany(rest + more, count, cursor, one), more)
    decreases count
  {
    if count > 0 {
      var first := one(rest, cursor);
      assert Same(first, one(rest + more, cursor), more);
      if first.Got? {
        var tail := first.rest;
        assert Advance(cursor, rest, tail) == Advance(cursor, rest + more, tail + more);
        TakeManyStable(tail, more, count - 1, Advance(cursor, rest, tail), one);
      }
    }
  }

  lemma BulkReaderStable(more: Bytes, l: Limits, utf8: Utf8)
    ensures StableReader(BulkReader(l, utf8), more)
  {
    forall rest, cursor ensures Same(BulkReader(l, utf8)(rest, cursor), BulkReader(l, utf8)(rest + more, cursor), more) {
      TakeBulkStable(rest, more, cursor, l, utf8);
    }
  }

  /** A success or an error, once reached, is unchanged by bytes that arrive later. */
  lemma DecodeStable(input: Bytes, more: Bytes, l: Limits, utf8: Utf8)
    ensures Same(Decode(input, l, utf8), Decode(input + more, l, utf8), more)
  {
    if input != [] {
      var limit := FirstLineLimit(input[0], l);
      TakeLineStable(input, more, limit);
      var line := TakeLine(input, limit);
      if line.Got? && line.value != [] && ArrayLength(line.value, l).Got? {
        BulkReaderStable(more, l, utf8);
        TakeManyStable(line.rest, more, ArrayLength(line.value, l).value, |input| - |line.rest|, BulkReader(l, utf8));
      }
    }
  }

  // ---- Inline commands ----

  predicate IsWord(w: Bytes) { w != [] && forall i :: 0 <= i < |w| ==> !IsSpace(w[i]) }

  lemma SplitStep(front: Bytes, b: Byte)
    ensures Split(front + [b]) == Extend(Split(front), EndsInWord(front), b)
  {
    var line := front + [b];
    assert line[..|line| - 1] == front;
  }

  /** A word is one argument. */
  lemma {:induction false} SplitWord(w: Bytes)
    requires IsWord(w)
    ensures Split(w) == [w]
  {
    var front, last := w[..|w| - 1], w[|w| - 1];
    assert w == front + [last];
    SplitStep(front, last);
    if front == [] {
      assert Split(front) + [[last]] == [w];
    } else {
      SplitWord(front);
      assert [front][..0] + [front + [last]] == [w];
    }
  }

  /** What stands in front of the last word does not matter to it. */
  lemma ExtendBehind(left: seq<Bytes>, right: seq<Bytes>, inWord: bool, b: Byte)
    requires inWord ==> right != []
    ensures Extend(left + right, inWord, b) == left + Extend(right, inWord, b)
  {
    if !IsSpace(b) {
      if inWord {
        var n, all := |right| - 1, left + right;
        assert all[..|all| - 1] == left + right[..n];
        assert left + right[..n] + [right[n] + [b]] == left + (right[..n] + [right[n] + [b]]);
      } else {
        assert left + right + [[b]] == left + (right + [[b]]);
      }
    }
  }

  lemma EndsBehind(a: Bytes, space: Byte, b: Bytes)
    requires IsSpace(space)
    ensures EndsInWord(a + [space] + b) == EndsInWord(b)
  {
  }

  /** White space separates: the arguments on both sides are found independently.
      With `SplitWord` this determines every inline command. */
  lemma {:induction false} SplitAtSpace(a: Bytes, space: Byte, b: Bytes)
    requires IsSpace(space)
    ensures Split(a + [space] + b) == Split(a) + Split(b)
  {
    if b == [] {
      SplitStep(a, space);
      assert a + [space] + [] == a + [space] && Split(a) + [] == Split(a);
    } else {
      var front, last := b[..|b| - 1], b[|b| - 1];
      var before := a + [space] + front;
      SplitAtSpace(a, space, front);
      assert b == front + [last];
      Wire.Assoc(a + [space], front, [last]);
      SplitStep(before, last);
      SplitStep(front, last);
      EndsBehind(a, space, front);
      ExtendBehind(Split(a), Split(front), EndsInWord(front), last);
    }
  }

  // ---- What an accepted command respects ----

  predicate IsSuffix(rest: Bytes, input: Bytes) { |rest| <= |input| && rest == input[|input| - |rest|..] }

  lemma TakeLineSuffix(rest: Bytes, limit: nat)
    ensures var t := TakeLine(rest, limit); t.Got? ==> IsSuffix(t.rest, rest) && 0 < |rest| - |t.rest| <= limit
  {
  }

  lemma TakeBulkRespects(rest: Bytes, cursor: nat, l: Limits, utf8: Utf8)
    ensures var t := TakeBulk(rest, cursor, l, utf8);
      t.Got? ==> IsSuffix(t.rest, rest) && cursor + |rest| - |t.rest| <= l.maxFrame && |t.value| <= l.maxBulk && utf8(t.value)
  {
    TakeLineSuffix(rest, MAX_RESP_HEADER_LINE_SIZE);
    var line := TakeLine(rest, MAX_RESP_HEADER_LINE_SIZE);
    if TakeBulk(rest, cursor, l, utf8).Got? {
      var n := ParseDecimal(line.value[1..]).value;
      var tail := line.rest[n + 2..];
      assert tail == rest[|rest| - |tail|..];
    }
  }

  /** Every argument is bounded and valid, and the frame ends within its limit. */
  ghost predicate Respects(arguments: seq<Bytes>, l: Limits, utf8: Utf8) {
    forall i :: 0 <= i < |arguments| ==> |arguments[i]| <= l.maxBulk && utf8(arguments[i])
  }

  ghost predicate RespectingReader(one: Reader, l: Limits, utf8: Utf8) {
    forall rest, cursor: nat :: one(rest, cursor).Got? ==>
      var t := one(rest, cursor);
      IsSuffix(t.rest, rest) && cursor + |rest| - |t.rest| <= l.maxFrame && |t.value| <= l.maxBulk && utf8(t.value)
  }

  lemma SuffixTwice(a: Bytes, b: Bytes, c: Bytes)
    requires IsSuffix(a, b) && IsSuffix(b, c)
    ensures IsSuffix(a, c)
  {
    assert b[|b| - |a|..] == c[|c| - |b|..][|b| - |a|..] == c[|c| - |a|..];
  }

  lemma {:induction false} TakeManyRespects(rest: Bytes, count: nat, cursor: nat, one: Reader, l: Limits, utf8: Utf8)
    requires RespectingReader(one, l, utf8)
    ensures var t := TakeMany(rest, count, cursor, one);
      t.Got? ==>
        (IsSuffix(t.rest, rest) && |t.value| == count && Respects(t.value, l, utf8)
         && (count > 0 ==> cursor + |rest| - |t.rest| <= l.maxFrame))
    decreases count
  {
    if count > 0 && TakeMany(rest, count, cursor, one).Got? {
      var first := one(rest, cursor);
      var tail, next := first.rest, Advance(cursor, rest, first.rest);
      TakeManyRespects(tail, count - 1, next, one, l, utf8);
      var others := TakeMany(tail, count - 1, next, one);
      SuffixTwice(others.rest, tail, rest);
    }
  }

  lemma ArrayRespects(input: Bytes, rest: Bytes, count: nat, cursor: nat, one: Reader, l: Limits, utf8: Utf8)
    requires IsSuffix(rest, input) && count > 0 && cursor == |input| - |rest| && RespectingReader(one, l, utf8)
    ensures var t := TakeMany(rest, count, cursor, one);
      t.Got? ==>
        IsSuffix(t.rest, input) && |input| - |t.rest| <= l.maxFrame && |t.value| == count && Respects(t.value, l, utf8)
  {
    TakeManyRespects(rest, count, cursor, one, l, utf8);
    var t := TakeMany(rest, count, cursor, one);
    if t.Got? {
      SuffixTwice(t.rest, rest, input);
    }
  }

  /** A decoded command has an admissible number of arguments, ends within the frame
      limit and leaves exactly what follows it; in an array every argument is
      bounded and valid. */
  lemma DecodeRespects(input: Bytes, l: Limits, utf8: Utf8)
    requires Decode(input, l, utf8).Got?
    ensures var t := Decode(input, l, utf8);
      && IsSuffix(t.rest, input) && |input| - |t.rest| <= l.maxFrame && 0 < |t.value| <= l.maxArray
      && (input[0] == STAR ==> Respects(t.value, l, utf8))
  {
    if input[0] == STAR {
      ArrayCommandRespects(input, l, utf8);
    } else {
      InlineCommandRespects(input, l, utf8);
    }
  }

  lemma ArrayCommandRespects(input: Bytes, l: Limits, utf8: Utf8)
    requires Decode(input, l, utf8).Got? && input[0] == STAR
    ensures var t := Decode(input, l, utf8);
      IsSuffix(t.rest, input) && |input| - |t.rest| <= l.maxFrame && 0 < |t.value| <= l.maxArray && Respects(t.value, l, utf8)
  {
    var limit := FirstLineLimit(input[0], l);
    var line := TakeLine(input, limit);
    TakeLineSuffix(input, limit);
    var count, cursor := ArrayLength(line.value, l).value, |input| - |line.rest|;
    assert Decode(input, l, utf8) == TakeMany(line.rest, count, cursor, BulkReader(l, utf8));
    ArrayLengthRespects(line.value, l);
    BulksRespect(input, line.rest, count, cursor, l, utf8);
  }

  lemma InlineCommandRespects(input: Bytes, l: Limits, utf8: Utf8)
    requires Decode(input, l, utf8).Got? && input[0] != STAR
    ensures var t := Decode(input, l, utf8);
      IsSuffix(t.rest, input) && |input| - |t.rest| <= l.maxFrame && 0 < |t.value| <= l.maxArray
  {
    var limit := FirstLineLimit(input[0], l);
    TakeLineSuffix(input, limit);
    InlineRespects(TakeLine(input, limit).value, l, utf8);
  }

  lemma BulksRespect(input: Bytes, rest: Bytes, count: nat, cursor: nat, l: Limits, utf8: Utf8)
    requires IsSuffix(rest, input) && count > 0 && cursor == |input| - |rest|
    ensures var t := TakeMany(rest, count, cursor, BulkReader(l, utf8));
      t.Got? ==>
        IsSuffix(t.rest, input) && |input| - |t.rest| <= l.maxFrame && |t.value| == count && Respects(t.value, l, utf8)
  {
    var one := BulkReader(l, utf8);
    assert RespectingReader(one, l, utf8) by {
      BulkReaderRespects(l, utf8);
    }
    ArrayRespects(input, rest, count, cursor, one, l, utf8);
  }

  lemma ArrayLengthRespects(header: Bytes, l: Limits)
    requires header != [] && ArrayLength(header, l).Got?
    ensures 0 < ArrayLength(header, l).value <= l.maxArray
  {
  }

  lemma InlineRespects(header: Bytes, l: Limits, utf8: Utf8)
    ensures var t := InlineCommand(header, l, utf8); t.Got? ==> 0 < |t.value| <= l.maxArray
  {
  }

  lemma BulkReaderRespects(l: Limits, utf8: Utf8)
    ensures RespectingReader(BulkReader(l, utf8), l, utf8)
  {
    forall rest, cursor: nat | BulkReader(l, utf8)(rest, cursor).Got?
      ensures var t := BulkReader(l, utf8)(rest, cursor);
        IsSuffix(t.rest, rest) && cursor + |rest| - |t.rest| <= l.maxFrame && |t.value| <= l.maxBulk && utf8(t.value)
    {
      TakeBulkRespects(rest, cursor, l, utf8);
    }
  }

  // ---- The encoder ----

  function Bulk(argument: Bytes): Bytes {
    [DOLLAR] + Printed(|argument|) + CRLF + argument + CRLF
  }

  function Bulks(arguments: seq<Bytes>): Bytes {
    if arguments == [] then [] else Bulk(arguments[0]) + Bulks(arguments[1..])
  }

  function Header(count: nat): Bytes { [STAR] + Printed(count) + CRLF }

  function Encoding(arguments: seq<Bytes>): Bytes {
    Header(|arguments|) + Bulks(arguments)
  }

  predicate BulksFit(arguments: seq<Bytes>, l: Limits) {
    forall i :: 0 <= i < |arguments| ==> |arguments[i]| <= l.maxBulk
  }

  predicate Encodable(arguments: seq<Bytes>, l: Limits) {
    0 < |arguments| <= l.maxArray && BulksFit(arguments, l) && |Encoding(arguments)| <= l.maxFrame
  }

  predicate AllUtf8(arguments: seq<Bytes>, utf8: Utf8) {
    forall i :: 0 <= i < |arguments| ==> utf8(arguments[i])
  }

  lemma {:induction false} BulksNext(arguments: seq<Bytes>, argument: Bytes)
    ensures Bulks(arguments + [argument]) == Bulks(arguments) + Bulk(argument)
  {
    if arguments == [] {
      assert Bulks([argument]) == Bulk(argument) + Bulks([]);
      assert arguments + [argument] == [argument];
    } else {
      assert (arguments + [argument])[1..] == arguments[1..] + [argument];
      BulksNext(arguments[1..], argument);
    }
  }

  /** The length that the encoder adds up before writing anything. */
  method FrameLength(arguments: seq<Bytes>, l: Limits) returns (r: Option<nat>)
    ensures r == if BulksFit(arguments, l) then Some(|Encoding(arguments)|) else None
  {
    var length := 1 + |Printed(|arguments|)| + 2;
    var i := 0;
    assert arguments[..0] == [];
    while i < |arguments|
      invariant 0 <= i <= |arguments| && BulksFit(arguments[..i], l)
      invariant length == |Header(|arguments|)| + |Bulks(arguments[..i])|
    {
      var argument := arguments[i];
      if |argument| > l.maxBulk {
        return None;
      }
      BulksNext(arguments[..i], argument);
      assert arguments[..i + 1] == arguments[..i] + [argument];
      length := length + 1 + |Printed(|argument|)| + 2 + |argument| + 2;
      i := i + 1;
    }
    assert arguments[..i] == arguments;
    r := Some(length);
  }

  method WriteBulks(start: Bytes, arguments: seq<Bytes>) returns (output: Bytes)
    ensures output == start + Bulks(arguments)
  {
    output := start;
    var i := 0;
    assert start + Bulks(arguments[..0]) == start;
    while i < |arguments|
      invariant 0 <= i <= |arguments| && output == start + Bulks(arguments[..i])
    {
      BulksNext(arguments[..i], arguments[i]);
      assert arguments[..i + 1] == arguments[..i] + [arguments[i]];
      ghost var before := Bulks(arguments[..i]);
      output := output + ([DOLLAR] + Printed(|arguments[i]|) + CRLF);
      output := output + arguments[i];
      output := output + CRLF;
      assert output == start + (before + Bulk(arguments[i]));
      i := i + 1;
    }
    assert arguments[..i] == arguments;
  }

  /** Appends the encoding, or refuses without writing anything. */
  method EncodeCommand(arguments: seq<Bytes>, output: Bytes, l: Limits) returns (r: Option<Bytes>)
    ensures r == if Encodable(arguments, l) then Some(output + Encoding(arguments)) else None
    ensures r.Some? <==>
      && 0 < |arguments| <= l.maxArray && |Encoding(arguments)| <= l.maxFrame
      && forall i :: 0 <= i < |arguments| ==> |arguments[i]| <= l.maxBulk
  {
    if arguments == [] || |arguments| > l.maxArray {
      return None;
    }
    var length := FrameLength(arguments, l);
    if length.None? || length.value > l.maxFrame {
      return None;
    }
    var header := Header(|arguments|);
    var written := WriteBulks(output + header, arguments);
    Wire.Assoc(output, header, Bulks(arguments));
    r := Some(written);
  }

  // ---- Round trip ----

  lemma {:induction false} NewlineAt(rest: Bytes, n: nat)
    requires n < |rest| && rest[n] == LF && forall i :: 0 <= i < n ==> rest[i] != LF
    ensures Newline(rest) == n
  {
  }

  /** A written line is read back, whatever follows. */
  lemma TakeWrittenLine(content: Bytes, more: Bytes, limit: nat)
    requires LF !in content && |content| + 2 <= limit
    ensures TakeLine(content + CRLF + more, limit) == Got(content, more)
  {
    var rest := content + CRLF + more;
    var n := |content| + 1;
    NewlineAt(rest, n);
    assert rest[..n + 1] == content + CRLF && rest[n + 1..] == more;
    assert (content + CRLF)[..|content|] == content;
  }

  lemma PrintedHasNoLineFeed(n: nat, prefix: Byte)
    requires prefix != LF
    ensures LF !in [prefix] + Printed(n)
  {
    PrintedDigits(n);
  }

  lemma TakeWrittenBulk(argument: Bytes, more: Bytes, cursor: nat, l: Limits, utf8: Utf8)
    requires LimitsOk(l) && utf8(argument) && |argument| <= l.maxBulk && cursor + |Bulk(argument)| <= l.maxFrame
    ensures TakeBulk(Bulk(argument) + more, cursor, l, utf8) == Got(argument, more)
  {
    var header := [DOLLAR] + Printed(|argument|);
    var body := argument + CRLF + more;
    var rest := Bulk(argument) + more;
    assert rest == header + CRLF + body;
    PrintedShort(|argument|);
    PrintedHasNoLineFeed(|argument|, DOLLAR);
    TakeWrittenLine(header, body, MAX_RESP_HEADER_LINE_SIZE);
    assert header[1..] == Printed(|argument|);
    ParsePrinted(|argument|);
    assert body[..|argument|] == argument;
    assert body[|argument|..|argument| + 2] == CRLF && body[|argument| + 2..] == more;
  }

  /** The reader undoes the writing of each argument within the frame limit. */
  ghost predicate ReadsBack(one: Reader, arguments: seq<Bytes>, limit: nat) {
    forall i, tail, cursor: nat :: 0 <= i < |arguments| && cursor + |Bulk(arguments[i])| <= limit ==>
      one(Bulk(arguments[i]) + tail, cursor) == Got(arguments[i], tail)
  }

  lemma {:induction false} TakeWrittenBulks(arguments: seq<Bytes>, from: nat, more: Bytes, cursor: nat, one: Reader, limit: nat)
    requires ReadsBack(one, arguments, limit) && from <= |arguments| && cursor + |Bulks(arguments[from..])| <= limit
    ensures TakeMany(Bulks(arguments[from..]) + more, |arguments| - from, cursor, one) == Got(arguments[from..], more)
    decreases |arguments| - from
  {
    var left := arguments[from..];
    if left == [] {
      assert Bulks(left) + more == more;
    } else {
      var argument, others := arguments[from], arguments[from + 1..];
      assert left[1..] == others;
      var written, tail := Bulk(argument), Bulks(others) + more;
      assert Bulks(left) + more == written + tail;
      assert one(written + tail, cursor) == Got(argument, tail);
      assert Advance(cursor, written + tail, tail) == cursor + |written|;
      TakeWrittenBulks(arguments, from + 1, more, cursor + |written|, one, limit);
      assert [argument] + others == left;
    }
  }

  lemma BulkReaderReadsBack(arguments: seq<Bytes>, l: Limits, utf8: Utf8)
    requires LimitsOk(l) && AllUtf8(arguments, utf8) && BulksFit(arguments, l)
    ensures ReadsBack(BulkReader(l, utf8), arguments, l.maxFrame)
  {
    forall i, tail, cursor: nat | 0 <= i < |arguments| && cursor + |Bulk(arguments[i])| <= l.maxFrame
      ensures BulkReader(l, utf8)(Bulk(arguments[i]) + tail, cursor) == Got(arguments[i], tail)
    {
      TakeWrittenBulk(arguments[i], tail, cursor, l, utf8);
    }
  }

  /** Every command that the encoder accepts decodes, under the same limits, to the
      same arguments and exactly its own bytes, whatever follows. */
  lemma DecodeEncoding(arguments: seq<Bytes>, more: Bytes, l: Limits, utf8: Utf8)
    requires LimitsOk(l) && Encodable(arguments, l) && AllUtf8(arguments, utf8)
    ensures Decode(Encoding(arguments) + more, l, utf8) == Got(arguments, more)
  {
    var count := |arguments|;
    var header := [STAR] + Printed(count);
    var tail := Bulks(arguments) + more;
    var input := Encoding(arguments) + more;
    assert input == header + CRLF + tail;
    PrintedShort(count);
    PrintedHasNoLineFeed(count, STAR);
    TakeWrittenLine(header, tail, FirstLineLimit(STAR, l));
    assert header[1..] == Printed(count);
    ParsePrinted(count);
    BulkReaderReadsBack(arguments, l, utf8);
    assert arguments[0..] == arguments;
    TakeWrittenBulks(arguments, 0, more, |Header(count)|, BulkReader(l, utf8), l.maxFrame);
    assert |input| - |tail| == |Header(count)|;
  }

  /** Every proper prefix of an encoding is incomplete. */
  lemma PrefixIsPending(arguments: seq<Bytes>, cut: nat, l: Limits, utf8: Utf8)
    requires LimitsOk(l) && Encodable(arguments, l) && AllUtf8(arguments, utf8) && cut < |Encoding(arguments)|
    ensures Decode(Encoding(arguments)[..cut], l, utf8) == Pending
  {
    var whole := Encoding(arguments);
    var prefix, suffix := whole[..cut], whole[cut..];
    assert whole == prefix + suffix == whole + [];
    DecodeEncoding(arguments, [], l, utf8);
    DecodeStable(prefix, suffix, l, utf8);
  }
}
