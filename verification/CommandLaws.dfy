/** What every line, header and bulk string of a command decodes to, accepted or
not, told from the bytes alone. */
module CommandLaws {
  import opened Model
  import opened Decimal
  import opened Resp
  import opened RespLaws
  import Wire
  import RespDecoder
  import RespStream

  // ---- Lines ----

  lemma FirstNewline(c: Bytes, more: Bytes)
    requires forall i :: 0 <= i < |c| ==> c[i] != 10
    ensures Newline(c + [10] + more) == |c| && (|more| == 0 ==> Newline(c) == |c|)
  {
    var rest := c + [10] + more;
    assert rest[|c|] == 10 && forall i | 0 <= i < |c| :: rest[i] == c[i];
  }

  /** A line ends with CR LF within its limit. */
  lemma LineIs(c: Bytes, more: Bytes, limit: nat)
    requires forall i :: 0 <= i < |c| ==> c[i] != 10
    ensures TakeLine(c + [13, 10] + more, limit) == if |c| + 2 > limit then Bad(LineTooLong) else Got(c, more)
    ensures c == [] || c[|c| - 1] != 13 ==>
      TakeLine(c + [10] + more, limit) == if |c| + 1 > limit then Bad(LineTooLong) else Bad(MissingLineEnd)
    ensures TakeLine(c, limit) == if |c| > limit then Bad(LineTooLong) else Pending
  {
    var d := c + [13];
    FirstNewline(d, more);
    assert d + [10] + more == c + [13, 10] + more;
    var whole := c + [13, 10] + more;
    assert whole[..|c| + 2] == c + [13, 10] && whole[|c| + 2..] == more && (c + [13, 10])[..|c|] == c;
    FirstNewline(c, more);
    var bare := c + [10] + more;
    assert bare[..|c| + 1] == c + [10];
    FirstNewline(c, []);
  }

  // ---- Inline commands ----

  predicate White(b: Byte) { b == 32 || b == 9 || b == 10 || b == 12 || b == 13 }

  predicate AllWhite(bytes: Bytes) { forall i :: 0 <= i < |bytes| ==> White(bytes[i]) }

  predicate Wordy(w: Bytes) { w != [] && forall i :: 0 <= i < |w| ==> !White(w[i]) }

  /** Words, each behind its gap. */
  function Spread(words: seq<Bytes>, gaps: seq<Bytes>): Bytes
    requires |gaps| == |words|
  {
    if words == [] then []
    else
      var n := |words| - 1;
      Spread(words[..n], gaps[..n]) + gaps[n] + words[n]
  }

  /** Any layout of words: white space between them, and perhaps around them. */
  predicate Laid(words: seq<Bytes>, gaps: seq<Bytes>, trail: Bytes) {
    && |gaps| == |words| && AllWhite(trail)
    && (forall i :: 0 <= i < |words| ==> Wordy(words[i]) && AllWhite(gaps[i]))
    && (forall i :: 0 < i < |gaps| ==> gaps[i] != [])
  }

  lemma {:induction false} SplitTrail(line: Bytes, trail: Bytes)
    requires AllWhite(trail)
    ensures Split(line + trail) == Split(line)
  {
    if trail == [] {
      assert line + trail == line;
    } else {
      var n := |trail| - 1;
      SplitTrail(line, trail[..n]);
      assert line + trail == line + trail[..n] + [trail[n]];
      SplitStep(line + trail[..n], trail[n]);
    }
  }

  lemma SplitOneMore(front: Bytes, words: seq<Bytes>, gap: Bytes, word: Bytes)
    requires Split(front) == words && AllWhite(gap) && gap != [] && Wordy(word)
    ensures Split(front + gap + word) == words + [word]
  {
    var k := |gap| - 1;
    var before := front + gap[..k];
    SplitTrail(front, gap[..k]);
    SplitWord(word);
    assert front + gap + word == before + [gap[k]] + word;
    SplitAtSpace(before, gap[k], word);
  }

  lemma {:induction false} SplitSpread(words: seq<Bytes>, gaps: seq<Bytes>)
    requires Laid(words, gaps, [])
    ensures Split(Spread(words, gaps)) == words
    decreases |words|
  {
    if words != [] {
      var n := |words| - 1;
      var front := Spread(words[..n], gaps[..n]);
      if n == 0 {
        assert words == [words[0]] && front + gaps[0] + words[0] == gaps[0] + words[0];
        SplitFirst(gaps[0], words[0]);
      } else {
        SplitSpread(words[..n], gaps[..n]);
        SplitOneMore(front, words[..n], gaps[n], words[n]);
        assert words == words[..n] + [words[n]];
      }
    }
  }

  lemma {:induction false} SplitWhite(gap: Bytes)
    requires AllWhite(gap)
    ensures Split(gap) == []
  {
    if gap != [] {
      var n := |gap| - 1;
      SplitWhite(gap[..n]);
      assert gap == gap[..n] + [gap[n]];
      SplitStep(gap[..n], gap[n]);
    }
  }

  lemma SplitFirst(gap: Bytes, word: Bytes)
    requires AllWhite(gap) && Wordy(word)
    ensures Split(gap + word) == [word]
  {
    SplitWord(word);
    if gap == [] {
      assert gap + word == word;
    } else {
      var k := |gap| - 1;
      SplitWhite(gap[..k]);
      assert gap + word == gap[..k] + [gap[k]] + word;
      SplitAtSpace(gap[..k], gap[k], word);
    }
  }

  lemma SplitLaid(words: seq<Bytes>, gaps: seq<Bytes>, trail: Bytes)
    requires Laid(words, gaps, trail)
    ensures Split(Spread(words, gaps) + trail) == words
  {
    SplitSpread(words, gaps);
    SplitTrail(Spread(words, gaps), trail);
  }

  /** What a line of words without a leading star decodes to: its words, whatever the
      white space around them, or the first of these errors. */
  lemma InlineIs(words: seq<Bytes>, gaps: seq<Bytes>, trail: Bytes, more: Bytes, l: Limits, utf8: Utf8)
    requires Laid(words, gaps, trail)
    requires var line := Spread(words, gaps) + trail; (forall i :: 0 <= i < |line| ==> line[i] != 10) && (line == [] || line[0] != 42)
    ensures var line := Spread(words, gaps) + trail;
      Decode(line + [13, 10] + more, l, utf8) ==
        if |line| + 2 > l.maxInline || |line| + 2 > l.maxFrame then Bad(LineTooLong)
        else if !utf8(line) then Bad(InlineNotUtf8)
        else if words == [] then Bad(InlineEmpty)
        else if |words| > l.maxArray then Bad(TooManyArguments)
        else Got(words, more)
  {
    var line := Spread(words, gaps) + trail;
    var input := line + [13, 10] + more;
    assert input[0] == if line == [] then 13 else line[0];
    LineIs(line, more, FirstLineLimit(input[0], l));
    SplitLaid(words, gaps, trail);
  }

  /** The same of the buffered decoder. */
  method DecodeInline(words: seq<Bytes>, gaps: seq<Bytes>, trail: Bytes, more: Bytes, l: Limits, utf8: Utf8)
    returns (o: RespDecoder.Outcome<seq<Bytes>>)
    requires Laid(words, gaps, trail) && words != [] && |words| <= l.maxArray
    requires var line := Spread(words, gaps) + trail;
      && (forall i :: 0 <= i < |line| ==> line[i] != 10) && line[0] != 42
      && |line| + 2 <= l.maxInline && |line| + 2 <= l.maxFrame && utf8(line)
    ensures o == RespDecoder.At(words, |Spread(words, gaps) + trail| + 2)
  {
    var line := Spread(words, gaps) + trail;
    InlineIs(words, gaps, trail, more, l, utf8);
    o := RespDecoder.DecodeBufferedCommand(line + [13, 10] + more, l, utf8);
  }

  /** And of the streaming one, for every chunking. */
  method ReadInline(source: RespStream.Source, words: seq<Bytes>, gaps: seq<Bytes>, trail: Bytes, ghost more: Bytes, l: Limits, utf8: Utf8)
    returns (r: RespStream.Streamed)
    requires Laid(words, gaps, trail) && words != [] && |words| <= l.maxArray
    requires var line := Spread(words, gaps) + trail;
      && (forall i :: 0 <= i < |line| ==> line[i] != 10) && line[0] != 42
      && |line| + 2 <= l.maxInline && |line| + 2 <= l.maxFrame && utf8(line)
      && source.Remaining() == line + [13, 10] + more
    modifies source
    ensures r == RespStream.Command(words) && source.Remaining() == more
  {
    InlineIs(words, gaps, trail, more, l, utf8);
    r := source.ReadCommand(l, utf8);
  }

  // ---- Arrays ----

  lemma DecimalIs(bytes: Bytes)
    ensures ParseDecimal(bytes) ==
      if bytes != [] && AllDigits(bytes) && ValueOf(bytes) < 18_446_744_073_709_551_616 then Some(ValueOf(bytes)) else None
  {
    if bytes != [] && AllDigits(bytes) {
      FoldIff(bytes);
    }
  }

  /** What the header of an array decides. */
  lemma ArrayHeaderIs(c: Bytes, more: Bytes, l: Limits, utf8: Utf8)
    requires forall i :: 0 <= i < |c| ==> c[i] != 10
    ensures var t := Decode([42] + c + [13, 10] + more, l, utf8);
      if |c| + 3 > 64 || |c| + 3 > l.maxFrame then t == Bad(LineTooLong)
      else if c == [] || !AllDigits(c) || ValueOf(c) >= 18_446_744_073_709_551_616 then t == Bad(BadArrayLength)
      else if ValueOf(c) == 0 then t == Bad(EmptyArray)
      else if ValueOf(c) > l.maxArray then t == Bad(TooManyArguments)
      else t == TakeMany(more, ValueOf(c), |c| + 3, BulkReader(l, utf8))
  {
    var d := [42] + c;
    var input := d + [13, 10] + more;
    assert input[0] == 42 && d[1..] == c;
    LineIs(d, more, FirstLineLimit(42, l));
    DecimalIs(c);
  }

  /** What a bulk string decides, `cursor` bytes into its frame. */
  lemma BulkIs(c: Bytes, body: Bytes, cursor: nat, l: Limits, utf8: Utf8)
    requires forall i :: 0 <= i < |c| ==> c[i] != 10
    ensures var t := TakeBulk(c + [13, 10] + body, cursor, l, utf8);
      if |c| + 2 > 64 then t == Bad(LineTooLong)
      else if c == [] || c[0] != 36 then t == Bad(NotABulkString)
      else if c[1..] == [] || !AllDigits(c[1..]) || ValueOf(c[1..]) >= 18_446_744_073_709_551_616 then t == Bad(BadBulkLength)
      else var n := ValueOf(c[1..]); var end := cursor + |c| + 2 + n + 2;
        if n > l.maxBulk then t == Bad(BulkTooLong)
        else if end >= 18_446_744_073_709_551_616 then t == Bad(LengthOverflow)
        else if end > l.maxFrame then t == Bad(FrameTooLong)
        else if |body| < n + 2 then t == Pending
        else if body[n] != 13 || body[n + 1] != 10 then t == Bad(MissingBulkEnd)
        else if !utf8(body[..n]) then t == Bad(ArgumentNotUtf8)
        else t == Got(body[..n], body[n + 2..])
  {
    var rest := c + [13, 10] + body;
    LineIs(c, body, 64);
    if c != [] {
      DecimalIs(c[1..]);
    }
    if |c| + 2 <= 64 && c != [] && c[0] == 36 && c[1..] != [] && AllDigits(c[1..]) {
      assert |rest| - |body| == |c| + 2;
      PayloadIs(body, ValueOf(c[1..]), cursor + |c| + 2, l, utf8);
    }
  }

  lemma PayloadIs(body: Bytes, n: nat, start: nat, l: Limits, utf8: Utf8)
    ensures var t, end := TakePayload(body, n, start, l, utf8), start + n + 2;
      if end >= 18_446_744_073_709_551_616 then t == Bad(LengthOverflow)
      else if end > l.maxFrame then t == Bad(FrameTooLong)
      else if |body| < n + 2 then t == Pending
      else if body[n] != 13 || body[n + 1] != 10 then t == Bad(MissingBulkEnd)
      else if !utf8(body[..n]) then t == Bad(ArgumentNotUtf8)
      else t == Got(body[..n], body[n + 2..])
  {
    if n + 2 <= |body| {
      EndsAt(body, n);
    }
  }

  lemma EndsAt(body: Bytes, n: nat)
    requires n + 2 <= |body|
    ensures body[n..n + 2] == [13, 10] <==> body[n] == 13 && body[n + 1] == 10
  {
    var end := body[n..n + 2];
    assert end[0] == body[n] && end[1] == body[n + 1];
  }
}
