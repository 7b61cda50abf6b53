/** The response reader with its explicit stack of unfinished arrays, against a
recursive grammar of replies and against the recursive printer. */
module ResponseParser {
  import opened Model
  import opened Resp
  import opened RespStream
  import opened Response
  import opened ResponseTokens
  import Wire

  /** What is left of the stream, and what has been counted so far. */
  datatype Cursor = Cursor(rest: Bytes, consumed: nat, total: nat)

  datatype Reading = Absent | Refused(error: ReplyError) | Value(value: Reply, at: Cursor)

  /** How the next token is taken, given the bytes consumed so far and whether the
      stream may end here. */
  type Lexer = (Bytes, nat, bool) -> TokenRead

  /** A token takes bytes, and the stream ends only where it may. */
  ghost predicate Progresses(lex: Lexer) {
    forall s, consumed: nat, root ::
      && (lex(s, consumed, root).Read? ==> |lex(s, consumed, root).rest| < |s|)
      && (lex(s, consumed, root).End? ==> root)
  }

  function LexerOf(l: ReplyLimits): (lex: Lexer)
    ensures Progresses(lex) && forall s, consumed: nat, root :: lex(s, consumed, root) == TakeToken(s, consumed, root, l)
  {
    (s, consumed: nat, root) => TakeToken(s, consumed, root, l)
  }

  // ---- The grammar of replies ----

  /** One reply below `depth` open arrays. */
  function TakeReply(lex: Lexer, at: Cursor, depth: nat, l: ReplyLimits): (r: Reading)
    requires Progresses(lex)
    ensures r.Value? ==> |r.at.rest| < |at.rest|
    decreases |at.rest|, 0
  {
    var root := depth == 0 && at.consumed == 0;
    var t := lex(at.rest, at.consumed, root);
    if t.End? then Absent
    else if t.Fail? then Refused(t.error)
    else if t.token.Whole? then Value(t.token.value, Cursor(t.rest, t.consumed, at.total))
    else if t.token.count == 0 then Value(Array([]), Cursor(t.rest, t.consumed, at.total))
    else if depth >= l.maxDepth then Refused(TooDeep)
    else if at.total + t.token.count > l.maxTotal then Refused(TooManyElements)
    else TakeItems(lex, Cursor(t.rest, t.consumed, at.total + t.token.count), t.token.count, [], depth + 1, l)
  }

  /** The array of `items` and the next `left` replies. */
  function TakeItems(lex: Lexer, at: Cursor, left: nat, items: seq<Reply>, depth: nat, l: ReplyLimits): (r: Reading)
    requires Progresses(lex)
    ensures r.Value? ==> |r.at.rest| <= |at.rest|
    decreases |at.rest|, 1
  {
    if left == 0 then Value(Array(items), at)
    else
      var first := TakeReply(lex, at, depth, l);
      if first.Value? then TakeItems(lex, first.at, left - 1, items + [first.value], depth, l) else first
  }

  // ---- What the stack stands for ----

  /** An array under construction. */
  datatype Builder = Builder(expected: nat, values: seq<Reply>)

  ghost predicate Unfinished(stack: seq<Builder>) {
    forall i :: 0 <= i < |stack| ==> |stack[i].values| < stack[i].expected
  }

  /** Completing the open arrays after reading the innermost one's next element. */
  ghost function Resume(lex: Lexer, stack: seq<Builder>, r: Reading, l: ReplyLimits): Reading
    requires Progresses(lex) && Unfinished(stack)
    decreases |stack|
  {
    if stack == [] then r
    else if !r.Value? then r
    else
      var n := |stack| - 1;
      var b := stack[n];
      Resume(lex, stack[..n], TakeItems(lex, r.at, b.expected - |b.values| - 1, b.values + [r.value], |stack|, l), l)
  }

  /** An array that still waits for elements is read on by pushing it. */
  lemma Pushed(lex: Lexer, stack: seq<Builder>, b: Builder, at: Cursor, l: ReplyLimits)
    requires Progresses(lex) && Unfinished(stack) && |b.values| < b.expected
    ensures Unfinished(stack + [b])
    ensures Resume(lex, stack + [b], TakeReply(lex, at, |stack + [b]|, l), l)
         == Resume(lex, stack, TakeItems(lex, at, b.expected - |b.values|, b.values, |stack + [b]|, l), l)
  {
    var grown := stack + [b];
    var depth, first := |grown|, TakeReply(lex, at, |grown|, l);
    assert grown[..|grown| - 1] == stack && grown[|grown| - 1] == b;
    if !first.Value? {
      assert TakeItems(lex, at, b.expected - |b.values|, b.values, depth, l) == first;
    }
  }

  /** A finished value goes to the innermost open array. */
  lemma Delivered(lex: Lexer, stack: seq<Builder>, value: Reply, at: Cursor, l: ReplyLimits)
    requires Progresses(lex) && Unfinished(stack) && stack != []
    ensures var n := |stack| - 1; var b := stack[n].(values := stack[n].values + [value]);
      && Unfinished(stack[..n])
      && (|b.values| < b.expected ==>
            Unfinished(stack[..n] + [b])
            && Resume(lex, stack[..n] + [b], TakeReply(lex, at, |stack|, l), l) == Resume(lex, stack, Value(value, at), l))
      && (|b.values| >= b.expected ==>
            Resume(lex, stack[..n], Value(Array(b.values), at), l) == Resume(lex, stack, Value(value, at), l))
  {
    var n := |stack| - 1;
    var b := stack[n].(values := stack[n].values + [value]);
    if |b.values| < b.expected {
      Pushed(lex, stack[..n], b, at, l);
      assert |stack[..n] + [b]| == |stack|;
    }
  }

  /** Hands a finished value to the open arrays, closing those it completes. */
  method Deposit(ghost lex: Lexer, stack: seq<Builder>, value: Reply, ghost at: Cursor, ghost spec: Reading, ghost l: ReplyLimits)
    returns (done: Option<Reply>, stack': seq<Builder>)
    requires Gives(lex, stack, value, at, spec, l)
    ensures done.Some? ==> spec == Value(done.value, at)
    ensures done.None? ==> Leads(lex, stack', at, spec, l)
  {
    done, stack' := None, stack;
    var current := value;
    while stack' != []
      invariant Gives(lex, stack', current, at, spec, l)
      decreases |stack'|
    {
      Delivered(lex, stack', current, at, l);
      var n := |stack'| - 1;
      var builder := stack'[n].(values := stack'[n].values + [current]);
      if |builder.values| < builder.expected {
        stack' := stack'[..n] + [builder];
        return;
      }
      stack', current := stack'[..n], Array(builder.values);
    }
    done := Some(current);
  }

  // ---- The reader ----

  datatype Parsed = NoReply | BadReply(error: ReplyError) | Complete(value: Reply)

  /** The answer and the stream left behind are those of the grammar. */
  ghost predicate Answered(spec: Reading, r: Parsed, remaining: Bytes) {
    match spec
    case Absent => r == NoReply
    case Refused(error) => r == BadReply(error)
    case Value(value, at) => r == Complete(value) && remaining == at.rest
  }

  /** With these open arrays, reading on from `at` gives `spec`. */
  ghost predicate Leads(lex: Lexer, stack: seq<Builder>, at: Cursor, spec: Reading, l: ReplyLimits) {
    Progresses(lex) && Unfinished(stack) && Resume(lex, stack, TakeReply(lex, at, |stack|, l), l) == spec
  }

  /** With these open arrays and this value for the innermost one, it gives `spec`. */
  ghost predicate Gives(lex: Lexer, stack: seq<Builder>, value: Reply, at: Cursor, spec: Reading, l: ReplyLimits) {
    Progresses(lex) && Unfinished(stack) && Resume(lex, stack, Value(value, at), l) == spec
  }

  /** What one token makes of the reader's state, in the grammar's terms. */
  ghost predicate Advances(lex: Lexer, stack: seq<Builder>, t: Token, at: Cursor, spec: Reading, l: ReplyLimits) {
    if t.Whole? then Gives(lex, stack, t.value, at, spec, l)
    else if t.count == 0 then Gives(lex, stack, Array([]), at, spec, l)
    else if |stack| >= l.maxDepth then spec == Refused(TooDeep)
    else if at.total + t.count > l.maxTotal then spec == Refused(TooManyElements)
    else Leads(lex, stack + [Builder(t.count, [])], at.(total := at.total + t.count), spec, l)
  }

  lemma TokenRead(lex: Lexer, stack: seq<Builder>, at: Cursor, root: bool, spec: Reading, l: ReplyLimits)
    requires Leads(lex, stack, at, spec, l) && root == (stack == [] && at.consumed == 0)
    ensures var t := lex(at.rest, at.consumed, root);
      && (t.End? ==> spec == Absent)
      && (t.Fail? ==> spec == Refused(t.error))
      && (t.Read? ==> |t.rest| < |at.rest| && Advances(lex, stack, t.token, Cursor(t.rest, t.consumed, at.total), spec, l))
  {
    var t := lex(at.rest, at.consumed, root);
    if t.Read? && t.token.Open? && t.token.count > 0 {
      Pushed(lex, stack, Builder(t.token.count, []), Cursor(t.rest, t.consumed, at.total + t.token.count), l);
    }
  }

  /** Opens an array, or hands a complete value to the open ones. */
  method Place(token: Token, total: nat, stack: seq<Builder>, ghost at: Cursor, ghost lex: Lexer, l: ReplyLimits, ghost spec: Reading)
    returns (r: Option<Parsed>, total': nat, stack': seq<Builder>)
    requires at.total == total && Advances(lex, stack, token, at, spec, l)
    ensures r.Some? ==> Answered(spec, r.value, at.rest)
    ensures r.None? ==> Leads(lex, stack', at.(total := total'), spec, l)
  {
    r, total', stack' := None, total, stack;
    if token.Open? && token.count > 0 {
      if |stack| >= l.maxDepth {
        r := Some(BadReply(TooDeep));
        return;
      }
      if total + token.count > l.maxTotal {
        r := Some(BadReply(TooManyElements));
        return;
      }
      total', stack' := total + token.count, stack + [Builder(token.count, [])];
    } else {
      var value := if token.Open? then Array([]) else token.value;
      var done;
      done, stack' := Deposit(lex, stack, value, at, spec, l);
      if done.Some? {
        r := Some(Complete(done.value));
      }
    }
  }

  /** Reads one token and places it. */
  method ReadOn(src: Source, consumed: nat, total: nat, stack: seq<Builder>, l: ReplyLimits, ghost lex: Lexer, ghost spec: Reading)
    returns (r: Option<Parsed>, consumed': nat, total': nat, stack': seq<Builder>)
    requires lex == LexerOf(l) && Leads(lex, stack, Cursor(src.Remaining(), consumed, total), spec, l)
    modifies src
    ensures r.Some? ==> Answered(spec, r.value, src.Remaining())
    ensures r.None? ==> |src.Remaining()| < |old(src.Remaining())|
    ensures r.None? ==> Leads(lex, stack', Cursor(src.Remaining(), consumed', total'), spec, l)
  {
    var root := stack == [] && consumed == 0;
    ghost var s := src.Remaining();
    TokenRead(lex, stack, Cursor(s, consumed, total), root, spec, l);
    ghost var t := lex(s, consumed, root);
    var out := ReadToken(src, consumed, root, l);
    assert Answers(t, out, src.Remaining());
    if !out.Out? {
      r, consumed', total', stack' := Some(if out.OutEnd? then NoReply else BadReply(out.error)), consumed, total, stack;
      return;
    }
    consumed' := out.consumed;
    r, total', stack' := Place(out.token, total, stack, Cursor(src.Remaining(), consumed', total), lex, l, spec);
  }

  /** For every stream, and however it is cut into chunks, the reader with its stack
      gives the answer of the recursive grammar and leaves what follows the reply. */
  method ReadResponse(src: Source, l: ReplyLimits) returns (r: Parsed)
    modifies src
    ensures Answered(TakeReply(LexerOf(l), Cursor(old(src.Remaining()), 0, 0), 0, l), r, src.Remaining())
  {
    ghost var lex := LexerOf(l);
    ghost var spec := TakeReply(lex, Cursor(src.Remaining(), 0, 0), 0, l);
    var consumed: nat, total: nat := 0, 0;
    var stack: seq<Builder> := [];
    var answer: Option<Parsed> := None;
    while answer.None?
      invariant answer.None? ==> Leads(lex, stack, Cursor(src.Remaining(), consumed, total), spec, l)
      invariant answer.Some? ==> Answered(spec, answer.value, src.Remaining())
      decreases answer.None?, |src.Remaining()|
    {
      answer, consumed, total, stack := ReadOn(src, consumed, total, stack, l, lex, spec);
    }
    r := answer.value;
  }

  // ---- The grammar inverts the printer ----

  /** How many more levels may be opened below a given depth. */
  function Room(l: ReplyLimits, depth: nat): nat { if depth <= l.maxDepth then l.maxDepth - depth else 0 }

  /** Printed heads are taken as their tokens. */
  ghost predicate Inverts(lex: Lexer, l: ReplyLimits) {
    forall v, tail, consumed: nat, root :: HeadOk(v, l) && consumed + |Head(v)| <= l.maxFrame ==>
      lex(Head(v) + tail, consumed, root) == Read(TokenOf(v), consumed + |Head(v)|, tail)
  }

  lemma LexerInverts(l: ReplyLimits)
    ensures Inverts(LexerOf(l), l)
  {
    var lex := LexerOf(l);
    forall v, tail, consumed: nat, root | HeadOk(v, l) && consumed + |Head(v)| <= l.maxFrame
      ensures lex(Head(v) + tail, consumed, root) == Read(TokenOf(v), consumed + |Head(v)|, tail)
    {
      TakeWrittenToken(v, tail, consumed, root, l);
    }
  }

  lemma TakesOpen(lex: Lexer, at: Cursor, depth: nat, count: nat, after: Cursor, l: ReplyLimits)
    requires Progresses(lex) && count > 0 && depth < l.maxDepth && after.total == at.total + count <= l.maxTotal
    requires lex(at.rest, at.consumed, depth == 0 && at.consumed == 0) == Read(Open(count), after.consumed, after.rest)
    ensures TakeReply(lex, at, depth, l) == TakeItems(lex, after, count, [], depth + 1, l)
  {
  }

  lemma TakesFirst(lex: Lexer, at: Cursor, left: nat, items: seq<Reply>, depth: nat, value: Reply, after: Cursor, l: ReplyLimits)
    requires Progresses(lex) && left > 0 && TakeReply(lex, at, depth, l) == Value(value, after)
    ensures var fewer := left - 1; TakeItems(lex, at, left, items, depth, l) == TakeItems(lex, after, fewer, items + [value], depth, l)
  {
  }

  /** For every value within the limits, whatever follows it, the grammar rebuilds
      exactly that value and takes exactly its bytes. */
  lemma {:induction false} ReadsPrinted(lex: Lexer, v: Reply, more: Bytes, consumed: nat, total: nat, depth: nat, l: ReplyLimits)
    requires Progresses(lex) && Inverts(lex, l)
    requires Admissible(v, Room(l, depth), l) && consumed + |Encode(v)| <= l.maxFrame && total + Elements(v) <= l.maxTotal
    ensures TakeReply(lex, Cursor(Encode(v) + more, consumed, total), depth, l)
         == Value(v, Cursor(more, consumed + |Encode(v)|, total + Elements(v)))
    decreases v, 1, 0
  {
    if !v.Array? || v.items == [] {
      ReadsFlat(lex, v, more, consumed, total, depth, l);
    } else {
      var start, counted, deeper := consumed + |Head(v)|, total + |v.items|, depth + 1;
      ArraySplits(v, more);
      ArrayOpened(lex, v, more, consumed, total, depth, l);
      AdmissibleItems(v, depth, deeper, l);
      ReadsAllItems(lex, v, more, start, counted, deeper, l);
    }
  }

  lemma {:induction false} ReadsAllItems(lex: Lexer, v: Reply, more: Bytes, consumed: nat, total: nat, depth: nat, l: ReplyLimits)
    requires Progresses(lex) && Inverts(lex, l)
    requires v.Array? && forall j :: 0 <= j < |v.items| ==> Admissible(v.items[j], Room(l, depth), l)
    requires consumed + |EncodeAll(v.items)| <= l.maxFrame && total + AllElements(v.items) <= l.maxTotal
    ensures TakeItems(lex, Cursor(EncodeAll(v.items) + more, consumed, total), |v.items|, [], depth, l)
         == Value(v, Cursor(more, consumed + |EncodeAll(v.items)|, total + AllElements(v.items)))
    decreases v, 0, |v.items| + 1
  {
    assert v.items[0..] == v.items && v.items[..0] == [];
    ReadsPrintedItems(lex, v, 0, more, consumed, total, depth, l);
  }

  lemma AdmissibleItems(v: Reply, depth: nat, deeper: nat, l: ReplyLimits)
    requires v.Array? && v.items != [] && Admissible(v, Room(l, depth), l) && deeper == depth + 1
    ensures forall j :: 0 <= j < |v.items| ==> Admissible(v.items[j], Room(l, deeper), l)
  {
  }

  /** The head of an array opens it, and its elements are left to read. */
  lemma ArrayOpened(lex: Lexer, v: Reply, more: Bytes, consumed: nat, total: nat, depth: nat, l: ReplyLimits)
    requires Progresses(lex) && Inverts(lex, l) && v.Array? && v.items != []
    requires Admissible(v, Room(l, depth), l) && consumed + |Encode(v)| <= l.maxFrame && total + Elements(v) <= l.maxTotal
    ensures TakeReply(lex, Cursor(Encode(v) + more, consumed, total), depth, l)
         == TakeItems(lex, Cursor(EncodeAll(v.items) + more, consumed + |Head(v)|, total + |v.items|), |v.items|, [], depth + 1, l)
  {
    var left, start := EncodeAll(v.items) + more, consumed + |Head(v)|;
    ArraySplits(v, more);
    assert lex(Head(v) + left, consumed, depth == 0 && consumed == 0) == Read(TokenOf(v), start, left);
    TakesOpen(lex, Cursor(Encode(v) + more, consumed, total), depth, |v.items|, Cursor(left, start, total + |v.items|), l);
  }

  /** A value without elements is its head. */
  lemma ReadsFlat(lex: Lexer, v: Reply, more: Bytes, consumed: nat, total: nat, depth: nat, l: ReplyLimits)
    requires Progresses(lex) && Inverts(lex, l) && (v.Array? ==> v.items == [])
    requires Admissible(v, Room(l, depth), l) && consumed + |Encode(v)| <= l.maxFrame && total + Elements(v) <= l.maxTotal
    ensures TakeReply(lex, Cursor(Encode(v) + more, consumed, total), depth, l)
         == Value(v, Cursor(more, consumed + |Encode(v)|, total + Elements(v)))
  {
    if v.Array? {
      ArraySplits(v, more);
      assert EncodeAll(v.items) + more == more;
    }
    assert lex(Head(v) + more, consumed, depth == 0 && consumed == 0) == Read(TokenOf(v), consumed + |Head(v)|, more);
  }

  lemma ArraySplits(v: Reply, more: Bytes)
    requires v.Array?
    ensures Encode(v) + more == Head(v) + (EncodeAll(v.items) + more) && |Encode(v)| == |Head(v)| + |EncodeAll(v.items)|
    ensures Elements(v) == |v.items| + AllElements(v.items)
  {
    EncodeArray(v);
    ElementsOfArray(v);
    Wire.Assoc(Head(v), EncodeAll(v.items), more);
  }

  /** The elements still to come are the next one and the others. */
  lemma LeftSplits(items: seq<Reply>, i: nat, more: Bytes)
    requires i < |items|
    ensures var left, others := items[i..], items[i + 1..];
      && EncodeAll(left) + more == Encode(items[i]) + (EncodeAll(others) + more)
      && |EncodeAll(left)| == |Encode(items[i])| + |EncodeAll(others)|
      && AllElements(left) == Elements(items[i]) + AllElements(others)
      && items[..i] + [items[i]] == items[..i + 1]
  {
    var left, others := items[i..], items[i + 1..];
    assert left[0] == items[i] && left[1..] == others;
    Wire.Assoc(Encode(items[i]), EncodeAll(others), more);
  }

  lemma ItemTaken(lex: Lexer, items: seq<Reply>, i: nat, next: nat, more: Bytes, consumed: nat, total: nat, consumed': nat, total': nat, depth: nat, l: ReplyLimits)
    requires Progresses(lex) && next == i + 1 <= |items|
    requires var tail := EncodeAll(items[next..]) + more;
      TakeReply(lex, Cursor(Encode(items[i]) + tail, consumed, total), depth, l) == Value(items[i], Cursor(tail, consumed', total'))
    ensures TakeItems(lex, Cursor(EncodeAll(items[i..]) + more, consumed, total), |items[i..]|, items[..i], depth, l)
         == TakeItems(lex, Cursor(EncodeAll(items[next..]) + more, consumed', total'), |items[next..]|, items[..next], depth, l)
  {
    var tail := EncodeAll(items[next..]) + more;
    LeftSplits(items, i, more);
    TakesFirst(lex, Cursor(Encode(items[i]) + tail, consumed, total), |items[i..]|, items[..i], depth, items[i], Cursor(tail, consumed', total'), l);
  }

  lemma {:induction false} ReadsPrintedItems(lex: Lexer, v: Reply, i: nat, more: Bytes, consumed: nat, total: nat, depth: nat, l: ReplyLimits)
    requires Progresses(lex) && Inverts(lex, l)
    requires v.Array? && i <= |v.items| && forall j :: 0 <= j < |v.items| ==> Admissible(v.items[j], Room(l, depth), l)
    requires consumed + |EncodeAll(v.items[i..])| <= l.maxFrame && total + AllElements(v.items[i..]) <= l.maxTotal
    ensures TakeItems(lex, Cursor(EncodeAll(v.items[i..]) + more, consumed, total), |v.items[i..]|, v.items[..i], depth, l)
         == Value(v, Cursor(more, consumed + |EncodeAll(v.items[i..])|, total + AllElements(v.items[i..])))
    decreases v, 0, |v.items| - i
  {
    var left := v.items[i..];
    if i == |v.items| {
      assert EncodeAll(left) + more == more && v.items[..i] == v.items;
    } else {
      var next := i + 1;
      var item, tail := v.items[i], EncodeAll(v.items[next..]) + more;
      var consumed', total' := consumed + |Encode(item)|, total + Elements(item);
      LeftSplits(v.items, i, more);
      ReadsPrinted(lex, item, tail, consumed, total, depth, l);
      ItemTaken(lex, v.items, i, next, more, consumed, total, consumed', total', depth, l);
      ReadsPrintedItems(lex, v, next, more, consumed', total', depth, l);
    }
  }

  /** Reading inverts printing: whatever follows it on the stream. */
  lemma ReplyRoundTrip(v: Reply, more: Bytes, l: ReplyLimits)
    requires Fits(v, l)
    ensures TakeReply(LexerOf(l), Cursor(Encode(v) + more, 0, 0), 0, l) == Value(v, Cursor(more, |Encode(v)|, Elements(v)))
  {
    LexerInverts(l);
    ReadsPrinted(LexerOf(l), v, more, 0, 0, 0, l);
  }

  // ---- No stream gets past the limits ----

  /** Arrays with elements nest at most `room` deep. */
  predicate Nests(v: Reply, room: nat) {
    v.Array? && v.items != [] ==> room > 0 && forall i :: 0 <= i < |v.items| ==> Nests(v.items[i], room - 1)
  }

  /** Tokens are counted as they are taken, and only an opening makes an array. */
  ghost predicate Counts(lex: Lexer, l: ReplyLimits) {
    forall s, consumed: nat, root :: var t := lex(s, consumed, root); t.Read? ==>
      t.consumed == consumed + |s| - |t.rest| <= l.maxFrame && (t.token.Whole? ==> !t.token.value.Array?)
  }

  lemma LexerCounts(l: ReplyLimits)
    ensures Counts(LexerOf(l), l)
  {
    var lex := LexerOf(l);
    forall s, consumed: nat, root ensures var t := lex(s, consumed, root); t.Read? ==>
      t.consumed == consumed + |s| - |t.rest| <= l.maxFrame && (t.token.Whole? ==> !t.token.value.Array?)
    {
      TokenCounts(s, consumed, root, l);
    }
  }

  lemma TokenCounts(s: Bytes, consumed: nat, root: bool, l: ReplyLimits)
    ensures var t := TakeToken(s, consumed, root, l); t.Read? ==>
      t.consumed == consumed + |s| - |t.rest| <= l.maxFrame && (t.token.Whole? ==> !t.token.value.Array?)
  {
  }

  lemma {:induction false} ReplyCounts(lex: Lexer, at: Cursor, depth: nat, l: ReplyLimits)
    requires Progresses(lex) && Counts(lex, l) && at.total <= l.maxTotal
    ensures var r := TakeReply(lex, at, depth, l); r.Value? ==>
      && r.at.consumed == at.consumed + |at.rest| - |r.at.rest| <= l.maxFrame
      && r.at.total == at.total + Elements(r.value) <= l.maxTotal
      && Nests(r.value, Room(l, depth))
    decreases |at.rest|, 0
  {
    var t := lex(at.rest, at.consumed, depth == 0 && at.consumed == 0);
    if t.Read? && t.token.Open? && t.token.count > 0 && depth < l.maxDepth && at.total + t.token.count <= l.maxTotal {
      var count := t.token.count;
      var after, deeper := Cursor(t.rest, t.consumed, at.total + count), depth + 1;
      TakesOpen(lex, at, depth, count, after, l);
      ItemsCount(lex, after, count, [], deeper, l);
      var r := TakeItems(lex, after, count, [], deeper, l);
      if r.Value? {
        assert r.value.items[0..] == r.value.items;
        ElementsOfArray(r.value);
      }
    }
  }

  lemma {:induction false} ItemsCount(lex: Lexer, at: Cursor, left: nat, items: seq<Reply>, depth: nat, l: ReplyLimits)
    requires Progresses(lex) && Counts(lex, l) && at.total <= l.maxTotal && at.consumed <= l.maxFrame
    ensures var r := TakeItems(lex, at, left, items, depth, l); r.Value? ==>
      && r.value.Array? && |r.value.items| == |items| + left && r.value.items[..|items|] == items
      && r.at.consumed == at.consumed + |at.rest| - |r.at.rest| <= l.maxFrame
      && r.at.total == at.total + AllElements(r.value.items[|items|..]) <= l.maxTotal
      && (forall i :: |items| <= i < |r.value.items| ==> Nests(r.value.items[i], Room(l, depth)))
    decreases |at.rest|, 1
  {
    if left > 0 {
      var first := TakeReply(lex, at, depth, l);
      ReplyCounts(lex, at, depth, l);
      if first.Value? {
        var n, grown := |items|, items + [first.value];
        ItemsCount(lex, first.at, left - 1, grown, depth, l);
        var r := TakeItems(lex, at, left, items, depth, l);
        if r.Value? {
          var all := r.value.items;
          assert all[n] == all[..|grown|][n] == first.value;
          assert all[..n] == all[..|grown|][..n] == items;
          assert all[n..][1..] == all[|grown|..];
        }
      }
    }
  }

  /** Whatever a stream contains, an accepted reply is within every limit, and what
      is counted is exactly the bytes taken and the elements of the value. */
  lemma AcceptedIsWithinLimits(s: Bytes, l: ReplyLimits)
    ensures var r := TakeReply(LexerOf(l), Cursor(s, 0, 0), 0, l); r.Value? ==>
      && r.at.consumed == |s| - |r.at.rest| <= l.maxFrame
      && r.at.total == Elements(r.value) <= l.maxTotal
      && Nests(r.value, l.maxDepth)
  {
    LexerCounts(l);
    ReplyCounts(LexerOf(l), Cursor(s, 0, 0), 0, l);
  }
}
