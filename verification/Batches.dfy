/** Committed batches as bytes: a count, then one opcode and one length-prefixed
payload per effect. */
module BatchCodec {
  import opened Model
  import opened Wire
  import opened Codec
  import opened EntryCodec

  const MAX_BINLOG_RECORD_SIZE: nat := 512 * 1024 * 1024 + 1024

  datatype WireEffect = WPut(entry: WireEntry) | WDelete(key: Bytes)

  function Opcode(e: WireEffect): Byte { if e.WPut? then 1 else 2 }

  function Operand(e: WireEffect): Bytes { if e.WPut? then EntryBytes(e.entry) else e.key }

  function EffectBytes(e: WireEffect): Bytes { [Opcode(e)] + Chunk(Operand(e)) }

  predicate EffectFits(e: WireEffect) {
    (e.WPut? ==> EntryFits(e.entry)) && |Operand(e)| < U32_LIMIT
  }

  function EffectsBytes(es: seq<WireEffect>): Bytes {
    if es == [] then [] else EffectBytes(es[0]) + EffectsBytes(es[1..])
  }

  predicate EffectsFit(es: seq<WireEffect>) {
    forall i :: 0 <= i < |es| ==> EffectFits(es[i])
  }

  function BatchBytes(es: seq<WireEffect>): Bytes { U32(|es|) + EffectsBytes(es) }

  predicate BatchFits(es: seq<WireEffect>) { 0 < |es| < U32_LIMIT && EffectsFit(es) }

  // ---- Reading ----

  function ToEffect(opcode: Byte, operand: Bytes): Option<WireEffect> {
    if opcode == 1 then
      var entry := TakeEntry(operand);
      if entry.None? || entry.value.1 != [] then None else Some(WPut(entry.value.0))
    else if opcode == 2 then Some(WDelete(operand))
    else None
  }

  function TakeEffect(rest: Bytes): Read<WireEffect> {
    if rest == [] then None
    else
      var operand := TakeChunk(rest[1..]);
      if operand.None? then None
      else
        var effect := ToEffect(rest[0], operand.value.0);
        if effect.None? then None else Some((effect.value, operand.value.1))
  }

  function TakeEffects(rest: Bytes, count: nat): Read<seq<WireEffect>> {
    if count == 0 then Some(([], rest))
    else
      var first := TakeEffect(rest);
      if first.None? then None
      else
        var others := TakeEffects(first.value.1, count - 1);
        if others.None? then None else Some(([first.value.0] + others.value.0, others.value.1))
  }

  function TakeBatch(rest: Bytes): Read<seq<WireEffect>> {
    var count := TakeUnsigned(rest, 4);
    if count.None? || count.value.0 == 0 || count.value.0 > |count.value.1| / 5 then None
    else TakeEffects(count.value.1, count.value.0)
  }

  lemma ToEffectIff(opcode: Byte, operand: Bytes, e: WireEffect)
    ensures ToEffect(opcode, operand) == Some(e) <==>
      opcode == Opcode(e) && operand == Operand(e) && (e.WPut? ==> EntryFits(e.entry))
  {
    if e.WPut? {
      assert EntryBytes(e.entry) + [] == EntryBytes(e.entry);
      TakeEntryIff(operand, e.entry, []);
    }
  }

  lemma TakeEffectIff(rest: Bytes, e: WireEffect, left: Bytes)
    ensures TakeEffect(rest) == Some((e, left)) <==> EffectFits(e) && rest == EffectBytes(e) + left
  {
    if EffectFits(e) && rest == EffectBytes(e) + left {
      TakeEffectRead(e, left);
    }
    if TakeEffect(rest) == Some((e, left)) {
      TakeEffectWritten(rest, e, left);
    }
  }

  lemma TakeEffectRead(e: WireEffect, left: Bytes)
    requires EffectFits(e)
    ensures TakeEffect(EffectBytes(e) + left) == Some((e, left))
  {
    var operand := Operand(e);
    var chunk := Chunk(operand);
    var rest := EffectBytes(e) + left;
    Assoc([Opcode(e)], chunk, left);
    assert rest[1..] == chunk + left;
    TakeChunkIff(rest[1..], operand, left);
    ToEffectIff(rest[0], operand, e);
  }

  lemma TakeEffectWritten(rest: Bytes, e: WireEffect, left: Bytes)
    requires TakeEffect(rest) == Some((e, left))
    ensures EffectFits(e) && rest == EffectBytes(e) + left
  {
    var (operand, _) := TakeChunk(rest[1..]).value;
    TakeChunkIff(rest[1..], operand, left);
    ToEffectIff(rest[0], operand, e);
    Assoc([Opcode(e)], Chunk(operand), left);
    assert rest == [rest[0]] + rest[1..];
  }

  lemma {:induction false} TakeEffectsRead(es: seq<WireEffect>, left: Bytes)
    requires EffectsFit(es)
    ensures TakeEffects(EffectsBytes(es) + left, |es|) == Some((es, left))
  {
    if es == [] {
      assert EffectsBytes(es) + left == left;
    } else {
      var tail := EffectsBytes(es[1..]) + left;
      Assoc(EffectBytes(es[0]), EffectsBytes(es[1..]), left);
      TakeEffectIff(EffectBytes(es[0]) + tail, es[0], tail);
      TakeEffectsRead(es[1..], left);
      assert [es[0]] + es[1..] == es;
    }
  }

  lemma {:induction false} TakeEffectsWritten(rest: Bytes, count: nat, es: seq<WireEffect>, left: Bytes)
    requires TakeEffects(rest, count) == Some((es, left))
    ensures |es| == count && EffectsFit(es) && rest == EffectsBytes(es) + left
  {
    if count != 0 {
      var fewer := count - 1;
      var (e, tail) := TakeEffect(rest).value;
      var (others, _) := TakeEffects(tail, fewer).value;
      TakeEffectIff(rest, e, tail);
      TakeEffectsWritten(tail, fewer, others, left);
      assert es[1..] == others;
      Assoc(EffectBytes(e), EffectsBytes(others), left);
    }
  }

  lemma {:induction false} EffectsLength(es: seq<WireEffect>)
    ensures |EffectsBytes(es)| >= 5 * |es|
  {
    if es != [] {
      EffectsLength(es[1..]);
    }
  }

  lemma TakeBatchRead(es: seq<WireEffect>, left: Bytes)
    requires BatchFits(es)
    ensures TakeBatch(BatchBytes(es) + left) == Some((es, left))
  {
    Powers();
    var body := EffectsBytes(es);
    Assoc(U32(|es|), body, left);
    TakeUnsignedIff(BatchBytes(es) + left, 4, |es|, body + left);
    EffectsLength(es);
    TakeEffectsRead(es, left);
  }

  lemma TakeBatchWritten(rest: Bytes, es: seq<WireEffect>, left: Bytes)
    requires TakeBatch(rest) == Some((es, left))
    ensures BatchFits(es) && rest == BatchBytes(es) + left
  {
    Powers();
    var (count, tail) := TakeUnsigned(rest, 4).value;
    TakeUnsignedIff(rest, 4, count, tail);
    TakeEffectsWritten(tail, count, es, left);
    Assoc(U32(count), EffectsBytes(es), left);
  }

  /** The count guards never refuse encoder output, and nothing else is read. */
  lemma TakeBatchIff(rest: Bytes, es: seq<WireEffect>, left: Bytes)
    ensures TakeBatch(rest) == Some((es, left)) <==> BatchFits(es) && rest == BatchBytes(es) + left
  {
    if BatchFits(es) && rest == BatchBytes(es) + left {
      TakeBatchRead(es, left);
    }
    if TakeBatch(rest) == Some((es, left)) {
      TakeBatchWritten(rest, es, left);
    }
  }

  // ---- The effects that wire effects denote ----

  predicate EffectRepresents(w: WireEffect, effect: Effect) {
    match effect
    case Put(key, entry) => w.WPut? && EntryRepresents(w.entry, key, entry)
    case Delete(key) => w == WDelete(key)
  }

  predicate BatchRepresents(ws: seq<WireEffect>, batch: Batch) {
    |ws| == |batch| && forall i :: 0 <= i < |ws| ==> EffectRepresents(ws[i], batch[i])
  }

  function FromEffect(w: WireEffect, json: Json): Option<Effect> {
    if w.WDelete? then Some(Delete(w.key))
    else
      var entry := FromEntry(w.entry, json);
      if entry.None? then None else Some(Put(entry.value.0, entry.value.1))
  }

  function FromEffects(ws: seq<WireEffect>, json: Json): Option<Batch> {
    if ws == [] then Some([])
    else
      var front := FromEffects(ws[..|ws| - 1], json);
      var last := FromEffect(ws[|ws| - 1], json);
      if front.None? || last.None? then None else Some(front.value + [last.value])
  }

  /** The specification of decoding a committed batch. */
  function DecodedBatch(encoded: Bytes, json: Json): Option<Batch> {
    var read := TakeBatch(encoded);
    if read.None? || read.value.1 != [] then None else FromEffects(read.value.0, json)
  }

  predicate EffectFaithful(json: Json, effect: Effect) {
    effect.Put? ==> JsonFaithful(json, effect.entry.value)
  }

  predicate BatchFaithful(json: Json, batch: Batch) {
    forall i :: 0 <= i < |batch| ==> EffectFaithful(json, batch[i])
  }

  lemma EffectReadsBackIff(w: WireEffect, effect: Effect, json: Json)
    requires EffectRepresents(w, effect) && EffectFaithful(json, effect)
    ensures FromEffect(w, json).Some?
    ensures FromEffect(w, json) == Some(effect) <==> ExpirySafe(effect)
  {
    if effect.Put? {
      ValueReadsBack(w.entry.value, effect.entry.value, json);
    }
  }

  lemma {:induction false} EffectsReadBackIff(ws: seq<WireEffect>, batch: Batch, json: Json)
    requires BatchRepresents(ws, batch) && BatchFaithful(json, batch)
    ensures FromEffects(ws, json).Some? && |FromEffects(ws, json).value| == |batch|
    ensures FromEffects(ws, json) == Some(batch) <==> ExpiriesSafe(batch)
  {
    if ws != [] {
      var n := |ws| - 1;
      var front, last := batch[..n], batch[n];
      assert BatchFaithful(json, front) && batch == front + [last];
      EffectsReadBackIff(ws[..n], front, json);
      assert EffectRepresents(ws[n], last) && EffectFaithful(json, last);
      EffectReadsBackIff(ws[n], last, json);
      var read := FromEffects(ws, json).value;
      assert read == batch <==> read[..n] == front && read[n] == last;
      assert ExpiriesSafe(batch) <==> ExpiriesSafe(front) && ExpirySafe(last);
    }
  }

  /** A written batch decodes to itself, whatever iteration order was used,
      exactly when no put carries the expiry zero. */
  lemma BatchRoundTripIff(ws: seq<WireEffect>, batch: Batch, json: Json)
    requires BatchRepresents(ws, batch) && BatchFits(ws) && BatchFaithful(json, batch)
    ensures DecodedBatch(BatchBytes(ws), json) == Some(batch) <==> ExpiriesSafe(batch)
  {
    var encoded := BatchBytes(ws);
    assert encoded == encoded + [];
    TakeBatchRead(ws, []);
    EffectsReadBackIff(ws, batch, json);
  }

  lemma WholeBatchOnly(whole: Bytes, ws: seq<WireEffect>, cut: nat)
    requires TakeBatch(whole) == Some((ws, [])) && cut < |whole|
    ensures TakeBatch(whole[..cut]).Some? ==> TakeBatch(whole[..cut]).value.1 != []
  {
    var prefix, suffix := whole[..cut], whole[cut..];
    if TakeBatch(prefix).Some? && TakeBatch(prefix).value.1 == [] {
      var shorter := TakeBatch(prefix).value.0;
      TakeBatchWritten(prefix, shorter, []);
      assert whole == BatchBytes(shorter) + suffix;
      TakeBatchRead(shorter, suffix);
    }
  }

  /** No proper prefix and no extension of an encoding is a batch. */
  lemma OnlyWholeBatches(ws: seq<WireEffect>, json: Json, cut: nat, extra: Bytes)
    requires BatchFits(ws) && cut < |BatchBytes(ws)| && extra != []
    ensures DecodedBatch(BatchBytes(ws)[..cut], json).None?
    ensures DecodedBatch(BatchBytes(ws) + extra, json).None?
  {
    var encoded := BatchBytes(ws);
    assert encoded == encoded + [];
    TakeBatchRead(ws, []);
    TakeBatchRead(ws, extra);
    WholeBatchOnly(encoded, ws, cut);
  }

  /** What decodes is the writing of exactly one wire batch. */
  lemma AcceptedBatchIsWritten(encoded: Bytes, json: Json)
    ensures DecodedBatch(encoded, json).Some? <==>
      exists ws: seq<WireEffect> :: BatchFits(ws) && encoded == BatchBytes(ws) && FromEffects(ws, json).Some?
  {
    if DecodedBatch(encoded, json).Some? {
      var (ws, left) := TakeBatch(encoded).value;
      TakeBatchIff(encoded, ws, left);
      assert encoded == BatchBytes(ws);
    }
    forall ws: seq<WireEffect> | BatchFits(ws) && encoded == BatchBytes(ws) && FromEffects(ws, json).Some?
      ensures DecodedBatch(encoded, json).Some?
    {
      assert encoded == BatchBytes(ws) + [];
      TakeBatchIff(encoded, ws, []);
    }
  }

  // ---- The byte loops ----

  /** The entry inside a put is held to the snapshot record limit as well. */
  predicate EffectAccepted(w: WireEffect) {
    EffectFits(w) && (w.WPut? ==> |Operand(w)| <= MAX_SNAPSHOT_RECORD_SIZE)
  }

  predicate EffectsAccepted(ws: seq<WireEffect>) {
    forall i :: 0 <= i < |ws| ==> EffectAccepted(ws[i])
  }

  lemma {:induction false} EffectsAppend(ws: seq<WireEffect>, w: WireEffect)
    ensures EffectsBytes(ws + [w]) == EffectsBytes(ws) + EffectBytes(w)
  {
    if ws != [] {
      assert (ws + [w])[1..] == ws[1..] + [w];
      EffectsAppend(ws[1..], w);
      Assoc(EffectBytes(ws[0]), EffectsBytes(ws[1..]), EffectBytes(w));
    } else {
      assert EffectsBytes([w][1..]) == [];
      assert ws + [w] == [w];
    }
  }

  method AppendEffect(encoded: Bytes, effect: Effect) returns (r: Option<Bytes>, ghost w: WireEffect)
    ensures EffectRepresents(w, effect)
    ensures r == if EffectAccepted(w) then Some(encoded + EffectBytes(w)) else None
  {
    match effect {
      case Put(key, entry) => {
        var record;
        ghost var wire;
        record, wire := EncodeSnapshotEntry(key, entry);
        w := WPut(wire);
        if record.None? {
          return None, w;
        }
        r := AppendChunk(encoded + [1], record.value);
      }
      case Delete(key) => {
        w := WDelete(key);
        r := AppendChunk(encoded + [2], key);
      }
    }
    assert encoded + [Opcode(w)] + Chunk(Operand(w)) == encoded + EffectBytes(w);
  }

  ghost predicate Encoding(count: nat, ws: seq<WireEffect>, output: Bytes) {
    EffectsAccepted(ws) && output == U32(count) + EffectsBytes(ws)
  }

  lemma EncodingNext(count: nat, ws: seq<WireEffect>, output: Bytes, w: WireEffect)
    requires Encoding(count, ws, output) && EffectAccepted(w)
    ensures Encoding(count, ws + [w], output + EffectBytes(w))
  {
    EffectsAppend(ws, w);
    Assoc(U32(count), EffectsBytes(ws), EffectBytes(w));
  }

  lemma RepresentsNext(ws: seq<WireEffect>, batch: Batch, i: nat, w: WireEffect)
    requires i < |batch| && BatchRepresents(ws, batch[..i]) && EffectRepresents(w, batch[i])
    ensures BatchRepresents(ws + [w], batch[..i + 1])
  {
  }

  lemma EncodedReadsBack(ws: seq<WireEffect>, batch: Batch)
    requires BatchRepresents(ws, batch) && BatchFits(ws)
    ensures forall json: Json :: BatchFaithful(json, batch) ==>
      (DecodedBatch(BatchBytes(ws), json) == Some(batch) <==> ExpiriesSafe(batch))
  {
    forall json: Json | BatchFaithful(json, batch)
      ensures DecodedBatch(BatchBytes(ws), json) == Some(batch) <==> ExpiriesSafe(batch)
    {
      BatchRoundTripIff(ws, batch, json);
    }
  }

  /** Encoder output is the writing of wire effects that represent the batch, is
      accepted by the decoder, and stays within the record limit. */
  method EncodeCommittedBatch(batch: Batch) returns (r: Option<Bytes>, ghost ws: seq<WireEffect>)
    ensures r.Some? ==> BatchRepresents(ws, batch) && BatchFits(ws) && EffectsAccepted(ws)
    ensures r.Some? ==> r.value == BatchBytes(ws) && |r.value| <= 536_871_936
    ensures r.Some? ==> forall json: Json :: BatchFaithful(json, batch) ==>
      (DecodedBatch(r.value, json) == Some(batch) <==> ExpiriesSafe(batch))
    ensures r.None? ==> batch == [] || |batch| >= 4_294_967_296 || !EffectsAccepted(ws) || |BatchBytes(ws)| > 536_871_936
    ensures r.None? ==> |ws| <= |batch| && BatchRepresents(ws, batch[..|ws|])
  {
    ws := [];
    if batch == [] || |batch| >= U32_LIMIT {
      return None, ws;
    }
    var encoded := U32(|batch|);
    var i := 0;
    while i < |batch|
      invariant 0 <= i <= |batch| && |ws| == i
      invariant BatchRepresents(ws, batch[..i]) && Encoding(|batch|, ws, encoded)
    {
      var next;
      ghost var w;
      next, w := AppendEffect(encoded, batch[i]);
      RepresentsNext(ws, batch, i, w);
      if next.None? {
        ws := ws + [w];
        assert !EffectAccepted(ws[i]);
        return None, ws;
      }
      EncodingNext(|batch|, ws, encoded, w);
      encoded, ws, i := next.value, ws + [w], i + 1;
    }
    assert batch[..i] == batch;
    assert encoded == BatchBytes(ws) && BatchFits(ws);
    EncodedReadsBack(ws, batch);
    r := if |encoded| > MAX_BINLOG_RECORD_SIZE then None else Some(encoded);
  }

  method ReadEffect(bytes: Bytes, offset: nat, json: Json) returns (r: Option<Effect>, next: nat, ghost w: Option<WireEffect>)
    requires offset <= |bytes|
    ensures Tracks(bytes, TakeEffect(bytes[offset..]), w, next)
    ensures r == if w.Some? then FromEffect(w.value, json) else None
  {
    r, next, w := None, offset, None;
    if offset == |bytes| {
      return;
    }
    assert bytes[offset..][1..] == bytes[offset + 1..];
    var operand, after := ReadChunk(bytes, offset + 1);
    if operand.None? {
      return;
    }
    next := after;
    w := ToEffect(bytes[offset], operand.value);
    if bytes[offset] == 1 {
      var entry := DecodeSnapshotEntry(operand.value, json);
      r := if entry.Some? then Some(Put(entry.value.0, entry.value.1)) else None;
    } else if bytes[offset] == 2 {
      r := Some(Delete(operand.value));
    }
  }

  lemma {:induction false} FailureStays(ws: seq<WireEffect>, others: seq<WireEffect>, json: Json)
    requires FromEffects(ws, json).None?
    ensures FromEffects(ws + others, json).None?
  {
    if others == [] {
      assert ws + others == ws;
    } else {
      var n := |others| - 1;
      assert (ws + others)[..|ws + others| - 1] == ws + others[..n];
      FailureStays(ws, others[..n], json);
    }
  }

  lemma PrependEffect(done: seq<WireEffect>, rest: Bytes, count: nat, json: Json)
    requires count > 0
    ensures TakeEffect(rest).None? ==> Prepend(done, TakeEffects(rest, count)).None?
    ensures TakeEffect(rest).Some? ==>
      var (w, tail) := TakeEffect(rest).value;
      Prepend(done, TakeEffects(rest, count)) == Prepend(done + [w], TakeEffects(tail, count - 1))
  {
    if TakeEffect(rest).Some? {
      var (w, tail) := TakeEffect(rest).value;
      var others := TakeEffects(tail, count - 1);
      if others.Some? {
        assert done + ([w] + others.value.0) == done + [w] + others.value.0;
      }
    }
  }

  lemma FromEffectsNext(ws: seq<WireEffect>, w: WireEffect, json: Json)
    requires FromEffects(ws, json).Some?
    ensures FromEffects(ws + [w], json)
         == (if FromEffect(w, json).None? then None
             else Some(FromEffects(ws, json).value + [FromEffect(w, json).value]))
  {
    assert (ws + [w])[..|ws + [w]| - 1] == ws;
  }

  /** A failure while reading the effects one by one is a failure of the whole. */
  method ReadEffects(bytes: Bytes, start: nat, count: nat, json: Json) returns (r: Option<Batch>, next: nat)
    requires start <= |bytes|
    ensures r.Some? ==> next <= |bytes| && TakeEffects(bytes[start..], count).Some?
    ensures r.Some? ==> TakeEffects(bytes[start..], count).value.1 == bytes[next..]
    ensures r == (var spec := TakeEffects(bytes[start..], count); if spec.None? then None else FromEffects(spec.value.0, json))
  {
    var effects: Batch := [];
    ghost var ws: seq<WireEffect> := [];
    var left: nat := count;
    next := start;
    ghost var spec := TakeEffects(bytes[start..], count);
    PrependEnds([], spec, []);
    while left > 0
      invariant next <= |bytes|
      invariant FromEffects(ws, json) == Some(effects)
      invariant spec == Prepend(ws, TakeEffects(bytes[next..], left))
    {
      var effect, after;
      ghost var w;
      effect, after, w := ReadEffect(bytes, next, json);
      PrependEffect(ws, bytes[next..], left, json);
      if w.Some? {
        FromEffectsNext(ws, w.value, json);
      }
      if effect.None? {
        if w.Some? && spec.Some? {
          FailureStays(ws + [w.value], TakeEffects(bytes[after..], left - 1).value.0, json);
        }
        return None, start;
      }
      effects, ws := effects + [effect.value], ws + [w.value];
      next, left := after, left - 1;
    }
    PrependEnds(ws, None, bytes[next..]);
    r := Some(effects);
  }

  method DecodeCommittedBatch(encoded: Bytes, json: Json) returns (r: Option<Batch>)
    ensures r == DecodedBatch(encoded, json)
  {
    assert encoded[0..] == encoded;
    var count, start := ReadUnsigned(encoded, 0, 4);
    if count.None? || count.value == 0 || count.value > (|encoded| - start) / 5 {
      return None;
    }
    var end;
    r, end := ReadEffects(encoded, start, count.value, json);
    if r.Some? && end != |encoded| {
      r := None;
    }
  }
}
