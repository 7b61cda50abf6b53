/** Materialising a point-in-time snapshot while the engine keeps serving.

The view shares the frozen base maps with the live shards. Live operations may
run at any point between capture and completion; the list that comes out is the
captured state, and the live state is what the same operations do to a plain map. */
module SnapshotEpoch {
  import opened Model
  import opened Shards
  import opened ShardObject
  import opened Merge
  import opened Effects
  import opened EngineObject

  /** One live engine operation and the instant at which it runs. */
  datatype LiveOp =
    | Store(key: Bytes, entry: Entry, now: nat)
    | StoreIf(key: Bytes, value: Value, expiresAt: Option<Word64>, condition: Option<bool>, now: nat)
    | StoreAbsent(key: Bytes, value: Value, now: nat)
    | Erase(key: Bytes, now: nat)
    | Read(key: Bytes, now: nat)
    | Mutate(key: Bytes, f: Value -> Update, now: nat)
    | Upsert(key: Bytes, initial: Value, g: (Entry, bool) -> Entry, now: nat)
    | Expire(key: Bytes, timestamp: Word64, requireExpiry: Option<bool>, now: nat)
    | Move(from: Bytes, to: Bytes, now: nat)
    | Duplicate(from: Bytes, to: Bytes, now: nat)
    | Evict(limit: nat, policy: Policy, protected: set<Bytes>, picks: (nat, nat) -> nat, now: nat)
    | Sweep(now: nat)

  /** The victims of an eviction, with the entries they held. */
  type Victims = seq<(Bytes, Entry)>

  /** The same operation on a plain map. An eviction is told its victims. */
  ghost function Performed(m: Contents, op: LiveOp, victims: Victims): Contents {
    match op
    case Store(key, entry, now) => Amend(m, key, Live(Some(entry), now))
    case StoreIf(key, value, expiresAt, condition, now) =>
      var live := Live(Lookup(m, key), now);
      Amend(m, key, if condition.Some? && condition.value != live.None? then live else Some(Entry(value, expiresAt, now, now)))
    case StoreAbsent(key, value, now) => Amend(m, key, Defaulted(Lookup(m, key), Entry(value, None, now, now), now))
    case Erase(key, now) => Amend(m, key, None)
    case Read(key, now) => Amend(m, key, Touched(Lookup(m, key), now))
    case Mutate(key, f, now) => Amend(m, key, Updated(Lookup(m, key), f, now))
    case Upsert(key, initial, g, now) => Amend(m, key, Upserted(Lookup(m, key), initial, g, now))
    case Expire(key, timestamp, require_, now) => Amend(m, key, Reexpired(Lookup(m, key), timestamp, require_, now))
    case Move(from, to, now) =>
      var live := Live(Lookup(m, from), now);
      var cleared := Amend(m, from, None);
      if live.Some? then Amend(cleared, to, live) else cleared
    case Duplicate(from, to, now) =>
      var live := Live(Lookup(m, from), now);
      var swept := Amend(m, from, live);
      if live.Some? && from != to then Amend(swept, to, Some(Entry(live.value.value, live.value.expiresAt, now, now))) else swept
    case Evict(limit, policy, _, _, now) =>
      if policy.NoEviction? || limit == 0 then m else Dropping(Swept(m, now), EvictedKeys(victims))
    case Sweep(now) => Swept(m, now)
  }

  /** Each victim of an eviction was a best one, taken while the rest was over the
      limit, and it stopped within the limit or for want of candidates. */
  ghost predicate Chosen(m: Contents, op: LiveOp, victims: Victims, sizeOf: Sizer) {
    op.Evict? && !op.policy.NoEviction? && op.limit != 0 ==>
      && EvictionRun(Swept(m, op.now), victims, op.limit, op.policy, op.protected, sizeOf)
      && var left := Dropping(Swept(m, op.now), EvictedKeys(victims));
         TotalSize(left, sizeOf) <= op.limit || NoneEligible(left, op.policy, op.protected)
  }

  ghost function PerformedAll(m: Contents, ops: seq<LiveOp>, victims: seq<Victims>): Contents
    requires |victims| == |ops|
  {
    if ops == [] then m
    else Performed(PerformedAll(m, ops[..|ops| - 1], victims[..|ops| - 1]), ops[|ops| - 1], victims[|ops| - 1])
  }

  ghost predicate ChosenAll(m: Contents, ops: seq<LiveOp>, victims: seq<Victims>, sizeOf: Sizer)
    requires |victims| == |ops|
  {
    ops != [] ==>
      var n := |ops| - 1;
      && ChosenAll(m, ops[..n], victims[..n], sizeOf)
      && Chosen(PerformedAll(m, ops[..n], victims[..n]), ops[n], victims[n], sizeOf)
  }

  /** The operations took `m` to `after`, with these victims. */
  ghost predicate Happened(m: Contents, ops: seq<LiveOp>, victims: seq<Victims>, after: Contents, sizeOf: Sizer) {
    |victims| == |ops| && after == PerformedAll(m, ops, victims) && ChosenAll(m, ops, victims, sizeOf)
  }

  lemma {:induction false} HappenedThen(m: Contents, a: seq<LiveOp>, v: seq<Victims>, middle: Contents, b: seq<LiveOp>, w: seq<Victims>,
                                        after: Contents, sizeOf: Sizer)
    requires Happened(m, a, v, middle, sizeOf) && Happened(middle, b, w, after, sizeOf)
    ensures Happened(m, a + b, v + w, after, sizeOf)
  {
    if b == [] {
      assert a + b == a && v + w == v;
    } else {
      var n := |b| - 1;
      HappenedThen(m, a, v, middle, b[..n], w[..n], PerformedAll(middle, b[..n], w[..n]), sizeOf);
      assert (a + b)[..|a + b| - 1] == a + b[..n] && (v + w)[..|a + b| - 1] == v + w[..n];
    }
  }

  method Perform(engine: Engine, op: LiveOp) returns (ghost victims: Victims)
    requires engine.Valid()
    modifies engine.Repr
    ensures engine.Valid() && engine.Same(old(engine.snapshotActive), old(engine.Bases()))
    ensures engine.Contents() == Performed(old(engine.Contents()), op, victims)
    ensures Chosen(old(engine.Contents()), op, victims, engine.sizeOf)
  {
    victims := [];
    match op {
      case Store(key, entry, now) => var _ := engine.ApplyEntry(key, entry, now);
      case StoreIf(key, value, expiresAt, condition, now) => var _ := engine.SetConditional(key, value, expiresAt, condition, now);
      case StoreAbsent(key, value, now) => var _ := engine.SetIfAbsent(key, value, now);
      case Erase(key, now) => var _ := engine.Delete(key, now);
      case Read(key, now) => var _ := engine.Get(key, now);
      case Mutate(key, f, now) => var _ := engine.UpdateIfExists(key, f, now);
      case Upsert(key, initial, g, now) => engine.UpdateOrInsert(key, initial, g, now);
      case Expire(key, timestamp, require_, now) => var _ := engine.SetExpiry(key, timestamp, require_, now);
      case Move(from, to, now) => var _ := engine.Rename(from, to, now);
      case Duplicate(from, to, now) => var _ := engine.Copy(from, to, now);
      case Evict(limit, policy, protected, picks, now) =>
        var evicted := engine.EvictToFit(limit, policy, protected, picks, now);
        victims := evicted;
      case Sweep(now) => var _ := engine.GcExpired(now);
    }
  }

  /** Whatever the clients do, it acts on the engine as on a plain map. */
  method Serve(engine: Engine, ops: seq<LiveOp>) returns (ghost victims: seq<Victims>)
    requires engine.Valid()
    modifies engine.Repr
    ensures engine.Valid() && engine.Same(old(engine.snapshotActive), old(engine.Bases()))
    ensures Happened(old(engine.Contents()), ops, victims, engine.Contents(), engine.sizeOf)
  {
    ghost var start, active, bases := engine.Contents(), engine.snapshotActive, engine.Bases();
    victims := [];
    var i := 0;
    while i < |ops|
      invariant 0 <= i <= |ops|
      invariant Serving(engine, active, bases, start, ops[..i], victims)
    {
      var next := i + 1;
      victims := ServeNext(engine, ops, i, next, active, bases, start, victims);
      i := next;
    }
    assert ops[..i] == ops;
  }

  /** The engine has served `done` on top of `start`. */
  ghost predicate Serving(engine: Engine, active: bool, bases: seq<Option<Contents>>, start: Contents,
                          done: seq<LiveOp>, victims: seq<Victims>)
    reads engine, engine.Repr, engine.shards, engine.total
  {
    && engine.Valid() && engine.Same(active, bases)
    && Happened(start, done, victims, engine.Contents(), engine.sizeOf)
  }

  method ServeNext(engine: Engine, ops: seq<LiveOp>, i: nat, ghost next: nat, ghost active: bool, ghost bases: seq<Option<Contents>>,
                   ghost start: Contents, ghost victims: seq<Victims>)
    returns (ghost victims': seq<Victims>)
    requires i < |ops| && next == i + 1 && Serving(engine, active, bases, start, ops[..i], victims)
    modifies engine.Repr
    ensures Serving(engine, active, bases, start, ops[..next], victims')
  {
    ghost var before := engine.Contents();
    ghost var chosen := Perform(engine, ops[i]);
    HappenedNext(start, ops, i, next, victims, before, chosen, engine.Contents(), engine.sizeOf);
    victims' := victims + [chosen];
  }

  lemma HappenedNext(m: Contents, ops: seq<LiveOp>, i: nat, next: nat, victims: seq<Victims>, before: Contents, chosen: Victims, after: Contents, sizeOf: Sizer)
    requires next == i + 1 <= |ops| && Happened(m, ops[..i], victims, before, sizeOf)
    requires after == Performed(before, ops[i], chosen) && Chosen(before, ops[i], chosen, sizeOf)
    ensures Happened(m, ops[..next], victims + [chosen], after, sizeOf)
  {
    assert ops[..next][..i] == ops[..i] && (victims + [chosen])[..i] == victims;
  }

  /** The operations that run at points 0 to n - 1, in order. */
  function Served(interference: nat -> seq<LiveOp>, n: nat): seq<LiveOp> {
    if n == 0 then [] else Served(interference, n - 1) + interference(n - 1)
  }

  /** Three points belong to each shard. */
  lemma ServedRound(interference: nat -> seq<LiveOp>, i: nat)
    ensures Served(interference, 3 * (i + 1))
         == Served(interference, 3 * i) + (interference(3 * i) + interference(3 * i + 1) + interference(3 * i + 2))
  {
    var before := Served(interference, 3 * i);
    assert Served(interference, 3 * i + 1) == before + interference(3 * i);
    assert Served(interference, 3 * i + 2) == Served(interference, 3 * i + 1) + interference(3 * i + 1);
    assert Served(interference, 3 * i + 3) == Served(interference, 3 * i + 2) + interference(3 * i + 2);
  }

  method ServeThen(engine: Engine, ops: seq<LiveOp>, ghost start: Contents, ghost done: seq<LiveOp>, ghost victims: seq<Victims>)
    returns (ghost victims': seq<Victims>)
    requires engine.Valid() && Happened(start, done, victims, engine.Contents(), engine.sizeOf)
    modifies engine.Repr
    ensures engine.Valid() && engine.Same(old(engine.snapshotActive), old(engine.Bases()))
    ensures Happened(start, done + ops, victims', engine.Contents(), engine.sizeOf)
  {
    ghost var middle := engine.Contents();
    ghost var chosen := Serve(engine, ops);
    HappenedThen(start, done, victims, middle, ops, chosen, engine.Contents(), engine.sizeOf);
    victims' := victims + chosen;
  }

  /** Handles one shard: copy its live entries out of the shared base, drop the
      view's share, and fold the live delta back. Clients run in between. */
  method MaterializeShard(engine: Engine, i: nat, capturedAt: nat, before: seq<LiveOp>, during: seq<LiveOp>, after: seq<LiveOp>)
    returns (part: seq<(Bytes, Entry)>, ghost victims: seq<Victims>)
    requires engine.Valid() && engine.snapshotActive && i < |engine.shards| && engine.Bases()[i].Some?
    modifies engine.Repr
    ensures engine.Valid() && engine.Same(true, old(engine.Bases())[i := None])
    ensures Enumerates(part, Swept(old(engine.Bases())[i].value, capturedAt))
    ensures Happened(old(engine.Contents()), before + during + after, victims, engine.Contents(), engine.sizeOf)
  {
    ghost var start := engine.Contents();
    part, victims := CopyShard(engine, i, capturedAt, before);
    victims := ServeThen(engine, during, start, before, victims);
    engine.FinishSnapshotShard(i);
    victims := ServeThen(engine, after, start, before + during, victims);
  }

  method FrozenBase(engine: Engine, i: nat) returns (base: Contents)
    requires i < |engine.shards| && engine.Bases()[i].Some?
    ensures engine.Bases()[i] == Some(base)
  {
    base := engine.shards[i].data.base;
  }

  /** Lists the live entries of the frozen base. */
  method CopyShard(engine: Engine, i: nat, capturedAt: nat, before: seq<LiveOp>)
    returns (part: seq<(Bytes, Entry)>, ghost victims: seq<Victims>)
    requires engine.Valid() && engine.snapshotActive && i < |engine.shards| && engine.Bases()[i].Some?
    modifies engine.Repr
    ensures engine.Valid() && engine.Same(true, old(engine.Bases()))
    ensures Enumerates(part, Swept(old(engine.Bases())[i].value, capturedAt))
    ensures Happened(old(engine.Contents()), before, victims, engine.Contents(), engine.sizeOf)
  {
    victims := Serve(engine, before);
    var base := FrozenBase(engine, i);
    part := VisitPart(base.Keys, Swept(base, capturedAt));
  }

  lemma FrozenStep(captured: seq<Contents>, i: nat)
    requires i < |captured|
    ensures Frozen(captured, i)[i] == Some(captured[i])
    ensures Frozen(captured, i)[i := None] == Frozen(captured, i + 1)
  {
  }

  /** The state of a materialisation that has handled the first i shards. */
  ghost predicate Progress(engine: Engine, captured: seq<Contents>, capturedAt: nat, ops: seq<LiveOp>, victims: seq<Victims>,
                           start: Contents, i: nat, entries: seq<(Bytes, Entry)>)
    reads engine, engine.Repr, engine.shards, engine.total
  {
    && engine.Valid() && engine.Same(true, Frozen(captured, i))
    && |captured| == |engine.shards| && i <= |captured| && Routed(captured, engine.hash)
    && Gathered(entries, captured, i, capturedAt)
    && Happened(start, ops, victims, engine.Contents(), engine.sizeOf)
  }

  method MaterializeNext(engine: Engine, ghost captured: seq<Contents>, capturedAt: nat, interference: nat -> seq<LiveOp>,
                         ghost start: Contents, ghost victims: seq<Victims>, i: nat, entries: seq<(Bytes, Entry)>)
    returns (extended: seq<(Bytes, Entry)>, ghost victims': seq<Victims>)
    requires Progress(engine, captured, capturedAt, Served(interference, 3 * i), victims, start, i, entries) && i < |captured|
    modifies engine.Repr
    ensures Progress(engine, captured, capturedAt, Served(interference, 3 * (i + 1)), victims', start, i + 1, extended)
  {
    var before, during, after := interference(3 * i), interference(3 * i + 1), interference(3 * i + 2);
    ghost var ops, middle := Served(interference, 3 * i), engine.Contents();
    FrozenStep(captured, i);
    var part;
    ghost var chosen;
    part, chosen := MaterializeShard(engine, i, capturedAt, before, during, after);
    ServedRound(interference, i);
    HappenedThen(start, ops, victims, middle, before + during + after, chosen, engine.Contents(), engine.sizeOf);
    GatherNext(entries, part, captured, i, capturedAt, engine.hash);
    extended, victims' := entries + part, victims + chosen;
  }

  /** Materialises the captured state: every entry that was present at capture
      and live at `capturedAt`, exactly once, whatever the clients did meanwhile. */
  method IntoEntries(engine: Engine, ghost captured: seq<Contents>, capturedAt: nat, interference: nat -> seq<LiveOp>)
    returns (entries: seq<(Bytes, Entry)>, ghost victims: seq<Victims>)
    requires engine.Valid() && engine.snapshotActive
    requires |captured| == |engine.shards| && Routed(captured, engine.hash) && engine.Bases() == Frozen(captured, 0)
    modifies engine.Repr
    ensures engine.Valid() && !engine.snapshotActive
    ensures Enumerates(entries, Swept(Merged(captured), capturedAt))
    ensures Happened(old(engine.Contents()), Served(interference, 3 * |engine.shards|), victims, engine.Contents(), engine.sizeOf)
  {
    ghost var start := engine.Contents();
    entries, victims := [], [];
    var i := 0;
    while i < |engine.shards|
      invariant 0 <= i <= |engine.shards|
      invariant Progress(engine, captured, capturedAt, Served(interference, 3 * i), victims, start, i, entries)
    {
      entries, victims := MaterializeNext(engine, captured, capturedAt, interference, start, victims, i, entries);
      i := i + 1;
    }
    GatherAll(entries, captured, capturedAt, engine.hash);
    engine.FinishSnapshot();
  }

  /** Capture and materialisation together, with clients before and during. */
  method TakeSnapshot(engine: Engine, capturedAt: nat, first: seq<LiveOp>, interference: nat -> seq<LiveOp>)
    returns (entries: seq<(Bytes, Entry)>, ghost victims: seq<Victims>)
    requires engine.Valid() && !engine.snapshotActive
    modifies engine.Repr
    ensures engine.Valid() && !engine.snapshotActive
    ensures Enumerates(entries, Swept(old(engine.Contents()), capturedAt))
    ensures Happened(old(engine.Contents()), first + Served(interference, 3 * |engine.shards|), victims, engine.Contents(), engine.sizeOf)
  {
    ghost var start := engine.Contents();
    ghost var captured := engine.BeginSnapshot();
    ghost var early := Serve(engine, first);
    ghost var middle := engine.Contents();
    ghost var late;
    entries, late := IntoEntries(engine, captured, capturedAt, interference);
    HappenedThen(start, first, early, middle, Served(interference, 3 * |engine.shards|), late, engine.Contents(), engine.sizeOf);
    victims := early + late;
  }

  /** What an operation on one or two keys leaves at each key; the others, and what
      is not named here, are as the engine states them. */
  lemma OperationLeaves(m: Contents, op: LiveOp, victims: Victims, k: Bytes)
    requires op.Store? || op.StoreIf? || op.StoreAbsent? || op.Erase? || op.Move? || op.Duplicate?
    ensures var r := Lookup(Performed(m, op, victims), k);
      match op
      case Store(key, entry, now) => r == if k == key then Live(Some(entry), now) else Lookup(m, k)
      case StoreIf(key, value, expiresAt, condition, now) =>
        var live := Live(Lookup(m, key), now);
        r == if k != key then Lookup(m, k)
             else if (condition == Some(true) && live != None) || (condition == Some(false) && live == None) then live
             else Some(Entry(value, expiresAt, now, now))
      case StoreAbsent(key, value, now) =>
        var live := Live(Lookup(m, key), now);
        r == if k != key then Lookup(m, k) else if live != None then live else Some(Entry(value, None, now, now))
      case Erase(key, now) => r == if k == key then None else Lookup(m, k)
      case Move(from, to, now) =>
        var live := Live(Lookup(m, from), now);
        r == if k == to && live != None then live else if k == from then None else Lookup(m, k)
      case Duplicate(from, to, now) =>
        var live := Live(Lookup(m, from), now);
        r == if k == from then live
             else if k == to && live != None then Some(Entry(live.value.value, live.value.expiresAt, now, now))
             else Lookup(m, k)
      case _ => true
  {
  }
}
