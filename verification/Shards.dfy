/** One shard of the engine: a flat map, or a copy-on-write overlay over the
immutable base of an active snapshot, with exact size and key counters. */
module Shards {
  import opened Model

  /** The map a shard shows to its callers, whatever its representation. */
  datatype ShardData =
    | Flat(data: Contents)
    | Overlay(base: Contents, changes: map<Bytes, Option<Entry>>)
  {
    function View(): Contents {
      match this
      case Flat(data) => data
      case Overlay(base, changes) =>
        map k | k in base.Keys + changes.Keys && (k in changes ==> changes[k].Some?)
          :: if k in changes then changes[k].value else base[k]
    }

    /** The frozen map that a snapshot of this shard reads. */
    function Base(): Option<Contents> {
      match this
      case Flat(_) => None
      case Overlay(base, _) => Some(base)
    }

    function Get(key: Bytes): (r: Option<Entry>)
      ensures r == Lookup(View(), key)
    {
      match this
      case Flat(data) => Lookup(data, key)
      case Overlay(base, changes) => if key in changes then changes[key] else Lookup(base, key)
    }

    /** Makes an entry writable in place: the overlay first copies it out of the base. */
    function Expose(key: Bytes): (r: ShardData)
      ensures r.View() == View()
      ensures r.Base() == Base()
      ensures r.Overlay? ==> key in r.changes
    {
      match this
      case Flat(_) => this
      case Overlay(base, changes) =>
        if key in changes then this else Overlay(base, changes[key := Lookup(base, key)])
    }

    function Insert(key: Bytes, entry: Entry): (r: (ShardData, Option<Entry>))
      ensures r.0.View() == View()[key := entry]
      ensures r.1 == Lookup(View(), key)
      ensures r.0.Base() == Base()
    {
      match this
      case Flat(data) => (Flat(data[key := entry]), Lookup(data, key))
      case Overlay(base, changes) =>
        var previous := if key in changes then changes[key] else Lookup(base, key);
        (Overlay(base, changes[key := Some(entry)]), previous)
    }

    /** Overwrites an entry through the reference that `Expose` hands out. */
    function Write(key: Bytes, entry: Entry): (r: ShardData)
      ensures r.View() == View()[key := entry]
      ensures r.Base() == Base()
    {
      Expose(key).Insert(key, entry).0
    }

    function Remove(key: Bytes): (r: (ShardData, Option<Entry>))
      ensures r.0.View() == View() - {key}
      ensures r.1 == Lookup(View(), key)
      ensures r.0.Base() == Base()
    {
      match this
      case Flat(data) => (Flat(data - {key}), Lookup(data, key))
      case Overlay(base, changes) =>
        var previous := if key in changes then changes[key] else Lookup(base, key);
        (if previous.Some? then Overlay(base, changes[key := None]) else this, previous)
    }
  }

  /** `items` lists every entry of `m` exactly once. */
  ghost predicate Enumerates(items: seq<(Bytes, Entry)>, m: Contents) {
    && (forall i :: 0 <= i < |items| ==> items[i].0 in m && m[items[i].0] == items[i].1)
    && (forall k :: k in m ==> (k, m[k]) in items)
    && DistinctKeys(items)
  }

  ghost predicate DistinctKeys(items: seq<(Bytes, Entry)>) {
    forall i, j :: 0 <= i < j < |items| ==> items[i].0 != items[j].0
  }

  lemma {:induction false} EnumerationLength(items: seq<(Bytes, Entry)>, m: Contents)
    requires Enumerates(items, m)
    ensures |items| == |m|
  {
    if |items| == 0 {
      assert m == map[];
    } else {
      var n := |items| - 1;
      var k := items[n].0;
      EnumerationFront(items, m);
      EnumerationLength(items[..n], m - {k});
      assert m.Keys == (m - {k}).Keys + {k};
    }
  }

  lemma EnumerationFront(items: seq<(Bytes, Entry)>, m: Contents)
    requires Enumerates(items, m) && items != []
    ensures Enumerates(items[..|items| - 1], m - {items[|items| - 1].0})
  {
    var n := |items| - 1;
    var front, rest := items[..n], m - {items[n].0};
    forall i | 0 <= i < |front| ensures front[i].0 in rest && rest[front[i].0] == front[i].1 {
      assert front[i] == items[i];
    }
    forall k | k in rest ensures (k, rest[k]) in front {
      assert (k, m[k]) in items;
      var i :| 0 <= i < |items| && items[i] == (k, m[k]);
      assert front[i] == (k, rest[k]);
    }
  }

  /** One step of an iteration over a set of keys. */
  function Without(pending: set<Bytes>, key: Bytes): (rest: set<Bytes>)
    requires key in pending
    ensures |rest| == |pending| - 1
    ensures rest == pending - {key}
  {
    pending - {key}
  }

  /** Lists the part of a hash map that a filter keeps; hash maps fix no order. */
  method VisitPart(keys: set<Bytes>, part: Contents) returns (items: seq<(Bytes, Entry)>)
    requires part.Keys <= keys
    ensures Enumerates(items, part)
  {
    items := [];
    var pending := keys;
    while pending != {}
      invariant pending <= keys
      invariant forall i :: 0 <= i < |items| ==> items[i].0 in part && part[items[i].0] == items[i].1
      invariant forall i :: 0 <= i < |items| ==> items[i].0 !in pending
      invariant forall k :: k in part && k !in pending ==> (k, part[k]) in items
      invariant DistinctKeys(items)
      decreases |pending|
    {
      var key :| key in pending;
      if key in part {
        items := items + [(key, part[key])];
      }
      pending := Without(pending, key);
    }
  }

  /** Visits the changed entries first and then the untouched part of the base. */
  method Visit(data: ShardData) returns (items: seq<(Bytes, Entry)>)
    ensures Enumerates(items, data.View())
  {
    match data {
      case Flat(d) =>
        items := VisitPart(d.Keys, d);
      case Overlay(base, changes) =>
        var changed := map k | k in changes && changes[k].Some? :: changes[k].value;
        var untouched := map k | k in base && k !in changes :: base[k];
        var first := VisitPart(changes.Keys, changed);
        var second := VisitPart(base.Keys, untouched);
        items := first + second;
        EnumerateDisjoint(first, changed, second, untouched);
        ViewParts(base, changes);
    }
  }

  lemma ViewParts(base: Contents, changes: map<Bytes, Option<Entry>>)
    ensures Overlay(base, changes).View()
         == (map k | k in changes && changes[k].Some? :: changes[k].value) + (map k | k in base && k !in changes :: base[k])
  {
  }

  lemma EnumerateDisjoint(first: seq<(Bytes, Entry)>, a: Contents, second: seq<(Bytes, Entry)>, b: Contents)
    requires Enumerates(first, a) && Enumerates(second, b) && a.Keys !! b.Keys
    ensures Enumerates(first + second, a + b)
  {
    var items, m := first + second, a + b;
    forall i | 0 <= i < |items| ensures items[i].0 in m && m[items[i].0] == items[i].1 {
      assert items[i] == if i < |first| then first[i] else second[i - |first|];
    }
    forall k | k in m ensures (k, m[k]) in items {
      if k in b { assert (k, b[k]) in second; } else { assert (k, a[k]) in first; }
    }
  }

  /** The map with the slot of one key set to `change`. */
  function Amend(data: Contents, key: Bytes, change: Option<Entry>): Contents {
    if change.Some? then data[key := change.value] else data - {key}
  }

  lemma AmendTwice(data: Contents, key: Bytes, first: Option<Entry>, second: Option<Entry>)
    ensures Amend(Amend(data, key, first), key, second) == Amend(data, key, second)
    ensures Lookup(Amend(data, key, first), key) == first
    ensures Amend(data, key, Lookup(data, key)) == data
  {
  }

  /** `data` is `base` with the changes to `settled` keys folded in. */
  ghost predicate Folded(data: Contents, base: Contents, changes: map<Bytes, Option<Entry>>, settled: set<Bytes>) {
    && settled <= changes.Keys
    && (forall k :: k in settled ==> Lookup(data, k) == changes[k])
    && (forall k :: k !in settled ==> Lookup(data, k) == Lookup(base, k))
  }

  lemma FoldedStep(data: Contents, base: Contents, changes: map<Bytes, Option<Entry>>, settled: set<Bytes>, key: Bytes)
    requires Folded(data, base, changes, settled) && key in changes
    ensures Folded(Amend(data, key, changes[key]), base, changes, settled + {key})
  {
  }

  lemma FoldedIsView(data: Contents, base: Contents, changes: map<Bytes, Option<Entry>>)
    requires Folded(data, base, changes, changes.Keys)
    ensures data == Overlay(base, changes).View()
  {
    var view := Overlay(base, changes).View();
    forall k ensures Lookup(data, k) == Lookup(view, k) {
      assert Overlay(base, changes).Get(k) == Lookup(view, k);
    }
    SameLookups(data, view);
  }

  /** Folds the delta of a finished snapshot back into the base map. */
  method FoldDelta(base: Contents, changes: map<Bytes, Option<Entry>>) returns (data: Contents)
    ensures data == Overlay(base, changes).View()
  {
    data := base;
    var pending := changes.Keys;
    while pending != {}
      invariant pending <= changes.Keys
      invariant Folded(data, base, changes, changes.Keys - pending)
      decreases |pending|
    {
      var key :| key in pending;
      FoldedStep(data, base, changes, changes.Keys - pending, key);
      assert changes.Keys - pending + {key} == changes.Keys - Without(pending, key);
      data := Amend(data, key, changes[key]);
      pending := Without(pending, key);
    }
    assert changes.Keys - pending == changes.Keys;
    FoldedIsView(data, base, changes);
  }

  // ---- Exact accounting ----

  /** The logical size of an entry: a function of its key and value only. */
  type Sizer = (Bytes, Value) -> nat

  ghost function TotalSize(m: Contents, sizeOf: Sizer): nat
    decreases |m|
  {
    if m == map[] then 0
    else
      var k :| k in m;
      assert |m - {k}| < |m| by { assert m.Keys == (m - {k}).Keys + {k}; }
      sizeOf(k, m[k].value) + TotalSize(m - {k}, sizeOf)
  }

  lemma {:induction false} TotalSizeRemove(m: Contents, key: Bytes, sizeOf: Sizer)
    requires key in m
    ensures TotalSize(m, sizeOf) == sizeOf(key, m[key].value) + TotalSize(m - {key}, sizeOf)
    decreases |m|
  {
    var k :| k in m && TotalSize(m, sizeOf) == sizeOf(k, m[k].value) + TotalSize(m - {k}, sizeOf);
    if k != key {
      assert m.Keys == (m - {k}).Keys + {k};
      TotalSizeRemove(m - {k}, key, sizeOf);
      assert m.Keys == (m - {key}).Keys + {key};
      TotalSizeRemove(m - {key}, k, sizeOf);
      assert m - {k} - {key} == m - {key} - {k};
    }
  }

  ghost predicate Within(part: Contents, m: Contents) {
    forall k :: k in part ==> k in m && m[k] == part[k]
  }

  /** A part of a dataset is no larger than the whole. */
  lemma {:induction false} TotalSizeWithin(part: Contents, m: Contents, sizeOf: Sizer)
    requires Within(part, m)
    ensures TotalSize(part, sizeOf) <= TotalSize(m, sizeOf)
    decreases |part|
  {
    if part != map[] {
      var k :| k in part;
      RemoveCardinality(part, k);
      TotalSizeWithin(part - {k}, m - {k}, sizeOf);
      TotalSizeRemove(part, k, sizeOf);
      TotalSizeRemove(m, k, sizeOf);
    }
  }

  lemma RemoveCardinality(m: Contents, key: Bytes)
    ensures |m - {key}| == if key in m then |m| - 1 else |m|
  {
    if key in m {
      assert m.Keys == (m - {key}).Keys + {key};
    } else {
      assert m - {key} == m;
    }
  }

  /** What storing one entry does to both counters. */
  lemma InsertAccounting(m: Contents, key: Bytes, entry: Entry, sizeOf: Sizer)
    ensures key in m ==> TotalSize(m, sizeOf) >= sizeOf(key, m[key].value)
    ensures TotalSize(m[key := entry], sizeOf)
         == TotalSize(m, sizeOf) - (if key in m then sizeOf(key, m[key].value) else 0) + sizeOf(key, entry.value)
    ensures |m[key := entry]| == |m| + if key in m then 0 else 1
  {
    var updated := m[key := entry];
    assert updated - {key} == m - {key};
    TotalSizeRemove(updated, key, sizeOf);
    RemoveCardinality(updated, key);
    RemoveCardinality(m, key);
    if key in m {
      TotalSizeRemove(m, key, sizeOf);
    } else {
      assert m - {key} == m;
    }
  }

  /** What removing one key does to both counters. */
  lemma RemoveAccounting(m: Contents, key: Bytes, sizeOf: Sizer)
    ensures key !in m ==> m - {key} == m
    ensures key in m ==>
      && TotalSize(m - {key}, sizeOf) == TotalSize(m, sizeOf) - sizeOf(key, m[key].value)
      && |m - {key}| == |m| - 1
  {
    RemoveCardinality(m, key);
    if key in m {
      TotalSizeRemove(m, key, sizeOf);
    }
  }
}
