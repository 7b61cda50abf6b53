/** Entries, committed effects and the persistent view of the store.

Two states are compared only through the value and expiry of the entries that
are live at some instant: `last_accessed` and `created_at` are bookkeeping, and
an expired entry is absent whether or not it has been swept yet.
*/
module Model {
  const MAX_KEYS: nat := 1_000_000

  type Byte = b: int | 0 <= b < 256
  type Word32 = n: nat | n < 0x1_0000_0000
  type Word64 = n: nat | n < 0x1_0000_0000_0000_0000
  type Int64 = n: int | -0x8000_0000_0000_0000 <= n < 0x8000_0000_0000_0000
  type Bytes = seq<Byte>

  datatype Option<+T> = None | Some(value: T)

  /** Floats and vector components are kept as their IEEE bit patterns; a JSON
      document is kept as its canonical text. */
  datatype Value =
    | Blob(blob: Bytes)
    | Int(n: Int64)
    | Float(bits: Word64)
    | List(items: seq<Bytes>)
    | Hash(fields: map<Bytes, Bytes>)
    | Set(members: set<Bytes>)
    | Json(text: Bytes)
    | Vector(components: seq<Word32>)

  datatype Entry = Entry(value: Value, expiresAt: Option<Word64>, createdAt: nat, lastAccessed: nat)

  datatype PersistentEntry = PersistentEntry(value: Value, expiresAt: Option<Word64>)

  datatype Effect =
    | Put(key: Bytes, entry: PersistentEntry)
    | Delete(key: Bytes)

  type Batch = seq<Effect>

  /** Zero is the wire form of "no expiry", so no entry may expire at zero. */
  predicate ExpirySafe(effect: Effect) {
    effect.Put? ==> effect.entry.expiresAt != Some(0)
  }

  predicate ExpiriesSafe(batch: Batch) {
    forall i :: 0 <= i < |batch| ==> ExpirySafe(batch[i])
  }

  type Contents = map<Bytes, Entry>
  type View = map<Bytes, PersistentEntry>

  function Persist(e: Entry): PersistentEntry {
    PersistentEntry(e.value, e.expiresAt)
  }

  function PersistOption(e: Option<Entry>): Option<PersistentEntry> {
    if e.Some? then Some(Persist(e.value)) else None
  }

  predicate Unexpired(expiresAt: Option<Word64>, now: nat) {
    expiresAt.None? || now < expiresAt.value
  }

  function Lookup<V>(m: map<Bytes, V>, key: Bytes): Option<V> {
    if key in m then Some(m[key]) else None
  }

  /** The entries of a view that are still live at `now`. */
  function Alive(v: View, now: nat): View {
    map k | k in v && Unexpired(v[k].expiresAt, now) :: v[k]
  }

  /** What the store persistently holds at `now`. */
  function Visible(m: Contents, now: nat): View {
    map k | k in m && Unexpired(m[k].expiresAt, now) :: Persist(m[k])
  }

  // ---- Folding committed effects ----

  function ApplyEffect(v: View, effect: Effect): View {
    match effect
    case Put(key, entry) => v[key := entry]
    case Delete(key) => v - {key}
  }

  function ApplyBatch(v: View, batch: Batch): View {
    if batch == [] then v else ApplyEffect(ApplyBatch(v, batch[..|batch| - 1]), batch[|batch| - 1])
  }

  /** The state after a history of committed batches: the one meaning that live
      state, recovery and replicas have to agree on. */
  function ApplyAll(v: View, batches: seq<Batch>): View {
    if batches == [] then v else ApplyBatch(ApplyAll(v, batches[..|batches| - 1]), batches[|batches| - 1])
  }

  lemma AliveTwice(v: View, earlier: nat, later: nat)
    requires earlier <= later
    ensures Alive(Alive(v, earlier), later) == Alive(v, later)
  {
  }

  lemma VisibleLater(m: Contents, earlier: nat, later: nat)
    requires earlier <= later
    ensures Alive(Visible(m, earlier), later) == Visible(m, later)
  {
  }

  lemma SameAliveLater(a: View, b: View, earlier: nat, later: nat)
    requires earlier <= later
    requires Alive(a, earlier) == Alive(b, earlier)
    ensures Alive(a, later) == Alive(b, later)
  {
    AliveTwice(a, earlier, later);
    AliveTwice(b, earlier, later);
  }

  /** Contents that show the same state keep doing so as time passes. */
  lemma SameVisibleLater(a: Contents, b: Contents, earlier: nat, later: nat)
    requires earlier <= later
    requires Visible(a, earlier) == Visible(b, earlier)
    ensures Visible(a, later) == Visible(b, later)
  {
    VisibleLater(a, earlier, later);
    VisibleLater(b, earlier, later);
  }

  /** Live results depend only on what was live before the effect. */
  lemma ApplyEffectAlive(a: View, b: View, effect: Effect, now: nat)
    requires Alive(a, now) == Alive(b, now)
    ensures Alive(ApplyEffect(a, effect), now) == Alive(ApplyEffect(b, effect), now)
  {
    forall k
      ensures Lookup(Alive(ApplyEffect(a, effect), now), k) == Lookup(Alive(ApplyEffect(b, effect), now), k)
    {
      assert Lookup(Alive(a, now), k) == Lookup(Alive(b, now), k);
    }
    SameLookups(Alive(ApplyEffect(a, effect), now), Alive(ApplyEffect(b, effect), now));
  }

  lemma SameLookups<V>(a: map<Bytes, V>, b: map<Bytes, V>)
    requires forall k :: Lookup(a, k) == Lookup(b, k)
    ensures a == b
  {
    forall k ensures k in a <==> k in b {
      assert Lookup(a, k) == Lookup(b, k);
    }
    forall k | k in a ensures a[k] == b[k] {
      assert Lookup(a, k) == Lookup(b, k);
    }
  }

  lemma {:induction false} ApplyBatchAlive(a: View, b: View, batch: Batch, now: nat)
    requires Alive(a, now) == Alive(b, now)
    ensures Alive(ApplyBatch(a, batch), now) == Alive(ApplyBatch(b, batch), now)
  {
    if batch != [] {
      var front := batch[..|batch| - 1];
      ApplyBatchAlive(a, b, front, now);
      ApplyEffectAlive(ApplyBatch(a, front), ApplyBatch(b, front), batch[|batch| - 1], now);
    }
  }

  /** Two states that agree on their live entries still agree after any history
      of committed batches: expired entries never influence the fold. */
  lemma {:induction false} ApplyAllAlive(a: View, b: View, batches: seq<Batch>, now: nat)
    requires Alive(a, now) == Alive(b, now)
    ensures Alive(ApplyAll(a, batches), now) == Alive(ApplyAll(b, batches), now)
  {
    if batches != [] {
      var front := batches[..|batches| - 1];
      ApplyAllAlive(a, b, front, now);
      ApplyBatchAlive(ApplyAll(a, front), ApplyAll(b, front), batches[|batches| - 1], now);
    }
  }

  lemma {:induction false} ApplyAllConcat(v: View, first: seq<Batch>, second: seq<Batch>)
    ensures ApplyAll(v, first + second) == ApplyAll(ApplyAll(v, first), second)
  {
    if second == [] {
      assert first + second == first;
    } else {
      var front := second[..|second| - 1];
      ApplyAllConcat(v, first, front);
      assert (first + second)[..|first + second| - 1] == first + front;
    }
  }

  lemma {:induction false} ApplyBatchConcat(v: View, first: Batch, second: Batch)
    ensures ApplyBatch(v, first + second) == ApplyBatch(ApplyBatch(v, first), second)
  {
    if second == [] {
      assert first + second == first;
    } else {
      var front := second[..|second| - 1];
      ApplyBatchConcat(v, first, front);
      assert (first + second)[..|first + second| - 1] == first + front;
    }
  }

  // ---- What liveness and the fold mean, key by key ----

  /** An entry is visible exactly until its expiry is reached, with its value and
      expiry and nothing else. */
  lemma VisibleIff(m: Contents, key: Bytes, now: nat)
    ensures key in Visible(m, now) <==>
      key in m && (m[key].expiresAt == None || (m[key].expiresAt.Some? && now < m[key].expiresAt.value))
    ensures key in Visible(m, now) ==> Visible(m, now)[key] == PersistentEntry(m[key].value, m[key].expiresAt)
  {
  }

  /** The last effect on a key decides what it holds; a key without one keeps what
      it held. */
  lemma {:induction false} LastEffectWins(v: View, batch: Batch, key: Bytes)
    ensures (forall i :: 0 <= i < |batch| ==> batch[i].key != key) ==> Lookup(ApplyBatch(v, batch), key) == Lookup(v, key)
    ensures forall i :: 0 <= i < |batch| && batch[i].key == key && (forall j :: i < j < |batch| ==> batch[j].key != key) ==>
      match batch[i]
      case Put(_, entry) => key in ApplyBatch(v, batch) && ApplyBatch(v, batch)[key] == entry
      case Delete(_) => key !in ApplyBatch(v, batch)
  {
    if batch != [] {
      var n := |batch| - 1;
      var front := batch[..n];
      LastEffectWins(v, front, key);
      assert forall i | 0 <= i < n :: front[i] == batch[i];
      if batch[n].key != key {
        assert Lookup(ApplyBatch(v, batch), key) == Lookup(ApplyBatch(v, front), key);
      }
    }
  }
}
