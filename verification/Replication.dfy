/** Master and replica as one step system: group commits published batch by batch,
subscription before capture, partial and full synchronization, live streaming,
lag, lost connections, and restarts of either side. */
module Replication {
  import opened Model
  import opened Backlog
  import opened KeyLimit

  const BROADCAST_CAPACITY: nat := 4096

  datatype Message =
    | Continue(replid: nat, offset: nat)
    | FullResync(replid: nat, offset: nat, count: nat)
    | Item(key: Bytes, entry: PersistentEntry)
    | SyncDone(replid: nat, offset: nat)
    | Effects(sequence: nat, batch: Batch)

  /** `pushed` batches are in the backlog's reach and `published` have been
      broadcast; both trail the history only while the commit gate is held. */
  datatype Master = Master(replid: nat, gate: bool, backlog: seq<Retained>, pushed: nat, published: nat)

  /** What a synchronization starts with. */
  datatype Opening =
    | Partial(from: nat, upTo: nat)
    | Full(at: nat, entries: seq<(Bytes, PersistentEntry)>)

  /** The serving side of one connection. `received` counts the broadcasts that the
      subscription has consumed or predates, and `delivered` the messages that the
      replica has handled. */
  datatype Session =
    | Closed
    | Requested(replid: nat, offset: nat)
    | Subscribed(replid: nat, offset: nat, received: nat)
    | NeedsFull(received: nat)
    | Streaming(received: nat, opening: Opening, queue: seq<Message>, lastSent: nat, delivered: nat)

  datatype Receiving =
    | Disconnected
    | Waiting(knownReplid: nat, startingOffset: nat)
    | TakingEntries(replid: nat, sequence: nat, remaining: nat, staging: View)
    | TakingEffects(replid: nat)
    | Live

  /** `sequence` is the durable sequence that effects are checked against; `replid`
      and `offset` are what the next request will present. */
  datatype Replica = Replica(replid: nat, offset: nat, ready: bool, sequence: nat, baseline: nat, contents: View, receiving: Receiving)

  /** `histories` keeps, for every master identity, the batches it has accepted. */
  datatype System = System(now: nat, histories: map<nat, seq<Batch>>, master: Master, session: Session, link: seq<Message>, replica: Replica)

  function HistoryOf(s: System): seq<Batch> {
    if s.master.replid in s.histories then s.histories[s.master.replid] else []
  }

  function StateOf(h: seq<Batch>, n: nat): View
    requires n <= |h|
  {
    ApplyAll(map[], h[..n])
  }

  // ---- The replica's reaction to one message ----

  /** None is an error: the connection is dropped. */
  function Handle(r: Replica, m: Message): Option<Replica> {
    match r.receiving
    case Disconnected => None
    case Waiting(known, starting) => (
      match m
      case Continue(replid, offset) =>
        if replid == 0 || replid != known || offset != starting then None
        else Some(r.(receiving := TakingEffects(replid)))
      case FullResync(replid, offset, count) =>
        if replid == 0 || count > MAX_KEYS then None
        else Some(r.(ready := false, replid := 0, offset := 0, receiving := TakingEntries(replid, offset, count, map[])))
      case _ => None)
    case TakingEntries(replid, sequence, remaining, staging) => (
      if remaining > 0 then
        if m.Item? && m.key !in staging
        then Some(r.(receiving := TakingEntries(replid, sequence, remaining - 1, staging[m.key := m.entry])))
        else None
      else if m.SyncDone? && m.replid == replid && m.offset == sequence
      then Some(r.(replid := replid, offset := sequence, ready := true, sequence := sequence, baseline := sequence,
                   contents := staging, receiving := Live))
      else None)
    case TakingEffects(replid) => (
      match m
      case SyncDone(done, offset) =>
        if done == replid && offset == r.offset then Some(r.(receiving := Live)) else None
      case Effects(sequence, batch) => Installed(r, sequence, batch)
      case _ => None)
    case Live => (
      match m
      case Effects(sequence, batch) => Installed(r, sequence, batch)
      case _ => None)
  }

  /** An effect is installed only on a ready baseline and only in sequence. */
  function Installed(r: Replica, sequence: nat, batch: Batch): Option<Replica> {
    if !r.ready || sequence != r.sequence + 1 then None
    else Some(r.(offset := sequence, sequence := sequence, contents := ApplyBatch(r.contents, batch)))
  }

  // ---- Messages of an opening ----

  function EffectsOf(h: seq<Batch>, lo: nat, hi: nat): (r: seq<Message>)
    requires lo <= hi <= |h|
    ensures |r| == hi - lo && forall i :: 0 <= i < hi - lo ==> r[i] == Effects(lo + i + 1, h[lo + i])
  {
    seq(hi - lo, i requires 0 <= i < hi - lo => Effects(lo + i + 1, h[lo + i]))
  }

  function ItemsOf(entries: seq<(Bytes, PersistentEntry)>): (r: seq<Message>)
    ensures |r| == |entries| && forall i :: 0 <= i < |entries| ==> r[i] == Item(entries[i].0, entries[i].1)
  {
    seq(|entries|, i requires 0 <= i < |entries| => Item(entries[i].0, entries[i].1))
  }

  function RetainedMessages(retained: seq<Retained>): (r: seq<Message>)
    ensures |r| == |retained| && forall i :: 0 <= i < |retained| ==> r[i] == Effects(retained[i].sequence, retained[i].batch)
  {
    seq(|retained|, i requires 0 <= i < |retained| => Effects(retained[i].sequence, retained[i].batch))
  }

  function Staged(entries: seq<(Bytes, PersistentEntry)>): View {
    if entries == [] then map[]
    else Staged(entries[..|entries| - 1])[entries[|entries| - 1].0 := entries[|entries| - 1].1]
  }

  predicate DistinctEntries(entries: seq<(Bytes, PersistentEntry)>) {
    forall i, j :: 0 <= i < j < |entries| ==> entries[i].0 != entries[j].0
  }

  // ---- Steps ----

  datatype Step =
    | Accept(batches: seq<Batch>)
    | Push
    | Publish
    | Release
    | Connect
    | Subscribe
    | Decide
    | CaptureFull(entries: seq<(Bytes, PersistentEntry)>)
    | Send
    | Stream
    | Deliver
    | Disconnect
    | Compact(watermark: nat)
    | RestartReplica(survived: nat, identity: bool, contents: View)
    | RestartMaster(replid: nat, survived: nat)
    | Tick(seconds: nat)

  predicate SameIdentity(m: Master, replid: nat, offset: nat) {
    replid != 0 && replid == m.replid && offset > 0
  }

  /** The missing batches are offered when the identity matches and the backlog
      still reaches back to the requested offset. */
  predicate Offers(m: Master, sequence: nat, replid: nat, offset: nat) {
    SameIdentity(m, replid, offset) && PartialResyncPossible(offset, OldestOf(m.backlog), sequence)
  }

  ghost predicate Enabled(s: System, step: Step) {
    var h := HistoryOf(s);
    match step
    case Accept(batches) => !s.master.gate && batches != []
    case Push => s.master.gate && s.master.pushed < |h|
    case Publish => s.master.gate && s.master.pushed == |h| && s.master.published < |h|
    case Release => s.master.gate && s.master.published == |h|
    case Connect => s.session.Closed? && s.replica.receiving.Disconnected?
    case Subscribe => s.session.Requested?
    case Decide => s.session.Subscribed? && (s.master.gate ==> !SameIdentity(s.master, s.session.replid, s.session.offset))
    case CaptureFull(entries) => s.session.NeedsFull? && !s.master.gate && DistinctEntries(entries)
      && Staged(entries) == Alive(StateOf(h, |h|), s.now)
    case Send => s.session.Streaming? && s.session.queue != []
    case Stream => s.session.Streaming? && s.session.queue == []
      && s.session.received < s.master.published <= s.session.received + BROADCAST_CAPACITY && s.session.received < |h|
    case Deliver => s.link != []
    case Disconnect => true
    case Compact(watermark) => s.replica.ready && s.replica.baseline <= watermark <= s.replica.sequence
    case RestartReplica(survived, identity, contents) =>
      (identity ==>
         && s.replica.ready && s.replica.baseline <= survived <= s.replica.sequence && s.replica.replid in s.histories
         && survived <= |s.histories[s.replica.replid]|
         && Alive(contents, s.now) == Alive(StateOf(s.histories[s.replica.replid], survived), s.now))
    case RestartMaster(replid, survived) => replid != 0 && replid !in s.histories && survived <= |h|
    case Tick(_) => true
  }

  /** Both ends notice, at once or later: nothing of the old connection is used. */
  function Cut(s: System): System {
    s.(session := Closed, link := [], replica := s.replica.(receiving := Disconnected))
  }

  ghost function Next(s: System, step: Step): System
    requires Enabled(s, step)
  {
    var h := HistoryOf(s);
    match step
    case Accept(batches) => s.(histories := s.histories[s.master.replid := h + batches], master := s.master.(gate := true))
    case Push =>
      var n := s.master.pushed;
      s.(master := s.master.(backlog := PushOne(s.master.backlog, Retained(n + 1, h[n])), pushed := n + 1))
    case Publish => s.(master := s.master.(published := s.master.published + 1))
    case Release => s.(master := s.master.(gate := false))
    case Connect =>
      s.(session := Requested(s.replica.replid, s.replica.offset), link := [],
         replica := s.replica.(receiving := Waiting(s.replica.replid, s.replica.offset)))
    case Subscribe => s.(session := Subscribed(s.session.replid, s.session.offset, s.master.published))
    case Decide =>
      var replid, offset := s.session.replid, s.session.offset;
      if Offers(s.master, |h|, replid, offset) then
        var missing := Newer(s.master.backlog, offset);
        var last := if missing == [] then offset else missing[|missing| - 1].sequence;
        s.(session := Streaming(s.session.received, Partial(offset, last),
             [Continue(s.master.replid, offset)] + RetainedMessages(missing) + [SyncDone(s.master.replid, last)], last, 0))
      else s.(session := NeedsFull(s.session.received))
    case CaptureFull(entries) =>
      s.(session := Streaming(s.session.received, Full(|h|, entries),
           [FullResync(s.master.replid, |h|, |entries|)] + ItemsOf(entries) + [SyncDone(s.master.replid, |h|)], |h|, 0))
    case Send => s.(session := s.session.(queue := s.session.queue[1..]), link := s.link + [s.session.queue[0]])
    case Stream =>
      var next := s.session.received + 1;
      if next <= s.session.lastSent then s.(session := s.session.(received := next))
      else s.(session := s.session.(received := next, lastSent := next), link := s.link + [Effects(next, h[next - 1])])
    case Deliver =>
      var r := Handle(s.replica, s.link[0]);
      if r.None? then Cut(s)
      else
        var session := if s.session.Streaming? then s.session.(delivered := s.session.delivered + 1) else s.session;
        s.(link := s.link[1..], replica := r.value, session := session)
    case Disconnect => Cut(s)
    case Compact(watermark) => s.(replica := s.replica.(baseline := watermark))
    case RestartReplica(survived, identity, contents) =>
      var r := if identity then s.replica.(offset := survived, sequence := survived, contents := contents)
               else s.replica.(replid := 0, ready := false, offset := 0, sequence := survived, contents := contents);
      Cut(s.(replica := r))
    case RestartMaster(replid, survived) =>
      Cut(s.(histories := s.histories[replid := h[..survived]], master := Master(replid, false, [], survived, survived)))
    case Tick(seconds) => s.(now := s.now + seconds)
  }

  // ---- The invariant ----

  ghost predicate MasterOk(s: System) {
    var h := HistoryOf(s);
    && s.master.replid in s.histories && 0 !in s.histories
    && Retains(s.master.backlog, h, s.master.pushed) && s.master.published <= s.master.pushed <= |h|
    && (!s.master.gate ==> s.master.published == |h|)
  }

  /** A ready replica holds, at its offset, the state of that many batches of the
      history it names; any other replica names none. */
  ghost predicate ReplicaOk(histories: map<nat, seq<Batch>>, r: Replica, now: nat) {
    if !r.ready then r.replid == 0
    else
      && r.replid in histories && r.baseline <= r.offset == r.sequence <= |histories[r.replid]|
      && Alive(r.contents, now) == Alive(StateOf(histories[r.replid], r.sequence), now)
  }

  function EndOf(o: Opening): nat { if o.Partial? then o.upTo else o.at }

  ghost predicate OpeningOk(o: Opening, h: seq<Batch>, now: nat) {
    match o
    case Partial(from, upTo) => from <= upTo <= |h|
    case Full(at, entries) => at <= |h| && DistinctEntries(entries) && Alive(Staged(entries), now) == Alive(StateOf(h, at), now)
  }

  /** Everything one connection carries: the opening, then live effects. */
  ghost function Transcript(o: Opening, replid: nat, h: seq<Batch>, last: nat): seq<Message>
    requires EndOf(o) <= last <= |h| && (o.Partial? ==> o.from <= o.upTo)
  {
    (match o
     case Partial(from, upTo) => [Continue(replid, from)] + EffectsOf(h, from, upTo) + [SyncDone(replid, upTo)]
     case Full(at, entries) => [FullResync(replid, at, |entries|)] + ItemsOf(entries) + [SyncDone(replid, at)])
    + EffectsOf(h, EndOf(o), last)
  }

  function Size(o: Opening): nat
    requires o.Partial? ==> o.from <= o.upTo
  {
    if o.Partial? then o.upTo - o.from + 2 else |o.entries| + 2
  }

  /** Where the replica stands after handling `c` messages of the connection. */
  ghost predicate StandsAt(o: Opening, replid: nat, c: nat, r: Replica)
    requires o.Partial? ==> o.from <= o.upTo
  {
    if c >= Size(o) then
      r.receiving == Live && r.ready && r.replid == replid && r.offset == EndOf(o) + (c - Size(o))
    else match o
      case Partial(from, upTo) =>
        && r.ready && r.replid == replid
        && (if c == 0 then r.receiving == Waiting(replid, from) && r.offset == from
            else r.receiving == TakingEffects(replid) && r.offset == from + c - 1)
      case Full(at, entries) =>
        if c == 0 then r.receiving.Waiting?
        else !r.ready && r.receiving == TakingEntries(replid, at, |entries| + 1 - c, Staged(entries[..c - 1]))
  }

  /** What is under way and what is still to be sent follows what was delivered. */
  ghost predicate Carries(o: Opening, replid: nat, h: seq<Batch>, last: nat, delivered: nat, link: seq<Message>, queue: seq<Message>)
    requires EndOf(o) <= last <= |h| && (o.Partial? ==> o.from <= o.upTo)
  {
    var whole := Transcript(o, replid, h, last);
    delivered <= |whole| && link + queue == whole[delivered..]
  }

  ghost predicate SessionOk(s: System) {
    var h, r := HistoryOf(s), s.replica;
    match s.session
    case Closed => r.receiving == Disconnected && s.link == []
    case Requested(replid, offset) => r.receiving == Waiting(replid, offset) && r.replid == replid && r.offset == offset && s.link == []
    case Subscribed(replid, offset, received) =>
      r.receiving == Waiting(replid, offset) && r.replid == replid && r.offset == offset && s.link == [] && received <= s.master.published
    case NeedsFull(received) => r.receiving.Waiting? && s.link == [] && received <= s.master.published
    case Streaming(received, opening, queue, last, delivered) =>
      && OpeningOk(opening, h, s.now) && received <= last && EndOf(opening) <= last <= |h|
      && Carries(opening, s.master.replid, h, last, delivered, s.link, queue)
      && StandsAt(opening, s.master.replid, delivered, r)
  }

  ghost predicate Inv(s: System) {
    MasterOk(s) && ReplicaOk(s.histories, s.replica, s.now) && SessionOk(s)
  }

  // ---- Every step keeps the invariant ----

  predicate Extends(h: seq<Batch>, k: seq<Batch>) { |h| <= |k| && k[..|h|] == h }

  lemma StateExtends(h: seq<Batch>, k: seq<Batch>, n: nat)
    requires Extends(h, k) && n <= |h|
    ensures StateOf(k, n) == StateOf(h, n)
  {
    assert k[..n] == k[..|h|][..n] == h[..n];
  }

  lemma EffectsExtend(h: seq<Batch>, k: seq<Batch>, lo: nat, hi: nat)
    requires Extends(h, k) && lo <= hi <= |h|
    ensures EffectsOf(k, lo, hi) == EffectsOf(h, lo, hi)
  {
    forall i | 0 <= i < |h| ensures k[i] == h[i] {
      assert k[i] == k[..|h|][i];
    }
  }

  lemma TranscriptExtends(o: Opening, replid: nat, h: seq<Batch>, k: seq<Batch>, last: nat)
    requires Extends(h, k) && EndOf(o) <= last <= |h| && (o.Partial? ==> o.from <= o.upTo)
    ensures Transcript(o, replid, k, last) == Transcript(o, replid, h, last)
  {
    EffectsExtend(h, k, EndOf(o), last);
    if o.Partial? {
      EffectsExtend(h, k, o.from, o.upTo);
    }
  }

  lemma ReplicaCarries(before: map<nat, seq<Batch>>, after: map<nat, seq<Batch>>, r: Replica, now: nat, now': nat)
    requires ReplicaOk(before, r, now) && now <= now'
    requires forall id :: id in before ==> id in after && Extends(before[id], after[id])
    ensures ReplicaOk(after, r, now')
  {
    if r.ready {
      StateExtends(before[r.replid], after[r.replid], r.sequence);
      SameAliveLater(r.contents, StateOf(before[r.replid], r.sequence), now, now');
    }
  }

  lemma RetainsMore(backlog: seq<Retained>, h: seq<Batch>, k: seq<Batch>, upTo: nat)
    requires Retains(backlog, h, upTo) && Extends(h, k)
    ensures Retains(backlog, k, upTo)
  {
    forall i | 0 <= i < |h| ensures k[i] == h[i] {
      assert k[i] == k[..|h|][i];
    }
  }

  lemma OpeningCarries(o: Opening, h: seq<Batch>, k: seq<Batch>, now: nat, now': nat)
    requires OpeningOk(o, h, now) && Extends(h, k) && now <= now'
    ensures OpeningOk(o, k, now')
  {
    if o.Full? {
      StateExtends(h, k, o.at);
      SameAliveLater(Staged(o.entries), StateOf(h, o.at), now, now');
    }
  }

  /** A longer history and a later time change nothing for the session. */
  lemma SessionCarries(s: System, t: System)
    requires SessionOk(s) && s.now <= t.now && t.session == s.session && t.link == s.link && t.replica == s.replica
    requires t.master.replid == s.master.replid && s.master.published <= t.master.published
    requires Extends(HistoryOf(s), HistoryOf(t))
    ensures SessionOk(t)
  {
    if s.session.Streaming? {
      OpeningCarries(s.session.opening, HistoryOf(s), HistoryOf(t), s.now, t.now);
      TranscriptExtends(s.session.opening, s.master.replid, HistoryOf(s), HistoryOf(t), s.session.lastSent);
    }
  }

  lemma AcceptKeeps(s: System, batches: seq<Batch>)
    requires Inv(s) && Enabled(s, Accept(batches))
    ensures Inv(Next(s, Accept(batches)))
  {
    var h, t := HistoryOf(s), Next(s, Accept(batches));
    assert HistoryOf(t) == h + batches && Extends(h, h + batches);
    RetainsMore(s.master.backlog, h, h + batches, s.master.pushed);
    forall id | id in s.histories ensures id in t.histories && Extends(s.histories[id], t.histories[id]) {
    }
    ReplicaCarries(s.histories, t.histories, s.replica, s.now, t.now);
    SessionCarries(s, t);
  }

  lemma PushKeeps(s: System)
    requires Inv(s) && Enabled(s, Push)
    ensures Inv(Next(s, Push))
  {
    var h, t := HistoryOf(s), Next(s, Push);
    PushRetains(s.master.backlog, h, s.master.pushed);
    assert Extends(h, h);
    SessionCarries(s, t);
  }

  lemma GatedKeeps(s: System, step: Step)
    requires Inv(s) && (step.Publish? || step.Release?) && Enabled(s, step)
    ensures Inv(Next(s, step))
  {
    var h, t := HistoryOf(s), Next(s, step);
    assert Extends(h, h);
    SessionCarries(s, t);
  }

  lemma TickKeeps(s: System, seconds: nat)
    requires Inv(s)
    ensures Inv(Next(s, Tick(seconds)))
  {
    var t := Next(s, Tick(seconds));
    forall id | id in s.histories ensures Extends(s.histories[id], t.histories[id]) {
    }
    ReplicaCarries(s.histories, t.histories, s.replica, s.now, t.now);
    SessionCarries(s, t);
  }

  lemma HandshakeKeeps(s: System, step: Step)
    requires Inv(s) && (step.Connect? || step.Subscribe? || step.Disconnect? || step.Compact?) && Enabled(s, step)
    ensures Inv(Next(s, step))
  {
  }

  lemma CaptureKeeps(s: System, entries: seq<(Bytes, PersistentEntry)>)
    requires Inv(s) && Enabled(s, CaptureFull(entries))
    ensures Inv(Next(s, CaptureFull(entries)))
  {
    var h, t := HistoryOf(s), Next(s, CaptureFull(entries));
    AliveTwice(StateOf(h, |h|), s.now, s.now);
    assert EffectsOf(h, |h|, |h|) == [];
    var whole := Transcript(Full(|h|, entries), s.master.replid, h, |h|);
    assert t.session.queue == whole == whole[0..];
    assert [] + t.session.queue == t.session.queue;
  }

  /** What a partial resynchronization sends is the missing part of the history. */
  lemma MissingIsSent(backlog: seq<Retained>, h: seq<Batch>, offset: nat)
    requires Retains(backlog, h, |h|) && offset <= |h| && |h| - offset <= |backlog|
    ensures RetainedMessages(Newer(backlog, offset)) == EffectsOf(h, offset, |h|)
    ensures EffectsOf(h, |h|, |h|) == []
  {
    NewerIsMissing(backlog, h, offset);
  }

  lemma DecideKeeps(s: System)
    requires Inv(s) && Enabled(s, Decide)
    ensures Inv(Next(s, Decide))
  {
    var h, m, offset := HistoryOf(s), s.master, s.session.offset;
    if Offers(m, |h|, s.session.replid, offset) {
      PartialResyncIff(m.backlog, h, offset);
      MissingIsSent(m.backlog, h, offset);
      var t := Next(s, Decide);
      var whole := Transcript(Partial(offset, |h|), m.replid, h, |h|);
      assert t.session.queue == whole == whole[0..];
      assert [] + t.session.queue == t.session.queue;
    }
  }

  lemma SendKeeps(s: System)
    requires Inv(s) && Enabled(s, Send)
    ensures Inv(Next(s, Send))
  {
    var queue := s.session.queue;
    assert s.link + queue == s.link + [queue[0]] + queue[1..];
  }

  /** One more live effect at the end of the transcript. */
  lemma TranscriptGrows(o: Opening, replid: nat, h: seq<Batch>, last: nat, c: nat)
    requires EndOf(o) <= last < |h| && (o.Partial? ==> o.from <= o.upTo) && c <= |Transcript(o, replid, h, last)|
    ensures var before, after := Transcript(o, replid, h, last), Transcript(o, replid, h, last + 1);
      |before| <= |after| && after[c..] == before[c..] + [Effects(last + 1, h[last])]
  {
    var message := Effects(last + 1, h[last]);
    assert EffectsOf(h, EndOf(o), last + 1) == EffectsOf(h, EndOf(o), last) + [message];
    var before, after := Transcript(o, replid, h, last), Transcript(o, replid, h, last + 1);
    assert after == before + [message];
  }

  lemma StreamKeeps(s: System)
    requires Inv(s) && Enabled(s, Stream)
    ensures Inv(Next(s, Stream))
  {
    var h, last := HistoryOf(s), s.session.lastSent;
    var next := s.session.received + 1;
    if next > last {
      assert next == last + 1;
      OneSent(s.session.opening, s.master.replid, h, last, next, s.session.delivered, s.link, s.session.queue);
    }
  }

  lemma OneSent(o: Opening, replid: nat, h: seq<Batch>, last: nat, next: nat, c: nat, link: seq<Message>, queue: seq<Message>)
    requires EndOf(o) <= last < |h| && next == last + 1 && (o.Partial? ==> o.from <= o.upTo)
    requires Carries(o, replid, h, last, c, link, queue) && queue == []
    ensures Carries(o, replid, h, next, c, link + [Effects(next, h[last])], queue)
  {
    TranscriptGrows(o, replid, h, last, c);
    assert link + [Effects(next, h[last])] + [] == link + [] + [Effects(next, h[last])];
  }

  // ---- Delivery ----

  lemma MessageAt(o: Opening, replid: nat, h: seq<Batch>, last: nat, c: nat)
    requires EndOf(o) <= last <= |h| && (o.Partial? ==> o.from <= o.upTo)
    requires c < |Transcript(o, replid, h, last)|
    ensures var m := Transcript(o, replid, h, last)[c];
      if c >= Size(o) then
        EndOf(o) + (c - Size(o)) < last && m == Effects(EndOf(o) + (c - Size(o)) + 1, h[EndOf(o) + (c - Size(o))])
      else if c == Size(o) - 1 then m == SyncDone(replid, EndOf(o))
      else match o
        case Partial(from, upTo) => m == if c == 0 then Continue(replid, from) else Effects(from + c, h[from + c - 1])
        case Full(at, entries) =>
          m == if c == 0 then FullResync(replid, at, |entries|) else Item(entries[c - 1].0, entries[c - 1].1)
  {
  }

  lemma InstallKeeps(histories: map<nat, seq<Batch>>, r: Replica, now: nat)
    requires ReplicaOk(histories, r, now) && r.ready && r.sequence < |histories[r.replid]|
    ensures var n := r.sequence; var r' := Installed(r, n + 1, histories[r.replid][n]);
      && r'.Some? && ReplicaOk(histories, r'.value, now)
      && r'.value == r.(offset := n + 1, sequence := n + 1, contents := r'.value.contents)
  {
    var h, n := histories[r.replid], r.sequence;
    assert h[..n + 1][..n] == h[..n];
    assert StateOf(h, n + 1) == ApplyBatch(StateOf(h, n), h[n]);
    ApplyBatchAlive(r.contents, StateOf(h, n), h[n], now);
  }

  lemma {:induction false} StagedKeys(entries: seq<(Bytes, PersistentEntry)>, n: nat, key: Bytes)
    requires n <= |entries| && key in Staged(entries[..n])
    ensures exists i :: 0 <= i < n && entries[i].0 == key
  {
    assert entries[..n][..n - 1] == entries[..n - 1];
    if entries[n - 1].0 != key {
      StagedKeys(entries, n - 1, key);
    }
  }

  /** One more entry of a full synchronization. */
  lemma EntryArrives(replid: nat, at: nat, entries: seq<(Bytes, PersistentEntry)>, c: nat, r: Replica)
    requires DistinctEntries(entries) && 0 < c <= |entries| && StandsAt(Full(at, entries), replid, c, r)
    ensures var r' := Handle(r, Item(entries[c - 1].0, entries[c - 1].1));
      r'.Some? && StandsAt(Full(at, entries), replid, c + 1, r'.value) && !r'.value.ready && r'.value.replid == r.replid
  {
    var key := entries[c - 1].0;
    if key in Staged(entries[..c - 1]) {
      StagedKeys(entries, c - 1, key);
    }
    assert entries[..c][..c - 1] == entries[..c - 1];
  }

  /** The baseline becomes the state of the master's history at the captured
      sequence. */
  lemma BaselineArrives(histories: map<nat, seq<Batch>>, replid: nat, o: Opening, r: Replica, now: nat)
    requires o.Full? && replid in histories && OpeningOk(o, histories[replid], now)
    requires StandsAt(o, replid, |o.entries| + 1, r)
    ensures var r' := Handle(r, SyncDone(replid, o.at));
      r'.Some? && ReplicaOk(histories, r'.value, now) && StandsAt(o, replid, Size(o), r'.value)
  {
    assert o.entries[..|o.entries|] == o.entries;
  }

  /** A full synchronization that announces more entries than a node may hold. */
  predicate TooLarge(m: Message) { m.FullResync? && m.count > MAX_KEYS }

  /** The next message is the one of the transcript that follows the delivered. */
  lemma NextMessage(s: System)
    requires SessionOk(s) && s.link != []
    ensures s.session.Streaming?
    ensures var whole := Transcript(s.session.opening, s.master.replid, HistoryOf(s), s.session.lastSent);
      s.session.delivered < |whole| && s.link[0] == whole[s.session.delivered]
  {
    var c, all := s.session.delivered, s.link + s.session.queue;
    var whole := Transcript(s.session.opening, s.master.replid, HistoryOf(s), s.session.lastSent);
    assert all[0] == s.link[0] && all == whole[c..];
  }

  /** Whatever is delivered next, the replica accepts it unless it announces too
      many entries: no sequence mismatch, no duplicate key and no boundary mismatch
      can occur. */
  lemma DeliveryAccepted(s: System)
    requires Inv(s) && s.link != []
    ensures s.session.Streaming?
    ensures var r := Handle(s.replica, s.link[0]);
      && (r.Some? <==> !TooLarge(s.link[0]))
      && (r.Some? ==> ReplicaOk(s.histories, r.value, s.now))
      && (r.Some? ==> StandsAt(s.session.opening, s.master.replid, s.session.delivered + 1, r.value))
  {
    NextMessage(s);
    MessageAccepted(s.histories, s.master.replid, s.session.opening, s.session.lastSent, s.session.delivered, s.replica, s.now);
  }

  /** Handling message `c` of a transcript, from where the replica then stands. */
  ghost predicate Accepted(histories: map<nat, seq<Batch>>, replid: nat, o: Opening, c: nat, r: Replica, m: Message, now: nat)
    requires o.Partial? ==> o.from <= o.upTo
  {
    var r' := Handle(r, m);
    && (r'.Some? <==> !TooLarge(m))
    && (r'.Some? ==> ReplicaOk(histories, r'.value, now) && StandsAt(o, replid, c + 1, r'.value))
  }

  lemma MessageAccepted(histories: map<nat, seq<Batch>>, replid: nat, o: Opening, last: nat, c: nat, r: Replica, now: nat)
    requires replid != 0 && replid in histories && ReplicaOk(histories, r, now) && OpeningOk(o, histories[replid], now)
    requires EndOf(o) <= last <= |histories[replid]| && StandsAt(o, replid, c, r)
    requires c < |Transcript(o, replid, histories[replid], last)|
    ensures Accepted(histories, replid, o, c, r, Transcript(o, replid, histories[replid], last)[c], now)
  {
    MessageAt(o, replid, histories[replid], last, c);
    if c >= Size(o) {
      InstallKeeps(histories, r, now);
    } else if o.Partial? {
      PartialAccepted(histories, replid, o, last, c, r, now);
    } else {
      FullAccepted(histories, replid, o, last, c, r, now);
    }
  }

  lemma PartialAccepted(histories: map<nat, seq<Batch>>, replid: nat, o: Opening, last: nat, c: nat, r: Replica, now: nat)
    requires replid != 0 && replid in histories && ReplicaOk(histories, r, now) && o.Partial? && OpeningOk(o, histories[replid], now)
    requires EndOf(o) <= last <= |histories[replid]| && c < Size(o) && StandsAt(o, replid, c, r)
    requires c < |Transcript(o, replid, histories[replid], last)|
    ensures Accepted(histories, replid, o, c, r, Transcript(o, replid, histories[replid], last)[c], now)
  {
    MessageAt(o, replid, histories[replid], last, c);
    if 0 < c < Size(o) - 1 {
      InstallKeeps(histories, r, now);
    }
  }

  lemma FullAccepted(histories: map<nat, seq<Batch>>, replid: nat, o: Opening, last: nat, c: nat, r: Replica, now: nat)
    requires replid != 0 && replid in histories && ReplicaOk(histories, r, now) && o.Full? && OpeningOk(o, histories[replid], now)
    requires EndOf(o) <= last <= |histories[replid]| && c < Size(o) && StandsAt(o, replid, c, r)
    requires c < |Transcript(o, replid, histories[replid], last)|
    ensures Accepted(histories, replid, o, c, r, Transcript(o, replid, histories[replid], last)[c], now)
  {
    MessageAt(o, replid, histories[replid], last, c);
    if c == Size(o) - 1 {
      BaselineArrives(histories, replid, o, r, now);
    } else if c > 0 {
      EntryArrives(replid, o.at, o.entries, c, r);
    } else {
      assert o.entries[..0] == [];
    }
  }

  lemma DeliverKeeps(s: System)
    requires Inv(s) && Enabled(s, Deliver)
    ensures Inv(Next(s, Deliver))
  {
    DeliveryAccepted(s);
    OneDelivered(s.session.opening, s.master.replid, HistoryOf(s), s.session.lastSent, s.session.delivered, s.link, s.session.queue);
  }

  lemma OneDelivered(o: Opening, replid: nat, h: seq<Batch>, last: nat, c: nat, link: seq<Message>, queue: seq<Message>)
    requires EndOf(o) <= last <= |h| && (o.Partial? ==> o.from <= o.upTo)
    requires link != [] && Carries(o, replid, h, last, c, link, queue)
    ensures Carries(o, replid, h, last, c + 1, link[1..], queue)
  {
    assert link[1..] + queue == (link + queue)[1..];
  }

  lemma RestartKeeps(s: System, step: Step)
    requires Inv(s) && (step.RestartReplica? || step.RestartMaster?) && Enabled(s, step)
    ensures Inv(Next(s, step))
  {
    if step.RestartMaster? {
      var t := Next(s, step);
      forall id | id in s.histories ensures id in t.histories && Extends(s.histories[id], t.histories[id]) {
      }
      ReplicaCarries(s.histories, t.histories, s.replica, s.now, t.now);
    }
  }

  lemma StepKeeps(s: System, step: Step)
    requires Inv(s) && Enabled(s, step)
    ensures Inv(Next(s, step))
  {
    match step
    case Accept(batches) => AcceptKeeps(s, batches);
    case Push => PushKeeps(s);
    case Publish => GatedKeeps(s, step);
    case Release => GatedKeeps(s, step);
    case Connect => HandshakeKeeps(s, step);
    case Subscribe => HandshakeKeeps(s, step);
    case Decide => DecideKeeps(s);
    case CaptureFull(entries) => CaptureKeeps(s, entries);
    case Send => SendKeeps(s);
    case Stream => StreamKeeps(s);
    case Deliver => DeliverKeeps(s);
    case Disconnect => HandshakeKeeps(s, step);
    case Compact(_) => HandshakeKeeps(s, step);
    case RestartReplica(_, _, _) => RestartKeeps(s, step);
    case RestartMaster(_, _) => RestartKeeps(s, step);
    case Tick(seconds) => TickKeeps(s, seconds);
  }

  // ---- Whole runs ----

  ghost predicate Init(s: System) {
    && s.master.replid != 0 && s.histories == map[s.master.replid := []]
    && s.master == Master(s.master.replid, false, [], 0, 0)
    && s.session == Closed && s.link == [] && s.replica.receiving == Disconnected && !s.replica.ready && s.replica.replid == 0
  }

  ghost predicate Run(s: System, steps: seq<Step>)
    decreases |steps|
  {
    steps == [] || (Enabled(s, steps[0]) && Run(Next(s, steps[0]), steps[1..]))
  }

  ghost function Final(s: System, steps: seq<Step>): System
    requires Run(s, steps)
    decreases |steps|
  {
    if steps == [] then s else Final(Next(s, steps[0]), steps[1..])
  }

  lemma {:induction false} RunKeeps(s: System, steps: seq<Step>)
    requires Inv(s) && Run(s, steps)
    ensures Inv(Final(s, steps))
    decreases |steps|
  {
    if steps != [] {
      StepKeeps(s, steps[0]);
      RunKeeps(Next(s, steps[0]), steps[1..]);
    }
  }

  /** For every interleaving: a ready replica at offset n holds exactly the state of
      the first n batches of the history it names, and the next message of its
      connection is accepted unless it announces more entries than a node may
      hold. */
  lemma ReplicaFollowsMaster(s: System, steps: seq<Step>)
    requires Init(s) && Run(s, steps)
    ensures var t := Final(s, steps); var r := t.replica;
      && (r.ready ==>
            (r.replid in t.histories && r.offset == r.sequence <= |t.histories[r.replid]|
             && Alive(r.contents, t.now) == Alive(StateOf(t.histories[r.replid], r.offset), t.now)))
      && (t.link != [] ==> (Handle(r, t.link[0]).Some? <==> !TooLarge(t.link[0])))
  {
    assert s.histories[s.master.replid] == [];
    RunKeeps(s, steps);
    var t := Final(s, steps);
    if t.link != [] {
      DeliveryAccepted(t);
    }
  }

  /** Effects are installed gap-free: a delivery either leaves the sequence of a
      ready replica alone or raises it by exactly one with the master's batch. */
  lemma DeliveryIsGapFree(s: System)
    requires Inv(s) && s.link != [] && s.replica.ready && Next(s, Deliver).replica.ready
    ensures var r, r' := s.replica, Next(s, Deliver).replica; var h := s.histories[r.replid];
      && r'.replid == r.replid
      && (r'.sequence == r.sequence || (r.sequence < |h| && r'.sequence == r.sequence + 1
            && r'.contents == ApplyBatch(r.contents, h[r.sequence])))
  {
    DeliveryAccepted(s);
    NextMessage(s);
    MessageIsGapFree(s.histories, s.master.replid, s.session.opening, s.session.lastSent, s.session.delivered, s.replica, s.now);
  }

  lemma MessageIsGapFree(histories: map<nat, seq<Batch>>, replid: nat, o: Opening, last: nat, c: nat, r: Replica, now: nat)
    requires replid != 0 && replid in histories && ReplicaOk(histories, r, now) && OpeningOk(o, histories[replid], now)
    requires EndOf(o) <= last <= |histories[replid]| && StandsAt(o, replid, c, r) && r.ready
    requires c < |Transcript(o, replid, histories[replid], last)|
    ensures var r' := Handle(r, Transcript(o, replid, histories[replid], last)[c]); r'.Some? && r'.value.ready ==>
      && r'.value.replid == r.replid
      && (r'.value.sequence == r.sequence
          || (r.sequence < |histories[r.replid]| && r'.value.sequence == r.sequence + 1
              && r'.value.contents == ApplyBatch(r.contents, histories[r.replid][r.sequence])))
  {
    MessageAt(o, replid, histories[replid], last, c);
  }

  // ---- A master within the key limit ----

  /** No prefix of any history has passed the key limit, and no full synchronization
      under way announces more entries. */
  ghost predicate Within(s: System) {
    && (forall id :: id in s.histories ==> PrefixesWithin(map[], s.histories[id], s.now))
    && (s.session.Streaming? && s.session.opening.Full? ==> |s.session.opening.entries| <= MAX_KEYS)
  }

  /** What the master accepts keeps its history within the limit. */
  ghost predicate AcceptsWithin(s: System, step: Step) {
    step.Accept? ==> PrefixesWithin(map[], HistoryOf(s) + step.batches, s.now)
  }

  lemma {:induction false} StagedCount(entries: seq<(Bytes, PersistentEntry)>, n: nat)
    requires n <= |entries| && DistinctEntries(entries)
    ensures |Staged(entries[..n])| == n
  {
    if n > 0 {
      var k := n - 1;
      StagedCount(entries, k);
      assert entries[..n][..k] == entries[..k];
      var before, key := Staged(entries[..k]), entries[k].0;
      if key in before {
        StagedKeys(entries, k, key);
      }
      assert Staged(entries[..n]).Keys == before.Keys + {key};
    }
  }

  lemma CaptureWithin(s: System, entries: seq<(Bytes, PersistentEntry)>)
    requires MasterOk(s) && Within(s) && Enabled(s, CaptureFull(entries))
    ensures |entries| <= MAX_KEYS
  {
    var h := HistoryOf(s);
    assert WithinAt(map[], h, |h|, s.now);
    assert entries[..|entries|] == entries;
    StagedCount(entries, |entries|);
  }

  lemma TickWithin(s: System, seconds: nat)
    requires Within(s)
    ensures Within(Next(s, Tick(seconds)))
  {
    var later := s.now + seconds;
    forall id | id in s.histories ensures PrefixesWithin(map[], s.histories[id], later) {
      PrefixesWithinLater(map[], s.histories[id], s.now, later);
    }
  }

  lemma StepWithin(s: System, step: Step)
    requires Inv(s) && Within(s) && Enabled(s, step) && AcceptsWithin(s, step)
    ensures Within(Next(s, step))
  {
    if step.CaptureFull? {
      CaptureWithin(s, step.entries);
    } else if step.Tick? {
      TickWithin(s, step.seconds);
    } else if step.RestartMaster? {
      PrefixesWithinPart(map[], HistoryOf(s), step.survived, s.now);
    }
  }

  /** Every acceptance of the run is within the limit. */
  ghost predicate RunWithin(s: System, steps: seq<Step>)
    requires Run(s, steps)
    decreases |steps|
  {
    steps != [] ==> AcceptsWithin(s, steps[0]) && RunWithin(Next(s, steps[0]), steps[1..])
  }

  lemma {:induction false} RunStaysWithin(s: System, steps: seq<Step>)
    requires Inv(s) && Within(s) && Run(s, steps) && RunWithin(s, steps)
    ensures Within(Final(s, steps)) && Inv(Final(s, steps))
    decreases |steps|
  {
    if steps != [] {
      StepKeeps(s, steps[0]);
      StepWithin(s, steps[0]);
      RunStaysWithin(Next(s, steps[0]), steps[1..]);
    }
  }

  lemma NotTooLarge(s: System)
    requires Inv(s) && Within(s) && s.link != []
    ensures !TooLarge(s.link[0])
  {
    DeliveryAccepted(s);
    NextMessage(s);
    MessageAt(s.session.opening, s.master.replid, HistoryOf(s), s.session.lastSent, s.session.delivered);
  }

  /** Whatever a master within the limit sends, its replica accepts: in every run in
      which each acceptance keeps the history within the limit, no message is ever
      refused. */
  lemma NothingIsRefused(s: System, steps: seq<Step>)
    requires Init(s) && Run(s, steps) && RunWithin(s, steps) && Final(s, steps).link != []
    ensures Handle(Final(s, steps).replica, Final(s, steps).link[0]).Some?
  {
    var none: seq<Batch> := [];
    assert s.histories[s.master.replid] == none && none[..0] == none && Alive(map[], s.now) == map[];
    RunStaysWithin(s, steps);
    NotTooLarge(Final(s, steps));
    DeliveryAccepted(Final(s, steps));
  }
}
