/** What the two sides of a connection decide, message by message, and that a
replica can always catch up. */
module ReplicationLaws {
  import opened Model
  import opened Backlog
  import opened KeyLimit
  import opened Replication

  // ---- The master's decision ----

  /** A request is answered from the backlog exactly when it names the master's own
      history and an offset in it from which on the backlog holds every batch; then
      exactly those are sent. Everything else takes a full synchronization. */
  lemma DecideIff(s: System)
    requires Inv(s) && Enabled(s, Decide)
    ensures var h, m, replid, offset := HistoryOf(s), s.master, s.session.replid, s.session.offset;
      Next(s, Decide) ==
        if replid != 0 && replid == m.replid && 0 < offset <= |h| && |h| - offset <= |m.backlog|
        then s.(session := Streaming(s.session.received, Partial(offset, |h|),
                  [Continue(m.replid, offset)] + EffectsOf(h, offset, |h|) + [SyncDone(m.replid, |h|)], |h|, 0))
        else s.(session := NeedsFull(s.session.received))
  {
    var h, m, offset := HistoryOf(s), s.master, s.session.offset;
    if SameIdentity(m, s.session.replid, offset) {
      PartialResyncIff(m.backlog, h, offset);
      if Offers(m, |h|, s.session.replid, offset) {
        MissingIsSent(m.backlog, h, offset);
        NewerIsMissing(m.backlog, h, offset);
      }
    }
  }

  // ---- The replica's decision ----

  /** An effect needs a ready baseline and the next sequence, and is applied to it. */
  lemma EffectsIff(r: Replica, sequence: nat, batch: Batch)
    ensures Handle(r, Effects(sequence, batch)) ==
      if (r.receiving.Live? || r.receiving.TakingEffects?) && r.ready && sequence == r.sequence + 1
      then Some(r.(offset := sequence, sequence := sequence, contents := ApplyBatch(r.contents, batch)))
      else None
  {
  }

  /** A continuation must name a history and repeat the request. */
  lemma ContinueIff(r: Replica, replid: nat, offset: nat)
    ensures Handle(r, Continue(replid, offset)) ==
      if replid != 0 && r.receiving == Waiting(replid, offset) then Some(r.(receiving := TakingEffects(replid))) else None
  {
  }

  /** A full synchronization of at most a million entries makes the replica forget
      whose history it holds until it is complete. */
  lemma FullResyncIff(r: Replica, replid: nat, offset: nat, count: nat)
    ensures Handle(r, FullResync(replid, offset, count)) ==
      if r.receiving.Waiting? && replid != 0 && count <= 1_000_000
      then Some(r.(ready := false, replid := 0, offset := 0, receiving := TakingEntries(replid, offset, count, map[])))
      else None
  {
  }

  /** Entries are taken as announced, each key once. */
  lemma ItemIff(r: Replica, key: Bytes, entry: PersistentEntry)
    ensures Handle(r, Item(key, entry)).Some? <==>
      r.receiving.TakingEntries? && r.receiving.remaining > 0 && key !in r.receiving.staging
    ensures Handle(r, Item(key, entry)).Some? ==>
      Handle(r, Item(key, entry)).value == r.(receiving := r.receiving.(remaining := r.receiving.remaining - 1,
                                                                        staging := r.receiving.staging[key := entry]))
  {
  }

  /** The end of a synchronization must name its history and where it stands; only
      then is a new baseline ready. */
  lemma SyncDoneIff(r: Replica, replid: nat, offset: nat)
    ensures Handle(r, SyncDone(replid, offset)).Some? <==>
      || (r.receiving.TakingEntries? && r.receiving.remaining == 0 && r.receiving.replid == replid && r.receiving.sequence == offset)
      || (r.receiving.TakingEffects? && r.receiving.replid == replid && r.offset == offset)
    ensures r.receiving.TakingEntries? && Handle(r, SyncDone(replid, offset)).Some? ==>
      Handle(r, SyncDone(replid, offset)).value == Replica(replid, offset, true, offset, offset, r.receiving.staging, Live)
    ensures r.receiving.TakingEffects? && Handle(r, SyncDone(replid, offset)).Some? ==>
      Handle(r, SyncDone(replid, offset)).value == r.(receiving := Live)
  {
  }

  // ---- Runs ----

  lemma RunFirst(s: System, step: Step, rest: seq<Step>)
    requires Enabled(s, step) && Run(Next(s, step), rest)
    ensures Run(s, [step] + rest) && Final(s, [step] + rest) == Final(Next(s, step), rest)
  {
    assert ([step] + rest)[1..] == rest;
  }

  lemma {:induction false} RunBoth(s: System, a: seq<Step>, b: seq<Step>)
    requires Run(s, a) && Run(Final(s, a), b)
    ensures Run(s, a + b) && Final(s, a + b) == Final(Final(s, a), b)
    decreases |a|
  {
    if a == [] {
      assert a + b == b;
    } else {
      RunBoth(Next(s, a[0]), a[1..], b);
      assert (a + b)[1..] == a[1..] + b;
    }
  }

  /** The same master at the same time: nothing was accepted, lost or expired. */
  predicate SameMaster(s: System, t: System) {
    t.histories == s.histories && t.master.replid == s.master.replid && t.now == s.now
  }

  lemma Goes(s: System, step: Step)
    requires Inv(s) && Within(s) && Enabled(s, step) && !step.Accept?
    ensures Inv(Next(s, step)) && Within(Next(s, step))
  {
    StepKeeps(s, step);
    StepWithin(s, step);
  }

  // ---- Catching up ----

  /** A commit under way is published, batch by batch. */
  lemma {:induction false} Published(s: System) returns (steps: seq<Step>)
    requires Inv(s) && Within(s)
    ensures Run(s, steps) && NoAccept(steps)
    ensures var t := Final(s, steps); Inv(t) && Within(t) && SameMaster(s, t) && !t.master.gate
    decreases s.master.gate, |HistoryOf(s)| - s.master.pushed, |HistoryOf(s)| - s.master.published
  {
    steps := [];
    if s.master.gate {
      var h := HistoryOf(s);
      var step := if s.master.pushed < |h| then Push else if s.master.published < |h| then Publish else Release;
      Goes(s, step);
      var rest := Published(Next(s, step));
      RunFirst(s, step, rest);
      steps := [step] + rest;
    }
  }

  predicate NoAccept(steps: seq<Step>) { forall i :: 0 <= i < |steps| ==> !steps[i].Accept? }

  /** A view as a list. */
  lemma {:induction false} Listing(v: View) returns (entries: seq<(Bytes, PersistentEntry)>)
    ensures DistinctEntries(entries) && Staged(entries) == v
    decreases |v|
  {
    entries := [];
    if v != map[] {
      var k :| k in v;
      var rest := v - {k};
      assert v.Keys == rest.Keys + {k};
      var front := Listing(rest);
      entries := front + [(k, v[k])];
      assert entries[..|front|] == front && Staged(entries) == Staged(front)[k := v[k]] && v == rest[k := v[k]];
      forall i | 0 <= i < |front| ensures front[i].0 in rest {
        StagedHas(front, i);
      }
    }
  }

  lemma {:induction false} StagedHas(entries: seq<(Bytes, PersistentEntry)>, i: nat)
    requires i < |entries|
    ensures entries[i].0 in Staged(entries)
  {
    var n := |entries| - 1;
    if i < n {
      StagedHas(entries[..n], i);
    }
  }

  /** A new connection, up to its subscription. */
  lemma Rejoined(s: System) returns (steps: seq<Step>)
    requires Inv(s) && Within(s) && !s.master.gate
    ensures Run(s, steps) && NoAccept(steps)
    ensures var t := Final(s, steps); Inv(t) && Within(t) && SameMaster(s, t) && !t.master.gate && t.session.Subscribed?
  {
    var s1 := Next(s, Disconnect);
    Goes(s, Disconnect);
    var s2 := Next(s1, Connect);
    Goes(s1, Connect);
    Goes(s2, Subscribe);
    var none: seq<Step> := [];
    RunFirst(s2, Subscribe, none);
    RunFirst(s1, Connect, [Subscribe] + none);
    RunFirst(s, Disconnect, [Connect] + ([Subscribe] + none));
    steps := [Disconnect] + ([Connect] + ([Subscribe] + none));
  }

  /** And then up to the opening of its synchronization. */
  lemma Reconnected(s: System) returns (steps: seq<Step>)
    requires Inv(s) && Within(s) && !s.master.gate
    ensures Run(s, steps) && NoAccept(steps)
    ensures var t := Final(s, steps);
      && Inv(t) && Within(t) && SameMaster(s, t) && t.session.Streaming? && t.session.lastSent == |HistoryOf(s)|
  {
    var joining := Rejoined(s);
    var opening := Opened(Final(s, joining));
    RunBoth(s, joining, opening);
    steps := joining + opening;
  }

  lemma Opened(s: System) returns (steps: seq<Step>)
    requires Inv(s) && Within(s) && !s.master.gate && s.session.Subscribed?
    ensures Run(s, steps) && NoAccept(steps)
    ensures var t := Final(s, steps);
      && Inv(t) && Within(t) && SameMaster(s, t) && t.session.Streaming? && t.session.lastSent == |HistoryOf(s)|
  {
    var t := Next(s, Decide);
    Goes(s, Decide);
    DecideIff(s);
    steps := [Decide];
    var none: seq<Step> := [];
    RunFirst(s, Decide, none);
    assert [Decide] + none == [Decide];
    if t.session.NeedsFull? {
      var entries := Listing(Alive(StateOf(HistoryOf(t), |HistoryOf(t)|), t.now));
      var capture := CaptureFull(entries);
      Goes(t, capture);
      RunFirst(t, capture, none);
      assert [capture] + none == [capture];
      RunFirst(s, Decide, [capture]);
      steps := [Decide] + [capture];
    }
  }

  ghost predicate SameSession(s: System, t: System) {
    && Inv(t) && Within(t) && t.histories == s.histories && t.master == s.master && t.now == s.now
    && t.session.Streaming? && s.session.Streaming?
    && t.session.lastSent == s.session.lastSent && t.session.received == s.session.received
  }

  /** Everything that is queued is sent, and everything sent is taken. */
  lemma {:induction false} Drained(s: System) returns (steps: seq<Step>)
    requires Inv(s) && Within(s) && s.session.Streaming?
    ensures Run(s, steps) && NoAccept(steps)
    ensures var t := Final(s, steps); SameSession(s, t) && t.session.queue == [] && t.link == []
    decreases 2 * |s.session.queue| + |s.link|
  {
    steps := [];
    if s.session.queue != [] || s.link != [] {
      var step := if s.session.queue != [] then Send else Deliver;
      Moves(s, step);
      var next := Next(s, step);
      var rest := Drained(next);
      RunFirst(s, step, rest);
      steps := [step] + rest;
    }
  }

  lemma Moves(s: System, step: Step)
    requires Inv(s) && Within(s) && s.session.Streaming? && (step.Send? || step.Deliver?) && Enabled(s, step)
    ensures var t := Next(s, step);
      && SameSession(s, t)
      && 2 * |t.session.queue| + |t.link| == 2 * |s.session.queue| + |s.link| - 1
  {
    Goes(s, step);
    if step.Deliver? {
      NotTooLarge(s);
      DeliveryAccepted(s);
    }
  }

  /** When nothing is under way any more, the replica stands where sending stopped. */
  lemma DrainedStands(s: System)
    requires Inv(s) && s.session.Streaming? && s.session.queue == [] && s.link == []
    ensures s.replica.ready && s.replica.receiving == Live && s.replica.replid == s.master.replid && s.replica.offset == s.session.lastSent
  {
    var o, last := s.session.opening, s.session.lastSent;
    assert |Transcript(o, s.master.replid, HistoryOf(s), last)| == Size(o) + (last - EndOf(o));
  }

  /** From every state of a master within the key limit, and without a new commit,
      there is a run after which the replica holds the whole history. */
  lemma CatchesUp(s: System) returns (steps: seq<Step>)
    requires Inv(s) && Within(s)
    ensures Run(s, steps) && NoAccept(steps)
    ensures var t, h := Final(s, steps), HistoryOf(s);
      && SameMaster(s, t) && t.replica.ready && t.replica.replid == s.master.replid && t.replica.offset == |h|
      && Alive(t.replica.contents, s.now) == Alive(ApplyAll(map[], h), s.now)
  {
    var a := Published(s);
    var s1 := Final(s, a);
    var b := Reconnected(s1);
    var s2 := Final(s1, b);
    var c := Drained(s2);
    var t := Final(s2, c);
    DrainedStands(t);
    RunBoth(s1, b, c);
    RunBoth(s, a, b + c);
    steps := a + (b + c);
    assert HistoryOf(s)[..|HistoryOf(s)|] == HistoryOf(s);
  }

  /** A replica that is caught up with a connection stays so: unless it lags by more
      than the broadcast retains, what has been published since reaches it. */
  lemma {:induction false} Follows(s: System) returns (steps: seq<Step>)
    requires Inv(s) && Within(s) && s.session.Streaming? && s.session.queue == []
    requires s.session.received <= s.master.published <= s.session.received + 4_096
    ensures Run(s, steps) && NoAccept(steps)
    ensures var t := Final(s, steps);
      && t.histories == s.histories && t.master == s.master && t.now == s.now
      && t.replica.ready && t.replica.replid == s.master.replid && s.master.published <= t.replica.offset
    decreases s.master.published - s.session.received
  {
    if s.session.received == s.master.published {
      steps := Drained(s);
      DrainedStands(Final(s, steps));
    } else {
      StreamsOne(s);
      var rest := Follows(Next(s, Stream));
      RunFirst(s, Stream, rest);
      steps := [Stream] + rest;
    }
  }

  lemma StreamsOne(s: System)
    requires Inv(s) && Within(s) && s.session.Streaming? && s.session.queue == []
    requires s.session.received < s.master.published <= s.session.received + 4_096
    ensures Enabled(s, Stream)
    ensures var t := Next(s, Stream);
      && Inv(t) && Within(t) && t.histories == s.histories && t.master == s.master && t.now == s.now
      && t.session.Streaming? && t.session.queue == [] && t.session.received == s.session.received + 1
  {
    Goes(s, Stream);
  }

  /** A connection that lags by more than that is not served any further. */
  lemma LagStops(s: System)
    requires s.session.Streaming? && s.master.published > s.session.received + 4_096
    ensures !Enabled(s, Stream)
  {
  }
}
