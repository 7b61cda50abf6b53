/** The master's replication backlog and the decision to resynchronize from it. */
module Backlog {
  import opened Model

  const BACKLOG_CAPACITY: nat := 10_000

  datatype Retained = Retained(sequence: nat, batch: Batch)

  /** The retained entries are the newest ones of the first `upTo` batches. */
  ghost predicate Retains(backlog: seq<Retained>, h: seq<Batch>, upTo: nat) {
    && |backlog| <= BACKLOG_CAPACITY && |backlog| <= upTo <= |h|
    && forall i :: 0 <= i < |backlog| ==>
         backlog[i] == Retained(upTo - |backlog| + i + 1, h[upTo - |backlog| + i])
  }

  function PushOne(backlog: seq<Retained>, item: Retained): seq<Retained> {
    var grown := backlog + [item];
    if |grown| > BACKLOG_CAPACITY then grown[|grown| - BACKLOG_CAPACITY..] else grown
  }

  /** The newest records, as many as the backlog may retain. */
  function Newest(log: seq<Retained>): seq<Retained> {
    if |log| <= BACKLOG_CAPACITY then log else log[|log| - BACKLOG_CAPACITY..]
  }

  lemma NewestNext(log: seq<Retained>, item: Retained)
    ensures PushOne(Newest(log), item) == Newest(log + [item])
  {
  }

  lemma PushRetains(backlog: seq<Retained>, h: seq<Batch>, upTo: nat)
    requires Retains(backlog, h, upTo) && upTo < |h|
    ensures Retains(PushOne(backlog, Retained(upTo + 1, h[upTo])), h, upTo + 1)
  {
  }

  method PushAndTrim(backlog: seq<Retained>, item: Retained) returns (backlog': seq<Retained>)
    ensures backlog' == PushOne(backlog, item)
  {
    var grown := backlog + [item];
    var dropped := 0;
    while |grown| - dropped > BACKLOG_CAPACITY
      invariant 0 <= dropped <= |grown|
      invariant dropped > 0 ==> |grown| - dropped >= BACKLOG_CAPACITY
    {
      dropped := dropped + 1;
    }
    backlog' := grown[dropped..];
  }

  /** Pushes an accepted group and pops the oldest entries beyond the capacity. */
  method PublishToBacklog(backlog: seq<Retained>, group: seq<Retained>, ghost h: seq<Batch>, ghost upTo: nat)
    returns (backlog': seq<Retained>)
    requires Retains(backlog, h, upTo) && upTo + |group| <= |h|
    requires forall i :: 0 <= i < |group| ==> group[i] == Retained(upTo + i + 1, h[upTo + i])
    ensures Retains(backlog', h, upTo + |group|)
    ensures |backlog'| == if |backlog| + |group| < 10_000 then |backlog| + |group| else 10_000
  {
    backlog' := backlog;
    var i := 0;
    while i < |group|
      invariant 0 <= i <= |group|
      invariant Retains(backlog', h, upTo + i)
      invariant |backlog'| == if |backlog| + i < BACKLOG_CAPACITY then |backlog| + i else BACKLOG_CAPACITY
    {
      PushRetains(backlog', h, upTo + i);
      backlog' := PushAndTrim(backlog', group[i]);
      i := i + 1;
    }
  }

  function PartialResyncPossible(requested: nat, oldest: Option<nat>, current: nat): bool {
    if requested > current then false
    else if requested == current then true
    else oldest.Some? && oldest.value <= requested + 1
  }

  function OldestOf(backlog: seq<Retained>): Option<nat> {
    if backlog == [] then None else Some(backlog[0].sequence)
  }

  function Newer(backlog: seq<Retained>, requested: nat): seq<Retained> {
    if backlog == [] then []
    else
      var front, last := Newer(backlog[..|backlog| - 1], requested), backlog[|backlog| - 1];
      if last.sequence > requested then front + [last] else front
  }

  /** The decision is exact: resynchronization from the backlog is offered exactly
      when the backlog holds every batch the replica misses. */
  lemma PartialResyncIff(backlog: seq<Retained>, h: seq<Batch>, requested: nat)
    requires Retains(backlog, h, |h|)
    ensures PartialResyncPossible(requested, OldestOf(backlog), |h|) <==> requested <= |h| && |h| - requested <= |backlog|
  {
  }

  lemma {:induction false} NewerAt(backlog: seq<Retained>, first: nat, requested: nat)
    requires forall i :: 0 <= i < |backlog| ==> backlog[i].sequence == first + i
    ensures var skip := if requested + 1 <= first then 0 else if requested + 1 - first < |backlog| then requested + 1 - first else |backlog|;
      Newer(backlog, requested) == backlog[skip..]
  {
    if backlog != [] {
      var n := |backlog| - 1;
      NewerAt(backlog[..n], first, requested);
      assert backlog == backlog[..n] + [backlog[n]];
    }
  }

  /** What is sent is exactly the missing batches, in order. */
  lemma NewerIsMissing(backlog: seq<Retained>, h: seq<Batch>, requested: nat)
    requires Retains(backlog, h, |h|) && requested <= |h| && |h| - requested <= |backlog|
    ensures |Newer(backlog, requested)| == |h| - requested
    ensures forall i :: 0 <= i < |h| - requested ==>
      Newer(backlog, requested)[i] == Retained(requested + i + 1, h[requested + i])
  {
    NewerAt(backlog, |h| - |backlog| + 1, requested);
  }
}
