/** How often a segment is retransmitted: the attempts counted are tied to the retries made by where
    the holder of the segment's mutex is, so a segment is dropped after exactly the retries its
    attempts allow, unless the backoff strategy refused one. */
module RetryCounts {
  import opened Options
  import opened Retransmission

  function HolderPc(s: State, id: Id): Pc
    requires id in s.segments
  {
    if s.segments[id].lock.Some? then PcOf(s, s.segments[id].lock.value, id) else Done(id)
  }

  /** The segment is being dropped or was dropped: no retry follows. */
  predicate IsGivenUp(s: State, id: Id)
    requires id in s.segments
  {
    IsDropping(HolderPc(s, id)) || id in s.dropped
  }

  /** The first transmission and every retry are attempts; one more is counted while a retry is
      under way and its callback has not started, and when the segment is given up. */
  predicate AttemptsMatch(s: State, id: Id)
    requires id in s.segments
  {
    var g, h := s.segments[id], HolderPc(s, id);
    && g.attempts == 1 + g.retries + AsInt(h.RetryDecided? || h.RetryArmed? || IsGivenUp(s, id))
    && (IsRetrying(h) ==> !IsGivenUp(s, id))
  }

  /** Every retry is in the statistics, but for the one whose callback runs. */
  predicate RetriesCounted(s: State, id: Id)
    requires id in s.segments
  {
    var h := HolderPc(s, id);
    s.segments[id].retries == s.retried[id] + AsInt(h.RetryCallback? || h.RetryCount?)
  }

  /** A segment is given up because its attempts are used up or because a retry was refused. */
  predicate GivenUpFor(s: State, id: Id, refused: bool)
    requires id in s.segments
  {
    var g := s.segments[id];
    refused <==> IsGivenUp(s, id) && g.attempts <= g.maxAttempts
  }

  predicate RetriesOk(s: State, id: Id, refused: bool)
  {
    if id in s.segments then AttemptsMatch(s, id) && RetriesCounted(s, id) && GivenUpFor(s, id, refused)
    else s.retried[id] == 0 && !refused && id !in s.dropped
  }

  /** The strategy answers no although the segment has attempts left and is not acknowledged. */
  predicate Refuses(s: State, e: Event, id: Id)
  {
    && e.Advance? && !e.shouldRetry && e.t in s.threads && s.threads[e.t] == TimerLocked(id)
    && id in s.segments && !s.segments[id].acknowledged && s.segments[id].attempts < s.segments[id].maxAttempts
  }

  /** Some step of the run refuses the segment a retry. */
  predicate IsRefused(s: State, es: seq<Event>, id: Id)
    requires IsRun(s, es)
    decreases |es|
  {
    es != [] && (Refuses(s, es[0], id) || IsRefused(Step(s, es[0]), es[1..], id))
  }

  // ---------------------------------------------------------------------------
  // Steps

  /** Only its holder moves a segment's mutex from one place to the next. */
  lemma AdvanceMovesHolder(s: State, t: Tid, shouldRetry: bool, id: Id)
    requires t in s.threads && CanAdvance(s, s.threads[t]) && ThreadOk(s, t) && id in s.segments && OwnersOk(s, id)
    ensures var s' := AdvanceStep(s, t, shouldRetry);
      HolderPc(s', id) ==
        if s.threads[t].id != id
           || (s.segments[id].lock != Some(t) && !s.threads[t].AckFound? && !s.threads[t].TimerFound?)
        then HolderPc(s, id)
        else if s'.threads[t].Done? || s'.threads[t].AckMarked? then Done(id) else s'.threads[t]
  {
    hide NextOwner;
    hide NextStats;
    hide TimerOk;
    hide LedgerOk;
  }

  /** A segment that was dropped has no timer thread. */
  lemma DroppedIsDone(s: State, t: Tid)
    requires t in s.threads && ThreadOk(s, t) && s.threads[t].id in s.segments && SegmentOk(s, s.threads[t].id)
    requires var pc := s.threads[t]; pc.TimerLocked? || pc.DropDecided? || pc.DropLocked?
    ensures s.threads[t].id !in s.dropped
  {
    hide OwnersOk;
    hide AttemptsOk;
  }

  lemma AdvanceKeepsRetries(s: State, t: Tid, shouldRetry: bool, refused: bool)
    requires t in s.threads && CanAdvance(s, s.threads[t]) && ThreadOk(s, t)
    requires s.threads[t].id in s.segments && SegmentOk(s, s.threads[t].id) && RetriesOk(s, s.threads[t].id, refused)
    ensures var id := s.threads[t].id;
      RetriesOk(AdvanceStep(s, t, shouldRetry), id, refused || Refuses(s, Advance(t, shouldRetry), id))
  {
    var pc := s.threads[t];
    AdvanceMovesHolder(s, t, shouldRetry, pc.id);
    if pc.TimerLocked? || pc.DropDecided? || pc.DropLocked? {
      DroppedIsDone(s, t);
    }
    hide NextOwner;
    hide NextStats;
    hide TimerOk;
    hide OwnersOk;
    hide LedgerOk;
    hide PcOf;
    hide HolderPc;
  }

  lemma StepKeepsRetries(s: State, e: Event, id: Id, refused: bool)
    requires Enabled(s, e) && ActorOk(s, e) && RetriesOk(s, id, refused)
    requires id in s.segments ==> SegmentOk(s, id)
    ensures RetriesOk(Step(s, e), id, refused || Refuses(s, e, id))
  {
    if e.Advance? && s.threads[e.t].id == id && id in s.segments {
      AdvanceKeepsRetries(s, e.t, e.shouldRetry, refused);
    } else {
      OthersKeepRetries(s, e, id, refused);
    }
  }

  lemma OthersKeepRetries(s: State, e: Event, id: Id, refused: bool)
    requires Enabled(s, e) && RetriesOk(s, id, refused)
    requires id in s.segments ==> OwnersOk(s, id) && !(e.Advance? && s.threads[e.t].id == id)
    ensures RetriesOk(Step(s, e), id, refused) && !Refuses(s, e, id)
  {
    hide NextOwner;
    hide NextStats;
    hide NextPc;
    hide NextSegment;
    hide TimerOk;
    hide LedgerOk;
  }

  // ---------------------------------------------------------------------------
  // Runs

  lemma {:induction false} RunKeepsRetries(s: State, es: seq<Event>, id: Id, refused: bool)
    requires Inv(s) && IsRun(s, es) && RetriesOk(s, id, refused)
    ensures Inv(Run(s, es)) && RetriesOk(Run(s, es), id, refused || IsRefused(s, es, id))
    decreases |es|
  {
    hide Step;
    hide Enabled;
    hide RetriesOk;
    hide Refuses;
    hide SegmentOk;
    hide ThreadOk;
    if es != [] {
      assert ActorOk(s, es[0]);
      assert id in s.segments ==> SegmentOk(s, id);
      hide Inv;
      StepKeepsInv(s, es[0]);
      StepKeepsRetries(s, es[0], id, refused);
      RunKeepsRetries(Step(s, es[0]), es[1..], id, refused || Refuses(s, es[0], id));
    }
  }

  lemma RetriesFromInit(es: seq<Event>, id: Id) returns (s: State)
    requires IsRun(Init(), es)
    ensures s == Run(Init(), es) && Inv(s) && RetriesOk(s, id, IsRefused(Init(), es, id))
  {
    InitInv();
    hide Inv;
    RunKeepsRetries(Init(), es, id, false);
    s := Run(Init(), es);
  }

  /** The retries that a number of attempts leaves after the first transmission. */
  function AllRetries(maxAttempts: int): nat
  {
    if maxAttempts >= 1 then maxAttempts - 1 else 0
  }

  /** In every interleaving, a dropped segment was retransmitted exactly as often as its attempts
      allow, unless the strategy refused it a retry: then less often. */
  lemma DroppedAfterAllRetriesIff(es: seq<Event>, id: Id)
    requires IsRun(Init(), es) && id in Run(Init(), es).dropped
    ensures var s := Run(Init(), es);
      && id in s.segments
      && Retries(s, id) <= AllRetries(s.segments[id].maxAttempts)
      && (Retries(s, id) == AllRetries(s.segments[id].maxAttempts) <==> !IsRefused(Init(), es, id))
  {
    var s := RetriesFromInit(es, id);
    hide Run, IsRun, IsRefused;
    assert id in s.segments && SegmentOk(s, id);
  }

  predicate AlwaysSaysYes(es: seq<Event>)
  {
    forall i :: 0 <= i < |es| && es[i].Advance? ==> es[i].shouldRetry
  }

  lemma {:induction false} YesRefusesNothing(s: State, es: seq<Event>, id: Id)
    requires IsRun(s, es) && AlwaysSaysYes(es)
    ensures !IsRefused(s, es, id)
    decreases |es|
  {
    hide Step, Enabled;
    if es != [] {
      assert !Refuses(s, es[0], id);
      YesRefusesNothing(Step(s, es[0]), es[1..], id);
    }
  }

  /** With a strategy that always says yes, no segment is dropped before its last attempt. */
  lemma YesRetriesAll(es: seq<Event>, id: Id)
    requires IsRun(Init(), es) && AlwaysSaysYes(es) && id in Run(Init(), es).dropped
    ensures var s := Run(Init(), es);
      id in s.segments && Retries(s, id) == AllRetries(s.segments[id].maxAttempts)
  {
    YesRefusesNothing(Init(), es, id);
    DroppedAfterAllRetriesIff(es, id);
  }

  /** At rest the statistics count each retry of each segment. */
  lemma QuiescentRetries(es: seq<Event>, id: Id)
    requires IsRun(Init(), es) && Quiescent(Run(Init(), es))
    ensures var s := Run(Init(), es);
      s.stats.retransmitted == |s.retried| && s.retried[id] == Retries(s, id)
  {
    var s := RetriesFromInit(es, id);
    hide Run, IsRun, IsRefused;
    if id in s.segments {
      assert SegmentOk(s, id);
      QuiescentSegment(s, id);
    }
  }

  // ---------------------------------------------------------------------------
  // Acknowledgements

  /** The thread of an acknowledgement is still on its way to the segment, or the segment has left
      the map. */
  predicate Settling(s: State, t: Tid, id: Id)
  {
    && id in s.segments && s.segments[id].inserted
    && t in s.threads && s.threads[t].id == id
    && (s.threads[t].AckStart? || s.threads[t].AckFound? || s.threads[t].AckLocked? || s.threads[t].AckMarked?
        || !s.segments[id].tracked)
  }

  lemma SettlingStep(s: State, e: Event, t: Tid, id: Id)
    requires Enabled(s, e) && ActorOk(s, e) && Settling(s, t, id)
    ensures Settling(Step(s, e), t, id)
  {
    hide NextOwner, NextStats, OwnersOk, LedgerOk, AttemptsOk, TimerOk;
  }

  lemma {:induction false} RunSettles(s: State, es: seq<Event>, t: Tid, id: Id)
    requires Inv(s) && IsRun(s, es) && Settling(s, t, id)
    ensures Inv(Run(s, es)) && Settling(Run(s, es), t, id)
    decreases |es|
  {
    hide Step, Enabled, SegmentOk, ThreadOk;
    if es != [] {
      assert ActorOk(s, es[0]);
      hide Inv, Settling;
      StepKeepsInv(s, es[0]);
      SettlingStep(s, es[0], t, id);
      RunSettles(Step(s, es[0]), es[1..], t, id);
    }
  }

  /** An acknowledgement of a tracked segment takes effect: when it has returned, the segment is out
      of the map, whatever ran beside it, and once all threads are at rest it is counted as
      acknowledged or as dropped. */
  lemma AckSettles(s: State, es: seq<Event>, t: Tid, id: Id)
    requires Inv(s) && IsTracked(s, id) && es != [] && es[0] == Ack(t, id) && IsRun(s, es)
    ensures t in Run(s, es).threads
    ensures Run(s, es).threads[t].Done? ==> !IsTracked(Run(s, es), id)
    ensures Quiescent(Run(s, es)) ==> id in Run(s, es).acked || id in Run(s, es).dropped
  {
    assert SegmentOk(s, id);
    hide OwnersOk, TimerOk, AttemptsOk;
    StepKeepsInv(s, es[0]);
    RunSettles(Step(s, es[0]), es[1..], t, id);
    var s' := Run(s, es);
    hide Run, IsRun;
    if Quiescent(s') {
      assert SegmentOk(s', id);
      QuiescentSegment(s', id);
    }
  }
}
