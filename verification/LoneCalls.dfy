/** What a call, or a timer that fires, does to a segment when no other thread interferes. */
module LoneCalls {
  import opened Options
  import opened Retransmission
  import opened RetryCounts

  /** The state with one thread, its segment and the owner of the map set. */
  function With(s: State, t: Tid, pc: Pc, g: Segment, owner: Option<Tid>): State
  {
    s.(threads := s.threads[t := pc], segments := s.segments[pc.id := g], mapOwner := owner)
  }

  /** The statistics and the history of what they count, after a step at the place. */
  function Count(s: State, pc: Pc): State
  {
    s.(stats := NextStats(s.stats, pc),
       counted := if pc.TrackCount? then s.counted + {pc.id} else s.counted,
       acked := if pc.AckCount? then s.acked + {pc.id} else s.acked,
       dropped := if pc.DropCount? then s.dropped + {pc.id} else s.dropped,
       retried := if pc.RetryCount? then s.retried + multiset{pc.id} else s.retried)
  }

  function Advances(t: Tid, n: nat, shouldRetry: bool): seq<Event>
  {
    if n == 0 then [] else [Advance(t, shouldRetry)] + Advances(t, n - 1, shouldRetry)
  }

  /** The thread gets from one state to the other in n steps of its own. */
  predicate Leads(w: State, t: Tid, n: nat, shouldRetry: bool, end: State)
  {
    var es := Advances(t, n, shouldRetry);
    IsRun(w, es) && Run(w, es) == end
  }

  lemma LeadsOn(w: State, t: Tid, n: nat, shouldRetry: bool, next: State, end: State)
    requires Enabled(w, Advance(t, shouldRetry)) && Step(w, Advance(t, shouldRetry)) == next
    requires n > 0 && Leads(next, t, n - 1, shouldRetry, end)
    ensures Leads(w, t, n, shouldRetry, end)
  {
    hide Enabled, Step;
  }

  lemma AdvanceWith(s: State, t: Tid, pc: Pc, g: Segment, owner: Option<Tid>, shouldRetry: bool)
    requires CanAdvance(With(s, t, pc, g, owner), pc)
    ensures var w, e := With(s, t, pc, g, owner), Advance(t, shouldRetry);
      && Enabled(w, e)
      && Step(w, e) ==
           With(Count(s, pc), t, NextPc(w, pc, shouldRetry), NextSegment(g, t, pc), NextOwner(w, t, pc))
  {
    hide NextPc, NextSegment, NextOwner, NextStats;
    var w := With(s, t, pc, g, owner);
    var next := NextPc(w, pc, shouldRetry);
    assert w.threads[t := next] == s.threads[t := next];
    assert w.segments[pc.id := NextSegment(g, t, pc)] == s.segments[pc.id := NextSegment(g, t, pc)];
  }

  lemma GoOn(s: State, t: Tid, pc: Pc, g: Segment, owner: Option<Tid>, shouldRetry: bool, n: nat, end: State)
    requires CanAdvance(With(s, t, pc, g, owner), pc) && n > 0
    requires var w := With(s, t, pc, g, owner);
      Leads(With(Count(s, pc), t, NextPc(w, pc, shouldRetry), NextSegment(g, t, pc), NextOwner(w, t, pc)), t, n - 1,
            shouldRetry, end)
    ensures Leads(With(s, t, pc, g, owner), t, n, shouldRetry, end)
  {
    hide *;
    AdvanceWith(s, t, pc, g, owner, shouldRetry);
    var w := With(s, t, pc, g, owner);
    LeadsOn(w, t, n, shouldRetry, Step(w, Advance(t, shouldRetry)), end);
  }

  predicate IsCounting(pc: Pc)
  {
    pc.TrackCount? || pc.AckCount? || pc.RetryCount? || pc.DropCount?
  }

  lemma GoOnTo(s: State, t: Tid, pc: Pc, g: Segment, owner: Option<Tid>, shouldRetry: bool, n: nat, end: State,
               next: Pc, h: Segment, owner': Option<Tid>)
    requires CanAdvance(With(s, t, pc, g, owner), pc) && n > 0 && !IsCounting(pc)
    requires NextPc(With(s, t, pc, g, owner), pc, shouldRetry) == next
    requires NextSegment(g, t, pc) == h && NextOwner(With(s, t, pc, g, owner), t, pc) == owner'
    requires Leads(With(s, t, next, h, owner'), t, n - 1, shouldRetry, end)
    ensures Leads(With(s, t, pc, g, owner), t, n, shouldRetry, end)
  {
    assert Count(s, pc) == s;
    hide *;
    GoOn(s, t, pc, g, owner, shouldRetry, n, end);
  }

  // ---------------------------------------------------------------------------
  // Calls

  /** Nothing holds the locks that a new thread needs at the segment. */
  predicate IsFree(s: State, t: Tid, id: Id)
  {
    t !in s.threads && s.mapOwner.None? && IsTracked(s, id) && IsUnlocked(s, id)
  }

  lemma FreeSegment(s: State, t: Tid, id: Id)
    requires Inv(s) && IsFree(s, t, id)
    ensures t !in s.threads && id in s.segments && s.mapOwner.None? && IsUnlocked(s, id)
    ensures var g := s.segments[id];
      g.tracked && !g.acknowledged && g.inserted && g.leaver.None? && g.lock.None? && g.armed <= 1
  {
    assert SegmentOk(s, id);
  }

  lemma CallLeads(s: State, e: Event, n: nat, shouldRetry: bool, end: State)
    requires Enabled(s, e) && Leads(Step(s, e), e.t, n, shouldRetry, end)
    ensures var es := [e] + Advances(e.t, n, shouldRetry); IsRun(s, es) && Run(s, es) == end
  {
    hide Enabled, Step, Advances;
    var es := [e] + Advances(e.t, n, shouldRetry);
    assert es[1..] == Advances(e.t, n, shouldRetry);
  }

  /** The acknowledged segment has left the map and is counted. */
  function Acknowledged(s: State, t: Tid, id: Id): State
    requires id in s.segments
  {
    s.(threads := s.threads[t := Done(id)],
       segments := s.segments[id := s.segments[id].(acknowledged := true, armed := 0, tracked := false)],
       mapOwner := None,
       stats := s.stats.(acknowledged := s.stats.acknowledged + 1, active := s.stats.active - 1),
       acked := s.acked + {id})
  }

  lemma AckLeaves(s: State, t: Tid, id: Id, g: Segment)
    requires g.leaver.None?
    ensures Leads(With(s, t, AckMarked(id), g, Some(t)), t, 2, false,
                  With(Count(s, AckCount(id)), t, Done(id), g.(tracked := false), None))
  {
    var end := With(Count(s, AckCount(id)), t, Done(id), g.(tracked := false), None);
    assert Leads(end, t, 0, false, end);
    hide Leads, Count;
    GoOn(s, t, AckCount(id), g.(tracked := false, leaver := Some(t)), None, false, 1, end);
    GoOnTo(s, t, AckMarked(id), g, Some(t), false, 2, end, AckCount(id), g.(tracked := false, leaver := Some(t)), None);
  }

  lemma AckMarks(s: State, t: Tid, id: Id, g: Segment)
    requires g.lock.None? && g.leaver.None? && !g.acknowledged && g.armed <= 1
    ensures Leads(With(s, t, AckFound(id), g, Some(t)), t, 4, false,
                  With(Count(s, AckCount(id)), t, Done(id), g.(acknowledged := true, armed := 0, tracked := false),
                       None))
  {
    hide Leads, Count;
    var marked := g.(acknowledged := true, armed := 0);
    AckLeaves(s, t, id, marked);
    var end := With(Count(s, AckCount(id)), t, Done(id), marked.(tracked := false), None);
    GoOnTo(s, t, AckLocked(id), g.(lock := Some(t)), Some(t), false, 3, end, AckMarked(id), marked, Some(t));
    GoOnTo(s, t, AckFound(id), g, Some(t), false, 4, end, AckLocked(id), g.(lock := Some(t)), Some(t));
  }

  lemma AckLeads(s: State, t: Tid, id: Id, g: Segment)
    requires g.tracked && g.lock.None? && g.leaver.None? && !g.acknowledged && g.armed <= 1
    ensures Leads(With(s, t, AckStart(id), g, None), t, 5, false,
                  With(Count(s, AckCount(id)), t, Done(id), g.(acknowledged := true, armed := 0, tracked := false),
                       None))
  {
    hide Leads, Count;
    AckMarks(s, t, id, g);
    var end := With(Count(s, AckCount(id)), t, Done(id), g.(acknowledged := true, armed := 0, tracked := false), None);
    GoOnTo(s, t, AckStart(id), g, None, false, 5, end, AckFound(id), g, Some(t));
  }

  lemma AckEnds(s: State, t: Tid, id: Id)
    requires t !in s.threads && id in s.segments && s.mapOwner.None?
    ensures Enabled(s, Ack(t, id))
    ensures Step(s, Ack(t, id)) == With(s, t, AckStart(id), s.segments[id], None)
    ensures var g := s.segments[id].(acknowledged := true, armed := 0, tracked := false);
      With(Count(s, AckCount(id)), t, Done(id), g, None) == Acknowledged(s, t, id)
  {
  }

  /** An acknowledgement stops the timer, takes the segment out of the map and counts it. */
  lemma AckAlone(s: State, t: Tid, id: Id)
    requires Inv(s) && IsFree(s, t, id)
    ensures var es := [Ack(t, id)] + Advances(t, 5, false);
      IsRun(s, es) && Run(s, es) == Acknowledged(s, t, id)
  {
    hide *;
    FreeSegment(s, t, id);
    AckEnds(s, t, id);
    AckLeads(s, t, id, s.segments[id]);
    CallLeads(s, Ack(t, id), 5, false, Acknowledged(s, t, id));
  }

  /** The segment as the timer thread has it once the attempt is counted. */
  function Attempted(g: Segment, t: Tid): Segment
  {
    g.(attempts := g.attempts + 1, lock := Some(t))
  }

  lemma RetryEnds(s: State, t: Tid, id: Id, g: Segment)
    ensures Leads(With(s, t, RetryCallback(id), g, None), t, 2, true,
                  With(Count(s, RetryCount(id)), t, Done(id), g.(lock := None), None))
  {
    var end := With(Count(s, RetryCount(id)), t, Done(id), g.(lock := None), None);
    assert Leads(end, t, 0, true, end);
    hide Leads, Count;
    GoOn(s, t, RetryCount(id), g, None, true, 1, end);
    GoOnTo(s, t, RetryCallback(id), g, None, true, 2, end, RetryCount(id), g, None);
  }

  lemma RetryLeads(s: State, t: Tid, id: Id, g: Segment)
    ensures Leads(With(s, t, RetryDecided(id), g, None), t, 4, true,
                  With(Count(s, RetryCount(id)), t, Done(id),
                       g.(armed := g.armed + 1, retries := g.retries + 1, lock := None), None))
  {
    hide Leads, Count;
    var armed := g.(armed := g.armed + 1);
    RetryEnds(s, t, id, armed.(retries := g.retries + 1));
    var end := With(Count(s, RetryCount(id)), t, Done(id), armed.(retries := g.retries + 1, lock := None), None);
    GoOnTo(s, t, RetryArmed(id), armed, None, true, 3, end, RetryCallback(id), armed.(retries := g.retries + 1), None);
    GoOnTo(s, t, RetryDecided(id), g, None, true, 4, end, RetryArmed(id), armed, None);
  }

  lemma DropEnds(s: State, t: Tid, id: Id, g: Segment, shouldRetry: bool)
    requires g.leaver.None?
    ensures Leads(With(s, t, DropLocked(id), g, Some(t)), t, 2, shouldRetry,
                  With(Count(s, DropCount(id)), t, Done(id), g.(tracked := false, lock := None), None))
  {
    var end := With(Count(s, DropCount(id)), t, Done(id), g.(tracked := false, lock := None), None);
    assert Leads(end, t, 0, shouldRetry, end);
    hide Leads, Count;
    var leaving := g.(tracked := false, leaver := Some(t));
    GoOn(s, t, DropCount(id), leaving, None, shouldRetry, 1, end);
    GoOnTo(s, t, DropLocked(id), g, Some(t), shouldRetry, 2, end, DropCount(id), leaving, None);
  }

  lemma DropLeads(s: State, t: Tid, id: Id, g: Segment, shouldRetry: bool)
    requires g.leaver.None?
    ensures Leads(With(s, t, DropDecided(id), g, None), t, 3, shouldRetry,
                  With(Count(s, DropCount(id)), t, Done(id), g.(tracked := false, lock := None), None))
  {
    var end := With(Count(s, DropCount(id)), t, Done(id), g.(tracked := false, lock := None), None);
    hide Leads, Count;
    DropEnds(s, t, id, g, shouldRetry);
    GoOnTo(s, t, DropDecided(id), g, None, shouldRetry, 3, end, DropLocked(id), g, Some(t));
  }

  /** The timer thread goes on as it decides. */
  lemma TimerDecides(s: State, t: Tid, id: Id, g: Segment, shouldRetry: bool, n: nat, end: State)
    requires g.tracked && g.inserted && g.lock.None? && !g.acknowledged
    requires var next := if g.attempts < g.maxAttempts && shouldRetry then RetryDecided(id) else DropDecided(id);
      Leads(With(s, t, next, Attempted(g, t), None), t, n, shouldRetry, end)
    ensures Leads(With(s, t, TimerFired(id), g, None), t, n + 3, shouldRetry, end)
  {
    hide Leads, Count;
    var locked := g.(lock := Some(t));
    var next := if g.attempts < g.maxAttempts && shouldRetry then RetryDecided(id) else DropDecided(id);
    GoOnTo(s, t, TimerLocked(id), locked, None, shouldRetry, n + 1, end, next, Attempted(g, t), None);
    GoOnTo(s, t, TimerFound(id), g, None, shouldRetry, n + 2, end, TimerLocked(id), locked, None);
    GoOnTo(s, t, TimerFired(id), g, None, shouldRetry, n + 3, end, TimerFound(id), g, None);
  }

  /** The segment was retransmitted once more and its timer is armed again. */
  function Retransmitted(s: State, t: Tid, id: Id): State
    requires id in s.segments
  {
    var g := s.segments[id];
    s.(threads := s.threads[t := Done(id)],
       segments := s.segments[id := g.(attempts := g.attempts + 1, armed := 1, retries := g.retries + 1, handler := t)],
       mapOwner := None,
       stats := s.stats.(retransmitted := s.stats.retransmitted + 1),
       retried := s.retried + multiset{id})
  }

  /** The segment has left the map without a timer and is counted as dropped. */
  function Dropped(s: State, t: Tid, id: Id): State
    requires id in s.segments
  {
    var g := s.segments[id];
    s.(threads := s.threads[t := Done(id)],
       segments := s.segments[id := g.(attempts := g.attempts + 1, armed := 0, tracked := false, handler := t)],
       mapOwner := None,
       stats := s.stats.(dropped := s.stats.dropped + 1, active := s.stats.active - 1),
       dropped := s.dropped + {id})
  }

  lemma TimerStarts(s: State, t: Tid, id: Id)
    requires t !in s.threads && id in s.segments && s.mapOwner.None? && s.segments[id].armed == 1
    ensures Enabled(s, Fire(t, id))
    ensures Step(s, Fire(t, id)) == With(s, t, TimerFired(id), s.segments[id].(armed := 0, handler := t), None)
  {
  }

  lemma TimerEnds(s: State, t: Tid, id: Id)
    requires id in s.segments && IsUnlocked(s, id)
    ensures var g := Attempted(s.segments[id].(armed := 0, handler := t), t);
      && g.leaver == s.segments[id].leaver
      && With(Count(s, RetryCount(id)), t, Done(id), g.(armed := g.armed + 1, retries := g.retries + 1, lock := None),
              None) == Retransmitted(s, t, id)
      && With(Count(s, DropCount(id)), t, Done(id), g.(tracked := false, lock := None), None) == Dropped(s, t, id)
  {
  }

  /** A timer that fires retransmits the segment once and is armed again, if attempts are left and
      the strategy says yes. */
  lemma RetryAlone(s: State, t: Tid, id: Id)
    requires Inv(s) && IsFree(s, t, id) && s.segments[id].armed == 1
    requires s.segments[id].attempts < s.segments[id].maxAttempts
    ensures var es := [Fire(t, id)] + Advances(t, 7, true);
      IsRun(s, es) && Run(s, es) == Retransmitted(s, t, id)
  {
    hide *;
    FreeSegment(s, t, id);
    TimerStarts(s, t, id);
    TimerEnds(s, t, id);
    var g := s.segments[id].(armed := 0, handler := t);
    RetryLeads(s, t, id, Attempted(g, t));
    TimerDecides(s, t, id, g, true, 4, Retransmitted(s, t, id));
    CallLeads(s, Fire(t, id), 7, true, Retransmitted(s, t, id));
  }

  /** If no attempt is left or the strategy says no, it drops the segment. */
  lemma DropAlone(s: State, t: Tid, id: Id, shouldRetry: bool)
    requires Inv(s) && IsFree(s, t, id) && s.segments[id].armed == 1
    requires s.segments[id].attempts < s.segments[id].maxAttempts ==> !shouldRetry
    ensures var es := [Fire(t, id)] + Advances(t, 6, shouldRetry);
      IsRun(s, es) && Run(s, es) == Dropped(s, t, id)
  {
    hide *;
    FreeSegment(s, t, id);
    TimerStarts(s, t, id);
    TimerEnds(s, t, id);
    var g := s.segments[id].(armed := 0, handler := t);
    DropLeads(s, t, id, Attempted(g, t), shouldRetry);
    TimerDecides(s, t, id, g, shouldRetry, 3, Dropped(s, t, id));
    CallLeads(s, Fire(t, id), 6, shouldRetry, Dropped(s, t, id));
  }

  /** Tracking arms the timer, puts the segment into the map and counts it. */
  lemma TrackAlone(s: State, t: Tid, id: Id, maxAttempts: int)
    requires t !in s.threads && id !in s.segments && s.mapOwner.None?
    ensures var es := [Track(t, id, maxAttempts)] + Advances(t, 2, false);
      && IsRun(s, es)
      && Run(s, es) == s.(
           threads := s.threads[t := Done(id)],
           segments := s.segments[id := Segment(1, maxAttempts, false, None, 1, true, true, false, 0, t, t, None)],
           stats := s.stats.(total := s.stats.total + 1, active := s.stats.active + 1),
           counted := s.counted + {id})
  {
    var g := Segment(1, maxAttempts, false, None, 1, false, false, false, 0, t, t, None);
    var end := With(Count(s, TrackCount(id)), t, Done(id), g.(tracked := true, inserted := true), None);
    assert Step(s, Track(t, id, maxAttempts)) == With(s, t, TrackInsert(id), g, None);
    assert Leads(end, t, 0, false, end);
    hide Leads, Step, Advances;
    GoOn(s, t, TrackCount(id), g.(tracked := true, inserted := true), None, false, 1, end);
    GoOn(s, t, TrackInsert(id), g, None, false, 2, end);
    CallLeads(s, Track(t, id, maxAttempts), 2, false, end);
  }

  lemma {:induction false} RunConcat(s: State, a: seq<Event>, b: seq<Event>)
    requires IsRun(s, a) && IsRun(Run(s, a), b)
    ensures IsRun(s, a + b) && Run(s, a + b) == Run(Run(s, a), b)
    decreases |a|
  {
    hide Step, Enabled;
    if a == [] {
      assert a + b == b;
    } else {
      assert (a + b)[1..] == a[1..] + b;
      RunConcat(Step(s, a[0]), a[1..], b);
    }
  }

  /** The segment waits for its timer, and no thread from t on has started. */
  ghost predicate Waits(s: State, t: Tid, id: Id)
  {
    IsFree(s, t, id) && s.segments[id].armed == 1 && forall u :: u in s.threads ==> u < t
  }

  lemma RetryWaits(s: State, t: Tid, id: Id)
    requires Waits(s, t, id)
    ensures Waits(Retransmitted(s, t, id), t + 1, id)
  {
  }

  /** What is left of the attempts is used up by one timer after the other, and the segment is dropped
      by the last. */
  lemma {:induction false} TimersDrop(s: State, t: Tid, id: Id) returns (es: seq<Event>)
    requires Inv(s) && Waits(s, t, id)
    ensures var g := s.segments[id];
      var left := if g.attempts < g.maxAttempts then g.maxAttempts - g.attempts else 0;
      && IsRun(s, es)
      && Run(s, es).stats == s.stats.(
           retransmitted := s.stats.retransmitted + left, dropped := s.stats.dropped + 1, active := s.stats.active - 1)
      && Run(s, es).dropped == s.dropped + {id}
    decreases s.segments[id].maxAttempts - s.segments[id].attempts
  {
    hide Inv, IsRun, Run, Step, Advances;
    var g := s.segments[id];
    if g.attempts < g.maxAttempts {
      var first := [Fire(t, id)] + Advances(t, 7, true);
      RetryAlone(s, t, id);
      RunKeepsInv(s, first);
      RetryWaits(s, t, id);
      var rest := TimersDrop(Retransmitted(s, t, id), t + 1, id);
      es := first + rest;
      RunConcat(s, first, rest);
    } else {
      es := [Fire(t, id)] + Advances(t, 6, true);
      DropAlone(s, t, id, true);
    }
  }

  /** Every segment that nobody acknowledges can take the whole way: all the retries its attempts
      allow, and a drop. */
  lemma UnansweredSegment(id: Id, maxAttempts: int) returns (es: seq<Event>)
    ensures IsRun(Init(), es)
    ensures Run(Init(), es).stats == Stats(1, 0, AllRetries(maxAttempts), 1, 0)
    ensures Run(Init(), es).dropped == {id}
  {
    InitInv();
    hide Inv, IsRun, Run, Step, Advances;
    TrackAlone(Init(), 0, id, maxAttempts);
    var first := [Track(0, id, maxAttempts)] + Advances(0, 2, false);
    RunKeepsInv(Init(), first);
    var rest := TimersDrop(Run(Init(), first), 1, id);
    es := first + rest;
    RunConcat(Init(), first, rest);
  }
}
