/** The retransmission manager as a concurrent protocol. Calls that track or acknowledge a
    segment and timers that fire run as threads; each step of a thread is what the program does
    between two points where another thread can interfere. Segment identifiers are fresh. */
module Retransmission {
  import opened Options

  type Id = string
  type Tid = nat

  /** A segment. `attempts`, `maxAttempts` and `acknowledged` are the fields its mutex protects,
      `lock` is the mutex, `armed` the number of its timers that have not fired, `tracked` its
      presence in the manager's map. The rest is history: whether it ever was in the map, whether a
      timer of it looked for it before that, how many retry callbacks were started, and which thread
      last took its timer, tracks it, and took it out of the map without having counted it yet. */
  datatype Segment = Segment(
    attempts: nat, maxAttempts: int, acknowledged: bool, lock: Option<Tid>, armed: nat, tracked: bool,
    inserted: bool, missed: bool, retries: nat, handler: Tid, tracker: Tid, leaver: Option<Tid>)

  /** Where a thread is. A comment says which locks it holds there. */
  datatype Pc =
    | TrackInsert(id: Id)       // timer armed, not in the map yet
    | TrackCount(id: Id)        // in the map, not in the statistics yet
    | AckStart(id: Id)
    | AckFound(id: Id)          // segmentsMux
    | AckLocked(id: Id)         // segmentsMux, segment.mutex
    | AckMarked(id: Id)         // segmentsMux
    | AckCount(id: Id)
    | TimerFired(id: Id)
    | TimerFound(id: Id)
    | TimerLocked(id: Id)       // segment.mutex
    | RetryDecided(id: Id)      // segment.mutex
    | RetryArmed(id: Id)        // segment.mutex
    | RetryCallback(id: Id)     // segment.mutex
    | RetryCount(id: Id)        // segment.mutex
    | DropDecided(id: Id)       // segment.mutex
    | DropLocked(id: Id)        // segment.mutex, segmentsMux
    | DropCount(id: Id)         // segment.mutex
    | Done(id: Id)

  predicate HoldsMap(pc: Pc)
  {
    pc.AckFound? || pc.AckLocked? || pc.AckMarked? || pc.DropLocked?
  }

  predicate IsRetrying(pc: Pc)
  {
    pc.RetryDecided? || pc.RetryArmed? || pc.RetryCallback? || pc.RetryCount?
  }

  predicate IsDropping(pc: Pc)
  {
    pc.DropDecided? || pc.DropLocked? || pc.DropCount?
  }

  predicate HoldsSegment(pc: Pc)
  {
    pc.AckLocked? || pc.TimerLocked? || IsRetrying(pc) || IsDropping(pc)
  }

  /** The thread took the segment's timer and has not armed a new one. */
  predicate CarriesTimer(pc: Pc)
  {
    pc.TimerFired? || pc.TimerFound? || pc.TimerLocked? || pc.RetryDecided? || IsDropping(pc)
  }

  predicate IsTracking(pc: Pc)
  {
    pc.TrackInsert? || pc.TrackCount?
  }

  /** The segment has left the map but is not in the statistics yet. */
  predicate IsLeaving(pc: Pc)
  {
    pc.AckCount? || pc.DropCount?
  }

  datatype Stats = Stats(total: nat, acknowledged: nat, retransmitted: nat, dropped: nat, active: int)

  /** `counted`, `acked`, `dropped` and `retried` are history: the segments counted as tracked, as
      acknowledged and as dropped, and those counted as retransmitted, as often as they were. */
  datatype State = State(
    segments: map<Id, Segment>, mapOwner: Option<Tid>, threads: map<Tid, Pc>, stats: Stats,
    counted: set<Id>, acked: set<Id>, dropped: set<Id>, retried: multiset<Id>)

  function Init(): State
  {
    State(map[], None, map[], Stats(0, 0, 0, 0, 0), {}, {}, {}, multiset{})
  }

  // ---------------------------------------------------------------------------
  // Steps

  /** A call or a timer starts a thread; `Advance` lets a thread take its next step. When a timer
      thread decides, `shouldRetry` is the answer of the backoff strategy. */
  datatype Event =
    | Track(t: Tid, id: Id, maxAttempts: int)
    | Ack(t: Tid, id: Id)
    | Fire(t: Tid, id: Id)
    | Advance(t: Tid, shouldRetry: bool)

  predicate IsTracked(s: State, id: Id)
  {
    id in s.segments && s.segments[id].tracked
  }

  predicate IsUnlocked(s: State, id: Id)
  {
    id in s.segments && s.segments[id].lock.None?
  }

  /** The locks the next step of the thread takes are free. */
  predicate CanAdvance(s: State, pc: Pc)
  {
    match pc
    case TrackInsert(id) => id in s.segments && s.mapOwner.None?
    case AckStart(_) => s.mapOwner.None?
    case TimerFired(_) => s.mapOwner.None?
    case DropDecided(id) => s.mapOwner.None?
    case AckFound(id) => IsUnlocked(s, id)
    case TimerFound(id) => IsUnlocked(s, id)
    case Done(_) => false
    case _ => pc.id in s.segments
  }

  predicate Enabled(s: State, e: Event)
  {
    match e
    case Track(t, id, _) => t !in s.threads && id !in s.segments
    case Ack(t, _) => t !in s.threads
    case Fire(t, id) => t !in s.threads && id in s.segments && s.segments[id].armed > 0
    case Advance(t, _) => t in s.threads && CanAdvance(s, s.threads[t])
  }

  /** Where the thread goes next. */
  function NextPc(s: State, pc: Pc, shouldRetry: bool): (next: Pc)
    requires CanAdvance(s, pc)
    ensures next.id == pc.id
  {
    var id := pc.id;
    match pc
    case TrackInsert(_) => TrackCount(id)
    case TrackCount(_) => Done(id)
    case AckStart(_) => if IsTracked(s, id) then AckFound(id) else Done(id)
    case AckFound(_) => AckLocked(id)
    case AckLocked(_) => AckMarked(id)
    case AckMarked(_) => AckCount(id)
    case AckCount(_) => Done(id)
    case TimerFired(_) => if IsTracked(s, id) then TimerFound(id) else Done(id)
    case TimerFound(_) => TimerLocked(id)
    case TimerLocked(_) =>
      var g := s.segments[id];
      if g.acknowledged then Done(id)
      else if g.attempts + 1 <= g.maxAttempts && shouldRetry then RetryDecided(id)
      else DropDecided(id)
    case RetryDecided(_) => RetryArmed(id)
    case RetryArmed(_) => RetryCallback(id)
    case RetryCallback(_) => RetryCount(id)
    case RetryCount(_) => Done(id)
    case DropDecided(_) => DropLocked(id)
    case DropLocked(_) => DropCount(id)
    case DropCount(_) => Done(id)
  }

  /** What the step does to the thread's segment. */
  function NextSegment(g: Segment, t: Tid, pc: Pc): Segment
  {
    match pc
    case TrackInsert(_) => g.(tracked := true, inserted := true)
    case AckFound(_) => g.(lock := Some(t))
    case AckLocked(_) =>
      if g.acknowledged then g.(lock := None)
      else g.(acknowledged := true, armed := if g.armed > 0 then g.armed - 1 else 0, lock := None)
    case AckMarked(_) => g.(tracked := false, leaver := Some(t))
    case AckCount(_) => g.(leaver := None)
    case TimerFired(_) => g.(missed := g.missed || !g.inserted)
    case TimerFound(_) => g.(lock := Some(t))
    case TimerLocked(_) => if g.acknowledged then g.(lock := None) else g.(attempts := g.attempts + 1)
    case RetryDecided(_) => g.(armed := g.armed + 1)
    case RetryArmed(_) => g.(retries := g.retries + 1)
    case RetryCount(_) => g.(lock := None)
    case DropLocked(_) => g.(tracked := false, leaver := Some(t))
    case DropCount(_) => g.(leaver := None, lock := None)
    case _ => g
  }

  function NextOwner(s: State, t: Tid, pc: Pc): Option<Tid>
  {
    match pc
    case AckStart(id) => if IsTracked(s, id) then Some(t) else None
    case AckMarked(_) => None
    case DropDecided(_) => Some(t)
    case DropLocked(_) => None
    case _ => s.mapOwner
  }

  function NextStats(k: Stats, pc: Pc): Stats
  {
    match pc
    case TrackCount(_) => k.(total := k.total + 1, active := k.active + 1)
    case AckCount(_) => k.(acknowledged := k.acknowledged + 1, active := k.active - 1)
    case RetryCount(_) => k.(retransmitted := k.retransmitted + 1)
    case DropCount(_) => k.(dropped := k.dropped + 1, active := k.active - 1)
    case _ => k
  }

  function AdvanceStep(s: State, t: Tid, shouldRetry: bool): State
    requires t in s.threads && CanAdvance(s, s.threads[t])
  {
    var pc := s.threads[t];
    var id := pc.id;
    State(
      if id in s.segments then s.segments[id := NextSegment(s.segments[id], t, pc)] else s.segments,
      NextOwner(s, t, pc),
      s.threads[t := NextPc(s, pc, shouldRetry)],
      NextStats(s.stats, pc),
      if pc.TrackCount? then s.counted + {id} else s.counted,
      if pc.AckCount? then s.acked + {id} else s.acked,
      if pc.DropCount? then s.dropped + {id} else s.dropped,
      if pc.RetryCount? then s.retried + multiset{id} else s.retried)
  }

  function Step(s: State, e: Event): State
    requires Enabled(s, e)
  {
    match e
    case Track(t, id, maxAttempts) =>
      s.(threads := s.threads[t := TrackInsert(id)],
         segments := s.segments[id := Segment(1, maxAttempts, false, None, 1, false, false, false, 0, t, t, None)])
    case Ack(t, id) => s.(threads := s.threads[t := AckStart(id)])
    case Fire(t, id) =>
      var g := s.segments[id];
      s.(threads := s.threads[t := TimerFired(id)],
         segments := s.segments[id := g.(armed := g.armed - 1, handler := t)])
    case Advance(t, shouldRetry) => AdvanceStep(s, t, shouldRetry)
  }

  // ---------------------------------------------------------------------------
  // Invariants

  /** What the place of a thread says about its segment. */
  predicate PlaceOk(g: Segment, t: Tid, pc: Pc)
  {
    && (HoldsSegment(pc) ==> g.lock == Some(t))
    && (CarriesTimer(pc) ==> g.handler == t && g.armed == 0)
    && (pc.AckFound? || pc.AckLocked? || pc.AckMarked? || pc.DropDecided? || pc.DropLocked? ==> g.tracked)
    && (pc.TimerFound? || pc.TimerLocked? ==> g.tracked || g.acknowledged)
    && (pc.TimerFound? || pc.TimerLocked? || IsRetrying(pc) ==> g.inserted)
    && (CarriesTimer(pc) || IsRetrying(pc) ==> !g.missed)
    && (pc.AckMarked? || pc.AckCount? ==> g.acknowledged)
    && (IsRetrying(pc) || IsDropping(pc) ==> !g.acknowledged)
    && (pc.RetryDecided? || pc.RetryArmed? ==> g.retries + 2 <= g.attempts <= g.maxAttempts)
    && (IsLeaving(pc) ==> g.leaver == Some(t))
    && (IsTracking(pc) ==> g.tracker == t)
    && (pc.TrackInsert? ==> !g.inserted)
    && (pc.TrackCount? ==> g.inserted)
  }

  predicate ThreadOk(s: State, t: Tid)
    requires t in s.threads
  {
    var pc := s.threads[t];
    && (HoldsMap(pc) ==> s.mapOwner == Some(t))
    && (!pc.AckStart? && !pc.Done? ==> pc.id in s.segments && PlaceOk(s.segments[pc.id], t, pc))
    && (pc.TrackCount? ==> pc.id !in s.counted)
  }

  /** The place of a thread that works on the segment; any other thread has nothing to do with it. */
  function PcOf(s: State, t: Tid, id: Id): Pc
  {
    if t in s.threads && s.threads[t].id == id then s.threads[t] else Done(id)
  }

  function AsInt(b: bool): int
  {
    if b then 1 else 0
  }

  /** A segment that was inserted is in exactly one place: in the map, leaving it, or counted as
      acknowledged or as dropped. */
  predicate InOnePlace(s: State, id: Id)
    requires id in s.segments
  {
    var g := s.segments[id];
    AsInt(g.tracked) + AsInt(g.leaver.Some?) + AsInt(id in s.acked) + AsInt(id in s.dropped) == AsInt(g.inserted)
  }

  /** Threads that hold the segment's mutex, remove the segment or track it are where they say. */
  predicate OwnersOk(s: State, id: Id)
    requires id in s.segments
  {
    var g := s.segments[id];
    && g.armed <= 1
    && (g.lock.Some? ==> HoldsSegment(PcOf(s, g.lock.value, id)))
    && (g.leaver.Some? ==> IsLeaving(PcOf(s, g.leaver.value, id)))
    && (!g.inserted ==> PcOf(s, g.tracker, id).TrackInsert?)
    && (g.inserted && id !in s.counted ==> PcOf(s, g.tracker, id).TrackCount?)
  }

  predicate LedgerOk(s: State, id: Id)
    requires id in s.segments
  {
    var g := s.segments[id];
    && InOnePlace(s, id)
    && (id in s.counted ==> g.inserted)
    && (id in s.acked ==> g.acknowledged)
    && (id in s.dropped ==> !g.acknowledged)
  }

  predicate AttemptsOk(g: Segment)
  {
    && g.retries + 1 <= g.attempts
    && (g.retries > 0 ==> g.retries + 1 <= g.maxAttempts)
  }

  function MapOwnerPc(s: State, id: Id): Pc
  {
    if s.mapOwner.Some? then PcOf(s, s.mapOwner.value, id) else Done(id)
  }

  /** A segment that still has to be settled has a timer armed or in some thread's hands, unless its
      first timer missed it; an acknowledged one is on its way out of the map. */
  predicate TimerOk(s: State, id: Id)
    requires id in s.segments
  {
    var g := s.segments[id];
    && ((g.tracked || !g.inserted) && !g.acknowledged && !g.missed && g.armed == 0 ==>
          CarriesTimer(PcOf(s, g.handler, id)))
    && (g.missed ==> g.armed == 0)
    && (g.tracked && g.acknowledged ==> MapOwnerPc(s, id).AckMarked?)
    && (g.acknowledged ==> g.inserted)
  }

  predicate SegmentOk(s: State, id: Id)
    requires id in s.segments
  {
    OwnersOk(s, id) && LedgerOk(s, id) && AttemptsOk(s.segments[id]) && TimerOk(s, id)
  }

  ghost predicate Known(s: State)
  {
    s.counted + s.acked + s.dropped <= s.segments.Keys
  }

  /** The statistics are the sizes of the sets of segments counted. */
  ghost predicate CountInv(s: State)
  {
    && s.stats.total == |s.counted|
    && s.stats.acknowledged == |s.acked|
    && s.stats.dropped == |s.dropped|
    && s.stats.retransmitted == |s.retried|
    && s.stats.active == |s.counted| - |s.acked| - |s.dropped|
  }

  ghost predicate MapOwnerOk(s: State)
  {
    s.mapOwner.Some? ==> s.mapOwner.value in s.threads && HoldsMap(s.threads[s.mapOwner.value])
  }

  ghost predicate Inv(s: State)
  {
    && (forall t :: t in s.threads ==> ThreadOk(s, t))
    && (forall id :: id in s.segments ==> SegmentOk(s, id))
    && MapOwnerOk(s)
    && Known(s)
    && CountInv(s)
  }

  /** The thread that takes the step and the segment it works on are as they should be. */
  predicate ActorOk(s: State, e: Event)
  {
    && (e.Advance? && e.t in s.threads ==> ThreadOk(s, e.t))
    && (ActedOn(s, e) in s.segments ==> SegmentOk(s, ActedOn(s, e)))
  }

  function ActedOn(s: State, e: Event): Id
  {
    if e.Advance? then if e.t in s.threads then s.threads[e.t].id else "" else e.id
  }

  lemma NextSegmentKeepsPlace(g: Segment, t: Tid, pc: Pc, u: Tid, other: Pc)
    requires t != u && PlaceOk(g, t, pc) && PlaceOk(g, u, other) && !(HoldsMap(pc) && HoldsMap(other))
    requires (g.tracked ==> g.leaver.None?) && (pc.AckFound? || pc.TimerFound? ==> g.lock.None?)
    ensures PlaceOk(NextSegment(g, t, pc), u, other)
    ensures !(IsTracking(pc) && IsTracking(other))
  {
  }

  lemma AdvanceKeepsOther(s: State, t: Tid, shouldRetry: bool, u: Tid)
    requires t in s.threads && CanAdvance(s, s.threads[t]) && ThreadOk(s, t)
    requires u in s.threads && u != t && ThreadOk(s, u)
    requires var id := s.threads[t].id; id in s.segments && s.segments[id].tracked ==> s.segments[id].leaver.None?
    ensures ThreadOk(AdvanceStep(s, t, shouldRetry), u)
  {
    hide NextPc;
    hide NextStats;
    hide NextSegment;
    hide PlaceOk;
    var pc := s.threads[t];
    if pc.id in s.segments {
      if pc.AckStart? || pc.Done? {
        AtRestChangesNothing(s.segments[pc.id], t, pc);
      } else if s.threads[u].id == pc.id && PlaceOk(s.segments[pc.id], u, s.threads[u]) {
        NextSegmentKeepsPlace(s.segments[pc.id], t, pc, u, s.threads[u]);
      }
    }
  }

  lemma AtRestChangesNothing(g: Segment, t: Tid, pc: Pc)
    requires pc.AckStart? || pc.Done?
    ensures NextSegment(g, t, pc) == g
  {
  }

  /** A step leaves another thread's place as sound as it was. */
  lemma StepKeepsOther(s: State, e: Event, u: Tid)
    requires Enabled(s, e) && ActorOk(s, e)
    requires u in s.threads && u != e.t && ThreadOk(s, u)
    ensures ThreadOk(Step(s, e), u)
  {
    hide OwnersOk;
    hide AttemptsOk;
    hide TimerOk;
    hide PcOf;
    hide AdvanceStep;
    if e.Advance? {
      hide ThreadOk;
      hide CanAdvance;
      AdvanceKeepsOther(s, e.t, e.shouldRetry, u);
    }
  }

  lemma AdvanceMovesThread(s: State, t: Tid, shouldRetry: bool)
    requires t in s.threads && CanAdvance(s, s.threads[t]) && ThreadOk(s, t)
    requires s.threads[t].id in s.segments ==> SegmentOk(s, s.threads[t].id)
    ensures ThreadOk(AdvanceStep(s, t, shouldRetry), t)
  {
    hide PcOf;
    hide OwnersOk;
  }

  lemma StepMovesThread(s: State, e: Event)
    requires Enabled(s, e) && ActorOk(s, e)
    ensures ThreadOk(Step(s, e), e.t)
  {
    match e
    case Advance(t, shouldRetry) =>
      hide ThreadOk;
      hide SegmentOk;
      hide AdvanceStep;
      AdvanceMovesThread(s, t, shouldRetry);
    case _ =>
  }

  lemma AdvanceKeepsOwners(s: State, t: Tid, shouldRetry: bool)
    requires t in s.threads && CanAdvance(s, s.threads[t]) && ThreadOk(s, t)
    requires s.threads[t].id in s.segments && SegmentOk(s, s.threads[t].id)
    ensures OwnersOk(AdvanceStep(s, t, shouldRetry), s.threads[t].id)
  {
    hide AttemptsOk;
    hide TimerOk;
  }

  /** A step of a thread that works on another segment. */
  lemma ElsewhereKeepsOwners(s: State, e: Event, id: Id)
    requires Enabled(s, e) && ActedOn(s, e) != id && id in s.segments && OwnersOk(s, id)
    ensures OwnersOk(Step(s, e), id)
  {
    hide NextPc;
    hide NextSegment;
    hide NextOwner;
    hide NextStats;
    hide CanAdvance;
  }

  lemma StartKeepsOwners(s: State, e: Event)
    requires Enabled(s, e) && !e.Advance? && e.id in Step(s, e).segments
    requires e.id in s.segments ==> OwnersOk(s, e.id)
    ensures OwnersOk(Step(s, e), e.id)
  {
  }

  lemma StepKeepsOwners(s: State, e: Event, id: Id)
    requires Enabled(s, e) && ActorOk(s, e) && id in Step(s, e).segments
    requires id in s.segments ==> SegmentOk(s, id)
    ensures OwnersOk(Step(s, e), id)
  {
    hide ThreadOk;
    hide CanAdvance;
    hide OwnersOk;
    hide LedgerOk;
    hide AttemptsOk;
    hide TimerOk;
    hide AdvanceStep;
    if ActedOn(s, e) != id {
      StepAddsActedOn(s, e);
      ElsewhereKeepsOwners(s, e, id);
    } else if e.Advance? {
      AdvanceAddsNothing(s, e.t, e.shouldRetry);
      AdvanceKeepsOwners(s, e.t, e.shouldRetry);
    } else {
      StartKeepsOwners(s, e);
    }
  }

  lemma AdvanceAddsNothing(s: State, t: Tid, shouldRetry: bool)
    requires t in s.threads && CanAdvance(s, s.threads[t])
    ensures AdvanceStep(s, t, shouldRetry).segments.Keys == s.segments.Keys
  {
  }

  lemma StepAddsActedOn(s: State, e: Event)
    requires Enabled(s, e)
    ensures Step(s, e).segments.Keys <= s.segments.Keys + {ActedOn(s, e)}
  {
    hide AdvanceStep;
    if e.Advance? {
      AdvanceAddsNothing(s, e.t, e.shouldRetry);
    }
  }

  lemma StepKeepsLedger(s: State, e: Event, id: Id)
    requires Enabled(s, e) && ActorOk(s, e) && id in Step(s, e).segments
    requires id in s.segments ==> SegmentOk(s, id)
    requires Known(s)
    ensures LedgerOk(Step(s, e), id)
  {
    hide OwnersOk;
    hide AttemptsOk;
    hide TimerOk;
    hide PcOf;
  }

  lemma AdvanceKeepsTimer(s: State, t: Tid, shouldRetry: bool)
    requires t in s.threads && CanAdvance(s, s.threads[t]) && ThreadOk(s, t)
    requires s.threads[t].id in s.segments && SegmentOk(s, s.threads[t].id)
    ensures TimerOk(AdvanceStep(s, t, shouldRetry), s.threads[t].id)
  {
    hide AttemptsOk;
    hide NextStats;
  }

  lemma StepKeepsTimer(s: State, e: Event, id: Id)
    requires Enabled(s, e) && ActorOk(s, e) && id in Step(s, e).segments
    requires id in s.segments ==> SegmentOk(s, id)
    ensures TimerOk(Step(s, e), id)
  {
    hide AttemptsOk;
    hide LedgerOk;
    hide NextStats;
    if e.Advance? && s.threads[e.t].id == id {
      hide ThreadOk;
      hide CanAdvance;
      hide OwnersOk;
      hide TimerOk;
      hide AdvanceStep;
      AdvanceKeepsTimer(s, e.t, e.shouldRetry);
    }
  }

  lemma NextSegmentKeepsAttempts(g: Segment, t: Tid, pc: Pc)
    requires PlaceOk(g, t, pc) && AttemptsOk(g)
    ensures AttemptsOk(NextSegment(g, t, pc))
  {
  }

  lemma StepKeepsAttempts(s: State, e: Event, id: Id)
    requires Enabled(s, e) && ActorOk(s, e) && id in Step(s, e).segments
    requires id in s.segments ==> SegmentOk(s, id)
    ensures AttemptsOk(Step(s, e).segments[id])
  {
    hide OwnersOk;
    hide LedgerOk;
    hide TimerOk;
    hide PcOf;
    hide NextOwner;
    hide NextStats;
    if e.Advance? && s.threads[e.t].id == id && id in s.segments {
      var pc := s.threads[e.t];
      if pc.AckStart? || pc.Done? {
        assert NextSegment(s.segments[id], e.t, pc) == s.segments[id];
      } else {
        hide NextSegment;
        hide PlaceOk;
        hide AttemptsOk;
        NextSegmentKeepsAttempts(s.segments[id], e.t, pc);
      }
    }
  }

  /** A step that counts a segment counts one that was not counted before. */
  lemma CountsFreshSegment(s: State, t: Tid)
    requires t in s.threads && ThreadOk(s, t)
    requires s.threads[t].id in s.segments ==> SegmentOk(s, s.threads[t].id)
    ensures var pc := s.threads[t];
      && (pc.TrackCount? ==> pc.id !in s.counted)
      && (pc.AckCount? ==> pc.id !in s.acked)
      && (pc.DropCount? ==> pc.id !in s.dropped)
  {
    hide OwnersOk;
    hide AttemptsOk;
    hide TimerOk;
  }

  lemma AdvanceKeepsCounts(s: State, t: Tid, shouldRetry: bool)
    requires t in s.threads && CanAdvance(s, s.threads[t]) && CountInv(s)
    requires var pc := s.threads[t];
      && (pc.TrackCount? ==> pc.id !in s.counted)
      && (pc.AckCount? ==> pc.id !in s.acked)
      && (pc.DropCount? ==> pc.id !in s.dropped)
    ensures CountInv(AdvanceStep(s, t, shouldRetry))
  {
    hide CanAdvance;
    hide NextPc;
    hide NextOwner;
    hide NextSegment;
  }

  lemma StepKeepsCounts(s: State, e: Event)
    requires Enabled(s, e) && ActorOk(s, e) && CountInv(s)
    ensures CountInv(Step(s, e))
  {
    hide ThreadOk;
    hide SegmentOk;
    hide CanAdvance;
    hide AdvanceStep;
    if e.Advance? {
      CountsFreshSegment(s, e.t);
      AdvanceKeepsCounts(s, e.t, e.shouldRetry);
    }
  }

  lemma StepKeepsKnown(s: State, e: Event)
    requires Enabled(s, e) && ActorOk(s, e) && Known(s)
    ensures Known(Step(s, e))
  {
    hide SegmentOk;
  }

  lemma StepKeepsMapOwner(s: State, e: Event)
    requires Enabled(s, e) && ActorOk(s, e) && MapOwnerOk(s)
    ensures MapOwnerOk(Step(s, e))
  {
    hide SegmentOk;
  }

  lemma StepKeepsInv(s: State, e: Event)
    requires Inv(s) && Enabled(s, e)
    ensures Inv(Step(s, e))
  {
    hide ThreadOk;
    hide SegmentOk;
    hide OwnersOk;
    hide LedgerOk;
    hide AttemptsOk;
    hide TimerOk;
    hide CountInv;
    hide Known;
    hide MapOwnerOk;
    hide Step;
    assert ActorOk(s, e);
    forall u | u in Step(s, e).threads ensures ThreadOk(Step(s, e), u) {
      StepThreads(s, e);
      if u == e.t {
        StepMovesThread(s, e);
      } else {
        StepKeepsOther(s, e, u);
      }
    }
    forall id | id in Step(s, e).segments ensures SegmentOk(Step(s, e), id) {
      StepKeepsSegment(s, e, id);
    }
    StepKeepsMapOwner(s, e);
    StepKeepsKnown(s, e);
    StepKeepsCounts(s, e);
  }

  lemma StepThreads(s: State, e: Event)
    requires Enabled(s, e)
    ensures Step(s, e).threads.Keys == s.threads.Keys + {e.t}
  {
  }

  lemma StepKeepsSegment(s: State, e: Event, id: Id)
    requires Enabled(s, e) && ActorOk(s, e) && id in Step(s, e).segments
    requires id in s.segments ==> SegmentOk(s, id)
    requires Known(s)
    ensures SegmentOk(Step(s, e), id)
  {
    StepKeepsOwners(s, e, id);
    StepKeepsLedger(s, e, id);
    StepKeepsAttempts(s, e, id);
    StepKeepsTimer(s, e, id);
    hide TimerOk;
    hide OwnersOk;
    hide LedgerOk;
    hide AttemptsOk;
    hide TimerOk;
    hide Step;
  }

  // ---------------------------------------------------------------------------
  // Runs

  /** Every event is enabled when its turn comes. */
  predicate IsRun(s: State, es: seq<Event>)
    decreases |es|
  {
    es == [] || (Enabled(s, es[0]) && IsRun(Step(s, es[0]), es[1..]))
  }

  function Run(s: State, es: seq<Event>): State
    requires IsRun(s, es)
    decreases |es|
  {
    if es == [] then s else Run(Step(s, es[0]), es[1..])
  }

  lemma {:induction false} RunKeepsInv(s: State, es: seq<Event>)
    requires Inv(s) && IsRun(s, es)
    ensures Inv(Run(s, es))
    decreases |es|
  {
    hide Inv;
    hide Step;
    hide Enabled;
    if es != [] {
      StepKeepsInv(s, es[0]);
      RunKeepsInv(Step(s, es[0]), es[1..]);
    }
  }

  lemma InitInv()
    ensures Inv(Init())
  {
  }

  function Retries(s: State, id: Id): nat
  {
    if id in s.segments then s.segments[id].retries else 0
  }

  /** While a segment's retry callback runs, and when one starts, the segment is unacknowledged. */
  lemma CallbackMeansUnacknowledged(es: seq<Event>, t: Tid)
    requires IsRun(Init(), es)
    requires t in Run(Init(), es).threads
    requires var pc := Run(Init(), es).threads[t]; pc.RetryArmed? || pc.RetryCallback?
    ensures var s := Run(Init(), es); s.threads[t].id in s.segments && !s.segments[s.threads[t].id].acknowledged
  {
    InitInv();
    RunKeepsInv(Init(), es);
    hide Run;
    assert ThreadOk(Run(Init(), es), t);
  }

  predicate IsAcknowledged(s: State, id: Id)
  {
    id in s.segments && s.segments[id].acknowledged
  }

  lemma AcknowledgedStep(s: State, e: Event, id: Id)
    requires Inv(s) && Enabled(s, e) && IsAcknowledged(s, id)
    ensures IsAcknowledged(Step(s, e), id)
    ensures Retries(Step(s, e), id) == Retries(s, id)
  {
    hide SegmentOk;
    assert e.Advance? ==> ThreadOk(s, e.t);
  }

  /** Once a segment is acknowledged, no retry callback starts for it, and it is never dropped. */
  lemma {:induction false} NoRetryAfterAck(s: State, es: seq<Event>, id: Id)
    requires Inv(s) && IsRun(s, es) && IsAcknowledged(s, id)
    ensures IsAcknowledged(Run(s, es), id)
    ensures Retries(Run(s, es), id) == Retries(s, id)
    ensures id !in Run(s, es).dropped
    decreases |es|
  {
    hide Step;
    hide Enabled;
    hide Retries;
    hide ThreadOk;
    if es == [] {
      assert SegmentOk(s, id);
    } else {
      StepKeepsInv(s, es[0]);
      AcknowledgedStep(s, es[0], id);
      NoRetryAfterAck(Step(s, es[0]), es[1..], id);
    }
  }

  /** Whatever the backoff strategy answers, a segment is retransmitted less often than its
      attempts allow. */
  lemma RetriesAreBounded(es: seq<Event>, id: Id)
    requires IsRun(Init(), es) && Retries(Run(Init(), es), id) > 0
    ensures Retries(Run(Init(), es), id) <= Run(Init(), es).segments[id].maxAttempts - 1
  {
    InitInv();
    RunKeepsInv(Init(), es);
    hide Run;
    assert SegmentOk(Run(Init(), es), id);
  }

  /** Each segment is counted at most once: the statistics are sizes of sets, and no segment is
      both acknowledged and dropped. */
  lemma CountedAtMostOnce(es: seq<Event>)
    requires IsRun(Init(), es)
    ensures var s := Run(Init(), es);
      && s.stats.total == |s.counted| && s.stats.acknowledged == |s.acked| && s.stats.dropped == |s.dropped|
      && s.acked !! s.dropped
  {
    InitInv();
    RunKeepsInv(Init(), es);
    var s := Run(Init(), es);
    hide Run;
    forall id | id in s.acked ensures id !in s.dropped {
      assert SegmentOk(s, id);
    }
  }

  function Inserted(s: State): set<Id>
  {
    set id | id in s.segments && s.segments[id].inserted
  }

  function Tracked(s: State): set<Id>
  {
    set id | id in s.segments && s.segments[id].tracked
  }

  predicate Quiescent(s: State)
  {
    forall t :: t in s.threads ==> s.threads[t].Done?
  }

  /** When no thread is at work, every segment ever inserted is still in the map, or was counted
      once as acknowledged or once as dropped; the statistics add up, and all locks are free. */
  lemma QuiescentBalance(es: seq<Event>)
    requires IsRun(Init(), es) && Quiescent(Run(Init(), es))
    ensures var s := Run(Init(), es);
      && Inserted(s) == Tracked(s) + s.acked + s.dropped
      && Tracked(s) !! s.acked !! s.dropped
      && s.stats.total == |Inserted(s)|
      && s.stats.active == |Tracked(s)|
      && s.stats.total == s.stats.acknowledged + s.stats.dropped + s.stats.active
      && s.mapOwner.None?
      && (forall id :: id in s.segments ==> s.segments[id].lock.None?)
  {
    InitInv();
    RunKeepsInv(Init(), es);
    var s := Run(Init(), es);
    hide Run;
    QuiescentLedger(s);
    assert s.counted == Inserted(s);
    SizeOfUnion(Tracked(s) + s.acked, s.dropped);
    SizeOfUnion(Tracked(s), s.acked);
  }

  /** In one place of the three that remain when no segment is on its way out. */
  predicate InOnePlaceAtRest(s: State, id: Id)
    requires id in s.segments
  {
    var g := s.segments[id];
    AsInt(g.tracked) + AsInt(id in s.acked) + AsInt(id in s.dropped) == AsInt(g.inserted)
  }

  lemma QuiescentLedger(s: State)
    requires Inv(s) && Quiescent(s)
    ensures Inserted(s) == s.counted == Tracked(s) + s.acked + s.dropped
    ensures Tracked(s) !! s.acked !! s.dropped
    ensures s.mapOwner.None?
    ensures forall id :: id in s.segments ==> s.segments[id].lock.None?
  {
    hide Quiescent;
    hide SegmentOk;
    hide ThreadOk;
    hide CountInv;
    forall id | id in s.segments
      ensures s.segments[id].inserted <==> id in s.counted
      ensures InOnePlaceAtRest(s, id)
      ensures s.segments[id].lock.None?
    {
      QuiescentSegment(s, id);
    }
    QuiescentMap(s);
  }

  lemma QuiescentMap(s: State)
    requires Quiescent(s) && MapOwnerOk(s)
    ensures s.mapOwner.None?
  {
  }

  lemma QuiescentSegment(s: State, id: Id)
    requires Quiescent(s) && id in s.segments && SegmentOk(s, id)
    ensures s.segments[id].inserted <==> id in s.counted
    ensures InOnePlaceAtRest(s, id)
    ensures s.segments[id].lock.None?
  {
  }

  lemma SizeOfUnion(a: set<Id>, b: set<Id>)
    requires a !! b
    ensures |a + b| == |a| + |b|
  {
  }

  /** Two threads never hold the manager's lock, or one segment's mutex, at the same time. */
  lemma MutualExclusion(es: seq<Event>, t: Tid, u: Tid)
    requires IsRun(Init(), es) && t in Run(Init(), es).threads && u in Run(Init(), es).threads && t != u
    ensures var p, q := Run(Init(), es).threads[t], Run(Init(), es).threads[u];
      && !(HoldsMap(p) && HoldsMap(q))
      && !(HoldsSegment(p) && HoldsSegment(q) && p.id == q.id)
  {
    hide IsRun;
    hide Run;
    InitInv();
    RunKeepsInv(Init(), es);
    var s := Run(Init(), es);
    assert ThreadOk(s, t) && ThreadOk(s, u);
    hide Inv;
    LocksExclude(s, t, u);
  }

  lemma LocksExclude(s: State, t: Tid, u: Tid)
    requires t in s.threads && u in s.threads && t != u && ThreadOk(s, t) && ThreadOk(s, u)
    ensures !(HoldsMap(s.threads[t]) && HoldsMap(s.threads[u]))
    ensures !(HoldsSegment(s.threads[t]) && HoldsSegment(s.threads[u]) && s.threads[t].id == s.threads[u].id)
  {
  }

  lemma {:induction false} RunSnoc(s: State, es: seq<Event>, e: Event)
    requires IsRun(s, es) && Enabled(Run(s, es), e)
    ensures IsRun(s, es + [e]) && Run(s, es + [e]) == Step(Run(s, es), e)
    decreases |es|
  {
    hide Step;
    hide Enabled;
    if es == [] {
      assert [e][1..] == [];
    } else {
      assert (es + [e])[1..] == es[1..] + [e];
      RunSnoc(Step(s, es[0]), es[1..], e);
    }
  }

  // ---------------------------------------------------------------------------
  // Deadlock

  /** An acknowledgement that holds the map waits for a segment whose timer thread waits for the
      map to drop it. */
  predicate Crossed(s: State, t: Tid, u: Tid, id: Id)
  {
    && t in s.threads && s.threads[t] == AckFound(id)
    && u in s.threads && s.threads[u] == DropDecided(id)
  }

  predicate IsStuck(s: State, t: Tid)
  {
    t in s.threads && !s.threads[t].Done? && !CanAdvance(s, s.threads[t])
  }

  lemma StuckWaitsForLock(s: State, t: Tid)
    requires t in s.threads && ThreadOk(s, t) && IsStuck(s, t)
    ensures var pc := s.threads[t];
      && (pc.TrackInsert? || pc.AckStart? || pc.TimerFired? || pc.DropDecided? || pc.AckFound? || pc.TimerFound?)
      && (pc.AckFound? || pc.TimerFound? ==> pc.id in s.segments && s.segments[pc.id].lock.Some?)
      && (!pc.AckFound? && !pc.TimerFound? ==> s.mapOwner.Some?)
  {
  }

  predicate CanGoOn(s: State, t: Tid)
  {
    t in s.threads && !s.threads[t].Done? && CanAdvance(s, s.threads[t])
  }

  /** The holder of a segment's mutex can go on, or it has decided to drop the segment and waits for
      the map. */
  lemma HolderGoesOnOrDrops(s: State, id: Id)
    requires id in s.segments && s.segments[id].lock.Some? && OwnersOk(s, id)
    requires s.segments[id].lock.value in s.threads ==> ThreadOk(s, s.segments[id].lock.value)
    ensures var u := s.segments[id].lock.value;
      CanGoOn(s, u) || (u in s.threads && s.threads[u] == DropDecided(id) && s.mapOwner.Some?)
  {
    var u := s.segments[id].lock.value;
    assert HoldsSegment(PcOf(s, u, id));
    if IsStuck(s, u) {
      StuckWaitsForLock(s, u);
    }
  }

  /** The owner of the map can go on, or it acknowledges a segment and waits for its mutex. */
  lemma OwnerGoesOnOrWaits(s: State)
    requires s.mapOwner.Some? && MapOwnerOk(s) && ThreadOk(s, s.mapOwner.value)
    ensures var t := s.mapOwner.value;
      || CanGoOn(s, t)
      || (s.threads[t].AckFound? && s.threads[t].id in s.segments && s.segments[s.threads[t].id].lock.Some?)
  {
    if IsStuck(s, s.mapOwner.value) {
      StuckWaitsForLock(s, s.mapOwner.value);
    }
  }

  /** As long as work is left, some thread can go on, unless an acknowledgement has met a drop of its
      segment. */
  lemma ProgressOrCrossed(s: State, x: Tid) returns (t: Tid, u: Tid, id: Id)
    requires Inv(s) && x in s.threads && !s.threads[x].Done?
    ensures CanGoOn(s, t) || Crossed(s, t, u, id)
  {
    hide CanAdvance;
    hide OwnersOk;
    hide PcOf;
    t, u, id := x, x, s.threads[x].id;
    assert ThreadOk(s, x);
    if IsStuck(s, x) {
      StuckWaitsForLock(s, x);
      if s.mapOwner.None? {
        assert SegmentOk(s, id);
        HolderGoesOnOrDrops(s, id);
        t := s.segments[id].lock.value;
      } else {
        t := s.mapOwner.value;
        OwnerGoesOnOrWaits(s);
        if !CanGoOn(s, t) {
          id := s.threads[t].id;
          assert SegmentOk(s, id);
          HolderGoesOnOrDrops(s, id);
          u := s.segments[id].lock.value;
          if CanGoOn(s, u) {
            t := u;
          }
        }
      }
    }
  }

  lemma CrossedStays(s: State, e: Event, t: Tid, u: Tid, id: Id)
    requires Inv(s) && Crossed(s, t, u, id) && Enabled(s, e)
    ensures e.t != t && e.t != u && Crossed(Step(s, e), t, u, id)
  {
    assert ThreadOk(s, t) && ThreadOk(s, u);
    hide SegmentOk;
    hide NextPc;
    hide NextSegment;
    hide NextOwner;
    hide NextStats;
  }

  /** Conversely such a meeting blocks both threads in every continuation. */
  lemma {:induction false} CrossedForever(s: State, es: seq<Event>, t: Tid, u: Tid, id: Id)
    requires Inv(s) && IsRun(s, es) && Crossed(s, t, u, id)
    ensures Crossed(Run(s, es), t, u, id)
    ensures forall i :: 0 <= i < |es| ==> es[i].t != t && es[i].t != u
    decreases |es|
  {
    hide Inv;
    hide Crossed;
    hide Step;
    hide Enabled;
    if es != [] {
      StepKeepsInv(s, es[0]);
      CrossedStays(s, es[0], t, u, id);
      CrossedForever(Step(s, es[0]), es[1..], t, u, id);
      assert forall i :: 0 < i < |es| ==> es[i] == es[1..][i - 1];
    }
  }

  /** The two lock orders do meet in some run. */
  lemma LockOrdersCanMeet(id: Id) returns (es: seq<Event>)
    ensures IsRun(Init(), es) && Crossed(Run(Init(), es), 2, 1, id)
  {
    es := TimerDecides(id);
    hide Run;
    es := Extend(es, Ack(2, id));
    es := Extend(es, Advance(2, false));
  }

  lemma TimerDecides(id: Id) returns (es: seq<Event>)
    ensures IsRun(Init(), es)
    ensures var s := Run(Init(), es);
      && s.threads == map[0 := TrackCount(id), 1 := DropDecided(id)] && s.mapOwner.None?
      && s.segments == map[id := Segment(2, 1, false, Some(1), 0, true, true, false, 0, 1, 0, None)]
  {
    es := TimerFires(id);
    hide Run;
    es := Extend(es, Advance(1, false));
    es := Extend(es, Advance(1, false));
  }

  lemma TimerFires(id: Id) returns (es: seq<Event>)
    ensures IsRun(Init(), es)
    ensures var s := Run(Init(), es);
      && s.threads == map[0 := TrackCount(id), 1 := TimerFound(id)] && s.mapOwner.None?
      && s.segments == map[id := Segment(1, 1, false, None, 0, true, true, false, 0, 1, 0, None)]
  {
    es := TracksOne(id, 1);
    hide Run;
    es := Extend(es, Advance(0, false));
    es := Extend(es, Fire(1, id));
    es := Extend(es, Advance(1, false));
  }

  lemma TracksOne(id: Id, maxAttempts: int) returns (es: seq<Event>)
    ensures IsRun(Init(), es)
    ensures var s := Run(Init(), es);
      && s.threads == map[0 := TrackInsert(id)] && s.mapOwner.None?
      && s.segments == map[id := Segment(1, maxAttempts, false, None, 1, false, false, false, 0, 0, 0, None)]
  {
    assert Run(Init(), []) == Init();
    hide Run;
    es := Extend([], Track(0, id, maxAttempts));
  }

  lemma Extend(es: seq<Event>, e: Event) returns (longer: seq<Event>)
    requires IsRun(Init(), es) && Enabled(Run(Init(), es), e)
    ensures IsRun(Init(), longer) && Run(Init(), longer) == Step(Run(Init(), es), e)
  {
    longer := es + [e];
    RunSnoc(Init(), es, e);
  }

  // ---------------------------------------------------------------------------
  // Segments without a timer

  /** At quiescence every tracked segment is unacknowledged, and has its timer armed unless a timer
      of it had looked for it before it was inserted: then it has none. */
  lemma QuiescentTimers(es: seq<Event>, id: Id)
    requires IsRun(Init(), es) && Quiescent(Run(Init(), es)) && IsTracked(Run(Init(), es), id)
    ensures var g := Run(Init(), es).segments[id];
      !g.acknowledged && (g.armed == 1 <==> !g.missed) && (g.armed == 0 <==> g.missed)
  {
    hide IsRun;
    hide Run;
    InitInv();
    RunKeepsInv(Init(), es);
    var s := Run(Init(), es);
    assert SegmentOk(s, id);
    hide Inv;
    QuiescentTimer(s, id);
  }

  lemma QuiescentTimer(s: State, id: Id)
    requires Quiescent(s) && IsTracked(s, id) && SegmentOk(s, id)
    ensures var g := s.segments[id];
      !g.acknowledged && (g.armed == 1 <==> !g.missed) && (g.armed == 0 <==> g.missed)
  {
    hide AttemptsOk;
    hide LedgerOk;
  }

  predicate IsMissed(s: State, id: Id)
  {
    id in s.segments && s.segments[id].missed
  }

  lemma AdvanceKeepsMissed(s: State, t: Tid, shouldRetry: bool, id: Id)
    requires t in s.threads && CanAdvance(s, s.threads[t]) && ThreadOk(s, t) && IsMissed(s, id)
    ensures var s' := AdvanceStep(s, t, shouldRetry);
      IsMissed(s', id) && Retries(s', id) == Retries(s, id) && (id in s'.dropped <==> id in s.dropped)
  {
    hide CanAdvance;
    hide PlaceOk;
    hide NextPc;
    hide NextOwner;
    hide NextStats;
    hide NextSegment;
    if s.threads[t].id == id {
      MissedSegment(s.segments[id], t, s.threads[t]);
    }
  }

  /** A segment that its timer missed has no retry callback and no drop in progress. */
  lemma MissedStep(s: State, e: Event, id: Id)
    requires Inv(s) && Enabled(s, e) && IsMissed(s, id)
    ensures IsMissed(Step(s, e), id)
    ensures Retries(Step(s, e), id) == Retries(s, id)
    ensures id in Step(s, e).dropped <==> id in s.dropped
  {
    if e.Advance? {
      assert ThreadOk(s, e.t);
      hide *;
      AdvanceKeepsMissed(s, e.t, e.shouldRetry, id);
    }
  }

  lemma MissedSegment(g: Segment, t: Tid, pc: Pc)
    requires g.missed && (pc.AckStart? || pc.Done? || PlaceOk(g, t, pc))
    ensures NextSegment(g, t, pc).missed && NextSegment(g, t, pc).retries == g.retries && !pc.DropCount?
  {
  }

  /** It is never retransmitted or dropped again, in any continuation. */
  lemma {:induction false} MissedForever(s: State, es: seq<Event>, id: Id)
    requires Inv(s) && IsRun(s, es) && IsMissed(s, id)
    ensures IsMissed(Run(s, es), id)
    ensures Retries(Run(s, es), id) == Retries(s, id)
    ensures id in Run(s, es).dropped <==> id in s.dropped
    decreases |es|
  {
    hide Inv;
    hide Step;
    hide Enabled;
    hide Retries;
    hide IsMissed;
    if es != [] {
      StepKeepsInv(s, es[0]);
      MissedStep(s, es[0], id);
      MissedForever(Step(s, es[0]), es[1..], id);
    }
  }

  /** A timer that fires before its segment is in the map leaves it tracked without a timer. */
  lemma EarlyTimerMisses(id: Id, maxAttempts: int) returns (es: seq<Event>)
    ensures IsRun(Init(), es) && Quiescent(Run(Init(), es))
    ensures var s := Run(Init(), es);
      IsTracked(s, id) && IsMissed(s, id) && !s.segments[id].acknowledged && s.segments[id].armed == 0
  {
    es := TracksOne(id, maxAttempts);
    hide Run;
    es := Extend(es, Fire(1, id));
    es := Extend(es, Advance(1, false));
    es := Extend(es, Advance(0, false));
    es := Extend(es, Advance(0, false));
  }
}
