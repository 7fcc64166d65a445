/** The ACK scheduler under concurrent calls. Scheduling an ACK tests its path and pushes the ACK under
    different locks; unregistering a path takes the lock of the paths and then that of the queue, and
    processing takes them the other way round. Every event is what a call does between two points
    where another can interfere. */
module AckRegistration {
  import opened AckScheduler
  import opened Options

  /** The processing call: not running, at the head of its loop, or with an ACK taken out of the queue
      that it is about to look up. It holds the queue lock unless idle. */
  datatype Processing = Idle | Looping | Popped(ack: ScheduledAck)

  /** `pending` holds the ACKs whose path was found and that are not pushed yet; `purging` is the path
      whose unregistering holds the lock of the paths and has still to clear the queue. */
  datatype State = State(
    paths: set<PathId>, queue: seq<ScheduledAck>, pending: seq<ScheduledAck>, purging: Option<PathId>,
    processing: Processing)

  /** `maySend` says whether the rate limit of the path lets the ACK go. */
  datatype Event =
    | Register(path: PathId)
    | DeletePath(path: PathId)
    | ClearQueue
    | TestPath(ack: ScheduledAck)
    | Push(i: nat)
    | BeginProcessing
    | Pop(i: nat)
    | Decide(maySend: bool, now: int, minAckDelay: int)
    | EndProcessing

  function Init(): State
  {
    State({}, [], [], None, Idle)
  }

  predicate Enabled(s: State, e: Event)
  {
    match e
    case Register(_) => s.purging.None?
    case DeletePath(_) => s.purging.None?
    case ClearQueue => s.purging.Some? && s.processing.Idle?
    case TestPath(_) => s.purging.None?
    case Push(i) => i < |s.pending| && s.processing.Idle?
    case BeginProcessing => s.processing.Idle?
    case Pop(i) => i < |s.queue| && s.processing.Looping?
    case Decide(_, _, _) => s.processing.Popped? && s.purging.None?
    case EndProcessing => s.processing.Looping?
  }

  function Step(s: State, e: Event): State
    requires Enabled(s, e)
  {
    match e
    case Register(path) => s.(paths := s.paths + {path})
    case DeletePath(path) => s.(paths := s.paths - {path}, purging := Some(path))
    case ClearQueue => s.(queue := OfOtherPaths(s.queue, s.purging.value), purging := None)
    case TestPath(ack) => if ack.path in s.paths then s.(pending := s.pending + [ack]) else s
    case Push(i) => s.(queue := s.queue + [s.pending[i]], pending := Without(s.pending, i))
    case BeginProcessing => s.(processing := Looping)
    case Pop(i) => s.(queue := Without(s.queue, i), processing := Popped(s.queue[i]))
    case Decide(maySend, now, minAckDelay) =>
      var ack := s.processing.ack;
      if ack.path in s.paths && maySend then s.(processing := Looping)
      else
        s.(queue := s.queue + [Postponed(ack, now, minAckDelay)], processing := Looping)
    case EndProcessing => s.(processing := Idle)
  }

  predicate IsRun(s: State, es: seq<Event>)
    decreases |es|
  {
    es == [] || (Enabled(s, es[0]) && IsRun(Step(s, es[0]), es[1..]))
  }

  function Run(s: State, es: seq<Event>): State
    requires IsRun(s, es)
    decreases |es|
  {
    if es == [] then s else Run(Step(s, es[0]), es[1..])
  }

  // ---------------------------------------------------------------------------
  // Queued ACKs and registered paths

  /** The path is registered, or its unregistering is about to clear the queue. */
  predicate IsKnown(s: State, path: PathId)
  {
    path in s.paths || s.purging == Some(path)
  }

  ghost predicate OnlyKnown(s: State)
  {
    && (forall i :: 0 <= i < |s.queue| ==> IsKnown(s, s.queue[i].path))
    && (s.processing.Popped? ==> IsKnown(s, s.processing.ack.path))
  }

  /** What can be checked before the push: the path found by the test is still there. */
  predicate PushIsTimely(s: State, e: Event)
  {
    e.Push? && e.i < |s.pending| ==> IsKnown(s, s.pending[e.i].path)
  }

  lemma ClearKeepsKnown(s: State)
    requires OnlyKnown(s) && Enabled(s, ClearQueue)
    ensures OnlyKnown(Step(s, ClearQueue))
  {
    var path := s.purging.value;
    OtherPathsStay(s.queue, path, s.paths + {path});
  }

  lemma PushKeepsKnownIff(s: State, i: nat)
    requires OnlyKnown(s) && Enabled(s, Push(i))
    ensures OnlyKnown(Step(s, Push(i))) <==> PushIsTimely(s, Push(i))
  {
    var s' := Step(s, Push(i));
    assert s'.queue[|s.queue|] == s.pending[i];
  }

  /** Exactly which steps keep the queue to registered paths: all but a push whose path was
      unregistered after the test. */
  lemma StepKeepsKnownIff(s: State, e: Event)
    requires OnlyKnown(s) && Enabled(s, e)
    ensures OnlyKnown(Step(s, e)) <==> PushIsTimely(s, e)
  {
    match e
    case ClearQueue => ClearKeepsKnown(s);
    case Push(i) => PushKeepsKnownIff(s, i);
    case _ =>
  }

  ghost predicate AlwaysOnlyKnown(s: State, es: seq<Event>)
    requires IsRun(s, es)
    decreases |es|
  {
    OnlyKnown(s) && (es == [] || AlwaysOnlyKnown(Step(s, es[0]), es[1..]))
  }

  predicate EveryPushIsTimely(s: State, es: seq<Event>)
    requires IsRun(s, es)
    decreases |es|
  {
    es == [] || (PushIsTimely(s, es[0]) && EveryPushIsTimely(Step(s, es[0]), es[1..]))
  }

  /** Over whole runs: only ACKs of registered paths are queued in every state exactly when every push
      still finds the path that its test found. */
  lemma {:induction false} AlwaysOnlyKnownIff(s: State, es: seq<Event>)
    requires IsRun(s, es) && OnlyKnown(s)
    ensures AlwaysOnlyKnown(s, es) <==> EveryPushIsTimely(s, es)
    decreases |es|
  {
    hide OnlyKnown;
    hide PushIsTimely;
    hide Step;
    if es != [] {
      StepKeepsKnownIff(s, es[0]);
      if PushIsTimely(s, es[0]) {
        AlwaysOnlyKnownIff(Step(s, es[0]), es[1..]);
      }
    }
  }

  /** The late push can happen: the path is unregistered and the queue cleared before it. */
  lemma LatePush(ack: ScheduledAck)
    ensures var es := [Register(ack.path), TestPath(ack), DeletePath(ack.path), ClearQueue, Push(0)];
      && IsRun(Init(), es)
      && var s := Run(Init(), es);
      s.queue == [ack] && ack.path !in s.paths && !OnlyKnown(s)
  {
    var es := [Register(ack.path), TestPath(ack), DeletePath(ack.path), ClearQueue, Push(0)];
    var s1 := Step(Init(), es[0]);
    var s2 := Step(s1, es[1]);
    var s3 := Step(s2, es[2]);
    var s4 := Step(s3, es[3]);
    var s5 := Step(s4, es[4]);
    assert s5.queue == [ack] && s5.queue[0].path !in s5.paths && s5.purging.None?;
    assert es[1..] == [es[1], es[2], es[3], es[4]] && es[1..][1..] == [es[2], es[3], es[4]];
    assert es[1..][1..][1..] == [es[3], es[4]] && es[1..][1..][1..][1..] == [es[4]];
    assert IsRun(s4, [es[4]]) && Run(s4, [es[4]]) == s5;
    assert IsRun(s3, [es[3], es[4]]) && Run(s3, [es[3], es[4]]) == s5;
    assert IsRun(s2, [es[2], es[3], es[4]]) && Run(s2, [es[2], es[3], es[4]]) == s5;
  }

  // ---------------------------------------------------------------------------
  // What happens to an ACK

  /** How often the ACK waits to be pushed, is queued, or was taken out for a decision. */
  function Held(s: State, x: Identity): nat
  {
    Copies(s.pending, x) + Copies(s.queue, x) + if s.processing.Popped? then One(s.processing.ack, x) else 0
  }

  /** The step admits the ACK: the path it was scheduled for is registered. */
  function Admitted(s: State, e: Event, x: Identity): nat
  {
    if e.TestPath? && e.ack.path in s.paths then One(e.ack, x) else 0
  }

  /** The step sends the ACK: its path is registered and its rate limit lets it go. */
  function Sent(s: State, e: Event, x: Identity): nat
  {
    if e.Decide? && e.maySend && s.processing.Popped? && s.processing.ack.path in s.paths
    then One(s.processing.ack, x) else 0
  }

  /** The step purges the ACK: it is queued for the path being unregistered. */
  function Purged(s: State, e: Event, x: Identity): nat
  {
    if e.ClearQueue? && s.purging == Some(x.path) then Copies(s.queue, x) else 0
  }

  lemma {:induction false} OthersKeepCopies(queue: seq<ScheduledAck>, path: PathId, x: Identity)
    ensures Copies(OfOtherPaths(queue, path), x) == if x.path == path then 0 else Copies(queue, x)
  {
    if queue != [] {
      var front, last := queue[..|queue| - 1], queue[|queue| - 1];
      var others := OfOtherPaths(front, path);
      OthersKeepCopies(front, path, x);
      CopiesExtend(others, last, x);
      assert others + [] == others;
    }
  }

  lemma StepAccounts(s: State, e: Event, x: Identity)
    requires Enabled(s, e)
    ensures Held(s, x) + Admitted(s, e, x) == Held(Step(s, e), x) + Sent(s, e, x) + Purged(s, e, x)
  {
    hide Copies, Without, OfOtherPaths;
    match e
    case ClearQueue => OthersKeepCopies(s.queue, s.purging.value, x);
    case TestPath(ack) => CopiesExtend(s.pending, ack, x);
    case Push(i) =>
      CopiesWithout(s.pending, i, x);
      CopiesExtend(s.queue, s.pending[i], x);
    case Pop(i) => CopiesWithout(s.queue, i, x);
    case Decide(_, now, minAckDelay) => CopiesExtend(s.queue, Postponed(s.processing.ack, now, minAckDelay), x);
    case _ =>
  }

  function AllAdmitted(s: State, es: seq<Event>, x: Identity): nat
    requires IsRun(s, es)
    decreases |es|
  {
    if es == [] then 0 else Admitted(s, es[0], x) + AllAdmitted(Step(s, es[0]), es[1..], x)
  }

  function AllSent(s: State, es: seq<Event>, x: Identity): nat
    requires IsRun(s, es)
    decreases |es|
  {
    if es == [] then 0 else Sent(s, es[0], x) + AllSent(Step(s, es[0]), es[1..], x)
  }

  function AllPurged(s: State, es: seq<Event>, x: Identity): nat
    requires IsRun(s, es)
    decreases |es|
  {
    if es == [] then 0 else Purged(s, es[0], x) + AllPurged(Step(s, es[0]), es[1..], x)
  }

  /** Over every interleaving, each ACK is sent, purged with its path, or still held, together as often
      as it was admitted: none is lost or doubled. */
  lemma {:induction false} EveryAckIsAccounted(s: State, es: seq<Event>, x: Identity)
    requires IsRun(s, es)
    ensures Held(s, x) + AllAdmitted(s, es, x) == Held(Run(s, es), x) + AllSent(s, es, x) + AllPurged(s, es, x)
    decreases |es|
  {
    hide Held, Admitted, Sent, Purged, Step, Enabled;
    if es != [] {
      StepAccounts(s, es[0], x);
      EveryAckIsAccounted(Step(s, es[0]), es[1..], x);
    }
  }

  // ---------------------------------------------------------------------------
  // Deadlock

  /** Processing holds the queue lock and waits for the paths, unregistering the other way round. */
  predicate Crossed(s: State)
  {
    s.processing.Popped? && s.purging.Some?
  }

  /** Exactly when nothing at all can happen any more. */
  lemma StuckIff(s: State)
    ensures (forall e :: !Enabled(s, e)) <==> Crossed(s)
  {
    if !Crossed(s) {
      if s.processing.Popped? {
        assert Enabled(s, Decide(false, 0, 0));
      } else if s.processing.Looping? {
        assert Enabled(s, EndProcessing);
      } else {
        assert Enabled(s, BeginProcessing);
      }
    }
  }

  /** One registered path and one queued ACK suffice to get there. */
  lemma LockOrdersCanMeet(s: State, path: PathId)
    requires s.queue != [] && s.processing.Idle? && s.purging.None?
    ensures var es := [BeginProcessing, Pop(0), DeletePath(path)];
      IsRun(s, es) && Crossed(Run(s, es))
  {
    var es := [BeginProcessing, Pop(0), DeletePath(path)];
    assert es[1..] == [Pop(0), DeletePath(path)] && es[1..][1..] == [DeletePath(path)];
    var s1 := Step(s, es[0]);
    var s2 := Step(s1, es[1]);
    assert IsRun(s2, [es[2]]) && Run(s2, [es[2]]) == Step(s2, es[2]);
    assert IsRun(s1, [es[1], es[2]]) && Run(s1, [es[1], es[2]]) == Step(s2, es[2]);
  }

  /** A step avoids it exactly when it does not pop under a pending unregistering or unregister while
      an ACK is taken out. */
  lemma StepAvoidsCrossingIff(s: State, e: Event)
    requires Enabled(s, e) && !Crossed(s)
    ensures Crossed(Step(s, e)) <==> (e.Pop? && s.purging.Some?) || (e.DeletePath? && s.processing.Popped?)
  {
  }
}
