/** Per-stream backpressure flags and the global flag that follows them. Time is an integer, and
    the float thresholds are real numbers. */
module Backpressure {
  import opened Maps

  datatype Stream = Stream(active: bool, reason: int, activatedAt: int)

  datatype Stats = Stats(
    totalActivations: nat, totalDeactivations: nat, activeStreams: nat, peakActiveStreams: nat,
    globalActivations: nat, currentlyActive: bool)

  datatype Manager = Manager(streams: map<nat, Stream>, globalActive: bool, stats: Stats)

  datatype Config = Config(maxStreams: int, globalThreshold: real)

  datatype Status = Ok | InvalidStream | TooManyStreams

  function Init(): Manager
  {
    Manager(map[], false, Stats(0, 0, 0, 0, 0, false))
  }

  // ---------------------------------------------------------------------------
  // Counting

  function ActiveIDs(streams: map<nat, Stream>): set<nat>
  {
    set id | id in streams && streams[id].active
  }

  function ActiveCount(streams: map<nat, Stream>): nat
  {
    |ActiveIDs(streams)|
  }

  method CountActive(streams: map<nat, Stream>) returns (activeCount: nat)
    ensures activeCount == ActiveCount(streams)
  {
    activeCount := 0;
    var rest := streams.Keys;
    ghost var seen := {};
    assert ActiveIDs(streams) * seen == {};
    while rest != {}
      invariant seen !! rest && seen + rest == streams.Keys
      invariant activeCount == |ActiveIDs(streams) * seen|
      decreases |rest|
    {
      var id :| id in rest;
      if streams[id].active {
        activeCount := activeCount + 1;
        assert ActiveIDs(streams) * (seen + {id}) == ActiveIDs(streams) * seen + {id};
      } else {
        assert ActiveIDs(streams) * (seen + {id}) == ActiveIDs(streams) * seen;
      }
      seen := seen + {id};
      rest := rest - {id};
    }
    assert ActiveIDs(streams) * seen == ActiveIDs(streams);
  }

  lemma ActiveAtMostAll(streams: map<nat, Stream>)
    ensures ActiveCount(streams) <= |streams|
  {
    SubsetIsSmaller(ActiveIDs(streams), streams.Keys);
  }

  lemma SubsetIsSmaller(a: set<nat>, b: set<nat>)
    requires a <= b
    ensures |a| <= |b|
  {
    assert a + (b - a) == b;
  }

  /** Setting one stream's flag changes the count by one when the flag changes, else not at all. */
  lemma CountAfterSet(streams: map<nat, Stream>, id: nat, s: Stream)
    ensures var was := id in streams && streams[id].active;
      var n := ActiveCount(streams[id := s]);
      && (s.active && !was ==> n == ActiveCount(streams) + 1)
      && (!s.active && was ==> n + 1 == ActiveCount(streams))
      && (s.active == was ==> n == ActiveCount(streams))
  {
    var was := id in streams && streams[id].active;
    var before, after := ActiveIDs(streams), ActiveIDs(streams[id := s]);
    if s.active && !was {
      assert after == before + {id};
    } else if !s.active && was {
      assert before == after + {id};
    } else {
      assert before == after;
    }
  }

  /** The share of active streams is at least t; there is a share only if there are streams. */
  predicate ShareAtLeast(streams: map<nat, Stream>, t: real)
  {
    |streams| > 0 && ActiveCount(streams) as real / |streams| as real >= t
  }

  predicate ShareBelow(streams: map<nat, Stream>, t: real)
  {
    !ShareAtLeast(streams, t)
  }

  lemma ShareMeans(streams: map<nat, Stream>, t: real)
    ensures ShareAtLeast(streams, t) <==> |streams| > 0 && ActiveCount(streams) as real >= t * |streams| as real
  {
    hide ActiveCount;
    if |streams| > 0 {
      DivideIff(ActiveCount(streams) as real, |streams| as real, t);
    }
  }

  lemma DivideIff(a: real, n: real, t: real)
    requires n > 0.0
    ensures a / n >= t <==> a >= t * n
  {
    var q := a / n;
    assert q * n == a;
    if q >= t {
      assert (q - t) * n >= 0.0;
    } else {
      assert (t - q) * n > 0.0;
    }
  }

  // ---------------------------------------------------------------------------
  // Steps

  function CountActivation(k: Stats, active: nat): Stats
  {
    k.(totalActivations := k.totalActivations + 1, activeStreams := active,
       peakActiveStreams := if active > k.peakActiveStreams then active else k.peakActiveStreams)
  }

  /** What an activation does before it releases the stream lock. The last result says whether it
      will activate the global flag once the lock is released. */
  function BeginActivate(m: Manager, c: Config, id: nat, reason: int, now: int): (Manager, Status, bool)
  {
    if id == 0 then (m, InvalidStream, false)
    else if |m.streams| >= c.maxStreams && id !in m.streams then (m, TooManyStreams, false)
    else if id in m.streams && m.streams[id].active then (m, Ok, false)
    else
      var streams := m.streams[id := Stream(true, reason, now)];
      (m.(streams := streams, stats := CountActivation(m.stats, ActiveCount(streams))),
       Ok,
       ShareAtLeast(streams, c.globalThreshold))
  }

  function ActivateGlobal(m: Manager): Manager
  {
    if m.globalActive then m
    else
      var stats := m.stats.(globalActivations := m.stats.globalActivations + 1, currentlyActive := true);
      m.(globalActive := true, stats := stats)
  }

  function DeactivateGlobal(m: Manager): Manager
  {
    if m.globalActive then m.(globalActive := false, stats := m.stats.(currentlyActive := false)) else m
  }

  function ReleaseThreshold(c: Config): real
  {
    c.globalThreshold * 0.8
  }

  function Deactivate(m: Manager, c: Config, id: nat): (Manager, Status)
  {
    if id == 0 then (m, InvalidStream)
    else if id !in m.streams || !m.streams[id].active then (m, Ok)
    else
      var streams := m.streams[id := m.streams[id].(active := false)];
      var m' := m.(streams := streams, stats := m.stats.(totalDeactivations := m.stats.totalDeactivations + 1,
                                                         activeStreams := ActiveCount(streams)));
      (if ShareBelow(streams, ReleaseThreshold(c)) then DeactivateGlobal(m') else m', Ok)
  }

  /** The streams that are active or were last activated at the cutoff or later. */
  function Survivors(streams: map<nat, Stream>, cutoff: int): set<nat>
  {
    set id | id in streams && (streams[id].active || streams[id].activatedAt >= cutoff)
  }

  /** Forgets the inactive streams that were last activated before the cutoff. */
  function Cleanup(m: Manager, cutoff: int): Manager
  {
    m.(streams := map id | id in Survivors(m.streams, cutoff) :: m.streams[id])
  }

  /** `pending` counts the activations that have released the stream lock and have still to
      activate the global flag. */
  datatype System = System(manager: Manager, pending: nat)

  datatype Event =
    | DoActivate(id: nat, reason: int, now: int)
    | FinishActivate
    | DoDeactivate(id: nat)
    | DoCleanup(cutoff: int)
    | ForceActivate
    | ForceDeactivate

  predicate Enabled(s: System, e: Event)
  {
    e.FinishActivate? ==> s.pending > 0
  }

  function Step(s: System, c: Config, e: Event): System
    requires Enabled(s, e)
  {
    match e
    case DoActivate(id, reason, now) =>
      var (m, _, activateGlobal) := BeginActivate(s.manager, c, id, reason, now);
      System(m, if activateGlobal then s.pending + 1 else s.pending)
    case FinishActivate => System(ActivateGlobal(s.manager), s.pending - 1)
    case DoDeactivate(id) => System(Deactivate(s.manager, c, id).0, s.pending)
    case DoCleanup(cutoff) => System(Cleanup(s.manager, cutoff), s.pending)
    case ForceActivate => System(ActivateGlobal(s.manager), s.pending)
    case ForceDeactivate => System(DeactivateGlobal(s.manager), s.pending)
  }

  predicate IsRun(s: System, c: Config, es: seq<Event>)
    decreases |es|
  {
    es == [] || (Enabled(s, es[0]) && IsRun(Step(s, c, es[0]), c, es[1..]))
  }

  function Run(s: System, c: Config, es: seq<Event>): System
    requires IsRun(s, c, es)
    decreases |es|
  {
    if es == [] then s else Run(Step(s, c, es[0]), c, es[1..])
  }

  // ---------------------------------------------------------------------------
  // Conservation

  /** Activations less deactivations are the active streams, the statistics agree with the map,
      and the map stays within its limit. */
  predicate Balanced(m: Manager, c: Config)
  {
    && m.stats.totalActivations - m.stats.totalDeactivations == ActiveCount(m.streams)
    && m.stats.activeStreams == ActiveCount(m.streams) <= m.stats.peakActiveStreams
    && m.stats.currentlyActive == m.globalActive
    && (|m.streams| <= c.maxStreams || m.streams == map[])
  }

  lemma CleanupKeepsActive(m: Manager, cutoff: int)
    ensures ActiveIDs(Cleanup(m, cutoff).streams) == ActiveIDs(m.streams)
    ensures |Cleanup(m, cutoff).streams| == |Survivors(m.streams, cutoff)| <= |m.streams|
  {
    assert Cleanup(m, cutoff).streams.Keys == Survivors(m.streams, cutoff);
    SubsetIsSmaller(Cleanup(m, cutoff).streams.Keys, m.streams.Keys);
  }

  lemma StepKeepsBalanced(s: System, c: Config, e: Event)
    requires Balanced(s.manager, c) && Enabled(s, e)
    ensures Balanced(Step(s, c, e).manager, c)
  {
    hide ActiveIDs;
    hide ShareAtLeast;
    hide ShareBelow;
    var m := s.manager;
    match e
    case DoActivate(id, reason, now) =>
      CountAfterSet(m.streams, id, Stream(true, reason, now));
      SizeAfterSet(m.streams, id, Stream(true, reason, now));
    case DoDeactivate(id) =>
      if id in m.streams {
        CountAfterSet(m.streams, id, m.streams[id].(active := false));
        SizeAfterSet(m.streams, id, m.streams[id].(active := false));
      }
    case DoCleanup(cutoff) => CleanupKeepsActive(m, cutoff);
    case _ =>
  }

  /** In every reachable state, whatever interleaving, cleanup or forced change led to it. */
  lemma {:induction false} RunKeepsBalanced(s: System, c: Config, es: seq<Event>)
    requires Balanced(s.manager, c) && IsRun(s, c, es)
    ensures Balanced(Run(s, c, es).manager, c)
    decreases |es|
  {
    hide Balanced;
    hide Step;
    if es != [] {
      StepKeepsBalanced(s, c, es[0]);
      RunKeepsBalanced(Step(s, c, es[0]), c, es[1..]);
    }
  }

  lemma AlwaysBalanced(c: Config, es: seq<Event>)
    requires IsRun(System(Init(), 0), c, es)
    ensures Balanced(Run(System(Init(), 0), c, es).manager, c)
  {
    assert ActiveIDs(map[]) == {};
    RunKeepsBalanced(System(Init(), 0), c, es);
  }

  // ---------------------------------------------------------------------------
  // The global flag

  predicate IsPlain(e: Event)
  {
    e.DoActivate? || e.FinishActivate? || e.DoDeactivate?
  }

  /** When no activation is half done, an inactive global flag means the share is below the threshold. */
  predicate FlagFollows(s: System, c: Config)
  {
    s.pending == 0 && !s.manager.globalActive ==> ShareBelow(s.manager.streams, c.globalThreshold)
  }

  lemma FewerActiveStaysBelow(before: map<nat, Stream>, after: map<nat, Stream>, t: real)
    requires |after| == |before| && ActiveCount(after) <= ActiveCount(before) && ShareBelow(before, t)
    ensures ShareBelow(after, t)
  {
    hide ActiveCount;
    hide ShareAtLeast;
    ShareMeans(before, t);
    ShareMeans(after, t);
  }

  /** A share is never negative, so being below four fifths of a threshold is being below it. */
  lemma ReleasedIsBelow(streams: map<nat, Stream>, c: Config)
    requires ShareBelow(streams, ReleaseThreshold(c))
    ensures ShareBelow(streams, c.globalThreshold)
  {
    hide ActiveCount;
    if |streams| > 0 {
      DivideIff(ActiveCount(streams) as real, |streams| as real, 0.0);
    }
  }

  lemma DeactivateKeepsFlag(s: System, c: Config, id: nat)
    requires FlagFollows(s, c)
    ensures FlagFollows(Step(s, c, DoDeactivate(id)), c)
  {
    hide ActiveCount;
    hide ShareAtLeast;
    hide ReleaseThreshold;
    if id in s.manager.streams && s.manager.streams[id].active {
      var streams := s.manager.streams;
      var after := streams[id := streams[id].(active := false)];
      CountAfterSet(streams, id, after[id]);
      SizeAfterSet(streams, id, after[id]);
      if ShareBelow(after, ReleaseThreshold(c)) {
        ReleasedIsBelow(after, c);
      } else if ShareBelow(streams, c.globalThreshold) {
        FewerActiveStaysBelow(streams, after, c.globalThreshold);
      }
    }
  }

  /** What a caller can count before a cleanup or a forced release: with the flag off afterwards,
      the active streams must be fewer than the threshold's share of those that remain. */
  predicate KeepsFlag(s: System, c: Config, e: Event)
  {
    var active, t := ActiveCount(s.manager.streams) as real, c.globalThreshold;
    match e
    case DoCleanup(cutoff) =>
      var n := |Survivors(s.manager.streams, cutoff)|;
      s.pending == 0 && !s.manager.globalActive ==> n == 0 || active < t * n as real
    case ForceDeactivate =>
      var n := |s.manager.streams|;
      s.pending == 0 ==> n == 0 || active < t * n as real
    case _ => true
  }

  /** Exactly which steps keep the flag in line with the share: all activations and deactivations,
      whole or half done, and the cleanups and forced releases that leave a share below the threshold. */
  lemma StepKeepsFlagIff(s: System, c: Config, e: Event)
    requires Enabled(s, e) && FlagFollows(s, c)
    ensures FlagFollows(Step(s, c, e), c) <==> KeepsFlag(s, c, e)
  {
    hide ShareAtLeast;
    hide ReleaseThreshold;
    ShareMeans(Step(s, c, e).manager.streams, c.globalThreshold);
    match e
    case DoDeactivate(id) => DeactivateKeepsFlag(s, c, id);
    case DoCleanup(cutoff) => CleanupKeepsActive(s.manager, cutoff);
    case _ =>
  }

  predicate FlagAlwaysFollows(s: System, c: Config, es: seq<Event>)
    requires IsRun(s, c, es)
    decreases |es|
  {
    FlagFollows(s, c) && (es == [] || FlagAlwaysFollows(Step(s, c, es[0]), c, es[1..]))
  }

  predicate EveryStepKeepsFlag(s: System, c: Config, es: seq<Event>)
    requires IsRun(s, c, es)
    decreases |es|
  {
    es == [] || (KeepsFlag(s, c, es[0]) && EveryStepKeepsFlag(Step(s, c, es[0]), c, es[1..]))
  }

  /** Over whole runs of every kind of step: the flag follows the share in every state exactly when
      every cleanup and every forced release of the run leaves a share below the threshold. */
  lemma {:induction false} FlagAlwaysFollowsIff(s: System, c: Config, es: seq<Event>)
    requires IsRun(s, c, es) && FlagFollows(s, c)
    ensures FlagAlwaysFollows(s, c, es) <==> EveryStepKeepsFlag(s, c, es)
    ensures FlagAlwaysFollows(s, c, es) ==> FlagFollows(Run(s, c, es), c)
    decreases |es|
  {
    hide FlagFollows;
    hide KeepsFlag;
    hide Step;
    if es != [] {
      StepKeepsFlagIff(s, c, es[0]);
      if KeepsFlag(s, c, es[0]) {
        FlagAlwaysFollowsIff(Step(s, c, es[0]), c, es[1..]);
      }
    }
  }

  lemma {:induction false} PlainStepsKeepFlag(s: System, c: Config, es: seq<Event>)
    requires IsRun(s, c, es) && forall i :: 0 <= i < |es| ==> IsPlain(es[i])
    ensures EveryStepKeepsFlag(s, c, es)
    decreases |es|
  {
    hide Step;
    if es != [] {
      PlainStepsKeepFlag(Step(s, c, es[0]), c, es[1..]);
    }
  }

  lemma QuietMeansBelow(s: System, c: Config)
    requires FlagFollows(s, c) && s.pending == 0 && !s.manager.globalActive
    ensures var streams := s.manager.streams;
      streams == map[] || ActiveCount(streams) as real < c.globalThreshold * |streams| as real
  {
    hide ActiveCount;
    ShareMeans(s.manager.streams, c.globalThreshold);
  }

  /** After any interleaving of activations, deactivations, cleanups and forced changes that keep the
      flag, for any threshold: when no activation is half done and the global flag is off, there are
      no streams or fewer than the threshold's share of them are active. */
  lemma SafeFlagMeansBelow(c: Config, es: seq<Event>)
    requires IsRun(System(Init(), 0), c, es) && EveryStepKeepsFlag(System(Init(), 0), c, es)
    requires Run(System(Init(), 0), c, es).pending == 0 && !Run(System(Init(), 0), c, es).manager.globalActive
    ensures var streams := Run(System(Init(), 0), c, es).manager.streams;
      streams == map[] || ActiveCount(streams) as real < c.globalThreshold * |streams| as real
  {
    hide IsRun;
    hide EveryStepKeepsFlag;
    hide Run;
    var s0 := System(Init(), 0);
    assert FlagFollows(s0, c);
    hide FlagFollows;
    FlagAlwaysFollowsIff(s0, c, es);
    QuietMeansBelow(Run(s0, c, es), c);
  }

  /** In particular after any interleaving of activations and deactivations, although the lock is
      released in the middle of an activation. */
  lemma QuietFlagMeansBelow(c: Config, es: seq<Event>)
    requires IsRun(System(Init(), 0), c, es)
    requires forall i :: 0 <= i < |es| ==> IsPlain(es[i])
    requires Run(System(Init(), 0), c, es).pending == 0 && !Run(System(Init(), 0), c, es).manager.globalActive
    ensures var streams := Run(System(Init(), 0), c, es).manager.streams;
      streams == map[] || ActiveCount(streams) as real < c.globalThreshold * |streams| as real
  {
    hide IsRun;
    hide Run;
    hide EveryStepKeepsFlag;
    PlainStepsKeepFlag(System(Init(), 0), c, es);
    SafeFlagMeansBelow(c, es);
  }

  // ---------------------------------------------------------------------------
  // Hysteresis

  /** The flag is on only while the share is at least four fifths of the threshold. */
  predicate InBand(s: System, c: Config)
  {
    s.manager.globalActive ==> ShareAtLeast(s.manager.streams, ReleaseThreshold(c))
  }

  /** What a caller can count before the flag is switched on or streams are forgotten: the share is
      at least four fifths of the threshold, and a cleanup under an active flag leaves some stream. */
  predicate KeepsBand(s: System, c: Config, e: Event)
  {
    match e
    case FinishActivate => ShareAtLeast(s.manager.streams, ReleaseThreshold(c))
    case ForceActivate => ShareAtLeast(s.manager.streams, ReleaseThreshold(c))
    case DoCleanup(cutoff) => s.manager.globalActive ==> Survivors(s.manager.streams, cutoff) != {}
    case _ => true
  }

  lemma FewerStreamsKeepShare(m: Manager, cutoff: int, t: real)
    requires ShareAtLeast(m.streams, t)
    ensures ShareAtLeast(Cleanup(m, cutoff).streams, t) <==> Survivors(m.streams, cutoff) != {}
  {
    var after := Cleanup(m, cutoff).streams;
    CleanupKeepsActive(m, cutoff);
    assert |after| > 0 <==> Survivors(m.streams, cutoff) != {};
    assert ActiveCount(after) == ActiveCount(m.streams);
    hide ActiveCount;
    hide ShareAtLeast;
    hide Survivors;
    hide Cleanup;
    ShareMeans(m.streams, t);
    ShareMeans(after, t);
    ShareOfFewer(ActiveCount(after) as real, |after| as real, |m.streams| as real, t);
  }

  lemma ShareOfFewer(a: real, fewer: real, n: real, t: real)
    requires a >= 0.0 && 0.0 <= fewer <= n && a >= t * n
    ensures a >= t * fewer
  {
    if t >= 0.0 {
      assert t * (n - fewer) >= 0.0;
    } else {
      assert (-t) * fewer >= 0.0;
    }
  }

  /** Exactly which steps keep the band: one that switches the flag on keeps it if and only if the
      share is then still high enough, whatever came between the halves of the activation. */
  lemma StepKeepsBandIff(s: System, c: Config, e: Event)
    requires Enabled(s, e) && InBand(s, c)
    ensures InBand(Step(s, c, e), c) <==> KeepsBand(s, c, e)
  {
    hide ActiveCount;
    hide ShareAtLeast;
    hide ReleaseThreshold;
    var m := s.manager;
    match e
    case DoActivate(id, reason, now) =>
      if m.globalActive && !(id in m.streams && m.streams[id].active) {
        MoreActiveKeepsShare(m.streams, id, Stream(true, reason, now), ReleaseThreshold(c));
      }
    case DoCleanup(cutoff) =>
      if m.globalActive {
        FewerStreamsKeepShare(m, cutoff, ReleaseThreshold(c));
      }
    case _ =>
  }

  predicate AlwaysInBand(s: System, c: Config, es: seq<Event>)
    requires IsRun(s, c, es)
    decreases |es|
  {
    InBand(s, c) && (es == [] || AlwaysInBand(Step(s, c, es[0]), c, es[1..]))
  }

  predicate EveryStepKeepsBand(s: System, c: Config, es: seq<Event>)
    requires IsRun(s, c, es)
    decreases |es|
  {
    es == [] || (KeepsBand(s, c, es[0]) && EveryStepKeepsBand(Step(s, c, es[0]), c, es[1..]))
  }

  /** Over whole runs with any interleaving: every state is in band exactly when every step that
      switches the flag on is taken at or above the release share, and no cleanup under an active
      flag forgets every stream. */
  lemma {:induction false} AlwaysInBandIff(s: System, c: Config, es: seq<Event>)
    requires IsRun(s, c, es) && InBand(s, c)
    ensures AlwaysInBand(s, c, es) <==> EveryStepKeepsBand(s, c, es)
    ensures AlwaysInBand(s, c, es) ==> InBand(Run(s, c, es), c)
    decreases |es|
  {
    hide InBand;
    hide KeepsBand;
    hide Step;
    if es != [] {
      StepKeepsBandIff(s, c, es[0]);
      if KeepsBand(s, c, es[0]) {
        AlwaysInBandIff(Step(s, c, es[0]), c, es[1..]);
      }
    }
  }

  /** No call comes between the two halves of an activation. */
  predicate IsSerial(s: System, c: Config, es: seq<Event>)
    requires IsRun(s, c, es)
    decreases |es|
  {
    es == [] || (IsPlain(es[0]) && (s.pending > 0 ==> es[0].FinishActivate?) && IsSerial(Step(s, c, es[0]), c, es[1..]))
  }

  lemma ThresholdIsAboveRelease(streams: map<nat, Stream>, c: Config)
    requires ShareAtLeast(streams, c.globalThreshold)
    ensures ShareAtLeast(streams, ReleaseThreshold(c))
  {
    hide ActiveCount;
    DivideIff(ActiveCount(streams) as real, |streams| as real, 0.0);
  }

  lemma MoreActiveKeepsShare(streams: map<nat, Stream>, id: nat, s: Stream, t: real)
    requires ShareAtLeast(streams, t) && s.active && !(id in streams && streams[id].active)
    ensures ShareAtLeast(streams[id := s], t)
  {
    hide ActiveCount;
    hide ShareAtLeast;
    CountAfterSet(streams, id, s);
    SizeAfterSet(streams, id, s);
    ActiveAtMostAll(streams);
    ShareMeans(streams, t);
    ShareMeans(streams[id := s], t);
    var a, n := ActiveCount(streams) as real, |streams| as real;
    if id !in streams {
      assert t * n <= n;
      assert t <= 1.0 by {
        ThresholdAtMostOne(t, n);
      }
      assert t * (n + 1.0) == t * n + t;
    }
  }

  lemma ThresholdAtMostOne(t: real, n: real)
    requires n > 0.0 && t * n <= n
    ensures t <= 1.0
  {
    DivideIff(n, n, t);
    assert n / n == 1.0;
  }

  /** A pending activation still finds the share that made it pending. */
  predicate PendingIsFresh(s: System, c: Config)
  {
    s.pending <= 1 && (s.pending > 0 ==> ShareAtLeast(s.manager.streams, c.globalThreshold))
  }

  lemma {:induction false} SerialStepsKeepBand(s: System, c: Config, es: seq<Event>)
    requires IsRun(s, c, es) && IsSerial(s, c, es) && PendingIsFresh(s, c)
    ensures EveryStepKeepsBand(s, c, es)
    decreases |es|
  {
    hide ShareAtLeast;
    hide ReleaseThreshold;
    hide Deactivate;
    if es != [] {
      if es[0].FinishActivate? {
        ThresholdIsAboveRelease(s.manager.streams, c);
      }
      SerialStepsKeepBand(Step(s, c, es[0]), c, es[1..]);
    }
  }

  /** Without interleaving, the global flag is on only while at least four fifths of the
      threshold's share of the streams are active. */
  lemma SerialFlagMeansBand(c: Config, es: seq<Event>)
    requires IsRun(System(Init(), 0), c, es) && IsSerial(System(Init(), 0), c, es)
    requires Run(System(Init(), 0), c, es).manager.globalActive
    ensures var streams := Run(System(Init(), 0), c, es).manager.streams;
      |streams| > 0 && ActiveCount(streams) as real >= ReleaseThreshold(c) * |streams| as real
  {
    hide IsRun;
    hide IsSerial;
    hide EveryStepKeepsBand;
    hide Run;
    var s0 := System(Init(), 0);
    SerialStepsKeepBand(s0, c, es);
    AlwaysInBandIff(s0, c, es);
    BandMeansShare(Run(s0, c, es), c);
  }

  lemma BandMeansShare(s: System, c: Config)
    requires InBand(s, c) && s.manager.globalActive
    ensures var streams := s.manager.streams;
      |streams| > 0 && ActiveCount(streams) as real >= ReleaseThreshold(c) * |streams| as real
  {
    hide ActiveCount;
    ShareMeans(s.manager.streams, ReleaseThreshold(c));
  }

  /** With interleaving it fails: a stream that is released between the two halves of its own
      activation leaves the global flag on with no active stream. */
  lemma StaleActivation(c: Config, id: nat, reason: int, now: int)
    requires 0.0 < c.globalThreshold <= 1.0 && c.maxStreams > 0 && id != 0
    ensures var es := [DoActivate(id, reason, now), DoDeactivate(id), FinishActivate];
      && IsRun(System(Init(), 0), c, es)
      && var s := Run(System(Init(), 0), c, es);
      && s.manager.globalActive && s.pending == 0 && ActiveCount(s.manager.streams) == 0
  {
    var es := [DoActivate(id, reason, now), DoDeactivate(id), FinishActivate];
    assert es[1..] == [DoDeactivate(id), FinishActivate] && es[1..][1..] == [FinishActivate];
    var s0 := System(Init(), 0);
    var s1 := Step(s0, c, es[0]);
    var s2 := Step(s1, c, es[1]);
    var on := Stream(true, reason, now);
    CountAfterSet(map[], id, on);
    SizeAfterSet(map[], id, on);
    assert ActiveIDs(map[]) == {};
    hide ActiveCount;
    hide ShareAtLeast;
    ShareMeans(s1.manager.streams, c.globalThreshold);
    assert s1.manager.streams == map[id := on] && s1.pending == 1;
    CountAfterSet(s1.manager.streams, id, on.(active := false));
    assert ActiveCount(s2.manager.streams) == 0 && s2.pending == 1;
    assert Run(s2, c, [FinishActivate]) == Step(s2, c, FinishActivate);
  }

  /** Such a flag stays on: with no active stream, deactivations change nothing. */
  lemma {:induction false} StaleFlagStays(s: System, c: Config, es: seq<Event>)
    requires ActiveIDs(s.manager.streams) == {}
    requires forall i :: 0 <= i < |es| ==> es[i].DoDeactivate?
    ensures IsRun(s, c, es) && Run(s, c, es) == s
    decreases |es|
  {
    if es != [] {
      var id := es[0].id;
      assert id in s.manager.streams ==> id !in ActiveIDs(s.manager.streams);
      StaleFlagStays(s, c, es[1..]);
    }
  }

  /** Cleanup does not look at the flag: with the flag off, the share stays below the threshold
      exactly when the active streams are fewer than its share of the survivors. */
  lemma CleanupKeepsShareBelowIff(s: System, c: Config, cutoff: int)
    requires s.pending == 0 && !s.manager.globalActive
    ensures var n := |Survivors(s.manager.streams, cutoff)|;
      FlagFollows(Step(s, c, DoCleanup(cutoff)), c)
      <==> n == 0 || ActiveCount(s.manager.streams) as real < c.globalThreshold * n as real
  {
    CleanupKeepsActive(s.manager, cutoff);
    ShareMeans(Cleanup(s.manager, cutoff).streams, c.globalThreshold);
  }

  /** So when a cleanup leaves only active streams, and some, the flag is off with every stream active. */
  lemma CleanupCanRaiseShare(s: System, c: Config, cutoff: int)
    requires c.globalThreshold <= 1.0 && s.pending == 0 && !s.manager.globalActive
    requires ActiveCount(s.manager.streams) > 0
    requires forall id :: id in Survivors(s.manager.streams, cutoff) ==> s.manager.streams[id].active
    ensures !FlagFollows(Step(s, c, DoCleanup(cutoff)), c)
  {
    assert Survivors(s.manager.streams, cutoff) == ActiveIDs(s.manager.streams);
    CleanupKeepsShareBelowIff(s, c, cutoff);
    MultiplyAtMost(c.globalThreshold, ActiveCount(s.manager.streams) as real);
  }

  /** For every threshold above five eighths and up to one this happens from the start: two streams are
      activated, one is released and then forgotten. */
  lemma CleanupRunFails(c: Config, now: int)
    requires 0.625 < c.globalThreshold <= 1.0 && c.maxStreams >= 2
    ensures var es := [DoActivate(1, 0, now), DoActivate(2, 0, now), FinishActivate, FinishActivate, DoDeactivate(1),
                       DoCleanup(now + 1)];
      && IsRun(System(Init(), 0), c, es)
      && !FlagFollows(Run(System(Init(), 0), c, es), c)
  {
    var s0 := System(Init(), 0);
    var s2 := TwoActivated(c, now);
    var s3 := Step(s2, c, FinishActivate);
    assert s3.pending == 1;
    hide Step, FlagFollows;
    var s5 := OneReleased(c, s2, now);
    var s6 := Step(s5, c, DoCleanup(now + 1));
    CleanupCanRaiseShare(s5, c, now + 1);
    assert IsRun(s6, c, []);
    RunStep(s5, c, DoCleanup(now + 1), []);
    RunStep(Step(s3, c, FinishActivate), c, DoDeactivate(1), [DoCleanup(now + 1)]);
    RunStep(s3, c, FinishActivate, [DoDeactivate(1), DoCleanup(now + 1)]);
    var rest := [FinishActivate, DoDeactivate(1), DoCleanup(now + 1)];
    RunStep(s2, c, FinishActivate, rest);
    RunStep(Step(s0, c, DoActivate(1, 0, now)), c, DoActivate(2, 0, now), [FinishActivate] + rest);
    RunStep(s0, c, DoActivate(1, 0, now), [DoActivate(2, 0, now)] + ([FinishActivate] + rest));
    assert [DoActivate(1, 0, now)] + ([DoActivate(2, 0, now)] + ([FinishActivate] + rest))
        == [DoActivate(1, 0, now), DoActivate(2, 0, now), FinishActivate, FinishActivate, DoDeactivate(1),
            DoCleanup(now + 1)];
  }

  lemma TwoActivated(c: Config, now: int) returns (s: System)
    requires c.globalThreshold <= 1.0 && c.maxStreams >= 2
    ensures var on := Stream(true, 0, now);
      && s == Step(Step(System(Init(), 0), c, DoActivate(1, 0, now)), c, DoActivate(2, 0, now))
      && s.pending == 2 && !s.manager.globalActive && s.manager.streams == map[1 := on, 2 := on]
      && ActiveCount(s.manager.streams) == 2 && |s.manager.streams| == 2
  {
    var on := Stream(true, 0, now);
    assert ActiveIDs(map[]) == {};
    hide ActiveCount, ShareAtLeast;
    var s1 := Step(System(Init(), 0), c, DoActivate(1, 0, now));
    s := Step(s1, c, DoActivate(2, 0, now));
    CountAfterSet(map[], 1, on);
    SizeAfterSet(map[], 1, on);
    CountAfterSet(map[][1 := on], 2, on);
    SizeAfterSet(map[][1 := on], 2, on);
    ShareMeans(map[][1 := on], c.globalThreshold);
    ShareMeans(map[][1 := on][2 := on], c.globalThreshold);
  }

  lemma OneReleased(c: Config, s: System, now: int) returns (s': System)
    requires 0.625 < c.globalThreshold && s.pending == 2
    requires s.manager.streams == map[1 := Stream(true, 0, now), 2 := Stream(true, 0, now)]
    requires ActiveCount(s.manager.streams) == 2 && |s.manager.streams| == 2
    ensures s' == Step(Step(Step(s, c, FinishActivate), c, FinishActivate), c, DoDeactivate(1))
    ensures s'.pending == 0 && !s'.manager.globalActive && ActiveCount(s'.manager.streams) > 0
    ensures forall id :: id in Survivors(s'.manager.streams, now + 1) ==> s'.manager.streams[id].active
  {
    hide ActiveCount, ShareAtLeast;
    var off := Stream(false, 0, now);
    s' := Step(Step(Step(s, c, FinishActivate), c, FinishActivate), c, DoDeactivate(1));
    CountAfterSet(s.manager.streams, 1, off);
    SizeAfterSet(s.manager.streams, 1, off);
    ShareMeans(s.manager.streams[1 := off], ReleaseThreshold(c));
  }

  lemma RunStep(s: System, c: Config, e: Event, es: seq<Event>)
    requires Enabled(s, e) && IsRun(Step(s, c, e), c, es)
    ensures IsRun(s, c, [e] + es) && Run(s, c, [e] + es) == Run(Step(s, c, e), c, es)
  {
    assert ([e] + es)[1..] == es;
  }

  lemma MultiplyAtMost(t: real, n: real)
    requires t <= 1.0 && n >= 0.0
    ensures t * n <= n
  {
    assert (1.0 - t) * n >= 0.0;
  }

  // ---------------------------------------------------------------------------
  // The manager object

  class BackpressureManager {
    var streamBackpressure: map<nat, Stream>
    var globalActive: bool
    var stats: Stats
    const config: Config

    function View(): Manager
      reads this
    {
      Manager(streamBackpressure, globalActive, stats)
    }

    constructor (config: Config)
      ensures View() == Init() && this.config == config
    {
      streamBackpressure, globalActive, stats := map[], false, Stats(0, 0, 0, 0, 0, false);
      this.config := config;
    }

    method ShouldActivateGlobalBackpressure() returns (should: bool)
      ensures should == ShareAtLeast(streamBackpressure, config.globalThreshold)
    {
      var activeCount := CountActive(streamBackpressure);
      var totalCount := |streamBackpressure|;
      should := false;
      if totalCount > 0 {
        var ratio := activeCount as real / totalCount as real;
        should := ratio >= config.globalThreshold;
      }
    }

    method UpdateActivationStats()
      modifies `stats
      ensures stats == CountActivation(old(stats), ActiveCount(streamBackpressure))
    {
      stats := stats.(totalActivations := stats.totalActivations + 1);
      var activeCount := CountActive(streamBackpressure);
      stats := stats.(activeStreams := activeCount);
      if activeCount > stats.peakActiveStreams {
        stats := stats.(peakActiveStreams := activeCount);
      }
    }

    /** The part of an activation under the stream lock. */
    method ActivateLocked(streamID: nat, reason: int, now: int) returns (status: Status, activateGlobal: bool)
      modifies this
      ensures (View(), status, activateGlobal) == BeginActivate(old(View()), config, streamID, reason, now)
    {
      hide ActiveCount;
      hide ShareAtLeast;
      status, activateGlobal := Ok, false;
      if streamID == 0 {
        return InvalidStream, false;
      }
      if |streamBackpressure| >= config.maxStreams {
        if streamID !in streamBackpressure {
          return TooManyStreams, false;
        }
      }
      var state := if streamID in streamBackpressure then streamBackpressure[streamID] else Stream(false, 0, 0);
      if !state.active {
        streamBackpressure := streamBackpressure[streamID := Stream(true, reason, now)];
        UpdateActivationStats();
        activateGlobal := ShouldActivateGlobalBackpressure();
      }
    }

    method ActivateGlobalBackpressure()
      modifies this
      ensures View() == ActivateGlobal(old(View()))
    {
      if !globalActive {
        globalActive := true;
        stats := stats.(globalActivations := stats.globalActivations + 1, currentlyActive := true);
      }
    }

    method DeactivateGlobalBackpressure()
      modifies this
      ensures View() == DeactivateGlobal(old(View()))
    {
      if globalActive {
        globalActive := false;
        stats := stats.(currentlyActive := false);
      }
    }

    /** The call as a whole, when nothing happens while the stream lock is released. */
    method ActivateBackpressure(streamID: nat, reason: int, now: int) returns (status: Status)
      modifies this
      ensures var (m, st, activateGlobal) := BeginActivate(old(View()), config, streamID, reason, now);
        status == st && View() == if activateGlobal then ActivateGlobal(m) else m
    {
      var activateGlobal;
      status, activateGlobal := ActivateLocked(streamID, reason, now);
      if activateGlobal {
        ActivateGlobalBackpressure();
      }
    }

    method CheckGlobalBackpressureDeactivation()
      modifies this
      ensures var release := ShareBelow(old(streamBackpressure), ReleaseThreshold(config));
        View() == if release then DeactivateGlobal(old(View())) else old(View())
    {
      var activeCount := CountActive(streamBackpressure);
      var totalCount := |streamBackpressure|;
      if totalCount > 0 {
        var ratio := activeCount as real / totalCount as real;
        if ratio < config.globalThreshold * 0.8 {
          DeactivateGlobalBackpressure();
        }
      } else {
        DeactivateGlobalBackpressure();
      }
    }

    method DeactivateBackpressure(streamID: nat) returns (status: Status)
      modifies this
      ensures (View(), status) == Deactivate(old(View()), config, streamID)
    {
      hide ActiveCount;
      hide ShareAtLeast;
      status := Ok;
      if streamID == 0 {
        return InvalidStream;
      }
      if streamID !in streamBackpressure {
        return Ok;
      }
      var state := streamBackpressure[streamID];
      if state.active {
        streamBackpressure := streamBackpressure[streamID := state.(active := false)];
        stats := stats.(totalDeactivations := stats.totalDeactivations + 1);
        var activeCount := CountActive(streamBackpressure);
        stats := stats.(activeStreams := activeCount);
        CheckGlobalBackpressureDeactivation();
      }
    }

    method CleanupInactiveStreams(cutoff: int)
      modifies this
      ensures View() == Cleanup(old(View()), cutoff)
    {
      var streamsToRemove := set id |
        id in streamBackpressure && !streamBackpressure[id].active && streamBackpressure[id].activatedAt < cutoff;
      streamBackpressure := streamBackpressure - streamsToRemove;
    }
  }
}
