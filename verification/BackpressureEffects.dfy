/** What each call does to a stream, to the other streams and to the global flag, and what the
    counters of a run count. */
module BackpressureEffects {
  import opened Backpressure

  predicate IsActive(m: Manager, id: nat)
  {
    id in m.streams && m.streams[id].active
  }

  /** An activation is refused for identifier 0 and for a new stream when the map is full. Any other
      leaves the stream active, with this reason and time unless it was active already, and counts
      once; no other stream is touched. */
  lemma ActivationEffect(m: Manager, c: Config, id: nat, reason: int, now: int, other: nat)
    requires other != id
    ensures var (m', status, _) := BeginActivate(m, c, id, reason, now);
      && (status == InvalidStream <==> id == 0)
      && (status == TooManyStreams <==> id != 0 && id !in m.streams && |m.streams| >= c.maxStreams)
      && (status == Ok ==> IsActive(m', id))
      && (status == Ok && !IsActive(m, id) ==>
            && m'.streams[id] == Stream(true, reason, now)
            && m'.stats.totalActivations == m.stats.totalActivations + 1)
      && (status != Ok || IsActive(m, id) ==> m' == m)
      && (other in m'.streams <==> other in m.streams)
      && (other in m.streams ==> m'.streams[other] == m.streams[other])
      && m'.globalActive == m.globalActive && m'.stats.totalDeactivations == m.stats.totalDeactivations
  {
  }

  /** A deactivation leaves the stream inactive and in the map, and no other is touched. The flag goes
      off exactly when it was on, the stream was active, and what stays active is less than four fifths
      of the threshold of all streams. */
  lemma DeactivationEffect(m: Manager, c: Config, id: nat, other: nat)
    requires other != id
    ensures var (m', status) := Deactivate(m, c, id);
      && (status == InvalidStream <==> id == 0) && (status == Ok <==> id != 0)
      && m'.streams.Keys == m.streams.Keys
      && (status == Ok ==> !IsActive(m', id))
      && (id in m.streams ==> m'.streams[id].reason == m.streams[id].reason)
      && (id in m.streams ==> m'.streams[id].activatedAt == m.streams[id].activatedAt)
      && (other in m.streams ==> m'.streams[other] == m.streams[other])
      && (status != Ok || !IsActive(m, id) ==> m' == m)
      && (status == Ok && IsActive(m, id) ==> m'.stats.totalDeactivations == m.stats.totalDeactivations + 1)
      && (m'.globalActive <==>
            m.globalActive
            && (id != 0 && IsActive(m, id) ==>
                  5.0 * ActiveCount(m'.streams) as real >= 4.0 * c.globalThreshold * |m.streams| as real))
  {
    hide ActiveCount;
    if id != 0 && IsActive(m, id) {
      var streams := m.streams[id := m.streams[id].(active := false)];
      assert streams.Keys == m.streams.Keys;
      ShareMeans(streams, ReleaseThreshold(c));
      FourFifths(c.globalThreshold, |streams| as real);
      assert |streams.Keys| == |m.streams.Keys|;
      hide ShareAtLeast;
    }
  }

  lemma FourFifths(t: real, n: real)
    ensures 5.0 * (t * 0.8 * n) == 4.0 * t * n
  {
  }

  /** A cleanup forgets exactly the streams that are inactive and were last activated before the
      cutoff, and changes nothing else. */
  lemma CleanupEffect(m: Manager, cutoff: int, id: nat)
    ensures var m' := Cleanup(m, cutoff);
      && (id in m'.streams <==> id in m.streams && !(!m.streams[id].active && m.streams[id].activatedAt < cutoff))
      && (id in m'.streams ==> m'.streams[id] == m.streams[id])
      && m' == m.(streams := m'.streams)
  {
  }

  // ---------------------------------------------------------------------------
  // Counters of a run

  function Max(a: nat, b: nat): nat
  {
    if a > b then a else b
  }

  /** The most streams active at once after any step of the run. */
  function MostActive(s: System, c: Config, es: seq<Event>): nat
    requires IsRun(s, c, es)
    decreases |es|
  {
    if es == [] then ActiveCount(s.manager.streams)
    else Max(ActiveCount(s.manager.streams), MostActive(Step(s, c, es[0]), c, es[1..]))
  }

  /** How often the run switches the flag on. */
  function Rises(s: System, c: Config, es: seq<Event>): nat
    requires IsRun(s, c, es)
    decreases |es|
  {
    if es == [] then 0
    else
      var s' := Step(s, c, es[0]);
      (if !s.manager.globalActive && s'.manager.globalActive then 1 else 0) + Rises(s', c, es[1..])
  }

  lemma StepCounts(s: System, c: Config, e: Event)
    requires Enabled(s, e) && Balanced(s.manager, c)
    ensures var m, m' := s.manager, Step(s, c, e).manager;
      && m'.stats.peakActiveStreams == Max(m.stats.peakActiveStreams, ActiveCount(m'.streams))
      && m'.stats.globalActivations ==
           m.stats.globalActivations + (if !m.globalActive && m'.globalActive then 1 else 0)
  {
    var m := s.manager;
    hide ActiveIDs, ShareAtLeast, ShareBelow;
    match e
    case DoDeactivate(id) =>
      if id in m.streams {
        CountAfterSet(m.streams, id, m.streams[id].(active := false));
      }
    case DoCleanup(cutoff) => CleanupKeepsActive(m, cutoff);
    case _ =>
  }

  /** Over every run the peak is the most streams that were active at once, and the global activations
      are the times the flag was switched on. */
  lemma {:induction false} RunCounts(s: System, c: Config, es: seq<Event>)
    requires IsRun(s, c, es) && Balanced(s.manager, c)
    ensures var m, m' := s.manager, Run(s, c, es).manager;
      && m'.stats.peakActiveStreams == Max(m.stats.peakActiveStreams, MostActive(s, c, es))
      && m'.stats.globalActivations == m.stats.globalActivations + Rises(s, c, es)
    decreases |es|
  {
    assert ActiveCount(s.manager.streams) <= s.manager.stats.peakActiveStreams;
    hide Step, Enabled, ActiveCount, Balanced;
    if es != [] {
      StepCounts(s, c, es[0]);
      StepKeepsBalanced(s, c, es[0]);
      RunCounts(Step(s, c, es[0]), c, es[1..]);
    }
  }

  lemma PeakFromStart(c: Config, es: seq<Event>)
    requires IsRun(System(Init(), 0), c, es)
    ensures var m := Run(System(Init(), 0), c, es).manager;
      && m.stats.peakActiveStreams == MostActive(System(Init(), 0), c, es)
      && m.stats.globalActivations == Rises(System(Init(), 0), c, es)
  {
    assert ActiveIDs(Init().streams) == {};
    RunCounts(System(Init(), 0), c, es);
  }
}
