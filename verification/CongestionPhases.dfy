/** What the phases of the congestion window amount to over whole runs: slow start adds what was
    acknowledged, a loss halves, and recovery ends at half the window the loss found. */
module CongestionPhases {
  import opened Congestion

  // ---------------------------------------------------------------------------
  // Slow start

  ghost predicate OnlyAcks(events: seq<Event>)
  {
    forall i :: 0 <= i < |events| ==> events[i].Ack?
  }

  function PacketsAcked(events: seq<Event>): nat
  {
    if events == [] then 0
    else
      var n := |events| - 1;
      PacketsAcked(events[..n]) + if events[n].Ack? then events[n].packets else 0
  }

  lemma RunPrefix(states: seq<Cwnd>, events: seq<Event>, c: Config, n: nat)
    requires IsRun(states, events, c) && n <= |events|
    ensures IsRun(states[..n + 1], events[..n], c)
  {
    var states', events' := states[..n + 1], events[..n];
    forall i | 0 <= i < n
      ensures Enabled(states'[i], events'[i]) && states'[i + 1] == Step(states'[i], events'[i], c)
    {
      assert states[i + 1] == Step(states[i], events[i], c);
    }
  }

  /** While ACKs alone arrive and slow start lasts, the window is the initial one and everything
      acknowledged. */
  lemma {:induction false} SlowStartAddsAcked(states: seq<Cwnd>, events: seq<Event>, c: Config)
    requires IsRun(states, events, c) && OnlyAcks(events)
    requires forall i :: 0 <= i < |states| ==> states[i].slowStart
    ensures states[|events|] == Initial(c).(window := c.initial + MSS * PacketsAcked(events))
    decreases |events|
  {
    if events != [] {
      var n := |events| - 1;
      RunPrefix(states, events, c, n);
      SlowStartAddsAcked(states[..n + 1], events[..n], c);
      assert states[n + 1] == Step(states[n], events[n], c);
    }
  }

  lemma {:induction false} AckedGrows(events: seq<Event>, n: nat)
    requires n <= |events|
    ensures PacketsAcked(events[..n]) <= PacketsAcked(events)
    decreases |events|
  {
    if n < |events| {
      var m := |events| - 1;
      assert events[..m][..n] == events[..n];
      AckedGrows(events[..m], n);
    } else {
      assert events[..n] == events;
    }
  }

  /** Over a run of ACKs slow start lasts exactly as long as the initial window and everything
      acknowledged stay below half the maximum. */
  lemma {:induction false} SlowStartLastsIff(states: seq<Cwnd>, events: seq<Event>, c: Config)
    requires IsRun(states, events, c) && OnlyAcks(events) && events != []
    ensures (forall i :: 0 <= i < |states| ==> states[i].slowStart)
       <==> c.initial + MSS * PacketsAcked(events) < c.max / 2
    decreases |events|
  {
    var n := |events| - 1;
    RunPrefix(states, events, c, n);
    AckedGrows(events, n);
    if n > 0 {
      SlowStartLastsIff(states[..n + 1], events[..n], c);
    }
    assert states[n + 1] == Step(states[n], events[n], c);
    if forall i :: 0 <= i <= n ==> states[i].slowStart {
      SlowStartAddsAcked(states[..n + 1], events[..n], c);
      assert states[..n + 1][n] == states[n];
      assert MSS * PacketsAcked(events) == MSS * PacketsAcked(events[..n]) + MSS * events[n].packets;
    } else {
      var i :| 0 <= i <= n && !states[i].slowStart;
      assert !states[..n + 1][i].slowStart;
    }
  }

  // ---------------------------------------------------------------------------
  // Congestion avoidance

  /** In congestion avoidance n ACKs make the window what `AfterAcks` says, so the bounds on its growth
      hold for runs. */
  lemma {:induction false} AvoidanceIsAfterAcks(states: seq<Cwnd>, events: seq<Event>, c: Config, from: nat, n: nat)
    requires IsRun(states, events, c) && from + n <= |events|
    requires forall i :: from <= i < from + n ==> events[i].Ack?
    requires states[from].avoidance && !states[from].slowStart && !states[from].recovery
    requires 0 < states[from].window <= c.max
    ensures states[from + n] == states[from].(window := AfterAcks(states[from].window, n, c.max))
    decreases n
  {
    if n > 0 {
      assert states[from + 1] == Step(states[from], events[from], c);
      AvoidanceIsAfterAcks(states, events, c, from + 1, n - 1);
    }
  }

  /** One ACK adds the square of the segment size divided by the window, rounded down, but never
      nothing. */
  lemma IncreaseIsShare(w: nat)
    requires w > 0
    ensures w <= MSS * MSS ==> Increase(w) * w <= MSS * MSS < (Increase(w) + 1) * w
    ensures w > MSS * MSS ==> Increase(w) == 1
  {
    var q := MSS * MSS / w;
    assert q * w <= MSS * MSS < (q + 1) * w;
    if w <= MSS * MSS {
      QuotientIsLargest(MSS * MSS, w, 1);
    }
  }

  /** Until the maximum is reached, every ACK adds at least what the last window would get. */
  lemma {:induction false} GrowthAtLeast(window: nat, acks: nat, max: nat)
    requires 0 < window <= max
    ensures var w := AfterAcks(window, acks, max); w == max || w >= window + acks * Increase(w)
    decreases acks
  {
    if acks > 0 {
      var next := CapTo(window + Increase(window), max);
      var w := AfterAcks(next, acks - 1, max);
      GrowthAtLeast(next, acks - 1, max);
      IncreaseFalls(window, w);
      assert acks * Increase(w) == (acks - 1) * Increase(w) + Increase(w);
      if next == max {
        assert w == max;
      }
    }
  }

  // ---------------------------------------------------------------------------
  // Loss

  /** A loss under Reno or NewReno halves: the threshold is half the window and the window three
      segments above it, but neither goes below what the minimum asks. */
  lemma RenoLossHalves(s: Cwnd, algorithm: Algorithm, min: nat)
    requires algorithm == Reno || algorithm == NewReno
    ensures var s' := OnLoss(s, algorithm, min);
      && s'.recovery && !s'.slowStart && !s'.avoidance
      && s'.window - s'.threshold == 3 * MSS
      && (s.window >= 2 * min ==> 2 * s'.threshold <= s.window <= 2 * s'.threshold + 1)
      && (s.window < 2 * min ==> s'.threshold == min)
  {
  }

  /** CUBIC leaves seven tenths of the window and BBR nine, without a change of phase but never below
      the minimum. */
  lemma OtherLossesShrink(s: Cwnd, min: nat)
    ensures var s' := OnLoss(s, Cubic, min);
      && s'.recovery && !s'.slowStart && !s'.avoidance
      && 10 * s'.window <= 7 * s.window < 10 * (s'.window + 1)
      && s'.threshold == OnLoss(s, Reno, min).threshold
    ensures var s' := OnLoss(s, BBR, min);
      && s' == s.(window := s'.window)
      && (s.window * 9 >= min * 10 ==> 10 * s'.window <= 9 * s.window < 10 * (s'.window + 1))
      && (s.window * 9 < min * 10 ==> s'.window == min)
  {
  }

  /** ACKs in fast recovery before it is over. */
  ghost predicate OnlyEarlyAcks(events: seq<Event>, from: nat, until: nat)
    requires until <= |events|
  {
    forall i :: from <= i < until ==> events[i].Ack? && !events[i].over
  }

  lemma {:induction false} RecoveryAddsAcked(states: seq<Cwnd>, events: seq<Event>, c: Config, from: nat, n: nat)
    requires IsRun(states, events, c) && from + n <= |events| && states[from].recovery
    requires OnlyEarlyAcks(events, from, from + n)
    ensures states[from + n] == states[from].(
      window := states[from].window + MSS * PacketsAcked(events[from..from + n]))
    decreases n
  {
    if n > 0 {
      var m := n - 1;
      RecoveryAddsAcked(states, events, c, from, m);
      assert events[from..from + n][..m] == events[from..from + m];
      assert states[from + n] == Step(states[from + m], events[from + m], c);
    }
  }

  /** A whole recovery: from the loss to the first ACK that finds it over. Whatever the ACKs between
      added, the window ends at half of what the loss found, in congestion avoidance. */
  lemma RecoveryEndsAtHalf(states: seq<Cwnd>, events: seq<Event>, c: Config, from: nat, n: nat)
    requires IsRun(states, events, c) && from + n + 1 < |events|
    requires events[from].Loss? && events[from].algorithm != BBR
    requires OnlyEarlyAcks(events, from + 1, from + 1 + n)
    requires events[from + n + 1].Ack? && events[from + n + 1].over
    ensures var w := if states[from].window / 2 < c.min then c.min else states[from].window / 2;
      states[from + n + 2] == Cwnd(w, w, false, true, false)
  {
    assert states[from + 1] == Step(states[from], events[from], c);
    RecoveryAddsAcked(states, events, c, from + 1, n);
    assert states[from + n + 2] == Step(states[from + n + 1], events[from + n + 1], c);
  }

  /** The window is moved into its bounds, to the nearer one, and otherwise left alone. */
  lemma ClampMovesToNearest(s: Cwnd, c: Config, w: nat)
    requires c.min <= w <= c.max
    ensures var s' := Clamp(s, c);
      && s' == s.(window := s'.window) && c.min <= s'.window <= c.max
      && (s.window <= s'.window <= w || w <= s'.window <= s.window || s'.window == s.window)
    ensures c.min <= s.window <= c.max ==> Clamp(s, c) == s
  {
  }
}
