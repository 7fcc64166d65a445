/** The congestion window of one path. */
module Congestion {

  const MSS: nat := 1460

  datatype Algorithm = Reno | Cubic | BBR | NewReno

  /** The part of the configuration that the window depends on. */
  datatype Config = Config(initial: nat, min: nat, max: nat)

  predicate GoodConfig(c: Config)
  {
    0 < c.min <= c.initial && c.min <= c.max / 2
  }

  // ---------------------------------------------------------------------------
  // The window state as a value

  datatype Cwnd = Cwnd(window: nat, threshold: nat, slowStart: bool, avoidance: bool, recovery: bool)

  function Initial(c: Config): Cwnd
  {
    Cwnd(c.initial, c.max / 2, true, false, false)
  }

  function Increase(window: nat): nat
    requires window > 0
  {
    if MSS * MSS / window == 0 then 1 else MSS * MSS / window
  }

  function CapTo(window: nat, max: nat): nat
  {
    if window > max then max else window
  }

  function SlowStartAck(s: Cwnd, bytesAcked: nat, max: nat): Cwnd
  {
    var w := s.window + bytesAcked;
    var exit := w >= s.threshold || w > max;
    s.(window := CapTo(w, max), slowStart := s.slowStart && !exit, avoidance := s.avoidance || exit)
  }

  function AvoidanceAck(s: Cwnd, max: nat): Cwnd
    requires s.window > 0
  {
    s.(window := CapTo(s.window + Increase(s.window), max))
  }

  function RecoveryAck(s: Cwnd, bytesAcked: nat, over: bool): Cwnd
  {
    if over then s.(window := s.threshold, recovery := false, avoidance := true)
    else s.(window := s.window + bytesAcked)
  }

  /** The effect of one ACK; `over` says whether fast recovery has lasted long enough. */
  function OnAck(s: Cwnd, bytesAcked: nat, over: bool, max: nat): Cwnd
    requires s.avoidance && !s.recovery && !s.slowStart ==> s.window > 0
  {
    if s.recovery then RecoveryAck(s, bytesAcked, over)
    else if s.slowStart then SlowStartAck(s, bytesAcked, max)
    else if s.avoidance then AvoidanceAck(s, max)
    else s
  }

  function AtLeast(x: nat, min: nat): nat
  {
    if x < min then min else x
  }

  function OnLoss(s: Cwnd, algorithm: Algorithm, min: nat): Cwnd
  {
    var threshold := AtLeast(s.window / 2, min);
    match algorithm
    case Reno => Cwnd(threshold + 3 * MSS, threshold, false, false, true)
    case NewReno => Cwnd(threshold + 3 * MSS, threshold, false, false, true)
    case Cubic => Cwnd(s.window * 7 / 10, threshold, false, false, true)
    case BBR => s.(window := AtLeast(s.window * 9 / 10, min))
  }

  function Clamp(s: Cwnd, c: Config): Cwnd
  {
    s.(window := AtLeast(CapTo(s.window, c.max), c.min))
  }

  // ---------------------------------------------------------------------------
  // What every run keeps

  predicate OnePhase(s: Cwnd)
  {
    || (s.slowStart && !s.avoidance && !s.recovery)
    || (!s.slowStart && s.avoidance && !s.recovery)
    || (!s.slowStart && !s.avoidance && s.recovery)
  }

  ghost predicate Inv(s: Cwnd, c: Config)
  {
    && OnePhase(s)
    && 0 < c.min <= s.threshold
    && c.min <= c.max
    && (!s.recovery ==> c.min <= s.window)
  }

  datatype Event =
    | Ack(packets: nat, over: bool)
    | Loss(algorithm: Algorithm)
    | Bound

  /** A step is taken only where the code can take it: the division in congestion avoidance
      needs a window that is not zero. */
  ghost predicate Enabled(s: Cwnd, e: Event)
  {
    e.Ack? && s.avoidance && !s.recovery && !s.slowStart ==> s.window > 0
  }

  function Step(s: Cwnd, e: Event, c: Config): Cwnd
    requires Enabled(s, e)
  {
    match e
    case Ack(packets, over) => OnAck(s, MSS * packets, over, c.max)
    case Loss(algorithm) => OnLoss(s, algorithm, c.min)
    case Bound => Clamp(s, c)
  }

  /** The states of a run, one more than its events. */
  ghost predicate IsRun(states: seq<Cwnd>, events: seq<Event>, c: Config)
  {
    && |states| == |events| + 1
    && states[0] == Initial(c)
    && forall i :: 0 <= i < |events| ==> Enabled(states[i], events[i]) && states[i + 1] == Step(states[i], events[i], c)
  }

  lemma StepKeepsInv(s: Cwnd, e: Event, c: Config)
    requires Inv(s, c)
    ensures Enabled(s, e) && Inv(Step(s, e, c), c)
  {
  }

  /** In every state that any mix of ACKs, losses and algorithms reaches, exactly one phase flag
      is set, the threshold is at least the minimum, and so is the window outside fast recovery. */
  lemma {:induction false} RunKeepsInv(states: seq<Cwnd>, events: seq<Event>, c: Config, i: nat)
    requires GoodConfig(c) && IsRun(states, events, c) && i < |states|
    ensures Inv(states[i], c)
  {
    if i > 0 {
      RunKeepsInv(states, events, c, i - 1);
      StepKeepsInv(states[i - 1], events[i - 1], c);
      assert states[i - 1 + 1] == Step(states[i - 1], events[i - 1], c);
    }
  }

  /** No run gets stuck: the division is safe in every reachable state, although a loss under
      CUBIC may shrink the window below any bound. */
  lemma NeverStuck(states: seq<Cwnd>, events: seq<Event>, e: Event, c: Config)
    requires GoodConfig(c) && IsRun(states, events, c)
    ensures Enabled(states[|events|], e)
    ensures IsRun(states + [Step(states[|events|], e, c)], events + [e], c)
  {
    RunKeepsInv(states, events, c, |events|);
    StepKeepsInv(states[|events|], e, c);
    var states' := states + [Step(states[|events|], e, c)];
    var events' := events + [e];
    forall i | 0 <= i < |events'|
      ensures Enabled(states'[i], events'[i]) && states'[i + 1] == Step(states'[i], events'[i], c)
    {
      if i < |events| {
        assert states'[i] == states[i] && states'[i + 1] == states[i + 1];
      }
    }
  }

  /** A window at or above the minimum stays there through every step but a CUBIC loss that takes
      seven tenths of too little. */
  predicate KeepsMinimum(s: Cwnd, e: Event, c: Config)
  {
    e == Loss(Cubic) ==> c.min <= s.window * 7 / 10
  }

  lemma StepKeepsMinimumIff(s: Cwnd, e: Event, c: Config)
    requires Inv(s, c) && c.min <= s.window && Enabled(s, e)
    ensures c.min <= Step(s, e, c).window <==> KeepsMinimum(s, e, c)
  {
  }

  lemma {:induction false} MinimumUpTo(states: seq<Cwnd>, events: seq<Event>, c: Config, i: nat)
    requires GoodConfig(c) && IsRun(states, events, c) && i < |states|
    requires forall k :: 0 <= k < |events| ==> KeepsMinimum(states[k], events[k], c)
    ensures c.min <= states[i].window
  {
    if i > 0 {
      MinimumUpTo(states, events, c, i - 1);
      RunKeepsInv(states, events, c, i - 1);
      hide Inv;
      StepKeepsMinimumIff(states[i - 1], events[i - 1], c);
      assert states[i - 1 + 1] == Step(states[i - 1], events[i - 1], c);
    }
  }

  /** Exactly when the window is never below the minimum, inside fast recovery too: when every
      CUBIC loss of the run finds a window of which seven tenths still reach the minimum. */
  lemma WindowStaysAboveMinimumIff(states: seq<Cwnd>, events: seq<Event>, c: Config)
    requires GoodConfig(c) && IsRun(states, events, c)
    ensures (forall i :: 0 <= i < |states| ==> c.min <= states[i].window)
       <==> forall k :: 0 <= k < |events| && events[k] == Loss(Cubic) ==> c.min <= states[k].window * 7 / 10
  {
    if forall i :: 0 <= i < |states| ==> c.min <= states[i].window {
      forall k | 0 <= k < |events|
        ensures KeepsMinimum(states[k], events[k], c)
      {
        RunKeepsInv(states, events, c, k);
        StepKeepsMinimumIff(states[k], events[k], c);
        assert states[k + 1] == Step(states[k], events[k], c);
      }
    }
    if forall k :: 0 <= k < |events| ==> KeepsMinimum(states[k], events[k], c) {
      forall i | 0 <= i < |states|
        ensures c.min <= states[i].window
      {
        MinimumUpTo(states, events, c, i);
      }
    }
  }

  /** No lower bound survives: some run of CUBIC losses ends at zero. */
  lemma {:induction false} CubicLossesReachZero(s: Cwnd, c: Config) returns (losses: nat)
    ensures AfterCubicLosses(s, losses, c).window == 0
    decreases s.window
  {
    if s.window == 0 {
      losses := 0;
    } else {
      losses := CubicLossesReachZero(OnLoss(s, Cubic, c.min), c);
      losses := losses + 1;
    }
  }

  function AfterCubicLosses(s: Cwnd, losses: nat, c: Config): Cwnd
    decreases losses
  {
    if losses == 0 then s else AfterCubicLosses(OnLoss(s, Cubic, c.min), losses - 1, c)
  }

  // ---------------------------------------------------------------------------
  // Growth in congestion avoidance

  function AfterAcks(window: nat, acks: nat, max: nat): (w: nat)
    requires 0 < window <= max
    ensures window <= w <= max
    decreases acks
  {
    if acks == 0 then window else AfterAcks(CapTo(window + Increase(window), max), acks - 1, max)
  }

  lemma IncreaseFalls(v: nat, w: nat)
    requires 0 < v <= w
    ensures Increase(w) <= Increase(v)
  {
    QuotientFalls(MSS * MSS, v, w);
  }

  lemma ProductMonotone(b: nat, x: nat, y: nat)
    requires x <= y
    ensures b * x <= b * y && x * b <= y * b
  {
  }

  lemma QuotientIsLargest(n: nat, v: nat, q: nat)
    requires 0 < v && q * v <= n
    ensures q <= n / v
  {
    var d := n / v;
    assert n < (d + 1) * v;
    if d + 1 <= q {
      ProductMonotone(v, d + 1, q);
    }
  }

  lemma QuotientFalls(n: nat, v: nat, w: nat)
    requires 0 < v <= w
    ensures n / w <= n / v
  {
    ProductMonotone(n / w, v, w);
    QuotientIsLargest(n, v, n / w);
  }

  /** Every ACK adds at most what the first one would have added. */
  lemma {:induction false} GrowthIsBounded(window: nat, acks: nat, max: nat, bound: nat)
    requires 0 < window <= max && Increase(window) <= bound
    ensures AfterAcks(window, acks, max) <= window + acks * bound
    decreases acks
  {
    if acks > 0 {
      var next := CapTo(window + Increase(window), max);
      IncreaseFalls(window, next);
      GrowthIsBounded(next, acks - 1, max, bound);
      assert acks * bound == (acks - 1) * bound + bound;
    }
  }

  /** Above MSS^2 every ACK adds exactly one byte. */
  lemma {:induction false} GrowthAboveSquare(window: nat, acks: nat, max: nat)
    requires MSS * MSS < window <= max
    ensures AfterAcks(window, acks, max) == CapTo(window + acks, max)
    decreases acks
  {
    if acks > 0 {
      assert MSS * MSS / window == 0;
      GrowthAboveSquare(CapTo(window + 1, max), acks - 1, max);
    }
  }

  lemma WindowTimesIncrease(w: nat)
    requires MSS <= w <= MSS * MSS
    ensures (w / MSS) * Increase(w) <= MSS
  {
    var a, b := w / MSS, MSS * MSS / w;
    QuotientFalls(MSS * MSS, w, MSS * MSS);
    assert b >= 1;
    assert a * MSS <= w;
    assert b * w <= MSS * MSS;
    assert (a * b) * MSS == b * (a * MSS) <= b * w by {
      ProductMonotone(b, a * MSS, w);
    }
  }

  /** One window of ACKs (section 3.1 of RFC 5681) grows the window by at most one segment
      exactly when the window is below MSS * (MSS + 1) or the maximum is at most one segment
      away; in particular always when the maximum is at most MSS * MSS. */
  lemma {:induction false} WindowOfAcksGrowsByOneSegment(w: nat, max: nat)
    requires MSS <= w <= max
    ensures AfterAcks(w, w / MSS, max) - w <= MSS <==> w < MSS * (MSS + 1) || max - w <= MSS
    ensures max <= MSS * MSS ==> AfterAcks(w, w / MSS, max) - w <= MSS
  {
    if w <= MSS * MSS {
      GrowthIsBounded(w, w / MSS, max, Increase(w));
      WindowTimesIncrease(w);
    } else {
      GrowthAboveSquare(w, w / MSS, max);
    }
  }

  // ---------------------------------------------------------------------------
  // The congestion state of a path

  class CongestionState {
    const config: Config
    var congestionWindow: nat
    var slowStartThreshold: nat
    var slowStartPhase: bool
    var congestionAvoidancePhase: bool
    var fastRecoveryPhase: bool
    var algorithm: Algorithm
    var bytesInFlight: nat
    var ackCount: nat
    var bytesAcked: nat
    var packetsLost: nat
    var lastLossTime: int
    var rtt: int

    ghost function View(): Cwnd
      reads this
    {
      Cwnd(congestionWindow, slowStartThreshold, slowStartPhase, congestionAvoidancePhase, fastRecoveryPhase)
    }

    ghost predicate Valid()
      reads this
    {
      Inv(View(), config)
    }

    constructor (config: Config)
      ensures this.config == config && View() == Initial(config)
      ensures GoodConfig(config) <==> Valid()
      ensures algorithm == Reno && bytesInFlight == 0 && ackCount == 0 && bytesAcked == 0 && packetsLost == 0
    {
      this.config := config;
      congestionWindow, slowStartThreshold := config.initial, config.max / 2;
      slowStartPhase, congestionAvoidancePhase, fastRecoveryPhase := true, false, false;
      algorithm := Reno;
      bytesInFlight, ackCount, bytesAcked, packetsLost, lastLossTime, rtt := 0, 0, 0, 0, 0, 0;
    }

    /** The smoothed round-trip time after this ACK and the clock are inputs. */
    method ProcessAck(ackedPackets: seq<nat>, smoothedRtt: int, now: int)
      requires Valid()
      modifies this
      ensures Valid()
      ensures View() == OnAck(old(View()), MSS * |ackedPackets|, now - lastLossTime > 2 * smoothedRtt, config.max)
      ensures old(slowStartPhase) ==>
                congestionWindow == CapTo(old(congestionWindow) + MSS * |ackedPackets|, config.max)
      ensures old(congestionAvoidancePhase) ==>
                congestionWindow == CapTo(old(congestionWindow) + Increase(old(congestionWindow)), config.max)
      ensures bytesAcked == old(bytesAcked) + MSS * |ackedPackets| && ackCount == old(ackCount) + 1
      ensures var bytes := MSS * |ackedPackets|;
        bytesInFlight == if old(bytesInFlight) > bytes then old(bytesInFlight) - bytes else 0
      ensures algorithm == old(algorithm) && packetsLost == old(packetsLost)
      ensures lastLossTime == old(lastLossTime) && rtt == smoothedRtt
    {
      rtt := smoothedRtt;
      var bytes := MSS * |ackedPackets|;
      ackCount := ackCount + 1;
      bytesAcked := bytesAcked + bytes;
      bytesInFlight := if bytesInFlight > bytes then bytesInFlight - bytes else 0;
      if fastRecoveryPhase {
        ProcessFastRecoveryAck(bytes, now);
      } else if slowStartPhase {
        ProcessSlowStartAck(bytes);
      } else if congestionAvoidancePhase {
        ProcessCongestionAvoidanceAck();
      }
    }

    method ProcessSlowStartAck(bytes: nat)
      modifies `congestionWindow, `slowStartPhase, `congestionAvoidancePhase
      ensures View() == SlowStartAck(old(View()), bytes, config.max)
    {
      congestionWindow := congestionWindow + bytes;
      if congestionWindow >= slowStartThreshold {
        slowStartPhase := false;
        congestionAvoidancePhase := true;
      }
      if congestionWindow > config.max {
        congestionWindow := config.max;
        slowStartPhase := false;
        congestionAvoidancePhase := true;
      }
    }

    method ProcessCongestionAvoidanceAck()
      requires congestionWindow > 0
      modifies `congestionWindow
      ensures View() == AvoidanceAck(old(View()), config.max)
    {
      var increase := MSS * MSS / congestionWindow;
      if increase == 0 {
        increase := 1;
      }
      congestionWindow := congestionWindow + increase;
      if congestionWindow > config.max {
        congestionWindow := config.max;
      }
    }

    method ProcessFastRecoveryAck(bytes: nat, now: int)
      modifies `congestionWindow, `fastRecoveryPhase, `congestionAvoidancePhase
      ensures View() == RecoveryAck(old(View()), bytes, now - lastLossTime > 2 * rtt)
    {
      congestionWindow := congestionWindow + bytes;
      if now - lastLossTime > rtt * 2 {
        fastRecoveryPhase := false;
        congestionAvoidancePhase := true;
        congestionWindow := slowStartThreshold;
      }
    }

    method OnPacketLoss(lostPackets: seq<nat>, now: int)
      requires Valid()
      modifies this
      ensures Valid()
      ensures View() == OnLoss(old(View()), algorithm, config.min)
      ensures packetsLost == old(packetsLost) + |lostPackets| && lastLossTime == now
      ensures algorithm == old(algorithm) && bytesAcked == old(bytesAcked) && ackCount == old(ackCount)
      ensures bytesInFlight == old(bytesInFlight) && rtt == old(rtt)
    {
      packetsLost := packetsLost + |lostPackets|;
      lastLossTime := now;
      match algorithm {
        case Reno => HandleRenoLoss();
        case Cubic => HandleCubicLoss();
        case BBR => HandleBBRLoss();
        case NewReno => HandleRenoLoss();
      }
    }

    method HandleRenoLoss()
      modifies `congestionWindow, `slowStartThreshold, `slowStartPhase, `congestionAvoidancePhase, `fastRecoveryPhase
      ensures View() == OnLoss(old(View()), Reno, config.min)
    {
      slowStartThreshold := congestionWindow / 2;
      if slowStartThreshold < config.min {
        slowStartThreshold := config.min;
      }
      fastRecoveryPhase, slowStartPhase, congestionAvoidancePhase := true, false, false;
      congestionWindow := slowStartThreshold + 3 * MSS;
    }

    method HandleCubicLoss()
      modifies `congestionWindow, `slowStartThreshold, `slowStartPhase, `congestionAvoidancePhase, `fastRecoveryPhase
      ensures View() == OnLoss(old(View()), Cubic, config.min)
    {
      slowStartThreshold := congestionWindow / 2;
      if slowStartThreshold < config.min {
        slowStartThreshold := config.min;
      }
      congestionWindow := congestionWindow * 7 / 10;
      fastRecoveryPhase, slowStartPhase, congestionAvoidancePhase := true, false, false;
    }

    method HandleBBRLoss()
      modifies `congestionWindow
      ensures View() == OnLoss(old(View()), BBR, config.min)
    {
      congestionWindow := congestionWindow * 9 / 10;
      if congestionWindow < config.min {
        congestionWindow := config.min;
      }
    }

    method UpdateCongestionWindow()
      requires Valid()
      modifies `congestionWindow
      ensures Valid() && config.min <= congestionWindow <= config.max
      ensures View() == Clamp(old(View()), config)
    {
      if congestionWindow > config.max {
        congestionWindow := config.max;
      }
      if congestionWindow < config.min {
        congestionWindow := config.min;
      }
    }

    method SetAlgorithm(algorithm: Algorithm)
      requires Valid()
      modifies `algorithm
      ensures Valid() && this.algorithm == algorithm
    {
      this.algorithm := algorithm;
    }
  }
}
