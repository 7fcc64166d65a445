/** What the parameters of a path mean for its ACKs. */
module AckTiming {
  import opened AckScheduler

  // ---------------------------------------------------------------------------
  // The interval

  /** What a path is due before rounding: less if it loses packets, half as much again if it has
      little bandwidth. */
  function ExactInterval(c: Characteristics, config: Config): real
  {
    var lossy := ExactLossy(BaseInterval(c.rtt, config.minAckDelay) as real, c.packetLossRate);
    if c.isLowBandwidth then lossy * 1.5 else lossy
  }

  function ExactLossy(base: real, rate: real): real
  {
    if rate > 0.01 then base * (1.0 - rate) else base
  }

  ghost predicate GoodPath(c: Characteristics, config: Config)
  {
    c.rtt >= 0 && 0.0 <= c.packetLossRate <= 1.0 && 0 <= config.minAckDelay <= config.maxAckDelay
  }

  lemma TruncateIsClose(x: real)
    requires x >= 0.0
    ensures x - 1.0 < Truncate(x) as real <= x
  {
  }

  lemma LossyIsExact(base: nat, rate: real)
    requires 0.0 <= rate <= 1.0
    ensures Lossy(base, rate) >= 0
    ensures ExactLossy(base as real, rate) - 1.0 < Lossy(base, rate) as real <= ExactLossy(base as real, rate)
  {
    ProductOfNonNegatives(base as real, 1.0 - rate);
  }

  lemma UnboundedIsExact(c: Characteristics, config: Config)
    requires GoodPath(c, config)
    ensures ExactInterval(c, config) - 2.5 < Unbounded(c, config) as real <= ExactInterval(c, config)
  {
    var base := BaseInterval(c.rtt, config.minAckDelay);
    LossyIsExact(base, c.packetLossRate);
    TruncateIsClose(Lossy(base, c.packetLossRate) as real * 1.5);
    hide BaseInterval, Truncate, Lossy, ExactLossy;
  }

  /** The interval is the exact one, rounded down by less than 2.5 time units, and is moved to a bound
      only where that is out of bounds. */
  lemma IntervalIsExact(c: Characteristics, config: Config)
    requires GoodPath(c, config)
    ensures var r, exact := AckInterval(c, config), ExactInterval(c, config);
      && (config.minAckDelay < r < config.maxAckDelay ==> exact - 2.5 < r as real <= exact)
      && (r == config.minAckDelay < config.maxAckDelay ==> exact < r as real + 2.5)
      && (r == config.maxAckDelay > config.minAckDelay ==> exact >= r as real)
  {
    UnboundedIsExact(c, config);
    hide Unbounded, ExactInterval;
  }

  lemma ProductOfNonNegatives(x: real, y: real)
    requires x >= 0.0 && y >= 0.0
    ensures x * y >= 0.0
  {
  }

  /** A clean path of normal bandwidth waits a quarter of its round-trip time, within the bounds. */
  lemma CleanPathWaitsQuarter(c: Characteristics, config: Config)
    requires c.packetLossRate <= 0.01 && !c.isLowBandwidth && config.minAckDelay <= config.maxAckDelay
    requires config.minAckDelay <= c.rtt / 4 <= config.maxAckDelay && c.rtt > 0
    ensures AckInterval(c, config) == c.rtt / 4
  {
  }

  // ---------------------------------------------------------------------------
  // The burst

  /** High latency costs exactly one ACK of the burst; an unreliable path starts from two whatever its
      bandwidth; a reliable one from three, or from five with more than 1 Mbps. */
  lemma BurstIsGraded(c: Characteristics)
    ensures BurstAllowance(c.(isHighLatency := true)) == BurstAllowance(c.(isHighLatency := false)) - 1
    ensures c.isUnreliable ==> BurstAllowance(c.(isHighLatency := false)) == 2
    ensures !c.isUnreliable ==>
      BurstAllowance(c.(isHighLatency := false)) == if c.bandwidth > 1000000 && !c.isLowBandwidth then 5 else 3
  {
  }

  // ---------------------------------------------------------------------------
  // Priorities

  /** An ACK of higher priority is never due later: urgent ones are due at once, high ones after half
      the minimum delay, normal ones after one interval and low ones after two. */
  lemma PriorityMeansEarlier(s: PathState, now: int, config: Config)
    requires 0 < config.minAckDelay <= s.ackInterval
    ensures ScheduledTime(s, PRIORITY_URGENT, now, config) == now
    ensures var high := ScheduledTime(s, PRIORITY_HIGH, now, config);
      2 * (high - now) <= config.minAckDelay < 2 * (high - now) + 2
    ensures now <= ScheduledTime(s, PRIORITY_HIGH, now, config) < ScheduledTime(s, PRIORITY_NORMAL, now, config)
                < ScheduledTime(s, PRIORITY_LOW, now, config)
    ensures ScheduledTime(s, PRIORITY_NORMAL, now, config) - now == s.ackInterval
    ensures ScheduledTime(s, PRIORITY_LOW, now, config) - now == 2 * s.ackInterval
  {
    TruncateIsClose(config.minAckDelay as real / 2.0);
  }

  lemma PriorityIsMonotone(s: PathState, p: int, q: int, now: int, config: Config)
    requires 0 < config.minAckDelay <= s.ackInterval
    requires PRIORITY_LOW <= p < q <= PRIORITY_URGENT
    ensures ScheduledTime(s, q, now, config) <= ScheduledTime(s, p, now, config)
  {
    PriorityMeansEarlier(s, now, config);
  }

  /** The queue order is a strict weak order, as a heap needs, and priority comes before time. */
  lemma LessIsStrictWeakOrder(a: ScheduledAck, b: ScheduledAck, c: ScheduledAck)
    ensures !Less(a, a)
    ensures Less(a, b) && Less(b, c) ==> Less(a, c)
    ensures !Less(a, b) && !Less(b, a) && !Less(b, c) && !Less(c, b) ==> !Less(a, c) && !Less(c, a)
    ensures a.priority > b.priority ==> Less(a, b)
    ensures a.priority == b.priority ==> (Less(a, b) <==> a.scheduledTime < b.scheduledTime)
  {
  }
}
