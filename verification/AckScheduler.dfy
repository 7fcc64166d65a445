/** Scheduling ACKs over several paths: a priority queue with a rate limit for each path. */
module AckScheduler {
  import opened Options

  type PathId = string

  datatype ScheduledAck = ScheduledAck(path: PathId, packetIDs: seq<nat>, priority: int, scheduledTime: int,
                                       createdTime: int, attempts: nat)

  const PRIORITY_LOW := 0
  const PRIORITY_NORMAL := 1
  const PRIORITY_HIGH := 2
  const PRIORITY_URGENT := 3

  /** Higher priority first, then the earlier scheduled time. */
  predicate Less(a: ScheduledAck, b: ScheduledAck)
  {
    if a.priority != b.priority then a.priority > b.priority else a.scheduledTime < b.scheduledTime
  }

  // ---------------------------------------------------------------------------
  // The queue as a value

  /** What the heap guarantees of its root: nothing in the queue precedes it. */
  predicate IsTop(queue: seq<ScheduledAck>, i: nat)
  {
    i < |queue| && forall k :: 0 <= k < |queue| ==> !Less(queue[k], queue[i])
  }

  predicate IsDue(a: ScheduledAck, now: int)
  {
    a.scheduledTime <= now
  }

  function CountDue(queue: seq<ScheduledAck>, now: int): nat
  {
    if queue == [] then 0
    else CountDue(queue[..|queue| - 1], now) + (if IsDue(queue[|queue| - 1], now) then 1 else 0)
  }

  function Without(queue: seq<ScheduledAck>, i: nat): seq<ScheduledAck>
    requires i < |queue|
  {
    queue[..i] + queue[i + 1..]
  }

  /** The ACKs of all paths but one. */
  function OfOtherPaths(queue: seq<ScheduledAck>, path: PathId): seq<ScheduledAck>
  {
    if queue == [] then []
    else
      var n := |queue| - 1;
      OfOtherPaths(queue[..n], path) + (if queue[n].path != path then [queue[n]] else [])
  }

  lemma {:induction false} OtherPathsStay(queue: seq<ScheduledAck>, path: PathId, known: set<PathId>)
    requires forall i :: 0 <= i < |queue| ==> queue[i].path in known
    ensures var rest := OfOtherPaths(queue, path);
      |rest| <= |queue| && forall i :: 0 <= i < |rest| ==> rest[i].path in known && rest[i].path != path
  {
    if queue != [] {
      OtherPathsStay(queue[..|queue| - 1], path, known);
    }
  }

  lemma {:induction false} CountDueConcat(a: seq<ScheduledAck>, b: seq<ScheduledAck>, now: int)
    ensures CountDue(a + b, now) == CountDue(a, now) + CountDue(b, now)
  {
    if b == [] {
      assert a + b == a;
    } else {
      assert (a + b)[..|a + b| - 1] == a + b[..|b| - 1];
      CountDueConcat(a, b[..|b| - 1], now);
    }
  }

  lemma CountDueWithout(queue: seq<ScheduledAck>, i: nat, now: int)
    requires i < |queue|
    ensures CountDue(queue, now) == CountDue(Without(queue, i), now) + (if IsDue(queue[i], now) then 1 else 0)
  {
    var front, single, back := queue[..i], [queue[i]], queue[i + 1..];
    assert queue == front + (single + back);
    CountDueConcat(front, single + back, now);
    CountDueConcat(single, back, now);
    CountDueConcat(front, back, now);
    assert single[..0] == [];
  }

  /** A blocked ACK as it is put back. */
  function Postponed(a: ScheduledAck, now: int, minAckDelay: int): ScheduledAck
  {
    a.(scheduledTime := now + minAckDelay, attempts := a.attempts + 1)
  }

  /** Putting a blocked ACK back makes progress exactly when its new time is in the future:
      with a minimum delay that is not positive the processing loop would spin for ever. */
  lemma RescheduleMakesProgressIff(queue: seq<ScheduledAck>, i: nat, now: int, minAckDelay: int)
    requires i < |queue| && IsDue(queue[i], now)
    ensures var later := Postponed(queue[i], now, minAckDelay);
            CountDue(Without(queue, i) + [later], now) < CountDue(queue, now) <==> minAckDelay > 0
  {
    var later := Postponed(queue[i], now, minAckDelay);
    CountDueWithout(queue, i, now);
    CountDueConcat(Without(queue, i), [later], now);
    assert [later][..0] == [];
  }

  lemma {:induction false} TopExists(queue: seq<ScheduledAck>) returns (i: nat)
    requires queue != []
    ensures IsTop(queue, i)
  {
    var n := |queue| - 1;
    if n == 0 {
      i := 0;
    } else {
      i := TopExists(queue[..n]);
      assert forall k :: 0 <= k < n ==> queue[k] == queue[..n][k];
      if Less(queue[n], queue[i]) {
        i := n;
      }
    }
  }

  // ---------------------------------------------------------------------------
  // The rate limit of one path, as a value

  /** lastAck is None until the first release; the program then sees an elapsed time that is
      longer than any interval. */
  datatype PathState = PathState(ackInterval: int, burstAllowance: int, currentBurst: int, lastAck: Option<int>,
                                 nextScheduled: int)

  predicate IntervalElapsed(s: PathState, now: int)
  {
    s.lastAck.None? || now - s.lastAck.value >= s.ackInterval
  }

  predicate CanSend(s: PathState, now: int)
  {
    s.currentBurst < s.burstAllowance || IntervalElapsed(s, now)
  }

  function AfterRelease(s: PathState, now: int): PathState
  {
    s.(currentBurst := if IntervalElapsed(s, now) then 1 else s.currentBurst + 1,
       lastAck := Some(now), nextScheduled := now + s.ackInterval)
  }

  /** The states of the paths after releases at one time, in order. */
  function PathsAfter(paths: map<PathId, PathState>, released: seq<ScheduledAck>, now: int): map<PathId, PathState>
  {
    if released == [] then paths
    else
      var n := |released| - 1;
      var before := PathsAfter(paths, released[..n], now);
      var p := released[n].path;
      if p in before then before[p := AfterRelease(before[p], now)] else before
  }

  ghost predicate NonDecreasing(times: seq<int>)
  {
    forall i, j :: 0 <= i < j < |times| ==> times[i] <= times[j]
  }

  /** Length of the longest run of releases at the end with gaps below the interval. */
  function Chain(times: seq<int>, interval: int): nat
  {
    if times == [] then 0
    else
      var n := |times| - 1;
      if n > 0 && times[n] - times[n - 1] < interval then Chain(times[..n], interval) + 1 else 1
  }

  ghost predicate ChainsBounded(times: seq<int>, interval: int, bound: int)
  {
    forall k :: 0 <= k <= |times| ==> Chain(times[..k], interval) <= bound
  }

  /** One counter and one timestamp stand for the whole history of releases. */
  ghost predicate RateInv(s: PathState, times: seq<int>)
  {
    && NonDecreasing(times)
    && s.lastAck == (if times == [] then None else Some(times[|times| - 1]))
    && s.currentBurst == Chain(times, s.ackInterval)
    && s.burstAllowance >= 1
    && ChainsBounded(times, s.ackInterval, s.burstAllowance)
  }

  lemma ReleaseKeepsRate(s: PathState, times: seq<int>, now: int)
    requires RateInv(s, times) && CanSend(s, now)
    requires times != [] ==> times[|times| - 1] <= now
    ensures RateInv(AfterRelease(s, now), times + [now])
  {
    var times' := times + [now];
    assert times'[..|times|] == times;
    forall k | 0 <= k <= |times'|
      ensures Chain(times'[..k], s.ackInterval) <= s.burstAllowance
    {
      if k <= |times| {
        assert times'[..k] == times[..k];
      } else {
        assert times'[..k] == times';
        assert times[..|times|] == times;
      }
    }
    assert times != [] ==> forall i :: 0 <= i < |times| ==> times[i] <= times[|times| - 1];
  }

  /** Releases i..j that fit into less than one interval form part of one chain. */
  lemma {:induction false} WindowIsInChain(times: seq<int>, interval: int, i: nat, j: nat)
    requires NonDecreasing(times) && i <= j < |times| && times[j] - times[i] < interval
    ensures Chain(times[..j + 1], interval) >= j - i + 1
    decreases j
  {
    var prefix := times[..j + 1];
    assert prefix[|prefix| - 1] == times[j] && prefix[..j] == times[..j];
    if i < j {
      assert times[i] <= times[j - 1] <= times[j];
      WindowIsInChain(times, interval, i, j - 1);
    }
  }

  /** The sliding-window rate limit: no window shorter than the interval holds more releases
      than the burst allowance. */
  lemma RateLimit(s: PathState, times: seq<int>, i: nat, j: nat)
    requires RateInv(s, times) && i <= j < |times|
    requires times[j] - times[i] < s.ackInterval
    ensures j - i + 1 <= s.burstAllowance
  {
    WindowIsInChain(times, s.ackInterval, i, j);
  }

  /** A release is permitted exactly when the history with it still keeps the limit. */
  lemma CanSendIff(s: PathState, times: seq<int>, now: int)
    requires RateInv(s, times) && (times != [] ==> times[|times| - 1] <= now)
    ensures CanSend(s, now) <==> ChainsBounded(times + [now], s.ackInterval, s.burstAllowance)
  {
    var times' := times + [now];
    assert times'[..|times'|] == times' && times'[..|times|] == times && times[..|times|] == times;
    if CanSend(s, now) {
      ReleaseKeepsRate(s, times, now);
    } else {
      assert Chain(times'[..|times'|], s.ackInterval) == s.currentBurst + 1;
    }
  }

  /** Every registered path keeps its limit; `releases` holds its release times. */
  ghost predicate AllRates(paths: map<PathId, PathState>, releases: map<PathId, seq<int>>, clock: int)
  {
    && releases.Keys == paths.Keys
    && (forall p :: p in paths ==> RateInv(paths[p], releases[p]))
    && (forall p :: p in paths && releases[p] != [] ==> releases[p][|releases[p]| - 1] <= clock)
  }

  lemma ReleaseKeepsAllRates(paths: map<PathId, PathState>, releases: map<PathId, seq<int>>, clock: int, p: PathId,
                             now: int)
    requires AllRates(paths, releases, clock) && p in paths && CanSend(paths[p], now) && clock <= now
    ensures AllRates(paths[p := AfterRelease(paths[p], now)], releases[p := releases[p] + [now]], now)
  {
    ReleaseKeepsRate(paths[p], releases[p], now);
    hide RateInv, AfterRelease;
  }

  lemma ForgetKeepsAllRates(paths: map<PathId, PathState>, releases: map<PathId, seq<int>>, clock: int, p: PathId)
    requires AllRates(paths, releases, clock)
    ensures AllRates(paths - {p}, releases - {p}, clock)
  {
    hide RateInv;
  }

  // ---------------------------------------------------------------------------
  // Parameters of a path

  datatype Config = Config(minAckDelay: int, maxAckDelay: int, maxConcurrentAcks: int)

  datatype Characteristics = Characteristics(rtt: int, packetLossRate: real, bandwidth: nat, isLowBandwidth: bool,
                                             isUnreliable: bool, isHighLatency: bool)

  /** Conversion to an integer drops the fraction. */
  function Truncate(x: real): int
  {
    if x >= 0.0 then x.Floor else -(-x).Floor
  }

  /** A quarter of the round-trip time, or the minimum delay if that is longer. */
  function BaseInterval(rtt: int, minAckDelay: int): int
  {
    if rtt > 0 && rtt / 4 > minAckDelay then rtt / 4 else minAckDelay
  }

  function Lossy(base: int, rate: real): int
  {
    if rate > 0.01 then Truncate(base as real * (1.0 - rate)) else base
  }

  /** The interval before it is moved into its bounds. */
  function Unbounded(c: Characteristics, config: Config): int
  {
    var lossy := Lossy(BaseInterval(c.rtt, config.minAckDelay), c.packetLossRate);
    if c.isLowBandwidth then Truncate(lossy as real * 1.5) else lossy
  }

  function AckInterval(c: Characteristics, config: Config): (r: int)
    ensures config.minAckDelay <= config.maxAckDelay ==> config.minAckDelay <= r <= config.maxAckDelay
    ensures r <= config.maxAckDelay
  {
    var slow := Unbounded(c, config);
    var low := if slow < config.minAckDelay then config.minAckDelay else slow;
    if low > config.maxAckDelay then config.maxAckDelay else low
  }

  function BurstAllowance(c: Characteristics): (r: int)
    ensures 1 <= r <= 5
  {
    var wide := if !c.isLowBandwidth && c.bandwidth > 1000000 then 5 else 3;
    var safe := if c.isUnreliable then 2 else wide;
    if c.isHighLatency then (if safe - 1 > 1 then safe - 1 else 1) else safe
  }

  function ScheduledTime(s: PathState, priority: int, now: int, config: Config): int
  {
    if priority == PRIORITY_URGENT then now
    else if priority == PRIORITY_HIGH then now + Truncate(config.minAckDelay as real / 2.0)
    else if priority == PRIORITY_LOW then now + 2 * s.ackInterval
    else now + s.ackInterval
  }

  // ---------------------------------------------------------------------------
  // The scheduler

  class Scheduler {
    const config: Config
    var queue: seq<ScheduledAck>
    var paths: map<PathId, PathState>
    var totalScheduled: nat
    var totalProcessed: nat

    /** History: ACKs removed with their paths, the release times of each path since it was
        registered, and the latest time seen. */
    ghost var purged: nat
    ghost var releases: map<PathId, seq<int>>
    ghost var clock: int

    ghost predicate QueueIsRegistered()
      reads `queue, `paths
    {
      forall i :: 0 <= i < |queue| ==> queue[i].path in paths
    }

    ghost predicate RatesKept()
      reads `paths, `releases, `clock
    {
      AllRates(paths, releases, clock)
    }

    /** Every ACK ever scheduled was released, is queued, or left with its path. */
    ghost predicate Balanced()
      reads `queue, `totalScheduled, `totalProcessed, `purged
    {
      totalScheduled == totalProcessed + |queue| + purged
    }

    ghost predicate Valid()
      reads this
    {
      QueueIsRegistered() && RatesKept() && Balanced()
    }

    constructor (config: Config)
      ensures Valid() && this.config == config
      ensures queue == [] && paths == map[] && purged == 0
    {
      this.config := config;
      queue, paths, totalScheduled, totalProcessed := [], map[], 0, 0;
      purged, releases, clock := 0, map[], 0;
    }

    method RegisterPath(path: PathId, characteristics: Characteristics, now: int) returns (ok: bool)
      requires Valid()
      modifies `paths, `releases
      ensures Valid()
      ensures ok <==> path !in old(paths)
      ensures !ok ==> paths == old(paths) && releases == old(releases)
      ensures ok ==> paths == old(paths)[path :=
                PathState(AckInterval(characteristics, config), BurstAllowance(characteristics), 0, None, now)]
      ensures ok ==> releases == old(releases)[path := []]
    {
      if path in paths {
        return false;
      }
      var state := PathState(AckInterval(characteristics, config), BurstAllowance(characteristics), 0, None, now);
      paths := paths[path := state];
      releases := releases[path := []];
      return true;
    }

    method UnregisterPath(path: PathId)
      requires Valid()
      modifies `paths, `queue, `releases, `purged
      ensures Valid()
      ensures paths == old(paths) - {path} && releases == old(releases) - {path}
      ensures queue == OfOtherPaths(old(queue), path)
      ensures |queue| + purged == |old(queue)| + old(purged)
    {
      ForgetKeepsAllRates(paths, releases, clock, path);
      OtherPathsStay(queue, path, paths.Keys);
      hide AllRates, OfOtherPaths;
      paths := paths - {path};
      releases := releases - {path};
      PurgeQueue(path);
    }

    method PurgeQueue(path: PathId)
      requires |OfOtherPaths(queue, path)| <= |queue|
      modifies `queue, `purged
      ensures queue == OfOtherPaths(old(queue), path)
      ensures |queue| + purged == |old(queue)| + old(purged)
    {
      ghost var before := |queue|;
      queue := FilterQueue(queue, path);
      purged := purged + before - |queue|;
    }

    method FilterQueue(acks: seq<ScheduledAck>, path: PathId) returns (newQueue: seq<ScheduledAck>)
      ensures newQueue == OfOtherPaths(acks, path)
    {
      newQueue := [];
      for i := 0 to |acks|
        invariant newQueue == OfOtherPaths(acks[..i], path)
      {
        assert acks[..i + 1][..i] == acks[..i];
        if acks[i].path != path {
          newQueue := newQueue + [acks[i]];
        }
      }
      assert acks[..|acks|] == acks;
    }

    method ScheduleAck(path: PathId, packetIDs: seq<nat>, priority: int, now: int) returns (ok: bool)
      requires Valid()
      modifies `queue, `totalScheduled
      ensures Valid()
      ensures ok <==> path in paths
      ensures !ok ==> queue == old(queue) && totalScheduled == old(totalScheduled)
      ensures ok ==> totalScheduled == old(totalScheduled) + 1
      ensures ok ==> var time := ScheduledTime(paths[path], priority, now, config);
                queue == old(queue) + [ScheduledAck(path, packetIDs, priority, time, now, 0)]
    {
      if path !in paths {
        return false;
      }
      var ack := ScheduledAck(path, packetIDs, priority, ScheduledTime(paths[path], priority, now, config), now, 0);
      queue := queue + [ack];
      totalScheduled := totalScheduled + 1;
      return true;
    }

    method CanSendAck(path: PathId, now: int) returns (r: bool)
      ensures r <==> path in paths && CanSend(paths[path], now)
      ensures RatesKept() && clock <= now && path in paths ==>
                (r <==> ChainsBounded(releases[path] + [now], paths[path].ackInterval, paths[path].burstAllowance))
    {
      if RatesKept() && clock <= now && path in paths {
        CanSendIff(paths[path], releases[path], now);
      }
      if path !in paths {
        return false;
      }
      var s := paths[path];
      if s.currentBurst >= s.burstAllowance {
        if s.lastAck.None? || now - s.lastAck.value >= s.ackInterval {
          return true;
        }
        return false;
      }
      return true;
    }

    method UpdatePathSchedulingState(path: PathId, now: int)
      requires RatesKept() && path in paths && CanSend(paths[path], now) && clock <= now
      modifies `paths, `releases, `clock
      ensures RatesKept() && clock == now
      ensures paths == old(paths)[path := AfterRelease(old(paths)[path], now)]
      ensures releases == old(releases)[path := old(releases)[path] + [now]]
    {
      assert path in releases;
      hide AllRates, AfterRelease, CanSend;
      ReleaseKeepsAllRates(paths, releases, clock, path, now);
      var updated := CountRelease(paths[path], now);
      releases := releases[path := releases[path] + [now]];
      clock := now;
      paths := paths[path := updated];
    }

    method CountRelease(s: PathState, now: int) returns (r: PathState)
      ensures r == AfterRelease(s, now)
    {
      r := s;
      if s.lastAck.None? || now - s.lastAck.value >= s.ackInterval {
        r := r.(currentBurst := 1);
      } else {
        r := r.(currentBurst := r.currentBurst + 1);
      }
      r := r.(lastAck := Some(now), nextScheduled := now + s.ackInterval);
    }

    /** Takes out some ACK that no other precedes. */
    method Pop() returns (ack: ScheduledAck, ghost i: nat)
      requires queue != []
      modifies `queue
      ensures IsTop(old(queue), i) && i < |old(queue)|
      ensures ack == old(queue)[i] && queue == Without(old(queue), i)
    {
      var top := TopIndex();
      i := top;
      ack := queue[top];
      queue := queue[..top] + queue[top + 1..];
    }

    method TopIndex() returns (i: nat)
      requires queue != []
      ensures IsTop(queue, i)
    {
      ghost var top := TopExists(queue);
      i :| 0 <= i < |queue| && IsTop(queue, i);
    }

    /** One turn of the processing loop: a top ACK is taken out and either released, or put back
        for later when its path may not send. */
    method ProcessTop(now: int) returns (released: bool, ack: ScheduledAck, ghost i: nat)
      requires QueueIsRegistered() && RatesKept() && clock <= now && queue != []
      modifies `queue, `paths, `releases, `clock
      ensures IsTop(old(queue), i) && i < |old(queue)| && ack == old(queue)[i]
      ensures released <==> CanSend(old(paths)[ack.path], now)
      ensures queue == AfterTurn(old(queue), i, released, now, config.minAckDelay)
      ensures RatesKept() && clock <= now
      ensures paths == if released then old(paths)[ack.path := AfterRelease(old(paths)[ack.path], now)] else old(paths)
      ensures releases == if released then old(releases)[ack.path := old(releases)[ack.path] + [now]] else old(releases)
    {
      hide AllRates, AfterRelease, CanSend, IsTop;
      ghost var before := queue;
      ack, i := Pop();
      released := CanSendAck(ack.path, now);
      if released {
        UpdatePathSchedulingState(ack.path, now);
      } else {
        queue := queue + [Postponed(ack, now, config.minAckDelay)];
      }
    }

    /** Releases at most the configured number of ACKs, each of them due and in `Less` order, and
        always comes to an end. A due ACK stays behind only when the limit was reached or when
        an ACK that precedes it is not due yet; one is postponed only when its path may not send. No
        ACK is lost, doubled or changed otherwise. */
    method ProcessScheduledAcks(now: int) returns (ready: seq<ScheduledAck>)
      requires Valid() && clock <= now && config.minAckDelay > 0
      modifies `queue, `paths, `releases, `clock, `totalProcessed
      ensures Valid() && clock <= now
      ensures |ready| <= (if config.maxConcurrentAcks >= 1 then config.maxConcurrentAcks else 1)
      ensures ReadyInOrder(ready, queue, old(queue), now)
      ensures forall x :: Copies(ready, x) + Copies(queue, x) == Copies(old(queue), x)
      ensures PostponedOnlyBlocked(queue, old(queue), paths, now, config.minAckDelay)
      ensures paths == PathsAfter(old(paths), ready, now)
      ensures totalProcessed == old(totalProcessed) + |ready|
      ensures paths.Keys == old(paths).Keys
      ensures |ready| < config.maxConcurrentAcks ==> NothingMoreDue(queue, now)
    {
      hide AllRates, IsTop, CountDue, Copies, PathsAfter, PostponedOnlyBlocked, ReadyInOrder, NothingMoreDue;
      ready := RunTurns(now);
      totalProcessed := totalProcessed + |ready|;
    }

    method RunTurns(now: int) returns (ready: seq<ScheduledAck>)
      requires QueueIsRegistered() && RatesKept() && clock <= now && config.minAckDelay > 0
      modifies `queue, `paths, `releases, `clock
      ensures QueueIsRegistered() && RatesKept() && clock <= now
      ensures paths.Keys == old(paths).Keys
      ensures Progress(ready, queue, old(queue), now)
      ensures forall x :: Copies(ready, x) + Copies(queue, x) == Copies(old(queue), x)
      ensures PostponedOnlyBlocked(queue, old(queue), paths, now, config.minAckDelay)
      ensures paths == PathsAfter(old(paths), ready, now)
      ensures |ready| <= (if config.maxConcurrentAcks >= 1 then config.maxConcurrentAcks else 1)
      ensures |ready| < config.maxConcurrentAcks ==> NothingMoreDue(queue, now)
    {
      hide AllRates, AfterRelease, CanSend, IsTop, Progress, AfterTurn, CountDue, Copies, PathsAfter,
           PostponedOnlyBlocked;
      ready := [];
      NothingReleasedYet(queue, paths, now, config.minAckDelay);
      NoProgressYet(queue, now);
      while |queue| > 0
        invariant QueueIsRegistered() && RatesKept() && clock <= now
        invariant paths.Keys == old(paths).Keys
        invariant |ready| <= (if config.maxConcurrentAcks >= 1 then config.maxConcurrentAcks - 1 else 0)
        invariant Progress(ready, queue, old(queue), now)
        invariant forall x :: Copies(ready, x) + Copies(queue, x) == Copies(old(queue), x)
        invariant PostponedOnlyBlocked(queue, old(queue), paths, now, config.minAckDelay)
        invariant paths == PathsAfter(old(paths), ready, now)
        decreases CountDue(queue, now)
      {
        var top := TopIndex();
        if queue[top].scheduledTime > now {
          break;
        }
        ghost var before, states, registered := queue, paths, paths.Keys;
        var released, ack, i := ProcessTop(now);
        TopsAreDue(before, i, top, now);
        TurnKeepsCopies(ready, before, i, released, now, config.minAckDelay);
        DueWasThere(ready, before, old(queue), i, now);
        TurnPostponesOnlyBlocked(before, old(queue), i, released, states, now, config.minAckDelay);
        ReleaseExtends(old(paths), ready, ack, now);
        TurnProgress(ready, before, old(queue), i, released, now, config.minAckDelay);
        TurnKeepsRegistered(before, i, released, now, config.minAckDelay, registered);
        if released {
          ready := ready + [ack];
        }
        if |ready| >= config.maxConcurrentAcks {
          break;
        }
      }
    }
  }

  ghost predicate NothingMoreDue(queue: seq<ScheduledAck>, now: int)
  {
    queue == [] || exists i: nat :: IsTop(queue, i) && !IsDue(queue[i], now)
  }

  /** The queue after one turn on the ACK at position i. */
  function AfterTurn(queue: seq<ScheduledAck>, i: nat, released: bool, now: int, minAckDelay: int): seq<ScheduledAck>
    requires i < |queue|
  {
    if released then Without(queue, i)
    else Without(queue, i) + [Postponed(queue[i], now, minAckDelay)]
  }

  datatype Identity = Identity(path: PathId, packetIDs: seq<nat>, priority: int, createdTime: int)

  /** What postponing an ACK does not change. */
  function IdentityOf(a: ScheduledAck): Identity
  {
    Identity(a.path, a.packetIDs, a.priority, a.createdTime)
  }

  /** How often the ACK occurs. */
  function Copies(acks: seq<ScheduledAck>, x: Identity): nat
  {
    if acks == [] then 0
    else
      var n := |acks| - 1;
      Copies(acks[..n], x) + One(acks[n], x)
  }

  function One(a: ScheduledAck, x: Identity): nat
  {
    if IdentityOf(a) == x then 1 else 0
  }

  lemma {:induction false} CopiesConcat(a: seq<ScheduledAck>, b: seq<ScheduledAck>, x: Identity)
    ensures Copies(a + b, x) == Copies(a, x) + Copies(b, x)
  {
    if b == [] {
      assert a + b == a;
    } else {
      assert (a + b)[..|a + b| - 1] == a + b[..|b| - 1];
      CopiesConcat(a, b[..|b| - 1], x);
    }
  }

  lemma CopiesExtend(acks: seq<ScheduledAck>, a: ScheduledAck, x: Identity)
    ensures Copies(acks + [a], x) == Copies(acks, x) + One(a, x)
  {
    assert (acks + [a])[..|acks|] == acks;
  }

  lemma CopiesWithout(acks: seq<ScheduledAck>, i: nat, x: Identity)
    requires i < |acks|
    ensures Copies(acks, x) == Copies(Without(acks, i), x) + One(acks[i], x)
  {
    assert acks == acks[..i] + [acks[i]] + acks[i + 1..];
    CopiesConcat(acks[..i] + [acks[i]], acks[i + 1..], x);
    CopiesExtend(acks[..i], acks[i], x);
    CopiesConcat(acks[..i], acks[i + 1..], x);
  }

  /** A turn moves the ACK to those released or leaves it in the queue. */
  lemma TurnKeepsCopies(ready: seq<ScheduledAck>, queue: seq<ScheduledAck>, i: nat, released: bool, now: int,
                        minAckDelay: int)
    requires i < |queue|
    ensures var ready', queue' :=
              if released then ready + [queue[i]] else ready, AfterTurn(queue, i, released, now, minAckDelay);
            forall x :: Copies(ready', x) + Copies(queue', x) == Copies(ready, x) + Copies(queue, x)
  {
    forall x
      ensures Copies(if released then ready + [queue[i]] else ready, x)
            + Copies(AfterTurn(queue, i, released, now, minAckDelay), x) == Copies(ready, x) + Copies(queue, x)
    {
      CopiesWithout(queue, i, x);
      CopiesExtend(ready, queue[i], x);
      CopiesExtend(Without(queue, i), Postponed(queue[i], now, minAckDelay), x);
    }
  }

  /** An ACK of the queue is as it was before the call, or it was postponed because its path may not
      send. */
  ghost predicate PostponedOnlyBlocked(queue: seq<ScheduledAck>, initial: seq<ScheduledAck>,
                                       paths: map<PathId, PathState>, now: int, minAckDelay: int)
  {
    forall a :: a in queue && a !in initial ==>
      && IsPostponed(a, initial, now, minAckDelay)
      && a.path in paths && !CanSend(paths[a.path], now)
  }

  ghost predicate IsPostponed(a: ScheduledAck, initial: seq<ScheduledAck>, now: int, minAckDelay: int)
  {
    exists b :: b in initial && IsDue(b, now) && IdentityOf(b) == IdentityOf(a)
      && a.scheduledTime == now + minAckDelay && a.attempts == b.attempts + 1
  }

  lemma NothingReleasedYet(queue: seq<ScheduledAck>, paths: map<PathId, PathState>, now: int, minAckDelay: int)
    ensures forall x :: Copies([], x) + Copies(queue, x) == Copies(queue, x)
    ensures PostponedOnlyBlocked(queue, queue, paths, now, minAckDelay)
    ensures paths == PathsAfter(paths, [], now)
  {
  }

  lemma TurnPostponesOnlyBlocked(before: seq<ScheduledAck>, initial: seq<ScheduledAck>, i: nat, released: bool,
                                 paths: map<PathId, PathState>, now: int, minAckDelay: int)
    requires i < |before| && IsDue(before[i], now) && before[i] in initial && before[i].path in paths
    requires PostponedOnlyBlocked(before, initial, paths, now, minAckDelay)
    requires released <==> CanSend(paths[before[i].path], now)
    ensures var p := before[i].path;
      PostponedOnlyBlocked(AfterTurn(before, i, released, now, minAckDelay), initial,
                           if released then paths[p := AfterRelease(paths[p], now)] else paths, now, minAckDelay)
  {
    assert forall a :: a in Without(before, i) ==> a in before;
    if !released {
      assert IsPostponed(Postponed(before[i], now, minAckDelay), initial, now, minAckDelay);
    }
    hide CanSend, AfterRelease, Postponed, IsPostponed, IsDue;
  }

  lemma ReleaseExtends(paths: map<PathId, PathState>, ready: seq<ScheduledAck>, ack: ScheduledAck, now: int)
    ensures var before := PathsAfter(paths, ready, now);
      PathsAfter(paths, ready + [ack], now) ==
        if ack.path in before then before[ack.path := AfterRelease(before[ack.path], now)] else before
  {
    assert (ready + [ack])[..|ready|] == ready;
  }

  /** All top ACKs of a queue are due if one of them is. */
  lemma TopsAreDue(queue: seq<ScheduledAck>, i: nat, k: nat, now: int)
    requires IsTop(queue, i) && IsTop(queue, k) && IsDue(queue[k], now)
    ensures IsDue(queue[i], now)
  {
    assert !Less(queue[k], queue[i]) && !Less(queue[i], queue[k]);
  }

  /** The ACKs released so far were due, come in order, and precede everything still due. */
  ghost predicate ReadyInOrder(ready: seq<ScheduledAck>, queue: seq<ScheduledAck>, initial: seq<ScheduledAck>, now: int)
  {
    && (forall k :: 0 <= k < |ready| ==> ready[k] in initial && IsDue(ready[k], now))
    && (forall j, k :: 0 <= j < k < |ready| ==> !Less(ready[k], ready[j]))
    && (forall k, a :: 0 <= k < |ready| && a in queue && IsDue(a, now) ==> !Less(a, ready[k]))
  }

  ghost predicate Progress(ready: seq<ScheduledAck>, queue: seq<ScheduledAck>, initial: seq<ScheduledAck>, now: int)
  {
    && ReadyInOrder(ready, queue, initial, now)
    && |queue| + |ready| == |initial|
    && (forall a :: a in queue && IsDue(a, now) ==> a in initial)
  }

  lemma DueWasThere(ready: seq<ScheduledAck>, queue: seq<ScheduledAck>, initial: seq<ScheduledAck>, i: nat, now: int)
    requires Progress(ready, queue, initial, now) && i < |queue| && IsDue(queue[i], now)
    ensures queue[i] in initial
  {
    assert queue[i] in queue;
  }

  lemma NoProgressYet(queue: seq<ScheduledAck>, now: int)
    ensures Progress([], queue, queue, now)
  {
  }

  /** One turn keeps the order of what was released and leaves one due ACK less. */
  lemma TurnProgress(ready: seq<ScheduledAck>, before: seq<ScheduledAck>, initial: seq<ScheduledAck>, i: nat,
                     released: bool, now: int, minAckDelay: int)
    requires Progress(ready, before, initial, now) && minAckDelay > 0
    requires IsTop(before, i) && IsDue(before[i], now)
    ensures var after := AfterTurn(before, i, released, now, minAckDelay);
            && Progress(if released then ready + [before[i]] else ready, after, initial, now)
            && CountDue(after, now) < CountDue(before, now)
  {
    var after := AfterTurn(before, i, released, now, minAckDelay);
    CountDueWithout(before, i, now);
    RescheduleMakesProgressIff(before, i, now, minAckDelay);
    hide CountDue, ReadyInOrder;
    StillDueWasThere(before, i, released, now, minAckDelay);
    assert before[i] in before;
    TurnKeepsOrder(ready, before, after, initial, i, now);
  }

  lemma StillDueWasThere(before: seq<ScheduledAck>, i: nat, released: bool, now: int, minAckDelay: int)
    requires i < |before| && minAckDelay > 0
    ensures forall a :: a in AfterTurn(before, i, released, now, minAckDelay) && IsDue(a, now) ==> a in before
  {
    assert forall a :: a in Without(before, i) ==> a in before;
  }

  lemma TurnKeepsOrder(ready: seq<ScheduledAck>, before: seq<ScheduledAck>, after: seq<ScheduledAck>,
                       initial: seq<ScheduledAck>, i: nat, now: int)
    requires ReadyInOrder(ready, before, initial, now)
    requires IsTop(before, i) && IsDue(before[i], now) && before[i] in initial
    requires forall a :: a in after && IsDue(a, now) ==> a in before
    ensures ReadyInOrder(ready, after, initial, now)
    ensures ReadyInOrder(ready + [before[i]], after, initial, now)
  {
    hide Less, IsDue;
    assert before[i] in before;
    forall a | a in before
      ensures !Less(a, before[i])
    {
      var k :| 0 <= k < |before| && before[k] == a;
    }
  }

  lemma TurnKeepsRegistered(queue: seq<ScheduledAck>, i: nat, released: bool, now: int, minAckDelay: int,
                            registered: set<PathId>)
    requires i < |queue| && forall k :: 0 <= k < |queue| ==> queue[k].path in registered
    ensures var after := AfterTurn(queue, i, released, now, minAckDelay);
            forall k :: 0 <= k < |after| ==> after[k].path in registered
  {
  }
}
