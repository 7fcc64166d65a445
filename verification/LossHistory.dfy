/** What the history of a path says about a packet: over every run of sends, ACKs, duplicate ACKs,
    detections and new time thresholds, whether a packet counts as lost depends on when it was sent, how
    many duplicate ACKs named it, and the largest packet acknowledged, and on nothing else. */
module LossHistory {
  import opened LossDetector

  datatype State = State(tracking: Tracking, thresholds: Thresholds)

  datatype Event =
    | Send(packet: nat, time: int)
    | Acked(packet: nat)
    | Duplicate(packet: nat)
    | Detect(time: int)
    | Retime(rtt: nat)

  function Step(s: State, e: Event): State
  {
    match e
    case Send(p, time) => s.(tracking := AfterSend(s.tracking, p, time))
    case Acked(p) => s.(tracking := AfterAck(s.tracking, p))
    case Duplicate(p) => s.(tracking := AfterDuplicate(s.tracking, p))
    case Detect(time) => s.(tracking := AfterDetection(s.tracking, s.thresholds, time))
    case Retime(rtt) => s.(thresholds := s.thresholds.(timeout := TimeoutFor(rtt)))
  }

  function Run(s: State, es: seq<Event>): State
    decreases |es|
  {
    if es == [] then s else Run(Step(s, es[0]), es[1..])
  }

  predicate IsTracked(s: State, p: nat)
  {
    p in s.tracking.unacked
  }

  predicate Lost(s: State, p: nat, now: int)
  {
    IsLost(s.tracking, p, s.thresholds, now)
  }

  /** The packet is neither sent again nor acknowledged. */
  predicate LeavesAlone(es: seq<Event>, p: nat)
  {
    forall i :: 0 <= i < |es| ==> !(es[i].Send? && es[i].packet == p) && es[i] != Acked(p)
  }

  // ---------------------------------------------------------------------------
  // The history

  function Duplicates(t: Tracking, p: nat): nat
  {
    if p in t.duplicates then t.duplicates[p] else 0
  }

  function DuplicatesIn(es: seq<Event>, p: nat): nat
    decreases |es|
  {
    if es == [] then 0 else (if es[0] == Duplicate(p) then 1 else 0) + DuplicatesIn(es[1..], p)
  }

  function LargestAcked(start: nat, es: seq<Event>): nat
    decreases |es|
  {
    if es == [] then start
    else LargestAcked(if es[0].Acked? && es[0].packet > start then es[0].packet else start, es[1..])
  }

  lemma {:induction false} RunKnowsHistory(s: State, es: seq<Event>, p: nat)
    requires IsTracked(s, p) && LeavesAlone(es, p) && IsTracked(Run(s, es), p)
    ensures var t := Run(s, es).tracking;
      && t.unacked[p] == s.tracking.unacked[p]
      && Duplicates(t, p) == Duplicates(s.tracking, p) + DuplicatesIn(es, p)
      && t.lastAcked == LargestAcked(s.tracking.lastAcked, es)
    decreases |es|
  {
    if es != [] {
      var s' := Step(s, es[0]);
      assert forall i :: 0 <= i < |es[1..]| ==> es[1..][i] == es[i + 1];
      if !IsTracked(s', p) {
        StaysUntracked(s', es[1..], p);
        assert false;
      }
      RunKnowsHistory(s', es[1..], p);
    }
  }

  lemma {:induction false} StaysUntracked(s: State, es: seq<Event>, p: nat)
    requires !IsTracked(s, p) && LeavesAlone(es, p)
    ensures !IsTracked(Run(s, es), p)
    decreases |es|
  {
    if es != [] {
      assert forall i :: 0 <= i < |es[1..]| ==> es[1..][i] == es[i + 1];
      StaysUntracked(Step(s, es[0]), es[1..], p);
    }
  }

  lemma {:induction false} RunConcat(s: State, a: seq<Event>, b: seq<Event>)
    ensures Run(s, a + b) == Run(Run(s, a), b)
    decreases |a|
  {
    if a == [] {
      assert a + b == b;
    } else {
      assert (a + b)[1..] == a[1..] + b;
      RunConcat(Step(s, a[0]), a[1..], b);
    }
  }

  lemma RunOfOne(s: State, e: Event)
    ensures Run(s, [e]) == Step(s, e)
  {
    assert [e][1..] == [];
  }

  function Start(thresholds: Thresholds): State
  {
    State(Tracking(map[], map[], 0), thresholds)
  }

  /** Every duplicate count kept is positive, and only the timeout of the thresholds changes. */
  ghost predicate Sound(s: State, k: Thresholds)
  {
    && s.thresholds == k.(timeout := s.thresholds.timeout)
    && forall p :: p in s.tracking.duplicates ==> s.tracking.duplicates[p] > 0
  }

  lemma {:induction false} RunIsSound(s: State, es: seq<Event>, k: Thresholds)
    requires Sound(s, k)
    ensures Sound(Run(s, es), k)
    decreases |es|
  {
    if es != [] {
      RunIsSound(Step(s, es[0]), es[1..], k);
    }
  }

  /** Over every run from a new path: a packet still tracked counts as lost exactly when it was sent
      longer ago than the timeout, or enough duplicate ACKs named it, counting those from before it was
      sent that nothing cleared, or a packet was acknowledged that lies further above it than the
      reordering threshold. */
  lemma HistoryDecides(k: Thresholds, before: seq<Event>, p: nat, sent: int, after: seq<Event>, now: int)
    requires LeavesAlone(after, p)
    requires IsTracked(Run(Start(k), before + [Send(p, sent)] + after), p)
    ensures var s := Run(Start(k), before + [Send(p, sent)] + after);
      var duplicates := Duplicates(Run(Start(k), before).tracking, p) + DuplicatesIn(after, p);
      Lost(s, p, now) <==>
        || now - sent > s.thresholds.timeout
        || (duplicates > 0 && duplicates >= k.fastRetransmit)
        || LargestAcked(0, before + [Send(p, sent)] + after) > p + k.reordering
  {
    var earlier := Run(Start(k), before);
    var s := Run(Start(k), before + [Send(p, sent)] + after);
    RunConcat(Start(k), before + [Send(p, sent)], after);
    RunConcat(Start(k), before, [Send(p, sent)]);
    RunOfOne(earlier, Send(p, sent));
    RunIsSound(Start(k), before + [Send(p, sent)] + after, k);
    RunAcks(Start(k), before + [Send(p, sent)] + after);
    RunKnowsHistory(Step(earlier, Send(p, sent)), after, p);
    hide Run, Step, LargestAcked, DuplicatesIn;
  }

  lemma {:induction false} RunAcks(s: State, es: seq<Event>)
    ensures Run(s, es).tracking.lastAcked == LargestAcked(s.tracking.lastAcked, es)
    decreases |es|
  {
    if es != [] {
      RunAcks(Step(s, es[0]), es[1..]);
    }
  }

  // ---------------------------------------------------------------------------
  // From lost to reported

  lemma {:induction false} LargestIsAtLeast(start: nat, es: seq<Event>)
    ensures LargestAcked(start, es) >= start
    decreases |es|
  {
    if es != [] {
      LargestIsAtLeast(if es[0].Acked? && es[0].packet > start then es[0].packet else start, es[1..]);
    }
  }

  /** A packet that counts as lost and is still tracked counts as lost from then on, unless the timeout
      grew by more than the time that passed. */
  lemma LostStaysLost(s: State, es: seq<Event>, p: nat, now: int, later: int)
    requires IsTracked(s, p) && LeavesAlone(es, p) && IsTracked(Run(s, es), p) && Lost(s, p, now)
    requires Run(s, es).thresholds.timeout - s.thresholds.timeout <= later - now
    requires Sound(s, s.thresholds)
    ensures Lost(Run(s, es), p, later)
  {
    RunKnowsHistory(s, es, p);
    LargestIsAtLeast(s.tracking.lastAcked, es);
    RunIsSound(s, es, s.thresholds);
    hide Run, Step, LargestAcked, DuplicatesIn;
  }

  /** No detection of the run finds the packet lost. */
  predicate NeverFound(s: State, es: seq<Event>, p: nat)
    decreases |es|
  {
    es == [] || (!(es[0].Detect? && Lost(s, p, es[0].time)) && NeverFound(Step(s, es[0]), es[1..], p))
  }

  /** A packet stays tracked exactly until a detection finds it lost. */
  lemma {:induction false} TrackedIff(s: State, es: seq<Event>, p: nat)
    requires IsTracked(s, p) && LeavesAlone(es, p)
    ensures IsTracked(Run(s, es), p) <==> NeverFound(s, es, p)
    decreases |es|
  {
    if es != [] {
      var s' := Step(s, es[0]);
      assert forall i :: 0 <= i < |es[1..]| ==> es[1..][i] == es[i + 1];
      if IsTracked(s', p) {
        TrackedIff(s', es[1..], p);
      } else {
        StaysUntracked(s', es[1..], p);
      }
    }
  }

  predicate KeepsTimeout(es: seq<Event>)
  {
    forall i :: 0 <= i < |es| ==> !es[i].Retime?
  }

  lemma {:induction false} TimeoutIsKept(s: State, es: seq<Event>)
    requires KeepsTimeout(es)
    ensures Run(s, es).thresholds == s.thresholds
    decreases |es|
  {
    if es != [] {
      assert forall i :: 0 <= i < |es[1..]| ==> es[1..][i] == es[i + 1];
      TimeoutIsKept(Step(s, es[0]), es[1..]);
    }
  }

  /** Once a packet counts as lost, the next detection reports it, whatever came between. */
  lemma LostIsReported(s: State, es: seq<Event>, p: nat, now: int, later: int)
    requires IsTracked(s, p) && Lost(s, p, now) && now <= later && LeavesAlone(es, p) && KeepsTimeout(es)
    requires Sound(s, s.thresholds)
    ensures !IsTracked(Run(s, es + [Detect(later)]), p)
  {
    RunConcat(s, es, [Detect(later)]);
    var s' := Run(s, es);
    RunOfOne(s', Detect(later));
    TimeoutIsKept(s, es);
    if IsTracked(s', p) {
      LostStaysLost(s, es, p, now, later);
    }
  }

  // ---------------------------------------------------------------------------
  // Packets just sent

  /** A packet just sent counts as lost exactly when its number is named by enough duplicate ACKs left
      over from before, or lies too far below the largest one acknowledged. */
  lemma JustSentLostIff(s: State, p: nat, now: int)
    requires s.thresholds.timeout >= 0
    ensures Lost(Step(s, Send(p, now)), p, now)
       <==> HasDuplicates(s.tracking, p, s.thresholds) || s.tracking.lastAcked > p + s.thresholds.reordering
  {
  }

  /** The run does not name the packet and acknowledges nothing too far above it. */
  predicate IsFresh(es: seq<Event>, p: nat, reordering: nat)
  {
    forall i :: 0 <= i < |es| ==>
      && (es[i].Send? || es[i].Acked? || es[i].Duplicate? ==> es[i].packet != p)
      && (es[i].Acked? ==> es[i].packet <= p + reordering)
  }

  lemma {:induction false} FreshHasNoCount(s: State, es: seq<Event>, p: nat, reordering: nat)
    requires IsFresh(es, p, reordering) && p !in s.tracking.duplicates && s.tracking.lastAcked <= p + reordering
    ensures p !in Run(s, es).tracking.duplicates && Run(s, es).tracking.lastAcked <= p + reordering
    decreases |es|
  {
    if es != [] {
      assert forall i :: 0 <= i < |es[1..]| ==> es[1..][i] == es[i + 1];
      FreshHasNoCount(Step(s, es[0]), es[1..], p, reordering);
    }
  }

  /** A packet with a number not used before counts as lost when the timeout has passed, and not
      earlier. */
  lemma FreshIsLostIffLate(k: Thresholds, es: seq<Event>, p: nat, sent: int, now: int)
    requires IsFresh(es, p, k.reordering)
    ensures var s := Step(Run(Start(k), es), Send(p, sent)); Lost(s, p, now) <==> now - sent > s.thresholds.timeout
  {
    FreshHasNoCount(Start(k), es, p, k.reordering);
    RunIsSound(Start(k), es, k);
  }

  /** An ACK forgets the packet and its duplicate ACKs, until it is named again. */
  lemma AckForgets(s: State, p: nat, es: seq<Event>)
    requires forall i :: 0 <= i < |es| ==> es[i] != Duplicate(p) && !(es[i].Send? && es[i].packet == p)
    ensures var s' := Run(s, [Acked(p)] + es); !IsTracked(s', p) && Duplicates(s'.tracking, p) == 0
  {
    RunConcat(s, [Acked(p)], es);
    RunOfOne(s, Acked(p));
    StaysForgotten(Step(s, Acked(p)), es, p);
  }

  lemma {:induction false} StaysForgotten(s: State, es: seq<Event>, p: nat)
    requires !IsTracked(s, p) && p !in s.tracking.duplicates
    requires forall i :: 0 <= i < |es| ==> es[i] != Duplicate(p) && !(es[i].Send? && es[i].packet == p)
    ensures !IsTracked(Run(s, es), p) && p !in Run(s, es).tracking.duplicates
    decreases |es|
  {
    if es != [] {
      assert forall i :: 0 <= i < |es[1..]| ==> es[1..][i] == es[i + 1];
      StaysForgotten(Step(s, es[0]), es[1..], p);
    }
  }

  /** A detection clears the duplicate ACKs of the packets that are lost because of them, and no
      others. */
  lemma DetectionClearsCountIff(s: State, p: nat, now: int)
    requires p in s.tracking.duplicates
    ensures p !in Step(s, Detect(now)).tracking.duplicates
       <==> IsTracked(s, p) && HasDuplicates(s.tracking, p, s.thresholds)
    ensures p in Step(s, Detect(now)).tracking.duplicates ==>
      Duplicates(Step(s, Detect(now)).tracking, p) == Duplicates(s.tracking, p)
  {
  }

  /** The timeout is nine quarters of the round-trip time, rounded down to an even number, but at least
      twenty milliseconds. */
  lemma TimeoutIsShare(s: State, rtt: nat)
    ensures var timeout := Step(s, Retime(rtt)).thresholds.timeout;
      && (9 * rtt >= 80_000_000 ==> 4 * timeout <= 9 * rtt < 4 * (timeout + 2))
      && (9 * rtt < 80_000_000 ==> timeout == 20_000_000)
  {
  }

  /** A timeout takes a packet off but leaves its duplicate ACKs counted: when the number is used again,
      one duplicate ACK completes the old count. With a threshold of n this happens for every count
      below n. */
  lemma StaleCountSurvives(k: Thresholds, p: nat, count: nat)
    requires 0 <= k.timeout && 0 < count < k.fastRetransmit
    ensures var es := [Send(p, 0)] + Repeat(Duplicate(p), count) + [Detect(k.timeout + 1), Send(p, k.timeout + 2)];
      && Duplicates(Run(Start(k), es).tracking, p) == count
      && (Lost(Run(Start(k), es + [Duplicate(p)]), p, k.timeout + 2) <==> count + 1 == k.fastRetransmit)
  {
    var s0 := Step(Start(k), Send(p, 0));
    var s1 := State(Tracking(map[p := 0], map[p := count], 0), k);
    var s2 := State(Tracking(map[], map[p := count], 0), k);
    var s3 := State(Tracking(map[p := k.timeout + 2], map[p := count], 0), k);
    var end := [Detect(k.timeout + 1), Send(p, k.timeout + 2)];
    CountsDuplicates(s0, p, count);
    RunConcat(Start(k), [Send(p, 0)] + Repeat(Duplicate(p), count), end);
    RunConcat(Start(k), [Send(p, 0)], Repeat(Duplicate(p), count));
    RunOfOne(Start(k), Send(p, 0));
    assert Run(s0, Repeat(Duplicate(p), count)) == s1;
    assert Step(s1, end[0]) == s2 && Step(s2, end[1]) == s3;
    RunConcat(s1, [end[0]], [end[1]]);
    RunOfOne(s1, end[0]);
    RunOfOne(s2, end[1]);
    assert end == [end[0]] + [end[1]];
    RunConcat(Start(k), [Send(p, 0)] + Repeat(Duplicate(p), count) + end, [Duplicate(p)]);
    RunOfOne(s3, Duplicate(p));
  }

  function Repeat(e: Event, n: nat): seq<Event>
  {
    if n == 0 then [] else [e] + Repeat(e, n - 1)
  }

  lemma {:induction false} CountsDuplicates(s: State, p: nat, n: nat)
    ensures Run(s, Repeat(Duplicate(p), n)) ==
      if n == 0 then s
      else s.(tracking := s.tracking.(duplicates := s.tracking.duplicates[p := Duplicates(s.tracking, p) + n]))
    decreases n
  {
    if n > 0 {
      var s' := Step(s, Duplicate(p));
      CountsDuplicates(s', p, n - 1);
      assert s'.tracking.duplicates[p := Duplicates(s.tracking, p) + n]
          == s.tracking.duplicates[p := Duplicates(s.tracking, p) + n];
    }
  }
}
