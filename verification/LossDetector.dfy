/** Loss detection for the packets of one path. */
module LossDetector {
  import opened Lists

  // ---------------------------------------------------------------------------
  // When a packet counts as lost

  /** Unacknowledged packets with their send times, duplicate ACK counts, and the largest
      packet number acknowledged. */
  datatype Tracking = Tracking(unacked: map<nat, int>, duplicates: map<nat, nat>, lastAcked: nat)

  datatype Thresholds = Thresholds(fastRetransmit: int, timeout: int, reordering: nat)

  predicate HasDuplicates(t: Tracking, p: nat, k: Thresholds)
  {
    p in t.duplicates && t.duplicates[p] >= k.fastRetransmit
  }

  predicate HasTimedOut(t: Tracking, p: nat, k: Thresholds, now: int)
    requires p in t.unacked
  {
    now - t.unacked[p] > k.timeout
  }

  predicate IsOvertaken(t: Tracking, p: nat, k: Thresholds)
  {
    t.lastAcked > k.reordering && p < t.lastAcked - k.reordering
  }

  /** The single definition that the point query and the batch detector both implement. */
  predicate IsLost(t: Tracking, p: nat, k: Thresholds, now: int)
  {
    p in t.unacked && (HasTimedOut(t, p, k, now) || HasDuplicates(t, p, k) || IsOvertaken(t, p, k))
  }

  function AfterSend(t: Tracking, p: nat, now: int): Tracking
  {
    t.(unacked := t.unacked[p := now])
  }

  function AfterAck(t: Tracking, p: nat): Tracking
  {
    Tracking(t.unacked - {p}, t.duplicates - {p}, if p > t.lastAcked then p else t.lastAcked)
  }

  function AfterDuplicate(t: Tracking, p: nat): Tracking
  {
    t.(duplicates := t.duplicates[p := (if p in t.duplicates then t.duplicates[p] else 0) + 1])
  }

  const MIN_TIME_THRESHOLD := 10_000_000

  /** Twice nine eighths of the round-trip time, in nanoseconds, or twice ten milliseconds. */
  function TimeoutFor(rtt: nat): int
  {
    2 * if rtt * 9 / 8 < MIN_TIME_THRESHOLD then MIN_TIME_THRESHOLD else rtt * 9 / 8
  }

  /** What a detection leaves: the packets not lost, and the duplicate counts of all but those lost
      because of them. */
  function AfterDetection(t: Tracking, k: Thresholds, now: int): Tracking
  {
    Tracking(
      map p | p in t.unacked && !IsLost(t, p, k, now) :: t.unacked[p],
      map p | p in t.duplicates && !(p in t.unacked && HasDuplicates(t, p, k)) :: t.duplicates[p],
      t.lastAcked)
  }

  /** The packets reported because of duplicate ACKs, and those reported because of time alone. */
  function LostToDuplicates(t: Tracking, k: Thresholds): set<nat>
  {
    set p | p in t.unacked && HasDuplicates(t, p, k)
  }

  function LostToTime(t: Tracking, k: Thresholds, now: int): set<nat>
  {
    set p | p in t.unacked && !HasDuplicates(t, p, k) && HasTimedOut(t, p, k, now)
  }

  /** Every packet that the reordering rule reports meets the packet threshold of section 6.1.1
      of RFC 9002; the rule is stricter by exactly one packet. */
  lemma OvertakenMeetsPacketThreshold(t: Tracking, p: nat, k: Thresholds)
    ensures IsOvertaken(t, p, k) ==> t.lastAcked - p >= k.reordering
    ensures t.lastAcked - p >= k.reordering <==> IsOvertaken(t, p, k) || t.lastAcked == p + k.reordering
  {
  }

  /** A detection leaves nothing to find. */
  lemma NothingLeft(t: Tracking, k: Thresholds, now: int)
    ensures forall p :: !IsLost(AfterDetection(t, k, now), p, k, now)
  {
    forall p
      ensures !IsLost(AfterDetection(t, k, now), p, k, now)
    {
      assert IsLost(AfterDetection(t, k, now), p, k, now) ==> IsLost(t, p, k, now);
    }
  }

  // ---------------------------------------------------------------------------
  // Where the packets are

  ghost predicate IsPartition(sent: set<nat>, unacked: set<nat>, acked: set<nat>, lost: set<nat>)
  {
    && (forall p :: p in sent <==> p in unacked || p in acked || p in lost)
    && (forall p :: p in unacked ==> p !in acked && p !in lost)
    && (forall p :: p in acked ==> p !in lost)
  }

  lemma PartitionAfterSend(sent: set<nat>, unacked: set<nat>, acked: set<nat>, lost: set<nat>, p: nat)
    requires IsPartition(sent, unacked, acked, lost)
    ensures IsPartition(sent + {p}, unacked + {p}, acked, lost) <==> p !in acked && p !in lost
  {
    assert p in unacked + {p};
  }

  lemma PartitionAfterAck(sent: set<nat>, unacked: set<nat>, acked: set<nat>, lost: set<nat>, gone: set<nat>)
    requires IsPartition(sent, unacked, acked, lost) && gone <= unacked
    ensures IsPartition(sent, unacked - gone, acked + gone, lost)
  {
  }

  lemma PartitionAfterLoss(sent: set<nat>, unacked: set<nat>, acked: set<nat>, lost: set<nat>, gone: set<nat>)
    requires IsPartition(sent, unacked, acked, lost) && gone <= unacked
    ensures IsPartition(sent, unacked - gone, acked, lost + gone)
    ensures |lost + gone| == |lost| + |gone|
  {
    assert lost !! gone;
  }

  // ---------------------------------------------------------------------------
  // The detector of a path

  method RemoveDuplicates(packets: seq<nat>) returns (result: seq<nat>)
    ensures Distinct(result) && Members(result) == Members(packets)
    ensures Distinct(packets) ==> result == packets
  {
    var seen: set<nat> := {};
    result := [];
    for i := 0 to |packets|
      invariant seen == Members(packets[..i]) == Members(result)
      invariant Distinct(result)
      invariant Distinct(packets) ==> result == packets[..i]
    {
      assert packets[..i + 1] == packets[..i] + [packets[i]];
      DistinctExtend(result, packets[i]);
      if packets[i] !in seen {
        seen := seen + {packets[i]};
        result := result + [packets[i]];
      } else {
        var j :| 0 <= j < i && packets[j] == packets[i];
      }
    }
    assert packets[..|packets|] == packets;
  }

  class LossDetectionState {
    var packetsSentNotAcked: map<nat, int>
    var duplicateAckCount: map<nat, nat>
    var lastPacketSent: nat
    var lastPacketAcked: nat
    var thresholds: Thresholds
    var packetsLost: nat
    var fastRetransmits: nat
    var timeoutRetransmits: nat

    /** History: the packets ever sent, acknowledged while tracked, and reported lost. */
    ghost var sent: set<nat>
    ghost var acked: set<nat>
    ghost var lost: set<nat>

    ghost function View(): Tracking
      reads `packetsSentNotAcked, `duplicateAckCount, `lastPacketAcked
    {
      Tracking(packetsSentNotAcked, duplicateAckCount, lastPacketAcked)
    }

    /** Every packet sent is in exactly one of three states, and each loss was counted once. */
    ghost predicate Partition()
      reads `packetsSentNotAcked, `packetsLost, `sent, `acked, `lost
    {
      IsPartition(sent, packetsSentNotAcked.Keys, acked, lost) && packetsLost == |lost|
    }

    constructor (fastRetransmitThreshold: int, lossDetectionTimeout: int)
      ensures Partition() && sent == {} && View() == Tracking(map[], map[], 0)
      ensures thresholds == Thresholds(fastRetransmitThreshold, lossDetectionTimeout, 3)
    {
      packetsSentNotAcked, duplicateAckCount, lastPacketSent, lastPacketAcked := map[], map[], 0, 0;
      thresholds := Thresholds(fastRetransmitThreshold, lossDetectionTimeout, 3);
      packetsLost, fastRetransmits, timeoutRetransmits := 0, 0, 0;
      sent, acked, lost := {}, {}, {};
    }

    /** Only re-using the number of a packet already acknowledged or lost breaks the partition. */
    method OnPacketSent(packetID: nat, now: int)
      modifies `packetsSentNotAcked, `lastPacketSent, `sent
      ensures View() == AfterSend(old(View()), packetID, now)
      ensures lastPacketSent == if packetID > old(lastPacketSent) then packetID else old(lastPacketSent)
      ensures sent == old(sent) + {packetID}
      ensures old(Partition()) ==> (Partition() <==> packetID !in acked && packetID !in lost)
    {
      hide IsPartition;
      if Partition() {
        PartitionAfterSend(sent, packetsSentNotAcked.Keys, acked, lost, packetID);
      }
      assert packetsSentNotAcked[packetID := now].Keys == packetsSentNotAcked.Keys + {packetID};
      packetsSentNotAcked := packetsSentNotAcked[packetID := now];
      sent := sent + {packetID};
      if packetID > lastPacketSent {
        lastPacketSent := packetID;
      }
    }

    method OnPacketAcked(packetID: nat)
      modifies `packetsSentNotAcked, `lastPacketAcked, `duplicateAckCount, `acked
      ensures old(Partition()) ==> Partition()
      ensures View() == AfterAck(old(View()), packetID)
      ensures acked == if packetID in old(packetsSentNotAcked) then old(acked) + {packetID} else old(acked)
    {
      hide IsPartition;
      if packetID in packetsSentNotAcked {
        if Partition() {
          PartitionAfterAck(sent, packetsSentNotAcked.Keys, acked, lost, {packetID});
        }
        assert (packetsSentNotAcked - {packetID}).Keys == packetsSentNotAcked.Keys - {packetID};
        packetsSentNotAcked := packetsSentNotAcked - {packetID};
        acked := acked + {packetID};
      } else {
        assert packetsSentNotAcked == packetsSentNotAcked - {packetID};
      }
      if packetID > lastPacketAcked {
        lastPacketAcked := packetID;
      }
      duplicateAckCount := duplicateAckCount - {packetID};
    }

    method OnDuplicateAck(packetID: nat)
      modifies `duplicateAckCount
      ensures View() == AfterDuplicate(old(View()), packetID)
    {
      duplicateAckCount := duplicateAckCount[packetID :=
        (if packetID in duplicateAckCount then duplicateAckCount[packetID] else 0) + 1];
    }

    method UpdateTimeThreshold(rtt: nat)
      modifies `thresholds
      ensures thresholds == old(thresholds).(timeout := TimeoutFor(rtt))
    {
      var timeThreshold := rtt * 9 / 8;
      if timeThreshold < MIN_TIME_THRESHOLD {
        timeThreshold := MIN_TIME_THRESHOLD;
      }
      thresholds := thresholds.(timeout := timeThreshold * 2);
    }

    method IsPacketLost(packetID: nat, now: int) returns (r: bool)
      ensures r == IsLost(View(), packetID, thresholds, now)
      ensures packetID in packetsSentNotAcked ==>
                (r <==>
                 || now - packetsSentNotAcked[packetID] > thresholds.timeout
                 || (packetID in duplicateAckCount && duplicateAckCount[packetID] >= thresholds.fastRetransmit)
                 || packetID + thresholds.reordering < lastPacketAcked)
    {
      if packetID !in packetsSentNotAcked {
        return false;
      }
      if now - packetsSentNotAcked[packetID] > thresholds.timeout {
        return true;
      }
      if packetID in duplicateAckCount {
        if duplicateAckCount[packetID] >= thresholds.fastRetransmit {
          return true;
        }
      }
      if lastPacketAcked > thresholds.reordering {
        var lossThreshold := lastPacketAcked - thresholds.reordering;
        if packetID < lossThreshold {
          return true;
        }
      }
      return false;
    }

    /** Reports exactly the packets for which the point query says yes, each once; a second
        call at the same time reports nothing. */
    method DetectLoss(now: int) returns (result: seq<nat>)
      modifies `packetsSentNotAcked, `duplicateAckCount, `packetsLost, `fastRetransmits, `timeoutRetransmits, `lost
      ensures forall p :: p in result <==> old(IsLost(View(), p, thresholds, now))
      ensures Distinct(result)
      ensures View() == AfterDetection(old(View()), thresholds, now)
      ensures forall p :: !IsLost(View(), p, thresholds, now)
      ensures packetsLost == old(packetsLost) + |result|
      ensures fastRetransmits == old(fastRetransmits) + |LostToDuplicates(old(View()), thresholds)|
      ensures timeoutRetransmits == old(timeoutRetransmits) + |LostToTime(old(View()), thresholds, now)|
      ensures lost == old(lost) + Members(result)
      ensures old(Partition()) ==> Partition()
    {
      hide IsPartition, Distinct;
      ghost var before := View();
      result := RunDetectors(now);
      NothingLeft(before, thresholds, now);
      DistinctSize(result);
      assert Members(result) <= before.unacked.Keys;
      if old(Partition()) {
        PartitionAfterLoss(sent, before.unacked.Keys, acked, lost, Members(result));
      }
      assert packetsSentNotAcked.Keys == before.unacked.Keys - Members(result);
      lost := lost + Members(result);
    }

    /** The three detectors in turn. Their lists are disjoint, so removing duplicates from the
        joined list changes nothing and each loss is counted once, in one category. */
    method RunDetectors(now: int) returns (result: seq<nat>)
      modifies `packetsSentNotAcked, `duplicateAckCount, `packetsLost, `fastRetransmits, `timeoutRetransmits
      ensures forall p :: p in result <==> old(IsLost(View(), p, thresholds, now))
      ensures Distinct(result)
      ensures View() == AfterDetection(old(View()), thresholds, now)
      ensures packetsLost == old(packetsLost) + |result|
      ensures fastRetransmits == old(fastRetransmits) + |LostToDuplicates(old(View()), thresholds)|
      ensures timeoutRetransmits == old(timeoutRetransmits) + |LostToTime(old(View()), thresholds, now)|
    {
      hide Distinct;
      ghost var before := View();
      var fast := DetectFastRetransmitLoss();
      ghost var middle := View();
      var timedOut := DetectTimeoutLoss(now);
      ghost var late := View();
      var overtaken := DetectReorderingLoss();
      var lostPackets := fast + timedOut + overtaken;
      DisjointLists(before, middle, late, fast, timedOut, overtaken, thresholds, now);
      DetectionIsComplete(before, middle, late, fast, timedOut, overtaken, thresholds, now);
      packetsLost := packetsLost + |lostPackets|;
      fastRetransmits := fastRetransmits + |fast|;
      timeoutRetransmits := timeoutRetransmits + |timedOut|;
      result := RemoveDuplicates(lostPackets);
      assert result == lostPackets;
    }

    method DetectFastRetransmitLoss() returns (found: seq<nat>)
      modifies `packetsSentNotAcked, `duplicateAckCount
      ensures Distinct(found)
      ensures forall p :: p in found <==> p in old(packetsSentNotAcked) && old(HasDuplicates(View(), p, thresholds))
      ensures packetsSentNotAcked == old(packetsSentNotAcked) - Members(found)
      ensures duplicateAckCount == old(duplicateAckCount) - Members(found)
    {
      found := [];
      ghost var before := View();
      var todo := duplicateAckCount.Keys;
      while todo != {}
        invariant todo <= before.duplicates.Keys
        invariant Distinct(found)
        invariant forall p :: p in found <==> p !in todo && p in before.unacked && HasDuplicates(before, p, thresholds)
        invariant packetsSentNotAcked == before.unacked - Members(found)
        invariant duplicateAckCount == before.duplicates - Members(found)
        decreases todo
      {
        var packetID :| packetID in todo;
        todo := todo - {packetID};
        if duplicateAckCount[packetID] >= thresholds.fastRetransmit {
          if packetID in packetsSentNotAcked {
            DistinctExtend(found, packetID);
            found := found + [packetID];
            packetsSentNotAcked := packetsSentNotAcked - {packetID};
            duplicateAckCount := duplicateAckCount - {packetID};
          }
        }
      }
    }

    method DetectTimeoutLoss(now: int) returns (found: seq<nat>)
      modifies `packetsSentNotAcked
      ensures Distinct(found)
      ensures forall p :: p in found <==> p in old(packetsSentNotAcked) && old(HasTimedOut(View(), p, thresholds, now))
      ensures packetsSentNotAcked == old(packetsSentNotAcked) - Members(found)
    {
      found := [];
      ghost var before := View();
      var todo := packetsSentNotAcked.Keys;
      while todo != {}
        invariant todo <= packetsSentNotAcked.Keys
        invariant Distinct(found)
        invariant forall p :: p in found <==>
            p !in todo && p in before.unacked && HasTimedOut(before, p, thresholds, now)
        invariant packetsSentNotAcked == before.unacked - Members(found)
        decreases todo
      {
        var packetID :| packetID in todo;
        todo := todo - {packetID};
        if now - packetsSentNotAcked[packetID] > thresholds.timeout {
          DistinctExtend(found, packetID);
          found := found + [packetID];
          packetsSentNotAcked := packetsSentNotAcked - {packetID};
        }
      }
    }

    method DetectReorderingLoss() returns (found: seq<nat>)
      modifies `packetsSentNotAcked
      ensures Distinct(found)
      ensures forall p :: p in found <==> p in old(packetsSentNotAcked) && old(IsOvertaken(View(), p, thresholds))
      ensures packetsSentNotAcked == old(packetsSentNotAcked) - Members(found)
    {
      found := [];
      ghost var before := View();
      if lastPacketAcked > thresholds.reordering {
        var lossThreshold := lastPacketAcked - thresholds.reordering;
        var todo := packetsSentNotAcked.Keys;
        while todo != {}
          invariant todo <= packetsSentNotAcked.Keys
          invariant Distinct(found)
          invariant forall p :: p in found <==> p !in todo && p in before.unacked && p < lossThreshold
          invariant packetsSentNotAcked == before.unacked - Members(found)
          decreases todo
        {
          var packetID :| packetID in todo;
          todo := todo - {packetID};
          if packetID < lossThreshold {
            DistinctExtend(found, packetID);
            found := found + [packetID];
            packetsSentNotAcked := packetsSentNotAcked - {packetID};
          }
        }
      }
    }
  }

  /** The three detectors report disjoint lists, which together are exactly the lost packets. */
  lemma DisjointLists(before: Tracking, middle: Tracking, late: Tracking, fast: seq<nat>, timedOut: seq<nat>,
                      overtaken: seq<nat>, k: Thresholds, now: int)
    requires Distinct(fast) && Distinct(timedOut) && Distinct(overtaken)
    requires forall p :: p in fast <==> p in before.unacked && HasDuplicates(before, p, k)
    requires middle.unacked == before.unacked - Members(fast) && middle.lastAcked == before.lastAcked
    requires forall p :: p in timedOut <==> p in middle.unacked && HasTimedOut(middle, p, k, now)
    requires late.unacked == middle.unacked - Members(timedOut) && late.lastAcked == before.lastAcked
    requires forall p :: p in overtaken <==> p in late.unacked && IsOvertaken(late, p, k)
    ensures Distinct(fast + timedOut + overtaken)
    ensures forall p :: p in fast + timedOut + overtaken <==> IsLost(before, p, k, now)
    ensures Members(fast + timedOut + overtaken) == Members(fast) + Members(timedOut) + Members(overtaken)
  {
    assert forall p :: p in Members(fast) <==> p in fast;
    DistinctConcat(fast, timedOut);
    DistinctConcat(fast + timedOut, overtaken);
  }

  /** What the three detectors leave, and in which category they count. */
  lemma DetectionIsComplete(before: Tracking, middle: Tracking, late: Tracking, fast: seq<nat>, timedOut: seq<nat>,
                            overtaken: seq<nat>, k: Thresholds, now: int)
    requires Distinct(fast) && Distinct(timedOut)
    requires forall p :: p in fast <==> p in before.unacked && HasDuplicates(before, p, k)
    requires middle.unacked == before.unacked - Members(fast)
    requires forall p :: p in timedOut <==> p in middle.unacked && HasTimedOut(middle, p, k, now)
    requires late.unacked == middle.unacked - Members(timedOut) && late.lastAcked == before.lastAcked
    requires forall p :: p in overtaken <==> p in late.unacked && IsOvertaken(late, p, k)
    ensures Tracking(late.unacked - Members(overtaken), before.duplicates - Members(fast), before.lastAcked)
         == AfterDetection(before, k, now)
    ensures |fast| == |LostToDuplicates(before, k)| && |timedOut| == |LostToTime(before, k, now)|
  {
    DistinctSize(fast);
    DistinctSize(timedOut);
    assert Members(fast) == LostToDuplicates(before, k);
    assert Members(timedOut) == LostToTime(before, k, now);
  }
}
