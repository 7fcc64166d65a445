/** Generating ACK frames for received packets and crediting received ones, for one path. */
module AckManager {
  import opened Intervals
  import opened Lists
  import opened Congestion

  /** Packet identifiers are 64-bit in the program; a range may not reach the last one,
      where its loop counter would wrap around. */
  const MAX_PACKET_ID: nat := 0xFFFF_FFFF_FFFF_FFFF

  datatype AckFrame = AckFrame(ackedPacketIds: seq<nat>, ackRanges: seq<Range>, largestAcked: nat)

  ghost predicate Acknowledges(f: AckFrame, id: nat)
  {
    id in f.ackedPacketIds || Covers(Spans(f.ackRanges), id)
  }

  // ---------------------------------------------------------------------------
  // Sorting

  ghost predicate Sorted(ids: seq<nat>)
  {
    forall i, j :: 0 <= i < j < |ids| ==> ids[i] <= ids[j]
  }

  /** The elements from position k on are in their final places. */
  ghost predicate SettledFrom(ids: seq<nat>, k: nat)
  {
    forall i, j :: 0 <= i < j < |ids| && k <= j ==> ids[i] <= ids[j]
  }

  /** No element before j exceeds the one at j. */
  ghost predicate MaxAt(ids: seq<nat>, j: nat)
  {
    j < |ids| && forall i :: 0 <= i < j ==> ids[i] <= ids[j]
  }

  /** Exchanges neighbours that are out of order. */
  function SwapUp(ids: seq<nat>, j: nat): (r: seq<nat>)
    requires j + 1 < |ids|
    ensures |r| == |ids|
  {
    if ids[j] > ids[j + 1] then ids[j := ids[j + 1]][j + 1 := ids[j]] else ids
  }

  lemma SwapUpElements(ids: seq<nat>, j: nat)
    requires j + 1 < |ids|
    ensures multiset(SwapUp(ids, j)) == multiset(ids)
  {
  }

  lemma SwapUpMovesMax(ids: seq<nat>, j: nat, bound: nat)
    requires j < bound < |ids| && SettledFrom(ids, bound + 1) && MaxAt(ids, j)
    ensures SettledFrom(SwapUp(ids, j), bound + 1) && MaxAt(SwapUp(ids, j), j + 1)
  {
  }

  method CompareAndSwap(a: array<nat>, j: nat)
    requires j + 1 < a.Length
    modifies a
    ensures a[..] == SwapUp(old(a[..]), j)
  {
    if a[j] > a[j + 1] {
      a[j], a[j + 1] := a[j + 1], a[j];
    }
  }

  /** One pass of the bubble sort settles position `bound`. */
  method BubblePass(a: array<nat>, bound: nat)
    requires bound < a.Length && SettledFrom(a[..], bound + 1)
    modifies a
    ensures multiset(a[..]) == multiset(old(a[..]))
    ensures SettledFrom(a[..], bound)
  {
    ghost var before := multiset(a[..]);
    for j := 0 to bound
      invariant multiset(a[..]) == before
      invariant SettledFrom(a[..], bound + 1)
      invariant MaxAt(a[..], j)
    {
      hide SwapUp, SettledFrom, MaxAt;
      SwapUpElements(a[..], j);
      SwapUpMovesMax(a[..], j, bound);
      CompareAndSwap(a, j);
    }
  }

  method BubbleSort(a: array<nat>)
    modifies a
    ensures multiset(a[..]) == multiset(old(a[..]))
    ensures Sorted(a[..])
  {
    var n := a.Length;
    if n == 0 {
      return;
    }
    for i := 0 to n - 1
      invariant multiset(a[..]) == multiset(old(a[..]))
      invariant SettledFrom(a[..], n - i)
    {
      BubblePass(a, n - i - 1);
    }
  }

  // ---------------------------------------------------------------------------
  // Run-length coding

  /** The maximal runs of consecutive identifiers; a repeated identifier starts a new run. */
  function Runs(ids: seq<nat>): (r: seq<Range>)
    requires ids != []
    ensures r != [] && r[|r| - 1].end == ids[|ids| - 1]
  {
    var n := |ids| - 1;
    if n == 0 then [Range(ids[0], ids[0])]
    else
      var r := Runs(ids[..n]);
      var last := r[|r| - 1];
      if ids[n] == last.end + 1 then r[..|r| - 1] + [last.(end := ids[n])]
      else r + [Range(ids[n], ids[n])]
  }

  lemma {:induction false} RunsAreForward(ids: seq<nat>)
    requires ids != []
    ensures forall i :: 0 <= i < |Runs(ids)| ==> Runs(ids)[i].start <= Runs(ids)[i].end
  {
    if |ids| > 1 {
      RunsAreForward(ids[..|ids| - 1]);
    }
  }

  lemma RunsOfAppend(front: seq<nat>, x: nat)
    requires front != []
    ensures var r := Runs(front);
            Runs(front + [x]) == if x == r[|r| - 1].end + 1 then r[..|r| - 1] + [r[|r| - 1].(end := x)]
                                 else r + [Range(x, x)]
  {
    var ids := front + [x];
    assert ids[..|ids| - 1] == front;
  }

  /** How the list of runs grows with one more identifier. */
  lemma {:induction false} RunsStep(front: seq<nat>, x: nat) returns (init: seq<Interval>, last: Interval)
    requires front != []
    ensures Spans(Runs(front)) == init + [last]
    ensures last.start < last.end == front[|front| - 1] + 1
    ensures Spans(Runs(front + [x])) == if x == last.end then init + [Interval(last.start, x + 1)]
                                        else init + [last] + [Interval(x, x + 1)]
  {
    hide Runs, Spans;
    RunsOfAppend(front, x);
    RunsAreForward(front);
    var r := Runs(front);
    var r0, r1 := r[..|r| - 1], r[|r| - 1];
    init := Spans(r0);
    last := Interval(r1.start, r1.end + 1);
    assert r == r0 + [r1];
    SpansAppend(r0, r1);
    SpansAppend(r0, r1.(end := x));
    SpansAppend(r, Range(x, x));
  }

  /** The runs cover exactly the identifiers. */
  lemma {:induction false} RunsCover(ids: seq<nat>, x: int)
    requires ids != []
    ensures Covers(Spans(Runs(ids)), x) <==> x in ids
    decreases |ids|
  {
    hide Covers, Runs, Spans;
    if |ids| == 1 {
      RunsOfOne(ids[0], x);
      assert ids == [ids[0]];
    } else {
      var front, id := ids[..|ids| - 1], ids[|ids| - 1];
      assert ids == front + [id];
      RunsCover(front, x);
      RunsCoverStep(front, id, x);
    }
  }

  lemma RunsOfOne(id: nat, x: int)
    ensures Covers(Spans(Runs([id])), x) <==> x == id
  {
    assert Spans(Runs([id])) == [] + [Interval(id, id + 1)];
    CoversAppend([], Interval(id, id + 1), x);
  }

  lemma RunsCoverStep(front: seq<nat>, id: nat, x: int)
    requires front != []
    ensures Covers(Spans(Runs(front + [id])), x) <==> Covers(Spans(Runs(front)), x) || x == id
  {
    hide Covers, Runs, Spans;
    var init, last := RunsStep(front, id);
    CoversAppend(init, last, x);
    if id == last.end {
      CoversAppend(init, Interval(last.start, id + 1), x);
    } else {
      CoversAppend(init + [last], Interval(id, id + 1), x);
    }
  }

  /** The runs are disjoint and not adjacent exactly when no identifier is repeated. */
  lemma {:induction false} RunsAreCanonical(ids: seq<nat>)
    requires ids != [] && Sorted(ids)
    ensures Canonical(Spans(Runs(ids))) <==> Distinct(ids)
    decreases |ids|
  {
    if |ids| > 1 {
      var front, id := ids[..|ids| - 1], ids[|ids| - 1];
      assert ids == front + [id];
      DistinctStep(front, id);
      RunsAreCanonical(front);
      RunsCanonicalStep(front, id);
    }
  }

  lemma {:induction false} RunsCanonicalStep(front: seq<nat>, id: nat)
    requires front != [] && front[|front| - 1] <= id
    ensures Canonical(Spans(Runs(front + [id]))) <==> Canonical(Spans(Runs(front))) && front[|front| - 1] < id
  {
    hide Canonical, Runs, Spans;
    var init, last := RunsStep(front, id);
    if id == last.end {
      AppendIsCanonicalIff(init, last);
      AppendIsCanonicalIff(init, Interval(last.start, id + 1));
    } else {
      AppendIsCanonicalIff(init + [last], Interval(id, id + 1));
    }
  }

  lemma AppendIsCanonicalIff(list: seq<Interval>, last: Interval)
    requires last.start < last.end
    ensures Canonical(list + [last]) <==> Canonical(list) && (list != [] ==> list[|list| - 1].end < last.start)
  {
    if Canonical(list + [last]) {
      PrefixIsCanonical(list, last);
      if list != [] {
        assert (list + [last])[|list| - 1].end < (list + [last])[|list|].start;
      }
    }
    if Canonical(list) && (list != [] ==> list[|list| - 1].end < last.start) {
      AppendIsCanonical(list, last);
    }
  }

  lemma DistinctStep(front: seq<nat>, id: nat)
    requires front != [] && Sorted(front + [id])
    ensures Sorted(front) && front[|front| - 1] <= id
    ensures Distinct(front + [id]) <==> Distinct(front) && front[|front| - 1] < id
  {
    var ids := front + [id];
    assert forall i :: 0 <= i < |front| ==> ids[i] == front[i] && ids[i] <= ids[|front|];
    DistinctExtend(front, id);
    assert front[|front| - 1] in front;
    assert forall i :: 0 <= i < |front| ==> front[i] <= front[|front| - 1];
  }

  method CreateAckRanges(packetIDs: seq<nat>) returns (ranges: seq<Range>)
    ensures forall x :: Covers(Spans(ranges), x) <==> x in packetIDs
    ensures forall i :: 0 <= i < |ranges| ==> ranges[i].start <= ranges[i].end
    ensures Canonical(Spans(ranges)) <==> Distinct(packetIDs)
  {
    if |packetIDs| == 0 {
      ranges := [];
      assert forall x :: !Covers(Spans(ranges), x);
      return;
    }
    var sortedIDs := new nat[|packetIDs|](i requires 0 <= i < |packetIDs| => packetIDs[i]);
    assert sortedIDs[..] == packetIDs;
    BubbleSort(sortedIDs);
    ranges := MergeRuns(sortedIDs);
    PermutationKeepsDistinct(packetIDs, sortedIDs[..]);
    RunsAreCanonical(sortedIDs[..]);
    RunsAreForward(sortedIDs[..]);
    forall x
      ensures Covers(Spans(ranges), x) <==> x in packetIDs
    {
      RunsCover(sortedIDs[..], x);
      SameMembers(packetIDs, sortedIDs[..], x);
    }
  }

  method MergeRuns(sortedIDs: array<nat>) returns (ranges: seq<Range>)
    requires sortedIDs.Length > 0
    ensures ranges == Runs(sortedIDs[..])
  {
    ranges := [];
    var start, end := sortedIDs[0], sortedIDs[0];
    for i := 1 to sortedIDs.Length
      invariant ranges + [Range(start, end)] == Runs(sortedIDs[..i])
    {
      assert sortedIDs[..i + 1][..i] == sortedIDs[..i];
      if sortedIDs[i] == end + 1 {
        end := sortedIDs[i];
      } else {
        ranges := ranges + [Range(start, end)];
        start, end := sortedIDs[i], sortedIDs[i];
      }
    }
    ranges := ranges + [Range(start, end)];
    assert sortedIDs[..sortedIDs.Length] == sortedIDs[..];
  }

  lemma SameMembers(a: seq<nat>, b: seq<nat>, x: int)
    requires multiset(a) == multiset(b)
    ensures x in a <==> x in b
  {
    if x >= 0 {
      assert x in a <==> x in multiset(a);
      assert x in b <==> x in multiset(b);
    }
  }

  ghost predicate AtMostOnce(m: multiset<nat>)
  {
    forall x: nat :: m[x] <= 1
  }

  /** A sequence has no repetition exactly when every multiplicity is at most one. */
  lemma {:induction false} DistinctMeansOnce(ids: seq<nat>)
    ensures Distinct(ids) <==> AtMostOnce(multiset(ids))
  {
    if ids != [] {
      var front, last := ids[..|ids| - 1], ids[|ids| - 1];
      assert ids == front + [last];
      DistinctMeansOnce(front);
      DistinctExtend(front, last);
      OnceExtend(multiset(front), last);
      assert multiset(ids) == multiset(front) + multiset{last};
      assert last in front <==> last in multiset(front);
    }
  }

  lemma OnceExtend(m: multiset<nat>, last: nat)
    ensures AtMostOnce(m + multiset{last}) <==> AtMostOnce(m) && last !in m
  {
    var all := m + multiset{last};
    if AtMostOnce(all) {
      forall x: nat
        ensures m[x] <= 1
      {
        assert all[x] <= 1;
      }
      assert all[last] <= 1;
    }
  }

  lemma PermutationKeepsDistinct(a: seq<nat>, b: seq<nat>)
    requires multiset(a) == multiset(b)
    ensures Distinct(a) <==> Distinct(b)
  {
    DistinctMeansOnce(a);
    DistinctMeansOnce(b);
  }

  method FindLargestPacketID(packetIDs: seq<nat>) returns (largest: nat)
    ensures packetIDs == [] ==> largest == 0
    ensures packetIDs != [] ==> largest in packetIDs
    ensures forall x :: x in packetIDs ==> x <= largest
  {
    if |packetIDs| == 0 {
      return 0;
    }
    largest := packetIDs[0];
    for i := 1 to |packetIDs|
      invariant largest in packetIDs
      invariant forall k :: 0 <= k < i ==> packetIDs[k] <= largest
    {
      if packetIDs[i] > largest {
        largest := packetIDs[i];
      }
    }
  }

  // ---------------------------------------------------------------------------
  // Crediting a frame, as a function of the sent packets

  /** Sent packets and whether each has been acknowledged, after acknowledging `ids`. */
  function Credit(sent: map<nat, bool>, ids: set<nat>): map<nat, bool>
  {
    map id | id in sent :: sent[id] || id in ids
  }

  function AckedSet(sent: map<nat, bool>): set<nat>
  {
    set id | id in sent && sent[id]
  }

  /** `acked` lists, once each, the packets newly acknowledged among those already looked at. */
  ghost predicate NewlyAcked(before: map<nat, bool>, after: map<nat, bool>, acked: seq<nat>)
  {
    && Distinct(acked)
    && (forall id :: id in acked ==> id in before && !before[id])
    && after == Credit(before, Members(acked))
  }

  lemma CreditOne(before: map<nat, bool>, after: map<nat, bool>, acked: seq<nat>, id: nat)
    requires NewlyAcked(before, after, acked) && id in after && !after[id]
    ensures NewlyAcked(before, after[id := true], acked + [id])
  {
    DistinctExtend(acked, id);
    assert forall x :: x in acked + [id] <==> x in acked || x == id;
  }

  /** The whole of what is credited: exactly the unacknowledged sent packets that `wanted` names. */
  lemma CreditIsExact(before: map<nat, bool>, after: map<nat, bool>, acked: seq<nat>, wanted: iset<nat>)
    requires NewlyAcked(before, after, acked)
    requires forall id :: id in acked ==> id in wanted
    requires forall id :: id in wanted && id in before && !before[id] ==> id in acked
    ensures Distinct(acked)
    ensures forall id :: id in acked <==> id in wanted && id in before && !before[id]
    ensures forall id :: id in after <==> id in before
    ensures forall id :: id in after ==> (after[id] <==> before[id] || id in wanted)
    ensures AckedSet(after) == AckedSet(before) + Members(acked)
    ensures |AckedSet(after)| == |AckedSet(before)| + |acked|
  {
    DistinctSize(acked);
    assert AckedSet(before) !! Members(acked);
    assert AckedSet(after) == AckedSet(before) + Members(acked);
  }

  // ---------------------------------------------------------------------------
  // The ACK state of a path

  datatype GenerateResult = Frame(frame: AckFrame) | NoPackets

  class PathAckState {
    const batchingEnabled: bool
    const batchingThreshold: int
    const congestion: CongestionState
    var sentPackets: map<nat, bool>
    var receivedPackets: map<nat, bool>
    var acksSent: nat
    var acksReceived: nat
    var congestionWindowSize: nat

    ghost predicate Valid()
      reads this, congestion
    {
      congestion.Valid()
    }

    /** The congestion controller has been credited once for every acknowledged packet. */
    ghost predicate Credited()
      reads this, congestion
    {
      congestion.bytesAcked == MSS * |AckedSet(sentPackets)|
    }

    constructor (batchingEnabled: bool, batchingThreshold: int, config: Config)
      requires GoodConfig(config)
      ensures Valid() && Credited() && fresh(congestion)
      ensures sentPackets == map[] && receivedPackets == map[]
      ensures this.batchingEnabled == batchingEnabled && this.batchingThreshold == batchingThreshold
    {
      this.batchingEnabled, this.batchingThreshold := batchingEnabled, batchingThreshold;
      congestion := new CongestionState(config);
      sentPackets, receivedPackets, acksSent, acksReceived := map[], map[], 0, 0;
      congestionWindowSize := config.initial;
      new;
      assert AckedSet(sentPackets) == {};
    }

    /** Re-using the identifier of an acknowledged packet is what would break the crediting. */
    method AddSentPacket(packetID: nat)
      modifies `sentPackets
      ensures sentPackets == old(sentPackets)[packetID := false]
      ensures old(Credited()) ==> (Credited() <==> !(packetID in old(sentPackets) && old(sentPackets)[packetID]))
    {
      sentPackets := sentPackets[packetID := false];
      assert AckedSet(sentPackets) == AckedSet(old(sentPackets)) - {packetID};
    }

    /** Both the batched and the individual form acknowledge exactly the given packets. */
    method GenerateAck(packetIDs: seq<nat>) returns (r: GenerateResult)
      modifies `receivedPackets, `acksSent
      ensures r.NoPackets? <==> packetIDs == []
      ensures r.NoPackets? ==> receivedPackets == old(receivedPackets) && acksSent == old(acksSent)
      ensures r.Frame? ==> forall id: nat :: Acknowledges(r.frame, id) <==> id in packetIDs
      ensures r.Frame? ==> r.frame.largestAcked in packetIDs
      ensures r.Frame? ==> forall id :: id in packetIDs ==> id <= r.frame.largestAcked
      ensures r.Frame? && (forall id :: id in packetIDs ==> id < MAX_PACKET_ID) ==> InRange(r.frame)
      ensures r.Frame? && !(batchingEnabled && |packetIDs| >= batchingThreshold) ==> InRange(r.frame)
      ensures r.Frame? && batchingEnabled && |packetIDs| >= batchingThreshold ==>
                r.frame.ackedPacketIds == [] && (Canonical(Spans(r.frame.ackRanges)) <==> Distinct(packetIDs))
      ensures r.Frame? && !(batchingEnabled && |packetIDs| >= batchingThreshold) ==>
                r.frame.ackedPacketIds == packetIDs && r.frame.ackRanges == []
      ensures r.Frame? ==> acksSent == old(acksSent) + 1
      ensures r.Frame? ==> receivedPackets == Credit(old(receivedPackets), Members(packetIDs))
    {
      if |packetIDs| == 0 {
        return NoPackets;
      }
      var largest := FindLargestPacketID(packetIDs);
      var frame;
      if batchingEnabled && |packetIDs| >= batchingThreshold {
        var ranges := CreateAckRanges(packetIDs);
        frame := AckFrame([], ranges, largest);
        if forall id :: id in packetIDs ==> id < MAX_PACKET_ID {
          RangesInRange(ranges, packetIDs);
        }
      } else {
        frame := AckFrame(packetIDs, [], largest);
        assert forall x :: !Covers(Spans([]), x);
      }
      MarkReceived(packetIDs);
      acksSent := acksSent + 1;
      return Frame(frame);
    }

    method MarkReceived(packetIDs: seq<nat>)
      modifies `receivedPackets
      ensures receivedPackets == Credit(old(receivedPackets), Members(packetIDs))
    {
      for i := 0 to |packetIDs|
        invariant receivedPackets == Credit(old(receivedPackets), Members(packetIDs[..i]))
      {
        assert packetIDs[..i + 1] == packetIDs[..i] + [packetIDs[i]];
        if packetIDs[i] in receivedPackets {
          receivedPackets := receivedPackets[packetIDs[i] := true];
        }
      }
      assert packetIDs[..|packetIDs|] == packetIDs;
    }

    /** Newly acknowledges exactly the sent packets that were still unacknowledged and that the
        frame names, and credits the congestion controller once for each. */
    method ProcessReceivedAck(ackFrame: AckFrame, smoothedRtt: int, now: int) returns (acked: seq<nat>)
      requires Valid() && InRange(ackFrame)
      modifies this, congestion
      ensures Valid()
      ensures forall id :: id in acked <==>
                id in old(sentPackets) && !old(sentPackets)[id] && Acknowledges(ackFrame, id)
      ensures Distinct(acked)
      ensures sentPackets.Keys == old(sentPackets).Keys
      ensures forall id :: id in sentPackets ==>
                (sentPackets[id] <==> old(sentPackets)[id] || Acknowledges(ackFrame, id))
      ensures old(Credited()) ==> Credited()
      ensures congestion.bytesAcked == old(congestion.bytesAcked) + MSS * |acked|
      ensures acked != [] ==> congestionWindowSize == congestion.congestionWindow
      ensures congestion.View() ==
                if acked == [] then old(congestion.View())
                else OnAck(old(congestion.View()), MSS * |acked|, now - old(congestion.lastLossTime) > 2 * smoothedRtt,
                           congestion.config.max)
      ensures acksReceived == old(acksReceived) + 1 && receivedPackets == old(receivedPackets)
    {
      hide NewlyAcked, Covers, Spans, OnAck, Inv, Distinct;
      ghost var before := sentPackets;
      acked := AckIndividuals(ackFrame.ackedPacketIds);
      acked := AckRanges(ackFrame.ackRanges, acked, before, iset id: nat | id in ackFrame.ackedPacketIds);
      CreditIsExact(before, sentPackets, acked, iset id: nat | Acknowledges(ackFrame, id));
      if |acked| > 0 {
        congestion.ProcessAck(acked, smoothedRtt, now);
        congestionWindowSize := congestion.congestionWindow;
      }
      acksReceived := acksReceived + 1;
    }

    method AckOne(packetID: nat, acked0: seq<nat>, ghost before: map<nat, bool>) returns (acked: seq<nat>)
      requires NewlyAcked(before, sentPackets, acked0)
      modifies `sentPackets
      ensures NewlyAcked(before, sentPackets, acked)
      ensures forall id :: id in acked <==> id in acked0 || (id == packetID && id in before && !before[id])
    {
      acked := acked0;
      if packetID in sentPackets && !sentPackets[packetID] {
        CreditOne(before, sentPackets, acked, packetID);
        sentPackets := sentPackets[packetID := true];
        acked := acked + [packetID];
      }
    }

    method AckIndividuals(packetIDs: seq<nat>) returns (acked: seq<nat>)
      modifies `sentPackets
      ensures NewlyAcked(old(sentPackets), sentPackets, acked)
      ensures forall id :: id in acked <==> id in packetIDs && id in old(sentPackets) && !old(sentPackets)[id]
    {
      ghost var before := sentPackets;
      acked := [];
      assert NewlyAcked(before, sentPackets, acked);
      for i := 0 to |packetIDs|
        invariant NewlyAcked(before, sentPackets, acked)
        invariant forall id :: id in acked <==> id in packetIDs[..i] && id in before && !before[id]
      {
        hide NewlyAcked;
        assert packetIDs[..i + 1] == packetIDs[..i] + [packetIDs[i]];
        acked := AckOne(packetIDs[i], acked, before);
      }
    }

    method AckRanges(ranges: seq<Range>, acked0: seq<nat>, ghost before: map<nat, bool>, ghost done: iset<nat>)
        returns (acked: seq<nat>)
      requires NewlyAcked(before, sentPackets, acked0)
      requires forall id :: id in acked0 <==> id in done && id in before && !before[id]
      modifies `sentPackets
      ensures NewlyAcked(before, sentPackets, acked)
      ensures forall id :: id in acked <==>
                (id in done || Covers(Spans(ranges), id)) && id in before && !before[id]
    {
      acked := acked0;
      assert forall x :: !Covers(Spans(ranges[..0]), x);
      for i := 0 to |ranges|
        invariant NewlyAcked(before, sentPackets, acked)
        invariant forall id :: id in acked <==>
            (id in done || Covers(Spans(ranges[..i]), id)) && id in before && !before[id]
      {
        hide NewlyAcked, Covers, Spans;
        acked := AckRange(ranges[i], acked, before);
        forall id: nat
          ensures Covers(Spans(ranges[..i + 1]), id) <==>
                  Covers(Spans(ranges[..i]), id) || ranges[i].start <= id <= ranges[i].end
        {
          CoversNextRange(ranges, i, id);
        }
      }
      assert ranges[..|ranges|] == ranges;
    }

    method AckRange(range: Range, acked0: seq<nat>, ghost before: map<nat, bool>) returns (acked: seq<nat>)
      requires NewlyAcked(before, sentPackets, acked0)
      modifies `sentPackets
      ensures NewlyAcked(before, sentPackets, acked)
      ensures forall id :: id in acked <==>
                id in acked0 || (range.start <= id <= range.end && id in before && !before[id])
    {
      hide NewlyAcked;
      acked := acked0;
      var packetID := range.start;
      while packetID <= range.end
        invariant NewlyAcked(before, sentPackets, acked)
        invariant range.start <= packetID
        invariant forall id :: id in acked <==>
            id in acked0 || (range.start <= id < packetID && id <= range.end && id in before && !before[id])
      {
        acked := AckOne(packetID, acked, before);
        packetID := packetID + 1;
      }
    }
  }

  ghost predicate InRange(f: AckFrame)
  {
    forall i :: 0 <= i < |f.ackRanges| ==> f.ackRanges[i].end < MAX_PACKET_ID
  }

  /** The 64-bit counter of the range loop after n turns. */
  function Counter(start: nat, n: nat): nat
  {
    (start + n) % (MAX_PACKET_ID + 1)
  }

  /** Why a range may not reach the last identifier: the loop over it comes to an end exactly when
      its end lies below, because the counter wraps around before it could exceed the end. */
  lemma RangeLoopEndsIff(range: Range)
    requires range.start <= range.end <= MAX_PACKET_ID
    ensures (exists n: nat :: Counter(range.start, n) > range.end) <==> range.end < MAX_PACKET_ID
  {
    assert Counter(range.start, MAX_PACKET_ID - range.start) == MAX_PACKET_ID;
  }

  lemma CoversNextRange(ranges: seq<Range>, i: nat, id: nat)
    requires i < |ranges|
    ensures Covers(Spans(ranges[..i + 1]), id) <==>
            Covers(Spans(ranges[..i]), id) || ranges[i].start <= id <= ranges[i].end
  {
    assert Spans(ranges[..i + 1]) == Spans(ranges[..i]) + [Interval(ranges[i].start, ranges[i].end + 1)];
    CoversAppend(Spans(ranges[..i]), Interval(ranges[i].start, ranges[i].end + 1), id);
  }

  lemma RangesInRange(ranges: seq<Range>, packetIDs: seq<nat>)
    requires forall x :: Covers(Spans(ranges), x) <==> x in packetIDs
    requires forall i :: 0 <= i < |ranges| ==> ranges[i].start <= ranges[i].end
    requires forall id :: id in packetIDs ==> id < MAX_PACKET_ID
    ensures forall i :: 0 <= i < |ranges| ==> ranges[i].end < MAX_PACKET_ID
  {
    forall i | 0 <= i < |ranges|
      ensures ranges[i].end < MAX_PACKET_ID
    {
      assert Spans(ranges)[i].start <= ranges[i].end < Spans(ranges)[i].end;
      assert Covers(Spans(ranges), ranges[i].end);
    }
  }

  /** The round trip: a frame generated for some packets, in either form, acknowledges at the
      sender exactly those of them that were still unacknowledged, and a replay of the frame
      acknowledges nothing more. */
  method AckRoundTrip(receiver: PathAckState, sender: PathAckState, packetIDs: seq<nat>, rtt: int, now: int)
      returns (first: seq<nat>, replay: seq<nat>)
    requires packetIDs != []
    requires receiver.batchingEnabled && |packetIDs| >= receiver.batchingThreshold ==>
               forall id :: id in packetIDs ==> id < MAX_PACKET_ID
    requires receiver != sender && receiver.congestion != sender.congestion
    requires sender.Valid() && sender.Credited()
    modifies receiver, sender, sender.congestion
    ensures forall id :: id in first <==>
              id in packetIDs && id in old(sender.sentPackets) && !old(sender.sentPackets)[id]
    ensures replay == []
    ensures sender.Valid() && sender.Credited()
    ensures sender.congestion.bytesAcked == old(sender.congestion.bytesAcked) + MSS * |first|
  {
    var r := receiver.GenerateAck(packetIDs);
    ghost var before := sender.sentPackets;
    first := sender.ProcessReceivedAck(r.frame, rtt, now);
    ghost var after := sender.sentPackets;
    replay := sender.ProcessReceivedAck(r.frame, rtt, now);
    NonEmptyHasMember(replay);
  }
}
