/** Reassembly by byte offset with a map, in batches collected from several paths. Frames
    are the same as in the reordering manager. */
module ClientAggregator {
  import opened Reassembly
  import opened Reordering
  import opened Maps

  // ---------------------------------------------------------------------------
  // The aggregated stream, as a value

  datatype Aggregate = Aggregate(expected: nat, buffer: map<nat, Frame>, complete: bool)

  /** Puts the frames of a batch into the reorder buffer, one after the other. */
  function Store(buffer: map<nat, Frame>, frames: seq<Frame>, duplicateDetection: bool): map<nat, Frame>
  {
    if frames == [] then buffer
    else
      var n := |frames| - 1;
      var b := Store(buffer, frames[..n], duplicateDetection);
      if duplicateDetection && frames[n].offset in b then b else b[frames[n].offset := frames[n]]
  }

  /** How many frames of a batch are stored ahead of the expected offset or behind it. */
  function OutOfOrder(buffer: map<nat, Frame>, frames: seq<Frame>, duplicateDetection: bool, expected: nat): nat
  {
    if frames == [] then 0
    else
      var n := |frames| - 1;
      var o := frames[n].offset;
      var isStored := !(duplicateDetection && o in Store(buffer, frames[..n], duplicateDetection));
      OutOfOrder(buffer, frames[..n], duplicateDetection, expected) + if isStored && o != expected then 1 else 0
  }

  /** Every entry is filed under its own offset. */
  ghost predicate Filed(buffer: map<nat, Frame>)
  {
    forall o :: o in buffer ==> buffer[o].offset == o
  }

  /** Takes out the frames that are now in order, up to and including a final one. */
  function Extract(a: Aggregate, output: Bytes): (Aggregate, Bytes)
    requires Filed(a.buffer)
    decreases |a.buffer|
  {
    if a.expected !in a.buffer then (a, output)
    else
      var f := a.buffer[a.expected];
      var a' := Aggregate(a.expected + |f.data|, a.buffer - {f.offset}, a.complete || f.fin);
      if f.fin then (a', output + f.data) else Extract(a', output + f.data)
  }

  lemma {:induction false} StoreKeepsFiled(buffer: map<nat, Frame>, frames: seq<Frame>, duplicateDetection: bool)
    requires Filed(buffer)
    ensures Filed(Store(buffer, frames, duplicateDetection))
  {
    if frames != [] {
      StoreKeepsFiled(buffer, frames[..|frames| - 1], duplicateDetection);
    }
  }

  /** Of several frames at one offset the first is kept, or one that was there before, when duplicates
      are detected; if not, the last. */
  lemma {:induction false} StoredFrame(buffer: map<nat, Frame>, frames: seq<Frame>, duplicateDetection: bool, k: nat)
    requires k < |frames|
    requires if duplicateDetection then
               frames[k].offset !in buffer && forall j :: 0 <= j < k ==> frames[j].offset != frames[k].offset
             else forall j :: k < j < |frames| ==> frames[j].offset != frames[k].offset
    ensures var b := Store(buffer, frames, duplicateDetection);
            frames[k].offset in b && b[frames[k].offset] == frames[k]
  {
    var n := |frames| - 1;
    if k < n {
      StoredFrame(buffer, frames[..n], duplicateDetection, k);
    } else if duplicateDetection {
      StoreAddsOnly(buffer, frames[..n], true, frames[k].offset);
    }
  }

  /** Offsets that no frame of the batch has are left alone, and so, when duplicates are detected, are
      those that were there before. */
  lemma {:induction false} StoreAddsOnly(buffer: map<nat, Frame>, frames: seq<Frame>, duplicateDetection: bool, o: nat)
    requires (duplicateDetection && o in buffer) || forall j :: 0 <= j < |frames| ==> frames[j].offset != o
    ensures var b := Store(buffer, frames, duplicateDetection);
            (o in b <==> o in buffer) && (o in b ==> b[o] == buffer[o])
  {
    if frames != [] {
      StoreAddsOnly(buffer, frames[..|frames| - 1], duplicateDetection, o);
    }
  }

  lemma ExtractStep(a: Aggregate, output: Bytes)
    requires Filed(a.buffer) && a.expected in a.buffer
    ensures var f := a.buffer[a.expected];
            var a' := Aggregate(a.expected + |f.data|, a.buffer - {f.offset}, a.complete || f.fin);
            Extract(a, output) == if f.fin then (a', output + f.data) else Extract(a', output + f.data)
  {
  }

  function ProcessBatch(a: Aggregate, frames: seq<Frame>, duplicateDetection: bool): (Aggregate, Bytes)
    requires Filed(a.buffer)
  {
    StoreKeepsFiled(a.buffer, frames, duplicateDetection);
    Extract(a.(buffer := Store(a.buffer, frames, duplicateDetection)), [])
  }

  // ---------------------------------------------------------------------------
  // The aggregator, restricted to one stream

  class AggregatedStream {
    const duplicateDetection: bool
    var expectedOffset: nat
    var reorderBuffer: map<nat, Frame>
    var isComplete: bool
    var duplicateFrames: nat
    var outOfOrderFrames: nat
    var totalBytesAggregated: nat
    var totalFramesAggregated: nat

    ghost predicate Valid()
      reads this
    {
      Filed(reorderBuffer)
    }

    ghost function View(): Aggregate
      reads this
    {
      Aggregate(expectedOffset, reorderBuffer, isComplete)
    }

    constructor (duplicateDetection: bool)
      ensures Valid() && View() == Aggregate(0, map[], false)
      ensures this.duplicateDetection == duplicateDetection
    {
      this.duplicateDetection := duplicateDetection;
      expectedOffset, reorderBuffer, isComplete := 0, map[], false;
      duplicateFrames, outOfOrderFrames, totalBytesAggregated, totalFramesAggregated := 0, 0, 0, 0;
    }

    /** Ordered mode. Every frame of a batch is either counted as a duplicate or stored. */
    method ProcessAggregatedFrames(frames: seq<Frame>) returns (orderedData: Bytes)
      requires Valid()
      modifies this
      ensures Valid()
      ensures (View(), orderedData) == ProcessBatch(old(View()), frames, duplicateDetection)
      ensures totalBytesAggregated == old(totalBytesAggregated) + |orderedData|
      ensures totalFramesAggregated == old(totalFramesAggregated) + |frames|
      ensures duplicateFrames == old(duplicateFrames)
                + if duplicateDetection
                  then |frames| - (|Store(old(reorderBuffer), frames, true)| - |old(reorderBuffer)|) else 0
      ensures outOfOrderFrames == old(outOfOrderFrames)
                + OutOfOrder(old(reorderBuffer), frames, duplicateDetection, old(expectedOffset))
    {
      StoreFrames(frames);
      StoreKeepsFiled(old(reorderBuffer), frames, duplicateDetection);
      hide Store, Extract, OutOfOrder;
      orderedData := ExtractOrderedData();
      totalBytesAggregated := totalBytesAggregated + |orderedData|;
      totalFramesAggregated := totalFramesAggregated + |frames|;
    }

    method StoreFrames(frames: seq<Frame>)
      modifies `reorderBuffer, `duplicateFrames, `outOfOrderFrames
      ensures reorderBuffer == Store(old(reorderBuffer), frames, duplicateDetection)
      ensures duplicateFrames == old(duplicateFrames)
                + if duplicateDetection then |frames| - (|reorderBuffer| - |old(reorderBuffer)|) else 0
      ensures outOfOrderFrames == old(outOfOrderFrames)
                + OutOfOrder(old(reorderBuffer), frames, duplicateDetection, expectedOffset)
    {
      for n := 0 to |frames|
        invariant reorderBuffer == Store(old(reorderBuffer), frames[..n], duplicateDetection)
        invariant duplicateFrames == old(duplicateFrames)
                    + if duplicateDetection then n - (|reorderBuffer| - |old(reorderBuffer)|) else 0
        invariant outOfOrderFrames == old(outOfOrderFrames)
                    + OutOfOrder(old(reorderBuffer), frames[..n], duplicateDetection, expectedOffset)
      {
        assert frames[..n + 1][..n] == frames[..n];
        if duplicateDetection && frames[n].offset in reorderBuffer {
          duplicateFrames := duplicateFrames + 1;
        } else {
          SizeAfterSet(reorderBuffer, frames[n].offset, frames[n]);
          reorderBuffer := reorderBuffer[frames[n].offset := frames[n]];
          if frames[n].offset != expectedOffset {
            outOfOrderFrames := outOfOrderFrames + 1;
          }
        }
      }
      assert frames[..|frames|] == frames;
    }

    method ExtractOrderedData() returns (orderedData: Bytes)
      requires Valid()
      modifies this`expectedOffset, this`reorderBuffer, this`isComplete
      ensures Valid()
      ensures (View(), orderedData) == Extract(old(View()), [])
    {
      orderedData := [];
      while expectedOffset in reorderBuffer
        invariant Valid()
        invariant Extract(View(), orderedData) == Extract(old(View()), [])
        decreases |reorderBuffer|
      {
        var frame := reorderBuffer[expectedOffset];
        orderedData := orderedData + frame.data;
        expectedOffset := expectedOffset + |frame.data|;
        reorderBuffer := reorderBuffer - {frame.offset};
        if frame.fin {
          isComplete := true;
          return;
        }
      }
    }
  }

  // ---------------------------------------------------------------------------
  // Slices of one stream

  ghost predicate SlicesOf(buffer: map<nat, Frame>, stream: Bytes)
  {
    forall o :: o in buffer ==> SliceOf(buffer[o], stream)
  }

  lemma {:induction false} StoreKeepsSlices(buffer: map<nat, Frame>, frames: seq<Frame>, duplicateDetection: bool,
                                            stream: Bytes)
    requires SlicesOf(buffer, stream) && forall f :: f in frames ==> SliceOf(f, stream)
    ensures SlicesOf(Store(buffer, frames, duplicateDetection), stream)
  {
    if frames != [] {
      var n := |frames| - 1;
      assert frames[n] in frames;
      StoreKeepsSlices(buffer, frames[..n], duplicateDetection, stream);
    }
  }

  lemma {:induction false} ExtractDeliversPrefix(a: Aggregate, output: Bytes, delivered: Bytes, stream: Bytes)
    requires Filed(a.buffer) && SlicesOf(a.buffer, stream)
    requires a.expected <= |stream| && delivered + output == stream[..a.expected]
    requires a.complete ==> a.expected == |stream|
    ensures var (a', output') := Extract(a, output);
            && Filed(a'.buffer) && SlicesOf(a'.buffer, stream)
            && a'.expected <= |stream| && delivered + output' == stream[..a'.expected]
            && (a'.complete ==> a'.expected == |stream|)
    decreases |a.buffer|
  {
    if a.expected in a.buffer {
      var f := a.buffer[a.expected];
      assert stream[..a.expected] + f.data == stream[..a.expected + |f.data|];
      assert delivered + (output + f.data) == delivered + output + f.data;
      var a' := Aggregate(a.expected + |f.data|, a.buffer - {f.offset}, a.complete || f.fin);
      if !f.fin {
        ExtractDeliversPrefix(a', output + f.data, delivered, stream);
      }
    }
  }

  /** Whatever slices of one stream arrive, in whatever batches, the bytes returned so far
      are the prefix of the stream up to the expected offset. */
  lemma BatchDeliversPrefix(a: Aggregate, frames: seq<Frame>, duplicateDetection: bool, delivered: Bytes, stream: Bytes)
    requires Filed(a.buffer) && SlicesOf(a.buffer, stream)
    requires a.expected <= |stream| && delivered == stream[..a.expected]
    requires a.complete ==> a.expected == |stream|
    requires forall f :: f in frames ==> SliceOf(f, stream)
    ensures var (a', output) := ProcessBatch(a, frames, duplicateDetection);
            && Filed(a'.buffer) && SlicesOf(a'.buffer, stream)
            && a'.expected <= |stream| && delivered + output == stream[..a'.expected]
            && (a'.complete ==> a'.expected == |stream|)
  {
    StoreKeepsFiled(a.buffer, frames, duplicateDetection);
    StoreKeepsSlices(a.buffer, frames, duplicateDetection, stream);
    ExtractDeliversPrefix(a.(buffer := Store(a.buffer, frames, duplicateDetection)), [], delivered, stream);
  }

  /** Aggregating batches of frames one after the other: the aggregate and all bytes returned. */
  ghost function Aggregated(batches: seq<seq<Frame>>, duplicateDetection: bool): (r: (Aggregate, Bytes))
    ensures Filed(r.0.buffer)
  {
    if batches == [] then (Aggregate(0, map[], false), [])
    else
      var last := |batches| - 1;
      var (a, delivered) := Aggregated(batches[..last], duplicateDetection);
      var (a', output) := ProcessBatch(a, batches[last], duplicateDetection);
      StoreKeepsFiled(a.buffer, batches[last], duplicateDetection);
      ExtractKeepsFiled(a.(buffer := Store(a.buffer, batches[last], duplicateDetection)), []);
      (a', delivered + output)
  }

  /** Over whole runs: whatever slices of one stream arrive in whatever batches, all the bytes returned
      are the prefix of the stream up to the expected offset, and completion means the whole stream. */
  lemma {:induction false} BatchesDeliverPrefix(batches: seq<seq<Frame>>, duplicateDetection: bool, stream: Bytes)
    requires forall k, f :: 0 <= k < |batches| && f in batches[k] ==> SliceOf(f, stream)
    ensures var (a, delivered) := Aggregated(batches, duplicateDetection);
            && SlicesOf(a.buffer, stream)
            && a.expected <= |stream| && delivered == stream[..a.expected]
            && (a.complete ==> delivered == stream)
  {
    if batches != [] {
      var last := |batches| - 1;
      var (a, delivered) := Aggregated(batches[..last], duplicateDetection);
      forall k, f | 0 <= k < last && f in batches[..last][k] ensures SliceOf(f, stream) {
        assert f in batches[k];
      }
      BatchesDeliverPrefix(batches[..last], duplicateDetection, stream);
      BatchDeliversPrefix(a, batches[last], duplicateDetection, delivered, stream);
    }
  }

  // ---------------------------------------------------------------------------
  // Runs over a common segmentation

  /** The aggregate has delivered segments 0..n-1 and holds every later one that arrived. */
  ghost predicate SegmentInv(a: Aggregate, segments: seq<Bytes>, arrived: set<nat>, n: nat)
  {
    && n <= |segments|
    && Filed(a.buffer)
    && a.expected == Offset(segments, n)
    && (a.complete <==> n == |segments| && n > 0)
    && (forall i :: i in arrived ==> i < |segments|)
    && (forall i: nat :: i < n ==> i in arrived)
    && (forall i :: i in arrived && n <= i ==> Offset(segments, i) in a.buffer)
    && (forall o :: o in a.buffer ==> exists i :: i in arrived && FromSegment(a.buffer[o], segments, i))
  }

  ghost function Indices(order: seq<nat>): set<nat>
  {
    set i | i in order
  }

  ghost function SegmentFrames(segments: seq<Bytes>, order: seq<nat>): seq<Frame>
    requires InRange(order, |segments|)
  {
    seq(|order|, k requires 0 <= k < |order| => SegmentFrame(segments, order[k]))
  }

  lemma {:induction false} StoreSegments(a: Aggregate, segments: seq<Bytes>, arrived: set<nat>, n: nat, order: seq<nat>,
                                         duplicateDetection: bool)
    requires SegmentInv(a, segments, arrived, n) && InRange(order, |segments|)
    ensures SegmentInv(a.(buffer := Store(a.buffer, SegmentFrames(segments, order), duplicateDetection)), segments,
                       arrived + Indices(order), n)
  {
    hide SegmentInv;
    if order == [] {
      assert arrived + Indices(order) == arrived;
    } else {
      var last := |order| - 1;
      StoreSegments(a, segments, arrived, n, order[..last], duplicateDetection);
      assert SegmentFrames(segments, order)[..last] == SegmentFrames(segments, order[..last]);
      assert order == order[..last] + [order[last]];
      assert Indices(order) == Indices(order[..last]) + {order[last]};
      var b := a.(buffer := Store(a.buffer, SegmentFrames(segments, order[..last]), duplicateDetection));
      StoreOneSegment(b, segments, arrived + Indices(order[..last]), n, order[last], duplicateDetection);
      assert arrived + Indices(order) == arrived + Indices(order[..last]) + {order[last]};
    }
  }

  lemma StoreOneSegment(a: Aggregate, segments: seq<Bytes>, arrived: set<nat>, n: nat, i: nat, duplicateDetection: bool)
    requires SegmentInv(a, segments, arrived, n) && i < |segments|
    ensures var f := SegmentFrame(segments, i);
            var buffer := if duplicateDetection && f.offset in a.buffer then a.buffer else a.buffer[f.offset := f];
            SegmentInv(a.(buffer := buffer), segments, arrived + {i}, n)
  {
    var f := SegmentFrame(segments, i);
    var buffer := if duplicateDetection && f.offset in a.buffer then a.buffer else a.buffer[f.offset := f];
    assert FromSegment(f, segments, i);
    forall o | o in buffer
      ensures exists j :: j in arrived + {i} && FromSegment(buffer[o], segments, j)
    {
      if buffer[o] == f {
        assert i in arrived + {i};
      } else {
        var j :| j in arrived && FromSegment(a.buffer[o], segments, j);
        assert j in arrived + {i};
      }
    }
  }

  lemma {:induction false} ExtractSegments(a: Aggregate, output: Bytes, delivered: Bytes, segments: seq<Bytes>,
                                           arrived: set<nat>, n: nat)
      returns (m: nat, last: Aggregate, output': Bytes)
    requires NonEmptySegments(segments) && SegmentInv(a, segments, arrived, n)
    requires delivered + output == Concat(segments[..n])
    ensures (last, output') == Extract(a, output)
    ensures SegmentInv(last, segments, arrived, m) && IsMex(m, arrived)
    ensures m <= |segments| && delivered + output' == Concat(segments[..m])
    decreases |a.buffer|
  {
    if a.expected !in a.buffer {
      StuckAtMex(a, segments, arrived, n);
      return n, a, output;
    }
    TakeSegment(a, segments, arrived, n, output, delivered);
    ExtractStep(a, output);
    var f := a.buffer[a.expected];
    var a' := Aggregate(a.expected + |f.data|, a.buffer - {f.offset}, a.complete || f.fin);
    if f.fin {
      StuckAtMex(a', segments, arrived, n + 1);
      return n + 1, a', output + f.data;
    }
    m, last, output' := ExtractSegments(a', output + f.data, delivered, segments, arrived, n + 1);
  }

  lemma StuckAtMex(a: Aggregate, segments: seq<Bytes>, arrived: set<nat>, n: nat)
    requires SegmentInv(a, segments, arrived, n)
    requires a.expected !in a.buffer || n == |segments|
    ensures IsMex(n, arrived)
  {
  }

  lemma DueSegment(a: Aggregate, segments: seq<Bytes>, arrived: set<nat>, n: nat)
    requires NonEmptySegments(segments) && SegmentInv(a, segments, arrived, n) && a.expected in a.buffer
    ensures n in arrived && a.buffer[a.expected] == SegmentFrame(segments, n)
  {
    var i :| i in arrived && FromSegment(a.buffer[a.expected], segments, i);
    OffsetIsInjective(segments, i, n);
  }

  lemma TakeSegment(a: Aggregate, segments: seq<Bytes>, arrived: set<nat>, n: nat, output: Bytes, delivered: Bytes)
    requires NonEmptySegments(segments) && SegmentInv(a, segments, arrived, n) && a.expected in a.buffer
    requires delivered + output == Concat(segments[..n])
    ensures var f := a.buffer[a.expected];
            && n < |segments|
            && (f.fin <==> n + 1 == |segments|)
            && delivered + (output + f.data) == Concat(segments[..n + 1])
            && SegmentInv(Aggregate(a.expected + |f.data|, a.buffer - {f.offset}, a.complete || f.fin),
                          segments, arrived, n + 1)
  {
    DueSegment(a, segments, arrived, n);
    ConcatStep(segments, n);
    var f := a.buffer[a.expected];
    assert delivered + (output + f.data) == delivered + output + f.data;
    forall i | i in arrived && n + 1 <= i
      ensures Offset(segments, i) != Offset(segments, n)
    {
      OffsetsIncrease(segments, n, i);
    }
  }

  /** Aggregating batches of segments; the third result is the set of indices that arrived. */
  ghost function RunBatches(segments: seq<Bytes>, batches: seq<seq<nat>>, duplicateDetection: bool)
      : (r: (Aggregate, Bytes, set<nat>))
    requires forall k :: 0 <= k < |batches| ==> InRange(batches[k], |segments|)
    ensures Filed(r.0.buffer)
  {
    if batches == [] then (Aggregate(0, map[], false), [], {})
    else
      var last := |batches| - 1;
      var (a, delivered, arrived) := RunBatches(segments, batches[..last], duplicateDetection);
      var (a', output) := ProcessBatch(a, SegmentFrames(segments, batches[last]), duplicateDetection);
      StoreKeepsFiled(a.buffer, SegmentFrames(segments, batches[last]), duplicateDetection);
      ExtractKeepsFiled(a.(buffer := Store(a.buffer, SegmentFrames(segments, batches[last]), duplicateDetection)), []);
      (a', delivered + output, arrived + Indices(batches[last]))
  }

  lemma {:induction false} ExtractKeepsFiled(a: Aggregate, output: Bytes)
    requires Filed(a.buffer)
    ensures Filed(Extract(a, output).0.buffer)
    decreases |a.buffer|
  {
    if a.expected in a.buffer {
      var f := a.buffer[a.expected];
      if !f.fin {
        ExtractKeepsFiled(Aggregate(a.expected + |f.data|, a.buffer - {f.offset}, a.complete), output + f.data);
      }
    }
  }

  /** Over every batching and order of arrival, with or without duplicate detection, the bytes
      returned are exactly the longest prefix of segments that have arrived. */
  lemma {:induction false} DeliversLongestPrefix(segments: seq<Bytes>, batches: seq<seq<nat>>, duplicateDetection: bool)
      returns (n: nat)
    requires NonEmptySegments(segments)
    requires forall k :: 0 <= k < |batches| ==> InRange(batches[k], |segments|)
    ensures var (a, delivered, arrived) := RunBatches(segments, batches, duplicateDetection);
            && IsMex(n, arrived)
            && SegmentInv(a, segments, arrived, n)
            && delivered == Concat(segments[..n])
  {
    if batches == [] {
      n := 0;
    } else {
      var last := |batches| - 1;
      n := DeliversLongestPrefix(segments, batches[..last], duplicateDetection);
      var (a, delivered, arrived) := RunBatches(segments, batches[..last], duplicateDetection);
      StoreSegments(a, segments, arrived, n, batches[last], duplicateDetection);
      var stored := Store(a.buffer, SegmentFrames(segments, batches[last]), duplicateDetection);
      assert delivered + [] == delivered;
      var last', output;
      var all := arrived + Indices(batches[last]);
      n, last', output := ExtractSegments(a.(buffer := stored), [], delivered, segments, all, n);
    }
  }

  /** The sorted list and the map are the same reassembler: whenever both have taken the same
      segments, in any orders and batches, they have delivered the same bytes and agree on
      completion. */
  lemma AgreesWithReordering(segments: seq<Bytes>, order: seq<nat>, maxSize: int, batches: seq<seq<nat>>,
                             duplicateDetection: bool)
    requires NonEmptySegments(segments) && InRange(order, |segments|)
    requires forall k :: 0 <= k < |batches| ==> InRange(batches[k], |segments|)
    requires RunSegments(segments, order, maxSize).1 == RunBatches(segments, batches, duplicateDetection).2
    ensures RunSegments(segments, order, maxSize).0.data == RunBatches(segments, batches, duplicateDetection).1
    ensures RunSegments(segments, order, maxSize).0.final
         == RunBatches(segments, batches, duplicateDetection).0.complete
  {
    var m := Reordering.DeliversLongestPrefix(segments, order, maxSize);
    var n := DeliversLongestPrefix(segments, batches, duplicateDetection);
    MexIsUnique(m, n, RunSegments(segments, order, maxSize).1);
  }
}
