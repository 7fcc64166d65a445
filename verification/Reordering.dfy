/** Reassembly by byte offset with a sorted frame buffer, for one logical stream. */
module Reordering {
  import opened Intervals
  import opened Reassembly

  datatype Frame = Frame(offset: nat, data: Bytes, fin: bool)

  // ---------------------------------------------------------------------------
  // The sorted frame list, as a value

  ghost predicate Sorted(frames: seq<Frame>)
  {
    forall i, j :: 0 <= i < j < |frames| ==> frames[i].offset <= frames[j].offset
  }

  /** Index of the first frame that starts strictly after offset. */
  function UpperBound(frames: seq<Frame>, offset: nat): (i: nat)
    ensures i <= |frames|
  {
    if frames == [] || offset < frames[0].offset then 0 else 1 + UpperBound(frames[1..], offset)
  }

  function Inserted(frames: seq<Frame>, f: Frame): seq<Frame>
  {
    var i := UpperBound(frames, f.offset);
    frames[..i] + [f] + frames[i..]
  }

  /** Index of the first frame that starts exactly at offset, or |frames|. */
  function Find(frames: seq<Frame>, offset: nat): (i: nat)
    ensures i <= |frames|
    ensures i < |frames| ==> frames[i].offset == offset
    ensures forall k :: 0 <= k < i ==> frames[k].offset != offset
  {
    if frames == [] || frames[0].offset == offset then 0 else 1 + Find(frames[1..], offset)
  }

  function RemoveAt(frames: seq<Frame>, i: nat): seq<Frame>
    requires i < |frames|
  {
    frames[..i] + frames[i + 1..]
  }

  lemma {:induction false} UpperBoundSplits(frames: seq<Frame>, offset: nat)
    requires Sorted(frames)
    ensures forall k :: 0 <= k < UpperBound(frames, offset) ==> frames[k].offset <= offset
    ensures forall k :: UpperBound(frames, offset) <= k < |frames| ==> offset < frames[k].offset
  {
    if frames != [] && frames[0].offset <= offset {
      UpperBoundSplits(frames[1..], offset);
      forall k | 0 <= k < |frames|
        ensures k < UpperBound(frames, offset) <==> frames[k].offset <= offset
      {
        if k > 0 {
          assert frames[k] == frames[1..][k - 1];
        }
      }
    }
  }

  lemma InsertedIsSorted(frames: seq<Frame>, f: Frame)
    requires Sorted(frames)
    ensures Sorted(Inserted(frames, f))
  {
    UpperBoundSplits(frames, f.offset);
  }

  lemma InsertedElements(frames: seq<Frame>, f: Frame)
    ensures multiset(Inserted(frames, f)) == multiset(frames) + multiset{f}
  {
    hide UpperBound;
    var i := UpperBound(frames, f.offset);
    assert frames == frames[..i] + frames[i..];
  }

  lemma RemoveAtKeepsSorted(frames: seq<Frame>, i: nat)
    requires Sorted(frames) && i < |frames|
    ensures Sorted(RemoveAt(frames, i))
  {
  }

  // ---------------------------------------------------------------------------
  // The reordering context, as a value

  datatype Context = Context(frames: seq<Frame>, data: Bytes, next: nat, final: bool, total: nat)

  datatype Outcome = Accepted | BufferFull

  function Append(c: Context, f: Frame): Context
  {
    var next := f.offset + |f.data|;
    c.(data := c.data + f.data, next := next, final := c.final || f.fin, total := if f.fin then next else c.total)
  }

  function Drain(c: Context): Context
    decreases |c.frames|
  {
    var i := Find(c.frames, c.next);
    if i == |c.frames| then c
    else Drain(Append(c.(frames := RemoveAt(c.frames, i)), c.frames[i]))
  }

  lemma DrainStep(c: Context)
    ensures var i := Find(c.frames, c.next);
            Drain(c) == if i == |c.frames| then c
                        else Drain(Append(c.(frames := RemoveAt(c.frames, i)), c.frames[i]))
  {
  }

  function ProcessFrame(c: Context, f: Frame, maxSize: int): (Context, Outcome)
  {
    if f.offset == c.next then (Drain(Append(c, f)), Accepted)
    else if |c.frames| >= maxSize then (c, BufferFull)
    else (c.(frames := Inserted(c.frames, f)), Accepted)
  }

  // ---------------------------------------------------------------------------
  // The frame buffer

  class FrameBuffer {
    var frames: seq<Frame>
    var currentSize: int
    const maxSize: int

    ghost predicate Valid()
      reads this
    {
      Sorted(frames) && currentSize == |frames|
    }

    constructor (maxSize: int)
      ensures Valid() && frames == [] && this.maxSize == maxSize
    {
      frames, currentSize, this.maxSize := [], 0, maxSize;
    }

    method AddFrame(frame: Frame) returns (r: Outcome)
      requires Valid()
      modifies this
      ensures Valid()
      ensures r == if |old(frames)| >= maxSize then BufferFull else Accepted
      ensures frames == if r.Accepted? then Inserted(old(frames), frame) else old(frames)
      ensures multiset(frames) == multiset(old(frames)) + (if r.Accepted? then multiset{frame} else multiset{})
    {
      if currentSize >= maxSize {
        return BufferFull;
      }
      InsertedIsSorted(frames, frame);
      InsertedElements(frames, frame);
      var i := 0;
      while i < |frames|
        invariant 0 <= i <= |frames| && frames == old(frames)
        invariant UpperBound(frames, frame.offset) == i + UpperBound(frames[i..], frame.offset)
      {
        if frame.offset < frames[i].offset {
          break;
        }
        i := i + 1;
      }
      frames := frames[..i] + [frame] + frames[i..];
      currentSize := currentSize + 1;
      return Accepted;
    }

    /** Removes the first frame that starts at expectedOffset. The scan may stop at the
        first frame that starts later because the list is sorted. */
    method GetNextInOrderFrame(expectedOffset: nat) returns (found: bool, frame: Frame)
      requires Valid()
      modifies this
      ensures Valid()
      ensures found <==> Find(old(frames), expectedOffset) < |old(frames)|
      ensures !found ==> frames == old(frames)
      ensures found ==> var i := Find(old(frames), expectedOffset);
                frame == old(frames)[i] && frames == RemoveAt(old(frames), i)
    {
      var i := 0;
      frame := Frame(0, [], false);
      while i < |frames|
        invariant 0 <= i <= |frames| && frames == old(frames) && currentSize == old(currentSize)
        invariant forall k :: 0 <= k < i ==> frames[k].offset != expectedOffset
        invariant Find(frames, expectedOffset) == i + Find(frames[i..], expectedOffset)
      {
        if frames[i].offset == expectedOffset {
          RemoveAtKeepsSorted(frames, i);
          frame := frames[i];
          frames := frames[..i] + frames[i + 1..];
          currentSize := currentSize - 1;
          return true, frame;
        }
        if frames[i].offset > expectedOffset {
          break;
        }
        i := i + 1;
      }
      return false, frame;
    }
  }

  // ---------------------------------------------------------------------------
  // The reordering manager, restricted to one stream

  class ReorderingContext {
    const frameBuffer: FrameBuffer
    var reassembledData: Bytes
    var nextOffset: nat
    var maxOffset: nat
    var finalFrameReceived: bool
    var totalExpectedBytes: nat
    var gaps: seq<Interval>
    var framesReordered: nat
    var reassemblyOperations: nat

    ghost predicate Valid()
      reads this, frameBuffer
    {
      frameBuffer.Valid() && nextOffset <= maxOffset
    }

    ghost function View(): Context
      reads this, frameBuffer
    {
      Context(frameBuffer.frames, reassembledData, nextOffset, finalFrameReceived, totalExpectedBytes)
    }

    constructor (maxSize: int)
      ensures Valid() && fresh(frameBuffer) && frameBuffer.maxSize == maxSize
      ensures View() == Context([], [], 0, false, 0) && gaps == []
    {
      frameBuffer := new FrameBuffer(maxSize);
      reassembledData, nextOffset, maxOffset := [], 0, 0;
      finalFrameReceived, totalExpectedBytes, gaps := false, 0, [];
      framesReordered, reassemblyOperations := 0, 0;
    }

    method ProcessInOrderFrame(frame: Frame)
      requires Valid()
      modifies this
      ensures Valid()
      ensures View() == Append(old(View()), frame)
      ensures maxOffset == if nextOffset > old(maxOffset) then nextOffset else old(maxOffset)
      ensures framesReordered == old(framesReordered) && reassemblyOperations == old(reassemblyOperations)
      ensures gaps == old(gaps)
    {
      reassembledData := reassembledData + frame.data;
      nextOffset := frame.offset + |frame.data|;
      if nextOffset > maxOffset {
        maxOffset := nextOffset;
      }
      if frame.fin {
        finalFrameReceived := true;
        totalExpectedBytes := nextOffset;
      }
    }

    /** Consumes one buffered frame if one is due. */
    method ProcessNextBufferedFrame() returns (found: bool)
      requires Valid()
      modifies this, frameBuffer
      ensures Valid()
      ensures Drain(View()) == Drain(old(View()))
      ensures !found ==> View() == old(View()) == Drain(View())
      ensures |frameBuffer.frames| == |old(frameBuffer.frames)| - (if found then 1 else 0)
      ensures framesReordered == old(framesReordered) + (if found then 1 else 0)
      ensures reassemblyOperations == old(reassemblyOperations) && gaps == old(gaps)
    {
      hide Drain, Find, Append, Sorted;
      DrainStep(View());
      var frame;
      found, frame := frameBuffer.GetNextInOrderFrame(nextOffset);
      if found {
        ProcessInOrderFrame(frame);
        framesReordered := framesReordered + 1;
      }
    }

    method ProcessBufferedFrames()
      requires Valid()
      modifies this, frameBuffer
      ensures Valid()
      ensures View() == Drain(old(View()))
      ensures framesReordered - old(framesReordered) == |old(frameBuffer.frames)| - |frameBuffer.frames|
      ensures reassemblyOperations == old(reassemblyOperations) && gaps == old(gaps)
    {
      hide Drain, Find, Append, Sorted;
      while true
        invariant Valid()
        invariant Drain(View()) == Drain(old(View()))
        invariant framesReordered - old(framesReordered) == |old(frameBuffer.frames)| - |frameBuffer.frames|
        invariant reassemblyOperations == old(reassemblyOperations) && gaps == old(gaps)
        decreases |frameBuffer.frames|
      {
        var found := ProcessNextBufferedFrame();
        if !found {
          break;
        }
      }
    }

    method ProcessIncomingFrame(frame: Frame) returns (r: Outcome)
      requires Valid()
      modifies this, frameBuffer
      ensures Valid()
      ensures (View(), r) == ProcessFrame(old(View()), frame, frameBuffer.maxSize)
      ensures reassemblyOperations == old(reassemblyOperations) && gaps == old(gaps)
    {
      if frame.offset == nextOffset {
        ProcessInOrderFrame(frame);
        ProcessBufferedFrames();
        r := Accepted;
      } else {
        r := frameBuffer.AddFrame(frame);
      }
    }

    /** Succeeds exactly when a final frame has been consumed and no gap is recorded. */
    method ReassembleStreamData() returns (ok: bool, data: Bytes)
      requires Valid()
      modifies this, frameBuffer
      ensures Valid()
      ensures View() == Drain(old(View()))
      ensures ok <==> finalFrameReceived && gaps == []
      ensures gaps == old(gaps)
      ensures data == if ok then reassembledData else []
      ensures reassemblyOperations == old(reassemblyOperations) + (if ok then 1 else 0)
    {
      ProcessBufferedFrames();
      if !finalFrameReceived {
        return false, [];
      }
      if |gaps| > 0 {
        return false, [];
      }
      reassemblyOperations := reassemblyOperations + 1;
      return true, reassembledData;
    }
  }

  // ---------------------------------------------------------------------------
  // Whole runs

  function Init(): Context
  {
    Context([], [], 0, false, 0)
  }

  function Run(frames: seq<Frame>, maxSize: int): Context
  {
    if frames == [] then Init()
    else ProcessFrame(Run(frames[..|frames| - 1], maxSize), frames[|frames| - 1], maxSize).0
  }

  /** A piece of the stream; a final piece reaches the end of the stream. */
  ghost predicate SliceOf(f: Frame, stream: Bytes)
  {
    && f.offset + |f.data| <= |stream|
    && f.data == stream[f.offset..f.offset + |f.data|]
    && (f.fin ==> f.offset + |f.data| == |stream|)
  }

  ghost predicate PrefixInv(c: Context, stream: Bytes)
  {
    && Sorted(c.frames)
    && (forall f :: f in c.frames ==> SliceOf(f, stream))
    && c.next <= |stream|
    && c.data == stream[..c.next]
    && (c.final ==> c.next == |stream| == c.total)
  }

  ghost predicate NothingDue(c: Context)
  {
    forall f :: f in c.frames ==> f.offset != c.next
  }

  lemma AppendKeepsPrefix(c: Context, f: Frame, stream: Bytes)
    requires PrefixInv(c, stream) && SliceOf(f, stream) && f.offset == c.next
    ensures PrefixInv(Append(c, f), stream)
  {
    assert stream[..c.next] + stream[c.next..c.next + |f.data|] == stream[..c.next + |f.data|];
  }

  /** The in-order test and the append take the lock separately. The append keeps the prefix
      property exactly when the test still holds at that moment: a frame tested against an
      older nextOffset corrupts the stream. */
  lemma AppendNeedsFreshTest(c: Context, f: Frame, stream: Bytes)
    requires PrefixInv(c, stream) && SliceOf(f, stream)
    ensures PrefixInv(Append(c, f), stream) <==> f.offset == c.next
  {
    if f.offset == c.next {
      AppendKeepsPrefix(c, f, stream);
    } else {
      assert |Append(c, f).data| == c.next + |f.data|;
    }
  }

  /** Two copies of a frame that both passed the test before either was appended leave the stream
      intact exactly when the frame is empty. */
  lemma DoubleAppendIff(c: Context, f: Frame, stream: Bytes)
    requires PrefixInv(c, stream) && SliceOf(f, stream) && f.offset == c.next
    ensures PrefixInv(Append(Append(c, f), f), stream) <==> f.data == []
  {
    AppendKeepsPrefix(c, f, stream);
    AppendNeedsFreshTest(Append(c, f), f, stream);
  }

  lemma {:induction false} DrainKeepsPrefix(c: Context, stream: Bytes)
    requires PrefixInv(c, stream)
    ensures PrefixInv(Drain(c), stream) && NothingDue(Drain(c))
    decreases |c.frames|
  {
    var i := Find(c.frames, c.next);
    if i < |c.frames| {
      RemoveAtKeepsSorted(c.frames, i);
      var c' := c.(frames := RemoveAt(c.frames, i));
      assert forall f :: f in c'.frames ==> f in c.frames;
      AppendKeepsPrefix(c', c.frames[i], stream);
      DrainKeepsPrefix(Append(c', c.frames[i]), stream);
    }
  }

  lemma ProcessKeepsPrefix(c: Context, f: Frame, maxSize: int, stream: Bytes)
    requires PrefixInv(c, stream) && NothingDue(c) && SliceOf(f, stream)
    ensures PrefixInv(ProcessFrame(c, f, maxSize).0, stream) && NothingDue(ProcessFrame(c, f, maxSize).0)
  {
    if f.offset == c.next {
      AppendKeepsPrefix(c, f, stream);
      DrainKeepsPrefix(Append(c, f), stream);
    } else {
      InsertedIsSorted(c.frames, f);
      assert forall g :: g in Inserted(c.frames, f) ==> g in c.frames || g == f;
    }
  }

  /** Whatever slices of one stream arrive (overlapping, repeated, empty or rejected by a full
      buffer), the reassembled data is the prefix of the stream up to nextOffset, the buffer
      stays sorted, and no buffered frame starts at nextOffset. */
  lemma {:induction false} ReassembledIsPrefix(frames: seq<Frame>, maxSize: int, stream: Bytes)
    requires forall f :: f in frames ==> SliceOf(f, stream)
    ensures PrefixInv(Run(frames, maxSize), stream) && NothingDue(Run(frames, maxSize))
  {
    if frames != [] {
      var n := |frames| - 1;
      assert frames[n] in frames;
      ReassembledIsPrefix(frames[..n], maxSize, stream);
      ProcessKeepsPrefix(Run(frames[..n], maxSize), frames[n], maxSize, stream);
    }
  }

  /** A stream that reports completion has been reassembled completely. */
  lemma CompleteMeansWholeStream(frames: seq<Frame>, maxSize: int, stream: Bytes)
    requires forall f :: f in frames ==> SliceOf(f, stream)
    ensures var c := Drain(Run(frames, maxSize));
            c.final ==> c.data == stream && c.total == |stream|
  {
    ReassembledIsPrefix(frames, maxSize, stream);
    DrainKeepsPrefix(Run(frames, maxSize), stream);
  }

  lemma {:induction false} DrainRemembersFinal(c: Context)
    ensures c.final ==> Drain(c).final
    ensures !Drain(c).final ==> Drain(c).total == c.total
    decreases |c.frames|
  {
    var i := Find(c.frames, c.next);
    if i < |c.frames| {
      DrainRemembersFinal(Append(c.(frames := RemoveAt(c.frames, i)), c.frames[i]));
    }
  }

  lemma ProcessRemembersFinal(c: Context, f: Frame, maxSize: int)
    ensures c.final ==> ProcessFrame(c, f, maxSize).0.final
    ensures !ProcessFrame(c, f, maxSize).0.final ==> ProcessFrame(c, f, maxSize).0.total == c.total
    ensures f.fin && f.offset == c.next ==> ProcessFrame(c, f, maxSize).0.final
  {
    hide Drain;
    DrainRemembersFinal(Append(c, f));
  }

  /** Completion is never taken back, whatever frames follow, empty ones at the end included, and no
      total is announced before it. */
  lemma {:induction false} CompletionIsRemembered(frames: seq<Frame>, maxSize: int, k: nat)
    requires k <= |frames|
    ensures Run(frames[..k], maxSize).final ==> Run(frames, maxSize).final
    ensures !Run(frames, maxSize).final ==> Run(frames, maxSize).total == 0
    decreases |frames|
  {
    if frames != [] {
      var n := |frames| - 1;
      ProcessRemembersFinal(Run(frames[..n], maxSize), frames[n], maxSize);
      hide ProcessFrame;
      if k <= n {
        assert frames[..n][..k] == frames[..k];
        CompletionIsRemembered(frames[..n], maxSize, k);
      } else {
        assert frames[..k] == frames;
        CompletionIsRemembered(frames[..n], maxSize, n);
      }
    } else {
      assert frames[..k] == [];
    }
  }

  // ---------------------------------------------------------------------------
  // Runs over a common segmentation

  /** Frame i of a segmented stream; the last one carries the final mark. */
  function SegmentFrame(segments: seq<Bytes>, i: nat): Frame
    requires i < |segments|
  {
    Frame(Offset(segments, i), segments[i], i == |segments| - 1)
  }

  ghost predicate FromSegment(f: Frame, segments: seq<Bytes>, i: nat)
  {
    i < |segments| && f == SegmentFrame(segments, i)
  }

  /** The context has consumed segments 0..n-1 and buffers every later accepted one. */
  ghost predicate SegmentInv(c: Context, segments: seq<Bytes>, accepted: set<nat>, n: nat)
  {
    && n <= |segments|
    && c.next == Offset(segments, n)
    && c.data == Concat(segments[..n])
    && (c.final <==> n == |segments| && n > 0)
    && (forall i :: i in accepted ==> i < |segments|)
    && (forall i: nat :: i < n ==> i in accepted)
    && (forall i :: i in accepted && n <= i ==> SegmentFrame(segments, i) in c.frames)
    && (forall f :: f in c.frames ==> exists i :: i in accepted && FromSegment(f, segments, i))
  }

  lemma AppendNextSegment(c: Context, segments: seq<Bytes>, accepted: set<nat>, n: nat, frames: seq<Frame>)
    requires NonEmptySegments(segments) && SegmentInv(c, segments, accepted, n) && n < |segments|
    requires forall f :: f in frames ==> f in c.frames
    requires forall f :: f in c.frames && f != SegmentFrame(segments, n) ==> f in frames
    ensures SegmentInv(Append(c.(frames := frames), SegmentFrame(segments, n)), segments, accepted + {n}, n + 1)
  {
    ConcatStep(segments, n);
    forall i | i in accepted && n + 1 <= i
      ensures SegmentFrame(segments, i) in frames
    {
      OffsetsIncrease(segments, n, i);
    }
    forall f | f in frames
      ensures exists i :: i in accepted + {n} && FromSegment(f, segments, i)
    {
      var i :| i in accepted && FromSegment(f, segments, i);
      assert i in accepted + {n};
    }
  }

  lemma RemovedIsOnlyOne(frames: seq<Frame>, i: nat)
    requires i < |frames|
    ensures forall f :: f in RemoveAt(frames, i) ==> f in frames
    ensures forall f :: f in frames && f != frames[i] ==> f in RemoveAt(frames, i)
  {
    assert frames == frames[..i] + [frames[i]] + frames[i + 1..];
  }

  lemma {:induction false} DrainSegments(c: Context, segments: seq<Bytes>, accepted: set<nat>, n: nat) returns (m: nat)
    requires NonEmptySegments(segments) && SegmentInv(c, segments, accepted, n)
    ensures SegmentInv(Drain(c), segments, accepted, m) && IsMex(m, accepted)
    decreases |c.frames|
  {
    var i := Find(c.frames, c.next);
    if i == |c.frames| {
      m := n;
      if n in accepted {
        assert false;
      }
    } else {
      assert c.frames[i] in c.frames;
      var k :| k in accepted && FromSegment(c.frames[i], segments, k);
      OffsetIsInjective(segments, k, n);
      RemovedIsOnlyOne(c.frames, i);
      AppendNextSegment(c, segments, accepted, n, RemoveAt(c.frames, i));
      assert accepted + {n} == accepted;
      m := DrainSegments(Append(c.(frames := RemoveAt(c.frames, i)), c.frames[i]), segments, accepted, n + 1);
    }
  }

  ghost predicate InRange(order: seq<nat>, n: nat)
  {
    forall k :: 0 <= k < |order| ==> order[k] < n
  }

  /** Receiving the segments with the given indices, in the given order; the second result
      is the set of indices that were not turned away by a full buffer. */
  ghost function RunSegments(segments: seq<Bytes>, order: seq<nat>, maxSize: int): (Context, set<nat>)
    requires InRange(order, |segments|)
  {
    if order == [] then (Init(), {})
    else
      var n := |order| - 1;
      var (c, accepted) := RunSegments(segments, order[..n], maxSize);
      var (c', r) := ProcessFrame(c, SegmentFrame(segments, order[n]), maxSize);
      (c', if r.Accepted? then accepted + {order[n]} else accepted)
  }

  lemma ProcessSegment(c: Context, segments: seq<Bytes>, accepted: set<nat>, n: nat, i: nat, maxSize: int)
    returns (m: nat)
    requires NonEmptySegments(segments) && SegmentInv(c, segments, accepted, n) && IsMex(n, accepted)
    requires i < |segments|
    ensures var (c', r) := ProcessFrame(c, SegmentFrame(segments, i), maxSize);
            var accepted' := if r.Accepted? then accepted + {i} else accepted;
            SegmentInv(c', segments, accepted', m) && IsMex(m, accepted')
  {
    var f := SegmentFrame(segments, i);
    if f.offset == c.next {
      OffsetIsInjective(segments, i, n);
      AppendNextSegment(c, segments, accepted, n, c.frames);
      m := DrainSegments(Append(c, f), segments, accepted + {n}, n + 1);
    } else {
      m := n;
      if |c.frames| < maxSize {
        InsertSegment(c, segments, accepted, n, i);
      }
    }
  }

  lemma InsertSegment(c: Context, segments: seq<Bytes>, accepted: set<nat>, n: nat, i: nat)
    requires SegmentInv(c, segments, accepted, n) && IsMex(n, accepted)
    requires i < |segments| && i != n
    ensures SegmentInv(c.(frames := Inserted(c.frames, SegmentFrame(segments, i))), segments, accepted + {i}, n)
    ensures IsMex(n, accepted + {i})
  {
    var f := SegmentFrame(segments, i);
    var k := UpperBound(c.frames, f.offset);
    assert c.frames == c.frames[..k] + c.frames[k..];
    assert forall g :: g in Inserted(c.frames, f) <==> g in c.frames || g == f;
    forall g | g in Inserted(c.frames, f)
      ensures exists j :: j in accepted + {i} && FromSegment(g, segments, j)
    {
      if g == f {
        assert i in accepted + {i} && FromSegment(g, segments, i);
      } else {
        var j :| j in accepted && FromSegment(g, segments, j);
        assert j in accepted + {i};
      }
    }
  }

  /** Over every order of arrival, with repetitions and rejections, the stream delivered is
      exactly the longest prefix of segments that the accepted ones cover, and completion is
      reported exactly when that is the whole stream. */
  lemma {:induction false} DeliversLongestPrefix(segments: seq<Bytes>, order: seq<nat>, maxSize: int) returns (n: nat)
    requires NonEmptySegments(segments)
    requires InRange(order, |segments|)
    ensures var (c, accepted) := RunSegments(segments, order, maxSize);
            && IsMex(n, accepted)
            && SegmentInv(c, segments, accepted, n)
  {
    if order == [] {
      n := 0;
    } else {
      var last := |order| - 1;
      n := DeliversLongestPrefix(segments, order[..last], maxSize);
      var (c, accepted) := RunSegments(segments, order[..last], maxSize);
      n := ProcessSegment(c, segments, accepted, n, order[last], maxSize);
    }
  }

  /** The order of arrival does not matter. */
  lemma OrderDoesNotMatter(segments: seq<Bytes>, order1: seq<nat>, order2: seq<nat>, maxSize1: int, maxSize2: int)
    requires NonEmptySegments(segments)
    requires InRange(order1, |segments|)
    requires InRange(order2, |segments|)
    requires RunSegments(segments, order1, maxSize1).1 == RunSegments(segments, order2, maxSize2).1
    ensures RunSegments(segments, order1, maxSize1).0.data == RunSegments(segments, order2, maxSize2).0.data
    ensures RunSegments(segments, order1, maxSize1).0.final == RunSegments(segments, order2, maxSize2).0.final
  {
    var m := DeliversLongestPrefix(segments, order1, maxSize1);
    var n := DeliversLongestPrefix(segments, order2, maxSize2);
    MexIsUnique(m, n, RunSegments(segments, order1, maxSize1).1);
  }

  lemma RoomMeansAccepted(c: Context, f: Frame, maxSize: int)
    requires |c.frames| < maxSize
    ensures ProcessFrame(c, f, maxSize).1 == Accepted
    ensures |ProcessFrame(c, f, maxSize).0.frames| <= |c.frames| + 1
  {
    DrainShrinks(Append(c, f));
  }

  /** A buffer as large as the number of frames received never turns a frame away. */
  lemma {:induction false} LargeBufferAcceptsAll(segments: seq<Bytes>, order: seq<nat>, maxSize: int)
    requires InRange(order, |segments|)
    requires |order| <= maxSize
    ensures |RunSegments(segments, order, maxSize).0.frames| <= |order|
    ensures forall i :: i in RunSegments(segments, order, maxSize).1 <==> i in order
  {
    if order != [] {
      var last := |order| - 1;
      LargeBufferAcceptsAll(segments, order[..last], maxSize);
      hide ProcessFrame;
      hide Append;
      RoomMeansAccepted(RunSegments(segments, order[..last], maxSize).0, SegmentFrame(segments, order[last]), maxSize);
      assert order == order[..last] + [order[last]];
    }
  }

  lemma {:induction false} DrainShrinks(c: Context)
    ensures |Drain(c).frames| <= |c.frames|
    decreases |c.frames|
  {
    var i := Find(c.frames, c.next);
    if i < |c.frames| {
      DrainShrinks(Append(c.(frames := RemoveAt(c.frames, i)), c.frames[i]));
    }
  }
}
