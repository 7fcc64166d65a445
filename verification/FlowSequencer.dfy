/** Flow sequencing by frame number: the sender numbers frames and queues them (sometimes
    twice), the receiver reconstitutes the flow from frames that arrive in any order. */
module FlowSequencer {
  import opened Reassembly

  datatype Frame = Frame(id: nat, data: Bytes)

  // ---------------------------------------------------------------------------
  // Receiving side, as a function of the state

  /** nextExpectedSeq and outOfOrderFrames. */
  datatype Receiver = Receiver(next: nat, buffered: map<nat, Bytes>)

  datatype Reception = Reception(receiver: Receiver, output: Bytes, dropped: bool)

  /** Moves consecutive buffered frames to the output. */
  function Drain(r: Receiver, output: Bytes): Reception
    decreases |r.buffered|
  {
    if r.next !in r.buffered then Reception(r, output, false)
    else Drain(Receiver(r.next + 1, r.buffered - {r.next}), output + r.buffered[r.next])
  }

  function Receive(r: Receiver, f: Frame, maxOutOfOrderFrames: int): Reception
  {
    if f.id == r.next then Drain(r.(next := r.next + 1), f.data)
    else if f.id < r.next then Reception(r, [], false)
    else if |r.buffered| < maxOutOfOrderFrames then Reception(r.(buffered := r.buffered[f.id := f.data]), [], false)
    else Reception(r, [], true)
  }

  // ---------------------------------------------------------------------------
  // Sending side, as a function of the state

  /** nextSequenceNum, the outbound queue and the tasks waiting for a worker. */
  datatype Sender = Sender(next: nat, queue: multiset<Frame>, tasks: seq<Frame>)

  /** The frame is queued at once and, if the task channel has room, handed to a worker
      which will queue it a second time. */
  function Submit(s: Sender, data: Bytes, channelCapacity: nat): Sender
  {
    var f := Frame(s.next, data);
    Sender(s.next + 1, s.queue + multiset{f}, if |s.tasks| < channelCapacity then s.tasks + [f] else s.tasks)
  }

  function RunTask(s: Sender): Sender
  {
    if s.tasks == [] then s
    else Sender(s.next, s.queue + multiset{s.tasks[0]}, s.tasks[1..])
  }

  // ---------------------------------------------------------------------------
  // The flow sequencer, restricted to one flow

  class Flow {
    const maxOutOfOrderFrames: int
    const channelCapacity: nat

    var nextSequenceNum: nat
    var totalFrames: nat
    var totalBytes: nat
    var outboundQueue: multiset<Frame>
    var processingChan: seq<Frame>
    var totalFramesSequenced: nat

    var nextExpectedSeq: nat
    var maxSeqSeen: nat
    var outOfOrderFrames: map<nat, Bytes>
    var reconstitutedData: Bytes
    var framesReordered: nat
    var droppedFrames: nat

    /** Nothing is left in the scratch buffer between calls. */
    ghost predicate Valid()
      reads this
    {
      && reconstitutedData == []
      && forall k :: k in outOfOrderFrames ==> nextExpectedSeq < k <= maxSeqSeen
    }

    ghost function ReceiverView(): Receiver
      reads this
    {
      Receiver(nextExpectedSeq, outOfOrderFrames)
    }

    ghost function SenderView(): Sender
      reads this
    {
      Sender(nextSequenceNum, outboundQueue, processingChan)
    }

    constructor (maxOutOfOrderFrames: int, channelCapacity: nat)
      ensures Valid()
      ensures this.maxOutOfOrderFrames == maxOutOfOrderFrames && this.channelCapacity == channelCapacity
      ensures ReceiverView() == Receiver(0, map[]) && SenderView() == Sender(0, multiset{}, [])
    {
      this.maxOutOfOrderFrames := maxOutOfOrderFrames;
      this.channelCapacity := channelCapacity;
      nextSequenceNum, totalFrames, totalBytes, totalFramesSequenced := 0, 0, 0, 0;
      outboundQueue, processingChan := multiset{}, [];
      nextExpectedSeq, maxSeqSeen, outOfOrderFrames, reconstitutedData := 0, 0, map[], [];
      framesReordered, droppedFrames := 0, 0;
    }

    method SequenceOutboundFrame(data: Bytes)
      modifies this
      ensures SenderView() == Submit(old(SenderView()), data, channelCapacity)
      ensures totalFrames == old(totalFrames) + 1 && totalBytes == old(totalBytes) + |data|
      ensures totalFramesSequenced == old(totalFramesSequenced) + 1
      ensures ReceiverView() == old(ReceiverView()) && (old(Valid()) ==> Valid())
      ensures framesReordered == old(framesReordered) && droppedFrames == old(droppedFrames)
    {
      var frame := Frame(nextSequenceNum, data);
      nextSequenceNum := nextSequenceNum + 1;
      totalFrames := totalFrames + 1;
      totalBytes := totalBytes + |data|;
      ProcessOutboundFrame(frame);
      if |processingChan| < channelCapacity {
        processingChan := processingChan + [frame];
      }
    }

    method ProcessOutboundFrame(frame: Frame)
      modifies this`outboundQueue, this`totalFramesSequenced
      ensures outboundQueue == old(outboundQueue) + multiset{frame}
      ensures totalFramesSequenced == old(totalFramesSequenced) + 1
    {
      outboundQueue := outboundQueue + multiset{frame};
      totalFramesSequenced := totalFramesSequenced + 1;
    }

    /** One turn of a background worker. */
    method ProcessingWorkerTurn()
      modifies this`processingChan, this`outboundQueue, this`totalFramesSequenced
      ensures SenderView() == RunTask(old(SenderView()))
    {
      if processingChan != [] {
        var task := processingChan[0];
        processingChan := processingChan[1..];
        ProcessOutboundFrame(task);
      }
    }

    /** Returns the bytes that became deliverable; the bytes depend on nothing but the
        number of the next expected frame, the buffer and the frame. */
    method ProcessInboundFrame(frame: Frame) returns (data: Bytes)
      requires Valid()
      modifies this
      ensures Valid()
      ensures var o := Receive(old(ReceiverView()), frame, maxOutOfOrderFrames);
              && ReceiverView() == o.receiver
              && data == o.output
              && droppedFrames == old(droppedFrames) + (if o.dropped then 1 else 0)
      ensures droppedFrames > old(droppedFrames)
         <==> frame.id > old(nextExpectedSeq) && |old(outOfOrderFrames)| >= maxOutOfOrderFrames
      ensures droppedFrames == old(droppedFrames) ==> frame.id < nextExpectedSeq || frame.id in outOfOrderFrames
      ensures maxSeqSeen ==
                if old(nextExpectedSeq) < frame.id && |old(outOfOrderFrames)| < maxOutOfOrderFrames
                   && frame.id > old(maxSeqSeen) then frame.id else old(maxSeqSeen)
      ensures SenderView() == old(SenderView())
      ensures totalFrames == old(totalFrames) && totalBytes == old(totalBytes)
      ensures totalFramesSequenced == old(totalFramesSequenced)
    {
      data := [];
      if frame.id == nextExpectedSeq {
        reconstitutedData := reconstitutedData + frame.data;
        assert reconstitutedData == frame.data;
        nextExpectedSeq := nextExpectedSeq + 1;
        ProcessBufferedFrames();
        if |reconstitutedData| > 0 {
          data := reconstitutedData;
          reconstitutedData := [];
        }
      } else if frame.id > nextExpectedSeq {
        if |outOfOrderFrames| < maxOutOfOrderFrames {
          outOfOrderFrames := outOfOrderFrames[frame.id := frame.data];
          if frame.id > maxSeqSeen {
            maxSeqSeen := frame.id;
          }
        } else {
          droppedFrames := droppedFrames + 1;
        }
      }
    }

    method ProcessBufferedFrames()
      requires forall k :: k in outOfOrderFrames ==> nextExpectedSeq <= k <= maxSeqSeen
      modifies this`nextExpectedSeq, this`outOfOrderFrames, this`reconstitutedData, this`framesReordered
      ensures Reception(ReceiverView(), reconstitutedData, false) == Drain(old(ReceiverView()), old(reconstitutedData))
      ensures forall k :: k in outOfOrderFrames ==> nextExpectedSeq < k <= maxSeqSeen
      ensures framesReordered - old(framesReordered) == nextExpectedSeq - old(nextExpectedSeq) >= 0
    {
      while nextExpectedSeq in outOfOrderFrames
        invariant Drain(ReceiverView(), reconstitutedData) == Drain(old(ReceiverView()), old(reconstitutedData))
        invariant forall k :: k in outOfOrderFrames ==> nextExpectedSeq <= k <= maxSeqSeen
        invariant framesReordered - old(framesReordered) == nextExpectedSeq - old(nextExpectedSeq) >= 0
        decreases |outOfOrderFrames|
      {
        var expectedSeq := nextExpectedSeq;
        reconstitutedData := reconstitutedData + outOfOrderFrames[expectedSeq];
        nextExpectedSeq := nextExpectedSeq + 1;
        outOfOrderFrames := outOfOrderFrames - {expectedSeq};
        framesReordered := framesReordered + 1;
      }
    }
  }

  // ---------------------------------------------------------------------------
  // Sender, network and receiver together

  /** `submitted`, `delivered`, `arrived`, `accepted` and `lost` record the history of the run:
      the payloads numbered so far, everything the receiver returned, the numbers that
      reached it, those it kept, and those it discarded because its buffer was full. */
  datatype System = System(
    sender: Sender, net: multiset<Frame>, receiver: Receiver,
    submitted: seq<Bytes>, delivered: Bytes,
    arrived: set<nat>, accepted: set<nat>, discarded: set<nat>)

  /** The network may carry frames in any order, repeat them and lose them. */
  datatype Event =
    | DoSubmit(data: Bytes)
    | DoRunTask
    | DoTransmit(frame: Frame)
    | DoDuplicate(frame: Frame)
    | DoLose(frame: Frame)
    | DoArrive(frame: Frame)

  function Init(): System
  {
    System(Sender(0, multiset{}, []), multiset{}, Receiver(0, map[]), [], [], {}, {}, {})
  }

  function Step(s: System, e: Event, maxOutOfOrderFrames: int, channelCapacity: nat): System
  {
    match e
    case DoSubmit(data) =>
      s.(sender := Submit(s.sender, data, channelCapacity), submitted := s.submitted + [data])
    case DoRunTask => s.(sender := RunTask(s.sender))
    case DoTransmit(f) =>
      if f in s.sender.queue
      then s.(sender := s.sender.(queue := s.sender.queue - multiset{f}), net := s.net + multiset{f})
      else s
    case DoDuplicate(f) => if f in s.net then s.(net := s.net + multiset{f}) else s
    case DoLose(f) => s.(net := s.net - multiset{f})
    case DoArrive(f) =>
      if f !in s.net then s else
        var o := Receive(s.receiver, f, maxOutOfOrderFrames);
        s.(net := s.net - multiset{f}, receiver := o.receiver, delivered := s.delivered + o.output,
           arrived := s.arrived + {f.id},
           accepted := if o.dropped then s.accepted else s.accepted + {f.id},
           discarded := if o.dropped then s.discarded + {f.id} else s.discarded)
  }

  function Run(events: seq<Event>, maxOutOfOrderFrames: int, channelCapacity: nat): System
  {
    if events == [] then Init()
    else Step(Run(events[..|events| - 1], maxOutOfOrderFrames, channelCapacity), events[|events| - 1],
              maxOutOfOrderFrames, channelCapacity)
  }

  /** A frame that the sender really made. */
  ghost predicate Genuine(f: Frame, submitted: seq<Bytes>)
  {
    f.id < |submitted| && f.data == submitted[f.id]
  }

  /** What the receiver holds and has delivered, given what it kept. */
  ghost predicate ReceiverInv(r: Receiver, submitted: seq<Bytes>, delivered: Bytes, accepted: set<nat>)
  {
    && r.next <= |submitted|
    && delivered == Concat(submitted[..r.next])
    && (forall k :: k in r.buffered ==> r.next <= k && Genuine(Frame(k, r.buffered[k]), submitted))
    && (forall k: nat :: k in accepted <==> k < r.next || k in r.buffered)
  }

  ghost predicate Inv(s: System, maxOutOfOrderFrames: int)
  {
    && s.sender.next == |s.submitted|
    && (forall f :: f in s.sender.queue ==> Genuine(f, s.submitted))
    && (forall f :: f in s.sender.tasks ==> Genuine(f, s.submitted))
    && (forall f :: f in s.net ==> Genuine(f, s.submitted))
    && ReceiverInv(s.receiver, s.submitted, s.delivered, s.accepted)
    && s.receiver.next !in s.receiver.buffered
    && s.arrived == s.accepted + s.discarded
    && (|s.receiver.buffered| <= maxOutOfOrderFrames || s.receiver.buffered == map[])
  }

  lemma {:induction false} DrainKeepsInv(r: Receiver, output: Bytes, submitted: seq<Bytes>, delivered: Bytes,
                                         accepted: set<nat>)
    requires ReceiverInv(r, submitted, delivered + output, accepted)
    ensures var o := Drain(r, output);
            && ReceiverInv(o.receiver, submitted, delivered + o.output, accepted)
            && o.receiver.next !in o.receiver.buffered
            && |o.receiver.buffered| <= |r.buffered|
            && o.receiver.next >= r.next
            && !o.dropped
    decreases |r.buffered|
  {
    if r.next in r.buffered {
      var r' := Receiver(r.next + 1, r.buffered - {r.next});
      ConcatStep(submitted, r.next);
      assert delivered + (output + r.buffered[r.next]) == delivered + output + r.buffered[r.next];
      DrainKeepsInv(r', output + r.buffered[r.next], submitted, delivered, accepted);
    }
  }

  lemma ReceiveKeepsInv(r: Receiver, f: Frame, maxOutOfOrderFrames: int, submitted: seq<Bytes>, delivered: Bytes,
                        accepted: set<nat>)
    requires ReceiverInv(r, submitted, delivered, accepted) && r.next !in r.buffered && Genuine(f, submitted)
    requires |r.buffered| <= maxOutOfOrderFrames || r.buffered == map[]
    ensures var o := Receive(r, f, maxOutOfOrderFrames);
            && ReceiverInv(o.receiver, submitted, delivered + o.output,
                           if o.dropped then accepted else accepted + {f.id})
            && o.receiver.next !in o.receiver.buffered
            && (|o.receiver.buffered| <= maxOutOfOrderFrames || o.receiver.buffered == map[])
  {
    if f.id == r.next {
      ConcatStep(submitted, r.next);
      DrainKeepsInv(r.(next := r.next + 1), f.data, submitted, delivered, accepted + {f.id});
    } else {
      assert delivered + [] == delivered;
    }
  }

  lemma SubmitKeepsInv(s: System, data: Bytes, maxOutOfOrderFrames: int, channelCapacity: nat)
    requires Inv(s, maxOutOfOrderFrames)
    ensures Inv(Step(s, DoSubmit(data), maxOutOfOrderFrames, channelCapacity), maxOutOfOrderFrames)
  {
    ConcatExtend(s.submitted, data, s.receiver.next);
    assert Genuine(Frame(s.sender.next, data), s.submitted + [data]);
    assert forall f :: Genuine(f, s.submitted) ==> Genuine(f, s.submitted + [data]);
  }

  lemma ArriveKeepsInv(s: System, f: Frame, maxOutOfOrderFrames: int, channelCapacity: nat)
    requires Inv(s, maxOutOfOrderFrames) && f in s.net
    ensures Inv(Step(s, DoArrive(f), maxOutOfOrderFrames, channelCapacity), maxOutOfOrderFrames)
  {
    hide Receive, ReceiverInv, Genuine;
    ReceiveKeepsInv(s.receiver, f, maxOutOfOrderFrames, s.submitted, s.delivered, s.accepted);
  }

  lemma TaskKeepsInv(s: System, maxOutOfOrderFrames: int, channelCapacity: nat)
    requires Inv(s, maxOutOfOrderFrames)
    ensures Inv(Step(s, DoRunTask, maxOutOfOrderFrames, channelCapacity), maxOutOfOrderFrames)
  {
    hide ReceiverInv, Genuine;
  }

  lemma StepKeepsInv(s: System, e: Event, maxOutOfOrderFrames: int, channelCapacity: nat)
    requires Inv(s, maxOutOfOrderFrames)
    ensures Inv(Step(s, e, maxOutOfOrderFrames, channelCapacity), maxOutOfOrderFrames)
  {
    hide Receive, Submit, RunTask, ReceiverInv, Genuine;
    match e
    case DoSubmit(data) => SubmitKeepsInv(s, data, maxOutOfOrderFrames, channelCapacity);
    case DoRunTask => TaskKeepsInv(s, maxOutOfOrderFrames, channelCapacity);
    case DoArrive(f) =>
      if f in s.net {
        ArriveKeepsInv(s, f, maxOutOfOrderFrames, channelCapacity);
      }
    case DoTransmit(f) =>
    case DoDuplicate(f) =>
    case DoLose(f) =>
  }

  lemma {:induction false} RunKeepsInv(events: seq<Event>, maxOutOfOrderFrames: int, channelCapacity: nat)
    ensures Inv(Run(events, maxOutOfOrderFrames, channelCapacity), maxOutOfOrderFrames)
  {
    if events != [] {
      RunKeepsInv(events[..|events| - 1], maxOutOfOrderFrames, channelCapacity);
      StepKeepsInv(Run(events[..|events| - 1], maxOutOfOrderFrames, channelCapacity), events[|events| - 1],
                   maxOutOfOrderFrames, channelCapacity);
    }
  }

  lemma InvDelivers(s: System, maxOutOfOrderFrames: int)
    requires Inv(s, maxOutOfOrderFrames)
    ensures s.receiver.next <= |s.submitted|
    ensures s.delivered == Concat(s.submitted[..s.receiver.next])
    ensures s.delivered <= Concat(s.submitted)
    ensures forall k :: k in s.receiver.buffered ==>
              s.receiver.next < k < |s.submitted| && s.receiver.buffered[k] == s.submitted[k]
  {
    ConcatIsPrefix(s.submitted, s.receiver.next);
    forall k | k in s.receiver.buffered
      ensures s.receiver.next < k < |s.submitted| && s.receiver.buffered[k] == s.submitted[k]
    {
      assert Genuine(Frame(k, s.receiver.buffered[k]), s.submitted);
    }
  }

  /** Exactly-once, in-order delivery over every run: whatever the network does, and although
      the sender queues frames twice, the bytes returned are the payloads of the frames before
      nextExpectedSeq, each once and in order, and every buffered frame lies strictly above. */
  lemma {:induction false} ExactlyOnceInOrder(events: seq<Event>, maxOutOfOrderFrames: int, channelCapacity: nat)
    returns (s: System)
    ensures s == Run(events, maxOutOfOrderFrames, channelCapacity)
    ensures s.receiver.next <= |s.submitted|
    ensures s.delivered == Concat(s.submitted[..s.receiver.next])
    ensures s.delivered <= Concat(s.submitted)
    ensures forall k :: k in s.receiver.buffered ==>
              s.receiver.next < k < |s.submitted| && s.receiver.buffered[k] == s.submitted[k]
  {
    hide Run, Inv;
    s := Run(events, maxOutOfOrderFrames, channelCapacity);
    RunKeepsInv(events, maxOutOfOrderFrames, channelCapacity);
    InvDelivers(s, maxOutOfOrderFrames);
  }

  lemma CoveredPrefixIsDelivered(s: System, n: nat, maxOutOfOrderFrames: int)
    requires Inv(s, maxOutOfOrderFrames)
    requires forall k: nat :: k < n ==> k in s.accepted
    ensures n <= |s.submitted| && Concat(s.submitted[..n]) <= s.delivered
  {
    assert s.receiver.next < n ==> s.receiver.next in s.accepted;
    ConcatIsPrefix(s.submitted[..s.receiver.next], n);
    assert s.submitted[..s.receiver.next][..n] == s.submitted[..n];
  }

  /** When frames 0..n-1 have all arrived and none was discarded, all n are delivered. */
  lemma ArrivedPrefixIsDelivered(events: seq<Event>, n: nat, maxOutOfOrderFrames: int, channelCapacity: nat)
    requires Run(events, maxOutOfOrderFrames, channelCapacity).discarded == {}
    requires forall k: nat :: k < n ==> k in Run(events, maxOutOfOrderFrames, channelCapacity).arrived
    ensures n <= |Run(events, maxOutOfOrderFrames, channelCapacity).submitted|
    ensures Concat(Run(events, maxOutOfOrderFrames, channelCapacity).submitted[..n])
         <= Run(events, maxOutOfOrderFrames, channelCapacity).delivered
  {
    RunKeepsInv(events, maxOutOfOrderFrames, channelCapacity);
    CoveredPrefixIsDelivered(Run(events, maxOutOfOrderFrames, channelCapacity), n, maxOutOfOrderFrames);
  }

  // ---------------------------------------------------------------------------
  // The byte buffer of a flow

  /** A byte queue in one growing slice; the part before readOffset is dead and is
      reclaimed once it is more than half of the slice. */
  class FlowBuffer {
    var data: Bytes
    var capacity: int
    var readOffset: nat
    var writeOffset: nat

    ghost predicate Valid()
      reads this
    {
      readOffset <= |data| / 2 && writeOffset == |data|
    }

    ghost function Contents(): Bytes
      reads this
      requires Valid()
    {
      data[readOffset..]
    }

    constructor (capacity: nat)
      ensures Valid() && Contents() == [] && this.capacity == capacity && data == []
    {
      data, this.capacity, readOffset, writeOffset := [], capacity, 0, 0;
    }

    /** All or nothing. A write that fits twice over what is unread never fails. */
    method Write(bytes: Bytes) returns (n: nat, ok: bool)
      requires Valid()
      modifies this
      ensures Valid() && capacity == old(capacity)
      ensures Contents() == if ok then old(Contents()) + bytes else old(Contents())
      ensures n == if ok then |bytes| else 0
      ensures ok <==> |old(data)| + |bytes| <= capacity
      ensures 2 * |old(Contents())| + |bytes| < capacity ==> ok
    {
      if |data| + |bytes| > capacity {
        return 0, false;
      }
      data := data + bytes;
      writeOffset := writeOffset + |bytes|;
      return |bytes|, true;
    }

    /** Moves the oldest unread bytes into the caller's buffer. */
    method Read(buffer: array<bv8>) returns (n: nat)
      requires Valid()
      modifies this, buffer
      ensures Valid() && capacity == old(capacity)
      ensures n == if buffer.Length <= |old(Contents())| then buffer.Length else |old(Contents())|
      ensures buffer[..n] + Contents() == old(Contents())
      ensures buffer[n..] == old(buffer[..])[n..]
    {
      var available := |data| - readOffset;
      if available == 0 {
        return 0;
      }
      n := buffer.Length;
      if n > available {
        n := available;
      }
      forall i | 0 <= i < n {
        buffer[i] := data[readOffset + i];
      }
      readOffset := readOffset + n;
      if readOffset > |data| / 2 {
        data := data[readOffset..];
        writeOffset := writeOffset - readOffset;
        readOffset := 0;
      }
    }
  }
}
