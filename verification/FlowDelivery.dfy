/** When a flow arrives whole: a frame that reaches the receiver is refused only when it is early and
    the buffer is full, and without losses everything submitted is delivered. */
module FlowDelivery {
  import opened Reassembly
  import opened FlowSequencer

  // ---------------------------------------------------------------------------
  // Discarded frames

  predicate MeetsFullBuffer(r: Receiver, f: Frame, maxOutOfOrderFrames: int)
  {
    f.id > r.next && |r.buffered| >= maxOutOfOrderFrames
  }

  lemma {:induction false} DrainKeepsFrames(r: Receiver, output: Bytes, k: nat)
    ensures var o := Drain(r, output);
      !o.dropped && (k < r.next || k in r.buffered ==> k < o.receiver.next || k in o.receiver.buffered)
    decreases |r.buffered|
  {
    if r.next in r.buffered {
      DrainKeepsFrames(Receiver(r.next + 1, r.buffered - {r.next}), output + r.buffered[r.next], k);
    }
  }

  /** A frame is refused exactly when it comes early and meets a full buffer; any other is delivered
      already or kept, with its payload when it is early. */
  lemma ReceiveRefusesIff(r: Receiver, f: Frame, maxOutOfOrderFrames: int)
    ensures var o := Receive(r, f, maxOutOfOrderFrames);
      && (o.dropped <==> MeetsFullBuffer(r, f, maxOutOfOrderFrames))
      && (o.dropped ==> o.receiver == r)
      && (!o.dropped && f.id > r.next ==> f.id in o.receiver.buffered && o.receiver.buffered[f.id] == f.data)
      && (!o.dropped && f.id <= r.next ==> f.id < o.receiver.next)
  {
    if f.id == r.next {
      DrainMovesOn(r.(next := r.next + 1), f.data);
      DrainKeepsFrames(r.(next := r.next + 1), f.data, f.id);
    }
  }

  lemma {:induction false} DrainMovesOn(r: Receiver, output: Bytes)
    ensures Drain(r, output).receiver.next >= r.next
    decreases |r.buffered|
  {
    if r.next in r.buffered {
      DrainMovesOn(Receiver(r.next + 1, r.buffered - {r.next}), output + r.buffered[r.next]);
    }
  }

  /** The event brings the frame to the receiver when it is early and the buffer is full. */
  predicate IsRefusal(s: System, e: Event, id: nat, maxOutOfOrderFrames: int)
  {
    && e.DoArrive? && e.frame.id == id && e.frame in s.net
    && MeetsFullBuffer(s.receiver, e.frame, maxOutOfOrderFrames)
  }

  predicate MetFullBuffer(events: seq<Event>, id: nat, maxOutOfOrderFrames: int, channelCapacity: nat)
  {
    events != []
    && (var before := events[..|events| - 1];
        || MetFullBuffer(before, id, maxOutOfOrderFrames, channelCapacity)
        || IsRefusal(Run(before, maxOutOfOrderFrames, channelCapacity), events[|events| - 1], id, maxOutOfOrderFrames))
  }

  /** With room in the buffer an arriving frame is accepted and nothing is discarded. */
  lemma ArrivesWithRoom(s: System, f: Frame, maxOutOfOrderFrames: int, channelCapacity: nat)
    requires f in s.net && |s.receiver.buffered| < maxOutOfOrderFrames
    ensures var s' := Step(s, DoArrive(f), maxOutOfOrderFrames, channelCapacity);
      s'.discarded == s.discarded && f.id in s'.accepted && f.id in s'.arrived
  {
    ReceiveRefusesIff(s.receiver, f, maxOutOfOrderFrames);
  }

  /** Over every run, the frames discarded are exactly those that met a full buffer when they came
      early. */
  lemma {:induction false} DiscardedIff(events: seq<Event>, id: nat, maxOutOfOrderFrames: int, channelCapacity: nat)
    ensures id in Run(events, maxOutOfOrderFrames, channelCapacity).discarded
       <==> MetFullBuffer(events, id, maxOutOfOrderFrames, channelCapacity)
  {
    if events != [] {
      var before, e := events[..|events| - 1], events[|events| - 1];
      DiscardedIff(before, id, maxOutOfOrderFrames, channelCapacity);
      if e.DoArrive? {
        ReceiveRefusesIff(Run(before, maxOutOfOrderFrames, channelCapacity).receiver, e.frame, maxOutOfOrderFrames);
      }
      hide Receive, MeetsFullBuffer;
    }
  }

  /** The receiver delivers the longest prefix that the accepted frames cover, and a frame that arrived
      was accepted unless it met a full buffer when it came early. */
  lemma {:induction false} DeliversLongestPrefix(events: seq<Event>, maxOutOfOrderFrames: int, channelCapacity: nat)
    ensures var s := Run(events, maxOutOfOrderFrames, channelCapacity);
      && IsMex(s.receiver.next, s.accepted)
      && s.accepted <= s.arrived
      && forall k :: k in s.arrived && k !in s.accepted ==>
           MetFullBuffer(events, k, maxOutOfOrderFrames, channelCapacity)
  {
    var s := Run(events, maxOutOfOrderFrames, channelCapacity);
    RunKeepsInv(events, maxOutOfOrderFrames, channelCapacity);
    forall k | k in s.arrived && k !in s.accepted
      ensures MetFullBuffer(events, k, maxOutOfOrderFrames, channelCapacity)
    {
      DiscardedIff(events, k, maxOutOfOrderFrames, channelCapacity);
    }
  }

  lemma {:induction false} SizeBelow(s: set<nat>, n: nat)
    requires forall k :: k in s ==> k < n
    ensures |s| <= n
    decreases n
  {
    if n > 0 {
      assert |s - {n - 1}| >= |s| - 1;
      SizeBelow(s - {n - 1}, n - 1);
    }
  }

  lemma BufferHasRoom(s: System, f: Frame, maxOutOfOrderFrames: int)
    requires Inv(s, maxOutOfOrderFrames) && f in s.net && |s.submitted| <= maxOutOfOrderFrames
    ensures !MeetsFullBuffer(s.receiver, f, maxOutOfOrderFrames)
  {
    assert Genuine(f, s.submitted);
    forall k | k in s.receiver.buffered
      ensures k < |s.submitted|
    {
      assert Genuine(Frame(k, s.receiver.buffered[k]), s.submitted);
    }
    if s.receiver.buffered.Keys != {} {
      assert s.receiver.next !in s.receiver.buffered;
      SizeBelow(s.receiver.buffered.Keys + {s.receiver.next}, |s.submitted|);
    }
  }

  lemma SubmittedGrows(s: System, e: Event, maxOutOfOrderFrames: int, channelCapacity: nat)
    ensures |s.submitted| <= |Step(s, e, maxOutOfOrderFrames, channelCapacity).submitted|
  {
  }

  /** A buffer for as many frames as were submitted never refuses one. */
  lemma {:induction false} LargeBufferRefusesNone(events: seq<Event>, maxOutOfOrderFrames: int, channelCapacity: nat)
    requires |Run(events, maxOutOfOrderFrames, channelCapacity).submitted| <= maxOutOfOrderFrames
    ensures Run(events, maxOutOfOrderFrames, channelCapacity).discarded == {}
  {
    if events != [] {
      var before, e := events[..|events| - 1], events[|events| - 1];
      var s := Run(before, maxOutOfOrderFrames, channelCapacity);
      SubmittedGrows(s, e, maxOutOfOrderFrames, channelCapacity);
      LargeBufferRefusesNone(before, maxOutOfOrderFrames, channelCapacity);
      RunKeepsInv(before, maxOutOfOrderFrames, channelCapacity);
      if e.DoArrive? && e.frame in s.net {
        BufferHasRoom(s, e.frame, maxOutOfOrderFrames);
        ReceiveRefusesIff(s.receiver, e.frame, maxOutOfOrderFrames);
      }
      hide Receive, MeetsFullBuffer, Inv;
    }
  }

  // ---------------------------------------------------------------------------
  // Delivery of everything

  /** A copy of the frame waits at the sender or travels. */
  predicate IsUnderWay(s: System, k: nat)
    requires k < |s.submitted|
  {
    var f := Frame(k, s.submitted[k]);
    f in s.sender.queue || f in s.net
  }

  lemma UnderWayOrArrived(s: System, e: Event, k: nat, maxOutOfOrderFrames: int, channelCapacity: nat)
    requires k < |s.submitted| ==> IsUnderWay(s, k) || k in s.arrived
    requires k < |Step(s, e, maxOutOfOrderFrames, channelCapacity).submitted| && !e.DoLose?
    requires s.sender.next == |s.submitted|
    ensures var s' := Step(s, e, maxOutOfOrderFrames, channelCapacity); IsUnderWay(s', k) || k in s'.arrived
  {
    hide Receive;
  }

  predicate NothingLost(events: seq<Event>)
  {
    forall i :: 0 <= i < |events| ==> !events[i].DoLose?
  }

  lemma {:induction false} LosslessKeepsFrames(events: seq<Event>, k: nat, maxOutOfOrderFrames: int,
                                               channelCapacity: nat)
    requires NothingLost(events) && k < |Run(events, maxOutOfOrderFrames, channelCapacity).submitted|
    ensures var s := Run(events, maxOutOfOrderFrames, channelCapacity); IsUnderWay(s, k) || k in s.arrived
  {
    var before, e := events[..|events| - 1], events[|events| - 1];
    var s := Run(before, maxOutOfOrderFrames, channelCapacity);
    if k < |s.submitted| {
      LosslessKeepsFrames(before, k, maxOutOfOrderFrames, channelCapacity);
    }
    RunKeepsInv(before, maxOutOfOrderFrames, channelCapacity);
    UnderWayOrArrived(s, e, k, maxOutOfOrderFrames, channelCapacity);
  }

  /** When nothing was lost, nothing is under way any more, and the buffer had room for the frames
      submitted, the receiver has returned exactly what was submitted, whatever order the network
      chose and however often it repeated frames. */
  lemma {:induction false} LosslessDeliversAll(events: seq<Event>, maxOutOfOrderFrames: int, channelCapacity: nat)
    requires NothingLost(events)
    requires var s := Run(events, maxOutOfOrderFrames, channelCapacity);
      s.sender.queue == multiset{} && s.net == multiset{} && |s.submitted| <= maxOutOfOrderFrames
    ensures var s := Run(events, maxOutOfOrderFrames, channelCapacity);
      s.delivered == Concat(s.submitted) && s.receiver == Receiver(|s.submitted|, map[])
  {
    var s := Run(events, maxOutOfOrderFrames, channelCapacity);
    LargeBufferRefusesNone(events, maxOutOfOrderFrames, channelCapacity);
    forall k: nat | k < |s.submitted|
      ensures k in s.arrived
    {
      LosslessKeepsFrames(events, k, maxOutOfOrderFrames, channelCapacity);
    }
    RunKeepsInv(events, maxOutOfOrderFrames, channelCapacity);
    InvDelivers(s, maxOutOfOrderFrames);
    assert s.receiver.next < |s.submitted| ==> s.receiver.next in s.accepted;
    assert s.submitted[..|s.submitted|] == s.submitted;
    assert s.receiver.buffered.Keys == {};
  }

  // ---------------------------------------------------------------------------
  // Copies at the sender

  function RunTasks(s: Sender, n: nat): Sender
    decreases n
  {
    if n == 0 then s else RunTasks(RunTask(s), n - 1)
  }

  lemma {:induction false} TasksQueueCopies(s: Sender)
    ensures RunTasks(s, |s.tasks|) == Sender(s.next, s.queue + multiset(s.tasks), [])
    decreases |s.tasks|
  {
    if s.tasks == [] {
      assert s == RunTasks(s, 0);
    } else {
      assert s.tasks == [s.tasks[0]] + s.tasks[1..];
      TasksQueueCopies(RunTask(s));
    }
  }

  /** Once the workers are done, a submitted frame is queued twice, or once if the task channel was
      full. */
  lemma SubmitQueuesCopies(s: Sender, data: Bytes, channelCapacity: nat)
    ensures var s' := Submit(s, data, channelCapacity);
      var f := Frame(s.next, data);
      RunTasks(s', |s'.tasks|) ==
        Sender(s.next + 1,
               s.queue + multiset(s.tasks) + if |s.tasks| < channelCapacity then multiset{f, f} else multiset{f}, [])
  {
    TasksQueueCopies(Submit(s, data, channelCapacity));
  }
}
