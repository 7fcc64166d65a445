/** The reordering manager with several callers and workers on one stream. The in-order test, the
    append, the insertion into the frame buffer and the removal from it take locks one after the
    other, so each is a step of its own. */
module ConcurrentReordering {
  import opened Reassembly
  import opened Reordering

  type Tid = nat

  /** Where a caller or worker is. */
  datatype Pc =
    | Append(frame: Frame)       // found in order, or taken out of the buffer; not appended yet
    | Insert(frame: Frame)       // found out of order, not buffered yet
    | Drain                      // about to read the next offset
    | Take(offset: nat)          // about to look for a buffered frame at this offset

  datatype State = State(context: Context, threads: map<Tid, Pc>)

  datatype Event =
    | Receive(t: Tid, frame: Frame)
    | Work(t: Tid)
    | Advance(t: Tid)

  function Init(): State
  {
    State(Reordering.Init(), map[])
  }

  /** A frame that arrives is tested against the next offset; a worker starts by draining. */
  predicate Enabled(s: State, e: Event)
  {
    match e
    case Receive(t, _) => t !in s.threads
    case Work(t) => t !in s.threads
    case Advance(t) => t in s.threads
  }

  function AdvanceStep(s: State, t: Tid, maxSize: int): State
    requires t in s.threads
  {
    var c := s.context;
    match s.threads[t]
    case Append(f) => State(Reordering.Append(c, f), s.threads[t := Drain])
    case Insert(f) =>
      State(if |c.frames| >= maxSize then c else c.(frames := Inserted(c.frames, f)), s.threads - {t})
    case Drain => State(c, s.threads[t := Take(c.next)])
    case Take(offset) =>
      var i := Find(c.frames, offset);
      if i == |c.frames| then State(c, s.threads - {t})
      else State(c.(frames := RemoveAt(c.frames, i)), s.threads[t := Append(c.frames[i])])
  }

  function Step(s: State, e: Event, maxSize: int): State
    requires Enabled(s, e)
  {
    match e
    case Receive(t, f) => s.(threads := s.threads[t := if f.offset == s.context.next then Append(f) else Insert(f)])
    case Work(t) => s.(threads := s.threads[t := Drain])
    case Advance(t) => AdvanceStep(s, t, maxSize)
  }

  predicate IsRun(s: State, es: seq<Event>, maxSize: int)
    decreases |es|
  {
    es == [] || (Enabled(s, es[0]) && IsRun(Step(s, es[0], maxSize), es[1..], maxSize))
  }

  function Run(s: State, es: seq<Event>, maxSize: int): State
    requires IsRun(s, es, maxSize)
    decreases |es|
  {
    if es == [] then s else Run(Step(s, es[0], maxSize), es[1..], maxSize)
  }

  // ---------------------------------------------------------------------------
  // The prefix property

  predicate HoldsFrame(pc: Pc)
  {
    pc.Append? || pc.Insert?
  }

  /** The data is the stream up to the next offset, and every frame held anywhere is a slice of it. */
  ghost predicate Good(s: State, stream: Bytes)
  {
    && PrefixInv(s.context, stream)
    && (forall t :: t in s.threads && HoldsFrame(s.threads[t]) ==> SliceOf(s.threads[t].frame, stream))
  }

  /** An append still finds its frame at the next offset. */
  predicate AppendIsTimely(s: State, e: Event)
  {
    e.Advance? && e.t in s.threads && s.threads[e.t].Append? ==> s.threads[e.t].frame.offset == s.context.next
  }

  ghost predicate ReceivesSlice(e: Event, stream: Bytes)
  {
    e.Receive? ==> SliceOf(e.frame, stream)
  }

  lemma AppendKeepsGoodIff(s: State, t: Tid, maxSize: int, stream: Bytes)
    requires Good(s, stream) && t in s.threads && s.threads[t].Append?
    ensures Good(AdvanceStep(s, t, maxSize), stream) <==> s.threads[t].frame.offset == s.context.next
  {
    hide PrefixInv, SliceOf, Reordering.Append;
    AppendNeedsFreshTest(s.context, s.threads[t].frame, stream);
  }

  lemma BufferStepsKeepGood(s: State, t: Tid, maxSize: int, stream: Bytes)
    requires Good(s, stream) && t in s.threads && !s.threads[t].Append?
    ensures Good(AdvanceStep(s, t, maxSize), stream)
  {
    var c := s.context;
    match s.threads[t]
    case Insert(f) =>
      InsertedIsSorted(c.frames, f);
      hide Sorted, SliceOf;
      assert forall g :: g in Inserted(c.frames, f) ==> g in c.frames || g == f;
    case Take(offset) =>
      var i := Find(c.frames, offset);
      if i < |c.frames| {
        RemoveAtKeepsSorted(c.frames, i);
        hide Sorted, SliceOf;
        assert forall g :: g in RemoveAt(c.frames, i) ==> g in c.frames;
        assert c.frames[i] in c.frames;
      }
    case _ =>
  }

  /** Exactly which steps keep the data a prefix of the stream: all but an append whose frame is no
      longer at the next offset. */
  lemma StepKeepsGoodIff(s: State, e: Event, maxSize: int, stream: Bytes)
    requires Good(s, stream) && Enabled(s, e) && ReceivesSlice(e, stream)
    ensures Good(Step(s, e, maxSize), stream) <==> AppendIsTimely(s, e)
  {
    match e
    case Advance(t) =>
      hide Good, AdvanceStep;
      if s.threads[t].Append? {
        AppendKeepsGoodIff(s, t, maxSize, stream);
      } else {
        BufferStepsKeepGood(s, t, maxSize, stream);
      }
    case _ => hide PrefixInv, SliceOf;
  }

  ghost predicate AlwaysGood(s: State, es: seq<Event>, maxSize: int, stream: Bytes)
    requires IsRun(s, es, maxSize)
    decreases |es|
  {
    Good(s, stream) && (es == [] || AlwaysGood(Step(s, es[0], maxSize), es[1..], maxSize, stream))
  }

  predicate EveryAppendIsTimely(s: State, es: seq<Event>, maxSize: int)
    requires IsRun(s, es, maxSize)
    decreases |es|
  {
    es == [] || (AppendIsTimely(s, es[0]) && EveryAppendIsTimely(Step(s, es[0], maxSize), es[1..], maxSize))
  }

  /** Over whole runs with any interleaving: the data is the prefix up to the next offset in every state
      exactly when every append finds its frame at the next offset. */
  lemma {:induction false} AlwaysGoodIff(s: State, es: seq<Event>, maxSize: int, stream: Bytes)
    requires IsRun(s, es, maxSize) && Good(s, stream)
    requires forall i :: 0 <= i < |es| ==> ReceivesSlice(es[i], stream)
    ensures AlwaysGood(s, es, maxSize, stream) <==> EveryAppendIsTimely(s, es, maxSize)
    decreases |es|
  {
    hide Good, AppendIsTimely, Step, ReceivesSlice;
    if es != [] {
      StepKeepsGoodIff(s, es[0], maxSize, stream);
      if AppendIsTimely(s, es[0]) {
        AlwaysGoodIff(Step(s, es[0], maxSize), es[1..], maxSize, stream);
      }
    }
  }

  /** A caller or worker starts only when no other is at work. */
  predicate IsSerial(s: State, es: seq<Event>, maxSize: int)
    requires IsRun(s, es, maxSize)
    decreases |es|
  {
    es == [] || ((es[0].Advance? || s.threads == map[]) && IsSerial(Step(s, es[0], maxSize), es[1..], maxSize))
  }

  predicate IsUpToDate(pc: Pc, next: nat)
  {
    (pc.Append? ==> pc.frame.offset == next) && (pc.Take? ==> pc.offset == next)
  }

  /** One at a time, every append is timely. */
  lemma {:induction false} SerialAppendsAreTimely(s: State, es: seq<Event>, maxSize: int)
    requires IsRun(s, es, maxSize) && IsSerial(s, es, maxSize)
    requires forall t, u :: t in s.threads && u in s.threads ==> t == u
    requires forall t :: t in s.threads ==> IsUpToDate(s.threads[t], s.context.next)
    ensures EveryAppendIsTimely(s, es, maxSize)
    decreases |es|
  {
    hide Inserted, RemoveAt;
    if es != [] {
      SerialAppendsAreTimely(Step(s, es[0], maxSize), es[1..], maxSize);
    }
  }

  // ---------------------------------------------------------------------------
  // One caller at a time

  function Advances(t: Tid, n: nat): seq<Event>
  {
    if n == 0 then [] else [Advance(t)] + Advances(t, n - 1)
  }

  lemma AdvanceFirst(s: State, t: Tid, n: nat, maxSize: int)
    requires t in s.threads && IsRun(AdvanceStep(s, t, maxSize), Advances(t, n), maxSize)
    ensures IsRun(s, Advances(t, n + 1), maxSize)
    ensures Run(s, Advances(t, n + 1), maxSize) == Run(AdvanceStep(s, t, maxSize), Advances(t, n), maxSize)
  {
    hide AdvanceStep;
    assert Advances(t, n + 1)[1..] == Advances(t, n);
  }

  /** A worker that nobody disturbs drains the buffer as far as it goes. */
  lemma {:induction false} DrainsAlone(c: Context, t: Tid, maxSize: int) returns (n: nat)
    ensures var s := State(c, map[t := Pc.Drain]);
      IsRun(s, Advances(t, n), maxSize) && Run(s, Advances(t, n), maxSize) == State(Reordering.Drain(c), map[])
    decreases |c.frames|
  {
    DrainStep(c);
    hide Reordering.Drain, Find, Reordering.Append;
    var i := Find(c.frames, c.next);
    var taking := State(c, map[t := Take(c.next)]);
    assert AdvanceStep(State(c, map[t := Pc.Drain]), t, maxSize) == taking;
    if i == |c.frames| {
      n := 0;
      assert AdvanceStep(taking, t, maxSize) == State(c, map[]);
    } else {
      var rest := c.(frames := RemoveAt(c.frames, i));
      var f := c.frames[i];
      var appending := State(rest, map[t := Append(c.frames[i])]);
      assert AdvanceStep(taking, t, maxSize) == appending;
      var next := Reordering.Append(rest, f);
      assert AdvanceStep(appending, t, maxSize) == State(next, map[t := Pc.Drain]);
      assert |next.frames| == |c.frames| - 1 by {
        AppendKeepsFrames(rest, f);
      }
      n := DrainsAlone(next, t, maxSize);
      AdvanceFirst(appending, t, n, maxSize);
      n := n + 1;
    }
    AdvanceFirst(taking, t, n, maxSize);
    AdvanceFirst(State(c, map[t := Pc.Drain]), t, n + 1, maxSize);
    n := n + 2;
  }

  lemma AppendKeepsFrames(c: Context, f: Frame)
    ensures Reordering.Append(c, f).frames == c.frames
  {
  }

  lemma AppendsAlone(c: Context, f: Frame, t: Tid, maxSize: int) returns (n: nat)
    ensures var s := State(c, map[t := Append(f)]);
      && IsRun(s, Advances(t, n), maxSize)
      && Run(s, Advances(t, n), maxSize) == State(Reordering.Drain(Reordering.Append(c, f)), map[])
  {
    hide Reordering.Drain;
    var s := State(c, map[t := Append(f)]);
    assert AdvanceStep(s, t, maxSize) == State(Reordering.Append(c, f), map[t := Pc.Drain]);
    n := DrainsAlone(Reordering.Append(c, f), t, maxSize);
    AdvanceFirst(s, t, n, maxSize);
    n := n + 1;
  }

  /** A call that nobody disturbs comes to an end and does what `ProcessFrame` says. */
  lemma CallAlone(c: Context, f: Frame, t: Tid, maxSize: int) returns (n: nat)
    ensures var es := [Receive(t, f)] + Advances(t, n);
      && IsRun(State(c, map[]), es, maxSize)
      && Run(State(c, map[]), es, maxSize) == State(ProcessFrame(c, f, maxSize).0, map[])
  {
    hide Reordering.Drain, Reordering.Append;
    var s := State(c, map[]);
    var received := Step(s, Receive(t, f), maxSize);
    if f.offset == c.next {
      assert received == State(c, map[t := Append(f)]);
      n := AppendsAlone(c, f, t, maxSize);
    } else {
      assert received == State(c, map[t := Insert(f)]);
      assert AdvanceStep(received, t, maxSize) == State(ProcessFrame(c, f, maxSize).0, map[]);
      n := 1;
      AdvanceFirst(received, t, 0, maxSize);
    }
    hide Step, ProcessFrame;
    assert ([Receive(t, f)] + Advances(t, n))[1..] == Advances(t, n);
  }

  /** In particular from the start, for every stream. */
  lemma AlwaysPrefixIff(es: seq<Event>, maxSize: int, stream: Bytes)
    requires IsRun(Init(), es, maxSize) && forall i :: 0 <= i < |es| ==> ReceivesSlice(es[i], stream)
    ensures AlwaysGood(Init(), es, maxSize, stream) <==> EveryAppendIsTimely(Init(), es, maxSize)
  {
    assert Good(Init(), stream);
    hide Good, IsRun, ReceivesSlice, AlwaysGood, EveryAppendIsTimely;
    AlwaysGoodIff(Init(), es, maxSize, stream);
  }

  /** Two callers with the same frame suffice to break it from the start. */
  lemma TwoCallersCorrupt(data: Bytes, maxSize: int)
    requires data != []
    ensures var f := Frame(0, data, false);
      var es := [Receive(0, f), Receive(1, f), Advance(0), Advance(1)];
      && IsRun(Init(), es, maxSize) && !EveryAppendIsTimely(Init(), es, maxSize)
      && Run(Init(), es, maxSize).context.data == data + data
      && Run(Init(), es, maxSize).context.next == |data|
  {
    var f := Frame(0, data, false);
    var es := [Receive(0, f), Receive(1, f), Advance(0), Advance(1)];
    var s1 := Step(Init(), es[0], maxSize);
    var s2 := Step(s1, es[1], maxSize);
    var s3 := Step(s2, es[2], maxSize);
    assert es[1..] == [es[1], es[2], es[3]] && es[1..][1..] == [es[2], es[3]] && es[1..][1..][1..] == [es[3]];
    assert s3.threads[1] == Append(f) && s3.context.next == |data| && s3.context.data == data;
    var s4 := Step(s3, es[3], maxSize);
    assert IsRun(s3, [es[3]], maxSize) && Run(s3, [es[3]], maxSize) == s4 && !EveryAppendIsTimely(s3, [es[3]], maxSize);
    assert IsRun(s2, [es[2], es[3]], maxSize) && Run(s2, [es[2], es[3]], maxSize) == s4;
    assert !EveryAppendIsTimely(s2, [es[2], es[3]], maxSize);
    assert !EveryAppendIsTimely(s1, [es[1], es[2], es[3]], maxSize);
  }
}
