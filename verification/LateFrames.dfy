/** Frames that arrive after their bytes were consumed: the reordering buffer keeps them for ever. */
module LateFrames {
  import opened Reordering

  /** The buffered frames that start below the next offset. */
  function LateCount(frames: seq<Frame>, next: nat): nat
  {
    if frames == [] then 0
    else (if frames[0].offset < next then 1 else 0) + LateCount(frames[1..], next)
  }

  /** The buffered frames that may still be consumed. */
  function WaitingCount(frames: seq<Frame>, next: nat): nat
  {
    if frames == [] then 0
    else (if frames[0].offset >= next then 1 else 0) + WaitingCount(frames[1..], next)
  }

  lemma {:induction false} LateAndWaiting(frames: seq<Frame>, next: nat)
    ensures LateCount(frames, next) + WaitingCount(frames, next) == |frames|
  {
    if frames != [] {
      LateAndWaiting(frames[1..], next);
    }
  }

  lemma {:induction false} LateConcat(a: seq<Frame>, b: seq<Frame>, next: nat)
    ensures LateCount(a + b, next) == LateCount(a, next) + LateCount(b, next)
  {
    if a == [] {
      assert a + b == b;
    } else {
      assert (a + b)[1..] == a[1..] + b;
      LateConcat(a[1..], b, next);
    }
  }

  lemma {:induction false} LateGrows(frames: seq<Frame>, next: nat, later: nat)
    requires next <= later
    ensures LateCount(frames, next) <= LateCount(frames, later)
  {
    if frames != [] {
      LateGrows(frames[1..], next, later);
    }
  }

  lemma LateOne(f: Frame, next: nat)
    ensures LateCount([f], next) == if f.offset < next then 1 else 0
  {
    assert [f][1..] == [];
  }

  /** Consuming a frame that is due takes away none that is late. */
  lemma RemoveDueKeepsLate(frames: seq<Frame>, i: nat)
    requires i < |frames|
    ensures LateCount(RemoveAt(frames, i), frames[i].offset) == LateCount(frames, frames[i].offset)
  {
    hide LateCount;
    var next := frames[i].offset;
    assert frames == frames[..i] + ([frames[i]] + frames[i + 1..]);
    LateConcat(frames[..i], [frames[i]] + frames[i + 1..], next);
    LateConcat([frames[i]], frames[i + 1..], next);
    LateConcat(frames[..i], frames[i + 1..], next);
    LateOne(frames[i], next);
  }

  lemma InsertCountsLate(frames: seq<Frame>, f: Frame, next: nat)
    ensures LateCount(Inserted(frames, f), next) == LateCount(frames, next) + if f.offset < next then 1 else 0
  {
    hide LateCount;
    hide UpperBound;
    var i := UpperBound(frames, f.offset);
    assert Inserted(frames, f) == frames[..i] + ([f] + frames[i..]);
    assert frames == frames[..i] + frames[i..];
    LateConcat(frames[..i], [f] + frames[i..], next);
    LateConcat([f], frames[i..], next);
    LateConcat(frames[..i], frames[i..], next);
    LateOne(f, next);
  }

  lemma {:induction false} DrainKeepsLate(c: Context)
    ensures c.next <= Drain(c).next
    ensures LateCount(c.frames, c.next) <= LateCount(Drain(c).frames, Drain(c).next)
    decreases |c.frames|
  {
    hide LateCount;
    var i := Find(c.frames, c.next);
    if i < |c.frames| {
      var rest := RemoveAt(c.frames, i);
      var c' := Append(c.(frames := rest), c.frames[i]);
      RemoveDueKeepsLate(c.frames, i);
      LateGrows(rest, c.next, c'.next);
      DrainKeepsLate(c');
    }
  }

  /** No step takes away a late frame, and a late frame that is accepted takes one place for good. */
  lemma ProcessKeepsLate(c: Context, f: Frame, maxSize: int)
    ensures var (c', r) := ProcessFrame(c, f, maxSize);
      && c.next <= c'.next
      && LateCount(c.frames, c.next) <= LateCount(c'.frames, c'.next)
      && (f.offset < c.next && r.Accepted? ==> LateCount(c'.frames, c'.next) == LateCount(c.frames, c.next) + 1)
  {
    hide LateCount;
    hide Drain;
    hide Inserted;
    if f.offset == c.next {
      LateGrows(c.frames, c.next, Append(c, f).next);
      DrainKeepsLate(Append(c, f));
    } else {
      InsertCountsLate(c.frames, f, c.next);
    }
  }

  function UsableSlots(c: Context, maxSize: int): int
  {
    maxSize - LateCount(c.frames, c.next)
  }

  /** The number of slots that count: an out-of-order frame is accepted exactly when the frames
      still waiting are fewer than the slots not taken by late ones. */
  lemma AcceptedIffSlotLeft(c: Context, f: Frame, maxSize: int)
    requires f.offset != c.next
    ensures ProcessFrame(c, f, maxSize).1.Accepted? <==> WaitingCount(c.frames, c.next) < UsableSlots(c, maxSize)
  {
    LateAndWaiting(c.frames, c.next);
  }

  /** The context after some more frames. */
  function Continued(c: Context, frames: seq<Frame>, maxSize: int): Context
    decreases |frames|
  {
    if frames == [] then c else Continued(ProcessFrame(c, frames[0], maxSize).0, frames[1..], maxSize)
  }

  lemma {:induction false} SlotsNeverReturn(c: Context, frames: seq<Frame>, maxSize: int)
    ensures UsableSlots(Continued(c, frames, maxSize), maxSize) <= UsableSlots(c, maxSize)
    decreases |frames|
  {
    hide LateCount;
    hide ProcessFrame;
    if frames != [] {
      ProcessKeepsLate(c, frames[0], maxSize);
      SlotsNeverReturn(ProcessFrame(c, frames[0], maxSize).0, frames[1..], maxSize);
    }
  }

  /** Once late frames fill the buffer, every out-of-order frame is refused, whatever comes between. */
  lemma RefusedForGood(c: Context, frames: seq<Frame>, f: Frame, maxSize: int)
    requires UsableSlots(c, maxSize) <= 0 && f.offset != Continued(c, frames, maxSize).next
    ensures ProcessFrame(Continued(c, frames, maxSize), f, maxSize).1 == BufferFull
  {
    SlotsNeverReturn(c, frames, maxSize);
    AcceptedIffSlotLeft(Continued(c, frames, maxSize), f, maxSize);
  }

  function Copies(f: Frame, n: nat): seq<Frame>
  {
    if n == 0 then [] else [f] + Copies(f, n - 1)
  }

  /** Every late copy of a frame that finds room costs exactly one slot: as many copies as there is
      room leave none. */
  lemma {:induction false} CopiesUseSlots(c: Context, f: Frame, n: nat, maxSize: int)
    requires f.offset < c.next && |c.frames| + n <= maxSize
    ensures var c' := Continued(c, Copies(f, n), maxSize);
      c'.next == c.next && |c'.frames| == |c.frames| + n && UsableSlots(c', maxSize) == UsableSlots(c, maxSize) - n
    decreases n
  {
    hide LateCount;
    hide UpperBound;
    if n > 0 {
      ProcessKeepsLate(c, f, maxSize);
      assert Copies(f, n)[1..] == Copies(f, n - 1);
      CopiesUseSlots(ProcessFrame(c, f, maxSize).0, f, n - 1, maxSize);
    }
  }
}
