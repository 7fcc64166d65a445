/** Tracking received offsets with a sliding bitmap of 64-bit words. */
module OffsetTracker {
  import opened Intervals
  import opened WordBits

  // ---------------------------------------------------------------------------
  // The bitmap as a value

  function Zeros(n: nat): seq<Word>
  {
    seq(n, i => 0)
  }

  /** Bit i of the whole bitmap; positions outside it count as clear. */
  predicate BitAt(words: seq<Word>, i: int)
  {
    0 <= i < 64 * |words| && Bit(words[i / 64], i % 64)
  }

  function WithBit(words: seq<Word>, i: nat): (r: seq<Word>)
    requires i < 64 * |words|
    ensures |r| == |words|
  {
    There(i % 64);
    Less((i % 64) as bv8, 64);
    words[i / 64 := Or(words[i / 64], Mask((i % 64) as bv8))]
  }

  /** Dropping whole words at the front. */
  function DropWords(words: seq<Word>, n: nat): (r: seq<Word>)
    requires n <= |words|
    ensures |r| == |words|
  {
    words[n..] + Zeros(n)
  }

  /** Shifting by b further bits: the bits shifted out of a word enter the word AFTER it. */
  function ShiftBits(words: seq<Word>, b8: bv8): (r: seq<Word>)
    requires 0 < b8 < 64
    ensures |r| == |words|
  {
    seq(|words|, i requires 0 <= i < |words| =>
      ShiftIn(words[i], if i == 0 then 0 else words[i - 1], b8))
  }

  lemma ShiftBitsAt(words: seq<Word>, b8: bv8, k: nat)
    requires 0 < b8 < 64 && k < |words|
    ensures ShiftBits(words, b8)[k]
         == Or(RightBy(words[k], b8), LeftBy(if k == 0 then 0 else words[k - 1], 64 - b8))
  {
    hide Or, RightBy, LeftBy;
  }

  function Slide(words: seq<Word>, amount: nat): (r: seq<Word>)
    ensures |r| == |words|
  {
    if amount / 64 >= |words| then Zeros(|words|)
    else if amount % 64 == 0 then DropWords(words, amount / 64)
    else
      There(amount % 64);
      Less((amount % 64) as bv8, 64);
      Less(0, (amount % 64) as bv8);
      ShiftBits(DropWords(words, amount / 64), (amount % 64) as bv8)
  }

  lemma BitOfWithBit(words: seq<Word>, i: nat, j: int)
    requires i < 64 * |words|
    ensures BitAt(WithBit(words, i), j) <==> j == i || BitAt(words, j)
  {
    hide Bit, Or, Mask, ShiftIn;
    if 0 <= j < 64 * |words| && j / 64 == i / 64 {
      There(i % 64);
      BitOfSetBit(words[i / 64], (i % 64) as bv8, i % 64, j % 64);
    }
  }

  lemma BitOfZeros(n: nat, i: int)
    ensures !BitAt(Zeros(n), i)
  {
    hide Bit, Or, Mask, ShiftIn;
    if 0 <= i < 64 * n {
      ZeroHasNoBits(i % 64);
    }
  }

  lemma BitOfDropWords(words: seq<Word>, n: nat, i: int)
    requires n <= |words| && 0 <= i
    ensures BitAt(DropWords(words, n), i) <==> BitAt(words, i + 64 * n)
  {
    hide Bit, Or, Mask, ShiftIn;
    if i < 64 * |words| {
      assert (i + 64 * n) / 64 == i / 64 + n && (i + 64 * n) % 64 == i % 64;
      if i / 64 >= |words| - n {
        ZeroHasNoBits(i % 64);
      }
    }
  }

  /** Where bit k of word q comes from when b bits are shifted. */
  lemma BitOfShiftBits(words: seq<Word>, b8: bv8, b: nat, q: nat, k: nat)
    requires 0 < b < 64 && b8 as nat == b && q < |words| && k < 64
    ensures 0 < b8 < 64
    ensures BitAt(ShiftBits(words, b8), 64 * q + k)
       <==> if k + b < 64 then BitAt(words, 64 * q + k + b) else BitAt(words, 64 * (q - 1) + (k + b - 64))
  {
    hide Bit, Or, Mask, ShiftIn;
    Less(b8, 64);
    Less(0, b8);
    var y := if q == 0 then 0 else words[q - 1];
    BitOfShiftIn(words[q], y, b8, b, k);
    assert (64 * q + k) / 64 == q && (64 * q + k) % 64 == k;
    if k + b < 64 {
      assert (64 * q + k + b) / 64 == q && (64 * q + k + b) % 64 == k + b;
    } else if q > 0 {
      var p := 64 * (q - 1) + (k + b - 64);
      assert p / 64 == q - 1 && p % 64 == k + b - 64;
    } else {
      ZeroHasNoBits(k + b - 64);
    }
  }

  // ---------------------------------------------------------------------------
  // When a slide is exact

  /** Sliding by `amount` should move bit i + amount to position i. */
  ghost predicate Lands(words: seq<Word>, amount: nat, i: nat)
  {
    BitAt(Slide(words, amount), i) <==> BitAt(words, i + amount)
  }

  ghost predicate SlideIsExact(words: seq<Word>, amount: nat)
  {
    forall i: nat :: i < 64 * |words| ==> Lands(words, amount, i)
  }

  /** Low bit k of the words on either side of word q. */
  ghost predicate NeighboursAgree(words: seq<Word>, q: nat, k: nat)
  {
    BitAt(words, 64 * (q - 1) + k) <==> BitAt(words, 64 * (q + 1) + k)
  }

  /** Because carried bits go to the wrong neighbour, an unaligned slide is harmless only where
      the two neighbours of every word agree on the bits that are carried. */
  ghost predicate CarryIsHarmless(words: seq<Word>, amount: nat)
  {
    || amount / 64 >= |words|
    || amount % 64 == 0
    || forall q: nat, k: nat :: q < |words| && k < amount % 64 ==>
         NeighboursAgree(DropWords(words, amount / 64), q, k)
  }

  lemma AlignedSlideIsExact(words: seq<Word>, amount: nat)
    requires amount / 64 >= |words| || amount % 64 == 0
    ensures SlideIsExact(words, amount)
  {
    hide Bit, ShiftBits, DropWords, WithBit;
    forall i: nat | i < 64 * |words|
      ensures Lands(words, amount, i)
    {
      if amount / 64 >= |words| {
        BitOfZeros(|words|, i);
      } else {
        BitOfDropWords(words, amount / 64, i);
      }
    }
  }

  /** Bit 64q + k lands unless it is carried, and then it lands iff the neighbours agree. */
  lemma UnalignedBit(words: seq<Word>, amount: nat, q: nat, k: nat)
    requires amount / 64 < |words| && amount % 64 != 0 && q < |words| && k < 64
    ensures k + amount % 64 < 64 ==> Lands(words, amount, 64 * q + k)
    ensures k + amount % 64 >= 64 ==>
              (Lands(words, amount, 64 * q + k)
               <==> NeighboursAgree(DropWords(words, amount / 64), q, k + amount % 64 - 64))
  {
    hide Bit, ShiftBits, DropWords, WithBit;
    var n, b := amount / 64, amount % 64;
    var dropped := DropWords(words, n);
    There(b);
    BitOfShiftBits(dropped, b as bv8, b, q, k);
    BitOfDropWords(words, n, 64 * q + k + b);
    assert 64 * q + k + b + 64 * n == 64 * q + k + amount;
  }

  /** The exact condition under which a slide keeps every bit in its place. */
  lemma SlideIsExactIff(words: seq<Word>, amount: nat)
    ensures SlideIsExact(words, amount) <==> CarryIsHarmless(words, amount)
  {
    hide Bit, ShiftBits, DropWords, WithBit;
    if amount / 64 >= |words| || amount % 64 == 0 {
      AlignedSlideIsExact(words, amount);
    } else {
      var b := amount % 64;
      if SlideIsExact(words, amount) {
        forall q: nat, k: nat | q < |words| && k < b
          ensures NeighboursAgree(DropWords(words, amount / 64), q, k)
        {
          UnalignedBit(words, amount, q, k + 64 - b);
          assert Lands(words, amount, 64 * q + (k + 64 - b));
        }
      }
      if CarryIsHarmless(words, amount) {
        forall i: nat | i < 64 * |words|
          ensures Lands(words, amount, i)
        {
          UnalignedBit(words, amount, i / 64, i % 64);
          assert i == 64 * (i / 64) + i % 64;
          assert i % 64 + b >= 64 ==>
              NeighboursAgree(DropWords(words, amount / 64), i / 64, i % 64 + b - 64);
        }
      }
    }
  }

  /** Slides by whole words, slides past the whole bitmap and one-word bitmaps are safe
      whatever the bitmap holds ... */
  lemma GuardedSlideIsExact(words: seq<Word>, amount: nat)
    requires amount % 64 == 0 || amount / 64 >= |words| || |words| == 1
    ensures SlideIsExact(words, amount)
  {
    hide Bit, ShiftBits, DropWords, WithBit;
    SlideIsExactIff(words, amount);
  }

  /** ... and for every other size and amount some bitmap is corrupted. */
  lemma OtherSlidesCorrupt(n: nat, amount: nat) returns (words: seq<Word>)
    requires amount % 64 != 0 && amount / 64 < n && n != 1
    ensures |words| == n && !SlideIsExact(words, amount)
  {
    var m := amount / 64;
    words := Zeros(n)[m := 1];
    var dropped := DropWords(words, m);
    assert dropped[0] == 1 && forall i :: 0 < i < n ==> dropped[i] == 0;
    assert Bit(1, 0);
    assert BitAt(dropped, 0);
    assert !BitAt(dropped, 128) by {
      if n > 2 {
        ZeroHasNoBits(0);
      }
    }
    assert !NeighboursAgree(dropped, 1, 0);
    SlideIsExactIff(words, amount);
  }

  /** Which slides are exact on every bitmap of a size. */
  lemma SlideIsAlwaysExactIff(n: nat, amount: nat)
    ensures (forall words: seq<Word> :: |words| == n ==> SlideIsExact(words, amount))
       <==> amount % 64 == 0 || amount / 64 >= n || n == 1
  {
    if amount % 64 == 0 || amount / 64 >= n || n == 1 {
      forall words: seq<Word> | |words| == n ensures SlideIsExact(words, amount) {
        GuardedSlideIsExact(words, amount);
      }
    } else {
      var words := OtherSlidesCorrupt(n, amount);
    }
  }

  // ---------------------------------------------------------------------------
  // The tracker as a value

  datatype Tracker = Tracker(words: seq<Word>, base: nat, window: nat)

  predicate WellFormed(t: Tracker)
  {
    t.window >= 1 && |t.words| == (t.window + 63) / 64
  }

  predicate Received(t: Tracker, offset: int)
  {
    t.base <= offset < t.base + t.window && BitAt(t.words, offset - t.base)
  }

  function SlideAmount(t: Tracker, newOffset: nat): int
  {
    newOffset - t.base - t.window / 2
  }

  function SlideWindow(t: Tracker, newOffset: nat): Tracker
    requires newOffset >= t.base + t.window
  {
    Tracker(Slide(t.words, SlideAmount(t, newOffset)), t.base + SlideAmount(t, newOffset), t.window)
  }

  function Mark(t: Tracker, offset: nat): (Tracker, bool)
    requires WellFormed(t)
  {
    if offset < t.base then (t, false)
    else
      var s := if offset >= t.base + t.window then SlideWindow(t, offset) else t;
      if BitAt(s.words, offset - s.base) then (s, false)
      else (s.(words := WithBit(s.words, offset - s.base)), true)
  }

  /** The bitmap stands for the marked offsets from the base on, and holds nothing else. */
  ghost predicate TracksSet(t: Tracker, marked: set<nat>)
  {
    && (forall o: nat :: Received(t, o) <==> o in marked && t.base <= o)
    && (forall i: nat :: t.window <= i ==> !BitAt(t.words, i))
  }

  lemma SlideTracksSet(t: Tracker, newOffset: nat, marked: set<nat>)
    requires WellFormed(t) && TracksSet(t, marked) && newOffset >= t.base + t.window
    requires CarryIsHarmless(t.words, SlideAmount(t, newOffset))
    ensures TracksSet(SlideWindow(t, newOffset), marked)
  {
    hide Bit, ShiftBits, DropWords, WithBit;
    var amount: nat := SlideAmount(t, newOffset);
    var s := SlideWindow(t, newOffset);
    SlideIsExactIff(t.words, amount);
    forall i: nat
      ensures BitAt(s.words, i) <==> BitAt(t.words, i + amount)
    {
      if i < 64 * |t.words| {
        assert Lands(t.words, amount, i);
      }
    }
    forall o: nat
      ensures Received(s, o) <==> o in marked && s.base <= o
    {
      if s.base <= o {
        assert o - s.base + amount == o - t.base;
        assert Received(s, o) <==> o - s.base < t.window && BitAt(t.words, o - t.base);
        assert Received(t, o) <==> o in marked && t.base <= o;
        assert o - t.base >= t.window ==> !BitAt(t.words, o - t.base);
      }
    }
  }

  /** The bitmap refines a set. A call reports success exactly for offsets at or above the base
      that are not in the set yet, and sliding forgets exactly the offsets below the new base;
      the only condition is that a slide, if one is needed, is harmless. */
  lemma MarkRefinesSet(t: Tracker, offset: nat, marked: set<nat>)
    requires WellFormed(t) && TracksSet(t, marked)
    requires offset >= t.base + t.window ==> CarryIsHarmless(t.words, SlideAmount(t, offset))
    ensures var (t', isNew) := Mark(t, offset);
            && WellFormed(t')
            && TracksSet(t', if offset < t.base then marked else marked + {offset})
            && (isNew <==> t.base <= offset && offset !in marked)
            && t.base <= t'.base
            && (t.base <= offset ==> Received(t', offset))
  {
    hide Bit, ShiftBits, DropWords, WithBit;
    if t.base <= offset {
      var s := if offset >= t.base + t.window then SlideWindow(t, offset) else t;
      if offset >= t.base + t.window {
        SlideTracksSet(t, offset, marked);
      }
      var i := offset - s.base;
      assert 0 <= i < s.window;
      assert Received(s, offset) <==> offset in marked;
      var t' := Mark(t, offset).0;
      forall j: nat
        ensures BitAt(t'.words, j) <==> j == i || BitAt(s.words, j)
      {
        BitOfWithBit(s.words, i, j);
      }
      forall o: nat
        ensures Received(t', o) <==> o in marked + {offset} && t'.base <= o
      {
        assert Received(s, o) <==> o in marked && s.base <= o;
      }
    }
  }

  /** At set level too, a slide is right exactly when its carry is harmless. */
  lemma SlideTracksSetIff(t: Tracker, newOffset: nat, marked: set<nat>)
    requires WellFormed(t) && TracksSet(t, marked) && newOffset >= t.base + t.window
    ensures TracksSet(SlideWindow(t, newOffset), marked) <==> CarryIsHarmless(t.words, SlideAmount(t, newOffset))
  {
    hide BitAt, CarryIsHarmless, Slide;
    var amount: nat := SlideAmount(t, newOffset);
    if CarryIsHarmless(t.words, amount) {
      SlideTracksSet(t, newOffset, marked);
    }
    if TracksSet(SlideWindow(t, newOffset), marked) {
      forall i: nat | i < 64 * |t.words| ensures Lands(t.words, amount, i) {
        TrackedBitLands(t, newOffset, marked, i);
      }
      SlideIsExactIff(t.words, amount);
    }
  }

  lemma TrackedBitLands(t: Tracker, newOffset: nat, marked: set<nat>, i: nat)
    requires TracksSet(t, marked) && newOffset >= t.base + t.window && TracksSet(SlideWindow(t, newOffset), marked)
    ensures Lands(t.words, SlideAmount(t, newOffset), i)
  {
    hide BitAt, Slide;
    var amount: nat := SlideAmount(t, newOffset);
    var s := SlideWindow(t, newOffset);
    if i < t.window {
      assert s.base + i == t.base + (i + amount);
      assert Received(s, s.base + i) <==> BitAt(s.words, i);
      assert Received(t, s.base + i) <==> i + amount < t.window && BitAt(t.words, i + amount);
    }
  }

  /** The exact condition for a call to be right, in what it answers and in what it leaves: the
      slide it needs, if any, is harmless. */
  lemma MarkRefinesSetIff(t: Tracker, offset: nat, marked: set<nat>)
    requires WellFormed(t) && TracksSet(t, marked)
    ensures var (t', isNew) := Mark(t, offset);
      && TracksSet(t', if offset < t.base then marked else marked + {offset})
      && (isNew <==> t.base <= offset && offset !in marked)
      <==> (offset >= t.base + t.window ==> CarryIsHarmless(t.words, SlideAmount(t, offset)))
  {
    hide BitAt, CarryIsHarmless, Slide, WithBit;
    var (t', isNew) := Mark(t, offset);
    if offset >= t.base + t.window ==> CarryIsHarmless(t.words, SlideAmount(t, offset)) {
      MarkRefinesSet(t, offset, marked);
    }
    if offset >= t.base + t.window {
      assert Received(t, offset) <==> offset in marked;
      if isNew && TracksSet(t', marked + {offset}) {
        UnmarkedStillTracks(SlideWindow(t, offset), offset, marked);
        SlideTracksSetIff(t, offset, marked);
      }
    }
  }

  lemma UnmarkedStillTracks(s: Tracker, offset: nat, marked: set<nat>)
    requires WellFormed(s) && s.base <= offset < s.base + s.window && offset !in marked
    requires !BitAt(s.words, offset - s.base)
    requires TracksSet(s.(words := WithBit(s.words, offset - s.base)), marked + {offset})
    ensures TracksSet(s, marked)
  {
    hide BitAt, WithBit;
    var t := s.(words := WithBit(s.words, offset - s.base));
    forall i: int ensures BitAt(t.words, i) <==> i == offset - s.base || BitAt(s.words, i) {
      BitOfWithBit(s.words, offset - s.base, i);
    }
    forall o: nat ensures Received(s, o) <==> o in marked && s.base <= o {
      assert Received(t, o) <==> o in marked + {offset} && t.base <= o;
    }
  }

  // ---------------------------------------------------------------------------
  // Runs of calls

  function MarkedAfter(t: Tracker, offset: nat, marked: set<nat>): set<nat>
  {
    if offset < t.base then marked else marked + {offset}
  }

  /** The call answers whether the offset is new, and leaves the bitmap of the set with it added. */
  ghost predicate MarkIsRight(t: Tracker, offset: nat, marked: set<nat>)
    requires WellFormed(t)
  {
    var (t', isNew) := Mark(t, offset);
    TracksSet(t', MarkedAfter(t, offset, marked)) && (isNew <==> t.base <= offset && offset !in marked)
  }

  ghost predicate SlideIsHarmless(t: Tracker, offset: nat)
  {
    offset >= t.base + t.window ==> CarryIsHarmless(t.words, SlideAmount(t, offset))
  }

  lemma MarkKeepsWellFormed(t: Tracker, offset: nat)
    requires WellFormed(t)
    ensures WellFormed(Mark(t, offset).0)
  {
  }

  ghost predicate EveryMarkIsRight(t: Tracker, offsets: seq<nat>, marked: set<nat>)
    requires WellFormed(t)
    decreases |offsets|
  {
    offsets == [] || (
      && MarkIsRight(t, offsets[0], marked)
      && (MarkKeepsWellFormed(t, offsets[0]);
          EveryMarkIsRight(Mark(t, offsets[0]).0, offsets[1..], MarkedAfter(t, offsets[0], marked))))
  }

  ghost predicate EverySlideIsHarmless(t: Tracker, offsets: seq<nat>)
    requires WellFormed(t)
    decreases |offsets|
  {
    offsets == [] || (
      && SlideIsHarmless(t, offsets[0])
      && (MarkKeepsWellFormed(t, offsets[0]); EverySlideIsHarmless(Mark(t, offsets[0]).0, offsets[1..])))
  }

  /** Over whole sequences of calls: every one answers rightly and leaves the right set exactly when
      every slide of the sequence has a harmless carry. */
  lemma {:induction false} EveryMarkIsRightIff(t: Tracker, offsets: seq<nat>, marked: set<nat>)
    requires WellFormed(t) && TracksSet(t, marked)
    ensures EveryMarkIsRight(t, offsets, marked) <==> EverySlideIsHarmless(t, offsets)
    decreases |offsets|
  {
    if offsets != [] {
      MarkIsRightIff(t, offsets[0], marked);
      hide Mark, MarkIsRight, SlideIsHarmless, TracksSet, WellFormed, MarkedAfter;
      MarkKeepsWellFormed(t, offsets[0]);
      if SlideIsHarmless(t, offsets[0]) {
        EveryMarkIsRightIff(Mark(t, offsets[0]).0, offsets[1..], MarkedAfter(t, offsets[0], marked));
      }
    }
  }

  lemma MarkIsRightIff(t: Tracker, offset: nat, marked: set<nat>)
    requires WellFormed(t) && TracksSet(t, marked)
    ensures MarkIsRight(t, offset, marked) <==> SlideIsHarmless(t, offset)
    ensures MarkIsRight(t, offset, marked) ==> TracksSet(Mark(t, offset).0, MarkedAfter(t, offset, marked))
  {
    hide Mark, TracksSet, WellFormed, CarryIsHarmless;
    MarkRefinesSetIff(t, offset, marked);
  }

  /** A new tracker is right about every sequence of offsets whose slides are all harmless, and about
      no other. */
  lemma FreshTrackerIsRightIff(window: nat, offsets: seq<nat>)
    requires window >= 1
    ensures WellFormed(Fresh(window))
    ensures EveryMarkIsRight(Fresh(window), offsets, {}) <==> EverySlideIsHarmless(Fresh(window), offsets)
  {
    FreshTracksNothing(window);
    EveryMarkIsRightIff(Fresh(window), offsets, {});
  }

  // ---------------------------------------------------------------------------
  // Where the window lies

  function MarkAll(t: Tracker, offsets: seq<nat>): (r: Tracker)
    requires WellFormed(t)
    ensures WellFormed(r) && r.window == t.window
    decreases |offsets|
  {
    if offsets == [] then t
    else
      MarkKeepsWellFormed(t, offsets[0]);
      MarkAll(Mark(t, offsets[0]).0, offsets[1..])
  }

  function Largest(start: nat, offsets: seq<nat>): nat
    decreases |offsets|
  {
    if offsets == [] then start else Largest(if offsets[0] > start then offsets[0] else start, offsets[1..])
  }

  /** The window of every run: it covers the largest offset, and once it has moved, an offset of the
      run lies at its middle, so it never moves further than that offset asked. */
  ghost predicate WindowFits(t: Tracker, seen: set<nat>, largest: nat)
  {
    && largest < t.base + t.window
    && (t.base > 0 ==> t.base + t.window / 2 in seen && t.base + t.window / 2 <= largest)
  }

  lemma {:induction false} WindowFollowsLargest(t: Tracker, offsets: seq<nat>, seen: set<nat>, largest: nat)
    requires WellFormed(t) && WindowFits(t, seen, largest)
    ensures WindowFits(MarkAll(t, offsets), seen + (set o | o in offsets), Largest(largest, offsets))
    decreases |offsets|
  {
    hide BitAt, WithBit, Slide;
    if offsets != [] {
      var o := offsets[0];
      var t', largest' := Mark(t, o).0, if o > largest then o else largest;
      assert WindowFits(t', seen + {o}, largest');
      MarkKeepsWellFormed(t, o);
      WindowFollowsLargest(t', offsets[1..], seen + {o}, largest');
      assert seen + {o} + (set x | x in offsets[1..]) == seen + (set x | x in offsets);
    } else {
      assert seen + (set o | o in offsets) == seen;
    }
  }

  /** From a new tracker: the largest offset is always inside the window, and the base is 0 or half a
      window below an offset of the run. */
  lemma WindowOfRun(window: nat, offsets: seq<nat>)
    requires window >= 1 && WellFormed(Fresh(window))
    ensures var t := MarkAll(Fresh(window), offsets);
      && Largest(0, offsets) < t.base + window
      && (t.base > 0 ==> t.base + window / 2 in offsets && t.base + window / 2 <= Largest(0, offsets))
  {
    WindowFollowsLargest(Fresh(window), offsets, {0}, 0);
    var t := MarkAll(Fresh(window), offsets);
    var seen := {0} + (set o | o in offsets);
    if t.base > 0 {
      assert t.base + window / 2 in seen && t.base + window / 2 > 0;
    }
  }

  // ---------------------------------------------------------------------------
  // Wrong answers the program can reach

  function Fresh(window: nat): Tracker
  {
    Tracker(Zeros((window + 63) / 64), 0, window)
  }

  lemma FreshTracksNothing(window: nat)
    requires window >= 1
    ensures WellFormed(Fresh(window)) && TracksSet(Fresh(window), {})
  {
    hide BitAt;
    forall i: int ensures !BitAt(Fresh(window).words, i) {
      BitOfZeros((window + 63) / 64, i);
    }
  }

  /** For every window of more than one word and every first slide that is neither by whole words
      nor past the bitmap, two calls on a fresh tracker give a wrong answer or leave a wrong set. */
  lemma FreshTrackerCanFail(window: nat, offset: nat)
    requires window > 64 && offset >= window
    requires var amount := offset - window / 2; amount % 64 != 0 && amount / 64 < (window + 63) / 64
    ensures var first := (offset - window / 2) / 64 * 64;
      && first < window
      && var t := Mark(Fresh(window), first).0;
      && WellFormed(t)
      && var (t', isNew) := Mark(t, offset);
      !(TracksSet(t', {first, offset}) && isNew)
  {
    hide BitAt, Slide, WithBit, DropWords;
    var amount := offset - window / 2;
    var first := amount / 64 * 64;
    FreshTracksNothing(window);
    MarkRefinesSet(Fresh(window), first, {});
    var t := Mark(Fresh(window), first).0;
    BitOfZeros((window + 63) / 64, first);
    assert t == Tracker(WithBit(Zeros((window + 63) / 64), first), 0, window);
    OneBitIsCarried(|t.words|, amount);
    MarkRefinesSetIff(t, offset, {first});
    assert {first} + {offset} == {first, offset} && {} + {first} == {first};
  }

  lemma OneBitIsCarried(n: nat, amount: nat)
    requires amount % 64 != 0 && amount / 64 < n && n >= 2
    ensures !CarryIsHarmless(WithBit(Zeros(n), amount / 64 * 64), amount)
  {
    hide BitAt, WithBit, DropWords;
    var m := amount / 64;
    var words := WithBit(Zeros(n), 64 * m);
    BitOfWithBit(Zeros(n), 64 * m, 64 * m);
    BitOfWithBit(Zeros(n), 64 * m, 64 * m + 128);
    BitOfZeros(n, 64 * m + 128);
    BitOfDropWords(words, m, 0);
    BitOfDropWords(words, m, 128);
    assert !NeighboursAgree(DropWords(words, m), 1, 0);
  }

  /** For example with a window of 128: after offsets 64 and 129, offset 192 counts as received
      although it never was, and its data is refused. */
  lemma NewDataRefused()
    ensures var t := Mark(Mark(Fresh(128), 64).0, 129).0;
      && WellFormed(t) && Received(t, 192) && Mark(t, 192) == (t, false)
  {
    hide Bit, WithBit, DropWords, ShiftBits;
    FreshTracksNothing(128);
    MarkRefinesSet(Fresh(128), 64, {});
    BitOfZeros(2, 64);
    var t := Mark(Fresh(128), 64).0;
    assert t == Tracker(WithBit(Zeros(2), 64), 0, 128);
    var slid := Slide(t.words, 65);
    hide Slide;
    CarriedIntoLastWord();
    BitOfWithBit(slid, 64, 127);
    assert SlideWindow(t, 129) == Tracker(slid, 65, 128);
  }

  lemma CarriedIntoLastWord()
    ensures BitAt(Slide(WithBit(Zeros(2), 64), 65), 127)
  {
    hide Bit, WithBit, DropWords, ShiftBits;
    var words := WithBit(Zeros(2), 64);
    var dropped := DropWords(words, 1);
    BitOfWithBit(Zeros(2), 64, 64);
    BitOfDropWords(words, 1, 0);
    There(1);
    BitOfShiftBits(dropped, 1, 1, 1, 63);
    assert Slide(words, 65) == ShiftBits(dropped, 1);
  }

  // ---------------------------------------------------------------------------
  // Gap lists

  ghost predicate Missing(t: Tracker, bound: int, x: int)
  {
    t.base <= x < bound && !Received(t, x)
  }

  /** The canonical list of what is missing in [base, bound). */
  ghost predicate ListsMissing(gaps: seq<Range>, t: Tracker, bound: int)
  {
    && Canonical(Spans(gaps))
    && forall x :: Covers(Spans(gaps), x) <==> Missing(t, bound, x)
  }

  /** Closing a run of missing offsets that started at `start` and was preceded by a
      received offset or by the base. */
  lemma CloseGap(gaps: seq<Range>, t: Tracker, start: nat, offset: nat)
    requires ListsMissing(gaps, t, start) && start < offset
    requires gaps != [] ==> gaps[|gaps| - 1].end + 1 < start
    requires t.base <= start && forall x :: start <= x < offset ==> !Received(t, x)
    ensures ListsMissing(gaps + [Range(start, offset - 1)], t, offset)
  {
    var gap := Interval(start, offset);
    var gaps' := gaps + [Range(start, offset - 1)];
    assert Spans(gaps') == Spans(gaps) + [gap];
    AppendIsCanonical(Spans(gaps), gap);
    forall x
      ensures Covers(Spans(gaps'), x) <==> Missing(t, offset, x)
    {
      CoversAppend(Spans(gaps), gap, x);
      assert Covers(Spans(gaps), x) <==> Missing(t, start, x);
    }
  }

  lemma NoGapsYet(t: Tracker, bound: int)
    requires bound <= t.base
    ensures ListsMissing([], t, bound)
  {
  }

  /** A received offset extends the part already listed. */
  lemma SkipReceived(gaps: seq<Range>, t: Tracker, offset: nat)
    requires ListsMissing(gaps, t, offset) && (Received(t, offset) || offset < t.base)
    ensures ListsMissing(gaps, t, offset + 1)
  {
    forall x
      ensures Covers(Spans(gaps), x) <==> Missing(t, offset + 1, x)
    {
      assert Covers(Spans(gaps), x) <==> Missing(t, offset, x);
    }
  }

  /** The scan for gaps: the gaps closed so far, and where an open one starts. */
  datatype Scan = Scan(gaps: seq<Range>, inGap: bool, start: nat)

  /** Everything before offset is accounted for. */
  ghost predicate Scanned(s: Scan, t: Tracker, offset: nat)
  {
    var bound := if s.inGap then s.start else offset;
    && ListsMissing(s.gaps, t, bound)
    && (s.gaps != [] ==> s.gaps[|s.gaps| - 1].end + 1 < bound)
    && (s.inGap ==> t.base <= s.start < offset && forall x :: s.start <= x < offset ==> !Received(t, x))
  }

  lemma NothingScanned(t: Tracker)
    ensures Scanned(Scan([], false, 0), t, t.base)
  {
    NoGapsYet(t, t.base);
  }

  function Closed(s: Scan, offset: nat): Scan
    requires s.inGap ==> offset > 0
  {
    if s.inGap then Scan(s.gaps + [Range(s.start, offset - 1)], false, s.start) else s
  }

  function ScanNext(s: Scan, received: bool, offset: nat): Scan
    requires s.inGap ==> offset > 0
  {
    if received then Closed(s, offset)
    else if s.inGap then s
    else s.(inGap := true, start := offset)
  }

  lemma CloseScan(s: Scan, t: Tracker, offset: nat)
    requires Scanned(s, t, offset)
    ensures (s.inGap ==> offset > 0) && ListsMissing(Closed(s, offset).gaps, t, offset)
    ensures Closed(s, offset).gaps != [] ==> Closed(s, offset).gaps[|Closed(s, offset).gaps| - 1].end < offset
  {
    hide ListsMissing, Received;
    if s.inGap {
      CloseGap(s.gaps, t, s.start, offset);
    }
  }

  lemma ScanStep(s: Scan, t: Tracker, offset: nat)
    requires Scanned(s, t, offset) && t.base <= offset
    ensures s.inGap ==> offset > 0
    ensures Scanned(ScanNext(s, Received(t, offset), offset), t, offset + 1)
  {
    hide ListsMissing, Received;
    if Received(t, offset) {
      CloseScan(s, t, offset);
      SkipReceived(Closed(s, offset).gaps, t, offset);
    }
  }

  // ---------------------------------------------------------------------------
  // The tracker

  class BitmapTracker {
    const bitmap: array<Word>
    const windowSize: nat
    var baseOffset: nat
    var nextExpected: nat

    ghost predicate Valid()
      reads this, bitmap
    {
      WellFormed(View())
    }

    ghost function View(): Tracker
      reads this, bitmap
    {
      Tracker(bitmap[..], baseOffset, windowSize)
    }

    constructor (windowSize: nat)
      requires windowSize >= 1
      ensures Valid() && fresh(bitmap)
      ensures TracksSet(View(), {}) && baseOffset == 0 && this.windowSize == windowSize && nextExpected == 0
    {
      var bitmapSize := (windowSize + 63) / 64;
      bitmap := new Word[bitmapSize](i => 0);
      this.windowSize := windowSize;
      baseOffset, nextExpected := 0, 0;
      new;
      assert bitmap[..] == Zeros(bitmapSize);
      forall i: int
        ensures !BitAt(bitmap[..], i)
      {
        BitOfZeros(bitmapSize, i);
      }
    }

    method MarkReceived(offset: nat) returns (isNew: bool)
      requires Valid()
      modifies this`baseOffset, bitmap
      ensures Valid()
      ensures (View(), isNew) == Mark(old(View()), offset)
    {
      hide Slide, BitAt, WithBit;
      if offset < baseOffset || offset >= baseOffset + windowSize {
        if offset >= baseOffset + windowSize {
          SlideTo(offset);
        } else {
          return false;
        }
      }
      isNew := MarkInWindow(offset - baseOffset);
    }

    method MarkInWindow(relativeOffset: nat) returns (isNew: bool)
      requires Valid() && relativeOffset < windowSize
      modifies bitmap
      ensures isNew <==> !BitAt(old(bitmap[..]), relativeOffset)
      ensures bitmap[..] == if isNew then WithBit(old(bitmap[..]), relativeOffset) else old(bitmap[..])
    {
      hide Bit8, Or, Mask, TestMask;
      ghost var words := bitmap[..];
      var wordIndex := relativeOffset / 64;
      var bitIndex := relativeOffset % 64;
      There(bitIndex);
      Less(bitIndex as bv8, 64);
      MaskTestsBit(bitmap[wordIndex], bitIndex as bv8, bitIndex);
      assert TestMask(bitmap[wordIndex], Mask(bitIndex as bv8)) == BitAt(words, relativeOffset);
      if TestMask(bitmap[wordIndex], Mask(bitIndex as bv8)) {
        return false;
      }
      bitmap[wordIndex] := Or(bitmap[wordIndex], Mask(bitIndex as bv8));
      assert bitmap[..] == WithBit(words, relativeOffset);
      return true;
    }

    method IsReceived(offset: nat) returns (r: bool)
      requires Valid()
      ensures r == Received(View(), offset)
    {
      if offset < baseOffset || offset >= baseOffset + windowSize {
        return false;
      }
      var relativeOffset := offset - baseOffset;
      var wordIndex := relativeOffset / 64;
      var bitIndex := relativeOffset % 64;
      There(bitIndex);
      Less(bitIndex as bv8, 64);
      MaskTestsBit(bitmap[wordIndex], bitIndex as bv8, bitIndex);
      return TestMask(bitmap[wordIndex], Mask(bitIndex as bv8));
    }

    method SlideTo(newOffset: nat)
      requires Valid() && newOffset >= baseOffset + windowSize
      modifies this`baseOffset, bitmap
      ensures View() == SlideWindow(old(View()), newOffset)
    {
      hide Slide;
      var slideAmount := newOffset - baseOffset - windowSize / 2;
      SlideBitmap(slideAmount);
      baseOffset := baseOffset + slideAmount;
    }

    method SlideBitmap(slideAmount: nat)
      modifies bitmap
      ensures bitmap[..] == Slide(old(bitmap[..]), slideAmount)
    {
      hide ShiftBits, DropWords;
      var slideWords := slideAmount / 64;
      var slideBits := slideAmount % 64;
      if slideWords >= bitmap.Length {
        for i := 0 to bitmap.Length
          invariant forall k :: 0 <= k < i ==> bitmap[k] == 0
        {
          bitmap[i] := 0;
        }
        assert bitmap[..] == Zeros(bitmap.Length);
      } else {
        DropWordsInPlace(slideWords);
        if slideBits > 0 {
          There(slideBits);
          Less(slideBits as bv8, 64);
          Less(0, slideBits as bv8);
          ShiftBitsInPlace(slideBits as bv8);
        }
      }
    }

    method DropWordsInPlace(slideWords: nat)
      requires slideWords < bitmap.Length
      modifies bitmap
      ensures bitmap[..] == DropWords(old(bitmap[..]), slideWords)
    {
      for i := 0 to bitmap.Length - slideWords
        invariant forall k :: 0 <= k < i ==> bitmap[k] == old(bitmap[k + slideWords])
        invariant forall k :: i <= k < bitmap.Length ==> bitmap[k] == old(bitmap[k])
      {
        bitmap[i] := bitmap[i + slideWords];
      }
      for i := bitmap.Length - slideWords to bitmap.Length
        invariant forall k :: 0 <= k < bitmap.Length - slideWords ==> bitmap[k] == old(bitmap[k + slideWords])
        invariant forall k :: bitmap.Length - slideWords <= k < i ==> bitmap[k] == 0
      {
        bitmap[i] := 0;
      }
    }

    /** The carry of word i goes into word i + 1. */
    method ShiftBitsInPlace(slideBits: bv8)
      requires 0 < slideBits < 64
      modifies bitmap
      ensures bitmap[..] == ShiftBits(old(bitmap[..]), slideBits)
    {
      hide LeftBy, RightBy, Or, ShiftIn, ShiftBits;
      ghost var words := bitmap[..];
      ghost var shifted := ShiftBits(words, slideBits);
      var rest := 64 - slideBits;
      LeftOfZero(rest);
      var carry: Word := 0;
      for i := 0 to bitmap.Length
        invariant carry == LeftBy(if i == 0 then 0 else words[i - 1], rest)
        invariant bitmap[..i] == shifted[..i]
        invariant bitmap[i..] == words[i..]
      {
        ShiftBitsAt(words, slideBits, i);
        assert bitmap[i] == words[i];
        var newCarry := LeftBy(bitmap[i], rest);
        bitmap[i] := Or(RightBy(bitmap[i], slideBits), carry);
        carry := newCarry;
      }
    }

    /** The exact maximal missing runs from the base up to maxOffset or the end of the window. */
    method GetGaps(maxOffset: nat) returns (gaps: seq<Range>)
      requires Valid()
      ensures var end := baseOffset + windowSize;
        ListsMissing(gaps, View(), if maxOffset < end then maxOffset else end)
    {
      gaps := [];
      NoGapsYet(View(), baseOffset);
      if maxOffset < baseOffset {
        NoGapsYet(View(), maxOffset);
      }
      hide Scanned, ListsMissing, Received;
      var currentGapStart: nat := 0;
      var inGap := false;
      var endOffset := maxOffset;
      if endOffset > baseOffset + windowSize {
        endOffset := baseOffset + windowSize;
      }
      ghost var t := View();
      var offset: nat := baseOffset;
      NothingScanned(t);
      while offset < endOffset
        invariant baseOffset <= offset && (offset <= endOffset || offset == baseOffset)
        invariant offset == baseOffset ==> gaps == [] && !inGap
        invariant Scanned(Scan(gaps, inGap, currentGapStart), t, offset)
      {
        ScanStep(Scan(gaps, inGap, currentGapStart), t, offset);
        var received := IsReceived(offset);
        if !received && !inGap {
          currentGapStart := offset;
          inGap := true;
        } else if received && inGap {
          gaps := gaps + [Range(currentGapStart, offset - 1)];
          inGap := false;
        }
        offset := offset + 1;
      }
      CloseScan(Scan(gaps, inGap, currentGapStart), t, offset);
      if inGap {
        gaps := gaps + [Range(currentGapStart, endOffset - 1)];
      }
    }
  }
}
