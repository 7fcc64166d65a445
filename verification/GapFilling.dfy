/** Filling the gaps of a reassembly with data that has arrived. */
module GapFilling {
  import opened Intervals

  /** The first gap that contains the offset, or the number of gaps. */
  function FindGap(gaps: seq<Interval>, offset: int): (i: nat)
    ensures i <= |gaps|
    ensures i < |gaps| ==> gaps[i].start <= offset < gaps[i].end
  {
    if gaps == [] || gaps[0].start <= offset < gaps[0].end then 0 else 1 + FindGap(gaps[1..], offset)
  }

  lemma {:induction false} FindGapIsFirst(gaps: seq<Interval>, offset: int, i: nat)
    requires i <= |gaps|
    requires forall j :: 0 <= j < i ==> !(gaps[j].start <= offset < gaps[j].end)
    requires i < |gaps| ==> gaps[i].start <= offset < gaps[i].end
    ensures FindGap(gaps, offset) == i
    decreases i
  {
    if i > 0 {
      assert !(gaps[0].start <= offset < gaps[0].end);
      FindGapIsFirst(gaps[1..], offset, i - 1);
    }
  }

  lemma {:induction false} FoundIffCovered(gaps: seq<Interval>, offset: int)
    ensures FindGap(gaps, offset) < |gaps| <==> Covers(gaps, offset)
    decreases |gaps|
  {
    if gaps != [] {
      CoversTail(gaps, offset);
      FoundIffCovered(gaps[1..], offset);
    }
  }

  /** What is left of a gap around the data [offset, end). */
  function Remainder(gap: Interval, offset: int, end: int): seq<Interval>
  {
    (if gap.start < offset then [Interval(gap.start, offset)] else [])
    + (if end < gap.end then [Interval(end, gap.end)] else [])
  }

  function Filled(gaps: seq<Interval>, offset: int, end: int): seq<Interval>
  {
    var i := FindGap(gaps, offset);
    if i == |gaps| then gaps else gaps[..i] + Remainder(gaps[i], offset, end) + gaps[i + 1..]
  }

  class ReassemblyState {
    var gaps: seq<Interval>

    constructor ()
      ensures gaps == []
    {
      gaps := [];
    }

    /** Answers whether some gap contains the offset, and cuts the data out of that gap. */
    method FillGap(offset: nat, data: seq<bv8>) returns (filled: bool)
      modifies this
      ensures filled <==> Covers(old(gaps), offset)
      ensures gaps == Filled(old(gaps), offset, offset + |data|)
    {
      hide Covers;
      FoundIffCovered(gaps, offset);
      var endOffset := offset + |data|;
      for i := 0 to |gaps|
        invariant gaps == old(gaps)
        invariant forall j :: 0 <= j < i ==> !(gaps[j].start <= offset < gaps[j].end)
      {
        var gap := gaps[i];
        if gap.start <= offset < gap.end {
          FindGapIsFirst(gaps, offset, i);
          if offset == gap.start && endOffset >= gap.end {
            gaps := gaps[..i] + gaps[i + 1..];
          } else if offset == gap.start {
            gaps := gaps[i := Interval(endOffset, gap.end)];
          } else if endOffset >= gap.end {
            gaps := gaps[i := Interval(gap.start, offset)];
          } else {
            gaps := gaps[i := Interval(gap.start, offset)];
            gaps := gaps[..i + 1] + ([Interval(endOffset, gap.end)] + gaps[i + 1..]);
          }
          assert gaps == Filled(old(gaps), offset, endOffset);
          return true;
        }
      }
      FindGapIsFirst(gaps, offset, |gaps|);
      filled := false;
    }
  }

  // ---------------------------------------------------------------------------
  // What is filled

  lemma CoversConcat(a: seq<Interval>, b: seq<Interval>, x: int)
    ensures Covers(a + b, x) <==> Covers(a, x) || Covers(b, x)
  {
    if Covers(a, x) {
      var i :| 0 <= i < |a| && a[i].start <= x < a[i].end;
      assert (a + b)[i] == a[i];
    }
    if Covers(b, x) {
      var i :| 0 <= i < |b| && b[i].start <= x < b[i].end;
      assert (a + b)[|a| + i] == b[i];
    }
  }

  lemma CoversOne(gap: Interval, x: int)
    ensures Covers([gap], x) <==> gap.start <= x < gap.end
  {
    if gap.start <= x < gap.end {
      assert [gap][0] == gap;
    }
  }

  lemma RemainderCovers(gap: Interval, offset: int, end: int, x: int)
    requires gap.start <= offset < gap.end && offset <= end
    ensures Covers(Remainder(gap, offset, end), x) <==> gap.start <= x < gap.end && !(offset <= x < end)
  {
    var left, right := Interval(gap.start, offset), Interval(end, gap.end);
    CoversConcat(if gap.start < offset then [left] else [], if end < gap.end then [right] else [], x);
    CoversOne(left, x);
    CoversOne(right, x);
  }

  /** Data is cut out of the gap its first byte falls in, and out of no other. */
  lemma FillCutsOneGap(gaps: seq<Interval>, offset: int, end: int, x: int)
    requires Canonical(gaps) && offset <= end
    ensures var i := FindGap(gaps, offset);
      Covers(Filled(gaps, offset, end), x) <==> Covers(gaps, x) && !(i < |gaps| && offset <= x < end && x < gaps[i].end)
  {
    hide Covers;
    hide Canonical;
    hide Remainder;
    var i := FindGap(gaps, offset);
    if i < |gaps| {
      var before, after := gaps[..i], gaps[i + 1..];
      assert gaps == before + [gaps[i]] + after;
      CoversConcat(before + [gaps[i]], after, x);
      CoversConcat(before, [gaps[i]], x);
      CoversOne(gaps[i], x);
      CoversConcat(before + Remainder(gaps[i], offset, end), after, x);
      CoversConcat(before, Remainder(gaps[i], offset, end), x);
      RemainderCovers(gaps[i], offset, end, x);
      OthersAreOutside(gaps, i, x);
    }
  }

  lemma OthersAreOutside(gaps: seq<Interval>, i: nat, x: int)
    requires Canonical(gaps) && i < |gaps|
    ensures gaps[i].start <= x < gaps[i].end ==> !Covers(gaps[..i], x) && !Covers(gaps[i + 1..], x)
  {
    var after := gaps[i + 1..];
    assert forall j :: 0 <= j < |after| ==> after[j] == gaps[i + 1 + j];
  }

  ghost predicate StartsInside(gaps: seq<Interval>, offset: int, end: int)
  {
    exists j :: 0 <= j < |gaps| && offset < gaps[j].start < end
  }

  ghost predicate FillIsExact(gaps: seq<Interval>, offset: int, end: int)
  {
    forall x :: Covers(Filled(gaps, offset, end), x) <==> Covers(gaps, x) && !(offset <= x < end)
  }

  /** Exactly the arrived bytes leave the gaps, unless a gap starts inside the data: then that gap
      stays although data for it has arrived. */
  lemma FillIsExactIff(gaps: seq<Interval>, offset: int, end: int)
    requires Canonical(gaps) && offset <= end
    ensures FillIsExact(gaps, offset, end) <==> !StartsInside(gaps, offset, end)
  {
    hide Filled;
    if StartsInside(gaps, offset, end) {
      var j :| 0 <= j < |gaps| && offset < gaps[j].start < end;
      GapStaysOpen(gaps, offset, end, j);
    } else {
      forall x ensures Covers(Filled(gaps, offset, end), x) <==> Covers(gaps, x) && !(offset <= x < end) {
        FillCutsOneGap(gaps, offset, end, x);
        if Covers(gaps, x) && offset <= x < end {
          InsideMeansFirst(gaps, offset, end, x);
        }
      }
    }
  }

  lemma GapStaysOpen(gaps: seq<Interval>, offset: int, end: int, j: nat)
    requires Canonical(gaps) && j < |gaps| && offset < gaps[j].start < end
    ensures Covers(Filled(gaps, offset, end), gaps[j].start) && Covers(gaps, gaps[j].start)
  {
    hide Filled;
    var x, i := gaps[j].start, FindGap(gaps, offset);
    FillCutsOneGap(gaps, offset, end, x);
    assert i < |gaps| ==> i < j;
  }

  lemma InsideMeansFirst(gaps: seq<Interval>, offset: int, end: int, x: int)
    requires Canonical(gaps) && !StartsInside(gaps, offset, end) && Covers(gaps, x) && offset <= x < end
    ensures var i := FindGap(gaps, offset); i < |gaps| && x < gaps[i].end
  {
    var j :| 0 <= j < |gaps| && gaps[j].start <= x < gaps[j].end;
    assert gaps[j].start <= offset;
    assert forall k :: 0 <= k < j ==> gaps[k].end < gaps[j].start;
    FindGapIsFirst(gaps, offset, j);
  }

  /** The gaps stay apart and non-empty, unless empty data falls strictly inside a gap: it splits
      the gap into two that touch. */
  lemma {:induction false} FillKeepsCanonicalIff(gaps: seq<Interval>, offset: int, end: int)
    requires Canonical(gaps) && offset <= end
    ensures var i := FindGap(gaps, offset);
      Canonical(Filled(gaps, offset, end)) <==> !(i < |gaps| && gaps[i].start < offset == end)
  {
    var i := FindGap(gaps, offset);
    if i < |gaps| {
      if gaps[i].start < offset == end {
        EmptyDataSplits(gaps, i, offset);
      } else {
        SpliceIsCanonical(gaps, i, Remainder(gaps[i], offset, end));
      }
    }
  }

  lemma EmptyDataSplits(gaps: seq<Interval>, i: nat, offset: int)
    requires i < |gaps| && gaps[i].start < offset < gaps[i].end
    ensures !Canonical(gaps[..i] + Remainder(gaps[i], offset, offset) + gaps[i + 1..])
  {
    var filled := gaps[..i] + Remainder(gaps[i], offset, offset) + gaps[i + 1..];
    assert filled[i].end == offset == filled[i + 1].start;
  }

  lemma SpliceIsCanonical(gaps: seq<Interval>, i: nat, r: seq<Interval>)
    requires Canonical(gaps) && i < |gaps| && Canonical(r)
    requires forall k :: 0 <= k < |r| ==> gaps[i].start <= r[k].start && r[k].end <= gaps[i].end
    ensures Canonical(gaps[..i] + r + gaps[i + 1..])
  {
    var s := gaps[..i] + r + gaps[i + 1..];
    forall a, b | 0 <= a < b < |s| ensures s[a].end < s[b].start {
      assert a < i ==> s[a] == gaps[a];
      assert i <= a < i + |r| ==> s[a] == r[a - i];
      assert a >= i + |r| ==> s[a] == gaps[a - |r| + 1];
      assert b < i ==> s[b] == gaps[b];
      assert i <= b < i + |r| ==> s[b] == r[b - i];
      assert b >= i + |r| ==> s[b] == gaps[b - |r| + 1];
      assert a < i ==> gaps[a].end < gaps[i].start;
      assert b >= i + |r| ==> gaps[i].end < gaps[b - |r| + 1].start;
    }
  }
}
