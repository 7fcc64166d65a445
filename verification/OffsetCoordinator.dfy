/** Offset bookkeeping of one stream: which offsets have been received, which gaps remain,
    and which ranges have been reserved for sending. */
module OffsetCoordinator {
  import opened Intervals

  /** One reservation; `reserved` is cleared when it is committed. */
  datatype Reservation = Reservation(start: int, end: int, reserved: bool, reservedAt: int)

  datatype OffsetGap = OffsetGap(start: int, end: int, size: int)

  // ---------------------------------------------------------------------------
  // Sorting and merging, as values

  ghost predicate SortedByStart(list: seq<Interval>)
  {
    forall i, j :: 0 <= i < j < |list| ==> list[i].start <= list[j].start
  }

  /** sort.Slice is not stable: any sorted permutation is a possible result. */
  ghost predicate SortOf(sorted: seq<Interval>, list: seq<Interval>)
  {
    SortedByStart(sorted) && multiset(sorted) == multiset(list)
  }

  function Max(a: int, b: int): int
  {
    if a < b then b else a
  }

  function MergeFrom(current: Interval, rest: seq<Interval>): (r: seq<Interval>)
    ensures r != []
    decreases rest
  {
    if rest == [] then [current]
    else if current.end >= rest[0].start then MergeFrom(current.(end := Max(current.end, rest[0].end)), rest[1..])
    else [current] + MergeFrom(rest[0], rest[1..])
  }

  function Merged(list: seq<Interval>): seq<Interval>
  {
    if list == [] then [] else MergeFrom(list[0], list[1..])
  }

  ghost predicate NonEmpty(list: seq<Interval>)
  {
    forall i :: 0 <= i < |list| ==> list[i].start < list[i].end
  }

  lemma {:induction false} MergeFromIsCanonical(current: Interval, rest: seq<Interval>)
    requires current.start < current.end && NonEmpty(rest) && SortedByStart(rest)
    requires forall i :: 0 <= i < |rest| ==> current.start <= rest[i].start
    ensures Canonical(MergeFrom(current, rest))
    ensures MergeFrom(current, rest)[0].start == current.start
    decreases rest
  {
    if rest != [] {
      if current.end >= rest[0].start {
        MergeFromIsCanonical(current.(end := Max(current.end, rest[0].end)), rest[1..]);
      } else {
        MergeFromIsCanonical(rest[0], rest[1..]);
        var tail := MergeFrom(rest[0], rest[1..]);
        assert forall j :: 0 < j < |tail| ==> tail[0].end < tail[j].start;
        assert forall j :: 0 <= j < |tail| ==> current.end < tail[j].start;
      }
    }
  }

  lemma {:induction false} MergeFromKeepsCover(current: Interval, rest: seq<Interval>, x: int)
    requires SortedByStart(rest) && forall i :: 0 <= i < |rest| ==> current.start <= rest[i].start
    ensures Covers(MergeFrom(current, rest), x) <==> current.start <= x < current.end || Covers(rest, x)
    decreases rest
  {
    var result := MergeFrom(current, rest);
    CoversTail(result, x);
    if rest != [] {
      CoversTail(rest, x);
      if current.end >= rest[0].start {
        MergeFromKeepsCover(current.(end := Max(current.end, rest[0].end)), rest[1..], x);
      } else {
        MergeFromKeepsCover(rest[0], rest[1..], x);
        assert result[1..] == MergeFrom(rest[0], rest[1..]);
      }
    }
  }

  lemma {:induction false} MergeFromIsSorted(current: Interval, rest: seq<Interval>)
    requires SortedByStart(rest) && forall i :: 0 <= i < |rest| ==> current.start <= rest[i].start
    ensures var r := MergeFrom(current, rest);
      SortedByStart(r) && forall i :: 0 <= i < |r| ==> current.start <= r[i].start
    decreases rest
  {
    if rest != [] {
      if current.end >= rest[0].start {
        MergeFromIsSorted(current.(end := Max(current.end, rest[0].end)), rest[1..]);
      } else {
        MergeFromIsSorted(rest[0], rest[1..]);
      }
    }
  }

  lemma PermutationKeepsCover(a: seq<Interval>, b: seq<Interval>, x: int)
    requires multiset(a) == multiset(b) && Covers(a, x)
    ensures Covers(b, x)
  {
    var i :| 0 <= i < |a| && a[i].start <= x < a[i].end;
    assert a[i] in multiset(a);
    assert a[i] in b;
  }

  /** Registering one non-empty range turns the canonical list of a set into the canonical
      list of the enlarged set, however the sort breaks ties. */
  lemma RegisterIsUnion(ranges: seq<Interval>, added: Interval, sorted: seq<Interval>)
    requires Canonical(ranges) && added.start < added.end
    requires SortOf(sorted, ranges + [added])
    ensures Canonical(Merged(sorted))
    ensures forall x :: Covers(Merged(sorted), x) <==> Covers(ranges, x) || added.start <= x < added.end
  {
    assert |sorted| == |ranges + [added]| by {
      assert |multiset(sorted)| == |multiset(ranges + [added])|;
    }
    assert NonEmpty(sorted) by {
      forall i | 0 <= i < |sorted|
        ensures sorted[i].start < sorted[i].end
      {
        assert sorted[i] in multiset(sorted);
        assert sorted[i] in ranges + [added];
      }
    }
    MergeFromIsCanonical(sorted[0], sorted[1..]);
    forall x
      ensures Covers(Merged(sorted), x) <==> Covers(ranges, x) || added.start <= x < added.end
    {
      MergedCovers(ranges, added, sorted, x);
    }
  }

  /** Merging keeps the union whatever the ranges are, empty and reversed ones included. */
  lemma MergedCovers(ranges: seq<Interval>, added: Interval, sorted: seq<Interval>, x: int)
    requires SortOf(sorted, ranges + [added]) && sorted != []
    ensures Covers(Merged(sorted), x) <==> Covers(ranges, x) || added.start <= x < added.end
  {
    hide Covers;
    MergeFromKeepsCover(sorted[0], sorted[1..], x);
    CoversTail(sorted, x);
    CoversAppend(ranges, added, x);
    if Covers(sorted, x) {
      PermutationKeepsCover(sorted, ranges + [added], x);
    }
    if Covers(ranges + [added], x) {
      PermutationKeepsCover(ranges + [added], sorted, x);
    }
  }

  /** The list covers exactly these offsets, in order of the starts. */
  ghost predicate Lists(ranges: seq<Interval>, offsets: set<int>)
  {
    SortedByStart(ranges) && forall x :: Covers(ranges, x) <==> x in offsets
  }

  /** Registering any range, of any size, adds exactly its offsets to what the list covers. */
  lemma RegisterAlwaysLists(ranges: seq<Interval>, received: set<int>, start: int, end: int, sorted: seq<Interval>)
    requires Lists(ranges, received) && SortOf(sorted, ranges + [Interval(start, end)])
    ensures Lists(Merged(sorted), received + Span(start, end))
  {
    assert |sorted| == |ranges| + 1 by {
      assert |multiset(sorted)| == |multiset(ranges + [Interval(start, end)])|;
    }
    MergeFromIsSorted(sorted[0], sorted[1..]);
    forall x
      ensures Covers(Merged(sorted), x) <==> x in received + Span(start, end)
    {
      MergedCovers(ranges, Interval(start, end), sorted, x);
    }
  }

  // ---------------------------------------------------------------------------
  // Gaps, as values

  function GapSpans(gaps: seq<OffsetGap>): seq<Interval>
  {
    seq(|gaps|, i requires 0 <= i < |gaps| => Interval(gaps[i].start, gaps[i].end))
  }

  function Span(start: int, end: int): (s: set<int>)
    ensures forall x :: x in s <==> start <= x < end
    decreases end - start
  {
    if start >= end then {} else Span(start, end - 1) + {end - 1}
  }

  /** The canonical list of everything in [0, bound) that `ranges` does not cover. */
  ghost predicate Complements(gaps: seq<OffsetGap>, ranges: seq<Interval>, bound: int)
  {
    && Canonical(GapSpans(gaps))
    && (forall i :: 0 <= i < |gaps| ==> gaps[i].size == gaps[i].end - gaps[i].start)
    && (forall x :: Covers(GapSpans(gaps), x) <==> 0 <= x < bound && !Covers(ranges, x))
  }

  /** The canonical list of a set of offsets. */
  ghost predicate Represents(ranges: seq<Interval>, offsets: set<int>)
  {
    && Canonical(ranges)
    && (forall x :: Covers(ranges, x) <==> x in offsets)
    && (forall x :: x in offsets ==> 0 <= x)
  }

  /** Two lists of the same offsets are equal. */
  lemma SameOffsetsSameRanges(a: seq<Interval>, b: seq<Interval>, offsets: set<int>)
    requires Represents(a, offsets) && Represents(b, offsets)
    ensures a == b
  {
    CanonicalIsUnique(a, b);
  }

  ghost predicate IsLeastMissing(n: int, s: set<int>)
  {
    && 0 <= n && n !in s
    && forall x :: 0 <= x < n ==> x in s
  }

  // ---------------------------------------------------------------------------
  // Reservations, as values

  /** Consecutive non-empty ranges that tile [0, End). */
  ghost predicate Contiguous(granted: seq<Interval>)
  {
    && (granted != [] ==> granted[0].start == 0)
    && (forall i :: 0 <= i < |granted| ==> granted[i].start < granted[i].end)
    && (forall i :: 0 < i < |granted| ==> granted[i - 1].end == granted[i].start)
  }

  lemma {:induction false} ContiguousAreDisjoint(granted: seq<Interval>, i: nat, j: nat)
    requires Contiguous(granted) && i < j < |granted|
    ensures granted[i].end <= granted[j].start
  {
    if i < j - 1 {
      ContiguousAreDisjoint(granted, i, j - 1);
    }
  }

  /** The end of a contiguous tiling is the sum of the sizes. */
  lemma {:induction false} ContiguousSum(granted: seq<Interval>)
    requires Contiguous(granted)
    ensures End(granted) == TotalSize(granted)
  {
    if granted != [] {
      ContiguousSum(granted[..|granted| - 1]);
    }
  }

  ghost predicate Granted(granted: seq<Interval>, r: Reservation)
  {
    exists k :: 0 <= k < |granted| && granted[k].start == r.start && (r.reserved ==> granted[k].end == r.end)
  }

  /** One live reservation that starts at startOffset is closed at its actual size. */
  ghost predicate Commits(before: seq<Reservation>, after: seq<Reservation>, startOffset: int, actualSize: int)
  {
    exists k {:trigger before[k]} ::
      && 0 <= k < |before|
      && before[k].reserved && before[k].start == startOffset
      && after == before[k := before[k].(reserved := false, end := startOffset + actualSize)]
  }

  /** Drops reservations that were never committed and are older than maxAge. */
  function DropExpired(list: seq<Reservation>, now: int, maxAge: int): (r: seq<Reservation>)
    ensures forall x :: x in r <==> x in list && !(x.reserved && now - x.reservedAt > maxAge)
  {
    if list == [] then []
    else
      var n := |list| - 1;
      var kept := DropExpired(list[..n], now, maxAge);
      assert forall x :: x in list <==> x in list[..n] || x == list[n];
      if list[n].reserved && now - list[n].reservedAt > maxAge then kept else kept + [list[n]]
  }

  ghost predicate StartsIncrease(list: seq<Reservation>)
  {
    forall i, j :: 0 <= i < j < |list| ==> list[i].start < list[j].start
  }

  lemma StartOrderIsIndexOrder(list: seq<Reservation>, i: nat, j: nat)
    requires StartsIncrease(list) && i < |list| && j < |list| && list[i].start < list[j].start
    ensures i < j
  {
  }

  lemma {:induction false} DropExpiredKeepsOrder(list: seq<Reservation>, now: int, maxAge: int)
    requires StartsIncrease(list)
    ensures StartsIncrease(DropExpired(list, now, maxAge))
  {
    if list != [] {
      var n := |list| - 1;
      DropExpiredKeepsOrder(list[..n], now, maxAge);
      var kept := DropExpired(list[..n], now, maxAge);
      forall i | 0 <= i < |kept|
        ensures kept[i].start < list[n].start
      {
        assert kept[i] in kept;
        assert kept[i] in list[..n];
      }
    }
  }

  /** The reservations of a stream: `granted` lists every range ever handed out, `committed`
      the starts of those that were committed. */
  ghost predicate ReservationsValid(granted: seq<Interval>, next: int, list: seq<Reservation>, committed: set<int>)
  {
    && Contiguous(granted) && next == End(granted)
    && StartsIncrease(list)
    && (forall r :: r in list ==> Granted(granted, r))
    && (forall r :: r in list && r.reserved ==> r.start !in committed)
    && (forall s :: s in committed ==> s < next)
  }

  lemma ReserveKeepsValid(granted: seq<Interval>, next: int, list: seq<Reservation>, committed: set<int>,
                          size: int, now: int)
    requires ReservationsValid(granted, next, list, committed) && size > 0
    ensures ReservationsValid(granted + [Interval(next, next + size)], next + size,
                              list + [Reservation(next, next + size, true, now)], committed)
    ensures Disjoint(list, next) ==> Disjoint(list + [Reservation(next, next + size, true, now)], next + size)
  {
    var granted' := granted + [Interval(next, next + size)];
    var added := Reservation(next, next + size, true, now);
    forall r | r in list
      ensures r.start < next && Granted(granted', r)
    {
      GrantedEndsBeforeNext(granted, r);
      var k :| 0 <= k < |granted| && granted[k].start == r.start && (r.reserved ==> granted[k].end == r.end);
      assert granted'[k] == granted[k];
    }
    assert granted'[|granted|] == Interval(next, next + size);
    assert Granted(granted', added);
    assert forall r :: r in list + [added] ==> r in list || r == added;
  }

  /** The recorded extents overlap neither each other nor anything still to be reserved. */
  ghost predicate Disjoint(list: seq<Reservation>, next: int)
  {
    && (forall i, j :: 0 <= i < j < |list| ==> list[i].end <= list[j].start)
    && (forall i :: 0 <= i < |list| ==> list[i].start <= list[i].end <= next)
  }

  /** Committing keeps the extents disjoint exactly when the actual size is not negative and
      does not run into a later reservation or past the next offset; the code checks neither. */
  lemma CommitKeepsDisjoint(before: seq<Reservation>, after: seq<Reservation>, next: int, startOffset: int,
                            actualSize: int)
    requires StartsIncrease(before) && Disjoint(before, next)
    requires Commits(before, after, startOffset, actualSize)
    ensures Disjoint(after, next)
       <==> && 0 <= actualSize && startOffset + actualSize <= next
            && forall r :: r in before && startOffset < r.start ==> startOffset + actualSize <= r.start
  {
    var k :| 0 <= k < |before| && before[k].reserved && before[k].start == startOffset
          && after == before[k := before[k].(reserved := false, end := startOffset + actualSize)];
    if Disjoint(after, next) {
      assert after[k].start <= after[k].end <= next;
      forall r | r in before && startOffset < r.start
        ensures startOffset + actualSize <= r.start
      {
        var j :| 0 <= j < |before| && before[j] == r;
        StartOrderIsIndexOrder(before, k, j);
        assert after[k].end <= after[j].start;
      }
    }
    if 0 <= actualSize && startOffset + actualSize <= next
       && forall r :: r in before && startOffset < r.start ==> startOffset + actualSize <= r.start {
      forall j | k < j < |after|
        ensures after[k].end <= after[j].start
      {
        assert before[k].start < before[j].start && before[j] in before;
      }
    }
  }

  /** A commit of at most the reserved size is always safe. */
  lemma CommitWithinReservation(before: seq<Reservation>, after: seq<Reservation>, next: int, r: Reservation,
                                actualSize: int)
    requires StartsIncrease(before) && Disjoint(before, next) && r in before && r.reserved
    requires 0 <= actualSize <= r.end - r.start && Commits(before, after, r.start, actualSize)
    ensures Disjoint(after, next)
  {
    CommitKeepsDisjoint(before, after, next, r.start, actualSize);
    var k :| 0 <= k < |before| && before[k] == r;
    forall q | q in before && r.start < q.start
      ensures r.start + actualSize <= q.start
    {
      var j :| 0 <= j < |before| && before[j] == q;
      StartOrderIsIndexOrder(before, k, j);
    }
  }

  // ---------------------------------------------------------------------------
  // The offset state of one stream

  lemma InsertKeepsSort(sorted: seq<Interval>, list: seq<Interval>, next: Interval, k: nat)
    requires SortOf(sorted, list) && k <= |sorted|
    requires forall i :: 0 <= i < k ==> sorted[i].start <= next.start
    requires k < |sorted| ==> next.start < sorted[k].start
    ensures SortOf(sorted[..k] + [next] + sorted[k..], list + [next])
  {
    SplitIsSorted(sorted, next, k);
    JoinIsSorted(sorted[..k], next, sorted[k..]);
    InsertKeepsElements(sorted, list, next, k);
  }

  lemma SplitIsSorted(sorted: seq<Interval>, next: Interval, k: nat)
    requires SortedByStart(sorted) && k <= |sorted|
    requires k < |sorted| ==> next.start < sorted[k].start
    ensures SortedByStart(sorted[..k]) && SortedByStart(sorted[k..])
    ensures forall i :: 0 <= i < |sorted[k..]| ==> next.start <= sorted[k..][i].start
  {
  }

  lemma InsertKeepsElements(sorted: seq<Interval>, list: seq<Interval>, next: Interval, k: nat)
    requires multiset(sorted) == multiset(list) && k <= |sorted|
    ensures multiset(sorted[..k] + [next] + sorted[k..]) == multiset(list + [next])
  {
    assert sorted == sorted[..k] + sorted[k..];
  }

  lemma JoinIsSorted(left: seq<Interval>, next: Interval, right: seq<Interval>)
    requires SortedByStart(left) && SortedByStart(right)
    requires forall i :: 0 <= i < |left| ==> left[i].start <= next.start
    requires forall i :: 0 <= i < |right| ==> next.start <= right[i].start
    ensures SortedByStart(left + [next] + right)
  {
  }

  /** Stands for the library sort; callers rely on its contract only. */
  method SortByStart(list: seq<Interval>) returns (sorted: seq<Interval>)
    ensures SortOf(sorted, list)
  {
    sorted := [];
    for n := 0 to |list|
      invariant SortOf(sorted, list[..n])
    {
      sorted := InsertByStart(sorted, list[..n], list[n]);
      assert list[..n + 1] == list[..n] + [list[n]];
    }
    assert list[..|list|] == list;
  }

  method InsertByStart(sorted: seq<Interval>, ghost list: seq<Interval>, next: Interval) returns (r: seq<Interval>)
    requires SortOf(sorted, list)
    ensures SortOf(r, list + [next])
  {
    var k := 0;
    while k < |sorted| && sorted[k].start <= next.start
      invariant 0 <= k <= |sorted|
      invariant forall i :: 0 <= i < k ==> sorted[i].start <= next.start
    {
      k := k + 1;
    }
    InsertKeepsSort(sorted, list, next, k);
    r := sorted[..k] + [next] + sorted[k..];
  }

  class StreamOffsetState {
    var nextOffset: int
    var committedOffset: int
    var reservedRanges: seq<Reservation>
    var receivedRanges: seq<Interval>

    /** History: the offsets registered as received, the ranges ever reserved in order, and
        the start offsets of the reservations committed so far. */
    ghost var received: set<int>
    ghost var granted: seq<Interval>
    ghost var committed: set<int>

    /** What every mix of reserve, commit, expiry and register calls keeps. */
    ghost predicate Valid()
      reads `nextOffset, `reservedRanges, `granted, `committed
    {
      ReservationsValid(granted, nextOffset, reservedRanges, committed)
    }

    /** The received ranges are the canonical list of the offsets registered. */
    ghost predicate Tracks()
      reads `receivedRanges, `received
    {
      Represents(receivedRanges, received)
    }

    constructor ()
      ensures Valid() && Tracks() && IsLeastMissing(committedOffset, received)
      ensures received == {} && granted == [] && committed == {}
      ensures receivedRanges == [] && reservedRanges == [] && nextOffset == 0 && committedOffset == 0
    {
      nextOffset, committedOffset, reservedRanges, receivedRanges := 0, 0, [], [];
      received, granted, committed := {}, [], {};
    }

    /** Each reservation starts where the previous one ended: the repair of overlaps with
        live reservations is never needed. */
    method ReserveOffsetRange(size: int, now: int) returns (ok: bool, startOffset: int)
      requires Valid()
      modifies this`nextOffset, this`reservedRanges, this`granted
      ensures Valid()
      ensures ok <==> size > 0
      ensures ok ==> startOffset == old(nextOffset) == TotalSize(old(granted))
      ensures ok ==> granted == old(granted) + [Interval(startOffset, startOffset + size)]
      ensures ok ==> reservedRanges == old(reservedRanges) + [Reservation(startOffset, startOffset + size, true, now)]
      ensures ok ==> nextOffset == old(nextOffset) + size
      ensures old(Disjoint(reservedRanges, nextOffset)) ==> Disjoint(reservedRanges, nextOffset)
      ensures !ok ==> granted == old(granted) && reservedRanges == old(reservedRanges) && nextOffset == old(nextOffset)
    {
      if size <= 0 {
        return false, 0;
      }
      ContiguousSum(granted);
      startOffset := nextOffset;
      var endOffset := startOffset + size;
      var ranges := reservedRanges;
      for i := 0 to |ranges|
        invariant startOffset == old(nextOffset) && endOffset == startOffset + size
        invariant unchanged(this)
      {
        var r := ranges[i];
        assert r in reservedRanges;
        GrantedEndsBeforeNext(granted, r);
        if r.reserved && startOffset < r.end && r.start < endOffset {
          assert false;
          if r.end >= startOffset {
            startOffset := r.end;
            endOffset := startOffset + size;
          }
        }
      }
      var reservation := Reservation(startOffset, endOffset, true, now);
      ReserveKeepsValid(granted, nextOffset, reservedRanges, committed, size, now);
      reservedRanges := reservedRanges + [reservation];
      granted := granted + [Interval(startOffset, endOffset)];
      nextOffset := endOffset;
      return true, startOffset;
    }

    /** Succeeds only on a live reservation, and hence at most once for each. */
    method CommitOffsetRange(startOffset: int, actualSize: int) returns (ok: bool)
      requires Valid()
      modifies this`committedOffset, this`reservedRanges, this`committed
      ensures Valid()
      ensures ok <==> exists r :: r in old(reservedRanges) && r.reserved && r.start == startOffset
      ensures ok ==> startOffset !in old(committed) && committed == old(committed) + {startOffset}
      ensures ok ==> Commits(old(reservedRanges), reservedRanges, startOffset, actualSize)
      ensures ok ==> committedOffset == Max(old(committedOffset), startOffset + actualSize)
      ensures !ok ==> committed == old(committed) && reservedRanges == old(reservedRanges)
      ensures !ok ==> committedOffset == old(committedOffset)
    {
      var index := -1;
      for i := 0 to |reservedRanges|
        invariant index == -1
        invariant forall k :: 0 <= k < i ==> !(reservedRanges[k].reserved && reservedRanges[k].start == startOffset)
      {
        if reservedRanges[i].start == startOffset && reservedRanges[i].reserved {
          index := i;
          break;
        }
      }
      if index == -1 {
        return false;
      }
      var entry := reservedRanges[index];
      assert entry in reservedRanges;
      GrantedEndsBeforeNext(granted, entry);
      var actualEndOffset := startOffset + actualSize;
      forall k | 0 <= k < |reservedRanges| && k != index
        ensures reservedRanges[k] in reservedRanges && reservedRanges[k].start != startOffset
      {
        assert k < index || index < k;
      }
      reservedRanges := reservedRanges[index := entry.(reserved := false, end := actualEndOffset)];
      committed := committed + {startOffset};
      if actualEndOffset > committedOffset {
        committedOffset := actualEndOffset;
      }
      return true;
    }

    /** Expiry of reservations that were never committed. */
    method CleanupReservations(now: int, maxAge: int)
      requires Valid()
      modifies this`reservedRanges
      ensures Valid()
      ensures reservedRanges == DropExpired(old(reservedRanges), now, maxAge)
    {
      var active := [];
      for i := 0 to |reservedRanges|
        invariant active == DropExpired(reservedRanges[..i], now, maxAge)
      {
        assert reservedRanges[..i + 1][..i] == reservedRanges[..i];
        if !(reservedRanges[i].reserved && now - reservedRanges[i].reservedAt > maxAge) {
          active := active + [reservedRanges[i]];
        }
      }
      assert reservedRanges[..|reservedRanges|] == reservedRanges;
      DropExpiredKeepsOrder(reservedRanges, now, maxAge);
      reservedRanges := active;
    }

    /** Adds the range to the set of received offsets. CommittedOffset becomes the end of the
        contiguous start of the stream; where commits raised it beyond that, it falls back. */
    method RegisterDataReceived(offset: int, size: int) returns (ghost sorted: seq<Interval>)
      modifies this`committedOffset, this`receivedRanges, this`received
      ensures SortOf(sorted, old(receivedRanges) + [Interval(offset, offset + size)])
      ensures receivedRanges == Merged(sorted)
      ensures committedOffset == CommittedAfter(receivedRanges, old(committedOffset))
      ensures received == old(received) + Span(offset, offset + size)
      ensures old(Lists(receivedRanges, received)) ==> Lists(receivedRanges, received)
      ensures old(Tracks()) && offset >= 0 && size > 0 ==> Tracks()
      ensures old(Tracks() && IsLeastMissing(committedOffset, received)) && offset >= 0 && size > 0
          ==> IsLeastMissing(committedOffset, received) && committedOffset >= old(committedOffset)
    {
      ghost var ranges, offsets, before := receivedRanges, received, committedOffset;
      hide Represents, Lists, Merged, SortOf, IsLeastMissing;
      sorted := AddReceivedRange(Interval(offset, offset + size));
      if Lists(ranges, offsets) {
        RegisterAlwaysLists(ranges, offsets, offset, offset + size, sorted);
      }
      if Represents(ranges, offsets) && offset >= 0 && size > 0 {
        RegisterKeepsTrack(ranges, offsets, before, offset, offset + size, sorted);
      }
    }

    method AddReceivedRange(added: Interval) returns (ghost sorted: seq<Interval>)
      modifies this`committedOffset, this`receivedRanges, this`received
      ensures SortOf(sorted, old(receivedRanges) + [added])
      ensures receivedRanges == Merged(sorted)
      ensures committedOffset == CommittedAfter(receivedRanges, old(committedOffset))
      ensures received == old(received) + Span(added.start, added.end)
    {
      receivedRanges := receivedRanges + [added];
      var byStart := SortByStart(receivedRanges);
      sorted := byStart;
      receivedRanges := byStart;
      MergeReceivedRanges();
      received := received + Span(added.start, added.end);
      if |receivedRanges| > 0 && receivedRanges[0].start == 0 {
        committedOffset := receivedRanges[0].end;
      }
    }

    method MergeReceivedRanges()
      modifies this`receivedRanges
      ensures receivedRanges == Merged(old(receivedRanges))
    {
      if |receivedRanges| <= 1 {
        return;
      }
      var merged: seq<Interval> := [];
      var current := receivedRanges[0];
      for i := 1 to |receivedRanges|
        invariant merged + MergeFrom(current, receivedRanges[i..]) == Merged(receivedRanges)
      {
        var next := receivedRanges[i];
        assert receivedRanges[i..][1..] == receivedRanges[i + 1..];
        if current.end >= next.start {
          if next.end > current.end {
            current := current.(end := next.end);
          }
        } else {
          assert merged + ([current] + MergeFrom(next, receivedRanges[i + 1..]))
              == merged + [current] + MergeFrom(next, receivedRanges[i + 1..]);
          merged := merged + [current];
          current := next;
        }
      }
      merged := merged + [current];
      receivedRanges := merged;
    }

    /** The gaps are the maximal missing intervals below the highest received end, and gaps
        and ranges together account for every offset up to there. On any list in order of the starts
        they cover what is missing below the last start. */
    method DetectGaps() returns (gaps: seq<OffsetGap>)
      ensures gaps == GapsOf(receivedRanges).0
      ensures SortedByStart(receivedRanges) ==> forall x :: Covers(GapSpans(gaps), x) <==>
                0 <= x < LastStart(receivedRanges) && !Covers(receivedRanges, x)
      ensures Tracks() ==> Complements(gaps, receivedRanges, End(receivedRanges))
      ensures Tracks() ==> TotalSize(GapSpans(gaps)) + TotalSize(receivedRanges) == End(receivedRanges)
      ensures Tracks() ==> (gaps == [] <==> forall x :: 0 <= x < End(receivedRanges) ==> x in received)
    {
      hide Covers, Complements, Represents, SortedByStart, TotalSize;
      gaps := [];
      var expectedOffset := 0;
      var ranges := receivedRanges;
      for i := 0 to |ranges|
        invariant (gaps, expectedOffset) == GapsOf(ranges[..i])
      {
        var r := ranges[i];
        assert ranges[..i + 1][..i] == ranges[..i];
        if r.start > expectedOffset {
          gaps := gaps + [OffsetGap(expectedOffset, r.start, r.start - expectedOffset)];
        }
        if r.end > expectedOffset {
          expectedOffset := r.end;
        }
      }
      assert ranges[..|ranges|] == ranges;
      if SortedByStart(receivedRanges) {
        forall x
          ensures Covers(GapSpans(gaps), x) <==> 0 <= x < LastStart(receivedRanges) && !Covers(receivedRanges, x)
        {
          GapsCoverMissing(receivedRanges, x);
        }
      }
      if Tracks() {
        GapsOfTracked(receivedRanges, received);
      }
    }
  }

  lemma GrantedEndsBeforeNext(granted: seq<Interval>, r: Reservation)
    requires Contiguous(granted) && Granted(granted, r)
    ensures r.start < End(granted) && (r.reserved ==> r.end <= End(granted))
  {
    var k :| 0 <= k < |granted| && granted[k].start == r.start && (r.reserved ==> granted[k].end == r.end);
    if k < |granted| - 1 {
      ContiguousAreDisjoint(granted, k, |granted| - 1);
    }
  }

  function CommittedAfter(ranges: seq<Interval>, before: int): int
  {
    if ranges != [] && ranges[0].start == 0 then ranges[0].end else before
  }

  /** Merging in a new range keeps the list canonical; on a stream that only receives, the
      committed offset is the least missing one and never decreases. */
  lemma {:induction false} RegisterKeepsTrack(ranges: seq<Interval>, received: set<int>, before: int, start: int,
                                              end: int, sorted: seq<Interval>)
    requires Represents(ranges, received)
    requires 0 <= start < end && SortOf(sorted, ranges + [Interval(start, end)])
    ensures Represents(Merged(sorted), received + Span(start, end))
    ensures IsLeastMissing(before, received) ==>
              && IsLeastMissing(CommittedAfter(Merged(sorted), before), received + Span(start, end))
              && CommittedAfter(Merged(sorted), before) >= before
  {
    RegisterIsUnion(ranges, Interval(start, end), sorted);
    var merged, all := Merged(sorted), received + Span(start, end);
    assert Represents(merged, all);
    FirstRangeIsLeastMissing(merged, all);
  }

  // ---------------------------------------------------------------------------
  // Runs of registrations

  /** The ranges and the committed offset of a stream. */
  datatype Reception = Reception(ranges: seq<Interval>, committed: int)

  /** One registration, whatever order the sort gives to equal starts. */
  ghost predicate Registers(before: Reception, added: Interval, sorted: seq<Interval>, after: Reception)
  {
    && SortOf(sorted, before.ranges + [added])
    && after == Reception(Merged(sorted), CommittedAfter(Merged(sorted), before.committed))
  }

  /** The states of a run of registrations, one more than the ranges registered. */
  ghost predicate IsRegistrationRun(states: seq<Reception>, added: seq<Interval>, sorts: seq<seq<Interval>>)
  {
    && |states| == |added| + 1 && |sorts| == |added|
    && states[0] == Reception([], 0)
    && forall i :: 0 <= i < |added| ==> Registers(states[i], added[i], sorts[i], states[i + 1])
  }

  function Offsets(added: seq<Interval>): set<int>
  {
    if added == [] then {}
    else
      var last := added[|added| - 1];
      Offsets(added[..|added| - 1]) + Span(last.start, last.end)
  }

  ghost predicate ProperRanges(added: seq<Interval>)
  {
    forall i :: 0 <= i < |added| ==> 0 <= added[i].start < added[i].end
  }

  /** In every state of every run the ranges are the canonical list of the offsets registered so far,
      and the committed offset is the least missing one. */
  lemma {:induction false} RunIsCanonical(states: seq<Reception>, added: seq<Interval>, sorts: seq<seq<Interval>>,
                                          i: nat)
    requires IsRegistrationRun(states, added, sorts) && ProperRanges(added) && i <= |added|
    ensures Represents(states[i].ranges, Offsets(added[..i]))
    ensures IsLeastMissing(states[i].committed, Offsets(added[..i]))
    ensures i > 0 ==> states[i - 1].committed <= states[i].committed
  {
    if i > 0 {
      RunIsCanonical(states, added, sorts, i - 1);
      assert Registers(states[i - 1], added[i - 1], sorts[i - 1], states[i - 1 + 1]);
      assert added[..i][..i - 1] == added[..i - 1];
      var offsets := Offsets(added[..i - 1]);
      hide Represents, IsLeastMissing, Merged, CommittedAfter;
      RegisterKeepsTrack(states[i - 1].ranges, offsets, states[i - 1].committed, added[i - 1].start, added[i - 1].end,
                         sorts[i - 1]);
    }
  }

  lemma LeastMissingIsUnique(m: int, n: int, s: set<int>)
    requires IsLeastMissing(m, s) && IsLeastMissing(n, s)
    ensures m == n
  {
  }

  /** Two runs that registered the same offsets, in whatever order and pieces, end with the same ranges
      and the same committed offset. */
  lemma SameOffsetsSameState(states: seq<Reception>, added: seq<Interval>, sorts: seq<seq<Interval>>,
                             states': seq<Reception>, added': seq<Interval>, sorts': seq<seq<Interval>>)
    requires IsRegistrationRun(states, added, sorts) && ProperRanges(added)
    requires IsRegistrationRun(states', added', sorts') && ProperRanges(added')
    requires Offsets(added) == Offsets(added')
    ensures states[|added|] == states'[|added'|]
  {
    assert |states| == |added| + 1 && |states'| == |added'| + 1;
    hide IsRegistrationRun, ProperRanges, Represents, IsLeastMissing, Offsets;
    RunIsCanonical(states, added, sorts, |added|);
    RunIsCanonical(states', added', sorts', |added'|);
    assert added[..|added|] == added && added'[..|added'|] == added';
    var last, last' := states[|added|], states'[|added'|];
    SameOffsetsSameRanges(last.ranges, last'.ranges, Offsets(added));
    LeastMissingIsUnique(last.committed, last'.committed, Offsets(added));
  }

  /** On a stream that also commits, registering moves the committed offset back exactly when
      offset 0 has been received and something below the committed offset has not. */
  lemma CommittedMovesBack(ranges: seq<Interval>, received: set<int>, before: int)
    requires Represents(ranges, received)
    ensures CommittedAfter(ranges, before) < before
       <==> 0 in received && exists x :: 0 <= x < before && x !in received
  {
    FirstRangeIsLeastMissing(ranges, received);
    var after := CommittedAfter(ranges, before);
    if 0 in received && after < before {
      assert 0 <= after < before && after !in received;
    }
  }

  lemma FirstRangeIsLeastMissing(ranges: seq<Interval>, received: set<int>)
    requires Represents(ranges, received)
    ensures ranges != [] && ranges[0].start == 0 ==> 0 in received && IsLeastMissing(ranges[0].end, received)
    ensures !(ranges != [] && ranges[0].start == 0) ==> 0 !in received && IsLeastMissing(0, received)
  {
    if ranges != [] {
      CanonicalTail(ranges, 0);
      if ranges[0].start == 0 {
        forall x | 0 <= x < ranges[0].end
          ensures x in received
        {
          assert Covers(ranges, x);
        }
        assert !Covers(ranges, ranges[0].end);
      } else {
        assert Covers(ranges, ranges[0].start);
        assert !Covers(ranges, 0);
      }
    } else {
      assert !Covers(ranges, 0);
    }
  }

  /** The list of gaps after looking at one more range. */
  function NextGaps(gaps: seq<OffsetGap>, expected: int, start: int): seq<OffsetGap>
  {
    if start > expected then gaps + [OffsetGap(expected, start, start - expected)] else gaps
  }

  /** The gaps that the detector finds and the offset it expects next. */
  function GapsOf(ranges: seq<Interval>): (seq<OffsetGap>, int)
  {
    if ranges == [] then ([], 0)
    else
      var n := |ranges| - 1;
      var (gaps, expected) := GapsOf(ranges[..n]);
      (NextGaps(gaps, expected, ranges[n].start), Max(expected, ranges[n].end))
  }

  function LastStart(ranges: seq<Interval>): int
  {
    if ranges == [] then 0 else ranges[|ranges| - 1].start
  }

  /** The expected offset is zero or the largest end. */
  lemma {:induction false} ExpectedIsLargestEnd(ranges: seq<Interval>)
    ensures var e := GapsOf(ranges).1;
      && 0 <= e && (forall i :: 0 <= i < |ranges| ==> ranges[i].end <= e)
      && (e == 0 || exists i :: 0 <= i < |ranges| && ranges[i].end == e)
  {
    if ranges != [] {
      var n := |ranges| - 1;
      ExpectedIsLargestEnd(ranges[..n]);
      var e := GapsOf(ranges[..n]).1;
      if e != 0 {
        var i :| 0 <= i < n && ranges[..n][i].end == e;
        assert ranges[i].end == e;
      }
      assert forall i :: 0 <= i < n ==> ranges[..n][i] == ranges[i];
    }
  }

  /** On a list in order of the starts, the gaps cover exactly what is missing below the last start. */
  lemma {:induction false} GapsCoverMissing(ranges: seq<Interval>, x: int)
    requires SortedByStart(ranges)
    ensures Covers(GapSpans(GapsOf(ranges).0), x) <==> 0 <= x < LastStart(ranges) && !Covers(ranges, x)
  {
    if ranges != [] {
      var n := |ranges| - 1;
      var front, r := ranges[..n], ranges[n];
      GapsCoverMissing(front, x);
      assert ranges == front + [r];
      assert GapsOf(ranges).0 == NextGaps(GapsOf(front).0, GapsOf(front).1, r.start);
      assert LastStart(front) <= r.start || front == [];
      hide GapsOf;
      OneMoreGapCoversMissing(front, r, x);
    }
  }

  lemma OneMoreGapCoversMissing(front: seq<Interval>, r: Interval, x: int)
    requires SortedByStart(front) && (LastStart(front) <= r.start || front == [])
    requires Covers(GapSpans(GapsOf(front).0), x) <==> 0 <= x < LastStart(front) && !Covers(front, x)
    ensures Covers(GapSpans(NextGaps(GapsOf(front).0, GapsOf(front).1, r.start)), x)
       <==> 0 <= x < r.start && !Covers(front + [r], x)
  {
    var gaps, e := GapsOf(front).0, GapsOf(front).1;
    ExpectedIsLargestEnd(front);
    UncoveredIsPastEnds(front, e, x);
    CoversAppend(front, r, x);
    hide Covers, GapsOf, SortedByStart;
    if r.start > e {
      assert GapSpans(NextGaps(gaps, e, r.start)) == GapSpans(gaps) + [Interval(e, r.start)];
      CoversAppend(GapSpans(gaps), Interval(e, r.start), x);
    }
  }

  lemma UncoveredIsPastEnds(ranges: seq<Interval>, e: int, x: int)
    requires SortedByStart(ranges) && 0 <= e && forall i :: 0 <= i < |ranges| ==> ranges[i].end <= e
    requires e == 0 || exists i :: 0 <= i < |ranges| && ranges[i].end == e
    ensures e <= x ==> !Covers(ranges, x)
    ensures 0 <= x && LastStart(ranges) <= x && !Covers(ranges, x) ==> e <= x
  {
    if e != 0 {
      var i :| 0 <= i < |ranges| && ranges[i].end == e;
      assert ranges[i].start <= LastStart(ranges);
    }
  }

  lemma {:induction false} GapsOfCanonical(ranges: seq<Interval>)
    requires Canonical(ranges) && (ranges != [] ==> 0 <= ranges[0].start)
    ensures var (gaps, e) := GapsOf(ranges); GapsSoFar(gaps, ranges, e)
  {
    if ranges != [] {
      var n := |ranges| - 1;
      assert n > 0 ==> ranges[0].end < ranges[n].start;
      GapsOfCanonical(ranges[..n]);
      var (gaps, e) := GapsOf(ranges[..n]);
      GapStep(gaps, ranges, n, e);
      assert ranges[..n + 1] == ranges;
    }
  }

  lemma GapsOfTracked(ranges: seq<Interval>, received: set<int>)
    requires Represents(ranges, received)
    ensures var gaps := GapsOf(ranges).0;
      && Complements(gaps, ranges, End(ranges))
      && TotalSize(GapSpans(gaps)) + TotalSize(ranges) == End(ranges)
      && (gaps == [] <==> forall x :: 0 <= x < End(ranges) ==> x in received)
  {
    if ranges != [] {
      assert Covers(ranges, ranges[0].start);
    }
    GapsOfCanonical(ranges);
    NoGapsMeansContiguous(GapsOf(ranges).0, ranges);
  }

  ghost predicate GapsSoFar(gaps: seq<OffsetGap>, ranges: seq<Interval>, expected: int)
  {
    && Complements(gaps, ranges, expected)
    && 0 <= expected == End(ranges)
    && (gaps != [] ==> gaps[|gaps| - 1].end < expected)
    && TotalSize(GapSpans(gaps)) + TotalSize(ranges) == expected
  }

  /** One turn of the gap detector. */
  lemma GapStep(gaps: seq<OffsetGap>, ranges: seq<Interval>, i: nat, expected: int)
    requires Canonical(ranges) && i < |ranges| && 0 <= ranges[i].start
    requires GapsSoFar(gaps, ranges[..i], expected)
    ensures GapsSoFar(NextGaps(gaps, expected, ranges[i].start), ranges[..i + 1], ranges[i].end)
    ensures expected <= ranges[i].start < ranges[i].end
  {
    var r := ranges[i];
    assert i > 0 ==> ranges[i - 1].end < r.start;
    assert ranges[..i + 1] == ranges[..i] + [r];
    TotalSizeStep(ranges, i);
    if r.start > expected {
      GapAdded(gaps, ranges[..i], expected, r);
    } else {
      GapSkipped(gaps, ranges[..i], expected, r);
    }
  }

  lemma GapAdded(gaps: seq<OffsetGap>, ranges: seq<Interval>, expected: int, r: Interval)
    requires GapsSoFar(gaps, ranges, expected) && Canonical(ranges + [r]) && expected < r.start < r.end
    ensures GapsSoFar(NextGaps(gaps, expected, r.start), ranges + [r], r.end)
  {
    hide Covers, Canonical, TotalSize;
    var gap := Interval(expected, r.start);
    var gaps' := NextGaps(gaps, expected, r.start);
    assert GapSpans(gaps') == GapSpans(gaps) + [gap];
    TotalSizeAppend(GapSpans(gaps), gap);
    TotalSizeAppend(ranges, r);
    AppendIsCanonical(GapSpans(gaps), gap);
    PrefixIsCanonical(ranges, r);
    forall x
      ensures Covers(GapSpans(gaps) + [gap], x) <==> 0 <= x < r.end && !Covers(ranges + [r], x)
    {
      GapAddedCover(gaps, ranges, expected, r, x);
    }
  }

  lemma GapAddedCover(gaps: seq<OffsetGap>, ranges: seq<Interval>, expected: int, r: Interval, x: int)
    requires Complements(gaps, ranges, expected) && 0 <= expected == End(ranges)
    requires Canonical(ranges) && expected < r.start < r.end
    ensures Covers(GapSpans(gaps) + [Interval(expected, r.start)], x) <==> 0 <= x < r.end && !Covers(ranges + [r], x)
  {
    CoveredBelowEnd(ranges, x);
    CoversAppend(ranges, r, x);
    CoversAppend(GapSpans(gaps), Interval(expected, r.start), x);
  }

  /** Only a range that starts at offset 0 leaves no gap before it. */
  lemma GapSkipped(gaps: seq<OffsetGap>, ranges: seq<Interval>, expected: int, r: Interval)
    requires GapsSoFar(gaps, ranges, expected) && Canonical(ranges + [r]) && expected == r.start < r.end
    ensures GapsSoFar(NextGaps(gaps, expected, r.start), ranges + [r], r.end)
  {
    hide Covers, Canonical, TotalSize;
    TotalSizeAppend(ranges, r);
    PrefixIsCanonical(ranges, r);
    forall x
      ensures Covers(GapSpans(gaps), x) <==> 0 <= x < r.end && !Covers(ranges + [r], x)
    {
      CoveredBelowEnd(ranges, x);
      CoversAppend(ranges, r, x);
    }
  }

  lemma NoGapsMeansContiguous(gaps: seq<OffsetGap>, ranges: seq<Interval>)
    requires Complements(gaps, ranges, End(ranges))
    ensures gaps == [] <==> forall x :: 0 <= x < End(ranges) ==> Covers(ranges, x)
  {
    if gaps != [] {
      assert GapSpans(gaps)[0].start < GapSpans(gaps)[0].end;
      assert Covers(GapSpans(gaps), GapSpans(gaps)[0].start);
    } else {
      assert forall x :: !Covers(GapSpans(gaps), x);
    }
  }

  // ---------------------------------------------------------------------------
  // Failures reached from a new stream

  lemma SortOfOne(sorted: seq<Interval>, r: Interval)
    requires SortOf(sorted, [] + [r])
    ensures sorted == [r]
  {
    assert [] + [r] == [r];
    assert |multiset(sorted)| == |multiset([r])|;
    assert sorted[0] in multiset(sorted);
  }

  /** Data for less than what was committed moves the committed offset back. */
  method CommitThenRegister() returns (before: int, after: int)
    ensures before == 10 && after == 5
  {
    hide Represents, Lists, IsLeastMissing, ReservationsValid, SortedByStart;
    var state := new StreamOffsetState();
    var _, start := state.ReserveOffsetRange(10, 0);
    assert state.reservedRanges[0] in state.reservedRanges;
    var _ := state.CommitOffsetRange(start, 10);
    before := state.committedOffset;
    ghost var sorted := state.RegisterDataReceived(0, 5);
    SortOfOne(sorted, Interval(0, 5));
    after := state.committedOffset;
  }

  /** A commit of more than was reserved makes the extents of two reservations overlap. */
  method CommitTooMuch() returns (state: StreamOffsetState)
    ensures state.Valid() && !Disjoint(state.reservedRanges, state.nextOffset)
  {
    state := new StreamOffsetState();
    var _, first := state.ReserveOffsetRange(10, 0);
    var _, second := state.ReserveOffsetRange(10, 0);
    ghost var before := state.reservedRanges;
    assert before == [Reservation(0, 10, true, 0), Reservation(10, 20, true, 0)];
    assert before[0] in before;
    var _ := state.CommitOffsetRange(first, 15);
    CommitKeepsDisjoint(before, state.reservedRanges, state.nextOffset, first, 15);
    assert before[1] in before;
  }
}
