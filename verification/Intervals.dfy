/** Finite sets of integers written as lists of half-open intervals. */
module Intervals {

  datatype Interval = Interval(start: int, end: int)

  /** The program's own ranges are inclusive at both ends. */
  datatype Range = Range(start: nat, end: nat)

  function Spans(ranges: seq<Range>): seq<Interval>
  {
    seq(|ranges|, i requires 0 <= i < |ranges| => Interval(ranges[i].start, ranges[i].end + 1))
  }

  lemma SpansAppend(ranges: seq<Range>, last: Range)
    ensures Spans(ranges + [last]) == Spans(ranges) + [Interval(last.start, last.end + 1)]
  {
  }

  ghost predicate Covers(list: seq<Interval>, x: int)
  {
    exists i :: 0 <= i < |list| && list[i].start <= x < list[i].end
  }

  /** Non-empty intervals in increasing order, with a hole between any two. */
  ghost predicate Canonical(list: seq<Interval>)
  {
    && (forall i :: 0 <= i < |list| ==> list[i].start < list[i].end)
    && (forall i, j :: 0 <= i < j < |list| ==> list[i].end < list[j].start)
  }

  ghost predicate SameCover(a: seq<Interval>, b: seq<Interval>)
  {
    forall x :: Covers(a, x) <==> Covers(b, x)
  }

  function TotalSize(list: seq<Interval>): int
  {
    if list == [] then 0
    else TotalSize(list[..|list| - 1]) + list[|list| - 1].end - list[|list| - 1].start
  }

  lemma TotalSizeStep(list: seq<Interval>, n: nat)
    requires n < |list|
    ensures TotalSize(list[..n + 1]) == TotalSize(list[..n]) + list[n].end - list[n].start
  {
    assert list[..n + 1][..n] == list[..n];
  }

  lemma TotalSizeAppend(list: seq<Interval>, last: Interval)
    ensures TotalSize(list + [last]) == TotalSize(list) + last.end - last.start
  {
    assert (list + [last])[..|list|] == list;
  }

  lemma CoversTail(list: seq<Interval>, x: int)
    requires list != []
    ensures Covers(list, x) <==> list[0].start <= x < list[0].end || Covers(list[1..], x)
  {
    if Covers(list, x) && !(list[0].start <= x < list[0].end) {
      var i :| 0 <= i < |list| && list[i].start <= x < list[i].end;
      assert list[1..][i - 1].start <= x < list[1..][i - 1].end;
    }
    if Covers(list[1..], x) {
      var i :| 0 <= i < |list[1..]| && list[1..][i].start <= x < list[1..][i].end;
      assert list[i + 1].start <= x < list[i + 1].end;
    }
  }

  lemma CoversAppend(list: seq<Interval>, last: Interval, x: int)
    ensures Covers(list + [last], x) <==> Covers(list, x) || last.start <= x < last.end
  {
    if Covers(list, x) {
      var i :| 0 <= i < |list| && list[i].start <= x < list[i].end;
      assert (list + [last])[i].start <= x < (list + [last])[i].end;
    }
    if last.start <= x < last.end {
      assert (list + [last])[|list|].start <= x < (list + [last])[|list|].end;
    }
  }

  lemma CanonicalTail(list: seq<Interval>, x: int)
    requires Canonical(list) && list != []
    ensures Canonical(list[1..])
    ensures Covers(list[1..], x) <==> Covers(list, x) && list[0].end < x
    ensures Covers(list, x) ==> list[0].start <= x
    ensures !Covers(list, list[0].end) && Covers(list, list[0].start) && Covers(list, list[0].end - 1)
  {
    CoversTail(list, x);
    if Covers(list[1..], x) {
      var i :| 0 <= i < |list[1..]| && list[1..][i].start <= x < list[1..][i].end;
      assert list[1..][i] == list[i + 1];
    }
  }

  /** A set of integers has only one canonical list. */
  lemma {:induction false} CanonicalIsUnique(a: seq<Interval>, b: seq<Interval>)
    requires Canonical(a) && Canonical(b) && SameCover(a, b)
    ensures a == b
  {
    if a == [] {
      if b != [] {
        CanonicalTail(b, b[0].start);
        assert false;
      }
    } else {
      CanonicalTail(a, a[0].start);
      assert Covers(b, a[0].start);
      assert b != [];
      FirstIsEqual(a, b);
      forall x
        ensures Covers(a[1..], x) <==> Covers(b[1..], x)
      {
        CanonicalTail(a, x);
        CanonicalTail(b, x);
      }
      CanonicalTail(a, 0);
      CanonicalTail(b, 0);
      CanonicalIsUnique(a[1..], b[1..]);
      assert a == [a[0]] + a[1..] && b == [b[0]] + b[1..];
    }
  }

  lemma FirstIsEqual(a: seq<Interval>, b: seq<Interval>)
    requires Canonical(a) && Canonical(b) && SameCover(a, b) && a != [] && b != []
    ensures a[0] == b[0]
  {
    CanonicalTail(a, b[0].start);
    CanonicalTail(b, a[0].start);
    CanonicalTail(a, b[0].end);
    CanonicalTail(b, a[0].end);
    assert Covers(b, b[0].start) && Covers(a, a[0].start);
    assert a[0].start == b[0].start;
    assert !Covers(b, a[0].end) && !Covers(a, b[0].end);
  }

  function End(ranges: seq<Interval>): int
  {
    if ranges == [] then 0 else ranges[|ranges| - 1].end
  }

  lemma PrefixIsCanonical(ranges: seq<Interval>, r: Interval)
    requires Canonical(ranges + [r])
    ensures Canonical(ranges)
  {
    assert forall i :: 0 <= i < |ranges| ==> (ranges + [r])[i] == ranges[i];
  }

  lemma AppendIsCanonical(list: seq<Interval>, last: Interval)
    requires Canonical(list) && last.start < last.end
    requires list != [] ==> list[|list| - 1].end < last.start
    ensures Canonical(list + [last])
  {
    assert forall i :: 0 <= i < |list| - 1 ==> list[i].end < list[|list| - 1].start;
  }

  lemma CoveredBelowEnd(ranges: seq<Interval>, x: int)
    requires Canonical(ranges)
    ensures Covers(ranges, x) ==> x < End(ranges)
  {
    if Covers(ranges, x) {
      var i :| 0 <= i < |ranges| && ranges[i].start <= x < ranges[i].end;
      assert i < |ranges| - 1 ==> ranges[i].end < ranges[|ranges| - 1].start;
    }
  }

  // ---------------------------------------------------------------------------
  // A canonical list is shortest

  /** An interval of b that contains the start of interval i of a. */
  ghost predicate Hits(a: seq<Interval>, b: seq<Interval>, i: nat, k: nat)
  {
    i < |a| && k < |b| && b[k].start <= a[i].start < b[k].end
  }

  lemma SomeHit(a: seq<Interval>, b: seq<Interval>, i: nat)
    requires Canonical(a) && SameCover(a, b) && i < |a|
    ensures exists k: nat :: Hits(a, b, i, k)
  {
    assert Covers(a, a[i].start);
    assert Covers(b, a[i].start);
    var k :| 0 <= k < |b| && b[k].start <= a[i].start < b[k].end;
    assert Hits(a, b, i, k);
  }

  /** One interval of b cannot reach across a hole of a. */
  lemma HitsAreDistinct(a: seq<Interval>, b: seq<Interval>, i: nat, j: nat, k: nat)
    requires Canonical(a) && SameCover(a, b) && i < j && Hits(a, b, i, k)
    ensures !Hits(a, b, j, k)
  {
    if Hits(a, b, j, k) {
      var hole := a[i].end;
      assert b[k].start <= hole < b[k].end;
      assert Covers(b, hole);
      var h :| 0 <= h < |a| && a[h].start <= hole < a[h].end;
      assert false;
    }
  }

  lemma {:induction false} HitsCount(a: seq<Interval>, b: seq<Interval>, n: nat) returns (used: set<nat>)
    requires Canonical(a) && SameCover(a, b) && n <= |a|
    ensures |used| == n
    ensures forall k: nat :: k in used ==> exists i: nat :: i < n && Hits(a, b, i, k)
  {
    if n == 0 {
      used := {};
    } else {
      used := HitsCount(a, b, n - 1);
      SomeHit(a, b, n - 1);
      var k: nat :| Hits(a, b, n - 1, k);
      if k in used {
        var i: nat :| i < n - 1 && Hits(a, b, i, k);
        HitsAreDistinct(a, b, i, n - 1, k);
      }
      used := used + {k};
    }
  }

  lemma {:induction false} BoundedSetSize(s: set<nat>, n: nat)
    requires forall k :: k in s ==> k < n
    ensures |s| <= n
  {
    if n > 0 {
      BoundedSetSize(s - {n - 1}, n - 1);
    } else {
      assert s == {};
    }
  }

  /** No list of intervals with the same cover is shorter than the canonical one. */
  lemma CanonicalIsShortest(a: seq<Interval>, b: seq<Interval>)
    requires Canonical(a) && SameCover(a, b)
    ensures |a| <= |b|
  {
    var used := HitsCount(a, b, |a|);
    BoundedSetSize(used, |b|);
  }
}
