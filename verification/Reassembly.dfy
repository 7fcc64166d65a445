/** What every receiver of the data plane is for: delivering the longest prefix of a
    stream that the arrived pieces cover. A stream is cut into segments; a receiver that
    has accepted the segments with indices in `accepted` must have delivered exactly the
    first n segments, where n is the least index still missing. */
module Reassembly {

  type Bytes = seq<bv8>

  /** n is the least natural number missing from s. */
  ghost predicate IsMex(n: nat, s: set<nat>)
  {
    && n !in s
    && forall k: nat :: k < n ==> k in s
  }

  lemma MexIsUnique(m: nat, n: nat, s: set<nat>)
    requires IsMex(m, s) && IsMex(n, s)
    ensures m == n
  {
    assert m < n ==> m in s;
    assert n < m ==> n in s;
  }

  function Concat(segments: seq<Bytes>): Bytes
  {
    if segments == [] then []
    else Concat(segments[..|segments| - 1]) + segments[|segments| - 1]
  }

  /** The byte offset at which segment i starts. */
  function Offset(segments: seq<Bytes>, i: nat): nat
    requires i <= |segments|
  {
    |Concat(segments[..i])|
  }

  ghost predicate NonEmptySegments(segments: seq<Bytes>)
  {
    forall i :: 0 <= i < |segments| ==> segments[i] != []
  }

  lemma ConcatStep(segments: seq<Bytes>, n: nat)
    requires n < |segments|
    ensures Concat(segments[..n + 1]) == Concat(segments[..n]) + segments[n]
  {
    assert segments[..n + 1][..n] == segments[..n];
  }

  lemma {:induction false} ConcatIsPrefix(segments: seq<Bytes>, n: nat)
    requires n <= |segments|
    ensures Concat(segments[..n]) <= Concat(segments)
    decreases |segments| - n
  {
    if n == |segments| {
      assert segments[..n] == segments;
    } else {
      ConcatStep(segments, n);
      ConcatIsPrefix(segments, n + 1);
    }
  }

  /** Adding a segment at the end does not change the shorter prefixes. */
  lemma ConcatExtend(segments: seq<Bytes>, last: Bytes, n: nat)
    requires n <= |segments|
    ensures Concat((segments + [last])[..n]) == Concat(segments[..n])
  {
    assert (segments + [last])[..n] == segments[..n];
  }

  lemma {:induction false} OffsetsIncrease(segments: seq<Bytes>, i: nat, j: nat)
    requires NonEmptySegments(segments) && i < j <= |segments|
    ensures Offset(segments, i) < Offset(segments, j)
    decreases j
  {
    ConcatStep(segments, j - 1);
    if i < j - 1 {
      OffsetsIncrease(segments, i, j - 1);
    }
  }

  /** Distinct segments start at distinct offsets. */
  lemma OffsetIsInjective(segments: seq<Bytes>, i: nat, j: nat)
    requires NonEmptySegments(segments) && i <= |segments| && j <= |segments|
    requires Offset(segments, i) == Offset(segments, j)
    ensures i == j
  {
    if i < j {
      OffsetsIncrease(segments, i, j);
    } else if j < i {
      OffsetsIncrease(segments, j, i);
    }
  }
}
