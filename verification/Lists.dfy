/** Lists of packet numbers without repetitions. */
module Lists {

  ghost predicate Distinct(ids: seq<nat>)
  {
    forall i, j :: 0 <= i < j < |ids| ==> ids[i] != ids[j]
  }

  function Members(ids: seq<nat>): set<nat>
  {
    set id | id in ids
  }

  lemma DistinctExtend(front: seq<nat>, x: nat)
    ensures Distinct(front + [x]) <==> Distinct(front) && x !in front
  {
    var ids := front + [x];
    if Distinct(ids) {
      assert forall i :: 0 <= i < |front| ==> ids[i] == front[i] && ids[i] != ids[|front|];
    }
  }

  lemma DistinctConcat(a: seq<nat>, b: seq<nat>)
    requires Distinct(a) && Distinct(b) && Members(a) !! Members(b)
    ensures Distinct(a + b) && Members(a + b) == Members(a) + Members(b)
  {
    forall i, j | 0 <= i < j < |a + b|
      ensures (a + b)[i] != (a + b)[j]
    {
      if i < |a| <= j {
        assert a[i] in Members(a) && b[j - |a|] in Members(b);
      }
    }
  }

  lemma {:induction false} DistinctSize(ids: seq<nat>)
    requires Distinct(ids)
    ensures |Members(ids)| == |ids|
  {
    if ids != [] {
      var front, last := ids[..|ids| - 1], ids[|ids| - 1];
      assert ids == front + [last];
      DistinctExtend(front, last);
      DistinctSize(front);
      assert Members(ids) == Members(front) + {last};
    }
  }

  lemma NonEmptyHasMember(ids: seq<nat>)
    ensures ids != [] ==> exists id :: id in ids
  {
    if ids != [] {
      assert ids[0] in ids;
    }
  }
}
