/** Sizes of maps. */
module Maps {

  lemma SizeAfterSet<K, V>(m: map<K, V>, k: K, v: V)
    ensures |m[k := v]| == if k in m then |m| else |m| + 1
  {
    assert m[k := v].Keys == m.Keys + {k};
    assert |m[k := v].Keys| == if k in m then |m.Keys| else |m.Keys| + 1;
  }
}
