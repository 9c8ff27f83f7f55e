/** Finite tables with a default value for keys that are not there, and sequences without repetition. */
module Tables {

  ghost predicate Distinct<T>(xs: seq<T>) {
    forall i, j :: 0 <= i < j < |xs| ==> xs[i] != xs[j]
  }

  function Get<K(!new), V(!new)>(m: map<K, V>, k: K, d: V): V {
    if k in m then m[k] else d
  }

  function Set<K(!new), V(!new)>(m: map<K, V>, k: K, v: V): (r: map<K, V>)
    ensures forall j, d {:trigger Get(r, j, d)} :: Get(r, j, d) == if j == k then v else Get(m, j, d)
  {
    m[k := v]
  }
}
