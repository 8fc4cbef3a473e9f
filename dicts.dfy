/** Facts about loops that rewrite every value of a Python dict in place. */
module Dicts {

  /** A loop over the dict has rewritten the entry under each key `k` in `seen` to `f(k, value)` and left the others as they were. */
  predicate MappedSoFar<K, V(==)>(m0: map<K, V>, f: (K, V) -> V, seen: set<K>, m: map<K, V>)
  {
    m.Keys == m0.Keys && forall k :: k in m ==> m[k] == if k in seen then f(k, m0[k]) else m0[k]
  }

  /** Rewriting one more entry. */
  lemma MappedStep<K, V>(m0: map<K, V>, f: (K, V) -> V, seen: set<K>, m: map<K, V>, x: K)
    requires MappedSoFar(m0, f, seen, m) && x in m0 && x !in seen
    ensures x in m && m[x] == m0[x]
    ensures MappedSoFar(m0, f, seen + {x}, m[x := f(x, m[x])])
  {
  }

  /** Once every entry is visited, every value is rewritten. */
  lemma MappedDone<K, V>(m0: map<K, V>, f: (K, V) -> V, seen: set<K>, m: map<K, V>)
    requires MappedSoFar(m0, f, seen, m) && seen == m0.Keys
    ensures m.Keys == m0.Keys && forall k :: k in m ==> m[k] == f(k, m0[k])
  {
  }
}
