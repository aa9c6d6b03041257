/** An optional value. */
module Wrappers {
  datatype Option<T> = None | Some(value: T)
}

/** `std::map` as the backend uses it. */
module StdMap {
  /** `insert`. */
  function Insert<K, V>(m: map<K, V>, k: K, v: V): map<K, V>
  {
    if k in m then m else m[k := v]
  }

  /** What `insert` promises: the keys gain `k`, a key already present
      keeps its value, and a new key gets `v`. */
  lemma InsertMeaning<K, V>(m: map<K, V>, k: K, v: V)
    ensures Insert(m, k, v).Keys == m.Keys + {k}
    ensures k in m ==> Insert(m, k, v) == m
    ensures k !in m ==> Insert(m, k, v)[k] == v
    ensures forall c :: c in m ==> Insert(m, k, v)[c] == m[c]
  {
  }
}
