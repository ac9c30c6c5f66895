/** Counting the keys of a map that hold a given value. */
module Census {
  /** The keys holding `v`. */
  function Group<K, V(==)>(m: map<K, V>, v: V): set<K> {
    set k | k in m && m[k] == v
  }

  function Count<K, V(==)>(m: map<K, V>, v: V): nat {
    |Group(m, v)|
  }

  /** Giving one key a value moves it from its old group, if any, to the group of that value. */
  lemma CountAfterUpdate<K, V>(m: map<K, V>, k: K, v: V, x: V)
    ensures Count(m[k := v], x) ==
            Count(m, x) + (if x == v then 1 else 0) - (if k in m && m[k] == x then 1 else 0)
  {
    if x == v {
      assert Group(m[k := v], x) == Group(m, x) + {k};
    } else {
      assert Group(m[k := v], x) == Group(m, x) - {k};
    }
  }

  lemma CountAfterRemoval<K, V>(m: map<K, V>, k: K, x: V)
    ensures Count(m - {k}, x) == Count(m, x) - if k in m && m[k] == x then 1 else 0
  {
    assert Group(m - {k}, x) == Group(m, x) - {k};
  }
}
