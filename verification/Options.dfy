/** Absent or present values, and lookups that may miss. */
module Options {
  datatype Option<+T> = None | Some(value: T)

  /** The value `m` holds under `k`, if any. */
  function Lookup<K, V>(m: map<K, V>, k: K): Option<V> {
    if k in m then Some(m[k]) else None
  }

  /** `m` with `k` bound to a present value, or unbound by an absent one. */
  function Put<K, V>(m: map<K, V>, k: K, value: Option<V>): map<K, V> {
    match value
    case Some(v) => m[k := v]
    case None => m - {k}
  }

  lemma PutLookup<K(!new), V>(m: map<K, V>, k: K, value: Option<V>)
    ensures forall j :: Lookup(Put(m, k, value), j) == if j == k then value else Lookup(m, j)
  {
  }

  /** Maps that answer every lookup alike are equal. */
  lemma SameLookups<K(!new), V>(a: map<K, V>, b: map<K, V>)
    requires forall k :: Lookup(a, k) == Lookup(b, k)
    ensures a == b
  {
    forall k ensures k in a <==> k in b {
      assert Lookup(a, k) == Lookup(b, k);
    }
    forall k | k in a ensures a[k] == b[k] {
      assert Lookup(a, k) == Lookup(b, k);
    }
  }
}
