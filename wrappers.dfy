/** Rust's `Option`, used for map lookups and for `partial_cmp`. */
module Wrappers {
  datatype Option<+T> = None | Some(value: T)

  /** `map::get`: the entry for `k`, if there is one. */
  function Get<K, V>(m: map<K, V>, k: K): (r: Option<V>)
    ensures r.Some? <==> k in m
    ensures r.Some? ==> r.value == m[k]
  {
    if k in m then Some(m[k]) else None
  }
}
