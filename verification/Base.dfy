/** Small shared types. */
module Base {

  datatype Option<+T> = None | Some(value: T)

  /** The value stored under a key, if any. */
  function Get<K, V>(m: map<K, V>, k: K): Option<V> {
    if k in m then Some(m[k]) else None
  }
}
