/** Optional values and results, used wherever the program returns a nil pointer or an error. */
module Options {

  datatype Option<+T> = None | Some(value: T)

  datatype Result<+T, +E> = Ok(value: T) | Err(error: E)

  /** The value a map holds at a key, as an option. */
  function Lookup<K, V>(m: map<K, V>, k: K): Option<V> {
    if k in m then Some(m[k]) else None
  }

  /** The value a Go map yields at a key: the zero value when the key is missing. */
  function GetOr<K, V>(m: map<K, V>, k: K, zero: V): V {
    if k in m then m[k] else zero
  }
}
