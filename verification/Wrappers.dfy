/** A value or nothing: pointers that may be NULL, and lookups that may fail. */
module Wrappers {
  datatype Option<+T> = None | Some(value: T)

  /** The value of a key, or a default for keys that have none. */
  function Get<K(==), V>(m: map<K, V>, k: K, otherwise: V): (v: V) {
    if k in m then m[k] else otherwise
  }
}
