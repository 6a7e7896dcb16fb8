/** The optional value used where the source returns or accepts null. */
module Wrappers {

  datatype Option<+T> = None | Some(value: T)

  /** The first of two options that holds a value. */
  function Or<T>(first: Option<T>, second: Option<T>): Option<T>
  {
    if first.Some? then first else second
  }

  /** A map lookup that reports a missing key as None. */
  function Lookup<K, V>(m: map<K, V>, k: K): Option<V>
  {
    if k in m then Some(m[k]) else None
  }
}
