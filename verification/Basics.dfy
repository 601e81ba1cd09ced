/** Small types the components share. */
module Basics {

  datatype Option<T> = None | Some(value: T)

  type byte = b: int | 0 <= b < 256

  /** A counter map's entry, zero when there is none. */
  function Known<K>(m: map<K, int>, k: K): int
  {
    if k in m then m[k] else 0
  }
}
