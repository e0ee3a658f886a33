/** Optional values: the model's stand-in for Java's nullable references and Optional<T>. */
module Options {

  datatype Option<+T> = None | Some(value: T) {

    /** The value, or a default when there is none (Java's `Optional.orElse`, `Map.getOrDefault`). */
    function GetOr(default: T): T {
      match this
      case Some(v) => v
      case None => default
    }
  }

  /** `m.get(k)` of a Java map: the value stored under `k`, or nothing. */
  function Get<K, V>(m: map<K, V>, k: K): Option<V> {
    if k in m then Some(m[k]) else None
  }
}
