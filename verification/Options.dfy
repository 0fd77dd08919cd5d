// A TypeScript field that may be absent (`undefined`) or `null`, and a Python `None`.
module Options {
  datatype Option<+T> = None | Some(value: T) {
    // The `??` operator.
    function OrElse(fallback: Option<T>): Option<T> {
      if Some? then this else fallback
    }

    function GetOr(default: T): T {
      if Some? then value else default
    }
  }

  // `map.get(key)`.
  function Lookup<K, V>(table: map<K, V>, key: K): Option<V> {
    if key in table then Some(table[key]) else None
  }
}
