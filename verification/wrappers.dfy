/** The Some/None datatype used for values that may be missing: a fetch that
    failed, or a key that is not in a dictionary. */
module Wrappers {

  datatype Option<+T> = None | Some(value: T)

  /** Dictionary lookup with a default, like Python's `dict.get(key, default)`. */
  function Get<K, V>(m: map<K, V>, key: K, default: V): (r: V)
    ensures key in m ==> r == m[key]
    ensures key !in m ==> r == default
  {
    if key in m then m[key] else default
  }
}
