/** Optional and fallible results, and sums and concatenations of sequences. */
module Common {
  datatype Option<+T> = None | Some(value: T)

  /** A value, or an error code of error.h without its sign. */
  datatype Result<+T> = Ok(value: T) | Err(code: nat)

  function Sum(ns: seq<nat>): nat {
    if ns == [] then 0 else Sum(ns[..|ns| - 1]) + ns[|ns| - 1]
  }

  function Concat<T>(parts: seq<seq<T>>): seq<T> {
    if parts == [] then [] else Concat(parts[..|parts| - 1]) + parts[|parts| - 1]
  }
}
