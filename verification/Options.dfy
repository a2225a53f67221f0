/** What several components share: values that may be missing, results, bytes, and
    maps of lists. */
module Options {
  /** A value that may be missing: the source's nil, or a map read that may fail. */
  datatype Option<+T> = None | Some(value: T)

  /** A value, or the error in its place. */
  datatype Result<+T, +E> = Ok(value: T) | Err(error: E)

  type Bytes = seq<bv8>

  /** Map indexing with the empty list for a missing key. */
  function Lookup<K, V>(m: map<K, seq<V>>, k: K): seq<V> {
    if k in m then m[k] else []
  }

  /** The place of the first `c`, or the length. */
  function IndexOf(s: string, c: char): nat {
    if s == [] || s[0] == c then 0 else 1 + IndexOf(s[1..], c)
  }
}
