/** Shared helpers: the optional value that the Rust code returns as `Option<T>`, and sequence facts. */
module Wrappers {
  datatype Option<+T> = None | Some(value: T)

  /** Concatenation is associative; stated once so proofs can regroup a sum of sequences. */
  lemma AppendAssoc<T>(a: seq<T>, b: seq<T>, c: seq<T>)
    ensures (a + b) + c == a + (b + c)
  {
  }
}
