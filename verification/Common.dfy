/** A value that may be missing. */
module Options {
  datatype Option<T> = None | Some(value: T)
}

/** Strings put together in two ways. */
module Concatenation {
  lemma Associate(a: string, b: string, c: string)
    ensures a + b + c == a + (b + c)
  {
  }
}
