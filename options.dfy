/** Option and Result values for the pipeline's optional data and error exits. */
module Options {

  datatype Option<+T> = None | Some(value: T)

  /** The outcome of a stage: a value, or a fatal error with its message. */
  datatype Result<+T> = Ok(value: T) | Err(message: string)
}

/** The one property of sequences that several stages promise. */
module Sequences {

  /** No two positions hold the same element. */
  predicate NoDuplicates<T(==)>(s: seq<T>)
  {
    forall i, j :: 0 <= i < j < |s| ==> s[i] != s[j]
  }
}
