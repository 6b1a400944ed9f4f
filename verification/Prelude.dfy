/** Types shared by every module of the model. */
module Prelude {

  datatype Option<+T> = None | Some(value: T)

  /** Go's `(value, error)` return pair. */
  datatype Result<+T, +E> = Ok(value: T) | Err(error: E)

  lemma Associate<T>(a: seq<T>, b: seq<T>, c: seq<T>)
    ensures a + (b + c) == a + b + c
  {
  }
}
