/** Small datatypes shared by every module of the model. */
module Prelude {
  datatype Option<+T> = None | Some(value: T)

  /** What an awaited call gave back: a value, or an exception thrown to the awaiting code. */
  datatype Reply<+T> = Answer(value: T) | Throws

  /** The result of a routine that either returns or throws an error of its own. */
  datatype Result<+T, +E> = Ok(value: T) | Err(error: E)

  lemma Associative<T>(a: seq<T>, b: seq<T>, c: seq<T>)
    ensures (a + b) + c == a + (b + c)
  {
  }

  lemma Interleave<T>(base: seq<T>, a: seq<T>, b: seq<T>, c: seq<T>, d: seq<T>)
    requires b == [] || c == []
    ensures base + a + b + c + d == base + (a + c) + (b + d)
  {
  }
}
