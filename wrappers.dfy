/** Option and Result values, and the exceptions the workout core raises. */
module Wrappers {

  datatype Option<+T> = None | Some(value: T)

  datatype Result<+T, +E> = Success(value: T) | Failure(error: E)

  /** The outcome of an operation that returns nothing but may raise. */
  datatype Outcome<+E> = Pass | Fail(error: E)

  /** The Python exceptions the core can raise, plus the end of the injected random draws. */
  datatype Error =
    | KeyError(key: string)   // a dictionary lookup or `del` of a missing key
    | AssertionError          // the `assert num_exercises < ...` guard before sampling
    | IndexError              // `random.choice` on an empty sequence
    | DrawsExhausted          // the model's finite supply of random draws ran out
}
