/** Failure-compatible wrappers and the error values the request pipeline can produce. */
module Wrappers {
  import opened Text

  /** The errors of the pipeline. Errors reported by library code outside the model
      (URL parsing, hashing, HTTP, XML decoding) are carried as Foreign with their text. */
  datatype Error =
    | EscapeError(fragment: Str)   // url.EscapeError: a '%' not followed by two hex digits
    | SemicolonError               // url.ParseQuery: "invalid semicolon separator in query"
    | Foreign(detail: Str)

  datatype Option<+T> = None | Some(value: T)

  datatype Result<+R, +E> = Success(value: R) | Failure(error: E) {
    predicate IsFailure() { Failure? }

    function PropagateFailure<U>(): Result<U, E>
      requires Failure?
    {
      Failure(error)
    }

    function Extract(): R
      requires Success?
    {
      value
    }
  }
}
