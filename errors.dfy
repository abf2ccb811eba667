/** The sentinel errors of the store (errors.go). */
module Errors {
  datatype Error =
    | ErrNilIsoLang      // the language code is empty
    | ErrNilWords        // the word map is nil or empty
    | ErrLangAlreadySet  // the requested language is already the current one
    | ErrClosed          // the store has been closed

  /** Either a value or one of the sentinel errors, as Go's `(T, error)` pairs. */
  datatype Result<+T> = Ok(value: T) | Err(error: Error)

  /** The text each sentinel carries. */
  function Message(e: Error): string
  {
    match e
    case ErrNilIsoLang => "iso language is required"
    case ErrNilWords => "words is required"
    case ErrLangAlreadySet => "iso language is already set"
    case ErrClosed => "language-wizard is closed"
  }

  /** Distinct sentinels carry distinct texts, so a message identifies its error. */
  lemma MessageIdentifiesError(e1: Error, e2: Error)
    ensures Message(e1) == Message(e2) <==> e1 == e2
  {
  }
}
