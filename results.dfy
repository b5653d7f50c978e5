/** Error values and the two failure-compatible wrappers the rest of the model uses.
    The service and the repository report errors as Go `error` values that pass
    through unwrapped; `Error` tells apart the kinds the code distinguishes. */
module Results {

  datatype Option<+T> = None | Some(value: T)

  /** The kinds of error the user workflow can see.
      - NotFound: GORM's `ErrRecordNotFound`.
      - EmailExists: the service's own "email already exists".
      - Failure: any other error (a driver or store error, a hashing error),
        carrying its text. */
  datatype Error = NotFound | EmailExists | Failure(text: string)

  datatype Result<+T> = Ok(value: T) | Err(error: Error)

  const RecordNotFoundText := "record not found"
  const EmailExistsText := "email already exists"

  /** `err.Error()`: the text a handler echoes to the client. */
  function ErrorText(e: Error): (s: string)
    ensures e == NotFound ==> s == RecordNotFoundText
    ensures e == EmailExists ==> s == EmailExistsText
    ensures e.Failure? ==> s == e.text
  {
    match e
    case NotFound => RecordNotFoundText
    case EmailExists => EmailExistsText
    case Failure(t) => t
  }
}
