/** error.go checkCreateError: a road `*Error` is kept, and anything else is
    wrapped into one with code "unknown". Nothing in session.process.go calls
    it: a handler's error is serialized as it is, so this is a helper the
    session path does not use. */
module Errors {
  import opened Values

  const UnknownCode: string := "unknown"

  /** err.Error() for an error that is not a road `*Error`. The package
      that defines constants.ErrReplyShouldBeNotNull is not part of this
      model, so its text here is a placeholder, not the real message. */
  function Text(err: GoError): string
    requires !err.AppError?
  {
    match err
    case Failure(text) => text
    case ReplyShouldBeNotNull => "reply should be not null"
  }

  function CheckCreateError(err: GoError): (r: GoError)
    ensures r.AppError?
    ensures err.AppError? ==> r == err
    ensures !err.AppError? ==> r.code == UnknownCode && r.message == Text(err)
  {
    if err.AppError? then err
    else AppError(UnknownCode, Text(err))
  }

  /** Wrapping is idempotent: an already wrapped error is passed through. */
  lemma CheckCreateErrorIdempotent(err: GoError)
    ensures CheckCreateError(CheckCreateError(err)) == CheckCreateError(err)
  {
  }
}
