/** `getErrorMessage` of the server (apps/server/src/lib/utils.ts). */
module ServerUtils {
  import opened Wrappers

  /** A thrown value: an `Error` with its message, or anything else. */
  datatype Thrown = Error(message: string) | NonError

  const DefaultErrorMessage := "Something went wrong. Please try again later."

  /**
   * An `Error` yields its message; any other value yields the default
   * message, which is itself defaulted when the caller passes none.
   */
  function GetErrorMessage(error: Thrown, defaultErrorMessage: Option<string>): (message: string)
    ensures error.Error? ==> message == error.message
    ensures error.NonError? && defaultErrorMessage.Some? ==> message == defaultErrorMessage.value
    ensures error.NonError? && defaultErrorMessage.None? ==> message == DefaultErrorMessage
  {
    var fallback := defaultErrorMessage.GetOr(DefaultErrorMessage);
    if error.Error? then error.message else fallback
  }

  /** For an `Error` the default argument plays no part. */
  lemma ErrorIgnoresDefault(error: Thrown, d1: Option<string>, d2: Option<string>)
    requires error.Error?
    ensures GetErrorMessage(error, d1) == GetErrorMessage(error, d2)
  {
  }
}
