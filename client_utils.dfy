/** `getErrorMessage` of the client (apps/client/src/lib/utils.ts). */
module ClientUtils {
  import opened Wrappers
  import opened Strings

  datatype Issue = Issue(message: string)

  /** A thrown value: a `ZodError`, another `Error`, or anything else. */
  datatype Thrown = ZodError(issues: seq<Issue>, message: string) | Error(message: string) | NonError

  const DefaultMessage := "Something went wrong. Please try again"
  const IssueSeparator := ", "

  /** The message of each issue, in order. */
  function IssueMessages(issues: seq<Issue>): (messages: seq<string>)
    ensures |messages| == |issues|
    ensures forall i :: 0 <= i < |issues| ==> messages[i] == issues[i].message
  {
    if issues == [] then [] else [issues[0].message] + IssueMessages(issues[1..])
  }

  /**
   * A `ZodError` with issues yields their messages joined by ", " in order,
   * one without issues its own message; any other `Error` yields its
   * message and any other value the (defaulted) default message.
   */
  function GetErrorMessage(error: Thrown, defaultMessage: Option<string>): (message: string)
    ensures error.ZodError? && error.issues != [] ==> message == Join(IssueMessages(error.issues), IssueSeparator)
    ensures error.ZodError? && error.issues == [] ==> message == error.message
    ensures error.Error? ==> message == error.message
    ensures error.NonError? ==> message == defaultMessage.GetOr(DefaultMessage)
  {
    var fallback := defaultMessage.GetOr(DefaultMessage);
    match error
    case ZodError(issues, zodMessage) =>
      if |issues| > 0 then Join(IssueMessages(issues), IssueSeparator) else zodMessage
    case Error(errorMessage) => errorMessage
    case NonError => fallback
  }

  /** A single issue's message is reported as it is; with more, the first one leads. */
  lemma {:induction false} ZodMessageStartsWithFirstIssue(issues: seq<Issue>, zodMessage: string, d: Option<string>)
    requires issues != []
    ensures StartsWith(GetErrorMessage(ZodError(issues, zodMessage), d), issues[0].message)
    ensures |issues| == 1 ==> GetErrorMessage(ZodError(issues, zodMessage), d) == issues[0].message
  {
  }

  /** Appending an issue appends ", " and its message: the messages keep the issues' order. */
  lemma {:induction false} ZodMessageAppendsIssue(issues: seq<Issue>, last: Issue, zodMessage: string, d: Option<string>)
    requires issues != []
    ensures GetErrorMessage(ZodError(issues + [last], zodMessage), d)
         == GetErrorMessage(ZodError(issues, zodMessage), d) + IssueSeparator + last.message
  {
    assert IssueMessages(issues + [last]) == IssueMessages(issues) + [last.message];
    JoinSnoc(IssueMessages(issues), last.message, IssueSeparator);
  }
}
