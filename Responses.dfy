/**
 * The two kinds of answer a request gets: an OkResponse carrying a double, and an
 * ErrorResponse carrying a message, written on the wire as "ERR;" and the message.
 */
module Responses {
  import opened Wrappers
  import opened Numbers

  const ErrorPrefix: string := "ERR;"

  /** ErrorResponse: one final field, the message. */
  datatype ErrorResponse = ErrorResponse(errorMessage: string) {
    /** toString. */
    function ToString(): (r: string)
      ensures |r| == |ErrorPrefix| + |errorMessage|
      ensures r[..|ErrorPrefix|] == ErrorPrefix && r[|ErrorPrefix|..] == errorMessage
    {
      ErrorPrefix + errorMessage
    }
  }

  /** Reads an error line back: the message after the "ERR;" prefix, if the line has that prefix. */
  function ErrorMessageOf(line: string): (r: Option<string>)
    ensures r.Some? <==> ErrorPrefix <= line
  {
    if |line| >= |ErrorPrefix| && line[..|ErrorPrefix|] == ErrorPrefix then Some(line[|ErrorPrefix|..]) else None
  }

  /** The line of an error response gives back its message. */
  lemma ErrorLineRoundTrip(e: ErrorResponse)
    ensures ErrorMessageOf(e.ToString()) == Some(e.errorMessage)
  {
  }

  /** Every error line is the line of the response its message makes. */
  lemma ErrorLineOfMessage(line: string)
    requires ErrorMessageOf(line).Some?
    ensures ErrorResponse(ErrorMessageOf(line).value).ToString() == line
  {
    assert line == line[..|ErrorPrefix|] + line[|ErrorPrefix|..];
  }

  /** Distinct messages give distinct lines. */
  lemma ErrorLineInjective(a: ErrorResponse, b: ErrorResponse)
    requires a.ToString() == b.ToString()
    ensures a == b
  {
    ErrorLineRoundTrip(a);
    ErrorLineRoundTrip(b);
  }

  /** What a request is answered with; the OkResponse's timing and formatting are not modelled. */
  datatype Response = Ok(data: Num) | Err(error: ErrorResponse)
}
