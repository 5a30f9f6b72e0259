/**
 * The client's errors: the two typed errors (a failed transfer reported by
 * the tool's exit code, and an HTTP status of 400 or more), the errors the
 * client builds from plain text, their messages and the exit-code table.
 */
module Errors {
  import opened Wrappers
  import opened Seqs
  import opened Numeric

  datatype Error =
    | HttpError(statusCode: int64, status: string)  // HTTPError
    | CurlError(exitCode: int64)                    // Error
    | LookupError(cause: string)                    // the executable could not be found
    | ExecError(cause: string, stderr: string)      // the tool could not be run
    | ExtractionError                               // no response block in stdout
    | StatusCodeMissing                             // status line without a second field
    | StatusCodeFormat(field: string)               // second field not an integer

  /** IsHttpError: the error is the typed HTTP error */
  predicate IsHttpError(e: Error) {
    e.HttpError?
  }

  /** IsCurlError: the error is the typed tool-exit error */
  predicate IsCurlError(e: Error) {
    e.CurlError?
  }

  /**
   * The description of each exit code of the tool, a fixed sparse table;
   * None for a code the table does not list.
   */
  function CurlExitCodes(code: int): Option<string> {
    match code
    case 0 => Some("Success.")
    case 1 => Some("Unsupported protocol.")
    case 2 => Some("Failed to initialize.")
    case 3 => Some("URL malformed.")
    case 4 => Some("A feature or option passed to curl is not supported.")
    case 5 => Some("Couldn't resolve proxy.")
    case 6 => Some("Couldn't resolve host.")
    case 7 => Some("Failed to connect to host.")
    case 8 => Some("Weird server reply.")
    case 22 => Some("HTTP page not retrieved.")
    case 23 => Some("Write error.")
    case 26 => Some("Read error.")
    case 27 => Some("Out of memory.")
    case 28 => Some("Operation timeout.")
    case 33 => Some("HTTP range error.")
    case 34 => Some("HTTP post error.")
    case 35 => Some("SSL connect error.")
    case 36 => Some("Bad download resume.")
    case 37 => Some("File couldn't read file.")
    case 38 => Some("LDAP cannot bind.")
    case 39 => Some("LDAP search failed.")
    case 41 => Some("Function not found.")
    case 42 => Some("Aborted by callback.")
    case 43 => Some("Internal error.")
    case 45 => Some("Interface error.")
    case 47 => Some("Too many redirects.")
    case 48 => Some("Unknown option specified.")
    case 49 => Some("Malformed telnet option.")
    case 51 => Some("The peer's SSL certificate or SSH MD5 fingerprint was not OK.")
    case 52 => Some("The server didn't reply anything.")
    case 53 => Some("SSL crypto engine not found.")
    case 54 => Some("Cannot set SSL crypto engine as default.")
    case 55 => Some("Failed sending network data.")
    case 56 => Some("Failure in receiving network data.")
    case 58 => Some("Problem with the local certificate.")
    case 59 => Some("Couldn't use specified SSL cipher.")
    case 60 => Some("Peer certificate cannot be authenticated.")
    case 61 => Some("Unrecognized transfer encoding.")
    case 62 => Some("Invalid LDAP URL.")
    case 63 => Some("Maximum file size exceeded.")
    case 77 => Some("Problem reading the SSL CA cert.")
    case 78 => Some("The resource referenced in the URL does not exist.")
    case 79 => Some("An unspecified error occurred during the SSH session.")
    case 80 => Some("Failed to shut down the SSL connection.")
    case 82 => Some("Could not load CRL file.")
    case 83 => Some("Issuer check failed.")
    case 85 => Some("Mismatch of RTSP CSeq numbers.")
    case 86 => Some("Mismatch of RTSP Session Identifiers.")
    case 88 => Some("Chunk callback reported error.")
    case 89 => Some("Stream error in the chunked-encoding.")
    case 90 => Some("Not present in this build.")
    case 91 => Some("Invalid TLS options were provided.")
    case 92 => Some("A requested feature, protocol, or option was not found built-in.")
    case 93 => Some("Out of critical resources.")
    case 94 => Some("Interface failed to initialize properly.")
    case 95 => Some("An authentication function returned an error.")
    case 96 => Some("A problem was detected in the HTTP/3 layer.")
    case _ => None
  }

  /** The table's description of an exit code, "Unknown error" for a code it does not list. */
  function ExitDescription(code: int): string {
    match CurlExitCodes(code)
    case Some(desc) => desc
    case None => "Unknown error"
  }

  /** The text error.Error() returns for each kind of error. */
  function Message(e: Error): string {
    match e
    case HttpError(code, status) => "HTTP Error. " + status + " (" + Decimal(code) + ")"
    case CurlError(code) => "Curl Error. " + ExitDescription(code) + " (" + Decimal(code) + ")"
    case LookupError(cause) => cause
    case ExecError(cause, stderr) => "unexpected error executing curl: " + cause + ". stderr: " + stderr
    case ExtractionError => "unable to extract valid HTTP responses"
    case StatusCodeMissing => "unable to extract status code"
    case StatusCodeFormat(field) => "invalid status code format: " + field
  }

  /** The last position of c in s, or -1. */
  function LastIndexOf(s: string, c: char): (r: int)
    ensures -1 <= r < |s|
    ensures r >= 0 ==> s[r] == c && c !in s[r + 1..]
    ensures r < 0 ==> c !in s
  {
    if s == [] then -1
    else if s[|s| - 1] == c then |s| - 1
    else
      var r := LastIndexOf(s[..|s| - 1], c);
      assert s == s[..|s| - 1] + [s[|s| - 1]];
      r
  }

  /** The number a typed error's message ends with, between the last '(' and the final ')'. */
  function CodeInMessage(msg: string): Option<int64> {
    if |msg| == 0 || msg[|msg| - 1] != ')' then None
    else
      var i := LastIndexOf(msg, '(');
      if i < 0 then None else Atoi(msg[i + 1..|msg| - 1])
  }

  /** The last c of a + [c] + b is the one after a when b holds no c. */
  lemma {:induction false} LastIndexAfter(a: string, c: char, b: string)
    requires c !in b
    ensures LastIndexOf(a + [c] + b, c) == |a|
    decreases |b|
  {
    var s := a + [c] + b;
    if b == [] {
      assert s[|s| - 1] == c;
    } else {
      assert s[|s| - 1] == b[|b| - 1] != c;
      assert s[..|s| - 1] == a + [c] + b[..|b| - 1];
      LastIndexAfter(a, c, b[..|b| - 1]);
    }
  }

  /** A message that ends in "(" + the code + ")" gives the code back. */
  lemma CodeAfterParen(head: string, code: int64)
    ensures CodeInMessage(head + "(" + Decimal(code) + ")") == Some(code)
  {
    var digits := Decimal(code);
    var msg := head + "(" + digits + ")";
    assert '(' !in digits + ")" by {
      assert forall i :: 0 <= i < |digits| ==> digits[i] == '-' || IsDigit(digits[i]);
    }
    assert msg == head + ['('] + (digits + ")");
    LastIndexAfter(head, '(', digits + ")");
    assert msg[|head| + 1..|msg| - 1] == digits;
    AtoiDecimal(code);
  }

  /** The code of a tool-exit error reads back from its message. */
  lemma ExitCodeInMessage(code: int64)
    ensures CodeInMessage(Message(CurlError(code))) == Some(code)
  {
    var head := "Curl Error. " + ExitDescription(code) + " ";
    assert Message(CurlError(code)) == head + "(" + Decimal(code) + ")";
    CodeAfterParen(head, code);
  }

  /** The status of an HTTP error reads back from its message. */
  lemma StatusCodeInMessage(code: int64, status: string)
    ensures CodeInMessage(Message(HttpError(code, status))) == Some(code)
  {
    var head := "HTTP Error. " + status + " ";
    assert Message(HttpError(code, status)) == head + "(" + Decimal(code) + ")";
    CodeAfterParen(head, code);
  }

  /** Every message of a typed error carries its code, and the code reads back. */
  lemma CodeInMessageRoundTrip(e: Error)
    requires IsHttpError(e) || IsCurlError(e)
    ensures CodeInMessage(Message(e)) == Some(if IsHttpError(e) then e.statusCode else e.exitCode)
  {
    if IsHttpError(e) {
      StatusCodeInMessage(e.statusCode, e.status);
    } else {
      ExitCodeInMessage(e.exitCode);
    }
  }

  /** The exit-code message the test suite expects for an unresolved host. */
  lemma ResolveHostMessage()
    ensures Message(CurlError(6)) == "Curl Error. Couldn't resolve host. (6)"
  {
    assert "Curl Error. " + "Couldn't resolve host." + " (" + "6" + ")" == "Curl Error. Couldn't resolve host. (6)";
    CurlMessageIs(6, "Couldn't resolve host.", "6");
  }

  /** The exit-code message the test suite expects for a timeout. */
  lemma TimeoutMessage()
    ensures Message(CurlError(28)) == "Curl Error. Operation timeout. (28)"
  {
    assert Decimal(28) == Digits(2) + [DigitChar(8)];
    assert "Curl Error. " + "Operation timeout." + " (" + "28" + ")" == "Curl Error. Operation timeout. (28)";
    CurlMessageIs(28, "Operation timeout.", "28");
  }

  /** The message of a tool-exit error from its description and its decimal text. */
  lemma CurlMessageIs(code: int64, desc: string, digits: string)
    requires ExitDescription(code) == desc && Decimal(code) == digits
    ensures Message(CurlError(code)) == "Curl Error. " + desc + " (" + digits + ")"
  {
  }

  /** Codes with no description get the generic message, which has no period after "error". */
  lemma UnknownExitMessage(code: int64)
    requires CurlExitCodes(code) == None
    ensures Message(CurlError(code)) == "Curl Error. Unknown error (" + Decimal(code) + ")"
  {
    CurlMessageIs(code, "Unknown error", Decimal(code));
  }

  /**
   * The table lists nothing below 0, between 9 and 21, or from 97 on, so
   * all those codes get the generic message of UnknownExitMessage.
   */
  lemma Unlisted(code: int)
    requires code < 0 || 9 <= code <= 21 || code >= 97
    ensures CurlExitCodes(code) == None
  {
  }

  /** The message the example expects for a missing page. */
  lemma NotFoundMessage()
    ensures Message(HttpError(404, "Not Found")) == "HTTP Error. Not Found (404)"
  {
    assert Decimal(404) == Digits(40) + [DigitChar(4)];
    assert Digits(40) == Digits(4) + [DigitChar(0)];
  }

  /** The two typed errors are told apart by their tags, and so are their messages. */
  lemma TypedErrorsDistinct(e: Error)
    ensures !(IsHttpError(e) && IsCurlError(e))
    ensures IsHttpError(e) ==> HasPrefix(Message(e), "HTTP Error. ")
    ensures IsCurlError(e) ==> HasPrefix(Message(e), "Curl Error. ")
  {
  }
}
