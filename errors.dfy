/** Error kinds, the error wrapper and its conversions and messages (src/error.rs). */
module Errors {

  /** A failure of the HTTP client (connection, timeout, body decoding); only its rendered text is kept. */
  datatype TransportError = TransportError(message: string)

  /** An HTTP status code as the HTTP library represents it: a number from 100 to 999. */
  type StatusCode = c: int | 100 <= c <= 999 witness 200

  const OK: StatusCode := 200
  const NOT_FOUND: StatusCode := 404

  /** The details of an error. */
  datatype ErrorKind =
    | Uninitialized                      // the initialising call on another thread failed
    | HttpRequest(cause: TransportError) // the HTTP exchange itself failed
    | HttpResponse(code: StatusCode)     // the service answered with a status other than 200
    | MetadataParse(tag: string)         // a response body could not be parsed; `tag` names the parse

  /** The error type of every fallible operation: a wrapper around one kind. */
  datatype Error = Error(kind: ErrorKind)

  datatype Option<T> = None | Some(value: T)

  /** The crate's `Result<T>`: a value or an `Error`. */
  datatype Result<T> = Ok(value: T) | Err(error: Error) {
    function Map<U>(f: T -> U): Result<U> {
      match this
      case Ok(v) => Ok(f(v))
      case Err(e) => Err(e)
    }

    function AndThen<U>(f: T -> Result<U>): Result<U> {
      match this
      case Ok(v) => f(v)
      case Err(e) => Err(e)
    }
  }

  /** `From<ErrorKind> for Error`: wrapping a kind, undone by `Kind`. */
  function FromKind(kind: ErrorKind): (e: Error)
    ensures Kind(e) == kind && IntoKind(e) == kind
  {
    Error(kind)
  }

  /** `Error::kind`: the kind an error carries. */
  function Kind(e: Error): ErrorKind {
    e.kind
  }

  /** `Error::into_kind`: the same kind, taken by value. */
  function IntoKind(e: Error): ErrorKind {
    e.kind
  }

  /** `From<attohttpc::Error> for Error`. */
  function FromTransport(cause: TransportError): (e: Error)
    ensures Kind(e).HttpRequest? && Kind(e).cause == cause
  {
    FromKind(HttpRequest(cause))
  }

  /** `From<StatusCode> for Error`. */
  function FromStatus(code: StatusCode): (e: Error)
    ensures Kind(e).HttpResponse? && Kind(e).code == code
  {
    FromKind(HttpResponse(code))
  }

  /** Wrapping is a bijection between kinds and errors. */
  lemma KindRoundTrip(k: ErrorKind, e: Error)
    ensures Kind(FromKind(k)) == k && IntoKind(FromKind(k)) == k
    ensures FromKind(Kind(e)) == e && FromKind(IntoKind(e)) == e
  {
  }

  // Written in two pieces only so that the verifier can index into it cheaply.
  const UNINITIALIZED_MESSAGE := "error occurred in a initialization " + "call from the other thread"
  const HTTP_REQUEST_PREFIX := "http request error: "
  const HTTP_RESPONSE_PREFIX := "http response status code error: "
  const METADATA_PARSE_PREFIX := "metadata parse error: "

  /** The decimal digit for `d`. */
  function DigitChar(d: int): (ch: char)
    requires 0 <= d <= 9
    ensures '0' <= ch <= '9' && ch as int - '0' as int == d
  {
    ('0' as int + d) as char
  }

  /** A status code written in decimal, as the HTTP library prints it. */
  function StatusDigits(code: StatusCode): (s: string)
    ensures |s| == 3 && forall i :: 0 <= i < 3 ==> '0' <= s[i] <= '9'
    ensures ParseDigits(s) == code
  {
    [DigitChar(code / 100), DigitChar(code / 10 % 10), DigitChar(code % 10)]
  }

  /** Reads three decimal digits back as a number. */
  function ParseDigits(s: string): int
    requires |s| == 3
  {
    (s[0] as int - '0' as int) * 100 + (s[1] as int - '0' as int) * 10 + (s[2] as int - '0' as int)
  }

  /**
   * `Display for Error`. The status code prints as its number, a space and
   * `reason(code)`, the reason phrase the HTTP library attaches to it; a
   * transport error prints as its own message.
   */
  function Display(e: Error, reason: StatusCode -> string): (msg: string)
    ensures e.kind == Uninitialized ==> msg == UNINITIALIZED_MESSAGE
    ensures e.kind.HttpRequest? ==> msg == HTTP_REQUEST_PREFIX + e.kind.cause.message
    ensures e.kind.HttpResponse? ==> |msg| >= |HTTP_RESPONSE_PREFIX| + 3 && msg[..|HTTP_RESPONSE_PREFIX| + 3] == HTTP_RESPONSE_PREFIX + StatusDigits(e.kind.code)
    ensures e.kind.HttpResponse? ==> msg == HTTP_RESPONSE_PREFIX + StatusDigits(e.kind.code) + " " + reason(e.kind.code)
    ensures e.kind.MetadataParse? ==> msg == METADATA_PARSE_PREFIX + e.kind.tag
  {
    match Kind(e)
    case Uninitialized => UNINITIALIZED_MESSAGE
    case HttpRequest(cause) => HTTP_REQUEST_PREFIX + cause.message
    case HttpResponse(code) => HTTP_RESPONSE_PREFIX + StatusDigits(code) + " " + reason(code)
    case MetadataParse(tag) => METADATA_PARSE_PREFIX + tag
  }

  /** Removing a common prefix. */
  lemma CancelPrefix(p: string, a: string, b: string)
    requires p + a == p + b
    ensures a == b
  {
    assert a == (p + a)[|p|..];
    assert b == (p + b)[|p|..];
  }

  /** Which kind a message belongs to, read off its first and eighth characters. */
  function MessageVariant(msg: string): int
    requires |msg| >= 8
  {
    if msg[0] == 'e' then 0 else if msg[0] == 'm' then 3 else if msg[7] == 'q' then 1 else 2
  }

  function KindVariant(k: ErrorKind): int {
    match k
    case Uninitialized => 0
    case HttpRequest(_) => 1
    case HttpResponse(_) => 2
    case MetadataParse(_) => 3
  }

  /** The four messages start differently, so a message tells which kind it is. */
  lemma DisplayShowsKind(e: Error, reason: StatusCode -> string)
    ensures |Display(e, reason)| >= 8 && MessageVariant(Display(e, reason)) == KindVariant(e.kind)
  {
    var m := Display(e, reason);
    match e.kind
    case Uninitialized => assert m[0] == 'e';
    case HttpRequest(_) => assert m[0] == 'h' && m[7] == 'q';
    case HttpResponse(_) => assert m[0] == 'h' && m[7] == 's';
    case MetadataParse(_) => assert m[0] == 'm';
  }

  /** Two errors that print the same are the same error: the message identifies the kind and its payload. */
  lemma DisplayInjective(e1: Error, e2: Error, reason: StatusCode -> string)
    requires Display(e1, reason) == Display(e2, reason)
    ensures e1 == e2
  {
    var m := Display(e1, reason);
    DisplayShowsKind(e1, reason);
    DisplayShowsKind(e2, reason);
    if e1.kind.HttpRequest? {
      CancelPrefix(HTTP_REQUEST_PREFIX, e1.kind.cause.message, e2.kind.cause.message);
    } else if e1.kind.HttpResponse? {
      var c1, c2 := e1.kind.code, e2.kind.code;
      var n := |HTTP_RESPONSE_PREFIX|;
      assert m[n..n + 3] == StatusDigits(c1) by {
        assert m[..n + 3] == HTTP_RESPONSE_PREFIX + StatusDigits(c1);
      }
      assert m[n..n + 3] == StatusDigits(c2) by {
        assert m[..n + 3] == HTTP_RESPONSE_PREFIX + StatusDigits(c2);
      }
      assert c1 == ParseDigits(StatusDigits(c1)) == ParseDigits(StatusDigits(c2)) == c2;
    } else if e1.kind.MetadataParse? {
      CancelPrefix(METADATA_PARSE_PREFIX, e1.kind.tag, e2.kind.tag);
    }
  }
}
