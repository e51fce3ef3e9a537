/**
 * HTTP status values: a code restricted to 100...599, an optional custom
 * message, the five status families, the standard reason-phrase table and
 * the `description` text `"<code> <message>"`.
 */
module HttpStatuses {
  import Base
  import Text

  /** The codes `HTTPStatus.isValid(code:)` admits. */
  predicate IsValid(code: Base.uint16) {
    100 <= code <= 599
  }

  type StatusCode = c: Base.uint16 | IsValid(c) witness 200

  /**
   * `HTTPStatus`. Its only initialiser checks the code, so every value holds a
   * valid one; the type of `code` records that.
   */
  datatype HTTPStatus = HTTPStatus(code: StatusCode, customMessage: Base.Option<string>)

  datatype StatusError = InvalidCode

  /** `init(code:customMessage:)`: throws `invalidCode` outside 100...599. */
  function Init(code: Base.uint16, customMessage: Base.Option<string>): (r: Base.Result<HTTPStatus, StatusError>)
    ensures r.Ok? <==> 100 <= code <= 599
    ensures r.Ok? ==> r.value.code == code && r.value.customMessage == customMessage
    ensures r.Err? ==> r.error == InvalidCode
  {
    if IsValid(code) then Base.Result.Ok(HTTPStatus(code, customMessage)) else Base.Result.Err(InvalidCode)
  }

  // ---------------------------------------------------------------------------
  // Families

  datatype Family = Informational | Successful | Redirection | ClientError | ServerError

  /** `Family.range`: the bounds of the closed range of codes of a family. */
  function Range(f: Family): (bounds: (int, int))
    ensures bounds.1 == bounds.0 + 99
  {
    match f
    case Informational => (100, 199)
    case Successful => (200, 299)
    case Redirection => (300, 399)
    case ClientError => (400, 499)
    case ServerError => (500, 599)
  }

  predicate InRange(code: int, f: Family) {
    Range(f).0 <= code <= Range(f).1
  }

  /**
   * `family`: the first family whose range holds the code, in declaration order;
   * a code outside every range falls to `serverError`.
   */
  function FamilyOf(code: Base.uint16): (f: Family)
    ensures IsValid(code) ==> InRange(code, f)
    ensures !IsValid(code) ==> f == ServerError
  {
    if InRange(code, Informational) then Informational
    else if InRange(code, Successful) then Successful
    else if InRange(code, Redirection) then Redirection
    else if InRange(code, ClientError) then ClientError
    else if InRange(code, ServerError) then ServerError
    else ServerError
  }

  function FamilyOfStatus(s: HTTPStatus): Family {
    FamilyOf(s.code)
  }

  /** `isInformational` through `isServerError`: the family is the one whose range holds the code. */
  predicate IsInformational(s: HTTPStatus)
    ensures IsInformational(s) <==> 100 <= s.code <= 199
  {
    FamilyOfStatus(s) == Informational
  }

  predicate IsSuccessful(s: HTTPStatus)
    ensures IsSuccessful(s) <==> 200 <= s.code <= 299
  {
    FamilyOfStatus(s) == Successful
  }

  predicate IsRedirection(s: HTTPStatus)
    ensures IsRedirection(s) <==> 300 <= s.code <= 399
  {
    FamilyOfStatus(s) == Redirection
  }

  predicate IsClientError(s: HTTPStatus)
    ensures IsClientError(s) <==> 400 <= s.code <= 499
  {
    FamilyOfStatus(s) == ClientError
  }

  predicate IsServerError(s: HTTPStatus)
    ensures IsServerError(s) <==> 500 <= s.code <= 599
  {
    FamilyOfStatus(s) == ServerError
  }

  /** The family ranges do not overlap, so a valid code has exactly the family whose range holds it. */
  lemma FamilyIsTheRangeHoldingTheCode(s: HTTPStatus, f: Family)
    ensures FamilyOfStatus(s) == f <==> InRange(s.code, f)
  {
  }

  /** The family is read off the hundreds digit of the code. */
  lemma FamilyByHundreds(s: HTTPStatus)
    ensures s.code / 100 == 1 <==> IsInformational(s)
    ensures s.code / 100 == 2 <==> IsSuccessful(s)
    ensures s.code / 100 == 3 <==> IsRedirection(s)
    ensures s.code / 100 == 4 <==> IsClientError(s)
    ensures s.code / 100 == 5 <==> IsServerError(s)
  {
  }

  /** Exactly one of the five `is...` properties holds of every status. */
  lemma ExactlyOneClass(s: HTTPStatus)
    ensures (if IsInformational(s) then 1 else 0) + (if IsSuccessful(s) then 1 else 0)
          + (if IsRedirection(s) then 1 else 0) + (if IsClientError(s) then 1 else 0)
          + (if IsServerError(s) then 1 else 0) == 1
  {
  }

  // ---------------------------------------------------------------------------
  // Messages

  /**
   * `HTTPStatus.messages`: the standard reason phrases, as a lookup from code to
   * phrase (`None` where the dictionary has no entry).
   */
  function Messages(code: Base.uint16): Base.Option<string> {
    match code
    case 100 => Base.Some("Continue")
    case 101 => Base.Some("Switching Protocols")
    case 102 => Base.Some("Processing")
    case 200 => Base.Some("OK")
    case 201 => Base.Some("Created")
    case 202 => Base.Some("Accepted")
    case 203 => Base.Some("Non-Authoritative Information")
    case 204 => Base.Some("No Content")
    case 205 => Base.Some("Reset Content")
    case 206 => Base.Some("Partial Content")
    case 207 => Base.Some("Multi-Status")
    case 208 => Base.Some("Already Reported")
    case 226 => Base.Some("IM Used")
    case 300 => Base.Some("Multiple Choices")
    case 301 => Base.Some("Moved Permanently")
    case 302 => Base.Some("Found")
    case 303 => Base.Some("See Other")
    case 304 => Base.Some("Not Modified")
    case 305 => Base.Some("Use Proxy")
    case 306 => Base.Some("Switch Proxy")
    case 307 => Base.Some("Temporary Redirect")
    case 308 => Base.Some("Permanent Redirect")
    case 400 => Base.Some("Bad Request")
    case 401 => Base.Some("Unauthorized")
    case 402 => Base.Some("Payment Required")
    case 403 => Base.Some("Forbidden")
    case 404 => Base.Some("Not Found")
    case 405 => Base.Some("Method Not Allowed")
    case 406 => Base.Some("Not Acceptable")
    case 407 => Base.Some("Proxy Authentication Required")
    case 408 => Base.Some("Request Timeout")
    case 409 => Base.Some("Conflict")
    case 410 => Base.Some("Gone")
    case 411 => Base.Some("Length Required")
    case 412 => Base.Some("Precondition Failed")
    case 413 => Base.Some("Payload Too Large")
    case 414 => Base.Some("URI Too Long")
    case 415 => Base.Some("Unsupported Media Type")
    case 416 => Base.Some("Range Not Satisfiable")
    case 417 => Base.Some("Expectation Failed")
    case 418 => Base.Some("Im A Teapot")
    case 419 => Base.Some("Authentication Timeout")
    case 421 => Base.Some("Misdirected Request")
    case 422 => Base.Some("Unprocessable Entity")
    case 423 => Base.Some("Locked")
    case 424 => Base.Some("Failed Dependency")
    case 426 => Base.Some("Upgrade Required")
    case 428 => Base.Some("Precondition Required")
    case 429 => Base.Some("Too Many Requests")
    case 431 => Base.Some("Request Header Fields Too Large")
    case 440 => Base.Some("Login Timeout")
    case 444 => Base.Some("No Response")
    case 449 => Base.Some("Retry With")
    case 451 => Base.Some("Unavailable For Legal Reasons")
    case 494 => Base.Some("Request Header Too Large")
    case 495 => Base.Some("Cert Error")
    case 496 => Base.Some("No Cert")
    case 497 => Base.Some("HTTP To HTTPS")
    case 498 => Base.Some("Token Expired")
    case 499 => Base.Some("Client Closed Request")
    case 500 => Base.Some("Internal Server Error")
    case 501 => Base.Some("Not Implemented")
    case 502 => Base.Some("Bad Gateway")
    case 503 => Base.Some("Service Unavailable")
    case 504 => Base.Some("Gateway Timeout")
    case 505 => Base.Some("HTTP Version Not Supported")
    case 506 => Base.Some("Variant Also Negotiates")
    case 507 => Base.Some("Insufficient Storage")
    case 508 => Base.Some("Loop Detected")
    case 509 => Base.Some("Bandwidth Limit Exceeded")
    case 510 => Base.Some("Not Extended")
    case 511 => Base.Some("Network Authentication Required")
    case 599 => Base.Some("Network Timeout Error")
    case _ => Base.None
  }

  /**
   * `message`: the table's phrase when the code has one, else the custom message,
   * else `"Unknown"`.
   */
  function Message(s: HTTPStatus): (m: string)
    ensures Messages(s.code).Some? ==> Base.Some(m) == Messages(s.code)
    ensures Base.Some(m) == Messages(s.code) || Base.Some(m) == s.customMessage || m == "Unknown"
  {
    match Messages(s.code)
    case Some(phrase) => phrase
    case None => match s.customMessage
      case Some(custom) => custom
      case None => "Unknown"
  }

  /** Every code the table knows is a valid status code. */
  lemma TableCodesAreValid()
    ensures forall c: Base.uint16 :: Messages(c).Some? ==> IsValid(c)
  {
  }

  /** For a code in the table the custom message is never shown. */
  lemma TableOverridesCustomMessage(code: StatusCode, a: Base.Option<string>, b: Base.Option<string>)
    requires Messages(code).Some?
    ensures Message(HTTPStatus(code, a)) == Message(HTTPStatus(code, b)) == Messages(code).value
  {
  }

  /** For a code outside the table the custom message is shown, and `"Unknown"` without one. */
  lemma CustomMessageOutsideTable(code: StatusCode, custom: string)
    requires Messages(code).None?
    ensures Message(HTTPStatus(code, Base.Some(custom))) == custom
    ensures Message(HTTPStatus(code, Base.None)) == "Unknown"
  {
  }

  // ---------------------------------------------------------------------------
  // Description

  function Digit(d: nat): char
    requires d < 10
  {
    "0123456789"[d]
  }

  predicate IsDigit(c: char) { '0' <= c <= '9' }

  function DigitValue(c: char): nat
    requires IsDigit(c)
  {
    c as int - '0' as int
  }

  /** The decimal text of a number, as string interpolation writes an integer. */
  function NatToString(n: nat): (s: string)
    ensures |s| >= 1
    ensures forall i :: 0 <= i < |s| ==> IsDigit(s[i])
    decreases n
  {
    if n < 10 then [Digit(n)] else NatToString(n / 10) + [Digit(n % 10)]
  }

  /** The number a text of decimal digits denotes. */
  function ParseNat(s: string): nat
    requires forall i :: 0 <= i < |s| ==> IsDigit(s[i])
    decreases |s|
  {
    if s == [] then 0 else ParseNat(s[..|s| - 1]) * 10 + DigitValue(s[|s| - 1])
  }

  lemma {:induction false} ParseNatToString(n: nat)
    ensures ParseNat(NatToString(n)) == n
    decreases n
  {
    if n >= 10 {
      var s := NatToString(n);
      assert s[..|s| - 1] == NatToString(n / 10);
      ParseNatToString(n / 10);
    }
  }

  /** `description`: the code in decimal, a space, then the message. */
  function Description(s: HTTPStatus): (d: string)
    ensures var digits := NatToString(s.code as nat);
      |d| > |digits| && d[..|digits|] == digits && d[|digits|] == ' '
  {
    NatToString(s.code as nat) + " " + Message(s)
  }

  /**
   * The description can be read back: its first space ends the code, whose digits
   * give the code again, and the message follows.
   */
  lemma DescriptionRoundTrip(s: HTTPStatus)
    ensures var d := Description(s);
      var i := |NatToString(s.code as nat)|;
      Text.IndexOf(d, " ") == Base.Some(i)
      && (forall j :: 0 <= j < i ==> IsDigit(d[j]))
      && ParseNat(d[..i]) == s.code
      && d[i + 1..] == Message(s)
  {
    var digits := NatToString(s.code as nat);
    var d := Description(s);
    var i := |digits|;
    assert d[..i] == digits;
    assert d[i..i + 1] == " ";
    forall j | 0 <= j < i
      ensures !Text.OccursAt(d, " ", j)
    {
      assert d[j..j + 1][0] == d[j];
    }
    Text.IndexOfIsFirst(d, " ", i);
    ParseNatToString(s.code as nat);
  }

  // ---------------------------------------------------------------------------
  // Equality and hashing

  /** `==`: statuses compare by code alone. */
  predicate Equal(a: HTTPStatus, b: HTTPStatus)
    ensures Equal(a, b) <==> a.(customMessage := Base.None) == b.(customMessage := Base.None)
    ensures Equal(a, b) ==> Hash(a) == Hash(b)
  {
    a.code == b.code
  }

  /** `hash(into:)`: only the code is hashed; the hash gives back the code, and with the message the status. */
  function Hash(s: HTTPStatus): (h: int)
    ensures 0 <= h < 0x1_0000 && Init(h as Base.uint16, s.customMessage) == Base.Result.Ok(s)
  {
    s.code as int
  }

  /** `==` is an equivalence, and equal statuses hash alike as `Hashable` requires. */
  lemma EqualHashesAlike(a: HTTPStatus, b: HTTPStatus, c: HTTPStatus)
    ensures Equal(a, a)
    ensures Equal(a, b) ==> Equal(b, a) && Hash(a) == Hash(b)
    ensures Equal(a, b) && Equal(b, c) ==> Equal(a, c)
  {
  }

  /** Two equal statuses can still describe themselves differently, through the custom message. */
  lemma EqualButDescribedDifferently()
    ensures var a := HTTPStatus(299, Base.Some("Fine"));
      var b := HTTPStatus(299, Base.None);
      Equal(a, b) && Description(a) != Description(b)
  {
    var a := HTTPStatus(299, Base.Some("Fine"));
    var b := HTTPStatus(299, Base.None);
    assert Messages(299).None?;
    assert Message(a)[0] != Message(b)[0];
    assert Description(a)[4..] == Message(a);
    assert Description(b)[4..] == Message(b);
  }

  // ---------------------------------------------------------------------------
  // Integer literals and the named statuses

  /**
   * `init(integerLiteral:)`: an invalid literal stops a debug build with an assertion
   * failure; a release build, modelled here, falls back to `.ok`.
   */
  function FromIntegerLiteral(literal: Base.uint16): (s: HTTPStatus)
    ensures s.customMessage == Base.None
    ensures IsValid(literal) ==> s.code == literal
    ensures !IsValid(literal) ==> s == HTTPStatus(200, Base.None)
  {
    match Init(literal, Base.None)
    case Ok(s) => s
    case Err(_) => HTTPStatus(200, Base.None)
  }

  const Continue: HTTPStatus := FromIntegerLiteral(100)
  const SwitchingProtocols: HTTPStatus := FromIntegerLiteral(101)
  const Processing: HTTPStatus := FromIntegerLiteral(102)
  const Ok: HTTPStatus := FromIntegerLiteral(200)
  const Created: HTTPStatus := FromIntegerLiteral(201)
  const Accepted: HTTPStatus := FromIntegerLiteral(202)
  const NonAuthoritativeInformation: HTTPStatus := FromIntegerLiteral(203)
  const NoContent: HTTPStatus := FromIntegerLiteral(204)
  const ResetContent: HTTPStatus := FromIntegerLiteral(205)
  const PartialContent: HTTPStatus := FromIntegerLiteral(206)
  const MultiStatus: HTTPStatus := FromIntegerLiteral(207)
  const AlreadyReported: HTTPStatus := FromIntegerLiteral(208)
  const ImUsed: HTTPStatus := FromIntegerLiteral(226)
  const MultipleChoices: HTTPStatus := FromIntegerLiteral(300)
  const MovedPermanently: HTTPStatus := FromIntegerLiteral(301)
  const Found: HTTPStatus := FromIntegerLiteral(302)
  const SeeOther: HTTPStatus := FromIntegerLiteral(303)
  const NotModified: HTTPStatus := FromIntegerLiteral(304)
  const UseProxy: HTTPStatus := FromIntegerLiteral(305)
  const SwitchProxy: HTTPStatus := FromIntegerLiteral(306)
  const TemporaryRedirect: HTTPStatus := FromIntegerLiteral(307)
  const PermanentRedirect: HTTPStatus := FromIntegerLiteral(308)
  const BadRequest: HTTPStatus := FromIntegerLiteral(400)
  const Unauthorized: HTTPStatus := FromIntegerLiteral(401)
  const PaymentRequired: HTTPStatus := FromIntegerLiteral(402)
  const Forbidden: HTTPStatus := FromIntegerLiteral(403)
  const NotFound: HTTPStatus := FromIntegerLiteral(404)
  const MethodNotAllowed: HTTPStatus := FromIntegerLiteral(405)
  const NotAcceptable: HTTPStatus := FromIntegerLiteral(406)
  const ProxyAuthenticationRequired: HTTPStatus := FromIntegerLiteral(407)
  const RequestTimeout: HTTPStatus := FromIntegerLiteral(408)
  const Conflict: HTTPStatus := FromIntegerLiteral(409)
  const Gone: HTTPStatus := FromIntegerLiteral(410)
  const LengthRequired: HTTPStatus := FromIntegerLiteral(411)
  const PreconditionFailed: HTTPStatus := FromIntegerLiteral(412)
  const PayloadTooLarge: HTTPStatus := FromIntegerLiteral(413)
  const UriTooLong: HTTPStatus := FromIntegerLiteral(414)
  const UnsupportedMediaType: HTTPStatus := FromIntegerLiteral(415)
  const RangeNotSatisfiable: HTTPStatus := FromIntegerLiteral(416)
  const ExpectationFailed: HTTPStatus := FromIntegerLiteral(417)
  const ImATeapot: HTTPStatus := FromIntegerLiteral(418)
  const AuthenticationTimeout: HTTPStatus := FromIntegerLiteral(419)
  const MisdirectedRequest: HTTPStatus := FromIntegerLiteral(421)
  const UnprocessableEntity: HTTPStatus := FromIntegerLiteral(422)
  const Locked: HTTPStatus := FromIntegerLiteral(423)
  const FailedDependency: HTTPStatus := FromIntegerLiteral(424)
  const UpgradeRequired: HTTPStatus := FromIntegerLiteral(426)
  const PreconditionRequired: HTTPStatus := FromIntegerLiteral(428)
  const TooManyRequests: HTTPStatus := FromIntegerLiteral(429)
  const RequestHeaderFieldsTooLarge: HTTPStatus := FromIntegerLiteral(431)
  const LoginTimeout: HTTPStatus := FromIntegerLiteral(440)
  const NoResponse: HTTPStatus := FromIntegerLiteral(444)
  const RetryWith: HTTPStatus := FromIntegerLiteral(449)
  const UnavailableForLegalReasons: HTTPStatus := FromIntegerLiteral(451)
  const RequestHeaderTooLarge: HTTPStatus := FromIntegerLiteral(494)
  const CertError: HTTPStatus := FromIntegerLiteral(495)
  const NoCert: HTTPStatus := FromIntegerLiteral(496)
  const HttpToHTTPS: HTTPStatus := FromIntegerLiteral(497)
  const TokenExpired: HTTPStatus := FromIntegerLiteral(498)
  const ClientClosedRequest: HTTPStatus := FromIntegerLiteral(499)
  const InternalServerError: HTTPStatus := FromIntegerLiteral(500)
  const NotImplemented: HTTPStatus := FromIntegerLiteral(501)
  const BadGateway: HTTPStatus := FromIntegerLiteral(502)
  const ServiceUnavailable: HTTPStatus := FromIntegerLiteral(503)
  const GatewayTimeout: HTTPStatus := FromIntegerLiteral(504)
  const HttpVersionNotSupported: HTTPStatus := FromIntegerLiteral(505)
  const VariantAlsoNegotiates: HTTPStatus := FromIntegerLiteral(506)
  const InsufficientStorage: HTTPStatus := FromIntegerLiteral(507)
  const LoopDetected: HTTPStatus := FromIntegerLiteral(508)
  const BandwidthLimitExceeded: HTTPStatus := FromIntegerLiteral(509)
  const NotExtended: HTTPStatus := FromIntegerLiteral(510)
  const NetworkAuthenticationRequired: HTTPStatus := FromIntegerLiteral(511)
  const NetworkTimeoutError: HTTPStatus := FromIntegerLiteral(599)

  /** The fallback of an invalid literal is the named status `.ok`. */
  lemma InvalidLiteralIsOk(literal: Base.uint16)
    requires !IsValid(literal)
    ensures FromIntegerLiteral(literal) == Ok
    ensures Message(FromIntegerLiteral(literal)) == "OK"
  {
  }

  /** A named status is the literal of its code: that code and no custom message. */
  lemma NamedStatusIsItsLiteral(code: StatusCode)
    requires Messages(code).Some?
    ensures FromIntegerLiteral(code) == HTTPStatus(code, Base.None)
    ensures Message(FromIntegerLiteral(code)) == Messages(code).value
  {
  }

  /** Every named status is its code with no custom message, so by `NamedStatusIsItsLiteral` its message is the table's phrase. */
  lemma NamedStatusCodes()
    ensures Continue == HTTPStatus(100, Base.None)
    ensures SwitchingProtocols == HTTPStatus(101, Base.None)
    ensures Processing == HTTPStatus(102, Base.None)
    ensures Ok == HTTPStatus(200, Base.None)
    ensures Created == HTTPStatus(201, Base.None)
    ensures Accepted == HTTPStatus(202, Base.None)
    ensures NonAuthoritativeInformation == HTTPStatus(203, Base.None)
    ensures NoContent == HTTPStatus(204, Base.None)
    ensures ResetContent == HTTPStatus(205, Base.None)
    ensures PartialContent == HTTPStatus(206, Base.None)
    ensures MultiStatus == HTTPStatus(207, Base.None)
    ensures AlreadyReported == HTTPStatus(208, Base.None)
    ensures ImUsed == HTTPStatus(226, Base.None)
    ensures MultipleChoices == HTTPStatus(300, Base.None)
    ensures MovedPermanently == HTTPStatus(301, Base.None)
    ensures Found == HTTPStatus(302, Base.None)
    ensures SeeOther == HTTPStatus(303, Base.None)
    ensures NotModified == HTTPStatus(304, Base.None)
    ensures UseProxy == HTTPStatus(305, Base.None)
    ensures SwitchProxy == HTTPStatus(306, Base.None)
    ensures TemporaryRedirect == HTTPStatus(307, Base.None)
    ensures PermanentRedirect == HTTPStatus(308, Base.None)
    ensures BadRequest == HTTPStatus(400, Base.None)
    ensures Unauthorized == HTTPStatus(401, Base.None)
    ensures PaymentRequired == HTTPStatus(402, Base.None)
    ensures Forbidden == HTTPStatus(403, Base.None)
    ensures NotFound == HTTPStatus(404, Base.None)
    ensures MethodNotAllowed == HTTPStatus(405, Base.None)
    ensures NotAcceptable == HTTPStatus(406, Base.None)
    ensures ProxyAuthenticationRequired == HTTPStatus(407, Base.None)
    ensures RequestTimeout == HTTPStatus(408, Base.None)
    ensures Conflict == HTTPStatus(409, Base.None)
    ensures Gone == HTTPStatus(410, Base.None)
    ensures LengthRequired == HTTPStatus(411, Base.None)
    ensures PreconditionFailed == HTTPStatus(412, Base.None)
    ensures PayloadTooLarge == HTTPStatus(413, Base.None)
    ensures UriTooLong == HTTPStatus(414, Base.None)
    ensures UnsupportedMediaType == HTTPStatus(415, Base.None)
    ensures RangeNotSatisfiable == HTTPStatus(416, Base.None)
    ensures ExpectationFailed == HTTPStatus(417, Base.None)
    ensures ImATeapot == HTTPStatus(418, Base.None)
    ensures AuthenticationTimeout == HTTPStatus(419, Base.None)
    ensures MisdirectedRequest == HTTPStatus(421, Base.None)
    ensures UnprocessableEntity == HTTPStatus(422, Base.None)
    ensures Locked == HTTPStatus(423, Base.None)
    ensures FailedDependency == HTTPStatus(424, Base.None)
    ensures UpgradeRequired == HTTPStatus(426, Base.None)
    ensures PreconditionRequired == HTTPStatus(428, Base.None)
    ensures TooManyRequests == HTTPStatus(429, Base.None)
    ensures RequestHeaderFieldsTooLarge == HTTPStatus(431, Base.None)
    ensures LoginTimeout == HTTPStatus(440, Base.None)
    ensures NoResponse == HTTPStatus(444, Base.None)
    ensures RetryWith == HTTPStatus(449, Base.None)
    ensures UnavailableForLegalReasons == HTTPStatus(451, Base.None)
    ensures RequestHeaderTooLarge == HTTPStatus(494, Base.None)
    ensures CertError == HTTPStatus(495, Base.None)
    ensures NoCert == HTTPStatus(496, Base.None)
    ensures HttpToHTTPS == HTTPStatus(497, Base.None)
    ensures TokenExpired == HTTPStatus(498, Base.None)
    ensures ClientClosedRequest == HTTPStatus(499, Base.None)
    ensures InternalServerError == HTTPStatus(500, Base.None)
    ensures NotImplemented == HTTPStatus(501, Base.None)
    ensures BadGateway == HTTPStatus(502, Base.None)
    ensures ServiceUnavailable == HTTPStatus(503, Base.None)
    ensures GatewayTimeout == HTTPStatus(504, Base.None)
    ensures HttpVersionNotSupported == HTTPStatus(505, Base.None)
    ensures VariantAlsoNegotiates == HTTPStatus(506, Base.None)
    ensures InsufficientStorage == HTTPStatus(507, Base.None)
    ensures LoopDetected == HTTPStatus(508, Base.None)
    ensures BandwidthLimitExceeded == HTTPStatus(509, Base.None)
    ensures NotExtended == HTTPStatus(510, Base.None)
    ensures NetworkAuthenticationRequired == HTTPStatus(511, Base.None)
    ensures NetworkTimeoutError == HTTPStatus(599, Base.None)
  {
  }
}
