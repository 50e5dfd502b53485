/** The response side of the HTTP/1.x engine (http/src/response.rs): the
    closed table of status codes, the response record and its construction,
    the header block and the wire format of a response.

    The iteration order of Rust's `HashMap` is not determined by the program;
    every operation that walks a header map takes the order as a parameter
    `order`, which must list each key of the map exactly once. */
module Response {
  import opened Wrappers
  import opened Text
  import opened Request

  // ---------------------------------------------------------------------
  // Status codes
  // ---------------------------------------------------------------------

  datatype HttpStatus =
    | Continue
    | SwitchingProtocols
    | Processing
    | EarlyHints
    | Ok
    | Created
    | Accepted
    | NonAuthoritativeInformation
    | NoContent
    | ResetContent
    | PartialContent
    | Ambiguous
    | MovedPermanently
    | Found
    | SeeOther
    | NotModified
    | TemporaryRedirect
    | PermanentRedirect
    | BadRequest
    | Unauthorized
    | PaymentRequired
    | Forbidden
    | NotFound
    | MethodNotAllowed
    | NotAcceptable
    | ProxyAuthenticationRequired
    | RequestTimeout
    | Conflict
    | Gone
    | LengthRequired
    | PreconditionFailed
    | PayloadTooLarge
    | UriTooLong
    | UnsupportedMediaType
    | RequestedRangeNotSatisfiable
    | ExpectationFailed
    | IAmATeapot
    | Misdirected
    | UnprocessableEntity
    | FailedDependency
    | PreconditionRequired
    | TooManyRequests
    | InternalServerError
    | NotImplemented
    | BadGateway
    | ServiceUnavailable
    | GatewayTimeout
    | HttpVersionNotSupported

  /** The discriminant each variant declares (http/src/response.rs:8-55). */
  function Discriminant(s: HttpStatus): nat
  {
    match s
    case Continue => 100
    case SwitchingProtocols => 101
    case Processing => 102
    case EarlyHints => 103
    case Ok => 200
    case Created => 201
    case Accepted => 202
    case NonAuthoritativeInformation => 203
    case NoContent => 204
    case ResetContent => 205
    case PartialContent => 206
    case Ambiguous => 300
    case MovedPermanently => 301
    case Found => 302
    case SeeOther => 303
    case NotModified => 304
    case TemporaryRedirect => 307
    case PermanentRedirect => 308
    case BadRequest => 400
    case Unauthorized => 401
    case PaymentRequired => 402
    case Forbidden => 403
    case NotFound => 404
    case MethodNotAllowed => 405
    case NotAcceptable => 406
    case ProxyAuthenticationRequired => 407
    case RequestTimeout => 408
    case Conflict => 409
    case Gone => 410
    case LengthRequired => 411
    case PreconditionFailed => 412
    case PayloadTooLarge => 413
    case UriTooLong => 414
    case UnsupportedMediaType => 415
    case RequestedRangeNotSatisfiable => 416
    case ExpectationFailed => 417
    case IAmATeapot => 418
    case Misdirected => 421
    case UnprocessableEntity => 422
    case FailedDependency => 424
    case PreconditionRequired => 428
    case TooManyRequests => 429
    case InternalServerError => 500
    case NotImplemented => 501
    case BadGateway => 502
    case ServiceUnavailable => 503
    case GatewayTimeout => 504
    case HttpVersionNotSupported => 505
  }

  /** The code column of the table `(&HttpStatus).into()`, as written. */
  function Code(s: HttpStatus): (code: nat)
    ensures s != Gone ==> code == Discriminant(s)
    ensures 100 <= code <= 505
  {
    match s
    case Continue => 100
    case SwitchingProtocols => 101
    case Processing => 102
    case EarlyHints => 103
    case Ok => 200
    case Created => 201
    case Accepted => 202
    case NonAuthoritativeInformation => 203
    case NoContent => 204
    case ResetContent => 205
    case PartialContent => 206
    case Ambiguous => 300
    case MovedPermanently => 301
    case Found => 302
    case SeeOther => 303
    case NotModified => 304
    case TemporaryRedirect => 307
    case PermanentRedirect => 308
    case BadRequest => 400
    case Unauthorized => 401
    case PaymentRequired => 402
    case Forbidden => 403
    case NotFound => 404
    case MethodNotAllowed => 405
    case NotAcceptable => 406
    case ProxyAuthenticationRequired => 407
    case RequestTimeout => 408
    case Conflict => 409
    case Gone => 401
    case LengthRequired => 411
    case PreconditionFailed => 412
    case PayloadTooLarge => 413
    case UriTooLong => 414
    case UnsupportedMediaType => 415
    case RequestedRangeNotSatisfiable => 416
    case ExpectationFailed => 417
    case IAmATeapot => 418
    case Misdirected => 421
    case UnprocessableEntity => 422
    case FailedDependency => 424
    case PreconditionRequired => 428
    case TooManyRequests => 429
    case InternalServerError => 500
    case NotImplemented => 501
    case BadGateway => 502
    case ServiceUnavailable => 503
    case GatewayTimeout => 504
    case HttpVersionNotSupported => 505
  }

  /** The reason-phrase column of the table, typing errors included. */
  function Reason(s: HttpStatus): string
  {
    match s
    case Continue => "Continue"
    case SwitchingProtocols => "Switching Protocols"
    case Processing => "Processing"
    case EarlyHints => "Earlyhints"
    case Ok => "Ok"
    case Created => "Created"
    case Accepted => "Accepted"
    case NonAuthoritativeInformation => "Non Authoritative Information"
    case NoContent => "No Content"
    case ResetContent => "Reset Content"
    case PartialContent => "Partial Content"
    case Ambiguous => "Ambiguous"
    case MovedPermanently => "Moved Permanently"
    case Found => "Found"
    case SeeOther => "See Other"
    case NotModified => "Not Modfifed"
    case TemporaryRedirect => "Temporary Redirect"
    case PermanentRedirect => "Permanent Redirect"
    case BadRequest => "Bad Request"
    case Unauthorized => "Unauthorized"
    case PaymentRequired => "Payment Required"
    case Forbidden => "Forbidden"
    case NotFound => "Not Found"
    case MethodNotAllowed => "Method Not Allowed"
    case NotAcceptable => "Not Acceptable"
    case ProxyAuthenticationRequired => "Proxy Authentication Required"
    case RequestTimeout => "Request Timeout"
    case Conflict => "Conflict"
    case Gone => "Gone"
    case LengthRequired => "Length Required"
    case PreconditionFailed => "Precondition Failed"
    case PayloadTooLarge => "Payload Too Large"
    case UriTooLong => "URI Too Long"
    case UnsupportedMediaType => "Unsupported Media Type"
    case RequestedRangeNotSatisfiable => "Required Range Not Satisfiable"
    case ExpectationFailed => "Expectation Failed"
    case IAmATeapot => "I Am A Teapot"
    case Misdirected => "Misdirected"
    case UnprocessableEntity => "Unprocessable Entity"
    case FailedDependency => "Failed Dependency"
    case PreconditionRequired => "Precondition Required"
    case TooManyRequests => "Too Many Requests"
    case InternalServerError => "Internal Server Error"
    case NotImplemented => "Not Implemented"
    case BadGateway => "Bad Gateway"
    case ServiceUnavailable => "Service Unavailable"
    case GatewayTimeout => "Gateway Timeout"
    case HttpVersionNotSupported => "Http Version Not Supported"
  }

  /** `(&HttpStatus).into()`: the code and the reason phrase. */
  function Resolve(s: HttpStatus): (nat, string)
  {
    (Code(s), Reason(s))
  }

  predicate NoLineFeed(t: string)
  {
    forall i :: 0 <= i < |t| ==> t[i] != '\n'
  }

  /** No phrase of the table holds a line feed. The phrases are checked as
      literals, six at a time, which keeps each proof small. */
  lemma ReasonSingleLine(s: HttpStatus)
    ensures '\n' !in Reason(s)
  {
    Phrases0();
    Phrases1();
    Phrases2();
    Phrases3();
    Phrases4();
    Phrases5();
    Phrases6();
    Phrases7();
    assert NoLineFeed(Reason(s));
  }

  lemma Phrases0()
    ensures NoLineFeed("Continue")
    ensures NoLineFeed("Switching Protocols")
    ensures NoLineFeed("Processing")
    ensures NoLineFeed("Earlyhints")
    ensures NoLineFeed("Ok")
    ensures NoLineFeed("Created")
  {
  }

  lemma Phrases1()
    ensures NoLineFeed("Accepted")
    ensures NoLineFeed("Non Authoritative Information")
    ensures NoLineFeed("No Content")
    ensures NoLineFeed("Reset Content")
    ensures NoLineFeed("Partial Content")
    ensures NoLineFeed("Ambiguous")
  {
  }

  lemma Phrases2()
    ensures NoLineFeed("Moved Permanently")
    ensures NoLineFeed("Found")
    ensures NoLineFeed("See Other")
    ensures NoLineFeed("Not Modfifed")
    ensures NoLineFeed("Temporary Redirect")
    ensures NoLineFeed("Permanent Redirect")
  {
  }

  lemma Phrases3()
    ensures NoLineFeed("Bad Request")
    ensures NoLineFeed("Unauthorized")
    ensures NoLineFeed("Payment Required")
    ensures NoLineFeed("Forbidden")
    ensures NoLineFeed("Not Found")
    ensures NoLineFeed("Method Not Allowed")
  {
  }

  lemma Phrases4()
    ensures NoLineFeed("Not Acceptable")
    ensures NoLineFeed("Proxy Authentication Required")
    ensures NoLineFeed("Request Timeout")
    ensures NoLineFeed("Conflict")
    ensures NoLineFeed("Gone")
    ensures NoLineFeed("Length Required")
  {
  }

  lemma Phrases5()
    ensures NoLineFeed("Precondition Failed")
    ensures NoLineFeed("Payload Too Large")
    ensures NoLineFeed("URI Too Long")
    ensures NoLineFeed("Unsupported Media Type")
    ensures NoLineFeed("Required Range Not Satisfiable")
    ensures NoLineFeed("Expectation Failed")
  {
  }

  lemma Phrases6()
    ensures NoLineFeed("I Am A Teapot")
    ensures NoLineFeed("Misdirected")
    ensures NoLineFeed("Unprocessable Entity")
    ensures NoLineFeed("Failed Dependency")
    ensures NoLineFeed("Precondition Required")
    ensures NoLineFeed("Too Many Requests")
  {
  }

  lemma Phrases7()
    ensures NoLineFeed("Internal Server Error")
    ensures NoLineFeed("Not Implemented")
    ensures NoLineFeed("Bad Gateway")
    ensures NoLineFeed("Service Unavailable")
    ensures NoLineFeed("Gateway Timeout")
    ensures NoLineFeed("Http Version Not Supported")
  {
  }

  /** The variant that declares a discriminant, the inverse of `Discriminant`. */
  function StatusOf(n: nat): Option<HttpStatus>
  {
    match n
    case 100 => Some(Continue)
    case 101 => Some(SwitchingProtocols)
    case 102 => Some(Processing)
    case 103 => Some(EarlyHints)
    case 200 => Some(Ok)
    case 201 => Some(Created)
    case 202 => Some(Accepted)
    case 203 => Some(NonAuthoritativeInformation)
    case 204 => Some(NoContent)
    case 205 => Some(ResetContent)
    case 206 => Some(PartialContent)
    case 300 => Some(Ambiguous)
    case 301 => Some(MovedPermanently)
    case 302 => Some(Found)
    case 303 => Some(SeeOther)
    case 304 => Some(NotModified)
    case 307 => Some(TemporaryRedirect)
    case 308 => Some(PermanentRedirect)
    case 400 => Some(BadRequest)
    case 401 => Some(Unauthorized)
    case 402 => Some(PaymentRequired)
    case 403 => Some(Forbidden)
    case 404 => Some(NotFound)
    case 405 => Some(MethodNotAllowed)
    case 406 => Some(NotAcceptable)
    case 407 => Some(ProxyAuthenticationRequired)
    case 408 => Some(RequestTimeout)
    case 409 => Some(Conflict)
    case 410 => Some(Gone)
    case 411 => Some(LengthRequired)
    case 412 => Some(PreconditionFailed)
    case 413 => Some(PayloadTooLarge)
    case 414 => Some(UriTooLong)
    case 415 => Some(UnsupportedMediaType)
    case 416 => Some(RequestedRangeNotSatisfiable)
    case 417 => Some(ExpectationFailed)
    case 418 => Some(IAmATeapot)
    case 421 => Some(Misdirected)
    case 422 => Some(UnprocessableEntity)
    case 424 => Some(FailedDependency)
    case 428 => Some(PreconditionRequired)
    case 429 => Some(TooManyRequests)
    case 500 => Some(InternalServerError)
    case 501 => Some(NotImplemented)
    case 502 => Some(BadGateway)
    case 503 => Some(ServiceUnavailable)
    case 504 => Some(GatewayTimeout)
    case 505 => Some(HttpVersionNotSupported)
    case _ => None
  }

  /** Reading a discriminant back gives its variant. */
  lemma DiscriminantRoundTrip(s: HttpStatus)
    ensures StatusOf(Discriminant(s)) == Some(s)
  {
    if Discriminant(s) < 300 {
      RoundTripBelow300(s);
    } else if Discriminant(s) < 410 {
      RoundTrip300To410(s);
    } else {
      RoundTripFrom410(s);
    }
  }

  lemma RoundTripBelow300(s: HttpStatus)
    requires Discriminant(s) < 300
    ensures StatusOf(Discriminant(s)) == Some(s)
  {
  }

  lemma RoundTrip300To410(s: HttpStatus)
    requires 300 <= Discriminant(s) < 410
    ensures StatusOf(Discriminant(s)) == Some(s)
  {
  }

  lemma RoundTripFrom410(s: HttpStatus)
    requires 410 <= Discriminant(s)
    ensures StatusOf(Discriminant(s)) == Some(s)
  {
  }

  /** Every variant declares its own discriminant. */
  lemma DiscriminantInjective(a: HttpStatus, b: HttpStatus)
    requires Discriminant(a) == Discriminant(b)
    ensures a == b
  {
    DiscriminantRoundTrip(a);
    DiscriminantRoundTrip(b);
  }

  /** A code names its status, except `GONE`'s, which names `UNAUTHORIZED`. */
  lemma CodeNames(s: HttpStatus)
    ensures StatusOf(Code(s)) == Some(if s == Gone then Unauthorized else s)
  {
    DiscriminantRoundTrip(s);
    assert Code(Gone) == 401;
  }

  /** `GONE` and `UNAUTHORIZED` are the only two statuses sharing a code. */
  lemma CodeCollision(a: HttpStatus, b: HttpStatus)
    requires a != b && Code(a) == Code(b)
    ensures (a == Gone && b == Unauthorized) || (a == Unauthorized && b == Gone)
  {
    CodeNames(a);
    CodeNames(b);
  }

  /** Distinct statuses resolve to distinct (code, phrase) pairs. */
  lemma ResolveInjective(a: HttpStatus, b: HttpStatus)
    requires Resolve(a) == Resolve(b)
    ensures a == b
  {
    CodeNames(a);
    CodeNames(b);
    assert Reason(Gone) != Reason(Unauthorized);
  }

  lemma GoneIs401()
    ensures Resolve(Gone) == (401, "Gone") && Discriminant(Gone) == 410
    ensures Resolve(Unauthorized).0 == 401
  {
  }

  /** The two resolutions checked by the unit test. */
  lemma ResolveExamples()
    ensures Resolve(Ok) == (200, "Ok")
    ensures Resolve(IAmATeapot) == (418, "I Am A Teapot")
  {
  }

  // ---------------------------------------------------------------------
  // Responses
  // ---------------------------------------------------------------------

  datatype HttpResponse = HttpResponse(
    version: Version,
    statusCode: HttpStatus,
    headers: Option<map<string, string>>,
    body: Option<string>)

  /** `HttpResponse::default()`. */
  function Default(): HttpResponse
  {
    HttpResponse(V1_1, Ok, None, None)
  }

  /** The headers `new` puts in place of `None`. */
  const DefaultHeaders: map<string, string> := map["Content-Type" := "text/html"]

  /** `HttpResponse::new`: a default response with every field replaced. */
  function New(version: Version, statusCode: HttpStatus, headers: Option<map<string, string>>,
               body: Option<string>): (r: HttpResponse)
    ensures r.version == version && r.statusCode == statusCode && r.body == body
    ensures r.headers.Some?
    ensures headers.Some? ==> r.headers == headers
    ensures headers.None? ==> r.headers == Some(DefaultHeaders)
  {
    var response := Default();
    response.(version := version, statusCode := statusCode, body := body,
              headers := match headers
                         case Some(h) => Some(h)
                         case None => Some(map["Content-Type" := "text/html"]))
  }

  /** `body()`: the body, or the empty string when there is none. */
  function BodyText(resp: HttpResponse): string
  {
    match resp.body
    case Some(b) => b
    case None => ""
  }

  // ---------------------------------------------------------------------
  // The header block
  // ---------------------------------------------------------------------

  const ServerName: string := "nginx/1.14.1"

  /** The map `headers()` walks: the response's own map with `Server` set,
      whatever the response held for it. */
  function WireHeaders(h: map<string, string>): map<string, string>
  {
    h["Server" := ServerName]
  }

  predicate Distinct(order: seq<string>)
  {
    forall i, j :: 0 <= i < j < |order| ==> order[i] != order[j]
  }

  /** `order` is an order in which a map with these keys may be walked:
      every key once, and nothing else. */
  predicate IsEnumeration(order: seq<string>, keys: set<string>)
  {
    Distinct(order) && (forall k :: k in keys ==> k in order) &&
    forall i :: 0 <= i < |order| ==> order[i] in keys
  }

  /** Every key of `order` is one of the map's. */
  predicate KeysIn(order: seq<string>, h: map<string, string>)
  {
    forall i :: 0 <= i < |order| ==> order[i] in h
  }

  function HeaderField(key: string, value: string): string
  {
    key + ": " + value
  }

  /** The header lines in the order the map is walked, without terminators. */
  function HeaderFields(h: map<string, string>, order: seq<string>): (fields: seq<string>)
    requires KeysIn(order, h)
  {
    seq(|order|, i requires 0 <= i < |order| => HeaderField(order[i], h[order[i]]))
  }

  /** The header block: each header line followed by CR LF. */
  function HeaderBlock(h: map<string, string>, order: seq<string>): string
    requires KeysIn(order, h)
  {
    Terminated(HeaderFields(h, order))
  }

  lemma EnumerationKeysIn(order: seq<string>, h: map<string, string>)
    requires IsEnumeration(order, h.Keys)
    ensures KeysIn(order, h)
  {
  }

  /** One more header line at the end of the block. */
  lemma HeaderBlockSnoc(h: map<string, string>, order: seq<string>, k: string)
    requires KeysIn(order, h) && k in h
    ensures KeysIn(order + [k], h)
    ensures HeaderBlock(h, order + [k]) == HeaderBlock(h, order) + k + ": " + h[k] + "\r\n"
  {
    var fields := HeaderFields(h, order);
    assert HeaderFields(h, order + [k]) == fields + [HeaderField(k, h[k])];
    TerminatedSnoc(fields, HeaderField(k, h[k]));
  }

  /** `headers()`: unwrap the response's map (a panic when it is `None`), set
      `Server`, and append one `k: v` line per entry in the order the map is
      walked. */
  method Headers(resp: HttpResponse, order: seq<string>) returns (r: Result<string>)
    requires resp.headers.Some? ==> IsEnumeration(order, WireHeaders(resp.headers.value).Keys)
    ensures resp.headers.None? ==> r == Failure(UnwrapOnNone)
    ensures resp.headers.Some? ==>
      KeysIn(order, WireHeaders(resp.headers.value)) &&
      r == Success(HeaderBlock(WireHeaders(resp.headers.value), order))
  {
    if resp.headers.None? {
      return Failure(UnwrapOnNone);
    }
    var h := resp.headers.value;
    h := h["Server" := ServerName];
    EnumerationKeysIn(order, h);
    var headerStr := "";
    for i := 0 to |order|
      invariant KeysIn(order[..i], h)
      invariant headerStr == HeaderBlock(h, order[..i])
    {
      var k := order[i];
      HeaderBlockSnoc(h, order[..i], k);
      assert order[..i + 1] == order[..i] + [k];
      headerStr := headerStr + k + ": " + h[k] + "\r\n";
    }
    assert order[..|order|] == order;
    return Success(headerStr);
  }

  // ---------------------------------------------------------------------
  // The wire format
  // ---------------------------------------------------------------------

  /** The status line without its terminator: version, code and phrase. */
  function StatusLine(resp: HttpResponse): string
  {
    VersionText(resp.version) + " " + Decimal(Code(resp.statusCode)) + " " + Reason(resp.statusCode)
  }

  /** The `Content-Length` line: the byte length of the UTF-8 encoded body. */
  function ContentLengthField(resp: HttpResponse): string
  {
    "Content-Length: " + Decimal(Utf8Length(BodyText(resp)))
  }

  /** `String::from(&HttpResponse)`: the status line, the header block, the
      `Content-Length` line, an empty line and the body; the `unwrap` on the
      headers panics when the response has none. */
  function ResponseText(resp: HttpResponse, order: seq<string>): (r: Result<string>)
    requires resp.headers.Some? ==> IsEnumeration(order, WireHeaders(resp.headers.value).Keys)
    ensures r.Success? <==> resp.headers.Some?
    ensures r.Failure? ==> r.fault == UnwrapOnNone
  {
    if resp.headers.None? then
      Failure(UnwrapOnNone)
    else
      var h := WireHeaders(resp.headers.value);
      EnumerationKeysIn(order, h);
      Success(StatusLine(resp) + "\r\n" + HeaderBlock(h, order) +
              ContentLengthField(resp) + "\r\n\r\n" + BodyText(resp))
  }

  /** The text of a response computed as the source does, through `headers()`. */
  method ToText(resp: HttpResponse, order: seq<string>) returns (r: Result<string>)
    requires resp.headers.Some? ==> IsEnumeration(order, WireHeaders(resp.headers.value).Keys)
    ensures r == ResponseText(resp, order)
  {
    var code, reason := Code(resp.statusCode), Reason(resp.statusCode);
    var version := VersionText(resp.version);
    var headers := Headers(resp, order);
    if headers.Failure? {
      return Failure(headers.fault);
    }
    var statusLine := version + " " + Decimal(code) + " " + reason;
    var body := BodyText(resp);
    r := Success(statusLine + "\r\n" + headers.value +
                 ("Content-Length: " + Decimal(Utf8Length(body))) + "\r\n\r\n" + body);
  }

  /** The lines of a response before its body. */
  function ResponseHead(resp: HttpResponse, order: seq<string>): seq<string>
    requires resp.headers.Some? && KeysIn(order, WireHeaders(resp.headers.value))
  {
    [StatusLine(resp)] + HeaderFields(WireHeaders(resp.headers.value), order) + [ContentLengthField(resp), ""]
  }

  // ---------------------------------------------------------------------
  // Properties of the header block
  // ---------------------------------------------------------------------

  /** An order of the keys has one entry per key. */
  lemma {:induction false} EnumerationSize(order: seq<string>, keys: set<string>)
    requires IsEnumeration(order, keys)
    ensures |order| == |keys|
    decreases |order|
  {
    if order == [] {
      assert keys == {} by {
        forall k ensures k !in keys {
          assert k !in order;
        }
      }
    } else {
      var n := |order| - 1;
      var x, init := order[n], order[..n];
      var rest := keys - {x};
      assert order == init + [x];
      assert IsEnumeration(init, rest) by {
        forall i | 0 <= i < |init| ensures init[i] in rest {
          assert init[i] == order[i];
        }
      }
      EnumerationSize(init, rest);
    }
  }

  /** The block has one line per key of the map it walks, and the line of
      each key carries that key's value. */
  lemma OneLinePerKey(h: map<string, string>, order: seq<string>)
    requires IsEnumeration(order, h.Keys)
    ensures KeysIn(order, h)
    ensures |HeaderFields(h, order)| == |h.Keys|
    ensures forall k :: k in h ==> HeaderField(k, h[k]) in HeaderFields(h, order)
  {
    EnumerationSize(order, h.Keys);
    forall k | k in h ensures HeaderField(k, h[k]) in HeaderFields(h, order) {
      var i := Find(order, k);
      assert HeaderFields(h, order)[i] == HeaderField(k, h[k]);
    }
  }

  /** The index of an element of a sequence. */
  function Find(order: seq<string>, x: string): (i: nat)
    requires x in order
    ensures i < |order| && order[i] == x
  {
    if order[0] == x then 0 else 1 + Find(order[1..], x)
  }

  /** A sequence without repetitions holds each of its elements once. */
  lemma {:induction false} DistinctCount(order: seq<string>, x: string)
    requires Distinct(order)
    ensures multiset(order)[x] == if x in order then 1 else 0
    decreases |order|
  {
    if order != [] {
      var n := |order| - 1;
      var init := order[..n];
      assert order == init + [order[n]];
      DistinctCount(init, x);
      assert order[n] !in init by {
        forall i | 0 <= i < n ensures init[i] != order[n] {
          assert init[i] == order[i];
        }
      }
    }
  }

  /** Taking one element out of a sequence takes it out of its multiset. */
  lemma RemoveAt(o: seq<string>, j: nat)
    requires j < |o|
    ensures multiset(o[..j] + o[j + 1..]) == multiset(o) - multiset{o[j]}
  {
    assert o == o[..j] + [o[j]] + o[j + 1..];
  }

  /** The header lines of an order with one key taken out. */
  lemma FieldsRemoveAt(h: map<string, string>, o: seq<string>, j: nat)
    requires KeysIn(o, h) && j < |o|
    ensures KeysIn(o[..j] + o[j + 1..], h)
    ensures multiset(HeaderFields(h, o[..j] + o[j + 1..])) ==
            multiset(HeaderFields(h, o)) - multiset{HeaderField(o[j], h[o[j]])}
  {
    var fields := HeaderFields(h, o);
    assert HeaderFields(h, o[..j] + o[j + 1..]) == fields[..j] + fields[j + 1..];
    RemoveAt(fields, j);
  }

  lemma PutBack(m: multiset<string>, x: string)
    requires x in m
    ensures (m - multiset{x}) + multiset{x} == m
  {
  }

  /** Walking the keys in a permuted order permutes the header lines. */
  lemma {:induction false} PermutedFields(h: map<string, string>, o1: seq<string>, o2: seq<string>)
    requires KeysIn(o1, h) && KeysIn(o2, h)
    requires multiset(o1) == multiset(o2)
    ensures multiset(HeaderFields(h, o1)) == multiset(HeaderFields(h, o2))
    decreases |o1|
  {
    if o1 == [] {
      assert |o2| == |multiset(o2)| == 0;
    } else {
      var n := |o1| - 1;
      var x := o1[n];
      assert x in multiset(o2);
      var j := Find(o2, x);
      RemoveAt(o1, n);
      RemoveAt(o2, j);
      assert o1[..n] + o1[n + 1..] == o1[..n];
      PermutedFields(h, o1[..n], o2[..j] + o2[j + 1..]);
      FieldsRemoveAt(h, o1, n);
      FieldsRemoveAt(h, o2, j);
      var f := HeaderField(x, h[x]);
      var m1, m2 := multiset(HeaderFields(h, o1)), multiset(HeaderFields(h, o2));
      assert f in m1 by {
        assert HeaderFields(h, o1)[n] == f;
      }
      assert f in m2 by {
        assert HeaderFields(h, o2)[j] == f;
      }
      PutBack(m1, f);
      PutBack(m2, f);
    }
  }

  /** The header lines do not depend on the order the map is walked in, up to
      a permutation. */
  lemma OrderIndependent(h: map<string, string>, o1: seq<string>, o2: seq<string>)
    requires IsEnumeration(o1, h.Keys) && IsEnumeration(o2, h.Keys)
    ensures KeysIn(o1, h) && KeysIn(o2, h)
    ensures multiset(HeaderFields(h, o1)) == multiset(HeaderFields(h, o2))
  {
    forall x ensures multiset(o1)[x] == multiset(o2)[x] {
      DistinctCount(o1, x);
      DistinctCount(o2, x);
    }
    assert multiset(o1) == multiset(o2);
    PermutedFields(h, o1, o2);
  }

  /** Whatever the response held for `Server`, its line says `nginx/1.14.1`;
      every other key keeps the response's own value. */
  lemma ServerOverride(h: map<string, string>, order: seq<string>)
    requires IsEnumeration(order, WireHeaders(h).Keys)
    ensures KeysIn(order, WireHeaders(h))
    ensures HeaderField("Server", ServerName) in HeaderFields(WireHeaders(h), order)
    ensures forall i :: 0 <= i < |order| ==>
      HeaderFields(WireHeaders(h), order)[i] ==
        HeaderField(order[i], if order[i] == "Server" then ServerName else h[order[i]])
  {
    var w := WireHeaders(h);
    EnumerationKeysIn(order, w);
    assert "Server" in order;
    var i := Find(order, "Server");
    assert HeaderFields(w, order)[i] == HeaderField("Server", ServerName);
  }

  // ---------------------------------------------------------------------
  // Properties of the wire format
  // ---------------------------------------------------------------------

  /** No key or value of the map holds a line feed. */
  predicate SingleLineHeaders(h: map<string, string>)
  {
    forall k :: k in h ==> '\n' !in k && '\n' !in h[k]
  }

  lemma FieldsSingleLine(h: map<string, string>, order: seq<string>)
    requires KeysIn(order, h) && SingleLineHeaders(h)
    ensures NoneContains(HeaderFields(h, order), '\n')
  {
    forall i | 0 <= i < |order| ensures '\n' !in HeaderFields(h, order)[i] {
      var k := order[i];
      assert HeaderFields(h, order)[i] == k + ": " + h[k];
    }
  }

  /** Read back with `lines()`, the header block gives its header lines. */
  lemma HeaderBlockReadBack(h: map<string, string>, order: seq<string>)
    requires KeysIn(order, h) && SingleLineHeaders(h)
    ensures Lines(HeaderBlock(h, order)) == HeaderFields(h, order)
  {
    FieldsSingleLine(h, order);
    LinesTerminated(HeaderFields(h, order));
  }

  /** A response is its head, each line terminated by CR LF, followed by the
      body exactly as given. */
  lemma ResponseLayout(resp: HttpResponse, order: seq<string>)
    requires resp.headers.Some? && IsEnumeration(order, WireHeaders(resp.headers.value).Keys)
    ensures KeysIn(order, WireHeaders(resp.headers.value))
    ensures ResponseText(resp, order).value == Terminated(ResponseHead(resp, order)) + BodyText(resp)
  {
    var h := WireHeaders(resp.headers.value);
    EnumerationKeysIn(order, h);
    var fields := HeaderFields(h, order);
    var status, length := StatusLine(resp), ContentLengthField(resp);
    TerminatedAppend([status] + fields, [length, ""]);
    TerminatedAppend([status], fields);
    TerminatedPair(length, "");
    assert Terminated([status]) == status + "\r\n" by {
      assert [status][1..] == [];
    }
    Regroup(status, Terminated(fields), length, BodyText(resp));
  }

  /** The text of a response grouped as its lines are. */
  lemma Regroup(status: string, block: string, length: string, body: string)
    ensures status + "\r\n" + block + length + "\r\n\r\n" + body ==
            (status + "\r\n" + block + (length + "\r\n" + "" + "\r\n")) + body
  {
    assert length + "\r\n" + "" + "\r\n" == length + "\r\n\r\n";
  }

  lemma TerminatedPair(a: string, b: string)
    ensures Terminated([a, b]) == a + "\r\n" + b + "\r\n"
  {
    assert [a, b][1..] == [b];
    assert [b][1..] == [];
    assert Terminated([b]) == b + "\r\n";
    assert Terminated([a, b]) == a + "\r\n" + (b + "\r\n");
  }

  /** The status line holds no line feed. */
  lemma StatusLineSingle(resp: HttpResponse)
    ensures '\n' !in StatusLine(resp)
  {
    ReasonSingleLine(resp.statusCode);
    var version, code := VersionText(resp.version), Decimal(Code(resp.statusCode));
    assert '\n' !in code by {
      forall i | 0 <= i < |code| ensures code[i] != '\n' {
        assert '0' <= code[i] <= '9';
      }
    }
  }

  /** Read back with `lines()`, the part of a response before its body gives
      the status line, one line per header, the `Content-Length` line and the
      empty line. */
  lemma ResponseHeadReadBack(resp: HttpResponse, order: seq<string>)
    requires resp.headers.Some? && IsEnumeration(order, WireHeaders(resp.headers.value).Keys)
    requires SingleLineHeaders(WireHeaders(resp.headers.value))
    ensures KeysIn(order, WireHeaders(resp.headers.value))
    ensures Lines(Terminated(ResponseHead(resp, order))) == ResponseHead(resp, order)
  {
    var h := WireHeaders(resp.headers.value);
    EnumerationKeysIn(order, h);
    FieldsSingleLine(h, order);
    StatusLineSingle(resp);
    var length := Decimal(Utf8Length(BodyText(resp)));
    assert '\n' !in ContentLengthField(resp) by {
      forall i | 0 <= i < |length| ensures length[i] != '\n' {
        assert '0' <= length[i] <= '9';
      }
    }
    var head := ResponseHead(resp, order);
    assert NoneContains(head, '\n') by {
      forall i | 0 <= i < |head| ensures '\n' !in head[i] {
        if 0 < i < |head| - 2 {
          assert head[i] == HeaderFields(h, order)[i - 1];
        }
      }
    }
    LinesTerminated(head);
  }

  /** A `Content-Length` among the response's own headers is written as it
      is, before the computed one. */
  lemma ContentLengthNotFiltered(resp: HttpResponse, order: seq<string>)
    requires resp.headers.Some? && IsEnumeration(order, WireHeaders(resp.headers.value).Keys)
    requires "Content-Length" in resp.headers.value
    ensures KeysIn(order, WireHeaders(resp.headers.value))
    ensures var head := ResponseHead(resp, order);
      HeaderField("Content-Length", resp.headers.value["Content-Length"]) in head[1..|head| - 2] &&
      head[|head| - 2] == ContentLengthField(resp)
  {
    var h := WireHeaders(resp.headers.value);
    EnumerationKeysIn(order, h);
    assert "Content-Length" in order;
    var i := Find(order, "Content-Length");
    var head := ResponseHead(resp, order);
    assert head[1..|head| - 2] == HeaderFields(h, order);
    assert HeaderFields(h, order)[i] == HeaderField("Content-Length", resp.headers.value["Content-Length"]);
  }

  /** The status line comes first. */
  lemma StatusLineFirst(resp: HttpResponse, order: seq<string>)
    requires resp.headers.Some? && IsEnumeration(order, WireHeaders(resp.headers.value).Keys)
    ensures StatusLine(resp) + "\r\n" <= ResponseText(resp, order).value
  {
    var text := ResponseText(resp, order).value;
    var head := StatusLine(resp) + "\r\n";
    assert text[..|head|] == head;
  }

  /** Without a body the response ends with `Content-Length: 0` and the
      empty line. */
  lemma AbsentBody(resp: HttpResponse, order: seq<string>)
    requires resp.headers.Some? && IsEnumeration(order, WireHeaders(resp.headers.value).Keys)
    requires resp.body.None?
    ensures EndsWith(ResponseText(resp, order).value, "Content-Length: 0\r\n\r\n")
  {
    var text := ResponseText(resp, order).value;
    assert Decimal(Utf8Length(BodyText(resp))) == "0";
    var suffix := "Content-Length: 0\r\n\r\n";
    assert text[|text| - |suffix|..] == suffix;
  }

  /** A body is written verbatim after the empty line, and the line before it
      gives its length in bytes. */
  lemma BodyVerbatim(resp: HttpResponse, order: seq<string>)
    requires resp.headers.Some? && IsEnumeration(order, WireHeaders(resp.headers.value).Keys)
    ensures EndsWith(ResponseText(resp, order).value, "\r\n\r\n" + BodyText(resp))
    ensures DigitsValue(Decimal(Utf8Length(BodyText(resp)))) == Utf8Length(BodyText(resp))
  {
    var text := ResponseText(resp, order).value;
    var suffix := "\r\n\r\n" + BodyText(resp);
    assert text[|text| - |suffix|..] == suffix;
    DecimalValue(Utf8Length(BodyText(resp)));
  }

  /** A default response has no headers, so turning it into text panics. */
  lemma DefaultCannotSerialize(order: seq<string>)
    ensures ResponseText(Default(), order) == Failure(UnwrapOnNone)
  {
  }

  // ---------------------------------------------------------------------
  // The unit tests of http/src/response.rs
  // ---------------------------------------------------------------------

  /** A map with two keys is walked in one of two orders. */
  lemma TwoKeyOrders(order: seq<string>, a: string, b: string)
    requires a != b && IsEnumeration(order, {a, b})
    ensures order == [a, b] || order == [b, a]
  {
    EnumerationSize(order, {a, b});
    assert order[0] in {a, b} && order[1] in {a, b};
  }

  /** The text of a response whose walked map has two keys, line by line. */
  lemma TwoHeaderText(resp: HttpResponse, a: string, b: string)
    requires resp.headers.Some? && a != b && WireHeaders(resp.headers.value).Keys == {a, b}
    ensures ResponseText(resp, [a, b]).value ==
      (StatusLine(resp) + "\r\n") +
      (HeaderField(a, WireHeaders(resp.headers.value)[a]) + "\r\n") +
      (HeaderField(b, WireHeaders(resp.headers.value)[b]) + "\r\n") +
      (ContentLengthField(resp) + "\r\n\r\n") + BodyText(resp)
  {
    var h := WireHeaders(resp.headers.value);
    var order := [a, b];
    ResponseLayout(resp, order);
    var fa, fb := HeaderField(a, h[a]), HeaderField(b, h[b]);
    var status, length := StatusLine(resp), ContentLengthField(resp);
    assert HeaderFields(h, order) == [fa, fb];
    assert ResponseHead(resp, order) == [status, fa] + [fb, length, ""];
    TerminatedAppend([status, fa], [fb, length, ""]);
    TerminatedPair(status, fa);
    TerminatedTriple(fb, length, "");
    TerminatedPair(length, "");
    RegroupLines(status, fa, fb, length, BodyText(resp));
  }

  lemma TerminatedTriple(a: string, b: string, c: string)
    ensures Terminated([a, b, c]) == a + "\r\n" + Terminated([b, c])
  {
    assert [a, b, c][1..] == [b, c];
  }

  lemma RegroupLines(status: string, fa: string, fb: string, length: string, body: string)
    ensures (status + "\r\n" + fa + "\r\n") + (fb + "\r\n" + (length + "\r\n" + "" + "\r\n")) + body ==
      (status + "\r\n") + (fa + "\r\n") + (fb + "\r\n") + (length + "\r\n\r\n") + body
  {
    assert length + "\r\n" + "" + "\r\n" == length + "\r\n\r\n";
  }

  /** `new` without headers walks `Content-Type` and `Server`. */
  lemma NewWithoutHeaders(version: Version, status: HttpStatus, body: Option<string>)
    ensures New(version, status, None, body).headers == Some(DefaultHeaders)
    ensures WireHeaders(DefaultHeaders) == map["Content-Type" := "text/html", "Server" := ServerName]
    ensures WireHeaders(DefaultHeaders).Keys == {"Content-Type", "Server"}
  {
  }

  /** The lines the responses of the unit tests are made of. */
  const OkStatusLine: string := "HTTP/1.1 200 Ok\r\n"
  const HtmlLine: string := "Content-Type: text/html\r\n"
  const ServerLine: string := "Server: nginx/1.14.1\r\n"
  const NoBodyEnd: string := "Content-Length: 0\r\n\r\n"

  /** The text the first assertion of `test_response_parse` expects. */
  const ExpectedNoHeadersText: string :=
    "HTTP/1.1 200 Ok\r\nContent-Type: text/html\r\nContent-Length: 0\r\n\r\n"

  lemma OkStatusLines(resp: HttpResponse)
    requires resp.version == V1_1 && resp.statusCode == Ok
    ensures StatusLine(resp) + "\r\n" == OkStatusLine
  {
    assert Decimal(200) == "200";
  }

  lemma DefaultHeaderLines()
    ensures HeaderField("Content-Type", "text/html") + "\r\n" == HtmlLine
    ensures HeaderField("Server", ServerName) + "\r\n" == ServerLine
  {
  }

  /** `new(V1_1, OK, None, body)`, for each order of its two keys. */
  lemma OkWithoutHeadersTexts(body: Option<string>)
    ensures var resp := New(V1_1, Ok, None, body);
      ResponseText(resp, ["Content-Type", "Server"]) ==
        Success(OkStatusLine + HtmlLine + ServerLine + (ContentLengthField(resp) + "\r\n\r\n") + BodyText(resp)) &&
      ResponseText(resp, ["Server", "Content-Type"]) ==
        Success(OkStatusLine + ServerLine + HtmlLine + (ContentLengthField(resp) + "\r\n\r\n") + BodyText(resp))
  {
    var resp := New(V1_1, Ok, None, body);
    NewWithoutHeaders(V1_1, Ok, body);
    OkStatusLines(resp);
    DefaultHeaderLines();
    var h := WireHeaders(resp.headers.value);
    assert h["Content-Type"] == "text/html" && h["Server"] == ServerName;
    TwoHeaderText(resp, "Content-Type", "Server");
    TwoHeaderText(resp, "Server", "Content-Type");
  }

  /** The first assertion of `test_response_parse`, checked against the code:
      the `Server` line is always there, so the response is one of two texts
      and never the expected one. */
  lemma NoHeadersResponse(order: seq<string>)
    requires IsEnumeration(order, {"Content-Type", "Server"})
    ensures var text := ResponseText(New(V1_1, Ok, None, None), order);
      (text == Success(OkStatusLine + HtmlLine + ServerLine + NoBodyEnd) ||
       text == Success(OkStatusLine + ServerLine + HtmlLine + NoBodyEnd)) &&
      text != Success(ExpectedNoHeadersText)
  {
    NoHeadersTexts(order);
    LongerThan(ExpectedNoHeadersText, OkStatusLine + HtmlLine + ServerLine + NoBodyEnd,
               OkStatusLine + ServerLine + HtmlLine + NoBodyEnd);
  }

  lemma NoHeadersTexts(order: seq<string>)
    requires IsEnumeration(order, {"Content-Type", "Server"})
    ensures var text := ResponseText(New(V1_1, Ok, None, None), order);
      text == Success(OkStatusLine + HtmlLine + ServerLine + NoBodyEnd) ||
      text == Success(OkStatusLine + ServerLine + HtmlLine + NoBodyEnd)
  {
    var resp := New(V1_1, Ok, None, None);
    NewWithoutHeaders(V1_1, Ok, None);
    TwoKeyOrders(order, "Content-Type", "Server");
    OkWithoutHeadersTexts(None);
    assert ContentLengthField(resp) + "\r\n\r\n" == NoBodyEnd;
    assert BodyText(resp) == "";
    EmptyTail(OkStatusLine + HtmlLine + ServerLine + NoBodyEnd);
    EmptyTail(OkStatusLine + ServerLine + HtmlLine + NoBodyEnd);
  }

  /** Two texts longer than an expected one both differ from it. */
  lemma LongerThan(expected: string, a: string, b: string)
    requires |expected| < |a| && |expected| < |b|
    ensures Success(a) != Success(expected) && Success(b) != Success(expected)
  {
  }

  lemma EmptyTail(s: string)
    ensures s + "" == s
  {
  }

  const TestBody: string := "Hello I Am zRain"

  /** The text the second assertion of `test_response_parse` expects. */
  const ExpectedBodyText: string :=
    "HTTP/1.1 200 Ok\r\nContent-Type: text/html\r\nContent-Length: 16\r\n\r\nHello I Am zRain"

  /** The second assertion of `test_response_parse`: the 16-byte body gives
      `Content-Length: 16` and follows the empty line verbatim; again the
      `Server` line makes the text differ from the expected one. */
  lemma BodyResponse(order: seq<string>)
    requires IsEnumeration(order, {"Content-Type", "Server"})
    ensures var text := ResponseText(New(V1_1, Ok, None, Some(TestBody)), order);
      var end := "Content-Length: 16\r\n\r\n" + TestBody;
      (text == Success(OkStatusLine + HtmlLine + ServerLine + end) ||
       text == Success(OkStatusLine + ServerLine + HtmlLine + end)) &&
      text != Success(ExpectedBodyText)
  {
    var end := "Content-Length: 16\r\n\r\n" + TestBody;
    BodyResponseTexts(order);
    LongerThan(ExpectedBodyText, OkStatusLine + HtmlLine + ServerLine + end,
               OkStatusLine + ServerLine + HtmlLine + end);
  }

  lemma BodyResponseTexts(order: seq<string>)
    requires IsEnumeration(order, {"Content-Type", "Server"})
    ensures var text := ResponseText(New(V1_1, Ok, None, Some(TestBody)), order);
      var end := "Content-Length: 16\r\n\r\n" + TestBody;
      text == Success(OkStatusLine + HtmlLine + ServerLine + end) ||
      text == Success(OkStatusLine + ServerLine + HtmlLine + end)
  {
    var resp := New(V1_1, Ok, None, Some(TestBody));
    NewWithoutHeaders(V1_1, Ok, Some(TestBody));
    TwoKeyOrders(order, "Content-Type", "Server");
    OkWithoutHeadersTexts(Some(TestBody));
    TestBodyLength(resp);
    var length := ContentLengthField(resp) + "\r\n\r\n";
    AppendFour(OkStatusLine, HtmlLine, ServerLine, length, TestBody);
    AppendFour(OkStatusLine, ServerLine, HtmlLine, length, TestBody);
  }

  lemma TestBodyLength(resp: HttpResponse)
    requires resp.body == Some(TestBody)
    ensures BodyText(resp) == TestBody
    ensures ContentLengthField(resp) + "\r\n\r\n" == "Content-Length: 16\r\n\r\n"
  {
    assert IsAscii(TestBody);
    assert Utf8Length(TestBody) == 16;
    assert Decimal(16) == "16";
  }

  lemma AppendFour(a: string, b: string, c: string, d: string, e: string)
    ensures a + b + c + d + e == a + b + c + (d + e)
  {
  }

  /** The map of the third part of `test_response_parse`. */
  const TestHeaders: map<string, string> :=
    map["Server" := "nginx/1.14.1", "Date" := "Sat, 24 Sep 2022 03:15:53 GMT", "Connection" := "keep-alive"]

  /** The third part of `test_response_parse`: a map that already holds
      `Server: nginx/1.14.1` is walked unchanged, so the response carries
      exactly the block the test builds from the same map, in the same order. */
  lemma HeaderMapResponse(order: seq<string>)
    requires IsEnumeration(order, TestHeaders.Keys)
    ensures KeysIn(order, TestHeaders)
    ensures ResponseText(New(V1_1, Ok, Some(TestHeaders), None), order) ==
      Success(OkStatusLine + HeaderBlock(TestHeaders, order) + NoBodyEnd)
  {
    var resp := New(V1_1, Ok, Some(TestHeaders), None);
    assert WireHeaders(TestHeaders) == TestHeaders;
    EnumerationKeysIn(order, TestHeaders);
    OkStatusLines(resp);
    assert ContentLengthField(resp) + "\r\n\r\n" == NoBodyEnd;
    assert BodyText(resp) == "";
    RegroupBlock(StatusLine(resp), HeaderBlock(TestHeaders, order), ContentLengthField(resp));
  }

  lemma RegroupBlock(status: string, block: string, length: string)
    ensures status + "\r\n" + block + length + "\r\n\r\n" + "" ==
      (status + "\r\n") + block + (length + "\r\n\r\n")
  {
  }
}

