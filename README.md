# A verified model of a small Rust HTTP server

This project models, in Dafny, the core of a toy HTTP/1.x server written
in Rust:

* `http/src/request.rs` — the enumerations `Method` and `Version`, the
  record `HttpRequest`, and `HttpRequest::from`, which parses raw request
  text line by line. Each line is classified by two regular expressions as
  a request line, a header line or a body line.
* `http/src/response.rs` — the status table `HttpStatus` with its
  `(code, phrase)` conversion, `HttpResponse::new`, the `headers()` loop
  (it injects `Server: nginx/1.14.1`), and the conversion of a response
  into wire text.
* `httpserver/src/handler.rs` — the not-found handler, the static-page
  handler (`/`, `/health`, or a file named by path segment 1, with its
  `Content-Type` chosen by suffix) and the web-service handler
  (`/api/shipping/orders`).
* `httpserver/src/router.rs` — `Router::route`, which picks a handler by
  method and path segment 1 and writes that handler's response.

The files are:

* `wrappers.dfy`: `Option`, `Result`, and `Fault`. A `Fault` is a panic or
  a `process::exit`, so every operation of the model is total.
* `text.dfy`: the standard-library string operations the code relies on:
  `split`, `lines`, `trim`, `find`, `ends_with`, decimal formatting and
  UTF-8 byte length.
* `request.dfy`, `response.dfy`, `handler.dfy`, `router.dfy`: one module per
  source file.

The two loops of the source are methods with loop invariants:

* `Request.FromString` is proved equal to the fold `ParseLines(Lines(raw))`.
* `Response.Headers` is proved equal to `HeaderBlock`.

Everything else is pure.

Where the code departs from HTTP conventions or from its own unit tests
(the model follows the code):

* `GONE` resolves to `(401, "Gone")`; the code says 401, not 410
  (`GoneIs401`).
* A caller-supplied `Content-Length` header is not filtered out. It
  appears in the header block next to the computed one, so such a response
  carries two `Content-Length` fields (`ContentLengthNotFiltered`).
* The request-line pattern accepts `HTTP/1.1`, `HTTP/1.2` and `HTTP/2.0`
  only. A line such as `GET / HTTP/1.0` is taken as the body
  (`Http10IsBody`).
* `HttpResponse::default()` has no headers, so a response built with it
  rather than with `new` panics when it is turned into text
  (`DefaultCannotSerialize`).
* The two byte-exact expectations in the unit test `test_response_parse`
  cannot hold. The `Server` line is always written, so the text is one
  line longer (`NoHeadersResponse`, `BodyResponse`).
* `process::exit(1)` on a request line without exactly three
  space-separated fields is modelled as `Failure(ProcessExit(1))`.
* The request-line pattern is not anchored, but the method, target and
  version are the three space-separated fields of the whole line. So a
  target need not start with `/`: the line `GET b x<TAB>GET<TAB>/x<TAB>HTTP/1.1`
  matches the pattern inside its third field and yields the target `b`
  (`EmbeddedRequestLine`, `ParsedTargetWithoutSlash`).
* Panics are modelled as failures:
  * a `GET` path without `/` fails at `paths[1]` in the router;
  * `/api` and `/api/shipping` fail in the web service. Once `paths[2]`
    has been read, the guard `paths.len() > 2` is always true, so it does
    not protect `paths[3]`.

## Model

| member | source | states |
|---|---|---|
| Text.IsSpace | http/src/request.rs:90-103 | the whitespace of the patterns' `\s` and of `trim`: space, tab, line feed, vertical tab, form feed and carriage return; `Trim` and `HeaderLineRegex` state what follows from it |
| Text.EndsWith | httpserver/src/handler.rs:68-70 | `str::ends_with`: the last characters of the string are the suffix; `FileHeaders` and `CssOrJs` state how the handler uses it |
| Text.IndexOf | http/src/request.rs:101 | the index is the first occurrence of the character, or the length when it is absent |
| Text.Split | http/src/request.rs:129 | no field of `split` contains the separator |
| Text.SplitCount | http/src/request.rs:129-131 | `split` yields one more field than there are separators |
| Text.JoinSplit | http/src/request.rs:129 | gluing the fields back with the separator gives the original string |
| Text.SplitJoin | http/src/request.rs:129 | splitting separator-free fields joined by the separator gives the fields back |
| Text.SplitAfter | httpserver/src/handler.rs:47 | the first field of `split` ends at the first separator and the rest is split on |
| Text.Trim | http/src/request.rs:102-103 | `trim` removes exactly the whitespace at both ends: the result is a slice with whitespace on either side, it neither starts nor ends with whitespace, and it is empty iff the input is all whitespace |
| Text.TrimExact | http/src/request.rs:102-103 | trimming whitespace, a core and whitespace gives the core |
| Text.Lines | http/src/request.rs:88 | `str::lines`: the text cut at each line feed, a carriage return before it dropped; `LinesCount`, `LinesCons` and `LinesJoined` state its properties |
| Text.LinesHaveNoLineFeed | http/src/request.rs:88 | no line from `lines()` contains a line feed |
| Text.LinesCount | http/src/request.rs:88 | `lines()` yields one line per line feed, plus one for an unterminated last line |
| Text.LinesCons | http/src/request.rs:88 | a line and a line feed come off first, with a trailing carriage return removed |
| Text.LinesJoined | http/src/request.rs:88 | lines joined by line feeds read back as the same lines |
| Text.LinesTerminated | http/src/response.rs:205 | lines each ended by CR LF read back through `lines()` as the same lines |
| Text.TerminatedAppend | http/src/response.rs:204-206 | the CR LF text of two line lists is the concatenation of their texts |
| Text.Decimal | http/src/response.rs:147-150 | `{}` of an integer is a non-empty string of digits with no leading zero |
| Text.DecimalValue | http/src/response.rs:150 | the digits written for a number read back as that number |
| Text.DecimalInjective | http/src/response.rs:150 | different numbers are written differently |
| Text.Utf8Length | http/src/response.rs:150 | `len()` is between one and four bytes per character, and equals the character count iff the text is ASCII |
| Text.Utf8LengthConcat | http/src/response.rs:150 | the byte length of a concatenation is the sum of the byte lengths |
| Request.MethodFrom | http/src/request.rs:17-25 | the method is `Get` iff the token is `GET` and `Post` iff it is `POST` |
| Request.VersionFrom | http/src/request.rs:41-50 | each version iff its exact token |
| Request.VersionText | http/src/request.rs:52-61 | the text of a version parses back to that version and starts with `HTTP/` |
| Request.IsRequestLine | http/src/request.rs:90-92 | the first `Regex::is_match`: the pattern matches starting at some index of the line; `RequestLineRegex` ties it to the regular expression |
| Request.RequestLineSomewhere | http/src/request.rs:90-92 | the scan succeeds iff the request-line pattern matches at some position |
| Request.PathThenVersionSpan | http/src/request.rs:90 | the path-then-version scan succeeds iff some run of path characters is followed by whitespace and a version |
| Request.RequestLineRegex | http/src/request.rs:90-92 | a line is a request line iff some part of it is `GET` or `POST`, whitespace, `/` and path characters, whitespace, and `HTTP/1.1`, `HTTP/1.2` or `HTTP/2.0` |
| Request.IsHeaderLine | http/src/request.rs:100 | the second `Regex::is_match`: some colon is followed by whitespace and one more character; `HeaderLineRegex` ties it to the regular expression |
| Request.HeaderLineSomewhere | http/src/request.rs:100 | the header scan succeeds iff a colon followed by whitespace and at least one more character occurs |
| Request.HeaderLineRegex | http/src/request.rs:100 | a line is a header line iff some part of it is a colon, whitespace and at least one more character (the key pattern may match empty) |
| Request.HeaderLineFrom | http/src/request.rs:100-101 | a header line contains a colon, so the `find(':').unwrap()` cannot panic |
| Request.HeaderHasColon | http/src/request.rs:100-101 | a line classified as a header contains a colon |
| Request.HeaderKey | http/src/request.rs:101-102 | the trimmed text before the first colon; `HeaderLineParts` states what it yields |
| Request.HeaderValue | http/src/request.rs:101-103 | the trimmed text after the first colon; `HeaderLineParts` states what it yields |
| Request.ProcessRequestLine | http/src/request.rs:128-141 | the line is rejected with exit status 1 iff it does not hold exactly two spaces, and the path holds no space |
| Request.ProcessThreeFields | http/src/request.rs:128-141 | three space-free fields give the method, path and version of the first, second and third |
| Request.ProcessGetExample | http/src/request.rs:167-174 | `GET / HTTP/1.0` gives `(Get, Path("/"), V1_0)` |
| Request.ProcessPostExample | http/src/request.rs:176-181 | `POST /foo HTTP/1.1` gives `(Post, Path("/foo"), V1_1)` |
| Request.Initial | http/src/request.rs:80-84 | the initial locals: method and version `Uninitialized`, the empty path, no headers and no body; `NoRequestLine` and `NoBodyLine` state what survives of it |
| Request.BodyOf | http/src/request.rs:108-114 | the body branch: a non-empty line becomes the body and an empty one gives `None`; `LastBodyLineWins` states its effect |
| Request.Classify | http/src/request.rs:89-114 | the match guards in their order: request-line pattern first, then header pattern, else body |
| Request.Step | http/src/request.rs:89-115 | one iteration of the loop body; `StepEffect` and `HeaderStep` state its effect |
| Request.ParseLines | http/src/request.rs:80-125 | the loop as a fold of `Step` from the initial request; `FromString` is proved equal to it and `ParseFailure`, `HeaderKeys`, `FirstHeaderWins` and `LastBodyLineWins` state what it yields |
| Request.FromString | http/src/request.rs:78-126 | the parsing loop returns the fold of the line step over `lines()` from the initial request |
| Request.ParseSnoc | http/src/request.rs:88-116 | one more line is one more step, and a failure stays a failure |
| Request.FailureSticks | http/src/request.rs:131-133 | once the process has exited, later lines change nothing |
| Request.HeaderStep | http/src/request.rs:100-106 | a header line adds its key and value only when the key is new (`entry().or_insert`) |
| Request.StepEffect | http/src/request.rs:89-115 | one step fails iff the line is a malformed request line, and otherwise changes only what its line kind sets, keeping every existing header |
| Request.ParseFailure | http/src/request.rs:88-134 | parsing fails, with exit status 1, iff some line is a request line without exactly three fields |
| Request.NoRequestLine | http/src/request.rs:80-99 | with no request line, the method, path and version keep their initial values |
| Request.LastRequestLineWins | http/src/request.rs:94-98 | the method, path and version come from the last request line |
| Request.HeaderKeys | http/src/request.rs:100-106 | the header keys are exactly the keys of the header lines |
| Request.FirstHeaderWins | http/src/request.rs:105 | a header's value comes from its first line |
| Request.LastBodyLineWins | http/src/request.rs:108-114 | the body comes from the last body line, and an empty line gives `None` |
| Request.NoBodyLine | http/src/request.rs:84-124 | without a body line the body is `None` |
| Request.RequestLineAccepted | http/src/request.rs:90-99 | `GET` or `POST`, a `/`-path and `HTTP/1.1`, `HTTP/1.2` or `HTTP/2.0` form a request line that yields those three parts |
| Request.RequestLineMatchesAtStart | http/src/request.rs:90-92 | such a line matches the pattern at its first character |
| Request.SingleRequestLine | http/src/request.rs:78-126 | such a line on its own parses to that request with no headers and no body |
| Request.SingleBodyLine | http/src/request.rs:108-114 | a body line on its own parses to the initial request with that body |
| Request.NoVersionNoPath | http/src/request.rs:90 | with no version token anywhere, no path-then-version span exists |
| Request.NoVersionNoRequestLine | http/src/request.rs:90 | a line without a version token is not a request line |
| Request.NoMethodNoRequestLine | http/src/request.rs:90 | a line without `G` or `P` is not a request line |
| Request.Http10NoVersion | http/src/request.rs:90 | `GET / HTTP/1.0` holds no accepted version token |
| Request.Http10NoColon | http/src/request.rs:100 | `GET / HTTP/1.0` is not a header line |
| Request.Http10IsBody | http/src/request.rs:88-114 | `GET / HTTP/1.0` is parsed as a body line |
| Request.EmbeddedRequestLine | http/src/request.rs:88-99 | a line whose pattern match lies in its third space-separated field parses to a `GET` whose target `b` has no `/` |
| Request.HeaderLineParts | http/src/request.rs:100-103 | a line that is not a request line and is made of leading whitespace, a colon-free key, `: ` and a value, neither with whitespace at its ends, classifies as a header with that key and value |
| Request.IndentedHeader | http/src/request.rs:187-189 | an indented header line of plain text yields its key and value |
| Request.ParseNewHeader | http/src/request.rs:105 | a header line with a new key adds that key with its value |
| Request.ThreeHeaders | http/src/request.rs:100-106 | three header lines with distinct new keys add all three |
| Request.RequestWithThreeHeaders | http/src/request.rs:78-126 | a request line and three indented headers with distinct keys parse to that method, path, version and those headers, with no body |
| Request.TestRequestParse | http/src/request.rs:184-205 | the request of `test_parse_request` parses to `GET`, `/`, `HTTP/1.1`, its three headers and no body |
| Response.Discriminant | http/src/response.rs:8-55 | the discriminant each variant declares, `GONE` as 410; `DiscriminantRoundTrip` and `DiscriminantInjective` state that the declarations are distinct |
| Response.Code | http/src/response.rs:58-116 | the code column: the declared discriminant for every status except `GONE`, and in 100..505; `CodeCollision` states that `GONE` is the only collision |
| Response.Reason | http/src/response.rs:58-116 | the phrase column as written, typing errors included; `ReasonSingleLine` and `ResolveInjective` state its properties |
| Response.Resolve | http/src/response.rs:58-116 | `into()` as the pair of code and phrase; `ResolveInjective` and `ResolveExamples` state what it gives |
| Response.ReasonSingleLine | http/src/response.rs:58-116 | no phrase of the table holds a line feed |
| Response.DiscriminantRoundTrip | http/src/response.rs:8-55 | reading a variant's discriminant back through the inverse table gives that variant |
| Response.DiscriminantInjective | http/src/response.rs:8-55 | distinct variants declare distinct discriminants |
| Response.CodeNames | http/src/response.rs:58-116 | every code names its own status, except `GONE`'s 401, which names `UNAUTHORIZED` |
| Response.CodeCollision | http/src/response.rs:82-93 | two distinct statuses share a code only if they are `GONE` and `UNAUTHORIZED` |
| Response.ResolveInjective | http/src/response.rs:58-116 | distinct statuses resolve to distinct (code, phrase) pairs |
| Response.GoneIs401 | http/src/response.rs:93 | `GONE` resolves to `(401, "Gone")` although declared 410, the same code as `UNAUTHORIZED` |
| Response.ResolveExamples | http/src/response.rs:224-231 | `OK` is `(200, "Ok")` and `I_AM_A_TEAPOT` is `(418, "I Am A Teapot")` |
| Response.Default | http/src/response.rs:126-135 | `default()`: `V1_1`, `OK`, no headers and no body; `DefaultCannotSerialize` states what follows |
| Response.New | http/src/response.rs:157-180 | version, status and body are stored; given headers are kept, absent ones become `Content-Type: text/html` |
| Response.BodyText | http/src/response.rs:211-217 | `body()`: the body, or the empty string without one; `AbsentBody` and `BodyVerbatim` state its place in the text |
| Response.NewWithoutHeaders | http/src/response.rs:168-176 | without headers, the walked map is `Content-Type: text/html` plus `Server` |
| Response.WireHeaders | http/src/response.rs:199-202 | the cloned map with `Server` set to `nginx/1.14.1`; `ServerOverride` states the lines it gives |
| Response.HeaderField | http/src/response.rs:205 | one header line without its terminator, `key: value`; `HeaderBlockSnoc` and `OneLinePerKey` state its place in the block |
| Response.HeaderBlock | http/src/response.rs:204-206 | one `key: value` CR LF line per walked key; `OneLinePerKey`, `OrderIndependent` and `HeaderBlockReadBack` state its properties |
| Response.HeaderBlockSnoc | http/src/response.rs:204-206 | one more key walked appends its `key: value` CR LF line |
| Response.Headers | http/src/response.rs:198-209 | `headers()` panics on absent headers, and otherwise returns one line per key of the map with `Server` inserted, in iteration order |
| Response.StatusLine | http/src/response.rs:139-148 | version text, code and phrase separated by spaces; `StatusLineSingle` and `StatusLineOfRoute` state its properties |
| Response.ContentLengthField | http/src/response.rs:145-150 | `Content-Length: ` and the decimal byte length of the body; `AbsentBody` and `BodyVerbatim` state what it reads back as |
| Response.ResponseText | http/src/response.rs:137-154 | the text exists iff the response has headers; otherwise the `unwrap` panics |
| Response.ToText | http/src/response.rs:137-154 | the conversion built on the `headers()` loop gives the specified text |
| Response.ResponseLayout | http/src/response.rs:144-152 | the text is the status line, the header lines, the `Content-Length` line and an empty line, each ended by CR LF, then the body |
| Response.StatusLineFirst | http/src/response.rs:145-148 | the text starts with the status line |
| Response.EnumerationSize | http/src/response.rs:204 | an iteration order visits as many keys as the map has |
| Response.OneLinePerKey | http/src/response.rs:202-206 | there is exactly one header line per key, and every key's line is present |
| Response.PermutedFields | http/src/response.rs:204-206 | walking the keys in permuted orders gives permuted header lines |
| Response.OrderIndependent | http/src/response.rs:204-206 | any two iteration orders give the same header lines up to order |
| Response.ServerOverride | http/src/response.rs:202 | the `Server: nginx/1.14.1` line is always present and overrides a caller's `Server`; all other values are the caller's |
| Response.HeaderBlockReadBack | http/src/response.rs:204-206 | with single-line values, the header block reads back as its header lines |
| Response.StatusLineSingle | http/src/response.rs:145-148 | no status line holds a line feed |
| Response.ResponseHeadReadBack | http/src/response.rs:144-152 | with single-line values, the head of the text reads back line by line |
| Response.ContentLengthNotFiltered | http/src/response.rs:141-150 | a caller's `Content-Length` header is written among the headers, before the computed one |
| Response.AbsentBody | http/src/response.rs:142-152 | without a body, the text ends with `Content-Length: 0` and the empty line |
| Response.BodyVerbatim | http/src/response.rs:145-151 | the body follows the empty line verbatim, and the length line reads back as its byte length |
| Response.DefaultCannotSerialize | http/src/response.rs:126-141 | the default response has no headers, so its conversion to text panics |
| Response.TwoKeyOrders | http/src/response.rs:204 | a map of two keys is walked in one of two orders |
| Response.TwoHeaderText | http/src/response.rs:144-152 | the exact text of a response whose walked map has two keys |
| Response.OkWithoutHeadersTexts | http/src/response.rs:235-236 | the two possible texts of `new(V1_1, OK, None, body)` |
| Response.NoHeadersResponse | http/src/response.rs:235-241 | without headers or body the text holds the `Server` line and so differs from the expected text |
| Response.TestBodyLength | http/src/response.rs:243-251 | `Hello I Am zRain` is 16 bytes, so the length line is `Content-Length: 16` |
| Response.BodyResponse | http/src/response.rs:243-251 | with that body the text ends with `Content-Length: 16`, the empty line and the body, and again differs from the expected text |
| Response.HeaderMapResponse | http/src/response.rs:253-270 | a map already holding `Server` gives the status line, the block the test builds from the same map, and `Content-Length: 0` |
| Handler.Segments | httpserver/src/handler.rs:46-47 | the path split on `/`; `SegmentOneExists` states when `paths[1]` exists |
| Handler.SegmentOneExists | httpserver/src/handler.rs:46-49 | `paths[1]` exists iff the path contains `/` |
| Handler.NotFoundPage | httpserver/src/handler.rs:116-121 | the not-found response is `V1_1`, `NOT_FOUND`, the default headers and `load_file("404.html")` |
| Handler.PageNotFound | httpserver/src/handler.rs:33-42 | for every request: `V1_1`, `NOT_FOUND`, the default headers and the 404 page |
| Handler.FileHeaders | httpserver/src/handler.rs:64-72 | one `Content-Type` key: `text/css` for `.css`, otherwise `text/javascript` for `.js`, otherwise `text/html` |
| Handler.CssOrJs | httpserver/src/handler.rs:68-72 | no name ends with both `.css` and `.js` |
| Handler.StaticFor | httpserver/src/handler.rs:49-83 | the match on segment 1; `StaticNamedPages` and `StaticFile` state its outcomes |
| Handler.StaticPage | httpserver/src/handler.rs:44-85 | panics at `paths[1]` iff the path has no `/`; otherwise `V1_1`, `OK` or `NOT_FOUND`, and one `Content-Type` header |
| Handler.StaticNamedPages | httpserver/src/handler.rs:49-61 | segment `""` serves `index.html` and `health` serves `health.html`, with `OK` and the default headers |
| Handler.StaticFile | httpserver/src/handler.rs:62-82 | another segment is served with `OK` and the suffix's `Content-Type` when it can be loaded, and is the 404 page otherwise |
| Handler.StaticOnlySegmentOne | httpserver/src/handler.rs:46-62 | two paths with the same segment 1 get the same response |
| Handler.StaticByName | httpserver/src/handler.rs:62-82 | the same for the path `/name` |
| Handler.StaticStyleSheet | httpserver/src/handler.rs:68-69 | `/style.css` is served as `text/css` |
| Handler.StaticScript | httpserver/src/handler.rs:70-71 | `/app.js` is served as `text/javascript` |
| Handler.StaticMissing | httpserver/src/handler.rs:76-81 | when `nothing.html` cannot be loaded, `/nothing.html` gives the 404 page (`StaticByName` states it for every name) |
| Handler.WebService | httpserver/src/handler.rs:102-124 | panics iff there are fewer than three segments, or exactly three with segment 2 `shipping`; otherwise `OK` with JSON headers and the orders iff segments 2 and 3 are `shipping` and `orders`, else the 404 page |
| Handler.WebServiceOrders | httpserver/src/handler.rs:108-115 | segments `shipping` and `orders` give the JSON response |
| Handler.ShippingOrders | httpserver/src/handler.rs:107-115 | `/api/shipping/orders` gives the orders as JSON |
| Handler.VersionedShippingOrders | httpserver/src/handler.rs:107-121 | `/api/v1/shipping/orders` gives the 404 page |
| Handler.ShortApiPaths | httpserver/src/handler.rs:105-108 | `/api` panics at `paths[2]` and `/api/shipping` at `paths[3]` |
| Handler.SplitPath4 | httpserver/src/handler.rs:105 | `/a/b/c` splits into `""`, `a`, `b` and the segments of `c` |
| Handler.AllHandlersAgree | httpserver/src/handler.rs:35-121 | every handler response is `V1_1`, `OK` or `NOT_FOUND`, with exactly a `Content-Type` header |
| Router.Select | httpserver/src/router.rs:12-35 | not-found iff the method is not `GET`; web service iff `GET` with segment 1 `api`; a panic iff `GET` with no `/` in the path |
| Router.Handle | httpserver/src/router.rs:20-34 | the response of the chosen handler; `AllHandlersAgree` states its shape |
| Router.Dispatch | httpserver/src/router.rs:11-37 | the chosen handler's response is a handler response |
| Router.Route | httpserver/src/router.rs:11-37 | exactly one text is written, the serialization of the chosen handler's response; it fails exactly when `Dispatch` fails: at the router's `paths[1]`, or at the web service's `paths[2]` or `paths[3]` |
| Router.RouteTable | httpserver/src/router.rs:12-35 | non-`GET` gives the not-found page; `GET` without `/` panics; otherwise `api` goes to the web service and anything else to the static pages |
| Router.RouteReadsMethodAndResource | httpserver/src/router.rs:11-37 | requests with the same method and resource are routed to the same text |
| Router.StatusLineOfRoute | httpserver/src/router.rs:21-34 | the text starts with `HTTP/1.1 200 Ok` iff the status is `OK`, and with `HTTP/1.1 404 Not Found` iff it is `NOT_FOUND` |
| Router.OnlyGetIsServed | httpserver/src/router.rs:32-35 | any method but `GET` writes the 404 page, whatever the path |
| Router.NamedPages | httpserver/src/router.rs:24-28 | `GET /` serves `index.html` and `GET /health` serves `health.html` |
| Router.OrdersRoute | httpserver/src/router.rs:20-23 | `GET /api/shipping/orders` is answered by the web service with the orders |
| Router.PathWithoutSlash | httpserver/src/router.rs:15-19 | for every path without `/`, `GET` panics at `paths[1]`, while `POST` of it is answered |
| Router.ParsedTargetWithoutSlash | httpserver/src/router.rs:11-19 | a request parsed from wire text can have a target without `/`, and routing it panics at `paths[1]` |

## Left out

- The server loop, socket handling and `main` (`httpserver/src/server.rs`, `server/src/main.rs`) are I/O and not modelled.
- `Handler::load_file` is a parameter of type `string -> Option<string>`. The file system, `PUBLIC_PATH` and `CARGO_MANIFEST_DIR` are not modelled.
- `WebServiceHandler::load_json` and `serde_json` are left out. Their result is a string parameter `json`, and the `unwrap`s of that code are not modelled. The `OrderStatus` serde derive is left out too.
- `HttpResponse::send` and the stream writes with `unwrap` are I/O. The model returns the text `send` would write, so a transport write failure is not modelled. Logging (`println!`, `eprintln!`) is left out.
- The iteration order of a `HashMap` is a parameter `order`, required to list each key once. Two things follow from this:
  - The model does not decide which order a map yields.
  - The unit test at `http/src/response.rs:253-270` builds its expected block from the same map as the response. It is modelled with one order for both, on the reading that cloning the map and re-inserting `Server` with its existing value keeps the iteration order.
- `IsSpace` is ASCII whitespace. Unicode whitespace, which `trim` and the `\s` of the regular expressions also accept, is not modelled.
- The regular-expression engine is not modelled. Each of the two patterns is a hand-written matcher, proved equal to the existence of a match.
- Response.ResponseText: its contract leaves the text itself to the body. ResponseLayout, ResponseHeadReadBack, AbsentBody and BodyVerbatim state the text's shape.
