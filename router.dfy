/** `Router::route`: the handler is chosen from the method and segment 1 of
    the path, and the response it returns is written to the stream as
    text.  The stream is left out; the text written is the result.  The
    iteration order of the response's header map is the parameter `order`,
    which lists the two keys such a map has. */
module Router {
  import opened Wrappers
  import opened Text
  import opened Request
  import opened Response
  import opened Handler

  datatype HandlerChoice = WebServiceHandler | StaticPageHandler | PageNotFoundHandler

  /** The two nested `match`es of `route`; `paths[1]` panics on a `GET`
      whose path has no `/`. */
  function Select(req: HttpRequest): (r: Result<HandlerChoice>)
    ensures r.Failure? <==> req.mothod == Get && '/' !in req.resource.path
    ensures r.Failure? ==> r.fault == IndexOutOfBounds(1, 1)
    ensures r == Success(PageNotFoundHandler) <==> req.mothod != Get
    ensures r == Success(WebServiceHandler) <==>
      req.mothod == Get && |Segments(req)| > 1 && Segments(req)[1] == "api"
  {
    match req.mothod
    case Get =>
      var paths := Segments(req);
      SegmentOneExists(req);
      if |paths| <= 1 then
        Failure(IndexOutOfBounds(1, |paths|))
      else if paths[1] == "api" then
        Success(WebServiceHandler)
      else
        Success(StaticPageHandler)
    case _ => Success(PageNotFoundHandler)
  }

  /** The response of the chosen handler. */
  function Handle(choice: HandlerChoice, req: HttpRequest, load: FileLoader, json: string): Result<HttpResponse>
  {
    match choice
    case WebServiceHandler => WebService(req, load, json)
    case StaticPageHandler => StaticPage(req, load)
    case PageNotFoundHandler => Success(PageNotFound(req, load))
  }

  /** The response `route` sends, or the panic that stops it. */
  function Dispatch(req: HttpRequest, load: FileLoader, json: string): (r: Result<HttpResponse>)
    ensures r.Success? ==> HandlerResponse(r.value)
  {
    AllHandlersAgree(req, load, json);
    match Select(req)
    case Failure(f) => Failure(f)
    case Success(choice) => Handle(choice, req, load, json)
  }

  /** The text `route` writes to the stream. */
  function Route(req: HttpRequest, load: FileLoader, json: string, order: seq<string>): (r: Result<string>)
    requires IsEnumeration(order, {"Content-Type", "Server"})
    ensures r.Success? <==> Dispatch(req, load, json).Success?
    ensures r.Failure? ==> r.fault == Dispatch(req, load, json).fault
    ensures r.Success? ==> r == ResponseText(Dispatch(req, load, json).value, order)
  {
    match Dispatch(req, load, json)
    case Failure(f) => Failure(f)
    case Success(resp) =>
      assert WireHeaders(resp.headers.value).Keys == {"Content-Type", "Server"};
      ResponseText(resp, order)
  }

  // ---------------------------------------------------------------------
  // Properties
  // ---------------------------------------------------------------------

  /** A `GET` of `/api/...` goes to the web service, any other `GET` with a
      segment 1 to the static pages, anything else to the not-found page. */
  lemma RouteTable(req: HttpRequest, load: FileLoader, json: string)
    ensures req.mothod != Get ==> Dispatch(req, load, json) == Success(PageNotFound(req, load))
    ensures req.mothod == Get && '/' !in req.resource.path ==>
      Dispatch(req, load, json) == Failure(IndexOutOfBounds(1, 1))
    ensures req.mothod == Get && '/' in req.resource.path ==>
      |Segments(req)| > 1 &&
      Dispatch(req, load, json) ==
        if Segments(req)[1] == "api" then WebService(req, load, json) else StaticPage(req, load)
  {
    SegmentOneExists(req);
  }

  /** Only the method and the resource are read: the version, the headers
      and the body of the request make no difference. */
  lemma RouteReadsMethodAndResource(req1: HttpRequest, req2: HttpRequest, load: FileLoader, json: string,
                                    order: seq<string>)
    requires IsEnumeration(order, {"Content-Type", "Server"})
    requires req1.mothod == req2.mothod && req1.resource == req2.resource
    ensures Route(req1, load, json, order) == Route(req2, load, json, order)
  {
    assert Select(req1) == Select(req2);
    assert StaticPage(req1, load) == StaticPage(req2, load);
    assert WebService(req1, load, json) == WebService(req2, load, json);
  }

  const NotFoundStatusLine: string := "HTTP/1.1 404 Not Found\r\n"

  lemma NotFoundStatusLines(resp: HttpResponse)
    requires resp.version == V1_1 && resp.statusCode == NotFound
    ensures StatusLine(resp) + "\r\n" == NotFoundStatusLine
  {
    NotFoundParts();
    assert StatusLine(resp) == "HTTP/1.1" + " " + "404" + " " + "Not Found";
  }

  lemma NotFoundParts()
    ensures VersionText(V1_1) == "HTTP/1.1"
    ensures Decimal(Code(NotFound)) == "404" && Reason(NotFound) == "Not Found"
  {
    assert Code(NotFound) == 404 && Decimal(404) == "404";
  }

  /** Whatever is written starts with `HTTP/1.1 200 Ok` or
      `HTTP/1.1 404 Not Found`, the first exactly when the handler found
      something to serve. */
  lemma StatusLineOfRoute(req: HttpRequest, load: FileLoader, json: string, order: seq<string>)
    requires IsEnumeration(order, {"Content-Type", "Server"})
    requires Route(req, load, json, order).Success?
    ensures var text := Route(req, load, json, order).value;
      (OkStatusLine <= text <==> Dispatch(req, load, json).value.statusCode == Ok) &&
      (NotFoundStatusLine <= text <==> Dispatch(req, load, json).value.statusCode == NotFound)
  {
    var resp := Dispatch(req, load, json).value;
    var text := Route(req, load, json, order).value;
    assert WireHeaders(resp.headers.value).Keys == {"Content-Type", "Server"};
    StatusLineFirst(resp, order);
    if resp.statusCode == Ok {
      OkStatusLines(resp);
    } else {
      NotFoundStatusLines(resp);
    }
    FirstLineDecides(text, StatusLine(resp) + "\r\n");
  }

  /** A text that starts with one of the two status lines does not start
      with the other. */
  lemma FirstLineDecides(text: string, line: string)
    requires line == OkStatusLine || line == NotFoundStatusLine
    requires line <= text
    ensures OkStatusLine <= text <==> line == OkStatusLine
    ensures NotFoundStatusLine <= text <==> line == NotFoundStatusLine
  {
    assert OkStatusLine[9] != NotFoundStatusLine[9];
    assert line[9] == text[9];
  }

  /** Any method but `GET` writes the not-found page, whatever the path. */
  lemma OnlyGetIsServed(req: HttpRequest, load: FileLoader, json: string, order: seq<string>)
    requires IsEnumeration(order, {"Content-Type", "Server"})
    requires req.mothod != Get
    ensures Route(req, load, json, order) == ResponseText(NotFoundPage(load), order)
    ensures NotFoundStatusLine <= Route(req, load, json, order).value
  {
    StatusLineOfRoute(req, load, json, order);
  }

  // ---------------------------------------------------------------------
  // Particular requests
  // ---------------------------------------------------------------------

  /** `GET /` serves `index.html` and `GET /health` serves `health.html`. */
  lemma NamedPages(load: FileLoader, json: string)
    ensures Dispatch(GetRequest("/"), load, json) == Success(New(V1_1, Ok, None, load("index.html")))
    ensures Dispatch(GetRequest("/" + Health), load, json) == Success(New(V1_1, Ok, None, load("health.html")))
  {
    SplitSlash("");
    assert "/" + "" == "/";
    SplitSlash(Health);
    RouteTable(GetRequest("/"), load, json);
    RouteTable(GetRequest("/" + Health), load, json);
  }

  const Health: string := "health"

  /** `GET /api/shipping/orders` is answered by the web service. */
  lemma OrdersRoute(load: FileLoader, json: string)
    ensures Dispatch(GetRequest("/" + Api + "/" + Shipping + "/" + Orders), load, json) ==
      Success(HttpResponse(V1_1, Ok, Some(JsonHeaders), Some(json)))
  {
    var req := GetRequest("/" + Api + "/" + Shipping + "/" + Orders);
    SplitPath4(Api, Shipping, Orders);
    RouteTable(req, load, json);
    ShippingOrders(load, json);
  }

  /** A path without `/` stops a `GET` at `paths[1]`, and the same path is
      served the not-found page under `POST`. */
  lemma PathWithoutSlash(p: string, load: FileLoader, json: string, order: seq<string>)
    requires IsEnumeration(order, {"Content-Type", "Server"})
    requires '/' !in p
    ensures Route(GetRequest(p), load, json, order) == Failure(IndexOutOfBounds(1, 1))
    ensures Route(HttpRequest(Post, V1_1, Path(p), map[], None), load, json, order).Success?
  {
  }

  /** Text from the wire can reach the router with a target that does not
      start with `/`: `EmbeddedLine` parses to a `GET` of `b`, and routing it
      panics at `paths[1]`. */
  lemma ParsedTargetWithoutSlash(load: FileLoader, json: string, order: seq<string>)
    requires IsEnumeration(order, {"Content-Type", "Server"})
    ensures ParseLines(Lines(EmbeddedLine)).Success?
    ensures Route(ParseLines(Lines(EmbeddedLine)).value, load, json, order) ==
            Failure(IndexOutOfBounds(1, 1))
  {
    EmbeddedRequestLine();
  }
}
