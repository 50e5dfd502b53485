/** The three request handlers of the server: the not-found page, the
    static pages and the web service.  Reading a file of the public
    directory (`load_file`) is a parameter of type `FileLoader`; the orders
    the web service returns (`load_json` turned back into JSON text by
    `serde_json`) are a string parameter `json`. */
module Handler {
  import opened Wrappers
  import opened Text
  import opened Request
  import opened Response

  /** `Handler::load_file`: the contents of a file of the public directory,
      or `None` when it cannot be read. */
  type FileLoader = string -> Option<string>

  /** `s.split("/").collect::<Vec<&str>>()` on the resource of a request. */
  function Segments(req: HttpRequest): seq<string>
  {
    Split(req.resource.path, '/')
  }

  /** `paths[1]` exists exactly when the path holds a `/`. */
  lemma SegmentOneExists(req: HttpRequest)
    ensures |Segments(req)| > 1 <==> '/' in req.resource.path
  {
    SplitCount(req.resource.path, '/');
  }

  /** The response of every handler that has nothing to serve. */
  function NotFoundPage(load: FileLoader): (resp: HttpResponse)
    ensures resp.version == V1_1 && resp.statusCode == NotFound
    ensures resp.headers == Some(DefaultHeaders) && resp.body == load("404.html")
  {
    New(V1_1, NotFound, None, load("404.html"))
  }

  /** `PageNotFoundHandler::handle`: the request is not looked at. */
  function PageNotFound(req: HttpRequest, load: FileLoader): (resp: HttpResponse)
    ensures resp.version == V1_1 && resp.statusCode == NotFound
    ensures resp.headers == Some(DefaultHeaders) && resp.body == load("404.html")
  {
    NotFoundPage(load)
  }

  // ---------------------------------------------------------------------
  // Static pages
  // ---------------------------------------------------------------------

  /** The `Content-Type` of a file served as it is: inserted as `text/html`,
      then replaced by `text/css` or `text/javascript` after the suffix. */
  function FileHeaders(path: string): (h: map<string, string>)
    ensures h.Keys == {"Content-Type"}
    ensures EndsWith(path, ".css") ==> h["Content-Type"] == "text/css"
    ensures !EndsWith(path, ".css") && EndsWith(path, ".js") ==> h["Content-Type"] == "text/javascript"
    ensures !EndsWith(path, ".css") && !EndsWith(path, ".js") ==> h["Content-Type"] == "text/html"
  {
    var headers := map["Content-Type" := "text/html"];
    if EndsWith(path, ".css") then
      headers["Content-Type" := "text/css"]
    else if EndsWith(path, ".js") then
      headers["Content-Type" := "text/javascript"]
    else
      headers
  }

  /** No name ends with both `.css` and `.js`, so the order of the two
      tests does not matter. */
  lemma CssOrJs(path: string)
    ensures EndsWith(path, ".css") ==> !EndsWith(path, ".js")
  {
    if EndsWith(path, ".css") {
      assert path[|path| - 3] == 'c' by {
        assert path[|path| - 4..] == ".css";
      }
      assert path[|path| - 3..][0] != '.';
    }
  }

  /** What the static handler serves for segment 1 of the path. */
  function StaticFor(segment: string, load: FileLoader): HttpResponse
  {
    match segment
    case "" => New(V1_1, Ok, None, load("index.html"))
    case "health" => New(V1_1, Ok, None, load("health.html"))
    case path =>
      match load(path)
      case Some(contents) => New(V1_1, Ok, Some(FileHeaders(path)), Some(contents))
      case None => NotFoundPage(load)
  }

  /** `StaticPageHandler::handle`; `paths[1]` panics when the path has no `/`. */
  function StaticPage(req: HttpRequest, load: FileLoader): (r: Result<HttpResponse>)
    ensures r.Failure? <==> '/' !in req.resource.path
    ensures r.Failure? ==> r.fault == IndexOutOfBounds(1, 1)
    ensures r.Success? ==> r.value.version == V1_1 && r.value.statusCode in {Ok, NotFound}
    ensures r.Success? ==> r.value.headers.Some? && r.value.headers.value.Keys == {"Content-Type"}
  {
    var paths := Segments(req);
    SegmentOneExists(req);
    if |paths| <= 1 then
      Failure(IndexOutOfBounds(1, |paths|))
    else
      Success(StaticFor(paths[1], load))
  }

  /** The root and `/health` pages come with the default headers. */
  lemma StaticNamedPages(req: HttpRequest, load: FileLoader)
    requires |Segments(req)| > 1
    ensures Segments(req)[1] == "" ==>
      StaticPage(req, load) == Success(HttpResponse(V1_1, Ok, Some(DefaultHeaders), load("index.html")))
    ensures Segments(req)[1] == "health" ==>
      StaticPage(req, load) == Success(HttpResponse(V1_1, Ok, Some(DefaultHeaders), load("health.html")))
  {
  }

  /** Any other segment 1 names a file; when it can be read it is served
      with the `Content-Type` its suffix selects. */
  lemma StaticFile(req: HttpRequest, load: FileLoader)
    requires |Segments(req)| > 1
    requires Segments(req)[1] !in {"", "health"}
    ensures var name := Segments(req)[1]; var r := StaticPage(req, load);
      r.Success? && r.value.version == V1_1 &&
      (load(name).Some? ==>
        r.value.statusCode == Ok && r.value.body == load(name) &&
        r.value.headers == Some(map["Content-Type" :=
          if EndsWith(name, ".css") then "text/css"
          else if EndsWith(name, ".js") then "text/javascript"
          else "text/html"])) &&
      (load(name).None? ==>
        r.value.statusCode == NotFound && r.value.body == load("404.html") &&
        r.value.headers == Some(DefaultHeaders))
  {
    var name := Segments(req)[1];
    var h := FileHeaders(name);
    assert h == map["Content-Type" := h["Content-Type"]];
  }

  /** Only segment 1 is read: two paths that agree on it get the same
      response, whatever follows. */
  lemma StaticOnlySegmentOne(req1: HttpRequest, req2: HttpRequest, load: FileLoader)
    requires |Segments(req1)| > 1 && |Segments(req2)| > 1
    requires Segments(req1)[1] == Segments(req2)[1]
    ensures StaticPage(req1, load) == StaticPage(req2, load)
  {
  }

  const StyleSheet: string := "style.css"
  const Script: string := "app.js"
  const MissingPage: string := "nothing.html"

  /** A `GET` of `path` with nothing else set. */
  function GetRequest(path: string): HttpRequest
  {
    HttpRequest(Get, V1_1, Path(path), map[], None)
  }

  /** `/style.css` is served as CSS. */
  lemma StaticStyleSheet(load: FileLoader)
    requires load(StyleSheet) == Some("p {}")
    ensures StaticPage(GetRequest("/" + StyleSheet), load) ==
      Success(HttpResponse(V1_1, Ok, Some(map["Content-Type" := "text/css"]), Some("p {}")))
  {
    assert EndsWith(StyleSheet, ".css");
    StaticByName(StyleSheet, load);
  }

  /** `/app.js` is served as JavaScript. */
  lemma StaticScript(load: FileLoader)
    requires load(Script) == Some("f()")
    ensures StaticPage(GetRequest("/" + Script), load) ==
      Success(HttpResponse(V1_1, Ok, Some(map["Content-Type" := "text/javascript"]), Some("f()")))
  {
    assert EndsWith(Script, ".js") && !EndsWith(Script, ".css");
    StaticByName(Script, load);
  }

  /** A file that cannot be read gives the not-found page. */
  lemma StaticMissing(load: FileLoader)
    requires load(MissingPage) == None
    ensures StaticPage(GetRequest("/" + MissingPage), load) == Success(NotFoundPage(load))
  {
    StaticByName(MissingPage, load);
  }

  /** `/name` for a file name other than the two named pages. */
  lemma StaticByName(name: string, load: FileLoader)
    requires '/' !in name && name != "" && name != "health"
    ensures var r := StaticPage(GetRequest("/" + name), load);
      r.Success? && r.value.version == V1_1 &&
      (load(name).Some? ==>
        r.value.statusCode == Ok && r.value.body == load(name) &&
        r.value.headers == Some(map["Content-Type" :=
          if EndsWith(name, ".css") then "text/css"
          else if EndsWith(name, ".js") then "text/javascript"
          else "text/html"])) &&
      (load(name).None? ==> r.value == NotFoundPage(load))
  {
    var req := GetRequest("/" + name);
    SplitSlash(name);
    assert Segments(req) == ["", name];
    StaticFile(req, load);
  }

  /** A path made of one `/` and a name without `/`. */
  lemma SplitSlash(name: string)
    requires '/' !in name
    ensures Split("/" + name, '/') == ["", name]
  {
    SplitAfter("", '/', name);
    assert "" + ['/'] + name == "/" + name;
    SplitAbsent(name, '/');
  }

  // ---------------------------------------------------------------------
  // Web service
  // ---------------------------------------------------------------------

  const JsonHeaders: map<string, string> := map["Content-Type" := "application/json"]

  /** `WebServiceHandler::handle`.  `paths[2]` panics on fewer than three
      segments; the guard `paths.len() > 2` always holds once `paths[2]`
      was read, so `paths[3]` panics when segment 2 is `shipping` and there
      are exactly three segments. */
  function WebService(req: HttpRequest, load: FileLoader, json: string): (r: Result<HttpResponse>)
    ensures var paths := Segments(req);
      r.Success? <==> |paths| > 3 || (|paths| == 3 && paths[2] != "shipping")
    ensures var paths := Segments(req);
      r.Failure? ==> r.fault == IndexOutOfBounds(if |paths| <= 2 then 2 else 3, |paths|)
    ensures r.Success? ==> r.value.version == V1_1 && r.value.statusCode in {Ok, NotFound}
    ensures r.Success? ==> r.value.headers.Some? && r.value.headers.value.Keys == {"Content-Type"}
    ensures var paths := Segments(req);
      r.Success? ==>
        (r.value.statusCode == Ok <==> paths[2] == "shipping" && paths[3] == "orders")
    ensures r.Success? && r.value.statusCode == Ok ==>
      r.value.headers == Some(JsonHeaders) && r.value.body == Some(json)
    ensures r.Success? && r.value.statusCode == NotFound ==>
      r.value == NotFoundPage(load)
  {
    var paths := Segments(req);
    if |paths| <= 2 then
      Failure(IndexOutOfBounds(2, |paths|))
    else if paths[2] == "shipping" && |paths| > 2 then
      if |paths| <= 3 then
        Failure(IndexOutOfBounds(3, |paths|))
      else if paths[3] == "orders" then
        Success(New(V1_1, Ok, Some(JsonHeaders), Some(json)))
      else
        Success(NotFoundPage(load))
    else
      Success(NotFoundPage(load))
  }

  const Api: string := "api"
  const Shipping: string := "shipping"
  const Orders: string := "orders"
  const V1: string := "v1"

  /** `/api/shipping/orders` returns the orders as JSON. */
  lemma ShippingOrders(load: FileLoader, json: string)
    ensures WebService(GetRequest("/" + Api + "/" + Shipping + "/" + Orders), load, json) ==
      Success(HttpResponse(V1_1, Ok, Some(JsonHeaders), Some(json)))
  {
    var req := GetRequest("/" + Api + "/" + Shipping + "/" + Orders);
    SplitPath4(Api, Shipping, Orders);
    SplitAbsent(Orders, '/');
    WebServiceOrders(req, load, json);
  }

  /** Segments 2 and 3 `shipping` and `orders` select the orders. */
  lemma WebServiceOrders(req: HttpRequest, load: FileLoader, json: string)
    requires |Segments(req)| > 3 && Segments(req)[2] == "shipping" && Segments(req)[3] == "orders"
    ensures WebService(req, load, json) == Success(HttpResponse(V1_1, Ok, Some(JsonHeaders), Some(json)))
  {
  }

  /** `/api/v1/shipping/orders` is not the orders: segment 2 is `v1`. */
  lemma VersionedShippingOrders(load: FileLoader, json: string)
    ensures WebService(GetRequest("/" + Api + "/" + V1 + "/" + (Shipping + "/" + Orders)), load, json) ==
      Success(NotFoundPage(load))
  {
    var req := GetRequest("/" + Api + "/" + V1 + "/" + (Shipping + "/" + Orders));
    SplitPath4(Api, V1, Shipping + "/" + Orders);
    assert Segments(req)[2] == V1;
  }

  /** `/api` has no segment 2 and `/api/shipping` no segment 3. */
  lemma ShortApiPaths(load: FileLoader, json: string)
    ensures WebService(GetRequest("/" + Api), load, json) == Failure(IndexOutOfBounds(2, 2))
    ensures WebService(GetRequest("/" + Api + "/" + Shipping), load, json) ==
      Failure(IndexOutOfBounds(3, 3))
  {
    SplitSlash(Api);
    assert Segments(GetRequest("/" + Api)) == ["", Api];
    SplitPath3(Api, Shipping);
    assert Segments(GetRequest("/" + Api + "/" + Shipping)) == ["", Api, Shipping];
  }

  /** `/a/b` splits into `""`, `a` and `b`. */
  lemma SplitPath3(a: string, b: string)
    requires '/' !in a && '/' !in b
    ensures Split("/" + a + "/" + b, '/') == ["", a, b]
  {
    SplitAfter("", '/', a + "/" + b);
    assert "" + ['/'] + (a + "/" + b) == "/" + a + "/" + b;
    SplitAfter(a, '/', b);
    SplitAbsent(b, '/');
  }

  /** `/a/b/c` splits into `""`, `a`, `b` and the segments of `c`. */
  lemma SplitPath4(a: string, b: string, c: string)
    requires '/' !in a && '/' !in b
    ensures Split("/" + a + "/" + b + "/" + c, '/') == ["", a, b] + Split(c, '/')
  {
    var u := b + "/" + c;
    var t := a + "/" + u;
    SlashAssoc(a, b, c);
    SplitAfter("", '/', t);
    assert "" + ['/'] + t == "/" + t;
    SplitAfter(a, '/', u);
    SplitAfter(b, '/', c);
    var rest := Split(c, '/');
    assert Split(u, '/') == [b] + rest;
    assert Split(t, '/') == [a] + ([b] + rest);
    assert Split("/" + t, '/') == [""] + ([a] + ([b] + rest));
    ConsThree("", a, b, rest);
  }

  lemma ConsThree(x: string, y: string, z: string, rest: seq<string>)
    ensures [x] + ([y] + ([z] + rest)) == [x, y, z] + rest
  {
  }

  lemma SlashAssoc(a: string, b: string, c: string)
    ensures "/" + a + "/" + b + "/" + c == "/" + (a + "/" + (b + "/" + c))
  {
  }

  // ---------------------------------------------------------------------
  // All handlers
  // ---------------------------------------------------------------------

  /** What every handler response has in common. */
  predicate HandlerResponse(resp: HttpResponse)
  {
    resp.version == V1_1 && resp.statusCode in {Ok, NotFound} &&
    resp.headers.Some? && resp.headers.value.Keys == {"Content-Type"}
  }

  lemma AllHandlersAgree(req: HttpRequest, load: FileLoader, json: string)
    ensures HandlerResponse(PageNotFound(req, load))
    ensures StaticPage(req, load).Success? ==> HandlerResponse(StaticPage(req, load).value)
    ensures WebService(req, load, json).Success? ==> HandlerResponse(WebService(req, load, json).value)
  {
  }
}
