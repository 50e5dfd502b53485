/** The request side of the HTTP/1.x engine (http/src/request.rs): method and
    version tokens, the request-line and header-line patterns, and the
    line-by-line parser that turns the raw text of a request into an
    `HttpRequest`.  The two regular expressions of the parser are written out
    as predicates, with `\s` read as ASCII whitespace. */
module Request {
  import opened Wrappers
  import opened Text

  datatype Method = Get | Post | Uninitialized

  datatype Version = V1_0 | V1_1 | V2_0 | Uninitialized

  /** The request target, kept exactly as it appeared on the request line. */
  datatype Resource = Path(path: string)

  /** The fields keep the source's names, `mothod` included. */
  datatype HttpRequest = HttpRequest(
    mothod: Method,
    version: Version,
    resource: Resource,
    headers: map<string, string>,
    body: Option<string>)

  /** `Method::from(&str)`: exactly the tokens `GET` and `POST` are recognised. */
  function MethodFrom(token: string): (m: Method)
    ensures m == Get <==> token == "GET"
    ensures m == Post <==> token == "POST"
  {
    if token == "GET" then Get
    else if token == "POST" then Post
    else Method.Uninitialized
  }

  /** `Version::from(&str)`: exactly the three version literals are recognised. */
  function VersionFrom(token: string): (v: Version)
    ensures v == V1_0 <==> token == "HTTP/1.0"
    ensures v == V1_1 <==> token == "HTTP/1.1"
    ensures v == V2_0 <==> token == "HTTP/2.0"
  {
    if token == "HTTP/1.0" then V1_0
    else if token == "HTTP/1.1" then V1_1
    else if token == "HTTP/2.0" then V2_0
    else Version.Uninitialized
  }

  /** `String::from(&Version)`; reading the text back gives the same version,
      `Uninitialized` included, since `HTTP/Uninitialized` is no recognised
      literal. */
  function VersionText(v: Version): (s: string)
    ensures VersionFrom(s) == v
    ensures "HTTP/" <= s
  {
    match v
    case V1_0 => "HTTP/1.0"
    case V1_1 => "HTTP/1.1"
    case V2_0 => "HTTP/2.0"
    case Uninitialized => "HTTP/Uninitialized"
  }

  // ---------------------------------------------------------------------
  // The request-line pattern  (GET|POST)\s/[0-9a-zA-z/.]*\sHTTP/(1\.1|1\.2|2\.0)
  // It is not anchored: it may match anywhere inside the line.
  // ---------------------------------------------------------------------

  /** The class `[0-9a-zA-z/.]`; its range `A-z` also takes in the six
      characters between `Z` and `a`. */
  predicate IsPathChar(c: char)
  {
    ('0' <= c <= '9') || ('a' <= c <= 'z') || ('A' <= c <= 'z') || c == '/' || c == '.'
  }

  /** `HTTP/(1\.1|1\.2|2\.0)` starting at index `j`. */
  predicate VersionAt(l: string, j: nat)
  {
    j + 8 <= |l| && l[j..j + 5] == "HTTP/" && l[j + 5..j + 8] in {"1.1", "1.2", "2.0"}
  }

  /** `[0-9a-zA-z/.]*\sHTTP/(1\.1|1\.2|2\.0)` starting at index `j`. */
  predicate PathThenVersionAt(l: string, j: nat)
    decreases |l| - j
  {
    j < |l| &&
    ((IsPathChar(l[j]) && PathThenVersionAt(l, j + 1)) || (IsSpace(l[j]) && VersionAt(l, j + 1)))
  }

  /** `\s/` followed by the rest of the pattern, starting at index `k`. */
  predicate TargetAt(l: string, k: nat)
  {
    k + 1 < |l| && IsSpace(l[k]) && l[k + 1] == '/' && PathThenVersionAt(l, k + 2)
  }

  /** The whole pattern starting at index `i`. */
  predicate RequestLineAt(l: string, i: nat)
  {
    (i + 3 <= |l| && l[i..i + 3] == "GET" && TargetAt(l, i + 3)) ||
    (i + 4 <= |l| && l[i..i + 4] == "POST" && TargetAt(l, i + 4))
  }

  /** The pattern matches at index `i` or at a later one. */
  predicate RequestLineFrom(l: string, i: nat)
    decreases |l| - i
  {
    i < |l| && (RequestLineAt(l, i) || RequestLineFrom(l, i + 1))
  }

  /** The pattern matches somewhere in the line. */
  predicate IsRequestLine(l: string)
  {
    RequestLineFrom(l, 0)
  }

  /** The scan finds a match exactly when there is a starting index. */
  lemma {:induction false} RequestLineSomewhere(l: string, i: nat)
    ensures RequestLineFrom(l, i) <==> exists j :: i <= j < |l| && RequestLineAt(l, j)
    decreases |l| - i
  {
    if i < |l| {
      RequestLineSomewhere(l, i + 1);
      if RequestLineAt(l, i) {
        assert i <= i < |l| && RequestLineAt(l, i);
      }
    }
  }

  /** The pattern read as a regular expression: starting at index `i`, a
      method token of length `n`, whitespace, `/`, `p` path characters,
      whitespace and a version literal. */
  ghost predicate RequestLineMatch(l: string, i: nat, n: nat, p: nat)
  {
    var k := i + n;
    k + p + 11 <= |l| &&
    ((n == 3 && l[i..k] == "GET") || (n == 4 && l[i..k] == "POST")) &&
    IsSpace(l[k]) && l[k + 1] == '/' &&
    (forall q :: k + 2 <= q < k + 2 + p ==> IsPathChar(l[q])) &&
    IsSpace(l[k + 2 + p]) &&
    VersionAt(l, k + 3 + p)
  }

  ghost predicate PathSpan(l: string, j: nat, p: nat)
  {
    j + p < |l| &&
    (forall q :: j <= q < j + p ==> IsPathChar(l[q])) &&
    IsSpace(l[j + p]) && VersionAt(l, j + p + 1)
  }

  lemma {:induction false} PathThenVersionSpan(l: string, j: nat)
    ensures PathThenVersionAt(l, j) <==> exists p :: PathSpan(l, j, p)
    decreases |l| - j
  {
    if PathThenVersionAt(l, j) {
      if IsSpace(l[j]) && VersionAt(l, j + 1) {
        assert PathSpan(l, j, 0);
      } else {
        PathThenVersionSpan(l, j + 1);
        var p: nat :| PathSpan(l, j + 1, p);
        assert PathSpan(l, j, p + 1);
      }
    }
    if exists p :: PathSpan(l, j, p) {
      var p: nat :| PathSpan(l, j, p);
      if p > 0 {
        assert PathSpan(l, j + 1, p - 1);
        PathThenVersionSpan(l, j + 1);
      }
    }
  }

  /** The hand-written matcher accepts exactly the lines in which the regular
      expression occurs. */
  lemma RequestLineRegex(l: string)
    ensures IsRequestLine(l) <==> exists i, n, p :: RequestLineMatch(l, i, n, p)
  {
    RequestLineSomewhere(l, 0);
    if IsRequestLine(l) {
      var i: nat :| i < |l| && RequestLineAt(l, i);
      RequestLineAtMatch(l, i);
    }
    if exists i, n, p :: RequestLineMatch(l, i, n, p) {
      var i: nat, n: nat, p: nat :| RequestLineMatch(l, i, n, p);
      MatchRequestLineAt(l, i, n, p);
    }
  }

  lemma RequestLineAtMatch(l: string, i: nat)
    requires RequestLineAt(l, i)
    ensures exists n, p :: RequestLineMatch(l, i, n, p)
  {
    var n := if i + 3 <= |l| && l[i..i + 3] == "GET" && TargetAt(l, i + 3) then 3 else 4;
    PathThenVersionSpan(l, i + n + 2);
    var p: nat :| PathSpan(l, i + n + 2, p);
    assert RequestLineMatch(l, i, n, p);
  }

  lemma MatchRequestLineAt(l: string, i: nat, n: nat, p: nat)
    requires RequestLineMatch(l, i, n, p)
    ensures RequestLineAt(l, i)
  {
    assert PathSpan(l, i + n + 2, p);
    PathThenVersionSpan(l, i + n + 2);
  }

  // ---------------------------------------------------------------------
  // The header-line pattern  [a-zA-Z-]*:\s[\d\D]+  (not anchored)
  // ---------------------------------------------------------------------

  predicate IsKeyChar(c: char)
  {
    ('a' <= c <= 'z') || ('A' <= c <= 'Z') || c == '-'
  }

  /** A colon at `k`, whitespace after it and at least one more character. */
  predicate ColonSpaceAt(l: string, k: nat)
  {
    k + 2 < |l| && l[k] == ':' && IsSpace(l[k + 1])
  }

  /** Since `[a-zA-Z-]*` may match the empty string, the pattern occurs exactly
      when some colon is followed by whitespace and one more character. */
  predicate IsHeaderLine(l: string)
  {
    HeaderLineFrom(l, 0)
  }

  /** Some colon at index `k` or later is followed by whitespace and one more
      character. */
  predicate HeaderLineFrom(l: string, k: nat)
    ensures HeaderLineFrom(l, k) ==> ':' in l
    decreases |l| - k
  {
    k < |l| && (ColonSpaceAt(l, k) || HeaderLineFrom(l, k + 1))
  }

  lemma {:induction false} HeaderLineSomewhere(l: string, k: nat)
    ensures HeaderLineFrom(l, k) <==> exists j :: k <= j < |l| && ColonSpaceAt(l, j)
    decreases |l| - k
  {
    if k < |l| {
      HeaderLineSomewhere(l, k + 1);
      if ColonSpaceAt(l, k) {
        assert k <= k < |l| && ColonSpaceAt(l, k);
      }
    }
  }

  /** The pattern read as a regular expression: key characters from `s` up to
      the colon at `k`. */
  ghost predicate HeaderLineMatch(l: string, s: nat, k: nat)
  {
    s <= k && ColonSpaceAt(l, k) && forall q :: s <= q < k ==> IsKeyChar(l[q])
  }

  lemma HeaderLineRegex(l: string)
    ensures IsHeaderLine(l) <==> exists s, k :: HeaderLineMatch(l, s, k)
  {
    HeaderLineSomewhere(l, 0);
    if IsHeaderLine(l) {
      var k :| 0 <= k < |l| && ColonSpaceAt(l, k);
      assert HeaderLineMatch(l, k, k);
    }
  }

  /** The trimmed text before the first colon. */
  function HeaderKey(line: string): string
    requires ':' in line
  {
    Trim(line[..IndexOf(line, ':')])
  }

  /** The trimmed text after the first colon. */
  function HeaderValue(line: string): string
    requires ':' in line
  {
    Trim(line[IndexOf(line, ':') + 1..])
  }

  /** `process_request_line`: split on single spaces; anything but three
      fields ends the process with status 1. */
  function ProcessRequestLine(line: string): (r: Result<(Method, Resource, Version)>)
    ensures r.Failure? <==> multiset(line)[' '] != 2
    ensures r.Failure? ==> r.fault == ProcessExit(1)
    ensures r.Success? ==> ' ' !in r.value.1.path
  {
    var fields := Split(line, ' ');
    SplitCount(line, ' ');
    if |fields| != 3 then
      Failure(ProcessExit(1))
    else
      Success((MethodFrom(fields[0]), Path(fields[1]), VersionFrom(fields[2])))
  }

  /** A line made of three space-free fields yields the method of the first,
      the path of the second and the version of the third. */
  lemma ProcessThreeFields(line: string, f0: string, f1: string, f2: string)
    requires ' ' !in f0 && ' ' !in f1 && ' ' !in f2
    requires line == f0 + " " + f1 + " " + f2
    ensures ProcessRequestLine(line) == Success((MethodFrom(f0), Path(f1), VersionFrom(f2)))
  {
    var fields := [f0, f1, f2];
    assert fields[1..] == [f1, f2];
    assert fields[1..][1..] == [f2];
    assert Join(fields[1..], ' ') == f1 + " " + f2;
    assert Join(fields, ' ') == line;
    SplitJoin(fields, ' ');
  }

  // ---------------------------------------------------------------------
  // HttpRequest::from(String)
  // ---------------------------------------------------------------------

  /** The branch a line takes, in the parser's priority order. */
  datatype LineKind = RequestLineKind | HeaderLineKind | BodyLineKind

  function Classify(line: string): LineKind
  {
    if IsRequestLine(line) then RequestLineKind
    else if IsHeaderLine(line) then HeaderLineKind
    else BodyLineKind
  }

  predicate IsHeader(line: string)
  {
    Classify(line) == HeaderLineKind
  }

  lemma HeaderHasColon(line: string)
    requires IsHeader(line)
    ensures ':' in line
  {
    HeaderLineSomewhere(line, 0);
    var k :| 0 <= k < |line| && ColonSpaceAt(line, k);
  }

  /** What the parser starts from before the first line. */
  function Initial(): HttpRequest
  {
    HttpRequest(Method.Uninitialized, Version.Uninitialized, Path(""), map[], None)
  }

  /** The body branch: a non-empty line becomes the body, an empty one clears it. */
  function BodyOf(line: string): Option<string>
  {
    if |line| > 0 then Some(line) else None
  }

  /** One iteration of the parser's loop. */
  function Step(req: HttpRequest, line: string): Result<HttpRequest>
  {
    match Classify(line)
    case RequestLineKind =>
      (match ProcessRequestLine(line)
       case Failure(f) => Failure(f)
       case Success(t) => Success(req.(mothod := t.0, resource := t.1, version := t.2)))
    case HeaderLineKind =>
      HeaderHasColon(line);
      var key := HeaderKey(line);
      if key in req.headers then Success(req)
      else Success(req.(headers := req.headers[key := HeaderValue(line)]))
    case BodyLineKind =>
      Success(req.(body := BodyOf(line)))
  }

  /** The parser's loop over a sequence of lines; the first failure ends it. */
  function ParseLines(lines: seq<string>): Result<HttpRequest>
  {
    if lines == [] then Success(Initial())
    else
      match ParseLines(lines[..|lines| - 1])
      case Failure(f) => Failure(f)
      case Success(req) => Step(req, lines[|lines| - 1])
  }

  lemma {:induction false} FailureSticks(lines: seq<string>, i: nat, f: Fault)
    requires i <= |lines| && ParseLines(lines[..i]) == Failure(f)
    ensures ParseLines(lines) == Failure(f)
    decreases |lines| - i
  {
    if i < |lines| {
      assert lines[..i + 1][..i] == lines[..i];
      FailureSticks(lines, i + 1, f);
    } else {
      assert lines[..i] == lines;
    }
  }

  /** One more line is one more step. */
  lemma ParseSnoc(lines: seq<string>, line: string)
    ensures ParseLines(lines + [line]) ==
      match ParseLines(lines)
      case Failure(f) => Failure(f)
      case Success(req) => Step(req, line)
  {
    assert (lines + [line])[..|lines|] == lines;
  }

  /** A header line adds its key with its value unless the key is already present. */
  lemma HeaderStep(req: HttpRequest, line: string)
    requires IsHeader(line)
    ensures ':' in line
    ensures Step(req, line) == Success(
      if HeaderKey(line) in req.headers then req
      else req.(headers := req.headers[HeaderKey(line) := HeaderValue(line)]))
  {
    HeaderHasColon(line);
  }

  /** `HttpRequest::from(String)`: a loop over `lines()` that keeps the five
      parsed parts in variables and stops the process on a request line that
      does not have three fields. */
  method FromString(raw: string) returns (res: Result<HttpRequest>)
    ensures res == ParseLines(Lines(raw))
  {
    var lines := Lines(raw);
    var mothod: Method := Method.Uninitialized;
    var resource := Path("");
    var version: Version := Version.Uninitialized;
    var headers: map<string, string> := map[];
    var body: Option<string> := None;
    for i := 0 to |lines|
      invariant ParseLines(lines[..i]) == Success(HttpRequest(mothod, version, resource, headers, body))
    {
      var line := lines[i];
      ghost var before := HttpRequest(mothod, version, resource, headers, body);
      assert lines[..i + 1] == lines[..i] + [line];
      ParseSnoc(lines[..i], line);
      if IsRequestLine(line) {
        var parsed := ProcessRequestLine(line);
        if parsed.Failure? {
          FailureSticks(lines, i + 1, parsed.fault);
          return Failure(parsed.fault);
        }
        mothod, resource, version := parsed.value.0, parsed.value.1, parsed.value.2;
      } else if IsHeaderLine(line) {
        HeaderStep(before, line);
        var colon := IndexOf(line, ':');
        var key := Trim(line[..colon]);
        var value := Trim(line[colon + 1..]);
        if key !in headers {
          headers := headers[key := value];
        }
      } else {
        body := if |line| > 0 then Some(line) else None;
      }
    }
    assert lines[..|lines|] == lines;
    res := Success(HttpRequest(mothod, version, resource, headers, body));
  }

  // ---------------------------------------------------------------------
  // What the parser computes, line by line
  // ---------------------------------------------------------------------

  /** A line taken as the request line whose split does not give three fields. */
  predicate IsMalformedRequestLine(line: string)
  {
    Classify(line) == RequestLineKind && multiset(line)[' '] != 2
  }

  /** One step fails exactly on a malformed request line; otherwise it changes
      each part of the request only in the branch that owns it. */
  lemma StepEffect(req: HttpRequest, line: string)
    ensures Step(req, line).Failure? <==> IsMalformedRequestLine(line)
    ensures Step(req, line).Failure? ==> Step(req, line).fault == ProcessExit(1)
    ensures Step(req, line).Success? ==>
      var r := Step(req, line).value;
      (Classify(line) == RequestLineKind ==> ProcessRequestLine(line) == Success((r.mothod, r.resource, r.version))) &&
      (Classify(line) != RequestLineKind ==> r.mothod == req.mothod && r.resource == req.resource && r.version == req.version) &&
      (Classify(line) == BodyLineKind ==> r.body == BodyOf(line)) &&
      (Classify(line) != BodyLineKind ==> r.body == req.body) &&
      (forall k :: k in req.headers ==> k in r.headers && r.headers[k] == req.headers[k]) &&
      (forall k :: k in r.headers && k !in req.headers ==>
         IsHeader(line) && HeaderKey(line) == k && r.headers[k] == HeaderValue(line)) &&
      (IsHeader(line) ==> HeaderKey(line) in r.headers)
  {
    if IsHeader(line) {
      HeaderHasColon(line);
    }
  }

  /** The parse fails, with exit status 1, exactly when some line is a
      malformed request line. */
  lemma {:induction false} ParseFailure(lines: seq<string>)
    ensures ParseLines(lines).Failure? <==> exists i :: 0 <= i < |lines| && IsMalformedRequestLine(lines[i])
    ensures ParseLines(lines).Failure? ==> ParseLines(lines).fault == ProcessExit(1)
    decreases |lines|
  {
    if lines != [] {
      var n := |lines| - 1;
      var init := lines[..n];
      ParseFailure(init);
      if ParseLines(init).Success? {
        StepEffect(ParseLines(init).value, lines[n]);
      }
      if exists i :: 0 <= i < |init| && IsMalformedRequestLine(init[i]) {
        var i :| 0 <= i < |init| && IsMalformedRequestLine(init[i]);
        assert lines[i] == init[i];
      }
      if exists i :: 0 <= i < |lines| && IsMalformedRequestLine(lines[i]) {
        var i :| 0 <= i < |lines| && IsMalformedRequestLine(lines[i]);
        if i < n {
          assert init[i] == lines[i];
        }
      }
    }
  }

  /** Without any request line the parse succeeds and the method, target and
      version keep their initial values. */
  lemma {:induction false} NoRequestLine(lines: seq<string>)
    requires forall i :: 0 <= i < |lines| ==> Classify(lines[i]) != RequestLineKind
    ensures ParseLines(lines).Success?
    ensures var r := ParseLines(lines).value;
      r.mothod == Method.Uninitialized && r.resource == Path("") && r.version == Version.Uninitialized
    decreases |lines|
  {
    if lines != [] {
      var n := |lines| - 1;
      var init := lines[..n];
      assert forall i :: 0 <= i < |init| ==> init[i] == lines[i];
      NoRequestLine(init);
      StepEffect(ParseLines(init).value, lines[n]);
    }
  }

  /** Method, target and version come from the last request line. */
  lemma {:induction false} LastRequestLineWins(lines: seq<string>, r: HttpRequest, i: nat)
    requires ParseLines(lines) == Success(r)
    requires i < |lines| && Classify(lines[i]) == RequestLineKind
    requires forall j :: i < j < |lines| ==> Classify(lines[j]) != RequestLineKind
    ensures ProcessRequestLine(lines[i]) == Success((r.mothod, r.resource, r.version))
    decreases |lines|
  {
    var n := |lines| - 1;
    var init := lines[..n];
    var r0 := ParseLines(init).value;
    StepEffect(r0, lines[n]);
    if i < n {
      assert init[i] == lines[i];
      assert forall j :: i < j < |init| ==> init[j] == lines[j];
      LastRequestLineWins(init, r0, i);
    }
  }

  /** `line` is a header line whose key is `k`. */
  ghost predicate HeaderLineWithKey(line: string, k: string)
  {
    IsHeader(line) && HeaderKey(line) == k
  }

  /** Some line of `lines` is a header line with key `k`. */
  ghost predicate HasHeaderLine(lines: seq<string>, k: string)
  {
    exists i :: 0 <= i < |lines| && HeaderLineWithKey(lines[i], k)
  }

  /** The header keys are exactly the keys of the header lines. */
  lemma {:induction false} HeaderKeys(lines: seq<string>, r: HttpRequest)
    requires ParseLines(lines) == Success(r)
    ensures forall k :: k in r.headers <==> HasHeaderLine(lines, k)
    decreases |lines|
  {
    if lines != [] {
      var n := |lines| - 1;
      var init := lines[..n];
      var r0 := ParseLines(init).value;
      HeaderKeys(init, r0);
      StepEffect(r0, lines[n]);
      forall k ensures k in r.headers <==> HasHeaderLine(lines, k) {
        HasHeaderLineSnoc(lines, k);
      }
    }
  }

  lemma HasHeaderLineSnoc(lines: seq<string>, k: string)
    requires lines != []
    ensures HasHeaderLine(lines, k) <==>
      HasHeaderLine(lines[..|lines| - 1], k) || HeaderLineWithKey(lines[|lines| - 1], k)
  {
    var n := |lines| - 1;
    if HasHeaderLine(lines[..n], k) {
      HasHeaderLinePrefix(lines, n, k);
    }
    if HasHeaderLine(lines, k) {
      var i :| 0 <= i < |lines| && HeaderLineWithKey(lines[i], k);
      HasHeaderLineSplit(lines, k, i);
    }
  }

  lemma HasHeaderLineSplit(lines: seq<string>, k: string, i: nat)
    requires i < |lines| && HeaderLineWithKey(lines[i], k)
    ensures HasHeaderLine(lines[..|lines| - 1], k) || i == |lines| - 1
  {
    var init := lines[..|lines| - 1];
    if i < |init| {
      assert init[i] == lines[i];
    }
  }

  lemma HasHeaderLinePrefix(lines: seq<string>, n: nat, k: string)
    requires n <= |lines| && HasHeaderLine(lines[..n], k)
    ensures HasHeaderLine(lines, k)
  {
    var i :| 0 <= i < n && HeaderLineWithKey(lines[..n][i], k);
    assert lines[i] == lines[..n][i];
  }

  /** Of several header lines with one key, the first one's value is kept. */
  lemma {:induction false} FirstHeaderWins(lines: seq<string>, r: HttpRequest, i: nat)
    requires ParseLines(lines) == Success(r)
    requires i < |lines| && IsHeader(lines[i])
    requires forall j :: 0 <= j < i && IsHeader(lines[j]) ==> HeaderKey(lines[j]) != HeaderKey(lines[i])
    ensures HeaderKey(lines[i]) in r.headers && r.headers[HeaderKey(lines[i])] == HeaderValue(lines[i])
    decreases |lines|
  {
    var n := |lines| - 1;
    var init := lines[..n];
    var r0 := ParseLines(init).value;
    StepEffect(r0, lines[n]);
    if i < n {
      assert init[i] == lines[i];
      assert forall j :: 0 <= j < i ==> init[j] == lines[j];
      FirstHeaderWins(init, r0, i);
    } else {
      HeaderKeys(init, r0);
      assert !HasHeaderLine(init, HeaderKey(lines[i])) by {
        forall j | 0 <= j < |init| ensures !HeaderLineWithKey(init[j], HeaderKey(lines[i])) {
          assert init[j] == lines[j];
        }
      }
    }
  }

  /** The body is decided by the last line that is neither a request line nor
      a header: that line if it is not empty, no body if it is. */
  lemma {:induction false} LastBodyLineWins(lines: seq<string>, r: HttpRequest, i: nat)
    requires ParseLines(lines) == Success(r)
    requires i < |lines| && Classify(lines[i]) == BodyLineKind
    requires forall j :: i < j < |lines| ==> Classify(lines[j]) != BodyLineKind
    ensures r.body == BodyOf(lines[i])
    decreases |lines|
  {
    var n := |lines| - 1;
    var init := lines[..n];
    var r0 := ParseLines(init).value;
    StepEffect(r0, lines[n]);
    if i < n {
      assert init[i] == lines[i];
      assert forall j :: i < j < |init| ==> init[j] == lines[j];
      LastBodyLineWins(init, r0, i);
    }
  }

  /** Without such a line there is no body. */
  lemma {:induction false} NoBodyLine(lines: seq<string>, r: HttpRequest)
    requires ParseLines(lines) == Success(r)
    requires forall j :: 0 <= j < |lines| ==> Classify(lines[j]) != BodyLineKind
    ensures r.body == None
    decreases |lines|
  {
    if lines != [] {
      var n := |lines| - 1;
      var init := lines[..n];
      var r0 := ParseLines(init).value;
      StepEffect(r0, lines[n]);
      assert forall j :: 0 <= j < |init| ==> init[j] == lines[j];
      NoBodyLine(init, r0);
    }
  }

  // ---------------------------------------------------------------------
  // Particular requests
  // ---------------------------------------------------------------------

  /** `GET` or `POST`, one space, a target of path characters starting with
      `/`, one space and `HTTP/1.1`, `HTTP/1.2` or `HTTP/2.0` is a request
      line, and it yields the method, the target and the version
      (`Uninitialized` for `HTTP/1.2`). */
  lemma RequestLineAccepted(m: string, target: string, v: string)
    requires m == "GET" || m == "POST"
    requires |target| > 0 && target[0] == '/' && forall q :: 0 <= q < |target| ==> IsPathChar(target[q])
    requires v == "HTTP/1.1" || v == "HTTP/1.2" || v == "HTTP/2.0"
    ensures IsRequestLine(m + " " + target + " " + v)
    ensures ProcessRequestLine(m + " " + target + " " + v) == Success((MethodFrom(m), Path(target), VersionFrom(v)))
  {
    RequestLineMatchesAtStart(m, target, v);
    assert ' ' !in target by {
      forall q | 0 <= q < |target| ensures target[q] != ' ' {
        assert IsPathChar(target[q]);
      }
    }
    ProcessThreeFields(m + " " + target + " " + v, m, target, v);
  }

  lemma RequestLineMatchesAtStart(m: string, target: string, v: string)
    requires m == "GET" || m == "POST"
    requires |target| > 0 && target[0] == '/' && forall q :: 0 <= q < |target| ==> IsPathChar(target[q])
    requires v == "HTTP/1.1" || v == "HTTP/1.2" || v == "HTTP/2.0"
    ensures RequestLineFrom(m + " " + target + " " + v, 0)
  {
    var line := m + " " + target + " " + v;
    var k := |m|;
    var j := k + 2;
    var p := |target| - 1;
    assert line[..k] == m;
    assert forall q :: j <= q < j + p ==> line[q] == target[q - k - 1];
    assert line[j + p] == ' ';
    assert |v| == 8 && v[..5] == "HTTP/" && v[5..] in {"1.1", "1.2", "2.0"};
    var pre := m + " " + target + " ";
    assert line == pre + v && |pre| == j + p + 1;
    assert line[|pre|..] == v;
    assert line[j + p + 1..j + p + 9] == v;
    assert line[j + p + 1..j + p + 6] == v[..5];
    assert line[j + p + 6..j + p + 9] == v[5..];
    assert VersionAt(line, j + p + 1);
    assert PathSpan(line, j, p);
    PathThenVersionSpan(line, j);
    assert RequestLineAt(line, 0);
  }

  /** Such a line on its own parses to a request with no headers and no body. */
  lemma SingleRequestLine(m: string, target: string, v: string)
    requires m == "GET" || m == "POST"
    requires |target| > 0 && target[0] == '/' && forall q :: 0 <= q < |target| ==> IsPathChar(target[q])
    requires v == "HTTP/1.1" || v == "HTTP/1.2" || v == "HTTP/2.0"
    ensures ParseLines([m + " " + target + " " + v]) ==
      Success(HttpRequest(MethodFrom(m), VersionFrom(v), Path(target), map[], None))
  {
    RequestLineAccepted(m, target, v);
    var none: seq<string> := [];
    assert [m + " " + target + " " + v][..0] == none;
  }

  /** A line that is neither a request line nor a header, on its own, only
      sets the body. */
  lemma SingleBodyLine(l: string)
    requires Classify(l) == BodyLineKind
    ensures ParseLines([l]) == Success(Initial().(body := BodyOf(l)))
  {
    var none: seq<string> := [];
    assert [l][..0] == none;
  }

  /** Without a version literal after `HTTP/` the rest of the pattern
      cannot match from any index. */
  lemma {:induction false} NoVersionNoPath(l: string, j: nat)
    requires forall k :: !VersionAt(l, k)
    ensures !PathThenVersionAt(l, j)
    decreases |l| - j
  {
    if j < |l| {
      NoVersionNoPath(l, j + 1);
    }
  }

  /** A line without any of the three version literals after `HTTP/` is no
      request line. */
  lemma NoVersionNoRequestLine(l: string)
    requires forall k :: !VersionAt(l, k)
    ensures !IsRequestLine(l)
  {
    forall i | 0 <= i < |l| ensures !RequestLineAt(l, i) {
      NoVersionNoPath(l, i + 5);
      NoVersionNoPath(l, i + 6);
    }
    RequestLineSomewhere(l, 0);
  }

  lemma Http10NoVersion(l: string, j: nat)
    requires l == "GET / HTTP/1.0"
    ensures !VersionAt(l, j)
  {
    if j + 8 <= |l| && l[j..j + 5] == "HTTP/" {
      assert l[j] == 'H';
      assert j == 6;
      assert l[j + 5..j + 8] == "1.0";
    }
  }

  lemma Http10NoColon(l: string)
    requires l == "GET / HTTP/1.0"
    ensures !IsHeaderLine(l)
  {
    assert ':' !in l;
    HeaderLineSomewhere(l, 0);
  }

  /** `HTTP/1.0` is not among the versions of the pattern: such a line is
      taken as the body, although `process_request_line` would accept it
      (see `ProcessGetExample`). */
  lemma Http10IsBody()
    ensures ParseLines(["GET / HTTP/1.0"]) == Success(Initial().(body := Some("GET / HTTP/1.0")))
  {
    var l := "GET / HTTP/1.0";
    forall j: nat ensures !VersionAt(l, j) {
      Http10NoVersion(l, j);
    }
    NoVersionNoRequestLine(l);
    Http10NoColon(l);
    SingleBodyLine(l);
  }

  /** The third field of `EmbeddedLine`: it holds a whole request line,
      separated by tabs. */
  const EmbeddedRest: string := "x\tGET\t/x\tHTTP/1.1"

  /** A line whose request-line match starts at index 8, inside its third
      space-separated field. */
  const EmbeddedLine: string := "GET" + " " + "b" + " " + EmbeddedRest

  /** The pattern is not anchored, and `process_request_line` splits the
      whole line: the match in the third field makes the line a request
      line, and the target is the second field `b`, which does not start
      with `/`. */
  lemma EmbeddedRequestLine()
    ensures ParseLines(Lines(EmbeddedLine)) ==
      Success(HttpRequest(Get, Version.Uninitialized, Path("b"), map[], None))
  {
    var l := EmbeddedLine;
    EmbeddedMatch();
    assert '\n' !in l by {
      forall i | 0 <= i < |l| ensures l[i] != '\n' {
      }
    }
    LinesSingle(l);
    ProcessThreeFields(l, "GET", "b", EmbeddedRest);
    assert VersionFrom(EmbeddedRest) == Version.Uninitialized by {
      assert |EmbeddedRest| == 17;
    }
    var none: seq<string> := [];
    assert [l][..0] == none;
  }

  lemma EmbeddedMatch()
    ensures IsRequestLine(EmbeddedLine)
  {
    var l := EmbeddedLine;
    assert l[15..20] == "HTTP/" && l[20..23] == "1.1";
    assert VersionAt(l, 15);
    assert IsSpace(l[14]) && PathThenVersionAt(l, 14);
    assert IsPathChar(l[13]) && PathThenVersionAt(l, 13);
    assert IsSpace(l[11]) && l[12] == '/' && TargetAt(l, 11);
    assert l[8..11] == "GET" && RequestLineAt(l, 8);
    RequestLineSomewhere(l, 0);
  }

  /** The first request line of the unit test of `process_request_line`. */
  lemma ProcessGetExample()
    ensures ProcessRequestLine("GET / HTTP/1.0") == Success((Get, Path("/"), V1_0))
  {
    ProcessThreeFields("GET / HTTP/1.0", "GET", "/", "HTTP/1.0");
  }

  /** The second request line of the unit test of `process_request_line`. */
  lemma ProcessPostExample()
    ensures ProcessRequestLine("POST /foo HTTP/1.1") == Success((Post, Path("/foo"), V1_1))
  {
    ProcessThreeFields("POST /foo HTTP/1.1", "POST", "/foo", "HTTP/1.1");
  }

  /** A header line written as whitespace, a key, `: ` and a value, where the
      key has no colon and neither key nor value has whitespace at its ends,
      is classified as a header and yields that key and value. */
  lemma HeaderLineParts(line: string, lead: string, key: string, value: string)
    requires line == lead + key + ": " + value
    requires AllSpace(lead) && ':' !in key && ':' !in lead
    requires key == [] || (!IsSpace(key[0]) && !IsSpace(key[|key| - 1]))
    requires value != [] && !IsSpace(value[0]) && !IsSpace(value[|value| - 1])
    requires !IsRequestLine(line)
    ensures IsHeader(line)
    ensures HeaderKey(line) == key && HeaderValue(line) == value
  {
    var pre, post := lead + key, " " + value;
    assert line == pre + [':'] + post;
    assert ':' !in pre;
    ColonSplit(pre, post);
    ColonSpaceHeader(line, |pre|);
    TrimKey(lead, key);
    TrimValue(value);
  }

  /** The key and value of a line are the trimmed texts around its first colon. */
  lemma ColonSplit(pre: string, post: string)
    requires ':' !in pre
    ensures HeaderKey(pre + [':'] + post) == Trim(pre)
    ensures HeaderValue(pre + [':'] + post) == Trim(post)
  {
    var l := pre + [':'] + post;
    IndexOfAfter(pre, ':', post);
    assert l[..|pre|] == pre && l[|pre| + 1..] == post;
  }

  lemma ColonSpaceHeader(line: string, k: nat)
    requires ColonSpaceAt(line, k) && !IsRequestLine(line)
    ensures IsHeader(line)
  {
    HeaderLineSomewhere(line, 0);
  }

  lemma TrimKey(lead: string, key: string)
    requires AllSpace(lead)
    requires key == [] || (!IsSpace(key[0]) && !IsSpace(key[|key| - 1]))
    ensures Trim(lead + key) == key
  {
    assert lead + key + [] == lead + key;
    TrimExact(lead, key, []);
  }

  lemma TrimValue(value: string)
    requires value != [] && !IsSpace(value[0]) && !IsSpace(value[|value| - 1])
    ensures Trim(" " + value) == value
  {
    assert " " + value + [] == " " + value;
    TrimExact(" ", value, []);
  }

  /** A line with neither `G` nor `P` cannot hold the method of a request line. */
  lemma NoMethodNoRequestLine(l: string)
    requires 'G' !in l && 'P' !in l
    ensures !IsRequestLine(l)
  {
    forall i | 0 <= i < |l| ensures !RequestLineAt(l, i) {
      assert l[i] != 'G' && l[i] != 'P';
    }
    RequestLineSomewhere(l, 0);
  }

  lemma AppendJoins(x: string, y: string, z: string)
    ensures x + "\n" + (y + "\n" + z) == x + "\n" + y + "\n" + z
  {
  }

  lemma AppendJoinsFour(w: string, x: string, y: string, z: string)
    ensures w + "\n" + (x + "\n" + y + "\n" + z) == w + "\n" + x + "\n" + y + "\n" + z
  {
    AppendJoins(w, x + "\n" + y, z);
    AppendJoins(w, x, y);
  }

  lemma LinesOfTwo(c: string, d: string)
    requires '\n' !in c && '\n' !in d
    requires StripCarriageReturn(c) == c && d != []
    ensures Lines(c + "\n" + d) == [c, d]
  {
    LinesSingle(d);
    LinesCons(c, d);
  }

  lemma LinesOfThree(b: string, c: string, d: string)
    requires '\n' !in b && '\n' !in c && '\n' !in d
    requires StripCarriageReturn(b) == b && StripCarriageReturn(c) == c && d != []
    ensures Lines(b + "\n" + c + "\n" + d) == [b, c, d]
  {
    LinesOfTwo(c, d);
    LinesCons(b, c + "\n" + d);
    AppendJoins(b, c, d);
  }

  /** Four lines joined by line feeds come back from `lines()`. */
  lemma LinesOfFour(a: string, b: string, c: string, d: string)
    requires '\n' !in a && '\n' !in b && '\n' !in c && '\n' !in d
    requires StripCarriageReturn(a) == a && StripCarriageReturn(b) == b
    requires StripCarriageReturn(c) == c && d != []
    ensures Lines(a + "\n" + b + "\n" + c + "\n" + d) == [a] + [b] + [c] + [d]
  {
    var rest := b + "\n" + c + "\n" + d;
    LinesOfThree(b, c, d);
    LinesCons(a, rest);
    AppendJoinsFour(a, b, c, d);
    Singletons(a, b, c, d);
  }

  lemma Singletons(a: string, b: string, c: string, d: string)
    ensures [a] + [b, c, d] == [a] + [b] + [c] + [d]
  {
  }

  /** A header line with a new key, after lines that parse, adds that key. */
  lemma ParseNewHeader(lines: seq<string>, line: string, r: HttpRequest, k: string, v: string)
    requires ParseLines(lines) == Success(r)
    requires IsHeader(line) && HeaderKey(line) == k && HeaderValue(line) == v && k !in r.headers
    ensures ParseLines(lines + [line]) == Success(r.(headers := r.headers[k := v]))
  {
    ParseSnoc(lines, line);
    HeaderStep(r, line);
  }

  /** Three header lines with distinct new keys, after lines that parse,
      add those three keys. */
  lemma ThreeHeaders(lines: seq<string>, l2: string, l3: string, l4: string, r: HttpRequest,
                     k2: string, v2: string, k3: string, v3: string, k4: string, v4: string)
    requires ParseLines(lines) == Success(r)
    requires IsHeader(l2) && HeaderKey(l2) == k2 && HeaderValue(l2) == v2
    requires IsHeader(l3) && HeaderKey(l3) == k3 && HeaderValue(l3) == v3
    requires IsHeader(l4) && HeaderKey(l4) == k4 && HeaderValue(l4) == v4
    requires k2 !in r.headers && k3 !in r.headers && k4 !in r.headers
    requires k2 != k3 && k2 != k4 && k3 != k4
    ensures ParseLines(lines + [l2] + [l3] + [l4]) ==
      Success(r.(headers := r.headers[k2 := v2][k3 := v3][k4 := v4]))
  {
    var r2 := r.(headers := r.headers[k2 := v2]);
    var r3 := r2.(headers := r2.headers[k3 := v3]);
    ParseNewHeader(lines, l2, r, k2, v2);
    ParseNewHeader(lines + [l2], l3, r2, k3, v3);
    ParseNewHeader(lines + [l2] + [l3], l4, r3, k4, v4);
  }

  /** Text on one line with no whitespace at either end and neither `G` nor
      `P`, so that a line made of such parts cannot hold a request line. */
  predicate PlainText(s: string)
  {
    s != [] && !IsSpace(s[0]) && !IsSpace(s[|s| - 1]) &&
    forall i :: 0 <= i < |s| ==> s[i] != 'G' && s[i] != 'P' && s[i] != '\n'
  }

  /** A header line of the unit test: eight spaces of indentation, a key
      without a colon, a colon, a space and the value. */
  lemma IndentedHeader(key: string, value: string)
    requires PlainText(key) && ':' !in key && PlainText(value)
    ensures IsHeader("        " + key + ": " + value)
    ensures HeaderKey("        " + key + ": " + value) == key
    ensures HeaderValue("        " + key + ": " + value) == value
  {
    var lead := "        ";
    var line := lead + key + ": " + value;
    assert forall q :: 0 <= q < |line| ==> line[q] != 'G' && line[q] != 'P' by {
      forall q | 0 <= q < |line|
        ensures line[q] != 'G' && line[q] != 'P'
      {
        if q < |lead| {
          assert line[q] == lead[q];
        } else if q < |lead| + |key| {
          assert line[q] == key[q - |lead|];
        } else if q < |lead| + |key| + 2 {
        } else {
          assert line[q] == value[q - |lead| - |key| - 2];
        }
      }
    }
    NoMethodNoRequestLine(line);
    HeaderLineParts(line, lead, key, value);
  }



  /** The text of a request line followed by three header lines, each
      indented by eight spaces, joined by line feeds. */
  function RequestText(m: string, t: string, v: string,
                       k2: string, v2: string, k3: string, v3: string, k4: string, v4: string): string
  {
    (m + " " + t + " " + v) + "\n" +
    ("        " + k2 + ": " + v2) + "\n" +
    ("        " + k3 + ": " + v3) + "\n" +
    ("        " + k4 + ": " + v4)
  }

  /** Such a request with a well-formed request line and three header lines
      with distinct keys parses to that method, target and version, exactly
      those headers and no body. */
  lemma RequestWithThreeHeaders(m: string, t: string, v: string,
                                k2: string, v2: string, k3: string, v3: string, k4: string, v4: string)
    requires m == "GET" || m == "POST"
    requires |t| > 0 && t[0] == '/' && forall q :: 0 <= q < |t| ==> IsPathChar(t[q])
    requires v == "HTTP/1.1" || v == "HTTP/1.2" || v == "HTTP/2.0"
    requires PlainText(k2) && ':' !in k2 && PlainText(v2)
    requires PlainText(k3) && ':' !in k3 && PlainText(v3)
    requires PlainText(k4) && ':' !in k4 && PlainText(v4)
    requires k2 != k3 && k2 != k4 && k3 != k4
    ensures ParseLines(Lines(RequestText(m, t, v, k2, v2, k3, v3, k4, v4))) ==
      Success(HttpRequest(MethodFrom(m), VersionFrom(v), Path(t), map[k2 := v2, k3 := v3, k4 := v4], None))
  {
    var l1 := m + " " + t + " " + v;
    var l2 := "        " + k2 + ": " + v2;
    var l3 := "        " + k3 + ": " + v3;
    var l4 := "        " + k4 + ": " + v4;
    assert '\n' !in t by {
      forall q | 0 <= q < |t| ensures t[q] != '\n' {
        assert IsPathChar(t[q]);
      }
    }
    assert l1[|l1| - 1] == v[|v| - 1];
    assert l2[|l2| - 1] == v2[|v2| - 1];
    assert l3[|l3| - 1] == v3[|v3| - 1];
    assert l4[|l4| - 1] == v4[|v4| - 1];
    LinesOfFour(l1, l2, l3, l4);
    SingleRequestLine(m, t, v);
    IndentedHeader(k2, v2);
    IndentedHeader(k3, v3);
    IndentedHeader(k4, v4);
    ThreeHeaders([l1], l2, l3, l4, HttpRequest(MethodFrom(m), VersionFrom(v), Path(t), map[], None),
                 k2, v2, k3, v3, k4, v4);
  }

  // The keys and values of the test request are plain text.

  lemma AcceptEncodingPlain()
    ensures PlainText("Accept-Encoding") && ':' !in "Accept-Encoding" && PlainText("gzip, deflate, br")
  {
  }

  lemma AcceptLanguagePlain()
    ensures PlainText("Accept-Language") && ':' !in "Accept-Language" && PlainText("zh-CN,zh;q=0.9")
  {
  }

  lemma CacheControlPlain()
    ensures PlainText("Cache-Control") && ':' !in "Cache-Control" && PlainText("max-age=0")
  {
  }

  /** The raw request of the unit test of the parser: a request line and
      three header lines, each indented by eight spaces. */
  const TestRequest: string :=
    RequestText("GET", "/", "HTTP/1.1",
      "Accept-Encoding", "gzip, deflate, br",
      "Accept-Language", "zh-CN,zh;q=0.9",
      "Cache-Control", "max-age=0")

  /** The unit test of the parser: method `GET`, target `/`, version 1.1,
      exactly the three headers with their values trimmed, and no body. */
  lemma TestRequestParse()
    ensures ParseLines(Lines(TestRequest)) == Success(HttpRequest(Get, V1_1, Path("/"),
      map["Accept-Encoding" := "gzip, deflate, br",
          "Accept-Language" := "zh-CN,zh;q=0.9",
          "Cache-Control" := "max-age=0"],
      None))
  {
    AcceptEncodingPlain();
    AcceptLanguagePlain();
    CacheControlPlain();
    RequestWithThreeHeaders("GET", "/", "HTTP/1.1",
      "Accept-Encoding", "gzip, deflate, br",
      "Accept-Language", "zh-CN,zh;q=0.9",
      "Cache-Control", "max-age=0");
  }
}
