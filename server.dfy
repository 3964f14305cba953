/**
  `server.js`: the development server's request handler. Every response
  carries the CORS headers; `OPTIONS` is answered at once with 204; `/proxy`
  relays the resource named by its `url` query parameter; every other path
  is served from the server's directory, `/` as `/player.html`, with a
  content type looked up from the file extension, and a missing file is
  answered with the player page and status 404.

  The network and the file system are parameters: `read` gives the outcome
  of reading the file at a path, `fetch` the outcome of requesting an
  upstream URL. Header names are values of `Header`; Node compares them
  without regard to case.
*/
module Server {
  import opened Wrappers
  import opened Text

  // ---------------------------------------------------------------------
  // Content types

  /** `MIME_TYPES`, in its order. */
  const MimeTypes: seq<(string, string)> := [
    (".html", "text/html"),
    (".css", "text/css"),
    (".js", "application/javascript"),
    (".m3u8", "application/x-mpegURL"),
    (".json", "application/json"),
    (".jpg", "image/jpeg"),
    (".png", "image/png")
  ]

  /** The value of `key` in a table of distinct keys. */
  function Lookup(table: seq<(string, string)>, key: string): Option<string>
    decreases |table|
  {
    if table == [] then None
    else if table[0].0 == key then Some(table[0].1)
    else Lookup(table[1..], key)
  }

  /** The value found belongs to an entry with that key, and nothing is
      found exactly when no entry has it. */
  lemma {:induction false} LookupMeaning(table: seq<(string, string)>, key: string)
    ensures Lookup(table, key).None? <==> forall k :: 0 <= k < |table| ==> table[k].0 != key
    ensures Lookup(table, key).Some? ==>
      exists k :: 0 <= k < |table| && table[k] == (key, Lookup(table, key).value)
    decreases |table|
  {
    if table != [] && table[0].0 != key {
      LookupMeaning(table[1..], key);
      assert forall k :: 1 <= k < |table| ==> table[k] == table[1..][k - 1];
    }
  }

  const OctetStream: string := "application/octet-stream"

  /** The path without its trailing slashes. */
  function TrimSlashes(p: string): (r: string)
    ensures |r| <= |p| && r == p[..|r|]
    ensures r == [] || r[|r| - 1] != '/'
    decreases |p|
  {
    if p != [] && p[|p| - 1] == '/' then TrimSlashes(p[..|p| - 1]) else p
  }

  /** The last segment of a path, as `path.basename` finds it. */
  function LastSegment(p: string): (r: string)
    ensures '/' !in r
  {
    var t := TrimSlashes(p);
    var k := LastIndexOf(t, '/');
    var r := t[k + 1..];
    assert forall i :: 0 <= i < |r| ==> r[i] == t[k + 1 + i];
    r
  }

  /** The extension of a path segment: from its last dot to its end, or
      nothing when it has no dot, begins with its only dot or is `..`. */
  function SegmentExt(b: string): string {
    var k := LastIndexOf(b, '.');
    if k <= 0 || b == ".." then "" else b[k..]
  }

  /** `path.extname`: the extension of the path's last segment. */
  function ExtName(p: string): string {
    SegmentExt(LastSegment(p))
  }

  /** An extension is empty or a dot followed by a name without dot or
      slash, and it ends the path's last segment. */
  lemma ExtNameShape(p: string)
    ensures var e := ExtName(p);
      e == "" || (e[0] == '.' && '.' !in e[1..] && '/' !in e && |e| <= |LastSegment(p)|
                  && e == LastSegment(p)[|LastSegment(p)| - |e|..])
  {
    var b := LastSegment(p);
    var k := LastIndexOf(b, '.');
    assert ExtName(p) == SegmentExt(b);
    if !(k <= 0 || b == "..") {
      var e := b[k..];
      assert forall i :: 0 <= i < |e| ==> e[i] == b[k + i];
      assert forall i :: 1 <= i < |e| ==> e[i] != '.';
    }
  }

  /** `MIME_TYPES[extname] || 'application/octet-stream'`, on the
      lower-cased extension. */
  function ContentTypeFor(p: string): string {
    match Lookup(MimeTypes, Lower(ExtName(p)))
    case Some(t) => t
    case None => OctetStream
  }

  /** The type is the table's entry for the lower-cased extension, and
      `application/octet-stream` exactly when the table has none. */
  lemma ContentTypeChoice(p: string)
    ensures ContentTypeFor(p) == OctetStream <==>
      forall k :: 0 <= k < |MimeTypes| ==> MimeTypes[k].0 != Lower(ExtName(p))
    ensures ContentTypeFor(p) != OctetStream ==>
      exists k :: 0 <= k < |MimeTypes| && MimeTypes[k] == (Lower(ExtName(p)), ContentTypeFor(p))
  {
    LookupMeaning(MimeTypes, Lower(ExtName(p)));
  }

  /** A path whose extension is `.html`, in any case, is served as HTML;
      `ExtOf` gives that extension to `/player.html`. */
  lemma HtmlType(p: string)
    requires Lower(ExtName(p)) == ".html"
    ensures ContentTypeFor(p) == "text/html"
  {
    assert Lookup(MimeTypes, ".html") == Some("text/html");
  }

  /** The last segment of `/<seg>` for a segment without slash. */
  lemma LastSegmentOfRooted(seg: string)
    requires seg != [] && '/' !in seg
    ensures LastSegment("/" + seg) == seg
  {
    var p := "/" + seg;
    assert p[|p| - 1] == seg[|seg| - 1];
    assert TrimSlashes(p) == p;
    assert forall i :: 0 < i < |p| ==> p[i] == seg[i - 1];
    LastIndexOfAt(p, '/', 0);
    assert p[1..] == seg;
  }

  /** The extension of the segment `<stem>.<ext>`. */
  lemma SegmentExtOf(stem: string, ext: string)
    requires stem != [] && '.' !in stem && '.' !in ext
    ensures SegmentExt(stem + "." + ext) == "." + ext
  {
    var seg := stem + "." + ext;
    assert seg[|stem|] == '.';
    assert forall i :: |stem| < i < |seg| ==> seg[i] == ext[i - |stem| - 1];
    LastIndexOfAt(seg, '.', |stem|);
    assert seg != ".." by { assert seg[0] == stem[0]; }
    assert seg[|stem|..] == "." + ext;
  }

  /** The extension of `/<stem>.<ext>` for a plain stem and extension. */
  lemma ExtOf(stem: string, ext: string)
    requires stem != [] && '.' !in stem && '/' !in stem && '.' !in ext && '/' !in ext
    ensures ExtName("/" + stem + "." + ext) == "." + ext
  {
    var seg := stem + "." + ext;
    assert forall i :: 0 <= i < |seg| ==> seg[i] != '/' by {
      forall i | 0 <= i < |seg| ensures seg[i] != '/' {
        if i < |stem| { assert seg[i] == stem[i]; }
        else if i > |stem| { assert seg[i] == ext[i - |stem| - 1]; }
      }
    }
    assert "/" + stem + "." + ext == "/" + seg;
    LastSegmentOfRooted(seg);
    SegmentExtOf(stem, ext);
  }

  // ---------------------------------------------------------------------
  // Requests and responses

  /** What the handler reads from a request: the method (`verb`), the URL's path
      and the `url` query parameter (`null` when absent). */
  datatype Request = Request(verb: string, pathname: string, urlParam: Option<string>)

  /** The outcome of `fs.readFile`: the content, or an error and its code. */
  datatype FileRead = Content(data: string) | ReadError(code: string)

  /** The outcome of `http.get` on the upstream URL: its response, or an
      `error` event and its message. */
  datatype Upstream = Reply(status: int, headers: map<Header, string>, body: string)
                    | Unreachable(message: string)

  /** Header names: `Access-Control-Allow-Origin`,
      `Access-Control-Request-Method`, `Access-Control-Allow-Methods`,
      `Access-Control-Allow-Headers`, `Content-Type`, and any other. */
  datatype Header = AllowOrigin | RequestMethod | AllowMethods | AllowHeaders | ContentType
                  | Other(name: string)

  /** What the client receives. */
  datatype Response = Response(status: int, headers: map<Header, string>, body: string)

  /** The four headers set first on every response. */
  const Cors: map<Header, string> := map[
    AllowOrigin := "*",
    RequestMethod := "*",
    AllowMethods := "OPTIONS, GET",
    AllowHeaders := "*"
  ]

  const MissingUrl: string := "Proxy error: URL parameter is missing."
  const ErrorPrefix: string := "Sorry, check with the site admin for error: "
  const PlayerPage: string := "/player.html"

  /** `/` is served as the player page. */
  function ServedPath(pathname: string): string {
    if pathname == "/" then PlayerPage else pathname
  }

  /** The response to a `/proxy` request for `target`. */
  function Relay(target: string, fetch: string -> Upstream): Response {
    match fetch(target)
    case Reply(status, headers, body) => Response(status, Cors + headers, body)
    case Unreachable(message) => Response(500, Cors[ContentType := "text/plain"], "Proxy error: " + message)
  }

  /** The response for the file at `path`, whose content type is
      `contentType`. */
  function Serve(path: string, contentType: string, read: string -> FileRead): Response {
    match read(path)
    case Content(data) => Response(200, Cors[ContentType := contentType], data)
    case ReadError(code) =>
      if code == "ENOENT" then
        Response(404, Cors[ContentType := "text/html"],
                 match read(PlayerPage) case Content(page) => page case ReadError(_) => "")
      else Response(500, Cors, ErrorPrefix + code)
  }

  /** The handler's decision for a request, given the content type
      `contentType` that the extension lookup gives for the served path. */
  function Decide(req: Request, contentType: string, read: string -> FileRead, fetch: string -> Upstream): Response {
    if req.verb == "OPTIONS" then Response(204, Cors, "")
    else if req.pathname == "/proxy" then
      if req.urlParam == None || req.urlParam == Some("") then
        Response(400, Cors[ContentType := "text/plain"], MissingUrl)
      else Relay(req.urlParam.value, fetch)
    else Serve(ServedPath(req.pathname), contentType, read)
  }

  /** The handler's response to a request. */
  function Respond(req: Request, read: string -> FileRead, fetch: string -> Upstream): Response {
    Decide(req, ContentTypeFor(ServedPath(req.pathname)), read, fetch)
  }

  // ---------------------------------------------------------------------
  // Properties
  //
  // The lemmas about `Decide` hold for every content type, so in
  // particular for the one `Respond` looks up.

  /** `h` carries every CORS header with the value the handler set. */
  predicate HasCors(h: map<Header, string>) {
    forall k :: k in Cors ==> k in h && h[k] == Cors[k]
  }

  /** Every response the handler makes itself carries the CORS headers; a
      relayed upstream response carries them unless the upstream sends a
      header of the same name, which then wins. */
  lemma CorsAlways(req: Request, ct: string, read: string -> FileRead, fetch: string -> Upstream)
    ensures var r := Decide(req, ct, read, fetch);
      || HasCors(r.headers)
      || (&& req.verb != "OPTIONS" && req.pathname == "/proxy"
          && req.urlParam.Some? && req.urlParam.value != ""
          && fetch(req.urlParam.value).Reply?
          && r.headers == Cors + fetch(req.urlParam.value).headers)
  {
  }

  /** `OPTIONS` on any path is answered with 204 and an empty body, before
      any routing, file read or upstream request. */
  lemma PreflightFirst(req: Request, ct: string, read: string -> FileRead, fetch: string -> Upstream,
                       read': string -> FileRead, fetch': string -> Upstream)
    requires req.verb == "OPTIONS"
    ensures Decide(req, ct, read, fetch) == Response(204, Cors, "")
    ensures Decide(req, ct, read, fetch) == Decide(req, ct, read', fetch')
  {
  }

  /** `/proxy` without a `url`, or with an empty one, is answered with 400
      and a fixed plain-text body, and no upstream request is made: the
      answer is the same whatever the upstream would do. */
  lemma ProxyWithoutUrl(req: Request, ct: string, read: string -> FileRead, fetch: string -> Upstream,
                        fetch': string -> Upstream)
    requires req.verb != "OPTIONS" && req.pathname == "/proxy"
    requires req.urlParam == None || req.urlParam == Some("")
    ensures var r := Decide(req, ct, read, fetch);
      && r.status == 400 && r.body == "Proxy error: URL parameter is missing."
      && r.headers[ContentType] == "text/plain" && HasCors(r.headers)
    ensures Decide(req, ct, read, fetch) == Decide(req, ct, read, fetch')
  {
  }

  /** `/proxy?url=u` relays the upstream status, headers and body, or
      answers 500 naming the error, and reads no file. */
  lemma ProxyRelays(req: Request, ct: string, read: string -> FileRead, fetch: string -> Upstream,
                    read': string -> FileRead)
    requires req.verb != "OPTIONS" && req.pathname == "/proxy"
    requires req.urlParam.Some? && req.urlParam.value != ""
    ensures var r := Decide(req, ct, read, fetch);
      match fetch(req.urlParam.value)
      case Reply(status, headers, body) =>
        r.status == status && r.body == body
        && (forall k :: k in headers ==> k in r.headers && r.headers[k] == headers[k])
      case Unreachable(message) =>
        r.status == 500 && r.body == "Proxy error: " + message
    ensures Decide(req, ct, read, fetch) == Decide(req, ct, read', fetch)
  {
  }

  /** `/` is answered exactly as `/player.html`. */
  lemma RootIsPlayer(v: string, q: Option<string>, read: string -> FileRead, fetch: string -> Upstream)
    ensures Respond(Request(v, "/", q), read, fetch) == Respond(Request(v, PlayerPage, q), read, fetch)
  {
  }

  /** The three outcomes of serving a file: 200 with the content type,
      404 with the player page as HTML when the file does not exist, 500
      naming the error code otherwise; no upstream request is made. */
  lemma StaticOutcomes(req: Request, ct: string, read: string -> FileRead, fetch: string -> Upstream,
                       fetch': string -> Upstream)
    requires req.verb != "OPTIONS" && req.pathname != "/proxy"
    ensures var path := ServedPath(req.pathname); var r := Decide(req, ct, read, fetch);
      match read(path)
      case Content(data) =>
        r.status == 200 && r.body == data && r.headers[ContentType] == ct
      case ReadError(code) =>
        if code == "ENOENT" then
          r.status == 404 && r.headers[ContentType] == "text/html"
          && (read(PlayerPage).Content? ==> r.body == read(PlayerPage).data)
        else
          r.status == 500 && ContentType !in r.headers
          && |code| <= |r.body| && r.body[|r.body| - |code|..] == code
    ensures Decide(req, ct, read, fetch) == Decide(req, ct, read, fetch')
  {
    var path := ServedPath(req.pathname);
    if read(path).ReadError? && read(path).code != "ENOENT" {
      var b := ErrorPrefix + read(path).code;
      assert b[|b| - |read(path).code|..] == read(path).code;
    }
  }

  /** The statuses the handler chooses itself. */
  lemma OwnStatuses(req: Request, ct: string, read: string -> FileRead, fetch: string -> Upstream)
    requires !(req.verb != "OPTIONS" && req.pathname == "/proxy" && req.urlParam.Some?
               && req.urlParam.value != "" && fetch(req.urlParam.value).Reply?)
    ensures Decide(req, ct, read, fetch).status in {200, 204, 400, 404, 500}
  {
  }

  // ---------------------------------------------------------------------
  // The handler

  /** The `res` object: its status, its headers and the body written so far. */
  class ServerResponse {
    var statusCode: int
    var headers: map<Header, string>
    var body: string
    var headSent: bool
    var finished: bool

    constructor ()
      ensures statusCode == 200 && headers == map[] && body == ""
      ensures !headSent && !finished
    {
      statusCode := 200;
      headers := map[];
      body := "";
      headSent := false;
      finished := false;
    }

    /** What the client receives once the response has ended. */
    function Received(): Response
      reads this
    {
      Response(statusCode, headers, body)
    }

    /** `res.setHeader(name, value)`. */
    method SetHeader(name: Header, value: string)
      requires !headSent
      modifies this
      ensures headers == old(headers)[name := value]
      ensures statusCode == old(statusCode) && body == old(body)
      ensures headSent == old(headSent) && finished == old(finished)
    {
      headers := headers[name := value];
    }

    /** `res.writeHead(code, extra)`: the extra headers win over those set
        before. */
    method WriteHead(code: int, extra: map<Header, string>)
      requires !headSent
      modifies this
      ensures statusCode == code && headers == old(headers) + extra
      ensures body == old(body) && headSent && finished == old(finished)
    {
      statusCode := code;
      headers := headers + extra;
      headSent := true;
    }

    /** `res.end(data)`. */
    method End(data: string)
      requires !finished
      modifies this
      ensures body == old(body) + data && finished && headSent
      ensures statusCode == old(statusCode) && headers == old(headers)
    {
      body := body + data;
      finished := true;
      headSent := true;
    }
  }

  /** Sets the four CORS headers. */
  method SetCors(res: ServerResponse)
    requires !res.headSent && res.headers == map[]
    modifies res
    ensures res.headers == Cors && !res.headSent && res.statusCode == old(res.statusCode)
    ensures res.body == old(res.body) && res.finished == old(res.finished)
  {
    res.SetHeader(AllowOrigin, "*");
    res.SetHeader(RequestMethod, "*");
    res.SetHeader(AllowMethods, "OPTIONS, GET");
    res.SetHeader(AllowHeaders, "*");
  }

  /** The `/proxy` branch, once the CORS headers are set. */
  method HandleProxy(req: Request, res: ServerResponse, fetch: string -> Upstream)
    requires res.headers == Cors && res.body == "" && !res.headSent && !res.finished
    modifies res
    ensures res.finished
    ensures res.Received() == if req.urlParam == None || req.urlParam == Some("")
      then Response(400, Cors[ContentType := "text/plain"], MissingUrl)
      else Relay(req.urlParam.value, fetch)
  {
    var targetUrl := req.urlParam;
    if targetUrl == None || targetUrl == Some("") {
      res.WriteHead(400, map[ContentType := "text/plain"]);
      res.End(MissingUrl);
      return;
    }
    match fetch(targetUrl.value)
    case Reply(status, headers, b) =>
      res.WriteHead(status, headers);
      res.End(b);
    case Unreachable(message) =>
      res.WriteHead(500, map[ContentType := "text/plain"]);
      res.End("Proxy error: " + message);
  }

  /** The `fs.readFile` callback of the static-file branch, once the CORS
      headers are set. */
  method HandleRead(path: string, contentType: string, res: ServerResponse, read: string -> FileRead)
    requires res.headers == Cors && res.body == "" && !res.headSent && !res.finished
    modifies res
    ensures res.finished && res.Received() == Serve(path, contentType, read)
  {
    match read(path)
    case ReadError(code) =>
      if code == "ENOENT" {
        var page := match read(PlayerPage) case Content(p) => p case ReadError(_) => "";
        res.WriteHead(404, map[ContentType := "text/html"]);
        res.End(page);
      } else {
        res.WriteHead(500, map[]);
        res.End(ErrorPrefix + code);
      }
    case Content(content) =>
      res.WriteHead(200, map[ContentType := contentType]);
      res.End(content);
  }

  /** The `createServer` callback, with the file read and the upstream
      request resolved by `read` and `fetch`. */
  method Handle(req: Request, res: ServerResponse, read: string -> FileRead, fetch: string -> Upstream)
    requires res.headers == map[] && res.body == "" && !res.headSent && !res.finished
    modifies res
    ensures res.finished && res.Received() == Respond(req, read, fetch)
  {
    SetCors(res);
    if req.verb == "OPTIONS" {
      res.WriteHead(204, map[]);
      res.End("");
      return;
    }
    if req.pathname == "/proxy" {
      HandleProxy(req, res, fetch);
      return;
    }
    var pathname := req.pathname;
    if pathname == "/" {
      pathname := PlayerPage;
    }
    var contentType := ContentTypeFor(pathname);
    HandleRead(pathname, contentType, res, read);
  }
}
