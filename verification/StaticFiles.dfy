/** The static file handler and the router, over an abstract file system. */
module StaticFiles {
  import opened Text
  import opened HttpResponse
  import G = RequestGrammar
  import R = RequestRoundTrip
  import P = PercentDecoding

  type Path = seq<string>

  /** What the file system answers about a path. `content` is what reading the whole file gives,
      `None` when it cannot be opened or a read fails. */
  datatype Entry =
    | Unknown
    | Missing
    | NotRegular
    | Regular(size: Option<nat>, content: Option<string>)

  /** `canonical` resolves a path relative to the root; it may follow links anywhere. */
  datatype Site = Site(
    root: Path, canonical: string -> Option<Path>, entry: Path -> Entry, maxFileBytes: nat)

  // --------------------------------------------------------------------------- paths

  function ExtractPath(target: string): string {
    var query := Find(target, "?", 0);
    if query.None? then target else target[..query.value]
  }

  function StripSlashes(s: string): string {
    if s != "" && s[0] == '/' then StripSlashes(s[1..]) else s
  }

  method MakeRelativePath(decoded: string) returns (r: string)
    ensures r == StripSlashes(decoded)
    ensures r == "" || r[0] != '/'
    ensures |r| <= |decoded| && decoded[|decoded| - |r|..] == r
    ensures forall i :: 0 <= i < |decoded| - |r| ==> decoded[i] == '/'
  {
    r := decoded;
    while r != "" && r[0] == '/'
      invariant StripSlashes(r) == StripSlashes(decoded)
      invariant |r| <= |decoded| && decoded[|decoded| - |r|..] == r
      invariant forall i :: 0 <= i < |decoded| - |r| ==> decoded[i] == '/'
      decreases |r|
    {
      r := r[1..];
    }
  }

  /** `is_inside_root` walks both paths component by component: the root must be a prefix. */
  method IsInsideRoot(root: Path, candidate: Path) returns (inside: bool)
    ensures inside <==> root <= candidate
  {
    for i := 0 to |root|
      invariant i <= |candidate| && root[..i] == candidate[..i]
    {
      if i == |candidate| {
        return false;
      }
      if root[i] != candidate[i] {
        return false;
      }
      assert root[..i + 1] == root[..i] + [root[i]];
      assert candidate[..i + 1] == candidate[..i] + [candidate[i]];
    }
    assert root[..|root|] == root;
    return true;
  }

  // --------------------------------------------------------------------------- files

  const READ_SIZE := 8192

  /** Reads in pieces of at most READ_SIZE bytes and gives up as soon as the limit is passed. */
  method ReadFile(content: Option<string>, maxFileBytes: nat) returns (r: Option<string>)
    ensures r == if content.Some? && |content.value| <= maxFileBytes then content else None
  {
    if content.None? {
      return None;
    }
    var file := content.value;
    var body := "";
    while |body| < |file|
      invariant |body| <= maxFileBytes && |body| <= |file| && body == file[..|body|]
      decreases |file| - |body|
    {
      var left := |file| - |body|;
      var count := if left < READ_SIZE then left else READ_SIZE;
      if count > maxFileBytes - |body| {
        return None;
      }
      body := body + file[|body|..|body| + count];
    }
    assert body == file;
    return Some(body);
  }

  function Page(statusCode: int, reason: string, body: string): HttpResponse {
    HttpResponse("HTTP/1.1", statusCode, reason, map["Content-Type" := "text/plain"], body, None, false)
  }

  const BAD_REQUEST := Page(400, "Bad Request", "bad request\n")
  const FORBIDDEN := Page(403, "Forbidden", "forbidden\n")
  const NOT_FOUND := Page(404, "Not Found", "not found\n")

  predicate EndsWith(s: string, suffix: string) {
    |suffix| < |s| && s[|s| - |suffix|..] == suffix
  }

  /** By the extension of the last component; a name that is only an extension has none. */
  function ContentTypeFor(path: Path): string {
    var name := if path == [] then "" else path[|path| - 1];
    if EndsWith(name, ".html") || EndsWith(name, ".htm") then "text/html"
    else if EndsWith(name, ".txt") then "text/plain"
    else if EndsWith(name, ".css") then "text/css"
    else if EndsWith(name, ".js") then "application/javascript"
    else "application/octet-stream"
  }

  function FilePage(path: Path, body: string): HttpResponse {
    HttpResponse("HTTP/1.1", 200, "OK", map["Content-Type" := ContentTypeFor(path)], body, None, false)
  }

  function ServeFile(path: Path, size: Option<nat>, content: Option<string>, isHead: bool,
                     maxFileBytes: nat): HttpResponse
  {
    if size.None? || size.value > maxFileBytes then FORBIDDEN
    else if isHead then FilePage(path, "").(contentLength := size, suppressBody := true)
    else if content.None? || |content.value| > maxFileBytes then FORBIDDEN
    else FilePage(path, content.value)
  }

  /** The outcome of everything that depends on the target only. */
  datatype Lookup = Refused(page: HttpResponse) | Found(path: Path)

  function LookUp(target: string, site: Site): Lookup {
    var path := ExtractPath(target);
    var decoded := P.Decode(if path == "/" then "/index.html" else path);
    if decoded.None? then Refused(BAD_REQUEST)
    else if decoded.value == "" || decoded.value[0] != '/' then Refused(BAD_REQUEST) else
    var candidate := site.canonical(StripSlashes(decoded.value));
    if candidate.None? then Refused(FORBIDDEN)
    else if !(site.root <= candidate.value) then Refused(FORBIDDEN) else
    match site.entry(candidate.value)
    case Unknown => Refused(FORBIDDEN)
    case Missing => Refused(NOT_FOUND)
    case NotRegular => Refused(FORBIDDEN)
    case Regular(_, _) => Found(candidate.value)
  }

  function Handle(request: G.HttpRequest, site: Site): HttpResponse {
    match LookUp(request.target, site)
    case Refused(page) => page
    case Found(path) =>
      match site.entry(path)
      case Regular(size, content) =>
        ServeFile(path, size, content, request.verb == "HEAD", site.maxFileBytes)
      case _ => FORBIDDEN
  }

  /** `StaticFileHandler::handle` step by step. */
  method HandleRequest(request: G.HttpRequest, site: Site) returns (r: HttpResponse)
    ensures r == Handle(request, site)
  {
    hide P.Decode, StripSlashes, Find;
    var path := ExtractPath(request.target);
    if path == "/" {
      path := "/index.html";
    }
    var decoded := P.PercentDecode(path);
    if decoded.None? {
      return BAD_REQUEST;
    }
    if decoded.value == "" || decoded.value[0] != '/' {
      return BAD_REQUEST;
    }
    var relative := MakeRelativePath(decoded.value);
    var candidate := site.canonical(relative);
    if candidate.None? {
      return FORBIDDEN;
    }
    var inside := IsInsideRoot(site.root, candidate.value);
    if !inside {
      return FORBIDDEN;
    }
    match site.entry(candidate.value)
    case Unknown => return FORBIDDEN;
    case Missing => return NOT_FOUND;
    case NotRegular => return FORBIDDEN;
    case Regular(size, content) =>
      if size.None? || size.value > site.maxFileBytes {
        return FORBIDDEN;
      }
      if request.verb == "HEAD" {
        return FilePage(candidate.value, "").(contentLength := size, suppressBody := true);
      }
      var body := ReadFile(content, site.maxFileBytes);
      if body.None? {
        return FORBIDDEN;
      }
      return FilePage(candidate.value, body.value);
  }

  // -------------------------------------------------------------------------- routing

  const METHOD_NOT_ALLOWED := Page(405, "Method Not Allowed", "method not allowed\n").(
    headers := map["Allow" := "GET, HEAD", "Content-Type" := "text/plain"])

  function RouteRequest(request: G.HttpRequest, site: Site): HttpResponse {
    if request.verb == "GET" then Handle(request, site)
    else if request.verb == "HEAD" then
      var r := Handle(request, site);
      r.(contentLength := Some(r.AnnouncedLength()), suppressBody := true)
    else METHOD_NOT_ALLOWED
  }

  /** What the connection adds before it serialises. */
  function Prepare(r: HttpResponse, version: string, connection: string): HttpResponse {
    r.(version := version, headers := r.headers["Connection" := connection])
  }

  // ------------------------------------------------------------ containment in the root

  /** A file is only ever read from below the root, wherever links and dots lead. */
  lemma ServedInsideRoot(request: G.HttpRequest, site: Site)
    ensures RouteRequest(request, site).statusCode == 200 ==>
              && LookUp(request.target, site).Found?
              && var path := LookUp(request.target, site).path;
              && site.root <= path
              && site.entry(path).Regular?
              && (request.verb == "GET" ==> site.entry(path).content == Some(RouteRequest(request, site).body))
    ensures RouteRequest(request, site).statusCode == 200 && Lexical(site) ==>
              && JourneyTo(request.target).Some?
              && var Journey(up, down, slash) := JourneyTo(request.target).value;
              var back := site.root[|Climb(site.root, up)|..];
              back <= down && !slash && LookUp(request.target, site).path == site.root + down[|back|..]
  {
    hide P.Decode, StripSlashes, ExtractPath, Lexical, JourneyTo, Climb;
    if RouteRequest(request, site).statusCode == 200 && Lexical(site) {
      Confinement(request.target, site);
    }
  }

  // ------------------------------------------------------------------- which answer when

  /** A target is a path, and a query from the first question mark on. */
  lemma TargetParts(target: string) returns (path: string, query: string)
    ensures target == path + query && '?' !in path && (query == "" || query[0] == '?')
  {
    FindChar(target, '?', 0);
    var e := Find(target, "?", 0);
    path, query := if e.None? then target else target[..e.value], if e.None? then "" else target[e.value..];
  }

  lemma QueryIsDropped(path: string, query: string)
    requires '?' !in path && (query == "" || query[0] == '?')
    ensures ExtractPath(path + query) == path
  {
    hide Find;
    var target := path + query;
    if query == "" {
      FindCharNone(target, '?', 0);
    } else {
      FindCharIs(target, '?', 0, |path|);
    }
    assert target[..|path|] == path;
  }

  /** What a path that is not refused at once stands for: an absolute path, or the index of the root. */
  function Decoded(path: string): Option<string> {
    var decoded := P.Decode(if path == "/" then "/index.html" else path);
    if decoded.Some? && (decoded.value == "" || decoded.value[0] != '/') then None else decoded
  }

  ghost predicate RefusedWith(l: Lookup, code: int) { l.Refused? && l.page.statusCode == code }

  /** Where the lookup of a target ends, whatever its query. */
  lemma LookUpExactly(path: string, query: string, site: Site)
    requires '?' !in path && (query == "" || query[0] == '?')
    ensures var l := LookUp(path + query, site);
            RefusedWith(l, 400) <==> Decoded(path).None?
    ensures Decoded(path).Some? ==>
              var l, found := LookUp(path + query, site), site.canonical(StripSlashes(Decoded(path).value));
              && (RefusedWith(l, 404) <==>
                    found.Some? && site.root <= found.value && site.entry(found.value).Missing?)
              && (RefusedWith(l, 403) <==>
                    || found.None? || !(site.root <= found.value)
                    || site.entry(found.value).Unknown? || site.entry(found.value).NotRegular?)
              && (forall file :: l == Found(file) <==>
                    found == Some(file) && site.root <= file && site.entry(file).Regular?)
  {
    hide P.Decode, StripSlashes, ExtractPath;
    QueryIsDropped(path, query);
  }

  lemma RootIsIndex(site: Site)
    ensures LookUp("/", site) == LookUp("/index.html", site)
  {
    hide P.Decode, StripSlashes, ExtractPath;
    QueryIsDropped("/", "");
    QueryIsDropped("/index.html", "");
    assert "/" + "" == "/" && "/index.html" + "" == "/index.html";
  }

  /** The file can be sent: its size is known and within the limit, and for its content to be sent too,
      all of it can be read and is within the limit. */
  predicate Servable(file: Entry, maxFileBytes: nat, isHead: bool)
    requires file.Regular?
  {
    && file.size.Some? && file.size.value <= maxFileBytes
    && (isHead || (file.content.Some? && |file.content.value| <= maxFileBytes))
  }

  /** The answer to a request: 405 for methods other than GET and HEAD, what the lookup refused with, the
      file if it can be sent, and 403 otherwise. */
  lemma AnswersExactly(request: G.HttpRequest, site: Site)
    ensures var r := RouteRequest(request, site);
            if request.verb != "GET" && request.verb != "HEAD" then
              r.statusCode == 405 && "Allow" in r.headers && r.headers["Allow"] == "GET, HEAD"
            else
            var l := LookUp(request.target, site);
            if l.Refused? then r.statusCode == l.page.statusCode && r.statusCode in {400, 403, 404} else
            var file := site.entry(l.path);
            && file.Regular?
            && if !Servable(file, site.maxFileBytes, request.verb == "HEAD") then r.statusCode == 403
               else && r.statusCode == 200
                    && (request.verb == "GET" ==> r.body == file.content.value && r.AnnouncedLength() == |r.body|)
                    && (request.verb == "HEAD" ==> r.AnnouncedLength() == file.size.value)
                    && r.suppressBody == (request.verb == "HEAD")
                    && "Content-Type" in r.headers && r.headers["Content-Type"] == ContentTypeFor(l.path)
  {
    hide P.Decode, StripSlashes, ExtractPath, ContentTypeFor;
  }

  lemma EndsIn(name: string, suffix: string)
    requires |suffix| >= 2
    ensures EndsWith(name, suffix) ==>
              && name[|name| - 1] == suffix[|suffix| - 1] && name[|name| - 2] == suffix[|suffix| - 2]
              && suffix[0] in name
  {
    if EndsWith(name, suffix) {
      var end := name[|name| - |suffix|..];
      assert end[|suffix| - 1] == name[|name| - 1] && end[|suffix| - 2] == name[|name| - 2];
      assert end[0] in name;
    }
  }

  lemma EndsInNone(name: string)
    ensures var n := |name|;
            && (EndsWith(name, ".html") ==> name[n - 2] == 'm' && name[n - 1] == 'l' && '.' in name)
            && (EndsWith(name, ".htm") ==> name[n - 2] == 't' && name[n - 1] == 'm' && '.' in name)
            && (EndsWith(name, ".txt") ==> name[n - 2] == 'x' && name[n - 1] == 't' && '.' in name)
            && (EndsWith(name, ".css") ==> name[n - 2] == 's' && name[n - 1] == 's' && '.' in name)
            && (EndsWith(name, ".js") ==> name[n - 2] == 'j' && name[n - 1] == 's' && '.' in name)
  {
    EndsIn(name, ".html");
    EndsIn(name, ".htm");
    EndsIn(name, ".txt");
    EndsIn(name, ".css");
    EndsIn(name, ".js");
  }

  /** Content types by extension. */
  lemma ContentTypesAre(stem: string)
    requires stem != ""
    ensures ContentTypeFor([stem + ".html"]) == ContentTypeFor([stem + ".htm"]) == "text/html"
    ensures ContentTypeFor([stem + ".txt"]) == "text/plain"
    ensures ContentTypeFor([stem + ".css"]) == "text/css"
    ensures ContentTypeFor([stem + ".js"]) == "application/javascript"
    ensures '.' !in stem ==> ContentTypeFor([stem]) == "application/octet-stream"
  {
    Ends(stem, ".html");
    Ends(stem, ".htm");
    Ends(stem, ".txt");
    Ends(stem, ".css");
    Ends(stem, ".js");
    EndsInNone(stem + ".txt");
    EndsInNone(stem + ".css");
    EndsInNone(stem + ".js");
    EndsInNone(stem);
    hide EndsWith;
  }

  lemma Ends(stem: string, suffix: string)
    requires stem != "" && |suffix| >= 2
    ensures var name := stem + suffix;
            && EndsWith(name, suffix)
            && name[|name| - 1] == suffix[|suffix| - 1] && name[|name| - 2] == suffix[|suffix| - 2]
  {
    assert (stem + suffix)[|stem|..] == suffix;
  }

  // ------------------------------------------------------------------ framing and HEAD

  lemma LiteralsClean()
    ensures CrlfFree("HTTP/1.1") && CrlfFree("OK") && CrlfFree("Bad Request") && CrlfFree("Forbidden")
    ensures CrlfFree("Not Found") && CrlfFree("Method Not Allowed") && CrlfFree("GET, HEAD")
    ensures CrlfFree("Content-Type") && CrlfFree("Allow") && CrlfFree("text/plain")
  {
    R.NoReturnNoCrlf("HTTP/1.1");
    R.NoReturnNoCrlf("OK");
    R.NoReturnNoCrlf("Bad Request");
    R.NoReturnNoCrlf("Forbidden");
    R.NoReturnNoCrlf("Not Found");
    R.NoReturnNoCrlf("Method Not Allowed");
    R.NoReturnNoCrlf("GET, HEAD");
    R.NoReturnNoCrlf("Content-Type");
    R.NoReturnNoCrlf("Allow");
    R.NoReturnNoCrlf("text/plain");
  }

  lemma ContentTypeClean(path: Path)
    ensures CrlfFree(ContentTypeFor(path))
  {
    R.NoReturnNoCrlf(ContentTypeFor(path));
  }

  /** Pages of the file handler: `Content-Type` is the only header. */
  ghost predicate Plain(r: HttpResponse) {
    Clean(r) && r.version == "HTTP/1.1" && r.headers.Keys == {"Content-Type"}
  }

  lemma HandledPlain(request: G.HttpRequest, site: Site)
    ensures Plain(Handle(request, site))
    ensures Handle(request, site).suppressBody ==> request.verb == "HEAD"
    ensures request.verb != "HEAD" ==> Handle(request, site).contentLength.None?
  {
    hide P.Decode, StripSlashes, ExtractPath, ContentTypeFor, CrlfFree;
    LiteralsClean();
    var l := LookUp(request.target, site);
    if l.Found? {
      ContentTypeClean(l.path);
    }
  }

  /** Every routed response can be cut off the stream by a client that knows the method. */
  lemma RoutedReadable(request: G.HttpRequest, site: Site)
    ensures Clean(RouteRequest(request, site)) && Framed(RouteRequest(request, site), request.verb == "HEAD")
  {
    hide Handle, CrlfFree;
    HandledPlain(request, site);
    LiteralsClean();
  }

  lemma NoConnectionNames()
    ensures Lower("Content-Type") != "connection" && Lower("Allow") != "connection"
  {
    assert |Lower("Content-Type")| == 12 && |Lower("Allow")| == 5;
  }

  /** The router leaves the `Connection` header to the connection. */
  lemma RoutedNames(request: G.HttpRequest, site: Site)
    ensures forall name :: name in RouteRequest(request, site).headers ==> Lower(name) != "connection"
  {
    hide Handle, Clean, Lower;
    HandledPlain(request, site);
    NoConnectionNames();
  }

  /** The file answers HEAD and GET alike: it is not served, or reading it gives the announced
      number of bytes. */
  predicate Coherent(target: string, site: Site) {
    var l := LookUp(target, site);
    l.Found? ==>
      match site.entry(l.path)
      case Regular(Some(size), content) =>
        size <= site.maxFileBytes ==> content.Some? && |content.value| == size
      case _ => true
  }

  /** Same status, headers and length: what section 9.3.2 of RFC 9110 asks of HEAD. */
  predicate SameHead(a: HttpResponse, b: HttpResponse) {
    && a.version == b.version && a.statusCode == b.statusCode && a.reasonPhrase == b.reasonPhrase
    && a.headers == b.headers && a.AnnouncedLength() == b.AnnouncedLength()
  }

  lemma HeadIsGet(get: G.HttpRequest, site: Site)
    requires get.verb == "GET"
    ensures SameHead(RouteRequest(get, site), RouteRequest(get.(verb := "HEAD"), site)) <==> Coherent(get.target, site)
    ensures RouteRequest(get.(verb := "HEAD"), site).suppressBody && !RouteRequest(get, site).suppressBody
    ensures !Coherent(get.target, site) ==>
              var g, h := RouteRequest(get, site), RouteRequest(get.(verb := "HEAD"), site);
              (g.statusCode == 403 && h.statusCode == 200)
              || (g.statusCode == h.statusCode && g.AnnouncedLength() != h.AnnouncedLength())
  {
    hide P.Decode, StripSlashes, ExtractPath, ContentTypeFor;
  }

  // ------------------------------------------------------------------- HEAD, in bytes

  lemma {:induction false} SignedIsDigits(n: int)
    requires n >= 0
    ensures ' ' !in Signed(n) && Signed(n) != "" && G.AllDigits(Signed(n)) && G.Number(Signed(n)) == n
  {
    DecimalReads(n);
  }

  /** The status line determines the code. */
  lemma StatusLineInjective(a: HttpResponse, b: HttpResponse)
    requires a.version == b.version && a.statusCode >= 0 && b.statusCode >= 0
    requires StatusLine(a) == StatusLine(b)
    ensures a.statusCode == b.statusCode
  {
    hide Signed;
    SignedIsDigits(a.statusCode);
    SignedIsDigits(b.statusCode);
    var n := |a.version| + 1;
    CodeInLine(a, n);
    CodeInLine(b, n);
  }

  lemma CodeInLine(a: HttpResponse, n: nat)
    requires n == |a.version| + 1 && ' ' !in Signed(a.statusCode)
    ensures var line, code := StatusLine(a), Signed(a.statusCode);
            n <= |line| && Find(line, " ", n) == Some(n + |code|) && line[n..n + |code|] == code
  {
    hide Signed;
    var line, code := StatusLine(a), Signed(a.statusCode);
    assert line[n..n + |code|] == code;
    assert forall j :: n <= j < n + |code| ==> line[j] == code[j - n];
    FindCharIs(line, ' ', n, n + |code|);
  }

  lemma LengthLineInjective(m: nat, n: nat)
    requires FieldLine("Content-Length", Decimal(m)) == FieldLine("Content-Length", Decimal(n))
    ensures m == n
  {
    hide Decimal;
    var a, b := FieldLine("Content-Length", Decimal(m)), FieldLine("Content-Length", Decimal(n));
    assert a[16..] == Decimal(m) && b[16..] == Decimal(n);
    DecimalReads(m);
    DecimalReads(n);
  }

  /** Equal heads announce equal codes and lengths. */
  lemma HeadInjective(a: HttpResponse, b: HttpResponse, order: seq<string>)
    requires GoodOrder(a, order) && GoodOrder(b, order)
    requires a.version == b.version && a.statusCode >= 0 && b.statusCode >= 0
    requires Join(Lines(a, order)) == Join(Lines(b, order))
    ensures a.statusCode == b.statusCode && a.AnnouncedLength() == b.AnnouncedLength()
  {
    HeadEnds(a, order, "");
    HeadEnds(b, order, "");
    LinesEnds(a, order);
    LinesEnds(b, order);
    StatusLineInjective(a, b);
    LengthLineInjective(a.AnnouncedLength(), b.AnnouncedLength());
  }

  lemma LinesEnds(a: HttpResponse, order: seq<string>)
    requires Covered(a.headers, order)
    ensures var lines := Lines(a, order);
            lines[|lines| - 1] == FieldLine("Content-Length", Decimal(a.AnnouncedLength()))
  {
  }

  lemma PrepareClean(r: HttpResponse, version: string, connection: string)
    requires Clean(r) && CrlfFree(version) && CrlfFree(connection)
    ensures Clean(Prepare(r, version, connection))
  {
    hide CrlfFree;
    R.NoReturnNoCrlf("Connection");
  }

  lemma SameSuffix(a: string, b: string, t: string)
    requires a + t == b + t
    ensures a == b
  {
    assert |a| == |b|;
    assert (a + t)[..|a|] == a && (b + t)[..|b|] == b;
  }

  /** On the wire, HEAD is GET without the body exactly when the file is coherent. */
  lemma HeadBytes(get: G.HttpRequest, site: Site, version: string, connection: string, order: seq<string>)
    requires get.verb == "GET" && CrlfFree(version) && CrlfFree(connection)
    requires Iterates(Prepare(RouteRequest(get, site), version, connection).headers, order)
    ensures var g := Prepare(RouteRequest(get, site), version, connection);
            var h := Prepare(RouteRequest(get.(verb := "HEAD"), site), version, connection);
            && Iterates(h.headers, order)
            && (Serialize(g, order) == Serialize(h, order) + g.body <==> Coherent(get.target, site))
  {
    hide Handle, Coherent, Clean, CrlfFree, Lines;
    var g0, h0 := RouteRequest(get, site), RouteRequest(get.(verb := "HEAD"), site);
    var g, h := Prepare(g0, version, connection), Prepare(h0, version, connection);
    HandledPlain(get, site);
    HandledPlain(get.(verb := "HEAD"), site);
    assert g.headers.Keys == h.headers.Keys;
    RoutedReadable(get, site);
    RoutedReadable(get.(verb := "HEAD"), site);
    PrepareClean(g0, version, connection);
    PrepareClean(h0, version, connection);
    HeadIsGet(get, site);
    var a, b, t := Join(Lines(g, order)), Join(Lines(h, order)), BLANK_LINE + g.body;
    assert Serialize(g, order) == a + t;
    assert Serialize(h, order) + g.body == b + t;
    if Serialize(g, order) == Serialize(h, order) + g.body {
      SameSuffix(a, b, t);
      CodesNonNegative(get, site);
      CodesNonNegative(get.(verb := "HEAD"), site);
      HeadInjective(g, h, order);
    }
    if Coherent(get.target, site) {
      SameHeadSameLines(g, h, order);
    }
  }

  lemma CodesNonNegative(request: G.HttpRequest, site: Site)
    ensures RouteRequest(request, site).statusCode >= 0
  {
    hide P.Decode, StripSlashes, ExtractPath, ContentTypeFor;
  }

  lemma SameHeadSameLines(a: HttpResponse, b: HttpResponse, order: seq<string>)
    requires SameHead(a, b) && Covered(a.headers, order)
    ensures Covered(b.headers, order) && Lines(a, order) == Lines(b, order)
  {
  }

  /** A site with one file, of five bytes, that cannot be read. */
  function UnreadableSite(): Site { Site([], _ => Some(["a"]), _ => Regular(Some(5), None), 10) }

  /** So there are files on which HEAD and GET differ. */
  lemma UnreadableFileDisagrees(get: G.HttpRequest)
    requires get.verb == "GET" && get.target == "/a"
    ensures !Coherent(get.target, UnreadableSite())
    ensures RouteRequest(get, UnreadableSite()).statusCode == 403
    ensures RouteRequest(get.(verb := "HEAD"), UnreadableSite()).statusCode == 200
  {
    FindCharNone(get.target, '?', 0);
    P.LiteralDecodes('/');
    P.LiteralDecodes('a');
    P.DecodeBehind("/", "a");
    assert "/" + "a" == get.target;
  }

  // --------------------------------------------------------------- a lexical resolver

  /** One component of a path: empty ones and `.` stay, `..` goes up and stops at the top. */
  function Enter(base: Path, name: string): Path {
    if name == "" || name == "." then base
    else if name == ".." then (if base == [] then [] else base[..|base| - 1])
    else base + [name]
  }

  /** Resolves `.` and `..` by text alone. */
  function Normalise(base: Path, names: Path): Path {
    if names == [] then base else Enter(Normalise(base, names[..|names| - 1]), names[|names| - 1])
  }

  /** How far a relative path climbs above where it starts, and the names it then goes down. */
  function Reduce(names: Path): (nat, Path) {
    if names == [] then (0, []) else
    var (up, down) := Reduce(names[..|names| - 1]);
    var name := names[|names| - 1];
    if name == "" || name == "." then (up, down)
    else if name != ".." then (up, down + [name])
    else if down == [] then (up + 1, [])
    else (up, down[..|down| - 1])
  }

  function Climb(base: Path, up: nat): Path { if up >= |base| then [] else base[..|base| - up] }

  /** Every path is a climb followed by a descent. */
  lemma {:induction false} NormaliseIsClimb(base: Path, names: Path)
    ensures var (up, down) := Reduce(names); Normalise(base, names) == Climb(base, up) + down
  {
    if names == [] {
      assert base[..|base|] == base;
      assert base + [] == base;
    } else {
      var init, name := names[..|names| - 1], names[|names| - 1];
      NormaliseIsClimb(base, init);
      var (up, down) := Reduce(init);
      EnterIsClimb(base, up, down, name);
    }
  }

  lemma EnterIsClimb(base: Path, up: nat, down: Path, name: string)
    ensures Enter(Climb(base, up) + down, name) ==
            if name == "" || name == "." then Climb(base, up) + down
            else if name != ".." then Climb(base, up) + (down + [name])
            else if down == [] then Climb(base, up + 1) + []
            else Climb(base, up) + down[..|down| - 1]
  {
    var top := Climb(base, up);
    if name == ".." && down == [] {
      assert top + [] == top;
      assert Climb(base, up + 1) + [] == Climb(base, up + 1);
    } else if name == ".." {
      assert (top + down)[..|top + down| - 1] == top + down[..|down| - 1];
    }
  }

  lemma ClimbIsPrefix(base: Path, up: nat)
    ensures Climb(base, up) <= base && |Climb(base, up)| == if up >= |base| then 0 else |base| - up
  {
  }

  /** A path stays below the root exactly when the descent first goes back through the names that
      the climb left; without a climb it always does. */
  lemma StaysExactly(root: Path, names: Path)
    ensures var (up, down) := Reduce(names);
            && (root <= Normalise(root, names) <==> root[|Climb(root, up)|..] <= down)
            && (up == 0 ==> Normalise(root, names) == root + down)
            && (root <= Normalise(root, names) ==>
                  Normalise(root, names) == root + down[|root| - |Climb(root, up)|..])
  {
    var (up, down) := Reduce(names);
    NormaliseIsClimb(root, names);
    ClimbIsPrefix(root, up);
    hide Climb, Reduce, Normalise;
    TopAndDown(root, Climb(root, up), down);
  }

  lemma TopAndDown(root: Path, top: Path, down: Path)
    requires top <= root
    ensures root <= top + down <==> root[|top|..] <= down
    ensures root <= top + down ==> top + down == root + down[|root| - |top|..]
  {
    PrefixBehind(top, root[|top|..], down);
    assert top + root[|top|..] == root;
    if root <= top + down {
      assert top + down == root + (top + down)[|root|..];
      assert (top + down)[|root|..] == down[|root| - |top|..];
    }
  }

  lemma PrefixBehind(top: Path, a: Path, b: Path)
    ensures top + a <= top + b <==> a <= b
  {
    if top + a <= top + b {
      assert forall i :: 0 <= i < |a| ==> a[i] == (top + a)[|top| + i] == (top + b)[|top| + i] == b[i];
    }
  }

  /** The components of a path text. */
  function Components(text: string): Path {
    var slash := Find(text, "/", 0);
    if slash.None? then [text] else [text[..slash.value]] + Components(text[slash.value + 1..])
  }

  function Rejoined(names: Path): string
    requires names != []
  {
    if |names| == 1 then names[0] else names[0] + "/" + Rejoined(names[1..])
  }

  /** They hold no slash and rejoin to the text. */
  lemma {:induction false} ComponentsRejoin(text: string)
    ensures Components(text) != [] && Rejoined(Components(text)) == text
    ensures forall i :: 0 <= i < |Components(text)| ==> '/' !in Components(text)[i]
    decreases |text|
  {
    FindChar(text, '/', 0);
    var slash := Find(text, "/", 0);
    if slash.Some? {
      var e := slash.value;
      ComponentsRejoin(text[e + 1..]);
      assert Components(text)[1..] == Components(text[e + 1..]);
      assert text == text[..e] + "/" + text[e + 1..];
    }
  }

  /** Appending to the root, where a text that starts with a slash would replace it. */
  function Resolve(root: Path, text: string): Path {
    if text != "" && text[0] == '/' then Normalise([], Components(text)) else Normalise(root, Components(text))
  }

  /** The last name is empty or made of dots, so that the path asks for a directory. */
  predicate Trailing(names: Path) {
    names != [] && (names[|names| - 1] == "" || names[|names| - 1] == "." || names[|names| - 1] == "..")
  }

  /** What `weakly_canonical` answers where there are no links. A path that asks for a directory resolves
      to it if it is one; otherwise the empty last name stays, and there is no file of that name. */
  predicate ResolvesTo(site: Site, text: string, candidate: Path) {
    var path := Resolve(site.root, text);
    if !Trailing(Components(text)) then candidate == path
    else (candidate == path && site.entry(path).NotRegular?)
         || (candidate == path + [""] && !site.entry(candidate).Regular?)
  }

  ghost predicate Canonical(site: Site, text: string) {
    site.canonical(text).Some? && ResolvesTo(site, text, site.canonical(text).value)
  }

  /** A site without links, below a canonical root. */
  ghost predicate Lexical(site: Site) {
    "" !in site.root && forall text :: Canonical(site, text)
  }

  /** What is there, when nothing has an empty last name. */
  function Stat(entry: Path -> Entry): Path -> Entry {
    (path: Path) => if path != [] && path[|path| - 1] == "" then Missing else entry(path)
  }

  /** The site without links that these entries make. */
  function Linkless(root: Path, entry: Path -> Entry, maxFileBytes: nat): Site {
    Site(root,
         (text: string) =>
           var path := Resolve(root, text);
           Some(if Trailing(Components(text)) && !Stat(entry)(path).NotRegular? then path + [""] else path),
         Stat(entry), maxFileBytes)
  }

  lemma LinklessIsLexical(root: Path, entry: Path -> Entry, maxFileBytes: nat)
    requires "" !in root
    ensures Lexical(Linkless(root, entry, maxFileBytes))
  {
    hide Resolve, Components;
    var site := Linkless(root, entry, maxFileBytes);
    forall text
      ensures Canonical(site, text)
    {
      assert !Stat(entry)(Resolve(root, text) + [""]).Regular?;
    }
  }

  lemma {:induction false} StripSlashesStrips(s: string)
    ensures StripSlashes(s) == "" || StripSlashes(s)[0] != '/'
  {
    if s != "" && s[0] == '/' {
      StripSlashesStrips(s[1..]);
    }
  }

  /** Where a target leads: how far up, by which names down, and whether it asks for a directory. */
  datatype Journey = Journey(up: nat, down: Path, slash: bool)

  function JourneyOf(names: Path): Journey {
    var (up, down) := Reduce(names);
    Journey(up, down, Trailing(names))
  }

  /** None for a bad request. */
  function JourneyTo(target: string): Option<Journey> {
    var path := ExtractPath(target);
    var decoded := P.Decode(if path == "/" then "/index.html" else path);
    if decoded.None? || decoded.value == "" || decoded.value[0] != '/' then None
    else Some(JourneyOf(Components(StripSlashes(decoded.value))))
  }

  lemma SlashStays(root: Path, path: Path)
    requires "" !in root
    ensures root <= path + [""] <==> root <= path
  {
    assert root != [] ==> root[|root| - 1] != "";
  }

  /** Path confinement: on a site without links, for every target however it is escaped, the file
      looked up is the root followed by what the descent has left after going back through the root's
      own names, and a target whose descent does not do that is refused. A target that asks for a
      directory is never answered with a file. */
  lemma Confinement(target: string, site: Site)
    requires Lexical(site)
    ensures JourneyTo(target).None? ==> LookUp(target, site) == Refused(BAD_REQUEST)
    ensures JourneyTo(target).Some? ==>
              var Journey(up, down, slash) := JourneyTo(target).value;
              var back := site.root[|Climb(site.root, up)|..];
              if !(back <= down) then LookUp(target, site) == Refused(FORBIDDEN)
              else if slash then LookUp(target, site) in {Refused(FORBIDDEN), Refused(NOT_FOUND)} else
              var file := site.root + down[|back|..];
              LookUp(target, site) ==
              match site.entry(file)
              case Missing => Refused(NOT_FOUND)
              case Regular(_, _) => Found(file)
              case _ => Refused(FORBIDDEN)
  {
    hide P.Decode, ExtractPath, Normalise, Reduce, Components, StripSlashes, Climb;
    if JourneyTo(target).Some? {
      var path := ExtractPath(target);
      var relative := StripSlashes(P.Decode(if path == "/" then "/index.html" else path).value);
      StripSlashesStrips(P.Decode(if path == "/" then "/index.html" else path).value);
      ClimbIsPrefix(site.root, JourneyTo(target).value.up);
      StaysExactly(site.root, Components(relative));
      assert Canonical(site, relative);
      SlashStays(site.root, Resolve(site.root, relative));
    }
  }
}
