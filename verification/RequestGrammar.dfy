/** What one call of `HttpParser::next` answers for a given buffer. */
module RequestGrammar {
  import opened Text

  const SIZE_MAX: nat := 0xFFFF_FFFF_FFFF_FFFF

  datatype HeaderField = HeaderField(name: string, value: string)

  datatype HttpRequest = HttpRequest(
    verb: string, target: string, version: string,
    headers: map<string, string>, headerFields: seq<HeaderField>, body: string)

  datatype ErrorKind = BadRequest | UnsupportedTransferEncoding

  /** One constructor per error text of the parser. */
  datatype Fault =
    | HeadersTooLarge
    | MissingMethodSeparator
    | MissingTargetOrVersion
    | TooManyFields
    | InvalidMethod
    | TargetNotOriginForm
    | UnsupportedVersion
    | MalformedHeader
    | SpaceBeforeColon
    | InvalidHeaderName
    | DuplicateHeader(name: string)
    | MissingHost
    | AmbiguousFraming
    | TransferEncodingNotSupported
    | EmptyContentLength
    | InvalidContentLength
    | BodyTooLarge
  {
    function Kind(): ErrorKind {
      if TransferEncodingNotSupported? then UnsupportedTransferEncoding else BadRequest
    }
  }

  datatype Result<+T> = Ok(value: T) | Err(fault: Fault) {
    predicate IsFailure() { Err? }
    function PropagateFailure<U>(): Result<U> requires Err? { Err(fault) }
    function Extract(): T requires Ok? { value }
  }

  datatype Limits = Limits(maxHeaderBytes: nat, maxBodyBytes: nat)

  /** `consumed` is the number of bytes `next` erases from the front of the buffer. */
  datatype Outcome =
    | NeedMoreData
    | RequestReady(request: HttpRequest, consumed: nat)
    | Error(fault: Fault)

  // ------------------------------------------------------------- request line

  predicate IsAlnum(c: char) { '0' <= c <= '9' || 'A' <= c <= 'Z' || 'a' <= c <= 'z' }

  predicate IsTchar(c: char) { IsAlnum(c) || c in "!#$%&'*+-.^_`|~" }

  predicate IsToken(s: string) { s != "" && forall i :: 0 <= i < |s| ==> IsTchar(s[i]) }

  datatype RequestLine = RequestLine(verb: string, target: string, version: string)

  predicate KnownVersion(v: string) { v == "HTTP/1.1" || v == "HTTP/1.0" }

  function ParseRequestLine(line: string): Result<RequestLine> {
    var firstSpace := Find(line, " ", 0);
    if firstSpace.None? || firstSpace.value == 0 then Err(MissingMethodSeparator) else
    var a := firstSpace.value;
    var secondSpace := Find(line, " ", a + 1);
    if secondSpace.None? || secondSpace.value == a + 1 then Err(MissingTargetOrVersion) else
    var b := secondSpace.value;
    if Find(line, " ", b + 1).Some? then Err(TooManyFields) else
    var r := RequestLine(line[..a], line[a + 1..b], line[b + 1..]);
    if !IsToken(r.verb) then Err(InvalidMethod)
    else if r.target == "" || r.target[0] != '/' then Err(TargetNotOriginForm)
    else if !KnownVersion(r.version) then Err(UnsupportedVersion)
    else Ok(r)
  }

  // ------------------------------------------------------------- header lines

  function ParseHeaderLine(line: string): Result<HeaderField> {
    var colon := Find(line, ":", 0);
    if colon.None? || colon.value == 0 then Err(MalformedHeader) else
    var c := colon.value;
    if IsOws(line[c - 1]) then Err(SpaceBeforeColon)
    else if !IsToken(line[..c]) then Err(InvalidHeaderName)
    else Ok(HeaderField(Lower(line[..c]), Trim(line[c + 1..])))
  }

  const CONNECTION := "connection"

  /** The header list and the header map built so far. */
  datatype Head = Head(fields: seq<HeaderField>, headers: map<string, string>)

  const NO_HEADERS := Head([], map[])

  function AddField(h: Head, f: HeaderField): Result<Head> {
    if f.name !in h.headers then
      Ok(Head(h.fields + [f], h.headers[f.name := f.value]))
    else if f.name == CONNECTION then
      Ok(Head(h.fields + [f], h.headers[f.name := h.headers[f.name] + ", " + f.value]))
    else
      Err(DuplicateHeader(f.name))
  }

  function ReadHeaderLines(h: Head, lines: seq<string>): Result<Head>
    decreases |lines|
  {
    if lines == [] then Ok(h) else
    var f :- ParseHeaderLine(lines[0]);
    var h' :- AddField(h, f);
    ReadHeaderLines(h', lines[1..])
  }

  // ------------------------------------------------------------------ framing

  predicate IsDigit(c: char) { '0' <= c <= '9' }

  predicate AllDigits(s: string) { forall i :: 0 <= i < |s| ==> IsDigit(s[i]) }

  function Number(s: string): nat
    requires AllDigits(s)
  {
    if s == "" then 0 else Number(s[..|s| - 1]) * 10 + (s[|s| - 1] as int - '0' as int)
  }

  /** `from_chars` into a `size_t` that must use the whole trimmed value. */
  function ParseContentLength(value: string): Result<nat> {
    var v := Trim(value);
    if v == "" then Err(EmptyContentLength)
    else if !AllDigits(v) || Number(v) > SIZE_MAX then Err(InvalidContentLength)
    else Ok(Number(v))
  }

  /** Host rule and body length of a request with these headers. */
  function Framing(version: string, headers: map<string, string>, maxBodyBytes: nat): Result<nat> {
    if version == "HTTP/1.1" && ("host" !in headers || Trim(headers["host"]) == "") then Err(MissingHost)
    else if "transfer-encoding" in headers && "content-length" in headers then Err(AmbiguousFraming)
    else if "transfer-encoding" in headers then Err(TransferEncodingNotSupported)
    else if "content-length" in headers then
      var n :- ParseContentLength(headers["content-length"]);
      if n > maxBodyBytes then Err(BodyTooLarge) else Ok(n)
    else Ok(0)
  }

  // ------------------------------------------------------------- whole message

  datatype ParsedHead = ParsedHead(request: HttpRequest, contentLength: nat)

  /** Everything decided from the bytes before the blank line. */
  function ParseHead(block: string, maxBodyBytes: nat): (r: Result<ParsedHead>)
    ensures r.Ok? ==> r.value.contentLength <= maxBodyBytes && r.value.request.body == ""
  {
    var lines := SplitLines(block);
    var first :- ParseRequestLine(lines[0]);
    var h :- ReadHeaderLines(NO_HEADERS, lines[1..]);
    var n :- Framing(first.version, h.headers, maxBodyBytes);
    Ok(ParsedHead(HttpRequest(first.verb, first.target, first.version, h.headers, h.fields, ""), n))
  }

  /** The answer of `next`. A ready request uses its head, the blank line and exactly its body. */
  function Next(buffer: string, limits: Limits): (r: Outcome)
    ensures r.RequestReady? ==> |r.request.body| + 4 <= r.consumed <= |buffer|
    ensures r.NeedMoreData? ==> |buffer| <= limits.maxHeaderBytes + limits.maxBodyBytes + 3
  {
    var headerEnd := Find(buffer, BLANK_LINE, 0);
    if headerEnd.None? then
      if |buffer| > limits.maxHeaderBytes then Error(HeadersTooLarge) else NeedMoreData
    else if headerEnd.value > limits.maxHeaderBytes then Error(HeadersTooLarge)
    else
      var e := headerEnd.value;
      match ParseHead(buffer[..e], limits.maxBodyBytes)
      case Err(fault) => Error(fault)
      case Ok(head) =>
        var bodyStart := e + 4;
        if |buffer| - bodyStart < head.contentLength then NeedMoreData
        else
          RequestReady(head.request.(body := buffer[bodyStart..bodyStart + head.contentLength]),
                       bodyStart + head.contentLength)
  }

  /** Two buffers that agree up to the end of a complete message yield that message. */
  lemma SameMessage(a: string, b: string, e: nat, limits: Limits)
    requires Find(a, BLANK_LINE, 0) == Some(e) && Find(b, BLANK_LINE, 0) == Some(e)
    requires Next(a, limits).RequestReady? && Next(a, limits).consumed <= |b|
    requires a[..e] == b[..e]
    requires a[e + 4..Next(a, limits).consumed] == b[e + 4..Next(a, limits).consumed]
    ensures Next(b, limits) == Next(a, limits)
  {
    hide ParseHead;
  }
}
