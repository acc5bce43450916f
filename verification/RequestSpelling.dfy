/** Which bytes mean which request: an account of messages by how they are written, which says nothing of
    how they are read, and the proof that `next` answers exactly by it. */
module RequestSpelling {
  import opened Text
  import opened RequestGrammar
  import opened RequestRoundTrip

  // ------------------------------------------------------------------- how a head is written

  /** Method, target and version, one space apart. */
  ghost predicate SpellsLine(line: string, verb: string, target: string, version: string) {
    && line == verb + " " + target + " " + version
    && IsToken(verb)
    && target != "" && target[0] == '/' && ' ' !in target
    && (version == "HTTP/1.0" || version == "HTTP/1.1")
  }

  /** A name in any case, a colon, and the value, with white space around it. */
  ghost predicate SpellsFieldAs(line: string, f: HeaderField, name: string, pre: string, post: string) {
    && line == name + ":" + pre + f.value + post
    && IsToken(name) && Lower(name) == f.name
    && AllOws(pre) && AllOws(post) && Trimmed(f.value)
  }

  ghost predicate SpellsField(line: string, f: HeaderField) {
    exists name, pre, post :: SpellsFieldAs(line, f, name, pre, post)
  }

  ghost predicate SpellsFields(lines: seq<string>, fields: seq<HeaderField>) {
    |lines| == |fields| && forall i :: 0 <= i < |lines| ==> SpellsField(lines[i], fields[i])
  }

  /** The lines of a head that names this request, whatever its body. */
  ghost predicate Spells(lines: seq<string>, r: HttpRequest) {
    && lines != []
    && SpellsLine(lines[0], r.verb, r.target, r.version)
    && SpellsFields(lines[1..], r.headerFields)
  }

  // ------------------------------------------------------------------------------ one line

  lemma LineExactly(line: string, verb: string, target: string, version: string)
    ensures ParseRequestLine(line) == Ok(RequestLine(verb, target, version)) <==>
            SpellsLine(line, verb, target, version)
  {
    hide Find, IsToken, CrlfFree;
    if SpellsLine(line, verb, target, version) {
      SpelledLineParses(line, verb, target, version);
    }
    if ParseRequestLine(line) == Ok(RequestLine(verb, target, version)) {
      ParsedLineSpells(line);
    }
  }

  lemma SpelledLineParses(line: string, verb: string, target: string, version: string)
    requires SpellsLine(line, verb, target, version)
    ensures ParseRequestLine(line) == Ok(RequestLine(verb, target, version))
  {
    hide Find, ParseRequestLine;
    TokenHasNo(verb, ' ');
    VersionText(version);
    LineSpaces(verb, target, version, line);
    CutLineParses(line, |verb|, |verb| + 1 + |target|, verb, target, version);
  }

  lemma ParsedLineSpells(line: string)
    requires ParseRequestLine(line).Ok?
    ensures var r := ParseRequestLine(line).value; SpellsLine(line, r.verb, r.target, r.version)
  {
    hide Find, IsToken;
    FindChar(line, ' ', 0);
    var a := Find(line, " ", 0).value;
    FindChar(line, ' ', a + 1);
    var b := Find(line, " ", a + 1).value;
    SpaceFree(line, a + 1, b);
    assert line == line[..a] + " " + line[a + 1..b] + " " + line[b + 1..];
  }

  lemma SpelledFieldParses(line: string, f: HeaderField, name: string, pre: string, post: string)
    requires SpellsFieldAs(line, f, name, pre, post)
    ensures ParseHeaderLine(line) == Ok(f)
  {
    hide Find, ParseHeaderLine, Trim, Lower;
    var tail := pre + f.value + post;
    assert line == name + (":" + tail);
    TokenHasNo(name, ':');
    FindCharIs(line, ':', 0, |name|);
    assert line[..|name|] == name;
    assert line[|name| + 1..] == tail;
    ParseCut(line, name, tail);
    TrimIs(pre, f.value, post);
  }

  lemma ParsedFieldSpells(line: string)
    requires ParseHeaderLine(line).Ok?
    ensures SpellsField(line, ParseHeaderLine(line).value)
  {
    hide Find, IsToken, Trim, Lower, Trimmed, AllOws;
    FindChar(line, ':', 0);
    var c := Find(line, ":", 0).value;
    var pre, post := TrimSplits(line[c + 1..]);
    var f := ParseHeaderLine(line).value;
    assert line == line[..c] + ":" + line[c + 1..];
    assert line == line[..c] + ":" + pre + f.value + post;
    assert SpellsFieldAs(line, f, line[..c], pre, post);
  }

  lemma FieldExactly(line: string, f: HeaderField)
    ensures ParseHeaderLine(line) == Ok(f) <==> SpellsField(line, f)
  {
    hide ParseHeaderLine, SpellsFieldAs;
    if ParseHeaderLine(line) == Ok(f) {
      ParsedFieldSpells(line);
    }
    if name, pre, post :| SpellsFieldAs(line, f, name, pre, post) {
      SpelledFieldParses(line, f, name, pre, post);
    }
  }

  // ----------------------------------------------------------------------------- all lines

  lemma {:induction false} SpelledFieldsParse(h0: Head, lines: seq<string>, fields: seq<HeaderField>, h: Head)
    requires Represents(h0) && Represents(h) && h.fields == h0.fields + fields && SpellsFields(lines, fields)
    ensures ReadHeaderLines(h0, lines) == Ok(h)
    decreases |lines|
  {
    hide ParseHeaderLine, SpellsField, Represents, AddField;
    if lines == [] {
      assert h.fields == h0.fields;
      RepresentsUnique(h.fields, h0.headers, h.headers);
    } else {
      var f := fields[0];
      assert SpellsField(lines[0], f);
      FieldExactly(lines[0], f);
      RepresentedFits(h, h0, fields);
      NextFieldFits(h0, fields);
      AddFieldRepresents(h0, f);
      ShiftOne(h0.fields, fields);
      SpelledFieldsParse(AddField(h0, f).value, lines[1..], fields[1..], h);
    }
  }

  lemma RepresentedFits(h: Head, h0: Head, fields: seq<HeaderField>)
    requires Represents(h) && h.fields == h0.fields + fields
    ensures Mergeable(h0.fields + fields)
  {
    forall name ensures NoRepeat(h0.fields + fields, name) {
      assert RepresentsName(h, name);
    }
  }

  lemma {:induction false} ParsedFieldsSpell(h0: Head, lines: seq<string>) returns (fields: seq<HeaderField>)
    requires Represents(h0) && ReadHeaderLines(h0, lines).Ok?
    ensures var h := ReadHeaderLines(h0, lines).value;
            h.fields == h0.fields + fields && SpellsFields(lines, fields) && Represents(h)
    decreases |lines|
  {
    hide ParseHeaderLine, SpellsField, Represents, AddField;
    if lines == [] {
      fields := [];
      assert h0.fields + [] == h0.fields;
    } else {
      var f := ParseHeaderLine(lines[0]).value;
      FieldExactly(lines[0], f);
      AddFieldRepresents(h0, f);
      var rest := ParsedFieldsSpell(AddField(h0, f).value, lines[1..]);
      fields := [f] + rest;
      assert h0.fields + [f] + rest == h0.fields + fields;
      forall i | 0 <= i < |lines| ensures SpellsField(lines[i], fields[i]) {
        if i > 0 {
          assert lines[i] == lines[1..][i - 1];
        }
      }
    }
  }

  lemma HeadersExactly(lines: seq<string>, h: Head)
    ensures ReadHeaderLines(NO_HEADERS, lines) == Ok(h) <==> SpellsFields(lines, h.fields) && Represents(h)
  {
    hide ReadHeaderLines, SpellsFields, Represents;
    NoHeadersRepresents();
    assert NO_HEADERS.fields + h.fields == h.fields;
    if SpellsFields(lines, h.fields) && Represents(h) {
      SpelledFieldsParse(NO_HEADERS, lines, h.fields, h);
    }
    if ReadHeaderLines(NO_HEADERS, lines) == Ok(h) {
      var fields := ParsedFieldsSpell(NO_HEADERS, lines);
      assert NO_HEADERS.fields + fields == fields;
    }
  }

  // -------------------------------------------------------------------------------- a head

  ghost predicate Plain(r: HttpRequest) { r.body == "" && Represents(Head(r.headerFields, r.headers)) }

  /** Request line and headers are read exactly as they are spelled. */
  lemma HeadExactly(block: string, maxBodyBytes: nat, r: HttpRequest, n: nat)
    requires r.body == ""
    ensures ParseHead(block, maxBodyBytes) == Ok(ParsedHead(r, n)) <==>
            Spells(SplitLines(block), r) && Plain(r) && Framing(r.version, r.headers, maxBodyBytes) == Ok(n)
  {
    hide ParseRequestLine, ReadHeaderLines, Framing, SpellsLine, SpellsFields, Represents;
    var lines := SplitLines(block);
    LineExactly(lines[0], r.verb, r.target, r.version);
    HeadersExactly(lines[1..], Head(r.headerFields, r.headers));
  }

  /** Lines that can be told apart again once they are joined. */
  ghost predicate AreLines(lines: seq<string>) {
    && lines != []
    && (forall i :: 0 <= i < |lines| ==> CrlfFree(lines[i]))
    && (forall i :: 1 <= i < |lines| ==> lines[i] != "")
  }

  lemma OwsHasNoReturn(s: string)
    requires AllOws(s)
    ensures CrlfFree(s) && (s != "" ==> s[0] != '\n' && s[|s| - 1] != '\r')
  {
    NoReturnNoCrlf(s);
  }

  lemma SpelledFieldIsLine(line: string, f: HeaderField, name: string, pre: string, post: string)
    requires SpellsFieldAs(line, f, name, pre, post) && CrlfFree(f.value)
    ensures CrlfFree(line) && line != ""
  {
    hide CrlfFree, Lower, Trimmed;
    TokenCrlfFree(name);
    NoReturnNoCrlf(":");
    OwsHasNoReturn(pre);
    OwsHasNoReturn(post);
    CrlfFreeConcat(name, ":");
    CrlfFreeConcat(name + ":", pre);
    CrlfFreeConcat(name + ":" + pre, f.value);
    CrlfFreeConcat(name + ":" + pre + f.value, post);
  }

  lemma SpelledLinesAreLines(lines: seq<string>, r: HttpRequest)
    requires Spells(lines, r) && WellFormed(r)
    ensures AreLines(lines)
  {
    RequestLineCrlfFree(r);
    assert lines[0] == PrintRequestLine(r);
    hide CrlfFree, SpellsLine, SpellsFieldAs, Represents, WellFramed;
    forall i | 1 <= i < |lines|
      ensures CrlfFree(lines[i]) && lines[i] != ""
    {
      var f := r.headerFields[i - 1];
      assert lines[i] == lines[1..][i - 1] && SpellsField(lines[1..][i - 1], f) && WellFormedField(f);
      var name, pre, post :| SpellsFieldAs(lines[i], f, name, pre, post);
      SpelledFieldIsLine(lines[i], f, name, pre, post);
    }
  }

  // ------------------------------------------------------------------------- whole messages

  /** The lines are a head of the request within the limits. */
  ghost predicate Message(lines: seq<string>, r: HttpRequest, limits: Limits) {
    && Spells(lines, r) && WellFormed(r)
    && |Join(lines)| <= limits.maxHeaderBytes && |r.body| <= limits.maxBodyBytes
  }

  function Written(lines: seq<string>, body: string): string
    requires lines != []
  {
    Join(lines) + BLANK_LINE + body
  }

  lemma HeadOfMessage(lines: seq<string>, r: HttpRequest, limits: Limits)
    requires Message(lines, r, limits)
    ensures AreLines(lines) && SplitLines(Join(lines)) == lines
    ensures ParseHead(Join(lines), limits.maxBodyBytes) == Ok(ParsedHead(r.(body := ""), |r.body|))
  {
    SpelledLinesAreLines(lines, r);
    hide ParseHead, WellFramed, CrlfFree, Join, SplitLines, Represents, AllWellFormed, SpellsLine, SpellsFields;
    SplitJoin(lines);
    FramingAgrees(r, limits.maxBodyBytes);
    HeadExactly(Join(lines), limits.maxBodyBytes, r.(body := ""), |r.body|);
  }

  /** Every way of writing a request is read as that request, whatever follows. */
  lemma SpelledParses(lines: seq<string>, r: HttpRequest, rest: string, limits: Limits)
    requires Message(lines, r, limits)
    ensures lines != [] && Next(Written(lines, r.body) + rest, limits) == RequestReady(r, |Written(lines, r.body)|)
  {
    hide ParseHead, Next, Spells, WellFormed, Join, SplitLines, CrlfFree, Find;
    HeadOfMessage(lines, r, limits);
    BlankLineAfterJoin(lines, r.body + rest);
    var head, buffer := Join(lines), Written(lines, r.body) + rest;
    assert buffer == head + BLANK_LINE + (r.body + rest);
    NextOn(head, r.body, rest, buffer, limits);
  }

  /** The buffer starts with the request, written in `n` bytes. */
  ghost predicate StartsWith(buffer: string, lines: seq<string>, r: HttpRequest, n: nat, limits: Limits) {
    && lines != [] && Message(lines, r, limits)
    && n == |Written(lines, r.body)| <= |buffer| && buffer[..n] == Written(lines, r.body)
  }

  lemma ParsedIsSpelled(buffer: string, limits: Limits)
    requires Next(buffer, limits).RequestReady?
    ensures var r := Next(buffer, limits);
            exists lines :: StartsWith(buffer, lines, r.request, r.consumed, limits)
  {
    hide ParseHead, WellFormed, Find;
    var Ready := Next(buffer, limits);
    var r, n := Ready.request, Ready.consumed;
    FindSpec(buffer, BLANK_LINE, 0);
    var e := Find(buffer, BLANK_LINE, 0).value;
    var head := buffer[..e];
    var p := ParseHead(head, limits.maxBodyBytes).value;
    ParsedIsWellFormed(buffer, limits);
    HeadExactly(head, limits.maxBodyBytes, p.request, p.contentLength);
    SplitLinesRejoin(head);
    var lines := SplitLines(head);
    SameSpelling(lines, p.request, r);
    assert buffer[..n] == head + BLANK_LINE + r.body by {
      assert buffer[e..e + 4] == BLANK_LINE;
      assert buffer[..n] == buffer[..e] + buffer[e..e + 4] + buffer[e + 4..n];
    }
    assert StartsWith(buffer, lines, r, n, limits);
  }

  lemma SameSpelling(lines: seq<string>, r: HttpRequest, r': HttpRequest)
    requires Spells(lines, r) && r' == r.(body := r'.body)
    ensures Spells(lines, r')
  {
  }

  /** A request is ready exactly when the buffer starts with some way of writing it. */
  lemma ReadyExactly(buffer: string, r: HttpRequest, n: nat, limits: Limits)
    ensures Next(buffer, limits) == RequestReady(r, n) <==> exists lines :: StartsWith(buffer, lines, r, n, limits)
  {
    hide Next, Message;
    if Next(buffer, limits) == RequestReady(r, n) {
      ParsedIsSpelled(buffer, limits);
    }
    if lines :| StartsWith(buffer, lines, r, n, limits) {
      assert Written(lines, r.body) + buffer[n..] == buffer;
      SpelledParses(lines, r, buffer[n..], limits);
    }
  }

  // ------------------------------------------------------------------------ not yet complete

  /** More bytes would complete the message whose head is all there. */
  ghost predicate Unfinished(buffer: string, more: string, lines: seq<string>, r: HttpRequest, limits: Limits) {
    && lines != [] && Message(lines, r, limits)
    && more != "" && buffer + more == Written(lines, r.body) && |Join(lines)| + 4 <= |buffer|
  }

  /** The parser waits exactly when the head is incomplete and within the limit, or the body is. */
  lemma WaitsExactly(buffer: string, limits: Limits)
    ensures Next(buffer, limits).NeedMoreData? <==>
            || ((forall i: nat :: !OccursAt(buffer, BLANK_LINE, i)) && |buffer| <= limits.maxHeaderBytes)
            || exists more, lines, r :: Unfinished(buffer, more, lines, r, limits)
  {
    hide Next, Unfinished, OccursAt;
    if Next(buffer, limits).NeedMoreData? {
      WaitingIsUnfinished(buffer, limits);
    }
    if (forall i: nat :: !OccursAt(buffer, BLANK_LINE, i)) && |buffer| <= limits.maxHeaderBytes {
      NoHeadWaits(buffer, limits);
    }
    if more, lines, r :| Unfinished(buffer, more, lines, r, limits) {
      UnfinishedWaits(buffer, more, lines, r, limits);
    }
  }

  lemma NoHeadWaits(buffer: string, limits: Limits)
    requires (forall i: nat :: !OccursAt(buffer, BLANK_LINE, i)) && |buffer| <= limits.maxHeaderBytes
    ensures Next(buffer, limits).NeedMoreData?
  {
    hide ParseHead;
    FindSpec(buffer, BLANK_LINE, 0);
  }

  lemma UnfinishedWaits(buffer: string, more: string, lines: seq<string>, r: HttpRequest, limits: Limits)
    requires Unfinished(buffer, more, lines, r, limits)
    ensures Next(buffer, limits).NeedMoreData?
  {
    hide ParseHead, Spells, WellFormed, Join, SplitLines, CrlfFree, Find;
    HeadOfMessage(lines, r, limits);
    var head := Join(lines);
    var body := buffer[|head| + 4..];
    assert buffer[..|head| + 4] == (buffer + more)[..|head| + 4] == head + BLANK_LINE;
    assert buffer == head + BLANK_LINE + body;
    BlankLineAfterJoin(lines, body);
    assert buffer[..|head|] == head;
  }

  /** As many bytes as are missing. */
  function Filler(n: nat): string { seq(n, _ => 'x') }

  lemma WaitingIsUnfinished(buffer: string, limits: Limits)
    requires Next(buffer, limits).NeedMoreData?
    ensures || ((forall i: nat :: !OccursAt(buffer, BLANK_LINE, i)) && |buffer| <= limits.maxHeaderBytes)
            || exists more, lines, r :: Unfinished(buffer, more, lines, r, limits)
  {
    hide ParseHead, WellFormed, Find, OccursAt;
    FindSpec(buffer, BLANK_LINE, 0);
    var headEnd := Find(buffer, BLANK_LINE, 0);
    if headEnd.Some? {
      var e := headEnd.value;
      var p := ParseHead(buffer[..e], limits.maxBodyBytes).value;
      HeadSlices(buffer, e);
      var more := Filler(p.contentLength - |buffer[e + 4..]|);
      var r := p.request.(body := buffer[e + 4..] + more);
      HeadIsMessage(buffer[..e], r, p, limits);
      var lines := SplitLines(buffer[..e]);
      assert buffer + more == buffer[..e] + BLANK_LINE + (buffer[e + 4..] + more);
      assert Unfinished(buffer, more, lines, r, limits);
    }
  }

  lemma HeadSlices(buffer: string, e: nat)
    requires OccursAt(buffer, BLANK_LINE, e)
    ensures e + 4 <= |buffer| && buffer == buffer[..e] + BLANK_LINE + buffer[e + 4..]
  {
  }

  lemma HeadIsMessage(head: string, r: HttpRequest, p: ParsedHead, limits: Limits)
    requires ParseHead(head, limits.maxBodyBytes) == Ok(p) && |head| <= limits.maxHeaderBytes
    requires r == p.request.(body := r.body) && |r.body| == p.contentLength
    ensures Message(SplitLines(head), r, limits) && Join(SplitLines(head)) == head
  {
    hide ParseHead, WellFormed;
    HeadExactly(head, limits.maxBodyBytes, p.request, p.contentLength);
    ParsedHeadWellFormed(head, limits.maxBodyBytes, r.body);
    SplitLinesRejoin(head);
    SameSpelling(SplitLines(head), p.request, r);
  }

  // ------------------------------------------------------------------------------- errors

  /** A head within the limit stands at the front of the buffer. */
  ghost predicate HeadOf(buffer: string, lines: seq<string>, limits: Limits) {
    AreLines(lines) && Join(lines) + BLANK_LINE <= buffer && |Join(lines)| <= limits.maxHeaderBytes
  }

  /** A request that would be in order if its body were not sent with a transfer coding. */
  ghost predicate TransferCoded(r: HttpRequest) {
    && (r.version == "HTTP/1.1" ==> "host" in r.headers && r.headers["host"] != "")
    && "transfer-encoding" in r.headers && "content-length" !in r.headers
  }

  ghost predicate Coded(buffer: string, lines: seq<string>, r: HttpRequest, limits: Limits) {
    HeadOf(buffer, lines, limits) && Spells(lines, r) && Plain(r) && TransferCoded(r)
  }

  lemma FramingKind(r: HttpRequest, maxBodyBytes: nat)
    requires AllWellFormed(r.headerFields) && Represents(Head(r.headerFields, r.headers))
    ensures var n := Framing(r.version, r.headers, maxBodyBytes);
            n.Err? && n.fault.Kind() == UnsupportedTransferEncoding <==> TransferCoded(r)
  {
    hide Represents, Number, AllDigits;
    if "host" in r.headers {
      SingleValueJoin(r.headerFields, r.headers, "host");
      ValuesAreWellFormed(r.headerFields, "host");
      assert r.headers["host"] in ValuesOf(r.headerFields, "host");
      TrimKeepsTrimmed(r.headers["host"]);
    }
  }

  lemma LineFaults(line: string)
    ensures ParseRequestLine(line).Err? ==> ParseRequestLine(line).fault.Kind() == BadRequest
  {
    hide Find, IsToken;
  }

  lemma FieldFaults(h: Head, line: string)
    ensures ParseHeaderLine(line).Err? ==> ParseHeaderLine(line).fault.Kind() == BadRequest
    ensures ParseHeaderLine(line).Ok? && AddField(h, ParseHeaderLine(line).value).Err? ==>
              AddField(h, ParseHeaderLine(line).value).fault.Kind() == BadRequest
  {
    hide Find, IsToken;
    FindChar(line, ':', 0);
  }

  lemma {:induction false} HeaderFaults(h: Head, lines: seq<string>)
    ensures ReadHeaderLines(h, lines).Err? ==> ReadHeaderLines(h, lines).fault.Kind() == BadRequest
    decreases |lines|
  {
    hide ParseHeaderLine, AddField;
    if lines != [] {
      FieldFaults(h, lines[0]);
      var f := ParseHeaderLine(lines[0]);
      if f.Ok? && AddField(h, f.value).Ok? {
        HeaderFaults(AddField(h, f.value).value, lines[1..]);
      }
    }
  }

  /** Lines of which a head can consist are read as they are spelled, and refused for the transfer coding
      alone exactly when there is one. */
  lemma HeadKind(block: string, maxBodyBytes: nat)
    ensures var p := ParseHead(block, maxBodyBytes);
            p.Err? && p.fault.Kind() == UnsupportedTransferEncoding <==>
            exists r :: Spells(SplitLines(block), r) && Plain(r) && TransferCoded(r)
  {
    hide ParseRequestLine, ReadHeaderLines, Framing, Represents, TransferCoded, SpellsLine, SpellsFields;
    SplitLinesRejoin(block);
    var lines := SplitLines(block);
    var p := ParseHead(block, maxBodyBytes);
    LineFaults(lines[0]);
    HeaderFaults(NO_HEADERS, lines[1..]);
    var first, h := ParseRequestLine(lines[0]), ReadHeaderLines(NO_HEADERS, lines[1..]);
    if first.Ok? && h.Ok? {
      var line, head := first.value, h.value;
      var r := HttpRequest(line.verb, line.target, line.version, head.headers, head.fields, "");
      LineExactly(lines[0], r.verb, r.target, r.version);
      HeadersExactly(lines[1..], Head(r.headerFields, r.headers));
      ParsedFieldsWellFormed(NO_HEADERS, lines[1..]);
      FramingKind(r, maxBodyBytes);
      assert Spells(lines, r) && Plain(r);
    }
    if r :| Spells(lines, r) && Plain(r) && TransferCoded(r) {
      LineExactly(lines[0], r.verb, r.target, r.version);
      HeadersExactly(lines[1..], Head(r.headerFields, r.headers));
      ParsedFieldsWellFormed(NO_HEADERS, lines[1..]);
      FramingKind(r, maxBodyBytes);
    }
  }

  /** The parser reports an unsupported transfer coding exactly when the buffer starts with a head, in order
      otherwise, that announces one; every other error is a bad request. */
  lemma CodedExactly(buffer: string, limits: Limits)
    ensures var n := Next(buffer, limits);
            n.Error? && n.fault.Kind() == UnsupportedTransferEncoding <==>
            exists lines, r :: Coded(buffer, lines, r, limits)
  {
    hide ParseHead, Spells, Plain, TransferCoded, Find, CrlfFree, Join, SplitLines;
    FindSpec(buffer, BLANK_LINE, 0);
    var n := Next(buffer, limits);
    if n.Error? && n.fault.Kind() == UnsupportedTransferEncoding {
      var e := Find(buffer, BLANK_LINE, 0).value;
      HeadKind(buffer[..e], limits.maxBodyBytes);
      HeadStandsInFront(buffer, e, limits);
      var r :| Spells(SplitLines(buffer[..e]), r) && Plain(r) && TransferCoded(r);
      assert Coded(buffer, SplitLines(buffer[..e]), r, limits);
    }
    if lines, r :| Coded(buffer, lines, r, limits) {
      FrontIsHead(buffer, lines, limits);
      HeadKind(Join(lines), limits.maxBodyBytes);
    }
  }

  lemma HeadStandsInFront(buffer: string, e: nat, limits: Limits)
    requires Find(buffer, BLANK_LINE, 0) == Some(e) && e <= limits.maxHeaderBytes && OccursAt(buffer, BLANK_LINE, e)
    ensures HeadOf(buffer, SplitLines(buffer[..e]), limits)
  {
    hide Find, CrlfFree;
    var lines := SplitLines(buffer[..e]);
    SplitLinesRejoin(buffer[..e]);
    HeadLinesNonEmpty(buffer, e);
    forall i | 1 <= i < |lines| ensures lines[i] != "" {
      assert lines[i] == lines[1..][i - 1];
    }
    HeadSlices(buffer, e);
  }

  lemma FrontIsHead(buffer: string, lines: seq<string>, limits: Limits)
    requires HeadOf(buffer, lines, limits)
    ensures Find(buffer, BLANK_LINE, 0) == Some(|Join(lines)|) && buffer[..|Join(lines)|] == Join(lines)
    ensures SplitLines(Join(lines)) == lines
  {
    hide Find, CrlfFree, SplitLines;
    var head := Join(lines);
    var rest := buffer[|head| + 4..];
    assert buffer == head + BLANK_LINE + rest;
    BlankLineAfterJoin(lines, rest);
    SplitJoin(lines);
  }

  // --------------------------------------------------------------------------- characters

  /** Lower-casing, by the codes of ASCII: each capital goes to its small letter, all else stays. */
  lemma LowerIs(s: string, i: nat)
    requires i < |s|
    ensures var code := s[i] as int;
            Lower(s)[i] as int == if 65 <= code <= 90 then code + 32 else code
  {
  }

  /** The characters of a token, by the codes of ASCII; section 5.6.2 of RFC 9110. */
  lemma TokenCharactersAre(c: char)
    ensures var code := c as int;
            IsTchar(c) <==>
            || 48 <= code <= 57 || 65 <= code <= 90 || 97 <= code <= 122
            || code == 33 || 35 <= code <= 39 || code == 42 || code == 43 || code == 45 || code == 46
            || code == 94 || code == 95 || code == 96 || code == 124 || code == 126
  {
  }

  /** Decimal numbers: each further digit, by its code, is worth one and what stands before it ten times. */
  lemma NumbersAre(s: string, c: char)
    requires AllDigits(s)
    ensures AllDigits([c]) <==> 48 <= c as int <= 57
    ensures 48 <= c as int <= 57 ==> AllDigits(s + [c]) && Number(s + [c]) == 10 * Number(s) + (c as int - 48)
    ensures Number("") == 0 && SIZE_MAX + 1 == 0x1_0000_0000 * 0x1_0000_0000
  {
    assert (s + [c])[..|s|] == s;
    assert [c][0] == c;
  }

  /** White space and line ends, by the codes of ASCII. */
  lemma SeparatorsAre(c: char)
    ensures IsOws(c) <==> c as int == 32 || c as int == 9
    ensures |CRLF| == 2 && CRLF[0] as int == 13 && CRLF[1] as int == 10 && BLANK_LINE == CRLF + CRLF
  {
  }
}
