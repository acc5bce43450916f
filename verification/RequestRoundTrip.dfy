/** Which requests the parser can return, and the canonical text that parses back to each. */
module RequestRoundTrip {
  import opened Text
  import opened RequestGrammar

  // ------------------------------------------- the header map against the field list

  /** The values of one name, in arrival order. */
  ghost function ValuesOf(fields: seq<HeaderField>, name: string): seq<string> {
    if fields == [] then [] else
    var n := |fields| - 1;
    ValuesOf(fields[..n], name) + if fields[n].name == name then [fields[n].value] else []
  }

  ghost function JoinValues(values: seq<string>): string
    requires values != []
  {
    var n := |values| - 1;
    if n == 0 then values[0] else JoinValues(values[..n]) + ", " + values[n]
  }

  ghost predicate NoRepeat(fields: seq<HeaderField>, name: string) {
    name != "connection" ==> |ValuesOf(fields, name)| <= 1
  }

  /** No name is repeated, `connection` aside. */
  ghost predicate Mergeable(fields: seq<HeaderField>) { forall name :: NoRepeat(fields, name) }

  ghost predicate RepresentsName(h: Head, name: string) {
    var values := ValuesOf(h.fields, name);
    && NoRepeat(h.fields, name)
    && (name in h.headers <==> values != [])
    && (values != [] ==> h.headers[name] == JoinValues(values))
  }

  /** The map holds each name of the list once, `connection` with all its values joined. */
  ghost predicate Represents(h: Head) { forall name :: RepresentsName(h, name) }

  lemma ValuesAfterAdd(fields: seq<HeaderField>, f: HeaderField, name: string)
    ensures ValuesOf(fields + [f], name) ==
            if f.name == name then ValuesOf(fields, name) + [f.value] else ValuesOf(fields, name)
  {
    assert (fields + [f])[..|fields|] == fields;
  }

  lemma JoinAfterAdd(values: seq<string>, v: string)
    requires values != []
    ensures JoinValues(values + [v]) == JoinValues(values) + ", " + v
  {
    assert (values + [v])[..|values|] == values;
  }

  lemma AddFieldName(h: Head, f: HeaderField, name: string)
    requires RepresentsName(h, name) && AddField(h, f).Ok?
    ensures RepresentsName(AddField(h, f).value, name)
  {
    ValuesAfterAdd(h.fields, f, name);
    if f.name == name && f.name in h.headers {
      JoinAfterAdd(ValuesOf(h.fields, name), f.value);
    }
  }

  /** Adding a field keeps the correspondence, and is refused exactly when it could not. */
  lemma AddFieldRepresents(h: Head, f: HeaderField)
    requires Represents(h)
    ensures AddField(h, f).Ok? <==> f.name == "connection" || ValuesOf(h.fields, f.name) == []
    ensures AddField(h, f).Ok? ==> AddField(h, f).value.fields == h.fields + [f]
    ensures AddField(h, f).Ok? ==> Represents(AddField(h, f).value)
  {
    assert RepresentsName(h, f.name);
    if AddField(h, f).Ok? {
      forall name ensures RepresentsName(AddField(h, f).value, name) {
        assert RepresentsName(h, name);
        AddFieldName(h, f, name);
      }
    }
  }

  lemma {:induction false} HeaderLinesRepresent(h: Head, lines: seq<string>)
    requires Represents(h) && ReadHeaderLines(h, lines).Ok?
    ensures Represents(ReadHeaderLines(h, lines).value)
    decreases |lines|
  {
    if lines == [] {
    } else {
      var f := ParseHeaderLine(lines[0]).value;
      AddFieldRepresents(h, f);
      HeaderLinesRepresent(AddField(h, f).value, lines[1..]);
    }
  }

  /** The list determines the map. */
  lemma RepresentsUnique(fields: seq<HeaderField>, a: map<string, string>, b: map<string, string>)
    requires Represents(Head(fields, a)) && Represents(Head(fields, b))
    ensures a == b
  {
    forall name
      ensures name in a <==> name in b
      ensures name in a ==> a[name] == b[name]
    {
      assert RepresentsName(Head(fields, a), name) && RepresentsName(Head(fields, b), name);
    }
  }

  // ---------------------------------------------------------- well-formed requests

  ghost predicate WellFormedField(f: HeaderField) {
    IsToken(f.name) && Lower(f.name) == f.name && Trimmed(f.value) && CrlfFree(f.value)
  }

  ghost predicate AllWellFormed(fields: seq<HeaderField>) {
    forall i :: 0 <= i < |fields| ==> WellFormedField(fields[i])
  }

  ghost predicate WellFormedTarget(target: string) {
    target != "" && target[0] == '/' && ' ' !in target && CrlfFree(target)
  }

  /** The body has the length its headers announce, and 1.1 names its host. */
  ghost predicate WellFramed(r: HttpRequest) {
    && (r.version == "HTTP/1.1" ==> "host" in r.headers && r.headers["host"] != "")
    && "transfer-encoding" !in r.headers
    && if "content-length" in r.headers
       then var v := r.headers["content-length"];
            v != "" && AllDigits(v) && Number(v) == |r.body| <= SIZE_MAX
       else r.body == ""
  }

  ghost predicate WellFormed(r: HttpRequest) {
    && IsToken(r.verb)
    && WellFormedTarget(r.target)
    && KnownVersion(r.version)
    && AllWellFormed(r.headerFields)
    && Represents(Head(r.headerFields, r.headers))
    && WellFramed(r)
  }

  // -------------------------------------------------------------- canonical printing

  function PrintRequestLine(r: HttpRequest): string { r.verb + " " + r.target + " " + r.version }

  function PrintField(f: HeaderField): string { f.name + ":" + f.value }

  function PrintFields(fields: seq<HeaderField>): seq<string> {
    seq(|fields|, i requires 0 <= i < |fields| => PrintField(fields[i]))
  }

  function PrintHead(r: HttpRequest): string {
    Join([PrintRequestLine(r)] + PrintFields(r.headerFields))
  }

  function Print(r: HttpRequest): string { PrintHead(r) + BLANK_LINE + r.body }

  lemma TokenHasNo(s: string, c: char)
    requires IsToken(s) && !IsTchar(c)
    ensures c !in s
  {
  }

  lemma CrlfFreeConcat(a: string, b: string)
    requires CrlfFree(a) && CrlfFree(b)
    requires a == "" || b == "" || a[|a| - 1] != '\r' || b[0] != '\n'
    ensures CrlfFree(a + b)
  {
    forall i: nat ensures !OccursAt(a + b, CRLF, i) {
      CrlfAt(a + b, i);
      CrlfAt(a, i);
      if i >= |a| {
        CrlfAt(b, i - |a|);
      }
    }
  }

  lemma NoReturnNoCrlf(s: string)
    requires '\r' !in s
    ensures CrlfFree(s)
  {
    forall i: nat ensures !OccursAt(s, CRLF, i) {
      CrlfAt(s, i);
    }
  }

  lemma TokenCrlfFree(s: string)
    requires IsToken(s)
    ensures CrlfFree(s)
  {
    TokenHasNo(s, '\r');
    NoReturnNoCrlf(s);
  }

  /** A printed field line reads back as the field. */
  lemma PrintedFieldParses(f: HeaderField)
    requires WellFormedField(f)
    ensures ParseHeaderLine(PrintField(f)) == Ok(f)
  {
    var line := PrintField(f);
    PrintedFieldParts(f, line);
    ParseCut(line, f.name, f.value);
    TrimKeepsTrimmed(f.value);
  }

  /** Reading a line whose first colon stands behind a token. */
  lemma ParseCut(line: string, name: string, tail: string)
    requires IsToken(name) && Find(line, ":", 0) == Some(|name|)
    requires line[..|name|] == name && line[|name| + 1..] == tail
    ensures ParseHeaderLine(line) == Ok(HeaderField(Lower(name), Trim(tail)))
  {
    assert line[|name| - 1] == name[|name| - 1];
    assert IsTchar(name[|name| - 1]);
  }

  lemma PrintedFieldParts(f: HeaderField, line: string)
    requires IsToken(f.name) && line == f.name + ":" + f.value
    ensures var n := |f.name|;
            && Find(line, ":", 0) == Some(n)
            && line[..n] == f.name && line[n + 1..] == f.value
  {
    TokenHasNo(f.name, ':');
    FindCharIs(line, ':', 0, |f.name|);
  }

  lemma PrintedFieldIsLine(f: HeaderField)
    requires WellFormedField(f)
    ensures CrlfFree(PrintField(f)) && PrintField(f) != ""
  {
    TokenCrlfFree(f.name);
    NoReturnNoCrlf(":");
    CrlfFreeConcat(f.name, ":");
    CrlfFreeConcat(f.name + ":", f.value);
  }

  lemma VersionText(v: string)
    requires KnownVersion(v)
    ensures ' ' !in v && '\r' !in v && v != ""
  {
  }

  lemma RequestLineSpaces(r: HttpRequest)
    requires ' ' !in r.verb && ' ' !in r.target && ' ' !in r.version && r.verb != "" && r.target != ""
    ensures var line := PrintRequestLine(r);
            var a := |r.verb|;
            var b := a + 1 + |r.target|;
            && Find(line, " ", 0) == Some(a) && Find(line, " ", a + 1) == Some(b) && Find(line, " ", b + 1) == None
            && line[..a] == r.verb && line[a + 1..b] == r.target && line[b + 1..] == r.version
  {
    LineSpaces(r.verb, r.target, r.version, PrintRequestLine(r));
  }

  lemma LineSpaces(verb: string, target: string, version: string, line: string)
    requires ' ' !in verb && ' ' !in target && ' ' !in version
    requires line == verb + " " + target + " " + version
    ensures var a := |verb|;
            var b := a + 1 + |target|;
            && Find(line, " ", 0) == Some(a) && Find(line, " ", a + 1) == Some(b) && Find(line, " ", b + 1) == None
            && line[..a] == verb && line[a + 1..b] == target && line[b + 1..] == version
  {
    hide Find;
    var a := |verb|;
    var b := a + 1 + |target|;
    LineParts(verb, target, version, line);
    FindCharIs(line, ' ', 0, a);
    FindCharIs(line, ' ', a + 1, b);
    FindCharNone(line, ' ', b + 1);
  }

  lemma LineParts(verb: string, target: string, version: string, line: string)
    requires line == verb + " " + target + " " + version
    ensures var a := |verb|;
            var b := a + 1 + |target|;
            && |line| == b + 1 + |version| && line[a] == ' ' && line[b] == ' '
            && (forall j :: 0 <= j < a ==> line[j] == verb[j])
            && (forall j :: a + 1 <= j < b ==> line[j] == target[j - a - 1])
            && (forall j :: b + 1 <= j < |line| ==> line[j] == version[j - b - 1])
            && line[..a] == verb && line[a + 1..b] == target && line[b + 1..] == version
  {
  }

  lemma PrintedLineParses(r: HttpRequest)
    requires IsToken(r.verb) && WellFormedTarget(r.target) && KnownVersion(r.version)
    ensures ParseRequestLine(PrintRequestLine(r)) == Ok(RequestLine(r.verb, r.target, r.version))
  {
    hide Find, CrlfFree, ParseRequestLine;
    TokenHasNo(r.verb, ' ');
    VersionText(r.version);
    hide KnownVersion, IsTchar, PrintRequestLine;
    RequestLineSpaces(r);
    CutLineParses(PrintRequestLine(r), |r.verb|, |r.verb| + 1 + |r.target|, r.verb, r.target, r.version);
  }

  /** Reading a line whose two spaces separate a token, a target and a version. */
  lemma CutLineParses(line: string, a: nat, b: nat, verb: string, target: string, version: string)
    requires Find(line, " ", 0) == Some(a) && Find(line, " ", a + 1) == Some(b) && Find(line, " ", b + 1) == None
    requires 0 < a && a + 1 < b < |line| && line[..a] == verb && line[a + 1..b] == target && line[b + 1..] == version
    requires IsToken(verb) && target[0] == '/' && KnownVersion(version)
    ensures ParseRequestLine(line) == Ok(RequestLine(verb, target, version))
  {
    hide Find, IsToken, KnownVersion;
  }

  lemma RequestLineCrlfFree(r: HttpRequest)
    requires IsToken(r.verb) && WellFormedTarget(r.target) && KnownVersion(r.version)
    ensures CrlfFree(PrintRequestLine(r))
  {
    TokenCrlfFree(r.verb);
    NoReturnNoCrlf(" ");
    VersionText(r.version);
    NoReturnNoCrlf(r.version);
    CrlfFreeConcat(r.verb, " ");
    CrlfFreeConcat(r.verb + " ", r.target);
    CrlfFreeConcat(r.verb + " " + r.target, " ");
    CrlfFreeConcat(r.verb + " " + r.target + " ", r.version);
  }

  lemma ReadPrintedStep(h: Head, fields: seq<HeaderField>)
    requires fields != [] && WellFormedField(fields[0]) && AddField(h, fields[0]).Ok?
    ensures ReadHeaderLines(h, PrintFields(fields)) ==
            ReadHeaderLines(AddField(h, fields[0]).value, PrintFields(fields[1..]))
  {
    PrintedFieldParses(fields[0]);
    var lines := PrintFields(fields);
    assert lines[0] == PrintField(fields[0]);
    assert lines[1..] == PrintFields(fields[1..]);
  }

  /** A list without repeats, `connection` aside, can be extended by its own next field. */
  lemma NextFieldFits(h: Head, fields: seq<HeaderField>)
    requires Represents(h) && fields != [] && Mergeable(h.fields + fields)
    ensures AddField(h, fields[0]).Ok?
  {
    var f, rest := fields[0], fields[1..];
    AddFieldRepresents(h, f);
    if f.name != CONNECTION {
      ShiftOne(h.fields, fields);
      assert NoRepeat(h.fields + fields, f.name);
      ValuesMonotone(h.fields + [f], rest, f.name);
      ValuesAfterAdd(h.fields, f, f.name);
    }
  }

  /** Printed field lines read back as the fields, behind whatever was read before. */
  lemma {:induction false} PrintedFieldsParse(h: Head, fields: seq<HeaderField>) returns (r: Head)
    requires Represents(h) && Mergeable(h.fields + fields)
    requires AllWellFormed(fields)
    ensures ReadHeaderLines(h, PrintFields(fields)) == Ok(r)
    ensures r.fields == h.fields + fields
    ensures Represents(r)
    decreases |fields|
  {
    if fields == [] {
      assert h.fields + fields == h.fields;
      r := h;
    } else {
      var f, rest := fields[0], fields[1..];
      NextFieldFits(h, fields);
      ReadPrintedStep(h, fields);
      AddFieldRepresents(h, f);
      var h' := AddField(h, f).value;
      ShiftOne(h.fields, fields);
      r := PrintedFieldsParse(h', rest);
    }
  }

  lemma {:induction false} ValuesMonotone(a: seq<HeaderField>, b: seq<HeaderField>, name: string)
    ensures |ValuesOf(a, name)| <= |ValuesOf(a + b, name)|
    decreases |b|
  {
    if b == [] {
      assert a + b == a;
    } else {
      var n := |b| - 1;
      ValuesMonotone(a, b[..n], name);
      assert a + b == (a + b[..n]) + [b[n]];
      ValuesAfterAdd(a + b[..n], b[n], name);
    }
  }

  lemma SingleValueJoin(fields: seq<HeaderField>, headers: map<string, string>, name: string)
    requires Represents(Head(fields, headers)) && name in headers && name != CONNECTION
    ensures ValuesOf(fields, name) == [headers[name]]
  {
    assert RepresentsName(Head(fields, headers), name);
  }

  /** A value of a well-formed list is one of the list's values, so it is trimmed and CRLF-free. */
  lemma {:induction false} ValuesAreWellFormed(fields: seq<HeaderField>, name: string)
    requires AllWellFormed(fields)
    ensures forall v :: v in ValuesOf(fields, name) ==> Trimmed(v) && CrlfFree(v)
  {
    if fields != [] {
      ValuesAreWellFormed(fields[..|fields| - 1], name);
    }
  }

  /** The framing rule, as the parser decides it, against the announced body length. */
  lemma FramingAgrees(r: HttpRequest, maxBodyBytes: nat)
    requires AllWellFormed(r.headerFields)
    requires Represents(Head(r.headerFields, r.headers))
    ensures Framing(r.version, r.headers, maxBodyBytes) == Ok(|r.body|)
            <==> WellFramed(r) && |r.body| <= maxBodyBytes
  {
    forall name | name in {"host", "content-length"} && name in r.headers
      ensures Trim(r.headers[name]) == r.headers[name]
    {
      SingleValueJoin(r.headerFields, r.headers, name);
      ValuesAreWellFormed(r.headerFields, name);
      assert r.headers[name] in ValuesOf(r.headerFields, name);
      TrimKeepsTrimmed(r.headers[name]);
    }
    assert "host" in {"host", "content-length"};
    assert "content-length" in {"host", "content-length"};
  }

  // ------------------------------------------------------------------- round trip

  lemma NoHeadersRepresents()
    ensures Represents(NO_HEADERS)
  {
  }

  lemma PrintedListParses(fields: seq<HeaderField>, headers: map<string, string>) returns (h: Head)
    requires AllWellFormed(fields) && Represents(Head(fields, headers))
    ensures h == Head(fields, headers) && ReadHeaderLines(NO_HEADERS, PrintFields(fields)) == Ok(h)
  {
    NoHeadersRepresents();
    forall name ensures NoRepeat(fields, name) {
      assert RepresentsName(Head(fields, headers), name);
    }
    assert NO_HEADERS.fields + fields == fields;
    h := PrintedFieldsParse(NO_HEADERS, fields);
    RepresentsUnique(fields, h.headers, headers);
  }

  lemma PrintedHeadParses(r: HttpRequest, maxBodyBytes: nat)
    requires WellFormed(r) && |r.body| <= maxBodyBytes
    ensures ParseHead(PrintHead(r), maxBodyBytes) == Ok(ParsedHead(r.(body := ""), |r.body|))
  {
    var lines := [PrintRequestLine(r)] + PrintFields(r.headerFields);
    PrintedLinesAreLines(r);
    SplitJoin(lines);
    PrintedLineParses(r);
    var h := PrintedListParses(r.headerFields, r.headers);
    assert lines[1..] == PrintFields(r.headerFields);
    FramingAgrees(r, maxBodyBytes);
  }

  lemma PrintedLinesAreLines(r: HttpRequest)
    requires WellFormed(r)
    ensures var lines := [PrintRequestLine(r)] + PrintFields(r.headerFields);
            && (forall i :: 0 <= i < |lines| ==> CrlfFree(lines[i]))
            && (forall i :: 1 <= i < |lines| ==> lines[i] != "")
  {
    var lines := [PrintRequestLine(r)] + PrintFields(r.headerFields);
    assert AllWellFormed(r.headerFields);
    RequestLineCrlfFree(r);
    hide CrlfFree, PrintField, PrintRequestLine, WellFormed, WellFormedField;
    forall i | 1 <= i < |lines| ensures CrlfFree(lines[i]) && lines[i] != "" {
      assert lines[i] == PrintField(r.headerFields[i - 1]);
      PrintedFieldIsLine(r.headerFields[i - 1]);
    }
  }

  /** Round trip: the canonical text, followed by any bytes, yields the request back and
      consumes exactly that text. */
  lemma PrintParses(r: HttpRequest, limits: Limits, rest: string)
    requires WellFormed(r)
    requires |PrintHead(r)| <= limits.maxHeaderBytes && |r.body| <= limits.maxBodyBytes
    ensures Next(Print(r) + rest, limits) == RequestReady(r, |Print(r)|)
  {
    hide ParseHead, Next, WellFormed;
    var head, buffer := PrintHead(r), Print(r) + rest;
    assert buffer == head + BLANK_LINE + (r.body + rest);
    PrintedHeadEnds(r, r.body + rest);
    PrintedHeadParses(r, limits.maxBodyBytes);
    NextOn(head, r.body, rest, buffer, limits);
  }

  lemma PrintedHeadEnds(r: HttpRequest, t: string)
    requires WellFormed(r)
    ensures Find(PrintHead(r) + BLANK_LINE + t, BLANK_LINE, 0) == Some(|PrintHead(r)|)
  {
    PrintedLinesAreLines(r);
    BlankLineAfterJoin([PrintRequestLine(r)] + PrintFields(r.headerFields), t);
  }

  /** What `next` answers when the buffer starts with a head and the body it announces. */
  lemma NextOn(head: string, body: string, rest: string, buffer: string, limits: Limits)
    requires buffer == head + BLANK_LINE + (body + rest)
    requires Find(buffer, BLANK_LINE, 0) == Some(|head|) && |head| <= limits.maxHeaderBytes
    requires var p := ParseHead(head, limits.maxBodyBytes); p.Ok? && p.value.contentLength == |body|
    ensures Next(buffer, limits) ==
            RequestReady(ParseHead(head, limits.maxBodyBytes).value.request.(body := body), |head| + 4 + |body|)
  {
    hide ParseHead;
    assert buffer[..|head|] == head;
    assert buffer[|head| + 4..|head| + 4 + |body|] == body;
  }

  // -------------------------------------------------------------------- soundness

  lemma ParsedLineWellFormed(line: string)
    requires CrlfFree(line) && ParseRequestLine(line).Ok?
    ensures var r := ParseRequestLine(line).value;
            IsToken(r.verb) && WellFormedTarget(r.target) && KnownVersion(r.version)
  {
    hide Find, IsToken, CrlfFree, KnownVersion;
    FindChar(line, ' ', 0);
    var a := Find(line, " ", 0).value;
    FindChar(line, ' ', a + 1);
    var b := Find(line, " ", a + 1).value;
    CrlfFreeSlice(line, a + 1, b);
    SpaceFree(line, a + 1, b);
  }

  lemma SpaceFree(line: string, a: nat, b: nat)
    requires a <= b <= |line| && forall j :: a <= j < b ==> line[j] != ' '
    ensures ' ' !in line[a..b]
  {
  }

  lemma LowerTokenIsToken(s: string)
    requires IsToken(s)
    ensures IsToken(Lower(s)) && Lower(Lower(s)) == Lower(s)
  {
    var l := Lower(s);
    forall i | 0 <= i < |l| ensures IsTchar(l[i]) && LowerChar(l[i]) == l[i] {
      assert IsTchar(s[i]);
    }
  }

  lemma ParsedFieldWellFormed(line: string)
    requires CrlfFree(line) && ParseHeaderLine(line).Ok?
    ensures WellFormedField(ParseHeaderLine(line).value)
  {
    var c := Find(line, ":", 0).value;
    var tail := line[c + 1..];
    assert line[c + 1..|line|] == tail;
    CrlfFreeSlice(line, c + 1, |line|);
    TrimKeepsCrlfFree(tail);
    LowerTokenIsToken(line[..c]);
  }

  lemma TrimKeepsCrlfFree(s: string)
    requires CrlfFree(s)
    ensures CrlfFree(Trim(s)) && Trimmed(Trim(s))
  {
    var pre, post := TrimSplits(s);
    MiddleCrlfFree(pre, Trim(s), post, s);
  }

  lemma MiddleCrlfFree(pre: string, t: string, post: string, s: string)
    requires s == pre + t + post && CrlfFree(s)
    ensures CrlfFree(t)
  {
    assert s[|pre|..|pre| + |t|] == t;
    CrlfFreeSlice(s, |pre|, |pre| + |t|);
  }

  lemma {:induction false} ParsedFieldsWellFormed(h: Head, lines: seq<string>)
    requires AllWellFormed(h.fields)
    requires forall i :: 0 <= i < |lines| ==> CrlfFree(lines[i])
    requires ReadHeaderLines(h, lines).Ok?
    ensures AllWellFormed(ReadHeaderLines(h, lines).value.fields)
    decreases |lines|
  {
    if lines != [] {
      ParsedFieldWellFormed(lines[0]);
      var h' := AddField(h, ParseHeaderLine(lines[0]).value).value;
      ParsedFieldsWellFormed(h', lines[1..]);
    }
  }

  lemma ParsedHeadWellFormed(block: string, maxBodyBytes: nat, body: string)
    requires ParseHead(block, maxBodyBytes).Ok?
    requires |body| == ParseHead(block, maxBodyBytes).value.contentLength
    ensures WellFormed(ParseHead(block, maxBodyBytes).value.request.(body := body))
  {
    SplitLinesRejoin(block);
    var lines := SplitLines(block);
    ParsedLineWellFormed(lines[0]);
    NoHeadersRepresents();
    HeaderLinesRepresent(NO_HEADERS, lines[1..]);
    ParsedFieldsWellFormed(NO_HEADERS, lines[1..]);
    FramingAgrees(ParseHead(block, maxBodyBytes).value.request.(body := body), maxBodyBytes);
  }

  /** Every request the parser returns is well formed. */
  lemma ParsedIsWellFormed(buffer: string, limits: Limits)
    ensures Next(buffer, limits).RequestReady? ==> WellFormed(Next(buffer, limits).request)
  {
    hide ParseHead;
    var r := Next(buffer, limits);
    if r.RequestReady? {
      var e := Find(buffer, BLANK_LINE, 0).value;
      ParsedHeadWellFormed(buffer[..e], limits.maxBodyBytes, r.request.body);
    }
  }

  // ----------------------------------------------------- the canonical text is the shortest

  /** Bytes of the lines, each with its CRLF. */
  function Bulk(lines: seq<string>): nat
    decreases |lines|
  {
    if lines == [] then 0 else |lines[0]| + 2 + Bulk(lines[1..])
  }

  lemma {:induction false} JoinBulk(lines: seq<string>)
    requires lines != []
    ensures |Join(lines)| + 2 == Bulk(lines)
    decreases |lines|
  {
    if |lines| == 1 {
      assert lines[1..] == [];
    } else {
      JoinBulk(lines[1..]);
    }
  }

  lemma LineNotLonger(line: string)
    requires ParseRequestLine(line).Ok?
    ensures var r := ParseRequestLine(line).value; |line| == |r.verb| + |r.target| + |r.version| + 2
  {
    hide IsToken, KnownVersion;
    FindChar(line, ' ', 0);
    FindChar(line, ' ', Find(line, " ", 0).value + 1);
  }

  lemma FieldNotLonger(line: string)
    requires ParseHeaderLine(line).Ok?
    ensures |PrintField(ParseHeaderLine(line).value)| <= |line|
  {
    hide IsToken, IsOws;
    FindChar(line, ':', 0);
    var c := Find(line, ":", 0).value;
    var pre, post := TrimSplits(line[c + 1..]);
  }

  lemma {:induction false} FieldsNotLonger(h: Head, lines: seq<string>) returns (added: seq<HeaderField>)
    requires ReadHeaderLines(h, lines).Ok?
    ensures ReadHeaderLines(h, lines).value.fields == h.fields + added
    ensures Bulk(PrintFields(added)) <= Bulk(lines)
    decreases |lines|
  {
    hide ParseHeaderLine, PrintField;
    if lines == [] {
      added := [];
      assert PrintFields(added) == [];
    } else {
      var f := ParseHeaderLine(lines[0]).value;
      var rest := FieldsNotLonger(AddField(h, f).value, lines[1..]);
      added := [f] + rest;
      FieldNotLonger(lines[0]);
      assert PrintFields(added)[1..] == PrintFields(rest);
      assert h.fields + [f] + rest == h.fields + added;
    }
  }

  /** No head is shorter than the canonical one of the request it is read as. */
  lemma CanonicalIsShortest(block: string, maxBodyBytes: nat)
    requires ParseHead(block, maxBodyBytes).Ok?
    ensures |PrintHead(ParseHead(block, maxBodyBytes).value.request)| <= |block|
  {
    hide ParseRequestLine, ReadHeaderLines, Framing, PrintFields, Bulk;
    var r := ParseHead(block, maxBodyBytes).value.request;
    SplitLinesRejoin(block);
    var lines := SplitLines(block);
    LineNotLonger(lines[0]);
    var added := FieldsNotLonger(NO_HEADERS, lines[1..]);
    assert NO_HEADERS.fields + added == added;
    var printed := [PrintRequestLine(r)] + PrintFields(added);
    JoinBulk(lines);
    JoinBulk(printed);
    FirstBulk(lines);
    FirstBulk(printed);
    assert printed[1..] == PrintFields(added);
  }

  lemma FirstBulk(lines: seq<string>)
    requires lines != []
    ensures Bulk(lines) == |lines[0]| + 2 + Bulk(lines[1..])
  {
  }

  /** The parser can return the request on some input. */
  ghost predicate Parsable(r: HttpRequest, limits: Limits) {
    exists buffer :: Next(buffer, limits).RequestReady? && Next(buffer, limits).request == r
  }

  /** For any limits, the requests the parser can return are exactly the well-formed ones whose
      canonical text is within them. */
  lemma ParsableExactly(r: HttpRequest, limits: Limits)
    ensures Parsable(r, limits) <==>
            WellFormed(r) && |PrintHead(r)| <= limits.maxHeaderBytes && |r.body| <= limits.maxBodyBytes
  {
    hide ParseHead, WellFormed, PrintHead;
    if Parsable(r, limits) {
      var buffer :| Next(buffer, limits).RequestReady? && Next(buffer, limits).request == r;
      ParsedIsWellFormed(buffer, limits);
      var e := Find(buffer, BLANK_LINE, 0).value;
      CanonicalIsShortest(buffer[..e], limits.maxBodyBytes);
      HeadIgnoresBody(ParseHead(buffer[..e], limits.maxBodyBytes).value.request, r.body);
    }
    if WellFormed(r) && |PrintHead(r)| <= limits.maxHeaderBytes && |r.body| <= limits.maxBodyBytes {
      PrintParses(r, limits, "");
      assert Next(Print(r) + "", limits).request == r;
    }
  }

  lemma HeadIgnoresBody(r: HttpRequest, body: string)
    ensures PrintHead(r.(body := body)) == PrintHead(r)
  {
  }
}
