/** Response texts, and a client that cuts them apart again. */
module HttpResponse {
  import opened Text
  import G = RequestGrammar
  import R = RequestRoundTrip

  datatype HttpResponse = HttpResponse(
    version: string, statusCode: int, reasonPhrase: string, headers: map<string, string>,
    body: string, contentLength: Option<nat>, suppressBody: bool)
  {
    /** The length written into the response. */
    function AnnouncedLength(): nat { if contentLength.Some? then contentLength.value else |body| }
  }

  // ------------------------------------------------------------------------ numbers

  function Digit(d: nat): char
    requires d < 10
  {
    ('0' as int + d) as char
  }

  function Decimal(n: nat): string {
    if n < 10 then [Digit(n)] else Decimal(n / 10) + [Digit(n % 10)]
  }

  function Signed(n: int): string { if n < 0 then "-" + Decimal(-n) else Decimal(n) }

  /** A printed length reads back as itself. */
  lemma {:induction false} DecimalReads(n: nat)
    ensures Decimal(n) != "" && G.AllDigits(Decimal(n)) && G.Number(Decimal(n)) == n
  {
    if n < 10 {
      assert Decimal(n)[..0] == "";
    } else {
      DecimalReads(n / 10);
      assert Decimal(n)[..|Decimal(n)| - 1] == Decimal(n / 10);
    }
  }

  // ------------------------------------------------------------------ serialisation

  predicate IsContentLength(name: string) { Lower(name) == "content-length" }

  function StatusLine(r: HttpResponse): string {
    r.version + " " + Signed(r.statusCode) + " " + r.reasonPhrase
  }

  function FieldLine(name: string, value: string): string { name + ": " + value }

  /** The iteration visits only names of the map. */
  predicate Covered(headers: map<string, string>, order: seq<string>) {
    forall i :: 0 <= i < |order| ==> order[i] in headers
  }

  predicate Unrepeated(names: seq<string>) { forall i, j :: 0 <= i < j < |names| ==> names[i] != names[j] }

  /** An iteration over the map: every name of it, once. */
  predicate Iterates(headers: map<string, string>, order: seq<string>) {
    && Covered(headers, order)
    && Unrepeated(order)
    && forall name :: name in headers ==> name in order
  }

  /** Some order in which to visit the names. */
  ghost function Enumerate(names: set<string>): (order: seq<string>)
    ensures Unrepeated(order)
    ensures forall name :: name in order <==> name in names
  {
    if names == {} then [] else
    var name :| name in names;
    Enumerate(names - {name}) + [name]
  }

  lemma EnumerateIterates(headers: map<string, string>)
    ensures Iterates(headers, Enumerate(headers.Keys))
  {
  }

  /** The header lines for the names visited so far. */
  function HeaderLines(headers: map<string, string>, order: seq<string>): seq<string>
    requires Covered(headers, order)
  {
    if order == [] then [] else
    var n := |order| - 1;
    HeaderLines(headers, order[..n]) +
    if IsContentLength(order[n]) then [] else [FieldLine(order[n], headers[order[n]])]
  }

  function Lines(r: HttpResponse, order: seq<string>): (lines: seq<string>)
    requires Covered(r.headers, order)
    ensures lines != [] && lines[0] == StatusLine(r)
  {
    [StatusLine(r)] + HeaderLines(r.headers, order) + [FieldLine("Content-Length", Decimal(r.AnnouncedLength()))]
  }

  function Serialize(r: HttpResponse, order: seq<string>): string
    requires Iterates(r.headers, order)
  {
    Join(Lines(r, order)) + BLANK_LINE + if r.suppressBody then "" else r.body
  }

  /** `serialize_response`: every line is written with its own CRLF. */
  method SerializeResponse(r: HttpResponse, order: seq<string>) returns (out: string)
    requires Iterates(r.headers, order)
    ensures out == Serialize(r, order)
  {
    hide Join, Decimal, IsContentLength;
    out := r.version + " " + Signed(r.statusCode) + " " + r.reasonPhrase + CRLF;
    ghost var lines := [StatusLine(r)];
    JoinOne(StatusLine(r));
    for i := 0 to |order|
      invariant lines == [StatusLine(r)] + HeaderLines(r.headers, order[..i])
      invariant out == Join(lines) + CRLF
    {
      assert order[..i + 1][..i] == order[..i];
      if IsContentLength(order[i]) {
        continue;
      }
      var line := order[i] + ": " + r.headers[order[i]];
      JoinLast(lines, line);
      out, lines := out + line + CRLF, lines + [line];
    }
    assert order[..|order|] == order;
    var line := "Content-Length: " + Decimal(r.AnnouncedLength());
    JoinLast(lines, line);
    out, lines := out + line + CRLF, lines + [line];
    out := out + CRLF;
    assert out == Join(Lines(r, order)) + BLANK_LINE by {
      assert line == FieldLine("Content-Length", Decimal(r.AnnouncedLength())) by {
        assert "Content-Length" + ": " == "Content-Length: ";
      }
      assert lines == Lines(r, order);
      assert CRLF + CRLF == BLANK_LINE;
    }
    if !r.suppressBody {
      out := out + r.body;
    }
  }

  lemma JoinOne(line: string)
    ensures Join([line]) == line
  {
  }

  lemma {:induction false} JoinLast(lines: seq<string>, line: string)
    requires lines != []
    ensures Join(lines + [line]) == Join(lines) + CRLF + line
    decreases |lines|
  {
    var all := lines + [line];
    if |lines| == 1 {
      assert all[1..] == [line];
    } else {
      assert all[1..] == lines[1..] + [line];
      JoinLast(lines[1..], line);
    }
  }

  // ------------------------------------------------------------ the reference client

  /** What a client makes of one response. */
  datatype Received = Received(statusLine: string, fields: seq<G.HeaderField>, body: string)

  function ReadField(line: string): Option<G.HeaderField> {
    var c := Find(line, ":", 0);
    if c.None? || c.value + 2 > |line| || line[c.value + 1] != ' ' then None
    else Some(G.HeaderField(line[..c.value], line[c.value + 2..]))
  }

  function ReadFields(lines: seq<string>): Option<seq<G.HeaderField>> {
    if lines == [] then Some([]) else
    var n := |lines| - 1;
    var init := ReadFields(lines[..n]);
    var last := ReadField(lines[n]);
    if init.None? || last.None? then None else Some(init.value + [last.value])
  }

  /** The values of all fields with this name, whatever their case. */
  function Named(fields: seq<G.HeaderField>, key: string): seq<string> {
    if fields == [] then [] else
    var n := |fields| - 1;
    Named(fields[..n], key) + if Lower(fields[n].name) == key then [fields[n].value] else []
  }

  /** Every announced length. */
  function Lengths(fields: seq<G.HeaderField>): seq<string> { Named(fields, "content-length") }

  /** Version, code and reason of a status line. */
  function ReadStatus(line: string): Option<(string, nat, string)> {
    var a := Find(line, " ", 0);
    if a.None? then None else
    var b := Find(line, " ", a.value + 1);
    if b.None? || b.value < a.value + 1 || b.value >= |line| then None else
    var code := line[a.value + 1..b.value];
    if code == "" || !G.AllDigits(code) then None else Some((line[..a.value], G.Number(code), line[b.value + 1..]))
  }

  /** Cuts one response off the stream. The client insists on exactly one length, and knows
      whether it asked with HEAD. */
  function ReadResponse(stream: string, isHead: bool): Option<(Received, string)> {
    var headEnd := Find(stream, BLANK_LINE, 0);
    if headEnd.None? then None else
    var e := headEnd.value;
    var lines := SplitLines(stream[..e]);
    var fields := ReadFields(lines[1..]);
    if fields.None? then None else
    var lengths := Lengths(fields.value);
    if |lengths| != 1 || lengths[0] == "" || !G.AllDigits(lengths[0]) then None else
    var n := if isHead then 0 else G.Number(lengths[0]);
    if |stream| - (e + 4) < n then None else
    Some((Received(lines[0], fields.value, stream[e + 4..e + 4 + n]), stream[e + 4 + n..]))
  }

  /** Cuts a whole stream apart, one response per request sent. */
  function ReadAll(stream: string, heads: seq<bool>): Option<seq<Received>>
    decreases |heads|
  {
    if heads == [] then (if stream == "" then Some([]) else None) else
    var first := ReadResponse(stream, heads[0]);
    if first.None? then None else
    var rest := ReadAll(first.value.1, heads[1..]);
    if rest.None? then None else Some([first.value.0] + rest.value)
  }

  // ------------------------------------------------------- responses a client can read

  ghost predicate CleanField(name: string, value: string) {
    ':' !in name && CrlfFree(name) && CrlfFree(value)
  }

  /** No part of the head contains a line break, and no name a colon. */
  ghost predicate Clean(r: HttpResponse) {
    && CrlfFree(r.version) && CrlfFree(r.reasonPhrase)
    && forall name :: name in r.headers ==> CleanField(name, r.headers[name])
  }

  /** The body that follows is the announced one, or none after HEAD. */
  predicate Framed(r: HttpResponse, isHead: bool) {
    r.suppressBody == isHead && (isHead || r.AnnouncedLength() == |r.body|)
  }

  ghost function Fields(headers: map<string, string>, order: seq<string>): seq<G.HeaderField>
    requires Covered(headers, order)
  {
    if order == [] then [] else
    var n := |order| - 1;
    Fields(headers, order[..n]) +
    if IsContentLength(order[n]) then [] else [G.HeaderField(order[n], headers[order[n]])]
  }

  ghost function LengthField(n: nat): G.HeaderField { G.HeaderField("Content-Length", Decimal(n)) }

  /** What the client should receive. */
  ghost function View(r: HttpResponse, order: seq<string>): Received
    requires Iterates(r.headers, order)
  {
    Received(StatusLine(r), Fields(r.headers, order) + [LengthField(r.AnnouncedLength())],
             if r.suppressBody then "" else r.body)
  }

  // -------------------------------------------------------------------------- proofs

  lemma FieldLineReads(name: string, value: string)
    requires ':' !in name
    ensures ReadField(FieldLine(name, value)) == Some(G.HeaderField(name, value))
  {
    var line := FieldLine(name, value);
    FindCharIs(line, ':', 0, |name|);
    assert line[..|name|] == name && line[|name| + 2..] == value;
  }

  lemma FieldLineIsLine(name: string, value: string)
    requires CleanField(name, value)
    ensures CrlfFree(FieldLine(name, value)) && FieldLine(name, value) != ""
  {
    R.NoReturnNoCrlf(": ");
    R.CrlfFreeConcat(name, ": ");
    R.CrlfFreeConcat(name + ": ", value);
  }

  lemma DigitsCrlfFree(n: int)
    ensures CrlfFree(Signed(n)) && Signed(n) != ""
  {
    DecimalReads(if n < 0 then -n else n);
    R.NoReturnNoCrlf(Signed(n));
  }

  lemma StatusLineIsLine(r: HttpResponse)
    requires CrlfFree(r.version) && CrlfFree(r.reasonPhrase)
    ensures CrlfFree(StatusLine(r))
  {
    R.NoReturnNoCrlf(" ");
    DigitsCrlfFree(r.statusCode);
    var code := Signed(r.statusCode);
    R.CrlfFreeConcat(r.version, " ");
    R.NoReturnNoCrlf(code) by { DecimalReads(if r.statusCode < 0 then -r.statusCode else r.statusCode); }
    R.CrlfFreeConcat(code, " ");
    R.CrlfFreeConcat(code + " ", r.reasonPhrase);
    R.CrlfFreeConcat(r.version + " ", code + " " + r.reasonPhrase);
    assert StatusLine(r) == (r.version + " ") + (code + " " + r.reasonPhrase);
  }

  /** The client learns version, code and reason. */
  lemma StatusReads(r: HttpResponse)
    requires ' ' !in r.version && r.statusCode >= 0
    ensures ReadStatus(StatusLine(r)) == Some((r.version, r.statusCode, r.reasonPhrase))
  {
    hide Find, Decimal;
    var line, code := StatusLine(r), Decimal(r.statusCode);
    DecimalReads(r.statusCode);
    var a, b := |r.version|, |r.version| + 1 + |code|;
    StatusParts(r.version, code, r.reasonPhrase, line);
    FindCharIs(line, ' ', 0, a);
    FindCharIs(line, ' ', a + 1, b);
  }

  lemma StatusParts(version: string, code: string, reason: string, line: string)
    requires line == version + " " + code + " " + reason && G.AllDigits(code)
    ensures var a, b := |version|, |version| + 1 + |code|;
            && b < |line| && line[a] == ' ' && line[b] == ' '
            && (forall j :: 0 <= j < a ==> line[j] == version[j])
            && (forall j :: a + 1 <= j < b ==> line[j] != ' ')
            && line[..a] == version && line[a + 1..b] == code && line[b + 1..] == reason
  {
    var a, b := |version|, |version| + 1 + |code|;
    assert forall j :: a + 1 <= j < b ==> line[j] == code[j - a - 1];
  }

  ghost predicate GoodOrder(r: HttpResponse, order: seq<string>) {
    Clean(r) && Iterates(r.headers, order)
  }

  ghost predicate AreLines(lines: seq<string>) {
    forall i :: 0 <= i < |lines| ==> CrlfFree(lines[i]) && lines[i] != ""
  }

  lemma {:induction false} HeaderLinesAreLines(r: HttpResponse, order: seq<string>)
    requires Clean(r) && Covered(r.headers, order)
    ensures AreLines(HeaderLines(r.headers, order))
  {
    hide CrlfFree, IsContentLength, FieldLine;
    if order != [] {
      var name, init := order[|order| - 1], order[..|order| - 1];
      HeaderLinesAreLines(r, init);
      assert CleanField(name, r.headers[name]);
      FieldLineIsLine(name, r.headers[name]);
    }
  }

  lemma {:induction false} HeaderLinesRead(r: HttpResponse, order: seq<string>)
    requires Clean(r) && Covered(r.headers, order)
    ensures ReadFields(HeaderLines(r.headers, order)) == Some(Fields(r.headers, order))
  {
    hide CrlfFree, ReadField, IsContentLength, FieldLine;
    if order != [] {
      var name, init := order[|order| - 1], order[..|order| - 1];
      HeaderLinesRead(r, init);
      var lines, fields := HeaderLines(r.headers, init), Fields(r.headers, init);
      if IsContentLength(name) {
        assert lines + [] == lines && fields + [] == fields;
      } else {
        assert CleanField(name, r.headers[name]);
        FieldLineReads(name, r.headers[name]);
        AppendField(lines, FieldLine(name, r.headers[name]), G.HeaderField(name, r.headers[name]));
      }
    }
  }

  /** The map's own length headers are not written. */
  lemma {:induction false} NoOtherLength(headers: map<string, string>, order: seq<string>)
    requires Covered(headers, order)
    ensures Lengths(Fields(headers, order)) == []
  {
    hide IsContentLength;
    if order != [] {
      var name, init := order[|order| - 1], order[..|order| - 1];
      NoOtherLength(headers, init);
      var fields := Fields(headers, init);
      if IsContentLength(name) {
        assert fields + [] == fields;
      } else {
        AppendLength(fields, G.HeaderField(name, headers[name]));
      }
    }
  }

  lemma AppendField(lines: seq<string>, line: string, f: G.HeaderField)
    requires ReadFields(lines).Some? && ReadField(line) == Some(f)
    ensures ReadFields(lines + [line]) == Some(ReadFields(lines).value + [f])
  {
    hide ReadField;
    assert (lines + [line])[..|lines|] == lines;
  }

  lemma AppendNamed(fields: seq<G.HeaderField>, f: G.HeaderField, key: string)
    ensures Named(fields + [f], key) == Named(fields, key) + if Lower(f.name) == key then [f.value] else []
  {
    hide Lower;
    assert (fields + [f])[..|fields|] == fields;
  }

  lemma AppendLength(fields: seq<G.HeaderField>, f: G.HeaderField)
    ensures Lengths(fields + [f]) == Lengths(fields) + if IsContentLength(f.name) then [f.value] else []
  {
    AppendNamed(fields, f, "content-length");
    hide Named, Lower;
  }

  // ---------------------------------------------------------------- which fields arrive

  lemma {:induction false} FieldsVisited(headers: map<string, string>, order: seq<string>, f: G.HeaderField)
    requires Covered(headers, order)
    ensures f in Fields(headers, order) <==>
            f.name in order && f.value == headers[f.name] && !IsContentLength(f.name)
  {
    hide IsContentLength;
    if order != [] {
      var name, init := order[|order| - 1], order[..|order| - 1];
      assert order == init + [name];
      FieldsVisited(headers, init, f);
    }
  }

  ghost predicate OnceEach(fields: seq<G.HeaderField>) {
    forall i, j :: 0 <= i < j < |fields| ==> fields[i].name != fields[j].name
  }

  lemma {:induction false} FieldsOnce(headers: map<string, string>, order: seq<string>)
    requires Covered(headers, order) && Unrepeated(order)
    ensures OnceEach(Fields(headers, order))
  {
    hide IsContentLength;
    if order != [] {
      var name, init := order[|order| - 1], order[..|order| - 1];
      assert order == init + [name];
      FieldsOnce(headers, init);
      forall f | f in Fields(headers, init) ensures f.name != name {
        FieldsVisited(headers, init, f);
      }
    }
  }

  /** The fields that arrive in front of the length are exactly the map's entries, each once, apart
      from its own lengths. */
  lemma FieldsAreHeaders(headers: map<string, string>, order: seq<string>, f: G.HeaderField)
    requires Iterates(headers, order)
    ensures f in Fields(headers, order) <==>
            f.name in headers && f.value == headers[f.name] && !IsContentLength(f.name)
    ensures OnceEach(Fields(headers, order))
  {
    FieldsVisited(headers, order, f);
    FieldsOnce(headers, order);
  }

  lemma LastVisited(headers: map<string, string>, order: seq<string>)
    requires Covered(headers, order) && Unrepeated(order) && order != []
    ensures var last, init := order[|order| - 1], order[..|order| - 1];
            && Covered(headers, init) && Unrepeated(init) && last in headers && last !in init
            && forall name :: name in order <==> name in init || name == last
  {
    assert order == order[..|order| - 1] + [order[|order| - 1]];
  }

  /** A name that no other spelling of shares arrives once, if it is visited. */
  lemma {:induction false} NamedVisited(headers: map<string, string>, order: seq<string>, name: string, key: string)
    requires Covered(headers, order) && Unrepeated(order)
    requires Lower(name) == key && !IsContentLength(name)
    requires forall other :: other in order && Lower(other) == key ==> other == name
    ensures Named(Fields(headers, order), key) == if name in order then [headers[name]] else []
  {
    hide Lower, IsContentLength, Covered, Unrepeated;
    if order != [] {
      var last, init := order[|order| - 1], order[..|order| - 1];
      LastVisited(headers, order);
      NamedVisited(headers, init, name, key);
      var fields := Fields(headers, init);
      if IsContentLength(last) {
        assert fields + [] == fields;
      } else {
        hide Named;
        AppendNamed(fields, G.HeaderField(last, headers[last]), key);
      }
    } else {
      assert Fields(headers, order) == [];
    }
  }

  /** A header whose name the map has in one spelling only arrives exactly once, with its value. */
  lemma HeaderArrives(r: HttpResponse, order: seq<string>, name: string, key: string)
    requires Iterates(r.headers, order) && name in r.headers
    requires Lower(name) == key && key != "content-length"
    requires forall other :: other in r.headers && Lower(other) == key ==> other == name
    ensures Named(View(r, order).fields, key) == [r.headers[name]]
  {
    hide Lower, Fields, Named, Decimal;
    LengthNameIs();
    var fields := Fields(r.headers, order);
    NamedVisited(r.headers, order, name, key);
    AppendNamed(fields, LengthField(r.AnnouncedLength()), key);
    assert [r.headers[name]] + [] == [r.headers[name]];
  }

  lemma LengthNameIs()
    ensures IsContentLength("Content-Length")
  {
    var l, w := Lower("Content-Length"), "content-length";
    assert forall i :: 0 <= i < |w| ==> l[i] == w[i];
  }

  /** All lines behind the status line, with the length last, read back as fields. */
  lemma FieldsRead(r: HttpResponse, order: seq<string>, fields: seq<G.HeaderField>)
    requires GoodOrder(r, order)
    requires fields == Fields(r.headers, order) + [LengthField(r.AnnouncedLength())]
    ensures AreLines(Lines(r, order)[1..]) && ReadFields(Lines(r, order)[1..]) == Some(fields)
    ensures Lengths(fields) == [Decimal(r.AnnouncedLength())]
  {
    hide CrlfFree, ReadField, IsContentLength, Clean, ReadFields, Lengths, HeaderLines, Fields, Decimal, FieldLine;
    var n := r.AnnouncedLength();
    var lines, last := HeaderLines(r.headers, order), FieldLine("Content-Length", Decimal(n));
    HeaderLinesAreLines(r, order);
    HeaderLinesRead(r, order);
    NoOtherLength(r.headers, order);
    assert Lines(r, order)[1..] == lines + [last];
    FieldLineReads("Content-Length", Decimal(n));
    LengthLineIsLine(n);
    AppendField(lines, last, LengthField(n));
    AppendLength(Fields(r.headers, order), LengthField(n));
    LengthNameIs();
  }

  lemma LengthLineIsLine(n: nat)
    ensures CrlfFree(FieldLine("Content-Length", Decimal(n))) && FieldLine("Content-Length", Decimal(n)) != ""
  {
    DecimalReads(n);
    R.NoReturnNoCrlf(Decimal(n));
    R.NoReturnNoCrlf("Content-Length");
    FieldLineIsLine("Content-Length", Decimal(n));
  }

  lemma HeadEnds(r: HttpResponse, order: seq<string>, t: string)
    requires GoodOrder(r, order)
    ensures var head := Join(Lines(r, order));
            Find(head + BLANK_LINE + t, BLANK_LINE, 0) == Some(|head|) && SplitLines(head) == Lines(r, order)
  {
    var lines := Lines(r, order);
    FieldsRead(r, order, Fields(r.headers, order) + [LengthField(r.AnnouncedLength())]);
    StatusLineIsLine(r);
    forall i | 0 <= i < |lines| ensures CrlfFree(lines[i]) && (i > 0 ==> lines[i] != "") {
      if i > 0 {
        assert lines[i] == lines[1..][i - 1];
      }
    }
    BlankLineAfterJoin(lines, t);
    SplitJoin(lines);
  }

  /** What the client does with a stream that starts with this head. */
  lemma ReadOn(lines: seq<string>, fields: seq<G.HeaderField>, length: string, isHead: bool,
               head: string, body: string, rest: string, stream: string)
    requires stream == head + BLANK_LINE + (body + rest)
    requires Find(stream, BLANK_LINE, 0) == Some(|head|) && SplitLines(head) == lines
    requires ReadFields(lines[1..]) == Some(fields) && Lengths(fields) == [length]
    requires length != "" && G.AllDigits(length) && |body| == if isHead then 0 else G.Number(length)
    ensures ReadResponse(stream, isHead) == Some((Received(lines[0], fields, body), rest))
  {
    hide ReadFields, Lengths, SplitLines, Find, G.Number;
    assert stream[..|head|] == head;
    assert stream[|head| + 4..|head| + 4 + |body|] == body;
    assert stream[|head| + 4 + |body|..] == rest;
  }

  /** Self-delimiting: whatever follows, the client reads back exactly this response. */
  lemma ResponseReads(r: HttpResponse, order: seq<string>, isHead: bool, rest: string)
    requires GoodOrder(r, order) && Framed(r, isHead)
    ensures ReadResponse(Serialize(r, order) + rest, isHead) == Some((View(r, order), rest))
  {
    hide Lines, ReadFields, Lengths, SplitLines, Find, G.Number, Clean, Join, Decimal;
    var lines, n := Lines(r, order), r.AnnouncedLength();
    var fields := Fields(r.headers, order) + [LengthField(n)];
    var body := if r.suppressBody then "" else r.body;
    var stream := Serialize(r, order) + rest;
    assert stream == Join(lines) + BLANK_LINE + (body + rest);
    HeadEnds(r, order, body + rest);
    FieldsRead(r, order, fields);
    DecimalReads(n);
    ReadOn(lines, fields, Decimal(n), isHead, Join(lines), body, rest, stream);
  }

  /** A response together with the iteration order its header map happens to have. */
  datatype Sent = Sent(response: HttpResponse, order: seq<string>, isHead: bool)

  ghost predicate Readable(s: Sent) { GoodOrder(s.response, s.order) && Framed(s.response, s.isHead) }

  ghost predicate AllReadable(sent: seq<Sent>) { forall i :: 0 <= i < |sent| ==> Readable(sent[i]) }

  ghost function Stream(sent: seq<Sent>): string
    requires AllReadable(sent)
  {
    if sent == [] then "" else
    assert Readable(sent[0]);
    Serialize(sent[0].response, sent[0].order) + Stream(sent[1..])
  }

  function Heads(sent: seq<Sent>): seq<bool> { seq(|sent|, i requires 0 <= i < |sent| => sent[i].isHead) }

  ghost function Views(sent: seq<Sent>): seq<Received>
    requires AllReadable(sent)
  {
    seq(|sent|, i requires 0 <= i < |sent| => assert Readable(sent[i]); View(sent[i].response, sent[i].order))
  }

  /** A client that knows which requests were HEAD recovers every response of a connection. */
  lemma {:induction false} StreamReads(sent: seq<Sent>)
    requires AllReadable(sent)
    ensures ReadAll(Stream(sent), Heads(sent)) == Some(Views(sent))
    decreases |sent|
  {
    hide ReadResponse, Serialize, View, Clean;
    if sent == [] {
      assert Views(sent) == [];
    } else {
      var s, rest := sent[0], sent[1..];
      StreamReads(rest);
      ResponseReads(s.response, s.order, s.isHead, Stream(rest));
      assert Heads(sent)[1..] == Heads(rest);
      assert Views(sent) == [View(s.response, s.order)] + Views(rest);
    }
  }
}
