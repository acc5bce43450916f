/** `HttpParser` as the program runs it: one buffer, index loops, a line cursor. */
module HttpParser {
  import opened Text
  import opened RequestGrammar

  method ToLowerAscii(input: string) returns (output: string)
    ensures output == Lower(input)
  {
    output := "";
    for i := 0 to |input|
      invariant output == Lower(input[..i])
    {
      assert input[..i + 1][..i] == input[..i];
      output := output + [LowerChar(input[i])];
    }
    assert input[..|input|] == input;
  }

  /** Two cursors walk inwards; the text between them is what Trim keeps. */
  method TrimOws(input: string) returns (r: string)
    ensures r == Trim(input)
  {
    var begin := 0;
    while begin < |input| && IsOws(input[begin])
      invariant begin <= |input| && AllOws(input[..begin])
    {
      begin := begin + 1;
    }
    var end := |input|;
    while end > begin && IsOws(input[end - 1])
      invariant begin <= end <= |input| && AllOws(input[end..])
    {
      end := end - 1;
    }
    r := input[begin..end];
    assert input == input[..begin] + r + input[end..];
    TrimIs(input[..begin], r, input[end..]);
  }

  method CheckToken(input: string) returns (ok: bool)
    ensures ok <==> IsToken(input)
  {
    if input == "" {
      return false;
    }
    for i := 0 to |input|
      invariant forall j :: 0 <= j < i ==> IsTchar(input[j])
    {
      if !IsTchar(input[i]) {
        return false;
      }
    }
    return true;
  }

  method ReadHeaderLine(line: string) returns (r: Result<HeaderField>)
    ensures r == ParseHeaderLine(line)
  {
    var colon := Find(line, ":", 0);
    if colon.None? || colon.value == 0 {
      return Err(MalformedHeader);
    }
    if IsOws(line[colon.value - 1]) {
      return Err(SpaceBeforeColon);
    }
    var ok := CheckToken(line[..colon.value]);
    if !ok {
      return Err(InvalidHeaderName);
    }
    var name := ToLowerAscii(line[..colon.value]);
    var value := TrimOws(line[colon.value + 1..]);
    return Ok(HeaderField(name, value));
  }

  class HttpParser {
    var buffer: string
    const limits: Limits

    constructor (limits: Limits)
      ensures buffer == "" && this.limits == limits
    {
      buffer := "";
      this.limits := limits;
    }

    method Feed(bytes: string)
      modifies this
      ensures buffer == old(buffer) + bytes
    {
      buffer := buffer + bytes;
    }

    /** Cuts the line at the cursor out of the block; `lineEnd` is where its CRLF starts, and
        `tail` is the text behind it. */
    method LineAt(block: string, lineStart: nat, ghost text: string)
      returns (line: string, lineEnd: Option<nat>, ghost tail: string)
      requires lineStart < |block| && text == block[lineStart..] && NonEmptyLines(SplitLines(text))
      ensures lineEnd.None? ==> SplitLines(text) == [line]
      ensures lineEnd.Some? ==>
                && lineStart <= lineEnd.value && lineEnd.value + 2 < |block|
                && tail == block[lineEnd.value + 2..]
                && SplitLines(text) == [line] + SplitLines(tail)
                && NonEmptyLines(SplitLines(tail))
    {
      lineEnd := Find(block, CRLF, lineStart);
      if lineEnd.None? {
        line := block[lineStart..];
        LastLineAtCursor(block, lineStart, line);
        tail := "";
      } else {
        line := block[lineStart..lineEnd.value];
        tail := block[lineEnd.value + 2..];
        LineAtCursor(block, lineStart, text, tail);
        NonEmptyRest(SplitLines(text), line, SplitLines(tail));
      }
    }

    /** A repeated name is merged when it is `connection` and refused otherwise. */
    method StoreField(h: Head, f: HeaderField) returns (r: Result<Head>)
      ensures r == AddField(h, f)
    {
      if f.name in h.headers {
        if f.name != CONNECTION {
          return Err(DuplicateHeader(f.name));
        }
        return Ok(Head(h.fields + [f], h.headers[f.name := h.headers[f.name] + ", " + f.value]));
      }
      return Ok(Head(h.fields + [f], h.headers[f.name := f.value]));
    }

    /** The line cursor visits exactly the lines after the first. Since none of them is empty,
        the cursor never reaches the end between lines: the loop leaves by return only. */
    method ReadHeaders(block: string) returns (r: Result<Head>)
      requires NonEmptyLines(SplitLines(block)[1..])
      ensures r == ReadHeaderLines(NO_HEADERS, SplitLines(block)[1..])
    {
      hide AddField, ParseHeaderLine, Find, OccursAt;
      var h := NO_HEADERS;
      FindFits(block);
      var requestLineEnd := Find(block, CRLF, 0);
      if requestLineEnd.None? {
        return Ok(h);
      }
      var lineStart := requestLineEnd.value + 2;
      ghost var text := block[lineStart..];
      ghost var expected := ReadHeaderLines(h, SplitLines(text));
      assert SplitLines(block)[1..] == SplitLines(text);
      TextIsNotEmpty(text);
      while lineStart < |block|
        invariant lineStart < |block| && text == block[lineStart..]
        invariant NonEmptyLines(SplitLines(text))
        invariant expected == ReadHeaderLines(h, SplitLines(text))
        decreases |block| - lineStart
      {
        var line, lineEnd, tail := LineAt(block, lineStart, text);
        ReadOneLine(h, line, if lineEnd.None? then [] else SplitLines(tail));
        var f := ReadHeaderLine(line);
        if f.Err? {
          return Err(f.fault);
        }
        var stored := StoreField(h, f.value);
        if stored.Err? {
          return Err(stored.fault);
        }
        h := stored.value;
        if lineEnd.None? {
          return Ok(h);
        }
        lineStart, text := lineEnd.value + 2, tail;
      }
      assert false;
      return Ok(h);
    }

    method ReadHead(block: string) returns (r: Result<ParsedHead>)
      requires NonEmptyLines(SplitLines(block)[1..])
      ensures r == ParseHead(block, limits.maxBodyBytes)
    {
      var requestLineEnd := Find(block, CRLF, 0);
      var first := ParseRequestLine(if requestLineEnd.None? then block else block[..requestLineEnd.value]);
      if first.Err? {
        return Err(first.fault);
      }
      var head := ReadHeaders(block);
      if head.Err? {
        return Err(head.fault);
      }
      var length := Framing(first.value.version, head.value.headers, limits.maxBodyBytes);
      if length.Err? {
        return Err(length.fault);
      }
      var request := HttpRequest(first.value.verb, first.value.target, first.value.version,
                                 head.value.headers, head.value.fields, "");
      return Ok(ParsedHead(request, length.value));
    }

    /** Refines RequestGrammar.Next and erases exactly the bytes it says were consumed. */
    method Next() returns (r: Outcome)
      modifies this
      ensures r == RequestGrammar.Next(old(buffer), limits)
      ensures buffer == if r.RequestReady? then old(buffer)[r.consumed..] else old(buffer)
    {
      hide ParseHead;
      var headerEnd := Find(buffer, BLANK_LINE, 0);
      if headerEnd.None? {
        if |buffer| > limits.maxHeaderBytes {
          return Error(HeadersTooLarge);
        }
        return NeedMoreData;
      }
      if headerEnd.value > limits.maxHeaderBytes {
        return Error(HeadersTooLarge);
      }
      HeadLinesNonEmpty(buffer, headerEnd.value);
      var head := ReadHead(buffer[..headerEnd.value]);
      if head.Err? {
        return Error(head.fault);
      }
      var bodyStart := headerEnd.value + 4;
      if |buffer| - bodyStart < head.value.contentLength {
        return NeedMoreData;
      }
      var consumed := bodyStart + head.value.contentLength;
      var request := head.value.request.(body := buffer[bodyStart..consumed]);
      buffer := buffer[consumed..];
      return RequestReady(request, consumed);
    }
  }

  lemma FindFits(block: string)
    ensures var e := Find(block, CRLF, 0); e.Some? ==> e.value + 2 <= |block|
  {
    FindSpec(block, CRLF, 0);
  }

  lemma ReadOneLine(h: Head, line: string, rest: seq<string>)
    ensures var f := ParseHeaderLine(line);
            ReadHeaderLines(h, [line] + rest) ==
            if f.Err? then Err(f.fault)
            else if AddField(h, f.value).Err? then Err(AddField(h, f.value).fault)
            else ReadHeaderLines(AddField(h, f.value).value, rest)
  {
    assert ([line] + rest)[1..] == rest;
  }

  /** The line the cursor cuts out is the first line of what is left. */
  lemma LineAtCursor(block: string, lineStart: nat, rest: string, tail: string)
    requires lineStart <= |block| && rest == block[lineStart..]
    requires NonEmptyLines(SplitLines(rest))
    requires var f := Find(block, CRLF, lineStart); f.Some? && tail == block[f.value + 2..]
    ensures var e := Find(block, CRLF, lineStart).value;
            SplitLines(rest) == [block[lineStart..e]] + SplitLines(tail) && tail != ""
  {
    hide Find;
    FindSuffix(block, CRLF, lineStart);
    FindSpec(rest, CRLF, 0);
    var k := Find(rest, CRLF, 0).value;
    assert rest[k + 2..] == tail;
    assert rest[..k] == block[lineStart..lineStart + k];
    NonEmptyRest(SplitLines(rest), rest[..k], SplitLines(tail));
    TextIsNotEmpty(tail);
  }

  lemma NonEmptyRest(lines: seq<string>, first: string, rest: seq<string>)
    requires lines == [first] + rest && NonEmptyLines(lines)
    ensures NonEmptyLines(rest)
  {
    forall i | 0 <= i < |rest| ensures rest[i] != "" {
      assert lines[i + 1] == rest[i];
    }
  }

  lemma TextIsNotEmpty(s: string)
    ensures NonEmptyLines(SplitLines(s)) ==> s != ""
  {
    if s == "" {
      assert SplitLines(s)[0] == "";
    }
  }

  lemma LastLineAtCursor(block: string, lineStart: nat, rest: string)
    requires lineStart <= |block| && rest == block[lineStart..]
    requires Find(block, CRLF, lineStart).None?
    ensures SplitLines(rest) == [rest]
  {
    FindSuffix(block, CRLF, lineStart);
  }
}
