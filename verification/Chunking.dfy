/** How the answer of the parser depends on the way a byte stream is cut into reads.

    A session feeds one chunk at a time and calls `next` until it stops returning requests. The
    first error ends the session, as it does in `Connection`. */
module Chunking {
  import opened Text
  import opened RequestGrammar
  import opened RequestRoundTrip

  datatype Status = Waiting | Failed(kind: ErrorKind)

  /** What an observer sees of a session: the requests in order and how it stands. */
  datatype Seen = Seen(requests: seq<HttpRequest>, status: Status)

  datatype Session = Session(seen: Seen, buffer: string)

  /** Calls `next` until it does not return a request. */
  ghost function Drain(buffer: string, limits: Limits): Session
    decreases |buffer|
  {
    match Next(buffer, limits)
    case NeedMoreData => Session(Seen([], Waiting), buffer)
    case Error(fault) => Session(Seen([], Failed(fault.Kind())), buffer)
    case RequestReady(request, consumed) => After(request, Drain(buffer[consumed..], limits))
  }

  ghost function After(request: HttpRequest, s: Session): Session {
    Session(Seen([request] + s.seen.requests, s.seen.status), s.buffer)
  }

  ghost function Prepend(requests: seq<HttpRequest>, s: Session): Session {
    Session(Seen(requests + s.seen.requests, s.seen.status), s.buffer)
  }

  /** One read: the bytes are fed and the parser is drained, unless the session already failed. */
  ghost function Read(s: Session, chunk: string, limits: Limits): Session {
    if s.seen.status.Failed? then s
    else Prepend(s.seen.requests, Drain(s.buffer + chunk, limits))
  }

  const START := Session(Seen([], Waiting), "")

  ghost function RunFrom(s: Session, chunks: seq<string>, limits: Limits): Session
    decreases |chunks|
  {
    if chunks == [] then s else RunFrom(Read(s, chunks[0], limits), chunks[1..], limits)
  }

  ghost function Run(chunks: seq<string>, limits: Limits): Seen { RunFrom(START, chunks, limits).seen }

  ghost function Concat(chunks: seq<string>): string {
    if chunks == [] then "" else chunks[0] + Concat(chunks[1..])
  }

  // --------------------------------------------------- what more bytes can change

  /** A returned request does not depend on the bytes behind it. */
  lemma ReadyIsStable(p: string, t: string, limits: Limits)
    requires Next(p, limits).RequestReady?
    ensures Next(p + t, limits) == Next(p, limits)
    ensures (p + t)[Next(p, limits).consumed..] == p[Next(p, limits).consumed..] + t
  {
    hide ParseHead;
    var s := p + t;
    FindStable(p, t, BLANK_LINE);
    var e := Find(p, BLANK_LINE, 0).value;
    var n := Next(p, limits).consumed;
    PrefixSlices(p, t, s, e, n);
    PrefixSlices(p, t, s, e + 4, n);
    SameMessage(p, s, e, limits);
  }

  /** Draining after `p` and again after `t` is draining once after both. */
  lemma {:induction false} DrainMore(p: string, t: string, limits: Limits)
    ensures Drain(p + t, limits) ==
            Prepend(Drain(p, limits).seen.requests, Drain(Drain(p, limits).buffer + t, limits))
    decreases |p|
  {
    hide ParseHead;
    var r := Next(p, limits);
    if r.RequestReady? {
      ReadyIsStable(p, t, limits);
      var rest := p[r.consumed..];
      DrainMore(rest, t, limits);
      PrependAfter(r.request, Drain(rest, limits).seen.requests, Drain(Drain(rest, limits).buffer + t, limits));
    } else {
      PrependNothing(Drain(p + t, limits));
    }
  }

  lemma PrependAfter(request: HttpRequest, requests: seq<HttpRequest>, s: Session)
    ensures After(request, Prepend(requests, s)) == Prepend([request] + requests, s)
  {
    assert [request] + (requests + s.seen.requests) == ([request] + requests) + s.seen.requests;
  }

  lemma PrependNothing(s: Session)
    ensures Prepend([], s) == s
  {
    assert [] + s.seen.requests == s.seen.requests;
  }

  // ------------------------------------------------------- where the cut matters

  /** The size test sees the terminator's own bytes, the offset test does not: a terminator at an
      offset in this window passes whole and is refused when a read ends inside it. */
  predicate InWindow(e: nat, limits: Limits) {
    limits.maxHeaderBytes - 2 <= e <= limits.maxHeaderBytes
  }

  ghost predicate FailsAnyway(block: string, limits: Limits) {
    var r := ParseHead(block, limits.maxBodyBytes);
    r.Err? && r.fault.Kind() == BadRequest
  }

  /** No head of the stream ends in the window, except one that is a bad request on its own. */
  ghost predicate Unambiguous(s: string, limits: Limits)
    decreases |s|
  {
    var e := Find(s, BLANK_LINE, 0);
    && (e.Some? && InWindow(e.value, limits) ==> FailsAnyway(s[..e.value], limits))
    && (Next(s, limits).RequestReady? ==> Unambiguous(s[Next(s, limits).consumed..], limits))
  }

  /** An error on a prefix is the same kind of error on the whole unambiguous stream. */
  lemma ErrorIsStable(p: string, t: string, limits: Limits)
    requires Next(p, limits).Error? && Unambiguous(p + t, limits)
    ensures Next(p + t, limits).Error?
    ensures Next(p + t, limits).fault.Kind() == Next(p, limits).fault.Kind()
  {
    hide ParseHead;
    if Find(p, BLANK_LINE, 0).Some? {
      FindStable(p, t, BLANK_LINE);
      var e := Find(p, BLANK_LINE, 0).value;
      assert (p + t)[..e] == p[..e];
    } else if Find(p + t, BLANK_LINE, 0).Some? {
      FindLate(p, t, BLANK_LINE);
    }
  }

  lemma {:induction false} DrainFailed(p: string, t: string, limits: Limits)
    requires Drain(p, limits).seen.status.Failed? && Unambiguous(p + t, limits)
    ensures Drain(p + t, limits).seen == Drain(p, limits).seen
    decreases |p|
  {
    hide ParseHead;
    var r := Next(p, limits);
    if r.RequestReady? {
      ReadyIsStable(p, t, limits);
      DrainFailed(p[r.consumed..], t, limits);
    } else {
      ErrorIsStable(p, t, limits);
    }
  }

  /** The session after some chunks, against draining their concatenation at once. */
  ghost predicate Agrees(s: Session, fed: string, limits: Limits) {
    var d := Drain(fed, limits);
    s.seen == d.seen && (s.seen.status.Waiting? ==> s.buffer == d.buffer)
  }

  lemma ReadAgrees(s: Session, fed: string, chunk: string, tail: string, limits: Limits)
    requires Agrees(s, fed, limits) && Unambiguous(fed + chunk + tail, limits)
    ensures Agrees(Read(s, chunk, limits), fed + chunk, limits)
  {
    hide Drain, Next, Unambiguous;
    if s.seen.status.Waiting? {
      DrainMore(fed, chunk, limits);
    } else {
      UnambiguousPrefix(fed + chunk, tail, limits);
      DrainFailed(fed, chunk, limits);
    }
  }

  /** Cutting bytes off the end cannot make a stream ambiguous. */
  lemma {:induction false} UnambiguousPrefix(p: string, t: string, limits: Limits)
    requires Unambiguous(p + t, limits)
    ensures Unambiguous(p, limits)
    decreases |p|
  {
    hide ParseHead;
    var e := Find(p, BLANK_LINE, 0);
    if e.Some? {
      FindStable(p, t, BLANK_LINE);
      assert (p + t)[..e.value] == p[..e.value];
    }
    if Next(p, limits).RequestReady? {
      ReadyIsStable(p, t, limits);
      UnambiguousPrefix(p[Next(p, limits).consumed..], t, limits);
    }
  }

  lemma {:induction false} RunAgrees(s: Session, fed: string, chunks: seq<string>, limits: Limits)
    requires Agrees(s, fed, limits) && Unambiguous(fed + Concat(chunks), limits)
    ensures Agrees(RunFrom(s, chunks, limits), fed + Concat(chunks), limits)
    decreases |chunks|
  {
    hide Drain, Next, Unambiguous;
    if chunks == [] {
      assert fed + "" == fed;
    } else {
      var tail := Concat(chunks[1..]);
      assert fed + Concat(chunks) == fed + chunks[0] + tail;
      ReadAgrees(s, fed, chunks[0], tail, limits);
      RunAgrees(Read(s, chunks[0], limits), fed + chunks[0], chunks[1..], limits);
    }
  }

  /** An unambiguous stream is seen the same however it is cut. */
  lemma ChunkingIndependence(chunks: seq<string>, limits: Limits)
    requires Unambiguous(Concat(chunks), limits)
    ensures Run(chunks, limits) == Drain(Concat(chunks), limits).seen
  {
    hide ParseHead;
    assert "" + Concat(chunks) == Concat(chunks);
    assert Find("", BLANK_LINE, 0).None?;
    RunAgrees(START, "", chunks, limits);
  }

  /** A caller that kept calling after errors would always end where one big read ends: only
      stopping at the first error makes the cut visible. */
  ghost function RetryFrom(s: Session, chunks: seq<string>, limits: Limits): Session
    decreases |chunks|
  {
    if chunks == [] then s
    else RetryFrom(Prepend(s.seen.requests, Drain(s.buffer + chunks[0], limits)), chunks[1..], limits)
  }

  lemma {:induction false} RetryingIndependence(fed: string, chunks: seq<string>, limits: Limits)
    ensures RetryFrom(Drain(fed, limits), chunks, limits) == Drain(fed + Concat(chunks), limits)
    decreases |chunks|
  {
    hide Drain, Next;
    if chunks == [] {
      assert fed + "" == fed;
    } else {
      DrainMore(fed, chunks[0], limits);
      assert fed + Concat(chunks) == fed + chunks[0] + Concat(chunks[1..]);
      RetryingIndependence(fed + chunks[0], chunks[1..], limits);
    }
  }

  // ---------------------------------------------------------- the window is real

  lemma NoBlankInCut(s: string, e: nat)
    requires Find(s, BLANK_LINE, 0) == Some(e)
    ensures Find(s[..e + 3], BLANK_LINE, 0).None?
  {
    var p, t := s[..e + 3], s[e + 3..];
    assert p + t == s;
    if Find(p, BLANK_LINE, 0).Some? {
      FindStable(p, t, BLANK_LINE);
    }
  }

  /** A read that ends one byte short of a terminator in the window fails there. */
  lemma CutInWindow(s: string, e: nat, limits: Limits)
    requires Find(s, BLANK_LINE, 0) == Some(e) && InWindow(e, limits) && !FailsAnyway(s[..e], limits)
    ensures Drain(s[..e + 3], limits).seen == Seen([], Failed(BadRequest))
    ensures Drain(s, limits).seen != Seen([], Failed(BadRequest))
  {
    hide ParseHead;
    NoBlankInCut(s, e);
  }

  /** Every ambiguous stream has a cut that is seen differently from the whole. */
  lemma {:induction false} CutDisagrees(s: string, limits: Limits) returns (k: nat)
    requires !Unambiguous(s, limits)
    ensures k <= |s| && Drain(s[..k], limits).seen.status == Failed(BadRequest)
    ensures Drain(s[..k], limits).seen != Drain(s, limits).seen
    decreases |s|
  {
    hide Next, Drain, FailsAnyway;
    var e := Find(s, BLANK_LINE, 0);
    if e.Some? && InWindow(e.value, limits) && !FailsAnyway(s[..e.value], limits) {
      CutInWindow(s, e.value, limits);
      k := e.value + 3;
    } else {
      var n := Next(s, limits).consumed;
      var rest := s[n..];
      var j := CutDisagrees(rest, limits);
      CutLater(s, n, rest, j, limits);
      k := n + j;
    }
  }

  lemma CutLater(s: string, n: nat, rest: string, j: nat, limits: Limits)
    requires Next(s, limits).RequestReady? && n == Next(s, limits).consumed
    requires rest == s[n..] && j <= |rest|
    requires Drain(rest[..j], limits).seen.status == Failed(BadRequest)
    requires Drain(rest[..j], limits).seen != Drain(rest, limits).seen
    ensures Drain(s[..n + j], limits).seen.status == Failed(BadRequest)
    ensures Drain(s[..n + j], limits).seen != Drain(s, limits).seen
  {
    hide Next;
    CutBehind(s, n, rest, j, limits);
    AfterInjective(Next(s, limits).request, Drain(rest[..j], limits), Drain(rest, limits));
  }

  lemma AfterInjective(request: HttpRequest, a: Session, b: Session)
    requires a.seen != b.seen
    ensures After(request, a).seen != After(request, b).seen
  {
    assert ([request] + a.seen.requests)[1..] == a.seen.requests;
    assert ([request] + b.seen.requests)[1..] == b.seen.requests;
  }

  /** Cutting behind the first message drains that message and the cut rest. */
  lemma CutBehind(s: string, n: nat, rest: string, j: nat, limits: Limits)
    requires Next(s, limits).RequestReady? && n == Next(s, limits).consumed
    requires rest == s[n..] && j <= |rest|
    ensures Drain(s[..n + j], limits) == After(Next(s, limits).request, Drain(rest[..j], limits))
  {
    hide ParseHead;
    var p, t, c := s[..n], rest[..j], s[..n + j];
    assert c == p + t && c[n..] == t;
    PrefixReady(s, n, limits);
    ReadyIsStable(p, t, limits);
  }

  /** A returned request is already returned when the buffer ends right behind it. */
  lemma PrefixReady(s: string, n: nat, limits: Limits)
    requires Next(s, limits).RequestReady? && n == Next(s, limits).consumed
    ensures Next(s[..n], limits) == Next(s, limits)
  {
    hide ParseHead;
    var p, t := s[..n], s[n..];
    assert p + t == s;
    var e := Find(s, BLANK_LINE, 0).value;
    BlankLineInPrefix(p, t, s, e);
    PrefixSlices(p, t, s, e, n);
    PrefixSlices(p, t, s, e + 4, n);
    SameMessage(s, p, e, limits);
  }

  lemma BlankLineInPrefix(p: string, t: string, s: string, e: nat)
    requires s == p + t && Find(s, BLANK_LINE, 0) == Some(e) && e + 4 <= |p|
    ensures Find(p, BLANK_LINE, 0) == Some(e)
  {
    FindSpec(s, BLANK_LINE, 0);
    OccursInPrefix(p, t, BLANK_LINE, e);
    FindSpec(p, BLANK_LINE, 0);
    FindStable(p, t, BLANK_LINE);
  }

  /** Chunking independence holds for a stream exactly when it is unambiguous. */
  lemma ChunkingExactly(s: string, limits: Limits)
    ensures Unambiguous(s, limits) <==>
            forall chunks :: Concat(chunks) == s ==> Run(chunks, limits) == Drain(s, limits).seen
  {
    hide Drain, Next, Unambiguous;
    if Unambiguous(s, limits) {
      forall chunks | Concat(chunks) == s ensures Run(chunks, limits) == Drain(s, limits).seen {
        ChunkingIndependence(chunks, limits);
      }
    } else {
      var k := CutDisagrees(s, limits);
      var a, b := s[..k], s[k..];
      assert a + b == s;
      TwoChunks(a, b, limits);
      assert Concat([a, b]) == s && Run([a, b], limits) != Drain(s, limits).seen;
    }
  }

  lemma TwoChunks(a: string, b: string, limits: Limits)
    ensures Concat([a, b]) == a + b
    ensures Drain(a, limits).seen.status.Failed? ==> Run([a, b], limits) == Drain(a, limits).seen
  {
    hide Drain, Next;
    assert [a, b][1..] == [b];
    assert Concat([b]) == b + "" == b;
    PrependNothing(Drain(a, limits));
    assert "" + a == a;
    if Drain(a, limits).seen.status.Failed? {
      var s := Read(START, a, limits);
      assert s == Drain(a, limits);
      assert RunFrom(s, [b], limits) == RunFrom(Read(s, b, limits), [], limits);
    }
  }

  /** Every well-formed request whose printed head ends in the window is such a case: whole it
      parses, cut inside its terminator it is refused. */
  lemma WindowIsReal(r: HttpRequest, limits: Limits, rest: string)
    requires WellFormed(r) && |r.body| <= limits.maxBodyBytes
    requires InWindow(|PrintHead(r)|, limits)
    ensures Next(Print(r) + rest, limits) == RequestReady(r, |Print(r)|)
    ensures !Unambiguous(Print(r) + rest, limits)
    ensures exists chunks :: Concat(chunks) == Print(r) + rest
                             && Run(chunks, limits) != Drain(Print(r) + rest, limits).seen
  {
    hide ParseHead, WellFormed, PrintHead, Find, Run, Drain;
    PrintParses(r, limits, rest);
    var s := Print(r) + rest;
    var e := Find(s, BLANK_LINE, 0).value;
    assert s == PrintHead(r) + BLANK_LINE + (r.body + rest);
    PrintedHeadEnds(r, r.body + rest);
    assert !FailsAnyway(s[..e], limits);
    ChunkingExactly(s, limits);
  }

  /** A one-letter method and as many slashes as make the head exactly as long as the limit. */
  function AtTheLimit(limits: Limits): HttpRequest
    requires limits.maxHeaderBytes >= 12
  {
    HttpRequest("G", seq(limits.maxHeaderBytes - 11, _ => '/'), "HTTP/1.0", map[], [], "")
  }

  lemma AtTheLimitIsWellFormed(limits: Limits)
    requires limits.maxHeaderBytes >= 12
    ensures WellFormed(AtTheLimit(limits)) && |PrintHead(AtTheLimit(limits))| == limits.maxHeaderBytes
  {
    var r := AtTheLimit(limits);
    NoHeadersRepresents();
    NoReturnNoCrlf(r.target);
    assert PrintFields([]) == [];
    assert [PrintRequestLine(r)] + [] == [PrintRequestLine(r)];
  }

  /** The shortest head that is not a bad request. */
  lemma ShortHeadsFail(block: string, limits: Limits)
    requires |block| < 12
    ensures FailsAnyway(block, limits)
  {
    hide ReadHeaderLines, Framing, ParseRequestLine;
    SplitLinesRejoin(block);
    var lines := SplitLines(block);
    JoinBulk(lines);
    ShortLinesFail(lines[0]);
  }

  lemma ShortLinesFail(line: string)
    requires |line| < 12
    ensures ParseRequestLine(line).Err? && ParseRequestLine(line).fault.Kind() == BadRequest
  {
    hide Find, IsTchar;
    if ParseRequestLine(line).Ok? {
      LineNotLonger(line);
    }
  }

  /** Under which limits no stream depends on its cuts: those too small for any request. */
  lemma LimitsExactly(limits: Limits)
    ensures (forall s :: Unambiguous(s, limits)) <==> limits.maxHeaderBytes < 12
  {
    hide ParseHead, WellFormed, FailsAnyway;
    if limits.maxHeaderBytes < 12 {
      forall s
        ensures Unambiguous(s, limits)
      {
        var e := Find(s, BLANK_LINE, 0);
        if e.Some? && e.value <= limits.maxHeaderBytes {
          FindSpec(s, BLANK_LINE, 0);
          ShortHeadsFail(s[..e.value], limits);
          FailingHead(s, limits);
        }
      }
    } else {
      var r := AtTheLimit(limits);
      AtTheLimitIsWellFormed(limits);
      WindowIsReal(r, limits, "");
    }
  }

  lemma FailingHead(s: string, limits: Limits)
    requires Find(s, BLANK_LINE, 0).Some? && Find(s, BLANK_LINE, 0).value <= |s|
    requires FailsAnyway(s[..Find(s, BLANK_LINE, 0).value], limits)
    ensures !Next(s, limits).RequestReady?
  {
    hide ParseHead;
  }

  // ----------------------------------------------------------------- conservation

  datatype Call = Feed(bytes: string) | CallNext

  /** The bytes `next` has erased so far and the bytes still buffered. */
  datatype Ledger = Ledger(erased: string, buffer: string)

  ghost function Apply(l: Ledger, call: Call, limits: Limits): Ledger {
    match call
    case Feed(bytes) => l.(buffer := l.buffer + bytes)
    case CallNext =>
      var r := Next(l.buffer, limits);
      if r.RequestReady? then Ledger(l.erased + l.buffer[..r.consumed], l.buffer[r.consumed..]) else l
  }

  ghost function ApplyAll(l: Ledger, calls: seq<Call>, limits: Limits): Ledger
    decreases |calls|
  {
    if calls == [] then l else ApplyAll(Apply(l, calls[0], limits), calls[1..], limits)
  }

  ghost function Fed(calls: seq<Call>): string {
    if calls == [] then "" else
    (if calls[0].Feed? then calls[0].bytes else "") + Fed(calls[1..])
  }

  /** No byte is lost, repeated or reordered by any sequence of feeds and nexts. */
  lemma {:induction false} BytesConserved(l: Ledger, calls: seq<Call>, limits: Limits)
    ensures var l' := ApplyAll(l, calls, limits);
            l'.erased + l'.buffer == l.erased + l.buffer + Fed(calls)
    decreases |calls|
  {
    hide Next;
    if calls == [] {
      assert l.erased + l.buffer + "" == l.erased + l.buffer;
    } else {
      var l1 := Apply(l, calls[0], limits);
      var now := if calls[0].Feed? then calls[0].bytes else "";
      assert l1.erased + l1.buffer == l.erased + l.buffer + now;
      BytesConserved(l1, calls[1..], limits);
      assert l.erased + l.buffer + (now + Fed(calls[1..])) == l.erased + l.buffer + now + Fed(calls[1..]);
    }
  }

  /** What `next` erases is a head without a blank line, the blank line, and the body. */
  lemma MessageBoundary(buffer: string, limits: Limits)
    ensures Next(buffer, limits).RequestReady? ==>
              var r := Next(buffer, limits);
              var e := r.consumed - 4 - |r.request.body|;
              && Find(buffer, BLANK_LINE, 0) == Some(e) && e <= limits.maxHeaderBytes
              && buffer[..r.consumed] == buffer[..e] + BLANK_LINE + r.request.body
  {
    hide ParseHead;
    if Next(buffer, limits).RequestReady? {
      FindSpec(buffer, BLANK_LINE, 0);
      var e := Find(buffer, BLANK_LINE, 0).value;
      var n := Next(buffer, limits).consumed;
      assert buffer[..n] == buffer[..e] + buffer[e..e + 4] + buffer[e + 4..n];
    }
  }
}
