/** What a connection has read and sent, over whole runs: the bytes sent are the responses a
    sequential server would give, in order, up to where the connection ended. */
module ConnectionOutput {
  import opened Text
  import opened HttpResponse
  import G = RequestGrammar
  import R = RequestRoundTrip
  import S = StaticFiles
  import C = Chunking
  import P = Persistence
  import opened ConnectionMachine
  import opened ConnectionInvariants

  // -------------------------------------------------------------- requests of a stream

  /** Parsing `stream` from its start yields `requests` and leaves `rest`. */
  ghost predicate Parses(stream: string, requests: seq<G.HttpRequest>, rest: string, limits: G.Limits)
    decreases |requests|
  {
    if requests == [] then rest == stream else
    var r := G.Next(stream, limits);
    r.RequestReady? && r.request == requests[0] && Parses(stream[r.consumed..], requests[1..], rest, limits)
  }

  /** Bytes that arrive later do not change the requests already taken. */
  lemma {:induction false} ParsesMore(
    stream: string, requests: seq<G.HttpRequest>, rest: string, t: string, limits: G.Limits)
    requires Parses(stream, requests, rest, limits)
    ensures Parses(stream + t, requests, rest + t, limits)
    decreases |requests|
  {
    hide G.Next;
    if requests != [] {
      C.ReadyIsStable(stream, t, limits);
      ParsesMore(stream[G.Next(stream, limits).consumed..], requests[1..], rest, t, limits);
    }
  }

  lemma {:induction false} ParsesOneMore(
    stream: string, requests: seq<G.HttpRequest>, rest: string, limits: G.Limits)
    requires Parses(stream, requests, rest, limits) && G.Next(rest, limits).RequestReady?
    ensures var r := G.Next(rest, limits);
            Parses(stream, requests + [r.request], rest[r.consumed..], limits)
    decreases |requests|
  {
    hide G.Next;
    var r := G.Next(rest, limits);
    var all := requests + [r.request];
    if requests == [] {
      assert all[1..] == [];
    } else {
      ParsesOneMore(stream[G.Next(stream, limits).consumed..], requests[1..], rest, limits);
      assert all[1..] == requests[1..] + [r.request];
    }
  }

  // --------------------------------------------------------------------------- history

  /** A connection with everything it has read, sent and queued so far. */
  datatype World = World(
    conn: Conn, received: string, sent: string, replies: seq<Reply>, requests: seq<G.HttpRequest>)

  function NewBytes(c: Conn, ev: Event): string {
    if c.state == Reading && Arm(c.readDeadline, ev).None? && ev.read.Got? then Delivered(ev.read.bytes) else ""
  }

  function SentBytes(c: Conn, ev: Event): string
    requires c.offset <= |c.pending|
  {
    if c.state == Writing && Arm(c.writeDeadline, ev).None? && ev.send.Took?
    then c.pending[c.offset..c.offset + Transferred(c, ev.send.count)] else ""
  }

  /** A read deadline has passed in this step. */
  predicate Expires(c: Conn, ev: Event) {
    var armed := Arm(c.readDeadline, ev);
    armed == Some(TryAgain) || (armed.None? && ev.read == ReadFailed(TryAgain))
  }

  function NewReplies(c: Conn, config: Config, server: Server, ev: Event): seq<Reply> {
    match c.state
    case Reading => if Expires(c, ev) && c.phase == Request then [TimeoutReply(server, c.served + 1)] else []
    case Parsing =>
      (match G.Next(c.buffer, config.limits)
       case NeedMoreData => []
       case Error(fault) => [FaultReply(server, c.served + 1, fault.Kind())]
       case RequestReady(request, _) => [RequestReply(server, c.served + 1, request, config.maxRequests)])
    case _ => []
  }

  function NewRequests(c: Conn, config: Config): seq<G.HttpRequest> {
    var r := G.Next(c.buffer, config.limits);
    if c.state == Parsing && r.RequestReady? then [r.request] else []
  }

  function WorldStep(w: World, config: Config, server: Server, ev: Event): World
    requires w.conn.offset <= |w.conn.pending|
  {
    World(Step(w.conn, config, server, ev),
          w.received + NewBytes(w.conn, ev),
          w.sent + SentBytes(w.conn, ev),
          w.replies + NewReplies(w.conn, config, server, ev),
          w.requests + NewRequests(w.conn, config))
  }

  // ------------------------------------------------------------------------- the ledger

  function Texts(replies: seq<Reply>): string {
    if replies == [] then "" else Texts(replies[..|replies| - 1]) + replies[|replies| - 1].text
  }

  predicate AllKeep(replies: seq<Reply>) {
    forall i :: 0 <= i < |replies| ==> replies[i].keepAlive
  }

  function Init(replies: seq<Reply>): seq<Reply>
    requires replies != []
  {
    replies[..|replies| - 1]
  }

  function Last(replies: seq<Reply>): Reply
    requires replies != []
  {
    replies[|replies| - 1]
  }

  /** The replies a sequential server gives: one per request, numbered from one. */
  predicate Answers(replies: seq<Reply>, requests: seq<G.HttpRequest>, config: Config, server: Server) {
    && |replies| == |requests|
    && forall i :: 0 <= i < |replies| ==>
         replies[i] == RequestReply(server, i + 1, requests[i], config.maxRequests)
  }

  /** A reply that answers no request: the peer was too slow, or sent what does not parse. */
  predicate Farewell(r: Reply, c: Conn, config: Config, server: Server) {
    || (r == TimeoutReply(server, c.served + 1) && c.closeReason == ReadTimeout)
    || (c.closeReason == ParseError
        && var n := G.Next(c.buffer, config.limits); n.Error? && r == FaultReply(server, c.served + 1, n.fault.Kind()))
  }

  /** Requests answered so far, and the farewell if there is one. */
  predicate Booked(w: World, config: Config, server: Server) {
    if |w.replies| == |w.requests| then Answers(w.replies, w.requests, config, server)
    else w.replies != [] && Answers(Init(w.replies), w.requests, config, server)
         && Farewell(Last(w.replies), w.conn, config, server)
  }

  /** The reply being written, and how much of it is out. */
  predicate Underway(c: Conn, sent: string, replies: seq<Reply>) {
    && replies != [] && AllKeep(Init(replies))
    && c.pending == Last(replies).text
    && c.offset < |c.pending|
    && sent == Texts(Init(replies)) + c.pending[..c.offset]
  }

  predicate AllSent(sent: string, replies: seq<Reply>) { sent == Texts(replies) }

  /** What is buffered is not yet a request. */
  predicate Waits(c: Conn, config: Config) { G.Next(c.buffer, config.limits).NeedMoreData? }

  /** The server ends the connection of its own accord, having said so in its last reply. */
  predicate EndedByServer(reason: EndReason) { AnswersRequest(reason) || AnswersNone(reason) }

  /** How the last reply and the reason for closing belong together. */
  predicate Concluded(w: World, config: Config) {
    var c := w.conn;
    if EndedByServer(c.reason) then
      && c.closeReason == c.reason
      && w.replies != [] && AllKeep(Init(w.replies)) && !Last(w.replies).keepAlive
      && (|w.replies| == |w.requests| <==> AnswersRequest(c.reason))
      && (c.reason == ReadTimeout ==> Waits(c, config))
    else AllKeep(w.replies) && |w.replies| == |w.requests| && Waits(c, config)
  }

  predicate WriteFailed(reason: EndReason) { reason == WriteTimeout || reason == WriteError }

  ghost predicate Ledger(w: World, config: Config, server: Server) {
    var c := w.conn;
    && Parses(w.received, w.requests, c.buffer, config.limits)
    && |w.requests| == c.served && |w.received| == c.bytesRead && |w.sent| == c.bytesWritten
    && Booked(w, config, server)
    && match c.state
       case Writing => Underway(w.conn, w.sent, w.replies) && c.closeAfter == !Last(w.replies).keepAlive
                       && (|w.replies| == |w.requests| <==> AnswersRequest(c.closeReason))
                       && (c.closeReason == ReadTimeout ==> Waits(c, config))
       case Closed =>
         if WriteFailed(c.reason) then Underway(w.conn, w.sent, w.replies)
         else AllSent(w.sent, w.replies) && Concluded(w, config)
       case Reading =>
         AllSent(w.sent, w.replies) && AllKeep(w.replies) && |w.replies| == |w.requests| && Waits(c, config)
       case Parsing => AllSent(w.sent, w.replies) && AllKeep(w.replies) && |w.replies| == |w.requests|
  }

  function OpenWorld(fdValid: bool, config: Config, now: int): World {
    World(Open(fdValid, config, now), "", "", [], [])
  }

  lemma OpenLedger(fdValid: bool, config: Config, server: Server, now: int)
    ensures Ledger(OpenWorld(fdValid, config, now), config, server)
  {
  }

  /** Queueing a reply when everything before it is sent and keeps the connection open. */
  lemma QueueUnderway(w: World, reply: Reply, c: Conn)
    requires AllSent(w.sent, w.replies) && AllKeep(w.replies)
    requires c.pending == reply.text && c.offset == 0 && reply.text != ""
    ensures Underway(c, w.sent, w.replies + [reply])
    ensures Init(w.replies + [reply]) == w.replies && Last(w.replies + [reply]) == reply
  {
    var replies := w.replies + [reply];
    assert Init(replies) == w.replies;
    assert c.pending[..0] == "";
    assert w.sent + "" == w.sent;
  }

  // -------------------------------------------------------------------- reading steps

  lemma DataLedger(w: World, config: Config, server: Server, data: string, c: Conn)
    requires Ledger(w, config, server) && w.conn.state == Reading
    requires c.state == Parsing && c.buffer == w.conn.buffer + data && c.served == w.conn.served
    requires c.bytesRead == w.conn.bytesRead + |data| && c.bytesWritten == w.conn.bytesWritten
    ensures Ledger(w.(conn := c, received := w.received + data), config, server)
  {
    hide Parses, Answers, Farewell, Texts, AllKeep, G.Next;
    ParsesMore(w.received, w.requests, w.conn.buffer, data, config.limits);
  }

  lemma ExpiredLedger(w: World, config: Config, server: Server, c: Conn, now: int)
    requires Ledger(w, config, server) && w.conn.state == Reading && w.conn.phase == Request
    requires c == ReadExpired(w.conn, config, server, now)
    ensures Ledger(w.(conn := c, replies := w.replies + [TimeoutReply(server, w.conn.served + 1)]), config, server)
  {
    hide Parses, Answers, MakeReply, Underway, Init, Last, AllKeep, AllSent, G.Next;
    QueueUnderway(w, TimeoutReply(server, w.conn.served + 1), c);
  }

  lemma ClosedLedger(w: World, config: Config, server: Server, c: Conn, reason: EndReason)
    requires Ledger(w, config, server) && w.conn.state == Reading && c == Finish(w.conn, reason)
    requires !WriteFailed(reason) && !EndedByServer(reason)
    ensures Ledger(w.(conn := c), config, server)
  {
    hide Parses, Answers, Farewell, Texts, AllKeep, G.Next;
  }

  lemma ReadLedger(w: World, config: Config, server: Server, ev: Event)
    requires Ledger(w, config, server) && Inv(w.conn, config) && w.conn.state == Reading
    ensures Ledger(WorldStep(w, config, server, ev), config, server)
  {
    hide Ledger, Delivered, G.Next, MakeReply;
    var c, c' := w.conn, Step(w.conn, config, server, ev);
    assert w.sent + "" == w.sent && w.requests + [] == w.requests;
    assert w.replies + [] == w.replies && w.received + "" == w.received;
    var armed := Arm(c.readDeadline, ev);
    if Expires(c, ev) {
      if c.phase == Request {
        ExpiredLedger(w, config, server, c', ev.after);
      } else {
        ClosedLedger(w, config, server, c', KeepAliveTimeout);
      }
    } else if armed.Some? || ev.read == ReadFailed(OtherErrno) {
      ClosedLedger(w, config, server, c', ReadError);
    } else if ev.read.Got? {
      if ev.read.bytes == "" {
        DeliveredNothing();
        ClosedLedger(w, config, server, c', PeerClosed);
      } else {
        DataLedger(w, config, server, Delivered(ev.read.bytes), c');
      }
    }
  }

  lemma DeliveredNothing()
    ensures Delivered("") == ""
  {
  }

  // -------------------------------------------------------------------- parsing steps

  lemma AnswersOneMore(replies: seq<Reply>, requests: seq<G.HttpRequest>, r: G.HttpRequest,
                       config: Config, server: Server)
    requires Answers(replies, requests, config, server)
    ensures Answers(replies + [RequestReply(server, |requests| + 1, r, config.maxRequests)], requests + [r],
                    config, server)
  {
    hide RequestReply;
  }

  lemma RequestLedger(w: World, config: Config, server: Server, c: Conn, reply: Reply)
    requires Ledger(w, config, server) && w.conn.state == Parsing
    requires G.Next(w.conn.buffer, config.limits).RequestReady?
    requires reply == RequestReply(server, w.conn.served + 1, G.Next(w.conn.buffer, config.limits).request,
                                   config.maxRequests)
    requires c.state == Writing && c.pending == reply.text && c.offset == 0 && c.closeAfter == !reply.keepAlive
    requires AnswersRequest(c.closeReason) && c.served == w.conn.served + 1
    requires c.buffer == w.conn.buffer[G.Next(w.conn.buffer, config.limits).consumed..]
    requires c.bytesRead == w.conn.bytesRead && c.bytesWritten == w.conn.bytesWritten
    ensures Ledger(w.(conn := c, replies := w.replies + [reply],
                      requests := w.requests + [G.Next(w.conn.buffer, config.limits).request]), config, server)
  {
    hide Parses, Answers, MakeReply, Underway, Init, Last, AllKeep, AllSent, G.Next, Farewell;
    ParsesOneMore(w.received, w.requests, w.conn.buffer, config.limits);
    AnswersOneMore(w.replies, w.requests, G.Next(w.conn.buffer, config.limits).request, config, server);
    QueueUnderway(w, reply, c);
  }

  lemma FaultLedger(w: World, config: Config, server: Server, c: Conn, reply: Reply)
    requires Ledger(w, config, server) && w.conn.state == Parsing
    requires G.Next(w.conn.buffer, config.limits).Error?
    requires reply == FaultReply(server, w.conn.served + 1, G.Next(w.conn.buffer, config.limits).fault.Kind())
    requires c.state == Writing && c.pending == reply.text && c.offset == 0 && c.closeAfter
    requires c.closeReason == ParseError && c.served == w.conn.served && c.buffer == w.conn.buffer
    requires c.bytesRead == w.conn.bytesRead && c.bytesWritten == w.conn.bytesWritten
    ensures Ledger(w.(conn := c, replies := w.replies + [reply]), config, server)
  {
    hide Parses, Answers, MakeReply, Underway, Init, Last, AllKeep, AllSent, G.Next;
    QueueUnderway(w, reply, c);
  }

  lemma WaitLedger(w: World, config: Config, server: Server, c: Conn)
    requires Ledger(w, config, server) && w.conn.state == Parsing && Waits(w.conn, config)
    requires c.state == Reading && c.served == w.conn.served && c.buffer == w.conn.buffer
    requires c.bytesRead == w.conn.bytesRead && c.bytesWritten == w.conn.bytesWritten
    ensures Ledger(w.(conn := c), config, server)
  {
    hide Parses, Answers, Texts, AllKeep, G.Next;
  }

  lemma ParseLedger(w: World, config: Config, server: Server, ev: Event)
    requires Ledger(w, config, server) && Inv(w.conn, config) && w.conn.state == Parsing
    ensures Ledger(WorldStep(w, config, server, ev), config, server)
  {
    hide Ledger, G.Next, MakeReply;
    var c' := Step(w.conn, config, server, ev);
    assert w.sent + "" == w.sent && w.requests + [] == w.requests;
    assert w.replies + [] == w.replies && w.received + "" == w.received;
    match G.Next(w.conn.buffer, config.limits)
    case NeedMoreData => WaitLedger(w, config, server, c');
    case Error(fault) => FaultLedger(w, config, server, c', FaultReply(server, w.conn.served + 1, fault.Kind()));
    case RequestReady(request, consumed) =>
      RequestLedger(w, config, server, c', RequestReply(server, w.conn.served + 1, request, config.maxRequests));
  }

  // -------------------------------------------------------------------- writing steps

  /** Sending the next bytes of the reply extends what was sent of it. */
  lemma PrefixGrows(text: string, offset: nat, n: nat, before: string)
    requires offset + n <= |text|
    ensures before + text[..offset] + text[offset..offset + n] == before + text[..offset + n]
  {
    assert text[..offset] + text[offset..offset + n] == text[..offset + n];
  }

  lemma PartLedger(w: World, config: Config, server: Server, c: Conn, n: nat)
    requires Ledger(w, config, server) && w.conn.state == Writing
    requires w.conn.offset + n < |w.conn.pending|
    requires c == w.conn.(offset := w.conn.offset + n, bytesWritten := w.conn.bytesWritten + n)
    ensures Ledger(w.(conn := c, sent := w.sent + w.conn.pending[w.conn.offset..w.conn.offset + n]), config, server)
  {
    hide Parses, Answers, Texts, AllKeep, G.Next, FaultReply, TimeoutReply;
    PrefixGrows(w.conn.pending, w.conn.offset, n, Texts(Init(w.replies)));
  }

  /** The whole reply is out. */
  lemma DoneSent(w: World, n: nat)
    requires Underway(w.conn, w.sent, w.replies) && w.conn.offset + n == |w.conn.pending|
    ensures w.sent + w.conn.pending[w.conn.offset..] == Texts(w.replies)
    ensures |w.sent + w.conn.pending[w.conn.offset..]| == |w.sent| + n
  {
    var text := w.conn.pending;
    PrefixGrows(text, w.conn.offset, n, Texts(Init(w.replies)));
    assert text[..|text|] == text && text[w.conn.offset..|text|] == text[w.conn.offset..];
  }

  lemma DoneLedger(w: World, config: Config, server: Server, c: Conn, n: nat)
    requires Ledger(w, config, server) && Inv(w.conn, config) && w.conn.state == Writing
    requires w.conn.offset + n == |w.conn.pending|
    requires c.served == w.conn.served && c.buffer == w.conn.buffer && c.closeReason == w.conn.closeReason
    requires c.bytesRead == w.conn.bytesRead && c.bytesWritten == w.conn.bytesWritten + n
    requires if w.conn.closeAfter then c.state == Closed && c.reason == w.conn.closeReason else c.state == Parsing
    ensures Ledger(w.(conn := c, sent := w.sent + w.conn.pending[w.conn.offset..]), config, server)
  {
    hide Parses, Answers, Texts, G.Next, FaultReply, TimeoutReply;
    DoneSent(w, n);
    if !w.conn.closeAfter {
      KeepAll(w.replies);
    }
  }

  lemma KeepAll(replies: seq<Reply>)
    requires replies != [] && AllKeep(Init(replies)) && Last(replies).keepAlive
    ensures AllKeep(replies)
  {
    forall i | 0 <= i < |replies| ensures replies[i].keepAlive {
      if i < |replies| - 1 {
        assert Init(replies)[i].keepAlive;
      }
    }
  }

  lemma BrokenLedger(w: World, config: Config, server: Server, c: Conn, reason: EndReason)
    requires Ledger(w, config, server) && w.conn.state == Writing
    requires c == Finish(w.conn, reason) && WriteFailed(reason)
    ensures Ledger(w.(conn := c), config, server)
  {
    hide Parses, Answers, Texts, AllKeep, G.Next, FaultReply, TimeoutReply;
  }

  lemma WriteLedger(w: World, config: Config, server: Server, ev: Event)
    requires Ledger(w, config, server) && Inv(w.conn, config) && w.conn.state == Writing
    ensures Ledger(WorldStep(w, config, server, ev), config, server)
  {
    hide Ledger, G.Next;
    var c, c' := w.conn, Step(w.conn, config, server, ev);
    assert w.sent + "" == w.sent && w.requests + [] == w.requests;
    assert w.replies + [] == w.replies && w.received + "" == w.received;
    var armed := Arm(c.writeDeadline, ev);
    if armed.Some? {
      BrokenLedger(w, config, server, c', if armed.value == TryAgain then WriteTimeout else WriteError);
    } else if ev.send.SendFailed? {
      if ev.send.errno != Interrupted {
        BrokenLedger(w, config, server, c', if ev.send.errno == TryAgain then WriteTimeout else WriteError);
      }
    } else {
      var n := Transferred(c, ev.send.count);
      if n == 0 {
        assert c.pending[c.offset..c.offset + n] == "";
        BrokenLedger(w, config, server, c', WriteError);
      } else if c.offset + n < |c.pending| {
        PartLedger(w, config, server, c', n);
      } else {
        assert c.pending[c.offset..c.offset + n] == c.pending[c.offset..];
        DoneLedger(w, config, server, c', n);
      }
    }
  }

  lemma StepLedger(w: World, config: Config, server: Server, ev: Event)
    requires Ledger(w, config, server) && Inv(w.conn, config)
    ensures Ledger(WorldStep(w, config, server, ev), config, server)
    ensures Inv(WorldStep(w, config, server, ev).conn, config)
  {
    StepKeeps(w.conn, config, server, ev);
    hide Ledger, Inv;
    match w.conn.state
    case Reading => ReadLedger(w, config, server, ev);
    case Parsing => ParseLedger(w, config, server, ev);
    case Writing => WriteLedger(w, config, server, ev);
    case Closed =>
      assert w.sent + "" == w.sent && w.requests + [] == w.requests;
      assert w.replies + [] == w.replies && w.received + "" == w.received;
  }

  // --------------------------------------------------------------------------- runs

  ghost function WorldRun(w: World, config: Config, server: Server, env: nat -> Event, k: nat, n: nat): (r: World)
    requires Ledger(w, config, server) && Inv(w.conn, config)
    ensures Ledger(r, config, server)
    ensures r.conn == RunFrom(w.conn, config, server, env, k, n)
    decreases n
  {
    if n == 0 then w else
    StepLedger(w, config, server, env(k));
    WorldRun(WorldStep(w, config, server, env(k)), config, server, env, k + 1, n - 1)
  }

  /** The connection's history after `n` steps: its machine with the bytes and replies exchanged. */
  ghost function History(fdValid: bool, config: Config, server: Server, env: nat -> Event, now: int, n: nat): (w: World)
    requires config.Valid()
    ensures Ledger(w, config, server)
    ensures Inv(Open(fdValid, config, now), config)
    ensures w.conn == RunFrom(Open(fdValid, config, now), config, server, env, 0, n)
  {
    OpenLedger(fdValid, config, server, now);
    OpenInv(fdValid, config, now);
    WorldRun(OpenWorld(fdValid, config, now), config, server, env, 0, n)
  }

  lemma SentIsPrefix(w: World, config: Config, server: Server)
    requires Ledger(w, config, server)
    ensures w.sent <= Texts(w.replies)
    ensures w.conn.state == Closed && WriteFailed(w.conn.reason) ==>
              w.replies != [] && Texts(Init(w.replies)) <= w.sent && |w.sent| < |Texts(w.replies)|
  {
    hide Parses, Booked;
    if Underway(w.conn, w.sent, w.replies) {
      var text := w.conn.pending;
      assert text == text[..w.conn.offset] + text[w.conn.offset..];
      assert Texts(w.replies) == w.sent + text[w.conn.offset..];
    }
  }

  /** Output refinement, for every run against every peer. What is sent is always a prefix of the
      replies to the requests in the bytes received, in order, with at most one farewell behind
      them; it is all of it unless writing failed, and then the last reply is cut short. Every
      reply but the last keeps the connection open. */
  lemma OutputRefinement(fdValid: bool, config: Config, server: Server, env: nat -> Event, now: int, n: nat)
    requires config.Valid()
    ensures var w := History(fdValid, config, server, env, now, n);
            && Parses(w.received, w.requests, w.conn.buffer, config.limits)
            && Booked(w, config, server)
            && |w.requests| == w.conn.served
            && |w.received| == w.conn.bytesRead && |w.sent| == w.conn.bytesWritten
            && w.sent <= Texts(w.replies)
            && (w.replies != [] ==> AllKeep(Init(w.replies)))
            && (w.conn.state == Closed ==>
                  if WriteFailed(w.conn.reason)
                  then w.replies != [] && Texts(Init(w.replies)) <= w.sent && |w.sent| < |Texts(w.replies)|
                  else w.sent == Texts(w.replies)
                       && if EndedByServer(w.conn.reason) then w.replies != [] && !Last(w.replies).keepAlive
                          else AllKeep(w.replies))
  {
    hide Parses, Booked, Texts, Waits, History;
    var w := History(fdValid, config, server, env, now, n);
    SentIsPrefix(w, config, server);
    InitKeeps(w.replies);
  }

  lemma InitKeeps(replies: seq<Reply>)
    ensures replies != [] && AllKeep(replies) ==> AllKeep(Init(replies))
  {
  }

  // ------------------------------------------------------------ no request left behind

  /** What a session sees in a stream is what was taken from its start, and what the rest holds. */
  lemma {:induction false} ParsesDrain(stream: string, requests: seq<G.HttpRequest>, rest: string, limits: G.Limits)
    requires Parses(stream, requests, rest, limits)
    ensures C.Drain(stream, limits) == C.Prepend(requests, C.Drain(rest, limits))
    decreases |requests|
  {
    hide G.Next;
    if requests == [] {
      C.PrependNothing(C.Drain(rest, limits));
    } else {
      var r := G.Next(stream, limits);
      ParsesDrain(stream[r.consumed..], requests[1..], rest, limits);
      assert [requests[0]] + requests[1..] == requests;
      C.PrependAfter(requests[0], requests[1..], C.Drain(rest, limits));
    }
  }

  /** The requests answered are the first ones in the bytes received, and all of them when the peer
      closes, a read fails or times out, or a request is malformed; a malformed one gets the reply its
      kind of fault calls for. */
  ghost predicate AllAnswered(w: World, config: Config, server: Server) {
    var seen := C.Drain(w.received, config.limits).seen;
    && w.requests <= seen.requests
    && (w.conn.state == Closed && !WriteFailed(w.conn.reason) && !AnswersRequest(w.conn.reason) ==>
          && seen.requests == w.requests
          && if w.conn.reason != ParseError then seen.status == C.Waiting
             else seen.status.Failed? && w.replies != []
                  && Last(w.replies) == FaultReply(server, w.conn.served + 1, seen.status.kind))
  }

  lemma LedgerAnswers(w: World, config: Config, server: Server)
    requires Ledger(w, config, server)
    ensures AllAnswered(w, config, server)
  {
    hide Parses, G.Next, Texts, AllKeep, Answers, FaultReply;
    ParsesDrain(w.received, w.requests, w.conn.buffer, config.limits);
    assert w.requests + [] == w.requests;
  }

  /** Nothing that could be answered is passed over. */
  lemma EverythingAnswered(fdValid: bool, config: Config, server: Server, env: nat -> Event, now: int, n: nat)
    requires config.Valid()
    ensures AllAnswered(History(fdValid, config, server, env, now, n), config, server)
  {
    hide Ledger, History, AllAnswered;
    LedgerAnswers(History(fdValid, config, server, env, now, n), config, server);
  }

  // ------------------------------------------- replies depend on the bytes alone

  lemma {:induction false} ParsesPrefix(
    stream: string, a: seq<G.HttpRequest>, restA: string, b: seq<G.HttpRequest>, restB: string, limits: G.Limits)
    requires Parses(stream, a, restA, limits) && Parses(stream, b, restB, limits) && |a| <= |b|
    ensures a <= b
    decreases |a|
  {
    hide G.Next;
    if a != [] {
      ParsesPrefix(stream[G.Next(stream, limits).consumed..], a[1..], restA, b[1..], restB, limits);
    }
  }

  lemma SameLedgerReplies(v: World, w: World, config: Config, server: Server, i: nat)
    requires Ledger(v, config, server) && Ledger(w, config, server) && v.received == w.received
    requires i < |v.requests| && i < |w.requests|
    ensures i < |v.replies| && i < |w.replies| && v.replies[i] == w.replies[i]
  {
    hide G.Next, RequestReply, Farewell, Texts;
    ReplyAt(v, config, server, i);
    ReplyAt(w, config, server, i);
    if |v.requests| <= |w.requests| {
      ParsesPrefix(v.received, v.requests, v.conn.buffer, w.requests, w.conn.buffer, config.limits);
    } else {
      ParsesPrefix(v.received, w.requests, w.conn.buffer, v.requests, v.conn.buffer, config.limits);
    }
  }

  /** Two connections that received the same bytes, cut and timed in any way, give the same reply
      to every request both have answered. */
  lemma SameBytesSameReplies(config: Config, server: Server, valid: bool, env: nat -> Event, now: int, m: nat,
                             valid': bool, env': nat -> Event, now': int, n: nat, i: nat)
    requires config.Valid()
    ensures var v, w := History(valid, config, server, env, now, m), History(valid', config, server, env', now', n);
            v.received == w.received && i < |v.requests| && i < |w.requests| ==>
              i < |v.replies| && i < |w.replies| && v.replies[i] == w.replies[i]
  {
    hide Ledger, History;
    var v, w := History(valid, config, server, env, now, m), History(valid', config, server, env', now', n);
    if v.received == w.received && i < |v.requests| && i < |w.requests| {
      SameLedgerReplies(v, w, config, server, i);
    }
  }

  /** Closed, with everything sent. */
  predicate Ended(w: World) { w.conn.state == Closed && !WriteFailed(w.conn.reason) }

  /** Every request answered was to keep the connection open, except the last one if its answer ended it. */
  lemma EndedKeeps(w: World, config: Config, server: Server, i: nat)
    requires Ledger(w, config, server) && Ended(w) && i < |w.requests|
    ensures RequestReply(server, i + 1, w.requests[i], config.maxRequests).keepAlive <==>
            !(i == |w.requests| - 1 && AnswersRequest(w.conn.reason))
  {
    hide G.Next, RequestReply, Farewell, Texts, Parses, Waits;
    ReplyAt(w, config, server, i);
    if i < |w.replies| - 1 {
      assert w.replies[i] == Init(w.replies)[i];
    } else {
      assert w.replies[i] == Last(w.replies);
    }
  }

  lemma EndedTakes(w: World, config: Config, server: Server)
    requires Ledger(w, config, server) && Ended(w)
    ensures var all := C.Drain(w.received, config.limits).seen.requests;
            w.requests <= all && if AnswersRequest(w.conn.reason) then w.requests != [] else w.requests == all
    ensures AllSent(w.sent, w.replies)
  {
    LedgerAnswers(w, config, server);
    hide Parses, Booked, AllKeep, C.Drain, G.Next, FaultReply;
  }

  /** The bytes received determine how many requests are answered and whether the last answer ends it. */
  lemma SameRequests(v: World, w: World, config: Config, server: Server)
    requires Ledger(v, config, server) && Ledger(w, config, server) && v.received == w.received
    requires Ended(v) && Ended(w)
    ensures v.requests == w.requests
    ensures AnswersRequest(v.conn.reason) <==> AnswersRequest(w.conn.reason)
  {
    hide Ledger, RequestReply, C.Drain, AnswersRequest, AllSent;
    EndedTakes(v, config, server);
    EndedTakes(w, config, server);
    var m, n := |v.requests|, |w.requests|;
    if 0 < m <= n {
      EndedKeeps(v, config, server, m - 1);
      EndedKeeps(w, config, server, m - 1);
    }
    if 0 < n <= m {
      EndedKeeps(v, config, server, n - 1);
      EndedKeeps(w, config, server, n - 1);
    }
  }

  /** The farewell of a connection that is over, if any. */
  ghost function Parting(w: World, config: Config, server: Server): seq<Reply> {
    var status := C.Drain(w.received, config.limits).seen.status;
    if AnswersRequest(w.conn.reason) then []
    else if w.conn.reason == ReadTimeout then [TimeoutReply(server, |w.requests| + 1)]
    else if status.Failed? then [FaultReply(server, |w.requests| + 1, status.kind)]
    else []
  }

  lemma EndedReplies(w: World, config: Config, server: Server)
    requires Ledger(w, config, server) && Ended(w)
    ensures var parting := Parting(w, config, server);
            && |w.replies| == |w.requests| + |parting|
            && (parting != [] ==> w.replies[|w.requests|] == parting[0])
  {
    hide Ledger, FaultReply, TimeoutReply, C.Drain;
    LedgerAnswers(w, config, server);
    EndedFarewell(w, config, server);
  }

  lemma EndedFarewell(w: World, config: Config, server: Server)
    requires Ledger(w, config, server) && Ended(w)
    ensures |w.requests| == w.conn.served && |w.replies| == |w.requests| + if AnswersNone(w.conn.reason) then 1 else 0
    ensures w.conn.reason == ReadTimeout ==> Last(w.replies) == TimeoutReply(server, |w.requests| + 1)
  {
    hide G.Next, FaultReply, TimeoutReply, AllSent, Parses, AllKeep, RequestReply, Waits;
  }

  lemma SameLedgerEnds(v: World, w: World, config: Config, server: Server)
    requires Ledger(v, config, server) && Ledger(w, config, server) && v.received == w.received
    requires Ended(v) && Ended(w) && (v.conn.reason == ReadTimeout <==> w.conn.reason == ReadTimeout)
    ensures v.requests == w.requests && v.replies == w.replies && v.sent == w.sent
  {
    hide Ledger, Texts, C.Drain, FaultReply, TimeoutReply, AnswersRequest;
    SameRequests(v, w, config, server);
    EndedTakes(v, config, server);
    EndedTakes(w, config, server);
    EndedReplies(v, config, server);
    EndedReplies(w, config, server);
    assert Parting(v, config, server) == Parting(w, config, server);
    hide Parting;
    forall i | 0 <= i < |v.replies|
      ensures v.replies[i] == w.replies[i]
    {
      if i < |v.requests| {
        SameLedgerReplies(v, w, config, server, i);
      }
    }
  }

  /** Two connections that are over after the same bytes, cut and timed in any way, have sent the same
      bytes, farewells included, unless one of them ran out of patience. */
  lemma SameBytesSameOutput(config: Config, server: Server, valid: bool, env: nat -> Event, now: int, m: nat,
                            valid': bool, env': nat -> Event, now': int, n: nat)
    requires config.Valid()
    ensures var v, w := History(valid, config, server, env, now, m), History(valid', config, server, env', now', n);
            v.received == w.received && Ended(v) && Ended(w)
            && (v.conn.reason == ReadTimeout <==> w.conn.reason == ReadTimeout) ==>
              v.requests == w.requests && v.replies == w.replies && v.sent == w.sent
  {
    hide Ledger, History;
    var v, w := History(valid, config, server, env, now, m), History(valid', config, server, env', now', n);
    if v.received == w.received && Ended(v) && Ended(w)
       && (v.conn.reason == ReadTimeout <==> w.conn.reason == ReadTimeout) {
      SameLedgerEnds(v, w, config, server);
    }
  }

  lemma ReplyAt(w: World, config: Config, server: Server, i: nat)
    requires Booked(w, config, server) && i < |w.requests|
    ensures i < |w.replies| && w.replies[i] == RequestReply(server, i + 1, w.requests[i], config.maxRequests)
  {
    hide RequestReply, Farewell;
    if |w.replies| != |w.requests| {
      assert Init(w.replies)[i] == w.replies[i];
    }
  }

  // ---------------------------------------------------------------- what a client reads

  /** The connection writes this header itself. */
  predicate NoConnection(r: HttpResponse) { forall name :: name in r.headers ==> Lower(name) != "connection" }

  ghost predicate Serves(server: Server, number: nat, request: G.HttpRequest) {
    var r := server.route(number, request);
    Clean(r) && NoConnection(r) && Framed(r, request.verb == "HEAD")
  }

  /** Every routed response is clean and framed, as those of the static file router are. */
  ghost predicate GoodServer(server: Server) { forall number, request :: Serves(server, number, request) }

  /** The client reads one `Connection` field, with this value. */
  ghost predicate Says(got: Received, keepAlive: bool) {
    Named(got.fields, "connection") == [ConnectionValue(keepAlive)]
  }

  ghost predicate Faithful(r: Reply) {
    && Readable(r.sent) && r.text == Serialize(r.sent.response, r.sent.order)
    && Says(View(r.sent.response, r.sent.order), r.keepAlive)
  }

  lemma ConnectionNameIs()
    ensures Lower("Connection") == "connection"
  {
    var l, w := Lower("Connection"), "connection";
    assert forall i :: 0 <= i < |w| ==> l[i] == w[i];
  }

  lemma ReplySays(r: HttpResponse, version: string, order: seq<string>, keepAlive: bool)
    requires NoConnection(r) && Iterates(S.Prepare(r, version, ConnectionValue(keepAlive)).headers, order)
    ensures Says(View(S.Prepare(r, version, ConnectionValue(keepAlive)), order), keepAlive)
  {
    ConnectionNameIs();
    hide Lower, View;
    HeaderArrives(S.Prepare(r, version, ConnectionValue(keepAlive)), order, "Connection", "connection");
  }

  lemma ValueClean(keepAlive: bool)
    ensures CrlfFree(ConnectionValue(keepAlive))
  {
    hide CrlfFree;
    R.NoReturnNoCrlf(ConnectionValue(keepAlive));
  }

  lemma ReplyFaithful(server: Server, number: nat, r: HttpResponse, version: string, isHead: bool, keepAlive: bool)
    requires Clean(r) && NoConnection(r) && Framed(r, isHead) && CrlfFree(version)
    ensures Faithful(MakeReply(server, number, r, version, isHead, keepAlive))
  {
    hide Clean, CrlfFree, Serialize, Says, NoConnection, View, Iterates, ConnectionValue;
    var prepared := S.Prepare(r, version, ConnectionValue(keepAlive));
    ValueClean(keepAlive);
    S.PrepareClean(r, version, ConnectionValue(keepAlive));
    ReplySays(r, version, server.order(number, prepared.headers), keepAlive);
  }

  lemma PageClean(code: int, reason: string, body: string)
    requires '\r' !in reason
    ensures Clean(S.Page(code, reason, body)) && Framed(S.Page(code, reason, body), false)
    ensures NoConnection(S.Page(code, reason, body))
    ensures CrlfFree(S.Page(code, reason, body).version)
  {
    R.NoReturnNoCrlf(reason);
    S.LiteralsClean();
    S.NoConnectionNames();
    hide CrlfFree, Lower;
  }

  lemma FarewellFaithful(server: Server, number: nat, kind: G.ErrorKind)
    ensures Faithful(TimeoutReply(server, number)) && Faithful(FaultReply(server, number, kind))
  {
    hide MakeReply, Faithful, Clean, Framed, S.Page, NoConnection;
    PageClean(408, "Request Timeout", "request timeout\n");
    PageClean(400, "Bad Request", "bad request\n");
    PageClean(501, "Not Implemented", "transfer encoding is not supported\n");
    ReplyFaithful(server, number, REQUEST_TIMEOUT, REQUEST_TIMEOUT.version, false, false);
    ReplyFaithful(server, number, BAD_REQUEST, BAD_REQUEST.version, false, false);
    ReplyFaithful(server, number, NOT_IMPLEMENTED, NOT_IMPLEMENTED.version, false, false);
  }

  /** A parsed request carries one of the two known versions. */
  lemma {:induction false} ParsedVersions(
    stream: string, requests: seq<G.HttpRequest>, rest: string, limits: G.Limits, i: nat)
    requires Parses(stream, requests, rest, limits) && i < |requests|
    ensures CrlfFree(requests[i].version)
    decreases i
  {
    hide G.Next;
    R.ParsedIsWellFormed(stream, limits);
    if i == 0 {
      R.VersionText(requests[0].version);
      R.NoReturnNoCrlf(requests[0].version);
    } else {
      ParsedVersions(stream[G.Next(stream, limits).consumed..], requests[1..], rest, limits, i - 1);
    }
  }

  lemma BookedFaithful(w: World, config: Config, server: Server, i: nat)
    requires GoodServer(server) && i < |w.replies|
    requires Parses(w.received, w.requests, w.conn.buffer, config.limits) && Booked(w, config, server)
    ensures Faithful(w.replies[i])
  {
    hide G.Next, MakeReply, Faithful, Parses, Serves;
    if i < |w.requests| {
      ReplyAt(w, config, server, i);
      ParsedVersions(w.received, w.requests, w.conn.buffer, config.limits, i);
      assert Serves(server, i + 1, w.requests[i]);
      ServedFaithful(server, i + 1, w.requests[i], config.maxRequests);
    } else {
      var n := G.Next(w.conn.buffer, config.limits);
      FarewellFaithful(server, w.conn.served + 1, if n.Error? then n.fault.Kind() else G.BadRequest);
    }
  }

  lemma ServedFaithful(server: Server, number: nat, request: G.HttpRequest, maxRequests: nat)
    requires Serves(server, number, request) && CrlfFree(request.version)
    ensures Faithful(RequestReply(server, number, request, maxRequests))
  {
    hide MakeReply, Faithful;
    ReplyFaithful(server, number, server.route(number, request), request.version, request.verb == "HEAD",
                  P.ShouldKeepAlive(request) && number < maxRequests);
  }

  function Sents(replies: seq<Reply>): seq<Sent> {
    seq(|replies|, i requires 0 <= i < |replies| => replies[i].sent)
  }

  lemma {:induction false} StreamAppend(sent: seq<Sent>, s: Sent)
    requires AllReadable(sent) && Readable(s)
    ensures AllReadable(sent + [s]) && Stream(sent + [s]) == Stream(sent) + Serialize(s.response, s.order)
    decreases |sent|
  {
    hide Readable, Serialize;
    var all := sent + [s];
    if sent == [] {
      assert all == [s] && all[1..] == [];
    } else {
      StreamAppend(sent[1..], s);
      assert all[1..] == sent[1..] + [s];
    }
  }

  lemma {:induction false} TextsAreStream(replies: seq<Reply>)
    requires forall i :: 0 <= i < |replies| ==> Faithful(replies[i])
    ensures AllReadable(Sents(replies)) && Stream(Sents(replies)) == Texts(replies)
  {
    hide Readable, Serialize, Says, View;
    if replies == [] {
      assert Sents(replies) == [];
    } else {
      var init, last := Init(replies), Last(replies);
      TextsAreStream(init);
      assert Faithful(last);
      StreamAppend(Sents(init), last.sent);
      assert Sents(replies) == Sents(init) + [last.sent];
    }
  }

  /** What the client gets: the responses, each with the one `Connection` field its reply calls for. */
  ghost predicate Receives(got: Option<seq<Received>>, replies: seq<Reply>) {
    && AllReadable(Sents(replies))
    && got == Some(Views(Sents(replies)))
    && forall i :: 0 <= i < |replies| ==> Says(got.value[i], replies[i].keepAlive)
  }

  lemma LedgerReads(w: World, config: Config, server: Server)
    requires GoodServer(server) && Ledger(w, config, server) && w.conn.state == Closed && !WriteFailed(w.conn.reason)
    ensures Receives(ReadAll(w.sent, Heads(Sents(w.replies))), w.replies)
  {
    hide Parses, Booked, Faithful, GoodServer, ReadAll, Heads, AllReadable, Concluded;
    forall i | 0 <= i < |w.replies| ensures Faithful(w.replies[i]) {
      BookedFaithful(w, config, server, i);
    }
    TextsAreStream(w.replies);
    StreamReads(Sents(w.replies));
    ViewsSay(w.replies);
  }

  lemma ViewsSay(replies: seq<Reply>)
    requires AllReadable(Sents(replies)) && forall i :: 0 <= i < |replies| ==> Faithful(replies[i])
    ensures forall i :: 0 <= i < |replies| ==> Says(Views(Sents(replies))[i], replies[i].keepAlive)
  {
    hide Says, Serialize, View, Readable;
    forall i | 0 <= i < |replies| ensures Says(Views(Sents(replies))[i], replies[i].keepAlive) {
      assert Faithful(replies[i]);
    }
  }

  /** Every response says `Connection: keep-alive`, once; if the server ended the connection, the last
      says `close`. */
  ghost predicate Told(got: seq<Received>, ended: bool) {
    && (ended ==> got != [])
    && forall i :: 0 <= i < |got| ==> Says(got[i], !(ended && i == |got| - 1))
  }

  lemma ToldBy(got: seq<Received>, replies: seq<Reply>, ended: bool)
    requires |got| == |replies| && forall i :: 0 <= i < |got| ==> Says(got[i], replies[i].keepAlive)
    requires if ended then replies != [] && AllKeep(Init(replies)) && !Last(replies).keepAlive else AllKeep(replies)
    ensures Told(got, ended)
  {
    hide Says;
    forall i | 0 <= i < |got| ensures Says(got[i], !(ended && i == |got| - 1)) {
      if ended && i < |got| - 1 {
        assert Init(replies)[i].keepAlive;
      }
    }
  }

  /** End to end: unless writing failed, a client that knows which of its requests were HEAD cuts
      the bytes of a closed connection into exactly the responses queued for it, and is told by each
      whether the connection stays open: the last says `close` exactly when the server ended the
      connection of its own accord. */
  lemma ClientReads(fdValid: bool, config: Config, server: Server, env: nat -> Event, now: int, n: nat)
    requires config.Valid() && GoodServer(server)
    ensures var w := History(fdValid, config, server, env, now, n);
            w.conn.state == Closed && !WriteFailed(w.conn.reason) ==>
              var got := ReadAll(w.sent, Heads(Sents(w.replies)));
              Receives(got, w.replies) && Told(got.value, EndedByServer(w.conn.reason))
  {
    hide History, GoodServer, Parses, Booked, Texts, Told, Receives, Waits, ReadAll;
    var w := History(fdValid, config, server, env, now, n);
    if w.conn.state == Closed && !WriteFailed(w.conn.reason) {
      LedgerReads(w, config, server);
      ReceivesTold(ReadAll(w.sent, Heads(Sents(w.replies))), w.replies, EndedByServer(w.conn.reason));
    }
  }

  lemma ReceivesTold(got: Option<seq<Received>>, replies: seq<Reply>, ended: bool)
    requires Receives(got, replies)
    requires if ended then replies != [] && AllKeep(Init(replies)) && !Last(replies).keepAlive else AllKeep(replies)
    ensures Told(got.value, ended)
  {
    hide Says, Told, AllReadable, View;
    ToldBy(got.value, replies, ended);
  }

  // ------------------------------------------------------ what the client learns from each

  lemma {:induction false} ParsedPersistent(
    stream: string, requests: seq<G.HttpRequest>, rest: string, limits: G.Limits, i: nat)
    requires Parses(stream, requests, rest, limits) && i < |requests|
    ensures P.ShouldKeepAlive(requests[i]) <==> P.Persistent(requests[i])
    decreases i
  {
    hide G.Next, P.ShouldKeepAlive, P.Persistent;
    P.PersistenceIsCorrect(stream, limits);
    if i > 0 {
      ParsedPersistent(stream[G.Next(stream, limits).consumed..], requests[1..], rest, limits, i - 1);
    }
  }

  /** The `number`-th request leaves the connection open: its Connection fields allow it, and it is not the
      last one permitted. */
  ghost predicate StaysOpen(request: G.HttpRequest, number: nat, maxRequests: nat) {
    P.Persistent(request) && number < maxRequests
  }

  /** Section 9.3 of RFC 9112, over every run: a reply keeps the connection open exactly when the request it
      answers does, and the limit is given as the reason exactly when it was reached. */
  lemma KeepsOpenExactly(fdValid: bool, config: Config, server: Server, env: nat -> Event, now: int, n: nat)
    requires config.Valid()
    ensures var w := History(fdValid, config, server, env, now, n);
            && |w.replies| >= |w.requests|
            && (forall i :: 0 <= i < |w.requests| ==>
                  (w.replies[i].keepAlive <==> StaysOpen(w.requests[i], i + 1, config.maxRequests)))
            && (w.conn.state == Closed && AnswersRequest(w.conn.reason) ==>
                  (w.conn.reason == RequestLimit <==> |w.requests| == config.maxRequests))
  {
    hide History, Parses, Texts, P.ShouldKeepAlive, P.Persistent, Waits, G.Next;
    var w := History(fdValid, config, server, env, now, n);
    forall i | 0 <= i < |w.requests|
      ensures |w.replies| >= |w.requests|
      ensures w.replies[i].keepAlive <==> StaysOpen(w.requests[i], i + 1, config.maxRequests)
    {
      ReplyAt(w, config, server, i);
      ParsedPersistent(w.received, w.requests, w.conn.buffer, config.limits, i);
    }
  }

  /** What the client reads of an answer: status, body, the headers, the announced length, and whether the
      connection stays open. */
  ghost predicate Shows(got: Received, r: HttpResponse, version: string, isHead: bool, keepAlive: bool) {
    && (r.statusCode >= 0 ==> ReadStatus(got.statusLine) == Some((version, r.statusCode, r.reasonPhrase)))
    && got.body == (if isHead then "" else r.body)
    && (forall name :: name in r.headers && !IsContentLength(name) ==>
          G.HeaderField(name, r.headers[name]) in got.fields)
    && Lengths(got.fields) == [Decimal(r.AnnouncedLength())]
    && Named(got.fields, "connection") == [if keepAlive then "keep-alive" else "close"]
  }

  lemma HeadersShow(r: HttpResponse, version: string, keepAlive: bool, order: seq<string>, name: string)
    requires NoConnection(r) && Iterates(S.Prepare(r, version, ConnectionValue(keepAlive)).headers, order)
    requires name in r.headers && !IsContentLength(name)
    ensures var p := S.Prepare(r, version, ConnectionValue(keepAlive));
            G.HeaderField(name, r.headers[name]) in View(p, order).fields
  {
    ConnectionNameIs();
    hide Lower, Fields, Decimal;
    var p := S.Prepare(r, version, ConnectionValue(keepAlive));
    FieldsAreHeaders(p.headers, order, G.HeaderField(name, r.headers[name]));
  }

  lemma LengthShows(r: HttpResponse, order: seq<string>)
    requires Iterates(r.headers, order)
    ensures Lengths(View(r, order).fields) == [Decimal(r.AnnouncedLength())]
  {
    hide Fields, Decimal, Named, Lower;
    NoOtherLength(r.headers, order);
    AppendLength(Fields(r.headers, order), LengthField(r.AnnouncedLength()));
    LengthNameIs();
  }

  lemma ReplyShows(server: Server, number: nat, r: HttpResponse, version: string, isHead: bool, keepAlive: bool)
    requires NoConnection(r) && r.suppressBody == isHead && ' ' !in version
    ensures var reply := MakeReply(server, number, r, version, isHead, keepAlive);
            Shows(View(reply.sent.response, reply.sent.order), r, version, isHead, keepAlive)
  {
    hide Fields, Decimal, Named, Lower, ReadStatus, Serialize, StatusLine, Lengths;
    var p := S.Prepare(r, version, ConnectionValue(keepAlive));
    var order := server.order(number, p.headers);
    if r.statusCode >= 0 {
      StatusReads(p);
    }
    LengthShows(p, order);
    ReplySays(r, version, order, keepAlive);
    forall name | name in r.headers && !IsContentLength(name)
      ensures G.HeaderField(name, r.headers[name]) in View(p, order).fields
    {
      HeadersShow(r, version, keepAlive, order, name);
    }
  }

  lemma {:induction false} ParsedSpaceFree(
    stream: string, requests: seq<G.HttpRequest>, rest: string, limits: G.Limits, i: nat)
    requires Parses(stream, requests, rest, limits) && i < |requests|
    ensures ' ' !in requests[i].version
    decreases i
  {
    hide G.Next;
    R.ParsedIsWellFormed(stream, limits);
    if i == 0 {
      R.VersionText(requests[0].version);
    } else {
      ParsedSpaceFree(stream[G.Next(stream, limits).consumed..], requests[1..], rest, limits, i - 1);
    }
  }

  /** The page that takes leave of a client: 408 when it was too slow, 501 for a transfer coding, 400 for any
      other malformed request. */
  ghost predicate TakesLeave(got: Received, reason: EndReason, status: C.Status) {
    && ReadStatus(got.statusLine).Some?
    && ReadStatus(got.statusLine).value.1 ==
       (if reason == ReadTimeout then 408
        else if status == C.Failed(G.UnsupportedTransferEncoding) then 501
        else 400)
    && Named(got.fields, "connection") == ["close"]
  }

  lemma PageShows(server: Server, number: nat, code: nat, reason: string, body: string, reply: Reply)
    requires reply == MakeReply(server, number, S.Page(code, reason, body), "HTTP/1.1", false, false)
    ensures var got := View(reply.sent.response, reply.sent.order);
            && ReadStatus(got.statusLine) == Some(("HTTP/1.1", code, reason))
            && Named(got.fields, "connection") == ["close"]
  {
    hide View, ReadStatus, Named, Lower, MakeReply, Lengths, Decimal;
    S.NoConnectionNames();
    ReplyShows(server, number, S.Page(code, reason, body), "HTTP/1.1", false, false);
  }

  lemma LeaveShows(server: Server, number: nat, kind: G.ErrorKind)
    ensures var late, bad := TimeoutReply(server, number), FaultReply(server, number, kind);
            && TakesLeave(View(late.sent.response, late.sent.order), ReadTimeout, C.Waiting)
            && TakesLeave(View(bad.sent.response, bad.sent.order), ParseError, C.Failed(kind))
  {
    hide View, ReadStatus, Named, MakeReply;
    PageShows(server, number, 408, "Request Timeout", "request timeout\n", TimeoutReply(server, number));
    if kind == G.UnsupportedTransferEncoding {
      PageShows(server, number, 501, "Not Implemented", "transfer encoding is not supported\n",
                FaultReply(server, number, kind));
    } else {
      PageShows(server, number, 400, "Bad Request", "bad request\n", FaultReply(server, number, kind));
    }
  }

  /** Each request is shown the answer the router gives it, and the farewell, if there is one, says why. */
  ghost predicate Sees(got: seq<Received>, w: World, config: Config, server: Server) {
    && |w.requests| <= |got| == |w.replies| <= |w.requests| + 1
    && (forall i :: 0 <= i < |w.requests| ==>
          Shows(got[i], server.route(i + 1, w.requests[i]), w.requests[i].version, w.requests[i].verb == "HEAD",
                StaysOpen(w.requests[i], i + 1, config.maxRequests)))
    && (|got| > |w.requests| ==>
          AnswersNone(w.conn.reason)
          && TakesLeave(got[|w.requests|], w.conn.reason, C.Drain(w.received, config.limits).seen.status))
  }

  lemma AnswerShows(w: World, config: Config, server: Server, i: nat)
    requires GoodServer(server) && Ledger(w, config, server) && i < |w.requests|
    ensures i < |w.replies| && Readable(w.replies[i].sent)
    ensures Shows(View(w.replies[i].sent.response, w.replies[i].sent.order), server.route(i + 1, w.requests[i]),
                  w.requests[i].version, w.requests[i].verb == "HEAD",
                  StaysOpen(w.requests[i], i + 1, config.maxRequests))
  {
    hide G.Next, Shows, View, MakeReply, P.ShouldKeepAlive, P.Persistent, Faithful, Parses, Texts, Waits, Readable;
    ReplyAt(w, config, server, i);
    ParsedPersistent(w.received, w.requests, w.conn.buffer, config.limits, i);
    ParsedSpaceFree(w.received, w.requests, w.conn.buffer, config.limits, i);
    assert Serves(server, i + 1, w.requests[i]);
    FaithfulAt(w, config, server, i);
    var r, request := server.route(i + 1, w.requests[i]), w.requests[i];
    ReplyShows(server, i + 1, r, request.version, request.verb == "HEAD",
               P.ShouldKeepAlive(request) && i + 1 < config.maxRequests);
  }

  lemma FaithfulAt(w: World, config: Config, server: Server, i: nat)
    requires GoodServer(server) && Ledger(w, config, server) && i < |w.replies|
    ensures Readable(w.replies[i].sent)
  {
    hide Parses, Booked, GoodServer;
    BookedFaithful(w, config, server, i);
  }

  lemma FarewellShows(w: World, config: Config, server: Server)
    requires GoodServer(server) && Ledger(w, config, server) && Ended(w)
    ensures |w.requests| <= |w.replies| <= |w.requests| + 1
    ensures |w.replies| > |w.requests| ==>
              var last := w.replies[|w.requests|].sent;
              && AnswersNone(w.conn.reason) && Readable(last)
              && TakesLeave(View(last.response, last.order), w.conn.reason,
                            C.Drain(w.received, config.limits).seen.status)
  {
    hide Ledger, GoodServer, FaultReply, TimeoutReply, C.Drain, View, TakesLeave, Clean, Iterates, Framed;
    EndedReplies(w, config, server);
    LedgerAnswers(w, config, server);
    var status := C.Drain(w.received, config.limits).seen.status;
    if |w.replies| > |w.requests| {
      FaithfulAt(w, config, server, |w.requests|);
      LeaveShows(server, |w.requests| + 1, if status.Failed? then status.kind else G.BadRequest);
      LateStatus(View(w.replies[|w.requests|].sent.response, w.replies[|w.requests|].sent.order), status);
    }
  }

  lemma LateStatus(got: Received, status: C.Status)
    ensures TakesLeave(got, ReadTimeout, C.Waiting) ==> TakesLeave(got, ReadTimeout, status)
  {
  }

  /** End to end, against the router itself: unless writing failed, the client of a connection that is over
      reads, for each of its requests in turn, the status, headers, length and body the router answers it
      with, and whether the connection stays open by that request; and then at most one farewell. */
  lemma ClientSees(fdValid: bool, config: Config, server: Server, env: nat -> Event, now: int, n: nat)
    requires config.Valid() && GoodServer(server)
    ensures var w := History(fdValid, config, server, env, now, n);
            Ended(w) ==>
              var got := ReadAll(w.sent, Heads(Sents(w.replies)));
              got.Some? && Sees(got.value, w, config, server)
  {
    hide History, GoodServer, ReadAll, Heads, AllReadable, Shows, TakesLeave, View, Ledger;
    var w := History(fdValid, config, server, env, now, n);
    if Ended(w) {
      LedgerReads(w, config, server);
      FarewellShows(w, config, server);
      var got := ReadAll(w.sent, Heads(Sents(w.replies))).value;
      forall i | 0 <= i < |w.requests|
        ensures Shows(got[i], server.route(i + 1, w.requests[i]), w.requests[i].version, w.requests[i].verb == "HEAD",
                      StaysOpen(w.requests[i], i + 1, config.maxRequests))
      {
        AnswerShows(w, config, server, i);
      }
    }
  }

  /** The static file server is such a server, however its files change between requests. */
  lemma StaticServerIsGood(sites: nat -> S.Site, order: Orders)
    ensures GoodServer(Server((number: nat, request: G.HttpRequest) => S.RouteRequest(request, sites(number)), order))
  {
    hide Clean, S.RouteRequest, Lower;
    var server := Server((number: nat, request: G.HttpRequest) => S.RouteRequest(request, sites(number)), order);
    forall number: nat, request: G.HttpRequest ensures Serves(server, number, request) {
      S.RoutedReadable(request, sites(number));
      S.RoutedNames(request, sites(number));
    }
  }
}
