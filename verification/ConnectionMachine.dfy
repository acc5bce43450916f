/** One step of `Connection::serve`, as a function of the connection and of what the kernel and
    the clock answer during the step. Times are nanoseconds of the steady clock. */
module ConnectionMachine {
  import opened Text
  import opened HttpResponse
  import G = RequestGrammar
  import S = StaticFiles
  import Persistence

  // ----------------------------------------------------------------- configuration

  const NANOS_PER_MILLI := 1_000_000
  const NANOS_PER_MICRO := 1_000
  const MICROS_PER_SECOND := 1_000_000
  const READ_SIZE := 4096

  datatype Config = Config(
    readMillis: int, keepAliveMillis: int, writeMillis: int, maxRequests: nat, limits: G.Limits)
  {
    /** What the constructor insists on. */
    predicate Valid() { readMillis > 0 && keepAliveMillis > 0 && writeMillis > 0 && maxRequests != 0 }

    function ReadTime(): int { readMillis * NANOS_PER_MILLI }
    function KeepAliveTime(): int { keepAliveMillis * NANOS_PER_MILLI }
    function WriteTime(): int { writeMillis * NANOS_PER_MILLI }
  }

  datatype State = Reading | Parsing | Writing | Closed

  datatype ReadPhase = Request | KeepAlive

  datatype EndReason =
    | PeerClosed | ConnectionClose | RequestLimit | ParseError | ReadTimeout
    | KeepAliveTimeout | WriteTimeout | ReadError | WriteError

  // --------------------------------------------------------------------- the replies

  ghost function SomeOrder(number: nat, headers: map<string, string>): (order: seq<string>)
    ensures Iterates(headers, order)
  {
    EnumerateIterates(headers);
    Enumerate(headers.Keys)
  }

  /** Iteration orders of the header maps. The order of a hash map depends on its history, so it may
      depend on the number of the reply as well as on the map. */
  type Orders = o: (nat, map<string, string>) -> seq<string> | forall number, m :: Iterates(m, o(number, m))
    ghost witness SomeOrder

  /** Files may change between requests, so the routing of a request may depend on its number. */
  datatype Server = Server(route: (nat, G.HttpRequest) -> HttpResponse, order: Orders)

  /** A response as it is queued: prepared, with its iteration order and its text, and whether it
      keeps the connection open. */
  datatype Reply = Reply(sent: Sent, text: string, keepAlive: bool)

  function ConnectionValue(keepAlive: bool): string { if keepAlive then "keep-alive" else "close" }

  function MakeReply(server: Server, number: nat, r: HttpResponse, version: string, isHead: bool,
                     keepAlive: bool): (reply: Reply)
    ensures reply.keepAlive == keepAlive && reply.text != ""
  {
    var prepared := S.Prepare(r, version, ConnectionValue(keepAlive));
    var order := server.order(number, prepared.headers);
    Reply(Sent(prepared, order, isHead), Serialize(prepared, order), keepAlive)
  }

  const BAD_REQUEST := S.Page(400, "Bad Request", "bad request\n")
  const NOT_IMPLEMENTED := S.Page(501, "Not Implemented", "transfer encoding is not supported\n")
  const REQUEST_TIMEOUT := S.Page(408, "Request Timeout", "request timeout\n")

  /** The `number`-th reply, when the peer is too slow. */
  function TimeoutReply(server: Server, number: nat): Reply {
    MakeReply(server, number, REQUEST_TIMEOUT, REQUEST_TIMEOUT.version, false, false)
  }

  function FaultReply(server: Server, number: nat, kind: G.ErrorKind): Reply {
    var page := if kind == G.UnsupportedTransferEncoding then NOT_IMPLEMENTED else BAD_REQUEST;
    MakeReply(server, number, page, page.version, false, false)
  }

  /** Reply to the `number`-th request: it stays open when the request allows it and the limit
      is not reached. */
  function RequestReply(server: Server, number: nat, request: G.HttpRequest, maxRequests: nat): Reply {
    MakeReply(server, number, server.route(number, request), request.version, request.verb == "HEAD",
              Persistence.ShouldKeepAlive(request) && number < maxRequests)
  }

  // --------------------------------------------------------------------- the machine

  datatype Conn = Conn(
    state: State, buffer: string,
    pending: string, offset: nat, closeAfter: bool, closeReason: EndReason,
    phase: ReadPhase, readDeadline: int, writeDeadline: int,
    reason: EndReason, served: nat, bytesRead: nat, bytesWritten: nat)

  datatype Errno = Interrupted | TryAgain | OtherErrno

  datatype ReadOutcome = Got(bytes: string) | ReadFailed(errno: Errno)
  datatype SendOutcome = Took(count: nat) | SendFailed(errno: Errno)

  /** What one step meets: the clock when it starts, `setsockopt`, `read` or `send`, and the clock
      when it ends. A read returns at most READ_SIZE of the offered bytes, a send at most what is
      left to send. */
  datatype Event = Event(before: int, armed: Option<Errno>, read: ReadOutcome, send: SendOutcome, after: int)

  function Open(fdValid: bool, config: Config, now: int): Conn {
    Conn(if fdValid then Reading else Closed, "", "", 0, false, ConnectionClose,
         Request, now + config.ReadTime(), now,
         if fdValid then PeerClosed else ReadError, 0, 0, 0)
  }

  function Finish(c: Conn, reason: EndReason): Conn { c.(reason := reason, state := Closed) }

  function Queue(c: Conn, reply: Reply, reason: EndReason, config: Config, now: int): Conn {
    c.(pending := reply.text, offset := 0, closeAfter := !reply.keepAlive, closeReason := reason,
       writeDeadline := now + config.WriteTime(), state := Writing)
  }

  function BeginRequest(c: Conn, config: Config, now: int): Conn {
    c.(phase := Request, readDeadline := now + config.ReadTime())
  }

  function BeginKeepAlive(c: Conn, config: Config, now: int): Conn {
    c.(phase := KeepAlive, readDeadline := now + config.KeepAliveTime())
  }

  /** `arm_socket_timeout`: `None` when the timeout was set. */
  function Arm(deadline: int, ev: Event): Option<Errno> {
    if deadline <= ev.before then Some(TryAgain) else ev.armed
  }

  function Delivered(bytes: string): string { if |bytes| > READ_SIZE then bytes[..READ_SIZE] else bytes }

  function Transferred(c: Conn, count: nat): nat
    requires c.offset <= |c.pending|
  {
    if count > |c.pending| - c.offset then |c.pending| - c.offset else count
  }

  /** A deadline while reading: an idle connection closes, a started request is told. */
  function ReadExpired(c: Conn, config: Config, server: Server, now: int): Conn {
    if c.phase == KeepAlive then Finish(c, KeepAliveTimeout)
    else Queue(c, TimeoutReply(server, c.served + 1), ReadTimeout, config, now)
  }

  function ReadStep(c: Conn, config: Config, server: Server, ev: Event): Conn {
    match Arm(c.readDeadline, ev)
    case Some(TryAgain) => ReadExpired(c, config, server, ev.after)
    case Some(_) => Finish(c, ReadError)
    case None =>
      match ev.read
      case ReadFailed(Interrupted) => c
      case ReadFailed(TryAgain) => ReadExpired(c, config, server, ev.after)
      case ReadFailed(OtherErrno) => Finish(c, ReadError)
      case Got(bytes) =>
        if bytes == "" then Finish(c, PeerClosed) else
        var data := Delivered(bytes);
        var c1 := if c.phase == KeepAlive then BeginRequest(c, config, ev.after) else c;
        c1.(bytesRead := c.bytesRead + |data|, buffer := c.buffer + data, state := Parsing)
  }

  function ParseStep(c: Conn, config: Config, server: Server, ev: Event): Conn {
    var c1 := if c.phase == KeepAlive && c.buffer != "" then BeginRequest(c, config, ev.before) else c;
    match G.Next(c.buffer, config.limits)
    case NeedMoreData => c1.(state := Reading)
    case Error(fault) => Queue(c1, FaultReply(server, c.served + 1, fault.Kind()), ParseError, config, ev.after)
    case RequestReady(request, consumed) =>
      var number := c.served + 1;
      var reason := if number >= config.maxRequests then RequestLimit else ConnectionClose;
      Queue(c1.(buffer := c.buffer[consumed..], served := number),
            RequestReply(server, number, request, config.maxRequests), reason, config, ev.after)
  }

  function WriteStep(c: Conn, config: Config, ev: Event): Conn
    requires c.offset <= |c.pending|
  {
    match Arm(c.writeDeadline, ev)
    case Some(TryAgain) => Finish(c, WriteTimeout)
    case Some(_) => Finish(c, WriteError)
    case None =>
      match ev.send
      case SendFailed(Interrupted) => c
      case SendFailed(TryAgain) => Finish(c, WriteTimeout)
      case SendFailed(OtherErrno) => Finish(c, WriteError)
      case Took(count) =>
        var n := Transferred(c, count);
        if n == 0 then Finish(c, WriteError) else
        var c1 := c.(offset := c.offset + n, bytesWritten := c.bytesWritten + n);
        if c1.offset < |c.pending| then c1 else
        var c2 := c1.(pending := "", offset := 0);
        if c.closeAfter then Finish(c2, c.closeReason)
        else BeginKeepAlive(c2, config, ev.after).(state := Parsing)
  }

  function Step(c: Conn, config: Config, server: Server, ev: Event): Conn
    requires c.offset <= |c.pending|
  {
    match c.state
    case Reading => ReadStep(c, config, server, ev)
    case Parsing => ParseStep(c, config, server, ev)
    case Writing => WriteStep(c, config, ev)
    case Closed => c
  }

  // ----------------------------------------------------------------------- the clock

  /** `timeval` armed for a remaining time: whole microseconds, at least one. */
  function ArmedMicros(remaining: int): int
    requires remaining > 0
  {
    var t := remaining / NANOS_PER_MICRO;
    if t <= 0 then 1 else t
  }

  datatype TimeVal = TimeVal(seconds: int, micros: int)

  function ToTimeVal(micros: int): TimeVal {
    TimeVal(micros / MICROS_PER_SECOND, micros % MICROS_PER_SECOND)
  }

  /** The armed value is never zero (zero would mean no timeout), splits the truncated time
      exactly, and overshoots the deadline by less than a microsecond, only at its very end. */
  lemma ArmedTimeVal(remaining: int)
    requires remaining > 0
    ensures var v := ToTimeVal(ArmedMicros(remaining));
            var t := v.seconds * MICROS_PER_SECOND + v.micros;
            && 0 <= v.seconds && 0 <= v.micros < MICROS_PER_SECOND
            && (v.seconds > 0 || v.micros > 0)
            && t == ArmedMicros(remaining)
            && (remaining >= NANOS_PER_MICRO ==>
                  t * NANOS_PER_MICRO <= remaining < t * NANOS_PER_MICRO + NANOS_PER_MICRO)
            && (remaining < NANOS_PER_MICRO ==> t == 1)
            && t * NANOS_PER_MICRO < remaining + NANOS_PER_MICRO
  {
  }
}
