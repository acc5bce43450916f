/** `Connection` as the program runs it: an object whose methods move it from state to state under
    the `serve` loop. The kernel and the clock answer through a stream of events. */
module Connection {
  import opened Text
  import opened ConnectionMachine
  import opened ConnectionInvariants
  import G = RequestGrammar
  import H = HttpResponse
  import S = StaticFiles
  import P = Persistence
  import HP = HttpParser

  datatype ConnectionResult = ConnectionResult(
    reason: EndReason, requestsServed: nat, bytesRead: nat, bytesWritten: nat)

  class Connection {
    const config: Config
    const parser: HP.HttpParser
    var state: State
    var pendingResponse: string
    var writeOffset: nat
    var closeAfterWrite: bool
    var closeReasonAfterWrite: EndReason
    var readPhase: ReadPhase
    var readDeadline: int
    var writeDeadline: int
    var result: ConnectionResult

    ghost function View(): Conn
      reads this, parser
    {
      Conn(state, parser.buffer, pendingResponse, writeOffset, closeAfterWrite, closeReasonAfterWrite,
           readPhase, readDeadline, writeDeadline,
           result.reason, result.requestsServed, result.bytesRead, result.bytesWritten)
    }

    ghost predicate Valid()
      reads this, parser
    {
      config.Valid() && parser.limits == config.limits && Inv(View(), config)
    }

    constructor (fdValid: bool, config: Config, now: int)
      requires config.Valid()
      ensures this.config == config && Valid() && View() == Open(fdValid, config, now)
      ensures fresh(parser)
    {
      this.config := config;
      parser := new HP.HttpParser(config.limits);
      state := if fdValid then Reading else Closed;
      pendingResponse, writeOffset := "", 0;
      closeAfterWrite, closeReasonAfterWrite := false, ConnectionClose;
      readPhase, readDeadline, writeDeadline := Request, now + config.ReadTime(), now;
      result := ConnectionResult(if fdValid then PeerClosed else ReadError, 0, 0, 0);
      OpenInv(fdValid, config, now);
    }

    method Finish(reason: EndReason)
      modifies this
      ensures View() == ConnectionMachine.Finish(old(View()), reason)
    {
      result := result.(reason := reason);
      state := Closed;
    }

    method BeginRequestTimeout(now: int)
      modifies this
      ensures View() == BeginRequest(old(View()), config, now)
    {
      readPhase, readDeadline := Request, now + config.ReadTime();
    }

    method BeginKeepAliveTimeout(now: int)
      modifies this
      ensures View() == BeginKeepAlive(old(View()), config, now)
    {
      readPhase, readDeadline := KeepAlive, now + config.KeepAliveTime();
    }

    /** The `timeval` handed to `setsockopt` is the one of ArmedTimeVal. */
    method ArmSocketTimeout(deadline: int, ev: Event) returns (failed: Option<Errno>, value: Option<TimeVal>)
      ensures failed == Arm(deadline, ev)
      ensures deadline > ev.before <==> value.Some?
      ensures value.Some? ==> value.value == ToTimeVal(ArmedMicros(deadline - ev.before))
    {
      var remaining := deadline - ev.before;
      if remaining <= 0 {
        return Some(TryAgain), None;
      }
      var timeout := remaining / NANOS_PER_MICRO;
      if timeout <= 0 {
        timeout := 1;
      }
      return ev.armed, Some(TimeVal(timeout / MICROS_PER_SECOND, timeout % MICROS_PER_SECOND));
    }

    method QueueResponse(server: Server, number: nat, response: H.HttpResponse, version: string, isHead: bool,
                         keepAlive: bool, closeReason: EndReason, now: int)
      modifies this
      ensures View() == Queue(old(View()), MakeReply(server, number, response, version, isHead, keepAlive),
                              closeReason, config, now)
    {
      var prepared := S.Prepare(response, version, if keepAlive then "keep-alive" else "close");
      pendingResponse := H.SerializeResponse(prepared, server.order(number, prepared.headers));
      writeOffset := 0;
      closeAfterWrite := !keepAlive;
      closeReasonAfterWrite := closeReason;
      writeDeadline := now + config.WriteTime();
      state := Writing;
    }

    method ExpireRead(server: Server, now: int)
      modifies this
      ensures View() == ReadExpired(old(View()), config, server, now)
    {
      hide MakeReply;
      if readPhase == KeepAlive {
        Finish(KeepAliveTimeout);
      } else {
        QueueResponse(server, result.requestsServed + 1, REQUEST_TIMEOUT, REQUEST_TIMEOUT.version, false, false,
                      ReadTimeout, now);
      }
    }

    method ReadFromSocket(server: Server, ev: Event)
      requires Valid() && state == Reading
      modifies this, parser
      ensures View() == ReadStep(old(View()), config, server, ev)
    {
      hide ReadExpired, Inv;
      var failed, _ := ArmSocketTimeout(readDeadline, ev);
      if failed.Some? {
        if failed.value != TryAgain {
          Finish(ReadError);
        } else {
          ExpireRead(server, ev.after);
        }
        return;
      }
      match ev.read
      case Got(bytes) =>
        if bytes == "" {
          Finish(PeerClosed);
          return;
        }
        var data := Delivered(bytes);
        result := result.(bytesRead := result.bytesRead + |data|);
        if readPhase == KeepAlive {
          BeginRequestTimeout(ev.after);
        }
        parser.Feed(data);
        state := Parsing;
      case ReadFailed(errno) =>
        if errno == Interrupted {
          return;
        }
        if errno == TryAgain {
          ExpireRead(server, ev.after);
          return;
        }
        Finish(ReadError);
    }

    method ParseRequest(server: Server, ev: Event)
      requires Valid() && state == Parsing
      modifies this, parser
      ensures View() == ParseStep(old(View()), config, server, ev)
    {
      hide G.Next, MakeReply, Inv;
      if readPhase == KeepAlive && |parser.buffer| > 0 {
        BeginRequestTimeout(ev.before);
      }
      var r := parser.Next();
      match r
      case NeedMoreData =>
        state := Reading;
      case Error(fault) =>
        var response := if fault.Kind() == G.UnsupportedTransferEncoding then NOT_IMPLEMENTED else BAD_REQUEST;
        QueueResponse(server, result.requestsServed + 1, response, response.version, false, false,
                      ParseError, ev.after);
      case RequestReady(request, _) =>
        result := result.(requestsServed := result.requestsServed + 1);
        var limitReached := result.requestsServed >= config.maxRequests;
        var keepAlive := P.KeepAlive(request);
        QueueResponse(server, result.requestsServed, server.route(result.requestsServed, request),
                      request.version, request.verb == "HEAD", keepAlive && !limitReached,
                      if limitReached then RequestLimit else ConnectionClose, ev.after);
    }

    method WriteToSocket(ev: Event)
      requires Valid() && state == Writing
      modifies this
      ensures View() == WriteStep(old(View()), config, ev)
    {
      var failed, _ := ArmSocketTimeout(writeDeadline, ev);
      if failed.Some? {
        Finish(if failed.value == TryAgain then WriteTimeout else WriteError);
        return;
      }
      match ev.send
      case Took(count) =>
        var remaining := |pendingResponse| - writeOffset;
        var n := if count > remaining then remaining else count;
        if n == 0 {
          Finish(WriteError);
          return;
        }
        writeOffset := writeOffset + n;
        result := result.(bytesWritten := result.bytesWritten + n);
        if writeOffset == |pendingResponse| {
          pendingResponse, writeOffset := "", 0;
          if closeAfterWrite {
            Finish(closeReasonAfterWrite);
          } else {
            BeginKeepAliveTimeout(ev.after);
            state := Parsing;
          }
        }
      case SendFailed(errno) =>
        if errno == Interrupted {
          return;
        }
        Finish(if errno == TryAgain then WriteTimeout else WriteError);
    }

    method Turn(server: Server, ev: Event)
      requires Valid() && state != Closed
      modifies this, parser
      ensures View() == Step(old(View()), config, server, ev)
      ensures Valid()
    {
      hide ReadStep, ParseStep, WriteStep, Inv;
      ghost var c := View();
      StepKeeps(c, config, server, ev);
      match state
      case Reading => ReadFromSocket(server, ev);
      case Parsing => ParseRequest(server, ev);
      case Writing => WriteToSocket(ev);
    }

    /** `serve` returns, having run the machine, unless from some step on every call is interrupted
        before its deadline; by NeverClosesExactly it could not return then. */
    method Serve(server: Server, env: nat -> Event) returns (r: ConnectionResult, ghost n: nat)
      requires Valid() && !SpinsForever(View(), config, server, env, 0)
      modifies this, parser
      ensures Valid() && View() == RunFrom(old(View()), config, server, env, 0, n)
      ensures state == Closed
      ensures r == ConnectionResult(View().reason, View().served, View().bytesRead, View().bytesWritten)
    {
      hide Step, Inv, SpinsForever;
      NeverClosesExactly(View(), config, server, env, 0);
      ghost var last: nat :| ClosedAt(View(), config, server, env, 0, last);
      n := 0;
      var k: nat := 0;
      while state != Closed
        invariant Valid() && n == k <= last
        invariant View() == RunFrom(old(View()), config, server, env, 0, n)
        decreases last - n
      {
        RunSnoc(old(View()), config, server, env, 0, n);
        Turn(server, env(k));
        n, k := n + 1, k + 1;
      }
      r := result;
    }
  }

  /** The constructor refuses timeouts and limits that are not positive. */
  method OpenConnection(fdValid: bool, config: Config, now: int) returns (c: Connection?)
    ensures c != null <==> config.Valid()
    ensures c != null ==> fresh(c) && fresh(c.parser) && c.Valid() && c.config == config
                          && c.View() == Open(fdValid, config, now)
  {
    if config.Valid() {
      c := new Connection(fdValid, config, now);
    } else {
      c := null;
    }
  }
}
