/** What every step of a connection keeps: bounds, phases, deadlines, and the measure that makes
    `serve` stop. */
module ConnectionInvariants {
  import opened Text
  import opened HttpResponse
  import G = RequestGrammar
  import opened ConnectionMachine

  /** Largest buffer the parser can still ask to extend. */
  function WaitBound(config: Config): nat { config.limits.maxHeaderBytes + config.limits.maxBodyBytes + 3 }

  function BufferBound(config: Config): nat { WaitBound(config) + READ_SIZE }

  /** Reasons noted with the reply to a request, and with a reply to something else. */
  predicate AnswersRequest(reason: EndReason) { reason.ConnectionClose? || reason.RequestLimit? }

  predicate AnswersNone(reason: EndReason) { reason.ParseError? || reason.ReadTimeout? }

  /** The bounds that hold between any two steps. A connection only reads while the parser waits,
      so no size subtraction can underflow. */
  predicate Bounded(c: Conn, config: Config) {
    && |c.buffer| <= BufferBound(config)
    && (c.state == Reading ==> |c.buffer| <= WaitBound(config))
    && c.offset <= |c.pending|
    && (c.state == Writing ==> c.offset < |c.pending|)
    && (c.state == Reading || c.state == Parsing ==> c.served < config.maxRequests)
    && c.served <= config.maxRequests
    && (c.state == Writing && !c.closeAfter ==> c.served < config.maxRequests)
    && (AnswersRequest(c.closeReason) || AnswersNone(c.closeReason))
    && (c.state == Writing && AnswersNone(c.closeReason) ==> c.closeAfter && c.served < config.maxRequests)
    && (c.state == Writing && AnswersRequest(c.closeReason) ==>
          c.served > 0 && (c.closeReason == RequestLimit <==> c.served == config.maxRequests))
    && (c.state == Closed && AnswersRequest(c.reason) ==>
          (c.reason == RequestLimit <==> c.served == config.maxRequests))
  }

  /** An idle connection has nothing buffered; after the first response, a connection that waits
      for the rest of a request has part of it. */
  predicate Phased(c: Conn) {
    && (c.state == Reading && c.phase == KeepAlive ==> c.buffer == "")
    && (c.state == Reading && c.phase == Request && c.served > 0 ==> c.buffer != "")
    && (c.state == Parsing && c.phase == Request ==> c.buffer != "")
    && (c.phase == KeepAlive ==> c.served > 0)
    && (c.state == Closed && c.reason == KeepAliveTimeout ==> c.buffer == "")
    && (c.state == Writing && c.served == 0 ==> c.closeAfter)
  }

  predicate Inv(c: Conn, config: Config) { Bounded(c, config) && Phased(c) }

  lemma OpenInv(fdValid: bool, config: Config, now: int)
    requires config.Valid()
    ensures Inv(Open(fdValid, config, now), config)
  {
  }

  lemma ExpiredKeeps(c: Conn, config: Config, server: Server, now: int)
    requires Inv(c, config) && c.state == Reading
    ensures Inv(ReadExpired(c, config, server, now), config)
  {
    hide Serialize, MakeReply;
  }

  lemma ReadKeeps(c: Conn, config: Config, server: Server, ev: Event)
    requires Inv(c, config) && c.state == Reading
    ensures Inv(ReadStep(c, config, server, ev), config)
  {
    hide ReadExpired, Delivered;
    DeliveredSome(ev);
    ExpiredKeeps(c, config, server, ev.after);
  }

  lemma ParseKeeps(c: Conn, config: Config, server: Server, ev: Event)
    requires Inv(c, config) && c.state == Parsing
    ensures Inv(ParseStep(c, config, server, ev), config)
  {
    hide Serialize, MakeReply, G.Next;
  }

  lemma WriteKeeps(c: Conn, config: Config, ev: Event)
    requires Inv(c, config) && c.state == Writing
    ensures Inv(WriteStep(c, config, ev), config)
  {
  }

  lemma StepKeeps(c: Conn, config: Config, server: Server, ev: Event)
    requires Inv(c, config)
    ensures Inv(Step(c, config, server, ev), config)
  {
    hide Inv, ReadStep, ParseStep, WriteStep;
    match c.state
    case Reading => ReadKeeps(c, config, server, ev);
    case Parsing => ParseKeeps(c, config, server, ev);
    case Writing => WriteKeeps(c, config, ev);
    case Closed =>
  }

  // ----------------------------------------------------------------------------- runs

  /** The connection after `n` steps, the first of which meets `env(k)`. */
  ghost function RunFrom(c: Conn, config: Config, server: Server, env: nat -> Event, k: nat, n: nat): (r: Conn)
    requires Inv(c, config)
    ensures Inv(r, config)
    decreases n
  {
    if n == 0 then c else
    StepKeeps(c, config, server, env(k));
    RunFrom(Step(c, config, server, env(k)), config, server, env, k + 1, n - 1)
  }

  /** Bounds and phases over every run against every environment. */
  lemma RunsKeepBounds(fdValid: bool, config: Config, server: Server, env: nat -> Event, now: int, n: nat)
    requires config.Valid()
    ensures Inv(Open(fdValid, config, now), config)
    ensures var c := RunFrom(Open(fdValid, config, now), config, server, env, 0, n);
            && |c.buffer| <= config.limits.maxHeaderBytes + config.limits.maxBodyBytes + 3 + 4096
            && (c.state == Reading ==> |c.buffer| <= config.limits.maxHeaderBytes + config.limits.maxBodyBytes + 3)
            && (c.state == Reading && c.phase == KeepAlive ==> c.buffer == "")
            && (c.state == Reading && c.phase == Request && c.served > 0 ==> c.buffer != "")
            && (c.state == Closed && c.reason == KeepAliveTimeout ==> c.buffer == "")
            && c.served <= config.maxRequests
  {
    OpenInv(fdValid, config, now);
  }

  // ------------------------------------------------------------------------ deadlines

  /** Within the request phase the read deadline stands still, whatever arrives. */
  lemma DeadlineStands(c: Conn, config: Config, server: Server, ev: Event)
    requires c.offset <= |c.pending|
    requires c.phase == Request && Step(c, config, server, ev).phase == Request
    ensures Step(c, config, server, ev).readDeadline == c.readDeadline
  {
    hide G.Next, MakeReply, Serialize;
  }

  /** When deadlines are set, and to what: the idle time from the moment a reply is out that keeps the
      connection, the time to read from the first byte of the next request, or from its being found in the
      buffer, and the time to write from the moment a reply is queued. */
  predicate DeadlinesSet(c: Conn, config: Config, ev: Event, c': Conn) {
    && c'.readDeadline == (if c.state == Writing && c'.state == Parsing
                           then ev.after + config.keepAliveMillis * 1_000_000
                           else if c.phase == KeepAlive && c'.phase == Request
                           then (if c.state == Reading then ev.after else ev.before) + config.readMillis * 1_000_000
                           else c.readDeadline)
    && c'.writeDeadline == (if c.state != Writing && c'.state == Writing
                            then ev.after + config.writeMillis * 1_000_000 else c.writeDeadline)
  }

  lemma ReadDeadlines(c: Conn, config: Config, server: Server, ev: Event)
    requires Inv(c, config) && c.state == Reading
    ensures DeadlinesSet(c, config, ev, ReadStep(c, config, server, ev))
  {
    hide Inv, MakeReply, Serialize, Delivered;
  }

  lemma ParseDeadlines(c: Conn, config: Config, server: Server, ev: Event)
    requires Inv(c, config) && c.state == Parsing
    ensures DeadlinesSet(c, config, ev, ParseStep(c, config, server, ev))
  {
    hide Inv, G.Next, MakeReply, Serialize;
  }

  lemma WriteDeadlines(c: Conn, config: Config, ev: Event)
    requires Inv(c, config) && c.state == Writing
    ensures DeadlinesSet(c, config, ev, WriteStep(c, config, ev))
  {
    InvOffset(c, config);
    hide Inv;
  }

  lemma DeadlinesExactly(c: Conn, config: Config, server: Server, ev: Event)
    requires Inv(c, config)
    ensures c.offset <= |c.pending| && DeadlinesSet(c, config, ev, Step(c, config, server, ev))
  {
    hide Inv, ReadStep, ParseStep, WriteStep;
    InvOffset(c, config);
    match c.state
    case Reading => ReadDeadlines(c, config, server, ev);
    case Parsing => ParseDeadlines(c, config, server, ev);
    case Writing => WriteDeadlines(c, config, ev);
    case Closed =>
  }

  lemma OpensExactly(fdValid: bool, config: Config, now: int)
    ensures var c := Open(fdValid, config, now);
            && c.readDeadline == now + config.readMillis * 1_000_000
            && c.state == (if fdValid then Reading else Closed) && c.phase == Request && c.buffer == "" && c.served == 0
            && (!fdValid ==> c.reason == ReadError)
  {
  }

  lemma {:induction false} DeadlineStandsThroughout(
    c: Conn, config: Config, server: Server, env: nat -> Event, k: nat, n: nat)
    requires Inv(c, config)
    requires forall j :: 0 <= j <= n ==> RunFrom(c, config, server, env, k, j).phase == Request
    ensures RunFrom(c, config, server, env, k, n).readDeadline == c.readDeadline
    decreases n
  {
    hide Step, Inv;
    if n > 0 {
      StepKeeps(c, config, server, env(k));
      InvOffset(c, config);
      var c1, k1 := Step(c, config, server, env(k)), k + 1;
      assert RunFrom(c, config, server, env, k, 0) == c;
      assert RunFrom(c, config, server, env, k, 1) == c1 by {
        assert RunFrom(c1, config, server, env, k1, 0) == c1;
      }
      DeadlineStands(c, config, server, env(k));
      forall j | 0 <= j <= n - 1 ensures RunFrom(c1, config, server, env, k1, j).phase == Request {
        assert RunFrom(c, config, server, env, k, j + 1) == RunFrom(c1, config, server, env, k1, j);
      }
      DeadlineStandsThroughout(c1, config, server, env, k1, n - 1);
    }
  }

  lemma InvOffset(c: Conn, config: Config)
    requires Inv(c, config)
    ensures c.offset <= |c.pending|
  {
  }

  // ------------------------------------------------------------------------- why it closes

  /** The call was not made, or came back, because its time was up. */
  predicate Late(deadline: int, ev: Event, again: bool) {
    ev.before >= deadline || ev.armed == Some(TryAgain) || (ev.armed.None? && again)
  }

  /** The call was made. */
  predicate Made(deadline: int, ev: Event) { ev.before < deadline && ev.armed.None? }

  /** The timeout could not be set, for another reason than time. */
  predicate Unarmed(deadline: int, ev: Event) {
    ev.before < deadline && ev.armed.Some? && ev.armed.value != TryAgain
  }

  /** What happens in a step that closes the connection for this reason. */
  predicate ClosesFor(c: Conn, ev: Event, reason: EndReason) {
    match reason
    case PeerClosed => c.state == Reading && Made(c.readDeadline, ev) && ev.read == Got("")
    case KeepAliveTimeout =>
      c.state == Reading && c.phase == KeepAlive && Late(c.readDeadline, ev, ev.read == ReadFailed(TryAgain))
    case ReadError =>
      && c.state == Reading
      && (Unarmed(c.readDeadline, ev) || (Made(c.readDeadline, ev) && ev.read == ReadFailed(OtherErrno)))
    case WriteTimeout => c.state == Writing && Late(c.writeDeadline, ev, ev.send == SendFailed(TryAgain))
    case WriteError =>
      && c.state == Writing
      && (Unarmed(c.writeDeadline, ev)
          || (Made(c.writeDeadline, ev) && (ev.send == SendFailed(OtherErrno) || ev.send == Took(0))))
    case _ =>
      && c.state == Writing && c.closeAfter && c.closeReason == reason && Made(c.writeDeadline, ev)
      && ev.send.Took? && ev.send.count > 0 && ev.send.count >= |c.pending| - c.offset
  }

  lemma ReadCloses(c: Conn, config: Config, server: Server, ev: Event, reason: EndReason)
    requires Inv(c, config) && c.state == Reading
    ensures var c' := ReadStep(c, config, server, ev);
            c'.state == Closed && c'.reason == reason <==> ClosesFor(c, ev, reason)
  {
    hide Inv, MakeReply, Serialize, Delivered;
  }

  lemma ParseCloses(c: Conn, config: Config, server: Server, ev: Event, reason: EndReason)
    requires Inv(c, config) && c.state == Parsing
    ensures ParseStep(c, config, server, ev).state != Closed && !ClosesFor(c, ev, reason)
  {
    hide Inv, G.Next, MakeReply, Serialize;
  }

  lemma WriteCloses(c: Conn, config: Config, ev: Event, reason: EndReason)
    requires Inv(c, config) && c.state == Writing
    ensures var c' := WriteStep(c, config, ev);
            c'.state == Closed && c'.reason == reason <==> ClosesFor(c, ev, reason)
  {
    assert c.offset < |c.pending| && (AnswersRequest(c.closeReason) || AnswersNone(c.closeReason));
    hide Inv;
  }

  /** A connection closes for a reason exactly when that happens. */
  lemma ClosesExactly(c: Conn, config: Config, server: Server, ev: Event, reason: EndReason)
    requires Inv(c, config) && c.state != Closed
    ensures var c' := Step(c, config, server, ev);
            c'.state == Closed && c'.reason == reason <==> ClosesFor(c, ev, reason)
  {
    hide Inv, ReadStep, ParseStep, WriteStep, ClosesFor;
    InvOffset(c, config);
    match c.state
    case Reading => ReadCloses(c, config, server, ev, reason);
    case Parsing => ParseCloses(c, config, server, ev, reason);
    case Writing => WriteCloses(c, config, ev, reason);
  }

  /** A reply that answers no request is queued exactly when a started request is late, or malformed. */
  lemma TurnsAwayExactly(c: Conn, config: Config, server: Server, ev: Event)
    requires Inv(c, config) && c.state != Closed && c.state != Writing
    ensures var c' := Step(c, config, server, ev);
            && (c'.state == Writing && c'.closeReason == ReadTimeout <==>
                  c.state == Reading && c.phase == Request && Late(c.readDeadline, ev, ev.read == ReadFailed(TryAgain)))
            && (c'.state == Writing && c'.closeReason == ParseError <==>
                  c.state == Parsing && G.Next(c.buffer, config.limits).Error?)
            && (c'.state == Writing && AnswersNone(c'.closeReason) ==> c'.closeAfter)
  {
    hide G.Next, MakeReply, Serialize, Delivered;
  }

  // ---------------------------------------------------------------------------- runs, cut

  /** Running one step more is stepping once at the end. */
  lemma {:induction false} RunSnoc(c: Conn, config: Config, server: Server, env: nat -> Event, k: nat, n: nat)
    requires Inv(c, config)
    ensures RunFrom(c, config, server, env, k, n).offset <= |RunFrom(c, config, server, env, k, n).pending|
    ensures RunFrom(c, config, server, env, k, n + 1) ==
            Step(RunFrom(c, config, server, env, k, n), config, server, env(k + n))
    decreases n
  {
    hide Step;
    StepKeeps(c, config, server, env(k));
    if n == 0 {
      assert RunFrom(Step(c, config, server, env(k)), config, server, env, k + 1, 0)
          == Step(c, config, server, env(k));
    } else {
      RunSnoc(Step(c, config, server, env(k)), config, server, env, k + 1, n - 1);
    }
  }

  lemma {:induction false} RunAdd(c: Conn, config: Config, server: Server, env: nat -> Event, k: nat, m: nat, n: nat)
    requires Inv(c, config)
    ensures RunFrom(c, config, server, env, k, m + n) ==
            RunFrom(RunFrom(c, config, server, env, k, m), config, server, env, k + m, n)
    decreases m
  {
    hide Step, Inv;
    if m > 0 {
      StepKeeps(c, config, server, env(k));
      InvOffset(c, config);
      RunAdd(Step(c, config, server, env(k)), config, server, env, k + 1, m - 1, n);
    }
  }

  lemma {:induction false} ClosedStays(c: Conn, config: Config, server: Server, env: nat -> Event, k: nat, n: nat)
    requires Inv(c, config) && c.state == Closed
    ensures RunFrom(c, config, server, env, k, n) == c
    decreases n
  {
    if n > 0 {
      ClosedStays(c, config, server, env, k + 1, n - 1);
    }
  }

  // ---------------------------------------------------------------------- termination

  /** The call this step makes comes back interrupted, before its deadline. */
  predicate Spins(c: Conn, ev: Event) {
    || (c.state == Reading && Arm(c.readDeadline, ev).None? && ev.read == ReadFailed(Interrupted))
    || (c.state == Writing && Arm(c.writeDeadline, ev).None? && ev.send == SendFailed(Interrupted))
  }

  function RequestsLeft(c: Conn, config: Config): nat
    requires c.served <= config.maxRequests
  {
    config.maxRequests - c.served
  }

  /** Where in the life of one request the connection is. */
  function Stage(c: Conn): nat {
    match c.state
    case Writing => if c.closeAfter then 1 else 3
    case Closed => 0
    case _ => 2
  }

  function Work(c: Conn, config: Config): nat
    requires Bounded(c, config)
  {
    match c.state
    case Writing => |c.pending| - c.offset
    case Closed => 0
    case _ => BufferBound(config) - |c.buffer|
  }

  function Turn(c: Conn): nat { if c.state == Parsing then 1 else 0 }

  /** The four numbers, compared in this order, go down. */
  predicate Lowers(c: Conn, c': Conn, config: Config)
    requires Bounded(c, config) && Bounded(c', config)
  {
    var r, r' := RequestsLeft(c, config), RequestsLeft(c', config);
    var w, w' := Work(c, config), Work(c', config);
    r' < r || (r' == r &&
    (Stage(c') < Stage(c) || (Stage(c') == Stage(c) &&
    (w' < w || (w' == w && Turn(c') < Turn(c))))))
  }

  lemma DeliveredSome(ev: Event)
    ensures ev.read.Got? && ev.read.bytes != "" ==> 0 < |Delivered(ev.read.bytes)| <= READ_SIZE
  {
  }

  lemma ReadLowers(c: Conn, config: Config, server: Server, ev: Event)
    requires Inv(c, config) && c.state == Reading
    ensures Bounded(ReadStep(c, config, server, ev), config)
    ensures if Spins(c, ev) then ReadStep(c, config, server, ev) == c
            else Lowers(c, ReadStep(c, config, server, ev), config)
  {
    ReadKeeps(c, config, server, ev);
    hide Serialize, MakeReply, Delivered;
    DeliveredSome(ev);
  }

  lemma ParseLowers(c: Conn, config: Config, server: Server, ev: Event)
    requires Inv(c, config) && c.state == Parsing
    ensures Bounded(ParseStep(c, config, server, ev), config)
    ensures Lowers(c, ParseStep(c, config, server, ev), config)
  {
    ParseKeeps(c, config, server, ev);
    hide Serialize, MakeReply, G.Next;
  }

  lemma WriteLowers(c: Conn, config: Config, ev: Event)
    requires Inv(c, config) && c.state == Writing
    ensures Bounded(WriteStep(c, config, ev), config)
    ensures if Spins(c, ev) then WriteStep(c, config, ev) == c else Lowers(c, WriteStep(c, config, ev), config)
  {
    WriteKeeps(c, config, ev);
  }

  /** With no assumption on the clock: a step is an interrupted call that changes nothing, or it
      lowers the rank. */
  lemma StepLowers(c: Conn, config: Config, server: Server, ev: Event)
    requires Inv(c, config) && c.state != Closed
    ensures Inv(Step(c, config, server, ev), config)
    ensures if Spins(c, ev) then Step(c, config, server, ev) == c else Lowers(c, Step(c, config, server, ev), config)
  {
    hide ReadStep, ParseStep, WriteStep, Lowers, Bounded, Phased;
    StepKeeps(c, config, server, ev);
    match c.state
    case Reading => ReadLowers(c, config, server, ev);
    case Parsing => ParseLowers(c, config, server, ev);
    case Writing => WriteLowers(c, config, ev);
  }

  // ------------------------------------------------------------- exactly when it never ends

  ghost predicate SpinsAt(c: Conn, config: Config, server: Server, env: nat -> Event, k: nat, n: nat)
    requires Inv(c, config)
  {
    Spins(RunFrom(c, config, server, env, k, n), env(k + n))
  }

  ghost predicate SpinsFrom(c: Conn, config: Config, server: Server, env: nat -> Event, k: nat, m: nat)
    requires Inv(c, config)
  {
    forall n: nat :: m <= n ==> SpinsAt(c, config, server, env, k, n)
  }

  /** From some step on every call is interrupted before its deadline. */
  ghost predicate SpinsForever(c: Conn, config: Config, server: Server, env: nat -> Event, k: nat)
    requires Inv(c, config)
  {
    exists m: nat :: SpinsFrom(c, config, server, env, k, m)
  }

  ghost predicate ClosedAt(c: Conn, config: Config, server: Server, env: nat -> Event, k: nat, n: nat)
    requires Inv(c, config)
  {
    RunFrom(c, config, server, env, k, n).state == Closed
  }

  /** The connection stays as it is until the first step that is not such a call. */
  lemma {:induction false} FirstMove(c: Conn, config: Config, server: Server, env: nat -> Event, k: nat, n: nat)
    returns (j: nat)
    requires Inv(c, config) && c.state != Closed && !SpinsAt(c, config, server, env, k, n)
    ensures RunFrom(c, config, server, env, k, j) == c && !Spins(c, env(k + j))
    decreases n
  {
    hide Step, Spins, Inv;
    if !Spins(c, env(k)) {
      j := 0;
    } else {
      StepLowers(c, config, server, env(k));
      InvOffset(c, config);
      assert n > 0;
      j := FirstMove(c, config, server, env, k + 1, n - 1);
      j := j + 1;
    }
  }

  lemma {:induction false} EventuallySpins(c: Conn, config: Config, server: Server, env: nat -> Event, k: nat)
    returns (m: nat)
    requires Inv(c, config) && forall n: nat :: !ClosedAt(c, config, server, env, k, n)
    ensures SpinsFrom(c, config, server, env, k, m)
    decreases RequestsLeft(c, config), Stage(c), Work(c, config), Turn(c)
  {
    hide Step, Spins, Inv, Stage, Work, Turn, RequestsLeft, RunFrom;
    assert c.state != Closed by {
      assert RunFrom(c, config, server, env, k, 0) == c by { RunNone(c, config, server, env, k); }
      assert !ClosedAt(c, config, server, env, k, 0);
    }
    if n: nat :| !SpinsAt(c, config, server, env, k, n) {
      var j := FirstMove(c, config, server, env, k, n);
      var k' := k + j + 1;
      RunSnoc(c, config, server, env, k, j);
      StepLowers(c, config, server, env(k + j));
      var c' := Step(c, config, server, env(k + j));
      RankBounded(c, c', config);
      forall i: nat
        ensures RunFrom(c', config, server, env, k', i) == RunFrom(c, config, server, env, k, j + 1 + i)
      {
        RunAdd(c, config, server, env, k, j + 1, i);
      }
      forall i: nat
        ensures !ClosedAt(c', config, server, env, k', i)
      {
        assert !ClosedAt(c, config, server, env, k, j + 1 + i);
      }
      var m' := EventuallySpins(c', config, server, env, k');
      m := j + 1 + m';
      forall i: nat | m <= i
        ensures SpinsAt(c, config, server, env, k, i)
      {
        assert SpinsAt(c', config, server, env, k', i - j - 1);
      }
    } else {
      m := 0;
    }
  }

  lemma RunNone(c: Conn, config: Config, server: Server, env: nat -> Event, k: nat)
    requires Inv(c, config)
    ensures RunFrom(c, config, server, env, k, 0) == c
  {
  }

  lemma RankBounded(c: Conn, c': Conn, config: Config)
    requires Inv(c, config) && Inv(c', config)
    ensures Bounded(c, config) && Bounded(c', config)
    ensures c.served <= config.maxRequests && c'.served <= config.maxRequests
  {
  }

  /** The connection never closes exactly when, from some step on, every call it makes is interrupted
      before its deadline. */
  lemma NeverClosesExactly(c: Conn, config: Config, server: Server, env: nat -> Event, k: nat)
    requires Inv(c, config)
    ensures (forall n: nat :: !ClosedAt(c, config, server, env, k, n)) <==> SpinsForever(c, config, server, env, k)
  {
    hide Step, Inv, RunFrom;
    if forall n: nat :: !ClosedAt(c, config, server, env, k, n) {
      var m := EventuallySpins(c, config, server, env, k);
    } else {
      var n: nat :| ClosedAt(c, config, server, env, k, n);
      forall m: nat
        ensures !SpinsFrom(c, config, server, env, k, m)
      {
        var late := if m < n then n else m;
        RunAdd(c, config, server, env, k, n, late - n);
        ClosedStays(RunFrom(c, config, server, env, k, n), config, server, env, k + n, late - n);
        assert !SpinsAt(c, config, server, env, k, late);
      }
    }
  }

  // ------------------------------------------------------------------ clocks that advance

  /** The clock never goes back, and it moves during an interrupted call. */
  ghost predicate TicksAt(c: Conn, config: Config, server: Server, env: nat -> Event, k: nat, n: nat)
    requires Inv(c, config)
  {
    && env(k + n).before <= env(k + n).after <= env(k + n + 1).before
    && (SpinsAt(c, config, server, env, k, n) ==> env(k + n).before < env(k + n).after)
  }

  ghost predicate Clocked(c: Conn, config: Config, server: Server, env: nat -> Event, k: nat)
    requires Inv(c, config)
  {
    forall n: nat :: TicksAt(c, config, server, env, k, n)
  }

  /** Interrupted calls before a deadline take time, so there are only so many of them. */
  lemma {:induction false} SpinningTakesTime(
    c: Conn, config: Config, server: Server, env: nat -> Event, k: nat, m: nat, n: nat)
    requires Inv(c, config) && Clocked(c, config, server, env, k) && SpinsFrom(c, config, server, env, k, m)
    ensures RunFrom(c, config, server, env, k, m + n) == RunFrom(c, config, server, env, k, m)
    ensures env(k + m).before + n <= env(k + m + n).before
    decreases n
  {
    hide Step, Inv, RunFrom, Spins;
    if n > 0 {
      SpinningTakesTime(c, config, server, env, k, m, n - 1);
      assert SpinsAt(c, config, server, env, k, m + n - 1);
      assert TicksAt(c, config, server, env, k, m + n - 1);
      var d := RunFrom(c, config, server, env, k, m + n - 1);
      RunSnoc(c, config, server, env, k, m + n - 1);
      SpinningIsOpen(d, env(k + m + n - 1));
      StepLowers(d, config, server, env(k + m + n - 1));
    }
  }

  lemma SpinningIsOpen(c: Conn, ev: Event)
    requires Spins(c, ev)
    ensures c.state != Closed
    ensures ev.before < if c.state == Writing then c.writeDeadline else c.readDeadline
  {
  }

  /** Against every peer whose clock advances, the connection closes after finitely many steps. */
  lemma Stops(c: Conn, config: Config, server: Server, env: nat -> Event, k: nat) returns (n: nat)
    requires Inv(c, config) && Clocked(c, config, server, env, k)
    ensures ClosedAt(c, config, server, env, k, n) && !SpinsForever(c, config, server, env, k)
  {
    hide Step, Inv, RunFrom, Spins, ClosedAt;
    if m: nat :| SpinsFrom(c, config, server, env, k, m) {
      var d := RunFrom(c, config, server, env, k, m);
      var deadline := if d.state == Writing then d.writeDeadline else d.readDeadline;
      var wait := if deadline < env(k + m).before then 0 else deadline - env(k + m).before;
      SpinningTakesTime(c, config, server, env, k, m, wait);
      assert SpinsAt(c, config, server, env, k, m + wait);
      SpinningIsOpen(d, env(k + m + wait));
      assert false;
    }
    NeverClosesExactly(c, config, server, env, k);
    n :| ClosedAt(c, config, server, env, k, n);
  }

  /** The progress of the clock is needed: interrupted for ever at one instant, it spins. */
  lemma {:induction false} FrozenClockSpins(config: Config, server: Server, now: int, send: SendOutcome, k: nat, n: nat)
    requires config.Valid()
    ensures var env: nat -> Event := _ => Event(now, None, ReadFailed(Interrupted), send, now);
            var c := Open(true, config, now);
            && Inv(c, config) && RunFrom(c, config, server, env, k, n) == c && c.state == Reading
            && SpinsAt(c, config, server, env, k, n)
    decreases n
  {
    OpenInv(true, config, now);
    if n > 0 {
      FrozenClockSpins(config, server, now, send, k + 1, n - 1);
    }
  }
}
