/** How long a connection can last when the kernel honours the armed timeouts and computing takes
    no time. */
module ConnectionLifetime {
  import opened Text
  import opened ConnectionMachine
  import opened ConnectionInvariants
  import G = RequestGrammar
  import H = HttpResponse

  /** Largest overshoot of a deadline: less than the microsecond the timeout is rounded up to. */
  const OVERRUN := NANOS_PER_MICRO - 1

  /** The step starts when the last one ended; a system call returns within the armed time. */
  predicate Honest(c: Conn, now: int, ev: Event) {
    && ev.before == now <= ev.after
    && match c.state
       case Reading => Returns(c.readDeadline, ev)
       case Writing => Returns(c.writeDeadline, ev)
       case _ => ev.after == ev.before
  }

  predicate Returns(deadline: int, ev: Event) {
    if Arm(deadline, ev).None?
    then ev.after <= ev.before + ArmedMicros(deadline - ev.before) * NANOS_PER_MICRO
    else ev.after == ev.before
  }

  lemma ReturnsInTime(deadline: int, ev: Event)
    requires Returns(deadline, ev) && ev.before <= deadline + OVERRUN
    ensures ev.after <= deadline + OVERRUN
  {
    if Arm(deadline, ev).None? {
      ArmedTimeVal(deadline - ev.before);
    }
  }

  /** Time for one request, its response and the idle wait behind it. */
  function Cycle(config: Config): int {
    config.ReadTime() + config.WriteTime() + config.KeepAliveTime() + 3 * OVERRUN
  }

  function Cycles(n: nat, config: Config): int {
    if n == 0 then 0 else Cycles(n - 1, config) + Cycle(config)
  }

  lemma {:induction false} CyclesMonotone(m: nat, n: nat, config: Config)
    requires config.Valid() && m <= n
    ensures Cycles(m, config) <= Cycles(n, config)
    decreases n
  {
    if m < n {
      CyclesMonotone(m, n - 1, config);
    }
  }

  lemma {:induction false} CyclesProduct(n: nat, config: Config)
    ensures Cycles(n, config) == n * Cycle(config)
  {
    if n > 0 {
      CyclesProduct(n - 1, config);
      assert (n - 1) * Cycle(config) + Cycle(config) == n * Cycle(config);
    }
  }

  /** N reads and writes and N - 1 idle waits, with the overrun of each of these 3N - 1 phases. */
  function LifetimeBound(config: Config): int
    requires config.maxRequests > 0
  {
    var n := config.maxRequests;
    n * (config.ReadTime() + config.WriteTime()) + (n - 1) * config.KeepAliveTime() + (3 * n - 1) * OVERRUN
  }

  function LastReply(config: Config): int { config.ReadTime() + config.WriteTime() + 2 * OVERRUN }

  lemma BoundIsCycles(config: Config)
    requires config.maxRequests > 0
    ensures Cycles(config.maxRequests - 1, config) + LastReply(config) == LifetimeBound(config)
  {
    var n := config.maxRequests;
    CyclesProduct(n - 1, config);
    var r, w, k := config.ReadTime(), config.WriteTime(), config.KeepAliveTime();
    assert (n - 1) * (r + w + k + 3 * OVERRUN) == (n - 1) * (r + w) + (n - 1) * k + (n - 1) * (3 * OVERRUN);
    assert (n - 1) * (r + w) == n * (r + w) - (r + w);
  }

  /** Requests finished before the one the current reply belongs to. */
  function Before(c: Conn): int { if AnswersNone(c.closeReason) then c.served else c.served - 1 }

  /** Every deadline lies within the allowance of the phases passed so far, and the clock within a
      microsecond of the active deadline. `age` is the time since the connection was opened. */
  ghost predicate Timely(c: Conn, start: int, now: int, config: Config)
    requires config.Valid()
  {
    var readAge, writeAge, age := c.readDeadline - start, c.writeDeadline - start, now - start;
    match c.state
    case Writing =>
      && 0 <= Before(c) < config.maxRequests
      && writeAge <= Cycles(Before(c), config) + config.ReadTime() + OVERRUN + config.WriteTime()
      && age <= writeAge + OVERRUN
    case Closed => age <= Cycles(config.maxRequests - 1, config) + LastReply(config)
    case _ =>
      && age <= readAge + OVERRUN
      && if c.phase == Request then readAge <= Cycles(c.served, config) + config.ReadTime()
         else c.served > 0 && readAge <= Cycles(c.served, config) - OVERRUN
  }

  lemma CloseInTime(c: Conn, now: int, start: int, config: Config, n: nat)
    requires config.Valid() && n < config.maxRequests
    requires now - start <= Cycles(n, config) + LastReply(config)
    ensures now - start <= Cycles(config.maxRequests - 1, config) + LastReply(config)
  {
    CyclesMonotone(n, config.maxRequests - 1, config);
  }

  lemma OpenTimely(fdValid: bool, config: Config, now: int)
    requires config.Valid()
    ensures Timely(Open(fdValid, config, now), now, now, config)
  {
    CyclesMonotone(0, config.maxRequests - 1, config);
  }

  lemma ExpiredTimely(c: Conn, config: Config, server: Server, start: int, now: int)
    requires config.Valid() && Inv(c, config) && c.state == Reading && Timely(c, start, now, config)
    ensures Timely(ReadExpired(c, config, server, now), start, now, config)
  {
    hide H.Serialize, MakeReply;
    CloseInTime(c, now, start, config, c.served);
  }

  lemma ReadTimely(c: Conn, config: Config, server: Server, start: int, now: int, ev: Event)
    requires config.Valid() && Inv(c, config) && c.state == Reading
    requires Timely(c, start, now, config) && Honest(c, now, ev)
    ensures Timely(ReadStep(c, config, server, ev), start, ev.after, config)
  {
    hide ReadExpired, Arm, Returns, Delivered;
    ReturnsInTime(c.readDeadline, ev);
    ExpiredTimely(c, config, server, start, ev.after);
    CloseInTime(c, ev.after, start, config, c.served);
  }

  lemma ParseTimely(c: Conn, config: Config, server: Server, start: int, now: int, ev: Event)
    requires config.Valid() && Inv(c, config) && c.state == Parsing
    requires Timely(c, start, now, config) && Honest(c, now, ev)
    ensures Timely(ParseStep(c, config, server, ev), start, ev.after, config)
  {
    hide H.Serialize, MakeReply, G.Next;
  }

  lemma WriteTimely(c: Conn, config: Config, start: int, now: int, ev: Event)
    requires config.Valid() && Inv(c, config) && c.state == Writing
    requires Timely(c, start, now, config) && Honest(c, now, ev)
    ensures Timely(WriteStep(c, config, ev), start, ev.after, config)
  {
    hide Arm, Returns;
    ReturnsInTime(c.writeDeadline, ev);
    CloseInTime(c, ev.after, start, config, Before(c));
  }

  lemma StepTimely(c: Conn, config: Config, server: Server, start: int, now: int, ev: Event)
    requires config.Valid() && Inv(c, config)
    requires Timely(c, start, now, config) && Honest(c, now, ev)
    ensures Timely(Step(c, config, server, ev), start, ev.after, config)
  {
    hide ReadStep, ParseStep, WriteStep, Inv;
    match c.state
    case Reading => ReadTimely(c, config, server, start, now, ev);
    case Parsing => ParseTimely(c, config, server, start, now, ev);
    case Writing => WriteTimely(c, config, start, now, ev);
    case Closed =>
  }

  /** `n` steps from `env(k)` on, all honest; `end` is the clock after them. */
  ghost predicate HonestRun(c: Conn, config: Config, server: Server, env: nat -> Event, k: nat, n: nat,
                            now: int, end: int)
    requires Inv(c, config)
    decreases n
  {
    if n == 0 then end == now else
    StepKeeps(c, config, server, env(k));
    && Honest(c, now, env(k))
    && HonestRun(Step(c, config, server, env(k)), config, server, env, k + 1, n - 1, env(k).after, end)
  }

  lemma {:induction false} RunTimely(c: Conn, config: Config, server: Server, env: nat -> Event, k: nat, n: nat,
                                     start: int, now: int, end: int)
    requires config.Valid() && Inv(c, config) && Timely(c, start, now, config)
    requires HonestRun(c, config, server, env, k, n, now, end)
    ensures Timely(RunFrom(c, config, server, env, k, n), start, end, config)
    decreases n
  {
    hide Step, Inv, Timely, Honest;
    if n > 0 {
      StepKeeps(c, config, server, env(k));
      InvOffset(c, config);
      StepTimely(c, config, server, start, now, env(k));
      RunTimely(Step(c, config, server, env(k)), config, server, env, k + 1, n - 1, start, env(k).after, end);
    }
  }

  /** The kernel honours the timeouts of the first `n` steps; `end` is the clock after them. */
  ghost predicate HonestFor(
    fdValid: bool, config: Config, server: Server, env: nat -> Event, start: int, n: nat, end: int)
    requires config.Valid()
  {
    OpenInv(fdValid, config, start);
    HonestRun(Open(fdValid, config, start), config, server, env, 0, n, start, end)
  }

  /** No state of an honest run is older than the bound. */
  lemma LifetimeIsBounded(fdValid: bool, config: Config, server: Server, env: nat -> Event, start: int,
                          n: nat, end: int)
    requires config.Valid() && HonestFor(fdValid, config, server, env, start, n, end)
    ensures end <= start + LifetimeBound(config)
  {
    hide Step, Open;
    OpenInv(fdValid, config, start);
    OpenTimely(fdValid, config, start);
    var c := RunFrom(Open(fdValid, config, start), config, server, env, 0, n);
    RunTimely(Open(fdValid, config, start), config, server, env, 0, n, start, start, end);
    BoundIsCycles(config);
    AgeBound(c, start, end, config);
  }

  /** The clock after `n` steps. */
  function Clock(env: nat -> Event, start: int, n: nat): int { if n == 0 then start else env(n - 1).after }

  /** The kernel honours every timeout, and interrupted calls take time. */
  ghost predicate HonestKernel(fdValid: bool, config: Config, server: Server, env: nat -> Event, start: int)
    requires config.Valid()
  {
    OpenInv(fdValid, config, start);
    && Clocked(Open(fdValid, config, start), config, server, env, 0)
    && forall n: nat :: HonestFor(fdValid, config, server, env, start, n, Clock(env, start, n))
  }

  /** There are such kernels: one whose peer hangs up at once. */
  lemma HangUpIsHonest(fdValid: bool, config: Config, server: Server, start: int)
    requires config.Valid()
    ensures HonestKernel(fdValid, config, server, _ => Event(start, None, Got(""), Took(0), start), start)
  {
    var env: nat -> Event := _ => Event(start, None, Got(""), Took(0), start);
    OpenInv(fdValid, config, start);
    var c := Open(fdValid, config, start);
    forall n: nat
      ensures TicksAt(c, config, server, env, 0, n)
    {
      if n > 0 {
        StepKeeps(c, config, server, env(0));
        ClosedStays(Step(c, config, server, env(0)), config, server, env, 1, n - 1);
      }
    }
    forall n: nat
      ensures HonestFor(fdValid, config, server, env, start, n, Clock(env, start, n))
    {
      if n > 0 {
        StepKeeps(c, config, server, env(0));
        ClosedIsHonest(Step(c, config, server, env(0)), config, server, env, 1, n - 1, start);
      }
    }
  }

  lemma {:induction false} ClosedIsHonest(
    c: Conn, config: Config, server: Server, env: nat -> Event, k: nat, n: nat, now: int)
    requires Inv(c, config) && c.state == Closed && forall j: nat :: env(j).before == env(j).after == now
    ensures HonestRun(c, config, server, env, k, n, now, now)
    decreases n
  {
    if n > 0 {
      ClosedIsHonest(c, config, server, env, k + 1, n - 1, now);
    }
  }

  /** With an honest kernel the connection closes, and by the bound. */
  lemma ClosesInTime(fdValid: bool, config: Config, server: Server, env: nat -> Event, start: int) returns (n: nat)
    requires config.Valid() && HonestKernel(fdValid, config, server, env, start)
    ensures Inv(Open(fdValid, config, start), config)
    ensures RunFrom(Open(fdValid, config, start), config, server, env, 0, n).state == Closed
    ensures Clock(env, start, n) <= start + LifetimeBound(config)
  {
    hide Open, LifetimeBound, Clock;
    OpenInv(fdValid, config, start);
    n := Stops(Open(fdValid, config, start), config, server, env, 0);
    assert HonestFor(fdValid, config, server, env, start, n, Clock(env, start, n));
    LifetimeIsBounded(fdValid, config, server, env, start, n, Clock(env, start, n));
  }

  lemma AgeBound(c: Conn, start: int, now: int, config: Config)
    requires config.Valid() && Inv(c, config) && Timely(c, start, now, config)
    ensures now - start <= Cycles(config.maxRequests - 1, config) + LastReply(config)
  {
    if c.state == Writing {
      CyclesMonotone(Before(c), config.maxRequests - 1, config);
    } else if c.state != Closed {
      CyclesMonotone(c.served, config.maxRequests - 1, config);
    }
  }
}
