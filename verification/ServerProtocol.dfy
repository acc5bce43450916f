/** `HttpServer` and `WorkerPool`: any number of threads inside `serve_forever`, `serve_one` and
    `request_shutdown`, the workers, and a signal handler, interleaved one atomic operation at a time.
    Queue operations are single steps, as `QueueRefinement.StepRefines` allows. */
module ServerProtocol {
  import M = ConnectionMachine

  type Fd = nat
  type Thread = nat
  type EndReason = M.EndReason

  // --------------------------------------------------------------------------- counters

  /** The nine counters that say why connections ended. */
  datatype Reasons = Reasons(
    peerCloses: nat, explicitCloses: nat, requestLimitCloses: nat, parseErrors: nat, readTimeouts: nat,
    keepAliveTimeouts: nat, writeTimeouts: nat, readErrors: nat, writeErrors: nat)
  {
    function Total(): nat {
      peerCloses + explicitCloses + requestLimitCloses + parseErrors + readTimeouts
      + keepAliveTimeouts + writeTimeouts + readErrors + writeErrors
    }

    function Of(reason: EndReason): nat {
      match reason
      case PeerClosed => peerCloses
      case ConnectionClose => explicitCloses
      case RequestLimit => requestLimitCloses
      case ParseError => parseErrors
      case ReadTimeout => readTimeouts
      case KeepAliveTimeout => keepAliveTimeouts
      case WriteTimeout => writeTimeouts
      case ReadError => readErrors
      case WriteError => writeErrors
    }

    /** The switch of `record_result`. */
    function Bump(reason: EndReason): Reasons {
      match reason
      case PeerClosed => this.(peerCloses := peerCloses + 1)
      case ConnectionClose => this.(explicitCloses := explicitCloses + 1)
      case RequestLimit => this.(requestLimitCloses := requestLimitCloses + 1)
      case ParseError => this.(parseErrors := parseErrors + 1)
      case ReadTimeout => this.(readTimeouts := readTimeouts + 1)
      case KeepAliveTimeout => this.(keepAliveTimeouts := keepAliveTimeouts + 1)
      case WriteTimeout => this.(writeTimeouts := writeTimeouts + 1)
      case ReadError => this.(readErrors := readErrors + 1)
      case WriteError => this.(writeErrors := writeErrors + 1)
    }

    /** It raises the one counter that belongs to the reason. */
    lemma Bumped(reason: EndReason, other: EndReason)
      ensures Bump(reason).Total() == Total() + 1
      ensures Bump(reason).Of(other) == Of(other) + if other == reason then 1 else 0
    {
    }
  }

  /** The atomic counters. `active` goes up and down; that it never passes below zero is proved. */
  datatype Counters = Counters(
    accepted: nat, dispatched: nat, rejected: nat, active: int, completed: nat, workerErrors: nat, reasons: Reasons)

  // ---------------------------------------------------------------------------- threads

  datatype Failure = PollFailed | AcceptFailed | PoolIsClosed

  /** Where a thread is. `forever` tells `serve_forever` from `serve_one`, `join` a shutdown that goes
      on to join the workers from a bare `request_shutdown`. */
  datatype Pc =
    | Idle | Threw(why: Failure) | Returned
    | LoopTest | Poll
    | Accepting(forever: bool) | Accepted(fd: Fd, forever: bool)
    | Dispatching(fd: Fd, forever: bool) | Pushed(forever: bool)
    | Dropping(fd: Fd, forever: bool) | Refused(forever: bool) | RefusedTest(forever: bool)
    | Exchange(join: bool) | CloseQueue(join: bool) | NotifyPipe(join: bool)
    | PoolClose | Joining
    | Popping | Took(fd: Fd) | Serving(fd: Fd)
    | Served(fd: Fd, reason: EndReason) | Completed(fd: Fd, reason: EndReason)
    | Recorded(fd: Fd) | Unwinding(fd: Fd) | Errored | Leaving | Exited

  predicate IsWorker(pc: Pc) {
    pc.Popping? || pc.Took? || pc.Serving? || pc.Served? || pc.Completed? || pc.Recorded?
    || pc.Unwinding? || pc.Errored? || pc.Leaving? || pc.Exited?
  }

  /** Inside `serve_forever` before its final shutdown, or inside `serve_one`. */
  predicate IsAcceptor(pc: Pc) {
    pc.LoopTest? || pc.Poll? || pc.Accepting? || pc.Accepted? || pc.Dispatching? || pc.Pushed?
    || pc.Dropping? || pc.Refused? || pc.RefusedTest?
  }

  predicate Holds(pc: Pc) {
    pc.Accepted? || pc.Dispatching? || pc.Dropping? || pc.Took? || pc.Serving? || pc.Served?
    || pc.Completed? || pc.Recorded? || pc.Unwinding?
  }

  type Threads = map<Thread, Pc>

  /** What the threads share. `nextFd` numbers the accepted sockets; `released` lists the closed ones,
      `ended` why each `serve` that returned did so. */
  datatype Shared = Shared(
    capacity: nat, queue: seq<Fd>, closed: bool, requested: bool, pipeReady: bool, writeLost: bool,
    counters: Counters, ended: seq<EndReason>, nextFd: Fd, released: seq<Fd>)

  datatype Server = Server(shared: Shared, threads: Threads)

  predicate AllExited(m: Threads) {
    forall t :: t in m && IsWorker(m[t]) ==> m[t].Exited?
  }

  // ------------------------------------------------------------------------------ steps

  datatype Polled = Interrupted | Failed | PipeReadable | ListenerReadable | Neither

  /** A step and the choices of its environment. */
  datatype Action =
    | Begin(call: Pc)
    | Go
    | PollReturns(polled: Polled)
    | AcceptReturns(connected: bool)
    | ServeReturns(reason: EndReason)
    | ServeThrows
    | WriteReturns(delivered: bool)
    | Signal

  /** Whether a thread at `pc` can take the step, as far as the shared state goes. */
  predicate Ready(s: Shared, pc: Pc, a: Action) {
    match a
    case Begin(call) =>
      && (pc.Idle? || pc.Returned? || pc.Threw?)
      && (call.LoopTest? || call == Accepting(false) || call.Exchange?)
    case PollReturns(polled) =>
      && pc.Poll?
      && (polled.PipeReadable? ==> s.pipeReady)
      && (polled.ListenerReadable? || polled.Neither? ==> !s.pipeReady)
    case AcceptReturns(_) => pc.Accepting?
    case ServeReturns(_) => pc.Serving?
    case ServeThrows => pc.Serving?
    case WriteReturns(_) => pc.NotifyPipe?
    case Signal => true
    case Go =>
      || pc.LoopTest? || pc.Accepted? || (pc.Dispatching? && (s.closed || |s.queue| < s.capacity))
      || pc.Pushed? || pc.Dropping? || pc.Refused? || pc.RefusedTest? || pc.Exchange? || pc.CloseQueue?
      || pc.PoolClose? || pc.Joining?
      || (pc.Popping? && (s.closed || s.queue != []))
      || pc.Took? || pc.Served? || pc.Completed? || pc.Recorded? || pc.Unwinding? || pc.Errored? || pc.Leaving?
  }

  /** `join` returns once the workers have left their loops. */
  predicate Enabled(s: Server, t: Thread, a: Action) {
    && t in s.threads
    && Ready(s.shared, s.threads[t], a)
    && (a.Go? && s.threads[t].Joining? ==> AllExited(s.threads))
  }

  /** Back from `serve_one`. */
  function After(forever: bool): Pc { if forever then LoopTest else Idle }

  /** Back from the server's `request_shutdown`. */
  function AfterShutdown(join: bool): Pc { if join then PoolClose else Idle }

  function CallerGo(s: Shared, pc: Pc): (Shared, Pc) {
    var c := s.counters;
    match pc
    case LoopTest => (s, if s.requested then PoolClose else Poll)
    case Accepted(fd, forever) => (s.(counters := c.(accepted := c.accepted + 1)), Dispatching(fd, forever))
    case Dispatching(fd, forever) =>
      if s.closed then (s, Dropping(fd, forever)) else (s.(queue := s.queue + [fd]), Pushed(forever))
    case Pushed(forever) => (s.(counters := c.(dispatched := c.dispatched + 1)), After(forever))
    case Dropping(fd, forever) => (s.(released := s.released + [fd]), Refused(forever))
    case Refused(forever) => (s.(counters := c.(rejected := c.rejected + 1)), RefusedTest(forever))
    case RefusedTest(forever) => (s, if s.requested then After(forever) else Threw(PoolIsClosed))
    case Exchange(join) => (s.(requested := true), if s.requested then AfterShutdown(join) else CloseQueue(join))
    case CloseQueue(join) => (s.(closed := true), NotifyPipe(join))
    case PoolClose => (s.(closed := true), Joining)
    case Joining => (s, Returned)
    case _ => (s, pc)
  }

  function WorkerGo(s: Shared, pc: Pc): (Shared, Pc) {
    var c := s.counters;
    match pc
    case Popping => if s.queue == [] then (s, Exited) else (s.(queue := s.queue[1..]), Took(s.queue[0]))
    case Took(fd) => (s.(counters := c.(active := c.active + 1)), Serving(fd))
    case Served(fd, reason) => (s.(counters := c.(completed := c.completed + 1)), Completed(fd, reason))
    case Completed(fd, reason) => (s.(counters := c.(reasons := c.reasons.Bump(reason))), Recorded(fd))
    case Recorded(fd) => (s.(released := s.released + [fd]), Leaving)
    case Unwinding(fd) => (s.(released := s.released + [fd]), Errored)
    case Errored => (s.(counters := c.(workerErrors := c.workerErrors + 1)), Leaving)
    case Leaving => (s.(counters := c.(active := c.active - 1)), Popping)
    case _ => (s, pc)
  }

  function AfterPoll(polled: Polled): Pc {
    match polled
    case Failed => Threw(PollFailed)
    case PipeReadable => Exchange(true)
    case ListenerReadable => Accepting(true)
    case _ => LoopTest
  }

  /** The steps whose outcome the environment decides. */
  function Outcome(s: Shared, pc: Pc, a: Action): (Shared, Pc)
    requires Ready(s, pc, a)
  {
    match a
    case Begin(call) => (s, call)
    case PollReturns(polled) => (s, AfterPoll(polled))
    case AcceptReturns(connected) =>
      if connected then (s.(nextFd := s.nextFd + 1), Accepted(s.nextFd, pc.forever)) else (s, Threw(AcceptFailed))
    case ServeReturns(reason) => (s.(ended := s.ended + [reason]), Served(pc.fd, reason))
    case ServeThrows => (s, Unwinding(pc.fd))
    case WriteReturns(delivered) =>
      (s.(pipeReady := s.pipeReady || delivered, writeLost := s.writeLost || !delivered), AfterShutdown(pc.join))
    case Signal => (s.(pipeReady := true), pc)
    case Go => (s, pc)
  }

  /** The shared state and the program counter after the step. */
  function Next(s: Shared, pc: Pc, a: Action): (Shared, Pc)
    requires Ready(s, pc, a)
  {
    if !a.Go? then Outcome(s, pc, a) else if IsWorker(pc) then WorkerGo(s, pc) else CallerGo(s, pc)
  }

  /** Threads keep their role; a worker that has left its loop stays out; only a join returns. */
  predicate KeepsRole(pc: Pc, a: Action, pc': Pc) {
    && IsWorker(pc') == IsWorker(pc)
    && (pc.Exited? ==> pc'.Exited?)
    && (pc'.Returned? ==> pc.Returned? || (a.Go? && pc.Joining?))
  }

  lemma CallerRole(s: Shared, pc: Pc)
    requires Ready(s, pc, Go) && !IsWorker(pc)
    ensures KeepsRole(pc, Go, CallerGo(s, pc).1)
  {
  }

  lemma WorkerRole(s: Shared, pc: Pc)
    requires Ready(s, pc, Go) && IsWorker(pc)
    ensures KeepsRole(pc, Go, WorkerGo(s, pc).1)
  {
  }

  lemma NextRole(s: Shared, pc: Pc, a: Action)
    requires Ready(s, pc, a)
    ensures KeepsRole(pc, a, Next(s, pc, a).1)
  {
    hide CallerGo, WorkerGo;
    if a.Go? && IsWorker(pc) {
      WorkerRole(s, pc);
    } else if a.Go? {
      CallerRole(s, pc);
    }
  }

  function Apply(s: Server, t: Thread, a: Action): Server
    requires Enabled(s, t, a)
  {
    var (shared, pc) := Next(s.shared, s.threads[t], a);
    Server(shared, s.threads[t := pc])
  }

  /** A server with `capacity` queue slots. */
  function Fresh(capacity: nat): Shared {
    var counters := Counters(0, 0, 0, 0, 0, 0, Reasons(0, 0, 0, 0, 0, 0, 0, 0, 0));
    Shared(capacity, [], false, false, false, false, counters, [], 0, [])
  }

  predicate Initial(s: Server) {
    && s.shared.capacity > 0 && s.shared == Fresh(s.shared.capacity)
    && (forall t :: t in s.threads ==> s.threads[t].Idle? || s.threads[t].Popping?)
    && (exists t :: t in s.threads && s.threads[t].Popping?)
  }

  ghost predicate StepTo(s: Server, s': Server) {
    exists t, a :: Enabled(s, t, a) && Apply(s, t, a) == s'
  }

  ghost predicate IsRun(run: seq<Server>) {
    run != [] && Initial(run[0]) && forall i :: 0 <= i < |run| - 1 ==> StepTo(run[i], run[i + 1])
  }

  // --------------------------------------------------------------------------- counting

  /** Groups of threads the accounts speak of. */
  datatype Group =
    | Uncounted          // accepted, `accepted` not yet raised
    | InDispatch         // counted as accepted, neither dispatched nor rejected yet
    | JustPushed         // queued, `dispatched` not yet raised
    | AtWork             // took a connection that is neither completed nor an error yet
    | Active             // between the two updates of `active`
    | Unreasoned         // completed, its reason not yet counted
    | Owing(reason: EndReason)
    | Workers
    | Acceptors

  predicate In(pc: Pc, g: Group) {
    match g
    case Uncounted => pc.Accepted?
    case InDispatch => pc.Dispatching? || pc.Pushed? || pc.Dropping? || pc.Refused?
    case JustPushed => pc.Pushed?
    case AtWork => pc.Took? || pc.Serving? || pc.Served? || pc.Unwinding? || pc.Errored?
    case Active =>
      pc.Serving? || pc.Served? || pc.Completed? || pc.Recorded? || pc.Unwinding? || pc.Errored? || pc.Leaving?
    case Unreasoned => pc.Completed?
    case Owing(reason) => (pc.Served? || pc.Completed?) && pc.reason == reason
    case Workers => IsWorker(pc)
    case Acceptors => IsAcceptor(pc)
  }

  function Those(m: Threads, g: Group): set<Thread> { set t | t in m && In(m[t], g) }

  function Num(m: Threads, g: Group): nat { |Those(m, g)| }

  function One(b: bool): nat { if b then 1 else 0 }

  lemma NumMoves(m: Threads, t: Thread, pc: Pc, g: Group)
    requires t in m
    ensures Num(m[t := pc], g) + One(In(m[t], g)) == Num(m, g) + One(In(pc, g))
  {
    hide In;
    assert Those(m[t := pc], g) == (Those(m, g) - {t}) + (if In(pc, g) then {t} else {});
  }

  lemma NumZero(m: Threads, g: Group)
    requires forall t :: t in m ==> !In(m[t], g)
    ensures Num(m, g) == 0
  {
    assert Those(m, g) == {};
  }
}
