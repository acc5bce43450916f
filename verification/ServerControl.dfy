/** How the server's calls proceed: what makes them throw, how `serve_forever` leaves its loop, and that a
    shutdown is announced once. */
module ServerControl {
  import opened ServerProtocol
  import A = ServerAccounts
  import D = ServerShutdown

  // ----------------------------------------------------------------------------- the calls

  /** Inside the loop of `serve_forever`. */
  predicate InLoop(pc: Pc) {
    pc.LoopTest? || pc.Poll?
    || (pc.Accepting? && pc.forever) || (pc.Accepted? && pc.forever) || (pc.Dispatching? && pc.forever)
    || (pc.Pushed? && pc.forever) || (pc.Dropping? && pc.forever) || (pc.Refused? && pc.forever)
    || (pc.RefusedTest? && pc.forever)
  }

  /** Inside the shutdown that joins the workers, or back from it. */
  predicate InJoin(pc: Pc) {
    (pc.Exchange? && pc.join) || (pc.CloseQueue? && pc.join) || (pc.NotifyPipe? && pc.join)
    || pc.PoolClose? || pc.Joining? || pc.Returned?
  }

  /** Inside a bare `request_shutdown`. */
  predicate InRequest(pc: Pc) {
    (pc.Exchange? && !pc.join) || (pc.CloseQueue? && !pc.join) || (pc.NotifyPipe? && !pc.join)
  }

  /** How far a `serve_one` call still has to go; zero elsewhere. */
  function OneLeft(pc: Pc): nat {
    match pc
    case Accepting(false) => 6
    case Accepted(_, false) => 5
    case Dispatching(_, false) => 4
    case Pushed(false) => 3
    case Dropping(_, false) => 3
    case Refused(false) => 2
    case RefusedTest(false) => 1
    case _ => 0
  }

  /** The failure of the environment that an exception reports. */
  predicate Causes(a: Action, why: Failure) {
    || (why == PollFailed && a == PollReturns(Failed))
    || (why == AcceptFailed && a == AcceptReturns(false))
  }

  // ---------------------------------------------------------------------------- one step

  /** What `serve_forever` and the shutdown it ends in do next. */
  predicate LoopFollows(s: Shared, pc: Pc, a: Action, pc': Pc) {
    && (InLoop(pc) ==>
          InLoop(pc') || pc'.Threw? || (pc' == PoolClose && s.requested)
          || (pc' == Exchange(true) && a == PollReturns(PipeReadable) && s.pipeReady))
    && (InLoop(pc') && !InLoop(pc) ==> a == Begin(LoopTest))
    && (InJoin(pc) && !a.Begin? ==> InJoin(pc'))
  }

  /** What the other calls do next, and what makes any call throw. */
  predicate CallFollows(pc: Pc, a: Action, pc': Pc) {
    && (pc'.Threw? && !pc.Threw? ==> Causes(a, pc'.why))
    && (InRequest(pc) ==> InRequest(pc') || pc' == Idle)
    && (OneLeft(pc) > 0 && !a.Signal? ==>
          OneLeft(pc') < OneLeft(pc) && (OneLeft(pc') > 0 || pc' == Idle || pc'.Threw?))
    && (OneLeft(pc) == 0 && OneLeft(pc') > 0 ==> a == Begin(Accepting(false)))
  }

  /** Where a thread can go next. */
  predicate Follows(s: Shared, pc: Pc, a: Action, pc': Pc) { LoopFollows(s, pc, a, pc') && CallFollows(pc, a, pc') }

  lemma WorkerFollows(s: Shared, pc: Pc)
    requires Ready(s, pc, Go) && IsWorker(pc)
    ensures Follows(s, pc, Go, WorkerGo(s, pc).1)
  {
    WorkerRole(s, pc);
    hide WorkerGo, Ready;
    NoCaller(pc);
    NoCaller(WorkerGo(s, pc).1);
    hide InLoop, InJoin, InRequest, OneLeft, IsWorker;
  }

  lemma NoCaller(pc: Pc)
    requires IsWorker(pc)
    ensures !InLoop(pc) && !InJoin(pc) && !InRequest(pc) && OneLeft(pc) == 0 && !pc.Threw?
  {
  }

  lemma CallerLoops(s: Shared, pc: Pc)
    requires Ready(s, pc, Go) && !IsWorker(pc)
    ensures LoopFollows(s, pc, Go, CallerGo(s, pc).1)
  {
  }

  lemma CallerCalls(s: Shared, pc: Pc)
    requires Ready(s, pc, Go) && !IsWorker(pc) && (s.closed ==> s.requested) && A.Sound(s, pc)
    ensures CallFollows(pc, Go, CallerGo(s, pc).1)
  {
  }

  lemma OutcomeFollows(s: Shared, pc: Pc, a: Action)
    requires Ready(s, pc, a) && !a.Go?
    ensures Follows(s, pc, a, Outcome(s, pc, a).1)
  {
  }

  lemma NextFollows(s: Shared, pc: Pc, a: Action)
    requires Ready(s, pc, a) && (s.closed ==> s.requested) && A.Sound(s, pc)
    ensures Follows(s, pc, a, Next(s, pc, a).1)
  {
    hide CallerGo, WorkerGo, Outcome, Ready, IsWorker, LoopFollows, CallFollows, A.Sound;
    if !a.Go? {
      OutcomeFollows(s, pc, a);
    } else if IsWorker(pc) {
      WorkerFollows(s, pc);
    } else {
      CallerLoops(s, pc);
      CallerCalls(s, pc);
    }
  }

  /** What `serve_forever` makes of each outcome of `poll`; in particular it accepts when, and only when, a
      client is there and nobody asked to stop. */
  lemma PollLeadsTo(s: Shared, a: Action, pc: Pc)
    requires Ready(s, pc, a) && pc.Poll? && !a.Signal?
    ensures var (s', pc') := Next(s, pc, a);
            && s' == s
            && (pc' == Accepting(true) <==> a == PollReturns(ListenerReadable))
            && (pc' == Exchange(true) <==> a == PollReturns(PipeReadable))
            && (pc'.Threw? <==> a == PollReturns(Failed))
            && (pc'.Accepting? ==> !s.pipeReady)
  {
  }

  /** What is accepted is handed on: a new descriptor is dispatched next, by the call that accepted it. */
  lemma AcceptLeadsTo(s: Shared, pc: Pc)
    requires pc.Accepting?
    ensures Ready(s, pc, AcceptReturns(true))
    ensures var (s', pc') := Next(s, pc, AcceptReturns(true));
            && Holds(pc') && pc'.fd == s.nextFd && s'.nextFd == s.nextFd + 1 && Ready(s', pc', Go)
            && Next(s', pc', Go).1 == Dispatching(s.nextFd, pc.forever)
  {
  }

  /** An interrupted `poll` is no failure: the loop goes round, and leaves it for the joining shutdown once that
      is requested. */
  lemma InterruptedPoll(s: Shared)
    ensures Ready(s, Poll, PollReturns(Interrupted))
    ensures var (s', pc) := Next(s, Poll, PollReturns(Interrupted));
            && s' == s && Ready(s, pc, Go)
            && Next(s, pc, Go) == (s, if s.requested then PoolClose else Poll)
  {
  }

  // -------------------------------------------------------------------------------- runs

  /** In every run each thread proceeds from call to call as `Follows` says: in particular it throws only for
      the failure it reports, leaves the loop of `serve_forever` otherwise only for the joining shutdown and
      after a request, and `serve_one` makes one pass. */
  lemma CallsProceed(run: seq<Server>, i: nat, t: Thread)
    requires IsRun(run) && i + 1 < |run| && t in run[i].threads
    ensures t in run[i + 1].threads
    ensures run[i + 1].threads[t] != run[i].threads[t] ==>
              exists a :: && Enabled(run[i], t, a) && Apply(run[i], t, a) == run[i + 1]
                          && Follows(run[i].shared, run[i].threads[t], a, run[i + 1].threads[t])
  {
    A.RunInv(run, i);
    assert StepTo(run[i], run[i + 1]);
    hide Next, Ready, Follows, IsRun;
    var u, a :| Enabled(run[i], u, a) && Apply(run[i], u, a) == run[i + 1];
    if u == t {
      NextFollows(run[i].shared, run[i].threads[t], a);
    }
  }

  // ------------------------------------------------------------------- announced only once

  predicate Announces(pc: Pc) { pc.CloseQueue? || pc.NotifyPipe? }

  /** At most one caller closes the queue and writes the pipe for a request, and none before there is one. */
  ghost predicate Once(s: Server) {
    && (forall t, u ::
          t in s.threads && u in s.threads && Announces(s.threads[t]) && Announces(s.threads[u]) ==> t == u)
    && (!s.shared.requested ==> forall t :: t in s.threads ==> !Announces(s.threads[t]))
  }

  lemma NextAnnounces(s: Shared, pc: Pc, a: Action)
    requires Ready(s, pc, a)
    ensures var (s', pc') := Next(s, pc, a);
            && (Announces(pc') && !Announces(pc) ==> !s.requested && s'.requested)
            && (s.requested ==> s'.requested)
  {
    hide WorkerGo, CallerGo;
    if a.Go? {
      GoAnnounces(s, pc);
    }
  }

  lemma GoAnnounces(s: Shared, pc: Pc)
    requires Ready(s, pc, Go)
    ensures var (s', pc') := if IsWorker(pc) then WorkerGo(s, pc) else CallerGo(s, pc);
            && (Announces(pc') && !Announces(pc) ==> !s.requested && s'.requested)
            && (s.requested ==> s'.requested)
  {
  }

  lemma StepOnce(s: Server, t: Thread, a: Action)
    requires Once(s) && Enabled(s, t, a)
    ensures Once(Apply(s, t, a))
  {
    NextAnnounces(s.shared, s.threads[t], a);
    NextRequests(s.shared, s.threads[t], a);
    hide Next, Ready;
  }

  lemma NextRequests(s: Shared, pc: Pc, a: Action)
    requires Ready(s, pc, a)
    ensures Announces(Next(s, pc, a).1) && !Next(s, pc, a).0.requested ==> Announces(pc)
  {
    NextAnnounces(s, pc, a);
    hide Next, Ready;
  }

  lemma {:induction false} RequestedOnce(run: seq<Server>, i: nat)
    requires IsRun(run) && i < |run|
    ensures Once(run[i])
  {
    hide Apply, Enabled;
    if i > 0 {
      RequestedOnce(run, i - 1);
      assert StepTo(run[i - 1], run[i - 1 + 1]);
      hide Once;
      var t, a :| Enabled(run[i - 1], t, a) && Apply(run[i - 1], t, a) == run[i];
      StepOnce(run[i - 1], t, a);
    }
  }

  // ------------------------------------------------------------------- how serving ends

  /** On its way out of `serve_forever`, or stopped by a failing `poll`. */
  predicate Serves(pc: Pc) { InLoop(pc) || InJoin(pc) || pc == Threw(PollFailed) }

  lemma MoveServes(s: Server, s': Server, t: Thread)
    requires (s.shared.closed ==> s.shared.requested) && D.MovesTo(s, s') && t in s.threads
    requires A.Sound(s.shared, s.threads[t]) && Serves(s.threads[t])
    ensures t in s'.threads && Serves(s'.threads[t])
  {
    hide Next, InLoop, InJoin, A.Sound;
    var u, a :| D.Moves(s, u, a) && Apply(s, u, a) == s';
    if u == t {
      NextFollows(s.shared, s.threads[t], a);
      JoinStarts();
    }
  }

  lemma JoinStarts()
    ensures InJoin(PoolClose) && InJoin(Exchange(true))
  {
  }

  lemma ServingStops(pc: Pc)
    requires Serves(pc) && D.Stopped(pc)
    ensures pc == Returned || pc == Threw(PollFailed)
  {
  }

  lemma {:induction false} MovesServe(run: seq<Server>, i: nat, j: nat, t: Thread)
    requires D.RunsOut(run, i) && i <= j < |run| && t in run[i].threads && Serves(run[i].threads[t])
    ensures t in run[j].threads && Serves(run[j].threads[t])
    decreases j
  {
    hide Serves, D.MovesTo, IsRun, D.Halted, A.Sound;
    if i < j {
      MovesServe(run, i, j - 1, t);
      A.RunInv(run, j - 1);
      assert D.MovesTo(run[j - 1], run[j - 1 + 1]);
      MoveServes(run[j - 1], run[j], t);
    }
  }

  /** A thread in `serve_forever`, or in its shutdown, when shutdown is requested ends with every worker joined,
      unless `poll` fails or it waits for the network. */
  lemma ServingReturns(run: seq<Server>, i: nat, t: Thread)
    requires D.RunsOut(run, i) && t in run[i].threads && (InLoop(run[i].threads[t]) || InJoin(run[i].threads[t]))
    ensures var last := run[|run| - 1];
            && t in last.threads
            && if last.threads[t] == Returned then AllExited(last.threads)
               else last.threads[t] == Threw(PollFailed) || D.AwaitsNetwork(last.shared, last.threads[t])
  {
    hide IsRun, InLoop, InJoin, Serves, D.Stopped, A.Balanced, A.Sound, D.Moves;
    var last := run[|run| - 1];
    assert Serves(run[i].threads[t]) by { LoopServes(run[i].threads[t]); }
    MovesServe(run, i, |run| - 1, t);
    D.MovesAccepting(run, i, |run| - 1);
    D.ShutdownMovesExactly(run, |run| - 1);
    A.RunInv(run, |run| - 1);
    assert !D.Live(last, t);
    if D.Stopped(last.threads[t]) {
      ServingStops(last.threads[t]);
    }
  }

  lemma LoopServes(pc: Pc)
    requires InLoop(pc) || InJoin(pc)
    ensures Serves(pc)
  {
  }
}
