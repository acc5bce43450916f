/** Shutdown comes to an end: nobody is left waiting, and the steps that remain are bounded. */
module ServerShutdown {
  import opened Finite
  import opened ServerProtocol
  import A = ServerAccounts
  import C = ServerCustody
  import M = ConnectionMachine

  // ---------------------------------------------------------- a request is never forgotten

  /** Once shutdown is requested the queue is closed, or the thread that asked is about to. */
  ghost predicate Announced(s: Server) {
    s.shared.requested && !s.shared.closed ==> exists t :: t in s.threads && s.threads[t].CloseQueue?
  }

  /** And the pipe is readable, or its write failed, or it is about to be written. */
  ghost predicate Piped(s: Server) {
    s.shared.requested && !s.shared.pipeReady && !s.shared.writeLost ==>
      exists t :: t in s.threads && (s.threads[t].CloseQueue? || s.threads[t].NotifyPipe?)
  }

  predicate Carries(s: Shared, pc: Pc, s': Shared, pc': Pc) {
    && (s.closed ==> s'.closed) && (s.requested ==> s'.requested)
    && (s.pipeReady ==> s'.pipeReady) && (s.writeLost ==> s'.writeLost)
    && (s'.requested && !s.requested ==> pc'.CloseQueue?)
    && (pc.CloseQueue? ==> pc'.CloseQueue? || (s'.closed && pc'.NotifyPipe?))
    && (pc.NotifyPipe? ==> pc'.NotifyPipe? || s'.pipeReady || s'.writeLost)
  }

  lemma NextCarries(s: Shared, pc: Pc, a: Action)
    requires Ready(s, pc, a)
    ensures var (s', pc') := Next(s, pc, a); Carries(s, pc, s', pc')
  {
    hide CallerGo, WorkerGo, Outcome;
    if !a.Go? {
      OutcomeCarries(s, pc, a);
    } else if IsWorker(pc) {
      WorkerCarries(s, pc);
    } else {
      CallerCarries(s, pc);
    }
  }

  lemma CallerCarries(s: Shared, pc: Pc)
    requires Ready(s, pc, Go) && !IsWorker(pc)
    ensures var (s', pc') := CallerGo(s, pc); Carries(s, pc, s', pc')
  {
  }

  lemma WorkerCarries(s: Shared, pc: Pc)
    requires Ready(s, pc, Go) && IsWorker(pc)
    ensures var (s', pc') := WorkerGo(s, pc); Carries(s, pc, s', pc')
  {
  }

  lemma OutcomeCarries(s: Shared, pc: Pc, a: Action)
    requires Ready(s, pc, a) && !a.Go?
    ensures var (s', pc') := Outcome(s, pc, a); Carries(s, pc, s', pc')
  {
  }

  lemma StepAnnounced(s: Server, t: Thread, a: Action)
    requires Announced(s) && Piped(s) && Enabled(s, t, a)
    ensures Announced(Apply(s, t, a)) && Piped(Apply(s, t, a))
  {
    var s' := Apply(s, t, a);
    NextCarries(s.shared, s.threads[t], a);
    hide Next, Ready, IsWorker;
    assert t in s'.threads;
    assert forall u :: u in s.threads && u != t ==> u in s'.threads && s'.threads[u] == s.threads[u];
  }

  lemma {:induction false} RunAnnounced(run: seq<Server>, i: nat)
    requires IsRun(run) && i < |run|
    ensures Announced(run[i]) && Piped(run[i])
  {
    hide Apply, Enabled;
    if i > 0 {
      RunAnnounced(run, i - 1);
      assert StepTo(run[i - 1], run[i - 1 + 1]);
      var t, a :| Enabled(run[i - 1], t, a) && Apply(run[i - 1], t, a) == run[i];
      hide Announced, Piped;
      StepAnnounced(run[i - 1], t, a);
    }
  }

  // ------------------------------------------------------------------------ no deadlock

  /** Outside every call, or, for a worker, out of its loop. */
  predicate Stopped(pc: Pc) { pc.Idle? || pc.Threw? || pc.Returned? || pc.Exited? }

  /** A step that needs no new call, no signal and no new client. */
  predicate Moves(s: Server, t: Thread, a: Action) {
    Enabled(s, t, a) && !a.Begin? && !a.Signal? && !a.AcceptReturns? && (a.PollReturns? ==> s.shared.pipeReady)
  }

  /** Waiting for a client in `accept`, which is a blocking call, or in `poll` with nothing to read. */
  predicate AwaitsNetwork(s: Shared, pc: Pc) { pc.Accepting? || (pc.Poll? && !s.pipeReady) }

  /** A thread that has not finished and does not wait for the network. */
  predicate Live(s: Server, t: Thread) {
    t in s.threads && !Stopped(s.threads[t]) && !AwaitsNetwork(s.shared, s.threads[t])
  }

  lemma ThreadMoves(s: Server, t: Thread) returns (a: Action)
    requires s.shared.closed && Live(s, t) && !s.threads[t].Joining?
    ensures Moves(s, t, a)
  {
    match s.threads[t]
    case Poll => a := PollReturns(PipeReadable);
    case Serving(_) => a := ServeReturns(M.PeerClosed);
    case NotifyPipe(_) => a := WriteReturns(true);
    case _ => a := Go;
  }

  lemma LiveMoves(run: seq<Server>, i: nat, t: Thread)
    requires IsRun(run) && i < |run| && run[i].shared.requested && Live(run[i], t)
    ensures exists u, a :: Moves(run[i], u, a)
  {
    var s := run[i];
    RunAnnounced(run, i);
    if u :| u in s.threads && s.threads[u].CloseQueue? {
      assert Moves(s, u, Go);
    } else if s.threads[t].Joining? {
      if AllExited(s.threads) {
        assert Moves(s, t, Go);
      } else {
        var u :| u in s.threads && IsWorker(s.threads[u]) && !s.threads[u].Exited?;
        var a := ThreadMoves(s, u);
      }
    } else {
      var a := ThreadMoves(s, t);
    }
  }

  /** Once shutdown is requested the server can go on exactly as long as some thread has neither
      finished nor waits for the network; and with the pipe written, exactly as long as some thread
      has neither finished nor sits in `accept`. */
  lemma ShutdownMovesExactly(run: seq<Server>, i: nat)
    requires IsRun(run) && i < |run| && run[i].shared.requested
    ensures (exists u, a :: Moves(run[i], u, a)) <==> (exists t :: Live(run[i], t))
    ensures run[i].shared.pipeReady || !run[i].shared.writeLost ==>
              ((exists u, a :: Moves(run[i], u, a)) <==>
               exists t :: t in run[i].threads && !Stopped(run[i].threads[t]) && !run[i].threads[t].Accepting?)
  {
    var s := run[i];
    RunAnnounced(run, i);
    if u, a :| Moves(s, u, a) {
      assert Live(s, u);
    }
    if t :| Live(s, t) {
      LiveMoves(run, i, t);
    }
    if t :| t in s.threads && !Stopped(s.threads[t]) && !s.threads[t].Accepting? {
      if !s.shared.pipeReady && !s.shared.writeLost {
        var u :| u in s.threads && (s.threads[u].CloseQueue? || s.threads[u].NotifyPipe?);
        assert Live(s, u);
      } else if s.shared.pipeReady {
        assert Live(s, t);
      }
    }
  }

  // ------------------------------------------------------------- stuck in `accept`

  const WORKER: Thread := 0
  const ACCEPTOR: Thread := 1
  const CALLER: Thread := 2

  /** One worker, one thread in `serve_forever`, one in `request_shutdown`. */
  function Trio(shared: Shared, worker: Pc, acceptor: Pc, caller: Pc): Server {
    Server(shared, map[WORKER := worker, ACCEPTOR := acceptor, CALLER := caller])
  }

  /** The acceptor goes from `poll` to `accept` just before shutdown is requested, and the client it
      was to accept has gone. */
  function Hang(): seq<Server> {
    var s := Fresh(1);
    var asked := s.(requested := true);
    var shut := asked.(closed := true);
    var told := shut.(pipeReady := true);
    [ Trio(s, Popping, Idle, Idle),
      Trio(s, Popping, LoopTest, Idle),
      Trio(s, Popping, Poll, Idle),
      Trio(s, Popping, Accepting(true), Idle),
      Trio(s, Popping, Accepting(true), Exchange(false)),
      Trio(asked, Popping, Accepting(true), CloseQueue(false)),
      Trio(shut, Popping, Accepting(true), NotifyPipe(false)),
      Trio(told, Popping, Accepting(true), Idle),
      Trio(told, Exited, Accepting(true), Idle) ]
  }

  lemma WorkerStep(s: Shared, pc: Pc, a: Action, s': Shared, pc': Pc, acceptor: Pc, caller: Pc)
    requires !pc.Joining? && Ready(s, pc, a) && Next(s, pc, a) == (s', pc')
    ensures StepTo(Trio(s, pc, acceptor, caller), Trio(s', pc', acceptor, caller))
  {
    hide Next, Ready;
    var before, after := Trio(s, pc, acceptor, caller), Trio(s', pc', acceptor, caller);
    assert after.threads == before.threads[WORKER := pc'];
    assert Enabled(before, WORKER, a) && Apply(before, WORKER, a) == after;
  }

  lemma AcceptorStep(s: Shared, pc: Pc, a: Action, s': Shared, pc': Pc, worker: Pc, caller: Pc)
    requires !pc.Joining? && Ready(s, pc, a) && Next(s, pc, a) == (s', pc')
    ensures StepTo(Trio(s, worker, pc, caller), Trio(s', worker, pc', caller))
  {
    hide Next, Ready;
    var before, after := Trio(s, worker, pc, caller), Trio(s', worker, pc', caller);
    assert after.threads == before.threads[ACCEPTOR := pc'];
    assert Enabled(before, ACCEPTOR, a) && Apply(before, ACCEPTOR, a) == after;
  }

  lemma CallerStep(s: Shared, pc: Pc, a: Action, s': Shared, pc': Pc, worker: Pc, acceptor: Pc)
    requires !pc.Joining? && Ready(s, pc, a) && Next(s, pc, a) == (s', pc')
    ensures StepTo(Trio(s, worker, acceptor, pc), Trio(s', worker, acceptor, pc'))
  {
    hide Next, Ready;
    var before, after := Trio(s, worker, acceptor, pc), Trio(s', worker, acceptor, pc');
    assert after.threads == before.threads[CALLER := pc'];
    assert Enabled(before, CALLER, a) && Apply(before, CALLER, a) == after;
  }

  lemma AcceptorSteps(s: Shared)
    requires !s.requested && !s.pipeReady
    ensures StepTo(Trio(s, Popping, Idle, Idle), Trio(s, Popping, LoopTest, Idle))
    ensures StepTo(Trio(s, Popping, LoopTest, Idle), Trio(s, Popping, Poll, Idle))
    ensures StepTo(Trio(s, Popping, Poll, Idle), Trio(s, Popping, Accepting(true), Idle))
  {
    hide Trio, StepTo;
    AcceptorStep(s, Idle, Begin(LoopTest), s, LoopTest, Popping, Idle);
    AcceptorStep(s, LoopTest, Go, s, Poll, Popping, Idle);
    AcceptorStep(s, Poll, PollReturns(ListenerReadable), s, Accepting(true), Popping, Idle);
  }

  lemma CallerSteps(s: Shared, asked: Shared, shut: Shared, told: Shared)
    requires !s.requested && !s.writeLost && s.queue == []
    requires asked == s.(requested := true) && shut == asked.(closed := true) && told == shut.(pipeReady := true)
    ensures StepTo(Trio(s, Popping, Accepting(true), Idle), Trio(s, Popping, Accepting(true), Exchange(false)))
    ensures StepTo(Trio(s, Popping, Accepting(true), Exchange(false)),
                   Trio(asked, Popping, Accepting(true), CloseQueue(false)))
    ensures StepTo(Trio(asked, Popping, Accepting(true), CloseQueue(false)),
                   Trio(shut, Popping, Accepting(true), NotifyPipe(false)))
    ensures StepTo(Trio(shut, Popping, Accepting(true), NotifyPipe(false)), Trio(told, Popping, Accepting(true), Idle))
    ensures StepTo(Trio(told, Popping, Accepting(true), Idle), Trio(told, Exited, Accepting(true), Idle))
  {
    hide Trio, StepTo;
    CallerStep(s, Idle, Begin(Exchange(false)), s, Exchange(false), Popping, Accepting(true));
    CallerStep(s, Exchange(false), Go, asked, CloseQueue(false), Popping, Accepting(true));
    CallerStep(asked, CloseQueue(false), Go, shut, NotifyPipe(false), Popping, Accepting(true));
    CallerStep(shut, NotifyPipe(false), WriteReturns(true), told, Idle, Popping, Accepting(true));
    WorkerStep(told, Popping, Go, told, Exited, Accepting(true), Idle);
  }

  lemma HangStarts()
    ensures Initial(Trio(Fresh(1), Popping, Idle, Idle))
  {
    assert Trio(Fresh(1), Popping, Idle, Idle).threads[WORKER].Popping?;
  }

  lemma HangIsRun()
    ensures IsRun(Hang())
  {
    HangStarts();
    var s := Fresh(1);
    var asked := s.(requested := true);
    var shut := asked.(closed := true);
    var told := shut.(pipeReady := true);
    AcceptorSteps(s);
    CallerSteps(s, asked, shut, told);
    hide Trio, StepTo, Initial, Fresh;
  }

  /** So shutdown need not end: a run after which shutdown is requested, the queue closed, the pipe
      readable and every worker gone, but `serve_forever` sits in `accept` and nothing can move. */
  lemma AcceptHangs()
    ensures IsRun(Hang())
    ensures var s := Hang()[8];
            && s.shared.requested && s.shared.closed && s.shared.pipeReady && !s.shared.writeLost
            && AllExited(s.threads) && s.threads[ACCEPTOR] == Accepting(true)
            && !exists u, a :: Moves(s, u, a)
  {
    HangIsRun();
    var run := Hang();
    var s := run[8];
    assert s.shared.requested && s.shared.pipeReady;
    assert forall t :: t in s.threads ==> t == WORKER || t == ACCEPTOR || t == CALLER;
    ShutdownMovesExactly(run, 8);
  }

  /** Before shutdown too: an acceptor blocked on a full queue always has a worker that can go on. */
  lemma FullQueueMoves(run: seq<Server>, i: nat, t: Thread)
    requires IsRun(run) && i < |run| && t in run[i].threads && run[i].threads[t].Dispatching?
    ensures exists u, a :: Moves(run[i], u, a)
  {
    var s := run[i];
    if s.shared.closed || |s.shared.queue| < s.shared.capacity {
      assert Moves(s, t, Go);
    } else {
      A.RunInv(run, i);
      A.WorkerThere(run, i);
      C.RunSizes(run, i);
      var u :| u in s.threads && IsWorker(s.threads[u]);
      assert A.Sound(s.shared, s.threads[u]);
      var a := if s.threads[u].Serving? then ServeReturns(M.PeerClosed) else Go;
      assert Moves(s, u, a);
    }
  }

  // -------------------------------------------------------------------------- termination

  /** The steps a thread may still take once shutdown is requested, with those that serve what it pushes. */
  function Due(pc: Pc): nat {
    match pc
    case Joining => 1
    case Popping => 1
    case PoolClose => 2
    case Leaving => 2
    case LoopTest => 3
    case NotifyPipe(_) => 3
    case Recorded(_) => 3
    case Errored => 3
    case CloseQueue(_) => 4
    case RefusedTest(_) => 4
    case Pushed(_) => 4
    case Completed(_, _) => 4
    case Unwinding(_) => 4
    case Exchange(_) => 5
    case Refused(_) => 5
    case Served(_, _) => 5
    case Dropping(_, _) => 6
    case Serving(_) => 6
    case Took(_) => 7
    case Dispatching(_, _) => 12
    case Accepted(_, _) => 13
    case Accepting(_) => 14
    case Poll => 15
    case _ => 0
  }

  function Behind(m: Threads, k: nat): set<Thread> { set t | t in m && Due(m[t]) >= k }

  /** The sum of `Due` over all threads, up to `k` for each. */
  function AllDue(m: Threads, k: nat): nat { if k == 0 then 0 else |Behind(m, k)| + AllDue(m, k - 1) }

  function Min(a: nat, b: nat): nat { if a < b then a else b }

  lemma BehindMoves(m: Threads, t: Thread, pc: Pc, k: nat)
    requires t in m
    ensures |Behind(m[t := pc], k)| + One(Due(m[t]) >= k) == |Behind(m, k)| + One(Due(pc) >= k)
  {
    hide Due;
    assert Behind(m[t := pc], k) == (Behind(m, k) - {t}) + (if Due(pc) >= k then {t} else {});
  }

  lemma {:induction false} AllDueMoves(m: Threads, t: Thread, pc: Pc, k: nat)
    requires t in m
    ensures AllDue(m[t := pc], k) + Min(Due(m[t]), k) == AllDue(m, k) + Min(Due(pc), k)
  {
    hide Due, Behind;
    if k > 0 {
      AllDueMoves(m, t, pc, k - 1);
      BehindMoves(m, t, pc, k);
    }
  }

  lemma {:induction false} AllDueWithin(m: Threads, k: nat)
    ensures AllDue(m, k) <= k * |m|
  {
    if k > 0 {
      AllDueWithin(m, k - 1);
      SmallerSet(Behind(m, k), m.Keys);
      assert k * |m| == (k - 1) * |m| + |m|;
    }
  }

  predicate Shrinks(s: Shared, pc: Pc, s': Shared, pc': Pc) {
    s'.requested && 7 * |s'.queue| + Due(pc') < 7 * |s.queue| + Due(pc)
  }

  lemma CallerShrinks(s: Shared, pc: Pc)
    requires s.requested && Ready(s, pc, Go) && !IsWorker(pc)
    ensures var (s', pc') := CallerGo(s, pc); Shrinks(s, pc, s', pc')
  {
  }

  lemma WorkerShrinks(s: Shared, pc: Pc)
    requires s.requested && Ready(s, pc, Go) && IsWorker(pc)
    ensures var (s', pc') := WorkerGo(s, pc); Shrinks(s, pc, s', pc')
  {
  }

  lemma NextShrinks(s: Shared, pc: Pc, a: Action)
    requires s.requested && Ready(s, pc, a) && !a.Begin? && !a.Signal?
    ensures var (s', pc') := Next(s, pc, a); Shrinks(s, pc, s', pc')
  {
    hide CallerGo, WorkerGo;
    if a.Go? {
      if IsWorker(pc) {
        WorkerShrinks(s, pc);
      } else {
        CallerShrinks(s, pc);
      }
    }
  }

  lemma DueBound(pc: Pc)
    ensures Due(pc) <= 15
  {
  }

  function Remaining(s: Server): nat { 7 * |s.shared.queue| + AllDue(s.threads, 15) }

  lemma StepShrinks(s: Server, t: Thread, a: Action)
    requires s.shared.requested && Enabled(s, t, a) && !a.Begin? && !a.Signal?
    ensures var s' := Apply(s, t, a); s'.shared.requested && Remaining(s') < Remaining(s)
  {
    hide Next, Ready, AllDue, Due;
    var pc' := Next(s.shared, s.threads[t], a).1;
    NextShrinks(s.shared, s.threads[t], a);
    AllDueMoves(s.threads, t, pc', 15);
    DueBound(s.threads[t]);
    DueBound(pc');
  }

  /** A step of a call that has already begun, or of a worker. */
  ghost predicate Continues(s: Server, s': Server) {
    exists t, a :: Enabled(s, t, a) && !a.Begin? && !a.Signal? && Apply(s, t, a) == s'
  }

  /** Once shutdown is requested, calls already made and workers take no more than `Remaining` steps in
      whatever order they come, whatever clients do. */
  lemma {:induction false} ShutdownEnds(run: seq<Server>, i: nat)
    requires IsRun(run) && i < |run| && run[i].shared.requested
    requires forall j :: i <= j < |run| - 1 ==> Continues(run[j], run[j + 1])
    ensures |run| - 1 - i <= Remaining(run[i]) <= 7 * run[i].shared.capacity + 15 * |run[i].threads|
    decreases |run| - i
  {
    C.RunSizes(run, i);
    AllDueWithin(run[i].threads, 15);
    hide Apply, Enabled, IsRun, AllDue;
    if i < |run| - 1 {
      assert Continues(run[i], run[i + 1]);
      var t, a :| Enabled(run[i], t, a) && !a.Begin? && !a.Signal? && Apply(run[i], t, a) == run[i + 1];
      StepShrinks(run[i], t, a);
      ShutdownEnds(run, i + 1);
    }
  }

  // ------------------------------------------------------------ exactly when shutdown ends

  /** A step that waits for no client, and does not come from one. */
  ghost predicate MovesTo(s: Server, s': Server) {
    exists t, a :: Moves(s, t, a) && Apply(s, t, a) == s'
  }

  /** Once shutdown is requested nobody enters `accept` any more, and nobody leaves it without a client. */
  lemma NextAccepting(s: Shared, pc: Pc, a: Action)
    requires Ready(s, pc, a) && s.requested && !a.Begin? && !a.AcceptReturns? && (a.PollReturns? ==> s.pipeReady)
    ensures var (s', pc') := Next(s, pc, a); s'.requested && (pc'.Accepting? <==> pc.Accepting?)
  {
    hide CallerGo, WorkerGo;
    if a.Go? {
      GoAccepting(s, pc);
    }
  }

  lemma GoAccepting(s: Shared, pc: Pc)
    requires Ready(s, pc, Go) && s.requested
    ensures var (s', pc') := Next(s, pc, Go); s'.requested && !pc.Accepting? && !pc'.Accepting?
  {
    if IsWorker(pc) {
      hide CallerGo;
    } else {
      hide WorkerGo;
    }
  }

  ghost predicate SameAccepting(m: Threads, m': Threads) {
    m.Keys == m'.Keys && forall t :: t in m ==> (m[t].Accepting? <==> m'[t].Accepting?)
  }

  lemma MoveAccepting(s: Server, s': Server)
    requires s.shared.requested && MovesTo(s, s')
    ensures s'.shared.requested && SameAccepting(s.threads, s'.threads)
  {
    hide Next, Ready;
    var t, a :| Moves(s, t, a) && Apply(s, t, a) == s';
    NextAccepting(s.shared, s.threads[t], a);
  }

  lemma {:induction false} MovesAccepting(run: seq<Server>, i: nat, j: nat)
    requires i <= j < |run| && run[i].shared.requested
    requires forall k :: i <= k < |run| - 1 ==> MovesTo(run[k], run[k + 1])
    ensures run[j].shared.requested && SameAccepting(run[i].threads, run[j].threads)
    decreases j
  {
    hide MovesTo;
    if i < j {
      MovesAccepting(run, i, j - 1);
      assert MovesTo(run[j - 1], run[j - 1 + 1]);
      MoveAccepting(run[j - 1], run[j]);
    }
  }

  ghost predicate Halted(s: Server) { !exists u, a :: Moves(s, u, a) }

  /** From state `i` on the server runs, without new calls or clients, until nothing can move. */
  ghost predicate RunsOut(run: seq<Server>, i: nat) {
    && IsRun(run) && i < |run| && run[i].shared.requested
    && (forall k :: i <= k < |run| - 1 ==> MovesTo(run[k], run[k + 1]))
    && Halted(run[|run| - 1])
  }

  /** Exactly when shutdown ends: left to itself after a request the server comes to a halt, in no more
      than `Remaining` steps, and then the threads that have not finished are those that were in `accept`
      when it was requested, and those in `poll` if the pipe could not be written. So, with the pipe
      written, everybody has finished if and only if nobody was in `accept`. */
  lemma ShutdownEndsExactly(run: seq<Server>, i: nat)
    requires RunsOut(run, i)
    ensures |run| - 1 - i <= Remaining(run[i])
    ensures var m, last := run[i].threads, run[|run| - 1];
            && m.Keys == last.threads.Keys
            && forall t :: t in m ==>
                 (!Stopped(last.threads[t]) <==>
                  m[t].Accepting? || (last.threads[t].Poll? && !last.shared.pipeReady))
    ensures var m, last := run[i].threads, run[|run| - 1];
            last.shared.pipeReady || !last.shared.writeLost ==>
              ((forall t :: t in last.threads ==> Stopped(last.threads[t])) <==>
               (forall t :: t in m ==> !m[t].Accepting?))
  {
    var m, last := run[i].threads, run[|run| - 1];
    MovesContinue(run, i);
    ShutdownEnds(run, i);
    MovesAccepting(run, i, |run| - 1);
    ShutdownMovesExactly(run, |run| - 1);
    hide IsRun, Moves, Remaining;
    forall t | t in m
      ensures !Stopped(last.threads[t]) <==> m[t].Accepting? || (last.threads[t].Poll? && !last.shared.pipeReady)
    {
      assert !Live(last, t);
    }
  }

  lemma MovesContinue(run: seq<Server>, i: nat)
    requires RunsOut(run, i)
    ensures forall k :: i <= k < |run| - 1 ==> Continues(run[k], run[k + 1])
  {
    hide Apply, Enabled, IsRun;
    forall k | i <= k < |run| - 1
      ensures Continues(run[k], run[k + 1])
    {
      assert MovesTo(run[k], run[k + 1]);
      var t, a :| Moves(run[k], t, a) && Apply(run[k], t, a) == run[k + 1];
    }
  }
}
