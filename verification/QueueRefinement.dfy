/** Why the server's model may push, pop and close in one step. The program as it runs has both: the
    server's threads, and behind each call on the queue its locks, sleeps and notifications. Every call
    takes effect at one moment between its start and its return, and there it does exactly what the
    server's step does; so every run of the two together is a run of the server's model, and of the
    queue's. */
module QueueRefinement {
  import Q = BoundedQueue
  import P = ServerProtocol

  type Thread = nat

  // ---------------------------------------------------------------------- calls and results

  /** The server's view of the queue. */
  predicate Sees(s: P.Shared, q: Q.Shared) { s.capacity == q.capacity && s.queue == q.queue && s.closed == q.closed }

  /** The server's state after the queue has changed. */
  function With(s: P.Shared, q: Q.Shared): P.Shared { s.(queue := q.queue, closed := q.closed) }

  /** A server thread about to call the queue. */
  predicate AtCall(pc: P.Pc) { pc.Dispatching? || pc.Popping? || pc.CloseQueue? || pc.PoolClose? }

  function Call(pc: P.Pc): Q.Pc
    requires AtCall(pc)
  {
    match pc
    case Dispatching(fd, _) => Q.PushStart(fd)
    case Popping => Q.PopStart
    case _ => Q.CloseStart
  }

  /** A call that has not taken effect yet. */
  predicate Pending(pc: Q.Pc) {
    pc.PushStart? || pc.PushAsleep? || pc.PushWoken? || pc.PopStart? || pc.PopAsleep? || pc.PopWoken? || pc.CloseStart?
  }

  /** The pending call is the one the server's thread has made. */
  predicate Fits(pc: P.Pc, call: Q.Pc) {
    match call
    case PushStart(item) => pc.Dispatching? && pc.fd == item
    case PushAsleep(item) => pc.Dispatching? && pc.fd == item
    case PushWoken(item) => pc.Dispatching? && pc.fd == item
    case PopStart => pc.Popping?
    case PopAsleep => pc.Popping?
    case PopWoken => pc.Popping?
    case CloseStart => pc.CloseQueue? || pc.PoolClose?
    case _ => true
  }

  /** Where the caller goes with the result. */
  function Result(pc: P.Pc, op: Q.Op): P.Pc {
    match pc
    case Dispatching(fd, forever) => if op.Pushed? then P.Pushed(forever) else P.Dropping(fd, forever)
    case Popping => if op.Popped? then P.Took(op.item) else P.Exited
    case CloseQueue(join) => P.NotifyPipe(join)
    case PoolClose => P.Joining
    case _ => pc
  }

  // ---------------------------------------------------------------------- one step of the queue

  /** A step decides a call when its thread runs the critical section and need not sleep. */
  predicate Decides(q: Q.System, t: Thread, q': Q.System) {
    t in q.threads && t in q'.threads && Pending(q.threads[t]) && !Pending(q'.threads[t])
  }

  /** The server's step for the call is ready, changes the queue the same way and yields the result the
      queue recorded. */
  ghost predicate IsServerStep(s: P.Shared, pc: P.Pc, q: Q.System, q': Q.System) {
    && |q'.ops| == |q.ops| + 1 && q'.ops[..|q.ops|] == q.ops
    && P.Ready(s, pc, P.Go)
    && P.Next(s, pc, P.Go) == (With(s, q'.shared), Result(pc, q'.ops[|q.ops|]))
  }

  lemma PushRefines(s: P.Shared, pc: P.Pc, q: Q.System, t: Thread)
    requires pc.Dispatching? && t in q.threads && Sees(s, q.shared)
    ensures var q' := Q.RunPush(q, t, pc.fd);
            if P.Ready(s, pc, P.Go) then !Pending(q'.threads[t]) && IsServerStep(s, pc, q, q')
            else q' == q.(threads := q.threads[t := Q.PushAsleep(pc.fd)])
  {
  }

  lemma PopRefines(s: P.Shared, pc: P.Pc, q: Q.System, t: Thread)
    requires pc.Popping? && t in q.threads && Sees(s, q.shared)
    ensures var q' := Q.RunPop(q, t);
            if P.Ready(s, pc, P.Go) then !Pending(q'.threads[t]) && IsServerStep(s, pc, q, q')
            else q' == q.(threads := q.threads[t := Q.PopAsleep])
  {
  }

  lemma CloseRefines(s: P.Shared, pc: P.Pc, q: Q.System, t: Thread)
    requires (pc.CloseQueue? || pc.PoolClose?) && Sees(s, q.shared)
    requires Q.Enabled(q, t, Q.Run) && q.threads[t].CloseStart?
    ensures var q' := Q.Apply(q, t, Q.Run);
            !Pending(q'.threads[t]) && IsServerStep(s, pc, q, q')
  {
  }

  lemma DecidingRuns(q: Q.System, t: Thread, a: Q.Action)
    requires Q.Enabled(q, t, a) && Decides(q, t, Q.Apply(q, t, a))
    ensures a.Run? && !q.threads[t].PushAsleep? && !q.threads[t].PopAsleep?
  {
  }

  /** The steps that decide no call leave the queue alone, and a call becomes pending only by being made. */
  lemma OtherStepsStutter(q: Q.System, t: Thread, a: Q.Action)
    requires Q.Enabled(q, t, a) && !Decides(q, t, Q.Apply(q, t, a))
    ensures var q' := Q.Apply(q, t, a);
            && q'.shared == q.shared && q'.ops == q.ops
            && t in q'.threads && (Pending(q'.threads[t]) && !Pending(q.threads[t]) ==> a.Begin?)
  {
  }

  /** No step changes which call another thread has pending. */
  lemma OthersKeep(q: Q.System, t: Thread, a: Q.Action, u: Thread, pc: P.Pc)
    requires Q.Enabled(q, t, a) && u in q.threads && (u != t || (Pending(q.threads[u]) && !a.Begin?))
    ensures u in Q.Apply(q, t, a).threads && (Fits(pc, q.threads[u]) ==> Fits(pc, Q.Apply(q, t, a).threads[u]))
    ensures u != t ==> (Pending(Q.Apply(q, t, a).threads[u]) <==> Pending(q.threads[u]))
  {
  }

  /** Every step of the queue's threads either decides one call, and is then the server's step for it, or
      is invisible to the server. */
  lemma StepRefines(s: P.Shared, pc: P.Pc, q: Q.System, t: Thread, a: Q.Action)
    requires Q.Enabled(q, t, a) && Sees(s, q.shared) && Fits(pc, q.threads[t])
    ensures var q' := Q.Apply(q, t, a);
            if Decides(q, t, q') then IsServerStep(s, pc, q, q') else q'.shared == q.shared && q'.ops == q.ops
  {
    var q' := Q.Apply(q, t, a);
    if Decides(q, t, q') {
      DecidingRuns(q, t, a);
      hide IsServerStep, Q.RunPush, Q.RunPop;
      match q.threads[t]
      case PushStart(_) => PushDecides(s, pc, q, t);
      case PushWoken(_) => PushDecides(s, pc, q, t);
      case PopStart => PopDecides(s, pc, q, t);
      case PopWoken => PopDecides(s, pc, q, t);
      case CloseStart => CloseRefines(s, pc, q, t);
    } else {
      OtherStepsStutter(q, t, a);
    }
  }

  lemma PushDecides(s: P.Shared, pc: P.Pc, q: Q.System, t: Thread)
    requires pc.Dispatching? && t in q.threads && Sees(s, q.shared)
    ensures var q' := Q.RunPush(q, t, pc.fd);
            t in q'.threads && (!Pending(q'.threads[t]) ==> IsServerStep(s, pc, q, q'))
  {
    PushRefines(s, pc, q, t);
    hide IsServerStep, P.Ready;
  }

  lemma PopDecides(s: P.Shared, pc: P.Pc, q: Q.System, t: Thread)
    requires pc.Popping? && t in q.threads && Sees(s, q.shared)
    ensures var q' := Q.RunPop(q, t); t in q'.threads && (!Pending(q'.threads[t]) ==> IsServerStep(s, pc, q, q'))
  {
    PopRefines(s, pc, q, t);
    hide IsServerStep, P.Ready;
  }

  // ------------------------------------------------------------------- the program as it runs

  /** The server's threads, and the queue calls they are in. */
  datatype Program = Program(server: P.Server, calls: Q.System)

  /** A server thread makes its call. */
  predicate Calls(p: Program, t: Thread, p': Program) {
    && t in p.server.threads && t in p.calls.threads && AtCall(p.server.threads[t]) && p.calls.threads[t].Idle?
    && p'.server == p.server
    && p'.calls == Q.Apply(p.calls, t, Q.Begin(Call(p.server.threads[t])))
  }

  /** A call goes on; when it takes effect, its caller has the result. */
  predicate GoesOn(p: Program, t: Thread, a: Q.Action, p': Program) {
    && t in p.server.threads && Q.Enabled(p.calls, t, a) && !a.Begin?
    && p'.calls == Q.Apply(p.calls, t, a)
    && if Decides(p.calls, t, p'.calls) then
         && p'.calls.ops != []
         && var pc := Result(p.server.threads[t], p'.calls.ops[|p'.calls.ops| - 1]);
            p'.server == P.Server(With(p.server.shared, p'.calls.shared), p.server.threads[t := pc])
       else p'.server == p.server
  }

  /** A thread whose call has returned, or a signal, does something else. */
  predicate Elsewhere(p: Program, t: Thread, a: P.Action, p': Program) {
    && t in p.calls.threads && P.Enabled(p.server, t, a)
    && (a.Signal? || (p.calls.threads[t].Idle? && !(a.Go? && AtCall(p.server.threads[t]))))
    && p'.server == P.Apply(p.server, t, a) && p'.calls == p.calls
  }

  ghost predicate Steps(p: Program, p': Program) {
    || (exists t :: Calls(p, t, p'))
    || (exists t, a :: GoesOn(p, t, a, p'))
    || (exists t, a :: Elsewhere(p, t, a, p'))
  }

  ghost predicate IsRun(run: seq<Program>) {
    && run != [] && P.Initial(run[0].server) && Q.Initial(run[0].calls) && Matched(run[0])
    && forall i :: 0 <= i < |run| - 1 ==> Steps(run[i], run[i + 1])
  }

  /** The two views agree. */
  ghost predicate Matched(p: Program) {
    && p.server.threads.Keys == p.calls.threads.Keys
    && Sees(p.server.shared, p.calls.shared)
    && forall t :: t in p.calls.threads ==> Fits(p.server.threads[t], p.calls.threads[t])
  }

  // --------------------------------------------------------------------------- refinement

  ghost predicate ServerStutters(s: P.Server, s': P.Server) { s' == s || P.StepTo(s, s') }

  ghost predicate QueueStutters(q: Q.System, q': Q.System) { q' == q || Q.StepTo(q, q') }

  lemma CallsRefine(p: Program, t: Thread, p': Program)
    requires Matched(p) && Calls(p, t, p')
    ensures Matched(p') && ServerStutters(p.server, p'.server) && QueueStutters(p.calls, p'.calls)
  {
    assert Q.Enabled(p.calls, t, Q.Begin(Call(p.server.threads[t])));
  }

  /** Only a step at a call site touches the queue. */
  lemma ElsewhereKeeps(s: P.Shared, pc: P.Pc, a: P.Action)
    requires P.Ready(s, pc, a) && !(a.Go? && AtCall(pc))
    ensures var s' := P.Next(s, pc, a).0; s'.capacity == s.capacity && s'.queue == s.queue && s'.closed == s.closed
    ensures a.Signal? ==> P.Next(s, pc, a).1 == pc
  {
    hide P.CallerGo, P.WorkerGo;
    if a.Go? {
      GoKeeps(s, pc);
    }
  }

  lemma GoKeeps(s: P.Shared, pc: P.Pc)
    requires P.Ready(s, pc, P.Go) && !AtCall(pc)
    ensures var s' := if P.IsWorker(pc) then P.WorkerGo(s, pc).0 else P.CallerGo(s, pc).0;
            s'.capacity == s.capacity && s'.queue == s.queue && s'.closed == s.closed
  {
  }

  lemma ElsewhereRefines(p: Program, t: Thread, a: P.Action, p': Program)
    requires Matched(p) && Elsewhere(p, t, a, p')
    ensures Matched(p') && ServerStutters(p.server, p'.server) && QueueStutters(p.calls, p'.calls)
  {
    ElsewhereKeeps(p.server.shared, p.server.threads[t], a);
    hide P.Next, P.Ready, AtCall;
  }

  lemma GoesOnRefines(p: Program, t: Thread, a: Q.Action, p': Program)
    requires Matched(p) && GoesOn(p, t, a, p')
    ensures Matched(p') && ServerStutters(p.server, p'.server) && QueueStutters(p.calls, p'.calls)
  {
    var q, q', pc := p.calls, p'.calls, p.server.threads[t];
    StepRefines(p.server.shared, pc, q, t, a);
    StaysMatched(p, t, a, p');
    hide Q.Apply, Q.Enabled, P.Next, P.Ready, Result, Matched;
    if Decides(q, t, q') {
      assert P.Enabled(p.server, t, P.Go) by { AtCallNotJoining(pc, q.threads[t]); }
      assert p'.server == P.Apply(p.server, t, P.Go);
    }
  }

  lemma AtCallNotJoining(pc: P.Pc, call: Q.Pc)
    requires Fits(pc, call) && Pending(call)
    ensures !pc.Joining?
  {
  }

  lemma StaysMatched(p: Program, t: Thread, a: Q.Action, p': Program)
    requires Matched(p) && GoesOn(p, t, a, p')
    ensures Matched(p')
  {
    StepRefines(p.server.shared, p.server.threads[t], p.calls, t, a);
    forall u | u in p.calls.threads
      ensures u in p'.calls.threads && Fits(p'.server.threads[u], p'.calls.threads[u])
    {
      ThreadStaysMatched(p, t, a, p', u);
    }
    QueueKeys(p.calls, t, a);
    hide Q.Apply, Q.Enabled, Fits, P.Next, P.Ready, Result;
  }

  lemma QueueKeys(q: Q.System, t: Thread, a: Q.Action)
    requires Q.Enabled(q, t, a)
    ensures Q.Apply(q, t, a).threads.Keys == q.threads.Keys
    ensures Q.Apply(q, t, a).shared.capacity == q.shared.capacity
  {
  }

  lemma ThreadStaysMatched(p: Program, t: Thread, a: Q.Action, p': Program, u: Thread)
    requires Matched(p) && GoesOn(p, t, a, p') && u in p.calls.threads
    ensures u in p'.calls.threads && Fits(p'.server.threads[u], p'.calls.threads[u])
  {
    QueueKeys(p.calls, t, a);
    if u != t || (Pending(p.calls.threads[u]) && Pending(p'.calls.threads[u])) {
      OthersKeep(p.calls, t, a, u, p.server.threads[u]);
    } else {
      SettledFits(p.calls, t, a);
    }
    hide Q.Apply, Q.Enabled;
  }

  /** A call that is not pending fits any place. */
  lemma SettledFits(q: Q.System, t: Thread, a: Q.Action)
    requires Q.Enabled(q, t, a) && !a.Begin?
    ensures t in Q.Apply(q, t, a).threads
    ensures Pending(Q.Apply(q, t, a).threads[t]) ==> Pending(q.threads[t])
    ensures !Pending(Q.Apply(q, t, a).threads[t]) ==> forall pc :: Fits(pc, Q.Apply(q, t, a).threads[t])
  {
  }

  /** Each step of the program is a step of the server's model, or nothing to it; and so for the queue's. */
  lemma ProgramStepRefines(p: Program, p': Program)
    requires Matched(p) && Steps(p, p')
    ensures Matched(p') && ServerStutters(p.server, p'.server) && QueueStutters(p.calls, p'.calls)
  {
    hide Calls, GoesOn, Elsewhere, Matched, ServerStutters, QueueStutters;
    if t :| Calls(p, t, p') {
      CallsRefine(p, t, p');
    } else if t, a :| GoesOn(p, t, a, p') {
      GoesOnRefines(p, t, a, p');
    } else {
      var t, a :| Elsewhere(p, t, a, p');
      ElsewhereRefines(p, t, a, p');
    }
  }

  /** Whatever state the program reaches, the server's model reaches the server's part of it and the
      queue's model the queue's; so what is proved of every run of either holds of the program. */
  lemma {:induction false} ProgramRefines(run: seq<Program>, i: nat)
    returns (server: seq<P.Server>, calls: seq<Q.System>)
    requires IsRun(run) && i < |run|
    ensures Matched(run[i])
    ensures P.IsRun(server) && server[|server| - 1] == run[i].server
    ensures Q.IsRun(calls) && calls[|calls| - 1] == run[i].calls
  {
    hide Matched, Steps, P.StepTo, Q.StepTo, P.Initial, Q.Initial;
    if i == 0 {
      server, calls := [run[0].server], [run[0].calls];
    } else {
      server, calls := ProgramRefines(run, i - 1);
      assert Steps(run[i - 1], run[i - 1 + 1]);
      ProgramStepRefines(run[i - 1], run[i]);
      if run[i].server != run[i - 1].server {
        ServerRunGrows(server, run[i].server);
        server := server + [run[i].server];
      }
      if run[i].calls != run[i - 1].calls {
        QueueRunGrows(calls, run[i].calls);
        calls := calls + [run[i].calls];
      }
    }
  }

  lemma ServerRunGrows(run: seq<P.Server>, s: P.Server)
    requires P.IsRun(run) && P.StepTo(run[|run| - 1], s)
    ensures P.IsRun(run + [s])
  {
    hide P.StepTo, P.Initial;
  }

  lemma QueueRunGrows(run: seq<Q.System>, s: Q.System)
    requires Q.IsRun(run) && Q.StepTo(run[|run| - 1], s)
    ensures Q.IsRun(run + [s])
  {
    hide Q.StepTo, Q.Initial;
  }
}
