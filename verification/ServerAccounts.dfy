/** The server's counters, which no lock protects, and what shutdown leaves them at. */
module ServerAccounts {
  import opened Finite
  import opened ServerProtocol
  import C = ServerCustody
  import M = ConnectionMachine

  // ---------------------------------------------------------------------------- balances

  /** How far each counter lags behind, and the threads that owe the difference. */
  function NotCounted(s: Shared): int { s.nextFd - s.counters.accepted }

  function NotSettled(s: Shared): int { s.counters.accepted - s.counters.dispatched - s.counters.rejected }

  function NotDispatched(s: Shared): int {
    |s.queue| + s.counters.completed + s.counters.workerErrors - s.counters.dispatched
  }

  function NotReasoned(s: Shared): int { s.counters.completed - s.counters.reasons.Total() }

  function NotCountedFor(s: Shared, reason: EndReason): int {
    multiset(s.ended)[reason] - s.counters.reasons.Of(reason)
  }

  /** Every difference is exactly the number of threads between the two updates. */
  ghost predicate Balanced(s: Shared, m: Threads) {
    && NotCounted(s) == Num(m, Uncounted)
    && NotSettled(s) == Num(m, InDispatch)
    && NotDispatched(s) == Num(m, JustPushed) - Num(m, AtWork)
    && s.counters.active == Num(m, Active)
    && NotReasoned(s) == Num(m, Unreasoned)
    && forall reason :: NotCountedFor(s, reason) == Num(m, Owing(reason))
  }

  /** A step pays each difference it makes by moving its own thread in or out of the group. */
  predicate PaysAccept(s: Shared, pc: Pc, s': Shared, pc': Pc) {
    && NotCounted(s') - One(In(pc', Uncounted)) == NotCounted(s) - One(In(pc, Uncounted))
    && NotSettled(s') - One(In(pc', InDispatch)) == NotSettled(s) - One(In(pc, InDispatch))
  }

  predicate PaysDispatch(s: Shared, pc: Pc, s': Shared, pc': Pc) {
    NotDispatched(s') - One(In(pc', JustPushed)) + One(In(pc', AtWork))
    == NotDispatched(s) - One(In(pc, JustPushed)) + One(In(pc, AtWork))
  }

  predicate PaysServe(s: Shared, pc: Pc, s': Shared, pc': Pc) {
    && s'.counters.active - One(In(pc', Active)) == s.counters.active - One(In(pc, Active))
    && NotReasoned(s') - One(In(pc', Unreasoned)) == NotReasoned(s) - One(In(pc, Unreasoned))
  }

  predicate PaysReason(s: Shared, pc: Pc, s': Shared, pc': Pc, reason: EndReason) {
    NotCountedFor(s', reason) - One(In(pc', Owing(reason))) == NotCountedFor(s, reason) - One(In(pc, Owing(reason)))
  }

  lemma CallerPaysAccept(s: Shared, pc: Pc)
    requires Ready(s, pc, Go) && !IsWorker(pc)
    ensures var (s', pc') := CallerGo(s, pc); PaysAccept(s, pc, s', pc')
  {
  }

  lemma WorkerPaysAccept(s: Shared, pc: Pc)
    requires Ready(s, pc, Go) && IsWorker(pc)
    ensures var (s', pc') := WorkerGo(s, pc); PaysAccept(s, pc, s', pc')
  {
  }

  lemma OutcomePaysAccept(s: Shared, pc: Pc, a: Action)
    requires Ready(s, pc, a) && !a.Go?
    ensures var (s', pc') := Outcome(s, pc, a); PaysAccept(s, pc, s', pc')
  {
  }

  lemma CallerPaysDispatch(s: Shared, pc: Pc)
    requires Ready(s, pc, Go) && !IsWorker(pc)
    ensures var (s', pc') := CallerGo(s, pc); PaysDispatch(s, pc, s', pc')
  {
  }

  lemma WorkerPaysDispatch(s: Shared, pc: Pc)
    requires Ready(s, pc, Go) && IsWorker(pc)
    ensures var (s', pc') := WorkerGo(s, pc); PaysDispatch(s, pc, s', pc')
  {
  }

  lemma OutcomePaysDispatch(s: Shared, pc: Pc, a: Action)
    requires Ready(s, pc, a) && !a.Go?
    ensures var (s', pc') := Outcome(s, pc, a); PaysDispatch(s, pc, s', pc')
  {
  }

  lemma CallerPaysServe(s: Shared, pc: Pc)
    requires Ready(s, pc, Go) && !IsWorker(pc)
    ensures var (s', pc') := CallerGo(s, pc); PaysServe(s, pc, s', pc')
  {
    hide Reasons.Total;
  }

  lemma WorkerPaysServe(s: Shared, pc: Pc)
    requires Ready(s, pc, Go) && IsWorker(pc)
    ensures var (s', pc') := WorkerGo(s, pc); PaysServe(s, pc, s', pc')
  {
    hide Reasons.Total, Reasons.Bump;
    if pc.Completed? {
      s.counters.reasons.Bumped(pc.reason, pc.reason);
    }
  }

  lemma OutcomePaysServe(s: Shared, pc: Pc, a: Action)
    requires Ready(s, pc, a) && !a.Go?
    ensures var (s', pc') := Outcome(s, pc, a); PaysServe(s, pc, s', pc')
  {
    hide Reasons.Total;
  }

  lemma CallerPaysReason(s: Shared, pc: Pc, reason: EndReason)
    requires Ready(s, pc, Go) && !IsWorker(pc)
    ensures var (s', pc') := CallerGo(s, pc); PaysReason(s, pc, s', pc', reason)
  {
    hide Reasons.Of;
  }

  lemma WorkerPaysReason(s: Shared, pc: Pc, reason: EndReason)
    requires Ready(s, pc, Go) && IsWorker(pc)
    ensures var (s', pc') := WorkerGo(s, pc); PaysReason(s, pc, s', pc', reason)
  {
    hide Reasons.Of, Reasons.Bump;
    if pc.Completed? {
      s.counters.reasons.Bumped(pc.reason, reason);
    }
  }

  lemma OutcomePaysReason(s: Shared, pc: Pc, a: Action, reason: EndReason)
    requires Ready(s, pc, a) && !a.Go?
    ensures var (s', pc') := Outcome(s, pc, a); PaysReason(s, pc, s', pc', reason)
  {
    hide Reasons.Of;
  }

  lemma NextPays(s: Shared, pc: Pc, a: Action, reason: EndReason)
    requires Ready(s, pc, a)
    ensures var (s', pc') := Next(s, pc, a);
            && PaysAccept(s, pc, s', pc') && PaysDispatch(s, pc, s', pc')
            && PaysServe(s, pc, s', pc') && PaysReason(s, pc, s', pc', reason)
  {
    hide PaysAccept, PaysDispatch, PaysServe, PaysReason, CallerGo, WorkerGo, Outcome, Ready, IsWorker;
    if !a.Go? {
      OutcomePaysAccept(s, pc, a);
      OutcomePaysDispatch(s, pc, a);
      OutcomePaysServe(s, pc, a);
      OutcomePaysReason(s, pc, a, reason);
    } else if IsWorker(pc) {
      WorkerPaysAccept(s, pc);
      WorkerPaysDispatch(s, pc);
      WorkerPaysServe(s, pc);
      WorkerPaysReason(s, pc, reason);
    } else {
      CallerPaysAccept(s, pc);
      CallerPaysDispatch(s, pc);
      CallerPaysServe(s, pc);
      CallerPaysReason(s, pc, reason);
    }
  }

  lemma StepBalances(s: Server, t: Thread, a: Action)
    requires Balanced(s.shared, s.threads) && Enabled(s, t, a)
    ensures var s' := Apply(s, t, a); Balanced(s'.shared, s'.threads)
  {
    var pc := s.threads[t];
    var pc' := Next(s.shared, pc, a).1;
    NextPays(s.shared, pc, a, M.PeerClosed);
    hide Num, Next, Ready, In, NotCounted, NotSettled, NotDispatched, NotReasoned, NotCountedFor;
    NumMoves(s.threads, t, pc', Uncounted);
    NumMoves(s.threads, t, pc', InDispatch);
    NumMoves(s.threads, t, pc', JustPushed);
    NumMoves(s.threads, t, pc', AtWork);
    NumMoves(s.threads, t, pc', Active);
    NumMoves(s.threads, t, pc', Unreasoned);
    var s' := Apply(s, t, a);
    forall reason
      ensures NotCountedFor(s'.shared, reason) == Num(s'.threads, Owing(reason))
    {
      NextPays(s.shared, pc, a, reason);
      NumMoves(s.threads, t, pc', Owing(reason));
    }
  }

  // ----------------------------------------------------------------------------- control

  /** What a thread may rely on where it is. */
  predicate Sound(s: Shared, pc: Pc) {
    && (pc.CloseQueue? || pc.NotifyPipe? || pc.PoolClose? ==> s.requested)
    && (pc.NotifyPipe? || pc.Joining? || pc.Dropping? || pc.Refused? || pc.RefusedTest? ==> s.closed)
    && (pc.Exited? ==> s.closed && s.queue == [])
    && pc != Threw(PoolIsClosed)
  }

  ghost predicate Control(s: Server) {
    && (s.shared.closed ==> s.shared.requested)
    && (forall t :: t in s.threads ==> Sound(s.shared, s.threads[t]))
    && (forall t :: t in s.threads && s.threads[t].Returned? ==> AllExited(s.threads))
  }

  lemma CallerSound(s: Shared, pc: Pc, other: Pc)
    requires Ready(s, pc, Go) && !IsWorker(pc) && (s.closed ==> s.requested) && Sound(s, pc) && Sound(s, other)
    ensures var (s', pc') := CallerGo(s, pc); (s'.closed ==> s'.requested) && Sound(s', pc') && Sound(s', other)
  {
  }

  lemma WorkerSound(s: Shared, pc: Pc, other: Pc)
    requires Ready(s, pc, Go) && IsWorker(pc) && (s.closed ==> s.requested) && Sound(s, pc) && Sound(s, other)
    ensures var (s', pc') := WorkerGo(s, pc); (s'.closed ==> s'.requested) && Sound(s', pc') && Sound(s', other)
  {
  }

  lemma OutcomeSound(s: Shared, pc: Pc, a: Action, other: Pc)
    requires Ready(s, pc, a) && !a.Go? && (s.closed ==> s.requested) && Sound(s, pc) && Sound(s, other)
    ensures var (s', pc') := Outcome(s, pc, a); (s'.closed ==> s'.requested) && Sound(s', pc') && Sound(s', other)
  {
  }

  lemma NextSound(s: Shared, pc: Pc, a: Action, other: Pc)
    requires Ready(s, pc, a) && (s.closed ==> s.requested) && Sound(s, pc) && Sound(s, other)
    ensures var (s', pc') := Next(s, pc, a); (s'.closed ==> s'.requested) && Sound(s', pc') && Sound(s', other)
  {
    hide Sound, CallerGo, WorkerGo, Outcome, Ready, IsWorker;
    if !a.Go? {
      OutcomeSound(s, pc, a, other);
    } else if IsWorker(pc) {
      WorkerSound(s, pc, other);
    } else {
      CallerSound(s, pc, other);
    }
  }

  lemma StepControl(s: Server, t: Thread, a: Action)
    requires Control(s) && Enabled(s, t, a)
    ensures Control(Apply(s, t, a))
  {
    var s' := Apply(s, t, a);
    hide Sound, Next, IsWorker, Ready;
    forall u | u in s'.threads
      ensures Sound(s'.shared, s'.threads[u]) && (s'.shared.closed ==> s'.shared.requested)
    {
      NextSound(s.shared, s.threads[t], a, s.threads[u]);
    }
    assert t in s'.threads;
    NextRole(s.shared, s.threads[t], a);
  }

  // -------------------------------------------------------------------------------- runs

  ghost predicate Inv(s: Server) { Balanced(s.shared, s.threads) && Control(s) }

  lemma InitialBalance(s: Server, g: Group)
    requires Initial(s) && g != Workers && g != Acceptors
    ensures Num(s.threads, g) == 0
  {
    NumZero(s.threads, g);
  }

  lemma FreshReason(capacity: nat, reason: EndReason)
    ensures NotCountedFor(Fresh(capacity), reason) == 0
  {
  }

  lemma FreshBalance(capacity: nat)
    ensures var s := Fresh(capacity);
            NotCounted(s) == NotSettled(s) == NotDispatched(s) == s.counters.active == NotReasoned(s) == 0
  {
  }

  lemma InitialBalanced(s: Server)
    requires Initial(s)
    ensures Balanced(s.shared, s.threads)
  {
    hide NotCounted, NotSettled, NotDispatched, NotReasoned, NotCountedFor, Num, Fresh;
    forall reason
      ensures NotCountedFor(s.shared, reason) == Num(s.threads, Owing(reason))
    {
      FreshReason(s.shared.capacity, reason);
      InitialBalance(s, Owing(reason));
    }
    FreshBalance(s.shared.capacity);
    InitialBalance(s, Uncounted);
    InitialBalance(s, InDispatch);
    InitialBalance(s, JustPushed);
    InitialBalance(s, AtWork);
    InitialBalance(s, Active);
    InitialBalance(s, Unreasoned);
  }

  lemma InitialControl(s: Server)
    requires Initial(s)
    ensures Control(s)
  {
  }

  lemma {:induction false} RunInv(run: seq<Server>, i: nat)
    requires IsRun(run) && i < |run|
    ensures Inv(run[i])
  {
    hide Apply, Enabled, Balanced, Control;
    if i == 0 {
      InitialBalanced(run[0]);
      InitialControl(run[0]);
    } else {
      RunInv(run, i - 1);
      assert StepTo(run[i - 1], run[i - 1 + 1]);
      var t, a :| Enabled(run[i - 1], t, a) && Apply(run[i - 1], t, a) == run[i];
      StepBalances(run[i - 1], t, a);
      StepControl(run[i - 1], t, a);
    }
  }

  // ----------------------------------------------------------------------------- results

  /** In every interleaving the queue is closed only after shutdown was requested, so a refused
      dispatch never makes `serve_one` throw. */
  lemma ClosedMeansRequested(run: seq<Server>, i: nat, t: Thread)
    requires IsRun(run) && i < |run|
    ensures run[i].shared.closed ==> run[i].shared.requested
    ensures t in run[i].threads ==> run[i].threads[t] != Threw(PoolIsClosed)
  {
    RunInv(run, i);
  }

  /** At every moment the unlocked counters bound each other: nothing is counted before it happens. */
  lemma CountersNeverAhead(run: seq<Server>, i: nat)
    requires IsRun(run) && i < |run|
    ensures var c := run[i].shared.counters;
            && c.dispatched + c.rejected <= c.accepted <= run[i].shared.nextFd
            && c.reasons.Total() <= c.completed
            && 0 <= c.active <= Num(run[0].threads, Workers)
  {
    RunInv(run, i);
    C.RunSizes(run, i);
    var m := run[i].threads;
    hide Num;
    assert Num(m, Active) <= Num(m, Workers) by {
      SmallerSet(Those(m, Active), Those(m, Workers));
    }
  }

  predicate NobodyIn(m: Threads, g: Group) { forall t :: t in m ==> !In(m[t], g) }

  /** A drained server: once a shutdown that joins the workers has returned, nothing is queued or
      active, and the counters agree up to dispatches still on their way; with none on its way they
      agree exactly, and why connections ended is counted exactly. */
  lemma ShutdownDrains(run: seq<Server>, i: nat, t: Thread)
    requires IsRun(run) && i < |run| && t in run[i].threads && run[i].threads[t].Returned?
    ensures run[i].shared.queue == [] && run[i].shared.counters.active == 0
    ensures var c := run[i].shared.counters;
            && c.dispatched + Num(run[i].threads, JustPushed) == c.completed + c.workerErrors
            && c.completed == c.reasons.Total()
            && (NobodyIn(run[i].threads, InDispatch) ==>
                  c.dispatched == c.completed + c.workerErrors && c.accepted == c.dispatched + c.rejected)
    ensures forall reason :: run[i].shared.counters.reasons.Of(reason) == multiset(run[i].shared.ended)[reason]
  {
    var m := run[i].threads;
    RunInv(run, i);
    NobodyAtWork(m, AtWork);
    NobodyAtWork(m, Active);
    NobodyAtWork(m, Unreasoned);
    forall reason
      ensures run[i].shared.counters.reasons.Of(reason) == multiset(run[i].shared.ended)[reason]
    {
      assert NotCountedFor(run[i].shared, reason) == Num(m, Owing(reason));
      NobodyAtWork(m, Owing(reason));
    }
    WorkerThere(run, i);
    if NobodyIn(m, InDispatch) {
      NumZero(m, InDispatch);
      NumZero(m, JustPushed);
    }
    hide Num, In;
  }

  lemma NobodyAtWork(m: Threads, g: Group)
    requires AllExited(m) && (g == AtWork || g == Active || g == Unreasoned || g.Owing?)
    ensures Num(m, g) == 0
  {
    NumZero(m, g);
  }

  /** There is always a worker. */
  lemma WorkerThere(run: seq<Server>, i: nat)
    requires IsRun(run) && i < |run|
    ensures exists t :: t in run[i].threads && IsWorker(run[i].threads[t])
  {
    C.RunSizes(run, i);
    var t :| t in run[0].threads && run[0].threads[t].Popping?;
    assert t in Those(run[0].threads, Workers);
    assert Those(run[i].threads, Workers) != {};
    var u :| u in Those(run[i].threads, Workers);
  }

  /** After `serve_forever` has returned and nobody else is accepting, every connection accepted was
      dispatched or rejected, and every descriptor has been closed exactly once. */
  lemma ServeForeverAccounts(run: seq<Server>, i: nat, t: Thread)
    requires IsRun(run) && i < |run| && t in run[i].threads && run[i].threads[t].Returned?
    requires NobodyIn(run[i].threads, Acceptors)
    ensures var s := run[i].shared;
            && s.counters.accepted == s.counters.dispatched + s.counters.rejected == s.nextFd
            && s.counters.dispatched == s.counters.completed + s.counters.workerErrors
            && |s.released| == s.nextFd && C.Distinct(s.released)
            && forall fd: Fd :: fd in s.released <==> fd < s.nextFd
  {
    var s, m := run[i].shared, run[i].threads;
    RunInv(run, i);
    ShutdownDrains(run, i, t);
    NumZero(m, Uncounted);
    C.RunCustody(run, i);
    assert C.Hands(m) == map[] by {
      assert forall u :: u in m ==> !Holds(m[u]);
    }
  }
}
