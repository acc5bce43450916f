/** Descriptor ownership in the server: every accepted socket is in exactly one place, and is closed
    exactly once. */
module ServerCustody {
  import opened Finite
  import opened ServerProtocol

  /** Which thread holds which descriptor. */
  function Hands(m: Threads): map<Thread, Fd> { map t | t in m && Holds(m[t]) :: m[t].fd }

  predicate Distinct(fds: seq<Fd>) { forall i, j :: 0 <= i < j < |fds| ==> fds[i] != fds[j] }

  /** Each of the first `next` descriptors is in the queue, released, or in one hand, and only there. */
  ghost predicate Kept(queue: seq<Fd>, released: seq<Fd>, next: nat, hands: map<Thread, Fd>) {
    && Distinct(queue) && Distinct(released)
    && (forall fd: Fd :: fd in queue ==> fd < next && fd !in released)
    && (forall fd: Fd :: fd in released ==> fd < next)
    && (forall t :: t in hands ==> hands[t] < next && hands[t] !in queue && hands[t] !in released)
    && (forall t, u :: t in hands && u in hands && hands[t] == hands[u] ==> t == u)
    && (forall fd: Fd :: fd < next ==> fd in queue || fd in released || fd in hands.Values)
    && next == |queue| + |released| + |hands|
  }

  ghost predicate Custody(s: Server) {
    Kept(s.shared.queue, s.shared.released, s.shared.nextFd, Hands(s.threads))
  }

  // ------------------------------------------------------------- handing a descriptor on

  lemma Receive(queue: seq<Fd>, released: seq<Fd>, next: nat, hands: map<Thread, Fd>, t: Thread)
    requires Kept(queue, released, next, hands) && t !in hands
    ensures Kept(queue, released, next + 1, hands[t := next])
  {
    Taken(hands, t, next);
  }

  /** What is in hand when `t`, whose hand was empty, takes a descriptor. */
  lemma Taken(hands: map<Thread, Fd>, t: Thread, fd: Fd)
    requires t !in hands
    ensures |hands[t := fd]| == |hands| + 1
    ensures forall d :: d in hands[t := fd].Values <==> d == fd || d in hands.Values
  {
    var more := hands[t := fd];
    assert more[t] == fd;
    forall d | d in hands.Values
      ensures d in more.Values
    {
      var u :| u in hands && hands[u] == d;
      assert more[u] == d;
    }
  }

  /** What remains in hand when `t` gives its descriptor away. */
  lemma Given(hands: map<Thread, Fd>, t: Thread)
    requires t in hands
    ensures |hands - {t}| == |hands| - 1
    ensures forall fd :: fd in hands.Values ==> fd == hands[t] || fd in (hands - {t}).Values
  {
    assert (hands - {t}).Keys == hands.Keys - {t};
    forall fd | fd in hands.Values
      ensures fd == hands[t] || fd in (hands - {t}).Values
    {
      var u :| u in hands && hands[u] == fd;
      assert u != t ==> u in hands - {t} && (hands - {t})[u] == fd;
    }
  }

  lemma AppendDistinct(fds: seq<Fd>, fd: Fd)
    requires Distinct(fds) && fd !in fds
    ensures Distinct(fds + [fd])
  {
  }

  /** A descriptor given away is gone from every hand and from nowhere else. */
  lemma GivenAway(queue: seq<Fd>, released: seq<Fd>, next: nat, hands: map<Thread, Fd>, t: Thread)
    requires Kept(queue, released, next, hands) && t in hands
    ensures var left := hands - {t};
            && hands[t] < next && hands[t] !in queue && hands[t] !in released
            && (forall u :: u in left ==>
                  left[u] < next && left[u] !in queue && left[u] !in released && left[u] != hands[t])
            && (forall u, v :: u in left && v in left && left[u] == left[v] ==> u == v)
            && (forall fd: Fd :: fd < next ==> fd in queue || fd in released || fd == hands[t] || fd in left.Values)
            && next == |queue| + |released| + |left| + 1
  {
    Given(hands, t);
  }

  lemma Enqueue(queue: seq<Fd>, released: seq<Fd>, next: nat, hands: map<Thread, Fd>, t: Thread)
    requires Kept(queue, released, next, hands) && t in hands
    ensures Kept(queue + [hands[t]], released, next, hands - {t})
  {
    GivenAway(queue, released, next, hands, t);
    AppendDistinct(queue, hands[t]);
  }

  lemma Release(queue: seq<Fd>, released: seq<Fd>, next: nat, hands: map<Thread, Fd>, t: Thread)
    requires Kept(queue, released, next, hands) && t in hands
    ensures Kept(queue, released + [hands[t]], next, hands - {t})
  {
    GivenAway(queue, released, next, hands, t);
    AppendDistinct(released, hands[t]);
  }

  lemma Rest(queue: seq<Fd>)
    requires queue != [] && Distinct(queue)
    ensures Distinct(queue[1..]) && queue[0] !in queue[1..]
    ensures forall fd :: fd in queue <==> fd == queue[0] || fd in queue[1..]
  {
    assert queue == [queue[0]] + queue[1..];
  }

  lemma Dequeue(queue: seq<Fd>, released: seq<Fd>, next: nat, hands: map<Thread, Fd>, t: Thread)
    requires Kept(queue, released, next, hands) && t !in hands && queue != []
    ensures Kept(queue[1..], released, next, hands[t := queue[0]])
  {
    Rest(queue);
    Taken(hands, t, queue[0]);
  }

  lemma HandsMove(m: Threads, t: Thread, pc: Pc)
    requires t in m
    ensures Hands(m[t := pc]) == if Holds(pc) then Hands(m)[t := pc.fd] else Hands(m) - {t}
    ensures t in Hands(m) <==> Holds(m[t])
    ensures t in Hands(m) ==> Hands(m)[t] == m[t].fd
  {
  }

  // -------------------------------------------------------------------- every step keeps it

  /** The steps that pass a descriptor on; all others leave every descriptor where it is. */
  predicate PassesOn(s: Shared, pc: Pc) {
    (pc.Dispatching? && !s.closed) || pc.Dropping? || pc.Recorded? || pc.Unwinding? || (pc.Popping? && s.queue != [])
  }

  predicate Keeps(s: Shared, pc: Pc, s': Shared, pc': Pc) {
    && s'.capacity == s.capacity && s'.queue == s.queue && s'.released == s.released && s'.nextFd == s.nextFd
    && Holds(pc') == Holds(pc) && (Holds(pc) ==> pc'.fd == pc.fd)
  }

  lemma CallerKeeps(s: Shared, pc: Pc)
    requires Ready(s, pc, Go) && !IsWorker(pc) && !PassesOn(s, pc)
    ensures var (s', pc') := CallerGo(s, pc); Keeps(s, pc, s', pc')
  {
  }

  lemma WorkerKeeps(s: Shared, pc: Pc)
    requires Ready(s, pc, Go) && IsWorker(pc) && !PassesOn(s, pc)
    ensures var (s', pc') := WorkerGo(s, pc); Keeps(s, pc, s', pc')
  {
  }

  lemma GoKeeps(s: Shared, pc: Pc)
    requires Ready(s, pc, Go) && !PassesOn(s, pc)
    ensures var (s', pc') := Next(s, pc, Go); Keeps(s, pc, s', pc')
  {
    hide CallerGo, WorkerGo, Keeps, IsWorker, Ready, PassesOn;
    if IsWorker(pc) {
      WorkerKeeps(s, pc);
    } else {
      CallerKeeps(s, pc);
    }
  }

  lemma GoPasses(s: Shared, pc: Pc)
    requires Ready(s, pc, Go) && PassesOn(s, pc)
    ensures var (s', pc') := Next(s, pc, Go);
            && s'.capacity == s.capacity && s'.nextFd == s.nextFd
            && Holds(pc') == pc.Popping?
            && (if pc.Popping? then pc'.fd == s.queue[0] && s'.queue == s.queue[1..] && s'.released == s.released
                else if pc.Dispatching? then s'.queue == s.queue + [pc.fd] && s'.released == s.released
                else s'.queue == s.queue && s'.released == s.released + [pc.fd])
  {
  }

  lemma GoCustody(s: Shared, pc: Pc, hands: map<Thread, Fd>, t: Thread)
    requires Kept(s.queue, s.released, s.nextFd, hands) && Ready(s, pc, Go)
    requires t in hands <==> Holds(pc)
    requires t in hands ==> hands[t] == pc.fd
    ensures var (s', pc') := Next(s, pc, Go);
            Kept(s'.queue, s'.released, s'.nextFd, if Holds(pc') then hands[t := pc'.fd] else hands - {t})
  {
    hide Kept, Next, Ready;
    if !PassesOn(s, pc) {
      GoKeeps(s, pc);
      Unmoved(hands, t);
    } else {
      GoPasses(s, pc);
      if pc.Dispatching? {
        Enqueue(s.queue, s.released, s.nextFd, hands, t);
      } else if pc.Popping? {
        Dequeue(s.queue, s.released, s.nextFd, hands, t);
      } else {
        Release(s.queue, s.released, s.nextFd, hands, t);
      }
    }
  }

  lemma Unmoved(hands: map<Thread, Fd>, t: Thread)
    ensures t in hands ==> hands[t := hands[t]] == hands
    ensures t !in hands ==> hands - {t} == hands
  {
  }

  lemma StepCustody(s: Server, t: Thread, a: Action)
    requires Custody(s) && Enabled(s, t, a)
    ensures Custody(Apply(s, t, a))
  {
    hide Kept, Hands, CallerGo, WorkerGo;
    var hands, shared, pc := Hands(s.threads), s.shared, s.threads[t];
    HandsMove(s.threads, t, Next(shared, pc, a).1);
    Unmoved(hands, t);
    if a.Go? {
      GoCustody(shared, pc, hands, t);
    } else if a == AcceptReturns(true) {
      Receive(shared.queue, shared.released, shared.nextFd, hands, t);
    }
  }

  lemma {:induction false} RunCustody(run: seq<Server>, i: nat)
    requires IsRun(run) && i < |run|
    ensures Custody(run[i])
  {
    hide Apply, Enabled, Kept;
    if i == 0 {
      InitialCustody(run[0]);
    } else {
      RunCustody(run, i - 1);
      assert StepTo(run[i - 1], run[i - 1 + 1]);
      var t, a :| Enabled(run[i - 1], t, a) && Apply(run[i - 1], t, a) == run[i];
      StepCustody(run[i - 1], t, a);
    }
  }

  lemma InitialCustody(s: Server)
    requires Initial(s)
    ensures Custody(s)
  {
    assert Hands(s.threads) == map[];
  }

  // ------------------------------------------------------------------------------- results

  datatype Place = Queued | Closed | With(t: Thread)

  ghost predicate IsAt(s: Server, fd: Fd, place: Place) {
    match place
    case Queued => fd in s.shared.queue
    case Closed => fd in s.shared.released
    case With(t) => t in s.threads && Holds(s.threads[t]) && s.threads[t].fd == fd
  }

  /** At every step of every run each accepted descriptor is in exactly one place: the queue, one
      thread's hand, or closed; no descriptor is queued or closed twice, and no other turns up. */
  lemma OnePlace(run: seq<Server>, i: nat, fd: Fd)
    requires IsRun(run) && i < |run|
    ensures fd < run[i].shared.nextFd <==> exists place :: IsAt(run[i], fd, place)
    ensures forall p, q :: IsAt(run[i], fd, p) && IsAt(run[i], fd, q) ==> p == q
    ensures Distinct(run[i].shared.queue) && Distinct(run[i].shared.released)
  {
    var s := run[i];
    var hands := Hands(s.threads);
    RunCustody(run, i);
    forall p, q | IsAt(s, fd, p) && IsAt(s, fd, q)
      ensures p == q
    {
      assert p.With? ==> p.t in hands;
      assert q.With? ==> q.t in hands;
    }
    if fd < s.shared.nextFd {
      if fd in hands.Values {
        var t :| t in hands && hands[t] == fd;
        assert IsAt(s, fd, With(t));
      } else {
        assert IsAt(s, fd, Queued) || IsAt(s, fd, Closed);
      }
    }
    if place :| IsAt(s, fd, place) {
      assert place.With? ==> place.t in hands;
    }
  }

  /** Nobody but workers and acceptors holds a descriptor. */
  lemma HandsWithin(m: Threads)
    ensures |Hands(m)| <= Num(m, Workers) + Num(m, Acceptors)
  {
    var both := Those(m, Workers) + Those(m, Acceptors);
    SmallerSet(Hands(m).Keys, both);
    assert Those(m, Workers) !! Those(m, Acceptors);
  }

  /** The queue never exceeds its capacity, and the number of workers never changes. */
  lemma {:induction false} RunSizes(run: seq<Server>, i: nat)
    requires IsRun(run) && i < |run|
    ensures |run[i].shared.queue| <= run[i].shared.capacity == run[0].shared.capacity
    ensures Num(run[i].threads, Workers) == Num(run[0].threads, Workers)
  {
    hide Num, Apply, Enabled;
    if i > 0 {
      RunSizes(run, i - 1);
      assert StepTo(run[i - 1], run[i - 1 + 1]);
      var t, a :| Enabled(run[i - 1], t, a) && Apply(run[i - 1], t, a) == run[i];
      StepSizes(run[i - 1], t, a);
    }
  }

  lemma NextSizes(s: Shared, pc: Pc, a: Action)
    requires Ready(s, pc, a) && |s.queue| <= s.capacity
    ensures var s' := Next(s, pc, a).0; |s'.queue| <= s'.capacity == s.capacity
  {
    hide CallerGo, WorkerGo;
    if a.Go? && PassesOn(s, pc) {
      GoPasses(s, pc);
    } else if a.Go? {
      GoKeeps(s, pc);
    }
  }

  lemma StepSizes(s: Server, t: Thread, a: Action)
    requires Enabled(s, t, a) && |s.shared.queue| <= s.shared.capacity
    ensures var s' := Apply(s, t, a);
            && |s'.shared.queue| <= s'.shared.capacity == s.shared.capacity
            && Num(s'.threads, Workers) == Num(s.threads, Workers)
  {
    hide Num, Next, Ready, IsWorker;
    NextSizes(s.shared, s.threads[t], a);
    NextRole(s.shared, s.threads[t], a);
    NumMoves(s.threads, t, Next(s.shared, s.threads[t], a).1, Workers);
  }

  /** Open descriptors: those queued and those in hand; with W workers, a queue of Q and A threads
      accepting at this moment, at most W + Q + A. */
  lemma OpenDescriptors(run: seq<Server>, i: nat)
    requires IsRun(run) && i < |run|
    ensures var s, m := run[i].shared, run[i].threads;
            && s.nextFd - |s.released| == |s.queue| + |Hands(m)|
            && s.nextFd - |s.released| <= Num(run[0].threads, Workers) + run[0].shared.capacity + Num(m, Acceptors)
  {
    RunCustody(run, i);
    RunSizes(run, i);
    HandsWithin(run[i].threads);
  }
}
