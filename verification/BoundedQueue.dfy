/** `BoundedQueue`: any number of threads pushing, popping and closing, in any interleaving and
    with spurious wakeups. A step is one critical section, one notification, or one wakeup. */
module BoundedQueue {
  import opened Finite

  type Item = nat
  type Thread = nat

  // -------------------------------------------------------------------- shared state

  datatype Shared = Shared(capacity: nat, queue: seq<Item>, closed: bool, highWater: nat)

  datatype PushVerdict = PushWaits | PushRefused | PushStored
  datatype PopVerdict = PopWaits | PopDrained | PopTook(item: Item)

  /** The critical section of `push` from the test of its wait condition on. */
  function PushSection(s: Shared, item: Item): (Shared, PushVerdict) {
    if s.closed then (s, PushRefused)
    else if |s.queue| >= s.capacity then (s, PushWaits)
    else
      var queue := s.queue + [item];
      (s.(queue := queue, highWater := if |queue| > s.highWater then |queue| else s.highWater), PushStored)
  }

  function PopSection(s: Shared): (Shared, PopVerdict) {
    if s.queue != [] then (s.(queue := s.queue[1..]), PopTook(s.queue[0]))
    else if s.closed then (s, PopDrained)
    else (s, PopWaits)
  }

  /** The object: each method is one critical section of the source's method of that name. */
  class BoundedQueue {
    const capacity: nat
    var queue: seq<Item>
    var closed: bool
    var highWaterMark: nat

    ghost function View(): Shared
      reads this
    {
      Shared(capacity, queue, closed, highWaterMark)
    }

    constructor (capacity: nat)
      requires capacity != 0
      ensures View() == Shared(capacity, [], false, 0)
    {
      this.capacity := capacity;
      queue, closed, highWaterMark := [], false, 0;
    }

    method Push(item: Item) returns (verdict: PushVerdict)
      modifies this
      ensures (View(), verdict) == PushSection(old(View()), item)
    {
      if !(closed || |queue| < capacity) {
        return PushWaits;
      }
      if closed {
        return PushRefused;
      }
      queue := queue + [item];
      if |queue| > highWaterMark {
        highWaterMark := |queue|;
      }
      return PushStored;
    }

    method Pop() returns (verdict: PopVerdict)
      modifies this
      ensures (View(), verdict) == PopSection(old(View()))
    {
      if !(closed || queue != []) {
        return PopWaits;
      }
      if queue == [] {
        return PopDrained;
      }
      var item := queue[0];
      queue := queue[1..];
      return PopTook(item);
    }

    method Close()
      modifies this
      ensures View() == old(View()).(closed := true)
    {
      closed := true;
    }
  }

  /** The constructor's refusal of a zero capacity. */
  method Make(capacity: nat) returns (q: BoundedQueue?)
    ensures q == null <==> capacity == 0
    ensures q != null ==> fresh(q) && q.View() == Shared(capacity, [], false, 0)
  {
    if capacity == 0 {
      return null;
    }
    q := new BoundedQueue(capacity);
  }

  // ------------------------------------------------------------------------- threads

  /** Where a thread is. Asleep threads wait on a condition variable; woken ones will take the lock
      and test again; the notifying ones have left their critical section. */
  datatype Pc =
    | Idle
    | PushStart(item: Item) | PushAsleep(item: Item) | PushWoken(item: Item) | PushNotify
    | PopStart | PopAsleep | PopWoken | PopNotify(item: Item)
    | CloseStart | CloseNotifyEmpty | CloseNotifyFull

  datatype Kind =
    | KIdle | KPushStart | KPushAsleep | KPushWoken | KPushNotify
    | KPopStart | KPopAsleep | KPopWoken | KPopNotify
    | KCloseStart | KCloseNotifyEmpty | KCloseNotifyFull

  function KindOf(pc: Pc): Kind {
    match pc
    case Idle => KIdle
    case PushStart(_) => KPushStart
    case PushAsleep(_) => KPushAsleep
    case PushWoken(_) => KPushWoken
    case PushNotify => KPushNotify
    case PopStart => KPopStart
    case PopAsleep => KPopAsleep
    case PopWoken => KPopWoken
    case PopNotify(_) => KPopNotify
    case CloseStart => KCloseStart
    case CloseNotifyEmpty => KCloseNotifyEmpty
    case CloseNotifyFull => KCloseNotifyFull
  }

  type Threads = map<Thread, Pc>

  function At(m: Threads, kind: Kind): set<Thread> { set t | t in m && KindOf(m[t]) == kind }

  function Count(m: Threads, kind: Kind): nat { |At(m, kind)| }

  // ------------------------------------------------------- the sequential queue, as spec

  /** What an operation did, recorded at the critical section that decided it. */
  datatype Op = Pushed(item: Item) | Refused | Popped(item: Item) | Drained | ClosedNow

  datatype Abstract = Abstract(queue: seq<Item>, closed: bool) | Illegal

  /** A sequential bounded FIFO queue that can be closed. */
  function Replay(ops: seq<Op>, capacity: nat): Abstract {
    if ops == [] then Abstract([], false) else
    var n := |ops| - 1;
    var a := Replay(ops[..n], capacity);
    if a.Illegal? then Illegal else
    match ops[n]
    case Pushed(item) => if !a.closed && |a.queue| < capacity then a.(queue := a.queue + [item]) else Illegal
    case Refused => if a.closed then a else Illegal
    case Popped(item) => if a.queue != [] && a.queue[0] == item then a.(queue := a.queue[1..]) else Illegal
    case Drained => if a.closed && a.queue == [] then a else Illegal
    case ClosedNow => a.(closed := true)
  }

  function Max(a: nat, b: nat): nat { if a < b then b else a }

  /** The longest the sequential queue has ever been. */
  function Peak(ops: seq<Op>, capacity: nat): nat {
    if ops == [] then 0 else
    var a := Replay(ops, capacity);
    Max(Peak(ops[..|ops| - 1], capacity), if a.Illegal? then 0 else |a.queue|)
  }

  // --------------------------------------------------------------------------- steps

  datatype System = System(shared: Shared, threads: Threads, ops: seq<Op>)

  /** The sleeper chosen by `notify_one`, if any thread sleeps. */
  datatype Action =
    | Begin(call: Pc)
    | Run
    | Notify(woken: Thread)
    | NotifyNobody
    | WakeUp

  predicate Enabled(s: System, t: Thread, a: Action) {
    && t in s.threads
    && var pc := s.threads[t];
       match a
       case Begin(call) => pc.Idle? && (call.PushStart? || call.PopStart? || call.CloseStart?)
       case Run =>
         pc.PushStart? || pc.PushWoken? || pc.PopStart? || pc.PopWoken?
         || pc.CloseStart? || pc.CloseNotifyEmpty? || pc.CloseNotifyFull?
       case Notify(w) =>
         w in s.threads && ((pc.PushNotify? && s.threads[w].PopAsleep?) || (pc.PopNotify? && s.threads[w].PushAsleep?))
       case NotifyNobody =>
         (pc.PushNotify? && Count(s.threads, KPopAsleep) == 0) || (pc.PopNotify? && Count(s.threads, KPushAsleep) == 0)
       case WakeUp => pc.PushAsleep? || pc.PopAsleep?
  }

  /** What a sleeping thread becomes when it is woken. */
  function Woken(pc: Pc): Pc {
    match pc
    case PushAsleep(item) => PushWoken(item)
    case PopAsleep => PopWoken
    case _ => pc
  }

  /** `notify_all` on one condition variable. */
  function WakeAll(m: Threads, kind: Kind): Threads {
    map t | t in m :: if KindOf(m[t]) == kind then Woken(m[t]) else m[t]
  }

  function RunPush(s: System, t: Thread, item: Item): System {
    var (shared, verdict) := PushSection(s.shared, item);
    match verdict
    case PushWaits => s.(threads := s.threads[t := PushAsleep(item)])
    case PushRefused => s.(threads := s.threads[t := Idle], ops := s.ops + [Refused])
    case PushStored => System(shared, s.threads[t := PushNotify], s.ops + [Pushed(item)])
  }

  function RunPop(s: System, t: Thread): System {
    var (shared, verdict) := PopSection(s.shared);
    match verdict
    case PopWaits => s.(threads := s.threads[t := PopAsleep])
    case PopDrained => s.(threads := s.threads[t := Idle], ops := s.ops + [Drained])
    case PopTook(item) => System(shared, s.threads[t := PopNotify(item)], s.ops + [Popped(item)])
  }

  function Apply(s: System, t: Thread, a: Action): System
    requires Enabled(s, t, a)
  {
    var pc := s.threads[t];
    match a
    case Begin(call) => s.(threads := s.threads[t := call])
    case Notify(w) => s.(threads := s.threads[w := Woken(s.threads[w])][t := Idle])
    case NotifyNobody => s.(threads := s.threads[t := Idle])
    case WakeUp => s.(threads := s.threads[t := Woken(pc)])
    case Run =>
      match pc
      case PushStart(item) => RunPush(s, t, item)
      case PushWoken(item) => RunPush(s, t, item)
      case PopStart => RunPop(s, t)
      case PopWoken => RunPop(s, t)
      case CloseStart =>
        s.(shared := s.shared.(closed := true), threads := s.threads[t := CloseNotifyEmpty], ops := s.ops + [ClosedNow])
      case CloseNotifyEmpty => s.(threads := WakeAll(s.threads, KPopAsleep)[t := CloseNotifyFull])
      case CloseNotifyFull => s.(threads := WakeAll(s.threads, KPushAsleep)[t := Idle])
      case _ => s
  }

  // ------------------------------------------------------------------- the invariant

  /** The queue is what the sequential queue would hold after the recorded operations. */
  predicate Linear(s: Shared, ops: seq<Op>) {
    && Replay(ops, s.capacity) == Abstract(s.queue, s.closed)
    && s.highWater == Peak(ops, s.capacity)
    && |s.queue| <= s.capacity
  }

  /** While the queue is open and a consumer sleeps, every item has a consumer on its way or a
      notification still to be sent; after closing, the broadcast is still to be sent. */
  predicate ConsumersSafe(s: System) {
    Count(s.threads, KPopAsleep) > 0 ==>
      if s.shared.closed then Count(s.threads, KCloseNotifyEmpty) > 0
      else |s.shared.queue| <= Count(s.threads, KPopWoken) + Count(s.threads, KPushNotify)
  }

  predicate ProducersSafe(s: System) {
    Count(s.threads, KPushAsleep) > 0 ==>
      if s.shared.closed then Count(s.threads, KCloseNotifyEmpty) + Count(s.threads, KCloseNotifyFull) > 0
      else s.shared.capacity - |s.shared.queue| <= Count(s.threads, KPushWoken) + Count(s.threads, KPopNotify)
  }

  predicate Inv(s: System) {
    s.shared.capacity > 0 && Linear(s.shared, s.ops) && ConsumersSafe(s) && ProducersSafe(s)
  }

  predicate Initial(s: System) {
    && s.shared.capacity > 0
    && s.shared == Shared(s.shared.capacity, [], false, 0)
    && s.ops == []
    && forall t :: t in s.threads ==> s.threads[t] == Idle
  }

  // -------------------------------------------------------------------------- counting

  function One(b: bool): nat { if b then 1 else 0 }

  /** How one count changes when thread `t` moves to `pc`. */
  predicate Shifted(m: Threads, t: Thread, pc: Pc, kind: Kind)
    requires t in m
  {
    Count(m[t := pc], kind) + One(KindOf(m[t]) == kind) == Count(m, kind) + One(KindOf(pc) == kind)
  }

  lemma CountMove(m: Threads, t: Thread, pc: Pc, kind: Kind)
    requires t in m
    ensures Shifted(m, t, pc, kind)
  {
    var before := At(m, kind);
    assert At(m[t := pc], kind) == (before - {t}) + (if KindOf(pc) == kind then {t} else {});
  }

  /** All counts of waiting and waking threads after one thread moved. */
  lemma Moved(m: Threads, t: Thread, pc: Pc)
    requires t in m
    ensures Shifted(m, t, pc, KPopAsleep) && Shifted(m, t, pc, KPopWoken) && Shifted(m, t, pc, KPushNotify)
    ensures Shifted(m, t, pc, KPushAsleep) && Shifted(m, t, pc, KPushWoken) && Shifted(m, t, pc, KPopNotify)
    ensures Shifted(m, t, pc, KCloseNotifyEmpty) && Shifted(m, t, pc, KCloseNotifyFull)
  {
    hide Shifted;
    CountMove(m, t, pc, KPopAsleep);
    CountMove(m, t, pc, KPopWoken);
    CountMove(m, t, pc, KPushNotify);
    CountMove(m, t, pc, KPushAsleep);
    CountMove(m, t, pc, KPushWoken);
    CountMove(m, t, pc, KPopNotify);
    CountMove(m, t, pc, KCloseNotifyEmpty);
    CountMove(m, t, pc, KCloseNotifyFull);
  }

  lemma CountPositive(m: Threads, t: Thread)
    requires t in m
    ensures Count(m, KindOf(m[t])) > 0
  {
    assert t in At(m, KindOf(m[t]));
  }

  lemma CountZero(m: Threads, kind: Kind)
    requires forall t :: t in m ==> KindOf(m[t]) != kind
    ensures Count(m, kind) == 0
  {
    assert At(m, kind) == {};
  }

  lemma CountWitness(m: Threads, kind: Kind) returns (t: Thread)
    requires Count(m, kind) > 0
    ensures t in m && KindOf(m[t]) == kind
  {
    t :| t in At(m, kind);
  }

  /** A broadcast wakes every sleeper of its kind and leaves the other sleepers and the
      notifying threads as they were. */
  lemma WakeAllCounts(m: Threads, asleep: Kind, kind: Kind)
    requires asleep == KPopAsleep || asleep == KPushAsleep
    requires kind != KPopWoken && kind != KPushWoken
    ensures Count(WakeAll(m, asleep), kind) == if kind == asleep then 0 else Count(m, kind)
  {
    var w := WakeAll(m, asleep);
    if kind == asleep {
      CountZero(w, kind);
    } else {
      assert At(w, kind) == At(m, kind);
    }
  }

  // ------------------------------------------------------------ every step keeps it

  lemma Recorded(ops: seq<Op>, op: Op, capacity: nat, a: Abstract)
    requires Replay(ops, capacity) == a && a.Abstract?
    ensures var r := Replay(ops + [op], capacity);
            r == match op
                 case Pushed(item) =>
                   if !a.closed && |a.queue| < capacity then a.(queue := a.queue + [item]) else Illegal
                 case Refused => if a.closed then a else Illegal
                 case Popped(item) => if a.queue != [] && a.queue[0] == item then a.(queue := a.queue[1..]) else Illegal
                 case Drained => if a.closed && a.queue == [] then a else Illegal
                 case ClosedNow => a.(closed := true)
    ensures var r := Replay(ops + [op], capacity);
            Peak(ops + [op], capacity) == Max(Peak(ops, capacity), if r.Illegal? then 0 else |r.queue|)
  {
    assert (ops + [op])[..|ops|] == ops;
  }

  /** The queue is never longer than its peak. */
  lemma BelowPeak(s: Shared, ops: seq<Op>)
    requires Linear(s, ops)
    ensures |s.queue| <= s.highWater
  {
  }

  lemma InitialInv(s: System)
    requires Initial(s)
    ensures Inv(s)
  {
    CountZero(s.threads, KPopAsleep);
    CountZero(s.threads, KPushAsleep);
  }

  lemma PushLinear(s: System, t: Thread, item: Item)
    requires Inv(s)
    ensures var r := RunPush(s, t, item); Linear(r.shared, r.ops)
  {
    hide Replay, Peak;
    var a := Abstract(s.shared.queue, s.shared.closed);
    BelowPeak(s.shared, s.ops);
    Recorded(s.ops, Pushed(item), s.shared.capacity, a);
    Recorded(s.ops, Refused, s.shared.capacity, a);
  }

  lemma PopLinear(s: System, t: Thread)
    requires Inv(s)
    ensures var r := RunPop(s, t); Linear(r.shared, r.ops)
  {
    hide Replay, Peak;
    var a := Abstract(s.shared.queue, s.shared.closed);
    BelowPeak(s.shared, s.ops);
    Recorded(s.ops, Drained, s.shared.capacity, a);
    if s.shared.queue != [] {
      Recorded(s.ops, Popped(s.shared.queue[0]), s.shared.capacity, a);
    }
  }

  predicate Pushing(pc: Pc) { pc.PushStart? || pc.PushWoken? }

  predicate Popping(pc: Pc) { pc.PopStart? || pc.PopWoken? }

  /** What a critical section of `push` or `pop` does: an item stored or taken, a call turned away
      from a closed queue, or a thread gone to sleep on an open full or empty one. */
  predicate Section(from: Pc, before: Shared, to: Pc, after: Shared) {
    && after.capacity == before.capacity && after.closed == before.closed
    && match to
       case PushNotify => Pushing(from) && !after.closed && |after.queue| == |before.queue| + 1
       case PopNotify(_) => Popping(from) && |after.queue| + 1 == |before.queue|
       case Idle => (Pushing(from) || Popping(from)) && after.closed && after.queue == before.queue
       case PushAsleep(_) =>
         Pushing(from) && !after.closed && after.queue == before.queue && |after.queue| == after.capacity
       case PopAsleep => Popping(from) && !after.closed && after.queue == before.queue == []
       case _ => false
  }

  lemma SectionInv(s: System, t: Thread, pc: Pc, shared: Shared, ops: seq<Op>)
    requires Inv(s) && t in s.threads && Linear(shared, ops)
    requires Section(s.threads[t], s.shared, pc, shared)
    ensures Inv(System(shared, s.threads[t := pc], ops))
  {
    Moved(s.threads, t, pc);
    hide Linear, Count;
  }

  lemma PushInv(s: System, t: Thread, item: Item)
    requires Inv(s) && t in s.threads && (s.threads[t] == PushStart(item) || s.threads[t] == PushWoken(item))
    ensures Inv(RunPush(s, t, item))
  {
    PushLinear(s, t, item);
    hide Count, Replay, Peak;
    var r := RunPush(s, t, item);
    assert r == System(r.shared, s.threads[t := r.threads[t]], r.ops);
    assert Section(s.threads[t], s.shared, r.threads[t], r.shared);
    hide Inv, RunPush, Linear, Section;
    SectionInv(s, t, r.threads[t], r.shared, r.ops);
  }

  lemma PopInv(s: System, t: Thread)
    requires Inv(s) && t in s.threads && (s.threads[t] == PopStart || s.threads[t] == PopWoken)
    ensures Inv(RunPop(s, t))
  {
    PopLinear(s, t);
    hide Count, Replay, Peak;
    var r := RunPop(s, t);
    assert r == System(r.shared, s.threads[t := r.threads[t]], r.ops);
    assert Section(s.threads[t], s.shared, r.threads[t], r.shared);
    hide Inv, RunPop, Linear, Section;
    SectionInv(s, t, r.threads[t], r.shared, r.ops);
  }

  lemma CloseLinear(s: System)
    requires Inv(s)
    ensures Linear(s.shared.(closed := true), s.ops + [ClosedNow])
  {
    hide Replay, Peak;
    Recorded(s.ops, ClosedNow, s.shared.capacity, Abstract(s.shared.queue, s.shared.closed));
    BelowPeak(s.shared, s.ops);
  }

  lemma CloseInv(s: System, t: Thread)
    requires Inv(s) && t in s.threads && s.threads[t] == CloseStart
    ensures Inv(Apply(s, t, Run))
  {
    CloseLinear(s);
    hide Linear, Count;
    Moved(s.threads, t, CloseNotifyEmpty);
    CountPositive(s.threads[t := CloseNotifyEmpty], t);
  }

  lemma BroadcastEmptyInv(s: System, t: Thread)
    requires Inv(s) && t in s.threads && s.threads[t] == CloseNotifyEmpty && s.shared.closed
    ensures Inv(Apply(s, t, Run))
  {
    hide Linear, Count;
    var w := WakeAll(s.threads, KPopAsleep);
    WakeAllCounts(s.threads, KPopAsleep, KPopAsleep);
    WakeAllCounts(s.threads, KPopAsleep, KPushAsleep);
    WakeAllCounts(s.threads, KPopAsleep, KCloseNotifyEmpty);
    Moved(w, t, CloseNotifyFull);
    CountPositive(w[t := CloseNotifyFull], t);
  }

  lemma BroadcastFullInv(s: System, t: Thread)
    requires Inv(s) && t in s.threads && s.threads[t] == CloseNotifyFull && s.shared.closed
    ensures Inv(Apply(s, t, Run))
  {
    hide Linear, Count;
    var w := WakeAll(s.threads, KPushAsleep);
    WakeAllCounts(s.threads, KPushAsleep, KPopAsleep);
    WakeAllCounts(s.threads, KPushAsleep, KPushAsleep);
    WakeAllCounts(s.threads, KPushAsleep, KCloseNotifyEmpty);
    Moved(w, t, Idle);
  }

  lemma NotifyInv(s: System, t: Thread, w: Thread)
    requires Inv(s) && Enabled(s, t, Notify(w))
    ensures Inv(Apply(s, t, Notify(w)))
  {
    hide Linear, Count;
    var m := s.threads[w := Woken(s.threads[w])];
    Moved(s.threads, w, Woken(s.threads[w]));
    Moved(m, t, Idle);
  }

  lemma OtherInv(s: System, t: Thread, a: Action)
    requires Inv(s) && Enabled(s, t, a) && (a.Begin? || a.NotifyNobody? || a.WakeUp?)
    ensures Inv(Apply(s, t, a))
  {
    hide Linear, Count;
    Moved(s.threads, t, Apply(s, t, a).threads[t]);
  }

  /** A thread that has set `closed` and is still broadcasting finds it set. */
  predicate BroadcastsClosed(s: System) {
    forall t :: t in s.threads && (s.threads[t].CloseNotifyEmpty? || s.threads[t].CloseNotifyFull?) ==> s.shared.closed
  }

  lemma BroadcastsStayClosed(s: System, t: Thread, a: Action)
    requires BroadcastsClosed(s) && Enabled(s, t, a)
    ensures BroadcastsClosed(Apply(s, t, a))
  {
  }

  lemma StepInv(s: System, t: Thread, a: Action)
    requires Inv(s) && BroadcastsClosed(s) && Enabled(s, t, a)
    ensures Inv(Apply(s, t, a)) && BroadcastsClosed(Apply(s, t, a))
  {
    BroadcastsStayClosed(s, t, a);
    hide Inv, BroadcastsClosed, Apply;
    match a
    case Notify(w) => NotifyInv(s, t, w);
    case Run => RunStepInv(s, t);
    case _ => OtherInv(s, t, a);
  }

  lemma RunStepInv(s: System, t: Thread)
    requires Inv(s) && BroadcastsClosed(s) && Enabled(s, t, Run)
    ensures Inv(Apply(s, t, Run))
  {
    ClosedWhileBroadcasting(s, t);
    hide Inv, BroadcastsClosed, RunPush, RunPop, WakeAll, Count;
    match s.threads[t]
    case PushStart(item) => PushInv(s, t, item);
    case PushWoken(item) => PushInv(s, t, item);
    case PopStart => PopInv(s, t);
    case PopWoken => PopInv(s, t);
    case CloseStart => CloseInv(s, t);
    case CloseNotifyEmpty => BroadcastEmptyInv(s, t);
    case CloseNotifyFull => BroadcastFullInv(s, t);
  }

  lemma ClosedWhileBroadcasting(s: System, t: Thread)
    requires BroadcastsClosed(s) && t in s.threads
    ensures s.threads[t].CloseNotifyEmpty? || s.threads[t].CloseNotifyFull? ==> s.shared.closed
  {
  }

  // ----------------------------------------------------------------------------- runs

  ghost predicate StepTo(s: System, s': System) {
    exists t, a :: Enabled(s, t, a) && Apply(s, t, a) == s'
  }

  ghost predicate IsRun(run: seq<System>) {
    run != [] && Initial(run[0]) && forall i :: 0 <= i < |run| - 1 ==> StepTo(run[i], run[i + 1])
  }

  lemma {:induction false} RunInv(run: seq<System>, i: nat)
    requires IsRun(run) && i < |run|
    ensures Inv(run[i]) && BroadcastsClosed(run[i])
    decreases i
  {
    hide Inv, BroadcastsClosed, Initial, Apply, Enabled;
    if i == 0 {
      InitialInv(run[0]);
      InitialBroadcasts(run[0]);
    } else {
      RunInv(run, i - 1);
      assert StepTo(run[i - 1], run[i - 1 + 1]);
      var t, a :| Enabled(run[i - 1], t, a) && Apply(run[i - 1], t, a) == run[i];
      StepInv(run[i - 1], t, a);
    }
  }

  lemma InitialBroadcasts(s: System)
    requires Initial(s)
    ensures BroadcastsClosed(s)
  {
  }

  // --------------------------------------------------------------------------- results

  /** The condition a sleeping thread waits for. */
  predicate WaitIsOver(s: System, pc: Pc) {
    s.shared.closed || if pc.PushAsleep? then |s.shared.queue| < s.shared.capacity else s.shared.queue != []
  }

  /** A thread that will wake a sleeper of this kind, or use what it waits for itself. */
  predicate Helps(helper: Pc, sleeper: Pc) {
    if sleeper.PopAsleep?
    then helper.PopWoken? || helper.PushNotify? || helper.CloseNotifyEmpty?
    else helper.PushWoken? || helper.PopNotify? || helper.CloseNotifyEmpty? || helper.CloseNotifyFull?
  }

  /** No lost wakeup: in every reachable state, a thread asleep although its condition holds is not
      stranded; some other thread is awake that will wake it or take its turn. */
  lemma NoLostWakeup(run: seq<System>, i: nat, t: Thread)
    requires IsRun(run) && i < |run| && t in run[i].threads
    requires run[i].threads[t].PushAsleep? || run[i].threads[t].PopAsleep?
    requires WaitIsOver(run[i], run[i].threads[t])
    ensures exists u :: u in run[i].threads && Helps(run[i].threads[u], run[i].threads[t])
  {
    var s := run[i];
    RunInv(run, i);
    CountPositive(s.threads, t);
    hide Linear, Count, IsRun;
    var kind := if s.threads[t].PopAsleep? then
                  if s.shared.closed then KCloseNotifyEmpty
                  else if Count(s.threads, KPopWoken) > 0 then KPopWoken else KPushNotify
                else if s.shared.closed then
                  if Count(s.threads, KCloseNotifyEmpty) > 0 then KCloseNotifyEmpty else KCloseNotifyFull
                else if Count(s.threads, KPushWoken) > 0 then KPushWoken else KPopNotify;
    var u := CountWitness(s.threads, kind);
    assert Helps(s.threads[u], s.threads[t]);
  }

  predicate Quiescent(s: System) {
    forall t :: t in s.threads ==> s.threads[t].Idle? || s.threads[t].PushAsleep? || s.threads[t].PopAsleep?
  }

  /** When nothing moves any more, every sleeper really has to wait: the queue is open, consumers
      sleep only on an empty queue and producers only on a full one, so never both. */
  lemma QuiescentSleepersMustWait(run: seq<System>, i: nat, t: Thread)
    requires IsRun(run) && i < |run| && Quiescent(run[i]) && t in run[i].threads
    ensures run[i].threads[t].PopAsleep? ==> !run[i].shared.closed && run[i].shared.queue == []
    ensures run[i].threads[t].PushAsleep? ==>
              !run[i].shared.closed && |run[i].shared.queue| == run[i].shared.capacity > 0
  {
    var s := run[i];
    RunInv(run, i);
    CountZero(s.threads, KPopWoken);
    CountZero(s.threads, KPushWoken);
    CountZero(s.threads, KPushNotify);
    CountZero(s.threads, KPopNotify);
    CountZero(s.threads, KCloseNotifyEmpty);
    CountZero(s.threads, KCloseNotifyFull);
    CountPositive(s.threads, t);
    hide Count, IsRun;
  }

  /** The items pushed and popped, in the order their critical sections ran. */
  function PushedItems(ops: seq<Op>): seq<Item> {
    if ops == [] then [] else
    PushedItems(ops[..|ops| - 1]) + if ops[|ops| - 1].Pushed? then [ops[|ops| - 1].item] else []
  }

  function PoppedItems(ops: seq<Op>): seq<Item> {
    if ops == [] then [] else
    PoppedItems(ops[..|ops| - 1]) + if ops[|ops| - 1].Popped? then [ops[|ops| - 1].item] else []
  }

  /** First in, first out: what was pushed is what was popped, followed by what is still queued. */
  lemma {:induction false} Fifo(ops: seq<Op>, capacity: nat)
    requires Replay(ops, capacity).Abstract?
    ensures PushedItems(ops) == PoppedItems(ops) + Replay(ops, capacity).queue
  {
    if ops != [] {
      var n := |ops| - 1;
      Fifo(ops[..n], capacity);
      var a := Replay(ops[..n], capacity);
      if ops[n].Popped? {
        assert a.queue == [ops[n].item] + a.queue[1..];
      }
    }
  }

  /** Every run of the threads is a run of the sequential queue: the operations took effect one
      after another, first in first out, never above the capacity, and the high-water mark is the
      longest the queue has been. */
  lemma QueueIsLinear(run: seq<System>, i: nat)
    requires IsRun(run) && i < |run|
    ensures var s := run[i];
            && Replay(s.ops, s.shared.capacity) == Abstract(s.shared.queue, s.shared.closed)
            && PushedItems(s.ops) == PoppedItems(s.ops) + s.shared.queue
            && |s.shared.queue| <= s.shared.highWater <= s.shared.capacity
            && s.shared.highWater == Peak(s.ops, s.shared.capacity)
  {
    var s := run[i];
    RunInv(run, i);
    Fifo(s.ops, s.shared.capacity);
    BelowPeak(s.shared, s.ops);
    PeakWithin(s.ops, s.shared.capacity);
  }

  lemma {:induction false} PeakWithin(ops: seq<Op>, capacity: nat)
    ensures Peak(ops, capacity) <= capacity
    ensures Replay(ops, capacity).Abstract? ==> |Replay(ops, capacity).queue| <= capacity
  {
    if ops != [] {
      PeakWithin(ops[..|ops| - 1], capacity);
    }
  }

  // ------------------------------------------------------------- after closing, all return

  /** How many steps of its own a thread may still take once the queue is closed. */
  function Left(pc: Pc): nat {
    match pc
    case Idle => 0
    case PushNotify => 1
    case PopNotify(_) => 1
    case CloseNotifyFull => 1
    case PushAsleep(_) => 3
    case PopAsleep => 3
    case CloseStart => 3
    case _ => 2
  }

  function Owing(m: Threads, k: nat): set<Thread> { set t | t in m && Left(m[t]) >= k }

  /** The steps left to all threads together: the sum of `Left`, counted by thresholds. */
  function Work(m: Threads): nat { |Owing(m, 1)| + |Owing(m, 2)| + |Owing(m, 3)| }

  lemma OwingMoves(m: Threads, t: Thread, pc: Pc, k: nat)
    requires t in m
    ensures |Owing(m[t := pc], k)| + One(Left(m[t]) >= k) == |Owing(m, k)| + One(Left(pc) >= k)
  {
    assert Owing(m[t := pc], k) == (Owing(m, k) - {t}) + (if Left(pc) >= k then {t} else {});
  }

  lemma WorkMoves(m: Threads, t: Thread, pc: Pc)
    requires t in m
    ensures Work(m[t := pc]) + Left(m[t]) == Work(m) + Left(pc)
  {
    OwingMoves(m, t, pc, 1);
    OwingMoves(m, t, pc, 2);
    OwingMoves(m, t, pc, 3);
    hide Owing;
  }

  lemma WokenOwes(pc: Pc)
    ensures Left(Woken(pc)) <= Left(pc)
  {
  }

  lemma OwingWakes(m: Threads, asleep: Kind, k: nat)
    ensures |Owing(WakeAll(m, asleep), k)| <= |Owing(m, k)|
  {
    hide Left, Woken, KindOf;
    var w := WakeAll(m, asleep);
    forall t | t in Owing(w, k)
      ensures t in Owing(m, k)
    {
      WokenOwes(m[t]);
    }
    SmallerSet(Owing(w, k), Owing(m, k));
  }

  /** A broadcast makes no work. */
  lemma WorkWakes(m: Threads, asleep: Kind)
    ensures Work(WakeAll(m, asleep)) <= Work(m)
  {
    OwingWakes(m, asleep, 1);
    OwingWakes(m, asleep, 2);
    OwingWakes(m, asleep, 3);
  }

  lemma OwingWithin(m: Threads, k: nat)
    ensures |Owing(m, k)| <= |m|
  {
    SmallerSet(Owing(m, k), m.Keys);
  }

  /** At most three steps a thread. */
  lemma WorkWithin(m: Threads)
    ensures Work(m) <= 3 * |m|
  {
    OwingWithin(m, 1);
    OwingWithin(m, 2);
    OwingWithin(m, 3);
  }

  /** A step of a call that has already begun. */
  ghost predicate Continues(s: System, s': System) {
    exists t, a :: Enabled(s, t, a) && !a.Begin? && Apply(s, t, a) == s'
  }

  lemma ClosedStepWorks(s: System, t: Thread, a: Action)
    requires s.shared.closed && Enabled(s, t, a) && !a.Begin?
    ensures Apply(s, t, a).shared.closed
    ensures Work(Apply(s, t, a).threads) < Work(s.threads)
  {
    hide Work, Count;
    var pc := s.threads[t];
    if a.Notify? {
      var m := s.threads[a.woken := Woken(s.threads[a.woken])];
      WorkMoves(s.threads, a.woken, Woken(s.threads[a.woken]));
      WorkMoves(m, t, Idle);
    } else if a.Run? && pc.CloseNotifyEmpty? {
      WorkWakes(s.threads, KPopAsleep);
      WorkMoves(WakeAll(s.threads, KPopAsleep), t, CloseNotifyFull);
    } else if a.Run? && pc.CloseNotifyFull? {
      WorkWakes(s.threads, KPushAsleep);
      WorkMoves(WakeAll(s.threads, KPushAsleep), t, Idle);
    } else {
      WorkMoves(s.threads, t, Apply(s, t, a).threads[t]);
    }
  }

  /** Closing releases everybody: once the queue is closed, calls already made take no more than three
      steps each, in whatever order they come. */
  lemma {:induction false} CloseReleases(run: seq<System>, i: nat)
    requires IsRun(run) && i < |run| && run[i].shared.closed
    requires forall j :: i <= j < |run| - 1 ==> Continues(run[j], run[j + 1])
    ensures |run| - 1 - i <= Work(run[i].threads) <= 3 * |run[i].threads|
    decreases |run| - i
  {
    WorkWithin(run[i].threads);
    hide Work, Apply, Enabled, IsRun;
    if i < |run| - 1 {
      assert Continues(run[i], run[i + 1]);
      var t, a :| Enabled(run[i], t, a) && !a.Begin? && Apply(run[i], t, a) == run[i + 1];
      ClosedStepWorks(run[i], t, a);
      CloseReleases(run, i + 1);
    }
  }

  /** The step a thread that is neither idle nor asleep takes next. */
  lemma AwakeCanStep(s: System, t: Thread) returns (a: Action)
    requires t in s.threads && !s.threads[t].Idle? && !s.threads[t].PushAsleep? && !s.threads[t].PopAsleep?
    ensures Enabled(s, t, a) && !a.Begin? && !a.WakeUp?
  {
    var pc := s.threads[t];
    if pc.PushNotify? || pc.PopNotify? {
      var kind := if pc.PushNotify? then KPopAsleep else KPushAsleep;
      if Count(s.threads, kind) == 0 {
        a := NotifyNobody;
      } else {
        var w := CountWitness(s.threads, kind);
        a := Notify(w);
      }
    } else {
      a := Run;
    }
  }

  /** And until all of them have returned, some thread can take a step that is no spurious wakeup. */
  lemma ClosedNeverStuck(run: seq<System>, i: nat, t: Thread)
    requires IsRun(run) && i < |run| && run[i].shared.closed
    requires t in run[i].threads && !run[i].threads[t].Idle?
    ensures exists u, a :: Enabled(run[i], u, a) && !a.Begin? && !a.WakeUp?
  {
    var u := t;
    if run[i].threads[t].PushAsleep? || run[i].threads[t].PopAsleep? {
      NoLostWakeup(run, i, t);
      u :| u in run[i].threads && Helps(run[i].threads[u], run[i].threads[t]);
    }
    var a := AwakeCanStep(run[i], u);
  }

  // ----------------------------------------------------- calls settle, on an open queue too

  /** Steps other than new calls and spurious wakeups that a thread can still cause, among `n` threads:
      a notification may wake one sleeper, a broadcast all of them. */
  function Weight(pc: Pc, n: nat): nat {
    match pc
    case Idle => 0
    case PushAsleep(_) => 2
    case PopAsleep => 2
    case PushNotify => 3
    case PopNotify(_) => 3
    case CloseNotifyFull => 2 * n + 1
    case CloseNotifyEmpty => 4 * n + 2
    case CloseStart => 4 * n + 3
    case _ => 4
  }

  function Heavy(m: Threads, n: nat, k: nat): set<Thread> { set t | t in m && Weight(m[t], n) >= k }

  /** The sum of the weights, up to `k` for each thread. */
  function Sum(m: Threads, n: nat, k: nat): nat { if k == 0 then 0 else |Heavy(m, n, k)| + Sum(m, n, k - 1) }

  function Min(a: nat, b: nat): nat { if a < b then a else b }

  lemma HeavyMoves(m: Threads, t: Thread, pc: Pc, n: nat, k: nat)
    requires t in m
    ensures |Heavy(m[t := pc], n, k)| + One(Weight(m[t], n) >= k) == |Heavy(m, n, k)| + One(Weight(pc, n) >= k)
  {
    hide Weight;
    assert Heavy(m[t := pc], n, k) == (Heavy(m, n, k) - {t}) + (if Weight(pc, n) >= k then {t} else {});
  }

  lemma {:induction false} SumMoves(m: Threads, t: Thread, pc: Pc, n: nat, k: nat)
    requires t in m
    ensures Sum(m[t := pc], n, k) + Min(Weight(m[t], n), k) == Sum(m, n, k) + Min(Weight(pc, n), k)
    decreases k
  {
    hide Weight, Heavy;
    if k > 0 {
      SumMoves(m, t, pc, n, k - 1);
      HeavyMoves(m, t, pc, n, k);
    }
  }

  lemma WokenWeighs(pc: Pc, n: nat)
    ensures Weight(Woken(pc), n) == Weight(pc, n) || (Weight(pc, n) == 2 && Weight(Woken(pc), n) == 4)
    ensures Weight(Woken(pc), n) <= Weight(pc, n) + 2
  {
  }

  /** A broadcast moves sleepers past the thresholds three and four only. */
  lemma HeavyWakes(m: Threads, asleep: Kind, n: nat, k: nat)
    ensures |Heavy(WakeAll(m, asleep), n, k)| <= |Heavy(m, n, k)| + if k == 3 || k == 4 then |m| else 0
  {
    hide Weight, Woken, KindOf;
    var w := WakeAll(m, asleep);
    if k == 3 || k == 4 {
      SmallerSet(Heavy(w, n, k), w.Keys);
      assert w.Keys == m.Keys;
    } else {
      forall t | t in Heavy(w, n, k)
        ensures t in Heavy(m, n, k)
      {
        WokenWeighs(m[t], n);
      }
      SmallerSet(Heavy(w, n, k), Heavy(m, n, k));
    }
  }

  lemma {:induction false} SumWakes(m: Threads, asleep: Kind, n: nat, k: nat)
    ensures Sum(WakeAll(m, asleep), n, k) <= Sum(m, n, k) + if k >= 4 then 2 * |m| else if k == 3 then |m| else 0
    decreases k
  {
    hide Heavy, WakeAll;
    if k > 0 {
      SumWakes(m, asleep, n, k - 1);
      HeavyWakes(m, asleep, n, k);
    }
  }

  lemma {:induction false} SumWithin(m: Threads, n: nat, k: nat)
    ensures Sum(m, n, k) <= k * |m|
    decreases k
  {
    if k > 0 {
      SumWithin(m, n, k - 1);
      SmallerSet(Heavy(m, n, k), m.Keys);
      assert k * |m| == (k - 1) * |m| + |m|;
    }
  }

  function Owed(m: Threads): nat { Sum(m, |m|, 4 * |m| + 3) }

  lemma WeightBound(pc: Pc, n: nat)
    requires n > 0
    ensures Weight(pc, n) <= 4 * n + 3
  {
  }

  /** What moving one thread does to the sum. */
  lemma OwedMoves(m: Threads, t: Thread, pc: Pc)
    requires t in m
    ensures |m[t := pc]| == |m| && Owed(m[t := pc]) + Weight(m[t], |m|) == Owed(m) + Weight(pc, |m|)
  {
    hide Weight, Sum;
    assert m.Keys != {};
    assert m[t := pc].Keys == m.Keys;
    WeightBound(m[t], |m|);
    WeightBound(pc, |m|);
    SumMoves(m, t, pc, |m|, 4 * |m| + 3);
  }

  lemma OwedWakes(m: Threads, asleep: Kind)
    ensures WakeAll(m, asleep).Keys == m.Keys && |WakeAll(m, asleep)| == |m|
    ensures Owed(WakeAll(m, asleep)) <= Owed(m) + 2 * |m|
  {
    var w := WakeAll(m, asleep);
    assert w.Keys == m.Keys;
    SumWakes(m, asleep, |m|, 4 * |m| + 3);
    hide WakeAll, Sum;
  }

  lemma StepPays(s: System, t: Thread, a: Action)
    requires Enabled(s, t, a) && !a.Begin? && !a.WakeUp?
    ensures var m := Apply(s, t, a).threads; |m| == |s.threads| && Owed(m) < Owed(s.threads)
  {
    hide Owed, Count, Weight, RunPush, RunPop;
    var pc := s.threads[t];
    StepLightens(s, t, a);
    if a.Notify? {
      var m := s.threads[a.woken := Woken(s.threads[a.woken])];
      OwedMoves(s.threads, a.woken, Woken(s.threads[a.woken]));
      OwedMoves(m, t, Idle);
      WokenWeighs(s.threads[a.woken], |s.threads|);
    } else if a.Run? && pc.CloseNotifyEmpty? {
      OwedWakes(s.threads, KPopAsleep);
      OwedMoves(WakeAll(s.threads, KPopAsleep), t, CloseNotifyFull);
    } else if a.Run? && pc.CloseNotifyFull? {
      OwedWakes(s.threads, KPushAsleep);
      OwedMoves(WakeAll(s.threads, KPushAsleep), t, Idle);
    } else {
      OneMoves(s, t, a);
      OwedMoves(s.threads, t, Apply(s, t, a).threads[t]);
    }
  }

  /** The stepping thread pays for everything the step may wake. */
  lemma StepLightens(s: System, t: Thread, a: Action)
    requires Enabled(s, t, a) && !a.Begin? && !a.WakeUp?
    ensures var n, m := |s.threads|, Apply(s, t, a).threads;
            && t in m
            && Weight(m[t], n) + (if a.Notify? then 3 else if Broadcasts(s.threads[t]) then 2 * n + 1 else 1)
               <= Weight(s.threads[t], n)
  {
    hide Count;
  }

  predicate Broadcasts(pc: Pc) { pc.CloseNotifyEmpty? || pc.CloseNotifyFull? }

  lemma OneMoves(s: System, t: Thread, a: Action)
    requires Enabled(s, t, a) && !a.Notify? && !(a.Run? && Broadcasts(s.threads[t]))
    ensures var m := Apply(s, t, a).threads; t in m && m == s.threads[t := m[t]]
  {
    hide Count;
  }

  /** A step that is neither a new call nor a spurious wakeup. */
  ghost predicate Proceeds(s: System, s': System) {
    exists t, a :: Enabled(s, t, a) && !a.Begin? && !a.WakeUp? && Apply(s, t, a) == s'
  }

  /** Calls settle: with no new calls and no spurious wakeups there are only so many steps, open or
      closed, in whatever order. */
  lemma {:induction false} CallsSettle(run: seq<System>, i: nat)
    requires IsRun(run) && i < |run|
    requires forall j :: i <= j < |run| - 1 ==> Proceeds(run[j], run[j + 1])
    ensures |run| - 1 - i <= Owed(run[i].threads) <= (4 * |run[i].threads| + 3) * |run[i].threads|
    decreases |run| - i
  {
    SumWithin(run[i].threads, |run[i].threads|, 4 * |run[i].threads| + 3);
    hide Owed, Apply, Enabled, IsRun;
    if i < |run| - 1 {
      assert Proceeds(run[i], run[i + 1]);
      var t, a :| Enabled(run[i], t, a) && !a.Begin? && !a.WakeUp? && Apply(run[i], t, a) == run[i + 1];
      StepPays(run[i], t, a);
      CallsSettle(run, i + 1);
    }
  }

  /** And when they have settled no sleeper is left behind: who still sleeps really has to wait. */
  lemma NoSleeperLeftBehind(run: seq<System>, i: nat, t: Thread)
    requires IsRun(run) && i < |run| && t in run[i].threads
    requires forall u, a :: Enabled(run[i], u, a) ==> a.Begin? || a.WakeUp?
    ensures var s := run[i];
            match s.threads[t]
            case Idle => true
            case PopAsleep => !s.shared.closed && s.shared.queue == []
            case PushAsleep(_) => !s.shared.closed && |s.shared.queue| == s.shared.capacity
            case _ => false
  {
    var s := run[i];
    forall u | u in s.threads
      ensures s.threads[u].Idle? || s.threads[u].PushAsleep? || s.threads[u].PopAsleep?
    {
      if !s.threads[u].Idle? && !s.threads[u].PushAsleep? && !s.threads[u].PopAsleep? {
        var a := AwakeCanStep(s, u);
      }
    }
    hide IsRun, Enabled;
    QuiescentSleepersMustWait(run, i, t);
  }
}
