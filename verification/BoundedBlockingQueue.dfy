/**
  The bounded queue: any number of threads put and take, one atomic action at a time, under
  one mutex with two condition variables.  The notification is given inside the critical
  section.
 */
module BoundedBlockingQueue {
  import opened Queues
  import Runs

  /** Where a thread is in put or in take. */
  datatype Pc<T> =
    | Idle
    | PutLock(elem: T)    // asks for the mutex, at first or after having been woken
    | PutTest(elem: T)    // holds it, at the loop's condition
    | PutParked(elem: T)  // waits on notFullCond_
    | PutNotify           // holds it, has pushed
    | PutUnlock           // holds it, has notified
    | TakeLock
    | TakeTest
    | TakeParked          // waits on notEmptyCond_
    | TakeNotify(got: T)
    | TakeUnlock(got: T)

  datatype State<T> = State(
    maxSize: nat,
    queue: seq<T>,
    mutex: Owner,
    pcs: map<nat, Pc<T>>,
    put: seq<(nat, T)>,       // every element pushed, in order, and by which thread
    returned: seq<(nat, T)>)  // every element a take has returned, and to which thread

  function Start<T>(maxSize: nat, threads: set<nat>): State<T> {
    State(maxSize, [], Free, map t | t in threads :: Idle, [], [])
  }

  // ---------- steps ----------

  datatype Event<T> =
    | CallPut(thread: nat, elem: T)
    | CallTake(thread: nat)
    | Advance(thread: nat)
    | Spurious(thread: nat) // woken without having been notified

  predicate CanAdvance<T>(s: State<T>, t: nat) {
    && t in s.pcs
    && match s.pcs[t]
       case Idle => false
       case PutParked(_) => false
       case TakeParked => false
       case PutLock(_) => s.mutex == Free
       case TakeLock => s.mutex == Free
       case _ => true
  }

  predicate Enabled<T>(s: State<T>, e: Event<T>) {
    match e
    case CallPut(t, _) => t in s.pcs && s.pcs[t].Idle?
    case CallTake(t) => t in s.pcs && s.pcs[t].Idle?
    case Advance(t) => CanAdvance(s, t)
    case Spurious(t) => t in s.pcs && (s.pcs[t].PutParked? || s.pcs[t].TakeParked?)
  }

  function Woken<T>(pc: Pc<T>): Pc<T> {
    match pc
    case PutParked(elem) => PutLock(elem)
    case TakeParked => TakeLock
    case _ => pc
  }

  function NotifyNotEmpty<T>(pcs: map<nat, Pc<T>>): map<nat, Pc<T>> {
    map t | t in pcs :: if pcs[t].TakeParked? then TakeLock else pcs[t]
  }

  function NotifyNotFull<T>(pcs: map<nat, Pc<T>>): map<nat, Pc<T>> {
    map t | t in pcs :: if pcs[t].PutParked? then PutLock(pcs[t].elem) else pcs[t]
  }

  function At<T>(s: State<T>, t: nat, pc: Pc<T>): State<T> {
    s.(pcs := s.pcs[t := pc])
  }

  function Moved<T>(s: State<T>, t: nat): State<T>
    requires CanAdvance(s, t)
  {
    match s.pcs[t]
    case PutLock(x) => At(s.(mutex := HeldBy(t)), t, PutTest(x))
    case PutTest(x) =>
      if |s.queue| == s.maxSize then At(s.(mutex := Free), t, PutParked(x))
      else At(s.(queue := s.queue + [x], put := s.put + [(t, x)]), t, PutNotify)
    case PutNotify => At(s.(pcs := NotifyNotEmpty(s.pcs)), t, PutUnlock)
    case PutUnlock => At(s.(mutex := Free), t, Idle)
    case TakeLock => At(s.(mutex := HeldBy(t)), t, TakeTest)
    case TakeTest =>
      if s.queue == [] then At(s.(mutex := Free), t, TakeParked)
      else At(s.(queue := s.queue[1..]), t, TakeNotify(s.queue[0]))
    case TakeNotify(x) => At(s.(pcs := NotifyNotFull(s.pcs)), t, TakeUnlock(x))
    case TakeUnlock(x) => At(s.(mutex := Free, returned := s.returned + [(t, x)]), t, Idle)
  }

  function Step<T>(s: State<T>, e: Event<T>): State<T>
    requires Enabled(s, e)
  {
    match e
    case CallPut(t, x) => At(s, t, PutLock(x))
    case CallTake(t) => At(s, t, TakeLock)
    case Advance(t) => Moved(s, t)
    case Spurious(t) => At(s, t, Woken(s.pcs[t]))
  }

  // ---------- the invariant ----------

  predicate Critical<T>(pc: Pc<T>) {
    pc.PutTest? || pc.PutNotify? || pc.PutUnlock? || pc.TakeTest? || pc.TakeNotify? || pc.TakeUnlock?
  }

  /** The mutex is held by the one thread that is in a critical section. */
  ghost predicate Exclusive<T>(s: State<T>) {
    && (forall t :: t in s.pcs ==> (Critical(s.pcs[t]) <==> s.mutex == HeldBy(t)))
    && (s.mutex.HeldBy? ==> s.mutex.thread in s.pcs)
  }

  /** The element taken by the thread in its critical section and not yet returned. */
  function InHand<T>(s: State<T>): seq<T> {
    if s.mutex.HeldBy? && s.mutex.thread in s.pcs then
      match s.pcs[s.mutex.thread]
      case TakeNotify(x) => [x]
      case TakeUnlock(x) => [x]
      case _ => []
    else []
  }

  /** Nothing is lost, doubled or overtaken between put and take. */
  ghost predicate Conserved<T>(s: State<T>) {
    Elements(s.put) == Elements(s.returned) + InHand(s) + s.queue
  }

  ghost predicate SomeTakerWaits<T>(s: State<T>) {
    exists t :: t in s.pcs && s.pcs[t].TakeParked?
  }

  ghost predicate SomePutterWaits<T>(s: State<T>) {
    exists t :: t in s.pcs && s.pcs[t].PutParked?
  }

  predicate Notifying<T>(s: State<T>, putter: bool) {
    && s.mutex.HeldBy? && s.mutex.thread in s.pcs
    && if putter then s.pcs[s.mutex.thread].PutNotify? else s.pcs[s.mutex.thread].TakeNotify?
  }

  /** Who waits has reason to, or is about to be told otherwise. */
  ghost predicate Waiting<T>(s: State<T>) {
    && (SomeTakerWaits(s) ==> s.queue == [] || Notifying(s, true))
    && (SomePutterWaits(s) ==> |s.queue| == s.maxSize || Notifying(s, false))
    && (s.maxSize > 0 ==> !(SomeTakerWaits(s) && SomePutterWaits(s)))
  }

  ghost predicate Inv<T>(s: State<T>) {
    Exclusive(s) && Conserved(s) && |s.queue| <= s.maxSize && Waiting(s)
  }

  lemma StartKept<T>(maxSize: nat, threads: set<nat>)
    ensures Inv(Start<T>(maxSize, threads))
  {
  }

  lemma AdvanceExclusive<T>(s: State<T>, t: nat)
    requires Exclusive(s) && CanAdvance(s, t)
    ensures Exclusive(Moved(s, t))
  {
  }

  lemma AdvanceConserves<T>(s: State<T>, t: nat)
    requires Exclusive(s) && Conserved(s) && |s.queue| <= s.maxSize && CanAdvance(s, t)
    ensures Conserved(Moved(s, t)) && |Moved(s, t).queue| <= s.maxSize
  {
    match s.pcs[t]
    case PutTest(x) => ElementsSnoc(s.put, (t, x));
    case TakeTest =>
      if s.queue != [] {
        assert s.queue == [s.queue[0]] + s.queue[1..];
      }
    case TakeUnlock(x) => ElementsSnoc(s.returned, (t, x));
    case _ =>
  }

  lemma AdvanceWaiting<T>(s: State<T>, t: nat)
    requires Exclusive(s) && |s.queue| <= s.maxSize && Waiting(s) && CanAdvance(s, t)
    ensures Waiting(Moved(s, t))
  {
    var d := Moved(s, t);
    forall u | u in d.pcs && u != t && !s.pcs[t].PutNotify? && !s.pcs[t].TakeNotify?
      ensures d.pcs[u] == s.pcs[u]
    {
    }
  }

  lemma StepKeeps<T>(s: State<T>, e: Event<T>)
    requires Inv(s) && Enabled(s, e)
    ensures Inv(Step(s, e))
  {
    match e
    case Advance(t) =>
      AdvanceExclusive(s, t);
      AdvanceConserves(s, t);
      AdvanceWaiting(s, t);
    case _ =>
  }

  // ---------- what holds of every run ----------

  ghost predicate Reachable<T(!new)>(s: State<T>, maxSize: nat, threads: set<nat>) {
    exists es :: Runs.Leads(Step<T>, Start<T>(maxSize, threads), es, s)
  }

  lemma ReachableInv<T(!new)>(s: State<T>, maxSize: nat, threads: set<nat>)
    requires Reachable(s, maxSize, threads)
    ensures Inv(s) && s.maxSize == maxSize && s.pcs.Keys == threads
  {
    hide Inv;
    var es :| Runs.Leads(Step<T>, Start<T>(maxSize, threads), es, s);
    StartKept<T>(maxSize, threads);
    var inv := (d: State<T>) => Inv(d) && d.maxSize == maxSize && d.pcs.Keys == threads;
    forall d: State<T>, e: Event<T> | inv(d) && Step<T>.requires(d, e) ensures inv(Step<T>(d, e)) {
      StepKeeps(d, e);
    }
    Runs.Kept(Step<T>, inv, Start<T>(maxSize, threads), es, s);
  }

  // ---------- what the calls of a run come to ----------

  predicate InPut<T>(pc: Pc<T>) {
    pc.PutLock? || pc.PutTest? || pc.PutParked? || pc.PutNotify? || pc.PutUnlock?
  }

  predicate InTake<T>(pc: Pc<T>) {
    !pc.Idle? && !InPut(pc)
  }

  /** The elements thread `t` has called put with, in order. */
  function PutsOf<T(==)>(es: seq<Event<T>>, t: nat): seq<T> {
    if es == [] then [] else PutsOf(es[..|es| - 1], t) + ElementPut(es[|es| - 1], t)
  }

  function ElementPut<T>(e: Event<T>, t: nat): seq<T> {
    if e.CallPut? && e.thread == t then [e.elem] else []
  }

  /** How often thread `t` has called take. */
  function TakesOf<T(==)>(es: seq<Event<T>>, t: nat): nat {
    if es == [] then 0 else TakesOf(es[..|es| - 1], t) + if CallsTake(es[|es| - 1], t) then 1 else 0
  }

  predicate CallsTake<T>(e: Event<T>, t: nat) {
    e.CallTake? && e.thread == t
  }

  /** The element a thread in put has yet to push. */
  function Unpushed<T>(s: State<T>, t: nat): seq<T> {
    if t !in s.pcs then []
    else
      match s.pcs[t]
      case PutLock(x) => [x]
      case PutTest(x) => [x]
      case PutParked(x) => [x]
      case _ => []
  }

  /** A call of take that has not returned. */
  function Untaken<T>(s: State<T>, t: nat): nat {
    if t in s.pcs && InTake(s.pcs[t]) then 1 else 0
  }

  lemma PutAccounts<T>(s: State<T>, e: Event<T>, t: nat)
    requires Enabled(s, e)
    ensures var d := Step(s, e);
            By(d.put, t) + Unpushed(d, t) == By(s.put, t) + (Unpushed(s, t) + ElementPut(e, t))
  {
    hide By;
    if e.Advance? && s.pcs[e.thread].PutTest? {
      BySnoc(s.put, (e.thread, s.pcs[e.thread].elem), t);
    }
  }

  lemma TakeAccounts<T>(s: State<T>, e: Event<T>, t: nat)
    requires Enabled(s, e)
    ensures var d := Step(s, e);
            |By(d.returned, t)| + Untaken(d, t)
            == |By(s.returned, t)| + Untaken(s, t) + if CallsTake(e, t) then 1 else 0
  {
    hide By;
    if e.Advance? && s.pcs[e.thread].TakeUnlock? {
      BySnoc(s.returned, (e.thread, s.pcs[e.thread].got), t);
    }
  }

  /**
    Over every run: each thread has pushed just the elements it called put with, in the order of
    its calls, but for the one it is about to push, and each of its takes has returned an
    element, but for the one it is in.
   */
  lemma {:induction false} CallsAccounted<T(!new)>(es: seq<Event<T>>, s: State<T>, maxSize: nat, threads: set<nat>,
      t: nat)
    requires Runs.Leads(Step<T>, Start<T>(maxSize, threads), es, s)
    ensures PutsOf(es, t) == By(s.put, t) + Unpushed(s, t)
    ensures TakesOf(es, t) == |By(s.returned, t)| + Untaken(s, t)
    decreases |es|
  {
    if es != [] {
      var m := Runs.LastStep(Step<T>, Start<T>(maxSize, threads), es, s);
      CallsAccounted(es[..|es| - 1], m, maxSize, threads, t);
      hide Step, Enabled, By, Unpushed, Untaken, ElementPut, CallsTake;
      PutAccounts(m, es[|es| - 1], t);
      TakeAccounts(m, es[|es| - 1], t);
    }
  }

  /** First in, first out, exactly once, and never more than maxSize_ in between. */
  lemma PutsAreTaken<T(!new)>(s: State<T>, maxSize: nat, threads: set<nat>)
    requires Reachable(s, maxSize, threads)
    ensures Elements(s.put) == Elements(s.returned) + InHand(s) + s.queue
    ensures |s.queue| <= maxSize
  {
    ReachableInv(s, maxSize, threads);
  }

  /** While no thread holds the mutex, takers wait for an empty queue and putters for a full one. */
  lemma WaitersHaveReason<T(!new)>(s: State<T>, maxSize: nat, threads: set<nat>)
    requires Reachable(s, maxSize, threads) && s.mutex == Free
    ensures SomeTakerWaits(s) ==> s.queue == []
    ensures SomePutterWaits(s) ==> |s.queue| == maxSize
  {
    ReachableInv(s, maxSize, threads);
  }

  /** Putters and takers can wait at the same time just when the queue has no room at all. */
  lemma BothWaitIffNoRoom<T(!new)>(maxSize: nat, x: T)
    ensures (exists s: State<T>, threads :: Reachable(s, maxSize, threads)
                                            && SomeTakerWaits(s) && SomePutterWaits(s))
            <==> maxSize == 0
  {
    if maxSize == 0 {
      BothWait(x);
    } else {
      forall s: State<T>, threads | Reachable(s, maxSize, threads)
        ensures !(SomeTakerWaits(s) && SomePutterWaits(s))
      {
        ReachableInv(s, maxSize, threads);
      }
    }
  }

  lemma BothWait<T(!new)>(x: T)
    ensures exists s: State<T>, threads :: Reachable(s, 0, threads) && SomeTakerWaits(s) && SomePutterWaits(s)
  {
    var s0 := Start<T>(0, {0, 1});
    var s3 := s0.(pcs := s0.pcs[0 := PutParked(x)]);
    var s6 := s3.(pcs := s3.pcs[1 := TakeParked]);
    PutWithoutRoom(s0, 0, x);
    TakeNothing(s3, 1);
    hide Step, Enabled, Runs.Times;
    Runs.Joined(Step<T>, s0, [CallPut(0, x)] + Runs.Times(Advance(0), 2), s3,
      [Event.CallTake(1)] + Runs.Times(Advance(1), 2), s6);
    assert Reachable(s6, 0, {0, 1});
    assert s6.pcs[0].PutParked? && s6.pcs[1].TakeParked?;
    assert SomeTakerWaits(s6) && SomePutterWaits(s6);
  }

  ghost predicate Stuck<T>(s: State<T>) {
    forall t :: !CanAdvance(s, t)
  }

  /** No wakeup is lost: where nothing moves, takers face an empty queue and putters a full one. */
  lemma StuckOnlyByQueue<T(!new)>(s: State<T>, maxSize: nat, threads: set<nat>, t: nat)
    requires Reachable(s, maxSize, threads) && Stuck(s) && t in s.pcs
    ensures s.mutex == Free
    ensures InTake(s.pcs[t]) ==> s.pcs[t].TakeParked? && s.queue == []
    ensures InPut(s.pcs[t]) ==> s.pcs[t].PutParked? && |s.queue| == maxSize
  {
    ReachableInv(s, maxSize, threads);
    if s.mutex.HeldBy? {
      assert CanAdvance(s, s.mutex.thread);
    }
    assert !CanAdvance(s, t);
  }

  /** With room for one element, a put and a take in progress never block each other. */
  lemma NoDeadlock<T(!new)>(s: State<T>, maxSize: nat, threads: set<nat>, t: nat, u: nat)
    requires Reachable(s, maxSize, threads) && maxSize > 0
    requires t in s.pcs && u in s.pcs && InPut(s.pcs[t]) && InTake(s.pcs[u])
    ensures exists v :: CanAdvance(s, v)
  {
    ReachableInv(s, maxSize, threads);
    if Stuck(s) {
      StuckOnlyByQueue(s, maxSize, threads, t);
      StuckOnlyByQueue(s, maxSize, threads, u);
    }
  }

  // ---------- calls that nothing interrupts ----------

  lemma AdvanceFirst<T>(s: State<T>, t: nat, n: nat, d: State<T>)
    requires n > 0 && CanAdvance(s, t) && Runs.Leads(Step<T>, Moved(s, t), Runs.Times(Advance(t), n - 1), d)
    ensures Runs.Leads(Step<T>, s, Runs.Times(Advance(t), n), d)
  {
    assert Step(s, Advance(t)) == Moved(s, t);
    Runs.OnceMore(Step<T>, s, Advance(t), n, d);
  }

  /** Every thread but `t` is where it was, but for those that waited, which ask for the mutex again. */
  ghost predicate OthersWoken<T>(s: State<T>, d: State<T>, t: nat, takers: bool) {
    && d.pcs.Keys == s.pcs.Keys
    && forall u :: u in s.pcs && u != t ==>
         d.pcs[u] == if takers && s.pcs[u].TakeParked? then TakeLock
                     else if !takers && s.pcs[u].PutParked? then PutLock(s.pcs[u].elem)
                     else s.pcs[u]
  }

  /** A put with room appends its element, wakes all takers and returns. */
  lemma PutWithRoom<T(!new)>(s: State<T>, t: nat, x: T) returns (d: State<T>)
    requires s.mutex == Free && t in s.pcs && s.pcs[t].Idle? && |s.queue| != s.maxSize
    ensures Runs.Leads(Step<T>, s, [CallPut(t, x)] + Runs.Times(Advance(t), 4), d)
    ensures d == s.(queue := s.queue + [x], put := s.put + [(t, x)], pcs := d.pcs)
    ensures OthersWoken(s, d, t, true) && d.pcs[t] == Idle
  {
    var s1 := At(s, t, PutLock(x));
    var s2 := Moved(s1, t);
    var s3 := Moved(s2, t);
    var s4 := Moved(s3, t);
    d := Moved(s4, t);
    assert Runs.Leads(Step<T>, d, Runs.Times(Advance(t), 0), d);
    AdvanceFirst(s4, t, 1, d);
    AdvanceFirst(s3, t, 2, d);
    AdvanceFirst(s2, t, 3, d);
    AdvanceFirst(s1, t, 4, d);
    assert Step(s, CallPut(t, x)) == s1;
    Runs.OneFirst(Step<T>, s, CallPut(t, x), Runs.Times(Advance(t), 4), d);
  }

  /** A put without room waits, leaving all else as it was; woken for nothing, it does so again. */
  lemma PutWithoutRoom<T(!new)>(s: State<T>, t: nat, x: T)
    requires s.mutex == Free && t in s.pcs && |s.queue| == s.maxSize
    ensures s.pcs[t].Idle? ==>
              Runs.Leads(Step<T>, s, [CallPut(t, x)] + Runs.Times(Advance(t), 2), s.(pcs := s.pcs[t := PutParked(x)]))
    ensures s.pcs[t] == PutParked(x) ==> Runs.Leads(Step<T>, s, [Event.Spurious(t)] + Runs.Times(Advance(t), 2), s)
  {
    var s1 := At(s, t, PutLock(x));
    var s2 := Moved(s1, t);
    var d := s.(pcs := s.pcs[t := PutParked(x)]);
    assert Moved(s2, t) == d;
    assert Runs.Leads(Step<T>, d, Runs.Times(Advance(t), 0), d);
    AdvanceFirst(s2, t, 1, d);
    AdvanceFirst(s1, t, 2, d);
    if s.pcs[t].Idle? {
      assert Step(s, CallPut(t, x)) == s1;
      Runs.OneFirst(Step<T>, s, CallPut(t, x), Runs.Times(Advance(t), 2), d);
    } else if s.pcs[t] == PutParked(x) {
      assert d == s && Step(s, Spurious(t)) == s1;
      Runs.OneFirst(Step<T>, s, Spurious(t), Runs.Times(Advance(t), 2), d);
    }
  }

  /** A take of an element returns the first one, wakes all putters and leaves the rest. */
  lemma TakeElement<T(!new)>(s: State<T>, t: nat) returns (d: State<T>)
    requires s.mutex == Free && t in s.pcs && s.pcs[t].Idle? && s.queue != []
    ensures Runs.Leads(Step<T>, s, [Event.CallTake(t)] + Runs.Times(Advance(t), 4), d)
    ensures d == s.(queue := s.queue[1..], returned := s.returned + [(t, s.queue[0])], pcs := d.pcs)
    ensures OthersWoken(s, d, t, false) && d.pcs[t] == Idle
  {
    var s1 := At(s, t, TakeLock);
    var s2 := Moved(s1, t);
    var s3 := Moved(s2, t);
    var s4 := Moved(s3, t);
    d := Moved(s4, t);
    assert Runs.Leads(Step<T>, d, Runs.Times(Advance(t), 0), d);
    AdvanceFirst(s4, t, 1, d);
    AdvanceFirst(s3, t, 2, d);
    AdvanceFirst(s2, t, 3, d);
    AdvanceFirst(s1, t, 4, d);
    assert Step(s, CallTake(t)) == s1;
    Runs.OneFirst(Step<T>, s, CallTake(t), Runs.Times(Advance(t), 4), d);
  }

  /** A take from the empty queue waits, leaving all else as it was; woken for nothing, it does so again. */
  lemma TakeNothing<T(!new)>(s: State<T>, t: nat)
    requires s.mutex == Free && t in s.pcs && s.queue == []
    ensures s.pcs[t].Idle? ==>
              Runs.Leads(Step<T>, s, [Event.CallTake(t)] + Runs.Times(Advance(t), 2), s.(pcs := s.pcs[t := TakeParked]))
    ensures s.pcs[t].TakeParked? ==> Runs.Leads(Step<T>, s, [Event.Spurious(t)] + Runs.Times(Advance(t), 2), s)
  {
    var s1 := At(s, t, TakeLock);
    var s2 := Moved(s1, t);
    var d := s.(pcs := s.pcs[t := TakeParked]);
    assert Moved(s2, t) == d;
    assert Runs.Leads(Step<T>, d, Runs.Times(Advance(t), 0), d);
    AdvanceFirst(s2, t, 1, d);
    AdvanceFirst(s1, t, 2, d);
    if s.pcs[t].Idle? {
      assert Step(s, CallTake(t)) == s1;
      Runs.OneFirst(Step<T>, s, CallTake(t), Runs.Times(Advance(t), 2), d);
    } else if s.pcs[t].TakeParked? {
      assert d == s && Step(s, Spurious(t)) == s1;
      Runs.OneFirst(Step<T>, s, Spurious(t), Runs.Times(Advance(t), 2), d);
    }
  }
}
