/**
  The unbounded queue: put notifies after it has released the mutex, and poll gives up when
  its wait times out.
 */
module BlockingQueue {
  import opened Queues
  import Runs

  /** Where a thread is in put, or in take (or poll, if `timed`). */
  datatype Pc<T> =
    | Idle
    | PutLock(elem: T)
    | PutPush(elem: T)           // holds the mutex
    | PutUnlock                  // holds it, has pushed
    | PutNotify                  // has released it, has not notified yet
    | GetLock(timed: bool)
    | GetTest(timed: bool)       // holds it, at the loop's condition
    | GetParked(timed: bool)     // waits on cond_
    | GetWoken(timed: bool)      // woken from its wait, asks for the mutex
    | GetUnlock(got: T)          // holds it, has popped
    | TimedOut                   // its wait will report a timeout, asks for the mutex
    | GiveUp                     // holds it, about to return false

  datatype State<T> = State(
    queue: seq<T>,
    mutex: Owner,
    pcs: map<nat, Pc<T>>,
    put: seq<(nat, T)>,          // every element pushed, in order, and by which thread
    returned: seq<(nat, T)>,     // every element a get has returned, and to which thread
    tested: map<nat, nat>,       // how many elements had been put when a thread last tested the queue
    gaveUp: seq<GaveUp<T>>)

  /** A poll that returned false: the queue it left, and how much had been put and popped by then. */
  datatype GaveUp<T> = GaveUp(thread: nat, queue: seq<T>, tested: nat, put: nat, popped: nat)

  function Start<T>(threads: set<nat>): State<T> {
    State([], Free, map t | t in threads :: Idle, [], [], map[], [])
  }

  // ---------- steps ----------

  datatype Event<T> =
    | CallPut(thread: nat, elem: T)
    | CallGet(thread: nat, timed: bool)
    | Advance(thread: nat)
    | Spurious(thread: nat)
    | Timeout(thread: nat) // its deadline is past, whether it still waits or has just been woken

  predicate CanAdvance<T>(s: State<T>, t: nat) {
    && t in s.pcs
    && match s.pcs[t]
       case Idle => false
       case GetParked(_) => false
       case PutLock(_) => s.mutex == Free
       case GetLock(_) => s.mutex == Free
       case GetWoken(_) => s.mutex == Free
       case TimedOut => s.mutex == Free
       case _ => true
  }

  predicate Enabled<T>(s: State<T>, e: Event<T>) {
    match e
    case CallPut(t, _) => t in s.pcs && s.pcs[t].Idle?
    case CallGet(t, _) => t in s.pcs && s.pcs[t].Idle?
    case Advance(t) => CanAdvance(s, t)
    case Spurious(t) => t in s.pcs && s.pcs[t].GetParked?
    case Timeout(t) => t in s.pcs && (s.pcs[t].GetParked? || s.pcs[t].GetWoken?) && s.pcs[t].timed
  }

  function NotifyAll<T>(pcs: map<nat, Pc<T>>): map<nat, Pc<T>> {
    map t | t in pcs :: if pcs[t].GetParked? then GetWoken(pcs[t].timed) else pcs[t]
  }

  function At<T>(s: State<T>, t: nat, pc: Pc<T>): State<T> {
    s.(pcs := s.pcs[t := pc])
  }

  function InHand<T>(s: State<T>): seq<T> {
    if s.mutex.HeldBy? && s.mutex.thread in s.pcs && s.pcs[s.mutex.thread].GetUnlock?
    then [s.pcs[s.mutex.thread].got] else []
  }

  /** How many elements have been popped: those put first. */
  function Popped<T>(s: State<T>): nat {
    |s.returned| + |InHand(s)|
  }

  function Moved<T>(s: State<T>, t: nat): State<T>
    requires CanAdvance(s, t)
  {
    match s.pcs[t]
    case PutLock(x) => At(s.(mutex := HeldBy(t)), t, PutPush(x))
    case PutPush(x) => At(s.(queue := s.queue + [x], put := s.put + [(t, x)]), t, PutUnlock)
    case PutUnlock => At(s.(mutex := Free), t, PutNotify)
    case PutNotify => At(s.(pcs := NotifyAll(s.pcs)), t, Idle)
    case GetLock(timed) => At(s.(mutex := HeldBy(t)), t, GetTest(timed))
    case GetWoken(timed) => At(s.(mutex := HeldBy(t)), t, GetTest(timed))
    case GetTest(timed) =>
      var d := s.(tested := s.tested[t := |s.put|]);
      if s.queue == [] then At(d.(mutex := Free), t, GetParked(timed))
      else At(d.(queue := s.queue[1..]), t, GetUnlock(s.queue[0]))
    case GetUnlock(x) => At(s.(mutex := Free, returned := s.returned + [(t, x)]), t, Idle)
    case TimedOut => At(s.(mutex := HeldBy(t)), t, GiveUp)
    case GiveUp =>
      var tested := if t in s.tested then s.tested[t] else 0;
      At(s.(mutex := Free, gaveUp := s.gaveUp + [GaveUp(t, s.queue, tested, |s.put|, Popped(s))]), t, Idle)
  }

  function Step<T>(s: State<T>, e: Event<T>): State<T>
    requires Enabled(s, e)
  {
    match e
    case CallPut(t, x) => At(s, t, PutLock(x))
    case CallGet(t, timed) => At(s, t, GetLock(timed))
    case Advance(t) => Moved(s, t)
    case Spurious(t) => At(s, t, GetWoken(s.pcs[t].timed))
    case Timeout(t) => At(s, t, TimedOut)
  }

  // ---------- the invariant ----------

  predicate Critical<T>(pc: Pc<T>) {
    pc.PutPush? || pc.PutUnlock? || pc.GetTest? || pc.GetUnlock? || pc.GiveUp?
  }

  ghost predicate Exclusive<T>(s: State<T>) {
    && (forall t :: t in s.pcs ==> (Critical(s.pcs[t]) <==> s.mutex == HeldBy(t)))
    && (s.mutex.HeldBy? ==> s.mutex.thread in s.pcs)
  }

  ghost predicate Conserved<T>(s: State<T>) {
    Elements(s.put) == Elements(s.returned) + InHand(s) + s.queue
  }

  ghost predicate SomeoneWaits<T>(s: State<T>) {
    exists t :: t in s.pcs && s.pcs[t].GetParked?
  }

  /** Some put has pushed and has still to notify. */
  ghost predicate NotifyDue<T>(s: State<T>) {
    exists t :: t in s.pcs && (s.pcs[t].PutUnlock? || s.pcs[t].PutNotify?)
  }

  ghost predicate NoLostWakeup<T>(s: State<T>) {
    SomeoneWaits(s) ==> s.queue == [] || NotifyDue(s)
  }

  /** Has waited since its last test of the queue. */
  predicate Waited<T>(pc: Pc<T>) {
    pc.GetParked? || pc.GetWoken? || pc.TimedOut? || pc.GiveUp?
  }

  /** Whoever has waited found everything popped that had been put by its last test. */
  ghost predicate TestsRemembered<T>(s: State<T>) {
    && (forall t :: t in s.pcs && Waited(s.pcs[t]) ==> t in s.tested && s.tested[t] <= Popped(s))
    && (forall i :: 0 <= i < |s.gaveUp| ==> Sound(s.gaveUp[i]))
  }

  predicate Sound<T>(g: GaveUp<T>) {
    g.tested <= g.popped && |g.queue| == g.put - g.popped
  }

  ghost predicate Inv<T>(s: State<T>) {
    Exclusive(s) && Conserved(s) && NoLostWakeup(s) && TestsRemembered(s)
  }

  lemma StartKept<T>(threads: set<nat>)
    ensures Inv(Start<T>(threads))
  {
  }

  lemma AdvanceExclusive<T>(s: State<T>, t: nat)
    requires Exclusive(s) && CanAdvance(s, t)
    ensures Exclusive(Moved(s, t))
  {
  }

  lemma AdvanceConserves<T>(s: State<T>, t: nat)
    requires Exclusive(s) && Conserved(s) && CanAdvance(s, t)
    ensures Conserved(Moved(s, t))
  {
    match s.pcs[t]
    case PutPush(x) => ElementsSnoc(s.put, (t, x));
    case GetTest(_) =>
      if s.queue != [] {
        assert s.queue == [s.queue[0]] + s.queue[1..];
      }
    case GetUnlock(x) => ElementsSnoc(s.returned, (t, x));
    case _ =>
  }

  lemma AdvanceKeepsWakeups<T>(s: State<T>, t: nat)
    requires Exclusive(s) && NoLostWakeup(s) && CanAdvance(s, t)
    ensures NoLostWakeup(Moved(s, t))
  {
    var d := Moved(s, t);
    assert t in d.pcs;
    forall u | u in d.pcs && u != t && !s.pcs[t].PutNotify? ensures d.pcs[u] == s.pcs[u] {
    }
  }

  lemma PoppedFirst<T>(s: State<T>)
    requires Conserved(s)
    ensures Popped(s) <= |s.put| && s.queue == Elements(s.put)[Popped(s)..]
  {
  }

  lemma AdvanceRemembers<T>(s: State<T>, t: nat)
    requires Exclusive(s) && Conserved(s) && TestsRemembered(s) && CanAdvance(s, t)
    ensures TestsRemembered(Moved(s, t))
  {
    PoppedFirst(s);
    var d := Moved(s, t);
    assert Popped(s) <= Popped(d);
    forall u | u in d.pcs && Waited(d.pcs[u]) ensures u in d.tested && d.tested[u] <= Popped(d) {
      if u != t {
        assert Waited(s.pcs[u]);
      }
    }
  }

  lemma InvParts<T>(s: State<T>)
    ensures Inv(s) <==> Exclusive(s) && Conserved(s) && NoLostWakeup(s) && TestsRemembered(s)
  {
  }

  lemma AdvanceKeeps<T>(s: State<T>, t: nat)
    requires Inv(s) && CanAdvance(s, t)
    ensures Inv(Moved(s, t))
  {
    hide *;
    InvParts(s);
    AdvanceExclusive(s, t);
    AdvanceConserves(s, t);
    AdvanceKeepsWakeups(s, t);
    AdvanceRemembers(s, t);
    InvParts(Moved(s, t));
  }

  /** A thread that neither holds the mutex nor is putting goes where it does not hold it either. */
  lemma OffMutexKeeps<T>(s: State<T>, t: nat, pc: Pc<T>)
    requires Inv(s) && t in s.pcs && !Critical(s.pcs[t]) && !Critical(pc) && !pc.GetParked?
    requires !s.pcs[t].PutUnlock? && !s.pcs[t].PutNotify? && (Waited(pc) ==> Waited(s.pcs[t]))
    ensures Inv(At(s, t, pc))
  {
    NotPutting(s, t, At(s, t, pc));
    hide NotifyDue, Elements, Gone;
  }

  lemma StepKeeps<T>(s: State<T>, e: Event<T>)
    requires Inv(s) && Enabled(s, e)
    ensures Inv(Step(s, e))
  {
    hide Inv, Moved, CanAdvance, At;
    match e
    case Advance(t) => AdvanceKeeps(s, t);
    case CallPut(t, x) => OffMutexKeeps(s, t, PutLock(x));
    case CallGet(t, timed) => OffMutexKeeps(s, t, GetLock(timed));
    case Spurious(t) => OffMutexKeeps(s, t, GetWoken(s.pcs[t].timed));
    case Timeout(t) => OffMutexKeeps(s, t, TimedOut);
  }

  /** A step of a thread that has no notification to give leaves those of the others due. */
  lemma NotPutting<T>(s: State<T>, t: nat, d: State<T>)
    requires t in s.pcs && !s.pcs[t].PutUnlock? && !s.pcs[t].PutNotify?
    requires d.pcs.Keys == s.pcs.Keys && forall u :: u in s.pcs && u != t ==> d.pcs[u] == s.pcs[u]
    ensures NotifyDue(s) ==> NotifyDue(d)
  {
    if NotifyDue(s) {
      var u :| u in s.pcs && (s.pcs[u].PutUnlock? || s.pcs[u].PutNotify?);
      assert d.pcs[u] == s.pcs[u];
    }
  }

  // ---------- what holds of every run ----------

  ghost predicate Reachable<T(!new)>(s: State<T>, threads: set<nat>) {
    exists es :: Runs.Leads(Step<T>, Start<T>(threads), es, s)
  }

  lemma ReachableInv<T(!new)>(s: State<T>, threads: set<nat>)
    requires Reachable(s, threads)
    ensures Inv(s)
  {
    hide Inv;
    var es :| Runs.Leads(Step<T>, Start<T>(threads), es, s);
    StartKept<T>(threads);
    forall d: State<T>, e: Event<T> | Inv(d) && Step<T>.requires(d, e) ensures Inv(Step<T>(d, e)) {
      StepKeeps(d, e);
    }
    Runs.Kept(Step<T>, Inv<T>, Start<T>(threads), es, s);
  }

  lemma ReachableStep<T(!new)>(s: State<T>, threads: set<nat>, e: Event<T>, d: State<T>)
    requires Reachable(s, threads) && Enabled(s, e) && Step(s, e) == d
    ensures Reachable(d, threads)
  {
    hide Enabled;
    var es :| Runs.Leads(Step<T>, Start<T>(threads), es, s);
    Runs.OneMore(Step<T>, Start<T>(threads), es, s, e);
  }

  lemma ReachableStart<T(!new)>(threads: set<nat>)
    ensures Reachable(Start<T>(threads), threads)
  {
    assert Runs.Leads(Step<T>, Start<T>(threads), [], Start<T>(threads));
  }

  // ---------- what the calls of a run come to ----------

  /** The elements thread `t` has called put with, in order. */
  function PutsOf<T(==)>(es: seq<Event<T>>, t: nat): seq<T> {
    if es == [] then [] else PutsOf(es[..|es| - 1], t) + ElementPut(es[|es| - 1], t)
  }

  function ElementPut<T>(e: Event<T>, t: nat): seq<T> {
    if e.CallPut? && e.thread == t then [e.elem] else []
  }

  /** Whether each call of thread `t` to take or poll was a poll, in order. */
  function GetsOf<T(==)>(es: seq<Event<T>>, t: nat): seq<bool> {
    if es == [] then [] else GetsOf(es[..|es| - 1], t) + Call(es[|es| - 1], t)
  }

  function Call<T>(e: Event<T>, t: nat): seq<bool> {
    if e.CallGet? && e.thread == t then [e.timed] else []
  }

  function Polls(gets: seq<bool>): nat {
    multiset(gets)[true]
  }

  function GaveUpBy<T>(gs: seq<GaveUp<T>>, t: nat): nat {
    if gs == [] then 0 else GaveUpBy(gs[..|gs| - 1], t) + if gs[|gs| - 1].thread == t then 1 else 0
  }

  /** The element a thread in put has yet to push. */
  function Unpushed<T>(s: State<T>, t: nat): seq<T> {
    if t !in s.pcs then []
    else
      match s.pcs[t]
      case PutLock(x) => [x]
      case PutPush(x) => [x]
      case _ => []
  }

  predicate InGet<T>(pc: Pc<T>) {
    pc.GetLock? || pc.GetTest? || pc.GetParked? || pc.GetWoken? || pc.GetUnlock? || pc.TimedOut? || pc.GiveUp?
  }

  predicate GivesUp<T>(pc: Pc<T>) {
    pc.TimedOut? || pc.GiveUp?
  }

  /** A call of take or poll that has not returned. */
  function Unfinished<T>(s: State<T>, t: nat): nat {
    if t in s.pcs && InGet(s.pcs[t]) then 1 else 0
  }

  /** Where a thread that looks for an element or gives up is in a call of the kind it made last. */
  predicate KnowsItsCall<T>(pc: Pc<T>, gets: seq<bool>) {
    && (InGet(pc) ==> gets != [])
    && (pc.GetLock? || pc.GetTest? || pc.GetParked? || pc.GetWoken? ==> pc.timed == gets[|gets| - 1])
    && (GivesUp(pc) ==> gets[|gets| - 1])
  }

  /** Thread `t` is in a poll. */
  predicate InPoll<T>(s: State<T>, t: nat, gets: seq<bool>) {
    t in s.pcs && InGet(s.pcs[t]) && gets != [] && gets[|gets| - 1]
  }

  /** What the calls of thread `t` have come to. */
  ghost predicate Accounted<T>(s: State<T>, t: nat, puts: seq<T>, gets: seq<bool>) {
    && puts == By(s.put, t) + Unpushed(s, t)
    && |gets| == |By(s.returned, t)| + GaveUpBy(s.gaveUp, t) + Unfinished(s, t)
    && GaveUpBy(s.gaveUp, t) + (if InPoll(s, t, gets) then 1 else 0) <= Polls(gets)
    && (t in s.pcs ==> KnowsItsCall(s.pcs[t], gets))
  }

  lemma CallsSnoc(gets: seq<bool>, timed: bool)
    ensures Polls(gets + [timed]) == Polls(gets) + if timed then 1 else 0
  {
  }

  lemma GaveUpSnoc<T>(gs: seq<GaveUp<T>>, g: GaveUp<T>, t: nat)
    ensures GaveUpBy(gs + [g], t) == GaveUpBy(gs, t) + if g.thread == t then 1 else 0
  {
    assert (gs + [g])[..|gs|] == gs;
  }

  lemma AdvancePuts<T>(s: State<T>, u: nat, t: nat)
    requires CanAdvance(s, u)
    ensures By(Moved(s, u).put, t) + Unpushed(Moved(s, u), t) == By(s.put, t) + Unpushed(s, t)
  {
    hide By;
    if s.pcs[u].PutPush? {
      BySnoc(s.put, (u, s.pcs[u].elem), t);
    }
  }

  lemma AdvanceGets<T>(s: State<T>, u: nat, t: nat)
    requires CanAdvance(s, u)
    ensures var d := Moved(s, u);
            && |By(d.returned, t)| + GaveUpBy(d.gaveUp, t) + Unfinished(d, t)
               == |By(s.returned, t)| + GaveUpBy(s.gaveUp, t) + Unfinished(s, t)
            && GaveUpBy(d.gaveUp, t)
               == GaveUpBy(s.gaveUp, t) + if u == t && s.pcs[u].GiveUp? then 1 else 0
  {
    hide By, GaveUpBy;
    match s.pcs[u]
    case GetUnlock(x) => BySnoc(s.returned, (u, x), t);
    case GiveUp => GaveUpSnoc(s.gaveUp, Moved(s, u).gaveUp[|s.gaveUp|], t);
    case _ =>
  }

  lemma AdvanceKind<T>(s: State<T>, u: nat, t: nat, gets: seq<bool>)
    requires CanAdvance(s, u) && t in s.pcs && KnowsItsCall(s.pcs[t], gets)
    ensures var d := Moved(s, u);
            && t in d.pcs && KnowsItsCall(d.pcs[t], gets)
            && (InPoll(d, t, gets) ==> InPoll(s, t, gets) && !(u == t && s.pcs[t].GiveUp?))
            && (u == t && s.pcs[t].GiveUp? ==> InPoll(s, t, gets))
  {
  }

  lemma MovedKeys<T>(s: State<T>, u: nat)
    requires CanAdvance(s, u)
    ensures u in s.pcs && Moved(s, u).pcs.Keys == s.pcs.Keys
  {
  }

  lemma AdvanceAccounts<T>(s: State<T>, u: nat, t: nat, puts: seq<T>, gets: seq<bool>)
    requires Accounted(s, t, puts, gets) && CanAdvance(s, u)
    ensures Accounted(Moved(s, u), t, puts, gets)
  {
    hide By, GaveUpBy, Polls, Moved, CanAdvance, Unpushed, Unfinished, KnowsItsCall;
    MovedKeys(s, u);
    AdvancePuts(s, u, t);
    AdvanceGets(s, u, t);
    if t in s.pcs {
      AdvanceKind(s, u, t, gets);
    }
  }

  lemma StepAccounts<T>(s: State<T>, e: Event<T>, t: nat, puts: seq<T>, gets: seq<bool>)
    requires Accounted(s, t, puts, gets) && Enabled(s, e)
    ensures Accounted(Step(s, e), t, puts + ElementPut(e, t), gets + Call(e, t))
  {
    hide By, GaveUpBy, Polls, Moved, CanAdvance;
    assert puts + [] == puts && gets + [] == gets;
    match e
    case Advance(u) => AdvanceAccounts(s, u, t, puts, gets);
    case CallGet(u, timed) => CallsSnoc(gets, timed);
    case CallPut(u, x) => EmptyMiddle(By(s.put, t), Unpushed(s, t), x);
    case _ =>
  }

  lemma EmptyMiddle<T>(a: seq<T>, b: seq<T>, x: T)
    ensures b == [] ==> (a + b) + [x] == a + [x]
  {
  }

  /**
    Over every run: each thread has pushed just the elements it called put with, in the order of
    its calls, but for the one it is about to push; each of its calls of take or poll has
    returned an element or given up, but for the one it is in; and only polls give up.
   */
  lemma {:induction false} CallsAccounted<T(!new)>(es: seq<Event<T>>, s: State<T>, threads: set<nat>, t: nat)
    requires Runs.Leads(Step<T>, Start<T>(threads), es, s)
    ensures Accounted(s, t, PutsOf(es, t), GetsOf(es, t))
    decreases |es|
  {
    if es != [] {
      var m := Runs.LastStep(Step<T>, Start<T>(threads), es, s);
      CallsAccounted(es[..|es| - 1], m, threads, t);
      hide Step, Enabled, Accounted;
      StepAccounts(m, es[|es| - 1], t, PutsOf(es[..|es| - 1], t), GetsOf(es[..|es| - 1], t));
    }
  }

  /** A wait times out only in a poll, and it is polls that return false. */
  lemma OnlyPollsTimeOut<T(!new)>(es: seq<Event<T>>, s: State<T>, threads: set<nat>, t: nat)
    requires Runs.Leads(Step<T>, Start<T>(threads), es, s) && t in s.pcs
    requires Enabled(s, Timeout(t)) || GivesUp(s.pcs[t])
    ensures GetsOf(es, t) != [] && GetsOf(es, t)[|GetsOf(es, t)| - 1]
  {
    hide *;
    if Enabled(s, Timeout(t)) {
      MayTimeOut(s, t);
    }
    CallsAccounted(es, s, threads, t);
    ItsCall(s, t, PutsOf(es, t), GetsOf(es, t));
  }

  lemma MayTimeOut<T>(s: State<T>, t: nat)
    requires Enabled(s, Timeout(t))
    ensures t in s.pcs && (s.pcs[t].GetParked? || s.pcs[t].GetWoken?) && s.pcs[t].timed
  {
  }

  lemma ItsCall<T>(s: State<T>, t: nat, puts: seq<T>, gets: seq<bool>)
    requires Accounted(s, t, puts, gets) && t in s.pcs
    requires ((s.pcs[t].GetParked? || s.pcs[t].GetWoken?) && s.pcs[t].timed) || GivesUp(s.pcs[t])
    ensures gets != [] && gets[|gets| - 1]
  {
    hide By, GaveUpBy, Polls, Unpushed;
  }

  /** A thread that only calls take never gives up: every call that has returned has an element. */
  lemma TakesReturnElements<T(!new)>(es: seq<Event<T>>, s: State<T>, threads: set<nat>, t: nat)
    requires Runs.Leads(Step<T>, Start<T>(threads), es, s) && true !in GetsOf(es, t)
    ensures forall i :: 0 <= i < |s.gaveUp| ==> s.gaveUp[i].thread != t
    ensures t in s.pcs ==> !GivesUp(s.pcs[t])
    ensures |GetsOf(es, t)| == |By(s.returned, t)| + Unfinished(s, t)
  {
    CallsAccounted(es, s, threads, t);
    NoGiveUps(s.gaveUp, t);
  }

  lemma {:induction false} NoGiveUps<T>(gs: seq<GaveUp<T>>, t: nat)
    requires GaveUpBy(gs, t) == 0
    ensures forall i :: 0 <= i < |gs| ==> gs[i].thread != t
    decreases |gs|
  {
    if gs != [] {
      NoGiveUps(gs[..|gs| - 1], t);
      assert forall i :: 0 <= i < |gs| - 1 ==> gs[..|gs| - 1][i] == gs[i];
    }
  }

  // ---------- what a poll saw of the queue ----------

  /**
    Step `k` of the run, from `m`, was the last look of thread `t` at the queue: when it has
    waited since, the queue was empty then.
   */
  ghost predicate LastLook<T(!new)>(es: seq<Event<T>>, s: State<T>, threads: set<nat>, t: nat, k: nat, m: State<T>) {
    && k < |es| && Runs.Leads(Step<T>, Start<T>(threads), es[..k], m)
    && es[k] == Advance(t) && t in m.pcs && m.pcs[t].GetTest?
    && (t in s.pcs && Waited(s.pcs[t]) ==> m.queue == [])
    && forall j, d :: k < j < |es| && es[j] == Event<T>.Advance(t)
                      && Runs.Leads(Step<T>, Start<T>(threads), es[..j], d) ==>
         t in d.pcs && !d.pcs[t].GetTest?
  }

  /** The step in which thread `t` tests the queue. */
  predicate Looks<T>(s: State<T>, e: Event<T>, t: nat) {
    e.Advance? && e.thread == t && t in s.pcs && s.pcs[t].GetTest?
  }

  /** What changes neither a thread's account of its last look nor whether it has waited since. */
  lemma NoLook<T>(m: State<T>, e: Event<T>, t: nat)
    requires Enabled(m, e) && !Looks(m, e, t)
    ensures var d := Step(m, e);
            && (t in d.tested ==> t in m.tested && d.tested[t] == m.tested[t])
            && (t in d.pcs && Waited(d.pcs[t]) ==> t in m.pcs && Waited(m.pcs[t]))
  {
  }

  lemma LookStays<T(!new)>(es: seq<Event<T>>, s: State<T>, threads: set<nat>, t: nat, k: nat, m: State<T>,
      e: Event<T>, d: State<T>)
    requires LastLook(es, s, threads, t, k, m) && Runs.Leads(Step<T>, Start<T>(threads), es, s)
    requires Enabled(s, e) && Step(s, e) == d && !Looks(s, e, t)
    ensures LastLook(es + [e], d, threads, t, k, m)
  {
    NoLook(s, e, t);
    hide Step, Enabled;
    var more := es + [e];
    assert more[..k] == es[..k];
    forall j, c | k < j < |more| && more[j] == Event<T>.Advance(t)
                  && Runs.Leads(Step<T>, Start<T>(threads), more[..j], c)
      ensures t in c.pcs && !c.pcs[t].GetTest?
    {
      assert more[..j] == es[..j];
      if j == |es| {
        assert es[..j] == es;
        Runs.SameEnd(Step<T>, Start<T>(threads), es, s, c);
      }
    }
  }

  /** `tested` is how much had been put when the thread last looked. */
  lemma {:induction false} TestedAtLook<T(!new)>(es: seq<Event<T>>, s: State<T>, threads: set<nat>, t: nat)
    returns (k: nat, m: State<T>)
    requires Runs.Leads(Step<T>, Start<T>(threads), es, s) && t in s.tested
    ensures LastLook(es, s, threads, t, k, m) && |m.put| == s.tested[t]
    decreases |es|
  {
    var n := |es| - 1;
    var c := Runs.LastStep(Step<T>, Start<T>(threads), es, s);
    assert es == es[..n] + [es[n]];
    if Looks(c, es[n], t) {
      k, m := n, c;
    } else {
      NoLook(c, es[n], t);
      k, m := TestedAtLook(es[..n], c, threads, t);
      LookStays(es[..n], c, threads, t, k, m, es[n], s);
    }
  }

  /** What the record of a poll that returned false says is how things stood when it did. */
  ghost predicate Recorded<T(!new)>(es: seq<Event<T>>, threads: set<nat>, g: GaveUp<T>, k: nat, m: State<T>) {
    && k < |es| && Runs.Leads(Step<T>, Start<T>(threads), es[..k], m)
    && es[k] == Advance(g.thread) && g.thread in m.pcs && m.pcs[g.thread].GiveUp?
    && g.queue == m.queue && g.put == |m.put| && g.popped == Popped(m)
    && g.thread in m.tested && g.tested == m.tested[g.thread]
  }

  lemma StepRecords<T>(m: State<T>, e: Event<T>, i: nat)
    requires Inv(m) && Enabled(m, e) && i < |Step(m, e).gaveUp|
    ensures if i < |m.gaveUp| then Step(m, e).gaveUp[i] == m.gaveUp[i]
            else
              var g := Step(m, e).gaveUp[i];
              && e == Advance(g.thread) && g.thread in m.pcs && m.pcs[g.thread].GiveUp?
              && g.queue == m.queue && g.put == |m.put| && g.popped == Popped(m)
              && g.thread in m.tested && g.tested == m.tested[g.thread]
  {
    hide Conserved, NoLostWakeup, Exclusive, Sound;
  }

  lemma {:induction false} GaveUpRecorded<T(!new)>(es: seq<Event<T>>, s: State<T>, threads: set<nat>, i: nat)
    returns (k: nat, m: State<T>)
    requires Runs.Leads(Step<T>, Start<T>(threads), es, s) && i < |s.gaveUp|
    ensures Recorded(es, threads, s.gaveUp[i], k, m)
    decreases |es|
  {
    var n := |es| - 1;
    var c := Runs.LastStep(Step<T>, Start<T>(threads), es, s);
    assert Reachable(c, threads);
    ReachableInv(c, threads);
    StepRecords(c, es[n], i);
    if i < |c.gaveUp| {
      hide Step, Enabled, Inv, Reachable;
      k, m := GaveUpRecorded(es[..n], c, threads, i);
      assert es[..n][..k] == es[..k];
    } else {
      k, m := n, c;
    }
  }

  /** First in, first out, exactly once, whenever polls time out. */
  lemma PutsAreTaken<T(!new)>(s: State<T>, threads: set<nat>)
    requires Reachable(s, threads)
    ensures Elements(s.put) == Elements(s.returned) + InHand(s) + s.queue
  {
    ReachableInv(s, threads);
  }

  /** A consumer that waits beside a queue with elements is about to be notified. */
  lemma WaitersWillBeWoken<T(!new)>(s: State<T>, threads: set<nat>)
    requires Reachable(s, threads) && SomeoneWaits(s) && s.queue != []
    ensures exists t :: t in s.pcs && (s.pcs[t].PutUnlock? || s.pcs[t].PutNotify?) && CanAdvance(s, t)
  {
    ReachableInv(s, threads);
    var t :| t in s.pcs && (s.pcs[t].PutUnlock? || s.pcs[t].PutNotify?);
    assert CanAdvance(s, t);
  }

  /** Where nothing moves, whoever is in the middle of a call waits for an element to be put. */
  lemma StuckOnlyByQueue<T(!new)>(s: State<T>, threads: set<nat>, t: nat)
    requires Reachable(s, threads) && (forall u :: !CanAdvance(s, u)) && t in s.pcs && !s.pcs[t].Idle?
    ensures s.pcs[t].GetParked? && s.queue == [] && s.mutex == Free
  {
    ReachableInv(s, threads);
    if s.mutex.HeldBy? {
      assert CanAdvance(s, s.mutex.thread);
    }
    assert !CanAdvance(s, t);
    if s.queue != [] {
      WaitersWillBeWoken(s, threads);
    }
  }

  /** Elements leave in the order they were put: the one put as number `i` is among the `popped`. */
  predicate Gone(i: nat, popped: nat) {
    i < popped
  }

  /**
    When a poll is about to return false: the queue is empty if and only if all that was put
    since the poll last tested it has been popped; so it is if nothing was put since.
   */
  lemma FalseMeansEmptyIff<T(!new)>(s: State<T>, threads: set<nat>, t: nat)
    requires Reachable(s, threads) && t in s.pcs && (s.pcs[t].TimedOut? || s.pcs[t].GiveUp?)
    ensures t in s.tested
    ensures s.queue == [] <==> forall i: nat :: s.tested[t] <= i < |s.put| ==> Gone(i, Popped(s))
    ensures |s.put| == s.tested[t] ==> s.queue == []
  {
    ReachableInv(s, threads);
    PoppedFirst(s);
    if s.queue != [] {
      assert s.tested[t] <= Popped(s) < |s.put| && !Gone(Popped(s), Popped(s));
    }
  }

  /** The same of every poll that has returned false, as things stood when it did. */
  lemma GaveUpOnEmptyIff<T(!new)>(s: State<T>, threads: set<nat>, k: nat)
    requires Reachable(s, threads) && k < |s.gaveUp|
    ensures var g := s.gaveUp[k];
            && (g.queue == [] <==> forall i: nat :: g.tested <= i < g.put ==> Gone(i, g.popped))
            && (g.put == g.tested ==> g.queue == [])
  {
    ReachableInv(s, threads);
    var g := s.gaveUp[k];
    assert Sound(g);
    if g.queue != [] {
      assert g.tested <= g.popped < g.put && !Gone(g.popped, g.popped);
    }
  }

  // ---------- calls that nothing interrupts ----------

  lemma AdvanceFirst<T>(s: State<T>, t: nat, n: nat, d: State<T>)
    requires n > 0 && CanAdvance(s, t) && Runs.Leads(Step<T>, Moved(s, t), Runs.Times(Advance(t), n - 1), d)
    ensures Runs.Leads(Step<T>, s, Runs.Times(Advance(t), n), d)
  {
    assert Step(s, Advance(t)) == Moved(s, t);
    Runs.OnceMore(Step<T>, s, Advance(t), n, d);
  }

  /** A put appends its element, wakes all that wait and returns. */
  lemma PutAppends<T(!new)>(s: State<T>, t: nat, x: T) returns (d: State<T>)
    requires s.mutex == Free && t in s.pcs && s.pcs[t].Idle?
    ensures Runs.Leads(Step<T>, s, [CallPut(t, x)] + Runs.Times(Advance(t), 4), d)
    ensures d == s.(queue := s.queue + [x], put := s.put + [(t, x)], pcs := d.pcs)
    ensures d.pcs.Keys == s.pcs.Keys && d.pcs[t] == Idle
    ensures forall u :: u in s.pcs && u != t ==>
              d.pcs[u] == if s.pcs[u].GetParked? then GetWoken(s.pcs[u].timed) else s.pcs[u]
  {
    var s1 := At(s, t, PutLock(x));
    var s2 := Moved(s1, t);
    var s3 := Moved(s2, t);
    var s4 := Moved(s3, t);
    d := Moved(s4, t);
    assert Runs.Leads(Step<T>, d, Runs.Times(Advance(t), 0), d);
    AdvanceFirst(s4, t, 1, d);
    AdvanceFirst(s3, t, 2, d);
    AdvanceFirst(s2, t, 3, d);
    AdvanceFirst(s1, t, 4, d);
    assert Step(s, CallPut(t, x)) == s1;
    Runs.OneFirst(Step<T>, s, CallPut(t, x), Runs.Times(Advance(t), 4), d);
  }

  /** The state after thread `t` has looked at the queue. */
  function Looked<T>(s: State<T>, t: nat): State<T> {
    s.(tested := s.tested[t := |s.put|])
  }

  /** The state after thread `t` has taken the first element. */
  function Taken<T>(s: State<T>, t: nat): State<T>
    requires s.queue != []
  {
    At(Looked(s, t).(queue := s.queue[1..], returned := s.returned + [(t, s.queue[0])]), t, Idle)
  }

  /** A take or poll of an element returns the first one and leaves the rest. */
  lemma GetTakes<T(!new)>(s: State<T>, t: nat, timed: bool)
    requires s.mutex == Free && t in s.pcs && s.pcs[t].Idle? && s.queue != []
    ensures Runs.Leads(Step<T>, s, [CallGet(t, timed)] + Runs.Times(Advance(t), 3), Taken(s, t))
    ensures Taken(s, t).pcs == s.pcs
  {
    var s1 := At(s, t, GetLock(timed));
    LooksAndTakes(s1, t, timed);
    assert Step(s, CallGet(t, timed)) == s1 && Taken(s, t) == Taken(s1, t);
    hide Step, Enabled, Taken;
    Runs.OneFirst(Step<T>, s, CallGet(t, timed), Runs.Times(Advance(t), 3), Taken(s, t));
  }

  lemma LooksAndTakes<T(!new)>(s: State<T>, t: nat, timed: bool)
    requires s.mutex == Free && t in s.pcs && s.pcs[t] == GetLock(timed) && s.queue != []
    ensures Runs.Leads(Step<T>, s, Runs.Times(Advance(t), 3), Taken(s, t))
  {
    var s2 := Moved(s, t);
    var s3 := Moved(s2, t);
    var d := Taken(s, t);
    assert Moved(s3, t) == d;
    assert Runs.Leads(Step<T>, d, Runs.Times(Advance(t), 0), d);
    AdvanceFirst(s3, t, 1, d);
    AdvanceFirst(s2, t, 2, d);
    AdvanceFirst(s, t, 3, d);
  }

  /** A take or poll of the empty queue waits. */
  lemma GetWaits<T(!new)>(s: State<T>, t: nat, timed: bool)
    requires s.mutex == Free && t in s.pcs && s.queue == [] && s.pcs[t].Idle?
    ensures Runs.Leads(Step<T>, s, [CallGet(t, timed)] + Runs.Times(Advance(t), 2),
              At(Looked(s, t), t, GetParked(timed)))
  {
    var s1, d := At(s, t, GetLock(timed)), At(Looked(s, t), t, GetParked(timed));
    LooksAndWaits(s1, t, timed, d);
    assert Step(s, CallGet(t, timed)) == s1;
    Runs.OneFirst(Step<T>, s, CallGet(t, timed), Runs.Times(Advance(t), 2), d);
  }

  /** Woken for nothing, it looks and waits again. */
  lemma WaitsAgain<T(!new)>(s: State<T>, t: nat)
    requires s.mutex == Free && t in s.pcs && s.queue == [] && s.pcs[t].GetParked?
    ensures Runs.Leads(Step<T>, s, [Event.Spurious(t)] + Runs.Times(Advance(t), 2), Looked(s, t))
  {
    var timed := s.pcs[t].timed;
    var s1, d := At(s, t, GetWoken(timed)), At(Looked(s, t), t, GetParked(timed));
    LooksAndWaits(s1, t, timed, d);
    assert d.pcs == s.pcs && Step(s, Spurious(t)) == s1;
    Runs.OneFirst(Step<T>, s, Spurious(t), Runs.Times(Advance(t), 2), d);
  }

  lemma LooksAndWaits<T(!new)>(s: State<T>, t: nat, timed: bool, d: State<T>)
    requires s.mutex == Free && t in s.pcs && s.queue == []
    requires s.pcs[t] == GetLock(timed) || s.pcs[t] == GetWoken(timed)
    requires d == At(Looked(s, t), t, GetParked(timed))
    ensures Runs.Leads(Step<T>, s, Runs.Times(Advance(t), 2), d)
  {
    var s2 := Moved(s, t);
    assert Moved(s2, t) == d;
    assert Runs.Leads(Step<T>, d, Runs.Times(Advance(t), 0), d);
    AdvanceFirst(s2, t, 1, d);
    AdvanceFirst(s, t, 2, d);
  }

  /** A poll whose wait has timed out returns false, whatever is in the queue, and takes nothing. */
  lemma PollReturnsFalse<T(!new)>(s: State<T>, t: nat)
    requires s.mutex == Free && t in s.pcs && t in s.tested && s.pcs[t].TimedOut?
    ensures Runs.Leads(Step<T>, s, Runs.Times(Advance(t), 2), ReturnedFalse(s, t))
  {
    var s2 := Moved(s, t);
    var d := ReturnedFalse(s, t);
    assert Moved(s2, t) == d;
    assert Runs.Leads(Step<T>, d, Runs.Times(Advance(t), 0), d);
    AdvanceFirst(s2, t, 1, d);
    AdvanceFirst(s, t, 2, d);
  }

  function ReturnedFalse<T>(s: State<T>, t: nat): State<T>
    requires t in s.tested
  {
    At(s.(gaveUp := s.gaveUp + [GaveUp(t, s.queue, s.tested[t], |s.put|, |s.returned|)]), t, Idle)
  }

  // ---------- polls that miss an element ----------

  lemma ReachableRun<T(!new)>(s: State<T>, threads: set<nat>, es: seq<Event<T>>, d: State<T>)
    requires Reachable(s, threads) && Runs.Leads(Step<T>, s, es, d)
    ensures Reachable(d, threads)
  {
    var before :| Runs.Leads(Step<T>, Start<T>(threads), before, s);
    Runs.Joined(Step<T>, Start<T>(threads), before, s, es, d);
  }

  /** Thread 0 polls the empty queue and waits. */
  lemma PollWaits<T(!new)>() returns (s: State<T>)
    ensures Reachable(s, {0, 1}) && s == State([], Free, s.pcs, [], [], map[0 := 0], [])
    ensures s.pcs == map[0 := GetParked(true), 1 := Idle]
  {
    var s0: State<T> := Start({0, 1});
    ReachableStart<T>({0, 1});
    GetWaits(s0, 0, true);
    s := At(Looked(s0, 0), 0, GetParked(true));
    ReachableRun(s0, {0, 1}, [CallGet(0, true)] + Runs.Times(Advance(0), 2), s);
  }

  /** Thread 1 has put `x`, and thread 0's wait has timed out: it returns false. */
  lemma Missed<T(!new)>(s: State<T>, x: T)
    requires Reachable(s, {0, 1}) && s == State([x], Free, s.pcs, [(1, x)], [], map[0 := 0], [])
    requires s.pcs == map[0 := TimedOut, 1 := Idle]
    ensures exists d :: Reachable(d, {0, 1}) && d.gaveUp == [GaveUp(0, [x], 0, 1, 0)] && d.queue == [x]
  {
    hide Reachable;
    PollReturnsFalse(s, 0);
    ReachableRun(s, {0, 1}, Runs.Times(Advance(0), 2), ReturnedFalse(s, 0));
  }

  /** The wait times out, an element is put, and poll returns false without looking again. */
  lemma PollMayMissAnElement<T(!new)>(x: T)
    ensures exists s: State<T> :: Reachable(s, {0, 1}) && s.gaveUp == [GaveUp(0, [x], 0, 1, 0)] && s.queue == [x]
  {
    hide Reachable;
    var s := PollWaits<T>();
    var late := At(s, 0, TimedOut);
    ReachableStep(s, {0, 1}, Timeout(0), late);
    var d := PutAppends(late, 1, x);
    ReachableRun(late, {0, 1}, [CallPut(1, x)] + Runs.Times(Advance(1), 4), d);
    Missed(d, x);
  }

  /** Whether it still waits or has just been woken, a poll may find its deadline past. */
  lemma TimesOut<T(!new)>(s: State<T>, t: nat) returns (d: State<T>)
    requires s.mutex == Free && t in s.pcs && t in s.tested
    requires s.pcs[t] == GetParked(true) || s.pcs[t] == GetWoken(true)
    ensures Runs.Leads(Step<T>, s, [Event.Timeout(t)] + Runs.Times(Advance(t), 2), d)
    ensures d == ReturnedFalse(s, t)
  {
    var late := At(s, t, TimedOut);
    PollReturnsFalse(late, t);
    d := ReturnedFalse(late, t);
    assert Step(s, Timeout(t)) == late;
    Runs.OneFirst(Step<T>, s, Timeout(t), Runs.Times(Advance(t), 2), d);
  }

  /** An element is put and the poll notified of it, but its deadline is past: it returns false. */
  lemma NotifiedPollMayMissIt<T(!new)>(x: T)
    ensures exists s, d: State<T> ::
              && Reachable(s, {0, 1}) && s.pcs == map[0 := GetWoken(true), 1 := Idle] && s.queue == [x]
              && Runs.Leads(Step<T>, s, [Event.Timeout(0)] + Runs.Times(Advance(0), 2), d)
              && d.gaveUp == [GaveUp(0, [x], 0, 1, 0)] && d.queue == [x]
  {
    hide Reachable;
    var s := PollWaits<T>();
    var woken := PutAppends(s, 1, x);
    ReachableRun(s, {0, 1}, [CallPut(1, x)] + Runs.Times(Advance(1), 4), woken);
    assert woken.pcs == map[0 := GetWoken(true), 1 := Idle];
    var d := TimesOut(woken, 0);
  }
}
