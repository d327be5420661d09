/**
  The idle wheel of one loop thread: a queue of buckets of entries, turned once per tick.
  An entry dies when it is in no bucket any more, and its death fires the idle callback if
  the connection it watches is still there.
 */
module IdleWheel {
  import Runs

  /** Entries go by the id of their connection; each connection has at most one. */
  datatype Wheel = Wheel(
    timeout: int,
    buckets: seq<set<nat>>,
    tick: nat,
    touched: map<nat, nat>, // for each entry ever made, the ticks passed when it was last put in
    gone: map<nat, nat>,    // for each connection destroyed, the ticks passed by then
    fired: seq<set<nat>>)   // for each tick, the connections whose idle callback it fired

  function Empty(n: nat): seq<set<nat>> {
    seq(n, _ => {})
  }

  /** What start and threadInit set up. */
  function Start(timeout: int): Wheel {
    Wheel(timeout, Empty(if timeout > 0 then timeout else 0), 0, map[], map[], [])
  }

  /** Some bucket still holds the entry: a weak pointer to it can be locked. */
  predicate Alive(buckets: seq<set<nat>>, id: nat) {
    exists j :: 0 <= j < |buckets| && id in buckets[j]
  }

  function PutBack(buckets: seq<set<nat>>, id: nat): seq<set<nat>>
    requires buckets != []
  {
    buckets[|buckets| - 1 := buckets[|buckets| - 1] + {id}]
  }

  datatype Event =
    | Accept(id: nat)
    | Read(id: nat)
    | Tick
    | Gone(id: nat)

  predicate Enabled(w: Wheel, e: Event) {
    match e
    case Accept(id) => id !in w.touched && id !in w.gone
    case Tick => w.timeout > 0
    case Read(_) => true
    case Gone(id) => id !in w.gone
  }

  function Touch(w: Wheel, id: nat): Wheel {
    if w.buckets == [] then w
    else w.(buckets := PutBack(w.buckets, id), touched := w.touched[id := w.tick])
  }

  /** The entries that only the front bucket holds. */
  function Expiring(buckets: seq<set<nat>>): set<nat> {
    if buckets == [] then {} else set id | id in buckets[0] && !Alive(buckets[1..], id)
  }

  /** The connections whose idle callback the next tick fires. */
  function Fired(w: Wheel): set<nat> {
    set id | id in Expiring(w.buckets) && id !in w.gone
  }

  function Step(w: Wheel, e: Event): Wheel
    requires Enabled(w, e)
  {
    match e
    case Accept(id) => Touch(w, id)
    case Read(id) => if Alive(w.buckets, id) then Touch(w, id) else w
    case Gone(id) => w.(gone := w.gone[id := w.tick])
    case Tick =>
      if w.buckets == [] then w
      else w.(buckets := w.buckets[1..] + [{}],
              tick := w.tick + 1,
              fired := w.fired + [Fired(w)])
  }

  // ---------- the invariant ----------

  /** The tick that takes the entry out of its last bucket, if it is not read from before. */
  function Deadline(w: Wheel, id: nat): nat
    requires id in w.touched
  {
    w.touched[id] + |w.buckets|
  }

  ghost predicate Placed(w: Wheel) {
    && |w.buckets| == (if w.timeout > 0 then w.timeout else 0)
    && (forall id :: id in w.touched ==> w.touched[id] <= w.tick && w.buckets != [])
    && (forall id, j :: 0 <= j < |w.buckets| && id in w.buckets[j] ==>
          id in w.touched && w.tick + j < Deadline(w, id))
    && (forall id :: id in w.touched && w.tick < Deadline(w, id) ==>
          id in w.buckets[Deadline(w, id) - 1 - w.tick])
  }

  /** The connection has not been destroyed by tick `t`. */
  predicate Watched(w: Wheel, id: nat, t: nat) {
    id in w.gone ==> w.gone[id] >= t
  }

  ghost predicate FiredOnTime(w: Wheel) {
    && |w.fired| == w.tick
    && (forall id :: id in w.gone ==> w.gone[id] <= w.tick)
    && forall id, t :: 0 <= t < w.tick ==>
         (id in w.fired[t] <==> id in w.touched && t + 1 == Deadline(w, id) && Watched(w, id, t + 1))
  }

  ghost predicate Inv(w: Wheel) {
    Placed(w) && FiredOnTime(w)
  }

  lemma StartKept(timeout: int)
    ensures Inv(Start(timeout))
  {
  }

  /** An entry is alive exactly until its deadline. */
  lemma AliveUntilDeadline(w: Wheel, id: nat)
    requires Placed(w)
    ensures Alive(w.buckets, id) <==> id in w.touched && w.tick < Deadline(w, id)
  {
    if id in w.touched && w.tick < Deadline(w, id) {
      assert id in w.buckets[Deadline(w, id) - 1 - w.tick];
    }
  }

  lemma TouchPlaced(w: Wheel, id: nat)
    requires Placed(w)
    ensures Placed(Touch(w, id))
  {
    if w.buckets != [] {
      var d, n := Touch(w, id), |w.buckets| - 1;
      assert d.buckets[n] == w.buckets[n] + {id} && forall j :: 0 <= j < n ==> d.buckets[j] == w.buckets[j];
      forall i | i in d.touched ensures Deadline(d, i) == if i == id then w.tick + n + 1 else Deadline(w, i) {
      }
      hide Deadline, PutBack;
    }
  }

  lemma TouchKeeps(w: Wheel, id: nat)
    requires Inv(w) && (id in w.touched ==> w.tick < Deadline(w, id))
    ensures Inv(Touch(w, id))
  {
    TouchPlaced(w, id);
    hide Placed;
    var d := Touch(w, id);
    forall i, t | 0 <= t < w.tick
      ensures i in d.fired[t] <==> i in d.touched && t + 1 == Deadline(d, i) && Watched(d, i, t + 1)
    {
      assert i in w.fired[t] <==> i in w.touched && t + 1 == Deadline(w, i) && Watched(w, i, t + 1);
    }
  }

  /** What the front bucket alone holds is due at the next tick, and nothing else is. */
  lemma ExpiringIsDue(w: Wheel, id: nat)
    requires Placed(w) && w.buckets != []
    ensures id in Expiring(w.buckets) <==> id in w.touched && Deadline(w, id) == w.tick + 1
  {
    var rest := w.buckets[1..];
    if id in w.touched && w.tick < Deadline(w, id) {
      var j := Deadline(w, id) - 1 - w.tick;
      assert id in w.buckets[j];
      if j > 0 {
        assert id in rest[j - 1];
      }
    }
    assert forall k :: 0 <= k < |rest| ==> rest[k] == w.buckets[k + 1];
  }

  lemma TickPlaced(w: Wheel)
    requires Placed(w) && w.buckets != []
    ensures Placed(Step(w, Tick))
  {
    var d := Step(w, Tick);
    forall j | 0 <= j < |d.buckets| ensures d.buckets[j] == if j + 1 < |w.buckets| then w.buckets[j + 1] else {} {
    }
  }

  lemma TickFires(w: Wheel)
    requires Inv(w) && w.buckets != []
    ensures FiredOnTime(Step(w, Tick))
  {
    var d := Step(w, Tick);
    forall id, t | 0 <= t < d.tick
      ensures id in d.fired[t] <==> id in d.touched && t + 1 == Deadline(d, id) && Watched(d, id, t + 1)
    {
      if t == w.tick {
        ExpiringIsDue(w, id);
      } else {
        assert d.fired[t] == w.fired[t];
      }
    }
  }

  lemma GoneKeeps(w: Wheel, id: nat)
    requires Inv(w) && id !in w.gone
    ensures Inv(Step(w, Gone(id)))
  {
    var d := Step(w, Gone(id));
    forall i | i in w.touched ensures Deadline(d, i) == Deadline(w, i) {
    }
    forall i, t | 0 <= t < w.tick
      ensures i in d.fired[t] <==> i in d.touched && t + 1 == Deadline(d, i) && Watched(d, i, t + 1)
    {
      assert i in w.fired[t] <==> i in w.touched && t + 1 == Deadline(w, i) && Watched(w, i, t + 1);
    }
  }

  lemma StepKeeps(w: Wheel, e: Event)
    requires Inv(w) && Enabled(w, e)
    ensures Inv(Step(w, e))
  {
    match e
    case Accept(id) => TouchKeeps(w, id);
    case Read(id) =>
      AliveUntilDeadline(w, id);
      if Alive(w.buckets, id) {
        TouchKeeps(w, id);
      }
    case Tick =>
      TickPlaced(w);
      TickFires(w);
    case Gone(id) => GoneKeeps(w, id);
  }

  // ---------- what holds of every run ----------

  ghost predicate Reachable(w: Wheel, timeout: int) {
    exists es :: Runs.Leads(Step, Start(timeout), es, w)
  }

  lemma ReachableInv(w: Wheel, timeout: int)
    requires Reachable(w, timeout)
    ensures Inv(w) && w.timeout == timeout
  {
    hide Inv;
    var es :| Runs.Leads(Step, Start(timeout), es, w);
    StartKept(timeout);
    var inv := (d: Wheel) => Inv(d) && d.timeout == timeout;
    forall d, e | inv(d) && Step.requires(d, e) ensures inv(Step(d, e)) {
      StepKeeps(d, e);
    }
    Runs.Kept(Step, inv, Start(timeout), es, w);
  }

  lemma ReachableStep(w: Wheel, timeout: int, e: Event)
    requires Reachable(w, timeout) && Enabled(w, e)
    ensures Reachable(Step(w, e), timeout)
  {
    hide Enabled;
    var es :| Runs.Leads(Step, Start(timeout), es, w);
    Runs.OneMore(Step, Start(timeout), es, w, e);
  }

  lemma ReachableStart(timeout: int)
    ensures Reachable(Start(timeout), timeout)
  {
    assert Runs.Leads(Step, Start(timeout), [], Start(timeout));
  }

  /** The wheel never gains or loses a bucket. */
  lemma BucketsStay(w: Wheel, timeout: int)
    requires Reachable(w, timeout)
    ensures |w.buckets| == if timeout > 0 then timeout else 0
  {
    ReachableInv(w, timeout);
  }

  /** Last put in between ticks k and k + 1, an entry outlives tick k + N - 1 and not tick k + N. */
  lemma LivesForTimeout(w: Wheel, timeout: int, id: nat)
    requires Reachable(w, timeout) && id in w.touched
    ensures timeout > 0 && (Alive(w.buckets, id) <==> w.tick <= w.touched[id] + timeout - 1)
  {
    ReachableInv(w, timeout);
    AliveUntilDeadline(w, id);
  }

  /**
    The idle callback of a connection fires at that tick and at no other, and only if the
    connection is still there: in all at most once.
   */
  lemma FiresOnce(w: Wheel, timeout: int, id: nat, t: nat)
    requires Reachable(w, timeout) && t < |w.fired|
    ensures id in w.fired[t]
            <==> id in w.touched && t + 1 == w.touched[id] + timeout && Watched(w, id, t + 1)
    ensures id in w.fired[t] ==> forall u :: 0 <= u < |w.fired| && id in w.fired[u] ==> u == t
    ensures |w.fired| == w.tick
  {
    ReachableInv(w, timeout);
    assert id in w.fired[t] ==> Deadline(w, id) == w.touched[id] + timeout;
  }

  /** Reading from a connection in time puts its deadline off; afterwards nothing does. */
  lemma ReadPutsOff(w: Wheel, timeout: int, id: nat)
    requires Reachable(w, timeout) && id in w.touched
    ensures var d := Step(w, Read(id));
            if w.tick < w.touched[id] + timeout then d.touched[id] == w.tick else d == w
  {
    ReachableInv(w, timeout);
    AliveUntilDeadline(w, id);
  }
}
