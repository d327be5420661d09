/** Whole runs of a server thread: every connection's life together with the wheel it is on. */
module ServerRuns {
  import opened Options
  import Runs
  import L = Lifecycle
  import W = IdleWheel

  datatype Server = Server(nextId: nat, conns: map<nat, L.Conn>, wheel: W.Wheel)

  datatype Event =
    | Accept                    // a client that is being read from becomes a connection
    | NotRead                   // a client that cannot be read from only uses up an id
    | OnConn(id: nat, event: L.Event)
    | Data(id: nat, keep: bool) // a read callback without error or end of file, even if it brings no bytes
    | Tick

  function Start(timeout: int): Server {
    Server(0, map[], W.Start(timeout))
  }

  predicate Enabled(s: Server, e: Event) {
    match e
    case Accept => s.nextId !in s.wheel.touched && s.nextId !in s.wheel.gone
    case NotRead => true
    case OnConn(id, event) => id in s.conns && L.Enabled(s.conns[id], event)
    case Data(id, keep) => id in s.conns && s.conns[id].reading && L.Enabled(s.conns[id], L.Callback(keep))
    case Tick => s.wheel.timeout > 0
  }

  /** A step of one connection; once it is destroyed, its entry watches nothing. */
  function Moved(s: Server, id: nat, c: L.Conn): Server
    requires id in s.conns
  {
    s.(conns := s.conns[id := c],
       wheel := if c.destroyed && id !in s.wheel.gone then W.Step(s.wheel, W.Gone(id)) else s.wheel)
  }

  function Step(s: Server, e: Event): Server
    requires Enabled(s, e)
  {
    match e
    case Accept =>
      Server(s.nextId + 1, s.conns[s.nextId := L.Accepted()], W.Step(s.wheel, W.Accept(s.nextId)))
    case NotRead => s.(nextId := s.nextId + 1)
    case OnConn(id, event) => Moved(s, id, L.Step(s.conns[id], event))
    case Data(id, keep) =>
      Moved(s.(wheel := W.Step(s.wheel, W.Read(id))), id, L.Step(s.conns[id], L.Callback(keep)))
    case Tick => s.(wheel := W.Step(s.wheel, W.Tick))
  }

  /** The event can happen in `s`, and leads to `d`. */
  ghost predicate Takes(s: Server, e: Event, d: Server) {
    Enabled(s, e) && Step(s, e) == d
  }

  // ---------- the invariant ----------

  /** Every connection and the wheel have runs of their own, and they agree on who is gone. */
  ghost predicate Inv(s: Server, timeout: int) {
    && W.Reachable(s.wheel, timeout) && s.wheel.timeout == timeout
    && (forall id :: id in s.conns ==> id < s.nextId && L.Reachable(s.conns[id]))
    && (forall id :: id in s.wheel.gone <==> id in s.conns && s.conns[id].destroyed)
    && (forall id :: id in s.wheel.touched <==> id in s.conns && timeout > 0)
  }

  lemma StartKept(timeout: int)
    ensures Inv(Start(timeout), timeout)
  {
    W.ReachableStart(timeout);
  }

  lemma MovedKeeps(s: Server, timeout: int, id: nat, event: L.Event)
    requires Inv(s, timeout) && id in s.conns && L.Enabled(s.conns[id], event)
    ensures Inv(Moved(s, id, L.Step(s.conns[id], event)), timeout)
  {
    hide L.Reachable, W.Reachable, L.Step, L.Enabled;
    L.ReachableStep(s.conns[id], event, L.Step(s.conns[id], event));
    if s.conns[id].destroyed {
      StaysDestroyed(s.conns[id], event);
    }
    var c := L.Step(s.conns[id], event);
    if c.destroyed && id !in s.wheel.gone {
      W.ReachableStep(s.wheel, timeout, W.Gone(id));
    }
  }

  lemma StaysDestroyed(c: L.Conn, e: L.Event)
    requires L.Enabled(c, e) && c.destroyed
    ensures L.Step(c, e).destroyed
  {
  }

  lemma AcceptKeeps(s: Server, timeout: int)
    requires Inv(s, timeout) && Enabled(s, Accept)
    ensures Inv(Step(s, Accept), timeout)
  {
    W.BucketsStay(s.wheel, timeout);
    hide L.Reachable, W.Reachable;
    L.ReachableStart();
    W.ReachableStep(s.wheel, timeout, W.Accept(s.nextId));
  }

  lemma NotReadKeeps(s: Server, timeout: int)
    requires Inv(s, timeout)
    ensures Inv(Step(s, NotRead), timeout)
  {
    hide L.Reachable, W.Reachable;
  }

  lemma ReadKeeps(s: Server, timeout: int, id: nat)
    requires Inv(s, timeout) && id in s.conns
    ensures Inv(s.(wheel := W.Step(s.wheel, W.Read(id))), timeout)
  {
    W.BucketsStay(s.wheel, timeout);
    hide L.Reachable, W.Reachable;
    W.ReachableStep(s.wheel, timeout, W.Read(id));
  }

  lemma TickKeeps(s: Server, timeout: int)
    requires Inv(s, timeout) && Enabled(s, Tick)
    ensures Inv(Step(s, Tick), timeout)
  {
    hide L.Reachable, W.Reachable;
    W.ReachableStep(s.wheel, timeout, W.Tick);
  }

  lemma StepKeeps(s: Server, timeout: int, e: Event)
    requires Inv(s, timeout) && Enabled(s, e)
    ensures Inv(Step(s, e), timeout)
  {
    hide Inv, L.Step, L.Enabled, W.Step;
    match e
    case Accept => AcceptKeeps(s, timeout);
    case NotRead => NotReadKeeps(s, timeout);
    case OnConn(id, event) => MovedKeeps(s, timeout, id, event);
    case Data(id, keep) =>
      ReadKeeps(s, timeout, id);
      MovedKeeps(s.(wheel := W.Step(s.wheel, W.Read(id))), timeout, id, L.Callback(keep));
    case Tick => TickKeeps(s, timeout);
  }

  // ---------- what holds of every run ----------

  ghost predicate Reachable(s: Server, timeout: int) {
    exists es :: Runs.Leads(Step, Start(timeout), es, s)
  }

  lemma ReachableInv(s: Server, timeout: int)
    requires Reachable(s, timeout)
    ensures Inv(s, timeout)
  {
    hide Inv;
    var es :| Runs.Leads(Step, Start(timeout), es, s);
    StartKept(timeout);
    var inv := (d: Server) => Inv(d, timeout);
    forall d, e | inv(d) && Step.requires(d, e) ensures inv(Step(d, e)) {
      StepKeeps(d, timeout, e);
    }
    Runs.Kept(Step, inv, Start(timeout), es, s);
  }

  lemma ReachableStart(timeout: int)
    ensures Reachable(Start(timeout), timeout)
  {
    assert Runs.Leads(Step, Start(timeout), [], Start(timeout));
  }

  lemma ReachableStep(s: Server, timeout: int, e: Event)
    requires Reachable(s, timeout) && Enabled(s, e)
    ensures Reachable(Step(s, e), timeout)
  {
    hide Enabled;
    var es :| Runs.Leads(Step, Start(timeout), es, s);
    Runs.OneMore(Step, Start(timeout), es, s, e);
  }

  function ConnectionMap(s: Server): set<nat> {
    set id | id in s.conns && s.conns[id].inMap
  }

  /**
    Whoever is read from is mapped, and a read callback or an end of file finds it; whoever is
    mapped has not been destroyed, let alone closed.
   */
  lemma MapHoldsTheOpen(s: Server, timeout: int, id: nat)
    requires Reachable(s, timeout) && id in s.conns
    ensures s.conns[id].reading ==>
              && id in ConnectionMap(s)
              && Enabled(s, OnConn(id, L.Eof)) && forall keep :: Enabled(s, Data(id, keep))
    ensures id in ConnectionMap(s) ==> !s.conns[id].destroyed && L.Close !in s.conns[id].log
    ensures L.Close in s.conns[id].log ==> s.conns[id].writes == {} && s.conns[id].users == 0
  {
    ReachableInv(s, timeout);
    L.ReachableInv(s.conns[id]);
    if L.Close in s.conns[id].log {
      L.ClosedMeansUnused(s.conns[id]);
    }
  }

  // ---------- when idle callbacks fire ----------

  function Ticks(es: seq<Event>): nat {
    if es == [] then 0 else Ticks(es[..|es| - 1]) + if es[|es| - 1].Tick? then 1 else 0
  }

  /** How many clients have been accepted. */
  function Handles(es: seq<Event>): nat {
    if es == [] then 0
    else Handles(es[..|es| - 1]) + if es[|es| - 1].Accept? || es[|es| - 1].NotRead? then 1 else 0
  }

  /**
    The ticks passed when `id` was accepted or, after that, last read from in time: less than
    the timeout after the time before.
   */
  function LastRead(es: seq<Event>, timeout: int, id: nat): Option<nat> {
    if es == [] then None
    else
      var before, e := es[..|es| - 1], es[|es| - 1];
      var last := LastRead(before, timeout, id);
      if e.Accept? && id == Handles(before) then Some(Ticks(before))
      else if e.Data? && e.id == id && last.Some? && Ticks(before) < last.value + timeout then Some(Ticks(before))
      else last
  }

  /** The wheel keeps no other account than the run itself, and none without a timeout. */
  ghost predicate Accounts(es: seq<Event>, timeout: int, s: Server) {
    && s.nextId == Handles(es)
    && s.wheel.tick == Ticks(es)
    && forall id :: Entered(s, id) == if timeout > 0 then LastRead(es, timeout, id) else None
  }

  /** The ticks passed when the wheel last took in an entry for `id`. */
  function Entered(s: Server, id: nat): Option<nat> {
    if id in s.wheel.touched then Some(s.wheel.touched[id]) else None
  }

  lemma {:induction false} RunAccounts(es: seq<Event>, timeout: int, s: Server)
    requires Runs.Leads(Step, Start(timeout), es, s)
    ensures Accounts(es, timeout, s)
    decreases |es|
  {
    if es != [] {
      var m := Runs.LastStep(Step, Start(timeout), es, s);
      RunAccounts(es[..|es| - 1], timeout, m);
      assert Reachable(m, timeout);
      OneMoreAccounts(es, timeout, m);
    }
  }

  lemma OneMoreAccounts(es: seq<Event>, timeout: int, m: Server)
    requires es != [] && Reachable(m, timeout)
    requires Accounts(es[..|es| - 1], timeout, m) && Enabled(m, es[|es| - 1])
    ensures Accounts(es, timeout, Step(m, es[|es| - 1]))
  {
    hide Reachable, Step, Enabled;
    var before, e := es[..|es| - 1], es[|es| - 1];
    StepAccounts(m, timeout, e);
    forall id ensures Entered(Step(m, e), id) == if timeout > 0 then LastRead(es, timeout, id) else None {
      assert Entered(m, id) == if timeout > 0 then LastRead(before, timeout, id) else None;
    }
  }

  /** What an event does to the ids given out, the ticks and the entries of the wheel. */
  lemma StepAccounts(m: Server, timeout: int, e: Event)
    requires Reachable(m, timeout) && Enabled(m, e)
    ensures var d, t := Step(m, e), m.wheel.touched;
            && d.nextId == m.nextId + (if e.Accept? || e.NotRead? then 1 else 0)
            && d.wheel.tick == m.wheel.tick + (if e.Tick? then 1 else 0)
            && d.wheel.touched == (if e.Accept? && timeout > 0 then t[m.nextId := m.wheel.tick]
                                   else if e.Data? && e.id in t && m.wheel.tick < t[e.id] + timeout
                                   then t[e.id := m.wheel.tick] else t)
    ensures timeout <= 0 ==> forall id :: id !in m.wheel.touched && id !in Step(m, e).wheel.touched
  {
    ReachableInv(m, timeout);
    W.BucketsStay(m.wheel, timeout);
    hide Reachable, W.Reachable, L.Reachable, L.Step, L.Enabled, W.Alive, W.PutBack, W.Expiring, W.Fired;
    match e
    case Data(id, keep) => ReadAccounts(m, timeout, id);
    case _ =>
  }

  /** What a read does to the wheel's account. */
  lemma ReadAccounts(m: Server, timeout: int, id: nat)
    requires Reachable(m, timeout)
    ensures var d := W.Step(m.wheel, W.Read(id));
            && d.tick == m.wheel.tick
            && d.touched == if id in m.wheel.touched && m.wheel.tick < m.wheel.touched[id] + timeout
                            then m.wheel.touched[id := m.wheel.tick] else m.wheel.touched
  {
    ReachableInv(m, timeout);
    W.ReachableInv(m.wheel, timeout);
    W.AliveUntilDeadline(m.wheel, id);
  }

  // ---------- the life of one connection ----------

  /** What has happened to connection `id`, once it has been accepted. */
  function History(es: seq<Event>, id: nat): Option<seq<L.Event>> {
    if es == [] then None
    else
      var before, e := es[..|es| - 1], es[|es| - 1];
      var past := History(before, id);
      if e.Accept? && id == Handles(before) then Some([])
      else if past.Some? && e.OnConn? && e.id == id then Some(past.value + [e.event])
      else if past.Some? && e.Data? && e.id == id then Some(past.value + [L.Callback(e.keep)])
      else past
  }

  /**
    In a run of the server every connection accepted lives through a run of its own: just the
    events that name it, in their order, whatever happens to the others.
   */
  lemma {:induction false} ConnRuns(es: seq<Event>, timeout: int, s: Server, id: nat)
    requires Runs.Leads(Step, Start(timeout), es, s)
    ensures History(es, id).Some? <==> id in s.conns
    ensures id in s.conns ==> Runs.Leads(L.Step, L.Accepted(), History(es, id).value, s.conns[id])
    decreases |es|
  {
    if es != [] {
      var before, e := es[..|es| - 1], es[|es| - 1];
      var m := Runs.LastStep(Step, Start(timeout), es, s);
      ConnRuns(before, timeout, m, id);
      RunAccounts(before, timeout, m);
      assert Reachable(m, timeout);
      FreshIds(m, timeout);
      StepConns(m, e);
      hide Step, Enabled, L.Step, L.Enabled, L.Accepted, Reachable;
      if id in m.conns && MovedBy(e, id).Some? {
        Runs.OneMore(L.Step, L.Accepted(), History(before, id).value, m.conns[id], MovedBy(e, id).value);
      }
    }
  }

  /** What the event is to connection `id`. */
  function MovedBy(e: Event, id: nat): Option<L.Event> {
    match e
    case OnConn(i, event) => if i == id then Some(event) else None
    case Data(i, keep) => if i == id then Some(L.Callback(keep)) else None
    case _ => None
  }

  lemma StepConns(m: Server, e: Event)
    requires Enabled(m, e)
    ensures Step(m, e).conns.Keys == m.conns.Keys + if e.Accept? then {m.nextId} else {}
    ensures e.Accept? ==> Step(m, e).conns[m.nextId] == L.Accepted()
    ensures forall id :: id in m.conns && !(e.Accept? && id == m.nextId) ==>
              if MovedBy(e, id).Some? then
                && L.Step.requires(m.conns[id], MovedBy(e, id).value)
                && Step(m, e).conns[id] == L.Step(m.conns[id], MovedBy(e, id).value)
              else Step(m, e).conns[id] == m.conns[id]
    ensures e.OnConn? || e.Data? ==> e.id in m.conns
  {
    hide L.Step, L.Enabled, L.Accepted, W.Step;
  }

  /**
    In every run, a tick fires the idle callback of a connection if and only if the connection
    has not been destroyed and the tick is the timeout after its last read.
   */
  lemma IdleFires(es: seq<Event>, timeout: int, s: Server, id: nat)
    requires Runs.Leads(Step, Start(timeout), es, s) && Enabled(s, Tick)
    ensures var fired := Step(s, Tick).wheel.fired;
            && |fired| == |s.wheel.fired| + 1 && fired[..|s.wheel.fired|] == s.wheel.fired
            && (id in fired[|s.wheel.fired|]
                <==> && id in s.conns && !s.conns[id].destroyed
                     && LastRead(es, timeout, id).Some?
                     && Ticks(es) + 1 == LastRead(es, timeout, id).value + timeout)
  {
    assert Reachable(s, timeout);
    ReachableInv(s, timeout);
    RunAccounts(es, timeout, s);
    W.ReachableInv(s.wheel, timeout);
    W.ExpiringIsDue(s.wheel, id);
  }

  /** ... so at most once in its life, and not at all without a timeout. */
  lemma IdleFiresOnce(s: Server, timeout: int, id: nat, t: nat, u: nat)
    requires Reachable(s, timeout) && t < |s.wheel.fired| && u < |s.wheel.fired|
    requires id in s.wheel.fired[t] && id in s.wheel.fired[u]
    ensures t == u && timeout > 0
  {
    ReachableInv(s, timeout);
    W.ReachableInv(s.wheel, timeout);
    W.FiresOnce(s.wheel, timeout, id, t);
  }

  /** Accepting is always possible, with an id that no connection has had. */
  lemma FreshIds(s: Server, timeout: int)
    requires Reachable(s, timeout)
    ensures s.nextId !in s.conns && Enabled(s, Accept) && (Enabled(s, Tick) <==> timeout > 0)
    ensures forall id :: id in s.conns ==> Step(s, Accept).conns[id] == s.conns[id]
  {
    ReachableInv(s, timeout);
  }
}
