/**
  One connection of a server, from accept until its handle is closed, as a step system.
  Who holds a reference, which actions wait for the loop and which requests wait for their
  callback are all explicit, and so is the order of the calls made on the handle.
 */
module Lifecycle {
  import Runs

  datatype ConnectionState = CONNECTED | FIN_WAIT | CLOSE_WAIT | CLOSED

  /** Calls on the handle.  A shutdown may carry the handle, to be closed in its callback. */
  datatype Call = Shutdown(thenClose: bool) | Close | Write(id: nat)

  datatype Conn = Conn(
    state: ConnectionState,
    reading: bool,          // read callbacks may still come
    inMap: bool,            // the server's connection map holds a reference
    users: nat,             // references the user holds
    writes: set<nat>,       // write contexts, each holding a reference
    destroyed: bool,
    posted: multiset<Call>, // handed to the loop from another thread, not yet run
    ending: multiset<bool>, // shutdown requests whose callback has not run
    issued: set<nat>,       // writes whose callback has not run
    log: seq<Call>)         // calls on the handle, in order

  /** As accepting leaves it. */
  function Accepted(): Conn {
    Conn(CONNECTED, true, true, 0, {}, false, multiset{}, multiset{}, {}, [])
  }

  // ---------- acting on the handle ----------

  function Perform(c: Conn, call: Call): Conn {
    match call
    case Shutdown(thenClose) =>
      c.(log := c.log + [call], ending := c.ending + multiset{thenClose})
    case Close =>
      c.(log := c.log + [call])
    case Write(id) =>
      c.(log := c.log + [call], issued := c.issued + {id})
  }

  /** runInLoopThread: at once on the loop's thread, later from any other. */
  function InLoop(c: Conn, call: Call, onLoop: bool): Conn {
    if onLoop then Perform(c, call) else c.(posted := c.posted + multiset{call})
  }

  predicate Referenced(c: Conn) {
    c.inMap || c.users > 0 || c.writes != {}
  }

  function Destruct(c: Conn, onLoop: bool): Conn {
    var d := c.(state := CLOSED, destroyed := true);
    if c.state == CLOSE_WAIT then InLoop(d, Shutdown(true), onLoop)
    else InLoop(d, Close, onLoop)
  }

  /** The destructor runs when the last reference goes. */
  function Settle(c: Conn, onLoop: bool): Conn {
    if !c.destroyed && !Referenced(c) then Destruct(c, onLoop) else c
  }

  // ---------- events ----------

  datatype Event =
    | Callback(keep: bool)           // a callback is handed the connection, and may keep it
    | CopyRef
    | DropRef(onLoop: bool)
    | CallShutdown(onLoop: bool)
    | Send(id: nat, onLoop: bool)
    | Eof                            // end of file: the read callback changes the state
    | Unmap                          // ... and, after the connection callback, empties the map's entry
    | RunPosted(call: Call)
    | WriteDone(id: nat, keep: bool)
    | ShutdownDone(thenClose: bool)

  /** On the loop's thread callbacks hold the connection; elsewhere only a user's reference does. */
  predicate Held(c: Conn, onLoop: bool) {
    !c.destroyed && (onLoop || c.users > 0)
  }

  predicate Enabled(c: Conn, e: Event) {
    match e
    case Callback(_) => !c.destroyed
    case CopyRef => c.users > 0
    case DropRef(_) => c.users > 0
    case CallShutdown(onLoop) => Held(c, onLoop)
    case Send(id, onLoop) => Held(c, onLoop) && id !in c.writes
    case Eof => c.reading
    case Unmap => c.inMap && !c.reading
    case RunPosted(call) => call in c.posted
    case WriteDone(id, _) => id in c.issued
    case ShutdownDone(thenClose) => thenClose in c.ending
  }

  function Kept(c: Conn, keep: bool): Conn {
    if keep then c.(users := c.users + 1) else c
  }

  function Step(c: Conn, e: Event): Conn
    requires Enabled(c, e)
  {
    match e
    case Callback(keep) => Kept(c, keep)
    case CopyRef => c.(users := c.users + 1)
    case DropRef(onLoop) => Settle(c.(users := c.users - 1), onLoop)
    case CallShutdown(onLoop) =>
      if c.state == CONNECTED then InLoop(c.(state := FIN_WAIT), Shutdown(false), onLoop) else c
    case Send(id, onLoop) => InLoop(c.(writes := c.writes + {id}), Write(id), onLoop)
    case Eof => c.(state := if c.state == CONNECTED then CLOSE_WAIT else CLOSED, reading := false)
    case Unmap => Settle(c.(inMap := false), true)
    case RunPosted(call) => Perform(c.(posted := c.posted - multiset{call}), call)
    case WriteDone(id, keep) =>
      Settle(Kept(c, keep).(writes := c.writes - {id}, issued := c.issued - {id}), true)
    case ShutdownDone(thenClose) =>
      var d := c.(ending := c.ending - multiset{thenClose});
      if thenClose then Perform(d, Close) else d
  }

  // ---------- the invariant ----------

  /** How often a call has been made or waits to be made. */
  function Made(c: Conn, call: Call): nat {
    c.posted[call] + multiset(c.log)[call]
  }

  /** How often the handle has been closed or is bound to be. */
  function Closes(c: Conn): nat {
    Made(c, Close) + c.posted[Shutdown(true)] + c.ending[true]
  }

  /** References and state: what the asserts in the read callback rest on. */
  ghost predicate Refs(c: Conn) {
    && (c.destroyed <==> !Referenced(c))
    && (c.reading ==> c.inMap)
    && (c.reading <==> c.state == CONNECTED || c.state == FIN_WAIT)
    && (c.destroyed ==> c.state == CLOSED)
    && WritesHeld(c)
  }

  /** A write that waits for the loop or for its callback is held by its context. */
  ghost predicate WritesHeld(c: Conn) {
    && c.issued <= c.writes
    && forall id :: Write(id) in c.posted ==>
         id in c.writes && id !in c.issued && c.posted[Write(id)] == 1
  }

  /** How often the handle has been, or is bound to be, shut down and closed. */
  ghost predicate Counts(c: Conn) {
    && (!c.destroyed ==>
          && Made(c, Shutdown(false)) == (if c.state == FIN_WAIT || c.state == CLOSED then 1 else 0)
          && Made(c, Shutdown(true)) == 0)
    && (c.destroyed ==> Made(c, Shutdown(false)) + Made(c, Shutdown(true)) == 1)
    && Closes(c) == if c.destroyed then 1 else 0
  }

  predicate ShutdownAfterClose(log: seq<Call>) {
    exists i, j :: 0 <= i < j < |log| && log[i] == Close && log[j].Shutdown?
  }

  predicate WriteAfterClose(log: seq<Call>) {
    exists i, j :: 0 <= i < j < |log| && log[i] == Close && log[j].Write?
  }

  ghost predicate Inv(c: Conn) {
    Refs(c) && Counts(c) && !WriteAfterClose(c.log)
  }

  lemma LogGrows(log: seq<Call>, call: Call)
    ensures ShutdownAfterClose(log + [call])
            <==> ShutdownAfterClose(log) || (call.Shutdown? && Close in log)
    ensures WriteAfterClose(log + [call])
            <==> WriteAfterClose(log) || (call.Write? && Close in log)
    ensures multiset(log + [call]) == multiset(log) + multiset{call}
    ensures forall d :: d in log + [call] <==> d in log || d == call
  {
    var more := log + [call];
    assert forall i :: 0 <= i < |log| ==> more[i] == log[i];
    if ShutdownAfterClose(log) {
      var i, j :| 0 <= i < j < |log| && log[i] == Close && log[j].Shutdown?;
      assert more[i] == Close && more[j].Shutdown?;
    }
    if WriteAfterClose(log) {
      var i, j :| 0 <= i < j < |log| && log[i] == Close && log[j].Write?;
      assert more[i] == Close && more[j].Write?;
    }
    if Close in log {
      var i :| 0 <= i < |log| && log[i] == Close;
      assert more[i] == Close && more[|log|] == call;
    }
  }

  // ---------- every step keeps it ----------

  lemma InitialKept()
    ensures Inv(Accepted())
  {
  }

  lemma InLog(log: seq<Call>, call: Call)
    ensures call in log <==> multiset(log)[call] > 0
  {
    assert call in log <==> call in multiset(log);
  }

  /** Making a call or leaving it to the loop counts the same. */
  lemma InLoopCounts(c: Conn, call: Call, onLoop: bool, other: Call)
    ensures Made(InLoop(c, call, onLoop), other) == Made(c, other) + if other == call then 1 else 0
    ensures Closes(InLoop(c, call, onLoop))
            == Closes(c) + if call == Close || call == Shutdown(true) then 1 else 0
  {
    LogGrows(c.log, call);
  }

  /** A call that waited and is made counts as before. */
  lemma RunPostedCounts(c: Conn, call: Call, other: Call)
    requires call in c.posted
    ensures var d := Perform(c.(posted := c.posted - multiset{call}), call);
            Made(d, other) == Made(c, other) && Closes(d) == Closes(c)
  {
    hide Perform;
    var p := c.(posted := c.posted - multiset{call});
    assert InLoop(p, call, true) == Perform(p, call);
    InLoopCounts(p, call, true, other);
  }

  lemma InLoopOrdered(c: Conn, call: Call, onLoop: bool)
    requires !WriteAfterClose(c.log) && (call.Write? ==> Close !in c.log)
    ensures !WriteAfterClose(InLoop(c, call, onLoop).log) && !WriteAfterClose(Perform(c, call).log)
  {
    hide WriteAfterClose;
    LogGrows(c.log, call);
  }

  /** Before the last reference has been looked at. */
  ghost predicate Unsettled(c: Conn) {
    && !c.destroyed
    && (c.reading ==> c.inMap)
    && (c.reading <==> c.state == CONNECTED || c.state == FIN_WAIT)
    && WritesHeld(c) && Counts(c) && !WriteAfterClose(c.log)
  }

  lemma SettleKeeps(c: Conn, onLoop: bool)
    requires Unsettled(c)
    ensures Inv(Settle(c, onLoop))
  {
    hide Made, Closes, WriteAfterClose;
    if !Referenced(c) {
      var d := c.(state := CLOSED, destroyed := true);
      var call := if c.state == CLOSE_WAIT then Shutdown(true) else Close;
      SameCounts(c, d);
      InLoopCounts(d, call, onLoop, Shutdown(false));
      InLoopCounts(d, call, onLoop, Shutdown(true));
      NotClosedYet(c);
      InLoopOrdered(d, call, onLoop);
      assert WritesHeld(d);
    }
  }

  lemma SameCounts(c: Conn, d: Conn)
    requires c.posted == d.posted && c.log == d.log && c.ending == d.ending
    ensures Closes(c) == Closes(d)
    ensures forall call :: Made(c, call) == Made(d, call)
  {
  }

  lemma NotClosedYet(c: Conn)
    requires Counts(c) && !c.destroyed
    ensures Close !in c.log && c.posted[Shutdown(true)] == 0 && c.ending[true] == 0
  {
    InLog(c.log, Close);
  }

  lemma EofKeeps(c: Conn)
    requires Inv(c) && Enabled(c, Eof)
    ensures Inv(Step(c, Eof))
  {
    hide Made, Closes, WriteAfterClose;
    SameCounts(c, Step(c, Eof));
  }

  lemma UnmapKeeps(c: Conn)
    requires Inv(c) && Enabled(c, Unmap)
    ensures Inv(Step(c, Unmap))
  {
    hide Made, Closes, WriteAfterClose, Settle;
    SameCounts(c, c.(inMap := false));
    SettleKeeps(c.(inMap := false), true);
  }

  lemma CallShutdownKeeps(c: Conn, onLoop: bool)
    requires Inv(c) && Enabled(c, CallShutdown(onLoop))
    ensures Inv(Step(c, CallShutdown(onLoop)))
  {
    hide Made, Closes, WriteAfterClose;
    if c.state == CONNECTED {
      var d := c.(state := FIN_WAIT);
      SameCounts(c, d);
      InLoopCounts(d, Shutdown(false), onLoop, Shutdown(false));
      InLoopCounts(d, Shutdown(false), onLoop, Shutdown(true));
      NotClosedYet(c);
      InLoopOrdered(d, Shutdown(false), onLoop);
    }
  }

  lemma SendKeeps(c: Conn, id: nat, onLoop: bool)
    requires Inv(c) && Enabled(c, Send(id, onLoop))
    ensures Inv(Step(c, Send(id, onLoop)))
  {
    hide Made, Closes, WriteAfterClose;
    var d := c.(writes := c.writes + {id});
    SameCounts(c, d);
    InLoopCounts(d, Write(id), onLoop, Shutdown(false));
    InLoopCounts(d, Write(id), onLoop, Shutdown(true));
    NotClosedYet(c);
    InLoopOrdered(d, Write(id), onLoop);
  }

  lemma RunPostedKeeps(c: Conn, call: Call)
    requires Inv(c) && Enabled(c, RunPosted(call))
    ensures Inv(Step(c, RunPosted(call)))
  {
    hide *;
    InvParts(c);
    var d := RunPostedStep(c, call);
    OpenWhile(c, call);
    RunPostedCounts(c, call, Shutdown(false));
    RunPostedCounts(c, call, Shutdown(true));
    InLoopOrdered(c.(posted := c.posted - multiset{call}), call, true);
    RunPostedWrites(c, call);
    InvKept(c, d);
  }

  lemma InvParts(c: Conn)
    requires Inv(c)
    ensures Refs(c) && Counts(c) && WritesHeld(c) && !WriteAfterClose(c.log)
  {
  }

  lemma RunPostedStep(c: Conn, call: Call) returns (d: Conn)
    requires Enabled(c, RunPosted(call))
    ensures call in c.posted && d == Step(c, RunPosted(call)) && SameRefs(c, d)
    ensures d == Perform(c.(posted := c.posted - multiset{call}), call)
  {
    d := Perform(c.(posted := c.posted - multiset{call}), call);
  }

  /** The two agree on the state and on who refers to the connection. */
  predicate SameRefs(c: Conn, d: Conn) {
    && d.state == c.state && d.reading == c.reading && d.inMap == c.inMap
    && d.users == c.users && d.writes == c.writes && d.destroyed == c.destroyed
  }

  /** The invariant speaks of references, of how often calls are made or bound to be, and of their order. */
  lemma InvKept(c: Conn, d: Conn)
    requires Inv(c) && SameRefs(c, d) && WritesHeld(d) && !WriteAfterClose(d.log)
    requires Made(d, Shutdown(false)) == Made(c, Shutdown(false))
    requires Made(d, Shutdown(true)) == Made(c, Shutdown(true)) && Closes(d) == Closes(c)
    ensures Inv(d)
  {
    hide Made, Closes, WritesHeld, WriteAfterClose;
  }

  lemma RunPostedWrites(c: Conn, call: Call)
    requires WritesHeld(c) && call in c.posted
    ensures WritesHeld(Perform(c.(posted := c.posted - multiset{call}), call))
  {
    var p := c.posted - multiset{call};
    assert forall id :: p[Write(id)] == if call == Write(id) then 0 else c.posted[Write(id)];
  }

  /** While a write or the closing shutdown is still waiting, the handle is open. */
  lemma OpenWhile(c: Conn, call: Call)
    requires Refs(c) && Counts(c) && call in c.posted
    ensures call == Shutdown(true) || call.Write? ==> Close !in c.log
  {
    InLog(c.log, Close);
  }

  lemma WriteDoneKeeps(c: Conn, id: nat, keep: bool)
    requires Inv(c) && Enabled(c, WriteDone(id, keep))
    ensures Inv(Step(c, WriteDone(id, keep)))
  {
    hide Made, Closes, WriteAfterClose, Settle;
    var d := Kept(c, keep).(writes := c.writes - {id}, issued := c.issued - {id});
    SameCounts(c, d);
    SettleKeeps(d, true);
  }

  lemma ShutdownDoneKeeps(c: Conn, thenClose: bool)
    requires Inv(c) && Enabled(c, ShutdownDone(thenClose))
    ensures Inv(Step(c, ShutdownDone(thenClose)))
  {
    hide *;
    InvParts(c);
    var d := ShutdownDoneStep(c, thenClose);
    InvKept(c, d);
  }

  lemma ShutdownDoneStep(c: Conn, thenClose: bool) returns (d: Conn)
    requires Enabled(c, ShutdownDone(thenClose)) && WritesHeld(c)
    ensures d == Step(c, ShutdownDone(thenClose)) && SameRefs(c, d) && WritesHeld(d)
    ensures forall t :: Made(d, Shutdown(t)) == Made(c, Shutdown(t))
    ensures Closes(d) == Closes(c) && (WriteAfterClose(d.log) <==> WriteAfterClose(c.log))
  {
    hide WriteAfterClose;
    d := Step(c, ShutdownDone(thenClose));
    LogGrows(c.log, Close);
  }

  lemma DropRefKeeps(c: Conn, onLoop: bool)
    requires Inv(c) && Enabled(c, DropRef(onLoop))
    ensures Inv(Step(c, DropRef(onLoop)))
  {
    hide Made, Closes, WriteAfterClose, Settle;
    var d := c.(users := c.users - 1);
    SameCounts(c, d);
    SettleKeeps(d, onLoop);
  }

  /** Every step keeps the invariant. */
  lemma StepKeeps(c: Conn, e: Event)
    requires Inv(c) && Enabled(c, e)
    ensures Inv(Step(c, e))
  {
    hide Made, Closes, WriteAfterClose, Settle;
    match e
    case Callback(keep) => SameCounts(c, Step(c, e));
    case CopyRef => SameCounts(c, Step(c, e));
    case DropRef(onLoop) => DropRefKeeps(c, onLoop);
    case CallShutdown(onLoop) => CallShutdownKeeps(c, onLoop);
    case Send(id, onLoop) => SendKeeps(c, id, onLoop);
    case Eof => EofKeeps(c);
    case Unmap => UnmapKeeps(c);
    case RunPosted(call) => RunPostedKeeps(c, call);
    case WriteDone(id, keep) => WriteDoneKeeps(c, id, keep);
    case ShutdownDone(thenClose) => ShutdownDoneKeeps(c, thenClose);
  }

  // ---------- what holds of every run ----------

  ghost predicate Reachable(c: Conn) {
    exists es :: Runs.Leads(Step, Accepted(), es, c)
  }

  lemma ReachableInv(c: Conn)
    requires Reachable(c)
    ensures Inv(c)
  {
    hide Inv;
    var es :| Runs.Leads(Step, Accepted(), es, c);
    InitialKept();
    forall d, e | Inv(d) && Step.requires(d, e) ensures Inv(Step(d, e)) {
      StepKeeps(d, e);
    }
    Runs.Kept(Step, Inv, Accepted(), es, c);
  }

  lemma ReachableStep(c: Conn, e: Event, d: Conn)
    requires Reachable(c) && Enabled(c, e) && Step(c, e) == d
    ensures Reachable(d)
  {
    hide Enabled;
    var es :| Runs.Leads(Step, Accepted(), es, c);
    Runs.OneMore(Step, Accepted(), es, c, e);
  }

  lemma ReachableStart()
    ensures Reachable(Accepted())
  {
    assert Runs.Leads(Step, Accepted(), [], Accepted());
  }

  /** The two asserts of the read callback: the connection is there, and has had no end of file. */
  lemma ReadAssertsHold(c: Conn)
    requires Reachable(c) && c.reading
    ensures !c.destroyed && c.state != CLOSED && c.state != CLOSE_WAIT
  {
    ReachableInv(c);
  }

  /** The half-close graph: by way of FIN_WAIT or of CLOSE_WAIT, and never back. */
  lemma StateMoves(c: Conn, e: Event)
    requires Reachable(c) && Enabled(c, e)
    ensures var d := Step(c, e);
            || d.state == c.state
            || (c.state == CONNECTED && d.state == FIN_WAIT && e.CallShutdown?)
            || (c.state == CONNECTED && d.state == CLOSE_WAIT && e.Eof?)
            || (c.state == FIN_WAIT && d.state == CLOSED && e.Eof?)
            || (c.state == CLOSE_WAIT && d.state == CLOSED && d.destroyed && !c.destroyed)
  {
    ReachableInv(c);
    StateStep(c, e);
  }

  /** Destruction aside, each event's effect on the state. */
  lemma StateStep(c: Conn, e: Event)
    requires Inv(c) && Enabled(c, e)
    ensures var d := Step(c, e);
            if d.destroyed && !c.destroyed then
              d.state == CLOSED && (c.state == CLOSED || c.state == CLOSE_WAIT)
            else
              d.state == if e.Eof? then (if c.state == CONNECTED then CLOSE_WAIT else CLOSED)
                         else if e.CallShutdown? && c.state == CONNECTED then FIN_WAIT
                         else c.state
  {
    hide Counts, Perform, WritesHeld, WriteAfterClose;
    match e
    case RunPosted(call) => PerformKeepsState(c.(posted := c.posted - multiset{call}), call, true);
    case Send(id, onLoop) => PerformKeepsState(c.(writes := c.writes + {id}), Write(id), onLoop);
    case CallShutdown(onLoop) => PerformKeepsState(c.(state := FIN_WAIT), Shutdown(false), onLoop);
    case ShutdownDone(t) => PerformKeepsState(c.(ending := c.ending - multiset{t}), Close, true);
    case DropRef(onLoop) => SettleState(c.(users := c.users - 1), onLoop);
    case WriteDone(id, keep) =>
      SettleState(Kept(c, keep).(writes := c.writes - {id}, issued := c.issued - {id}), true);
    case Unmap => SettleState(c.(inMap := false), true);
    case _ =>
  }

  lemma PerformKeepsState(c: Conn, call: Call, onLoop: bool)
    ensures Perform(c, call).state == c.state && InLoop(c, call, onLoop).state == c.state
    ensures Perform(c, call).destroyed == c.destroyed && InLoop(c, call, onLoop).destroyed == c.destroyed
  {
  }

  lemma SettleState(c: Conn, onLoop: bool)
    ensures var d := Settle(c, onLoop);
            if !c.destroyed && !Referenced(c) then d.state == CLOSED && d.destroyed else d == c
  {
  }

  /** Destroyed and with its callbacks run: shut down once and closed once, whoever closed first. */
  lemma EndedOnceEach(c: Conn)
    requires Reachable(c) && c.destroyed && c.posted == multiset{} && c.ending == multiset{}
    ensures multiset(c.log)[Close] == 1
    ensures multiset(c.log)[Shutdown(false)] + multiset(c.log)[Shutdown(true)] == 1
  {
    ReachableInv(c);
  }

  /** A closed handle has no write outstanding, no reference, no entry in the map. */
  lemma ClosedMeansUnused(c: Conn)
    requires Reachable(c) && Close in c.log
    ensures c.writes == {} && c.issued == {} && !c.inMap && c.users == 0 && !c.reading
    ensures !WriteAfterClose(c.log) && forall id :: Write(id) !in c.posted
  {
    ReachableInv(c);
    InLog(c.log, Close);
  }

  /** Whatever still waits, a destroyed connection's handle is bound to be closed. */
  lemma EndsAreFinite(c: Conn, e: Event)
    requires Reachable(c) && c.destroyed && Enabled(c, e)
    ensures Step(c, e).destroyed
    ensures 2 * |Step(c, e).posted| + |Step(c, e).ending| < 2 * |c.posted| + |c.ending|
  {
    ReachableInv(c);
    match e
    case RunPosted(call) =>
      assert |c.posted - multiset{call}| == |c.posted| - 1;
    case ShutdownDone(thenClose) =>
      assert |c.ending - multiset{thenClose}| == |c.ending| - 1;
    case _ =>
  }

  // ---------- after the peer's end of file ----------

  /**
    What a call of shutdown() comes to: afterwards the one shutdown of the connection has been
    made or posted, unless the peer has closed its end first; then there is none.
   */
  lemma ShutdownTakesEffect(c: Conn, onLoop: bool)
    requires Reachable(c) && Held(c, onLoop)
    ensures Enabled(c, CallShutdown(onLoop))
    ensures Made(Step(c, CallShutdown(onLoop)), Shutdown(false)) == if c.state == CLOSE_WAIT then 0 else 1
  {
    ReachableInv(c);
    StepKeeps(c, CallShutdown(onLoop));
    StateStep(c, CallShutdown(onLoop));
    hide Made, Closes, WritesHeld, WriteAfterClose, Reachable, Step;
  }

  /** A user may hold a connection whose peer has closed its end. */
  lemma HalfClosedHeld()
    ensures exists c :: Reachable(c) && c.state == CLOSE_WAIT && !c.inMap && c.users > 0
  {
    var c0 := Accepted();
    var c1 := c0.(users := 1);
    var c2 := c1.(state := CLOSE_WAIT, reading := false);
    var c3 := c2.(inMap := false);
    assert Step(c0, Callback(true)) == c1 && Step(c1, Eof) == c2 && Step(c2, Unmap) == c3;
    ReachableStart();
    ReachableStep(c0, Callback(true), c1);
    ReachableStep(c1, Eof, c2);
    ReachableStep(c2, Unmap, c3);
  }

  /** In state CLOSE_WAIT until it is destroyed, and never shut down by the user. */
  ghost predicate HalfClosed(c: Conn) {
    && Inv(c)
    && (!c.destroyed ==> c.state == CLOSE_WAIT)
    && Made(c, Shutdown(false)) == 0
  }

  /**
    Calls of shutdown() do nothing to a connection whose peer has closed its end: whatever the
    run, until the connection is destroyed there is nothing on its handle but writes, and the
    one shutdown there will be is the destructor's.
   */
  lemma OnlyDestructionEnds(c: Conn, es: seq<Event>, d: Conn)
    requires Reachable(c) && c.state == CLOSE_WAIT && Runs.Leads(Step, c, es, d)
    ensures !d.destroyed ==> d.state == CLOSE_WAIT && forall call :: call in d.log ==> call.Write?
    ensures d.destroyed ==> Shutdown(false) !in d.log && Shutdown(false) !in d.posted
  {
    ReachableInv(c);
    assert HalfClosed(c);
    forall a, e | HalfClosed(a) && Step.requires(a, e) ensures HalfClosed(Step(a, e)) {
      HalfClosedStep(a, e);
    }
    Runs.Kept(Step, HalfClosed, c, es, d);
    InLog(d.log, Shutdown(false));
    InLog(d.log, Shutdown(true));
    InLog(d.log, Close);
  }

  lemma HalfClosedStep(c: Conn, e: Event)
    requires HalfClosed(c) && Enabled(c, e)
    ensures HalfClosed(Step(c, e))
  {
    StepKeeps(c, e);
    StateStep(c, e);
    NoneMade(c, e);
  }

  /** Of a call of shutdown() made or posted there is a trace before, or the state is CONNECTED. */
  lemma NoneMade(c: Conn, e: Event)
    requires Inv(c) && Enabled(c, e) && c.state != CONNECTED && Made(c, Shutdown(false)) == 0
    ensures Made(Step(c, e), Shutdown(false)) == 0
  {
    hide Made, Closes, Counts, WritesHeld, WriteAfterClose;
    match e
    case RunPosted(call) => RunPostedCounts(c, call, Shutdown(false));
    case Send(id, onLoop) =>
      SameCounts(c, c.(writes := c.writes + {id}));
      InLoopCounts(c.(writes := c.writes + {id}), Write(id), onLoop, Shutdown(false));
    case DropRef(onLoop) => SettleMakes(c, c.(users := c.users - 1), onLoop);
    case WriteDone(id, keep) =>
      SettleMakes(c, Kept(c, keep).(writes := c.writes - {id}, issued := c.issued - {id}), true);
    case Unmap => SettleMakes(c, c.(inMap := false), true);
    case ShutdownDone(t) =>
      var d := c.(ending := c.ending - multiset{t});
      MadeSame(c, d);
      InLoopCounts(d, Close, true, Shutdown(false));
    case _ => SameCounts(c, Step(c, e));
  }

  lemma MadeSame(c: Conn, d: Conn)
    requires c.posted == d.posted && c.log == d.log
    ensures forall call :: Made(c, call) == Made(d, call)
  {
  }

  lemma SettleMakes(c: Conn, d: Conn, onLoop: bool)
    requires c.posted == d.posted && c.log == d.log
    ensures Made(Settle(d, onLoop), Shutdown(false)) == Made(c, Shutdown(false))
  {
    hide Made;
    MadeSame(c, d);
    var g := d.(state := CLOSED, destroyed := true);
    MadeSame(d, g);
    InLoopCounts(g, Shutdown(true), onLoop, Shutdown(false));
    InLoopCounts(g, Close, onLoop, Shutdown(false));
  }

  // ---------- a shutdown after the close ----------

  /** This event closes the handle while a posted shutdown still waits for the loop. */
  predicate Overtakes(c: Conn, e: Event) {
    && Enabled(c, e) && Close !in c.log && Close in Step(c, e).log
    && Shutdown(false) in c.posted
  }

  /** A shutdown has been made after the close, or is bound to be. */
  predicate Doomed(c: Conn) {
    ShutdownAfterClose(c.log) || (Close in c.log && Shutdown(false) in c.posted)
  }

  /** What a call on the handle adds to the log, and whether it was posted before. */
  lemma PerformDooms(c: Conn, call: Call)
    requires Close in c.log ==> call == Shutdown(false)
    ensures var d := Perform(c, call);
            && (Close in d.log <==> Close in c.log || call == Close)
            && (ShutdownAfterClose(d.log) <==> ShutdownAfterClose(c.log) || Close in c.log)
            && d.posted == c.posted
  {
    LogGrows(c.log, call);
    NoneAfterNone(c.log);
  }

  lemma NoneAfterNone(log: seq<Call>)
    ensures ShutdownAfterClose(log) ==> Close in log
  {
  }

  lemma InLoopDooms(c: Conn, call: Call, onLoop: bool)
    requires Close !in c.log && call != Shutdown(false)
    ensures var d := InLoop(c, call, onLoop);
            && !ShutdownAfterClose(d.log) && !ShutdownAfterClose(c.log)
            && (Shutdown(false) in d.posted <==> Shutdown(false) in c.posted)
  {
    hide ShutdownAfterClose;
    NoneAfterNone(c.log);
    PerformDooms(c, call);
  }

  lemma SettleDooms(c: Conn, onLoop: bool)
    requires !c.destroyed ==> Close !in c.log
    ensures var d := Settle(c, onLoop);
            Doomed(d) <==> Doomed(c) || (Close !in c.log && Close in d.log && Shutdown(false) in c.posted)
  {
    hide ShutdownAfterClose;
    if !c.destroyed && !Referenced(c) {
      var d := c.(state := CLOSED, destroyed := true);
      InLoopDooms(d, if c.state == CLOSE_WAIT then Shutdown(true) else Close, onLoop);
    }
  }

  lemma StepDooms(c: Conn, e: Event)
    requires Inv(c) && Enabled(c, e)
    ensures Doomed(Step(c, e)) <==> Doomed(c) || Overtakes(c, e)
  {
    if !c.destroyed {
      NotClosedYet(c);
    }
    match e
    case RunPosted(call) => RunPostedDooms(c, call);
    case Send(id, onLoop) =>
      hide ShutdownAfterClose;
      InLoopDooms(c.(writes := c.writes + {id}), Write(id), onLoop);
    case CallShutdown(onLoop) =>
      hide ShutdownAfterClose;
      NoneAfterNone(c.log);
      PerformDooms(c.(state := FIN_WAIT), Shutdown(false));
    case ShutdownDone(t) => ShutdownDoneDooms(c, t);
    case DropRef(onLoop) => SettleDooms(c.(users := c.users - 1), onLoop);
    case WriteDone(id, keep) =>
      SettleDooms(Kept(c, keep).(writes := c.writes - {id}, issued := c.issued - {id}), true);
    case Unmap => SettleDooms(c.(inMap := false), true);
    case _ =>
  }

  lemma RunPostedDooms(c: Conn, call: Call)
    requires Inv(c) && call in c.posted
    ensures Doomed(Step(c, RunPosted(call))) <==> Doomed(c) || Overtakes(c, RunPosted(call))
  {
    OpenWhile(c, call);
    ClosedAtMostOnce(c, call);
    hide ShutdownAfterClose, Inv, Made, Closes;
    NoneAfterNone(c.log);
    PerformDooms(c.(posted := c.posted - multiset{call}), call);
  }

  lemma ClosedAtMostOnce(c: Conn, call: Call)
    requires Inv(c) && call in c.posted
    ensures Close in c.log ==> call == Shutdown(false)
    ensures call == Shutdown(false) ==> c.posted[call] == 1
  {
    OpenWhile(c, call);
    InLog(c.log, Close);
  }

  lemma ShutdownDoneDooms(c: Conn, thenClose: bool)
    requires Inv(c) && thenClose in c.ending
    ensures Doomed(Step(c, ShutdownDone(thenClose))) <==> Doomed(c) || Overtakes(c, ShutdownDone(thenClose))
  {
    InLog(c.log, Close);
    hide ShutdownAfterClose;
    if thenClose {
      NoneAfterNone(c.log);
      PerformDooms(c.(ending := c.ending - multiset{thenClose}), Close);
    }
  }

  /** Some event of the run from `c` closes the handle before a shutdown that waits. */
  ghost predicate Overtaken(c: Conn, es: seq<Event>) {
    exists i, d :: 0 <= i < |es| && Runs.Leads(Step, c, es[..i], d) && Overtakes(d, es[i])
  }

  lemma OvertakenStep(c: Conn, es: seq<Event>)
    requires es != [] && Enabled(c, es[0])
    ensures Overtaken(c, es) <==> Overtakes(c, es[0]) || Overtaken(Step(c, es[0]), es[1..])
  {
    hide Overtakes, Enabled;
    var e, rest := es[0], es[1..];
    assert es[..0] == [] && Runs.Leads(Step, c, es[..0], c);
    forall i | 0 < i < |es| ensures es[..i][0] == e && es[..i][1..] == rest[..i - 1] && es[i] == rest[i - 1] {
    }
    if Overtaken(c, es) {
      var i, d :| 0 <= i < |es| && Runs.Leads(Step, c, es[..i], d) && Overtakes(d, es[i]);
      if i > 0 {
        assert Runs.Leads(Step, Step(c, e), rest[..i - 1], d);
      }
    }
    if Overtaken(Step(c, e), rest) {
      var i, d :| 0 <= i < |rest| && Runs.Leads(Step, Step(c, e), rest[..i], d) && Overtakes(d, rest[i]);
      assert Runs.Leads(Step, c, es[..i + 1], d) && Overtakes(d, es[i + 1]);
    }
  }

  lemma {:induction false} DoomedIff(c: Conn, es: seq<Event>, d: Conn)
    requires Runs.Leads(Step, c, es, d) && Inv(c)
    ensures Doomed(d) <==> Doomed(c) || Overtaken(c, es)
    decreases |es|
  {
    if es != [] {
      hide Inv, Doomed, Enabled, Overtakes, Overtaken;
      OvertakenStep(c, es);
      StepKeeps(c, es[0]);
      StepDooms(c, es[0]);
      DoomedIff(Step(c, es[0]), es[1..], d);
    }
  }

  /**
    When all that was posted has run, a shutdown has been made after the close if and only if
    the handle was closed while a posted shutdown was waiting.
   */
  lemma ShutdownAfterCloseIff(es: seq<Event>, d: Conn)
    requires Runs.Leads(Step, Accepted(), es, d) && d.posted == multiset{}
    ensures ShutdownAfterClose(d.log) <==> Overtaken(Accepted(), es)
  {
    InitialKept();
    DoomedIff(Accepted(), es, d);
  }

  /** The caller's side: somebody keeps a reference as long as the shutdown waits for the loop. */
  ghost predicate KeptWhileWaiting(es: seq<Event>) {
    forall i, c :: 0 <= i <= |es| && Runs.Leads(Step, Accepted(), es[..i], c) && Shutdown(false) in c.posted
      ==> c.users > 0
  }

  /** Then no shutdown follows the close. */
  lemma KeptMeansInTime(es: seq<Event>, d: Conn)
    requires Runs.Leads(Step, Accepted(), es, d) && KeptWhileWaiting(es)
    ensures !ShutdownAfterClose(d.log)
  {
    InitialKept();
    DoomedIff(Accepted(), es, d);
    hide Overtakes, KeptWhileWaiting, Step, Inv, ShutdownAfterClose;
    forall i, c | 0 <= i < |es| && Runs.Leads(Step, Accepted(), es[..i], c) ensures !Overtakes(c, es[i]) {
      KeptNotOvertaken(es, i, c);
    }
  }

  lemma KeptNotOvertaken(es: seq<Event>, i: nat, c: Conn)
    requires i < |es| && Runs.Leads(Step, Accepted(), es[..i], c) && KeptWhileWaiting(es)
    ensures !Overtakes(c, es[i])
  {
    hide Step, Enabled, Accepted, Runs.Leads;
    assert es[..i] + [es[i]] == es[..i + 1];
    if Enabled(c, es[i]) {
      assert Reachable(c);
      Runs.OneMore(Step, Accepted(), es[..i], c, es[i]);
      StillWaits(c, es[i]);
    }
  }

  /** The event that closes the handle leaves a waiting shutdown where it is, and nobody holds a reference. */
  lemma StillWaits(c: Conn, e: Event)
    requires Reachable(c) && Enabled(c, e)
    ensures Overtakes(c, e) ==> Shutdown(false) in Step(c, e).posted && Step(c, e).users == 0
  {
    hide Step, Inv, ShutdownAfterClose;
    ReachableInv(c);
    StepDooms(c, e);
    StepLogs(c, e);
    NoneYet(c.log, Step(c, e).log);
    ReachableStep(c, e, Step(c, e));
    if Close in Step(c, e).log {
      ClosedMeansUnused(Step(c, e));
    }
  }

  /** An event adds at most one call to the log. */
  lemma StepLogs(c: Conn, e: Event)
    requires Enabled(c, e)
    ensures Grows(c.log, Step(c, e).log)
  {
    hide Grows, InLoop, Perform, Settle;
    GrowsByOne(c.log);
    match e
    case DropRef(onLoop) => SettleLogs(c.(users := c.users - 1), onLoop);
    case CallShutdown(onLoop) => InLoopLogs(c.(state := FIN_WAIT), Shutdown(false), onLoop);
    case Send(id, onLoop) => InLoopLogs(c.(writes := c.writes + {id}), Write(id), onLoop);
    case Unmap => SettleLogs(c.(inMap := false), true);
    case RunPosted(call) => InLoopLogs(c.(posted := c.posted - multiset{call}), call, true);
    case WriteDone(id, keep) =>
      SettleLogs(Kept(c, keep).(writes := c.writes - {id}, issued := c.issued - {id}), true);
    case ShutdownDone(t) => InLoopLogs(c.(ending := c.ending - multiset{t}), Close, true);
    case _ =>
  }

  predicate Grows(log: seq<Call>, more: seq<Call>) {
    log <= more && |more| <= |log| + 1
  }

  lemma GrowsByOne(log: seq<Call>)
    ensures Grows(log, log) && forall call :: Grows(log, log + [call])
  {
  }

  lemma InLoopLogs(c: Conn, call: Call, onLoop: bool)
    ensures Grows(c.log, InLoop(c, call, onLoop).log)
    ensures InLoop(c, call, true) == Perform(c, call)
  {
  }

  lemma SettleLogs(c: Conn, onLoop: bool)
    ensures Grows(c.log, Settle(c, onLoop).log)
  {
    hide Grows, InLoop;
    GrowsByOne(c.log);
    var d := c.(state := CLOSED, destroyed := true);
    InLoopLogs(d, Shutdown(true), onLoop);
    InLoopLogs(d, Close, onLoop);
  }

  lemma NoneYet(log: seq<Call>, more: seq<Call>)
    requires Grows(log, more)
    ensures Close !in log ==> !ShutdownAfterClose(more)
  {
    forall i | 0 <= i < |log| ensures more[i] == log[i] {
    }
  }

  predicate AllOnLoop(es: seq<Event>) {
    forall i :: 0 <= i < |es| && es[i].CallShutdown? ==> es[i].onLoop
  }

  /** In particular it is not in a run that calls shutdown() only on the loop's thread. */
  lemma NeverOvertakenOnLoop(es: seq<Event>, d: Conn)
    requires Runs.Leads(Step, Accepted(), es, d) && AllOnLoop(es)
    ensures !ShutdownAfterClose(d.log)
  {
    InitialKept();
    NoneWaits(Accepted(), es, d);
  }

  lemma {:induction false} NoneWaits(c: Conn, es: seq<Event>, d: Conn)
    requires Runs.Leads(Step, c, es, d) && AllOnLoop(es) && Inv(c)
    requires Shutdown(false) !in c.posted && !Doomed(c)
    ensures !Doomed(d)
    decreases |es|
  {
    if es != [] {
      hide Inv, Doomed;
      StepKeeps(c, es[0]);
      StepDooms(c, es[0]);
      NonePosted(c, es[0]);
      NoneWaits(Step(c, es[0]), es[1..], d);
    }
  }

  lemma NonePosted(c: Conn, e: Event)
    requires Enabled(c, e) && (e.CallShutdown? ==> e.onLoop) && Shutdown(false) !in c.posted
    ensures Shutdown(false) !in Step(c, e).posted
  {
    hide InLoop, Perform, Settle;
    match e
    case DropRef(onLoop) => SettlePosts(c.(users := c.users - 1), onLoop);
    case CallShutdown(_) => InLoopPosts(c.(state := FIN_WAIT), Shutdown(false), true);
    case Send(id, onLoop) => InLoopPosts(c.(writes := c.writes + {id}), Write(id), onLoop);
    case Unmap => SettlePosts(c.(inMap := false), true);
    case RunPosted(call) => InLoopPosts(c.(posted := c.posted - multiset{call}), call, true);
    case WriteDone(id, keep) =>
      SettlePosts(Kept(c, keep).(writes := c.writes - {id}, issued := c.issued - {id}), true);
    case ShutdownDone(t) => InLoopPosts(c.(ending := c.ending - multiset{t}), Close, true);
    case _ =>
  }

  lemma InLoopPosts(c: Conn, call: Call, onLoop: bool)
    requires Shutdown(false) !in c.posted && (call == Shutdown(false) ==> onLoop)
    ensures Shutdown(false) !in InLoop(c, call, onLoop).posted
    ensures InLoop(c, call, true) == Perform(c, call)
  {
  }

  lemma SettlePosts(c: Conn, onLoop: bool)
    requires Shutdown(false) !in c.posted
    ensures Shutdown(false) !in Settle(c, onLoop).posted
  {
  }

  /** The user's thread holds the connection, calls shutdown() and lets go; the end of file comes first. */
  const OVERTAKING: seq<Event> :=
    [Callback(true), CallShutdown(false), DropRef(false), Eof, Unmap, RunPosted(Shutdown(false))]

  /** The state the end of file finds. */
  function Leaving(): Conn {
    Accepted().(state := FIN_WAIT, posted := multiset{Shutdown(false)})
  }

  lemma OvertakingLength()
    ensures |OVERTAKING| == 6 && OVERTAKING[0..] == OVERTAKING
  {
  }

  lemma UserLetsGo() returns (c1: Conn, c2: Conn)
    ensures Enabled(Accepted(), OVERTAKING[0]) && Step(Accepted(), OVERTAKING[0]) == c1
    ensures Enabled(c1, OVERTAKING[1]) && Step(c1, OVERTAKING[1]) == c2
    ensures Enabled(c2, OVERTAKING[2]) && Step(c2, OVERTAKING[2]) == Leaving()
  {
    c1 := Accepted().(users := 1);
    c2 := Leaving().(users := 1);
  }

  lemma EndOfFileFirst() returns (c4: Conn, c5: Conn, c6: Conn)
    ensures Enabled(Leaving(), OVERTAKING[3]) && Step(Leaving(), OVERTAKING[3]) == c4
    ensures Enabled(c4, OVERTAKING[4]) && Step(c4, OVERTAKING[4]) == c5
    ensures Enabled(c5, OVERTAKING[5]) && Step(c5, OVERTAKING[5]) == c6
    ensures c6.log == [Close, Shutdown(false)] && c6.posted == multiset{}
  {
    c4 := Leaving().(state := CLOSED, reading := false);
    c5 := c4.(inMap := false, destroyed := true, log := [Close]);
    c6 := c5.(posted := multiset{}, ending := multiset{false}, log := [Close, Shutdown(false)]);
  }

  /** With calls from another thread it can happen. */
  lemma ShutdownOvertaken()
    ensures exists c: Conn :: Runs.Leads(Step, Accepted(), OVERTAKING, c) &&
              c.log == [Close, Shutdown(false)] && c.posted == multiset{}
  {
    hide *;
    var es := OVERTAKING;
    OvertakingLength();
    var c1, c2 := UserLetsGo();
    var c4, c5, c6 := EndOfFileFirst();
    LeadsFrom(c5, es, 5, c6, c6);
    LeadsFrom(c4, es, 4, c5, c6);
    LeadsFrom(Leaving(), es, 3, c4, c6);
    LeadsFrom(c2, es, 2, Leaving(), c6);
    LeadsFrom(c1, es, 1, c2, c6);
    LeadsFrom(Accepted(), es, 0, c1, c6);
  }

  lemma LeadsFrom(c: Conn, es: seq<Event>, k: nat, next: Conn, d: Conn)
    requires k < |es| && Enabled(c, es[k]) && Step(c, es[k]) == next
    requires if k + 1 == |es| then next == d else Runs.Leads(Step, next, es[k + 1..], d)
    ensures Runs.Leads(Step, c, es[k..], d)
  {
    assert es[k..][1..] == es[k + 1..];
  }
}
