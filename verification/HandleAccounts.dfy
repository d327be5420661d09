/**
  What a run of events on one connection adds up to: references, writes and their callbacks,
  and which calls on the handle are made on which thread.
 */
module HandleAccounts {
  import opened Lifecycle
  import Runs

  // ---------- counted off a run ----------

  /** References that events hand to the user, less those given back. */
  function Handed(es: seq<Event>): int {
    if es == [] then 0 else Handed(es[..|es| - 1]) + Gain(es[|es| - 1])
  }

  function Gain(e: Event): int {
    match e
    case Callback(keep) => if keep then 1 else 0
    case WriteDone(_, keep) => if keep then 1 else 0
    case CopyRef => 1
    case DropRef(_) => -1
    case _ => 0
  }

  function One(b: bool): nat {
    if b then 1 else 0
  }

  function Sent(es: seq<Event>, id: nat): nat {
    if es == [] then 0 else Sent(es[..|es| - 1], id) + One(IsSend(es[|es| - 1], id))
  }

  /** How often the callback of write `id` has run. */
  function Written(es: seq<Event>, id: nat): nat {
    if es == [] then 0 else Written(es[..|es| - 1], id) + One(IsWriteDone(es[|es| - 1], id))
  }

  function ShutDown(es: seq<Event>, thenClose: bool): nat {
    if es == [] then 0
    else ShutDown(es[..|es| - 1], thenClose) + One(es[|es| - 1] == ShutdownDone(thenClose))
  }

  function Unmapped(es: seq<Event>): nat {
    if es == [] then 0 else Unmapped(es[..|es| - 1]) + One(es[|es| - 1].Unmap?)
  }

  predicate IsSend(e: Event, id: nat) {
    e.Send? && e.id == id
  }

  predicate IsWriteDone(e: Event, id: nat) {
    e.WriteDone? && e.id == id
  }

  // ---------- the same, told from the state ----------

  /** How many callbacks of write `id` the handle has seen through. */
  function Through(c: Conn, id: nat): int {
    multiset(c.log)[Write(id)] - One(id in c.issued)
  }

  function ShutThrough(c: Conn, thenClose: bool): int {
    multiset(c.log)[Shutdown(thenClose)] as int - c.ending[thenClose] as int
  }

  /** The state is what the run adds up to, for one write and one kind of shutdown. */
  ghost predicate Balanced(es: seq<Event>, c: Conn, id: nat, t: bool) {
    && c.users == Handed(es) && One(!c.inMap) == Unmapped(es)
    && Made(c, Write(id)) == Sent(es, id)
    && Written(es, id) == Through(c, id) && Written(es, id) + One(id in c.writes) == Sent(es, id)
    && ShutDown(es, t) == ShutThrough(c, t)
  }

  /** What the event `e` alone changes from `c` to `d`. */
  ghost predicate Entered(c: Conn, e: Event, d: Conn, id: nat, t: bool) {
    && d.users == c.users + Gain(e) && One(!d.inMap) == One(!c.inMap) + One(e.Unmap?)
    && Made(d, Write(id)) == Made(c, Write(id)) + One(IsSend(e, id))
    && One(id in d.writes) == One(id in c.writes) + One(IsSend(e, id)) - One(IsWriteDone(e, id))
    && Through(d, id) == Through(c, id) + One(IsWriteDone(e, id))
    && ShutThrough(d, t) == ShutThrough(c, t) + One(e == ShutdownDone(t))
  }

  // ---------- each step ----------

  /** References are as before. */
  predicate SameHolders(c: Conn, d: Conn) {
    d.users == c.users && d.inMap == c.inMap && d.writes == c.writes
  }

  ghost predicate SameBooks(c: Conn, d: Conn, id: nat, t: bool) {
    && Made(d, Write(id)) == Made(c, Write(id)) && Through(d, id) == Through(c, id)
    && ShutThrough(d, t) == ShutThrough(c, t)
  }

  /** A call made or posted is itself accounted for, and changes nothing else. */
  lemma InLoopBooks(c: Conn, call: Call, onLoop: bool, id: nat, t: bool)
    requires call.Write? ==> call.id !in c.issued
    ensures var d := InLoop(c, call, onLoop);
            && SameHolders(c, d) && Through(d, id) == Through(c, id) && ShutThrough(d, t) == ShutThrough(c, t)
            && Made(d, Write(id)) == Made(c, Write(id)) + (if call == Write(id) then 1 else 0)
    ensures InLoop(c, call, true) == Perform(c, call)
  {
    LogGrows(c.log, call);
  }

  lemma SettleBooks(c: Conn, onLoop: bool, id: nat, t: bool)
    ensures SameHolders(c, Settle(c, onLoop)) && SameBooks(c, Settle(c, onLoop), id, t)
  {
    hide *;
    var d := SettleIs(c, onLoop);
    BooksAre(c, d, id, t);
    InLoopBooks(d, Shutdown(true), onLoop, id, t);
    InLoopBooks(d, Close, onLoop, id, t);
    SameBoth(c, d, InLoop(d, Shutdown(true), onLoop), id, t);
    SameBoth(c, d, InLoop(d, Close, onLoop), id, t);
    SameBoth(c, c, c, id, t);
  }

  lemma SettleIs(c: Conn, onLoop: bool) returns (d: Conn)
    ensures c.posted == d.posted && c.log == d.log && c.issued == d.issued && c.ending == d.ending
    ensures SameHolders(c, d)
    ensures var e := Settle(c, onLoop);
            e == c || e == InLoop(d, Shutdown(true), onLoop) || e == InLoop(d, Close, onLoop)
  {
    d := c.(state := CLOSED, destroyed := true);
  }

  lemma SameBoth(c: Conn, d: Conn, e: Conn, id: nat, t: bool)
    requires SameHolders(c, d) && SameHolders(d, e)
    requires Made(c, Write(id)) == Made(d, Write(id)) == Made(e, Write(id))
    requires Through(c, id) == Through(d, id) == Through(e, id)
    requires ShutThrough(c, t) == ShutThrough(d, t) == ShutThrough(e, t)
    ensures SameHolders(c, e) && SameBooks(c, e, id, t)
  {
  }

  lemma BooksAre(c: Conn, d: Conn, id: nat, t: bool)
    requires c.posted == d.posted && c.log == d.log
    ensures Made(d, Write(id)) == Made(c, Write(id))
    ensures Through(d, id) == Through(c, id) + One(id in c.issued) - One(id in d.issued)
    ensures ShutThrough(d, t) == ShutThrough(c, t) + c.ending[t] - d.ending[t]
  {
  }

  lemma StepEntered(c: Conn, e: Event, id: nat, t: bool)
    requires WritesHeld(c) && Enabled(c, e)
    ensures Entered(c, e, Step(c, e), id, t)
  {
    EnabledParts(c, e);
    hide *;
    match e
    case Send(w, onLoop) => SendBooks(c, w, onLoop, id, t);
    case CallShutdown(onLoop) => CallShutdownBooks(c, onLoop, id, t);
    case DropRef(onLoop) => DropRefBooks(c, onLoop, id, t);
    case Unmap => UnmapBooks(c, id, t);
    case RunPosted(call) => RunPostedBooks(c, call, id, t);
    case WriteDone(w, keep) => WriteDoneBooks(c, w, keep, id, t);
    case ShutdownDone(closing) => ShutdownDoneBooks(c, closing, id, t);
    case _ => QuietBooks(c, e, id, t);
  }

  lemma EnabledParts(c: Conn, e: Event)
    requires WritesHeld(c) && Enabled(c, e)
    ensures e.Send? ==> e.id !in c.writes
    ensures e.RunPosted? ==> e.call in c.posted
    ensures e.WriteDone? ==> e.id in c.issued && e.id in c.writes
  {
  }

  lemma QuietBooks(c: Conn, e: Event, id: nat, t: bool)
    requires Enabled(c, e) && (e.Callback? || e.CopyRef? || e.Eof?)
    ensures Entered(c, e, Step(c, e), id, t)
  {
    hide Made, Through, ShutThrough;
    BooksAre(c, Step(c, e), id, t);
  }

  lemma CallShutdownBooks(c: Conn, onLoop: bool, id: nat, t: bool)
    requires Enabled(c, CallShutdown(onLoop))
    ensures Entered(c, CallShutdown(onLoop), Step(c, CallShutdown(onLoop)), id, t)
  {
    hide InLoop, Made, Through, ShutThrough;
    var d := c.(state := FIN_WAIT);
    BooksAre(c, d, id, t);
    InLoopBooks(d, Shutdown(false), onLoop, id, t);
  }

  lemma DropRefBooks(c: Conn, onLoop: bool, id: nat, t: bool)
    requires Enabled(c, DropRef(onLoop))
    ensures Entered(c, DropRef(onLoop), Step(c, DropRef(onLoop)), id, t)
  {
    hide Settle, Made, Through, ShutThrough;
    var d := c.(users := c.users - 1);
    BooksAre(c, d, id, t);
    SettleBooks(d, onLoop, id, t);
  }

  lemma UnmapBooks(c: Conn, id: nat, t: bool)
    requires Enabled(c, Unmap)
    ensures Entered(c, Unmap, Step(c, Unmap), id, t)
  {
    hide Settle, Made, Through, ShutThrough;
    var d := c.(inMap := false);
    BooksAre(c, d, id, t);
    SettleBooks(d, true, id, t);
  }

  lemma RunPostedBooks(c: Conn, call: Call, id: nat, t: bool)
    requires WritesHeld(c) && call in c.posted
    ensures Entered(c, RunPosted(call), Step(c, RunPosted(call)), id, t)
  {
    hide Made, Through, ShutThrough, InLoop, Perform, WritesHeld;
    var p := c.(posted := c.posted - multiset{call});
    Unposted(c, p, call, id, t);
    InLoopBooks(p, call, true, id, t);
  }

  lemma Unposted(c: Conn, p: Conn, call: Call, id: nat, t: bool)
    requires WritesHeld(c) && call in c.posted && p == c.(posted := c.posted - multiset{call})
    ensures Made(p, Write(id)) == Made(c, Write(id)) - if call == Write(id) then 1 else 0
    ensures Through(p, id) == Through(c, id) && ShutThrough(p, t) == ShutThrough(c, t)
    ensures call.Write? ==> call.id !in c.issued
  {
    assert call.Write? ==> Write(call.id) in c.posted;
  }

  lemma SendBooks(c: Conn, w: nat, onLoop: bool, id: nat, t: bool)
    requires WritesHeld(c) && Enabled(c, Send(w, onLoop))
    ensures Entered(c, Send(w, onLoop), Step(c, Send(w, onLoop)), id, t)
  {
    hide InLoop, Made, Through, ShutThrough;
    var d := c.(writes := c.writes + {w});
    BooksAre(c, d, id, t);
    InLoopBooks(d, Write(w), onLoop, id, t);
  }

  lemma WriteDoneBooks(c: Conn, w: nat, keep: bool, id: nat, t: bool)
    requires w in c.issued && w in c.writes
    ensures Entered(c, WriteDone(w, keep), Step(c, WriteDone(w, keep)), id, t)
  {
    hide Settle, Made, Through, ShutThrough;
    var d := Kept(c, keep).(writes := c.writes - {w}, issued := c.issued - {w});
    BooksAre(c, d, id, t);
    SettleBooks(d, true, id, t);
    assert Step(c, WriteDone(w, keep)) == Settle(d, true);
  }

  lemma ShutdownDoneBooks(c: Conn, closing: bool, id: nat, t: bool)
    requires closing in c.ending
    ensures Entered(c, ShutdownDone(closing), Step(c, ShutdownDone(closing)), id, t)
  {
    hide InLoop, Perform, Made, Through, ShutThrough;
    var d := c.(ending := c.ending - multiset{closing});
    BooksAre(c, d, id, t);
    InLoopBooks(d, Close, true, id, t);
  }

  // ---------- whole runs ----------

  /**
    Over every run: the user holds the references handed out and not given back, every send is
    one write made or posted, whose context waits for the one callback that frees it, and every
    shutdown made waits for its callback or has had it.
   */
  lemma {:induction false} RunBalances(es: seq<Event>, c: Conn, id: nat, t: bool)
    requires Runs.Leads(Step, Accepted(), es, c)
    ensures Balanced(es, c, id, t)
    decreases |es|
  {
    if es != [] {
      var m := Runs.LastStep(Step, Accepted(), es, c);
      RunBalances(es[..|es| - 1], m, id, t);
      assert Reachable(m);
      ReachableInv(m);
      hide Step, Inv, Made, Through, ShutThrough, Counts, WriteAfterClose, Enabled;
      InvParts(m);
      StepEntered(m, es[|es| - 1], id, t);
    }
  }

  /** A write's context waits for a callback that can still come: it has been issued or will be. */
  lemma WritesAwaited(c: Conn, id: nat)
    requires Reachable(c)
    ensures id in c.writes <==> id in c.issued || Write(id) in c.posted
  {
    hide Enabled, Step, Sent, Written, Handed, Unmapped, ShutDown;
    var es :| Runs.Leads(Step, Accepted(), es, c);
    RunBalances(es, c, id, true);
    assert c.posted[Write(id)] + One(id in c.issued) == One(id in c.writes);
  }

  /** A connection is destroyed once the map, the user and the contexts of all its writes have let go. */
  lemma DestroyedIff(es: seq<Event>, c: Conn)
    requires Runs.Leads(Step, Accepted(), es, c)
    ensures c.destroyed
            <==> Unmapped(es) > 0 && Handed(es) == 0 && forall id: nat :: Sent(es, id) == Written(es, id)
  {
    assert Reachable(c);
    ReachableInv(c);
    DestroyedUnreferenced(c);
    hide *;
    FreedIff(es, c, 0);
    if forall id: nat :: id !in c.writes {
      forall id: nat ensures Sent(es, id) == Written(es, id) {
        FreedIff(es, c, id);
      }
    } else {
      var id: nat :| id in c.writes;
      FreedIff(es, c, id);
    }
  }

  lemma FreedIff(es: seq<Event>, c: Conn, id: nat)
    requires Runs.Leads(Step, Accepted(), es, c)
    ensures Sent(es, id) == Written(es, id) <==> id !in c.writes
    ensures Handed(es) == c.users && (Unmapped(es) > 0 <==> !c.inMap)
  {
    RunBalances(es, c, id, true);
  }

  lemma DestroyedUnreferenced(c: Conn)
    requires Inv(c)
    ensures c.destroyed <==> !c.inMap && c.users == 0 && forall id: nat :: id !in c.writes
  {
    assert c.writes == {} <==> forall id: nat :: id !in c.writes;
  }

  /** Any connection still held can be sent on, whatever its state, and the write is made or posted. */
  lemma SendIssues(c: Conn, id: nat, onLoop: bool)
    requires Reachable(c) && Held(c, onLoop) && id !in c.writes
    ensures Enabled(c, Send(id, onLoop))
    ensures var d := Step(c, Send(id, onLoop));
            && Made(d, Write(id)) == Made(c, Write(id)) + 1
            && d.log == (if onLoop then c.log + [Write(id)] else c.log)
            && (id in d.issued <==> onLoop)
  {
    ReachableInv(c);
    hide Reachable, Counts, WriteAfterClose;
    InLoopBooks(c.(writes := c.writes + {id}), Write(id), onLoop, id, true);
  }

  // ---------- the end ----------

  /** What is still to be done with the connection. */
  function Outstanding(c: Conn): nat {
    One(c.reading) + 2 * (One(c.inMap) + c.users + |c.writes| + |c.posted|) + |c.ending|
  }

  predicate Ended(c: Conn) {
    c.destroyed && c.posted == multiset{} && c.ending == multiset{}
  }

  /** The event brings the end nearer. */
  predicate Nearer(c: Conn, e: Event) {
    Enabled(c, e) && Outstanding(Step(c, e)) < Outstanding(c)
  }

  lemma PerformCosts(c: Conn, call: Call)
    ensures Outstanding(Perform(c, call)) == Outstanding(c) + One(call.Shutdown?)
  {
  }

  lemma SettleCosts(c: Conn)
    ensures Outstanding(Settle(c, true)) <= Outstanding(c) + 1
  {
  }

  lemma RunPostedNearer(c: Conn, call: Call)
    requires call in c.posted
    ensures Nearer(c, RunPosted(call))
  {
    hide Perform;
    assert |c.posted - multiset{call}| == |c.posted| - 1;
    PerformCosts(c.(posted := c.posted - multiset{call}), call);
  }

  lemma ShutdownDoneNearer(c: Conn, t: bool)
    requires t in c.ending
    ensures Nearer(c, ShutdownDone(t))
  {
    hide Perform;
    assert |c.ending - multiset{t}| == |c.ending| - 1;
    PerformCosts(c.(ending := c.ending - multiset{t}), Close);
  }

  lemma ReadNearer(c: Conn)
    ensures c.reading ==> Nearer(c, Eof)
    ensures c.inMap && !c.reading ==> Nearer(c, Unmap)
    ensures c.users > 0 ==> Nearer(c, DropRef(true))
  {
    hide Settle;
    SettleCosts(c.(inMap := false));
    if c.users > 0 {
      SettleCosts(c.(users := c.users - 1));
    }
  }

  lemma WriteDoneNearer(c: Conn, id: nat)
    requires id in c.writes && id in c.issued
    ensures Nearer(c, WriteDone(id, false))
  {
    hide Settle;
    assert |c.writes - {id}| == |c.writes| - 1;
    SettleCosts(c.(writes := c.writes - {id}, issued := c.issued - {id}));
  }

  /** Until the end something is left to be done on the loop's thread. */
  lemma StepToEnd(c: Conn) returns (e: Event)
    requires Reachable(c) && !Ended(c)
    ensures Nearer(c, e)
  {
    WhatIsLeft(c);
    hide *;
    ReadNearer(c);
    if c.posted != multiset{} {
      var call :| call in c.posted;
      e := RunPosted(call);
      RunPostedNearer(c, call);
    } else if true in c.ending || false in c.ending {
      e := ShutdownDone(true in c.ending);
      ShutdownDoneNearer(c, true in c.ending);
    } else if c.reading {
      e := Eof;
    } else if c.inMap {
      e := Unmap;
    } else if c.users > 0 {
      e := DropRef(true);
    } else {
      var id :| id in c.writes;
      e := WriteDone(id, false);
      WriteDoneNearer(c, id);
    }
  }

  lemma WhatIsLeft(c: Conn)
    requires Reachable(c) && !Ended(c)
    ensures c.posted == multiset{} && true !in c.ending && false !in c.ending && !c.inMap && c.users == 0 ==>
              c.writes != {}
    ensures forall id :: id in c.writes ==> id in c.issued || Write(id) in c.posted
  {
    ReachableInv(c);
    hide Reachable, Counts, WriteAfterClose;
    if true !in c.ending && false !in c.ending {
      forall t: bool ensures t !in c.ending {
      }
      assert c.ending == multiset{};
    }
    forall id | id in c.writes ensures id in c.issued || Write(id) in c.posted {
      WritesAwaited(c, id);
    }
  }

  /** From every state there is a run to the connection's end: none is held for ever. */
  lemma {:induction false} EndIsReachable(c: Conn)
    requires Reachable(c)
    ensures exists es, d :: Runs.Leads(Step, c, es, d) && Ended(d)
    decreases Outstanding(c)
  {
    if Ended(c) {
      assert Runs.Leads(Step, c, [], c);
    } else {
      var e := StepToEnd(c);
      ReachableStep(c, e, Step(c, e));
      EndIsReachable(Step(c, e));
      hide Step, Enabled, Ended, Reachable;
      var es, d :| Runs.Leads(Step, Step(c, e), es, d) && Ended(d);
      assert ([e] + es)[1..] == es;
      assert Runs.Leads(Step, c, [e] + es, d);
    }
  }

  // ---------- which thread ----------

  /** Made by a thread other than the loop's. */
  predicate OffLoop(e: Event) {
    match e
    case DropRef(onLoop) => !onLoop
    case CallShutdown(onLoop) => !onLoop
    case Send(_, onLoop) => !onLoop
    case _ => false
  }

  /**
    No other thread touches the handle or its requests; what it wants done it posts.  The loop's
    thread posts nothing, and runs what was posted once.
   */
  lemma OnlyLoopTouchesHandle(c: Conn, e: Event)
    requires Enabled(c, e)
    ensures var d := Step(c, e);
            if OffLoop(e) then
              d.log == c.log && d.issued == c.issued && d.ending == c.ending && c.posted <= d.posted
            else
              d.posted == if e.RunPosted? then c.posted - multiset{e.call} else c.posted
  {
    hide InLoop, Settle;
    match e
    case Send(id, onLoop) => InLoopThread(c.(writes := c.writes + {id}), Write(id), onLoop);
    case CallShutdown(onLoop) => InLoopThread(c.(state := FIN_WAIT), Shutdown(false), onLoop);
    case DropRef(onLoop) => SettleThread(c.(users := c.users - 1), onLoop);
    case Unmap => SettleThread(c.(inMap := false), true);
    case WriteDone(id, keep) =>
      SettleThread(Kept(c, keep).(writes := c.writes - {id}, issued := c.issued - {id}), true);
    case _ =>
  }

  /** What there is on the loop's side, and what other threads have posted to it. */
  ghost predicate OnItsThread(c: Conn, d: Conn, onLoop: bool) {
    if onLoop then d.posted == c.posted
    else d.log == c.log && d.issued == c.issued && d.ending == c.ending && c.posted <= d.posted
  }

  lemma InLoopThread(c: Conn, call: Call, onLoop: bool)
    ensures OnItsThread(c, InLoop(c, call, onLoop), onLoop)
  {
  }

  lemma SettleThread(c: Conn, onLoop: bool)
    ensures OnItsThread(c, Settle(c, onLoop), onLoop)
  {
    hide InLoop;
    var d := c.(state := CLOSED, destroyed := true);
    InLoopThread(d, Shutdown(true), onLoop);
    InLoopThread(d, Close, onLoop);
  }
}
