/**
  One loop thread of a server: its connections, its connection map and its idle wheel.  Every
  method is proved to perform steps of ServerRuns, so that what holds of all its runs holds here.
 */
module TcpServers {
  import Blocks
  import L = Lifecycle
  import Runs
  import S = ServerRuns
  import W = IdleWheel
  import opened TcpConnections

  const ACCEPT_MAX: nat := 10

  /** What accepting and starting to read on one client comes to. */
  datatype AcceptResult =
    | Connected(keep: bool) // the connection callback may keep a reference
    | NotReading
    | Again
    | Failed

  class TcpServer {
    const timeout: int
    const hasMessageCallback: bool
    var connectionId: nat
    var connectionMap: map<nat, TcpConnection>
    var wheel: seq<set<nat>>
    var conns: map<nat, TcpConnection> // where the weak pointers of handles and entries lead
    ghost var view: S.Server           // the state of all this, with the wheel's past

    ghost predicate Mirrored()
      reads this, conns.Values
    {
      && view.nextId == connectionId
      && view.wheel.buckets == wheel
      && Pictured(conns, view.conns)
      && Mapped(connectionMap, conns, view.conns)
    }

    /** The server is in a state that some run of the step system leads to. */
    ghost predicate Valid()
      reads this, conns.Values
    {
      Mirrored() && S.Reachable(view, timeout)
    }

    lemma Consistent()
      requires view.nextId == connectionId && view.wheel.buckets == wheel
      requires Pictured(conns, view.conns) && Mapped(connectionMap, conns, view.conns)
      requires S.Reachable(view, timeout)
      ensures Valid()
    {
    }

    constructor (timeout: int, hasMessageCallback: bool)
      ensures this.timeout == timeout && this.hasMessageCallback == hasMessageCallback
      ensures connectionId == 0 && connectionMap == map[] && conns == map[] && wheel == []
    {
      this.timeout := timeout;
      this.hasMessageCallback := hasMessageCallback;
      connectionId, connectionMap, conns, wheel := 0, map[], map[], [];
      view := S.Start(timeout);
    }

    /** Fills the wheel with its empty buckets; says whether a timer is to turn it. */
    method SetUpWheel() returns (timer: bool)
      requires connectionId == 0 && connectionMap == map[] && conns == map[] && wheel == []
      modifies `wheel, `view
      ensures Valid() && view == S.Start(timeout)
      ensures timer == (timeout > 0)
    {
      timer := false;
      if timeout > 0 {
        var i := 0;
        while i < timeout
          invariant 0 <= i <= timeout
          invariant wheel == W.Empty(i)
        {
          wheel := wheel + [{}];
          i := i + 1;
        }
        timer := true;
      }
      view := S.Start(timeout);
      S.ReachableStart(timeout);
    }

    // ---------- the wheel ----------

    /** One tick: the front bucket goes, and with it the entries no other bucket holds. */
    method CheckConnection() returns (fired: set<nat>)
      requires Valid() && S.Enabled(view, S.Tick)
      modifies `wheel, `view
      ensures Valid() && S.Takes(old(view), S.Tick, view)
      ensures view.wheel.fired == old(view.wheel.fired) + [fired]
    {
      hide *;
      FrontKnown();
      var front, rest := wheel[0], wheel[1..];
      fired := set id | id in front && !W.Alive(rest, id) && !conns[id].destroyed;
      Ticking(fired);
      wheel := rest;
      wheel := wheel + [{}];
      view := S.Step(view, S.Tick);
      Consistent();
    }

    lemma FrontKnown()
      requires Valid() && S.Enabled(view, S.Tick)
      ensures wheel != [] && forall id :: id in wheel[0] ==> id in conns
    {
      EntriesKnown(view, timeout);
    }

    /** What a tick comes to. */
    lemma Ticking(fired: set<nat>)
      requires Valid() && S.Enabled(view, S.Tick)
      requires wheel != [] && forall id :: id in wheel[0] ==> id in conns
      requires fired == set id | id in wheel[0] && !W.Alive(wheel[1..], id) && !conns[id].destroyed
      ensures var d := S.Step(view, S.Tick);
              && S.Takes(view, S.Tick, d) && S.Reachable(d, timeout)
              && d.nextId == connectionId && d.wheel.buckets == wheel[1..] + [{}]
              && d.wheel.fired == view.wheel.fired + [fired]
              && Pictured(conns, d.conns) && Mapped(connectionMap, conns, d.conns)
    {
      EntriesKnown(view, timeout);
      S.ReachableStep(view, timeout, S.Tick);
      hide S.Reachable, W.Alive, S.Step, L.Step, Mapped;
      TickStep(view, fired);
    }

    method UpdateConnection(entry: nat)
      requires wheel != []
      modifies `wheel
      ensures wheel == W.PutBack(old(wheel), entry)
    {
      var back := |wheel| - 1;
      wheel := wheel[back := wheel[back] + {entry}];
    }

    /** The read callback's part: the entry is put in again if it can still be locked. */
    method Touch(entry: nat)
      modifies `wheel
      ensures wheel == if W.Alive(old(wheel), entry) then W.PutBack(old(wheel), entry) else old(wheel)
    {
      if W.Alive(wheel, entry) {
        UpdateConnection(entry);
      }
    }

    // ---------- the connections ----------

    /** Takes the connection out of the map, which lets go of it. */
    method RemoveConnection(conn: TcpConnection)
      requires L.Enabled(conn.View(), L.Unmap)
      modifies `connectionMap, conn
      ensures connectionMap == old(connectionMap) - {conn.id}
      ensures conn.View() == L.Step(old(conn.View()), L.Unmap)
    {
      connectionMap := connectionMap - {conn.id};
      conn.Unmapped();
    }

    method Dispatch(conn: TcpConnection, event: L.Event)
      requires L.Inv(conn.View()) && L.Enabled(conn.View(), event)
      modifies `connectionMap, conn
      ensures conn.View() == L.Step(old(conn.View()), event)
      ensures connectionMap == if event.Unmap? then old(connectionMap) - {conn.id} else old(connectionMap)
    {
      hide L.Step, L.Inv, L.Enabled;
      match event {
        case Callback(keep) => conn.Handed(keep);
        case CopyRef => conn.Copied();
        case DropRef(onLoop) => conn.Release(onLoop);
        case CallShutdown(onLoop) => conn.Shutdown(onLoop);
        case Send(w, onLoop) => conn.Send(w, onLoop);
        case Eof => conn.ReadEof();
        case Unmap => RemoveConnection(conn);
        case RunPosted(call) => conn.RunAsync(call);
        case WriteDone(w, keep) => conn.WriteCallback(w, keep);
        case ShutdownDone(thenClose) => conn.ShutdownCallback(thenClose);
      }
    }

    /** Whatever happens to one connection: a call by its user or a callback of the loop. */
    method Deliver(id: nat, event: L.Event)
      requires Valid() && S.Enabled(view, S.OnConn(id, event))
      modifies `connectionMap, `view, conns[id]
      ensures Valid() && S.Takes(old(view), S.OnConn(id, event), view)
      ensures !event.Unmap? ==> connectionMap == old(connectionMap)
    {
      hide *;
      Delivered(id, event);
      PicturedParts(conns, view.conns);
      var conn := conns[id];
      Dispatch(conn, event);
      forall i | i in conns && i != id ensures conns[i].View() == old(view).conns[i] {
        assert conns[i] != conn;
      }
      PicturedStep(conns, view.conns, id);
      view := S.Step(view, S.OnConn(id, event));
      Consistent();
    }

    /** What an event of one connection comes to. */
    lemma Delivered(id: nat, event: L.Event)
      requires Valid() && S.Enabled(view, S.OnConn(id, event))
      ensures id in conns && id in view.conns && Pictured(conns, view.conns)
      ensures conns[id].id == id && conns[id].View() == view.conns[id]
      ensures L.Inv(view.conns[id]) && L.Enabled(view.conns[id], event)
      ensures var d := S.Step(view, S.OnConn(id, event));
              && S.Takes(view, S.OnConn(id, event), d) && S.Reachable(d, timeout)
              && d.nextId == connectionId && d.wheel.buckets == wheel
              && d.conns == view.conns[id := L.Step(view.conns[id], event)]
              && Mapped(if event.Unmap? then connectionMap - {id} else connectionMap, conns, d.conns)
    {
      hide S.Reachable, S.Step, S.Enabled, L.Step, L.Inv, L.Enabled, TcpConnection.View, Mapped;
      Delivery(view, timeout, id, event);
      MappedStep(connectionMap, conns, view.conns, id, L.Step(view.conns[id], event));
    }

    /** A read callback with no error: first the entry is put in again, then the user is called. */
    method ReadData(id: nat, keep: bool)
      requires Valid() && S.Enabled(view, S.Data(id, keep))
      modifies `connectionMap, `wheel, `view, conns[id]
      ensures Valid() && S.Takes(old(view), S.Data(id, keep), view)
      ensures connectionMap == old(connectionMap)
    {
      hide *;
      BeingRead(id, keep);
      PicturedParts(conns, view.conns);
      var conn := conns[id];
      Touch(id);
      conn.Handed(keep);
      forall i | i in conns && i != id ensures conns[i].View() == old(view).conns[i] {
        assert conns[i] != conn;
      }
      PicturedStep(conns, view.conns, id);
      view := S.Step(view, S.Data(id, keep));
      Consistent();
    }

    /** What a read callback comes to. */
    lemma BeingRead(id: nat, keep: bool)
      requires Valid() && S.Enabled(view, S.Data(id, keep))
      ensures id in conns && id in view.conns && Pictured(conns, view.conns)
      ensures conns[id].View() == view.conns[id] && L.Enabled(view.conns[id], L.Callback(keep))
      ensures var d := S.Step(view, S.Data(id, keep));
              && S.Takes(view, S.Data(id, keep), d) && S.Reachable(d, timeout)
              && d.nextId == connectionId
              && d.wheel.buckets == (if W.Alive(wheel, id) then W.PutBack(wheel, id) else wheel)
              && d.conns == view.conns[id := L.Step(view.conns[id], L.Callback(keep))]
              && Mapped(connectionMap, conns, d.conns)
    {
      hide S.Reachable, S.Step, S.Enabled, L.Step, L.Enabled, W.Alive, TcpConnection.View, Mapped;
      Reading(view, timeout, id, keep);
      MappedStep(connectionMap, conns, view.conns, id, L.Step(view.conns[id], L.Callback(keep)));
    }

    // ---------- accepting ----------

    /** A new entry goes in the back bucket, if there is a wheel. */
    method PutIn(id: nat)
      requires timeout > 0 ==> wheel != []
      modifies `wheel
      ensures wheel == Watching(old(wheel), timeout, id)
    {
      if timeout > 0 {
        UpdateConnection(id);
      }
    }

    /** Maps a new connection and, if there is a wheel, puts its entry in it. */
    method Admit(conn: TcpConnection)
      requires Valid() && conn.id == connectionId && conn.View() == L.Accepted()
      modifies this
      ensures Valid() && S.Takes(old(view), S.Accept, view) && connectionId == old(connectionId) + 1
      ensures conns == old(conns)[old(connectionId) := conn]
      ensures connectionMap == old(connectionMap)[old(connectionId) := conn]
      ensures wheel == Watching(old(wheel), timeout, old(connectionId))
    {
      hide *;
      var id := connectionId;
      Accepted(conn);
      PutIn(id);
      connectionId, connectionMap, conns, view :=
        id + 1, connectionMap[id := conn], conns[id := conn], S.Step(view, S.Accept);
      Consistent();
    }

    /** What admitting a connection comes to. */
    lemma Accepted(conn: TcpConnection)
      requires Valid() && conn.id == connectionId && conn.View() == L.Accepted()
      ensures timeout > 0 ==> wheel != []
      ensures S.Enabled(view, S.Accept)
      ensures var d := S.Step(view, S.Accept);
              && S.Takes(view, S.Accept, d) && S.Reachable(d, timeout)
              && d.nextId == connectionId + 1
              && d.wheel.buckets == Watching(wheel, timeout, connectionId)
              && Pictured(conns[connectionId := conn], d.conns)
              && Mapped(connectionMap[connectionId := conn], conns[connectionId := conn], d.conns)
    {
      Accepting(view, timeout);
      PicturedMore(conns, view.conns, conn);
      MappedMore(connectionMap, conns, view.conns, connectionId, conn, L.Accepted());
    }

    /** A client that is being read from becomes a connection, mapped and watched. */
    method Register() returns (conn: TcpConnection)
      requires Valid()
      modifies this
      ensures Valid() && S.Takes(old(view), S.Accept, view)
      ensures fresh(conn) && conn.View() == L.Accepted() && connectionId == old(connectionId) + 1
      ensures conn.hasMessageCallback == hasMessageCallback
      ensures conns == old(conns)[old(connectionId) := conn]
      ensures connectionMap == old(connectionMap)[old(connectionId) := conn]
      ensures wheel == Watching(old(wheel), timeout, old(connectionId))
    {
      hide S.Reachable, S.Takes, L.Accepted, TcpConnection.View, Watching;
      conn := new TcpConnection(connectionId, hasMessageCallback);
      Admit(conn);
    }

    /** One client accepted and read from: registered, then shown to the user. */
    method Connect(keep: bool)
      requires Valid()
      modifies this
      ensures Valid() && connectionId == old(connectionId) + 1
      ensures Runs.Leads(S.Step, old(view), Steps(Connected(keep), old(connectionId)), view)
      ensures Joined(old(conns), conns, old(connectionMap), connectionMap, old(connectionId))
      ensures fresh(conns[old(connectionId)])
      ensures conns[old(connectionId)].hasMessageCallback == hasMessageCallback
      ensures wheel == Watching(old(wheel), timeout, old(connectionId))
    {
      hide *;
      var id := connectionId;
      ghost var s := view;
      NextIsFree(keep);
      var conn := Register();
      ghost var m := view;
      Deliver(id, L.Callback(keep));
      TakesTwo(s, m, view, id, keep);
      IsJoined(old(conns), old(connectionMap), id, conn);
    }

    /** The next id is one that no connection goes by. */
    lemma NextIsFree(keep: bool)
      requires Valid()
      ensures connectionId !in conns && connectionId !in connectionMap
      ensures forall d :: S.Takes(view, S.Accept, d) ==> S.Enabled(d, S.OnConn(connectionId, L.Callback(keep)))
    {
      hide S.Reachable, S.Step, S.Enabled, L.Accepted, TcpConnection.View;
      Accepting(view, timeout);
      Showing(view, timeout, keep);
    }

    /** A client that cannot be read from. */
    method Skip()
      requires Valid()
      modifies `connectionId, `view
      ensures Valid() && connectionId == old(connectionId) + 1
      ensures Runs.Leads(S.Step, old(view), [S.NotRead], view)
    {
      hide *;
      Skipped();
      connectionId, view := connectionId + 1, S.Step(view, S.NotRead);
      Consistent();
    }

    lemma Skipped()
      requires Valid()
      ensures S.Enabled(view, S.NotRead)
      ensures var d := S.Step(view, S.NotRead);
              && Runs.Leads(S.Step, view, [S.NotRead], d) && S.Reachable(d, timeout)
              && d.nextId == connectionId + 1 && d.wheel.buckets == wheel
              && Pictured(conns, d.conns) && Mapped(connectionMap, conns, d.conns)
    {
      S.ReachableStep(view, timeout, S.NotRead);
      assert [S.NotRead][1..] == [];
    }

    /** What one more result of the accept loop comes to. */
    method Take(r: AcceptResult)
      requires Valid() && r != Again
      modifies this
      ensures Valid() && connectionId == old(connectionId) + Uses(r)
      ensures Runs.Leads(S.Step, old(view), Steps(r, old(connectionId)), view)
      ensures if r.Connected? then
                && Joined(old(conns), conns, old(connectionMap), connectionMap, old(connectionId))
                && fresh(conns[old(connectionId)])
                && conns[old(connectionId)].hasMessageCallback == hasMessageCallback
                && wheel == Watching(old(wheel), timeout, old(connectionId))
              else
                conns == old(conns) && connectionMap == old(connectionMap) && wheel == old(wheel)
    {
      hide S.Step, S.Enabled, TcpServer.Valid, Joined, Watching, TcpConnection.View;
      match r {
        case Connected(keep) => Connect(keep);
        case NotReading => Skip();
        case Failed => NothingHappens(view);
      }
    }

    /**
      Accepts until there is nothing more to accept, but at most ACCEPT_MAX clients.  The new
      connections go by the ids made; all others stay as they are.
     */
    method NewConnection(results: seq<AcceptResult>) returns (made: seq<nat>)
      requires Valid()
      requires |results| >= ACCEPT_MAX || Again in results
      modifies this
      ensures Valid()
      ensures var tried := Tried(results[..Blocks.Least(|results|, ACCEPT_MAX)]);
              && made == Ids(tried, old(connectionId))
              && connectionId == old(connectionId) + Handles(tried)
              && Runs.Leads(S.Step, old(view), Events(tried, old(connectionId)), view)
      ensures wheel == WatchingAll(old(wheel), timeout, made)
      ensures Added(old(conns), conns, made) && Added(old(connectionMap), connectionMap, made)
      ensures forall id :: id in made ==>
                && id in conns && id in connectionMap
                && fresh(conns[id]) && connectionMap[id] == conns[id]
                && conns[id].hasMessageCallback == hasMessageCallback
    {
      hide *;
      Bounded(results);
      ghost var tried := results[..Blocks.Least(|results|, ACCEPT_MAX)];
      ghost var id0, s, olds, oldMap := connectionId, view, conns, connectionMap;
      made := [];
      NoResults(tried, id0, s);
      WatchingNone(wheel, timeout);
      NoneAdded(conns);
      NoneAdded(connectionMap);
      var i := 0;
      while i < ACCEPT_MAX
        invariant i <= |tried| && Again !in tried[..i] && Valid()
        invariant made == Ids(tried[..i], id0) && connectionId == id0 + Handles(tried[..i])
        invariant Runs.Leads(S.Step, s, Events(tried[..i], id0), view)
        invariant wheel == WatchingAll(old(wheel), timeout, made)
        invariant Added(olds, conns, made) && Added(oldMap, connectionMap, made)
        invariant forall id :: id in made ==>
                    && id in conns && id in connectionMap
                    && fresh(conns[id]) && connectionMap[id] == conns[id]
                    && conns[id].hasMessageCallback == hasMessageCallback
      {
        MoreToTry(results, i);
        if results[i] == Again {
          break;
        }
        var r, id := results[i], connectionId;
        ghost var m, us, ms := view, conns, connectionMap;
        Take(r);
        OneMoreTried(tried, i, r, id0, s, m, view);
        if r.Connected? {
          JoinedAdds(olds, us, conns, oldMap, ms, connectionMap, made, id);
          WatchingMore(old(wheel), timeout, made, id);
          made := made + [id];
        }
        i := i + 1;
      }
      AllTried(results, i);
    }
  }

  /** `more` is `m` with further keys `ids`, none of them twice. */
  ghost predicate Added(m: map<nat, TcpConnection>, more: map<nat, TcpConnection>, ids: seq<nat>) {
    && more.Keys == m.Keys + (set id | id in ids)
    && (forall id :: id in ids ==> id !in m)
    && (forall id :: id in m && id in more ==> more[id] == m[id])
  }

  /** What the server thread does for the clients it has accepted, counting ids on from `id`. */
  function Events(results: seq<AcceptResult>, id: nat): seq<S.Event> {
    if results == [] then [] else Steps(results[0], id) + Events(results[1..], id + Uses(results[0]))
  }

  /** The wheel after an entry has been put in its back bucket, if there is a wheel. */
  function Watching(wheel: seq<set<nat>>, timeout: int, id: nat): seq<set<nat>> {
    if timeout > 0 && wheel != [] then W.PutBack(wheel, id) else wheel
  }

  function WatchingAll(wheel: seq<set<nat>>, timeout: int, ids: seq<nat>): seq<set<nat>> {
    if ids == [] then wheel
    else Watching(WatchingAll(wheel, timeout, ids[..|ids| - 1]), timeout, ids[|ids| - 1])
  }

  lemma WatchingNone(wheel: seq<set<nat>>, timeout: int)
    ensures WatchingAll(wheel, timeout, []) == wheel
  {
  }

  lemma WatchingMore(wheel: seq<set<nat>>, timeout: int, ids: seq<nat>, id: nat)
    ensures WatchingAll(wheel, timeout, ids + [id]) == Watching(WatchingAll(wheel, timeout, ids), timeout, id)
  {
    assert (ids + [id])[..|ids|] == ids;
  }

  /** `id` is new in both maps, where it leads to the same connection; all else is as before. */
  ghost predicate Joined(conns: map<nat, TcpConnection>, more: map<nat, TcpConnection>,
      mapped: map<nat, TcpConnection>, moreMapped: map<nat, TcpConnection>, id: nat)
  {
    && id !in conns && id in more && id !in mapped
    && more == conns[id := more[id]] && moreMapped == mapped[id := more[id]]
  }

  lemma IsJoined(conns: map<nat, TcpConnection>, mapped: map<nat, TcpConnection>, id: nat, conn: TcpConnection)
    requires id !in conns && id !in mapped
    ensures Joined(conns, conns[id := conn], mapped, mapped[id := conn], id)
    ensures conns[id := conn][id] == conn
  {
  }

  /** Connections go by their own ids and are in these states. */
  ghost predicate Pictured(conns: map<nat, TcpConnection>, states: map<nat, L.Conn>)
    reads conns.Values
  {
    && states.Keys == conns.Keys
    && forall id :: id in conns ==> conns[id].id == id && conns[id].View() == states[id]
  }

  lemma PicturedMore(conns: map<nat, TcpConnection>, states: map<nat, L.Conn>, conn: TcpConnection)
    requires Pictured(conns, states) && conn.id !in conns
    ensures Pictured(conns[conn.id := conn], states[conn.id := conn.View()])
  {
  }

  lemma PicturedParts(conns: map<nat, TcpConnection>, states: map<nat, L.Conn>)
    requires Pictured(conns, states)
    ensures states.Keys == conns.Keys
    ensures forall id :: id in conns ==> conns[id].id == id && conns[id].View() == states[id]
  {
  }

  /** Only the connection `id` has moved. */
  lemma PicturedStep(conns: map<nat, TcpConnection>, states: map<nat, L.Conn>, id: nat)
    requires states.Keys == conns.Keys && id in conns
    requires forall i :: i in conns ==> conns[i].id == i
    requires forall i :: i in conns && i != id ==> conns[i].View() == states[i]
    ensures Pictured(conns, states[id := conns[id].View()])
  {
    hide TcpConnection.View;
  }

  /** The map holds just the connections to which it has a reference. */
  ghost predicate Mapped(connectionMap: map<nat, TcpConnection>, conns: map<nat, TcpConnection>,
      states: map<nat, L.Conn>)
  {
    && (forall id :: id in connectionMap <==> id in states && states[id].inMap)
    && (forall id :: id in connectionMap && id in conns ==> connectionMap[id] == conns[id])
  }

  lemma MappedMore(connectionMap: map<nat, TcpConnection>, conns: map<nat, TcpConnection>,
      states: map<nat, L.Conn>, id: nat, conn: TcpConnection, c: L.Conn)
    requires Mapped(connectionMap, conns, states) && c.inMap
    ensures Mapped(connectionMap[id := conn], conns[id := conn], states[id := c])
  {
  }

  lemma MappedStep(connectionMap: map<nat, TcpConnection>, conns: map<nat, TcpConnection>,
      states: map<nat, L.Conn>, id: nat, c: L.Conn)
    requires Mapped(connectionMap, conns, states) && id in states
    ensures c.inMap == states[id].inMap ==> Mapped(connectionMap, conns, states[id := c])
    ensures !c.inMap ==> Mapped(connectionMap - {id}, conns, states[id := c])
  {
  }

  /** What the server thread does for one client it has accepted. */
  function Steps(r: AcceptResult, id: nat): seq<S.Event> {
    match r
    case Connected(keep) => [S.Accept, S.OnConn(id, L.Callback(keep))]
    case NotReading => [S.NotRead]
    case _ => []
  }

  lemma TakesTwo(s: S.Server, m: S.Server, d: S.Server, id: nat, keep: bool)
    requires S.Takes(s, S.Accept, m) && S.Takes(m, S.OnConn(id, L.Callback(keep)), d)
    ensures Runs.Leads(S.Step, s, Steps(Connected(keep), id), d)
  {
    var a, b := S.Accept, S.OnConn(id, L.Callback(keep));
    hide S.Step, S.Enabled;
    assert Runs.Leads(S.Step, s, [], s) && [] + [a] == [a] && [a] + [b] == [a, b];
    Runs.OneMore(S.Step, s, [], s, a);
    Runs.OneMore(S.Step, s, [a], m, b);
  }

  lemma Reading(s: S.Server, timeout: int, id: nat, keep: bool)
    requires S.Reachable(s, timeout) && S.Enabled(s, S.Data(id, keep))
    ensures id in s.conns && L.Enabled(s.conns[id], L.Callback(keep))
    ensures var d := S.Step(s, S.Data(id, keep));
            && S.Reachable(d, timeout)
            && d.nextId == s.nextId
            && d.wheel.buckets ==
               (if W.Alive(s.wheel.buckets, id) then W.PutBack(s.wheel.buckets, id) else s.wheel.buckets)
            && d.conns == s.conns[id := L.Step(s.conns[id], L.Callback(keep))]
            && d.conns[id].inMap == s.conns[id].inMap
  {
    S.ReachableStep(s, timeout, S.Data(id, keep));
  }

  lemma Accepting(s: S.Server, timeout: int)
    requires S.Reachable(s, timeout)
    ensures s.nextId !in s.conns && S.Enabled(s, S.Accept)
    ensures timeout > 0 ==> s.wheel.buckets != []
    ensures var d := S.Step(s, S.Accept);
            && S.Reachable(d, timeout) && S.Takes(s, S.Accept, d)
            && d.nextId == s.nextId + 1 && d.conns == s.conns[s.nextId := L.Accepted()]
            && d.conns[s.nextId].inMap
            && d.wheel.buckets == Watching(s.wheel.buckets, timeout, s.nextId)
  {
    S.ReachableInv(s, timeout);
    W.BucketsStay(s.wheel, timeout);
    S.ReachableStep(s, timeout, S.Accept);
  }

  lemma Showing(s: S.Server, timeout: int, keep: bool)
    requires S.Reachable(s, timeout)
    ensures S.Enabled(s, S.Accept) && S.Enabled(S.Step(s, S.Accept), S.OnConn(s.nextId, L.Callback(keep)))
    ensures S.Step(S.Step(s, S.Accept), S.OnConn(s.nextId, L.Callback(keep))).wheel.buckets
            == S.Step(s, S.Accept).wheel.buckets
  {
    Accepting(s, timeout);
    ConnKept(S.Step(s, S.Accept), s.nextId, keep);
  }

  lemma ConnKept(s: S.Server, id: nat, keep: bool)
    requires id in s.conns && !s.conns[id].destroyed
    ensures S.Enabled(s, S.OnConn(id, L.Callback(keep)))
    ensures S.Step(s, S.OnConn(id, L.Callback(keep))).wheel.buckets == s.wheel.buckets
  {
  }

  lemma MapChange(c: L.Conn, e: L.Event)
    requires L.Enabled(c, e)
    ensures L.Step(c, e).inMap == (c.inMap && !e.Unmap?)
  {
  }

  /** What an event of one connection does to the server. */
  lemma Delivery(s: S.Server, timeout: int, id: nat, e: L.Event)
    requires S.Reachable(s, timeout) && S.Enabled(s, S.OnConn(id, e))
    ensures id in s.conns && L.Inv(s.conns[id]) && L.Enabled(s.conns[id], e)
    ensures var d := S.Step(s, S.OnConn(id, e));
            && S.Reachable(d, timeout)
            && d.nextId == s.nextId && d.wheel.buckets == s.wheel.buckets
            && d.conns == s.conns[id := L.Step(s.conns[id], e)]
            && d.conns[id].inMap == (s.conns[id].inMap && !e.Unmap?)
  {
    hide L.Step, L.Inv, L.Enabled, L.Reachable;
    MapChange(s.conns[id], e);
    S.ReachableInv(s, timeout);
    L.ReachableInv(s.conns[id]);
    S.ReachableStep(s, timeout, S.OnConn(id, e));
  }

  lemma TickStep(s: S.Server, fired: set<nat>)
    requires S.Enabled(s, S.Tick) && s.wheel.buckets != []
    requires forall id :: id in fired <==> id in W.Expiring(s.wheel.buckets) && id !in s.wheel.gone
    ensures var d := S.Step(s, S.Tick);
            && d.nextId == s.nextId && d.conns == s.conns
            && d.wheel.buckets == s.wheel.buckets[1..] + [{}]
            && d.wheel.fired == s.wheel.fired + [fired]
  {
    assert fired == W.Fired(s.wheel);
  }

  /** Every entry in the front bucket watches a connection, and the wheel knows which are gone. */
  lemma EntriesKnown(s: S.Server, timeout: int)
    requires S.Reachable(s, timeout) && S.Enabled(s, S.Tick)
    ensures s.wheel.buckets != []
    ensures forall id :: id in s.wheel.buckets[0] ==> id in s.conns
    ensures forall id :: id in s.conns ==> (id in s.wheel.gone <==> s.conns[id].destroyed)
  {
    S.ReachableInv(s, timeout);
    W.ReachableInv(s.wheel, timeout);
    forall id | id in s.wheel.buckets[0] ensures id in s.conns {
      assert id in s.wheel.touched;
    }
  }

  /** The results before the first Again. */
  function Tried(results: seq<AcceptResult>): seq<AcceptResult> {
    if results == [] || results[0] == Again then [] else [results[0]] + Tried(results[1..])
  }

  /** Each handle accepted uses up an id. */
  function Uses(r: AcceptResult): nat {
    if r.Connected? || r.NotReading? then 1 else 0
  }

  function Handles(results: seq<AcceptResult>): nat {
    if results == [] then 0 else Uses(results[0]) + Handles(results[1..])
  }

  /** The ids of the connections made, counting on from `id`. */
  function Ids(results: seq<AcceptResult>, id: nat): seq<nat> {
    if results == [] then []
    else (if results[0].Connected? then [id] else []) + Ids(results[1..], id + Uses(results[0]))
  }

  lemma {:induction false} TriedPrefix(results: seq<AcceptResult>, i: nat)
    requires i <= |results| && Again !in results[..i]
    ensures Tried(results) == results[..i] + Tried(results[i..])
  {
    if i > 0 {
      assert results[0] == results[..i][0];
      assert results[1..][..i - 1] == results[..i][1..] && results[1..][i - 1..] == results[i..];
      TriedPrefix(results[1..], i - 1);
    }
  }

  lemma {:induction false} HandlesSnoc(results: seq<AcceptResult>, r: AcceptResult)
    ensures Handles(results + [r]) == Handles(results) + Uses(r)
  {
    hide Uses;
    if results == [] {
      assert [r][1..] == [] && results + [r] == [r];
    } else {
      assert (results + [r])[1..] == results[1..] + [r];
      HandlesSnoc(results[1..], r);
    }
  }

  lemma {:induction false} IdsSnoc(results: seq<AcceptResult>, r: AcceptResult, id: nat)
    ensures Ids(results + [r], id) == Ids(results, id) + if r.Connected? then [id + Handles(results)] else []
  {
    if results == [] {
      assert [r][1..] == [] && results + [r] == [r];
    } else {
      hide Uses;
      var rest, next := results[1..], id + Uses(results[0]);
      var head, last := if results[0].Connected? then [id] else [],
                        if r.Connected? then [id + Handles(results)] else [];
      assert (results + [r])[1..] == rest + [r];
      assert Handles(results) == Uses(results[0]) + Handles(rest);
      IdsSnoc(rest, r, next);
      hide Ids, Handles;
      Blocks.Assoc(head, Ids(rest, next), last);
    }
  }

  lemma {:induction false} EventsSnoc(results: seq<AcceptResult>, r: AcceptResult, id: nat)
    ensures Events(results + [r], id) == Events(results, id) + Steps(r, id + Handles(results))
  {
    hide Steps, Uses;
    if results == [] {
      assert [r][1..] == [] && results + [r] == [r];
    } else {
      var rest, next := results[1..], id + Uses(results[0]);
      assert (results + [r])[1..] == rest + [r];
      assert Handles(results) == Uses(results[0]) + Handles(rest);
      EventsSnoc(rest, r, next);
      Blocks.Assoc(Steps(results[0], id), Events(rest, next), Steps(r, id + Handles(results)));
    }
  }

  /** Ids are given out in order and never twice. */
  lemma {:induction false} IdsAscend(results: seq<AcceptResult>, id: nat)
    ensures forall i :: 0 <= i < |Ids(results, id)| ==> id <= Ids(results, id)[i] < id + Handles(results)
    ensures forall i, j :: 0 <= i < j < |Ids(results, id)| ==> Ids(results, id)[i] < Ids(results, id)[j]
  {
    if results != [] {
      IdsAscend(results[1..], id + Uses(results[0]));
    }
  }

  lemma NoResults(results: seq<AcceptResult>, id: nat, s: S.Server)
    ensures results[..0] == [] && Ids(results[..0], id) == [] && Handles(results[..0]) == 0
    ensures Runs.Leads(S.Step, s, Events(results[..0], id), s)
  {
  }

  lemma Bounded(results: seq<AcceptResult>)
    ensures ACCEPT_MAX == 10
    ensures Blocks.Least(|results|, ACCEPT_MAX) == if |results| <= ACCEPT_MAX then |results| else ACCEPT_MAX
  {
  }

  /** The results looked at are at most ACCEPT_MAX, and there is one more unless an Again was met. */
  lemma MoreToTry(results: seq<AcceptResult>, i: nat)
    requires |results| >= ACCEPT_MAX || Again in results
    requires i < ACCEPT_MAX && i <= Blocks.Least(|results|, ACCEPT_MAX)
    requires Again !in results[..Blocks.Least(|results|, ACCEPT_MAX)][..i]
    ensures i < |results| && i < Blocks.Least(|results|, ACCEPT_MAX)
    ensures results[..Blocks.Least(|results|, ACCEPT_MAX)][i] == results[i]
  {
    var tried := results[..Blocks.Least(|results|, ACCEPT_MAX)];
    forall j | 0 <= j < i ensures results[j] != Again {
      assert tried[..i][j] == results[j];
    }
  }

  lemma OneMoreTried(tried: seq<AcceptResult>, i: nat, r: AcceptResult, id: nat, s: S.Server, m: S.Server, d: S.Server)
    requires i < |tried| && tried[i] == r && r != Again && Again !in tried[..i]
    requires Runs.Leads(S.Step, s, Events(tried[..i], id), m)
    requires Runs.Leads(S.Step, m, Steps(r, id + Handles(tried[..i])), d)
    ensures Again !in tried[..i + 1]
    ensures Handles(tried[..i + 1]) == Handles(tried[..i]) + Uses(r)
    ensures Ids(tried[..i + 1], id) ==
            Ids(tried[..i], id) + if r.Connected? then [id + Handles(tried[..i])] else []
    ensures Runs.Leads(S.Step, s, Events(tried[..i + 1], id), d)
  {
    hide *;
    TakeOneMore(tried, i);
    HandlesSnoc(tried[..i], r);
    IdsSnoc(tried[..i], r, id);
    EventsSnoc(tried[..i], r, id);
    Runs.Joined(S.Step, s, Events(tried[..i], id), m, Steps(r, id + Handles(tried[..i])), d);
  }

  lemma TakeOneMore(tried: seq<AcceptResult>, i: nat)
    requires i < |tried| && tried[i] != Again && Again !in tried[..i]
    ensures tried[..i + 1] == tried[..i] + [tried[i]] && Again !in tried[..i + 1]
  {
  }

  lemma AllTried(results: seq<AcceptResult>, i: nat)
    requires i <= Blocks.Least(|results|, ACCEPT_MAX)
    requires var tried := results[..Blocks.Least(|results|, ACCEPT_MAX)];
             Again !in tried[..i] && (i < |tried| ==> tried[i] == Again)
    ensures var tried := results[..Blocks.Least(|results|, ACCEPT_MAX)];
            Tried(tried) == tried[..i]
  {
    var tried := results[..Blocks.Least(|results|, ACCEPT_MAX)];
    TriedPrefix(tried, i);
    assert Tried(tried[i..]) == [] && tried[..i] + [] == tried[..i];
  }

  lemma NoneAdded(m: map<nat, TcpConnection>)
    ensures Added(m, m, [])
  {
  }

  lemma JoinedAdds(conns: map<nat, TcpConnection>, us: map<nat, TcpConnection>, ws: map<nat, TcpConnection>,
      mapped: map<nat, TcpConnection>, ms: map<nat, TcpConnection>, ns: map<nat, TcpConnection>,
      made: seq<nat>, id: nat)
    requires Added(conns, us, made) && Added(mapped, ms, made) && Joined(us, ws, ms, ns, id)
    ensures id in ws && id in ns && ns[id] == ws[id] && id !in made
    ensures Added(conns, ws, made + [id]) && Added(mapped, ns, made + [id])
    ensures forall k :: k in made ==> k in us && k in ms && k in ws && k in ns && ws[k] == us[k] && ns[k] == ms[k]
  {
  }

  lemma NothingHappens(s: S.Server)
    ensures Runs.Leads(S.Step, s, [], s)
  {
  }
}
