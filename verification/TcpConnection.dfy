/** A connection: its half-close machine, its pending requests and its input buffer. */
module TcpConnections {
  import opened Bytes
  import opened Blocks
  import opened DataBlocks
  import opened Buffers
  import opened Lifecycle
  import opened Options

  class TcpConnection {
    const id: nat
    const buffer: Buffer
    const hasMessageCallback: bool

    var state: ConnectionState

    // the references that keep the object alive
    var inMap: bool
    var users: nat
    var writes: set<nat>
    var destroyed: bool

    // its handle, as the loop sees it
    var reading: bool
    var posted: multiset<Call>
    var ending: multiset<bool>
    var issued: set<nat>
    ghost var log: seq<Call>

    ghost function View(): Conn
      reads this
    {
      Conn(state, reading, inMap, users, writes, destroyed, posted, ending, issued, log)
    }

    constructor (id: nat, hasMessageCallback: bool)
      ensures View() == Accepted() && this.id == id && this.hasMessageCallback == hasMessageCallback
      ensures buffer.Valid() && buffer.Contents() == [] && fresh(buffer) && buffer.Repr == {}
    {
      this.id := id;
      this.hasMessageCallback := hasMessageCallback;
      buffer := new Buffer();
      state := CONNECTED;
      inMap, users, writes, destroyed := true, 0, {}, false;
      reading, posted, ending, issued := true, multiset{}, multiset{}, {};
      log := [];
    }

    // ---------- the handle ----------

    method Perform(call: Call)
      modifies this
      ensures View() == Lifecycle.Perform(old(View()), call)
    {
      match call {
        case Shutdown(thenClose) => ending := ending + multiset{thenClose};
        case Close =>
        case Write(w) => issued := issued + {w};
      }
      log := log + [call];
    }

    method RunInLoopThread(call: Call, onLoop: bool)
      modifies this
      ensures View() == InLoop(old(View()), call, onLoop)
    {
      if onLoop {
        Perform(call);
      } else {
        posted := posted + multiset{call};
      }
    }

    /** An action handed over earlier from another thread. */
    method RunAsync(call: Call)
      requires Enabled(View(), RunPosted(call))
      modifies this
      ensures View() == Step(old(View()), RunPosted(call))
    {
      posted := posted - multiset{call};
      Perform(call);
    }

    // ---------- end of life ----------

    method ShutdownWrite(onLoop: bool)
      modifies this
      ensures View() == InLoop(old(View()).(state := CLOSED), Call.Shutdown(true), onLoop)
    {
      state := CLOSED;
      RunInLoopThread(Call.Shutdown(true), onLoop);
    }

    method Destructor(onLoop: bool)
      modifies this
      ensures View() == Destruct(old(View()), onLoop)
    {
      destroyed := true;
      if state == CLOSE_WAIT {
        ShutdownWrite(onLoop);
      } else {
        state := CLOSED;
        RunInLoopThread(Close, onLoop);
      }
    }

    /** A shared pointer to the connection has gone. */
    method Released(onLoop: bool)
      modifies this
      ensures View() == Settle(old(View()), onLoop)
    {
      if !destroyed && !(inMap || users > 0 || writes != {}) {
        Destructor(onLoop);
      }
    }

    // ---------- calls by the user ----------

    method Shutdown(onLoop: bool)
      requires Enabled(View(), CallShutdown(onLoop))
      modifies this
      ensures View() == Step(old(View()), CallShutdown(onLoop))
    {
      if state == CONNECTED {
        state := FIN_WAIT;
        RunInLoopThread(Call.Shutdown(false), onLoop);
      }
    }

    method Send(w: nat, onLoop: bool)
      requires Enabled(View(), Event.Send(w, onLoop))
      modifies this
      ensures View() == Step(old(View()), Event.Send(w, onLoop))
    {
      writes := writes + {w};
      RunInLoopThread(Write(w), onLoop);
    }

    /** One more shared pointer to the connection. */
    method Copied()
      requires Enabled(View(), CopyRef)
      modifies this
      ensures View() == Step(old(View()), CopyRef)
    {
      users := users + 1;
    }

    method Release(onLoop: bool)
      requires Enabled(View(), DropRef(onLoop))
      modifies this
      ensures View() == Step(old(View()), DropRef(onLoop))
    {
      users := users - 1;
      Released(onLoop);
    }

    // ---------- callbacks of the loop ----------

    /** A callback of the user is handed the connection, and may keep a reference. */
    method Handed(keep: bool)
      requires Enabled(View(), Callback(keep))
      modifies this
      ensures View() == Step(old(View()), Callback(keep))
    {
      if keep {
        users := users + 1;
      }
    }

    /** End of file, up to the connection callback. */
    method ReadEof()
      requires Inv(View()) && Enabled(View(), Eof)
      modifies this
      ensures View() == Step(old(View()), Eof)
    {
      assert !destroyed;
      assert state != CLOSED && state != CLOSE_WAIT;
      state := if state == CONNECTED then CLOSE_WAIT else CLOSED;
      reading := false;
    }

    /** The server has erased the connection from its map. */
    method Unmapped()
      requires Enabled(View(), Unmap)
      modifies this
      ensures View() == Step(old(View()), Unmap)
    {
      inMap := false;
      Released(true);
    }

    method WriteCallback(w: nat, keep: bool)
      requires Enabled(View(), WriteDone(w, keep))
      modifies this
      ensures View() == Step(old(View()), WriteDone(w, keep))
    {
      if keep {
        users := users + 1;
      }
      writes, issued := writes - {w}, issued - {w};
      Released(true);
    }

    method ShutdownCallback(thenClose: bool)
      requires Enabled(View(), ShutdownDone(thenClose))
      modifies this
      ensures View() == Step(old(View()), ShutdownDone(thenClose))
    {
      ending := ending - multiset{thenClose};
      if thenClose {
        Perform(Close);
      }
    }

    // ---------- the read path ----------

    /** The window libuv reads into; none once the connection has gone. */
    method AllocCallback() returns (w: Option<Window>)
      requires buffer.Valid() && this !in buffer.Repr
      modifies buffer, buffer.Repr
      ensures buffer.Valid() && fresh(buffer.Repr - old(buffer.Repr)) && unchanged(this)
      ensures buffer.Contents() == old(buffer.Contents())
      ensures w.None? <==> destroyed
      ensures w.Some? ==> buffer.Offered(w.value) && w.value.data in buffer.Repr
    {
      if !destroyed {
        var window := buffer.Next();
        w := Some(window);
      } else {
        w := None;
      }
    }

    /** `nread` bytes lie in the window; the message callback takes up to `take` of what there is. */
    method ReadCallback(nread: nat, take: nat) returns (taken: seq<byte>)
      requires buffer.Valid() && buffer.last < |buffer.list|
      requires Target(buffer.views, buffer.last) < |buffer.list|
      requires var b := buffer.views[Target(buffer.views, buffer.last)]; b.write + nread <= b.Capacity()
      modifies buffer, buffer.Repr
      ensures buffer.Valid() && fresh(buffer.Repr - old(buffer.Repr))
      ensures hasMessageCallback ==>
                && taken + buffer.Contents() == old(buffer.Contents() + buffer.Pending(nread))
                && |taken| == Least(take, |old(buffer.Contents())| + nread)
      ensures !hasMessageCallback ==> taken == [] && buffer.Contents() == old(buffer.Contents())
    {
      hide Buffer.Contents, Flat, Layout, Storage, Sized;
      taken := [];
      if hasMessageCallback {
        buffer.Extend(nread);
        buffer.Counted();
        taken := buffer.RetrieveAsString(Least(take, buffer.readable));
      }
    }
  }

  // ---------- what a buffer is sent as ----------

  /** The context of one write: it holds the bytes until the write is done. */
  class WriteContext {
    const buffer: Buffer
    var bufs: seq<Window>

    /** Takes the buffer over; the windows it is written from hold exactly its contents. */
    constructor (source: Buffer)
      requires source.Valid() && source.list != []
      modifies source
      ensures source.Valid() && source.Contents() == []
      ensures buffer.Valid() && buffer.Contents() == old(source.Contents())
      ensures Shows(bufs, Chunks(buffer.views))
      ensures Join(Chunks(buffer.views)) == old(source.Contents())
    {
      buffer := new Buffer.Move(source);
      bufs := [];
      new;
      bufs := buffer.All();
      assert buffer.views[0..] == buffer.views;
      ChunksJoin(buffer.views);
    }
  }

  // ---------- runs of the read path ----------

  /** A window is allocated; `data` arrives, as much as fits, unless the read comes to nothing. */
  datatype Arrival = Arrival(data: seq<byte>, dropped: bool, take: nat)

  /** One alloc callback and the read callback that may follow it. */
  method Receive(conn: TcpConnection, a: Arrival) returns (stored: seq<byte>, taken: seq<byte>)
    requires conn.buffer.Valid() && conn !in conn.buffer.Repr
    requires !conn.destroyed && conn.hasMessageCallback
    modifies conn.buffer, conn.buffer.Repr
    ensures conn.buffer.Valid() && fresh(conn.buffer.Repr - old(conn.buffer.Repr)) && unchanged(conn)
    ensures stored <= a.data && (a.dropped ==> stored == [])
    ensures !a.dropped && a.data != [] ==> stored != []
    ensures taken + conn.buffer.Contents() == old(conn.buffer.Contents()) + stored
    ensures |taken| == if a.dropped then 0 else Least(a.take, |old(conn.buffer.Contents())| + |stored|)
  {
    hide Buffer.Contents, Flat, Layout, Storage, Sized;
    var w := conn.AllocCallback();
    stored, taken := [], [];
    if !a.dropped {
      stored := if |a.data| <= w.value.len then a.data else a.data[..w.value.len];
      conn.buffer.Store(w.value, stored);
      taken := conn.ReadCallback(|stored|, a.take);
    }
  }

  /** What a read callback leaves of the bytes `c` when there is one. */
  function LeftOf(c: seq<byte>, a: Arrival): seq<byte> {
    if a.dropped then c else c[Least(a.take, |c|)..]
  }

  /** What is left of `c` and the bytes stored for each arrival when all callbacks have run. */
  function Left(c: seq<byte>, stored: seq<seq<byte>>, arrivals: seq<Arrival>): seq<byte>
    requires |stored| <= |arrivals|
  {
    if stored == [] then c
    else
      var n := |stored| - 1;
      LeftOf(Left(c, stored[..n], arrivals) + stored[n], arrivals[n])
  }

  /**
    Every byte that arrived is taken or still in the buffer, once, and in order; each callback
    has taken as much as it asked for, as far as there was so much.
   */
  method ReceiveAll(conn: TcpConnection, arrivals: seq<Arrival>)
    returns (stored: seq<seq<byte>>, taken: seq<byte>)
    requires conn.buffer.Valid() && conn !in conn.buffer.Repr
    requires !conn.destroyed && conn.hasMessageCallback
    modifies conn.buffer, conn.buffer.Repr
    ensures conn.buffer.Valid() && fresh(conn.buffer.Repr - old(conn.buffer.Repr))
    ensures |stored| == |arrivals|
    ensures forall i :: 0 <= i < |arrivals| ==>
              && stored[i] <= arrivals[i].data
              && (stored[i] == [] <==> arrivals[i].dropped || arrivals[i].data == [])
    ensures taken + conn.buffer.Contents() == old(conn.buffer.Contents()) + Join(stored)
    ensures conn.buffer.Contents() == Left(old(conn.buffer.Contents()), stored, arrivals)
  {
    hide Buffer.Contents, Flat, Layout, Storage, Sized, Join, Left, LeftOf;
    stored, taken := [], [];
    LeftNothing(conn.buffer.Contents(), arrivals);
    JoinNothing();
    while |stored| < |arrivals|
      invariant conn.buffer.Valid() && fresh(conn.buffer.Repr - old(conn.buffer.Repr))
      invariant unchanged(conn)
      invariant |stored| <= |arrivals|
      invariant forall i :: 0 <= i < |stored| ==>
                  && stored[i] <= arrivals[i].data
                  && (stored[i] == [] <==> arrivals[i].dropped || arrivals[i].data == [])
      invariant taken + conn.buffer.Contents() == old(conn.buffer.Contents()) + Join(stored)
      invariant conn.buffer.Contents() == Left(old(conn.buffer.Contents()), stored, arrivals)
    {
      ghost var before := conn.buffer.Contents();
      var s, t := Receive(conn, arrivals[|stored|]);
      Conserved(old(conn.buffer.Contents()), Join(stored), taken, before, s, t, conn.buffer.Contents());
      TakenLeaves(before + s, t, conn.buffer.Contents(), arrivals[|stored|]);
      LeftMore(old(conn.buffer.Contents()), stored, s, arrivals);
      JoinSnoc(stored, s);
      stored, taken := stored + [s], taken + t;
    }
  }

  lemma LeftNothing(c: seq<byte>, arrivals: seq<Arrival>)
    ensures Left(c, [], arrivals) == c
  {
  }

  lemma LeftMore(c: seq<byte>, stored: seq<seq<byte>>, s: seq<byte>, arrivals: seq<Arrival>)
    requires |stored| < |arrivals|
    ensures Left(c, stored + [s], arrivals) == LeftOf(Left(c, stored, arrivals) + s, arrivals[|stored|])
  {
    assert (stored + [s])[..|stored|] == stored;
  }

  lemma TakenLeaves(all: seq<byte>, t: seq<byte>, after: seq<byte>, a: Arrival)
    requires t + after == all && |t| == if a.dropped then 0 else Least(a.take, |all|)
    ensures after == LeftOf(all, a)
  {
  }

  /** After a callback that takes whatever there is, nothing is left, whatever the others took. */
  lemma AllTaken(c: seq<byte>, stored: seq<seq<byte>>, arrivals: seq<Arrival>)
    requires 0 < |stored| <= |arrivals|
    requires var a := arrivals[|stored| - 1]; !a.dropped && a.take >= |c| + |Join(stored)|
    ensures Left(c, stored, arrivals) == []
  {
    var n := |stored| - 1;
    LeftBound(c, stored[..n], arrivals);
    JoinSnoc(stored[..n], stored[n]);
    assert stored[..n] + [stored[n]] == stored;
  }

  lemma {:induction false} LeftBound(c: seq<byte>, stored: seq<seq<byte>>, arrivals: seq<Arrival>)
    requires |stored| <= |arrivals|
    ensures |Left(c, stored, arrivals)| <= |c| + |Join(stored)|
  {
    if stored != [] {
      var n := |stored| - 1;
      LeftBound(c, stored[..n], arrivals);
      JoinSnoc(stored[..n], stored[n]);
      assert stored[..n] + [stored[n]] == stored;
    }
  }

  lemma Conserved(start: seq<byte>, joined: seq<byte>, taken: seq<byte>, before: seq<byte>,
      s: seq<byte>, t: seq<byte>, after: seq<byte>)
    requires taken + before == start + joined && t + after == before + s
    ensures (taken + t) + after == start + (joined + s)
  {
    Assoc(taken, t, after);
    Assoc(taken, before, s);
    Assoc(start, joined, s);
  }
}
