/** The two zero-copy streams a message is written to and read from. */
module BufferStreams {
  import opened Bytes
  import opened Blocks
  import opened DataBlocks
  import opened Integers
  import opened Buffers

  // ---------- output ----------

  /** `w` ends where the buffer's contents end. */
  ghost predicate AtTail(buffer: Buffer, w: Window)
    reads buffer, buffer.Repr
  {
    && buffer.Mirrored() && buffer.last < |buffer.list|
    && var b := buffer.list[buffer.last];
    && w.data == b.buffer && b.read <= w.at && w.at + w.len == b.write
    && (b.read == w.at ==> w.at == 0)
  }

  /** What is left of a window of `len` bytes after these BackUp calls. */
  function AfterBackUps(len: nat, counts: seq<nat>): (left: nat)
    ensures left <= len
  {
    if counts == [] then len else AfterBackUps(len - Least(counts[0], len), counts[1..])
  }

  /** As far as both reach, the same bytes. */
  predicate Agree(s: seq<byte>, t: seq<byte>) {
    forall i :: 0 <= i < |s| && i < |t| ==> s[i] == t[i]
  }

  /** What a writer does with one window: the bytes it stores, then the counts it backs up by. */
  datatype Round = Round(data: seq<byte>, backUps: seq<nat>)

  class BufferOutputStream {
    const buffer: Buffer
    const originalSize: nat

    constructor (buffer: Buffer)
      ensures this.buffer == buffer && ByteCount() == 0
    {
      this.buffer := buffer;
      originalSize := buffer.readable;
    }

    /** Takes in a whole window at once, whatever bytes it holds, to be written afterwards. */
    method Next() returns (w: Window)
      requires buffer.Valid()
      modifies buffer, buffer.Repr
      ensures buffer.Valid() && fresh(buffer.Repr - old(buffer.Repr))
      ensures w.len > 0 && AtTail(buffer, w) && w.data in buffer.Repr
      ensures |buffer.Contents()| == |old(buffer.Contents())| + w.len
      ensures old(buffer.Contents()) <= buffer.Contents()
    {
      hide Flat, Layout, Storage, Sized, Buffer.Contents;
      w := buffer.Next();
      TargetOk(buffer);
      buffer.Extend(w.len);
    }

    /** Gives back the last `count` bytes of the last window. */
    method BackUp(count: nat)
      requires buffer.Valid() && buffer.last < |buffer.list|
      requires count <= buffer.list[buffer.last].write - buffer.list[buffer.last].read
      modifies buffer, buffer.Repr
      ensures buffer.Valid() && buffer.Repr == old(buffer.Repr)
      ensures buffer.list == old(buffer.list) && buffer.last == old(buffer.last)
      ensures var b := old(buffer.views[buffer.last]);
              buffer.views == old(buffer.views)[buffer.last := b.SetWrite(b.write - count)]
      ensures count <= |old(buffer.Contents())|
      ensures buffer.Contents() == old(buffer.Contents())[..|old(buffer.Contents())| - count]
    {
      buffer.Unwrite(count);
    }

    function ByteCount(): int
      reads buffer
    {
      buffer.readable - originalSize
    }

    /** One round of a writer: take a window, store what fits of `data`, give back the rest. */
    method WriteSome(data: seq<byte>) returns (n: nat)
      requires buffer.Valid()
      modifies buffer, buffer.Repr
      ensures buffer.Valid() && fresh(buffer.Repr - old(buffer.Repr))
      ensures n <= |data| && (data != [] ==> n > 0)
      ensures buffer.Contents() == old(buffer.Contents()) + data[..n]
    {
      hide Flat, Layout, Storage, Sized, Buffer.Contents;
      var w := Next();
      n := if |data| < w.len then |data| else w.len;
      ghost var c := buffer.Contents();
      buffer.Overwrite(w, data[..n]);
      SplicedTail(old(buffer.Contents()), c, w.len, data[..n]);
      BackUp(w.len - n);
    }

    /** A whole message: every byte ends up in the buffer, in order, and is counted. */
    method WriteAll(data: seq<byte>)
      requires buffer.Valid()
      modifies buffer, buffer.Repr
      ensures buffer.Valid() && fresh(buffer.Repr - old(buffer.Repr))
      ensures buffer.Contents() == old(buffer.Contents()) + data
      ensures ByteCount() == old(ByteCount()) + |data|
    {
      hide Flat, Layout, Storage, Sized, Buffer.Contents;
      var done := 0;
      while done < |data|
        invariant buffer.Valid() && fresh(buffer.Repr - old(buffer.Repr))
        invariant done <= |data|
        invariant buffer.Contents() == old(buffer.Contents()) + data[..done]
      {
        var n := WriteSome(data[done..]);
        Assoc(old(buffer.Contents()), data[..done], data[done..][..n]);
        assert data[..done] + data[done..][..n] == data[..done + n];
        done := done + n;
      }
      buffer.Counted();
    }

    /** BackUp calls in a row, none of them beyond what is left of the window. */
    method BackUpAll(counts: seq<nat>, w: Window) returns (left: nat)
      requires buffer.Valid() && AtTail(buffer, w)
      modifies buffer, buffer.Repr
      ensures buffer.Valid() && buffer.Repr == old(buffer.Repr)
      ensures left == AfterBackUps(w.len, counts)
      ensures w.len <= |old(buffer.Contents())|
      ensures buffer.Contents() == old(buffer.Contents())[..|old(buffer.Contents())| - (w.len - left)]
      decreases counts
    {
      hide Flat, Layout, Storage, Sized, Buffer.Contents;
      TailHeld(buffer, w);
      left := w.len;
      if counts != [] {
        var count := Least(counts[0], w.len);
        BackUp(count);
        left := BackUpAll(counts[1..], Window(w.data, w.at, w.len - count));
      }
    }

    /** One round: what it leaves in the buffer begins with the bytes stored. */
    method WriteRound(r: Round) returns (kept: seq<byte>, size: nat)
      requires buffer.Valid()
      modifies buffer, buffer.Repr
      ensures buffer.Valid() && fresh(buffer.Repr - old(buffer.Repr))
      ensures size > 0 && |kept| == AfterBackUps(size, r.backUps) && Agree(kept, r.data)
      ensures buffer.Contents() == old(buffer.Contents()) + kept
    {
      hide Flat, Layout, Storage, Sized, Buffer.Contents;
      buffer.Counted();
      var before := buffer.readable;
      var w := Next();
      var n := Least(|r.data|, w.len);
      ghost var c := buffer.Contents();
      buffer.Overwrite(w, r.data[..n]);
      var left := BackUpAll(r.backUps, w);
      SplicedKept(old(buffer.Contents()), c, w.len, r.data[..n], left);
      buffer.Counted();
      var all := buffer.ToString(buffer.readable);
      kept, size := all[before..], w.len;
    }

    /**
      Any session of Next, writing and BackUp.  The buffer has grown by exactly what was not
      given back of each window, and ByteCount tells how much.
     */
    method Session(rounds: seq<Round>) returns (kept: seq<seq<byte>>, sizes: seq<nat>)
      requires buffer.Valid()
      modifies buffer, buffer.Repr
      ensures buffer.Valid() && fresh(buffer.Repr - old(buffer.Repr))
      ensures |kept| == |sizes| == |rounds|
      ensures forall i :: 0 <= i < |rounds| ==>
                && sizes[i] > 0 && |kept[i]| == AfterBackUps(sizes[i], rounds[i].backUps)
                && Agree(kept[i], rounds[i].data)
      ensures buffer.Contents() == old(buffer.Contents()) + Join(kept)
      ensures ByteCount() == old(ByteCount()) + |Join(kept)|
    {
      hide Flat, Layout, Storage, Sized, Join, Buffer.Contents, Agree;
      kept, sizes := [], [];
      JoinNothing();
      while |kept| < |rounds|
        invariant buffer.Valid() && fresh(buffer.Repr - old(buffer.Repr))
        invariant |kept| == |sizes| <= |rounds|
        invariant forall i :: 0 <= i < |kept| ==>
                    && sizes[i] > 0 && |kept[i]| == AfterBackUps(sizes[i], rounds[i].backUps)
                    && Agree(kept[i], rounds[i].data)
        invariant buffer.Contents() == old(buffer.Contents()) + Join(kept)
      {
        var k, size := WriteRound(rounds[|kept|]);
        JoinSnoc(kept, k);
        Assoc(old(buffer.Contents()), Join(kept), k);
        kept, sizes := kept + [k], sizes + [size];
      }
      buffer.Counted();
    }
  }

  lemma TailHeld(buffer: Buffer, w: Window)
    requires buffer.Valid() && AtTail(buffer, w)
    ensures w.len <= |buffer.Contents()|
  {
    FlatUpTo(buffer.views, buffer.last);
    OkAt(buffer.views, buffer.last, buffer.last);
  }

  lemma TargetOk(buffer: Buffer)
    requires buffer.Valid() && buffer.last < |buffer.list|
    requires Target(buffer.views, buffer.last) < |buffer.list|
    ensures var b := buffer.views[Target(buffer.views, buffer.last)];
            b.read <= b.write <= b.Capacity() && (b.read == b.write ==> b.read == 0 || b.write == b.Capacity())
  {
    OkAt(buffer.views, buffer.last, Target(buffer.views, buffer.last));
  }

  /** A session on a new stream: in the end the stream counts just the bytes that were kept. */
  method WriteSession(buffer: Buffer, rounds: seq<Round>) returns (stream: BufferOutputStream, kept: seq<seq<byte>>)
    requires buffer.Valid()
    modifies buffer, buffer.Repr
    ensures buffer.Valid() && fresh(buffer.Repr - old(buffer.Repr)) && fresh(stream)
    ensures stream.buffer == buffer && buffer.Contents() == old(buffer.Contents()) + Join(kept)
    ensures stream.ByteCount() == |Join(kept)|
    ensures |kept| == |rounds| && forall i :: 0 <= i < |rounds| ==> Agree(kept[i], rounds[i].data)
  {
    hide Flat, Layout, Storage, Sized, Join, Buffer.Contents, Agree, Buffer.Valid;
    stream := new BufferOutputStream(buffer);
    var sizes;
    kept, sizes := stream.Session(rounds);
  }

  /** A message written through a new stream: the stream counts its bytes. */
  method WriteMessage(buffer: Buffer, data: seq<byte>) returns (stream: BufferOutputStream)
    requires buffer.Valid()
    modifies buffer, buffer.Repr
    ensures buffer.Valid() && fresh(buffer.Repr - old(buffer.Repr)) && fresh(stream)
    ensures stream.buffer == buffer && buffer.Contents() == old(buffer.Contents()) + data
    ensures stream.ByteCount() == |data|
  {
    hide Buffer.Contents, Buffer.Valid;
    stream := new BufferOutputStream(buffer);
    stream.WriteAll(data);
  }

  /** Overwriting the start of a tail of `len` bytes and cutting off the rest of it. */
  lemma SplicedTail(c: seq<byte>, d: seq<byte>, len: nat, data: seq<byte>)
    requires c <= d && |d| == |c| + len && |data| <= len
    ensures Spliced(d, |d| - len, data)[..|d| - (len - |data|)] == c + data
  {
  }

  lemma SplicedKept(c: seq<byte>, d: seq<byte>, len: nat, data: seq<byte>, left: nat)
    requires c <= d && |d| == |c| + len && |data| <= len && left <= len
    ensures var e := Spliced(d, |d| - len, data)[..|d| - (len - left)];
            e == c + e[|c|..] && |e[|c|..]| == left && Agree(e[|c|..], data)
  {
  }

  // ---------- input ----------

  const SIZE_MAX: nat := 0x1_0000_0000_0000_0000

  /** What one call of Next does: false, a failed assert, a walk past the list's end, or a window. */
  datatype Pull = End | Failed | Stray | Got(window: Window)

  datatype Ending = Ended | Aborted | Strayed

  /**
    The blocks handed out to a reader that pulls until the stream ends, how it ends, and what
    `readableBytes_` is then.
   */
  datatype Pulls = Pulls(blocks: seq<nat>, ending: Ending, left: uint64)

  /** No block from `first` on has data, or `first` is past the last block. */
  predicate Spent(vs: seq<Block>, last: nat, first: nat)
    requires first <= |vs|
  {
    first > last || DataAt(vs, first) == |vs|
  }

  /**
    Each call hands out the first block with data from `first` on, but moves `first` on by
    one block only.
   */
  function PullAll(vs: seq<Block>, last: nat, first: nat, readable: uint64, len: uint64): Pulls
    requires first <= |vs|
    decreases |vs| - first
  {
    if len == 0 then Pulls([], Ended, readable)
    else if readable == 0 then Pulls([], Aborted, readable) // assert(readableBytes() > 0)
    else if Spent(vs, last, first) then Pulls([], Strayed, readable)
    else
      var p := DataAt(vs, first);
      var n := |vs[p].Readable()|;
      var rest := PullAll(vs, last, first + 1, ToUint64(readable - n), ToUint64(len - n));
      Pulls([p] + rest.blocks, rest.ending, rest.left)
  }

  /** The readable bytes of these blocks, one after the other. */
  function Gathered(vs: seq<Block>, blocks: seq<nat>): seq<byte> {
    if blocks == [] then []
    else (if blocks[0] < |vs| then vs[blocks[0]].Readable() else []) + Gathered(vs, blocks[1..])
  }

  lemma PullStops(vs: seq<Block>, last: nat, first: nat, readable: uint64, len: uint64)
    requires first <= |vs|
    ensures len == 0 || readable == 0 || Spent(vs, last, first) ==>
              PullAll(vs, last, first, readable, len) ==
              Pulls([], if len == 0 then Ended else if readable == 0 then Aborted else Strayed, readable)
  {
  }

  lemma BelowMax(n: nat)
    ensures n < SIZE_MAX <==> n < 0x1_0000_0000_0000_0000
  {
  }

  lemma SpentIff(vs: seq<Block>, last: nat, first: nat)
    requires first <= |vs|
    ensures Spent(vs, last, first) <==> first > last || DataAt(vs, first) == |vs|
    ensures DataAt(vs, first) <= |vs|
  {
  }

  /** The next pull, and all that follow it. */
  lemma PullAhead(vs: seq<Block>, last: nat, first: nat, readable: uint64, len: uint64)
    requires first <= |vs|
    ensures var all := PullAll(vs, last, first, readable, len);
            if len == 0 || readable == 0 || Spent(vs, last, first) then
              all == Pulls([], if len == 0 then Ended else if readable == 0 then Aborted else Strayed, readable)
            else
              var p := DataAt(vs, first);
              && first < |vs| && p < |vs|
              && var r := vs[p].Readable();
              var rest := PullAll(vs, last, first + 1, ToUint64(readable - |r|), ToUint64(len - |r|));
              && all.ending == rest.ending && all.left == rest.left
              && all.blocks != [] && all.blocks[1..] == rest.blocks
              && Gathered(vs, all.blocks) == r + Gathered(vs, rest.blocks)
  {
    hide DataAt, PullAll, Gathered, ToUint64, Block.Readable;
    PullStops(vs, last, first, readable, len);
    if len > 0 && readable > 0 && !Spent(vs, last, first) {
      var p := DataAt(vs, first);
      var more, left := ToUint64(readable - |vs[p].Readable()|), ToUint64(len - |vs[p].Readable()|);
      PullGoesOn(vs, last, first, readable, len, p, more, left);
      var blocks := PullAll(vs, last, first + 1, more, left).blocks;
      GatheredCons(vs, p, blocks);
      assert ([p] + blocks)[1..] == blocks;
    }
  }

  lemma PullsOne(vs: seq<Block>, last: nat, first: nat, readable: uint64, len: uint64)
    requires first <= |vs|
    ensures len > 0 && readable > 0 && !Spent(vs, last, first) ==>
              var blocks := PullAll(vs, last, first, readable, len).blocks;
              blocks != [] && blocks[0] == DataAt(vs, first)
  {
    hide ToUint64;
  }

  lemma PullGoesOn(vs: seq<Block>, last: nat, first: nat, readable: uint64, len: uint64,
      p: nat, more: uint64, left: uint64)
    requires first <= |vs| && len > 0 && readable > 0 && !Spent(vs, last, first)
    requires p == DataAt(vs, first)
    requires more == ToUint64(readable - |vs[p].Readable()|) && left == ToUint64(len - |vs[p].Readable()|)
    ensures var all, rest := PullAll(vs, last, first, readable, len), PullAll(vs, last, first + 1, more, left);
            && all.ending == rest.ending && all.left == rest.left && all.blocks == [p] + rest.blocks
  {
  }

  lemma Wrapped(a: uint64, m: uint64)
    ensures ToUint64(a - m) == a - m + if m <= a then 0 else SIZE_MAX
  {
  }

  class BufferInputStream {
    const buffer: Buffer
    const originalSize: nat
    var bytes: uint64

    constructor (buffer: Buffer, len: uint64)
      ensures this.buffer == buffer && bytes == len && ByteCount() == 0
    {
      this.buffer := buffer;
      originalSize := buffer.readable;
      bytes := len;
    }

    /** The difference of two size_t, as a signed number. */
    function ByteCount(): int64
      reads buffer
    {
      ToInt64(originalSize - buffer.readable)
    }

    /** The buffer as the stream finds and leaves it; `readable` counts as a size_t does. */
    ghost predicate Ready()
      reads buffer, buffer.Repr
    {
      && buffer.Mirrored() && Settled(buffer.views, buffer.last)
      && buffer.first <= |buffer.list| && buffer.readable < SIZE_MAX
    }

    ghost function Pulled(): Pulls
      requires buffer.first <= |buffer.views| && buffer.readable < SIZE_MAX
      reads this, buffer
    {
      PullAll(buffer.views, buffer.last, buffer.first, buffer.readable, bytes)
    }

    /** Hands out the first block that has data, whole, and counts it off. */
    method Next() returns (r: Pull)
      requires Ready()
      modifies this`bytes, buffer`first, buffer`readable
      ensures Ready()
      ensures r == End <==> old(bytes) == 0
      ensures r == Failed <==> old(bytes) != 0 && old(buffer.readable) == 0
      ensures r == Stray <==>
                old(bytes != 0 && buffer.readable != 0 && Spent(buffer.views, buffer.last, buffer.first))
      ensures r.Got? ==>
                var p := old(DataAt(buffer.views, buffer.first));
                && p < |buffer.list|
                && r.window == Window(buffer.list[p].buffer, buffer.list[p].read, |buffer.views[p].Readable()|)
                && r.window.Bytes() == buffer.views[p].Readable() != []
                && bytes == ToUint64(old(bytes) - r.window.len)
                && buffer.readable == ToUint64(old(buffer.readable) - r.window.len)
                && buffer.first == old(buffer.first) + 1
                && CountsOn(old(ByteCount()), r.window.Bytes(), ByteCount())
      ensures !r.Got? ==> unchanged(this) && unchanged(buffer)
    {
      hide *;
      ReadyParts();
      Count();
      SpentIff(buffer.views, buffer.last, buffer.first);
      if bytes <= 0 {
        return End;
      }
      if buffer.readable == 0 {
        return Failed;
      }
      if buffer.first > buffer.last {
        return Stray; // all() walks past the list's end
      }
      var bufs := buffer.All();
      buffer.BlockShown(bufs);
      if |bufs| == 0 {
        return Stray; // bufs[0] of an empty vector
      }
      var w := bufs[0];
      bytes := ToUint64(bytes - w.len);
      buffer.first := buffer.first + 1;
      buffer.readable := ToUint64(buffer.readable - w.len);
      r := Got(w);
      Recounted(old(ByteCount()), old(buffer.readable), w.len);
      BelowMax(buffer.readable);
      IsReady();
    }

    lemma Count()
      ensures ByteCount() == ToInt64(originalSize - buffer.readable)
    {
    }

    /** What the count becomes when `n` more bytes have been handed out. */
    lemma Recounted(count: int64, readable: nat, n: nat)
      requires count == ToInt64(originalSize - readable) && buffer.readable == ToUint64(readable - n)
      ensures forall got: seq<byte> :: |got| == n ==> CountsOn(count, got, ByteCount())
    {
    }

    /** Next, and what is still to be pulled after it. */
    method PullOne() returns (r: Pull)
      requires Ready()
      modifies this`bytes, buffer`first, buffer`readable
      ensures Ready() && buffer.views == old(buffer.views)
      ensures r.Got? ==>
                && r.window.len == |r.window.Bytes()| > 0
                && old(Pulled()).ending == Pulled().ending && old(Pulled()).left == Pulled().left
                && old(Pulled()).blocks != [] && old(Pulled()).blocks[1..] == Pulled().blocks
                && Gathered(buffer.views, old(Pulled()).blocks) ==
                   r.window.Bytes() + Gathered(buffer.views, Pulled().blocks)
                && buffer.first == old(buffer.first) + 1
                && CountsOn(old(ByteCount()), r.window.Bytes(), ByteCount())
      ensures !r.Got? ==> unchanged(buffer) && old(Pulled()) == Pulls([], Reason(r), buffer.readable)
    {
      hide Spent, DataAt, PullAll, Gathered, ToUint64, Settled, Block.Readable;
      hide BufferInputStream.Ready, Buffer.Mirrored, Window.Bytes;
      ReadyParts();
      PullAhead(buffer.views, buffer.last, buffer.first, buffer.readable, bytes);
      r := Next();
    }

    /** The state a stream works on, part by part. */
    lemma ReadyParts()
      requires Ready()
      ensures buffer.Mirrored() && Settled(buffer.views, buffer.last)
      ensures buffer.first <= |buffer.list| == |buffer.views| && buffer.readable < SIZE_MAX
    {
    }

    lemma IsReady()
      requires buffer.Mirrored() && Settled(buffer.views, buffer.last)
      requires buffer.first <= |buffer.list| && buffer.readable < SIZE_MAX
      ensures Ready()
    {
    }

    /** Pulls windows until the stream ends, as parsing a message to its end does. */
    method Drain() returns (ending: Ending, got: seq<byte>)
      requires Ready()
      modifies this`bytes, buffer`first, buffer`readable
      ensures Ready()
      ensures ending == old(Pulled()).ending
      ensures got == Gathered(buffer.views, old(Pulled()).blocks)
      ensures buffer.first == old(buffer.first) + |old(Pulled()).blocks|
      ensures buffer.readable == old(Pulled()).left
      ensures CountsOn(old(ByteCount()), got, ByteCount())
      decreases |buffer.list| - buffer.first
    {
      GatheredNothing(buffer.views);
      hide *;
      ghost var count := ByteCount();
      CountsNone(count);
      var r := PullOne();
      if r.Got? {
        var head := WindowBytes(r.window);
        ghost var next := ByteCount();
        var tail;
        ending, tail := Drain();
        CountsBoth(count, head, next, tail, ByteCount());
        got := head + tail;
      } else {
        ending, got := Reason(r), [];
      }
    }
  }

  /** The count has gone on by these bytes, as a signed 64-bit number does. */
  predicate CountsOn(count: int64, got: seq<byte>, next: int64) {
    next == ToInt64(count + |got|)
  }

  lemma CountsNone(count: int64)
    ensures CountsOn(count, [], count)
  {
  }

  lemma CountsBoth(count: int64, head: seq<byte>, next: int64, tail: seq<byte>, last: int64)
    requires CountsOn(count, head, next) && CountsOn(next, tail, last)
    ensures CountsOn(count, head + tail, last)
  {
  }

  /** Why a stream hands out no window. */
  function Reason(r: Pull): Ending
    requires !r.Got?
  {
    match r
    case End => Ended
    case Failed => Aborted
    case Stray => Strayed
  }

  lemma GatheredCons(vs: seq<Block>, p: nat, blocks: seq<nat>)
    requires p < |vs|
    ensures Gathered(vs, [p] + blocks) == vs[p].Readable() + Gathered(vs, blocks)
  {
    assert ([p] + blocks)[1..] == blocks;
  }

  lemma GatheredNothing(vs: seq<Block>)
    ensures Gathered(vs, []) == []
  {
  }

  method WindowBytes(w: Window) returns (s: seq<byte>)
    requires w.len == |w.Bytes()| > 0
    ensures s == w.Bytes()
  {
    s := w.data[w.at..w.at + w.len];
  }

  // ---------- which blocks a reader is handed ----------

  lemma NoEndBeyond(bs: seq<Block>, n: nat)
    requires n > |Flat(bs)|
    ensures !EndsAtBlock(bs, n)
  {
    forall k | 0 <= k <= |bs| ensures |Flat(bs[..k])| != n {
      FlatTake(bs, k, |bs|);
      assert bs[..|bs|] == bs;
    }
  }

  lemma EndsAtNothing(bs: seq<Block>)
    ensures EndsAtBlock(bs, 0)
  {
    assert |Flat(bs[..0])| == 0;
  }

  /** The positions from `first` on. */
  predicate InTurn(blocks: seq<nat>, first: nat) {
    forall i :: 0 <= i < |blocks| ==> blocks[i] == first + i
  }

  lemma InTurnCons(blocks: seq<nat>, first: nat)
    requires InTurn(blocks, first + 1)
    ensures InTurn([first] + blocks, first)
  {
  }

  /**
    `p` is to be handed one block after the other from `first` on, and to get their first
    `len` bytes if these end where a block's readable bytes end, or else a failed assert.
   */
  ghost predicate OneByOne(vs: seq<Block>, first: nat, len: nat, p: Pulls)
    requires first <= |vs|
  {
    var c := Flat(vs[first..]);
    && InTurn(p.blocks, first)
    && p.ending == (if EndsAtBlock(vs[first..], len) then Ended else Aborted)
    && (p.ending == Ended ==>
          len <= |c| && Gathered(vs, p.blocks) == c[..len] && p.left == |c| - len)
  }

  lemma OneByOneMore(vs: seq<Block>, first: nat, len: nat, left: nat, p: Pulls, rest: Pulls)
    requires first < |vs| && |Flat(vs[first..])| < SIZE_MAX && len > 0
    requires left == len - |vs[first].Readable()| + if |vs[first].Readable()| <= len then 0 else SIZE_MAX
    requires p.blocks == [first] + rest.blocks && p.ending == rest.ending && p.left == rest.left
    requires OneByOne(vs, first + 1, left, rest)
    ensures OneByOne(vs, first, len, p)
  {
    var bs, r := vs[first..], vs[first].Readable();
    assert bs[0] == vs[first] && bs[1..] == vs[first + 1..];
    assert Flat(bs) == r + Flat(bs[1..]);
    hide EndsAtBlock, Flat, Block.Readable, Gathered, InTurn;
    EndsWrapped(bs, len, left);
    InTurnCons(rest.blocks, first);
    GatheredCons(vs, first, rest.blocks);
    if EndsAtBlock(bs, len) {
      TakeConcat(r, Flat(bs[1..]), len);
    }
  }

  /** Where no drained block comes first, the next window is that of block `first`. */
  lemma PullsNext(vs: seq<Block>, last: nat, first: nat, len: uint64)
    requires Settled(vs, last) && first <= |vs| && 0 < |Flat(vs[first..])| < SIZE_MAX
    requires first > 0 || last == 0 || vs[0].Readable() != []
    requires len > 0
    ensures first < |vs|
    ensures var n, c := |vs[first].Readable()|, |Flat(vs[first..])|;
            var left, all := ToUint64(len - n), PullAll(vs, last, first, c, len);
            && c == n + |Flat(vs[first + 1..])|
            && left == len - n + (if n <= len then 0 else SIZE_MAX)
            && var rest := PullAll(vs, last, first + 1, |Flat(vs[first + 1..])|, left);
            && all.blocks == [first] + rest.blocks && all.ending == rest.ending && all.left == rest.left
  {
    DataIsNext(vs, last, first);
    ChunksHead(vs, first);
    assert DataAt(vs, first) == first;
    hide Flat, Block.Readable, DataAt, PullAll, ToUint64, Layout;
    var n, c := |vs[first].Readable()|, |Flat(vs[first..])|;
    Wrapped(len, n);
    Wrapped(c, n);
    PullGoesOn(vs, last, first, c, len, first, |Flat(vs[first + 1..])|, ToUint64(len - n));
  }

  /**
    The stream does not cut its windows at its count.  Where no drained block comes first, a
    reader is handed one block after the other, none twice, and gets its bytes just when they
    end where a block does.
   */
  lemma {:induction false} PulledInOrder(vs: seq<Block>, last: nat, first: nat, len: uint64)
    requires Settled(vs, last) && first <= |vs| && |Flat(vs[first..])| < SIZE_MAX
    requires first > 0 || last == 0 || vs[0].Readable() != []
    ensures OneByOne(vs, first, len, PullAll(vs, last, first, |Flat(vs[first..])|, len))
    decreases |vs| - first
  {
    hide *;
    var c := Flat(vs[first..]);
    BelowMax(|c|);
    if len == 0 || c == [] {
      PulledNothing(vs, last, first, len);
    } else {
      PullsNext(vs, last, first, len);
      var left := ToUint64(len - |vs[first].Readable()|);
      PulledInOrder(vs, last, first + 1, left);
      OneByOneMore(vs, first, len, left, PullAll(vs, last, first, |c|, len),
        PullAll(vs, last, first + 1, |Flat(vs[first + 1..])|, left));
    }
  }

  lemma PulledNothing(vs: seq<Block>, last: nat, first: nat, len: uint64)
    requires first <= |vs| && |Flat(vs[first..])| < SIZE_MAX
    requires len == 0 || Flat(vs[first..]) == []
    ensures OneByOne(vs, first, len, PullAll(vs, last, first, |Flat(vs[first..])|, len))
  {
    PullStops(vs, last, first, |Flat(vs[first..])|, len);
    GatheredNothing(vs);
    hide EndsAtBlock, Flat, Gathered, PullAll, Spent;
    if len == 0 {
      EndsAtNothing(vs[first..]);
    } else {
      NoEndBeyond(vs[first..], len);
    }
  }

  /** The count wraps around once a window is longer than it, and is then out of reach. */
  lemma EndsWrapped(bs: seq<Block>, len: nat, left: nat)
    requires bs != [] && len > 0 && |Flat(bs)| < SIZE_MAX
    requires left == len - |bs[0].Readable()| + if |bs[0].Readable()| <= len then 0 else SIZE_MAX
    ensures EndsAtBlock(bs, len) <==> EndsAtBlock(bs[1..], left)
    ensures EndsAtBlock(bs, len) ==> len == |bs[0].Readable()| + left <= |Flat(bs)|
  {
    hide EndsAtBlock, Block.Readable;
    EndsStep(bs, len);
    if |bs[0].Readable()| > len {
      NoEndBeyond(bs[1..], left);
    } else if len > |Flat(bs)| {
      NoEndBeyond(bs, len);
    }
  }

  predicate Ascending(ns: seq<nat>) {
    forall i, j :: 0 <= i < j < |ns| ==> ns[i] < ns[j]
  }

  /** With a drained block in front and data behind it, the second block has data. */
  lemma SecondHasData(vs: seq<Block>, last: nat)
    requires Settled(vs, last) && last > 0 && vs[0].Readable() == [] && Flat(vs) != []
    ensures |vs| > 1 && vs[1].Readable() != []
    ensures Chunks(vs) == [vs[1].Readable()] + Chunks(vs[2..])
    ensures Flat(vs) == vs[1].Readable() + Flat(vs[2..])
    ensures Chunks(vs[2..]) == [] <==> Flat(vs[2..]) == []
    ensures DataAt(vs, 0) == DataAt(vs, 1) == 1
  {
    assert Flat(vs) == Flat(vs[1..]) && Chunks(vs) == Chunks(vs[1..]);
    DataIsNext(vs, last, 1);
    ChunksHead(vs, 1);
    ChunksJoin(vs[2..]);
    NoData(Chunks(vs[2..]));
  }

  /** With a drained block in front, the first block with data is handed out, and then again. */
  lemma PulledTwice(vs: seq<Block>, last: nat, len: uint64)
    requires Settled(vs, last) && last > 0 && vs[0].Readable() == []
    requires 0 < |Flat(vs)| < SIZE_MAX && len > 0
    ensures |vs| > 1
    ensures var p, n := PullAll(vs, last, 0, |Flat(vs)|, len), |vs[1].Readable()|;
            if len == n then p.blocks == [1] && p.ending == Ended
            else if |Chunks(vs)| == 1 then p.blocks == [1] && p.ending == Aborted
            else |p.blocks| >= 2 && p.blocks[0] == p.blocks[1] == 1
  {
    hide Flat, Chunks, Layout, Block.Readable, PullAll, ToUint64, DataAt, Gathered;
    SecondHasData(vs, last);
    var c, n := |Flat(vs)|, |vs[1].Readable()|;
    var more, left := ToUint64(c - n), ToUint64(len - n);
    Wrapped(c, n);
    Wrapped(len, n);
    PullGoesOn(vs, last, 0, c, len, 1, more, left);
    PullStops(vs, last, 1, more, left);
    PullsOne(vs, last, 1, more, left);
  }

  /**
    The blocks a reader is handed ascend, so that none is handed out twice, if and only if the
    first block has data, or at most one block does, or the count stops the reader at once.
    Then the walk never leaves the list, and a reader that ends has the first `len` bytes.
   */
  lemma HandedOutOnce(vs: seq<Block>, last: nat, len: uint64)
    requires Settled(vs, last) && |Flat(vs)| < SIZE_MAX
    ensures var p := PullAll(vs, last, 0, |Flat(vs)|, len);
            && (Ascending(p.blocks)
                <==> || (last > 0 ==> vs[0].Readable() != [])
                     || |Chunks(vs)| <= 1 || len == 0 || len == |Chunks(vs)[0]|)
            && (Ascending(p.blocks) ==>
                  && p.ending != Strayed
                  && (p.ending == Ended ==> len <= |Flat(vs)| && Gathered(vs, p.blocks) == Flat(vs)[..len]))
  {
    ChunksJoin(vs);
    NoData(Chunks(vs));
    assert vs[0..] == vs;
    if (last > 0 ==> vs[0].Readable() != []) || Flat(vs) == [] {
      if last > 0 && vs[0].Readable() == [] {
        PullStops(vs, last, 0, 0, len);
      } else {
        PulledInOrder(vs, last, 0, len);
      }
    } else if len > 0 {
      SecondHasData(vs, last);
      PulledTwice(vs, last, len);
    }
  }

  // ---------- a buffer whose reader is handed a block twice ----------

  /** The bytes of `a` fill the only block. */
  lemma FilledBlock(cs: seq<Block>, newLast: nat, a: seq<byte>)
    requires Appended([], 0, cs, newLast) && Settled(cs, newLast)
    requires Flat(cs) == a && IsCapacity(|a|)
    ensures |cs| == 1 && newLast == 0 && cs[0].write == cs[0].Capacity() == |a|
  {
    FlatUpTo(cs, newLast);
  }

  lemma OnlyBlock(bs: seq<Block>)
    requires |bs| == 1
    ensures Flat(bs) == bs[0].Readable()
  {
    FlatTakeOne(bs, 0);
    assert bs[..1] == bs;
  }

  lemma OwnBytes(bs: seq<Block>, b: seq<byte>)
    requires |bs| == 2 && Settled(bs, 1) && bs[0].Readable() == [] && Flat(bs) == b
    ensures bs[1].Readable() == b
  {
    FlatUpTo(bs, 1);
    FlatTakeOne(bs, 0);
  }

  lemma DrainedCursors(e: Block)
    requires e.Ok() && e.Readable() == []
    ensures e.read == e.write
  {
  }

  /** Too many for what compaction would free in a drained first block, `b` gets one of its own. */
  lemma OwnBlock(bs: seq<Block>, cs: seq<Block>, newLast: nat, b: seq<byte>)
    requires |bs| == 1 && bs[0].Ok() && bs[0].Readable() == [] && bs[0].write == bs[0].Capacity()
    requires Appended(bs, 0, cs, newLast) && Settled(cs, newLast) && newLast > 0
    requires cs[0] == bs[0].Written(b[..0]) && Flat(cs) == b && |b| > MIN_BUFFER_SIZE
    ensures |cs| == 2 && newLast == 1 && cs[0].Readable() == []
    ensures cs[1].read == 0 && cs[1].write == |b| <= cs[1].Capacity() < 2 * |b|
  {
    WrittenNothing(bs[0]);
    FlatUpTo(cs, 1);
    FlatTakeOne(cs, 0);
    OkAt(cs, 1, 1);
    assert IsCapacity(cs[1].Capacity() / 2);
  }

  /** The next bytes fill the second block up and go on in a third. */
  lemma ThirdBlock(bs: seq<Block>, cs: seq<Block>, newLast: nat, c: seq<byte>)
    requires |bs| == 2 && Settled(bs, 1) && bs[0].Readable() == [] && bs[1].Readable() != []
    requires bs[1].Capacity() - bs[1].write < |c|
    requires Appended(bs, 1, cs, newLast) && Settled(cs, newLast) && newLast > 1
    requires cs[1] == bs[1].Written(c[..bs[1].Capacity() - bs[1].write]) && Flat(cs) == Flat(bs) + c
    ensures newLast < |cs| && cs[0].Readable() == [] && DataAt(cs, 0) == DataAt(cs, 1) == 1
    ensures bs[1].Readable() <= cs[1].Readable() && |cs[1].Readable()| < |Flat(cs)|
  {
    WrittenExtends(bs[1], c[..bs[1].Capacity() - bs[1].write]);
    FlatUpTo(bs, 1);
    FlatTakeOne(bs, 0);
    assert bs[..0] == [];
  }

  /** A new buffer with one block, filled with `a`. */
  method NewFilled(a: seq<byte>) returns (buffer: Buffer)
    requires IsCapacity(|a|)
    ensures fresh(buffer) && fresh(buffer.Repr) && buffer.Valid() && buffer.Contents() == a
    ensures |buffer.list| == |buffer.views| == 1 && buffer.last == 0
    ensures buffer.views[0].write == buffer.views[0].Capacity() == |a|
  {
    hide Flat, Layout, Storage, Sized, Apart, Appended, KeepsEnds, EndsAtBlock, Sealed, IsCapacity;
    hide Block.Readable, Block.Ok, LeastCapacity;
    buffer := new Buffer();
    buffer.Append(a);
    FilledBlock(buffer.views, buffer.last, a);
  }

  lemma Whole<T>(s: seq<T>, t: seq<T>)
    requires |t| == 1 && s != [] && |s| <= |t| && s == t[|t| - |s|..]
    ensures s == t
  {
  }

  lemma AllDrained(buffer: Buffer)
    requires buffer.Valid() && |buffer.list| == 1 && buffer.Contents() == []
    ensures |buffer.views| == 1
    ensures var e := buffer.views[0]; e.Ok() && e.Readable() == [] && e.Capacity() == buffer.list[0].buffer.Length
  {
    buffer.BlockOk(0);
    OnlyBlock(buffer.views);
  }

  /** Written to its end and read away, the only block stays. */
  method ReadAway(buffer: Buffer)
    requires buffer.Valid() && |buffer.list| == 1 && buffer.last == 0
    requires buffer.views[0].write == buffer.views[0].Capacity()
    modifies buffer, buffer.Repr
    ensures buffer.Valid() && buffer.Repr == old(buffer.Repr) && buffer.Contents() == []
    ensures buffer.list == old(buffer.list) && buffer.last == 0
    ensures var e := buffer.views[0];
            e.Ok() && e.Readable() == [] && e.write == e.Capacity() == old(buffer.views[0].Capacity())
  {
    ghost var list, n := buffer.list, buffer.views[0].Capacity();
    assert n == list[0].buffer.Length;
    hide *;
    buffer.Counted();
    buffer.Discard(buffer.readable);
    Whole(buffer.list, list);
    AllDrained(buffer);
  }

  /** The bytes of `b` begin a second block, which those of `c` fill. */
  method FillBehind(buffer: Buffer, b: seq<byte>, c: seq<byte>)
    requires buffer.Valid() && buffer.Contents() == [] && |buffer.list| == 1 && buffer.last == 0
    requires var e := buffer.views[0]; e.Ok() && e.Readable() == [] && e.write == e.Capacity() < |b|
    requires buffer.views[0].Capacity() >= MIN_BUFFER_SIZE && |b| <= |c|
    modifies buffer, buffer.Repr
    ensures buffer.Valid() && |buffer.Contents()| == |b| + |c|
    ensures 1 < buffer.last < |buffer.views| && DataAt(buffer.views, 0) == DataAt(buffer.views, 1) == 1
    ensures b <= buffer.views[1].Readable() && |buffer.views[1].Readable()| < |b| + |c|
  {
    hide Flat, Layout, Storage, Sized, Apart, Appended, KeepsEnds, EndsAtBlock, Sealed, IsCapacity;
    hide Block.Readable, Block.Ok, LeastCapacity;
    ghost var bs := buffer.views;
    DrainedCursors(bs[0]);
    buffer.Append(b);
    OwnBlock(bs, buffer.views, buffer.last, b);
    bs := buffer.views;
    OwnBytes(bs, b);
    buffer.Append(c);
    ThirdBlock(bs, buffer.views, buffer.last, c);
  }

  lemma WholeStream(stream: BufferInputStream)
    requires stream.buffer.Valid() && stream.buffer.readable < SIZE_MAX
    ensures stream.Ready() && stream.buffer.first == 0
    ensures |stream.buffer.list| == |stream.buffer.views| && stream.buffer !in stream.buffer.Repr
  {
  }

  /**
    A drained block stays in front of the data when more is appended than it could hold; a
    stream on the whole buffer then hands out the second block twice in a row.
   */
  method HandedOutTwice(a: seq<byte>, b: seq<byte>, c: seq<byte>) returns (first: Pull, second: Pull)
    requires IsCapacity(|a|) && |a| < |b| <= |c| && |b| + |c| < SIZE_MAX
    ensures first.Got? && second == first
    ensures b <= first.window.Bytes()
  {
    hide Flat, Layout, IsCapacity, Block.Readable, Block.Ok, Apart, DataAt, ToUint64, Window.Bytes;
    hide Buffer.Between, Buffer.Mirrored, Buffer.Contents, BufferInputStream.Ready;
    hide BufferInputStream.ByteCount, CountsOn;
    CapacityAtLeastMin(|a|);
    var buffer := NewFilled(a);
    ReadAway(buffer);
    FillBehind(buffer, b, c);
    buffer.Counted();
    var stream := new BufferInputStream(buffer, |b| + |c|);
    Wrapped(|b| + |c|, |buffer.views[1].Readable()|);
    WholeStream(stream);
    first := stream.Next();
    second := stream.Next();
  }

  lemma NoData(chunks: seq<seq<byte>>)
    requires forall c :: c in chunks ==> c != []
    ensures Join(chunks) == [] <==> chunks == []
  {
    if chunks != [] {
      assert chunks[0] in chunks;
    }
  }
}
