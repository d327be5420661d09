/**
  Block states as values, the flat byte sequence a list of blocks stands for, and the
  layout that every operation of the buffer keeps.  The classes DataBlock and Buffer are
  proved against these functions.
 */
module Blocks {
  import opened Bytes

  const MIN_BUFFER_SIZE: nat := 1024

  /** The capacities a block can have: 1024, 2048, 4096, ... */
  predicate IsCapacity(n: nat) {
    n == MIN_BUFFER_SIZE || (n > MIN_BUFFER_SIZE && n % 2 == 0 && IsCapacity(n / 2))
  }

  lemma {:induction false} CapacitiesDouble(c: nat, d: nat)
    requires IsCapacity(c) && IsCapacity(d) && c < d
    ensures 2 * c <= d
  {
    if c > MIN_BUFFER_SIZE {
      CapacitiesDouble(c / 2, d / 2);
    } else {
      CapacityAtLeastMin(d / 2);
    }
  }

  lemma {:induction false} CapacityAtLeastMin(c: nat)
    requires IsCapacity(c)
    ensures c >= MIN_BUFFER_SIZE
  {
  }

  /** No smaller capacity holds `len` bytes. */
  ghost predicate LeastCapacity(c: nat, len: nat) {
    && IsCapacity(c)
    && len <= c
    && forall d: nat | IsCapacity(d) && len <= d :: c <= d
  }

  // ---------- one block ----------

  /** What a DataBlock holds: its bytes and its two cursors. */
  datatype Block = Block(bytes: seq<byte>, read: nat, write: nat) {

    function Capacity(): nat { |bytes| }

    /** Cursors in order, and an empty block only at one of its two ends. */
    predicate Ok() {
      && read <= write <= Capacity()
      && 0 < Capacity()
      && (read == write ==> read == 0 || read == Capacity())
    }

    /** The bytes between the cursors. */
    function Readable(): seq<byte> {
      if read <= write <= Capacity() then bytes[read..write] else []
    }

    /** The `n` bytes stored from the write cursor on. */
    function Beyond(n: nat): (s: seq<byte>)
      requires write + n <= Capacity()
      ensures |s| == n
    {
      bytes[write..write + n]
    }

    /** The reset rule applied after either cursor moves. */
    function Reset(): Block {
      if read == write && read != Capacity() then this.(read := 0, write := 0) else this
    }

    function SetRead(pos: nat): Block { this.(read := pos).Reset() }

    function SetWrite(pos: nat): Block { this.(write := pos).Reset() }

    /** Bytes copied over the ones at offset `at`. */
    function Put(at: nat, data: seq<byte>): Block
      requires at + |data| <= Capacity()
    {
      this.(bytes := bytes[..at] + data + bytes[at + |data|..])
    }

    /** The readable bytes copied down to offset 0, unless they start there. */
    function Compacted(): Block
      requires read <= write <= Capacity()
    {
      if read == 0 then this
      else Put(0, Readable()).(read := 0, write := write - read)
    }

    /** Bytes written at the write cursor, which moves past them. */
    function Written(data: seq<byte>): Block
      requires write + |data| <= Capacity()
    {
      Put(write, data).SetWrite(write + |data|)
    }

    /** Bytes written just before the read cursor, which moves back over them. */
    function Prefixed(data: seq<byte>): Block
      requires |data| <= read <= Capacity()
    {
      Put(read - |data|, data).SetRead(read - |data|)
    }
  }

  lemma WrittenExtends(b: Block, data: seq<byte>)
    requires b.Ok() && b.write + |data| <= b.Capacity()
    ensures b.Written(data).Ok()
    ensures b.Written(data).Readable() == b.Readable() + data
    ensures b.Written(data).Capacity() == b.Capacity()
    ensures b.Written(data).write == b.write + |data|
    ensures b.read == 0 ==> b.Written(data).read == 0
  {
  }

  lemma WrittenNothing(b: Block)
    requires b.Ok()
    ensures b.Written([]) == b
  {
    assert b.Put(b.write, []).bytes == b.bytes;
  }

  lemma PrefixedExtends(b: Block, data: seq<byte>)
    requires b.Ok() && |data| <= b.read
    ensures b.Prefixed(data).Ok()
    ensures b.Prefixed(data).Readable() == data + b.Readable()
    ensures b.Prefixed(data).Capacity() == b.Capacity()
    ensures b.Prefixed(data).write == b.write && b.Prefixed(data).read == b.read - |data|
  {
    var at := b.read - |data|;
    var p := b.Put(at, data);
    assert p.bytes[at..b.read] == data;
    assert p.bytes[b.read..b.write] == b.bytes[b.read..b.write];
    assert p.bytes[at..b.write] == p.bytes[at..b.read] + p.bytes[b.read..b.write];
  }

  // ---------- numbers and sequences ----------

  function Least(a: nat, b: nat): nat { if a <= b then a else b }

  lemma Assoc<T>(a: seq<T>, b: seq<T>, c: seq<T>)
    ensures a + (b + c) == (a + b) + c
  {
  }

  lemma EmptyRight<T>(a: seq<T>, b: seq<T>)
    requires b == []
    ensures a + b == a
  {
  }

  lemma DropConcat<T>(a: seq<T>, b: seq<T>, n: nat)
    requires n <= |a| + |b|
    ensures (a + b)[n..] == if n <= |a| then a[n..] + b else b[n - |a|..]
  {
  }

  lemma TakeConcat<T>(a: seq<T>, b: seq<T>, n: nat)
    requires n <= |a| + |b|
    ensures (a + b)[..n] == if n <= |a| then a[..n] else a + b[..n - |a|]
  {
  }

  lemma OneLonger<T>(s: seq<T>, t: seq<T>)
    requires |s| == |t| + 1 && s[..|t|] == t
    ensures s == t + [s[|t|]]
  {
  }

  lemma DropDrop<T>(a: seq<T>, m: nat, n: nat)
    requires m + n <= |a|
    ensures a[m..][n..] == a[m + n..]
  {
  }

  // ---------- a list of blocks ----------

  /** The flat byte sequence: the readable parts, one block after the other. */
  function Flat(bs: seq<Block>): seq<byte> {
    if bs == [] then [] else bs[0].Readable() + Flat(bs[1..])
  }

  /** The storage of the blocks. */
  function Storage(bs: seq<Block>): nat {
    if bs == [] then 0 else bs[0].Capacity() + Storage(bs[1..])
  }

  lemma {:induction false} FlatConcat(a: seq<Block>, b: seq<Block>)
    ensures Flat(a + b) == Flat(a) + Flat(b)
    ensures Storage(a + b) == Storage(a) + Storage(b)
  {
    if a == [] {
      assert a + b == b;
    } else {
      var h := a[0].Readable();
      assert (a + b)[0] == a[0] && (a + b)[1..] == a[1..] + b;
      FlatConcat(a[1..], b);
      Assoc(h, Flat(a[1..]), Flat(b));
    }
  }

  /** A list splits around any of its blocks. */
  lemma FlatAt(bs: seq<Block>, k: nat)
    requires k < |bs|
    ensures Flat(bs) == Flat(bs[..k]) + bs[k].Readable() + Flat(bs[k + 1..])
    ensures Storage(bs) == Storage(bs[..k]) + bs[k].Capacity() + Storage(bs[k + 1..])
  {
    assert bs == bs[..k] + bs[k..];
    FlatConcat(bs[..k], bs[k..]);
    assert bs[k..][1..] == bs[k + 1..];
  }

  /** The first `n` bytes from block `k` on, after the bytes `s` already taken. */
  lemma FlatStep(bs: seq<Block>, k: nat, n: nat, s: seq<byte>)
    requires k <= |bs| && 0 < n <= |Flat(bs[k..])|
    ensures k < |bs| && n <= |bs[k].Readable()| + |Flat(bs[k + 1..])|
    ensures s + Flat(bs[k..])[..n] ==
            if n <= |bs[k].Readable()| then s + bs[k].Readable()[..n]
            else if bs[k].Readable() == [] then s + Flat(bs[k + 1..])[..n]
            else (s + bs[k].Readable()) + Flat(bs[k + 1..])[..n - |bs[k].Readable()|]
  {
    var r, rest := bs[k].Readable(), Flat(bs[k + 1..]);
    assert bs[k..][1..] == bs[k + 1..];
    TakeConcat(r, rest, n);
    if n > |r| {
      Assoc(s, r, rest[..n - |r|]);
      EmptyRight(s, []);
    }
  }

  lemma {:induction false} FlatEmpty(bs: seq<Block>)
    requires forall i :: 0 <= i < |bs| ==> bs[i].Readable() == []
    ensures Flat(bs) == []
  {
    if bs != [] {
      FlatEmpty(bs[1..]);
    }
  }

  // ---------- the layout every operation keeps ----------

  /**
    `last` is the position of the block being written; it may be one past the list's end
    while `append` is between two blocks.  Blocks before it are written to their end, blocks
    after the first start at offset 0, and at most one block, reset to (0,0), lies past it.
   */
  predicate Layout(bs: seq<Block>, last: nat) {
    && last <= |bs| <= last + 2
    && forall i :: 0 <= i < |bs| ==> InPlace(bs[i], i, last)
  }

  predicate InPlace(b: Block, i: nat, last: nat) {
    && b.Ok()
    && (i > 0 ==> b.read == 0)
    && (i < last ==> b.write == b.Capacity())
    && (i > last ==> b.write == 0)
  }

  /** The layout between two calls: `last` is past the end only when there is no block. */
  predicate Settled(bs: seq<Block>, last: nat) {
    Layout(bs, last) && (last == |bs| ==> bs == [])
  }

  lemma OkAt(bs: seq<Block>, last: nat, k: nat)
    requires Layout(bs, last) && k < |bs|
    ensures bs[k].Ok() && bs[k].read <= bs[k].write <= bs[k].Capacity()
    ensures bs[k].Readable() == bs[k].bytes[bs[k].read..bs[k].write]
  {
    assert InPlace(bs[k], k, last);
  }

  /** Every block has a capacity that the constructor can give. */
  predicate Sized(bs: seq<Block>) {
    forall i :: 0 <= i < |bs| ==> IsCapacity(bs[i].Capacity())
  }

  /** Nothing readable lies past `last`. */
  lemma FlatUpTo(bs: seq<Block>, last: nat)
    requires Layout(bs, last) && last < |bs|
    ensures Flat(bs) == Flat(bs[..last]) + bs[last].Readable()
  {
    FlatAt(bs, last);
    FlatEmpty(bs[last + 1..]);
    assert Flat(bs[last + 1..]) == [];
  }

  /** Replacing the last block changes the flat sequence at its end only. */
  lemma FlatLastUpdate(bs: seq<Block>, last: nat, b: Block)
    requires Layout(bs, last) && last < |bs|
    requires Layout(bs[last := b], last) && b.Capacity() == bs[last].Capacity()
    ensures Flat(bs[last := b]) == Flat(bs[..last]) + b.Readable()
    ensures Storage(bs[last := b]) == Storage(bs)
  {
    var ws := bs[last := b];
    FlatUpTo(ws, last);
    FlatAt(bs, last);
    FlatAt(ws, last);
    assert ws[..last] == bs[..last] && ws[last + 1..] == bs[last + 1..];
  }

  /** The same, with the layout: the new block starts at offset 0 if the old one did. */
  lemma ReplaceLast(bs: seq<Block>, last: nat, b: Block)
    requires Layout(bs, last) && last < |bs|
    requires b.Ok() && b.Capacity() == bs[last].Capacity() && (bs[last].read == 0 ==> b.read == 0)
    ensures Layout(bs[last := b], last)
    ensures Flat(bs) == Flat(bs[..last]) + bs[last].Readable()
    ensures Flat(bs[last := b]) == Flat(bs[..last]) + b.Readable()
    ensures Storage(bs[last := b]) == Storage(bs)
  {
    hide Flat, Storage, Block.Readable, Block.Ok;
    FlatUpTo(bs, last);
    FlatLastUpdate(bs, last, b);
  }

  /** A last block with more to read appends to the flat sequence. */
  lemma LengthenLast(bs: seq<Block>, last: nat, b: Block, data: seq<byte>)
    requires Layout(bs, last) && last < |bs|
    requires b.Ok() && b.Capacity() == bs[last].Capacity() && (bs[last].read == 0 ==> b.read == 0)
    requires b.Readable() == bs[last].Readable() + data
    ensures Layout(bs[last := b], last)
    ensures Flat(bs[last := b]) == Flat(bs) + data
    ensures Storage(bs[last := b]) == Storage(bs)
  {
    hide *;
    ReplaceLast(bs, last, b);
    Assoc(Flat(bs[..last]), bs[last].Readable(), data);
  }

  /** Writing at the end of the last block appends to the flat sequence. */
  lemma WriteLast(bs: seq<Block>, last: nat, data: seq<byte>)
    requires Layout(bs, last) && last < |bs|
    requires bs[last].write + |data| <= bs[last].Capacity()
    ensures Layout(bs[last := bs[last].Written(data)], last)
    ensures Flat(bs[last := bs[last].Written(data)]) == Flat(bs) + data
    ensures Storage(bs[last := bs[last].Written(data)]) == Storage(bs)
  {
    hide *;
    OkAt(bs, last, last);
    WrittenExtends(bs[last], data);
    LengthenLast(bs, last, bs[last].Written(data), data);
  }

  // ---------- compaction ----------

  /** `c` holds the readable bytes of `b` from offset 0 on, and all other space is free. */
  ghost predicate Realigned(b: Block, c: Block) {
    && c.Ok()
    && c.Capacity() == b.Capacity()
    && c.Readable() == b.Readable()
    && c.read == 0 && c.write == |b.Readable()|
  }

  lemma CompactedRealigns(b: Block)
    requires b.Ok()
    ensures Realigned(b, b.Compacted())
    ensures b.Compacted().Capacity() - b.Compacted().write == b.Capacity() - b.write + b.read
  {
    if b.read > 0 {
      assert b.Compacted().bytes[..|b.Readable()|] == b.Readable();
    }
  }

  /** Compacting the last block keeps the layout and the flat sequence. */
  lemma CompactLast(bs: seq<Block>, last: nat)
    requires Layout(bs, last) && last < |bs|
    ensures Layout(bs[last := bs[last].Compacted()], last)
    ensures Flat(bs[last := bs[last].Compacted()]) == Flat(bs)
    ensures Storage(bs[last := bs[last].Compacted()]) == Storage(bs)
    ensures bs[last].Compacted().Capacity() == bs[last].Capacity()
    ensures bs[last].Compacted().read == 0 && bs[last].Compacted().write == bs[last].write - bs[last].read
  {
    OkAt(bs, last, last);
    CompactedRealigns(bs[last]);
    hide Flat, Storage, Layout, Block.Ok, Block.Readable, Block.Compacted;
    ReplaceLast(bs, last, bs[last].Compacted());
  }

  // ---------- growth at the two ends ----------

  /**
    What appending may do to the blocks: those before the last one stay as they are, and at
    most one is added, holding from offset 0 on what did not fit, in the least capacity.
   */
  ghost predicate Appended(bs: seq<Block>, last: nat, cs: seq<Block>, newLast: nat) {
    && last <= newLast < |cs|
    && (forall i :: 0 <= i < last && i < |bs| && i < |cs| ==> cs[i] == bs[i])
    && (|cs| == |bs|
        || (&& |cs| == |bs| + 1 && newLast == |bs| && cs[newLast].read == 0
            && LeastCapacity(cs[newLast].Capacity(), cs[newLast].write)))
  }

  lemma AppendedInPlace(bs: seq<Block>, last: nat, cs: seq<Block>)
    requires last < |cs|
    requires || (last < |bs| && cs == bs[last := cs[last]])
             || (&& last == |bs| && cs == bs + [cs[last]] && cs[last].read == 0
                 && LeastCapacity(cs[last].Capacity(), cs[last].write))
    ensures Appended(bs, last, cs, last)
  {
  }

  lemma AppendedPast(bs: seq<Block>, last: nat, ms: seq<Block>, cs: seq<Block>, newLast: nat)
    requires last < |bs| == |ms| && ms == bs[last := ms[last]]
    requires Appended(ms, last + 1, cs, newLast)
    ensures Appended(bs, last, cs, newLast) && newLast > last && cs[last] == ms[last]
  {
  }

  /** Once the last block is written to its end, the position may move past it. */
  lemma StepPast(bs: seq<Block>, last: nat)
    requires Layout(bs, last) && last < |bs| && bs[last].write == bs[last].Capacity()
    ensures Layout(bs, last + 1)
  {
  }

  predicate Fresh(b: Block) {
    b.Ok() && b.read == 0 && b.write == 0
  }

  lemma FreshSpace(b: Block, len: nat)
    requires Fresh(b) && LeastCapacity(b.Capacity(), len)
    ensures b.read == b.write == 0 && b.Capacity() >= MIN_BUFFER_SIZE
  {
    CapacityAtLeastMin(b.Capacity());
  }

  /** A fresh block may be added past the last one, whether or not `last` moves to it. */
  lemma GrowBack(bs: seq<Block>, last: nat, b: Block)
    requires Layout(bs, last) && |bs| <= last + 1 && Fresh(b)
    ensures Layout(bs + [b], last)
  {
    var gs := bs + [b];
    assert |gs| == |bs| + 1 && gs[|bs|] == b;
    assert forall i :: 0 <= i < |bs| ==> gs[i] == bs[i];
  }

  lemma FlatGrow(bs: seq<Block>, b: Block)
    ensures Flat(bs + [b]) == Flat(bs) + b.Readable()
    ensures Storage(bs + [b]) == Storage(bs) + b.Capacity()
  {
    FlatConcat(bs, [b]);
    assert [b][1..] == [];
    EmptyRight(b.Readable(), Flat([b][1..]));
  }

  lemma FlatGrowFresh(bs: seq<Block>, b: Block)
    requires Fresh(b)
    ensures Flat(bs + [b]) == Flat(bs)
  {
    FlatGrow(bs, b);
    EmptyRight(Flat(bs), b.Readable());
  }

  /** A fresh block whose last bytes are `data`, as prepending to a new block leaves it. */
  function FilledBack(b: Block, data: seq<byte>): Block
    requires |data| <= b.Capacity()
  {
    b.Put(b.Capacity() - |data|, data).SetWrite(b.Capacity()).SetRead(b.Capacity() - |data|)
  }

  lemma FilledBackHolds(b: Block, data: seq<byte>)
    requires Fresh(b) && |data| <= b.Capacity()
    ensures var f := FilledBack(b, data);
            f.Ok() && f.Capacity() == b.Capacity() && f.Readable() == data
            && f.read == b.Capacity() - |data| && f.write == b.Capacity()
  {
  }

  /**
    What prepending may do to the blocks: only the first one is written, and at most one is
    added before it, filled to its end with what did not fit, in the least capacity.
   */
  ghost predicate Prepended(bs: seq<Block>, cs: seq<Block>) {
    || (&& |cs| == |bs|
        && forall i :: 0 < i < |bs| ==> cs[i] == bs[i])
    || (&& |cs| == |bs| + 1
        && (forall i :: 1 < i < |cs| ==> cs[i] == bs[i - 1])
        && cs[0].read <= cs[0].write == cs[0].Capacity()
        && LeastCapacity(cs[0].Capacity(), cs[0].write - cs[0].read))
  }

  lemma PrependedBlock(bs: seq<Block>, b: Block)
    requires b.read <= b.write == b.Capacity() && LeastCapacity(b.Capacity(), b.write - b.read)
    ensures Prepended(bs, [b] + bs)
  {
  }

  lemma PrependedFirst(bs: seq<Block>, b: Block)
    requires bs != []
    ensures Prepended(bs, bs[0 := b])
  {
  }

  lemma PrependedThen(bs: seq<Block>, b: Block, cs: seq<Block>)
    requires bs != [] && Prepended(bs[0 := b], cs)
    ensures Prepended(bs, cs)
  {
  }

  lemma SizedCons(b: Block, bs: seq<Block>)
    requires IsCapacity(b.Capacity()) && Sized(bs)
    ensures Sized([b] + bs)
  {
  }

  /** A block filled up to its end may be added before a first block that starts at 0. */
  lemma GrowFront(bs: seq<Block>, last: nat, b: Block)
    requires Settled(bs, last) && (bs != [] ==> bs[0].read == 0)
    requires b.Ok() && b.write == b.Capacity()
    ensures Settled([b] + bs, if bs == [] then 0 else last + 1)
    ensures Flat([b] + bs) == b.Readable() + Flat(bs)
    ensures Storage([b] + bs) == b.Capacity() + Storage(bs)
  {
    assert ([b] + bs)[1..] == bs;
  }

  /** Writing before the first block's bytes prepends to the flat sequence. */
  lemma WriteFirst(bs: seq<Block>, last: nat, data: seq<byte>)
    requires Settled(bs, last) && bs != [] && |data| <= bs[0].read
    ensures Settled(bs[0 := bs[0].Prefixed(data)], last)
    ensures Flat(bs[0 := bs[0].Prefixed(data)]) == data + Flat(bs)
    ensures Storage(bs[0 := bs[0].Prefixed(data)]) == Storage(bs)
  {
    PrefixedExtends(bs[0], data);
    assert bs[0 := bs[0].Prefixed(data)][1..] == bs[1..];
    Assoc(data, bs[0].Readable(), Flat(bs[1..]));
  }

  // ---------- draining from the front ----------

  /** One block after up to `len` of its bytes have been read away. */
  function DrainBlock(b: Block, len: nat): Block {
    if len == 0 then b
    else if |b.Readable()| >= len then b.SetRead(b.read + len)
    else if |b.Readable()| > 0 then b.SetRead(b.read + |b.Readable()|)
    else b
  }

  /** The blocks after `len` bytes have been read away, front first. */
  function Drain(bs: seq<Block>, len: nat): seq<Block> {
    if len == 0 || bs == [] then bs
    else [DrainBlock(bs[0], len)] +
         if |bs[0].Readable()| >= len then bs[1..]
         else Drain(bs[1..], len - |bs[0].Readable()|)
  }

  lemma DrainNothing(bs: seq<Block>)
    ensures Drain(bs, 0) == bs
  {
  }

  /** Draining goes on in the next block with what is still to be read away. */
  lemma DrainStep(bs: seq<Block>, k: nat, len: nat)
    requires k <= |bs| && 0 < len <= |Flat(bs[k..])|
    ensures k < |bs|
    ensures var left := if len <= |bs[k].Readable()| then 0 else len - |bs[k].Readable()|;
            && left <= |Flat(bs[k + 1..])|
            && Drain(bs[k..], len) == [DrainBlock(bs[k], len)] + Drain(bs[k + 1..], left)
  {
    hide DrainBlock, Block.Readable;
    DropDrop(bs, k, 1);
    DrainNothing(bs[k + 1..]);
  }

  /** The loop of discard: one block drained, the blocks from `k + 1` on as they were. */
  lemma DrainProgress(bs: seq<Block>, vs: seq<Block>, k: nat, len: nat, left: nat, next: nat)
    requires |vs| == |bs| && k < |bs| && 0 < left <= |Flat(bs[k..])|
    requires next == if left <= |bs[k].Readable()| then 0 else left - |bs[k].Readable()|
    requires vs[k..] == bs[k..]
    requires Drain(bs, len) == vs[..k] + Drain(bs[k..], left)
    ensures var ws := vs[k := DrainBlock(bs[k], left)];
            && ws[k + 1..] == bs[k + 1..]
            && next <= |Flat(bs[k + 1..])|
            && Drain(bs, len) == ws[..k + 1] + Drain(bs[k + 1..], next)
  {
    DrainStep(bs, k, left);
    var ws := vs[k := DrainBlock(bs[k], left)];
    assert vs[k..][1..] == vs[k + 1..] && bs[k..][1..] == bs[k + 1..];
    assert ws[..k + 1] == vs[..k] + [DrainBlock(bs[k], left)];
    Assoc(vs[..k], [DrainBlock(bs[k], left)], Drain(bs[k + 1..], next));
  }

  /** The loop of discard that erases: block `k` is looked at after `k` others are gone. */
  lemma LeadingStep(bs: seq<Block>, last: nat, k: nat)
    requires k < last <= |bs|
    requires Leading(bs, last) == k + Leading(bs[k..], last - k)
    ensures bs[k..][1..] == bs[k + 1..]
    ensures Leading(bs, last) ==
            if bs[k].Readable() != [] then k else k + 1 + Leading(bs[k + 1..], last - (k + 1))
  {
    DropDrop(bs, k, 1);
  }

  /** How many blocks at the front, but before `last`, have nothing to read. */
  function Leading(bs: seq<Block>, last: nat): (k: nat)
    ensures k <= last && k <= |bs|
    ensures forall i :: 0 <= i < k ==> bs[i].Readable() == []
    ensures k < last && k < |bs| ==> bs[k].Readable() != []
  {
    if last == 0 || bs == [] || bs[0].Readable() != [] then 0
    else 1 + Leading(bs[1..], last - 1)
  }

  lemma DrainBlockBytes(b: Block, len: nat)
    requires b.Ok()
    ensures DrainBlock(b, len).Ok()
    ensures DrainBlock(b, len).Capacity() == b.Capacity()
    ensures b.write == b.Capacity() ==> DrainBlock(b, len).write == b.Capacity()
    ensures b.write == 0 ==> DrainBlock(b, len) == b
    ensures DrainBlock(b, len).Readable() ==
            if len <= |b.Readable()| then b.Readable()[len..] else []
  {
  }

  lemma {:induction false} DrainFlat(bs: seq<Block>, len: nat)
    requires forall i :: 0 <= i < |bs| ==> bs[i].Ok()
    requires len <= |Flat(bs)|
    ensures |Drain(bs, len)| == |bs|
    ensures Flat(Drain(bs, len)) == Flat(bs)[len..]
    ensures Storage(Drain(bs, len)) == Storage(bs)
  {
    if len > 0 {
      var r, t := bs[0].Readable(), bs[1..];
      DrainBlockBytes(bs[0], len);
      DropConcat(r, Flat(t), len);
      if |r| >= len {
        assert Drain(bs, len)[1..] == t;
      } else {
        DrainFlat(t, len - |r|);
        assert Drain(bs, len)[1..] == Drain(t, len - |r|);
      }
    }
  }

  /** How a drained list compares with the one it came from, block by block. */
  ghost predicate DrainedFrom(bs: seq<Block>, ds: seq<Block>) {
    && |ds| == |bs|
    && (forall i :: 0 <= i < |bs| ==>
          && ds[i].Ok()
          && ds[i].Capacity() == bs[i].Capacity()
          && (bs[i].write == bs[i].Capacity() ==> ds[i].write == bs[i].Capacity())
          && (bs[i].write == 0 ==> ds[i] == bs[i]))
    && (forall i, j :: 0 <= j < i < |bs| && ds[i] != bs[i] ==> ds[j].Readable() == [])
  }

  lemma DrainUnfold(bs: seq<Block>, len: nat)
    requires len > 0 && bs != []
    ensures var r := |bs[0].Readable()|;
            Drain(bs, len) == [DrainBlock(bs[0], len)] + if r >= len then bs[1..] else Drain(bs[1..], len - r)
  {
  }

  lemma {:induction false} DrainShape(bs: seq<Block>, len: nat)
    requires forall i :: 0 <= i < |bs| ==> bs[i].Ok()
    ensures DrainedFrom(bs, Drain(bs, len))
  {
    hide *;
    if len == 0 || bs == [] {
      DrainedSelf(bs, len);
    } else {
      var d, r, t := DrainBlock(bs[0], len), |bs[0].Readable()|, bs[1..];
      DrainBlockBytes(bs[0], len);
      DrainUnfold(bs, len);
      if r >= len {
        assert [d] + t == bs[0 := d];
        DrainedHead(bs, d);
      } else {
        DrainShape(t, len - r);
        DrainedCons(bs, d, Drain(t, len - r));
      }
    }
  }

  lemma DrainedSelf(bs: seq<Block>, len: nat)
    requires (len == 0 || bs == []) && forall i :: 0 <= i < |bs| ==> bs[i].Ok()
    ensures DrainedFrom(bs, Drain(bs, len))
  {
  }

  lemma DrainedHead(bs: seq<Block>, d: Block)
    requires bs != [] && forall i :: 0 <= i < |bs| ==> bs[i].Ok()
    requires d.Ok() && d.Capacity() == bs[0].Capacity()
    requires bs[0].write == bs[0].Capacity() ==> d.write == bs[0].Capacity()
    requires bs[0].write == 0 ==> d == bs[0]
    ensures DrainedFrom(bs, bs[0 := d])
  {
  }

  lemma DrainedCons(bs: seq<Block>, d: Block, us: seq<Block>)
    requires bs != [] && DrainedFrom(bs[1..], us)
    requires d.Ok() && d.Capacity() == bs[0].Capacity() && d.Readable() == []
    requires bs[0].write == bs[0].Capacity() ==> d.write == bs[0].Capacity()
    requires bs[0].write == 0 ==> d == bs[0]
    ensures DrainedFrom(bs, [d] + us)
  {
    var ds := [d] + us;
    forall i | 1 <= i < |bs| ensures ds[i] == us[i - 1] && bs[i] == bs[1..][i - 1] {
    }
  }

  /** Erasing the drained blocks in front leaves a settled list of the same bytes. */
  lemma TrimSettles(bs: seq<Block>, ds: seq<Block>, last: nat)
    requires Settled(bs, last) && DrainedFrom(bs, ds)
    ensures Settled(ds[Leading(ds, last)..], last - Leading(ds, last))
  {
    var k := Leading(ds, last);
    assert forall i :: k < i < |ds| ==> ds[i] == bs[i] by {
      assert k < last ==> ds[k].Readable() != [];
    }
    assert Layout(ds[k..], last - k) by {
      ShiftLayout(ds, last, k);
    }
  }

  lemma ShiftLayout(ds: seq<Block>, last: nat, k: nat)
    requires k <= last <= |ds| <= last + 2
    requires forall i :: 0 <= i < |ds| ==> ds[i].Ok()
    requires forall i :: k < i < |ds| ==> ds[i].read == 0
    requires forall i :: k <= i < |ds| && i < last ==> ds[i].write == ds[i].Capacity()
    requires forall i :: last < i < |ds| ==> ds[i].write == 0
    ensures Layout(ds[k..], last - k)
  {
    var ts := ds[k..];
    assert forall i :: 0 <= i < |ts| ==> ts[i] == ds[k + i];
  }

  /** The blocks in front of the first one with data hold no byte of the flat sequence. */
  lemma TrimFlat(ds: seq<Block>, last: nat)
    ensures Flat(ds[Leading(ds, last)..]) == Flat(ds)
    ensures Storage(ds[..Leading(ds, last)]) + Storage(ds[Leading(ds, last)..]) == Storage(ds)
  {
    var k := Leading(ds, last);
    assert ds == ds[..k] + ds[k..];
    FlatConcat(ds[..k], ds[k..]);
    FlatEmpty(ds[..k]);
  }

  // ---------- where blocks end ----------

  /** The first `n` bytes of the flat sequence are those of some number of whole blocks. */
  ghost predicate EndsAtBlock(bs: seq<Block>, n: nat) {
    exists k :: 0 <= k <= |bs| && |Flat(bs[..k])| == n
  }

  lemma EndsStep(bs: seq<Block>, n: nat)
    requires bs != [] && n > 0
    ensures EndsAtBlock(bs, n)
            <==> |bs[0].Readable()| <= n && EndsAtBlock(bs[1..], n - |bs[0].Readable()|)
  {
    if EndsAtBlock(bs, n) {
      var k :| 0 <= k <= |bs| && |Flat(bs[..k])| == n;
      assert bs[..k][1..] == bs[1..][..k - 1];
    }
    if |bs[0].Readable()| <= n && EndsAtBlock(bs[1..], n - |bs[0].Readable()|) {
      var k :| 0 <= k <= |bs[1..]| && |Flat(bs[1..][..k])| == n - |bs[0].Readable()|;
      assert bs[..k + 1][1..] == bs[1..][..k];
      assert |Flat(bs[..k + 1])| == n;
    }
  }

  /** The first block of a drained list, and the blocks behind it. */
  lemma DrainHead(bs: seq<Block>, len: nat)
    requires bs != [] && bs[0].Ok() && 0 < len <= |Flat(bs)|
    ensures var r, ds := |bs[0].Readable()|, Drain(bs, len);
            && |Flat(bs[1..])| == |Flat(bs)| - r
            && ds != []
            && |ds[0].Readable()| == (if len <= r then r - len else 0)
            && ds[1..] == if len <= r then bs[1..] else Drain(bs[1..], len - r)
  {
    DrainBlockBytes(bs[0], len);
    hide DrainBlock, Block.Readable;
  }

  /** Draining moves every block end beyond what it drops, and makes none. */
  lemma {:induction false} DrainEnds(bs: seq<Block>, len: nat, n: nat)
    requires forall i :: 0 <= i < |bs| ==> bs[i].Ok()
    requires len <= |Flat(bs)| && len < n
    ensures EndsAtBlock(bs, n) <==> EndsAtBlock(Drain(bs, len), n - len)
  {
    if len == 0 {
      DrainNothing(bs);
    } else {
      DrainHead(bs, len);
      hide EndsAtBlock, Drain, Block.Readable, Block.Ok, Flat;
      var r, ds, t := |bs[0].Readable()|, Drain(bs, len), bs[1..];
      EndsStep(bs, n);
      EndsStep(ds, n - len);
      if r < len {
        DrainEnds(t, len - r, n - r);
      }
    }
  }

  lemma {:induction false} TrimEnds(ds: seq<Block>, k: nat, n: nat)
    requires k <= |ds| && n > 0 && forall i :: 0 <= i < k ==> ds[i].Readable() == []
    ensures EndsAtBlock(ds, n) <==> EndsAtBlock(ds[k..], n)
  {
    hide EndsAtBlock;
    if k > 0 {
      EndsStep(ds, n);
      TrimEnds(ds[1..], k - 1, n);
      assert ds[1..][k - 1..] == ds[k..];
    } else {
      assert ds[k..] == ds;
    }
  }

  /** Dropping `len` bytes turns `vs` into `ws` without moving any later block end. */
  ghost predicate SameEnds(vs: seq<Block>, ws: seq<Block>, len: nat) {
    forall n: nat :: n > len ==> (EndsAtBlock(vs, n) <==> EndsAtBlock(ws, n - len))
  }

  lemma SameEndsTwice(a: seq<Block>, b: seq<Block>, c: seq<Block>, m: nat, n: nat)
    requires SameEnds(a, b, m) && SameEnds(b, c, n)
    ensures SameEnds(a, c, m + n)
  {
    hide EndsAtBlock;
  }

  lemma DiscardEnds(bs: seq<Block>, last: nat, len: nat)
    requires Settled(bs, last) && len <= |Flat(bs)|
    ensures SameEnds(bs, Drain(bs, len)[Leading(Drain(bs, len), last)..], len)
  {
    var ds := Drain(bs, len);
    forall n: nat | n > len
      ensures EndsAtBlock(bs, n) <==> EndsAtBlock(ds[Leading(ds, last)..], n - len)
    {
      DrainEnds(bs, len, n);
      TrimEnds(ds, Leading(ds, last), n - len);
    }
  }

  /** Up to any of its blocks, a list of blocks ends where its first blocks do. */
  lemma EndsBefore(bs: seq<Block>, m: nat, n: nat)
    requires m <= |bs| && n <= |Flat(bs[..m])|
    ensures EndsAtBlock(bs, n) <==> EndsAtBlock(bs[..m], n)
  {
    if EndsAtBlock(bs, n) {
      var k :| 0 <= k <= |bs| && |Flat(bs[..k])| == n;
      if k > m {
        FlatTake(bs, m, k);
        assert bs[..m][..m] == bs[..m];
      } else {
        assert bs[..m][..k] == bs[..k];
      }
    }
    if EndsAtBlock(bs[..m], n) {
      var k :| 0 <= k <= m && |Flat(bs[..m][..k])| == n;
      assert bs[..m][..k] == bs[..k];
    }
  }

  lemma FlatTake(bs: seq<Block>, m: nat, k: nat)
    requires m <= k <= |bs|
    ensures |Flat(bs[..m])| <= |Flat(bs[..k])|
  {
    assert bs[..k] == bs[..m] + bs[m..k];
    FlatConcat(bs[..m], bs[m..k]);
  }

  lemma FlatTakeOne(bs: seq<Block>, m: nat)
    requires m < |bs|
    ensures Flat(bs[..m + 1]) == Flat(bs[..m]) + bs[m].Readable()
  {
    assert bs[..m + 1] == bs[..m] + [bs[m]];
    FlatGrow(bs[..m], bs[m]);
  }

  /** Among the bytes of one block no block ends. */
  lemma NoEndInside(bs: seq<Block>, m: nat, n: nat)
    requires m < |bs| && |Flat(bs[..m])| < n < |Flat(bs[..m])| + |bs[m].Readable()|
    ensures !EndsAtBlock(bs, n)
  {
    FlatTakeOne(bs, m);
    forall k | 0 <= k <= |bs| ensures |Flat(bs[..k])| != n {
      if k <= m {
        FlatTake(bs, k, m);
      } else {
        FlatTake(bs, m + 1, k);
      }
    }
  }

  /** Before the end of `vs`, the blocks of `ws` end where those of `vs` do. */
  ghost predicate KeepsEnds(vs: seq<Block>, ws: seq<Block>) {
    forall n: nat :: n < |Flat(vs)| ==> (EndsAtBlock(vs, n) <==> EndsAtBlock(ws, n))
  }

  lemma NoEndsYet(vs: seq<Block>)
    ensures vs == [] ==> forall ws :: KeepsEnds(vs, ws)
  {
  }

  /**
    Appending `n` bytes behind this block adds none to it: it is empty, or it is written to
    its end and too full for compaction to make room for all of them.
   */
  predicate Sealed(b: Block, n: nat) {
    b.Readable() == [] || (b.write == b.Capacity() && b.read < n)
  }

  lemma SamePrefix(bs: seq<Block>, cs: seq<Block>, last: nat, n: nat)
    requires last < |bs| && last < |cs| && bs[..last] == cs[..last]
    requires |bs[last].Readable()| <= |cs[last].Readable()|
    requires n < |Flat(bs[..last])| + |bs[last].Readable()|
    ensures EndsAtBlock(bs, n) <==> EndsAtBlock(cs, n)
  {
    hide EndsAtBlock;
    if n <= |Flat(bs[..last])| {
      EndsBefore(bs, last, n);
      EndsBefore(cs, last, n);
    } else {
      NoEndInside(bs, last, n);
      NoEndInside(cs, last, n);
    }
  }

  /**
    Appending leaves the block ends before the old end in place, and the old end stays one
    just when the last block is sealed.
   */
  lemma AppendEnds(bs: seq<Block>, last: nat, cs: seq<Block>, newLast: nat, data: seq<byte>)
    requires Layout(bs, last) && last < |bs| && Settled(cs, newLast)
    requires Flat(cs) == Flat(bs) + data && Appended(bs, last, cs, newLast)
    requires |data| <= bs[last].Capacity() - bs[last].write + bs[last].read ==> newLast == last
    requires |data| > bs[last].Capacity() - bs[last].write + bs[last].read ==>
               cs[last] == bs[last].Written(data[..bs[last].Capacity() - bs[last].write])
    ensures KeepsEnds(bs, cs)
    ensures data != [] ==>
              (EndsAtBlock(cs, |Flat(bs)|) <==> Sealed(bs[last], |data|))
  {
    hide *;
    OkAt(bs, last, last);
    SameFront(bs, last, cs, newLast);
    var k := TakenBytes(bs[last], data);
    AppendedFront(bs, last, cs, newLast, data, k);
    LongerEnds(bs, cs, last);
  }

  /** Of two lists that are the same before block `last`, the second has more to read in it. */
  lemma LongerEnds(bs: seq<Block>, cs: seq<Block>, last: nat)
    requires last < |bs| && last < |cs| && bs[..last] == cs[..last]
    requires |Flat(bs)| == |Flat(bs[..last])| + |bs[last].Readable()|
    requires |bs[last].Readable()| <= |cs[last].Readable()|
    ensures KeepsEnds(bs, cs)
    ensures EndsAtBlock(cs, |Flat(bs)|)
            <==> |bs[last].Readable()| == 0 || |bs[last].Readable()| == |cs[last].Readable()|
  {
    hide Flat, Block.Readable, EndsAtBlock;
    forall n: nat | n < |Flat(bs)| ensures EndsAtBlock(bs, n) <==> EndsAtBlock(cs, n) {
      SamePrefix(bs, cs, last, n);
    }
    JunctionEnds(cs, last, |bs[last].Readable()|);
  }

  lemma TakenBytes(b: Block, data: seq<byte>) returns (k: nat)
    requires b.Ok() && b.read <= b.write <= b.Capacity()
    ensures k <= |data|
    ensures if |data| <= b.Capacity() - b.write + b.read then k == |data| else k == b.Capacity() - b.write
    ensures data != [] ==> (Sealed(b, |data|) <==> |b.Readable()| == 0 || k == 0)
  {
    k := if |data| <= b.Capacity() - b.write + b.read then |data| else b.Capacity() - b.write;
  }

  /** After appending, the blocks before the last one are the same, and that one has `k` more to read. */
  lemma AppendedFront(bs: seq<Block>, last: nat, cs: seq<Block>, newLast: nat, data: seq<byte>, k: nat)
    requires Layout(bs, last) && last < |bs| && Settled(cs, newLast) && k <= |data|
    requires Flat(cs) == Flat(bs) + data && Appended(bs, last, cs, newLast)
    requires || (newLast == last && k == |data|)
             || (bs[last].write + k <= bs[last].Capacity() && last < |cs| && cs[last] == bs[last].Written(data[..k]))
    ensures last < |cs| && bs[..last] == cs[..last]
    ensures |Flat(bs)| == |Flat(bs[..last])| + |bs[last].Readable()|
    ensures |cs[last].Readable()| == |bs[last].Readable()| + k
  {
    SameFront(bs, last, cs, newLast);
    hide *;
    OkAt(bs, last, last);
    FlatUpTo(bs, last);
    if newLast == last && k == |data| {
      SettledLayout(cs, last);
      FlatUpTo(cs, last);
    } else {
      WrittenExtends(bs[last], data[..k]);
    }
  }

  lemma SettledLayout(bs: seq<Block>, last: nat)
    requires Settled(bs, last)
    ensures Layout(bs, last)
  {
  }

  lemma SameFront(bs: seq<Block>, last: nat, cs: seq<Block>, newLast: nat)
    requires last < |bs| && Appended(bs, last, cs, newLast)
    ensures last <= newLast < |cs| && bs[..last] == cs[..last]
  {
    hide LeastCapacity;
  }

  /** All that appending `data` does to the blocks. */
  ghost predicate Grown(bs: seq<Block>, last: nat, cs: seq<Block>, newLast: nat, data: seq<byte>) {
    && Appended(bs, last, cs, newLast)
    && (last < |bs| && bs[last].write <= bs[last].Capacity() ==>
          var b := bs[last];
          if |data| <= b.Capacity() - b.write + b.read then |cs| == |bs| && newLast == last
          else newLast > last && cs[last] == b.Written(data[..b.Capacity() - b.write]))
    && (data != [] ==> cs[newLast].Readable() != [])
    && (last < |bs| || bs == [] ==> KeepsEnds(bs, cs))
    && (last < |bs| && data != [] ==> (EndsAtBlock(cs, |Flat(bs)|) <==> Sealed(bs[last], |data|)))
  }

  /** Appending to a new last block. */
  lemma GrownNew(bs: seq<Block>, c: Block, data: seq<byte>)
    requires c.read == 0 && LeastCapacity(c.Capacity(), c.write)
    requires data != [] ==> c.Readable() != []
    ensures Grown(bs, |bs|, bs + [c], |bs|, data)
  {
    var cs := bs + [c];
    assert cs[|bs|] == c;
    hide Flat, Appended, KeepsEnds, EndsAtBlock, Sealed, LeastCapacity, Block.Readable, Block.Written, Block.Capacity;
    AppendedInPlace(bs, |bs|, cs);
    NoEndsYet(bs);
  }

  lemma LeastHolds(c: nat, len: nat)
    requires LeastCapacity(c, len)
    ensures len <= c
  {
  }

  /** Append's first two branches: the last block has room, once it is compacted. */
  lemma GrownInPlace(bs: seq<Block>, last: nat, cs: seq<Block>, data: seq<byte>)
    requires Layout(bs, last) && last < |bs| == |cs| && Settled(cs, last)
    requires cs == bs[last := cs[last]]
    requires |data| <= bs[last].Capacity() - bs[last].write + bs[last].read
    requires Flat(cs) == Flat(bs) + data && (data != [] ==> cs[last].Readable() != [])
    ensures Grown(bs, last, cs, last, data)
  {
    hide Flat, Layout, Appended, KeepsEnds, EndsAtBlock, Sealed, Block.Readable;
    OkAt(bs, last, last);
    AppendedInPlace(bs, last, cs);
    AppendEnds(bs, last, cs, last, data);
  }

  /** Append's last branch: `n` bytes fill the last block and the rest has been appended to `ms`. */
  lemma GrownPast(bs: seq<Block>, last: nat, ms: seq<Block>, cs: seq<Block>, newLast: nat, data: seq<byte>, n: nat)
    requires Layout(bs, last) && last < |bs| && Settled(cs, newLast)
    requires n == bs[last].Capacity() - bs[last].write < |data| - bs[last].read
    requires ms == bs[last := bs[last].Written(data[..n])]
    requires Grown(ms, last + 1, cs, newLast, data[n..])
    requires Flat(cs) == Flat(bs) + data
    ensures Grown(bs, last, cs, newLast, data)
  {
    hide Flat, Layout, Appended, KeepsEnds, EndsAtBlock, Sealed, Block.Readable, Block.Written;
    AppendedPast(bs, last, ms, cs, newLast);
    AppendEnds(bs, last, cs, newLast, data);
  }

  /** Inside block `last`, only its two ends are ends of blocks. */
  lemma JunctionEnds(cs: seq<Block>, last: nat, r: nat)
    requires last < |cs| && r <= |cs[last].Readable()|
    ensures EndsAtBlock(cs, |Flat(cs[..last])| + r) <==> r == 0 || r == |cs[last].Readable()|
  {
    hide *;
    EndsAfter(cs, last);
    EndsAfter(cs, last + 1);
    FlatTakeOne(cs, last);
    if 0 < r < |cs[last].Readable()| {
      NoEndInside(cs, last, |Flat(cs[..last])| + r);
    }
  }

  lemma EndsAfter(bs: seq<Block>, k: nat)
    requires k <= |bs|
    ensures EndsAtBlock(bs, |Flat(bs[..k])|)
  {
    hide Flat;
  }

  /** All that discard relies on, for the blocks it is called on. */
  lemma DiscardBlocks(bs: seq<Block>, last: nat, len: nat)
    requires Settled(bs, last) && Sized(bs) && len <= |Flat(bs)|
    ensures var ds := Drain(bs, len);
            && |ds| == |bs|
            && (forall i :: 0 <= i < |ds| ==> ds[i].read <= ds[i].write <= ds[i].Capacity())
            && var k := Leading(ds, last);
            && Settled(ds[k..], last - k) && Sized(ds[k..])
            && Flat(ds[k..]) == Flat(bs)[len..]
            && Storage(bs) == Storage(bs[..k]) + Storage(ds[k..])
            && (last < |bs| && bs[last].write == bs[last].Capacity() ==>
                  ds[last].write == ds[last].Capacity())
  {
    hide *;
    AllOk(bs, last);
    var ds := Drain(bs, len);
    DrainFlat(bs, len);
    DrainShape(bs, len);
    TrimSettles(bs, ds, last);
    TrimFlat(ds, last);
    DrainedStorage(bs, ds, last, Leading(ds, last));
  }

  /** What erasing the first `k` blocks, drained but for the last one, leaves at the front. */
  lemma TrimmedFront(bs: seq<Block>, ds: seq<Block>, last: nat)
    requires Settled(bs, last) && |ds| == |bs|
    ensures var k := Leading(ds, last);
            && last <= |bs| && (bs != [] ==> k < |bs|)
            && (k < last && k < |ds| ==> ds[k..][0].Readable() != [])
  {
    hide Block.Readable, InPlace;
  }

  lemma AllOk(bs: seq<Block>, last: nat)
    requires Settled(bs, last)
    ensures forall i :: 0 <= i < |bs| ==> bs[i].Ok()
  {
    forall i | 0 <= i < |bs| ensures bs[i].Ok() {
      OkAt(bs, last, i);
    }
  }

  /** Draining changes no block's capacity. */
  lemma DrainedStorage(bs: seq<Block>, ds: seq<Block>, last: nat, k: nat)
    requires DrainedFrom(bs, ds) && Sized(bs) && k <= |bs|
    ensures |ds| == |bs| && Sized(ds[k..]) && Storage(bs[..k]) == Storage(ds[..k])
    ensures forall i :: 0 <= i < |ds| ==> ds[i].read <= ds[i].write <= ds[i].Capacity()
    ensures last < |bs| && bs[last].write == bs[last].Capacity() ==> ds[last].write == ds[last].Capacity()
  {
    hide Storage, IsCapacity, Block.Readable, Block.Capacity;
    StorageSame(bs[..k], ds[..k]);
  }

  lemma {:induction false} StorageSame(bs: seq<Block>, cs: seq<Block>)
    requires |bs| == |cs|
    requires forall i :: 0 <= i < |bs| ==> bs[i].Capacity() == cs[i].Capacity()
    ensures Storage(bs) == Storage(cs)
  {
    if bs != [] {
      StorageSame(bs[1..], cs[1..]);
    }
  }

  // ---------- raw windows ----------

  /** Where the next bytes go: the last block, or the one after it once that is full. */
  function Target(bs: seq<Block>, last: nat): nat
    requires last < |bs|
  {
    if bs[last].write == bs[last].Capacity() then last + 1 else last
  }

  /** A change to one block that leaves its readable bytes alone does not show. */
  lemma FlatReplace(bs: seq<Block>, k: nat, b: Block)
    requires k < |bs| && b.Readable() == bs[k].Readable() && b.Capacity() == bs[k].Capacity()
    ensures Flat(bs[k := b]) == Flat(bs) && Storage(bs[k := b]) == Storage(bs)
  {
    FlatAt(bs, k);
    FlatAt(bs[k := b], k);
    assert bs[k := b][..k] == bs[..k] && bs[k := b][k + 1..] == bs[k + 1..];
  }

  /** Storing bytes in a block's free space leaves layout and contents as they are. */
  lemma PutFree(bs: seq<Block>, last: nat, k: nat, data: seq<byte>)
    requires Layout(bs, last) && k < |bs| && bs[k].write + |data| <= bs[k].Capacity()
    ensures Layout(bs[k := bs[k].Put(bs[k].write, data)], last)
    ensures Flat(bs[k := bs[k].Put(bs[k].write, data)]) == Flat(bs)
    ensures Storage(bs[k := bs[k].Put(bs[k].write, data)]) == Storage(bs)
  {
    OkAt(bs, last, k);
    var b := bs[k].Put(bs[k].write, data);
    assert b.bytes[..b.write] == bs[k].bytes[..b.write];
    assert b.Readable() == bs[k].Readable();
    FlatReplace(bs, k, b);
  }

  lemma PutBeyond(b: Block, data: seq<byte>)
    requires b.write + |data| <= b.Capacity()
    ensures var c := b.Put(b.write, data);
            c.write == b.write && c.Capacity() == b.Capacity() && c.Beyond(|data|) == data
  {
  }

  lemma TargetKept(bs: seq<Block>, last: nat, cs: seq<Block>)
    requires last < |bs| == |cs| && cs[last].write == bs[last].write && cs[last].Capacity() == bs[last].Capacity()
    ensures Target(cs, last) == Target(bs, last)
  {
  }

  lemma SizedUpdate(bs: seq<Block>, k: nat, b: Block)
    requires Sized(bs) && k < |bs| && b.Capacity() == bs[k].Capacity()
    ensures Sized(bs[k := b])
  {
    hide IsCapacity;
  }

  lemma ExtendBlock(b: Block, n: nat)
    requires b.Ok() && b.write + n <= b.Capacity()
    ensures var c := b.SetWrite(b.write + n);
            && c.Ok() && c.Capacity() == b.Capacity()
            && c.Readable() == b.Readable() + b.Beyond(n)
            && (n > 0 ==> c.write == b.write + n) && c.read == b.read
  {
  }

  /** Moving the write position takes in the bytes stored beyond it. */
  lemma ExtendLast(bs: seq<Block>, last: nat, n: nat)
    requires Layout(bs, last) && last < |bs| && bs[last].write + n <= bs[last].Capacity()
    ensures var c := bs[last].SetWrite(bs[last].write + n);
            && Layout(bs[last := c], last)
            && Flat(bs[last := c]) == Flat(bs) + bs[last].Beyond(n)
            && Storage(bs[last := c]) == Storage(bs)
            && (n > 0 ==> c.write == bs[last].write + n) && c.read == bs[last].read
  {
    hide *;
    OkAt(bs, last, last);
    ExtendBlock(bs[last], n);
    LengthenLast(bs, last, bs[last].SetWrite(bs[last].write + n), bs[last].Beyond(n));
  }

  /** Bytes `data` stored over those from `at` on. */
  function Spliced(s: seq<byte>, at: nat, data: seq<byte>): (t: seq<byte>)
    requires at + |data| <= |s|
    ensures |t| == |s|
  {
    s[..at] + data + s[at + |data|..]
  }

  lemma SplicedConcat(a: seq<byte>, b: seq<byte>, at: nat, data: seq<byte>)
    requires at + |data| <= |b|
    ensures a + Spliced(b, at, data) == Spliced(a + b, |a| + at, data)
  {
    TakeConcat(a, b, |a| + at);
    DropConcat(a, b, |a| + at + |data|);
  }

  lemma SplicedSlice(s: seq<byte>, from: nat, to: nat, at: nat, data: seq<byte>)
    requires from <= at && at + |data| <= to <= |s|
    ensures Spliced(s, at, data)[from..to] == Spliced(s[from..to], at - from, data)
  {
    hide Spliced;
    var t, u := Spliced(s, at, data), Spliced(s[from..to], at - from, data);
    SplicedAt(s, at, data);
    SplicedAt(s[from..to], at - from, data);
    forall i | 0 <= i < to - from ensures t[from..to][i] == u[i] {
      assert t[from..to][i] == t[from + i] && s[from..to][i] == s[from + i];
    }
  }

  lemma SplicedAt(s: seq<byte>, at: nat, data: seq<byte>)
    requires at + |data| <= |s|
    ensures var t := Spliced(s, at, data);
            && |t| == |s|
            && forall i :: 0 <= i < |s| ==> t[i] == if at <= i < at + |data| then data[i - at] else s[i]
  {
  }

  lemma UnwriteBlock(b: Block, n: nat)
    requires b.Ok() && n <= b.write - b.read
    ensures b.SetWrite(b.write - n).Ok() && b.SetWrite(b.write - n).Capacity() == b.Capacity()
    ensures |b.Readable()| == b.write - b.read
    ensures b.SetWrite(b.write - n).Readable() == b.Readable()[..|b.Readable()| - n]
    ensures b.read == 0 ==> b.SetWrite(b.write - n).read == 0
  {
    var m := b.write - n;
    assert b.bytes[b.read..b.write][..m - b.read] == b.bytes[b.read..m];
  }

  lemma PutBlockBack(b: Block, at: nat, data: seq<byte>)
    requires b.Ok() && b.read <= at && at + |data| <= b.write
    ensures b.Put(at, data).Ok() && b.Put(at, data).Capacity() == b.Capacity()
    ensures b.Put(at, data).read == b.read && |b.Readable()| == b.write - b.read
    ensures b.Put(at, data).Readable() == Spliced(b.Readable(), at - b.read, data)
  {
    hide Spliced, Block.Put;
    PutSplices(b, at, data);
    SplicedSlice(b.bytes, b.read, b.write, at, data);
  }

  lemma PutSplices(b: Block, at: nat, data: seq<byte>)
    requires at + |data| <= b.Capacity()
    ensures var c := b.Put(at, data);
            && c.bytes == Spliced(b.bytes, at, data) && |c.bytes| == |b.bytes|
            && c.read == b.read && c.write == b.write
  {
  }

  /** Moving the write position back gives up the last bytes. */
  lemma UnwriteLast(bs: seq<Block>, last: nat, n: nat)
    requires Layout(bs, last) && last < |bs| && n <= bs[last].write - bs[last].read
    ensures var cs := bs[last := bs[last].SetWrite(bs[last].write - n)];
            && n <= |Flat(bs)|
            && Layout(cs, last)
            && Flat(cs) == Flat(bs)[..|Flat(bs)| - n]
            && Storage(cs) == Storage(bs)
  {
    hide *;
    OkAt(bs, last, last);
    var b := bs[last];
    var c := b.SetWrite(b.write - n);
    UnwriteBlock(b, n);
    ReplaceLast(bs, last, c);
    TakeConcat(Flat(bs[..last]), b.Readable(), |Flat(bs)| - n);
    EmptyRight(Flat(bs[..last]), c.Readable()[..0]);
  }

  /** Storing over the end of the last block's readable bytes changes just those bytes. */
  lemma PutBack(bs: seq<Block>, last: nat, at: nat, data: seq<byte>)
    requires Layout(bs, last) && last < |bs|
    requires bs[last].read <= at && at + |data| <= bs[last].write
    ensures var cs := bs[last := bs[last].Put(at, data)];
            && bs[last].write - at <= |Flat(bs)|
            && Layout(cs, last)
            && Flat(cs) == Spliced(Flat(bs), |Flat(bs)| - (bs[last].write - at), data)
            && Storage(cs) == Storage(bs)
  {
    hide Flat, Storage, Block.Readable, Spliced, Layout, Block.Ok, Block.Put;
    OkAt(bs, last, last);
    var b := bs[last];
    var c := b.Put(at, data);
    PutBlockBack(b, at, data);
    ReplaceLast(bs, last, c);
    SplicedConcat(Flat(bs[..last]), b.Readable(), at - b.read, data);
  }

  /** The readable parts, leaving out the blocks that have none. */
  function Chunks(bs: seq<Block>): seq<seq<byte>> {
    if bs == [] then []
    else (if bs[0].Readable() == [] then [] else [bs[0].Readable()]) + Chunks(bs[1..])
  }

  function Join(ss: seq<seq<byte>>): seq<byte> {
    if ss == [] then [] else ss[0] + Join(ss[1..])
  }

  lemma JoinNothing()
    ensures Join([]) == []
  {
  }

  lemma {:induction false} JoinSnoc(ss: seq<seq<byte>>, s: seq<byte>)
    ensures Join(ss + [s]) == Join(ss) + s
  {
    if ss == [] {
      assert ss + [s] == [s];
    } else {
      assert (ss + [s])[1..] == ss[1..] + [s];
      JoinSnoc(ss[1..], s);
      Assoc(ss[0], Join(ss[1..]), s);
    }
  }

  lemma {:induction false} ChunksJoin(bs: seq<Block>)
    ensures Join(Chunks(bs)) == Flat(bs)
    ensures forall c :: c in Chunks(bs) ==> c != []
  {
    if bs != [] {
      ChunksJoin(bs[1..]);
      if bs[0].Readable() == [] {
        assert Chunks(bs) == Chunks(bs[1..]) && Flat(bs) == Flat(bs[1..]);
      } else {
        assert Chunks(bs)[1..] == Chunks(bs[1..]);
      }
    }
  }

  lemma {:induction false} ChunksConcat(a: seq<Block>, b: seq<Block>)
    ensures Chunks(a + b) == Chunks(a) + Chunks(b)
  {
    if a == [] {
      assert a + b == b;
    } else {
      assert (a + b)[0] == a[0] && (a + b)[1..] == a[1..] + b;
      ChunksConcat(a[1..], b);
      Assoc(if a[0].Readable() == [] then [] else [a[0].Readable()], Chunks(a[1..]), Chunks(b));
    }
  }

  lemma ChunksSnoc(bs: seq<Block>, k: nat, j: nat)
    requires k <= j < |bs|
    ensures Chunks(bs[k..j + 1]) ==
            if bs[j].Readable() == [] then Chunks(bs[k..j]) else Chunks(bs[k..j]) + [bs[j].Readable()]
  {
    assert bs[k..j + 1] == bs[k..j] + [bs[j]];
    ChunksConcat(bs[k..j], [bs[j]]);
    assert [bs[j]][1..] == [];
  }

  lemma {:induction false} ChunksEmpty(bs: seq<Block>)
    requires forall i :: 0 <= i < |bs| ==> bs[i].Readable() == []
    ensures Chunks(bs) == []
  {
    if bs != [] {
      ChunksEmpty(bs[1..]);
    }
  }

  /** The blocks past the last one add no chunk. */
  lemma ChunksUpTo(bs: seq<Block>, last: nat, k: nat)
    requires Layout(bs, last) && k <= last < |bs|
    ensures Chunks(bs[k..]) == Chunks(bs[k..last + 1])
  {
    assert bs[k..] == bs[k..last + 1] + bs[last + 1..];
    ChunksConcat(bs[k..last + 1], bs[last + 1..]);
    ChunksEmpty(bs[last + 1..]);
  }

  /** The first block from `k` on that has data; the list's length if there is none. */
  function DataAt(bs: seq<Block>, k: nat): (p: nat)
    requires k <= |bs|
    ensures k <= p <= |bs|
    ensures forall i :: k <= i < p ==> bs[i].Readable() == []
    ensures p < |bs| ==> bs[p].Readable() != []
    decreases |bs| - k
  {
    if k == |bs| || bs[k].Readable() != [] then k else DataAt(bs, k + 1)
  }

  /** No block past the last one has data. */
  lemma DataUpTo(bs: seq<Block>, last: nat, k: nat)
    requires Layout(bs, last) && k <= |bs|
    ensures DataAt(bs, k) <= last || DataAt(bs, k) == |bs|
  {
    if last < DataAt(bs, k) < |bs| {
      OkAt(bs, last, DataAt(bs, k));
    }
  }

  lemma ChunksHead(bs: seq<Block>, k: nat)
    requires k < |bs| && bs[k].Readable() != []
    ensures Chunks(bs[k..]) == [bs[k].Readable()] + Chunks(bs[k + 1..])
    ensures Flat(bs[k..]) == bs[k].Readable() + Flat(bs[k + 1..])
  {
    DropDrop(bs, k, 1);
  }

  /** No block between the first with data and the last is empty. */
  lemma DataIsNext(bs: seq<Block>, last: nat, k: nat)
    requires Settled(bs, last) && k <= |bs| && Flat(bs[k..]) != []
    requires k > 0 || last == 0 || bs[0].Readable() != []
    ensures k <= last < |bs| && bs[k].Readable() != []
  {
    if k > last {
      FlatEmpty(bs[k..]);
    } else if k == last && bs[k].Readable() == [] {
      FlatEmpty(bs[k..]);
    } else if 0 < k < last {
      OkAt(bs, last, k);
    }
  }
}
