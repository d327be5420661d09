/**
  The segmented buffer: a list of blocks that grows at both ends, is compacted in place and
  gives up drained blocks, and that always stands for one flat byte sequence, Contents().
 */
module Buffers {
  import opened Bytes
  import opened Blocks
  import opened DataBlocks

  class Buffer {
    var list: seq<DataBlock>
    var first: nat        // position in `list`; |list| plays the end iterator
    var last: nat
    var readable: nat
    var capacity: nat
    ghost var views: seq<Block> // the state of each block of `list`
    ghost var erased: nat       // storage of the blocks discard has erased since the buffer was last emptied
    ghost var Repr: set<object> // the blocks and their arrays

    // ---------- abstraction and representation invariant ----------

    /** The buffer owns its blocks and their arrays, and no two blocks share either. */
    ghost predicate Owns()
      reads `list, `Repr
    {
      && this !in Repr
      && (forall i :: 0 <= i < |list| ==> list[i] in Repr && list[i].buffer in Repr)
      && Apart(list)
    }

    ghost predicate Mirrored()
      reads `list, `views, `Repr, Repr
    {
      && Owns()
      && |views| == |list|
      && forall i :: 0 <= i < |list| ==> views[i] == list[i].View()
    }

    ghost function Contents(): seq<byte>
      reads `views
    {
      Flat(views)
    }

    /** The invariant inside `append`, where `last` may be at the list's end. */
    ghost predicate Between()
      reads this, Repr
    {
      && Mirrored()
      && Layout(views, last)
      && first == 0
      && readable == |Contents()|
      && capacity == Storage(views) + erased
      && Sized(views)
    }

    /** The representation invariant. */
    ghost predicate Valid()
      reads this, Repr
    {
      Between() && (last == |list| ==> list == [])
    }

    /** The invariant, part by part. */
    lemma Parts()
      requires Between()
      ensures Mirrored() && |views| == |list| && first == 0 && this !in Repr
      ensures Layout(views, last) && last <= |list| && Sized(views)
      ensures Contents() == Flat(views) && readable == |Flat(views)| && capacity == Storage(views) + erased
      ensures Valid() <==> (last == |list| ==> list == [])
      ensures Valid() <==> Settled(views, last)
    {
    }

    /** ... and put together again. */
    lemma Whole()
      requires Mirrored() && first == 0 && Layout(views, last) && Sized(views)
      requires readable == |Flat(views)| && capacity == Storage(views) + erased
      ensures Between() && Contents() == Flat(views) && |views| == |list|
      ensures (last == |list| ==> list == []) || Settled(views, last) ==> Valid()
    {
    }

    constructor ()
      ensures Valid() && Repr == {} && list == [] && last == 0
      ensures Contents() == [] && capacity == erased == 0
    {
      list, first, last := [], 0, 0;
      readable, capacity := 0, 0;
      views, erased, Repr := [], 0, {};
    }

    lemma BlockOk(k: nat)
      requires Between() && k < |list|
      ensures k < |views| && views[k].Ok()
      ensures list[k] in Repr && list[k].buffer in Repr
      ensures views[k].read == list[k].read <= views[k].write == list[k].write
      ensures list[k].write <= list[k].buffer.Length == views[k].Capacity()
      ensures views[k].Readable() == list[k].buffer[list[k].read..list[k].write]
    {
      assert InPlace(views[k], k, last);
    }

    /** Own copies of the blocks, and the objects they are made of. */
    static method CopyBlocks(bs: seq<DataBlock>) returns (cs: seq<DataBlock>, ghost repr: set<object>)
      ensures |cs| == |bs| && Apart(cs) && fresh(repr)
      ensures forall i :: 0 <= i < |cs| ==>
                cs[i] in repr && cs[i].buffer in repr && cs[i].View() == old(bs[i].View())
    {
      cs, repr := [], {};
      while |cs| < |bs|
        invariant |cs| <= |bs| && Apart(cs) && fresh(repr)
        invariant forall i :: 0 <= i < |cs| ==>
                    cs[i] in repr && cs[i].buffer in repr && cs[i].View() == old(bs[i].View())
      {
        var c := new DataBlock.Copy(bs[|cs|]);
        ApartSnoc(cs, c);
        cs := cs + [c];
        repr := repr + {c, c.buffer};
      }
    }

    /** Own blocks in the states of `buffer`'s mirror its views. */
    lemma IsMirrored(buffer: Buffer)
      requires buffer.Mirrored() && views == buffer.views && |list| == |buffer.list|
      requires Apart(list) && this !in Repr
      requires forall i :: 0 <= i < |list| ==>
                 list[i] in Repr && list[i].buffer in Repr && list[i].View() == buffer.list[i].View()
      ensures Mirrored()
    {
    }

    /** A buffer of its own blocks, in the same state as `buffer`. */
    constructor Copy(buffer: Buffer)
      requires buffer.Valid()
      ensures Valid() && fresh(Repr)
      ensures views == buffer.views && last == buffer.last && erased == buffer.erased
      ensures Contents() == buffer.Contents()
    {
      hide *;
      buffer.IsBetween();
      buffer.Parts();
      list, first, last := [], 0, 0;
      readable, capacity := buffer.readable, buffer.capacity;
      views, erased := buffer.views, buffer.erased;
      new;
      list, Repr := CopyBlocks(buffer.list);
      IsMirrored(buffer);
      last := |list|;
      var it, mit := buffer.first, 0;
      while it != |buffer.list|
        invariant mit == it <= |buffer.list|
        invariant first == 0
        invariant last == if it > buffer.last then buffer.last else |buffer.list|
        decreases |buffer.list| - it
        modifies `first, `last
      {
        if it == buffer.first {
          first := mit;
        }
        if it == buffer.last {
          last := mit;
        }
        mit := mit + 1;
        it := it + 1;
      }
      Whole();
    }

    /** Takes over all that `source` has, which is left as if new. */
    constructor Move(source: Buffer)
      requires source.Valid() && source.list != []
      modifies source
      ensures Valid() && Repr == old(source.Repr)
      ensures views == old(source.views) && Contents() == old(source.Contents())
      ensures source.Valid() && source.Repr == {} && source.Contents() == []
      ensures source.list == [] && source.capacity == source.erased == 0
    {
      hide Flat, Layout, IsCapacity, Apart;
      list, first, last := source.list, source.first, source.last;
      readable, capacity := source.readable, source.capacity;
      views, erased, Repr := source.views, source.erased, source.Repr;
      new;
      source.DiscardAll();
    }

    /** For clients: readableBytes() counts the contents. */
    lemma Counted()
      requires Valid()
      ensures readable == |Contents()|
    {
    }

    lemma Appendable()
      requires Valid()
      ensures Between()
    {
    }

    // ---------- append ----------

    /** Copies `data` to block `k`'s write position and moves that position. */
    method PutAtWrite(k: nat, data: seq<byte>)
      requires Mirrored() && k < |list| && views[k].Ok()
      requires list[k].write + |data| <= list[k].buffer.Length
      modifies this`views, list[k], list[k].buffer
      ensures Mirrored() && views == old(views)[k := old(views)[k].Written(data)]
    {
      ApartAt(list, k);
      list[k].CopyIn(list[k].write, data);
      list[k].SetWritePosition(list[k].write + |data|);
      views := views[k := list[k].View()];
    }

    /** Copies `data` to offset `at` of block `k`'s array. */
    method PutAt(ghost k: nat, target: array<byte>, at: nat, data: seq<byte>)
      requires Mirrored() && k < |list| && target == list[k].buffer && at + |data| <= target.Length
      modifies this`views, target
      ensures Mirrored() && views == old(views)[k := old(views)[k].Put(at, data)]
    {
      ApartAt(list, k);
      Memcpy(target, at, data);
      views := views[k := list[k].View()];
    }

    /** Moves block `k`'s write position. */
    method SetWriteAt(k: nat, pos: nat)
      requires Mirrored() && k < |list| && list[k].read <= pos <= list[k].buffer.Length
      modifies this`views, list[k]
      ensures Mirrored() && views == old(views)[k := old(views)[k].SetWrite(pos)]
    {
      ApartAt(list, k);
      list[k].SetWritePosition(pos);
      views := views[k := list[k].View()];
    }

    /** The common tail of append's first two branches. */
    method Fill(data: seq<byte>)
      requires Between() && last < |list|
      requires list[last].write + |data| <= list[last].buffer.Length
      modifies this`readable, this`views, list[last], list[last].buffer
      ensures Between()
      ensures views == old(views)[last := old(views)[last].Written(data)]
      ensures views[last].Readable() == old(views[last].Readable()) + data
      ensures Contents() == old(Contents()) + data
    {
      hide Flat, Storage, InPlace, IsCapacity, Block.Ok, Apart, Block.Written, Block.Readable;
      BlockOk(last);
      WrittenExtends(views[last], data);
      WriteLast(views, last, data);
      PutAtWrite(last, data);
      readable := readable + |data|;
    }

    /** A new block at the list's end, empty and of the least capacity that holds `len`. */
    method EmplaceBack(len: nat := MIN_BUFFER_SIZE)
      requires Mirrored()
      modifies this`list, this`views, this`Repr, this`capacity
      ensures Mirrored() && fresh(Repr - old(Repr)) && old(Repr) <= Repr
      ensures |list| == old(|list|) + 1 && list[..old(|list|)] == old(list)
      ensures views == old(views) + [views[old(|list|)]]
      ensures Fresh(views[old(|list|)]) && LeastCapacity(views[old(|list|)].Capacity(), len)
      ensures capacity == old(capacity) + views[old(|list|)].Capacity()
    {
      var b := new DataBlock(len);
      ApartSnoc(list, b);
      list := list + [b];
      capacity := capacity + b.Capacity();
      Repr := Repr + {b, b.buffer};
      views := views + [b.View()];
    }

    /** EmplaceBack where the layout has room for one more block. */
    method Grow(len: nat := MIN_BUFFER_SIZE)
      requires Between() && |list| <= last + 1
      modifies this`list, this`views, this`Repr, this`capacity
      ensures Between() && fresh(Repr - old(Repr)) && old(Repr) <= Repr
      ensures |list| == old(|list|) + 1 && list[..old(|list|)] == old(list)
      ensures views == old(views) + [views[old(|list|)]]
      ensures Fresh(views[old(|list|)]) && LeastCapacity(views[old(|list|)].Capacity(), len)
      ensures Contents() == old(Contents())
    {
      EmplaceBack(len);
      ghost var b := views[old(|list|)];
      GrowBack(old(views), last, b);
      FlatGrowFresh(old(views), b);
      FlatGrow(old(views), b);
    }

    /** Compacts block `k` and nothing else. */
    method RealignBlock(k: nat)
      requires Mirrored() && k < |list| && views[k].Ok()
      modifies this`views, list[k], list[k].buffer
      ensures Mirrored() && views == old(views)[k := old(views)[k].Compacted()]
    {
      ApartAt(list, k);
      list[k].Realign();
      views := views[k := list[k].View()];
    }

    /** Compacting the last block makes all its free space writeable. */
    method RealignLastBlock()
      requires Between() && last < |list|
      modifies this`views, list[last], list[last].buffer
      ensures Between()
      ensures views == old(views)[last := old(views)[last].Compacted()]
      ensures views[last].Capacity() == old(views)[last].Capacity()
      ensures views[last].read == 0 && views[last].write == old(views)[last].write - old(views)[last].read
      ensures Contents() == old(Contents())
    {
      hide Flat, Storage, InPlace, IsCapacity, Block.Ok, Apart;
      BlockOk(last);
      CompactLast(views, last);
      RealignBlock(last);
    }

    /** Append's second branch: the last block has room for `data` once it is compacted. */
    method FillCompacted(data: seq<byte>)
      requires Between() && last < |list|
      requires |data| <= list[last].buffer.Length - list[last].write + list[last].read
      modifies this`readable, this`views, list[last], list[last].buffer
      ensures Between()
      ensures views == old(views)[last := views[last]]
      ensures data != [] ==> views[last].Readable() != []
      ensures Contents() == old(Contents()) + data
    {
      hide *;
      BlockOk(last);
      RealignLastBlock();
      BlockOk(last);
      Fill(data);
    }

    /** Append's last branch: fills the last block and steps past it. */
    method Spill(data: seq<byte>) returns (nwrite: nat)
      requires Between() && last < |list|
      requires list[last].buffer.Length - list[last].write < |data|
      modifies this`readable, this`views, this`last, list[last], list[last].buffer
      ensures nwrite < |data| && Between() && last == old(last) + 1
      ensures nwrite == old(list[last].buffer.Length - list[last].write)
      ensures views == old(views)[old(last) := old(views)[old(last)].Written(data[..nwrite])]
      ensures Contents() == old(Contents()) + data[..nwrite]
    {
      hide Flat, Storage, InPlace, IsCapacity, Block.Ok, Apart;
      BlockOk(last);
      nwrite := list[last].WriteableBytes();
      if nwrite > 0 {
        Fill(data[..nwrite]);
        WrittenExtends(old(views)[last], data[..nwrite]);
      } else {
        WrittenNothing(views[last]);
      }
      StepPast(views, last);
      last := last + 1;
    }

    /** Append's first step when there is no last block: adds one that holds `len` bytes. */
    method AddLast(len: nat)
      requires Between() && last == |list|
      modifies this
      ensures Between() && fresh(Repr - old(Repr)) && old(Repr) <= Repr
      ensures last == old(last) && |list| == last + 1 && erased == old(erased)
      ensures views == old(views) + [views[last]] && list == old(list) + [list[last]]
      ensures Fresh(views[last]) && LeastCapacity(views[last].Capacity(), len)
      ensures Contents() == old(Contents())
    {
      hide *;
      Parts();
      Grow(len);
      Parts();
      OneLonger(list, old(list));
      last := |list|;
      last := last - 1;
      if |list| == 1 {
        first := last;
      }
      Whole();
    }

    /** Append where there is no last block: the one that is added has room for all of `data`. */
    method AppendNew(data: seq<byte>)
      requires Between() && last == |list|
      modifies this, Repr
      ensures Valid() && fresh(Repr - old(Repr)) && old(Repr) <= Repr
      ensures Contents() == old(Contents()) + data
      ensures erased == old(erased) && last == old(last) && |list| == last + 1
      ensures Grown(old(views), last, views, last, data)
    {
      hide Flat, Layout, Grown, Buffer.Between, LeastCapacity, Block.Ok, Block.Written, Block.Readable;
      Laid();
      AddLast(|data|);
      Laid();
      ghost var b := views[last];
      LeastHolds(b.Capacity(), |data|);
      WrittenExtends(b, data);
      assert list[last].WriteableBytes() >= |data|;
      Fill(data);
      Laid();
      assert views == old(views) + [views[last]];
      GrownNew(old(views), views[last], data);
    }

    /**
      Appends `data`.  Blocks before the last one are not touched, and at most one block is
      added; it holds exactly what did not fit before it, in the least capacity for that.
     */
    method Append(data: seq<byte>)
      requires Between()
      modifies this, Repr
      ensures Valid() && fresh(Repr - old(Repr)) && old(Repr) <= Repr
      ensures Contents() == old(Contents()) + data
      ensures erased == old(erased)
      ensures last < |list| && (|list| == old(|list|) ==> capacity == old(capacity))
      ensures Grown(old(views), old(last), views, last, data)
      decreases |list| - last
    {
      hide Flat, Layout, Grown, Buffer.Between, LeastCapacity, Block.Ok, Block.Written, Block.Readable;
      Laid();
      ghost var vs := views;
      if last == |list| {
        AppendNew(data);
        return;
      }
      BlockOk(last);
      if list[last].WriteableBytes() >= |data| {
        Fill(data);
        Laid();
        GrownInPlace(vs, last, views, data);
      } else if list[last].TotalSpace() >= |data| {
        FillCompacted(data);
        Laid();
        GrownInPlace(vs, last, views, data);
      } else {
        var nwrite := Spill(data);
        ghost var ms := views;
        Assoc(old(Contents()), data[..nwrite], data[nwrite..]);
        Append(data[nwrite..]);
        Laid();
        GrownPast(vs, old(last), ms, views, last, data, nwrite);
      }
    }

    /** What the invariant says of the blocks. */
    lemma Laid()
      requires Between()
      ensures Layout(views, last) && |views| == |list| && last <= |list|
      ensures forall i :: 0 <= i < |list| ==>
                views[i] == list[i].View() && list[i] in Repr && list[i].buffer in Repr
    {
    }

    // ---------- prepend ----------

    /** Copies `data` to just before block `k`'s read position, which moves back. */
    method PutBeforeRead(k: nat, data: seq<byte>)
      requires Mirrored() && k < |list| && views[k].Ok() && |data| <= list[k].read
      modifies this`views, list[k], list[k].buffer
      ensures Mirrored() && views == old(views)[k := old(views)[k].Prefixed(data)]
    {
      ApartAt(list, k);
      var offset := list[k].PrependableBytes() - |data|;
      list[k].CopyIn(offset, data);
      list[k].SetReadPosition(offset);
      views := views[k := list[k].View()];
    }

    /** Prepend's second branch: the first block has room before its bytes. */
    method PrefixFirst(data: seq<byte>)
      requires Valid() && list != [] && |data| <= list[0].read
      modifies this`readable, this`views, list[0], list[0].buffer
      ensures Valid()
      ensures views == old(views)[0 := old(views)[0].Prefixed(data)]
      ensures Contents() == data + old(Contents())
    {
      hide Flat, Storage, InPlace, IsCapacity, Block.Ok, Apart;
      BlockOk(0);
      WriteFirst(views, last, data);
      PutBeforeRead(0, data);
      readable := readable + |data|;
    }

    /** A new block with `data` at its end. */
    static method NewFilledBack(data: seq<byte>) returns (b: DataBlock)
      ensures fresh(b) && fresh(b.buffer)
      ensures LeastCapacity(b.buffer.Length, |data|)
      ensures b.View().Ok() && b.View().Readable() == data && b.View().write == b.buffer.Length
    {
      b := new DataBlock(|data|);
      FilledBackHolds(b.View(), data);
      var offset := b.Capacity() - |data|;
      b.CopyIn(offset, data);
      b.SetWritePosition(b.Capacity());
      b.SetReadPosition(offset);
    }

    /** Puts a block of its own at the list's front. */
    method EmplaceFront(b: DataBlock)
      requires Mirrored() && b !in Repr && b.buffer !in Repr
      modifies this`list, this`views, this`Repr, this`capacity
      ensures Mirrored() && Repr == old(Repr) + {b, b.buffer}
      ensures list == [b] + old(list) && views == [b.View()] + old(views)
      ensures capacity == old(capacity) + b.Capacity()
    {
      ApartCons(b, list);
      list := [b] + list;
      capacity := capacity + b.Capacity();
      Repr := Repr + {b, b.buffer};
      views := [b.View()] + views;
    }

    /** Prepend's first and last branch; the list's positions keep naming their blocks. */
    method PrependBlock(data: seq<byte>)
      requires Valid() && (list != [] ==> list[0].read == 0)
      modifies this
      ensures Valid() && fresh(Repr - old(Repr)) && old(Repr) <= Repr
      ensures Prepended(old(views), views) && |list| == old(|list|) + 1
      ensures Contents() == data + old(Contents())
      ensures erased == old(erased)
    {
      hide *;
      IsBetween();
      Parts();
      FirstRead();
      var empty := |list| == 0;
      var b := NewFilledBack(data);
      FilledView(b, data);
      GrowFront(views, last, b.View());
      SizedCons(b.View(), views);
      PrependedBlock(views, b.View());
      EmplaceFront(b);
      first := 0;
      last := if empty then 0 else last + 1;
      readable := readable + |data|;
      SettledLayout(views, last);
      Whole();
    }

    lemma FirstRead()
      requires Between()
      ensures list != [] ==> |views| == |list| && views[0].read == list[0].read
    {
    }

    static lemma FilledView(b: DataBlock, data: seq<byte>)
      requires LeastCapacity(b.buffer.Length, |data|)
      requires b.View().Ok() && b.View().Readable() == data && b.View().write == b.buffer.Length
      ensures b.View().read <= b.View().write == b.View().Capacity() == b.Capacity()
      ensures LeastCapacity(b.View().Capacity(), b.View().write - b.View().read)
      ensures IsCapacity(b.View().Capacity())
    {
    }

    /** Prepend's third branch: fills the space before the first block's bytes. */
    method PrefixSpill(data: seq<byte>) returns (rest: nat)
      requires Valid() && list != [] && 0 < list[0].read < |data|
      modifies this`readable, this`views, list[0], list[0].buffer
      ensures Valid() && 0 < rest <= |data| && list[0].read == 0
      ensures views == old(views)[0 := views[0]] && rest == |data| - old(list[0].read)
      ensures Contents() == data[rest..] + old(Contents())
    {
      rest := |data| - list[0].PrependableBytes();
      PrefixedExtends(views[0], data[rest..]);
      PrefixFirst(data[rest..]);
    }

    /**
      Prepends `data`.  Only the first block is written, and at most one block is added; it
      holds exactly what did not fit, in the least capacity for that.
     */
    method Prepend(data: seq<byte>)
      requires Valid()
      modifies this, Repr
      ensures Valid() && fresh(Repr - old(Repr)) && old(Repr) <= Repr
      ensures Contents() == data + old(Contents())
      ensures erased == old(erased)
      ensures Prepended(old(views), views)
      ensures |list| == old(|list|) <==> old(list != [] && |data| <= list[0].read)
      decreases if list == [] then 0 else list[0].read
    {
      hide Flat, Storage, InPlace, IsCapacity, Block.Ok, Apart;
      if first == |list| {
        PrependBlock(data);
      } else if list[first].PrependableBytes() >= |data| {
        PrefixFirst(data);
        PrependedFirst(old(views), views[0]);
      } else if list[first].PrependableBytes() > 0 {
        var rest := PrefixSpill(data);
        ghost var head := views[0];
        Assoc(data[..rest], data[rest..], old(Contents()));
        Prepend(data[..rest]);
        PrependedThen(old(views), head, views);
      } else {
        PrependBlock(data);
      }
    }

    // ---------- reading ----------

    lemma StringStart(len: nat)
      requires Valid() && len <= readable
      ensures first == 0 && |views| == |list|
      ensures len <= |Flat(views[0..])| && Contents()[..len] == [] + Flat(views[0..])[..len]
    {
      assert views[0..] == views;
      hide Flat;
    }

    /** What there is to read in block `k`, and its first `left` bytes. */
    lemma ReadableAt(k: nat, left: nat)
      requires Valid() && k < |list|
      ensures k < |views| == |list|
      ensures var b, r := list[k], views[k].Readable();
              && b.read <= b.write <= b.buffer.Length && |r| == b.write - b.read
              && r == b.buffer[b.read..b.write]
              && (left <= |r| ==> r[..left] == b.buffer[b.read..b.read + left])
    {
      BlockOk(k);
    }

    /** The first `len` bytes. */
    method ToString(len: nat) returns (str: seq<byte>)
      requires Valid() && len <= readable
      ensures str == Contents()[..len]
    {
      hide Flat, Layout, Sized, Buffer.Valid, Buffer.Between, Buffer.Mirrored, Block.Readable;
      StringStart(len);
      str := [];
      var left, it := len, first;
      while left > 0
        invariant it <= |list| == |views| && 0 <= left <= |Flat(views[it..])|
        invariant Contents()[..len] == str + Flat(views[it..])[..left]
        decreases |list| - it
      {
        FlatStep(views, it, left, str);
        ReadableAt(it, left);
        var b := list[it];
        if b.ReadableBytes() >= left {
          str := str + b.buffer[b.read..b.read + left];
          left := 0;
          EmptyRight(str, Flat(views[it + 1..])[..0]);
        } else if b.ReadableBytes() > 0 {
          str := str + b.buffer[b.read..b.write];
          left := left - b.ReadableBytes();
        }
        it := it + 1;
      }
      EmptyRight(str, Flat(views[it..])[..0]);
    }

    // ---------- discarding ----------

    /** Discard's step on one block: what is left to drop after it. */
    method DrainAt(k: nat, left: nat) returns (next: nat)
      requires Mirrored() && k < |list| && views[k].Ok() && left > 0
      modifies this`views, list[k]
      ensures Mirrored() && views == old(views)[k := DrainBlock(old(views)[k], left)]
      ensures next == if left <= |old(views)[k].Readable()| then 0 else left - |old(views)[k].Readable()|
    {
      hide Block.Ok, Block.Readable, Buffer.Mirrored, DataBlock.View, Block.SetRead;
      SeenAt(k);
      var b := list[k];
      next := left;
      if b.ReadableBytes() >= left {
        SetReadAt(k, b.read + left);
        next := 0;
      } else if b.ReadableBytes() > 0 {
        next := left - b.ReadableBytes();
        SetReadAt(k, b.read + b.ReadableBytes());
      }
    }

    /** What there is to read in block `k`. */
    lemma SeenAt(k: nat)
      requires Mirrored() && k < |list| && views[k].Ok()
      ensures k < |views| && list[k] in Repr && list[k].buffer in Repr
      ensures var b, r := list[k], views[k].Readable();
              && views[k].read == b.read <= b.write <= b.buffer.Length && |r| == b.write - b.read
              && Window(b.buffer, b.read, |r|).Bytes() == r == b.buffer[b.read..b.write]
    {
    }

    /** Moves block `k`'s read position. */
    method SetReadAt(k: nat, pos: nat)
      requires Mirrored() && k < |list| && pos <= list[k].write
      modifies this`views, list[k]
      ensures Mirrored() && views == old(views)[k := old(views)[k].SetRead(pos)]
    {
      ApartAt(list, k);
      list[k].SetReadPosition(pos);
      views := views[k := list[k].View()];
    }

    /** Moves the read positions of the blocks past the first `len` bytes. */
    method DrainBlocks(len: nat)
      requires Valid() && len <= readable
      modifies this`views, Repr
      ensures Mirrored() && views == Drain(old(views), len)
    {
      hide Flat, Storage, InPlace, IsCapacity, Block.Ok, Drain, DrainBlock, Apart, Block.Readable;
      ghost var vs := views;
      var left, it := len, first;
      assert vs[0..] == vs;
      assert vs[..0] + Drain(vs, len) == Drain(vs, len);
      while left > 0
        invariant it <= |list| && 0 <= left <= |Flat(vs[it..])|
        invariant Mirrored() && |views| == |vs| && views[it..] == vs[it..]
        invariant Drain(vs, len) == views[..it] + Drain(vs[it..], left)
        decreases |list| - it
      {
        DrainStep(vs, it, left);
        OkAt(vs, last, it);
        assert views[it] == views[it..][0] == vs[it..][0] == vs[it];
        ghost var ws := views;
        var next := DrainAt(it, left);
        DrainProgress(vs, ws, it, len, left, next);
        left := next;
        it := it + 1;
      }
      DrainNothing(vs[it..]);
      assert views == views[..it] + views[it..];
    }

    method EraseFirst()
      requires Mirrored() && list != []
      modifies `list, `views
      ensures Mirrored() && list == old(list)[1..] && views == old(views)[1..]
    {
      list := list[1..];
      views := views[1..];
    }

    /** Erases the blocks before `last`, from the front on, that have nothing left to read. */
    method EraseDrained()
      requires Mirrored() && last <= |list|
      requires forall i :: 0 <= i < |list| ==> views[i].read <= views[i].write <= views[i].Capacity()
      modifies this`list, this`views, this`last
      ensures Mirrored()
      ensures var k := Leading(old(views), old(last));
              && views == old(views)[k..] && list == old(list)[k..]
              && last == old(last) - k
    {
      hide Leading, Apart;
      ghost var k: nat := 0;
      ghost var vs, bs := views, list;
      while 0 != last
        invariant Mirrored() && k <= old(last) && last == old(last) - k
        invariant list == bs[k..] && views == vs[k..]
        invariant Leading(vs, old(last)) == k + Leading(vs[k..], last)
        decreases last
      {
        LeadingStep(vs, old(last), k);
        if list[0].ReadableBytes() > 0 {
          break;
        }
        DropDrop(bs, k, 1);
        EraseFirst();
        last := last - 1;
        k := k + 1;
      }
    }

    /** After discard the first block has data, unless it is the one being written. */
    ghost predicate Trimmed()
      reads this
    {
      last > 0 && views != [] ==> views[0].Readable() != []
    }

    /**
      Drops the first `len` bytes.  The blocks left are the old ones from some point on; the
      storage of those erased stays in `capacity`.
     */
    method Discard(len: nat)
      requires Valid() && len <= readable
      modifies this, Repr
      ensures Valid() && Repr == old(Repr)
      ensures Contents() == old(Contents())[len..]
      ensures |list| <= |old(list)| && list == old(list)[|old(list)| - |list|..]
      ensures capacity == old(capacity)
      ensures erased == old(erased) + Storage(old(views)[..|old(list)| - |list|])
      ensures Trimmed() && SameEnds(old(views), views, len)
      ensures last == old(last) - (|old(list)| - |list|) && (old(list) != [] ==> list != [])
      ensures old(list != [] && views[last].write == views[last].Capacity())
              ==> views[last].write == views[last].Capacity()
    {
      hide *;
      ghost var vs, ds := views, Drain(views, len);
      IsBetween();
      Parts();
      DiscardBlocks(vs, last, len);
      DiscardEnds(vs, last, len);
      TrimmedFront(vs, ds, last);
      DrainBlocks(len);
      SameLength();
      EraseDrained();
      SameLength();
      first := 0;
      readable := readable - len;
      erased := erased + Storage(vs[..|old(list)| - |list|]);
      SettledLayout(views, last);
      Whole();
      IsTrimmed();
    }

    lemma SameLength()
      requires Mirrored()
      ensures |views| == |list|
    {
    }

    lemma IsBetween()
      requires Valid()
      ensures Between()
    {
    }

    lemma IsTrimmed()
      requires last > 0 && views != [] ==> views[0].Readable() != []
      ensures Trimmed()
    {
    }

    /** Drops everything, blocks included. */
    method DiscardAll()
      requires Valid()
      modifies this
      ensures Valid() && Repr == {} && list == [] && last == 0
      ensures Contents() == [] && capacity == erased == 0
    {
      list, readable, capacity := [], 0, 0;
      first, last := 0, 0;
      views, erased, Repr := [], 0, {};
    }

    method RetrieveAsString(len: nat) returns (str: seq<byte>)
      requires Valid() && len <= readable
      modifies this, Repr
      ensures Valid() && Repr == old(Repr) && Trimmed()
      ensures SameEnds(old(views), views, len)
      ensures str == old(Contents())[..len] && Contents() == old(Contents())[len..]
      ensures capacity == old(capacity)
    {
      str := ToString(len);
      Discard(len);
    }

    method RetrieveAllAsString() returns (str: seq<byte>)
      requires Valid()
      modifies this, Repr
      ensures Valid() && Repr == old(Repr)
      ensures str == old(Contents()) && Contents() == []
      ensures capacity == old(capacity)
    {
      str := RetrieveAsString(readable);
    }

    // ---------- raw windows ----------

    /** Adds block `k`'s window to those before it, if it has data. */
    method AddWindow(bufs: seq<Window>, k: nat) returns (more: seq<Window>)
      requires Mirrored() && Settled(views, last) && first <= k < |list|
      requires Shows(bufs, Chunks(views[first..k]))
      requires forall w :: w in bufs ==> w.data in Repr
      requires FirstWindow(bufs, k)
      ensures Shows(more, Chunks(views[first..k + 1]))
      ensures FirstWindow(more, k + 1)
      ensures forall w :: w in more ==> w.data in Repr
    {
      hide Layout, Block.Ok, Block.Readable, Chunks, Shows, Window.Bytes, Buffer.FirstWindow, Buffer.Mirrored;
      SettledLayout(views, last);
      SameLength();
      OkAt(views, last, k);
      SeenAt(k);
      ChunksSnoc(views, first, k);
      NextFirst(bufs, k);
      var b := list[k];
      more := bufs;
      if b.ReadableBytes() > 0 {
        var w := Window(b.buffer, b.read, b.ReadableBytes());
        ShowsSnoc(bufs, Chunks(views[first..k]), w);
        more := more + [w];
      }
    }

    /** Of the blocks from `first` up to `end`, the first with data is the first window's. */
    ghost predicate FirstWindow(bufs: seq<Window>, end: nat)
      requires Mirrored() && first <= |list|
      reads this, Repr
    {
      var p := DataAt(views, first);
      && (bufs == [] <==> p >= end)
      && (bufs != [] ==> p < |list| && bufs[0] == Window(list[p].buffer, list[p].read, |views[p].Readable()|))
    }

    lemma NextFirst(bufs: seq<Window>, k: nat)
      requires Mirrored() && first <= k < |list| && FirstWindow(bufs, k)
      ensures k < |views|
      ensures if views[k].Readable() == [] then FirstWindow(bufs, k + 1)
              else FirstWindow(bufs + [Window(list[k].buffer, list[k].read, |views[k].Readable()|)], k + 1)
    {
      hide Block.Readable;
    }

    /** The windows of the blocks from `first` on that have data, in order. */
    method All() returns (bufs: seq<Window>)
      requires Mirrored() && Settled(views, last) && first <= last
      ensures Shows(bufs, Chunks(views[first..]))
      ensures FirstWindow(bufs, |list|)
      ensures forall w :: w in bufs ==> w.data in Repr
    {
      hide InPlace, Chunks, Apart, Shows;
      bufs := [];
      var it := first;
      NoWindows(views[first..first]);
      while it != last
        invariant first <= it <= last
        invariant Shows(bufs, Chunks(views[first..it]))
        invariant FirstWindow(bufs, it)
        invariant forall w :: w in bufs ==> w.data in Repr
        decreases last - it
      {
        bufs := AddWindow(bufs, it);
        it := it + 1;
      }
      if it != |list| {
        ChunksUpTo(views, last, first);
        DataUpTo(views, last, first);
        bufs := AddWindow(bufs, it);
      } else {
        assert views[first..it] == views[first..];
      }
    }

    /** The window that All lists first is the one of this block. */
    lemma BlockShown(bufs: seq<Window>)
      requires Mirrored() && Settled(views, last) && first <= |list|
      requires FirstWindow(bufs, |list|)
      ensures bufs == [] ==> DataAt(views, first) == |views|
      ensures bufs != [] ==>
              var p := DataAt(views, first);
              && p < |list|
              && bufs[0] == Window(list[p].buffer, list[p].read, |views[p].Readable()|)
              && bufs[0].Bytes() == views[p].Readable() != []
    {
      if bufs != [] {
        OkAt(views, last, DataAt(views, first));
      }
    }

    /** `w` is all the free space of the block the next bytes go to. */
    ghost predicate Offered(w: Window)
      reads this, Repr
    {
      && Mirrored() && last < |list|
      && Target(views, last) < |list|
      && var t := list[Target(views, last)];
      && w.data == t.buffer && w.at == t.write && w.at + w.len == t.buffer.Length
      && w.len > 0
    }

    /** A window never reaches into readable bytes, and no other block shares its array. */
    lemma OfferedIsFree(w: Window, i: nat)
      requires Valid() && Offered(w) && i < |list| && list[i].buffer == w.data
      ensures i == Target(views, last)
      ensures list[i].read <= list[i].write == w.at && w.at + w.len == list[i].buffer.Length
    {
      ApartAt(list, i);
      OkAt(views, last, i);
    }

    /** The free space of block `k`, where the next bytes go. */
    method FreeSpace(k: nat) returns (w: Window)
      requires Between() && last < |list| && k < |list|
      requires if list[last].write == list[last].buffer.Length then k == last + 1 else k == last
      ensures Offered(w) && w.data in Repr && Target(views, last) == k
      ensures list[last].buffer.Length >= MIN_BUFFER_SIZE
    {
      BlockOk(last);
      BlockOk(k);
      CapacityAtLeastMin(views[k].Capacity());
      CapacityAtLeastMin(views[last].Capacity());
      assert k > last ==> list[k].write == 0 by {
        assert InPlace(views[k], k, last);
      }
      w := Window(list[k].buffer, list[k].write, list[k].WriteableBytes());
    }

    /** Free space for at least one byte; nothing readable moves or changes. */
    method Next() returns (w: Window)
      requires Valid()
      modifies this, Repr
      ensures Valid() && fresh(Repr - old(Repr)) && old(Repr) <= Repr
      ensures Offered(w) && w.data in Repr
      ensures Contents() == old(Contents()) && erased == old(erased)
      ensures |list| <= old(|list|) + 1
      ensures Target(views, last) == last ==> list[last].read < list[last].Capacity() / 2
      ensures |list| > old(|list|) ==> Target(views, last) == old(|list|)
    {
      hide Flat, Layout, Sized, Block.Ok, LeastCapacity, Target, Fresh, Buffer.Between, Buffer.Offered;
      Parts();
      if last == |list| {
        AddLast(MIN_BUFFER_SIZE);
        Laid();
        FreshSpace(views[last], MIN_BUFFER_SIZE);
        w := FreeSpace(last);
        return;
      }
      BlockOk(last);
      if list[last].WriteableBytes() == 0 {
        if last + 1 == |list| {
          Grow();
        }
        w := FreeSpace(last + 1);
      } else {
        if list[last].PrependableBytes() >= list[last].Capacity() / 2 {
          RealignLastBlock();
          Laid();
        }
        w := FreeSpace(last);
      }
    }

    /** What whoever was handed the window does with it: stores bytes from its start on. */
    method Store(w: Window, data: seq<byte>)
      requires Valid() && Offered(w) && |data| <= w.len
      modifies this`views, w.data
      ensures Valid() && Offered(w)
      ensures Contents() == old(Contents())
      ensures Pending(|data|) == data
    {
      hide *;
      OfferedAt(w);
      ghost var vs, t := views, Target(views, last);
      PutFree(vs, last, t, data);
      PutBeyond(vs[t], data);
      SizedUpdate(vs, t, vs[t].Put(vs[t].write, data));
      TargetKept(vs, last, vs[t := vs[t].Put(vs[t].write, data)]);
      PutAt(t, w.data, w.at, data);
      Whole();
      StillOffered(w, |data|);
    }

    /** The window, in terms of the block it is in. */
    lemma OfferedAt(w: Window)
      requires Valid() && Offered(w)
      ensures Mirrored() && last < |list| == |views| && Target(views, last) < |list| && first == 0
      ensures Settled(views, last) && Layout(views, last) && Sized(views)
      ensures readable == |Flat(views)| && capacity == Storage(views) + erased && Contents() == Flat(views)
      ensures var t := Target(views, last);
              && w.data == list[t].buffer && w.at == views[t].write && w.len > 0
              && w.at + w.len == list[t].buffer.Length == views[t].Capacity()
    {
    }

    lemma StillOffered(w: Window, n: nat)
      requires Valid() && last < |list| && Target(views, last) < |list|
      requires var t := Target(views, last);
               && w.data == list[t].buffer && w.at == views[t].write && w.len > 0
               && w.at + w.len == views[t].Capacity() && n <= w.len
      ensures Offered(w) && w.data in Repr && |views| == |list|
      ensures Pending(n) == views[Target(views, last)].Beyond(n)
    {
    }

    /** The `n` bytes that moving the write position by `n` would take in. */
    ghost function Pending(n: nat): seq<byte>
      requires last < |views| && Target(views, last) < |views|
      requires var b := views[Target(views, last)]; b.write + n <= b.Capacity()
      reads `views, `last
    {
      views[Target(views, last)].Beyond(n)
    }

    method ExtendLastBlock(n: nat)
      requires Between() && last < |list| && views[last].write + n <= views[last].Capacity()
      modifies this`readable, this`views, list[last]
      ensures Between()
      ensures Contents() == old(Contents() + views[last].Beyond(n))
      ensures n > 0 ==> list[last].write == old(list[last].write) + n && list[last].read == old(list[last].read)
    {
      hide *;
      Parts();
      BlockOk(last);
      ExtendLast(views, last, n);
      ExtendBlock(views[last], n);
      SizedUpdate(views, last, views[last].SetWrite(views[last].write + n));
      SetWriteAt(last, list[last].write + n);
      readable := readable + n;
      Whole();
      BlockOk(last);
    }

    /** Takes in `n` bytes stored in the window that Next hands out. */
    method Extend(n: nat)
      requires Valid() && last < |list| && Target(views, last) < |list|
      requires var b := views[Target(views, last)]; b.write + n <= b.Capacity()
      modifies this`last, this`readable, this`views, Repr
      ensures Valid()
      ensures last == old(Target(views, last))
      ensures Contents() == old(Contents() + Pending(n))
      ensures n > 0 ==>
                && list[last].write == old(list[Target(views, last)].write) + n
                && list[last].read == old(list[Target(views, last)].read)
    {
      hide Flat, Storage, IsCapacity, InPlace, Apart;
      OkAt(views, last, last);
      if list[last].WriteableBytes() == 0 {
        StepPast(views, last);
        last := last + 1;
      }
      ExtendLastBlock(n);
    }

    /** Gives up the last `n` bytes of the last block. */
    method Unwrite(n: nat)
      requires Valid() && last < |list| && n <= list[last].write - list[last].read
      modifies this`readable, this`views, Repr
      ensures Valid() && views == old(views[last := views[last].SetWrite(views[last].write - n)])
      ensures n <= |old(Contents())|
      ensures Contents() == old(Contents())[..|old(Contents())| - n]
    {
      hide *;
      IsBetween();
      Parts();
      BlockOk(last);
      UnwriteLast(views, last, n);
      UnwriteBlock(views[last], n);
      SizedUpdate(views, last, views[last].SetWrite(views[last].write - n));
      SetWriteAt(last, list[last].write - n);
      readable := readable - n;
      Whole();
    }

    /** What the holder of a window already taken in does: stores bytes inside it. */
    method Overwrite(w: Window, data: seq<byte>)
      requires Valid() && last < |list| && w.data == list[last].buffer
      requires list[last].read <= w.at && w.at + |data| <= list[last].write
      modifies this`views, w.data
      ensures Valid() && views[last].read == list[last].read && views[last].write == list[last].write
      ensures list[last].write - w.at <= |old(Contents())|
      ensures Contents() ==
              Spliced(old(Contents()), |old(Contents())| - (list[last].write - w.at), data)
    {
      hide *;
      IsBetween();
      Parts();
      BlockOk(last);
      PutBack(views, last, w.at, data);
      PutBlockBack(views[last], w.at, data);
      SizedUpdate(views, last, views[last].Put(w.at, data));
      PutAt(last, w.data, w.at, data);
      Whole();
      BlockOk(last);
    }
  }
}
