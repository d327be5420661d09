/** One block of a buffer: a byte array with a read and a write cursor, updated in place. */
module DataBlocks {
  import opened Bytes
  import opened Blocks

  method Memcpy(target: array<byte>, at: nat, data: seq<byte>)
    requires at + |data| <= target.Length
    modifies target
    ensures target[..] == old(target[..at]) + data + old(target[at + |data|..])
  {
    forall i | 0 <= i < |data| {
      target[at + i] := data[i];
    }
  }

  class DataBlock {
    const buffer: array<byte>
    var read: nat
    var write: nat

    ghost function View(): Block
      reads this, buffer
    {
      Block(buffer[..], read, write)
    }

    /** An empty block of the least capacity that holds `len` bytes. */
    constructor (len: nat := MIN_BUFFER_SIZE)
      ensures Fresh(View())
      ensures LeastCapacity(buffer.Length, len)
      ensures if len <= 1024 then buffer.Length == 1024 else len <= buffer.Length < 2 * len
      ensures fresh(buffer)
    {
      var realSize := MIN_BUFFER_SIZE;
      while realSize < len
        invariant IsCapacity(realSize)
        invariant realSize == MIN_BUFFER_SIZE || realSize / 2 < len
        decreases len - realSize
      {
        realSize := realSize * 2;
      }
      buffer := new byte[realSize](_ => 0);
      read, write := 0, 0;
      new;
      forall d: nat | IsCapacity(d) && len <= d ensures realSize <= d {
        CapacityAtLeastMin(d);
        if d < realSize {
          CapacitiesDouble(d, realSize);
        }
      }
      CapacityAtLeastMin(realSize);
    }

    /** A block with its own array and the same bytes and cursors. */
    constructor Copy(data: DataBlock)
      ensures View() == old(data.View())
      ensures fresh(buffer)
    {
      var source := data.buffer;
      buffer := new byte[source.Length](i requires 0 <= i < source.Length reads source => source[i]);
      read, write := data.read, data.write;
    }

    function Capacity(): nat { buffer.Length }

    function ReadableBytes(): nat
      requires read <= write
      reads this
    {
      write - read
    }

    function WriteableBytes(): nat
      requires write <= buffer.Length
      reads this
    {
      buffer.Length - write
    }

    function PrependableBytes(): nat
      reads this
    {
      read
    }

    function TotalSpace(): nat
      requires write <= buffer.Length
      reads this
    {
      WriteableBytes() + PrependableBytes()
    }

    method SetReadPosition(pos: nat)
      requires pos <= write
      modifies this
      ensures View() == old(View()).SetRead(pos)
    {
      read := pos;
      if read == write && read != Capacity() {
        read, write := 0, 0;
      }
    }

    method SetWritePosition(pos: nat)
      requires read <= pos <= buffer.Length
      modifies this
      ensures View() == old(View()).SetWrite(pos)
    {
      write := pos;
      if read == write && read != Capacity() {
        read, write := 0, 0;
      }
    }

    /** Copies `data` into the array from offset `at` on. */
    method CopyIn(at: nat, data: seq<byte>)
      requires at + |data| <= buffer.Length
      modifies buffer
      ensures View() == old(View()).Put(at, data)
    {
      Memcpy(buffer, at, data);
    }

    /** Copies the readable bytes down to offset 0, forward and in place. */
    method MoveDown() returns (index: nat)
      requires read <= write <= buffer.Length
      modifies buffer
      ensures index == write - read
      ensures buffer[..] == old(buffer[read..write]) + old(buffer[index..])
    {
      var rindex := read;
      index := 0;
      while rindex < write
        invariant index == rindex - read
        invariant read <= rindex <= write
        invariant forall i :: 0 <= i < index ==> buffer[i] == old(buffer[read + i])
        invariant forall i :: index <= i < buffer.Length ==> buffer[i] == old(buffer[i])
      {
        buffer[index] := buffer[rindex];
        index := index + 1;
        rindex := rindex + 1;
      }
    }

    /** Moves the readable bytes down to offset 0. */
    method Realign()
      requires View().Ok()
      modifies this, buffer
      ensures View() == old(View()).Compacted()
    {
      if read > 0 {
        var index := MoveDown();
        SetReadPosition(0);
        SetWritePosition(index);
      }
    }
  }

  /** A stretch of a block's array, as handed to a reader or a writer. */
  datatype Window = Window(data: array<byte>, at: nat, len: nat) {
    ghost function Bytes(): seq<byte>
      reads data
    {
      if at + len <= data.Length then data[at..at + len] else []
    }
  }

  /** The windows, in order, hold the chunks, none of them empty. */
  ghost predicate Shows(ws: seq<Window>, chunks: seq<seq<byte>>)
    reads set w | w in ws :: w.data
  {
    && |ws| == |chunks|
    && forall j :: 0 <= j < |ws| ==> ws[j].len > 0 && ws[j].Bytes() == chunks[j]
  }

  lemma NoWindows(bs: seq<Block>)
    requires bs == []
    ensures Shows([], Chunks(bs))
  {
  }

  lemma ShowsSnoc(ws: seq<Window>, chunks: seq<seq<byte>>, w: Window)
    requires Shows(ws, chunks) && w.len > 0
    ensures Shows(ws + [w], chunks + [w.Bytes()])
  {
  }

  /** No two blocks of the list share their array, so no two positions name the same block. */
  ghost predicate Apart(bs: seq<DataBlock>) {
    bs != [] ==>
      && (forall i :: 0 < i < |bs| ==> bs[i].buffer != bs[0].buffer)
      && Apart(bs[1..])
  }

  lemma {:induction false} ApartAt(bs: seq<DataBlock>, k: nat)
    requires Apart(bs) && k < |bs|
    ensures forall i :: 0 <= i < |bs| && i != k ==> bs[i].buffer != bs[k].buffer
  {
    if k > 0 {
      ApartAt(bs[1..], k - 1);
      assert forall i :: 1 <= i < |bs| ==> bs[i] == bs[1..][i - 1];
    }
  }

  lemma {:induction false} ApartSnoc(bs: seq<DataBlock>, b: DataBlock)
    requires Apart(bs)
    requires forall i :: 0 <= i < |bs| ==> bs[i].buffer != b.buffer
    ensures Apart(bs + [b])
  {
    if bs == [] {
      assert (bs + [b])[1..] == [];
    } else {
      ApartSnoc(bs[1..], b);
      assert (bs + [b])[1..] == bs[1..] + [b];
    }
  }

  lemma ApartCons(b: DataBlock, bs: seq<DataBlock>)
    requires Apart(bs)
    requires forall i :: 0 <= i < |bs| ==> bs[i].buffer != b.buffer
    ensures Apart([b] + bs)
  {
    assert ([b] + bs)[1..] == bs;
  }
}
