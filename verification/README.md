# A verified model of uvcpp's buffer, codec, connections and queues

uvcpp is a small C++ networking library on top of libuv. This project models its segmented
byte buffer and the stateful protocols built on it or beside it, and proves that they do what
their users rely on.

* **Buffer** (`Blocks.dfy`, `DataBlock.dfy`, `Buffer.dfy`, `BufferRuns.dfy`). A buffer is a list of
  blocks of 1024, 2048, 4096, ... bytes. It grows at both ends, compacts blocks in place, erases
  drained blocks and hands out raw windows. Every operation keeps one invariant (`Valid`), which
  the source never states: `firstWithData_` is `list_.begin()`, blocks before the last one are
  written to their end, blocks after the first start at offset 0, and at most one block, reset to
  (0,0), lies past the last one. Under it the list of blocks always stands for one flat byte
  sequence, `Contents()`. The classes mutate arrays, cursors and the list as the source does; a
  ghost field `views` mirrors the state of each block, so that the reasoning about contents is
  about values (`Blocks.dfy`). List iterators are positions, so a block pushed at the front adds one to the
  position of the last block and an erased one subtracts one.
* **Integers and strings** (`Integers.dfy`, `BufferIntegers.dfy`). Signed integers in network byte
  order on a little-endian host, `htonll`/`ntohll`, and zero-terminated strings read in chunks.
* **Streams and codec** (`BufferStream.dfy`, `Codec.dfy`). The zero-copy output stream, the input
  stream as far as draining it, on any buffer, and length-prefixed frames. The payload is an opaque
  byte string; the type registry is a set of known names, and a parser is two predicates on name and
  bytes: after which bytes it gives up without reading on, and which payloads it accepts at their
  end. A failed assert is an outcome (`Asserted`), not a precondition.
* **Connections** (`Lifecycle.dfy`, `HandleAccounts.dfy`, `TcpConnection.dfy`). The four-state half-close machine, who holds
  a reference, what is posted to the loop, which requests await their callback, and the log of
  calls on the handle; as a step system and as a class that performs its steps. What a run leaves
  behind is counted off its events: references, sends, callbacks. The states are a
  simplified view of those in section 3.3.2 of RFC 9293. The read path from alloc callback to read
  callback is part of the class.
* **Server** (`IdleWheel.dfy`, `TcpServer.dfy`, `ServerRuns.dfy`). One loop thread's idle wheel, its
  connection map, the accept loop, and whole runs of all its connections together with the wheel.
  The class keeps the state it stands for in a ghost field `view`; each of its methods performs steps
  of the step system, so that what is proved of all runs holds of it.
* **Queues** (`BoundedBlockingQueue.dfy`, `BlockingQueue.dfy`). Interleaved atomic steps of any number
  of threads, with the mutex, the wait sets and spurious wakeups explicit. What threads have put and
  got is counted off their calls, and calls that nothing interrupts have their whole effect stated.

## Where the code does less than it seems to

* The input stream does not cut its windows at the payload's length
  (src/BufferStream.h:53-66). Whatever its parser accepts, a frame is read back only when its
  payload is empty or ends where a block's readable bytes end; otherwise the parser gives up in the
  bytes behind it (CODEC_ERR), or an assert fails (`Codecs.Decode`). A frame encoded behind it goes
  into the same block unless that block is empty, or full with at most three bytes read away
  (`Codecs.EncodeBehindThenDecode`); so of two frames in a row, the first with a non-empty payload
  and of at most 1020 bytes, the first cannot be read (`Codecs.EncodeTwiceThenDecode`).
* The input stream hands out the first block with data but moves on by one block only
  (src/BufferStream.h:58-64). Behind a drained first block it hands the same block out twice
  (`BufferStreams.HandedOutTwice`); exactly when it does not is `BufferStreams.HandedOutOnce`.
  `decode` never meets this, as `discard` erases drained blocks before the last one.
* Sizes are cut down to 32 bits (src/Codec.h:25-26): a frame's header is read back just when the
  sizes fit (`Codecs.ParsesIffFits`).
* A comment says that after the peer has closed one can go on sending until `shutdown()` is called
  (src/TcpConnection.cpp:55-57). Such connections exist (`Lifecycle.HalfClosedHeld`), but
  `shutdown()` does nothing to them: only their last reference going ends them
  (`Lifecycle.OnlyDestructionEnds`). A call of `shutdown()` has its effect, one shutdown made or
  posted, in every state but this one (`Lifecycle.ShutdownTakesEffect`).
* A `shutdown()` called off the loop's thread is posted, and the close of the handle may overtake it
  (`Lifecycle.ShutdownOvertaken`). It does just in the runs in which the handle is closed while the
  shutdown still waits (`Lifecycle.ShutdownAfterCloseIff`), so never when a user keeps a reference
  as long as it waits (`Lifecycle.KeptMeansInTime`), or when `shutdown()` is only called on the
  loop's thread (`Lifecycle.NeverOvertakenOnLoop`).
* `poll` does not look at the queue again after a timeout, so it may return false with elements in
  the queue (`BlockingQueue.PollMayMissAnElement`), even after it has been notified of them
  (`BlockingQueue.NotifiedPollMayMissIt`). It leaves none just when all that was put since
  its last look has been popped (`BlockingQueue.FalseMeansEmptyIff`, `BlockingQueue.GaveUpOnEmptyIff`).
* With a maximum size of 0, and only then, putters and takers of the bounded queue can all wait at
  the same time (`BoundedBlockingQueue.BothWaitIffNoRoom`).

## Model

| member | source | states |
|---|---|---|
| Blocks.CapacitiesDouble | src/Buffer.cpp:10-18 | of two block capacities the larger is at least twice the smaller, so doubling from 1024 misses none |
| Blocks.WrittenExtends | src/Buffer.cpp:106-110 | writing at the write position adds the bytes at the end of a block's readable ones, and the reset rule never takes a byte away |
| Blocks.PrefixedExtends | src/Buffer.cpp:142-146 | writing before the read position adds the bytes in front of a block's readable ones |
| Blocks.CompactedRealigns | src/Buffer.cpp:20-30 | compacting keeps the readable bytes, starts them at offset 0 and makes all of totalSpace writeable |
| Blocks.WriteLast | src/Buffer.cpp:105-110 | filling the last block keeps the layout and appends to the flat sequence, wherever the blocks are cut |
| Blocks.CompactLast | src/Buffer.cpp:111-116 | compacting the last block keeps the layout, the flat sequence and the storage |
| Blocks.WriteFirst | src/Buffer.cpp:142-154 | writing before the first block's bytes keeps the layout and prepends to the flat sequence |
| Blocks.GrowFront | src/Buffer.cpp:132-141 | a block filled to its end may be put before a first one that starts at offset 0, the last position moving along |
| Blocks.DrainFlat | src/Buffer.cpp:193-208 | moving read positions past len bytes, block by block, drops exactly the first len bytes |
| Blocks.DrainShape | src/Buffer.cpp:197-208 | a block touched by draining has only drained blocks before it; written ends and spare blocks stay |
| Blocks.TrimSettles | src/Buffer.cpp:209-218 | erasing the drained blocks before the last one leaves a list in the normal layout again |
| Blocks.DiscardBlocks | src/Buffer.cpp:193-220 | draining and erasing together: normal layout, the suffix of the contents, and the erased storage accounted for |
| Blocks.DrainEnds | src/Buffer.cpp:195-208 | draining leaves every block end beyond what it drops where it is, and makes no new one |
| Blocks.DiscardEnds | src/Buffer.cpp:193-220 | so do draining and erasing together |
| Blocks.AppendEnds | src/Buffer.cpp:93-127 | appending leaves earlier block ends in place; the old end stays one if and only if the last block is empty, or full to its end with less room before its bytes than is appended |
| Blocks.ExtendLast | src/Buffer.cpp:311-318 | moving the write position takes in just the bytes stored beyond it |
| Blocks.UnwriteLast | src/Buffer.cpp:320-325 | moving the write position back gives up just the last bytes, also when the block becomes empty and is reset |
| Blocks.PutBack | src/BufferStream.h:19-26 | storing into a window already taken in changes only the end of the contents |
| Blocks.ChunksJoin | src/Buffer.cpp:266-280 | the readable parts of the non-empty blocks are non-empty and join up to the flat sequence |
| Blocks.DataIsNext | src/Buffer.cpp:266-280 | between the first block with data and the last one no block is empty |
| DataBlocks.DataBlock.constructor | src/Buffer.cpp:10-18 | a new block is empty at (0,0) and has the least capacity 1024*2^k that holds the requested length: 1024, or less than twice that length |
| DataBlocks.DataBlock.Copy | src/Buffer.h:32-37 | a copied block has an array of its own with the same bytes and cursors |
| DataBlocks.DataBlock.SetReadPosition | src/Buffer.h:88-94 | the read cursor moves, and an emptied block is reset to (0,0) unless it is at its end |
| DataBlocks.DataBlock.SetWritePosition | src/Buffer.h:96-102 | the write cursor moves, under the same reset rule |
| DataBlocks.DataBlock.Realign | src/Buffer.cpp:20-30 | the forward copy in place overwrites no byte before it is read: old readable bytes first, all else as before |
| DataBlocks.ApartAt | src/Buffer.h:246 | no two positions of the list name the same block or share an array |
| Buffers.Buffer.constructor | src/Buffer.cpp:32-38 | a new buffer is valid, without blocks and contents |
| Buffers.Buffer.Copy | src/Buffer.cpp:40-59 | a copy is valid, shares no block with the source and has the same blocks, last position and contents |
| Buffers.Buffer.Move | src/Buffer.cpp:61-75 | a buffer moved from a non-empty list has the source's blocks and contents, and the source is valid and empty |
| Buffers.Buffer.Append | src/Buffer.cpp:93-127 | appends exactly the bytes, terminating on the blocks past the last one; earlier blocks untouched, at most one block added, of least capacity for what it holds, and none if the last has room once compacted; and which block ends stay |
| Buffers.Buffer.Spill | src/Buffer.cpp:117-125 | the branch that fills the last block, even if nothing fits, and steps past it |
| Buffers.Buffer.Prepend | src/Buffer.cpp:129-165 | prepends exactly the bytes; only the first block is written and a block is added if and only if they do not fit before it, of least capacity for what is left |
| Buffers.Buffer.ToString | src/Buffer.cpp:167-186 | returns the first len bytes of the contents |
| Buffers.Buffer.DrainBlocks | src/Buffer.cpp:195-208 | the first loop of discard drains the blocks front first |
| Buffers.Buffer.EraseDrained | src/Buffer.cpp:209-217 | the second loop erases exactly the blocks in front that have nothing to read, short of the last one |
| Buffers.Buffer.Discard | src/Buffer.cpp:193-220 | drops exactly the first len bytes; the blocks left are a suffix of the old ones and end where they did; capacity_ keeps counting the erased ones |
| Buffers.Buffer.DiscardAll | src/Buffer.cpp:222-228 | leaves no block, no contents and no capacity |
| Buffers.Buffer.RetrieveAsString | src/Buffer.cpp:230-236 | returns the first len bytes and drops them |
| Buffers.Buffer.RetrieveAllAsString | src/Buffer.cpp:261-264 | returns everything and leaves nothing |
| Buffers.Buffer.All | src/Buffer.cpp:266-280 | the windows handed out are non-empty and hold the readable parts of the blocks in order; the first is that of the first block with data |
| Buffers.Buffer.OfferedIsFree | src/Buffer.cpp:307-308 | a window from next is all the free space of one block and overlaps no readable byte of any |
| Buffers.Buffer.Next | src/Buffer.cpp:282-309 | hands out a non-empty window with the contents unchanged, whether it adds a block, uses the spare or compacts; it compacts when half the block is behind the read position |
| Buffers.Buffer.Store | src/TcpConnection.cpp:78-89 | bytes stored in the window do not show until extend |
| Buffers.Buffer.Extend | src/Buffer.cpp:311-318 | takes in the bytes of the very window that next handed out |
| Buffers.Buffer.Unwrite | src/Buffer.cpp:320-325 | gives up exactly the last bytes |
| Buffers.Buffer.Overwrite | src/BufferStream.h:19-26 | storing into a window taken in changes just those bytes of the contents |
| BufferRuns.Call | src/Buffer.cpp:93-325 | each call changes the contents, and returns, what the flat sequence says: appends of bytes and of numbers, prepends, windows filled and extended, windows taken in whole and cut back by unwrite, reads, peeks, discards, numbers and zero-terminated strings |
| BufferRuns.Run | src/test/testBuffer.cpp:90-116 | any finite run of these calls within their asserts leaves the contents, and returns the strings and numbers, of the run on one flat byte sequence |
| BufferRuns.FillWindow | src/Buffer.cpp:282-318 | next, storing bytes in its window and extend equal append of those bytes, and a window always takes at least one |
| BufferRuns.RunApart | src/Buffer.cpp:40-59 | a copy and its source run independently of each other, in contents and in what they return |
| BufferRuns.FirstInFirstOut | src/Buffer.cpp:93-325 | in any run without prepend the bytes gone, then the contents, are the bytes that were there and those added, whichever call added them |
| BufferRuns.NumbersComeBack | src/Buffer.h:166-231 | numbers of any widths, appended one after the other behind any contents, come back in order once those contents have been retrieved |
| BufferRuns.PrependUndone | src/Buffer.cpp:129-165 | anywhere in a run, prepending and taking back as many bytes is as if nothing had happened, whatever came before and comes after |
| Integers.NtohllUndoesHtonll | src/utility.h:67-69 | ntohll inverts htonll on all 64-bit values, negative ones included |
| Integers.HtonllImage | src/utility.h:67 | the value htonll makes lies in memory as the big-endian image of its argument |
| Integers.HtonImages | src/Buffer.h:170-178 | likewise for htons and htonl with the conversions to and from signed |
| Integers.PeekedWire16 | src/Buffer.h:203-207 | what peekInt16 makes of a value's image is the value |
| Integers.PeekedWire32 | src/Buffer.h:215-219 | what peekInt32 makes of a value's image is the value |
| Integers.PeekedWire64 | src/Buffer.h:227-231 | what peekInt64 makes of a value's image is the value |
| Integers.WirePeeked64 | src/Buffer.h:227-231 | any eight bytes are the image of what peekInt64 makes of them |
| Integers.ReadsBack16 | src/Buffer.h:197-201 | reading a 16-bit value back gives the value appended and drops exactly its bytes |
| Integers.ReadsBack32 | src/Buffer.h:209-213 | the same for 32 bits |
| Integers.ReadsBack64 | src/Buffer.h:221-225 | the same for 64 bits |
| BufferIntegers.AppendInt8 | src/Buffer.h:166-168 | appends the value's one byte |
| BufferIntegers.AppendInt16 | src/Buffer.h:170-173 | appends the value's two bytes, most significant first |
| BufferIntegers.AppendInt32 | src/Buffer.h:175-178 | appends the value's four bytes, most significant first |
| BufferIntegers.AppendInt64 | src/Buffer.h:180-183 | appends the value's eight bytes, most significant first |
| BufferIntegers.PeekInt8 | src/Buffer.h:191-195 | returns the value whose byte is the first of the contents |
| BufferIntegers.PeekInt16 | src/Buffer.h:203-207 | returns the value whose image the contents begin with, across block boundaries |
| BufferIntegers.PeekInt32 | src/Buffer.h:215-219 | the same for four bytes |
| BufferIntegers.PeekInt64 | src/Buffer.h:227-231 | the same for eight bytes |
| BufferIntegers.ReadInt8 | src/Buffer.h:185-189 | the old contents are the value's byte and the new contents |
| BufferIntegers.ReadInt16 | src/Buffer.h:197-201 | the old contents are the value's image and the new contents |
| BufferIntegers.ReadInt32 | src/Buffer.h:209-213 | the same for four bytes |
| BufferIntegers.ReadInt64 | src/Buffer.h:221-225 | the same for eight bytes |
| BufferIntegers.RetrieveCStyleString | src/Buffer.cpp:238-259 | returns exactly the bytes before the first zero and leaves exactly those after it, for any length, never leaving its chunk |
| BufferStreams.BufferOutputStream.Next | src/BufferStream.h:19-26 | takes in a non-empty window at the end of the contents, earlier bytes unchanged |
| BufferStreams.BufferOutputStream.BackUp | src/BufferStream.h:28-30 | gives back exactly the last count bytes |
| BufferStreams.BufferOutputStream.WriteAll | src/BufferStream.h:12-39 | writing a message window by window equals appending it, and ByteCount grows by its length |
| BufferStreams.BufferOutputStream.WriteRound | src/BufferStream.h:19-30 | one Next, the bytes stored and any number of BackUp calls: what is left of the window joins the contents and begins with the bytes stored |
| BufferStreams.BufferOutputStream.Session | src/BufferStream.h:12-39 | over any session of Next, writing and several BackUp calls a window, the buffer grows by exactly what was not given back, which ByteCount counts |
| BufferStreams.BufferOutputStream.constructor | src/BufferStream.h:12-17 | a new stream counts 0, whatever the buffer holds |
| BufferStreams.WriteSession | src/BufferStream.h:12-34 | after any session on a new stream ByteCount is the number of bytes kept, whatever the buffer held before |
| BufferStreams.WriteMessage | src/BufferStream.h:12-34 | after a message written through a new stream ByteCount is its length |
| BufferStreams.BufferInputStream.Next | src/BufferStream.h:53-66 | for every buffer and first position: which block is handed out, whole, and when Next returns false, fails its assert or walks past the list; the first position moves by one, the counters wrap as size_t and ByteCount grows by the window as int64_t does |
| BufferStreams.BufferInputStream.Drain | src/BufferStream.h:53-81 | which blocks a reader gets that pulls until the stream ends, how it ends, the counters it leaves, and that ByteCount has grown by the bytes handed out, for every valid buffer |
| BufferStreams.PulledInOrder | src/BufferStream.h:53-66 | with data in the first block, blocks are handed out in turn, and the reader gets exactly its len bytes if and only if they end where a block does, and else the failed assert |
| BufferStreams.HandedOutOnce | src/BufferStream.h:53-66 | the exact condition under which no block is handed out twice: the first block has data, or at most one block has, or the count stops the reader before its second pull |
| BufferStreams.PulledTwice | src/BufferStream.h:58-64 | with a drained block in front and data in two blocks behind it, the first of these is handed out twice in a row |
| BufferStreams.HandedOutTwice | src/BufferStream.h:53-66 | a buffer that three appends and a discard bring about, and the two equal windows a stream on it hands out |
| Codecs.ParseFrame | src/Codec.h:31-43 | the header of a frame that fits is read back: type name, payload length, and the payload next in the buffer |
| Codecs.ParsePrefix | src/Codec.h:32-35 | every proper prefix of at least 4 bytes of such a frame is CODEC_UNABLE |
| Codecs.ParsesIffFits | src/Codec.h:25-43 | the header is read back if and only if name, payload and 4 fit in 31 bits |
| Codecs.Encode | src/Codec.h:18-29 | appends exactly the frame, or nothing and reports CODEC_ERR when the message does not serialise; and whether the bytes before it still end where a block does |
| Codecs.DecodeHeader | src/Codec.h:32-38 | reads sizes and name as Parse says, dropping exactly the header and moving no block end behind it; contents unchanged on CODEC_UNABLE |
| Codecs.Decode | src/Codec.h:31-49 | every outcome of decode for every buffer and parser, also one that gives up early: a complete frame of a known type is read only if its payload is empty or ends where a block of the buffer ended before the call, and then if and only if its parser takes it in; else the parser gives up in what it is handed (CODEC_ERR) or an assert fails; what is left behind |
| Codecs.EncodeThenDecode | src/test/testCodec.cpp:9-37 | a message encoded into any buffer without contents, whatever its blocks, decodes to its name and payload and leaves nothing, if and only if its type is known and its parser takes it |
| Codecs.EncodeBehindThenDecode | src/Codec.h:18-49 | a frame with a payload its parser takes, behind which another has been encoded, is read if and only if its payload is empty or the last block was empty, or full with at most three bytes of it read away; else the parser gives up in the other frame or an assert fails |
| Codecs.EncodeTwiceThenDecode | src/Codec.h:18-49 | of two frames encoded one after the other, the first with a non-empty payload and of at most 1020 bytes, the first cannot be read |
| Lifecycle.StepKeeps | src/TcpConnection.cpp:27-142 | every event keeps the invariant on references, on the calls made and waiting, and on their order |
| Lifecycle.ReadAssertsHold | src/TcpConnection.cpp:43-48 | whenever a read callback can come, the connection can be locked and has had no end of file: neither assert fails |
| Lifecycle.StateMoves | src/TcpConnection.cpp:50-120 | the state moves only from CONNECTED by FIN_WAIT or CLOSE_WAIT to CLOSED, each move by its own event |
| Lifecycle.EndedOnceEach | src/TcpConnection.cpp:27-39 | a destroyed connection whose posted actions and shutdown callbacks have run has been shut down exactly once and closed exactly once, whoever closed first |
| Lifecycle.ClosedMeansUnused | src/TcpConnection.cpp:131-186 | once the handle is closed no write is outstanding or issued later, and neither map nor user refers to the connection |
| Lifecycle.EndsAreFinite | src/TcpConnection.cpp:98-116 | after destruction each further event uses up what is posted or pending, so the end is reached |
| Lifecycle.OnlyDestructionEnds | src/TcpConnection.cpp:55-57 | from CLOSE_WAIT, whatever the run, there is nothing but writes on the handle until the connection is destroyed, and never a shutdown by a call of shutdown() |
| Lifecycle.ShutdownTakesEffect | src/TcpConnection.cpp:118-129 | whoever holds the connection can call shutdown(), after which the one shutdown has been made or posted, unless the connection is in CLOSE_WAIT, when there is none |
| Lifecycle.HalfClosedHeld | src/TcpConnection.cpp:52-60 | a user can hold a connection in CLOSE_WAIT that is no longer in the map |
| Lifecycle.ShutdownAfterCloseIff | src/TcpConnection.cpp:33-37 | over every run that leaves nothing posted, a shutdown follows the close if and only if some event closed the handle while a posted shutdown was waiting |
| Lifecycle.KeptMeansInTime | src/TcpConnection.cpp:33-37 | in particular none does in a run in which a user keeps a reference as long as the posted shutdown is waiting |
| Lifecycle.NeverOvertakenOnLoop | src/EventLoop.cpp:44-59 | with shutdown() called only on the loop's thread no run puts a shutdown after the close |
| Lifecycle.ShutdownOvertaken | src/EventLoop.cpp:44-59 | from another thread it can: a run of a user who holds the connection, calls shutdown() and lets go, in which the close comes first |
| HandleAccounts.RunBalances | src/TcpConnection.cpp:131-186 | over every run: the user holds the references handed out and not given back, each send is one write made or posted whose context waits for its one callback, and each shutdown made waits for its callback or has had it |
| HandleAccounts.SendIssues | src/TcpConnection.cpp:144-153 | a connection that is held can be sent on in any state; the write is made at once on the loop's thread and posted from any other, once |
| HandleAccounts.WritesAwaited | src/TcpConnection.cpp:131-153 | in every reachable state a write context is there if and only if its write has been issued or is posted, so its callback can still come |
| HandleAccounts.DestroyedIff | src/TcpConnection.cpp:27-39 | over every run the connection is destroyed if and only if the map has let go, the user has given back all references and every send has had its callback |
| HandleAccounts.EndIsReachable | src/TcpConnection.cpp:27-142 | from every reachable state some run destroys the connection and leaves nothing posted and no callback due |
| HandleAccounts.OnlyLoopTouchesHandle | src/EventLoop.cpp:44-59 | no other thread makes a call on the handle, it only posts; the loop's thread posts nothing and runs what was posted once |
| TcpConnections.TcpConnection.constructor | src/TcpConnection.cpp:8-25 | a new connection is CONNECTED, with an empty input buffer |
| TcpConnections.TcpConnection.RunInLoopThread | src/EventLoop.cpp:44-59 | an action runs at once on the loop's thread and is posted from any other |
| TcpConnections.TcpConnection.Destructor | src/TcpConnection.cpp:27-39 | the destructor's two ways to end the handle |
| TcpConnections.TcpConnection.ShutdownWrite | src/TcpConnection.cpp:107-116 | the shutdown that closes the handle in its callback |
| TcpConnections.TcpConnection.Shutdown | src/TcpConnection.cpp:118-129 | performs the step of a call of shutdown() |
| TcpConnections.TcpConnection.Send | src/TcpConnection.cpp:144-153 | performs the step of a call of send(): the write is issued or posted and holds a reference until its callback |
| TcpConnections.TcpConnection.RunAsync | src/EventLoop.cpp:112-120 | an action handed over from another thread runs later, once |
| TcpConnections.TcpConnection.Released | src/TcpConnection.cpp:27-39 | the destructor runs when the last reference has gone, and only then |
| TcpConnections.TcpConnection.Release | src/TcpConnection.cpp:27-39 | performs the step of a user dropping a reference |
| TcpConnections.TcpConnection.ReadEof | src/TcpConnection.cpp:47-51 | performs the step of an end of file, its asserts proved |
| TcpConnections.TcpConnection.Handed | src/TcpConnection.cpp:52-54 | performs the step of a callback that is handed the connection |
| TcpConnections.TcpConnection.Unmapped | src/TcpConnection.cpp:55-60 | performs the step in which the map lets go of the connection |
| TcpConnections.TcpConnection.WriteCallback | src/TcpConnection.cpp:131-142 | performs the step of a finished write |
| TcpConnections.TcpConnection.ShutdownCallback | src/TcpConnection.cpp:98-105 | performs the step of a finished shutdown |
| TcpConnections.TcpConnection.AllocCallback | src/TcpConnection.cpp:78-89 | a window of the input buffer, contents unchanged, or none once the connection has gone |
| TcpConnections.TcpConnection.ReadCallback | src/TcpConnection.cpp:62-72 | the bytes received join the contents, of which the callback takes as many as it asks for, from the front, as far as there are so many; without a callback nothing changes |
| TcpConnections.WriteContext.constructor | src/TcpConnection.h:167-179 | takes a buffer over and lists windows that hold exactly its contents |
| TcpConnections.Receive | src/TcpConnection.cpp:62-89 | one allocation and read: the bytes stored follow the contents, and the callback takes what it asks for |
| TcpConnections.ReceiveAll | src/TcpConnection.cpp:62-89 | over any run of allocations and reads, what was taken and what is in the buffer is all that arrived, once and in order, and what is left is what the callbacks did not ask for |
| TcpConnections.AllTaken | src/TcpConnection.cpp:68-71 | after a callback that takes whatever there is nothing is left, whatever the others took |
| IdleWheel.StepKeeps | src/TcpServer.cpp:48-52 | every tick, accept, read and destruction keeps each entry in the buckets up to its deadline and no further |
| IdleWheel.BucketsStay | src/TcpServer.cpp:35-52 | the wheel holds timeout_ buckets after every event |
| IdleWheel.LivesForTimeout | src/TcpServer.cpp:48-52 | with N buckets an entry last put in between ticks k and k+1 is alive through tick k+N-1 and not after tick k+N |
| IdleWheel.FiresOnce | src/Callbacks.cpp:6-11 | after any number of ticks an entry's callback has fired at exactly that tick, if and only if its connection was still there, and at most once |
| IdleWheel.ReadPutsOff | src/TcpConnection.cpp:63-67 | a read in time puts the deadline off; an expired entry is never put in again |
| TcpServers.TcpServer.SetUpWheel | src/TcpServer.cpp:35-46 | the loop makes timeout_ empty buckets, and none without a timeout: the step system's start |
| TcpServers.TcpServer.CheckConnection | src/TcpServer.cpp:48-52 | turns the wheel, performs a tick and fires for exactly the entries no other bucket holds and whose connection is there |
| TcpServers.TcpServer.UpdateConnection | src/TcpServer.h:79-81 | puts an entry in the back bucket |
| TcpServers.TcpServer.Touch | src/TcpConnection.cpp:63-67 | puts an entry in again just when some bucket still holds it |
| TcpServers.TcpServer.RemoveConnection | src/TcpServer.h:74-77 | takes exactly this connection out of the map, which lets go of it |
| TcpServers.TcpServer.Deliver | src/TcpConnection.cpp:41-142 | every call on and callback of a connection performs the server's step, with the map just the connections it refers to |
| TcpServers.TcpServer.ReadData | src/TcpConnection.cpp:62-72 | a read callback without error or end of file, even one of no bytes: the entry is put in again first, then the user is called |
| TcpServers.TcpServer.Connect | src/TcpServer.cpp:161-184 | maps a fresh connection under its id, puts its entry in the back bucket and shows it to the user, performing the two steps |
| TcpServers.TcpServer.NewConnection | src/TcpServer.cpp:110-198 | accepts until there is nothing more, at most ten: performs the run of these accepts; the ids made lead to fresh connections, mapped, watched and with the server's message callback, and every other entry stays as before |
| TcpServers.IdsAscend | src/TcpServer.cpp:116-117 | ids are given out in order and never twice |
| ServerRuns.StepKeeps | src/TcpServer.cpp:99-199 | every event of a server thread keeps connections, map and wheel consistent |
| ServerRuns.MapHoldsTheOpen | src/TcpServer.h:74-77 | in every reachable state whoever is read from is in the map, and data or an end of file may come; whoever is in it has not been destroyed or closed, and a closed handle has no write and no user left |
| ServerRuns.ConnRuns | src/TcpServer.cpp:110-199 | in every run of the server each connection accepted lives through a run of its own, made of just the events that name it, in order; so all that holds of runs of one connection holds in the server |
| ServerRuns.RunAccounts | src/TcpServer.cpp:48-52 | after every run, with a timeout or without, the wheel's ticks, ids and last reads are those counted off the run's events |
| ServerRuns.IdleFires | src/Callbacks.cpp:6-11 | in every run a tick fires a connection's idle callback if and only if the connection has not been destroyed and the tick is timeout_ after its last read, by the run's own count of ticks, accepts and reads in time |
| ServerRuns.IdleFiresOnce | src/Callbacks.cpp:6-11 | at most once in a connection's life, and never without a timeout |
| ServerRuns.FreshIds | src/TcpServer.cpp:116-117 | the next id is one that no connection has had; accepting is always possible, a tick just with a timeout |
| BoundedBlockingQueue.StepKeeps | src/BoundedBlockingQueue.h:56-78 | every atomic step of any thread keeps exclusion, conservation, the bound and the waiting condition |
| BoundedBlockingQueue.PutsAreTaken | src/BoundedBlockingQueue.h:56-78 | over every interleaving the elements returned, in hand and queued are those pushed, in order, and never more than maxSize_ are queued |
| BoundedBlockingQueue.CallsAccounted | src/BoundedBlockingQueue.h:56-78 | over every run each thread has pushed just the elements of its calls of put, in their order, but for the one it is about to push, and each of its calls of take has returned an element, but for the one it is in |
| BoundedBlockingQueue.WaitersHaveReason | src/BoundedBlockingQueue.h:56-78 | while the mutex is free takers wait only on an empty queue and putters only on a full one |
| BoundedBlockingQueue.BothWaitIffNoRoom | src/BoundedBlockingQueue.h:56-78 | both wait sets can be non-empty together if and only if maxSize_ is 0 |
| BoundedBlockingQueue.StuckOnlyByQueue | src/BoundedBlockingQueue.h:56-78 | no lost wakeup: where no thread can move, whoever is in a call waits on an empty or a full queue |
| BoundedBlockingQueue.NoDeadlock | src/BoundedBlockingQueue.h:56-78 | with maxSize_ above 0, a put and a take in progress never leave every thread stuck |
| BoundedBlockingQueue.PutWithRoom | src/BoundedBlockingQueue.h:56-65 | an uninterrupted put with room appends its element, wakes all takers and returns |
| BoundedBlockingQueue.PutWithoutRoom | src/BoundedBlockingQueue.h:56-65 | without room it waits and changes nothing else; after a spurious wakeup it does so again |
| BoundedBlockingQueue.TakeElement | src/BoundedBlockingQueue.h:67-78 | an uninterrupted take returns the first element, wakes all putters and leaves the rest |
| BoundedBlockingQueue.TakeNothing | src/BoundedBlockingQueue.h:67-78 | from the empty queue it waits and changes nothing else; after a spurious wakeup it does so again |
| BlockingQueue.StepKeeps | src/BlockingQueue.h:45-80 | every atomic step keeps exclusion, conservation, the no-lost-wakeup condition and what each waiter knows of the queue |
| BlockingQueue.PutsAreTaken | src/BlockingQueue.h:45-80 | first in, first out, exactly once: the elements returned, in hand and queued are those pushed, with polls timing out at any point, parked or already notified |
| BlockingQueue.CallsAccounted | src/BlockingQueue.h:45-80 | over every run each thread has pushed just the elements of its calls of put, in their order, but for the one it is about to push; each of its calls of take and poll has returned an element or given up, but for the one it is in; and no more calls give up than were polls |
| BlockingQueue.OnlyPollsTimeOut | src/BlockingQueue.h:55-80 | in every run, if a wait times out or a call is about to give up, then that thread's latest call is a poll |
| BlockingQueue.TakesReturnElements | src/BlockingQueue.h:55-65 | a thread that only calls take never gives up: each call that has returned has returned an element |
| BlockingQueue.WaitersWillBeWoken | src/BlockingQueue.h:45-53 | a consumer parked beside a non-empty queue implies a producer between its push and its notify_all, and able to move |
| BlockingQueue.StuckOnlyByQueue | src/BlockingQueue.h:45-80 | where no thread can move, whoever is in a call is parked on an empty queue |
| BlockingQueue.PutAppends | src/BlockingQueue.h:45-53 | an uninterrupted put appends its element, wakes all that wait and returns |
| BlockingQueue.GetTakes | src/BlockingQueue.h:55-80 | an uninterrupted take or poll returns the first element, if there is one, and leaves the rest |
| BlockingQueue.GetWaits | src/BlockingQueue.h:55-80 | from the empty queue it waits and changes nothing else |
| BlockingQueue.WaitsAgain | src/BlockingQueue.h:55-80 | woken for nothing, it looks and waits again |
| BlockingQueue.PollReturnsFalse | src/BlockingQueue.h:71-76 | a poll whose wait has timed out returns false whatever is in the queue, and takes nothing |
| BlockingQueue.TestedAtLook | src/BlockingQueue.h:58-76 | over every run, what a thread is taken to have found put is what had been put when it last looked at the queue; if it has waited since, the queue was empty then |
| BlockingQueue.GaveUpRecorded | src/BlockingQueue.h:71-76 | over every run, each record of a poll that gave up tells how things stood when it returned false |
| BlockingQueue.FalseMeansEmptyIff | src/BlockingQueue.h:71-76 | when a poll is about to return false the queue is empty if and only if all that was put since its last test has been popped; so if nothing was put since |
| BlockingQueue.GaveUpOnEmptyIff | src/BlockingQueue.h:71-76 | the same of every poll that has returned false, at the time it did |
| BlockingQueue.PollMayMissAnElement | src/BlockingQueue.h:71-76 | a run in which poll times out beside an element and returns false |
| BlockingQueue.NotifiedPollMayMissIt | src/BlockingQueue.h:71-76 | a run in which poll has been notified of an element, finds its deadline past and returns false with the element in the queue |

## Left out

- Buffers.Buffer.Move: requires a source with at least one block; moving or swapping when a list is empty leaves a `std::list` end iterator behind that positions in a sequence cannot express. `swap` and `operator=` are left out for the same reason.
- Buffers.Buffer.Append: the bytes are a value, so appending from a pointer into the same buffer is not modelled.
- BufferStreams.BufferInputStream.Next: the window size is not cut down to a 32-bit `int`, and neither is that of the output stream. Where `all` would walk past the list's end or `bufs[0]` is missing, the outcome is `Stray` and nothing more is said.
- BufferRuns.Run: `unwrite` is a call of its run only as part of writing through an output stream, since its assert depends on where the blocks are cut (`Buffers.Buffer.Unwrite`, `BufferStreams.BufferOutputStream.Session`); `unread` does nothing.
- BufferStreams.BufferInputStream.Drain: the reader is one that pulls until the stream ends; a parser that gives up sooner is part of `Codecs.Decode`. `BackUp` and `Skip` of the input stream and any use of a buffer after it has been drained through the stream are not modelled.
- Codecs.Decode: what a failed assert or a parser that gives up early leaves in the buffer is not stated; asserts are taken to be on. Whether a parser gives up depends on its type and the bytes so far, not on how they are cut into windows.
- DataBlocks.DataBlock.constructor: sizes are unbounded, so the doubling of a `size_t` past 2^63 is not modelled; neither are allocation failures.
- Lifecycle.StepKeeps: each event is atomic: the state change at an end of file, the connection callback and the removal from the map are three, with `uv_read_stop` counted to the first, as no read callback can come in between. The unsynchronised read and write of the state by two threads at once is not modelled. A caller off the loop's thread is taken to hold a reference. libuv is taken to accept every request and to run each callback once.
- TcpConnections.WriteContext.constructor: requires a source with at least one block, like `Buffers.Buffer.Move`, which it calls.
- TcpConnections.TcpConnection.Send: one of the four `send` functions stands for all; they differ in the write context only, of which the one for a buffer is modelled.
- TcpServers.TcpServer.NewConnection: the branch that hands a client to another thread's loop registers it there in the same way and is not modelled separately; addresses, error callbacks and failed `uv_tcp_init` are not modelled.
- TcpServers.TcpServer.CheckConnection: an idle callback is always set when there is a timeout; what it does is a separate event.
- TcpServers.TcpServer.ReadData: the bytes received are the matter of `TcpConnections.TcpConnection.ReadCallback`; the two are not combined in one method.
- IdleWheel.FiresOnce: ticks are counted, not timed; that the timer fires every second is libuv's part.
- Codec's type registry and the protobuf serialiser and parser: opaque.
- Non-EOF read errors (only logged), listening and binding errors, and server teardown.
- `debug` (printing).
- Event loop, loop threads and their pool, timers, `ThreadPool`: calls into libuv and thread start-up; what could be proved of the pool repeats the bounded queue.
- `TcpClient`, `Dispatcher`, `SockAddr`, `Timeval`, `Any`, `Singleton`, `ThreadLocal`, `ObjectPool`, logging: thin wrappers that would only add easy members.
