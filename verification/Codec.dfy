/** Length-prefixed frames: two 32-bit sizes, the message's type name, its payload. */
module Codecs {
  import opened Bytes
  import opened Blocks
  import opened Integers
  import opened Options
  import opened Buffers
  import opened BufferIntegers
  import opened BufferStreams

  // ---------- frames ----------

  /** The frame of a message, sizes cut down to 32 bits as the calls do it. */
  function Frame(name: seq<byte>, payload: seq<byte>): seq<byte> {
    Wire32(ToInt32(|name + payload| + 4)) + Wire32(ToInt32(|name|)) + (name + payload)
  }

  predicate Fits(name: seq<byte>, payload: seq<byte>) {
    |name| + |payload| + 4 < 0x8000_0000
  }

  /** What decode makes of the contents before it reads the payload. */
  datatype Header =
    | Incomplete                                          // CODEC_UNABLE
    | Broken                                              // an assert fails
    | Header(name: seq<byte>, len: uint64) // the type name and the payload's length

  function Parse(c: seq<byte>): Header {
    if |c| < 4 then Broken
    else
      var packLen := Peeked32(c[..4]);
      if ToUint64(packLen + 4) > |c| then Incomplete
      else if |c| < 8 then Broken
      else
        var n := ToUint64(Peeked32(c[4..8]));
        if n > |c| - 8 then Broken
        else Header(c[8..8 + n], ToUint64(packLen - n - 4))
  }

  /** The contents behind the header, which the payload begins. */
  function Body(c: seq<byte>): seq<byte> {
    if Parse(c).Header? && 8 + |Parse(c).name| <= |c| then c[8 + |Parse(c).name|..] else []
  }

  lemma ParseFrame(name: seq<byte>, payload: seq<byte>, more: seq<byte>)
    requires Fits(name, payload)
    ensures Parse(Frame(name, payload) + more) == Header(name, |payload|)
    ensures Body(Frame(name, payload) + more) == payload + more
  {
    hide Wire32, Peeked32, Parse;
    var size, nameLen := Wire32(|name| + |payload| + 4), Wire32(|name|);
    WireLength(|name| + |payload| + 4);
    WireLength(|name|);
    PeekedWire32(|name| + |payload| + 4);
    PeekedWire32(|name|);
    FrameParts(size, nameLen, name, payload, more);
    ParseParts(Frame(name, payload) + more, |name| + |payload| + 4, |name|);
  }

  lemma FrameParts(size: seq<byte>, nameLen: seq<byte>, name: seq<byte>, payload: seq<byte>, more: seq<byte>)
    requires |size| == 4 && |nameLen| == 4
    ensures var c := size + nameLen + (name + payload) + more;
            && c[..4] == size && c[4..8] == nameLen
            && c[8..8 + |name|] == name && c[8 + |name|..] == payload + more
  {
  }

  lemma ParseParts(c: seq<byte>, packLen: int32, nameLen: int32)
    requires |c| >= 8 && Peeked32(c[..4]) == packLen && Peeked32(c[4..8]) == nameLen
    requires 0 <= nameLen <= |c| - 8 && nameLen + 4 <= packLen <= |c| - 4
    ensures Parse(c) == Header(c[8..8 + nameLen], packLen - nameLen - 4)
  {
    hide Peeked32;
  }

  lemma WireLength(v: int32)
    ensures |Wire32(v)| == 4
  {
  }

  /** A frame cut short anywhere after its first size is not taken for one. */
  lemma ParsePrefix(name: seq<byte>, payload: seq<byte>, k: nat)
    requires Fits(name, payload) && 4 <= k < |Frame(name, payload)|
    ensures Parse(Frame(name, payload)[..k]) == Incomplete
  {
    hide Wire32, Peeked32;
    var size := Wire32(|name| + |payload| + 4);
    WireLength(|name| + |payload| + 4);
    WireLength(|name|);
    PeekedWire32(|name| + |payload| + 4);
    var c := Frame(name, payload)[..k];
    assert c[..4] == size;
  }

  lemma Truncated(n: nat, k: nat)
    requires 0x8000_0000 <= n < SIZE_MAX / 2 && k + 4 <= n
    ensures ToUint64(ToInt32(n) - k - 4) != n - k - 4
  {
    var v := ToInt32(n);
    assert v < n && n - v < SIZE_MAX;
  }

  lemma ParseSize(c: seq<byte>, packLen: int32)
    requires |c| >= 4 && c[..4] == Wire32(packLen) && Parse(c).Header?
    ensures Parse(c).len == ToUint64(packLen - |Parse(c).name| - 4)
  {
    hide Wire32, Peeked32, ToUint64;
    PeekedWire32(packLen);
  }

  /** The sizes a message can have for its frame to be read back are those that fit 32 bits. */
  lemma ParsesIffFits(name: seq<byte>, payload: seq<byte>)
    requires |name| + |payload| + 4 < SIZE_MAX / 2
    ensures Fits(name, payload)
            <==> Parse(Frame(name, payload)) == Header(name, |payload|)
  {
    hide Wire32, Peeked32, Parse, ToUint64, ToInt32;
    var c := Frame(name, payload);
    if Fits(name, payload) {
      ParseFrame(name, payload, []);
      assert c + [] == c;
    } else {
      var n := |name| + |payload| + 4;
      WireLength(ToInt32(n));
      assert c[..4] == Wire32(ToInt32(n));
      Truncated(n, |name|);
      if Parse(c).Header? {
        ParseSize(c, ToInt32(n));
      }
    }
  }

  // ---------- encode ----------

  /**
    Appends the frame, or nothing when the message does not serialise (CODEC_ERR).  What was
    there before still ends where a block does just when its last block was sealed.
   */
  method Encode(buffer: Buffer, name: seq<byte>, payload: Option<seq<byte>>) returns (ok: bool)
    requires buffer.Valid()
    modifies buffer, buffer.Repr
    ensures buffer.Valid() && fresh(buffer.Repr - old(buffer.Repr))
    ensures ok == payload.Some?
    ensures buffer.Contents() ==
            if ok then old(buffer.Contents()) + Frame(name, payload.value) else old(buffer.Contents())
    ensures KeepsEnds(old(buffer.views), buffer.views) && (ok ==> buffer.list != [])
    ensures ok && payload.value != [] ==> buffer.views[buffer.last].Readable() != []
    ensures ok && old(buffer.list != []) ==>
              (EndsAtBlock(buffer.views, |old(buffer.Contents())|)
               <==> old(Sealed(buffer.views[buffer.last], 4)))
  {
    hide Buffer.Valid, Flat, Wire32, KeepsEnds, EndsAtBlock, Sealed, Block.Readable;
    ghost var vs := buffer.views;
    if payload.None? {
      EndsKept(vs);
      return false;
    }
    var result := name + payload.value;
    AppendInt32(buffer, ToInt32(|result| + 4));
    ghost var us := buffer.views;
    AppendInt32(buffer, ToInt32(|name|));
    ghost var ws := buffer.views;
    buffer.Appendable();
    buffer.Append(result);
    ghost var a, b := Wire32(ToInt32(|result| + 4)), Wire32(ToInt32(|name|));
    assert old(buffer.Contents()) + a + b + result == old(buffer.Contents()) + (a + b + result);
    WireLength(ToInt32(|result| + 4));
    WireLength(ToInt32(|name|));
    KeptTwice(us, ws, buffer.views);
    KeptTwice(vs, us, buffer.views);
    ok := true;
  }

  // ---------- decode ----------

  /** CODEC_OK with the message, CODEC_UNABLE, the two kinds of CODEC_ERR, or a failed assert. */
  datatype Decoded =
    | Ok(name: seq<byte>, payload: seq<byte>)
    | Unable
    | Unknown(name: seq<byte>)
    | Rejected(name: seq<byte>)
    | Asserted

  method DropSize(buffer: Buffer)
    requires buffer.Valid() && buffer.readable >= 4
    modifies buffer, buffer.Repr
    ensures buffer.Valid() && buffer.Repr == old(buffer.Repr)
    ensures 4 <= |old(buffer.Contents())| && buffer.Contents() == old(buffer.Contents())[4..]
    ensures SameEnds(old(buffer.views), buffer.views, 4)
  {
    buffer.Counted();
    hide *;
    buffer.Discard(4);
  }

  /** Decode up to the payload: reads the sizes and the name off the front. */
  method DecodeHeader(buffer: Buffer) returns (h: Header)
    requires buffer.Valid()
    modifies buffer, buffer.Repr
    ensures h == Parse(old(buffer.Contents()))
    ensures h.Incomplete? ==> buffer.Valid() && buffer.Contents() == old(buffer.Contents())
    ensures h.Header? ==>
              && buffer.Valid() && buffer.Trimmed() && buffer.Contents() == Body(old(buffer.Contents()))
              && SameEnds(old(buffer.views), buffer.views, 8 + |h.name|)
    ensures buffer.Repr == old(buffer.Repr)
  {
    hide *;
    buffer.Counted();
    ghost var c, vs := buffer.Contents(), buffer.views;
    if buffer.readable < 4 {
      ParsedShort(c);
      return Broken;
    }
    var packLen := PeekInt32(buffer);
    ParsedSize(c, packLen);
    if ToUint64(packLen + 4) > buffer.readable {
      return Incomplete;
    }
    DropSize(buffer);
    ghost var us := buffer.views;
    buffer.Counted();
    if buffer.readable < 4 {
      return Broken;
    }
    var nameLen := ReadInt32(buffer);
    SameEndsTwice(vs, us, buffer.views, 4, 4);
    us := buffer.views;
    buffer.Counted();
    ParsedName(c, packLen, nameLen, buffer.Contents());
    var n := ToUint64(nameLen);
    if n > buffer.readable {
      return Broken;
    }
    var name := buffer.RetrieveAsString(n);
    SameEndsTwice(vs, us, buffer.views, 8, n);
    h := Header(name, ToUint64(packLen - n - 4));
  }

  lemma ParsedShort(c: seq<byte>)
    requires |c| < 4
    ensures Parse(c) == Broken
  {
  }

  lemma ParsedSize(c: seq<byte>, packLen: int32)
    requires |c| >= 4 && Wire32(packLen) == c[..4]
    ensures ToUint64(packLen + 4) > |c| ==> Parse(c) == Incomplete
    ensures ToUint64(packLen + 4) <= |c| < 8 ==> Parse(c) == Broken
    ensures |c[4..]| == |c| - 4
  {
    hide Wire32, Peeked32, ToUint64;
    PeekedWire32(packLen);
  }

  lemma ParsedName(c: seq<byte>, packLen: int32, nameLen: int32, rest: seq<byte>)
    requires |c| >= 8 && Wire32(packLen) == c[..4] && c[4..] == Wire32(nameLen) + rest
    requires ToUint64(packLen + 4) <= |c|
    ensures var n := ToUint64(nameLen);
            if n > |rest| then Parse(c) == Broken
            else Parse(c) == Header(rest[..n], ToUint64(packLen - n - 4)) && Body(c) == rest[n..] && |rest[..n]| == n
  {
    hide *;
    HeaderCut(c, nameLen, rest);
    PeekedWire32(packLen);
    PeekedWire32(nameLen);
    ParseUnfolded(c, packLen, nameLen);
    if ToUint64(nameLen) <= |rest| {
      NameCut(c, ToUint64(nameLen));
    }
  }

  lemma ParseUnfolded(c: seq<byte>, packLen: int32, nameLen: int32)
    requires |c| >= 8 && Peeked32(c[..4]) == packLen && Peeked32(c[4..8]) == nameLen
    requires ToUint64(packLen + 4) <= |c|
    ensures var n := ToUint64(nameLen);
            if n > |c| - 8 then Parse(c) == Broken
            else Parse(c) == Header(c[8..8 + n], ToUint64(packLen - n - 4)) && Body(c) == c[8 + n..]
  {
    hide Peeked32, ToUint64;
  }

  lemma NameCut(c: seq<byte>, n: nat)
    requires 8 + n <= |c|
    ensures c[8..8 + n] == c[8..][..n] && c[8 + n..] == c[8..][n..] && |c[8..][..n]| == n
  {
  }

  /** A payload of `len` bytes behind `at` others is empty or ends where a block does. */
  ghost predicate Separate(bs: seq<Block>, at: nat, len: nat) {
    len == 0 || EndsAtBlock(bs, at + len)
  }

  /** The bytes in front of `body` that a parser of `len` of them may be handed. */
  ghost function Handed(bs: seq<Block>, at: nat, len: nat, body: seq<byte>): seq<byte> {
    if Separate(bs, at, len) && len <= |body| then body[..len] else body
  }

  /** The parser takes in all these bytes without giving up after some of them. */
  predicate TakesIn(name: seq<byte>, bytes: seq<byte>, stops: (seq<byte>, seq<byte>) -> bool) {
    forall n :: 0 < n <= |bytes| ==> !stops(name, bytes[..n])
  }

  /**
    Decodes one frame.  `known` are the registered type names, `parses` says which payloads a
    type accepts, and `stops` after which bytes its parser gives up without reading on.  A
    complete frame of a known type is read only if its payload is empty or ends where the
    readable bytes of a block of the buffer end; otherwise the parser gives up in the payload
    or what is behind it, or an assert fails.
   */
  method Decode(buffer: Buffer, known: set<seq<byte>>, parses: (seq<byte>, seq<byte>) -> bool,
      stops: (seq<byte>, seq<byte>) -> bool) returns (r: Decoded)
    requires buffer.Valid() && buffer.readable < SIZE_MAX
    modifies buffer, buffer.Repr
    ensures Parse(old(buffer.Contents())).Broken? ==> r == Asserted
    ensures Parse(old(buffer.Contents())).Incomplete? ==>
              r == Unable && buffer.Valid() && buffer.Contents() == old(buffer.Contents())
    ensures Parse(old(buffer.Contents())).Header? ==>
              var h, body := Parse(old(buffer.Contents())), Body(old(buffer.Contents()));
              if h.name !in known then
                r == Unknown(h.name) && buffer.Valid() && buffer.Contents() == body
              else if !TakesIn(h.name, Handed(old(buffer.views), 8 + |h.name|, h.len, body), stops) then
                r == Rejected(h.name)
              else if !Separate(old(buffer.views), 8 + |h.name|, h.len) then
                r == Asserted
              else
                && h.len <= |body| && buffer.readable == |body| - h.len
                && r == if parses(h.name, body[..h.len]) then Ok(h.name, body[..h.len]) else Rejected(h.name)
  {
    hide *;
    buffer.Counted();
    var h := DecodeHeader(buffer);
    match h
    case Broken => r := Asserted;
    case Incomplete => r := Unable;
    case Header(name, len) =>
      if name !in known {
        return Unknown(name);
      }
      BodyFits(old(buffer.Contents()));
      buffer.Counted();
      SameOutcome(old(buffer.views), buffer.views, 8 + |name|, len, buffer.Contents());
      var stream := new BufferInputStream(buffer, len);
      var p := ReadPayload(stream, name, stops);
      r := match p
        case AssertFailed => Asserted
        case GivenUp => Rejected(name)
        case Whole(bytes) => if parses(name, bytes) then Ok(name, bytes) else Rejected(name);
  }

  lemma BodyFits(c: seq<byte>)
    ensures |Body(c)| <= |c|
  {
    hide Parse;
  }

  /** What becomes of a payload is the same before and after the bytes before it are dropped. */
  lemma SameOutcome(vs: seq<Block>, ws: seq<Block>, at: nat, len: nat, body: seq<byte>)
    requires SameEnds(vs, ws, at)
    ensures Separate(vs, at, len) <==> Separate(ws, 0, len)
    ensures Handed(vs, at, len, body) == Handed(ws, 0, len, body)
  {
    hide EndsAtBlock;
    if len > 0 {
      assert at + len > at && at + len - at == 0 + len;
    }
  }

  // ---------- the payload ----------

  /** A parser has the whole payload, or gives up before its stream ends, or an assert fails. */
  datatype Payload = Whole(bytes: seq<byte>) | GivenUp | AssertFailed

  /**
    A parser of `len` bytes has been handed the first `k` blocks, `got`, and took them in.
    The stream counts `bytes` and the buffer `readable` that are still to come.
   */
  ghost predicate Reached(vs: seq<Block>, k: nat, len: uint64, got: seq<byte>, bytes: nat, readable: nat,
      name: seq<byte>, stops: (seq<byte>, seq<byte>) -> bool) {
    && k <= |vs| && got == Flat(vs[..k]) && |got| + readable == |Flat(vs)| < SIZE_MAX
    && bytes == len - |got| + (if |got| <= len then 0 else SIZE_MAX)
    && (EndsAtBlock(vs, len) ==> |got| <= len)
    && TakesIn(name, got, stops)
  }

  lemma ReachedFirst(vs: seq<Block>, len: uint64, name: seq<byte>, stops: (seq<byte>, seq<byte>) -> bool)
    requires |Flat(vs)| < SIZE_MAX
    ensures Reached(vs, 0, len, [], len, |Flat(vs)|, name, stops)
  {
    hide EndsAtBlock;
  }

  /** There is no end of a block in the next one before its own. */
  lemma NextEnd(vs: seq<Block>, k: nat)
    requires k < |vs|
    ensures var m := |Flat(vs[..k])| + |vs[k].Readable()|;
            && Flat(vs[..k + 1]) == Flat(vs[..k]) + vs[k].Readable()
            && m <= |Flat(vs)| && Flat(vs)[..m] == Flat(vs[..k + 1])
            && forall n: nat :: |Flat(vs[..k])| < n < m ==> !EndsAtBlock(vs, n)
  {
    hide *;
    FlatTakeOne(vs, k);
    FlatFirst(vs, k + 1);
    forall n: nat | |Flat(vs[..k])| < n < |Flat(vs[..k])| + |vs[k].Readable()| ensures !EndsAtBlock(vs, n) {
      NoEndInside(vs, k, n);
    }
  }

  lemma ReachedNext(vs: seq<Block>, k: nat, len: uint64, got: seq<byte>, bytes: nat, readable: nat,
      name: seq<byte>, stops: (seq<byte>, seq<byte>) -> bool)
    requires Reached(vs, k, len, got, bytes, readable, name, stops)
    requires k < |vs| && vs[k].Readable() != [] && bytes > 0
    ensures var now, m := got + vs[k].Readable(), |vs[k].Readable()|;
            if TakesIn(name, now, stops) then
              Reached(vs, k + 1, len, now, ToUint64(bytes - m), ToUint64(readable - m), name, stops)
            else
              !TakesIn(name, Handed(vs, 0, len, Flat(vs)), stops)
  {
    hide Flat, EndsAtBlock, Block.Readable, ToUint64;
    NextEnd(vs, k);
    var m := |vs[k].Readable()|;
    Wrapped(bytes, m);
    Wrapped(readable, m);
    assert EndsAtBlock(vs, len) ==> |got| + m <= len;
    EndsAtNothing(vs);
    TakesInLess(name, got + vs[k].Readable(), Handed(vs, 0, len, Flat(vs)), stops);
  }

  lemma FlatFirst(vs: seq<Block>, k: nat)
    requires k <= |vs|
    ensures |Flat(vs[..k])| <= |Flat(vs)| && Flat(vs)[..|Flat(vs[..k])|] == Flat(vs[..k])
  {
    hide Flat;
    assert vs == vs[..k] + vs[k..];
    FlatConcat(vs[..k], vs[k..]);
  }

  /** The stream ends, or an assert in it fails, before the parser has given up. */
  lemma ReachedLast(vs: seq<Block>, k: nat, len: uint64, got: seq<byte>, bytes: nat, readable: nat,
      name: seq<byte>, stops: (seq<byte>, seq<byte>) -> bool)
    requires Reached(vs, k, len, got, bytes, readable, name, stops)
    requires bytes == 0 || readable == 0
    ensures Separate(vs, 0, len) <==> bytes == 0
    ensures TakesIn(name, Handed(vs, 0, len, Flat(vs)), stops)
    ensures bytes == 0 ==> len <= |Flat(vs)| && got == Flat(vs)[..len] && readable == |Flat(vs)| - len
  {
    hide Flat, EndsAtBlock, TakesIn;
    EndsAfter(vs, k);
    EndsAtNothing(vs);
    FlatFirst(vs, k);
    if readable == 0 && |got| < len {
      NoEndBeyond(vs, len);
    }
    assert 0 + len == len;
    assert readable == 0 ==> got == Flat(vs);
  }

  /** A buffer as discard leaves it: no drained block comes first. */
  ghost predicate Ordered(vs: seq<Block>, last: nat) {
    Settled(vs, last) && (last > 0 && vs != [] ==> vs[0].Readable() != [])
  }

  lemma AllOfIt(buffer: Buffer)
    requires buffer.Valid() && buffer.Trimmed()
    ensures Ordered(buffer.views, buffer.last) && buffer.first == 0
    ensures buffer.Contents() == Flat(buffer.views) && buffer.readable == |Flat(buffer.views)|
  {
    hide Flat, Layout;
  }

  /** The block the stream hands out next is the one after those it has handed out. */
  lemma NextInTurn(vs: seq<Block>, last: nat, k: nat, len: uint64, got: seq<byte>, bytes: nat, readable: nat,
      name: seq<byte>, stops: (seq<byte>, seq<byte>) -> bool)
    requires Ordered(vs, last) && Reached(vs, k, len, got, bytes, readable, name, stops)
    ensures k <= |vs| && TakesIn(name, got, stops)
    ensures readable > 0 ==>
              k < |vs| && DataAt(vs, k) == k && vs[k].Readable() != [] && !Spent(vs, last, k)
  {
    hide Flat, Layout, EndsAtBlock, Block.Readable, DataAt;
    if readable > 0 {
      assert vs == vs[..k] + vs[k..];
      FlatConcat(vs[..k], vs[k..]);
      if k == 0 && last > 0 {
        assert vs[0..] == vs;
        if vs == [] {
          FlatEmpty(vs);
        }
      }
      DataIsNext(vs, last, k);
    }
  }

  lemma TakesInLess(name: seq<byte>, bytes: seq<byte>, more: seq<byte>, stops: (seq<byte>, seq<byte>) -> bool)
    ensures bytes <= more && TakesIn(name, more, stops) ==> TakesIn(name, bytes, stops)
  {
    if bytes <= more && TakesIn(name, more, stops) {
      forall n | 0 < n <= |bytes| ensures !stops(name, bytes[..n]) {
        assert bytes[..n] == more[..n];
      }
    }
  }

  /** Behind `got`, the parser reads the bytes of a window one by one. */
  method TakeIn(name: seq<byte>, got: seq<byte>, head: seq<byte>, stops: (seq<byte>, seq<byte>) -> bool)
    returns (more: bool)
    requires TakesIn(name, got, stops)
    ensures more <==> TakesIn(name, got + head, stops)
  {
    var n := 0;
    assert got + head[..0] == got;
    while n < |head|
      invariant n <= |head|
      invariant TakesIn(name, got + head[..n], stops)
    {
      var read := got + head[..n + 1];
      assert read[..|read| - 1] == got + head[..n];
      assert read == (got + head)[..|read|];
      if stops(name, read) {
        return false;
      }
      assert read[..|read|] == read;
      forall i | 0 < i < |read| ensures !stops(name, read[..i]) {
        assert read[..i] == (got + head[..n])[..i];
      }
      n := n + 1;
    }
    assert head[..n] == head;
    more := true;
  }

  /** A parser pulls from a stream on a buffer as discard leaves it: no drained block comes first. */
  method ReadPayload(stream: BufferInputStream, name: seq<byte>, stops: (seq<byte>, seq<byte>) -> bool)
    returns (p: Payload)
    requires stream.buffer.Valid() && stream.buffer.Trimmed() && stream.buffer.readable < SIZE_MAX
    modifies stream`bytes, stream.buffer`first, stream.buffer`readable
    ensures var vs, c, len := old(stream.buffer.views), old(stream.buffer.Contents()), old(stream.bytes);
            if !TakesIn(name, Handed(vs, 0, len, c), stops) then p == GivenUp
            else if !Separate(vs, 0, len) then p == AssertFailed
            else len <= |c| && p == Whole(c[..len]) && stream.buffer.readable == |c| - len
  {
    hide *;
    ghost var vs, last, len := stream.buffer.views, stream.buffer.last, stream.bytes;
    WholeStream(stream);
    AllOfIt(stream.buffer);
    ReachedFirst(vs, len, name, stops);
    var got := [];
    while true
      invariant stream.Ready() && stream.buffer.views == vs && stream.buffer.last == last
      invariant Reached(vs, stream.buffer.first, len, got, stream.bytes, stream.buffer.readable, name, stops)
      decreases |vs| - stream.buffer.first
    {
      ghost var k, bytes, readable := stream.buffer.first, stream.bytes, stream.buffer.readable;
      NextInTurn(vs, last, k, len, got, bytes, readable, name, stops);
      var r := stream.Next();
      if !r.Got? {
        ReachedLast(vs, k, len, got, bytes, readable, name, stops);
        return if r.End? then Whole(got) else AssertFailed;
      }
      var head := WindowBytes(r.window);
      ReachedNext(vs, k, len, got, bytes, readable, name, stops);
      var more := TakeIn(name, got, head, stops);
      if !more {
        return GivenUp;
      }
      got := got + head;
    }
  }

  lemma HeaderCut(c: seq<byte>, nameLen: int32, rest: seq<byte>)
    requires |c| >= 8 && c[4..] == Wire32(nameLen) + rest
    ensures c[4..8] == Wire32(nameLen) && rest == c[8..]
  {
    WireLength(nameLen);
    assert c[4..8] == c[4..][..4] && c[8..] == c[4..][4..];
  }

  lemma EndsKept(vs: seq<Block>)
    ensures KeepsEnds(vs, vs)
  {
  }

  lemma KeptTwice(vs: seq<Block>, us: seq<Block>, ws: seq<Block>)
    requires KeepsEnds(vs, us) && KeepsEnds(us, ws) && |Flat(vs)| <= |Flat(us)|
    ensures KeepsEnds(vs, ws)
    ensures |Flat(vs)| < |Flat(us)| ==>
              (EndsAtBlock(us, |Flat(vs)|) <==> EndsAtBlock(ws, |Flat(vs)|))
  {
    hide EndsAtBlock;
  }

  // ---------- end to end ----------

  /**
    A message encoded into a buffer without contents, whatever its blocks, decodes to itself if
    its parser takes it.
   */
  method EncodeThenDecode(buffer: Buffer, name: seq<byte>, payload: seq<byte>, known: set<seq<byte>>,
      parses: (seq<byte>, seq<byte>) -> bool, stops: (seq<byte>, seq<byte>) -> bool) returns (r: Decoded)
    requires buffer.Valid() && buffer.Contents() == []
    requires Fits(name, payload)
    modifies buffer, buffer.Repr
    ensures r == if name !in known then Unknown(name)
                 else if parses(name, payload) && TakesIn(name, payload, stops) then Ok(name, payload)
                 else Rejected(name)
    ensures r.Ok? ==> buffer.readable == 0
  {
    hide Buffer.Valid, Frame, Parse, Body, Flat, EndsAtBlock, TakesIn;
    var ok := Encode(buffer, name, Some(payload));
    ParseFrame(name, payload, []);
    FrameLength(name, payload);
    assert payload + [] == payload;
    assert [] + Frame(name, payload) == Frame(name, payload) + [] == Frame(name, payload);
    assert payload[..|payload|] == payload;
    EndsAtTheEnd(buffer.views);
    buffer.Counted();
    r := Decode(buffer, known, parses, stops);
  }

  lemma FrameLength(name: seq<byte>, payload: seq<byte>)
    ensures |Frame(name, payload)| == 8 + |name| + |payload|
  {
    hide Wire32;
    WireLength(ToInt32(|name + payload| + 4));
    WireLength(ToInt32(|name|));
  }

  lemma EndsAtTheEnd(bs: seq<Block>)
    ensures EndsAtBlock(bs, |Flat(bs)|)
  {
    assert bs[..|bs|] == bs;
  }

  /**
    A frame behind which another is encoded.  It is read just when its payload is empty or its
    last block was written to its end and at most three of that block's bytes were read away;
    otherwise the other frame's bytes go into the same block and its parser gives up in them, or
    an assert fails.
   */
  method EncodeBehindThenDecode(buffer: Buffer, name: seq<byte>, payload: seq<byte>,
      next: seq<byte>, more: seq<byte>, known: set<seq<byte>>,
      parses: (seq<byte>, seq<byte>) -> bool, stops: (seq<byte>, seq<byte>) -> bool) returns (r: Decoded)
    requires buffer.Valid() && buffer.Contents() == Frame(name, payload)
    requires Fits(name, payload) && name in known
    requires parses(name, payload) && TakesIn(name, payload, stops)
    requires |Frame(name, payload)| + |Frame(next, more)| < SIZE_MAX
    modifies buffer, buffer.Repr
    ensures old(buffer.list) != []
    ensures r == if payload == [] || old(Sealed(buffer.views[buffer.last], 4)) then Ok(name, payload)
                 else if TakesIn(name, payload + Frame(next, more), stops) then Asserted
                 else Rejected(name)
  {
    hide Buffer.Valid, Frame, Parse, Body, EndsAtBlock, Sealed, Flat, TakesIn;
    FrameLength(name, payload);
    NotEmpty(buffer);
    var ok := Encode(buffer, next, Some(more));
    ParseFrame(name, payload, Frame(next, more));
    assert (payload + Frame(next, more))[..|payload|] == payload;
    buffer.Counted();
    r := Decode(buffer, known, parses, stops);
  }

  lemma NotEmpty(buffer: Buffer)
    requires buffer.Valid() && buffer.Contents() != []
    ensures buffer.list != [] && buffer.last < |buffer.list| == |buffer.views|
  {
  }

  /** A short frame fills no block. */
  lemma ShortNotSealed(buffer: Buffer)
    requires buffer.Valid() && buffer.list != [] && |buffer.Contents()| <= MIN_BUFFER_SIZE - 4
    requires buffer.views[buffer.last].Readable() != []
    ensures !Sealed(buffer.views[buffer.last], 4)
  {
    var b := buffer.views[buffer.last];
    FlatUpTo(buffer.views, buffer.last);
    OkAt(buffer.views, buffer.last, buffer.last);
    CapacityAtLeastMin(b.Capacity());
  }

  /**
    Two frames encoded one after the other, the first of at most 1020 bytes and with a payload:
    it cannot be read.
   */
  method EncodeTwiceThenDecode(buffer: Buffer, name: seq<byte>, payload: seq<byte>,
      next: seq<byte>, more: seq<byte>, known: set<seq<byte>>,
      parses: (seq<byte>, seq<byte>) -> bool, stops: (seq<byte>, seq<byte>) -> bool) returns (r: Decoded)
    requires buffer.Valid() && buffer.Contents() == []
    requires payload != [] && name in known
    requires parses(name, payload) && TakesIn(name, payload, stops)
    requires |Frame(name, payload)| <= 1020
    requires |Frame(name, payload)| + |Frame(next, more)| < SIZE_MAX
    modifies buffer, buffer.Repr
    ensures r == if TakesIn(name, payload + Frame(next, more), stops) then Asserted else Rejected(name)
  {
    hide Buffer.Valid, Frame, EndsAtBlock, Sealed, Flat, Buffer.Contents, Block.Readable, TakesIn;
    FrameLength(name, payload);
    var ok := Encode(buffer, name, Some(payload));
    assert [] + Frame(name, payload) == Frame(name, payload);
    ShortNotSealed(buffer);
    r := EncodeBehindThenDecode(buffer, name, payload, next, more, known, parses, stops);
  }
}
