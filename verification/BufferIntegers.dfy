/** Integers and C strings carried in a buffer. */
module BufferIntegers {
  import opened Bytes
  import opened Blocks
  import opened Integers
  import opened Buffers

  // ---------- writing: convert, then copy the value's memory ----------

  method AppendInt8(buffer: Buffer, val: int8)
    requires buffer.Valid()
    modifies buffer, buffer.Repr
    ensures buffer.Valid() && fresh(buffer.Repr - old(buffer.Repr))
    ensures buffer.Contents() == old(buffer.Contents()) + Wire8(val)
  {
    hide Buffer.Contents, Layout, KeepsEnds, EndsAtBlock, Sealed, Appended;
    buffer.Append(LittleEndian(1, val % 0x100));
  }

  method AppendInt16(buffer: Buffer, val: int16)
    requires buffer.Valid()
    modifies buffer, buffer.Repr
    ensures buffer.Valid() && fresh(buffer.Repr - old(buffer.Repr))
    ensures buffer.Contents() == old(buffer.Contents()) + Wire16(val)
  {
    hide BigEndian, LittleEndian, ByteSwap, Pow256, Load, ToInt16, ToUint16, ToInt32, ToUint32, ToInt64, ToUint64;
    var nval := ToInt16(Htons(ToUint16(val)));
    HtonImages(val, 0);
    buffer.Append(LittleEndian(2, ToUint16(nval)));
  }

  method AppendInt32(buffer: Buffer, val: int32)
    requires buffer.Valid()
    modifies buffer, buffer.Repr
    ensures buffer.Valid() && fresh(buffer.Repr - old(buffer.Repr))
    ensures buffer.Contents() == old(buffer.Contents()) + Wire32(val)
    ensures KeepsEnds(old(buffer.views), buffer.views) && buffer.list != []
    ensures buffer.last < |buffer.views|
    ensures old(buffer.list != []) ==>
              (EndsAtBlock(buffer.views, |old(buffer.Contents())|)
               <==> old(Sealed(buffer.views[buffer.last], 4)))
    ensures buffer.views[buffer.last].Readable() != []
  {
    hide BigEndian, LittleEndian, ByteSwap, Pow256, Load, ToInt16, ToUint16, ToInt32, ToUint32, ToInt64, ToUint64;
    var nval := ToInt32(Htonl(ToUint32(val)));
    HtonImages(0, val);
    buffer.Append(LittleEndian(4, ToUint32(nval)));
  }

  method AppendInt64(buffer: Buffer, val: int64)
    requires buffer.Valid()
    modifies buffer, buffer.Repr
    ensures buffer.Valid() && fresh(buffer.Repr - old(buffer.Repr))
    ensures buffer.Contents() == old(buffer.Contents()) + Wire64(val)
  {
    hide BigEndian, LittleEndian, ByteSwap, Pow256, Load, ToInt16, ToUint16, ToInt32, ToUint32, ToInt64, ToUint64;
    var nval := Htonll(val);
    HtonllImage(val);
    buffer.Append(LittleEndian(8, ToUint64(nval)));
  }

  // ---------- reading ----------

  method PeekInt8(buffer: Buffer) returns (val: int8)
    requires buffer.Valid() && buffer.readable >= 1
    ensures Wire8(val) == buffer.Contents()[..1]
  {
    var str := buffer.ToString(1);
    val := ToInt8(str[0]);
  }

  method PeekInt16(buffer: Buffer) returns (val: int16)
    requires buffer.Valid() && buffer.readable >= 2
    ensures Wire16(val) == buffer.Contents()[..2]
  {
    hide BigEndian, LittleEndian, ByteSwap, Pow256, Load, ToInt16, ToUint16, ToInt32, ToUint32, ToInt64, ToUint64;
    var str := buffer.ToString(2);
    LoadBound(str);
    Pow256Values();
    val := ToInt16(Ntohs(Load(str)));
    WirePeeked16(str);
  }

  method PeekInt32(buffer: Buffer) returns (val: int32)
    requires buffer.Valid() && buffer.readable >= 4
    ensures Wire32(val) == buffer.Contents()[..4]
  {
    hide BigEndian, LittleEndian, ByteSwap, Pow256, Load, ToInt16, ToUint16, ToInt32, ToUint32, ToInt64, ToUint64;
    var str := buffer.ToString(4);
    LoadBound(str);
    Pow256Values();
    val := ToInt32(Ntohl(Load(str)));
    WirePeeked32(str);
  }

  method PeekInt64(buffer: Buffer) returns (val: int64)
    requires buffer.Valid() && buffer.readable >= 8
    ensures Wire64(val) == buffer.Contents()[..8]
  {
    hide BigEndian, LittleEndian, ByteSwap, Pow256, Load, ToInt16, ToUint16, ToInt32, ToUint32, ToInt64, ToUint64;
    var str := buffer.ToString(8);
    val := Ntohll(ToInt64(Load(str)));
    WirePeeked64(str);
  }

  method ReadInt8(buffer: Buffer) returns (val: int8)
    requires buffer.Valid() && buffer.readable >= 1
    modifies buffer, buffer.Repr
    ensures buffer.Valid() && buffer.Repr == old(buffer.Repr) && buffer.Trimmed()
    ensures old(buffer.Contents()) == Wire8(val) + buffer.Contents()
    ensures SameEnds(old(buffer.views), buffer.views, 1)
  {
    val := PeekInt8(buffer);
    buffer.Discard(1);
  }

  method ReadInt16(buffer: Buffer) returns (val: int16)
    requires buffer.Valid() && buffer.readable >= 2
    modifies buffer, buffer.Repr
    ensures buffer.Valid() && buffer.Repr == old(buffer.Repr) && buffer.Trimmed()
    ensures old(buffer.Contents()) == Wire16(val) + buffer.Contents()
    ensures SameEnds(old(buffer.views), buffer.views, 2)
  {
    val := PeekInt16(buffer);
    buffer.Discard(2);
  }

  method ReadInt32(buffer: Buffer) returns (val: int32)
    requires buffer.Valid() && buffer.readable >= 4
    modifies buffer, buffer.Repr
    ensures buffer.Valid() && buffer.Repr == old(buffer.Repr) && buffer.Trimmed()
    ensures old(buffer.Contents()) == Wire32(val) + buffer.Contents()
    ensures SameEnds(old(buffer.views), buffer.views, 4)
  {
    val := PeekInt32(buffer);
    buffer.Discard(4);
  }

  method ReadInt64(buffer: Buffer) returns (val: int64)
    requires buffer.Valid() && buffer.readable >= 8
    modifies buffer, buffer.Repr
    ensures buffer.Valid() && buffer.Repr == old(buffer.Repr) && buffer.Trimmed()
    ensures old(buffer.Contents()) == Wire64(val) + buffer.Contents()
    ensures SameEnds(old(buffer.views), buffer.views, 8)
  {
    val := PeekInt64(buffer);
    buffer.Discard(8);
  }

  // ---------- C strings ----------

  const CHUNK: nat := 4096

  /** The bytes before the first zero, or all of them if there is none. */
  function CString(s: seq<byte>): (r: seq<byte>)
    ensures |r| <= |s| && r == s[..|r|] && 0 !in r
    ensures |r| < |s| ==> s[|r|] == 0
  {
    if s == [] || s[0] == 0 then [] else [s[0]] + CString(s[1..])
  }

  lemma {:induction false} CStringIs(s: seq<byte>, n: nat)
    requires n < |s| && s[n] == 0 && forall i :: 0 <= i < n ==> s[i] != 0
    ensures CString(s) == s[..n]
  {
    if n > 0 {
      CStringIs(s[1..], n - 1);
    }
  }

  /** A chunk that holds the text from `str` on, cut off by a zero after `k` bytes. */
  lemma ChunkText(text: seq<byte>, str: seq<byte>, tmp: seq<byte>, k: nat)
    requires |str| + k <= |text| && k < |tmp| && tmp[k] == 0 && 0 !in text
    requires str + tmp[..k] == text[..|str| + k]
    ensures str + CString(tmp) == text[..|str| + k]
  {
    assert forall i :: 0 <= i < k ==> tmp[i] == (str + tmp[..k])[|str| + i] == text[|str| + i];
    CStringIs(tmp, k);
  }

  /** One more byte of `all`, whose text ends at its first zero. */
  lemma NextByte(all: seq<byte>, text: seq<byte>, p: nat, c: byte, rest: seq<byte>)
    requires text == CString(all) && p <= |text| < |all|
    requires all[p..] == [c] + rest
    ensures rest == all[p + 1..]
    ensures c == 0 <==> p == |text|
    ensures c != 0 ==> text[..p] + [c] == text[..p + 1]
  {
    assert c == all[p..][0] && rest == all[p..][1..];
    assert p < |text| ==> text[p] in text;
  }

  /** The chunk, with what came before it, after one more byte `c`. */
  lemma ChunkGrows(str: seq<byte>, tmp: seq<byte>, k: nat, c: byte, text: seq<byte>)
    requires k < |tmp| && str + tmp[..k] == text
    ensures str + tmp[k := c][..k] == text
    ensures str + tmp[k := c][..k + 1] == text + [c]
  {
    assert tmp[k := c][..k + 1] == tmp[..k] + [c];
    Assoc(str, tmp[..k], [c]);
  }

  /** Nothing read yet of contents in which there is a zero. */
  lemma TextStart(all: seq<byte>, chunk: seq<byte>)
    requires 0 in all
    ensures |CString(all)| < |all| && all[0..] == all && [] + chunk[..0] == CString(all)[..0]
    ensures CHUNK == 4096
  {
    var text := CString(all);
    assert text == all[..|text|];
    assert |text| == |all| ==> text == all;
  }

  /** The chunk, closed by a zero after byte `c`, holds the text from `str` on. */
  lemma ChunkCloses(text: seq<byte>, str: seq<byte>, chunk: seq<byte>, k: nat, c: byte)
    requires k + 1 < |chunk| && chunk[k] == c && 0 !in text
    requires |str| + k <= |text| && (c == 0 <==> |str| + k == |text|)
    requires str + chunk[..k] == text[..|str| + k]
    requires c != 0 ==> str + chunk[..k + 1] == text[..|str| + k + 1]
    ensures var n := |str| + k + if c == 0 then 0 else 1;
            && n <= |text| && str + CString(chunk[k + 1 := 0]) == text[..n]
            && (str + CString(chunk[k + 1 := 0])) + chunk[k + 1 := 0][..0] == text[..n]
            && (c == 0 ==> text[..n] == text)
  {
    var closed := chunk[k + 1 := 0];
    assert closed[..k] == chunk[..k] && closed[..k + 1] == chunk[..k + 1];
    hide CString;
    ChunkText(text, str, closed, if c == 0 then k else k + 1);
    EmptyRight(str + CString(closed), closed[..0]);
  }

  lemma NoZero(all: seq<byte>)
    ensures 0 !in CString(all)
  {
  }

  /** The text, its terminator and what is left make up the contents. */
  lemma TextEnds(all: seq<byte>, rest: seq<byte>)
    requires |CString(all)| < |all| && rest == all[|CString(all)| + 1..]
    ensures all == CString(all) + [0] + rest
  {
    var text := CString(all);
    assert all == all[..|text|] + [all[|text|]] + all[|text| + 1..];
  }

  /** What one more byte `c` does, for the chunk and for the text before it. */
  lemma TextStep(all: seq<byte>, str: seq<byte>, chunk: seq<byte>, k: nat, c: byte, rest: seq<byte>)
    requires |CString(all)| < |all| && |str| + k <= |CString(all)| && k + 1 < |chunk|
    requires all[|str| + k..] == [c] + rest
    requires str + chunk[..k] == CString(all)[..|str| + k]
    ensures var text, next, p := CString(all), chunk[k := c], |str| + k;
            var closed := next[k + 1 := 0];
            && rest == all[p + 1..]
            && (c != 0 ==> p + 1 <= |text| && str + next[..k + 1] == text[..p + 1]
                           && str + CString(closed) == text[..p + 1]
                           && (str + CString(closed)) + closed[..0] == text[..p + 1])
            && (c == 0 ==> str + CString(closed) == text && all == text + [0] + rest)
  {
    var text, p := CString(all), |str| + k;
    NoZero(all);
    hide CString;
    NextByte(all, text, p, c, rest);
    ChunkGrows(str, chunk, k, c, text[..p]);
    ChunkCloses(text, str, chunk[k := c], k, c);
    if c == 0 {
      TextEnds(all, rest);
    }
  }

  /** The byte at the front goes to the chunk. */
  method ReadByte(buffer: Buffer, tmp: array<byte>, index: nat) returns (ghost c: byte)
    requires buffer.Valid() && buffer.readable > 0 && tmp !in buffer.Repr && index < tmp.Length
    modifies buffer, buffer.Repr, tmp
    ensures buffer.Valid() && buffer.Repr == old(buffer.Repr)
    ensures old(buffer.Contents()) == [c] + buffer.Contents()
    ensures tmp[..] == old(tmp[..])[index := c] && tmp[index] == c
  {
    var v := TakeByte(buffer);
    c := v;
    tmp[index] := v;
  }

  method PutByte(tmp: array<byte>, index: nat, c: byte)
    requires index < tmp.Length
    modifies tmp
    ensures tmp[..] == old(tmp[..])[index := c]
  {
    tmp[index] := c;
  }

  method TakeByte(buffer: Buffer) returns (c: byte)
    requires buffer.Valid() && buffer.readable > 0
    modifies buffer, buffer.Repr
    ensures buffer.Valid() && buffer.Repr == old(buffer.Repr)
    ensures old(buffer.Contents()) == [c] + buffer.Contents()
  {
    var v := PeekInt8(buffer);
    c := v as int % 0x100;
    buffer.Discard(1);
  }

  /** Takes the C string at the front, terminator included, through a fixed chunk. */
  method RetrieveCStyleString(buffer: Buffer) returns (str: seq<byte>)
    requires buffer.Valid() && 0 in buffer.Contents()
    modifies buffer, buffer.Repr
    ensures buffer.Valid() && buffer.Repr == old(buffer.Repr)
    ensures str == CString(old(buffer.Contents()))
    ensures old(buffer.Contents()) == str + [0] + buffer.Contents()
  {
    hide *;
    var tmp := new byte[CHUNK](_ => 0);
    str := [];
    var index := 0;
    ghost var all, text, chunk := buffer.Contents(), CString(buffer.Contents()), tmp[..];
    TextStart(all, chunk);
    while true
      invariant buffer.Valid() && buffer.Repr == old(buffer.Repr) && tmp !in buffer.Repr
      invariant 0 <= index <= CHUNK - 2 && tmp[..] == chunk && |chunk| == CHUNK
      invariant |str| + index <= |text| < |all|
      invariant buffer.Contents() == all[|str| + index..]
      invariant str + chunk[..index] == text[..|str| + index]
      decreases |buffer.Contents()|
    {
      buffer.Counted();
      ghost var c := ReadByte(buffer, tmp, index);
      TextStep(all, str, chunk, index, c, buffer.Contents());
      chunk := chunk[index := c];
      if index == CHUNK - 2 || tmp[index] == 0 {
        PutByte(tmp, index + 1, 0);
        chunk := chunk[index + 1 := 0];
        str := str + CString(tmp[..]);
        if tmp[index] == 0 {
          break;
        }
        index := 0;
      } else {
        index := index + 1;
      }
    }
  }
}
