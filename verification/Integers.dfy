/**
  Fixed-width integers as the program sees them on a little-endian host: two's complement
  values, their images in memory, and the conversions to and from network byte order.
 */
module Integers {
  import opened Bytes
  import opened Blocks

  type int8 = x: int | -0x80 <= x < 0x80
  type int16 = x: int | -0x8000 <= x < 0x8000
  type int32 = x: int | -0x8000_0000 <= x < 0x8000_0000
  type int64 = x: int | -0x8000_0000_0000_0000 <= x < 0x8000_0000_0000_0000
  type uint16 = x: int | 0 <= x < 0x1_0000
  type uint32 = x: int | 0 <= x < 0x1_0000_0000
  type uint64 = x: int | 0 <= x < 0x1_0000_0000_0000_0000

  // ---------- conversions between widths and signs ----------

  function ToUint16(x: int): uint16 { x % 0x1_0000 }
  function ToUint32(x: int): uint32 { x % 0x1_0000_0000 }
  function ToUint64(x: int): uint64 { x % 0x1_0000_0000_0000_0000 }

  function ToInt8(x: int): int8 { (x + 0x80) % 0x100 - 0x80 }
  function ToInt16(x: int): int16 { (x + 0x8000) % 0x1_0000 - 0x8000 }
  function ToInt32(x: int): int32 { (x + 0x8000_0000) % 0x1_0000_0000 - 0x8000_0000 }
  function ToInt64(x: int): int64 {
    (x + 0x8000_0000_0000_0000) % 0x1_0000_0000_0000_0000 - 0x8000_0000_0000_0000
  }

  lemma WrapKeeps64(v: int64)
    ensures ToInt64(ToUint64(v)) == v
    ensures ToUint64(v) == ToUint32(v / 0x1_0000_0000) * 0x1_0000_0000 + ToUint32(v)
  {
    var q, r := v / 0x1_0000_0000, v % 0x1_0000_0000;
    if v >= 0 {
      assert ToUint32(q) == q;
    } else {
      assert ToUint32(q) == q + 0x1_0000_0000;
    }
  }

  lemma Halves(a: uint32, b: uint32)
    ensures var n := ToInt64(a * 0x1_0000_0000 + b);
            && ToUint32(n) == b && ToUint32(n / 0x1_0000_0000) == a
            && ToUint64(n) == a * 0x1_0000_0000 + b
  {
    var n := ToInt64(a * 0x1_0000_0000 + b);
    if a < 0x8000_0000 {
      assert n == a * 0x1_0000_0000 + b;
    } else {
      assert n == (a - 0x1_0000_0000) * 0x1_0000_0000 + b;
    }
  }

  // ---------- byte order ----------

  /** The `n` low bytes of `v`, the most significant one first. */
  function BigEndian(n: nat, v: nat): (s: seq<byte>)
    ensures |s| == n
  {
    if n == 0 then [] else BigEndian(n - 1, v / 256) + [v % 256]
  }

  /** The `n` low bytes of `v` as a little-endian host keeps them in memory. */
  function LittleEndian(n: nat, v: nat): (s: seq<byte>)
    ensures |s| == n
  {
    if n == 0 then [] else [v % 256] + LittleEndian(n - 1, v / 256)
  }

  /** The value a little-endian host loads from these bytes. */
  function Load(s: seq<byte>): nat {
    if s == [] then 0 else s[0] + 256 * Load(s[1..])
  }

  function Pow256(n: nat): nat {
    if n == 0 then 1 else 256 * Pow256(n - 1)
  }

  lemma Pow256Values()
    ensures Pow256(1) == 0x100 && Pow256(2) == 0x1_0000 && Pow256(4) == 0x1_0000_0000
    ensures Pow256(8) == 0x1_0000_0000_0000_0000
  {
    assert Pow256(3) == 0x100_0000;
    assert Pow256(5) == 0x100_0000_0000 && Pow256(6) == 0x1_0000_0000_0000;
  }

  lemma {:induction false} LoadBound(s: seq<byte>)
    ensures Load(s) < Pow256(|s|)
  {
    if s != [] {
      LoadBound(s[1..]);
    }
  }

  lemma {:induction false} LoadStored(n: nat, v: nat)
    requires v < Pow256(n)
    ensures Load(LittleEndian(n, v)) == v
  {
    if n > 0 {
      LoadStored(n - 1, v / 256);
      assert LittleEndian(n, v)[1..] == LittleEndian(n - 1, v / 256);
    }
  }

  lemma {:induction false} StoredLoad(s: seq<byte>)
    ensures LittleEndian(|s|, Load(s)) == s
  {
    if s != [] {
      StoredLoad(s[1..]);
      assert Load(s) % 256 == s[0] && Load(s) / 256 == Load(s[1..]);
    }
  }

  function Reversed(s: seq<byte>): (r: seq<byte>)
    ensures |r| == |s|
  {
    if s == [] then [] else Reversed(s[1..]) + [s[0]]
  }

  lemma {:induction false} ReversedConcat(a: seq<byte>, b: seq<byte>)
    ensures Reversed(a + b) == Reversed(b) + Reversed(a)
  {
    if a == [] {
      assert a + b == b;
    } else {
      assert (a + b)[0] == a[0] && (a + b)[1..] == a[1..] + b;
      ReversedConcat(a[1..], b);
      Assoc(Reversed(b), Reversed(a[1..]), [a[0]]);
    }
  }

  lemma {:induction false} ReversedTwice(s: seq<byte>)
    ensures Reversed(Reversed(s)) == s
  {
    if s != [] {
      ReversedConcat(Reversed(s[1..]), [s[0]]);
      ReversedTwice(s[1..]);
      assert Reversed([s[0]]) == [s[0]];
    }
  }

  lemma {:induction false} BigEndianReverses(n: nat, v: nat)
    ensures BigEndian(n, v) == Reversed(LittleEndian(n, v))
  {
    if n > 0 {
      BigEndianReverses(n - 1, v / 256);
      assert LittleEndian(n, v)[1..] == LittleEndian(n - 1, v / 256);
    }
  }

  /** Conversion between host and network order: the value whose memory image is big-endian. */
  function ByteSwap(n: nat, v: nat): (w: nat)
    ensures w < Pow256(n)
  {
    LoadBound(BigEndian(n, v));
    Load(BigEndian(n, v))
  }

  lemma SwappedImage(n: nat, v: nat)
    ensures LittleEndian(n, ByteSwap(n, v)) == BigEndian(n, v)
  {
    StoredLoad(BigEndian(n, v));
  }

  lemma SwapTwice(n: nat, v: nat)
    requires v < Pow256(n)
    ensures ByteSwap(n, ByteSwap(n, v)) == v
  {
    var w := ByteSwap(n, v);
    SwappedImage(n, v);
    BigEndianReverses(n, w);
    BigEndianReverses(n, v);
    ReversedTwice(LittleEndian(n, v));
    LoadStored(n, v);
  }

  lemma Shift(a: int, p: int)
    ensures a * (256 * p) == 256 * (a * p)
  {
  }

  lemma LowByte(n: nat, q: nat, d: byte)
    requires n > 0
    ensures LittleEndian(n, 256 * q + d) == [d] + LittleEndian(n - 1, q)
  {
    var v := 256 * q + d;
    assert v % 256 == d && v / 256 == q;
  }

  /** A number of `n + m` bytes lies in memory as its low `n` bytes and then the others. */
  lemma {:induction false} LittleEndianSplit(n: nat, m: nat, high: nat, low: nat)
    requires low < Pow256(n)
    ensures LittleEndian(n + m, high * Pow256(n) + low) == LittleEndian(n, low) + LittleEndian(m, high)
  {
    if n > 0 {
      LittleEndianSplit(n - 1, m, high, low / 256);
      Shift(high, Pow256(n - 1));
      LowByte(n + m, high * Pow256(n - 1) + low / 256, low % 256);
      Assoc([low % 256], LittleEndian(n - 1, low / 256), LittleEndian(m, high));
    }
  }

  lemma BigEndianSplit(n: nat, m: nat, high: nat, low: nat)
    requires low < Pow256(n)
    ensures BigEndian(n + m, high * Pow256(n) + low) == BigEndian(m, high) + BigEndian(n, low)
  {
    var v := high * Pow256(n) + low;
    LittleEndianSplit(n, m, high, low);
    BigEndianReverses(n + m, v);
    BigEndianReverses(m, high);
    BigEndianReverses(n, low);
    ReversedConcat(LittleEndian(n, low), LittleEndian(m, high));
  }

  // ---------- the program's conversions ----------

  function Htons(x: uint16): uint16 { Pow256Values(); ByteSwap(2, x) }
  function Ntohs(x: uint16): uint16 { Pow256Values(); ByteSwap(2, x) }
  function Htonl(x: uint32): uint32 { Pow256Values(); ByteSwap(4, x) }
  function Ntohl(x: uint32): uint32 { Pow256Values(); ByteSwap(4, x) }

  /** The macro: low half converted and shifted up, plus the high half converted. */
  function Htonll(v: int64): int64 {
    ToInt64(Htonl(ToUint32(v)) * 0x1_0000_0000 + Htonl(ToUint32(v / 0x1_0000_0000)))
  }

  function Ntohll(v: int64): int64 {
    ToInt64(Ntohl(ToUint32(v)) * 0x1_0000_0000 + Ntohl(ToUint32(v / 0x1_0000_0000)))
  }

  /** Sign and all, the conversion to host order undoes the one to network order. */
  lemma NtohllUndoesHtonll(v: int64)
    ensures Ntohll(Htonll(v)) == v
  {
    hide ByteSwap, ToInt64, ToUint32, ToUint64;
    var lo, hi := ToUint32(v), ToUint32(v / 0x1_0000_0000);
    Pow256Values();
    SwapTwice(4, lo);
    SwapTwice(4, hi);
    Halves(Htonl(lo), Htonl(hi));
    WrapKeeps64(v);
  }

  /** What appendInt64 copies out of memory is the value in network order. */
  lemma HtonllImage(v: int64)
    ensures LittleEndian(8, ToUint64(Htonll(v))) == BigEndian(8, ToUint64(v))
  {
    hide ByteSwap, ToInt64, ToUint32, ToUint64, Pow256, BigEndian, LittleEndian;
    var lo, hi := ToUint32(v), ToUint32(v / 0x1_0000_0000);
    Pow256Values();
    Halves(Htonl(lo), Htonl(hi));
    WrapKeeps64(v);
    SwappedImage(4, lo);
    SwappedImage(4, hi);
    LittleEndianSplit(4, 4, Htonl(lo), Htonl(hi));
    BigEndianSplit(4, 4, hi, lo);
  }

  /** Network-order images of signed values, as the buffer carries them. */
  function Wire8(v: int8): seq<byte> { [v % 0x100] }
  function Wire16(v: int16): seq<byte> { BigEndian(2, ToUint16(v)) }
  function Wire32(v: int32): seq<byte> { BigEndian(4, ToUint32(v)) }
  function Wire64(v: int64): seq<byte> { BigEndian(8, ToUint64(v)) }

  /** What appendInt16 and appendInt32 copy out of memory, likewise. */
  lemma HtonImages(v: int16, w: int32)
    ensures LittleEndian(2, ToUint16(ToInt16(Htons(ToUint16(v))))) == Wire16(v)
    ensures LittleEndian(4, ToUint32(ToInt32(Htonl(ToUint32(w))))) == Wire32(w)
  {
    hide BigEndian, LittleEndian, ByteSwap, Pow256, ToInt16, ToUint16, ToInt32, ToUint32;
    Pow256Values();
    SwappedImage(2, ToUint16(v));
    SwappedImage(4, ToUint32(w));
    WrapBack16(Htons(ToUint16(v)));
    WrapBack32(Htonl(ToUint32(w)));
  }

  lemma WrapBack16(n: uint16)
    ensures ToUint16(ToInt16(n)) == n
  {
  }

  lemma WrapBack32(n: uint32)
    ensures ToUint32(ToInt32(n)) == n
  {
  }

  lemma WrapKeeps16(v: int16)
    ensures ToInt16(ToUint16(v)) == v
  {
  }

  lemma WrapKeeps32(v: int32)
    ensures ToInt32(ToUint32(v)) == v
  {
  }

  /** What peekInt16 makes of two bytes: load, convert to host order, read as signed. */
  function Peeked16(s: seq<byte>): int16
    requires |s| == 2
  {
    LoadBound(s); Pow256Values();
    ToInt16(Ntohs(Load(s)))
  }

  function Peeked32(s: seq<byte>): int32
    requires |s| == 4
  {
    LoadBound(s); Pow256Values();
    ToInt32(Ntohl(Load(s)))
  }

  /** Eight bytes are loaded as a signed value before the macro takes it apart. */
  function Peeked64(s: seq<byte>): int64
    requires |s| == 8
  {
    Ntohll(ToInt64(Load(s)))
  }

  lemma PeekedWire16(v: int16)
    ensures Peeked16(Wire16(v)) == v
  {
    hide BigEndian, LittleEndian, Pow256, Load, ToInt16, ToUint16;
    Pow256Values();
    SwapTwice(2, ToUint16(v));
    WrapKeeps16(v);
  }

  lemma PeekedWire32(v: int32)
    ensures Peeked32(Wire32(v)) == v
  {
    hide BigEndian, LittleEndian, Pow256, Load, ToInt32, ToUint32;
    Pow256Values();
    SwapTwice(4, ToUint32(v));
    WrapKeeps32(v);
  }

  lemma PeekedWire64(v: int64)
    ensures Peeked64(Wire64(v)) == v
  {
    hide BigEndian, LittleEndian, Pow256, Htonll, Ntohll;
    HtonllImage(v);
    var n := Htonll(v);
    Pow256Values();
    LoadStored(8, ToUint64(n));
    WrapKeeps64(n);
    NtohllUndoesHtonll(v);
  }

  lemma LoadReversed(n: nat, s: seq<byte>)
    requires |s| == n
    ensures BigEndian(n, ByteSwap(n, Load(s))) == s
  {
    hide BigEndian, LittleEndian, Load;
    var x := Load(s);
    BigEndianReverses(n, ByteSwap(n, x));
    SwappedImage(n, x);
    BigEndianReverses(n, x);
    ReversedTwice(LittleEndian(n, x));
    StoredLoad(s);
  }

  /** Every two, four or eight bytes are the wire image of what the peek makes of them. */
  lemma WirePeeked16(s: seq<byte>)
    requires |s| == 2
    ensures Wire16(Peeked16(s)) == s
  {
    hide BigEndian, LittleEndian, Pow256, Load, ByteSwap;
    Pow256Values();
    LoadBound(s);
    LoadReversed(2, s);
  }

  lemma WirePeeked32(s: seq<byte>)
    requires |s| == 4
    ensures Wire32(Peeked32(s)) == s
  {
    hide BigEndian, LittleEndian, Pow256, Load, ByteSwap;
    Pow256Values();
    LoadBound(s);
    LoadReversed(4, s);
  }

  lemma WirePeeked64(s: seq<byte>)
    requires |s| == 8
    ensures Wire64(Peeked64(s)) == s
  {
    Pow256Values();
    LoadBound(s);
    UnwrapKeeps64(Load(s));
    hide BigEndian, LittleEndian, Pow256, Load, Htonll, Ntohll, ToInt64, ToUint64;
    var n := ToInt64(Load(s));
    SameConversion(n);
    HtonllImage(n);
    BigEndianReverses(8, ToUint64(Htonll(n)));
    BigEndianReverses(8, ToUint64(n));
    ReversedTwice(LittleEndian(8, ToUint64(n)));
    StoredLoad(s);
  }

  lemma UnwrapKeeps64(x: nat)
    requires x < 0x1_0000_0000_0000_0000
    ensures ToUint64(ToInt64(x)) == x
  {
  }

  lemma SameConversion(v: int64)
    ensures Ntohll(v) == Htonll(v)
  {
  }

  /** Reading what was appended gives back the value and drops exactly its bytes. */
  lemma ReadsBack16(v: int16, w: int16, rest: seq<byte>, left: seq<byte>)
    requires Wire16(v) + rest == Wire16(w) + left
    ensures v == w && rest == left
  {
    SameFronts(Wire16(v), rest, Wire16(w), left);
    PeekedWire16(v);
    PeekedWire16(w);
  }

  lemma ReadsBack32(v: int32, w: int32, rest: seq<byte>, left: seq<byte>)
    requires Wire32(v) + rest == Wire32(w) + left
    ensures v == w && rest == left
  {
    SameFronts(Wire32(v), rest, Wire32(w), left);
    PeekedWire32(v);
    PeekedWire32(w);
  }

  lemma ReadsBack64(v: int64, w: int64, rest: seq<byte>, left: seq<byte>)
    requires Wire64(v) + rest == Wire64(w) + left
    ensures v == w && rest == left
  {
    SameFronts(Wire64(v), rest, Wire64(w), left);
    PeekedWire64(v);
    PeekedWire64(w);
  }

  lemma SameFronts(a: seq<byte>, b: seq<byte>, c: seq<byte>, d: seq<byte>)
    requires |a| == |c| && a + b == c + d
    ensures a == c && b == d
  {
    assert a == (a + b)[..|a|] && c == (c + d)[..|c|];
    assert b == (a + b)[|a|..] && d == (c + d)[|c|..];
  }
}
