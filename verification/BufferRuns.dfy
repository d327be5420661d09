/** Whole runs of buffer calls against the flat byte sequence they are to look like. */
module BufferRuns {
  import opened Bytes
  import opened Blocks
  import opened Integers
  import opened Buffers
  import opened BufferIntegers
  import opened BufferStreams

  // ---------- numbers of all widths ----------

  datatype Number = I8(v8: int8) | I16(v16: int16) | I32(v32: int32) | I64(v64: int64)

  datatype Width = W8 | W16 | W32 | W64

  function WidthOf(x: Number): Width {
    match x
    case I8(_) => W8
    case I16(_) => W16
    case I32(_) => W32
    case I64(_) => W64
  }

  function Size(w: Width): nat {
    match w
    case W8 => 1
    case W16 => 2
    case W32 => 4
    case W64 => 8
  }

  function Wire(x: Number): (s: seq<byte>)
    ensures |s| == Size(WidthOf(x))
  {
    match x
    case I8(v) => Wire8(v)
    case I16(v) => Wire16(v)
    case I32(v) => Wire32(v)
    case I64(v) => Wire64(v)
  }

  function Peeked(w: Width, s: seq<byte>): Number
    requires |s| == Size(w)
  {
    match w
    case W8 => I8(ToInt8(s[0]))
    case W16 => I16(Peeked16(s))
    case W32 => I32(Peeked32(s))
    case W64 => I64(Peeked64(s))
  }

  lemma PeekedWire(x: Number)
    ensures Peeked(WidthOf(x), Wire(x)) == x
  {
    hide Wire16, Wire32, Wire64, Peeked16, Peeked32, Peeked64;
    match x
    case I8(v) =>
    case I16(v) => PeekedWire16(v);
    case I32(v) => PeekedWire32(v);
    case I64(v) => PeekedWire64(v);
  }

  // ---------- calls on the flat sequence ----------

  datatype Op =
    | Append(data: seq<byte>)
    | Prepend(data: seq<byte>)
    | Fill(data: seq<byte>)  // windows filled and taken in until all is stored
    | Write(data: seq<byte>) // through an output stream, which takes in whole windows and backs up
    | Alloc                  // a window handed out and never used
    | AppendInt(value: Number)
    | Discard(len: nat)
    | DiscardAll
    | ToString(len: nat)
    | Retrieve(len: nat)
    | RetrieveAll
    | PeekInt(width: Width)
    | ReadInt(width: Width)
    | RetrieveText // retrieveCStyleString

  datatype Output = Nothing | Text(bytes: seq<byte>) | Value(number: Number)

  /** The calls whose asserts hold, with a zero behind any text to be retrieved. */
  predicate Allowed(c: seq<byte>, op: Op) {
    match op
    case Discard(len) => len <= |c|
    case ToString(len) => len <= |c|
    case Retrieve(len) => len <= |c|
    case PeekInt(w) => Size(w) <= |c|
    case ReadInt(w) => Size(w) <= |c|
    case RetrieveText => 0 in c
    case _ => true
  }

  /** The bytes a call adds at the end. */
  function Added(op: Op): seq<byte> {
    match op
    case Append(data) => data
    case Fill(data) => data
    case Write(data) => data
    case AppendInt(x) => Wire(x)
    case _ => []
  }

  /** How many bytes a call takes away from the front. */
  function Taken(c: seq<byte>, op: Op): (n: nat)
    requires Allowed(c, op)
    ensures n <= |c|
  {
    match op
    case Discard(len) => len
    case Retrieve(len) => len
    case ReadInt(w) => Size(w)
    case DiscardAll => |c|
    case RetrieveAll => |c|
    case RetrieveText => TextInside(c); |CString(c)| + 1
    case _ => 0
  }

  /** There is a byte behind the text, its terminator. */
  lemma TextInside(c: seq<byte>)
    requires 0 in c
    ensures |CString(c)| < |c|
  {
    TextStart(c, []);
  }

  function After(c: seq<byte>, op: Op): seq<byte>
    requires Allowed(c, op)
  {
    if op.Prepend? then op.data + c else c[Taken(c, op)..] + Added(op)
  }

  function Out(c: seq<byte>, op: Op): Output
    requires Allowed(c, op)
  {
    match op
    case ToString(len) => Text(c[..len])
    case Retrieve(len) => Text(c[..len])
    case RetrieveAll => Text(c)
    case RetrieveText => Text(CString(c))
    case PeekInt(w) => Value(Peeked(w, c[..Size(w)]))
    case ReadInt(w) => Value(Peeked(w, c[..Size(w)]))
    case _ => Nothing
  }

  predicate AllAllowed(c: seq<byte>, ops: seq<Op>)
    decreases |ops|
  {
    ops != [] ==> Allowed(c, ops[0]) && AllAllowed(After(c, ops[0]), ops[1..])
  }

  function AfterAll(c: seq<byte>, ops: seq<Op>): seq<byte>
    requires AllAllowed(c, ops)
    decreases |ops|
  {
    if ops == [] then c else AfterAll(After(c, ops[0]), ops[1..])
  }

  function Outputs(c: seq<byte>, ops: seq<Op>): seq<Output>
    requires AllAllowed(c, ops)
    decreases |ops|
  {
    if ops == [] then [] else [Out(c, ops[0])] + Outputs(After(c, ops[0]), ops[1..])
  }

  // ---------- the calls on a buffer ----------

  /** Next, bytes stored in the window, and extend: the same as appending those bytes. */
  method FillWindow(buffer: Buffer, data: seq<byte>) returns (n: nat)
    requires buffer.Valid()
    modifies buffer, buffer.Repr
    ensures buffer.Valid() && fresh(buffer.Repr - old(buffer.Repr))
    ensures n <= |data| && (data != [] ==> n > 0)
    ensures buffer.Contents() == old(buffer.Contents()) + data[..n]
  {
    hide Buffer.Contents, Buffer.Between;
    var w := buffer.Next();
    n := Least(|data|, w.len);
    buffer.Store(w, data[..n]);
    buffer.Extend(n);
  }

  /** Window by window, until all is stored. */
  method FillAll(buffer: Buffer, data: seq<byte>)
    requires buffer.Valid()
    modifies buffer, buffer.Repr
    ensures buffer.Valid() && fresh(buffer.Repr - old(buffer.Repr))
    ensures buffer.Contents() == old(buffer.Contents()) + data
  {
    hide *;
    var done := 0;
    NothingYet(old(buffer.Contents()), data);
    while done < |data|
      invariant buffer.Valid() && fresh(buffer.Repr - old(buffer.Repr))
      invariant done <= |data|
      invariant buffer.Contents() == old(buffer.Contents()) + data[..done]
    {
      var n := FillWindow(buffer, data[done..]);
      Assoc(old(buffer.Contents()), data[..done], data[done..][..n]);
      assert data[..done] + data[done..][..n] == data[..done + n];
      done := done + n;
    }
    assert data[..done] == data;
  }

  lemma NothingYet(c: seq<byte>, data: seq<byte>)
    ensures c + data[..0] == c
  {
  }

  method AppendNumber(buffer: Buffer, x: Number)
    requires buffer.Valid()
    modifies buffer, buffer.Repr
    ensures buffer.Valid() && fresh(buffer.Repr - old(buffer.Repr))
    ensures buffer.Contents() == old(buffer.Contents()) + Wire(x)
  {
    hide *;
    WireCases(x);
    match x
    case I8(v) => AppendInt8(buffer, v);
    case I16(v) => AppendInt16(buffer, v);
    case I32(v) => AppendInt32(buffer, v);
    case I64(v) => AppendInt64(buffer, v);
  }

  lemma WireCases(x: Number)
    ensures x.I8? ==> Wire(x) == Wire8(x.v8)
    ensures x.I16? ==> Wire(x) == Wire16(x.v16)
    ensures x.I32? ==> Wire(x) == Wire32(x.v32)
    ensures x.I64? ==> Wire(x) == Wire64(x.v64)
    ensures |Wire(x)| == Size(WidthOf(x))
    ensures match WidthOf(x) case W8 => x.I8? case W16 => x.I16? case W32 => x.I32? case W64 => x.I64?
  {
    hide Wire8, Wire16, Wire32, Wire64;
  }

  method PeekNumber(buffer: Buffer, w: Width) returns (x: Number)
    requires buffer.Valid() && Size(w) <= |buffer.Contents()|
    ensures x == Peeked(w, buffer.Contents()[..Size(w)])
  {
    hide Buffer.Contents, Buffer.Valid, Wire8, Wire16, Wire32, Wire64, Peeked, Wire;
    buffer.Counted();
    match w {
      case W8 => var v := PeekInt8(buffer); x := I8(v);
      case W16 => var v := PeekInt16(buffer); x := I16(v);
      case W32 => var v := PeekInt32(buffer); x := I32(v);
      case W64 => var v := PeekInt64(buffer); x := I64(v);
    }
    WireCases(x);
    PeekedWire(x);
  }

  method ReadNumber(buffer: Buffer, w: Width) returns (x: Number)
    requires buffer.Valid() && Size(w) <= |buffer.Contents()|
    modifies buffer, buffer.Repr
    ensures buffer.Valid() && buffer.Repr == old(buffer.Repr)
    ensures WidthOf(x) == w && old(buffer.Contents()) == Wire(x) + buffer.Contents()
  {
    hide Buffer.Contents, Buffer.Valid, Wire8, Wire16, Wire32, Wire64, Peeked, Wire, SameEnds;
    buffer.Counted();
    match w {
      case W8 => var v := ReadInt8(buffer); x := I8(v);
      case W16 => var v := ReadInt16(buffer); x := I16(v);
      case W32 => var v := ReadInt32(buffer); x := I32(v);
      case W64 => var v := ReadInt64(buffer); x := I64(v);
    }
    WireCases(x);
  }

  lemma TakenNumber(c: seq<byte>, x: Number, rest: seq<byte>)
    requires c == Wire(x) + rest
    ensures var n := Size(WidthOf(x)); n <= |c| && x == Peeked(WidthOf(x), c[..n]) && rest == c[n..] + []
  {
    hide Wire, Peeked, Size;
    WireCases(x);
    PeekedWire(x);
    assert c[..|Wire(x)|] == Wire(x);
  }

  lemma TakenText(c: seq<byte>, rest: seq<byte>)
    requires c == CString(c) + [0] + rest
    ensures rest == c[|CString(c)| + 1..] + []
  {
    hide CString;
  }

  // ---------- the buffer runs like the flat sequence ----------

  method Call(buffer: Buffer, op: Op) returns (out: Output)
    requires buffer.Valid() && Allowed(buffer.Contents(), op)
    modifies buffer, buffer.Repr
    ensures buffer.Valid() && fresh(buffer.Repr - old(buffer.Repr))
    ensures buffer.Contents() == After(old(buffer.Contents()), op)
    ensures out == Out(old(buffer.Contents()), op)
  {
    hide Buffer.Contents, Buffer.Between, Wire, Peeked, CString;
    buffer.Counted();
    out := Nothing;
    match op
    case Append(data) => buffer.Appendable(); buffer.Append(data);
    case Prepend(data) => buffer.Prepend(data);
    case Fill(data) => FillAll(buffer, data);
    case Write(data) => var stream := new BufferOutputStream(buffer); stream.WriteAll(data);
    case Alloc => var w := buffer.Next();
    case AppendInt(x) => AppendNumber(buffer, x);
    case Discard(len) => buffer.Discard(len);
    case DiscardAll => buffer.DiscardAll();
    case ToString(len) => var s := buffer.ToString(len); out := Text(s);
    case Retrieve(len) => var s := buffer.RetrieveAsString(len); out := Text(s);
    case RetrieveAll => var s := buffer.RetrieveAllAsString(); out := Text(s);
    case PeekInt(w) => var x := PeekNumber(buffer, w); out := Value(x);
    case ReadInt(w) =>
      var x := ReadNumber(buffer, w);
      TakenNumber(old(buffer.Contents()), x, buffer.Contents());
      out := Value(x);
    case RetrieveText =>
      var s := RetrieveCStyleString(buffer);
      TakenText(old(buffer.Contents()), buffer.Contents());
      out := Text(s);
  }

  /** Any run of calls leaves the contents, and returns the strings and numbers, of the flat run. */
  method Run(buffer: Buffer, ops: seq<Op>) returns (outs: seq<Output>)
    requires buffer.Valid() && AllAllowed(buffer.Contents(), ops)
    modifies buffer, buffer.Repr
    ensures buffer.Valid() && fresh(buffer.Repr - old(buffer.Repr))
    ensures buffer.Contents() == AfterAll(old(buffer.Contents()), ops)
    ensures outs == Outputs(old(buffer.Contents()), ops)
    decreases ops
  {
    hide Buffer.Contents, Buffer.Valid, After, Out, Allowed;
    if ops == [] {
      outs := [];
    } else {
      var out := Call(buffer, ops[0]);
      var rest := Run(buffer, ops[1..]);
      outs := [out] + rest;
    }
  }

  /** A copy and the buffer it was made from go separate ways. */
  method RunApart(buffer: Buffer, ops: seq<Op>, copyOps: seq<Op>)
    returns (copy: Buffer, outs: seq<Output>, copyOuts: seq<Output>)
    requires buffer.Valid()
    requires AllAllowed(buffer.Contents(), ops) && AllAllowed(buffer.Contents(), copyOps)
    modifies buffer, buffer.Repr
    ensures fresh(copy) && copy.Valid() && buffer.Valid()
    ensures buffer.Contents() == AfterAll(old(buffer.Contents()), ops)
    ensures outs == Outputs(old(buffer.Contents()), ops)
    ensures copy.Contents() == AfterAll(old(buffer.Contents()), copyOps)
    ensures copyOuts == Outputs(old(buffer.Contents()), copyOps)
  {
    hide Buffer.Contents, AllAllowed, AfterAll, Outputs;
    copy := new Buffer.Copy(buffer);
    outs := Run(buffer, ops);
    copyOuts := Run(copy, copyOps);
  }

  // ---------- what the flat runs promise ----------

  function AllGone(c: seq<byte>, ops: seq<Op>): seq<byte>
    requires AllAllowed(c, ops)
    decreases |ops|
  {
    if ops == [] then [] else c[..Taken(c, ops[0])] + AllGone(After(c, ops[0]), ops[1..])
  }

  function AllAdded(ops: seq<Op>): seq<byte> {
    if ops == [] then [] else Added(ops[0]) + AllAdded(ops[1..])
  }

  /** First in, first out: as long as nothing is prepended, bytes leave in the order they came. */
  lemma {:induction false} FirstInFirstOut(c: seq<byte>, ops: seq<Op>)
    requires AllAllowed(c, ops) && forall i :: 0 <= i < |ops| ==> !ops[i].Prepend?
    ensures AllGone(c, ops) + AfterAll(c, ops) == c + AllAdded(ops)
    decreases |ops|
  {
    hide Allowed, Added, Taken;
    if ops != [] {
      var d := After(c, ops[0]);
      var gone, added := c[..Taken(c, ops[0])], Added(ops[0]);
      FirstInFirstOut(d, ops[1..]);
      assert gone + d == c + added;
      calc {
        AllGone(c, ops) + AfterAll(c, ops);
        { Assoc(gone, AllGone(d, ops[1..]), AfterAll(d, ops[1..])); }
        gone + (d + AllAdded(ops[1..]));
        { Assoc(gone, d, AllAdded(ops[1..])); }
        (c + added) + AllAdded(ops[1..]);
        { Assoc(c, added, AllAdded(ops[1..])); }
        c + AllAdded(ops);
      }
    }
  }

  /** The numbers appended, one after the other, and read back with the same widths. */
  function Appends(xs: seq<Number>): (ops: seq<Op>)
    ensures |ops| == |xs|
  {
    if xs == [] then [] else [AppendInt(xs[0])] + Appends(xs[1..])
  }

  function Reads(xs: seq<Number>): (ops: seq<Op>)
    ensures |ops| == |xs|
  {
    if xs == [] then [] else [ReadInt(WidthOf(xs[0]))] + Reads(xs[1..])
  }

  function Wires(xs: seq<Number>): seq<byte> {
    if xs == [] then [] else Wire(xs[0]) + Wires(xs[1..])
  }

  lemma {:induction false} AppendsAll(c: seq<byte>, xs: seq<Number>)
    ensures AllAllowed(c, Appends(xs)) && AfterAll(c, Appends(xs)) == c + Wires(xs)
    decreases |xs|
  {
    hide Wire;
    if xs == [] {
      assert c + Wires(xs) == c;
    } else {
      var ops := Appends(xs);
      assert ops[0] == AppendInt(xs[0]) && ops[1..] == Appends(xs[1..]);
      assert After(c, ops[0]) == c + Wire(xs[0]);
      AppendsAll(c + Wire(xs[0]), xs[1..]);
      Assoc(c, Wire(xs[0]), Wires(xs[1..]));
    }
  }

  lemma {:induction false} ReadsAll(xs: seq<Number>, rest: seq<byte>)
    ensures AllAllowed(Wires(xs) + rest, Reads(xs)) && AfterAll(Wires(xs) + rest, Reads(xs)) == rest
    ensures var outs := Outputs(Wires(xs) + rest, Reads(xs));
            |outs| == |xs| && forall i :: 0 <= i < |xs| ==> outs[i] == Value(xs[i])
    decreases |xs|
  {
    hide Wire, Peeked, Size, WidthOf;
    if xs == [] {
      assert Wires(xs) + rest == rest;
    } else {
      var c, ops, tail := Wires(xs) + rest, Reads(xs), Wires(xs[1..]) + rest;
      assert ops[0] == ReadInt(WidthOf(xs[0])) && ops[1..] == Reads(xs[1..]);
      Assoc(Wire(xs[0]), Wires(xs[1..]), rest);
      TakenNumber(c, xs[0], tail);
      ReadsAll(xs[1..], rest);
    }
  }

  /** A run may be cut anywhere. */
  lemma {:induction false} RunsCompose(c: seq<byte>, ops: seq<Op>, more: seq<Op>)
    ensures AllAllowed(c, ops + more) <==> AllAllowed(c, ops) && AllAllowed(AfterAll(c, ops), more)
    ensures AllAllowed(c, ops + more) ==> AfterAll(c, ops + more) == AfterAll(AfterAll(c, ops), more)
    ensures AllAllowed(c, ops + more) ==>
              && |Outputs(c, ops)| == |ops|
              && Outputs(c, ops + more) == Outputs(c, ops) + Outputs(AfterAll(c, ops), more)
    decreases |ops|
  {
    hide Allowed, After, Out;
    if ops == [] {
      assert ops + more == more;
    } else {
      assert (ops + more)[0] == ops[0] && (ops + more)[1..] == ops[1..] + more;
      if Allowed(c, ops[0]) {
        RunsCompose(After(c, ops[0]), ops[1..], more);
      }
    }
  }

  /**
    Numbers of any widths, appended behind contents `c`, come back in order once `c` has been
    retrieved.
   */
  lemma NumbersComeBack(c: seq<byte>, xs: seq<Number>)
    ensures var ops := Appends(xs) + ([Retrieve(|c|)] + Reads(xs));
            && AllAllowed(c, ops) && AfterAll(c, ops) == [] && |Outputs(c, ops)| == |ops|
            && Outputs(c, ops)[|xs|] == Text(c)
            && forall i :: 0 <= i < |xs| ==> Outputs(c, ops)[|xs| + 1..][i] == Value(xs[i])
  {
    hide Wire, Peeked, Size;
    var back := [Retrieve(|c|)] + Reads(xs);
    AppendsAll(c, xs);
    ReadsAll(xs, []);
    assert back[0] == Retrieve(|c|) && back[1..] == Reads(xs);
    var all := c + Wires(xs);
    assert all[..|c|] == c && After(all, back[0]) == Wires(xs) + [];
    RunsCompose(c, Appends(xs), back);
    assert Outputs(all, back) == [Text(c)] + Outputs(Wires(xs) + [], Reads(xs));
  }

  /** Anywhere in a run, prepending and then taking back as many bytes is as if nothing had happened. */
  lemma PrependUndone(c: seq<byte>, before: seq<Op>, data: seq<byte>, more: seq<Op>)
    requires AllAllowed(c, before + more)
    ensures var ops := before + ([Prepend(data), Retrieve(|data|)] + more);
            AllAllowed(c, ops) && AfterAll(c, ops) == AfterAll(c, before + more)
  {
    RunsCompose(c, before, more);
    var d, ops := AfterAll(c, before), [Prepend(data), Retrieve(|data|)] + more;
    assert ops[0] == Prepend(data) && ops[1..][0] == Retrieve(|data|) && ops[1..][1..] == more;
    assert After(After(d, ops[0]), ops[1]) == d;
    RunsCompose(c, before, ops);
  }
}
