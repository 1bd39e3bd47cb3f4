/** Whole runs of evbuffer operations against the same operations on plain byte sequences. */
module EvbufferRuns {
  import opened Bytes
  import opened Chains
  import opened Evbuffers
  import opened EvbufferRead
  import opened Wrappers
  import opened EvbufferLinks

  /** A read that asks for more than the last chain has room for, and brings nothing, leaves an empty chain behind the
      cursor's; one more byte then lands in it, out of the cursor's sight. This is so for every buffer whose last chain
      has data. */
  method ShortReadBreaksAdd(buf: Evbuffer, howmuch: int, fionread: int, x: Byte)
    requires buf.Valid() && !buf.freezeEnd && ShortOf(buf, Clipped(howmuch, fionread))
    modifies buf
    ensures !buf.Valid() && buf.Linked()
  {
    hide Flat, Links;
    var _ := Read(buf, howmuch, fionread, Some([]));
    var _ := buf.Add([x]);
  }

  /** It happens to a new buffer: 464 bytes are asked for and two arrive, 500 are asked for and none arrives, and one
      byte is added. */
  method AddAfterShortReadMissesCursor() returns (buf: Evbuffer)
    ensures fresh(buf) && buf.Linked() && !buf.Valid()
  {
    hide Flat, Links;
    buf := new Evbuffer();
    var _ := Read(buf, 464, 0, Some([1, 2]));
    ShortReadBreaksAdd(buf, 500, 0, 3);
  }

  /** An empty chain that trails a buffer's data and then gets more data behind it, by evbuffer_add_buffer, spoils what
      evbuffer_remove_buffer moves over it: the receiving buffer's cursor stays in front of the empty chain. This is so
      for all such buffers, and whatever the receiving one holds. */
  method TrailingChainSpoilsMove(x: Evbuffer, y: Evbuffer, w: Evbuffer, z: Evbuffer)
    requires x.Valid() && y.Valid() && w.Valid() && z.Valid()
    requires x != y && x != w && x != z && y != w && y != z && w != z
    requires Apart(x.ids, y.ids) && Apart(x.ids, w.ids) && Apart(y.ids, w.ids)
    requires Apart(z.ids, x.ids) && Apart(z.ids, y.ids) && Apart(z.ids, w.ids)
    requires !x.freezeStart && !x.freezeEnd && !y.freezeStart && !w.freezeStart && !z.freezeEnd
    requires x.totalLen > 0 && x.cursor + 1 < |x.chains| && y.totalLen > 0 && w.totalLen > 0
    modifies x, y, w, z
    ensures !z.Valid() && z.Linked()
  {
    hide Flat, Links, ChainAt, SpliceSafe, AddKeepsCursor, Apart;
    ghost var e, xs, ys, ws := x.cursor + 1, x.chains, y.chains, w.chains;
    ghost var xi, yi, wi := x.ids, y.ids, w.ids;
    var n := x.totalLen + y.totalLen;
    ApartBack(z.ids, x.ids);
    ApartBack(z.ids, y.ids);
    ApartBack(z.ids, w.ids);
    var _ := x.AddBuffer(y);
    StillApart(x.ids, y.ids, xi, yi, w.ids);
    StillApart(x.ids, y.ids, xi, yi, z.ids);
    xi := x.ids;
    var _ := x.AddBuffer(w);
    StillApart(x.ids, w.ids, xi, wi, z.ids);
    StrandedMove(xs, ys, ws, e, z.chains, z.cursor, z.totalLen);
    var _ := x.RemoveBuffer(z, n);
  }

  /** It happens to new buffers: a short read leaves an empty chain, two buffers of one byte each are appended, and
      three bytes are moved to a fourth buffer. */
  method ShortReadSpoilsMove() returns (z: Evbuffer)
    ensures fresh(z) && z.Linked() && !z.Valid()
  {
    hide Flat, Links;
    z := new Evbuffer();
    var x := new Evbuffer();
    var y := new Evbuffer();
    var w := new Evbuffer();
    var _ := Read(x, 464, 0, Some([1, 2]));
    var _ := Read(x, 500, 0, Some([]));
    var _ := y.Add([3]);
    var _ := w.Add([4]);
    TrailingChainSpoilsMove(x, y, w, z);
  }

  datatype Op =
    | DoAdd(data: seq<Byte>)
    | DoPrepend(data: seq<Byte>)
    | DoDrain(n: nat)
    | DoRemove(n: nat)
    | DoCopyout(n: nat)
    | DoPullup(size: int)
    | DoAddBuffer
    | DoPrependBuffer
    | DoRemoveBuffer(n: nat)
    | DoRead(howmuch: int, fionread: int, arrived: Option<seq<Byte>>)
    | DoFreeze(start: bool, on: bool)

  /** A plain byte sequence with the two freeze flags. */
  datatype Plain = Plain(bytes: seq<Byte>, freezeStart: bool, freezeEnd: bool)

  function Upto(s: seq<Byte>, n: nat): nat {
    if n >= |s| then |s| else n
  }

  /** The operation on plain byte sequences, and the bytes it hands out. `x` is the buffer the
      operation is called on, `y` the other buffer. */
  function Meaning(op: Op, x: Plain, y: Plain): (r: (Plain, Plain, seq<Byte>)) {
    var b := x.bytes;
    match op
    case DoAdd(data) => (if x.freezeEnd then x else x.(bytes := b + data), y, [])
    case DoPrepend(data) => (if x.freezeStart then x else x.(bytes := data + b), y, [])
    case DoDrain(n) => (if x.freezeStart then x else x.(bytes := b[Upto(b, n)..]), y, [])
    case DoRemove(n) => if x.freezeStart then (x, y, []) else (x.(bytes := b[Upto(b, n)..]), y, b[..Upto(b, n)])
    case DoCopyout(n) => (x, y, if x.freezeStart then [] else b[..Upto(b, n)])
    case DoPullup(size) => (x, y, var n := if size < 0 then |b| else size; if 0 < n <= |b| then b[..n] else [])
    case DoAddBuffer =>
      if x.freezeEnd || y.freezeStart then (x, y, []) else (x.(bytes := b + y.bytes), y.(bytes := []), [])
    case DoPrependBuffer =>
      if x.freezeStart || y.freezeStart then (x, y, []) else (x.(bytes := y.bytes + b), y.(bytes := []), [])
    case DoRemoveBuffer(n) =>
      if y.freezeEnd || x.freezeStart then (x, y, [])
      else (x.(bytes := b[Upto(b, n)..]), y.(bytes := y.bytes + b[..Upto(b, n)]), [])
    case DoRead(_, _, arrived) => (if x.freezeEnd || arrived.None? then x else x.(bytes := b + arrived.value), y, [])
    case DoFreeze(start, on) => (if start then x.(freezeStart := on) else x.(freezeEnd := on), y, [])
  }

  ghost function View(e: Evbuffer): Plain
    reads e
  {
    Plain(e.Contents(), e.freezeStart, e.freezeEnd)
  }

  /** The bytes handed out by a run; on each step `onFirst[i]` says which of the two buffers is called. */
  ghost function RunMeaning(ops: seq<Op>, onFirst: seq<bool>, x: Plain, y: Plain): (Plain, Plain, seq<seq<Byte>>)
    requires |ops| == |onFirst|
  {
    if ops == [] then (x, y, []) else
      var n := |ops| - 1;
      var (x1, y1, outs) := RunMeaning(ops[..n], onFirst[..n], x, y);
      if onFirst[n] then
        var (x2, y2, out) := Meaning(ops[n], x1, y1);
        (x2, y2, outs + [out])
      else
        var (y2, x2, out) := Meaning(ops[n], y1, x1);
        (x2, y2, outs + [out])
  }

  /** At most as many bytes arrive as were asked for. */
  ghost predicate Sensible(op: Op) {
    op.DoRead? && op.arrived.Some? ==> |op.arrived.value| <= Clipped(op.howmuch, op.fionread)
  }

  /** The operations on one buffer that do not depend on where empty chains are. */
  method StepAlone(op: Op, x: Evbuffer, ghost y: Plain) returns (out: seq<Byte>)
    requires x.Valid() && Sensible(op)
    requires !op.DoAdd? && !op.DoAddBuffer? && !op.DoPrependBuffer? && !op.DoRemoveBuffer?
    modifies x
    ensures x.Valid() && x.OwnChains() && (old(x.Tight()) && !op.DoRead? ==> x.Tight())
    ensures (View(x), y, out) == Meaning(op, old(View(x)), y)
  {
    hide Flat, Data, Links;
    out := [];
    ghost var b := x.Contents();
    assert b[0..] == b && b[..0] == [] && b[|b|..] == [] && b[..|b|] == b;
    match op {
      case DoPrepend(data) => var _ := x.Prepend(data);
      case DoDrain(n) => var _ := x.Drain(n);
      case DoRemove(n) =>
        var r;
        r, out := x.Remove(n);
        assert r != -1 ==> out == b[..|out|] && x.Contents() == b[|out|..];
      case DoCopyout(n) =>
        var r;
        r, out := x.Copyout(n);
      case DoPullup(size) =>
        var ok := x.Pullup(size);
        if ok {
          FlatUnfold(x.chains);
          out := Data(x.chains[0])[..if size < 0 then x.totalLen else size];
          assert out == b[..|out|];
        }
      case DoRead(howmuch, fionread, arrived) =>
        assert b + [] == b;
        var _ := Read(x, howmuch, fionread, arrived);
      case DoFreeze(start, on) =>
        if start { x.freezeStart := on; } else { x.freezeEnd := on; }
    }
  }

  /** The operations that do not depend on where empty chains are. */
  method StepLoose(op: Op, x: Evbuffer, y: Evbuffer) returns (out: seq<Byte>)
    requires x != y && x.Valid() && y.Valid() && Apart(x.ids, y.ids) && Sensible(op)
    requires !op.DoAdd? && !op.DoRemoveBuffer?
    modifies x, y
    ensures x.Valid() && y.Valid() && Apart(x.ids, y.ids)
    ensures old(x.Tight()) && old(y.Tight()) && !op.DoRead? ==> x.Tight() && y.Tight()
    ensures (View(x), View(y), out) == Meaning(op, old(View(x)), old(View(y)))
  {
    hide Flat, Data, Links;
    out := [];
    ghost var b, c := x.Contents(), y.Contents();
    if op.DoAddBuffer? {
      var _ := x.AddBuffer(y);
      assert c == [] ==> b + c == b;
    } else if op.DoPrependBuffer? {
      var _ := x.PrependBuffer(y);
      assert c == [] ==> c + b == b;
    } else {
      out := StepAlone(op, x, View(y));
    }
  }

  /** One operation of a run on tight buffers. */
  method Step(op: Op, x: Evbuffer, y: Evbuffer) returns (out: seq<Byte>)
    requires x != y && x.Valid() && y.Valid() && x.Tight() && y.Tight() && Apart(x.ids, y.ids) && !op.DoRead?
    modifies x, y
    ensures x.Valid() && y.Valid() && x.Tight() && y.Tight() && Apart(x.ids, y.ids)
    ensures (View(x), View(y), out) == Meaning(op, old(View(x)), old(View(y)))
  {
    hide Flat, Data, Links;
    out := [];
    ApartBack(x.ids, y.ids);
    if op.DoAdd? {
      var _ := x.Add(op.data);
    } else if op.DoRemoveBuffer? {
      ghost var b, c := x.Contents(), y.Contents();
      assert c + [] == c && b[0..] == b && b[..0] == [];
      var _ := x.RemoveBuffer(y, op.n);
      ApartBack(y.ids, x.ids);
    } else {
      out := StepLoose(op, x, y);
    }
  }

  /** Every run of the operations without evbuffer_read refines the same run on two byte sequences. */
  method Run(ops: seq<Op>, onFirst: seq<bool>, x: Evbuffer, y: Evbuffer) returns (outs: seq<seq<Byte>>)
    requires |ops| == |onFirst| && forall i :: 0 <= i < |ops| ==> !ops[i].DoRead?
    requires x != y && x.Valid() && y.Valid() && x.Tight() && y.Tight() && Apart(x.ids, y.ids)
    modifies x, y
    ensures x.Valid() && y.Valid() && x.Tight() && y.Tight() && Apart(x.ids, y.ids)
    ensures (View(x), View(y), outs) == RunMeaning(ops, onFirst, old(View(x)), old(View(y)))
  {
    hide Meaning, Flat, Links, Apart;
    outs := [];
    for i := 0 to |ops|
      invariant x.Valid() && y.Valid() && x.Tight() && y.Tight() && Apart(x.ids, y.ids)
      invariant (View(x), View(y), outs) == RunMeaning(ops[..i], onFirst[..i], old(View(x)), old(View(y)))
    {
      assert ops[..i + 1][..i] == ops[..i] && onFirst[..i + 1][..i] == onFirst[..i];
      var out;
      if onFirst[i] {
        out := Step(ops[i], x, y);
      } else {
        ApartBack(x.ids, y.ids);
        out := Step(ops[i], y, x);
        ApartBack(y.ids, x.ids);
      }
      outs := outs + [out];
    }
    assert ops[..|ops|] == ops && onFirst[..|ops|] == onFirst;
  }

  /** So does every run with evbuffer_read that leaves out evbuffer_add and evbuffer_remove_buffer. */
  method RunLoose(ops: seq<Op>, onFirst: seq<bool>, x: Evbuffer, y: Evbuffer) returns (outs: seq<seq<Byte>>)
    requires |ops| == |onFirst|
    requires forall i :: 0 <= i < |ops| ==> !ops[i].DoAdd? && !ops[i].DoRemoveBuffer? && Sensible(ops[i])
    requires x != y && x.Valid() && y.Valid() && Apart(x.ids, y.ids)
    modifies x, y
    ensures x.Valid() && y.Valid() && Apart(x.ids, y.ids)
    ensures (View(x), View(y), outs) == RunMeaning(ops, onFirst, old(View(x)), old(View(y)))
  {
    hide Meaning, Flat, Links, Apart;
    outs := [];
    for i := 0 to |ops|
      invariant x.Valid() && y.Valid() && Apart(x.ids, y.ids)
      invariant (View(x), View(y), outs) == RunMeaning(ops[..i], onFirst[..i], old(View(x)), old(View(y)))
    {
      assert ops[..i + 1][..i] == ops[..i] && onFirst[..i + 1][..i] == onFirst[..i];
      var out;
      if onFirst[i] {
        out := StepLoose(ops[i], x, y);
      } else {
        ApartBack(x.ids, y.ids);
        out := StepLoose(ops[i], y, x);
        ApartBack(y.ids, x.ids);
      }
      outs := outs + [out];
    }
    assert ops[..|ops|] == ops && onFirst[..|ops|] == onFirst;
  }
}
