/** One chain of an evbuffer: a fixed block of memory of which the bytes
    [misalign, misalign + off) are data. */
module Chains {
  import opened Bytes

  const MIN_BUFFER_SIZE: nat := 512
  /** sizeof(struct evbuffer_chain) on a 64-bit platform. */
  const EVBUFFER_CHAIN_SIZE: nat := 48
  const MAX_TO_REALIGN_IN_EXPAND: nat := 2048

  datatype Block = Block(buffer: seq<Byte>, misalign: nat, off: nat)

  type Cell = b: Block | b.misalign + b.off <= |b.buffer| && |b.buffer| > 0
    witness Block([0], 0, 0)

  function Data(c: Cell): (d: seq<Byte>)
    ensures |d| == c.off
  {
    c.buffer[c.misalign..c.misalign + c.off]
  }

  /** CHAIN_SPACE_LEN of a mutable chain. */
  function SpaceLen(c: Cell): nat {
    |c.buffer| - c.misalign - c.off
  }

  predicate ShouldRealign(c: Cell, datlen: nat) {
    |c.buffer| - c.off >= datlen && c.off < |c.buffer| / 2 && c.off <= MAX_TO_REALIGN_IN_EXPAND
  }

  /** memcpy: `src` written over `dst` at `at`. */
  function Blit(dst: seq<Byte>, at: nat, src: seq<Byte>): (r: seq<Byte>)
    requires at + |src| <= |dst|
    ensures |r| == |dst| && r[at..at + |src|] == src
    ensures r[..at] == dst[..at] && r[at + |src|..] == dst[at + |src|..]
  {
    dst[..at] + src + dst[at + |src|..]
  }

  /** memmove the data to the start of the block. */
  function Align(c: Cell): (r: Cell)
    ensures Data(r) == Data(c) && r.misalign == 0 && |r.buffer| == |c.buffer|
  {
    Block(Blit(c.buffer, 0, Data(c)), 0, c.off)
  }

  /** memcpy behind the data. */
  function Append(c: Cell, data: seq<Byte>): (r: Cell)
    requires |data| <= SpaceLen(c)
    ensures Data(r) == Data(c) + data
    ensures r.misalign == c.misalign && |r.buffer| == |c.buffer|
  {
    var at := c.misalign + c.off;
    var b := Blit(c.buffer, at, data);
    assert b[c.misalign..at] == Data(c) by {
      assert b[c.misalign..at] == b[..at][c.misalign..];
      assert Data(c) == c.buffer[..at][c.misalign..];
    }
    assert b[c.misalign..at + |data|] == b[c.misalign..at] + b[at..at + |data|];
    Block(b, c.misalign, c.off + |data|)
  }

  /** memcpy in front of the data. */
  function Prepend(c: Cell, data: seq<Byte>): (r: Cell)
    requires |data| <= c.misalign
    ensures Data(r) == data + Data(c)
    ensures r.misalign == c.misalign - |data| && |r.buffer| == |c.buffer|
  {
    var at := c.misalign - |data|;
    var b := Blit(c.buffer, at, data);
    assert b[c.misalign..c.misalign + c.off] == Data(c) by {
      assert b[c.misalign..c.misalign + c.off] == b[c.misalign..][..c.off];
      assert Data(c) == c.buffer[c.misalign..][..c.off];
    }
    assert b[at..c.misalign + c.off] == b[at..c.misalign] + b[c.misalign..c.misalign + c.off];
    Block(b, at, c.off + |data|)
  }

  /** Forget the first n bytes of data. */
  function DropFront(c: Cell, n: nat): (r: Cell)
    requires n <= c.off
    ensures Data(r) == Data(c)[n..] && |r.buffer| == |c.buffer|
  {
    Block(c.buffer, c.misalign + n, c.off - n)
  }

  /** The size of the block the allocator is asked for: doubled until it holds header and data. */
  method AllocationSize(size: nat) returns (toAlloc: nat)
    ensures toAlloc >= size + EVBUFFER_CHAIN_SIZE && toAlloc >= MIN_BUFFER_SIZE
    ensures toAlloc > MIN_BUFFER_SIZE ==>
            MIN_BUFFER_SIZE < size + EVBUFFER_CHAIN_SIZE && toAlloc < 2 * (size + EVBUFFER_CHAIN_SIZE)
  {
    toAlloc := MIN_BUFFER_SIZE;
    while toAlloc < size + EVBUFFER_CHAIN_SIZE
      invariant toAlloc >= MIN_BUFFER_SIZE
      invariant toAlloc > MIN_BUFFER_SIZE ==> toAlloc < 2 * (size + EVBUFFER_CHAIN_SIZE)
      invariant toAlloc > MIN_BUFFER_SIZE ==> MIN_BUFFER_SIZE < size + EVBUFFER_CHAIN_SIZE
    {
      toAlloc := toAlloc * 2;
    }
  }

  /** evbuffer_chain_new */
  method NewChain(size: nat) returns (c: Cell)
    ensures c.misalign == 0 && c.off == 0 && |c.buffer| >= size && |c.buffer| >= MIN_BUFFER_SIZE - EVBUFFER_CHAIN_SIZE
    ensures size <= MIN_BUFFER_SIZE - EVBUFFER_CHAIN_SIZE ==> |c.buffer| == MIN_BUFFER_SIZE - EVBUFFER_CHAIN_SIZE
  {
    var toAlloc := AllocationSize(size);
    c := Block(seq(toAlloc - EVBUFFER_CHAIN_SIZE, _ => 0), 0, 0);
  }

  /** The bytes of a list of chains, in order. */
  ghost function Flat(cells: seq<Cell>): seq<Byte>
  {
    if cells == [] then [] else Data(cells[0]) + Flat(cells[1..])
  }

  lemma {:induction false} FlatUnfold(cells: seq<Cell>)
    requires cells != []
    ensures Flat(cells) == Data(cells[0]) + Flat(cells[1..])
  {
  }

  lemma {:induction false} FlatConcat(a: seq<Cell>, b: seq<Cell>)
    ensures Flat(a + b) == Flat(a) + Flat(b)
  {
    hide Flat;
    if a == [] {
      FlatNil();
      assert a + b == b;
    } else {
      FlatUnfold(a);
      FlatUnfold(a + b);
      FlatConcat(a[1..], b);
      assert (a + b)[1..] == a[1..] + b;
      assert Data(a[0]) + (Flat(a[1..]) + Flat(b)) == Data(a[0]) + Flat(a[1..]) + Flat(b);
    }
  }

  lemma {:induction false} FlatNil()
    ensures Flat([]) == []
  {
  }

  lemma {:induction false} FlatSingle(c: Cell)
    ensures Flat([c]) == Data(c)
  {
    FlatUnfold([c]);
    assert [c][1..] == [];
    FlatNil();
  }

  lemma {:induction false} FlatLast(cells: seq<Cell>, c: Cell)
    ensures Flat(cells + [c]) == Flat(cells) + Data(c)
  {
    hide Flat;
    FlatConcat(cells, [c]);
    FlatSingle(c);
  }

  lemma {:induction false} FlatFirst(c: Cell, cells: seq<Cell>)
    ensures Flat([c] + cells) == Data(c) + Flat(cells)
  {
    hide Flat;
    FlatConcat([c], cells);
    FlatSingle(c);
  }

  /** Cutting the list of chains cuts the bytes at the same place. */
  lemma {:induction false} FlatSplit(cells: seq<Cell>, i: nat)
    requires i <= |cells|
    ensures Flat(cells) == Flat(cells[..i]) + Flat(cells[i..])
  {
    hide Flat;
    assert cells == cells[..i] + cells[i..];
    FlatConcat(cells[..i], cells[i..]);
  }

  /** One chain's data stands between the bytes before it and the bytes after it. */
  lemma {:induction false} FlatAt(cells: seq<Cell>, i: nat)
    requires i < |cells|
    ensures Flat(cells) == Flat(cells[..i]) + Data(cells[i]) + Flat(cells[i + 1..])
    ensures Flat(cells[..i + 1]) == Flat(cells[..i]) + Data(cells[i])
    ensures Flat(cells[i..]) == Data(cells[i]) + Flat(cells[i + 1..])
  {
    hide Flat;
    FlatSplit(cells, i + 1);
    assert cells[..i + 1] == cells[..i] + [cells[i]];
    FlatLast(cells[..i], cells[i]);
    assert cells[i..] == [cells[i]] + cells[i + 1..];
    FlatFirst(cells[i], cells[i + 1..]);
  }

  lemma {:induction false} FlatEmpty(cells: seq<Cell>)
    ensures (forall i :: 0 <= i < |cells| ==> cells[i].off == 0) <==> Flat(cells) == []
  {
    if cells != [] {
      FlatEmpty(cells[1..]);
      if Flat(cells) == [] {
        assert |Data(cells[0])| + |Flat(cells[1..])| == 0;
        forall i | 0 <= i < |cells| ensures cells[i].off == 0 {
          if i > 0 { assert cells[i] == cells[1..][i - 1]; }
        }
      }
    }
  }
}
