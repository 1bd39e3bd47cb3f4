/** Reading into an evbuffer: make room, hand the room out as vectors, commit what arrived. */
module EvbufferRead {
  import opened Bytes
  import opened Chains
  import opened Evbuffers
  import opened Wrappers
  import opened EvbufferLinks

  const NUM_READ_IOVEC: nat := 4

  /** The free memory of a chain, behind its data. */
  function Free(c: Cell): (f: seq<Byte>)
    ensures |f| == SpaceLen(c)
  {
    c.buffer[c.misalign + c.off..]
  }

  /** Room in the n chains from i on. */
  ghost function RoomFrom(cells: seq<Cell>, i: nat, n: nat): nat
    decreases n
  {
    if n == 0 || i >= |cells| then 0 else SpaceLen(cells[i]) + RoomFrom(cells, i + 1, n - 1)
  }

  /** The first chain with room, as the readers compute it from the cursor. */
  function FirstRoom(cells: seq<Cell>, cur: nat): nat
    requires cur < |cells|
  {
    if SpaceLen(cells[cur]) == 0 then cur + 1 else cur
  }

  lemma {:induction false} RoomFromLast(cells: seq<Cell>, i: nat, n: nat)
    requires i + n < |cells|
    ensures RoomFrom(cells, i, n + 1) == RoomFrom(cells, i, n) + SpaceLen(cells[i + n])
    decreases n
  {
    if n > 0 { RoomFromLast(cells, i + 1, n - 1); }
  }

  lemma {:induction false} RoomFromSame(a: seq<Cell>, b: seq<Cell>, i: nat, n: nat)
    requires |a| <= |b| && i + n <= |a|
    requires forall k :: i <= k < i + n ==> SpaceLen(a[k]) == SpaceLen(b[k])
    ensures RoomFrom(a, i, n) == RoomFrom(b, i, n)
    decreases n
  {
    if n > 0 { RoomFromSame(a, b, i + 1, n - 1); }
  }

  lemma {:induction false} RoomFromMono(cells: seq<Cell>, i: nat, m: nat, n: nat)
    requires m <= n
    ensures RoomFrom(cells, i, m) <= RoomFrom(cells, i, n)
    decreases n
  {
    if m > 0 && i < |cells| { RoomFromMono(cells, i + 1, m - 1, n - 1); }
  }

  /** Storing a cell with the same data leaves the bytes alone. */
  lemma {:induction false} FlatSame(cells: seq<Cell>, i: nat, c: Cell)
    requires i < |cells| && Data(c) == Data(cells[i])
    ensures Flat(cells[i := c]) == Flat(cells)
  {
    hide Flat, Data;
    FlatAt(cells, i);
    FlatAt(cells[i := c], i);
    assert cells[i := c][..i] == cells[..i] && cells[i := c][i + 1..] == cells[i + 1..];
  }

  /** The chains are the same, but for where empty ones would put their data. */
  ghost predicate Realigned(was: seq<Cell>, cells: seq<Cell>) {
    && |cells| == |was| && Flat(cells) == Flat(was)
    && forall k :: 0 <= k < |was| ==> cells[k].off == was[k].off && (was[k].off > 0 ==> cells[k] == was[k])
  }

  lemma {:induction false} RealignedKeeps(was: seq<Cell>, cells: seq<Cell>, k: nat, total: nat)
    requires WellKept(was, k, total) && Realigned(was, cells)
    ensures WellKept(cells, k, total)
  {
    hide Flat;
  }

  lemma {:induction false} RealignStep(was: seq<Cell>, cells: seq<Cell>, i: nat)
    requires Realigned(was, cells) && i < |cells| && cells[i].off == 0
    ensures Realigned(was, cells[i := cells[i].(misalign := 0)])
  {
    hide Flat;
    FlatSame(cells, i, cells[i].(misalign := 0));
  }

  /** The search loop of _evbuffer_expand_fast: empty chains are realigned, room is counted. */
  method CountRoom(was: seq<Cell>, cur: nat, datlen: nat, n: nat)
      returns (cells: seq<Cell>, avail: nat, used: nat, enough: bool, ghost first: nat)
    requires cur < |was| && n >= 2 && forall k :: cur < k < |was| ==> was[k].off == 0
    ensures Realigned(was, cells)
    ensures first == FirstRoom(cells, cur) && first + used <= |cells|
    ensures avail == RoomFrom(cells, first, used) && used <= n
    ensures enough <==> avail >= datlen
    ensures !enough && used < n ==> first + used == |cells|
  {
    hide Flat, Realigned;
    cells, avail, used := was, 0, 0;
    var i := cur;
    first := i;
    IsRealigned(was);
    while i < |cells|
      invariant cur <= i <= |cells| == |was| && Realigned(was, cells)
      invariant if i > cur then first == FirstRoom(cells, cur) && avail < datlen else first == i
      invariant first + used == i && avail == RoomFrom(cells, first, used) && used < n
      decreases |cells| - i
    {
      var chain := cells[i];
      SameOff(was, cells, i);
      if chain.off > 0 {
        var space := SpaceLen(chain);
        if space > 0 {
          RoomFromLast(cells, first, used);
          avail := avail + space;
          used := used + 1;
        } else {
          RoomNone(cells, i + 1);
          first := i + 1;
        }
      } else {
        RealignStep(was, cells, i);
        var next := cells[i := chain.(misalign := 0)];
        RoomFromSame(cells, next, first, used);
        cells := next;
        RoomFromLast(cells, first, used);
        avail := avail + |chain.buffer|;
        used := used + 1;
      }
      i := i + 1;
      if avail >= datlen {
        return cells, avail, used, true, first;
      }
      if used == n {
        break;
      }
    }
    enough := false;
  }

  /** _evbuffer_expand_fast: room for datlen bytes in at most n chains, without moving any data. */
  method ExpandFast(buf: Evbuffer, datlen: nat, n: nat)
    requires buf.Valid() && n >= 2
    modifies buf
    ensures buf.Valid() && buf.OwnChains() && buf.Contents() == old(buf.Contents())
    ensures unchanged(buf`freezeStart, buf`freezeEnd)
    ensures buf.chains != [] && (old(buf.Dense()) ==> buf.Dense())
    ensures RoomFrom(buf.chains, FirstRoom(buf.chains, buf.cursor), n) >= datlen
    ensures old(buf.chains) == [] && datlen <= SMALLEST ==>
            |buf.chains| == 1 && buf.chains[0].off == 0 && SpaceLen(buf.chains[0]) == SMALLEST
    ensures old(ShortOf(buf, datlen)) ==> buf.cursor == old(buf.cursor) && Trailed(buf)
  {
    hide Flat, Data, Links;
    FlatNil();
    buf.OnlyIfEmpty();
    if buf.last == None {
      var c := NewChain(datlen);
      FlatSingle(c);
      var id := new ChainId();
      var _ := buf.ChainInsert(c, id);
      assert buf.chains == [c];
      RoomFromLast(buf.chains, 0, 0);
      RoomFromMono(buf.chains, 0, 1, n);
    } else {
      ExpandChains(buf, datlen, n);
    }
  }

  /** The same, when there are chains. */
  method ExpandChains(buf: Evbuffer, datlen: nat, n: nat)
    requires buf.Valid() && n >= 2 && buf.chains != []
    modifies buf`chains, buf`ids, buf`lastWithDatap, buf`last, buf`cursor
    ensures buf.Valid() && buf.OwnChains() && buf.Contents() == old(buf.Contents())
    ensures buf.chains != [] && (old(buf.Dense()) ==> buf.Dense())
    ensures RoomFrom(buf.chains, FirstRoom(buf.chains, buf.cursor), n) >= datlen
    ensures old(ShortOf(buf, datlen)) ==> buf.cursor == old(buf.cursor) && Trailed(buf)
  {
    hide Flat, Data, Links;
    WhereIs(buf.ids, |buf.chains|, buf.cursor, buf.lastWithDatap, buf.last);
    ghost var tight, was, total := ShortOf(buf, datlen), buf.chains, buf.totalLen;
    var cells, avail, used, enough, first := CountRoom(buf.chains, Where(buf.ids, buf.lastWithDatap), datlen, n);
    RealignedKeeps(was, cells, buf.cursor, total);
    RoomFromMono(cells, first, used, n);
    if tight { ShortRoom(cells, buf.cursor, first, used, datlen); }
    buf.chains := cells;
    if enough {
      return;
    }
    if used < n {
      var tmp := NewChain(datlen - avail);
      RoomBehind(cells, tmp, buf.cursor, first, used, n);
      HangLast(buf, tmp);
    } else {
      ShortFirst(cells, buf.cursor, first, used, n, datlen);
      ReplaceEmptyChains(buf, datlen, n);
    }
  }

  lemma {:induction false} RoomBehind(cells: seq<Cell>, tmp: Cell, cur: nat, first: nat, used: nat, n: nat)
    requires cur < |cells| && first == FirstRoom(cells, cur) && first + used == |cells| && used < n
    ensures var now := cells + [tmp];
            FirstRoom(now, cur) == first && RoomFrom(now, first, n) >= RoomFrom(cells, first, used) + SpaceLen(tmp)
  {
    var now := cells + [tmp];
    RoomFromSame(cells, now, first, used);
    RoomFromLast(now, first, used);
    RoomFromMono(now, first, used + 1, n);
  }

  /** The capacity of the smallest chain. */
  const SMALLEST: nat := MIN_BUFFER_SIZE - EVBUFFER_CHAIN_SIZE

  /** The cursor's chain is the last, has data, and less room than that. */
  ghost predicate ShortOf(buf: Evbuffer, datlen: nat)
    reads buf
  {
    buf.chains != [] && buf.cursor == |buf.chains| - 1 && buf.chains[buf.cursor].off > 0
    && SpaceLen(buf.chains[buf.cursor]) < datlen
  }

  /** An empty chain with room stands behind the cursor's. */
  ghost predicate Trailed(buf: Evbuffer)
    reads buf
  {
    |buf.chains| > buf.cursor + 1 && SpaceLen(buf.chains[|buf.chains| - 1]) > 0
  }

  lemma {:induction false} ShortRoom(cells: seq<Cell>, cur: nat, first: nat, used: nat, datlen: nat)
    requires cur == |cells| - 1 && first == FirstRoom(cells, cur) && first + used <= |cells|
    requires SpaceLen(cells[cur]) < datlen
    ensures RoomFrom(cells, first, used) < datlen && used <= 1
  {
    if used > 0 { assert RoomFrom(cells, first + 1, used - 1) == 0; }
  }

  lemma {:induction false} ShortFirst(cells: seq<Cell>, cur: nat, first: nat, used: nat, n: nat, datlen: nat)
    requires cur < |cells| && first == FirstRoom(cells, cur) && used == n >= 2 && RoomFrom(cells, first, used) < datlen
    ensures SpaceLen(cells[cur]) < datlen
  {
    RoomFromMono(cells, first, 1, used);
    if first == cur { RoomFromLast(cells, cur, 0); }
  }

  lemma {:induction false} SameOff(was: seq<Cell>, cells: seq<Cell>, i: nat)
    requires Realigned(was, cells) && i < |was|
    ensures |cells| == |was| && cells[i].off == was[i].off
  {
  }

  lemma {:induction false} IsRealigned(cells: seq<Cell>)
    ensures Realigned(cells, cells)
  {
  }

  /** buf->last->next = tmp; buf->last = tmp */
  method HangLast(buf: Evbuffer, tmp: Cell)
    requires buf.Valid() && buf.chains != [] && tmp.off == 0
    modifies buf`chains, buf`ids, buf`last
    ensures buf.Valid() && buf.OwnChains() && buf.chains == old(buf.chains) + [tmp]
    ensures buf.Contents() == old(buf.Contents())
    ensures old(buf.Dense()) ==> buf.Dense()
  {
    hide Flat, Data, Links;
    FlatLast(buf.chains, tmp);
    var id := new ChainId();
    LinksAppend(buf.ids, |buf.chains|, buf.cursor, buf.lastWithDatap, buf.last, id);
    buf.chains, buf.ids, buf.last := buf.chains + [tmp], buf.ids + [id], Some(id);
  }

  /** Replace all empty chains by one chain that is big enough. */
  method ReplaceEmptyChains(buf: Evbuffer, datlen: nat, n: nat)
    requires buf.Valid() && buf.chains != [] && n >= 2
    requires SpaceLen(buf.chains[buf.cursor]) < datlen
    modifies buf`chains, buf`ids, buf`lastWithDatap, buf`last, buf`cursor
    ensures buf.Valid() && buf.OwnChains() && buf.Contents() == old(buf.Contents())
    ensures buf.chains != [] && (old(buf.Dense()) ==> buf.Dense())
    ensures RoomFrom(buf.chains, FirstRoom(buf.chains, buf.cursor), n) >= datlen
  {
    hide Flat, Data, Links, WellKept, RoomFrom;
    WhereIs(buf.ids, |buf.chains|, buf.cursor, buf.lastWithDatap, buf.last);
    LinksLength(buf.ids, |buf.chains|, buf.cursor, buf.lastWithDatap, buf.last);
    var cur := Where(buf.ids, buf.lastWithDatap);
    ghost var was, total, k := buf.chains, buf.totalLen, buf.cursor;
    EmptyAtFirst(was, k, total);
    var keep := cur + 1;
    var avail := SpaceLen(buf.chains[cur]);
    if buf.chains[cur].off == 0 {
      keep, avail := 0, 0;
    }
    var tmp := NewChain(datlen - avail);
    ReplacedCells(was, k, total, keep, tmp, datlen, n);
    var id := new ChainId();
    LinksReplace(buf.ids, |buf.chains|, buf.cursor, buf.lastWithDatap, buf.last, keep, id);
    LinksFirst(buf.ids, |buf.chains|, buf.cursor, buf.lastWithDatap, buf.last);
    buf.chains, buf.ids, buf.last := buf.chains[..keep] + [tmp], buf.ids[..keep] + [id], Some(id);
    if keep == 0 {
      buf.lastWithDatap := First;
    }
  }

  lemma {:induction false} EmptyAtFirst(cells: seq<Cell>, k: nat, total: nat)
    requires WellKept(cells, k, total) && cells != []
    ensures k < |cells| && (cells[k].off == 0 ==> k == 0)
  {
  }

  lemma {:induction false} ReplacedCells(was: seq<Cell>, k: nat, total: nat, keep: nat, tmp: Cell, datlen: nat, n: nat)
    requires WellKept(was, k, total) && k < |was| && keep == (if was[k].off == 0 then 0 else k + 1) && n >= 2
    requires SpaceLen(was[k]) < datlen
    requires tmp.off == 0 && SpaceLen(tmp) >= datlen - (if keep == 0 then 0 else SpaceLen(was[k]))
    ensures var r := was[..keep] + [tmp];
            && WellKept(r, k, total) && Flat(r) == Flat(was)
            && k < |r| && RoomFrom(r, FirstRoom(r, k), n) >= datlen
            && forall i :: 0 <= i < k ==> r[i] == was[i]
  {
    hide Flat, Data;
    FlatNil();
    var r := was[..keep] + [tmp];
    FlatSplit(was, keep);
    FlatEmpty(was[keep..]);
    FlatLast(was[..keep], tmp);
    var first := FirstRoom(r, k);
    RoomFromLast(r, first, 0);
    if first < keep { RoomFromLast(r, first, 1); }
    RoomFromMono(r, first, keep + 1 - first, n);
  }

  ghost function Sum(lens: seq<nat>): nat
  {
    if lens == [] then 0 else Sum(lens[..|lens| - 1]) + lens[|lens| - 1]
  }

  /** The vectors fit their chains; all but the last fill theirs. */
  ghost predicate VecsFit(cells: seq<Cell>, j: nat, lens: seq<nat>) {
    && j + |lens| <= |cells|
    && (forall v :: 0 <= v < |lens| ==> lens[v] <= SpaceLen(cells[j + v]))
    && (forall v :: 0 <= v < |lens| - 1 ==> lens[v] == SpaceLen(cells[j + v]))
  }

  /** The memory that a list of vector lengths designates, one chain per vector, from chain j on. */
  ghost function VecBytes(cells: seq<Cell>, j: nat, lens: seq<nat>): (m: seq<Byte>)
    requires VecsFit(cells, j, lens)
    ensures |m| == Sum(lens)
    decreases |lens|
  {
    if lens == [] then [] else
      var n := |lens| - 1;
      VecBytes(cells, j, lens[..n]) + Free(cells[j + n])[..lens[n]]
  }

  /** _evbuffer_read_setup_vecs: the chain of the first vector and the vector lengths. */
  method ReadSetupVecs(buf: Evbuffer, howmuch: nat, nVecsAvail: nat, exact: bool)
      returns (first: nat, chainp: Datap, lens: seq<nat>)
    requires buf.Valid() && buf.chains != []
    requires RoomFrom(buf.chains, FirstRoom(buf.chains, buf.cursor), nVecsAvail) >= howmuch
    ensures first == FirstRoom(buf.chains, buf.cursor)
    ensures |lens| <= nVecsAvail && VecsFit(buf.chains, first, lens)
    ensures if exact then Sum(lens) == howmuch else Sum(lens) >= howmuch
    ensures howmuch > 0 ==> lens != []
    ensures Links(buf.ids, |buf.chains|, first, chainp, buf.last)
  {
    hide Flat, Data, Sum, RoomFrom, Links;
    SumNil();
    RoomNone(buf.chains, FirstRoom(buf.chains, buf.cursor));
    var cells := buf.chains;
    WhereIs(buf.ids, |buf.chains|, buf.cursor, buf.lastWithDatap, buf.last);
    LinksLength(buf.ids, |buf.chains|, buf.cursor, buf.lastWithDatap, buf.last);
    first, chainp := Where(buf.ids, buf.lastWithDatap), buf.lastWithDatap;
    LinksMove(buf.ids, |buf.chains|, buf.cursor, buf.lastWithDatap, buf.last, first + 1);
    if SpaceLen(cells[first]) == 0 {
      first, chainp := first + 1, NextOf(buf.ids[first]);
    }
    var chain := first;
    var soFar, i := 0, 0;
    lens := [];
    while i < nVecsAvail && soFar < howmuch
      invariant i == |lens| <= nVecsAvail && chain == first + i
      invariant VecsFit(cells, first, lens)
      invariant soFar == Sum(lens)
      invariant exact ==> soFar <= howmuch
      invariant soFar < howmuch ==> soFar == RoomFrom(cells, first, i)
      invariant soFar < howmuch ==> forall v :: 0 <= v < i ==> lens[v] == SpaceLen(cells[first + v])
    {
      RoomEnds(cells, first, i, nVecsAvail);
      assert chain < |cells|;
      RoomFromLast(cells, first, i);
      var avail := SpaceLen(cells[chain]);
      if avail > howmuch - soFar && exact {
        avail := howmuch - soFar;
      }
      SumLast(lens, avail);
      lens := lens + [avail];
      soFar := soFar + avail;
      chain := chain + 1;
      i := i + 1;
    }
    if i == nVecsAvail && soFar < howmuch {
      assert false;
    }
  }

  /** Past the end of the list there is no more room. */
  lemma {:induction false} RoomEnds(cells: seq<Cell>, j: nat, i: nat, n: nat)
    requires i <= n
    ensures j + i >= |cells| ==> RoomFrom(cells, j, i) == RoomFrom(cells, j, n)
    decreases n
  {
    if i > 0 && j < |cells| { RoomEnds(cells, j + 1, i - 1, n - 1); }
  }

  lemma {:induction false} SumLast(lens: seq<nat>, n: nat)
    ensures Sum(lens + [n]) == Sum(lens) + n
  {
    assert (lens + [n])[..|lens|] == lens;
  }

  lemma {:induction false} RoomNone(cells: seq<Cell>, i: nat)
    ensures RoomFrom(cells, i, 0) == 0
  {
  }

  lemma {:induction false} SumNil()
    ensures Sum([]) == 0
  {
  }

  lemma {:induction false} SumMono(lens: seq<nat>, i: nat)
    requires i <= |lens|
    ensures Sum(lens[..i]) <= Sum(lens)
    ensures i < |lens| ==> Sum(lens[..i + 1]) == Sum(lens[..i]) + lens[i]
    decreases |lens|
  {
    if i < |lens| {
      var n := |lens| - 1;
      assert lens[..i + 1][..i] == lens[..i];
      SumMono(lens[..n], i);
      assert lens[..n][..i] == lens[..i];
    } else {
      assert lens[..i] == lens;
    }
  }

  /** A shorter list of vectors designates a prefix of the memory. */
  lemma {:induction false} VecBytesPrefix(cells: seq<Cell>, j: nat, lens: seq<nat>, i: nat)
    requires VecsFit(cells, j, lens) && i <= |lens|
    ensures VecsFit(cells, j, lens[..i]) && Sum(lens[..i]) <= Sum(lens)
    ensures VecBytes(cells, j, lens)[..Sum(lens[..i])] == VecBytes(cells, j, lens[..i])
    decreases |lens|
  {
    if i < |lens| {
      var n := |lens| - 1;
      VecBytesPrefix(cells, j, lens[..n], i);
      assert lens[..n][..i] == lens[..i];
    } else {
      assert lens[..i] == lens;
    }
  }

  lemma {:induction false} VecBytesSame(a: seq<Cell>, b: seq<Cell>, j: nat, lens: seq<nat>)
    requires VecsFit(a, j, lens) && |a| <= |b|
    requires forall k :: j <= k < j + |lens| ==> Free(a[k]) == Free(b[k])
    ensures VecsFit(b, j, lens) && VecBytes(a, j, lens) == VecBytes(b, j, lens)
    decreases |lens|
  {
    assert forall k :: j <= k < j + |lens| ==> SpaceLen(a[k]) == |Free(a[k])| == |Free(b[k])| == SpaceLen(b[k]);
    if lens != [] {
      VecBytesSame(a, b, j, lens[..|lens| - 1]);
    }
  }

  /** chain->off += n: the first n bytes of free memory become data. */
  function Commit(c: Cell, n: nat): (r: Cell)
    requires n <= SpaceLen(c)
    ensures Data(r) == Data(c) + Free(c)[..n] && SpaceLen(r) == SpaceLen(c) - n
    ensures r.off == c.off + n
  {
    Block(c.buffer, c.misalign, c.off + n)
  }

  lemma {:induction false} VecBytesNext(cells: seq<Cell>, j: nat, lens: seq<nat>, i: nat)
    requires VecsFit(cells, j, lens) && i < |lens|
    ensures VecsFit(cells, j, lens[..i]) && VecsFit(cells, j, lens[..i + 1])
    ensures VecBytes(cells, j, lens[..i + 1]) == VecBytes(cells, j, lens[..i]) + Free(cells[j + i])[..lens[i]]
    ensures Sum(lens[..i + 1]) == Sum(lens[..i]) + lens[i] <= Sum(lens)
    ensures VecBytes(cells, j, lens)[..Sum(lens[..i + 1])] == VecBytes(cells, j, lens[..i + 1])
  {
    hide Free;
    assert lens[..i + 1][..i] == lens[..i];
    VecBytesPrefix(cells, j, lens, i + 1);
  }

  /** One commit step: the chain's own data, then what the vectors before it brought, then its share. */
  lemma {:induction false} CommitStep(cells: seq<Cell>, was: seq<Cell>, first: nat, lens: seq<nat>, i: nat, n: nat)
    requires i < |lens| && first + i < |was| == |cells| && VecsFit(was, first, lens[..i])
    requires cells[first + i] == was[first + i] && n <= SpaceLen(was[first + i])
    requires i > 0 ==> was[first + i].off == 0
    requires Flat(cells[..first + i]) == Flat(was[..first + i]) + VecBytes(was, first, lens[..i])
    ensures var c := first + i;
            Flat(cells[c := Commit(cells[c], n)][..c + 1])
            == Flat(was[..c + 1]) + (VecBytes(was, first, lens[..i]) + Free(was[c])[..n])
  {
    hide Flat, Data, Commit, Free, VecBytes, Sum;
    var c := first + i;
    var now := cells[c := Commit(cells[c], n)];
    FlatAt(was, c);
    FlatAt(now, c);
    assert now[..c] == cells[..c];
    SumNil();
    assert Data(was[c]) == [] || VecBytes(was, first, lens[..i]) == [];
  }

  /** The last commit step accounts for all k bytes. */
  lemma {:induction false} CommitEnd(cells: seq<Cell>, was: seq<Cell>, first: nat, lens: seq<nat>, i: nat, k: nat)
    requires VecsFit(was, first, lens) && i < |lens| && |cells| == |was|
    requires 0 < k - Sum(lens[..i]) <= lens[i] && k <= Sum(lens)
    requires cells[first + i + 1..] == was[first + i + 1..]
    requires forall m :: first + i < m < |was| ==> was[m].off == 0
    requires VecsFit(was, first, lens[..i])
    requires Flat(cells[..first + i + 1])
          == Flat(was[..first + i + 1])
           + (VecBytes(was, first, lens[..i]) + Free(was[first + i])[..k - Sum(lens[..i])])
    ensures Flat(cells) == Flat(was) + VecBytes(was, first, lens)[..k]
  {
    hide Flat, Data, Commit, Free, VecBytes, Sum;
    var c := first + i + 1;
    FlatSplit(cells, c);
    FlatSplit(was, c);
    FlatEmpty(was[c..]);
    VecBytesNext(was, first, lens, i);
    assert VecBytes(was, first, lens)[..k] == VecBytes(was, first, lens[..i + 1])[..k];
  }

  /** The commit loop of evbuffer_read: k bytes have arrived in the vectors. */
  method CommitRead(buf: Evbuffer, ghost first: nat, chainp0: Datap, lens: seq<nat>, k: nat)
    requires buf.Valid() && buf.chains != [] && first == FirstRoom(buf.chains, buf.cursor)
    requires VecsFit(buf.chains, first, lens) && 0 < k <= Sum(lens)
    requires Links(buf.ids, |buf.chains|, first, chainp0, buf.last)
    modifies buf`chains, buf`lastWithDatap, buf`cursor, buf`totalLen
    ensures buf.Valid()
    ensures buf.Contents() == old(buf.Contents()) + VecBytes(old(buf.chains), first, lens)[..k]
    ensures |buf.chains| == old(|buf.chains|) && buf.cursor < |buf.chains|
    ensures |buf.chains| == 1 && old(buf.chains[0].off) == 0 ==>
            buf.chains[0].off == k && SpaceLen(buf.chains[0]) == old(SpaceLen(buf.chains[0])) - k
  {
    hide Flat, Data, Commit, Free, VecBytes, Sum, Links;
    ghost var was := buf.chains;
    WhereIs(buf.ids, |buf.chains|, first, chainp0, buf.last);
    LinksLength(buf.ids, |buf.chains|, first, chainp0, buf.last);
    var c := Where(buf.ids, chainp0);
    var cells, at, end := CommitVecs(buf.chains, buf.ids, buf.last, c, chainp0, lens, k);
    CommittedKept(was, cells, buf.cursor, buf.totalLen, first, end, k);
    buf.chains, buf.lastWithDatap, buf.cursor := cells, at, end;
    buf.totalLen := buf.totalLen + k;
    if |cells| == 1 {
      FlatSingle(cells[0]);
      FlatSingle(was[0]);
      assert cells == [cells[0]] && was == [was[0]];
      OneChain(was[0], cells[0]);
    }
  }

  /** The loop over the vectors, with the pointer that walks along. */
  method CommitVecs(was: seq<Cell>, ids: seq<ChainId>, ghost last: Option<ChainId>, first: nat, chainp0: Datap,
                    lens: seq<nat>, k: nat)
      returns (cells: seq<Cell>, chainp: Datap, ghost end: nat)
    requires VecsFit(was, first, lens) && 0 < k <= Sum(lens) && Links(ids, |was|, first, chainp0, last)
    requires forall m :: first < m < |was| ==> was[m].off == 0
    ensures Links(ids, |was|, end, chainp, last) && first <= end < |was| == |cells|
    ensures Flat(cells) == Flat(was) + VecBytes(was, first, lens)[..k]
    ensures forall m :: 0 <= m < |was| && (m < first || m > end) ==> cells[m] == was[m]
    ensures cells[end].off > 0 && |cells[end].buffer| == |was[end].buffer| && cells[end].misalign == was[end].misalign
  {
    hide Flat, Data, Commit, Free, VecBytes, Sum, Links;
    cells, chainp := was, chainp0;
    var c, remaining, i := first, k, 0;
    assert lens[..0] == [];
    SumNil();
    assert lens != [];
    VecsFitNone(was, first);
    LinksLength(ids, |was|, first, chainp0, last);
    while true
      invariant i < |lens| && c == first + i && |cells| == |was|
      invariant remaining == k - Sum(lens[..i]) && remaining > 0
      invariant forall m :: 0 <= m < |was| && (m < first || m >= c) ==> cells[m] == was[m]
      invariant VecsFit(was, first, lens[..i])
      invariant Flat(cells[..c]) == Flat(was[..c]) + VecBytes(was, first, lens[..i])
      invariant Links(ids, |was|, c, chainp, last)
      decreases |lens| - i
    {
      var space := SpaceLen(cells[c]);
      var n := if space < remaining then space else remaining;
      CommitStep(cells, was, first, lens, i, n);
      cells := cells[c := Commit(cells[c], n)];
      VecBytesNext(was, first, lens, i);
      if i + 1 == |lens| { assert lens[..i + 1] == lens; }
      if space < remaining {
        remaining := remaining - space;
      } else {
        CommitEnd(cells, was, first, lens, i, k);
        end := c;
        CommitShape(was[c], n);
        return;
      }
      LinksMove(ids, |was|, c, chainp, last, c + 1);
      c, chainp := c + 1, NextOf(ids[c]);
      i := i + 1;
    }
  }

  lemma {:induction false} VecsFitNone(cells: seq<Cell>, first: nat)
    requires first <= |cells|
    ensures VecsFit(cells, first, []) && VecBytes(cells, first, []) == []
  {
  }

  lemma {:induction false} CommitShape(c: Cell, n: nat)
    requires n <= SpaceLen(c)
    ensures |Commit(c, n).buffer| == |c.buffer| && Commit(c, n).misalign == c.misalign && Commit(c, n).off == c.off + n
  {
  }

  lemma {:induction false} OneChain(was: Cell, c: Cell)
    requires |c.buffer| == |was.buffer| && c.misalign == was.misalign
    ensures SpaceLen(c) == SpaceLen(was) - (c.off - was.off)
  {
  }

  lemma {:induction false} CommittedKept(was: seq<Cell>, cells: seq<Cell>, k0: nat, total: nat, first: nat, end: nat,
                                         k: nat)
    requires WellKept(was, k0, total) && k0 <= first <= end < |was| == |cells| && |Flat(cells)| == |Flat(was)| + k
    requires forall m :: 0 <= m < |was| && (m < first || m > end) ==> cells[m] == was[m]
    requires cells[end].off > 0
    ensures WellKept(cells, end, total + k)
  {
    hide Flat;
  }

  /** The kernel's part of readv: bytes stored into a chain's free memory. */
  function Store(c: Cell, piece: seq<Byte>): (r: Cell)
    requires |piece| <= SpaceLen(c)
    ensures Data(r) == Data(c) && SpaceLen(r) == SpaceLen(c) && r.off == c.off
    ensures Free(r)[..|piece|] == piece
  {
    var at := c.misalign + c.off;
    var b := Blit(c.buffer, at, piece);
    assert b[c.misalign..at] == b[..at][c.misalign..];
    assert Data(c) == c.buffer[..at][c.misalign..];
    assert b[at..][..|piece|] == b[at..at + |piece|];
    Block(b, c.misalign, c.off)
  }

  /** readv: the data fills the vectors in order. Data already in the buffer is not touched. */
  method Readv(buf: Evbuffer, ghost first: nat, chainp: Datap, lens: seq<nat>, data: seq<Byte>)
    requires buf.Valid() && buf.chains != [] && first == FirstRoom(buf.chains, buf.cursor)
    requires VecsFit(buf.chains, first, lens) && |data| <= Sum(lens)
    requires Links(buf.ids, |buf.chains|, first, chainp, buf.last)
    modifies buf`chains
    ensures buf.Valid() && buf.Contents() == old(buf.Contents())
    ensures buf.chains != [] && first == FirstRoom(buf.chains, buf.cursor)
    ensures VecsFit(buf.chains, first, lens)
    ensures VecBytes(buf.chains, first, lens)[..|data|] == data
    ensures SameShape(old(buf.chains), buf.chains)
  {
    hide Flat, Data, Commit, Free, VecBytes, Sum, Store, Links;
    WhereIs(buf.ids, |buf.chains|, first, chainp, buf.last);
    ghost var was := buf.chains;
    var cells := FillVecs(buf.chains, Where(buf.ids, chainp), lens, data);
    ShapeKeeps(was, cells, buf.cursor, buf.totalLen);
    buf.chains := cells;
  }

  /** Chains with the same data and as much room. */
  ghost predicate SameShape(was: seq<Cell>, cells: seq<Cell>) {
    && |cells| == |was| && Flat(cells) == Flat(was)
    && forall m :: 0 <= m < |was| ==> SpaceLen(cells[m]) == SpaceLen(was[m]) && cells[m].off == was[m].off
  }

  lemma {:induction false} ShapeKeeps(was: seq<Cell>, cells: seq<Cell>, k: nat, total: nat)
    requires WellKept(was, k, total) && SameShape(was, cells)
    ensures WellKept(cells, k, total)
  {
    hide Flat;
  }

  method FillVecs(was: seq<Cell>, first: nat, lens: seq<nat>, data: seq<Byte>) returns (cells: seq<Cell>)
    requires VecsFit(was, first, lens) && |data| <= Sum(lens)
    ensures SameShape(was, cells) && VecsFit(cells, first, lens)
    ensures VecBytes(cells, first, lens)[..|data|] == data
  {
    hide Flat, Data, Commit, Free, VecBytes, Sum, Store;
    cells := was;
    var i, pos := 0, 0;
    assert lens[..0] == [];
    SumNil();
    VecsFitNone(was, first);
    while i < |lens|
      invariant i <= |lens| && 0 <= pos <= |data| && SameShape(was, cells)
      invariant pos == if |data| <= Sum(lens[..i]) then |data| else Sum(lens[..i])
      invariant VecsFit(cells, first, lens) && VecsFit(cells, first, lens[..i])
      invariant VecBytes(cells, first, lens[..i])[..pos] == data[..pos]
    {
      var n := if |data| - pos < lens[i] then |data| - pos else lens[i];
      var c := first + i;
      var r := Store(cells[c], data[pos..pos + n]);
      ghost var before := cells;
      FlatSame(cells, c, r);
      cells := cells[c := r];
      StoreStep(before, cells, first, lens, i, data, pos, n);
      pos := pos + n;
      i := i + 1;
    }
    assert lens[..i] == lens;
  }

  lemma {:induction false} StoreStep(before: seq<Cell>, cells: seq<Cell>, first: nat, lens: seq<nat>, i: nat,
                                     data: seq<Byte>, pos: nat, n: nat)
    requires i < |lens| && VecsFit(before, first, lens) && VecsFit(before, first, lens[..i])
    requires |cells| == |before| && n <= lens[i] && pos + n <= |data|
    requires cells == before[first + i := cells[first + i]]
    requires SpaceLen(cells[first + i]) == SpaceLen(before[first + i])
    requires Free(cells[first + i])[..n] == data[pos..pos + n]
    requires pos == (if |data| <= Sum(lens[..i]) then |data| else Sum(lens[..i]))
    requires n == if |data| - pos < lens[i] then |data| - pos else lens[i]
    requires VecBytes(before, first, lens[..i])[..pos] == data[..pos]
    ensures VecsFit(cells, first, lens) && VecsFit(cells, first, lens[..i + 1])
    ensures pos + n == if |data| <= Sum(lens[..i + 1]) then |data| else Sum(lens[..i + 1])
    ensures VecBytes(cells, first, lens[..i + 1])[..pos + n] == data[..pos + n]
  {
    hide Flat, Data, Commit, Free, VecBytes, Sum, Store;
    FitSame(before, cells, first, lens);
    VecBytesSame(before, cells, first, lens[..i]);
    VecBytesNext(cells, first, lens, i);
  }

  lemma {:induction false} FitSame(a: seq<Cell>, b: seq<Cell>, j: nat, lens: seq<nat>)
    requires VecsFit(a, j, lens) && |a| == |b|
    requires forall m :: 0 <= m < |a| ==> SpaceLen(b[m]) == SpaceLen(a[m])
    ensures VecsFit(b, j, lens)
  {
  }

  const EVBUFFER_MAX_READ: int := 4096

  /** How much evbuffer_read asks for, when FIONREAD says how much there is. */
  function Clipped(howmuch: int, fionread: int): (r: nat)
    ensures r <= EVBUFFER_MAX_READ && (howmuch >= 0 ==> r <= howmuch) && (0 < fionread ==> r <= fionread)
  {
    var n := if fionread <= 0 || fionread > EVBUFFER_MAX_READ then EVBUFFER_MAX_READ else fionread;
    if howmuch < 0 || howmuch > n then n else howmuch
  }

  /** evbuffer_read. `arrived` is what readv brings, at most what is asked for; None if it fails. The bytes that arrived
      are appended, exactly. */
  method Read(buf: Evbuffer, howmuch0: int, fionread: int, arrived: Option<seq<Byte>>) returns (result: int)
    requires buf.Valid() && (arrived.Some? ==> |arrived.value| <= Clipped(howmuch0, fionread))
    modifies buf
    ensures buf.Valid() && buf.OwnChains() && unchanged(buf`freezeStart) && unchanged(buf`freezeEnd)
    ensures result == if old(buf.freezeEnd) || arrived.None? then -1 else |arrived.value|
    ensures buf.Contents() == if result == -1 then old(buf.Contents()) else old(buf.Contents()) + arrived.value
    ensures !old(buf.freezeEnd) && old(buf.chains) == [] && 0 < result && Clipped(howmuch0, fionread) <= SMALLEST ==>
            buf.Snug() && Short(buf.chains, result)
    ensures !old(buf.freezeEnd) && old(ShortOf(buf, Clipped(howmuch0, fionread))) && result <= 0 ==>
            buf.cursor == old(buf.cursor) && Trailed(buf)
  {
    hide Flat, Data, Commit, Free, VecBytes, Sum, Store, Links, RoomFrom;
    if buf.freezeEnd {
      return -1;
    }
    var howmuch := Clipped(howmuch0, fionread);
    ExpandFast(buf, howmuch, NUM_READ_IOVEC);
    var first, chainp, lens := ReadSetupVecs(buf, howmuch, NUM_READ_IOVEC, true);
    if arrived.None? {
      return -1;
    }
    var data := arrived.value;
    if data == [] {
      assert old(buf.Contents()) + data == old(buf.Contents());
      return 0;
    }
    Readv(buf, first, chainp, lens, data);
    CommitRead(buf, first, chainp, lens, |data|);
    result := |data|;
  }

  /** One chain, the smallest, with so many bytes at its start. */
  ghost predicate Short(chains: seq<Cell>, n: nat) {
    |chains| == 1 && chains[0].off == n && SpaceLen(chains[0]) == SMALLEST - n
  }
}
