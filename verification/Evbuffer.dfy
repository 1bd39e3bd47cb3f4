/** The evbuffer: a list of chains with a cursor, behaving as one byte sequence. */
module Evbuffers {
  import opened Bytes
  import opened Chains
  import opened Wrappers
  import opened EvbufferLinks

  const EVBUFFER_CHAIN_MAX_AUTO_SIZE: nat := 4096

  ghost predicate WellKept(chains: seq<Cell>, lastWithDatap: nat, totalLen: nat) {
    && totalLen == |Flat(chains)|
    && (if chains == [] then lastWithDatap == 0 else lastWithDatap < |chains|)
    && (lastWithDatap > 0 ==> chains[lastWithDatap].off > 0)
    && forall i :: lastWithDatap < i < |chains| ==> chains[i].off == 0
  }

  /** When putting a chain with data in place of chains[v..] leaves the list well kept. */
  lemma {:induction false} InsertVerdict(chains: seq<Cell>, k: nat, tmp: Cell, v: nat)
    requires k < |chains| && k <= v <= |chains| && tmp.off > 0
    requires forall i :: k <= i < v ==> chains[i].off > 0
    requires v < |chains| ==> chains[v].off == 0
    ensures var r := chains[..v] + [tmp];
            && (WellKept(r, if v == |chains| then v else k, |Flat(chains)| + tmp.off)
                <==> v == |chains| || (v == k && Flat(chains[v..]) == []))
            && Flat(r) == Flat(chains[..v]) + Data(tmp)
    ensures Flat(chains) == Flat(chains[..v]) + Flat(chains[v..])
    ensures v == |chains| ==> Flat(chains[v..]) == []
  {
    hide Flat, Data;
    var r := chains[..v] + [tmp];
    FlatLast(chains[..v], tmp);
    FlatSplit(chains, v);
    if v == |chains| {
      assert chains[v..] == [];
      FlatNil();
    } else {
      assert r[v].off > 0;
    }
  }

  /** Does evbuffer_add of n bytes keep the cursor right? It writes into buf->last, which is not the
      cursor's chain if empty chains trail it. */
  ghost predicate AddKeepsCursor(chains: seq<Cell>, k: nat, n: nat) {
    n == 0 || |chains| <= k + 1 ||
    var last, cur := chains[|chains| - 1], chains[k];
    && SpaceLen(last) < n && !ShouldRealign(last, n)
    && if SpaceLen(last) > 0 then k == |chains| - 2 && cur.off > 0 else cur.off == 0
  }

  /** When the bytes fit into the last chain, or it is realigned for them. */
  lemma {:induction false} AddInPlace(chains: seq<Cell>, k: nat, n: nat)
    requires chains != []
    ensures var last := chains[|chains| - 1];
            SpaceLen(last) >= n || ShouldRealign(last, n) ==>
            (AddKeepsCursor(chains, k, n) <==> n == 0 || |chains| <= k + 1)
    ensures |chains| <= k + 1 ==> AddKeepsCursor(chains, k, n)
  {
    hide ShouldRealign;
  }

  /** The search for empty chains, after the last chain was filled, comes out well exactly then. */
  lemma {:induction false} AddVerdict(was: seq<Cell>, total: nat, chains: seq<Cell>, k: nat, v: nat, n: nat)
    requires was != [] && k < |was| == |chains| && WellKept(was, k, total)
    requires chains[..|was| - 1] == was[..|was| - 1] && SpaceLen(was[|was| - 1]) < n
    requires !ShouldRealign(was[|was| - 1], n)
    requires chains[|was| - 1].off == was[|was| - 1].off + SpaceLen(was[|was| - 1])
    requires k <= v <= |chains|
    requires forall i :: k <= i < v ==> chains[i].off > 0
    requires v < |chains| ==> chains[v].off == 0
    ensures v == |chains| || (v == k && Flat(chains[v..]) == []) <==> AddKeepsCursor(was, k, n)
  {
    hide Flat, Data;
    assert forall i :: 0 <= i < |was| - 1 ==> chains[i] == chains[..|was| - 1][i] == was[i];
    assert k + 2 < |chains| ==> chains[k + 1].off == 0;
    if v < |chains| {
      FlatEmpty(chains[v..]);
      assert chains[v..][|chains| - 1 - v] == chains[|chains| - 1];
    }
  }

  /** An empty chain stands behind the cursor's, and data behind that. */
  ghost predicate Stuck(chains: seq<Cell>, k: nat, total: nat) {
    total == |Flat(chains)| && k + 1 < |chains| && chains[k + 1].off == 0 && Flat(chains[k + 1..]) != []
  }

  lemma {:induction false} StuckMeans(chains: seq<Cell>, k: nat, total: nat)
    requires Stuck(chains, k, total)
    ensures k + 2 < |chains| && Flat(chains[k + 2..]) != [] && !WellKept(chains, k, total)
  {
    hide Flat, Data;
    FlatAt(chains, k + 1);
    FlatNil();
    FlatEmpty(chains[k + 1..]);
    assert |chains[k + 2..]| == |chains| - k - 2;
  }

  /** More bytes in the last chain. */
  lemma {:induction false} StuckGrows(chains: seq<Cell>, k: nat, total: nat, c: Cell)
    requires Stuck(chains, k, total) && c.off >= chains[|chains| - 1].off
    ensures var n := |chains| - 1; Stuck(chains[..n] + [c], k, |Flat(chains[..n] + [c])|)
  {
    hide Flat, Data;
    StuckMeans(chains, k, total);
    var n := |chains| - 1;
    var r := chains[..n] + [c];
    FlatEmpty(chains[k + 1..]);
    FlatEmpty(r[k + 1..]);
    var i :| 0 <= i < |chains[k + 1..]| && chains[k + 1..][i].off > 0;
    assert r[k + 1..][i].off > 0;
  }

  /** A new chain takes the place of the empty one, and the data behind it is lost. */
  lemma {:induction false} StuckLoses(chains: seq<Cell>, k: nat, total: nat, tmp: Cell, v: nat)
    requires Stuck(chains, k, total) && k <= v <= k + 1
    ensures !WellKept(chains[..v] + [tmp], k, total + tmp.off)
  {
    hide Flat, Data;
    FlatSplit(chains, k + 1);
    FlatSplit(chains[..k + 1], v);
    assert chains[..k + 1][..v] == chains[..v];
    FlatLast(chains[..v], tmp);
  }

  /** The chains that evbuffer_free_trailing_empty_chains leaves: up to the cursor's, or none if there is no data. */
  ghost function Filled(chains: seq<Cell>, k: nat): seq<Cell>
    requires k <= |chains|
  {
    if k < |chains| && chains[k].off > 0 then chains[..k + 1] else chains[..k]
  }

  lemma {:induction false} FilledIs(chains: seq<Cell>, k: nat, total: nat, v: nat)
    requires WellKept(chains, k, total) && k <= v <= |chains|
    requires (forall i :: k <= i < v ==> chains[i].off > 0) && (v < |chains| ==> chains[v].off == 0)
    ensures chains[..v] == Filled(chains, k) && Flat(chains[..v]) == Flat(chains)
    ensures v == k || v == k + 1
  {
    hide Flat, Data;
    FlatSplit(chains, v);
    FlatEmpty(chains[v..]);
    if k + 1 < |chains| { assert chains[k + 1].off == 0; }
  }

  /** Where advance_last_with_data stops. */
  ghost function RunEnd(chains: seq<Cell>, k: nat): (c: nat)
    requires k < |chains|
    ensures k <= c < |chains| && (forall i :: k < i <= c ==> chains[i].off > 0)
    ensures c + 1 < |chains| ==> chains[c + 1].off == 0
    decreases |chains| - k
  {
    if k + 1 < |chains| && chains[k + 1].off > 0 then RunEnd(chains, k + 1) else k
  }

  lemma {:induction false} RunEndIs(chains: seq<Cell>, k: nat, c: nat)
    requires k <= c < |chains| && (forall i :: k < i <= c ==> chains[i].off > 0)
    requires c + 1 < |chains| ==> chains[c + 1].off == 0
    ensures RunEnd(chains, k) == c
  {
    var d := RunEnd(chains, k);
    hide RunEnd;
  }

  /** Chains hung behind the last data, and the cursor advanced: either no data is left behind it, or it is stuck. */
  lemma {:induction false} Spliced(was: seq<Cell>, k: nat, total: nat, moved: seq<Cell>)
    requires WellKept(was, k, total) && moved != []
    ensures var r := Filled(was, k) + moved;
            && k < |r| && Flat(r) == Flat(was) + Flat(moved)
            && var c := RunEnd(r, k);
               if Flat(r[c + 1..]) == [] then WellKept(r, c, total + |Flat(moved)|)
               else Stuck(r, c, total + |Flat(moved)|)
  {
    hide Flat, Data, Filled, RunEnd;
    var kept := Filled(was, k);
    FilledCursor(was, k, total, moved);
    FlatConcat(kept, moved);
    Advanced(kept + moved, k);
    hide WellKept, Stuck;
  }

  lemma {:induction false} FilledCursor(was: seq<Cell>, k: nat, total: nat, moved: seq<Cell>)
    requires WellKept(was, k, total) && moved != []
    ensures total == |Flat(was)| && Flat(Filled(was, k)) == Flat(was)
    ensures var r := Filled(was, k) + moved; k < |r| && (k > 0 ==> r[k].off > 0)
  {
    hide Flat, Data;
    FilledIs(was, k, total, |Filled(was, k)|);
  }

  lemma {:induction false} Advanced(r: seq<Cell>, k: nat)
    requires k < |r| && (k > 0 ==> r[k].off > 0)
    ensures var c := RunEnd(r, k);
            if Flat(r[c + 1..]) == [] then WellKept(r, c, |Flat(r)|) else Stuck(r, c, |Flat(r)|)
  {
    hide Flat, Data;
    var c := RunEnd(r, k);
    hide RunEnd;
    var behind := r[c + 1..];
    FlatEmpty(behind);
    FlatNil();
    assert forall i :: c < i < |r| ==> r[i] == behind[i - c - 1];
  }

  /** The chain in which byte n stands. */
  ghost function ChainAt(chains: seq<Cell>, n: nat): (i: nat)
    ensures i <= |chains|
  {
    if chains == [] || n < chains[0].off then 0 else 1 + ChainAt(chains[1..], n - chains[0].off)
  }

  lemma {:induction false} ChainAtIs(chains: seq<Cell>, n: nat, i: nat)
    requires i < |chains| && |Flat(chains[..i])| <= n < |Flat(chains[..i])| + chains[i].off
    ensures n < |Flat(chains)| && ChainAt(chains, n) == i
    decreases i
  {
    hide Flat, Data;
    FlatAt(chains, i);
    FlatUnfold(chains);
    if i == 0 {
      assert chains[..0] == [];
      FlatNil();
    } else {
      var rest := chains[1..];
      FlatUnfold(chains[..i]);
      assert chains[..i][1..] == rest[..i - 1] && chains[..i][0] == chains[0];
      ChainAtIs(rest, n - chains[0].off, i - 1);
    }
  }

  lemma {:induction false} ChainAtMeans(chains: seq<Cell>, n: nat)
    requires n < |Flat(chains)|
    ensures var i := ChainAt(chains, n);
            && i < |chains| && |Flat(chains[..i])| <= n < |Flat(chains[..i])| + chains[i].off
            && (i == 0 <==> n < chains[0].off)
    decreases |chains|
  {
    hide Flat, Data;
    FlatNil();
    FlatUnfold(chains);
    if n < chains[0].off {
      assert chains[..0] == [];
    } else {
      var rest := chains[1..];
      var j := ChainAt(rest, n - chains[0].off);
      ChainAtMeans(rest, n - chains[0].off);
      FlatUnfold(chains[..j + 1]);
      assert chains[..j + 1][1..] == rest[..j] && chains[..j + 1][0] == chains[0];
    }
  }

  /** The loop of evbuffer_remove_buffer over chains[..i], where byte n stands in chain i, and its cursor. */
  lemma {:induction false} OwnCursor(chains: seq<Cell>, k: nat, i: nat)
    requires i <= k < |chains| && chains[i].off > 0
    ensures Flat(chains[..i]) != [] || !(0 < i == k) <==> k == 0 || Flat(chains[..k]) != []
  {
    hide Flat, Data;
    FlatNil();
    if i < k {
      FlatAt(chains[..k], i);
      assert chains[..k][..i] == chains[..i];
    }
  }

  /** Does hanging whole chains behind a list, and evbuffer_add of n more bytes, keep the cursor right? */
  ghost predicate SpliceSafe(was: seq<Cell>, k: nat, moved: seq<Cell>, n: nat)
    requires k <= |was| && moved != []
  {
    var r := Filled(was, k) + moved;
    k < |r| && Flat(r[RunEnd(r, k) + 1..]) == [] && AddKeepsCursor(r, RunEnd(r, k), n)
  }

  lemma {:induction false} SpliceMeans(was: seq<Cell>, k: nat, moved: seq<Cell>, n: nat)
    requires k <= |was| && moved != [] && k < |Filled(was, k) + moved|
    ensures var r := Filled(was, k) + moved;
            var c := RunEnd(r, k);
            SpliceSafe(was, k, moved, n) <==> Flat(r[c + 1..]) == [] && AddKeepsCursor(r, c, n)
  {
  }

  /** If all the chains have data, the cursor goes to the last of them. */
  lemma {:induction false} AllDataSplices(was: seq<Cell>, k: nat, total: nat, moved: seq<Cell>)
    requires WellKept(was, k, total) && moved != [] && forall i :: 0 <= i < |moved| ==> moved[i].off > 0
    ensures var r := Filled(was, k) + moved;
            && k < |r| && RunEnd(r, k) == |r| - 1 && (forall i :: 0 <= i < k ==> r[i] == was[i])
            && (forall i :: k <= i < |r| ==> r[i].off > 0)
    ensures forall n: nat :: SpliceSafe(was, k, moved, n)
  {
    hide Flat, Data;
    var r := Filled(was, k) + moved;
    var v := |Filled(was, k)|;
    assert k <= v <= k + 1 && k < |r|;
    assert forall i :: v <= i < |r| ==> r[i] == moved[i - v];
    RunEndIs(r, k, |r| - 1);
    assert r[|r| - 1 + 1..] == [];
    FlatNil();
  }

  /** An empty chain among the moved ones, other than the first, stops the cursor. */
  lemma {:induction false} EmptyStops(was: seq<Cell>, k: nat, total: nat, moved: seq<Cell>, e: nat, n: nat)
    requires WellKept(was, k, total) && 0 < e < |moved| && moved[e].off == 0 && Flat(moved[e + 1..]) != []
    ensures !SpliceSafe(was, k, moved, n)
  {
    hide Flat, Data, AddKeepsCursor, RunEnd;
    var kept := Filled(was, k);
    assert k <= |kept| <= k + 1;
    hide Filled, WellKept;
    SpliceMeans(was, k, moved, n);
    hide SpliceSafe;
    StopsThere(kept, moved, k, e);
  }

  lemma {:induction false} StopsThere(kept: seq<Cell>, moved: seq<Cell>, k: nat, e: nat)
    requires k <= |kept| <= k + 1 && 0 < e < |moved| && moved[e].off == 0 && Flat(moved[e + 1..]) != []
    ensures var r := kept + moved; k < |r| && Flat(r[RunEnd(r, k) + 1..]) != []
  {
    hide Flat, Data, RunEnd;
    var r, j := kept + moved, |kept| + e;
    var c := RunEnd(r, k);
    assert r[j] == moved[e];
    assert r[j + 1..] == moved[e + 1..];
    DataBehind(r, c + 1, j + 1);
  }

  lemma {:induction false} DataBehind(chains: seq<Cell>, i: nat, j: nat)
    requires i <= j <= |chains| && Flat(chains[j..]) != []
    ensures Flat(chains[i..]) != []
  {
    hide Flat, Data;
    FlatSplit(chains[i..], j - i);
    assert chains[i..][j - i..] == chains[j..];
  }

  /** Byte n of a list stands behind all of the first chains if these have just n bytes. */
  lemma {:induction false} ChainAtBehind(first: seq<Cell>, more: seq<Cell>)
    requires Flat(more) != []
    ensures ChainAt(first + more, |Flat(first)|) >= |first|
  {
    hide Flat, Data, ChainAt;
    var all := first + more;
    FlatConcat(first, more);
    ChainAtMeans(all, |Flat(first)|);
    var i := ChainAt(all, |Flat(first)|);
    if i < |first| {
      WithinFirst(first, more, i);
    }
  }

  lemma {:induction false} WithinFirst(first: seq<Cell>, more: seq<Cell>, i: nat)
    requires i < |first|
    ensures var all := first + more; |Flat(all[..i])| + all[i].off <= |Flat(first)|
  {
    hide Flat, Data;
    FlatAt(first, i);
    assert (first + more)[..i] == first[..i];
  }

  /** Three lists in a row, the first with an empty chain e; the bytes of the first two move behind another list. */
  lemma {:induction false} StrandedMove(xs: seq<Cell>, ys: seq<Cell>, ws: seq<Cell>, e: nat,
                                        was: seq<Cell>, k: nat, total: nat)
    requires 0 < e < |xs| && xs[e].off == 0 && Flat(ys) != [] && Flat(ws) != [] && WellKept(was, k, total)
    ensures var all := xs + ys + ws;
            var n := |Flat(xs)| + |Flat(ys)|;
            var i := ChainAt(all, n);
            && n < |Flat(all)| && 0 < i && Flat(all[..i]) != [] && |Flat(all[..i])| <= n
            && !SpliceSafe(was, k, all[..i], n - |Flat(all[..i])|)
  {
    hide Flat, Data, ChainAt, SpliceSafe, WellKept;
    var all, n := xs + ys + ws, |Flat(xs)| + |Flat(ys)|;
    FlatConcat(xs, ys);
    FlatConcat(xs + ys, ws);
    ChainAtBehind(xs + ys, ws);
    ChainAtMeans(all, n);
    var i := ChainAt(all, n);
    var moved := all[..i];
    FlatEmpty(ys);
    var j :| 0 <= j < |ys| && ys[j].off > 0;
    FlatEmpty(moved);
    assert moved[|xs| + j] == ys[j];
    FlatEmpty(moved[e + 1..]);
    assert moved[e + 1..][|xs| + j - e - 1] == ys[j];
    EmptyStops(was, k, total, moved, e, n - |Flat(moved)|);
  }

  lemma {:induction false} PrefixOf(a: seq<Byte>, b: seq<Byte>, c: seq<Byte>, n: nat)
    requires n <= |b|
    ensures (a + b + c)[..|a| + n] == a + b[..n]
  {
  }

  class Evbuffer {
    /** The linked list of chains, in order, and their addresses. */
    var chains: seq<Cell>
    var ids: seq<ChainId>
    var lastWithDatap: Datap
    var last: Option<ChainId>
    /** The place in the list of the chain that last_with_datap designates. */
    ghost var cursor: nat
    var totalLen: nat
    var freezeStart: bool
    var freezeEnd: bool

    ghost function Contents(): seq<Byte>
      reads this
    {
      Flat(chains)
    }

    /** last_with_datap points at a pointer of the list, and `last` is its final chain. */
    ghost predicate Linked()
      reads this
    {
      Links(ids, |chains|, cursor, lastWithDatap, last)
    }

    /** The cursor designates the last chain with data, or the first chain if there is no data. */
    ghost predicate Valid()
      reads this
    {
      Linked() && WellKept(chains, cursor, totalLen)
    }

    /** The cursor designates a chain before the last one with data, and evbuffer_chain_insert would free that one. */
    ghost predicate Jammed()
      reads this
    {
      Linked() && Stuck(chains, cursor, totalLen)
    }

    /** No chain was taken over from elsewhere. */
    twostate predicate OwnChains()
      reads this
    {
      forall d :: d in ids ==> d in old(ids) || fresh(d)
    }

    /** No empty chain trails the cursor. */
    ghost predicate Snug()
      reads this
    {
      |chains| <= cursor + 1
    }

    /** No empty chain precedes the cursor. */
    ghost predicate Dense()
      reads this
    {
      forall i :: 0 <= i < cursor && i < |chains| ==> chains[i].off > 0
    }

    /** No empty chain, unless the buffer holds no data and has at most one chain. */
    ghost predicate Tight()
      reads this
    {
      Snug() && Dense()
    }

    constructor ()
      ensures Valid() && Tight() && chains == [] && ids == [] && Contents() == [] && !freezeStart && !freezeEnd
    {
      chains, ids, lastWithDatap, last, cursor, totalLen := [], [], First, None, 0, 0;
      freezeStart, freezeEnd := false, false;
    }

    lemma {:induction false} TightMeansNoEmptyChain()
      requires Valid()
      ensures Tight() <==> |chains| <= 1 || forall i :: 0 <= i < |chains| ==> chains[i].off > 0
    {
      if |chains| > 1 {
        assert chains[|chains| - 1].off > 0 ==> cursor == |chains| - 1;
      }
    }

    lemma {:induction false} NoDataBehindCursor(i: nat)
      requires Valid() && cursor < i <= |chains|
      ensures Flat(chains[i..]) == []
    {
      FlatEmpty(chains[i..]);
    }

    lemma {:induction false} CursorBehindFirst()
      requires Valid() && chains != [] && chains[0].off < totalLen
      ensures cursor > 0
    {
      FlatUnfold(chains);
      if cursor == 0 { NoDataBehindCursor(1); }
    }

    /** The place of the first empty chain at or after the cursor. */
    method FirstVictim() returns (v: nat)
      requires Linked() && cursor < |chains|
      ensures cursor <= v <= |chains|
      ensures forall i :: cursor <= i < v ==> chains[i].off > 0
      ensures v < |chains| ==> chains[v].off == 0
    {
      WhereIs(ids, |chains|, cursor, lastWithDatap, last);
      v := Where(ids, lastWithDatap);
      while v < |chains| && chains[v].off != 0
        invariant cursor <= v <= |chains|
        invariant forall i :: cursor <= i < v ==> chains[i].off > 0
      {
        v := v + 1;
      }
    }

    /** evbuffer_chain_insert: append the chain, or put it in place of the empty chains it finds at
        or after the cursor and of everything behind them. */
    method ChainInsert(chain: Cell, id: ChainId) returns (v: nat)
      requires Linked() && id !in ids && if chains == [] then cursor == 0 else cursor < |chains|
      modifies this`chains, this`ids, this`lastWithDatap, this`last, this`cursor, this`totalLen
      ensures Linked() && (forall d :: d in ids ==> d in old(ids) || d == id)
      ensures old(cursor) <= v <= old(|chains|)
      ensures forall i :: old(cursor) <= i < v ==> old(chains)[i].off > 0
      ensures v < old(|chains|) ==> old(chains)[v].off == 0
      ensures chains == old(chains)[..v] + [chain]
      ensures cursor == if v == old(|chains|) && old(|chains|) > 0 && chain.off > 0 then v else old(cursor)
      ensures totalLen == old(totalLen) + chain.off
    {
      hide Links;
      WhereIs(ids, |chains|, cursor, lastWithDatap, last);
      LinksAppend(ids, |chains|, cursor, lastWithDatap, last, id);
      if Where(ids, lastWithDatap) == |chains| {
        v := 0;
        chains, ids := chains + [chain], ids + [id];
      } else {
        v := FirstVictim();
        LinksReplace(ids, |chains|, cursor, lastWithDatap, last, v, id);
        LastIs(ids, |chains|, cursor, lastWithDatap, last);
        if v == |chains| {
          if chain.off > 0 {
            lastWithDatap, cursor := NextOf(last.value), |chains|;
          }
          chains, ids := chains + [chain], ids + [id];
        } else {
          chains, ids := chains[..v] + [chain], ids[..v] + [id];
        }
      }
      last := Some(id);
      totalLen := totalLen + chain.off;
    }

    ghost predicate AddSafe(n: nat)
      reads this
    {
      AddKeepsCursor(chains, cursor, n)
    }

    /** Store more bytes into the last chain: chain->off and total_len grow together. */
    method GrowLast(c: Cell, ghost more: seq<Byte>)
      requires (Valid() || Jammed()) && chains != []
      requires Data(c) == Data(chains[|chains| - 1]) + more
      modifies this`chains, this`totalLen
      ensures chains == old(chains)[..|old(chains)| - 1] + [c]
      ensures Contents() == old(Contents()) + more && totalLen == |Contents()|
      ensures Linked() && (old(Valid()) ==> (Valid() <==> more == [] || old(Snug()))) && (old(Jammed()) ==> Jammed())
      ensures old(Dense()) ==> Dense()
    {
      hide Flat, Data, Append, Chains.Prepend, Align, DropFront, Blit, Links;
      if Jammed() { StuckGrows(chains, cursor, totalLen, c); }
      LastIs(ids, |chains|, cursor, lastWithDatap, last);
      var n := Position(ids, last.value);
      FlatAt(chains, n);
      FlatLast(chains[..n], c);
      assert chains[n + 1..] == [];
      FlatNil();
      totalLen := totalLen + c.off - chains[n].off;
      chains := chains[..n] + [c];
      assert chains[n].off == old(chains[n].off) + |more|;
      assert forall k :: 0 <= k < n ==> chains[k] == old(chains)[k];
    }

    /** evbuffer_add: appends the data, and keeps the cursor right exactly if AddSafe. It never puts a cursor right. */
    method Add(data: seq<Byte>) returns (ok: bool)
      requires Valid() || Jammed()
      modifies this
      ensures ok == !old(freezeEnd)
      ensures !ok ==> unchanged(this)
      ensures Linked() && OwnChains()
      ensures ok ==> (Valid() <==> old(Valid()) && old(AddSafe(|data|)))
      ensures ok && old(Valid()) && old(AddSafe(|data|)) ==> Contents() == old(Contents()) + data
      ensures old(Snug()) ==> Snug()
      ensures old(Snug()) && old(Dense()) ==> Dense()
      ensures unchanged(this`freezeStart) && unchanged(this`freezeEnd)
    {
      hide Flat, Data, Append, Chains.Prepend, Align, DropFront, Blit, Links;
      hide AddKeepsCursor, WellKept, Stuck;
      if freezeEnd { return false; }
      OnlyIfEmpty();
      if last == None {
        FirstChain(|data|);
      }
      ok := true;
      AddInPlace(chains, cursor, |data|);
      LastIs(ids, |chains|, cursor, lastWithDatap, last);
      var chain := chains[Position(ids, last.value)];
      var remain := SpaceLen(chain);
      if remain >= |data| {
        GrowLast(Append(chain, data), data);
      } else if ShouldRealign(chain, |data|) {
        GrowLast(Append(Align(chain), data), data);
      } else {
        AddInNewChain(chain, data, remain);
      }
      if Jammed() { StuckMeans(chains, cursor, totalLen); }
    }

    /** The chain that evbuffer_add gives a buffer that has none. */
    method FirstChain(size: nat)
      requires (Valid() || Jammed()) && chains == []
      modifies this`chains, this`ids, this`lastWithDatap, this`last, this`cursor, this`totalLen
      ensures old(Valid()) && old(AddSafe(size))
      ensures Valid() && OwnChains() && Tight() && chains != [] && Contents() == old(Contents())
    {
      hide Flat, Data, Links;
      FlatNil();
      var c := NewChain(size);
      FlatSingle(c);
      var id := new ChainId();
      var _ := ChainInsert(c, id);
      assert chains == [c];
    }

    lemma {:induction false} OnlyIfEmpty()
      requires Linked()
      ensures last == None <==> chains == []
    {
    }

    /** Fill the last chain up. */
    method FillLast(data: seq<Byte>)
      requires (Valid() || Jammed()) && chains != [] && |data| == SpaceLen(chains[|chains| - 1])
      modifies this`chains, this`totalLen
      ensures old(Jammed()) ==> Jammed()
      ensures Linked() && totalLen == |Contents()| && Contents() == old(Contents()) + data
      ensures |chains| == old(|chains|) && chains[..|chains| - 1] == old(chains)[..|chains| - 1]
      ensures chains[|chains| - 1].off == old(chains[|chains| - 1].off) + |data|
      ensures old(Dense()) ==> Dense()
    {
      hide Flat, Data, Append, Chains.Prepend, Align, DropFront, Blit, Links;
      var chain := chains[|chains| - 1];
      if |data| > 0 {
        GrowLast(Append(chain, data), data);
      }
    }

    /** The part of evbuffer_add that fills the last chain and adds another one. */
    method AddInNewChain(chain: Cell, data: seq<Byte>, remain: nat)
      requires (Valid() || Jammed()) && chains != [] && chain == chains[|chains| - 1]
      requires remain == SpaceLen(chain) < |data| && !ShouldRealign(chain, |data|)
      modifies this`chains, this`ids, this`lastWithDatap, this`last, this`cursor, this`totalLen
      ensures Linked() && OwnChains() && (Valid() <==> old(Valid()) && old(AddSafe(|data|)))
      ensures old(Valid()) && old(AddSafe(|data|)) ==> Contents() == old(Contents()) + data
      ensures old(Snug()) ==> Snug()
      ensures old(Snug()) && old(Dense()) ==> Dense()
    {
      hide Flat, Data, Append, Chains.Prepend, Align, DropFront, Blit;
      hide ShouldRealign, AddKeepsCursor, Links;
      var toAlloc := |chain.buffer|;
      if toAlloc <= EVBUFFER_CHAIN_MAX_AUTO_SIZE / 2 { toAlloc := toAlloc * 2; }
      if |data| > toAlloc { toAlloc := |data|; }
      var tmp := NewChain(toAlloc);
      FillLast(data[..remain]);
      tmp := Append(tmp, data[remain..]);
      ghost var all := old(Contents());
      assert data == data[..remain] + data[remain..];
      assert all + data[..remain] + data[remain..] == all + data;
      if old(Jammed()) { StuckMeans(old(chains), old(cursor), old(totalLen)); }
      InsertMore(tmp, old(chains), old(totalLen), |data|, old(Valid()));
    }

    /** The other chain goes behind the filled one, or in place of empty ones and of everything behind them. The list
        was well kept (`kept`) or stuck before. */
    method InsertMore(tmp: Cell, ghost was: seq<Cell>, ghost total: nat, ghost n: nat, ghost kept: bool)
      requires Linked() && totalLen == |Contents()| && tmp.off > 0
      requires was != [] && cursor < |was| == |chains|
      requires if kept then WellKept(was, cursor, total) else Jammed()
      requires chains[..|was| - 1] == was[..|was| - 1] && SpaceLen(was[|was| - 1]) < n
      requires !ShouldRealign(was[|was| - 1], n)
      requires chains[|was| - 1].off == was[|was| - 1].off + SpaceLen(was[|was| - 1])
      modifies this`chains, this`ids, this`lastWithDatap, this`last, this`cursor, this`totalLen
      ensures Linked() && OwnChains() && (Valid() <==> kept && AddKeepsCursor(was, old(cursor), n))
      ensures kept && AddKeepsCursor(was, old(cursor), n) ==> Contents() == old(Contents()) + Data(tmp)
      ensures old(Snug()) ==> Snug()
      ensures old(Snug()) && old(Dense()) ==> Dense()
    {
      hide Flat, Data, ShouldRealign, AddKeepsCursor, Links, WellKept;
      ghost var before, k, all := chains, cursor, totalLen;
      var id := new ChainId();
      var v := ChainInsert(tmp, id);
      if kept {
        AddVerdict(was, total, before, k, v, n);
        InsertVerdict(before, k, tmp, v);
        assert Flat(before[..v]) + [] == Flat(before[..v]);
      } else {
        StuckLoses(before, k, all, tmp, v);
      }
    }

    /** evbuffer_prepend */
    method Prepend(data: seq<Byte>) returns (ok: bool)
      requires Valid()
      modifies this
      ensures Valid() && OwnChains() && (old(Snug()) ==> Snug()) && (old(Dense()) ==> Dense())
      ensures ok == !old(freezeStart)
      ensures Contents() == if ok then data + old(Contents()) else old(Contents())
      ensures unchanged(this`freezeStart) && unchanged(this`freezeEnd)
    {
      hide Flat, Data, Append, Chains.Prepend, Align, DropFront, Blit, Links;
      if freezeStart { return false; }
      if chains == [] {
        var c := NewChain(|data|);
        FlatSingle(c);
        FlatNil();
        var id := new ChainId();
        var v := ChainInsert(c, id);
        assert chains == [c];
      }
      ok := true;
      var chain := chains[0];
      if chain.off == 0 {
        chain := chain.(misalign := |chain.buffer|);
      }
      var datlen := |data|;
      if chain.misalign >= datlen {
        SetFirst(Chains.Prepend(chain, data), data);
        return;
      } else if chain.misalign > 0 {
        datlen := datlen - chain.misalign;
        SetFirst(Chains.Prepend(chain, data[datlen..]), data[datlen..]);
      }
      PushFront(data[..datlen]);
      assert data == data[..datlen] + data[datlen..];
    }

    /** Store more bytes in front of the first chain's data. */
    method SetFirst(c: Cell, ghost more: seq<Byte>)
      requires Valid() && chains != []
      requires Data(c) == more + Data(chains[0])
      modifies this`chains, this`totalLen
      ensures Valid() && |chains| == old(|chains|) && chains[0] == c
      ensures Contents() == more + old(Contents())
      ensures old(Dense()) ==> Dense()
    {
      hide Flat, Data, Append, Chains.Prepend, Align, DropFront, Blit, Links;
      FlatUnfold(chains);
      FlatFirst(c, chains[1..]);
      totalLen := totalLen + c.off - chains[0].off;
      chains := [c] + chains[1..];
    }

    /** The part of evbuffer_prepend that puts a new chain in front of the list. */
    method PushFront(data: seq<Byte>)
      requires Valid() && chains != [] && chains[0].off > 0 && |data| > 0
      modifies this`chains, this`ids, this`totalLen, this`lastWithDatap, this`cursor
      ensures Valid() && OwnChains() && (old(Snug()) ==> Snug()) && (old(Dense()) ==> Dense())
      ensures Contents() == data + old(Contents())
    {
      hide Flat, Data, Append, Chains.Prepend, Align, DropFront, Blit, Links;
      var tmp := NewChain(|data|);
      var id := new ChainId();
      LinksPush(ids, |chains|, cursor, lastWithDatap, last, id);
      if lastWithDatap == First {
        lastWithDatap := NextOf(id);
      }
      cursor := cursor + 1;
      tmp := Chains.Prepend(tmp.(misalign := |tmp.buffer|), data);
      FlatFirst(tmp, chains);
      totalLen := totalLen + |data|;
      chains, ids := [tmp] + chains, [id] + ids;
    }

    /** evbuffer_add_buffer: move all of inbuf to the end of this buffer. */
    method AddBuffer(inbuf: Evbuffer) returns (ok: bool)
      requires Valid() && inbuf.Valid() && (inbuf != this ==> Apart(ids, inbuf.ids))
      modifies this, inbuf
      ensures Valid() && inbuf.Valid() && (inbuf != this ==> Apart(ids, inbuf.ids))
      ensures forall d :: d in ids + inbuf.ids ==> d in old(ids + inbuf.ids)
      ensures ok == (old(inbuf.totalLen) == 0 || inbuf == this || !(old(freezeEnd) || old(inbuf.freezeStart)))
      ensures !ok || inbuf == this ==> Contents() == old(Contents()) && inbuf.Contents() == old(inbuf.Contents())
      ensures ok && inbuf != this ==> Contents() == old(Contents()) + old(inbuf.Contents()) && inbuf.Contents() == []
      ensures ok && inbuf != this && old(totalLen) > 0 && old(inbuf.totalLen) > 0 ==>
              chains == old(chains) + old(inbuf.chains)
      ensures old(Tight()) && old(inbuf.Tight()) ==> Tight() && inbuf.Tight()
      ensures unchanged(this`freezeStart) && unchanged(this`freezeEnd)
      ensures unchanged(inbuf`freezeStart) && unchanged(inbuf`freezeEnd)
    {
      hide Flat, Data, Append, Chains.Prepend, Align, DropFront, Blit;
      if inbuf.totalLen == 0 || inbuf == this {
        return true;
      }
      if freezeEnd || inbuf.freezeStart {
        return false;
      }
      FlatConcat(chains, inbuf.chains);
      FlatNil();
      if totalLen == 0 {
        CopyChain(inbuf);
      } else {
        FlatEmpty(chains);
        AppendChain(inbuf);
      }
      FlatEmpty(inbuf.chains);
      inbuf.ZeroChain();
      ok := true;
    }

    /** ZERO_CHAIN */
    method ZeroChain()
      modifies this`chains, this`ids, this`lastWithDatap, this`last, this`cursor, this`totalLen
      ensures Valid() && chains == [] && ids == [] && totalLen == 0 && Tight()
    {
      LinksNone();
      FlatNil();
      chains, ids, lastWithDatap, last, cursor, totalLen := [], [], First, None, 0, 0;
    }

    /** COPY_CHAIN */
    method CopyChain(src: Evbuffer)
      requires src != this && src.Linked()
      modifies this`chains, this`ids, this`lastWithDatap, this`last, this`cursor, this`totalLen
      ensures Linked() && chains == src.chains && ids == src.ids && cursor == src.cursor && totalLen == src.totalLen
    {
      hide Links;
      chains, ids := src.chains, src.ids;
      if src.lastWithDatap == First {
        lastWithDatap := First;
      } else {
        lastWithDatap := src.lastWithDatap;
      }
      cursor := src.cursor;
      last := src.last;
      totalLen := src.totalLen;
    }

    /** APPEND_CHAIN */
    method AppendChain(src: Evbuffer)
      requires src != this && Linked() && src.Linked() && chains != [] && src.chains != [] && Apart(ids, src.ids)
      modifies this`chains, this`ids, this`lastWithDatap, this`last, this`cursor, this`totalLen
      ensures Linked() && chains == old(chains) + src.chains && ids == old(ids) + src.ids
      ensures cursor == old(|chains|) + src.cursor && totalLen == old(totalLen) + src.totalLen
    {
      hide Links;
      LastIs(ids, |chains|, cursor, lastWithDatap, last);
      LinksAfter(ids, |chains|, cursor, lastWithDatap, last,
                 src.ids, |src.chains|, src.cursor, src.lastWithDatap, src.last);
      if src.lastWithDatap == First {
        lastWithDatap := NextOf(last.value);
      } else {
        lastWithDatap := src.lastWithDatap;
      }
      cursor := |chains| + src.cursor;
      chains, ids := chains + src.chains, ids + src.ids;
      last := src.last;
      totalLen := totalLen + src.totalLen;
    }

    /** PREPEND_CHAIN. It leaves dst->last alone, which is right only if dst has chains. */
    method PrependChain(src: Evbuffer)
      requires src != this && Linked() && src.Linked() && src.chains != [] && Apart(src.ids, ids)
      requires if chains == [] then cursor == 0 else cursor < |chains|
      modifies this`chains, this`ids, this`lastWithDatap, this`cursor, this`totalLen
      ensures old(chains) != [] ==> Linked() && cursor == |src.chains| + old(cursor)
      ensures old(chains) == [] ==> last == None && lastWithDatap == src.lastWithDatap && cursor == src.cursor
      ensures chains == src.chains + old(chains) && ids == src.ids + old(ids)
      ensures totalLen == old(totalLen) + src.totalLen
    {
      hide Links;
      WhereIs(ids, |chains|, cursor, lastWithDatap, last);
      OnlyIfEmpty();
      LastIs(src.ids, |src.chains|, src.cursor, src.lastWithDatap, src.last);
      if Where(ids, lastWithDatap) == |chains| {
        if src.lastWithDatap == First {
          lastWithDatap := First;
        } else {
          lastWithDatap := src.lastWithDatap;
        }
        cursor := src.cursor;
      } else {
        LinksBefore(ids, |chains|, cursor, lastWithDatap, last,
                    src.ids, |src.chains|, src.cursor, src.lastWithDatap, src.last);
        if lastWithDatap == First {
          lastWithDatap := NextOf(src.last.value);
        }
        cursor := |src.chains| + cursor;
      }
      chains, ids := src.chains + chains, src.ids + ids;
      totalLen := totalLen + src.totalLen;
    }

    /** evbuffer_prepend_buffer: move all of inbuf to the front of this buffer. */
    method PrependBuffer(inbuf: Evbuffer) returns (ok: bool)
      requires Valid() && inbuf.Valid() && (inbuf != this ==> Apart(ids, inbuf.ids))
      modifies this, inbuf
      ensures Valid() && inbuf.Valid() && (inbuf != this ==> Apart(ids, inbuf.ids))
      ensures forall d :: d in ids + inbuf.ids ==> d in old(ids + inbuf.ids)
      ensures ok == (old(inbuf.totalLen) == 0 || inbuf == this || !(old(freezeStart) || old(inbuf.freezeStart)))
      ensures !ok || inbuf == this ==> Contents() == old(Contents()) && inbuf.Contents() == old(inbuf.Contents())
      ensures ok && inbuf != this ==> Contents() == old(inbuf.Contents()) + old(Contents()) && inbuf.Contents() == []
      ensures old(Tight()) && old(inbuf.Tight()) ==> Tight() && inbuf.Tight()
      ensures unchanged(this`freezeStart) && unchanged(this`freezeEnd)
      ensures unchanged(inbuf`freezeStart) && unchanged(inbuf`freezeEnd)
    {
      hide Flat, Data, Append, Chains.Prepend, Align, DropFront, Blit;
      if inbuf.totalLen == 0 || inbuf == this {
        return true;
      }
      if freezeStart || inbuf.freezeStart {
        return false;
      }
      FlatConcat(inbuf.chains, chains);
      FlatNil();
      if totalLen == 0 {
        CopyChain(inbuf);
      } else {
        FlatEmpty(chains);
        ApartBack(ids, inbuf.ids);
        PrependChain(inbuf);
      }
      FlatEmpty(inbuf.chains);
      inbuf.ZeroChain();
      ok := true;
    }

    /** evbuffer_drain */
    method Drain(len0: nat) returns (ok: bool)
      requires Valid()
      modifies this
      ensures Valid() && OwnChains() && (old(Snug()) ==> Snug()) && (old(Dense()) ==> Dense())
      ensures ok == (old(totalLen) == 0 || !old(freezeStart))
      ensures Contents() == if !ok then old(Contents())
                            else if len0 >= |old(Contents())| then []
                            else old(Contents())[len0..]
      ensures unchanged(this`freezeStart) && unchanged(this`freezeEnd)
    {
      hide Flat, Data, Append, Chains.Prepend, Align, DropFront, Blit;
      if totalLen == 0 {
        return true;
      }
      if freezeStart {
        return false;
      }
      ok := true;
      if len0 >= totalLen {
        FlatNil();
        ZeroChain();
      } else {
        DrainSome(len0);
      }
    }

    /** The loop of evbuffer_drain that frees chains from the front. */
    method DrainSome(len: nat)
      requires Valid() && len < totalLen
      modifies this`chains, this`ids, this`lastWithDatap, this`cursor, this`totalLen
      ensures Valid() && OwnChains() && (old(Snug()) ==> Snug()) && (old(Dense()) ==> Dense())
      ensures Contents() == old(Contents())[len..]
    {
      hide Flat, Data, Append, Chains.Prepend, Align, DropFront, Blit, Links;
      var remaining: nat, i: nat, datap := len, 0, lastWithDatap;
      ghost var k: int := cursor;
      FlatNil();
      assert chains[..0] == [];
      LinksMove(ids, |chains|, cursor, lastWithDatap, last, cursor);
      while remaining >= chains[i].off
        invariant i <= cursor < |chains| && |Flat(chains[..i])| + remaining == len
        invariant 0 <= k == (if cursor <= i then 0 else cursor) && Links(ids, |chains|, k, datap, last)
        decreases |chains| - i
        modifies {}
      {
        FlatAt(chains, i);
        if i == cursor { NoDataBehindCursor(i + 1); }
        remaining := remaining - chains[i].off;
        WhereIs(ids, |chains|, k, datap, last);
        LinksMove(ids, |chains|, k, datap, last, 0);
        NextIs(ids, |chains|, k, datap, last, i);
        if Where(ids, datap) == i {
          datap, k := First, 0;
        }
        if datap == NextOf(ids[i]) {
          datap, k := First, 0;
        }
        i := i + 1;
      }
      totalLen := totalLen - len;
      DropChains(i, remaining, datap);
    }

    /** Take i whole chains and part of the next one off the front. last_with_datap is `datap`, which no chain that goes
        owns. */
    method DropChains(i: nat, part: nat, datap: Datap)
      requires i <= cursor < |chains| && part < chains[i].off
      requires cursor > 0 ==> chains[cursor].off > 0
      requires forall k :: cursor < k < |chains| ==> chains[k].off == 0
      requires Linked() && Links(ids, |chains|, if cursor <= i then 0 else cursor, datap, last)
      modifies this`chains, this`ids, this`lastWithDatap, this`cursor
      ensures Linked() && ids == old(ids)[i..]
      ensures old(|Flat(chains[..i])|) + part <= old(|Contents()|)
      ensures Flat(chains) == old(Contents())[old(|Flat(chains[..i])|) + part..]
      ensures chains != [] && cursor < |chains|
      ensures (old(Snug()) ==> Snug()) && (old(Dense()) ==> Dense())
      ensures cursor > 0 ==> chains[cursor].off > 0
      ensures forall k :: cursor < k < |chains| ==> chains[k].off == 0
    {
      hide Flat, Data, Append, Chains.Prepend, Align, DropFront, Blit, Links;
      FlatAt(chains, i);
      var c := DropFront(chains[i], part);
      FlatFirst(c, chains[i + 1..]);
      LinksLength(ids, |chains|, cursor, lastWithDatap, last);
      ghost var k := if cursor <= i then 0 else cursor;
      LinksDrop(ids, |chains|, k, datap, last, i);
      LinksFirst(ids, |chains|, k, datap, last);
      lastWithDatap, cursor := datap, if cursor <= i then 0 else cursor - i;
      chains, ids := [c] + chains[i + 1..], ids[i..];
      assert forall k :: 1 <= k < |chains| ==> chains[k] == old(chains)[i + k];
    }

    /** evbuffer_copyout: the number of bytes copied, or -1, and the bytes. */
    method Copyout(datlen0: nat) returns (n: int, out: seq<Byte>)
      requires Valid()
      ensures var want := if datlen0 >= totalLen then totalLen else datlen0;
              if want > 0 && freezeStart then n == -1 && out == [] else n == want && out == Contents()[..want]
    {
      hide Flat, Data, Append, Chains.Prepend, Align, DropFront, Blit;
      var datlen := if datlen0 >= totalLen then totalLen else datlen0;
      out := [];
      if datlen == 0 {
        return 0, out;
      }
      if freezeStart {
        return -1, out;
      }
      n := datlen;
      var i := 0;
      FlatNil();
      assert chains[0..] == chains;
      while datlen > 0 && datlen >= chains[i].off
        invariant i <= |chains| && 0 <= datlen == n - |out| <= |Flat(chains[i..])|
        invariant datlen > 0 ==> i < |chains|
        invariant Contents() == out + Flat(chains[i..])
        decreases |chains| - i
      {
        FlatAt(chains, i);
        out := out + Data(chains[i]);
        datlen := datlen - chains[i].off;
        i := i + 1;
        assert datlen > 0 ==> chains[i..] != [];
      }
      if datlen > 0 {
        FlatAt(chains, i);
        out := out + Data(chains[i])[..datlen];
      }
    }

    /** evbuffer_remove */
    method Remove(datlen: nat) returns (n: int, out: seq<Byte>)
      requires Valid()
      modifies this
      ensures Valid() && OwnChains() && (old(Snug()) ==> Snug()) && (old(Dense()) ==> Dense())
      ensures n == -1 <==> old(freezeStart) && datlen > 0 && old(totalLen) > 0
      ensures n == -1 ==> Contents() == old(Contents()) && out == []
      ensures n != -1 ==> n == (if datlen >= old(totalLen) then old(totalLen) else datlen)
      ensures n != -1 ==> out + Contents() == old(Contents()) && |out| == n
      ensures unchanged(this`freezeStart) && unchanged(this`freezeEnd)
    {
      hide Flat, Data, Append, Chains.Prepend, Align, DropFront, Blit;
      n, out := Copyout(datlen);
      if n > 0 {
        var ok := Drain(n);
        assert ok;
      }
    }

    /** advance_last_with_data */
    method AdvanceLastWithData()
      requires Linked() && (chains == [] || cursor < |chains|)
      modifies this`lastWithDatap, this`cursor
      ensures Linked() && cursor == if chains == [] then old(cursor) else RunEnd(chains, old(cursor))
    {
      hide Links;
      WhereIs(ids, |chains|, cursor, lastWithDatap, last);
      LinksLength(ids, |chains|, cursor, lastWithDatap, last);
      var k := Where(ids, lastWithDatap);
      if k == |chains| { return; }
      while k + 1 < |chains| && chains[k + 1].off > 0
        invariant old(cursor) <= cursor == k < |chains| && Linked()
        invariant forall i :: old(cursor) < i <= cursor ==> chains[i].off > 0
        decreases |chains| - k
      {
        LinksMove(ids, |chains|, cursor, lastWithDatap, last, k + 1);
        lastWithDatap, cursor := NextOf(ids[k]), k + 1;
        k := k + 1;
      }
      RunEndIs(chains, old(cursor), k);
    }

    /** evbuffer_free_trailing_empty_chains: how many chains stay. */
    method LastData() returns (v: nat)
      requires Valid()
      ensures cursor <= v <= |chains| && chains[..v] == Filled(chains, cursor) && |ids| == |chains|
    {
      hide Flat, Links;
      v := 0;
      LinksLength(ids, |chains|, cursor, lastWithDatap, last);
      if chains != [] {
        v := FirstVictim();
      }
      FilledIs(chains, cursor, totalLen, v);
    }

    /** The part of evbuffer_remove_buffer that hangs whole chains behind dst's last data. */
    method TakeChains(moved: seq<Cell>, movedIds: seq<ChainId>, nread: nat)
      requires Valid() && moved != [] && nread == |Flat(moved)|
      requires |movedIds| == |moved| && NoDup(movedIds) && Apart(ids, movedIds)
      modifies this`chains, this`ids, this`lastWithDatap, this`last, this`cursor, this`totalLen
      ensures chains == Filled(old(chains), old(cursor)) + moved
      ensures old(cursor) < |chains| && cursor == RunEnd(chains, old(cursor))
      ensures if Flat(chains[cursor + 1..]) == [] then Valid() else Jammed()
      ensures Contents() == old(Contents()) + Flat(moved)
      ensures (forall i :: 0 <= i < |moved| ==> moved[i].off > 0) ==> Snug() && (old(Dense()) ==> Dense())
      ensures forall d :: d in ids ==> d in old(ids) || d in movedIds
    {
      hide Flat, Data, Append, Chains.Prepend, Align, DropFront, Blit, Links, Filled, Stuck, RunEnd;
      var v := LastData();
      ghost var was, k, total := chains, cursor, totalLen;
      Spliced(was, k, total, moved);
      if forall i :: 0 <= i < |moved| ==> moved[i].off > 0 { AllDataSplices(was, k, total, moved); }
      hide WellKept;
      HangChains(v, moved, movedIds);
      AdvanceLastWithData();
      totalLen := totalLen + nread;
    }

    /** The chains behind the first v give way to these. */
    method HangChains(v: nat, moved: seq<Cell>, movedIds: seq<ChainId>)
      requires Linked() && cursor <= v <= |chains| && moved != []
      requires |movedIds| == |moved| && NoDup(movedIds) && Apart(ids, movedIds)
      modifies this`chains, this`ids, this`last
      ensures Linked() && chains == old(chains)[..v] + moved
      ensures forall d :: d in ids ==> d in old(ids) || d in movedIds
    {
      hide Links;
      LinksLength(ids, |chains|, cursor, lastWithDatap, last);
      LinksSplice(ids, |chains|, cursor, lastWithDatap, last, v, movedIds);
      chains, ids := chains[..v] + moved, ids[..v] + movedIds;
      last := Some(movedIds[|movedIds| - 1]);
    }

    /** The loop of evbuffer_remove_buffer: how many chains can be moved whole, and how many bytes they hold. */
    method WholeChains(datlen0: nat) returns (i: nat, nread: nat, datlen: nat, datap: Datap)
      requires Valid() && datlen0 < totalLen
      ensures i <= cursor < |chains| && datlen < chains[i].off && i == ChainAt(chains, datlen0)
      ensures nread == |Flat(chains[..i])| && nread + datlen == datlen0
      ensures Links(ids, |chains|, if cursor <= i then 0 else cursor, datap, last)
    {
      hide Flat, Data, Append, Chains.Prepend, Align, DropFront, Blit, Links;
      i, nread, datlen, datap := 0, 0, datlen0, lastWithDatap;
      ghost var k := cursor;
      LinksLength(ids, |chains|, cursor, lastWithDatap, last);
      FlatNil();
      assert chains[..0] == [];
      while chains[i].off <= datlen
        invariant i <= cursor < |chains|
        invariant nread == |Flat(chains[..i])| && nread + datlen == datlen0
        invariant k == (if cursor <= i then 0 else cursor) && Links(ids, |chains|, k, datap, last)
        decreases |chains| - i
      {
        FlatAt(chains, i);
        if i == cursor { NoDataBehindCursor(i + 1); }
        nread := nread + chains[i].off;
        datlen := datlen - chains[i].off;
        LinksMove(ids, |chains|, k, datap, last, 0);
        NextIs(ids, |chains|, k, datap, last, i);
        if datap == NextOf(ids[i]) {
          datap, k := First, 0;
        }
        i := i + 1;
      }
      ChainAtIs(chains, datlen0, i);
    }

    /** Does evbuffer_remove_buffer of n bytes leave dst's cursor right? All of this buffer moves; or no whole chain
        with data does, and evbuffer_add of the bytes keeps the cursor right; or the chains before byte n can be
        spliced. */
    ghost predicate MoveSafe(dst: Evbuffer, n: nat)
      requires dst.cursor <= |dst.chains|
      reads this, dst
    {
      n >= |Contents()| ||
      var i := ChainAt(chains, n);
      if Flat(chains[..i]) == [] then dst.AddSafe(n)
      else i > 0 && |Flat(chains[..i])| <= n
           && SpliceSafe(dst.chains, dst.cursor, chains[..i], n - |Flat(chains[..i])|)
    }

    /** Does it leave this buffer's own cursor right? Not if empty chains come first and all data is in the cursor's
        chain, because then the loop over the empty chains resets the cursor although no chain moves. */
    ghost predicate KeepsOwnCursor(n: nat)
      reads this
    {
      n >= totalLen || cursor == 0 || (cursor <= |chains| && Flat(chains[..cursor]) != [])
    }

    /** evbuffer_remove_buffer: move datlen bytes from this buffer to the end of dst. The cursors are right afterwards
        exactly if MoveSafe and KeepsOwnCursor. */
    method RemoveBuffer(dst: Evbuffer, datlen0: nat) returns (result: int)
      requires Valid() && dst.Valid() && (dst != this ==> Apart(dst.ids, ids))
      modifies this, dst
      ensures Linked() && dst.Linked() && (dst != this ==> Apart(dst.ids, ids))
      ensures result == (if datlen0 == 0 || dst == this then 0
                         else if old(dst.freezeEnd) || old(freezeStart) then -1
                         else if datlen0 >= old(totalLen) then old(totalLen) else datlen0)
      ensures result <= 0 ==>
              Valid() && dst.Valid() && Contents() == old(Contents()) && dst.Contents() == old(dst.Contents())
      ensures result > 0 ==> Contents() == old(Contents())[result..]
      ensures result > 0 ==>
              (Valid() <==> old(KeepsOwnCursor(datlen0))) && (dst.Valid() <==> old(MoveSafe(dst, datlen0)))
      ensures result > 0 && old(MoveSafe(dst, datlen0)) ==>
              dst.Contents() == old(dst.Contents()) + old(Contents())[..result]
      ensures old(Tight()) && old(dst.Tight()) ==> Valid() && dst.Valid() && Tight() && dst.Tight()
      ensures unchanged(this`freezeStart) && unchanged(this`freezeEnd)
      ensures unchanged(dst`freezeStart) && unchanged(dst`freezeEnd)
    {
      hide Flat, Data, Append, Chains.Prepend, Align, DropFront, Blit, Links, SpliceSafe;
      if datlen0 == 0 || dst == this {
        return 0;
      }
      if dst.freezeEnd || freezeStart {
        return -1;
      }
      if datlen0 >= totalLen {
        result := totalLen;
        FlatNil();
        var ok := dst.AddBuffer(this);
        return;
      }
      result := datlen0;
      if Tight() && dst.Tight() { DenseMoves(dst, datlen0); }
      RemoveBufferSome(dst, datlen0);
    }

    method RemoveBufferSome(dst: Evbuffer, datlen0: nat)
      requires Valid() && dst.Valid() && dst != this && !dst.freezeEnd && Apart(dst.ids, ids)
      requires datlen0 < totalLen
      modifies this, dst
      ensures Linked() && dst.Linked() && Apart(dst.ids, ids)
      ensures old(Tight()) ==> Tight()
      ensures old(dst.Tight()) && old(Dense()) ==> dst.Tight()
      ensures Contents() == old(Contents())[datlen0..]
      ensures Valid() <==> old(KeepsOwnCursor(datlen0))
      ensures dst.Valid() <==> old(MoveSafe(dst, datlen0))
      ensures old(MoveSafe(dst, datlen0)) ==> dst.Contents() == old(dst.Contents()) + old(Contents())[..datlen0]
      ensures unchanged(this`freezeStart) && unchanged(this`freezeEnd)
      ensures unchanged(dst`freezeStart) && unchanged(dst`freezeEnd)
    {
      hide Flat, Data, Append, Chains.Prepend, Align, DropFront, Blit, Links, AddKeepsCursor, SpliceSafe;
      hide MoveSafe, AddSafe, ChainAt;
      var i, nread, datlen, datap := WholeChains(datlen0);
      ghost var was := ids;
      LinksLength(ids, |chains|, cursor, lastWithDatap, last);
      MoveParts(dst, i, datlen, datlen0);
      MoveWhole(dst, i, nread, datlen);
      CutFront(i, nread, datlen, datap);
      totalLen := totalLen - datlen0;
      PartsApart(was, i);
    }

    /** The bytes that move, and MoveSafe, in terms of the chain where they end. */
    lemma {:induction false} MoveParts(dst: Evbuffer, i: nat, part: nat, n: nat)
      requires Valid() && dst.Valid() && n < totalLen
      requires i < |chains| && part < chains[i].off && i == ChainAt(chains, n) && n == |Flat(chains[..i])| + part
      ensures Contents()[..n] == Flat(chains[..i]) + Data(chains[i])[..part]
      ensures MoveSafe(dst, n) <==> if Flat(chains[..i]) == [] then dst.AddSafe(part)
                                    else i > 0 && SpliceSafe(dst.chains, dst.cursor, chains[..i], part)
    {
      hide Flat, Data, Links, AddKeepsCursor, SpliceSafe, ChainAt;
      FlatAt(chains, i);
      PrefixOf(Flat(chains[..i]), Data(chains[i]), Flat(chains[i + 1..]), part);
    }

    /** What is left of this buffer. If no whole chain had data, src->first does not move, but the cursor may have. */
    method CutFront(i: nat, nread: nat, part: nat, datap: Datap)
      requires Valid() && i <= cursor < |chains| && part < chains[i].off && nread == |Flat(chains[..i])|
      requires Links(ids, |chains|, if cursor <= i then 0 else cursor, datap, last)
      modifies this`chains, this`ids, this`lastWithDatap, this`cursor
      ensures Linked() && ids == if nread > 0 then old(ids)[i..] else old(ids)
      ensures nread + part <= |old(Contents())| && Contents() == old(Contents())[nread + part..]
      ensures WellKept(chains, cursor, |Contents()|) <==> old(cursor) == 0 || old(Flat(chains[..cursor])) != []
      ensures old(Tight()) ==> Tight()
    {
      hide Flat, Data, Links, DropFront;
      OwnCursor(chains, cursor, i);
      FlatNil();
      if nread > 0 {
        DropChains(i, part, datap);
      } else {
        CutChain(i, part, datap);
      }
    }

    /** chain->misalign and chain->off of chain i move, and the cursor is as the loop left it. */
    method CutChain(i: nat, part: nat, datap: Datap)
      requires Valid() && i <= cursor < |chains| && part < chains[i].off && Flat(chains[..i]) == []
      requires Links(ids, |chains|, if cursor <= i then 0 else cursor, datap, last)
      modifies this`chains, this`lastWithDatap, this`cursor
      ensures Linked() && part <= |old(Contents())| && Contents() == old(Contents())[part..]
      ensures WellKept(chains, cursor, |Contents()|) <==> !(0 < i == old(cursor))
      ensures old(Tight()) ==> Tight()
    {
      hide Flat, Data, Links, DropFront;
      FlatAt(chains, i);
      FlatEmpty(chains[..i]);
      var c := DropFront(chains[i], part);
      ghost var r := chains[i := c];
      FlatAt(r, i);
      assert r[..i] == chains[..i] && r[i + 1..] == chains[i + 1..];
      chains := chains[i := c];
      lastWithDatap, cursor := datap, if cursor <= i then 0 else cursor;
    }

    /** With no empty chain before the cursor, this buffer's cursor is always right, and dst's exactly if the first
        chain moves whole or evbuffer_add of the bytes keeps it right. */
    lemma {:induction false} DenseMoves(dst: Evbuffer, n: nat)
      requires Valid() && dst.Valid() && Dense() && n < totalLen
      ensures KeepsOwnCursor(n)
      ensures MoveSafe(dst, n) <==> chains[0].off <= n || dst.AddSafe(n)
    {
      hide Flat, Data, Links, AddKeepsCursor, SpliceSafe;
      var i := ChainAt(chains, n);
      ChainAtMeans(chains, n);
      assert i <= cursor;
      FlatNil();
      if cursor > 0 {
        FlatEmpty(chains[..cursor]);
        assert chains[..cursor][0].off > 0;
      }
      if i > 0 {
        FlatEmpty(chains[..i]);
        assert chains[..i][0].off > 0;
        AllDataSplices(dst.chains, dst.cursor, dst.totalLen, chains[..i]);
      } else {
        assert chains[..0] == [];
      }
    }

    /** The bytes go to dst: whole chains, if there are any with data, and then the rest. */
    method MoveWhole(dst: Evbuffer, i: nat, nread: nat, datlen: nat)
      requires Linked() && dst.Valid() && dst != this && !dst.freezeEnd && Apart(dst.ids, ids)
      requires i < |chains| && datlen < chains[i].off && nread == |Flat(chains[..i])|
      modifies dst
      ensures dst.Linked()
      ensures dst.Valid() <==> if nread == 0 then old(dst.AddSafe(datlen))
                               else i > 0 && SpliceSafe(old(dst.chains), old(dst.cursor), chains[..i], datlen)
      ensures dst.Valid() ==>
              dst.Contents() == old(dst.Contents()) + (Flat(chains[..i]) + Data(chains[i])[..datlen])
      ensures old(dst.Tight()) && (forall k :: 0 <= k < i ==> chains[k].off > 0) ==> dst.Tight()
      ensures forall d :: d in dst.ids ==> d in old(dst.ids) || (nread > 0 && d in ids[..i]) || fresh(d)
      ensures unchanged(dst`freezeStart) && unchanged(dst`freezeEnd)
    {
      hide Flat, Data, Links, Stuck, WellKept, AddKeepsCursor, SpliceSafe, Apart;
      TakeWhole(dst, i, nread, datlen);
      ghost var was, f, d := old(dst.Contents()), Flat(chains[..i]), Data(chains[i])[..datlen];
      assert was + f + d == was + (f + d);
      var _ := dst.Add(Data(chains[i])[..datlen]);
    }

    /** The whole chains, if they have any data. */
    method TakeWhole(dst: Evbuffer, i: nat, nread: nat, ghost n: nat)
      requires Linked() && dst.Valid() && dst != this && Apart(dst.ids, ids)
      requires i < |chains| && nread == |Flat(chains[..i])|
      modifies dst`chains, dst`ids, dst`lastWithDatap, dst`last, dst`cursor, dst`totalLen
      ensures |ids| == |chains| && (dst.Valid() || dst.Jammed())
      ensures dst.Contents() == old(dst.Contents()) + Flat(chains[..i])
      ensures dst.Valid() && dst.AddSafe(n)
              <==> if nread == 0 then old(dst.AddSafe(n))
                   else i > 0 && SpliceSafe(old(dst.chains), old(dst.cursor), chains[..i], n)
      ensures old(dst.Tight()) && (forall k :: 0 <= k < i ==> chains[k].off > 0) ==> dst.Tight()
      ensures forall d :: d in dst.ids ==> d in old(dst.ids) || (nread > 0 && d in ids[..i])
    {
      hide Flat, Data, Links, Filled, RunEnd, Stuck, WellKept, AddKeepsCursor, SpliceSafe;
      LinksLength(ids, |chains|, cursor, lastWithDatap, last);
      LinksLength(dst.ids, |dst.chains|, dst.cursor, dst.lastWithDatap, dst.last);
      PartsApart(ids, i);
      if nread > 0 {
        FlatNil();
        dst.TakeChains(chains[..i], ids[..i], nread);
        SpliceMeans(old(dst.chains), old(dst.cursor), chains[..i], n);
        if dst.Jammed() { StuckMeans(dst.chains, dst.cursor, dst.totalLen); }
      }
    }

    /** evbuffer_pullup: can the first size bytes be handed out as one contiguous run? */
    method Pullup(size0: int) returns (ok: bool)
      requires Valid()
      modifies this`chains, this`ids, this`lastWithDatap, this`last, this`cursor
      ensures Valid() && OwnChains() && Contents() == old(Contents())
      ensures old(Snug()) ==> Snug()
      ensures old(Dense()) ==> Dense()
      ensures var size := if size0 < 0 then totalLen else size0;
              && (ok <==> 0 < size <= totalLen)
              && (ok ==> chains != [] && chains[0].off >= size)
    {
      hide Flat, Data, Append, Chains.Prepend, Align, DropFront, Blit;
      hide Links;
      var size := if size0 < 0 then totalLen else size0;
      if size == 0 || size > totalLen {
        return false;
      }
      FlatNil();
      if chains[0].off < size {
        GatherFront(size);
      }
      ok := true;
    }

    /** The copying loop of evbuffer_pullup: how far it gets, the gathered chain, and the bytes still missing. */
    method Gather(size: nat, start: Cell, i0: nat)
      returns (tmp: Cell, i: nat, need: nat, removedData: bool, removedDatap: bool)
      requires Valid() && i0 <= 1 && i0 <= |chains| && size <= totalLen
      requires |start.buffer| - start.misalign >= size >= start.off
      requires Data(start) == Flat(chains[..i0])
      ensures i0 <= i <= |chains| && need <= SpaceLen(tmp) && tmp.off + need == size
      ensures Data(tmp) == Flat(chains[..i])
      ensures i < |chains| ==> need < chains[i].off
      ensures i == |chains| ==> need == 0
      ensures removedData <==> i0 <= cursor < i
      ensures removedDatap <==> i0 < cursor <= i
    {
      hide Flat, Data, Append, Chains.Prepend, Align, DropFront, Blit;
      hide Links;
      tmp, i, need, removedData, removedDatap := start, i0, size - start.off, false, false;
      WhereIs(ids, |chains|, cursor, lastWithDatap, last);
      LinksLength(ids, |chains|, cursor, lastWithDatap, last);
      var lastWithData := Where(ids, lastWithDatap);
      while i < |chains| && need >= chains[i].off
        invariant i0 <= i <= |chains| && need <= SpaceLen(tmp) && tmp.off + need == size
        invariant Data(tmp) == Flat(chains[..i])
        invariant removedData <==> i0 <= cursor < i
        invariant removedDatap <==> i0 < cursor <= i
      {
        FlatAt(chains, i);
        NextIs(ids, |chains|, cursor, lastWithDatap, last, i);
        if i == lastWithData { removedData := true; }
        if NextOf(ids[i]) == lastWithDatap { removedDatap := true; }
        need := need - chains[i].off;
        tmp := Append(tmp, Data(chains[i]));
        i := i + 1;
      }
      if i == |chains| { assert chains[..i] == chains; }
    }

    /** The part of evbuffer_pullup that is reached when the first chain is too short. */
    method GatherFront(size: nat)
      requires Valid() && chains != [] && chains[0].off < size <= totalLen
      modifies this`chains, this`ids, this`lastWithDatap, this`last, this`cursor
      ensures Valid() && OwnChains() && Contents() == old(Contents())
      ensures old(Snug()) ==> Snug()
      ensures old(Dense()) ==> Dense()
      ensures chains != [] && chains[0].off >= size
    {
      hide Flat, Data, Append, Chains.Prepend, Align, DropFront, Blit;
      hide Links;
      LinksLength(ids, |chains|, cursor, lastWithDatap, last);
      var start, i0, id := chains[0], 1, ids[0];
      FlatNil();
      FlatSingle(start);
      assert chains[..0] == [] && chains[..1] == [start];
      if |start.buffer| - start.misalign < size {
        start := NewChain(size);
        id := new ChainId();
        i0 := 0;
      }
      var tmp, i, need, removedData, removedDatap := Gather(size, start, i0);
      CursorBehindFirst();
      var rest := [];
      FlatSplit(chains, i);
      if i < |chains| {
        FlatAt(chains, i);
        tmp := Append(tmp, Data(chains[i])[..need]);
        rest := [DropFront(chains[i], need)] + chains[i + 1..];
        FlatFirst(rest[0], chains[i + 1..]);
      } else {
        assert chains[i..] == [];
      }
      assert Data(tmp) + Flat(rest) == Contents();
      ReplaceFront(tmp, id, rest, i0, i, removedData, removedDatap);
    }

    /** Put the gathered chain in front of the rest of the list and repair last_with_datap. */
    method ReplaceFront(tmp: Cell, id: ChainId, rest: seq<Cell>, ghost i0: nat, i: nat,
                        removedData: bool, removedDatap: bool)
      requires Valid() && cursor > 0 && i0 <= i <= |chains| && i0 <= 1 && tmp.off > 0
      requires i < |chains| ==>
               chains[i].off > 0 && |rest| == |chains| - i && rest[0].off > 0 && rest[1..] == chains[i + 1..]
      requires i == |chains| ==> rest == []
      requires i > 0
      requires Data(tmp) + Flat(rest) == Contents()
      requires removedData <==> i0 <= cursor < i
      requires removedDatap <==> i0 < cursor <= i
      requires if i0 == 0 then id !in ids else |ids| > 0 && id == ids[0]
      modifies this`chains, this`ids, this`lastWithDatap, this`last, this`cursor
      ensures Valid() && Contents() == old(Contents()) && chains == [tmp] + rest && ids == [id] + old(ids)[i..]
      ensures old(Snug()) ==> Snug()
      ensures old(Dense()) ==> Dense()
    {
      hide Flat, Data, Append, Chains.Prepend, Align, DropFront, Blit, Links;
      FlatFirst(tmp, rest);
      assert removedData ==> i == |chains|;
      assert forall k :: 1 <= k < |rest| ==> rest[k] == rest[1..][k - 1] == chains[i + k];
      LinksGather(ids, |chains|, cursor, lastWithDatap, last, i, id);
      LinksLength(ids, |chains|, cursor, lastWithDatap, last);
      if i == |chains| {
        last := Some(id);
      }
      chains, ids := [tmp] + rest, [id] + ids[i..];
      if removedData {
        lastWithDatap, cursor := First, 0;
      } else if removedDatap {
        var datap := if |chains| > 1 && chains[1].off > 0 then NextOf(ids[0]) else First;
        lastWithDatap, cursor := datap, 1;
      } else {
        // The owner of last_with_datap survives.
        cursor := cursor - i + 1;
      }
    }
  }
}
