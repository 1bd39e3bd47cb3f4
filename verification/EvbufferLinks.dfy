/** The pointers of an evbuffer: which chain is which, what last_with_datap points at, and buf->last. */
module EvbufferLinks {
  import opened Wrappers

  /** The address of a chain. */
  class ChainId {
    constructor () {}
  }

  /** last_with_datap points at &buf->first, or at the next pointer of a chain. */
  datatype Datap = First | NextOf(chain: ChainId)

  /** In a list of n chains with these addresses, the cursor points at the pointer to chain k (or behind the last), and
      `last` is the final chain. */
  ghost predicate Links(ids: seq<ChainId>, n: nat, k: nat, datap: Datap, last: Option<ChainId>) {
    && |ids| == n && NoDup(ids) && k <= n
    && datap == (if k == 0 then First else NextOf(ids[k - 1]))
    && last == (if n == 0 then None else Some(ids[n - 1]))
  }

  /** Where a chain stands in the list. */
  function Position(ids: seq<ChainId>, id: ChainId): (i: nat)
    requires id in ids
    ensures i < |ids| && ids[i] == id
  {
    if ids[0] == id then 0 else 1 + Position(ids[1..], id)
  }

  lemma {:induction false} PositionIs(ids: seq<ChainId>, i: nat)
    requires NoDup(ids) && i < |ids|
    ensures ids[i] in ids && Position(ids, ids[i]) == i
  {
  }

  /** *last_with_datap: the chain that the cursor designates, |ids| for NULL. */
  function Where(ids: seq<ChainId>, datap: Datap): (k: nat)
    requires datap.NextOf? ==> datap.chain in ids
    ensures k <= |ids|
  {
    match datap
    case First => 0
    case NextOf(id) => Position(ids, id) + 1
  }

  lemma {:induction false} WhereIs(ids: seq<ChainId>, n: nat, k: nat, datap: Datap, last: Option<ChainId>)
    requires Links(ids, n, k, datap, last)
    ensures datap.NextOf? ==> datap.chain in ids
    ensures Where(ids, datap) == k
  {
    if k > 0 { PositionIs(ids, k - 1); }
  }

  lemma {:induction false} LastIs(ids: seq<ChainId>, n: nat, k: nat, datap: Datap, last: Option<ChainId>)
    requires Links(ids, n, k, datap, last) && n > 0
    ensures last.Some? && last.value in ids && Position(ids, last.value) == n - 1
  {
    PositionIs(ids, n - 1);
  }

  lemma {:induction false} LinksNone()
    ensures Links([], 0, 0, First, None)
  {
  }

  /** One more chain at the end; the cursor goes to it, or stays. */
  lemma {:induction false} LinksAppend(ids: seq<ChainId>, n: nat, k: nat, datap: Datap, last: Option<ChainId>,
                                       id: ChainId)
    requires Links(ids, n, k, datap, last) && id !in ids
    ensures Links(ids + [id], n + 1, k, datap, Some(id))
    ensures n > 0 ==> Links(ids + [id], n + 1, n, NextOf(last.value), Some(id))
  {
  }

  /** The chains from v on replaced by one. */
  lemma {:induction false} LinksReplace(ids: seq<ChainId>, n: nat, k: nat, datap: Datap, last: Option<ChainId>,
                                        v: nat, id: ChainId)
    requires Links(ids, n, k, datap, last) && k <= v <= n && id !in ids
    ensures Links(ids[..v] + [id], v + 1, k, datap, Some(id))
  {
  }

  /** The chains from v on replaced by others. */
  lemma {:induction false} LinksSplice(ids: seq<ChainId>, n: nat, k: nat, datap: Datap, last: Option<ChainId>, v: nat,
                                       more: seq<ChainId>)
    requires Links(ids, n, k, datap, last) && k <= v <= n && NoDup(more) && more != [] && Apart(ids, more)
    ensures Links(ids[..v] + more, v + |more|, k, datap, Some(more[|more| - 1]))
  {
    JoinNoDup(ids[..v], more);
  }

  ghost predicate Apart(a: seq<ChainId>, b: seq<ChainId>) {
    forall d :: d in a ==> d !in b
  }

  lemma {:induction false} JoinNoDup(a: seq<ChainId>, b: seq<ChainId>)
    requires NoDup(a) && NoDup(b) && Apart(a, b)
    ensures NoDup(a + b)
  {
    var s := a + b;
    forall i, j | 0 <= i < j < |s|
      ensures s[i] != s[j]
    {
      if i < |a| <= j { assert s[i] in a && s[j] in b; }
    }
  }

  /** A new first chain: &buf->first becomes its next pointer. */
  lemma {:induction false} LinksPush(ids: seq<ChainId>, n: nat, k: nat, datap: Datap, last: Option<ChainId>,
                                     id: ChainId)
    requires Links(ids, n, k, datap, last) && n > 0 && id !in ids
    ensures Links([id] + ids, n + 1, k + 1, if datap == First then NextOf(id) else datap, last)
  {
    assert ([id] + ids)[k] == if k == 0 then id else ids[k - 1];
  }

  /** APPEND_CHAIN */
  lemma {:induction false} LinksAfter(a: seq<ChainId>, m: nat, j: nat, datapA: Datap, lastA: Option<ChainId>,
                                      b: seq<ChainId>, n: nat, k: nat, datapB: Datap, lastB: Option<ChainId>)
    requires Links(a, m, j, datapA, lastA) && Links(b, n, k, datapB, lastB) && m > 0 && n > 0 && Apart(a, b)
    ensures Links(a + b, m + n, m + k, if datapB == First then NextOf(lastA.value) else datapB, lastB)
  {
    JoinNoDup(a, b);
  }

  /** PREPEND_CHAIN, of b in front of a */
  lemma {:induction false} LinksBefore(a: seq<ChainId>, m: nat, j: nat, datapA: Datap, lastA: Option<ChainId>,
                                       b: seq<ChainId>, n: nat, k: nat, datapB: Datap, lastB: Option<ChainId>)
    requires Links(a, m, j, datapA, lastA) && Links(b, n, k, datapB, lastB) && m > 0 && n > 0 && Apart(b, a)
    ensures Links(b + a, n + m, n + j, if datapA == First then NextOf(lastB.value) else datapA, lastA)
  {
    JoinNoDup(b, a);
  }

  /** The first i chains gone; a cursor that was in one of them, or designated the new first chain, is &buf->first. */
  lemma {:induction false} LinksDrop(ids: seq<ChainId>, n: nat, k: nat, datap: Datap, last: Option<ChainId>, i: nat)
    requires Links(ids, n, k, datap, last) && i < n
    ensures Links(ids[i..], n - i, if k <= i then 0 else k - i, if k <= i then First else datap, last)
  {
  }

  /** The cursor moved to the pointer to chain k. */
  lemma {:induction false} LinksMove(ids: seq<ChainId>, n: nat, k: nat, datap: Datap, last: Option<ChainId>, j: nat)
    requires Links(ids, n, k, datap, last) && j <= n
    ensures Links(ids, n, j, if j == 0 then First else NextOf(ids[j - 1]), last)
  {
  }

  /** The first i chains gathered into one, which may be the first of them. */
  lemma {:induction false} LinksGather(ids: seq<ChainId>, n: nat, k: nat, datap: Datap, last: Option<ChainId>, i: nat,
                                       id: ChainId)
    requires Links(ids, n, k, datap, last) && 0 < i <= n && (id == ids[0] || id !in ids)
    ensures var r := [id] + ids[i..];
            var end := if i == n then Some(id) else last;
            && Links(r, n - i + 1, 0, First, end)
            && (i < n ==> Links(r, n - i + 1, 1, NextOf(id), end))
            && (k > i ==> Links(r, n - i + 1, k - i + 1, datap, end))
            && (k == 1 == i && id == ids[0] ==> Links(r, n - i + 1, 1, datap, end))
  {
    assert forall j :: i <= j < n ==> ids[j] != ids[0];
  }

  lemma {:induction false} LinksLength(ids: seq<ChainId>, n: nat, k: nat, datap: Datap, last: Option<ChainId>)
    requires Links(ids, n, k, datap, last)
    ensures |ids| == n && k <= n && NoDup(ids)
  {
  }

  /** The cursor is the next pointer of chain i exactly if it designates the chain behind it. */
  lemma {:induction false} NextIs(ids: seq<ChainId>, n: nat, k: nat, datap: Datap, last: Option<ChainId>, i: nat)
    requires Links(ids, n, k, datap, last) && i < n
    ensures |ids| == n && (datap == NextOf(ids[i]) <==> k == i + 1)
  {
  }

  lemma {:induction false} LinksFirst(ids: seq<ChainId>, n: nat, k: nat, datap: Datap, last: Option<ChainId>)
    requires Links(ids, n, k, datap, last)
    ensures k == 0 <==> datap == First
  {
  }

  lemma {:induction false} ApartBack(a: seq<ChainId>, b: seq<ChainId>)
    requires Apart(a, b)
    ensures Apart(b, a)
  {
  }

  /** Two lists that were joined have no chain of a third list, if neither had one before. */
  lemma {:induction false} StillApart(a: seq<ChainId>, b: seq<ChainId>, was: seq<ChainId>, more: seq<ChainId>,
                                      other: seq<ChainId>)
    requires Apart(was, other) && Apart(more, other) && forall d :: d in a + b ==> d in was + more
    ensures Apart(a, other) && Apart(other, a)
  {
    forall d | d in a
      ensures d !in other
    {
      assert d in a + b;
    }
  }

  lemma {:induction false} PartsApart(ids: seq<ChainId>, i: nat)
    requires NoDup(ids) && i <= |ids|
    ensures Apart(ids[..i], ids[i..]) && NoDup(ids[..i])
  {
  }
}
