/** Searching an evbuffer across chain boundaries, and reading lines out of it. */
module EvbufferSearch {
  import opened Wrappers
  import opened Bytes
  import opened Chains
  import opened Evbuffers

  const CR: Byte := 13
  const LF: Byte := 10
  const CHUNK_SZ: nat := 128

  /** An evbuffer_ptr: the position, the index of its chain and the position in the chain.
      The chain index |chains| stands for NULL; pos is -1 if nothing was found. */
  datatype Ptr = Ptr(pos: int, chain: nat, inChain: nat)

  /** The position lies in the chain, at its start or at its end. */
  ghost predicate PtrOk(chains: seq<Cell>, p: Ptr) {
    && p.chain < |chains| && p.inChain <= chains[p.chain].off
    && p.pos == |Flat(chains[..p.chain])| + p.inChain
  }

  ghost predicate MatchAt(s: seq<Byte>, q: int, what: seq<Byte>) {
    0 <= q && q + |what| <= |s| && s[q..q + |what|] == what
  }

  /** No match starts in [a, b). */
  ghost predicate NoMatch(s: seq<Byte>, a: int, b: int, what: seq<Byte>) {
    forall q :: a <= q < b ==> !MatchAt(s, q, what)
  }

  /** The bytes of chain c, where they are in the whole. */
  lemma {:induction false} ChainBytes(chains: seq<Cell>, c: nat)
    requires c < |chains|
    ensures var base := |Flat(chains[..c])|;
            && base + chains[c].off == |Flat(chains[..c + 1])| <= |Flat(chains)|
            && Flat(chains)[base..base + chains[c].off] == Data(chains[c])
  {
    hide Flat, Data;
    FlatAt(chains, c);
  }

  lemma {:induction false} ChainsEnd(chains: seq<Cell>)
    ensures Flat(chains[..|chains|]) == Flat(chains)
  {
    assert chains[..|chains|] == chains;
  }

  lemma {:induction false} SliceOfSlice(s: seq<Byte>, a: nat, b: nat, from: nat, to: nat)
    requires a <= b <= |s| && from <= to <= b - a
    ensures s[a..b][from..to] == s[a + from..a + to]
  {
    forall i | 0 <= i < to - from
      ensures s[a..b][from..to][i] == s[a + from..a + to][i]
    {
      assert s[a..b][from..to][i] == s[a..b][from + i] == s[a + from + i];
    }
  }

  /** A run of bytes inside chain c is the same run of the whole. */
  lemma {:induction false} ChainSlice(chains: seq<Cell>, c: nat, from: nat, to: nat)
    requires c < |chains| && from <= to <= chains[c].off
    ensures var base := |Flat(chains[..c])|;
            base + to <= |Flat(chains)| && Data(chains[c])[from..to] == Flat(chains)[base + from..base + to]
  {
    hide Flat, Data;
    ChainBytes(chains, c);
    var base := |Flat(chains[..c])|;
    var all := Flat(chains);
    SliceOfSlice(all, base, base + chains[c].off, from, to);
  }

  /** memcmp: the order of the bytes where two runs of one length first differ, by sign. */
  function Compare(a: seq<Byte>, b: seq<Byte>): (r: int)
    requires |a| == |b|
    ensures -1 <= r <= 1
  {
    if a == [] then 0
    else if a[0] != b[0] then (if a[0] < b[0] then -1 else 1)
    else Compare(a[1..], b[1..])
  }

  lemma {:induction false} CompareZero(a: seq<Byte>, b: seq<Byte>)
    requires |a| == |b|
    ensures Compare(a, b) == 0 <==> a == b
    decreases |a|
  {
    if a != [] {
      assert a == [a[0]] + a[1..] && b == [b[0]] + b[1..];
      CompareZero(a[1..], b[1..]);
    }
  }

  /** Runs are compared piece by piece. */
  lemma {:induction false} CompareConcat(a: seq<Byte>, b: seq<Byte>, c: seq<Byte>, d: seq<Byte>)
    requires |a| == |b| && |c| == |d|
    ensures Compare(a + c, b + d) == if Compare(a, b) != 0 then Compare(a, b) else Compare(c, d)
    decreases |a|
  {
    if a == [] {
      assert a + c == c && b + d == d;
    } else {
      assert (a + c)[1..] == a[1..] + c && (b + d)[1..] == b[1..] + d;
      CompareConcat(a[1..], b[1..], c, d);
    }
  }

  lemma {:induction false} CompareStep(s: seq<Byte>, q: nat, w: seq<Byte>, n: nat)
    requires n <= |w| && q + |w| <= |s|
    ensures Compare(s[q..q + |w|], w)
         == if Compare(s[q..q + n], w[..n]) != 0 then Compare(s[q..q + n], w[..n])
            else Compare(s[q + n..q + |w|], w[n..])
  {
    hide Compare;
    assert w == w[..n] + w[n..];
    assert s[q..q + |w|] == s[q..q + n] + s[q + n..q + |w|];
    CompareConcat(s[q..q + n], w[..n], s[q + n..q + |w|], w[n..]);
  }

  /** evbuffer_ptr_memcmp: -1 if the buffer ends too early, else how the bytes at p compare with those of mem. */
  method PtrMemcmp(buf: Evbuffer, p: Ptr, mem: seq<Byte>) returns (r: int)
    requires buf.Valid() && PtrOk(buf.chains, p)
    ensures r == if p.pos + |mem| > buf.totalLen then -1 else Compare(buf.Contents()[p.pos..p.pos + |mem|], mem)
    ensures r == 0 <==> MatchAt(buf.Contents(), p.pos, mem)
  {
    hide Flat, Data, Compare;
    if p.pos + |mem| > buf.totalLen {
      return -1;
    }
    ghost var all := buf.Contents();
    ghost var goal := Compare(all[p.pos..p.pos + |mem|], mem);
    CompareZero(all[p.pos..p.pos + |mem|], mem);
    var left, chain: nat, position: nat := mem, p.chain, p.inChain;
    ghost var at := p.pos;
    while left != [] && chain < |buf.chains|
      invariant 0 <= at && at + |left| <= |all| && chain <= |buf.chains|
      invariant goal == Compare(all[at..at + |left|], left)
      invariant left != [] && chain < |buf.chains| ==>
          position <= buf.chains[chain].off && at == |Flat(buf.chains[..chain])| + position
      invariant left != [] && chain == |buf.chains| ==> at == |all|
      decreases |buf.chains| - chain
    {
      var c := buf.chains[chain];
      var n := if |left| + position > c.off then c.off - position else |left|;
      ChainBytes(buf.chains, chain);
      ChainSlice(buf.chains, chain, position, position + n);
      CompareStep(all, at, left, n);
      r := Compare(Data(c)[position..position + n], left[..n]);
      if r != 0 {
        return;
      }
      assert at + n + |left[n..]| == at + |left|;
      left := left[n..];
      at := at + n;
      position := 0;
      chain := chain + 1;
      if chain == |buf.chains| { ChainsEnd(buf.chains); }
    }
    CompareZero([], []);
    r := 0;
  }

  /** The first byte of what does not occur in a run, so no match starts there. */
  lemma {:induction false} NoMatchIn(s: seq<Byte>, a: nat, b: nat, what: seq<Byte>)
    requires what != [] && a <= b <= |s| && what[0] !in s[a..b]
    ensures NoMatch(s, a, b, what)
  {
    forall q | a <= q < b
      ensures !MatchAt(s, q, what)
    {
      assert s[a..b][q - a] == s[q];
    }
  }

  /** Where a search starts. */
  function StartOf(start: Option<Ptr>): Ptr {
    match start
    case None => Ptr(0, 0, 0)
    case Some(p) => p
  }

  /** A start pointer as evbuffer_ptr_set or a successful search leaves it. */
  ghost predicate StartOk(chains: seq<Cell>, start: Option<Ptr>) {
    start.Some? ==> PtrOk(chains, start.value)
  }

  /** evbuffer_search_range */
  method SearchRange(buf: Evbuffer, what: seq<Byte>, start: Option<Ptr>, end: Option<Ptr>) returns (r: Ptr)
    requires buf.Valid() && StartOk(buf.chains, start) && StartOk(buf.chains, end)
    ensures what == [] ==> r == StartOf(start)
    ensures var limit := if end.Some? then end.value.pos else buf.totalLen;
            var from := StartOf(start).pos;
            what != [] ==>
            if r.pos == -1 then
              NoMatch(buf.Contents(), from, limit - |what| + 1, what)
            else
              && from <= r.pos <= limit - |what| && MatchAt(buf.Contents(), r.pos, what)
              && PtrOk(buf.chains, r)
              && NoMatch(buf.Contents(), from, r.pos, what)
  {
    StartInside(buf.chains, start);
    StartInside(buf.chains, end);
    hide Flat, Data, MatchAt, NoMatch, PtrOk;
    r := StartOf(start);
    if what == [] {
      return;
    }
    NoMatchNone(buf.Contents(), r.pos, what);
    ghost var from, all := r.pos, buf.Contents();
    ghost var limit := if end.Some? then end.value.pos else buf.totalLen;
    while r.chain < |buf.chains|
      invariant buf.Valid() && all == buf.Contents() && r.chain <= |buf.chains|
      invariant from <= r.pos && NoMatch(all, from, r.pos, what)
      invariant r.chain < |buf.chains| ==> PtrOk(buf.chains, r)
      invariant r.chain == |buf.chains| ==> r.pos == |all|
      decreases |buf.chains| - r.chain, buf.totalLen - r.pos
    {
      var hit;
      var p := r;
      hit, r := NextCandidate(buf, p, what);
      PtrInside(buf.chains, r);
      NoMatchJoin(all, from, p.pos, r.pos, what);
      if hit {
        var order := PtrMemcmp(buf, r, what);
        if order == 0 {
          MatchFits(all, r.pos, what);
          if end.Some? && r.pos + |what| > end.value.pos {
            NoMatchLess(all, from, limit - |what| + 1, r.pos, what);
            r := Ptr(-1, |buf.chains|, 0);
          }
          return;
        }
        NoMatchHere(all, from, r.pos, what);
        PtrAdvance(buf.chains, r);
        r := r.(pos := r.pos + 1, inChain := r.inChain + 1);
        if r.inChain == buf.chains[r.chain].off {
          r := NextChain(buf, r);
        }
      } else {
        if end.Some? && r.chain == end.value.chain {
          PtrOrder(buf.chains, end.value, r);
          NoMatchLess(all, from, limit - |what| + 1, r.pos, what);
          r := Ptr(-1, |buf.chains|, 0);
          return;
        }
        r := NextChain(buf, r);
      }
    }
    NoMatchLess(all, from, limit - |what| + 1, r.pos, what);
    r := Ptr(-1, |buf.chains|, 0);
  }

  lemma {:induction false} PtrInside(chains: seq<Cell>, p: Ptr)
    requires PtrOk(chains, p)
    ensures p.chain < |chains| && p.inChain <= chains[p.chain].off && 0 <= p.pos <= |Flat(chains)|
  {
    hide Flat;
    ChainBytes(chains, p.chain);
  }

  lemma {:induction false} StartInside(chains: seq<Cell>, start: Option<Ptr>)
    requires StartOk(chains, start)
    ensures start.Some? ==> start.value.chain < |chains| && start.value.pos <= |Flat(chains)|
    ensures chains != [] ==> PtrOk(chains, StartOf(start))
    ensures chains == [] ==> StartOf(start) == Ptr(0, 0, 0) && Flat(chains) == []
  {
    FlatNil();
    assert chains[..0] == [];
    hide Flat;
    if start.Some? {
      PtrInside(chains, start.value);
    }
  }

  lemma {:induction false} PtrAdvance(chains: seq<Cell>, p: Ptr)
    requires PtrOk(chains, p) && p.inChain < chains[p.chain].off
    ensures PtrOk(chains, p.(pos := p.pos + 1, inChain := p.inChain + 1))
    ensures p.pos + 1 <= |Flat(chains)|
  {
    hide Flat;
    ChainBytes(chains, p.chain);
  }

  lemma {:induction false} PtrOrder(chains: seq<Cell>, p: Ptr, q: Ptr)
    requires PtrOk(chains, p) && PtrOk(chains, q) && p.chain == q.chain && q.inChain == chains[q.chain].off
    ensures p.pos <= q.pos
  {
    hide Flat;
  }

  lemma {:induction false} NoMatchNone(s: seq<Byte>, a: int, what: seq<Byte>)
    ensures NoMatch(s, a, a, what)
  {
  }

  lemma {:induction false} NoMatchJoin(s: seq<Byte>, a: int, b: int, c: int, what: seq<Byte>)
    requires NoMatch(s, a, b, what) && NoMatch(s, b, c, what)
    ensures NoMatch(s, a, c, what)
  {
    hide MatchAt;
  }

  lemma {:induction false} NoMatchHere(s: seq<Byte>, a: int, b: int, what: seq<Byte>)
    requires NoMatch(s, a, b, what) && !MatchAt(s, b, what)
    ensures NoMatch(s, a, b + 1, what)
  {
    hide MatchAt;
  }

  lemma {:induction false} NoMatchLess(s: seq<Byte>, a: int, b: int, c: int, what: seq<Byte>)
    requires NoMatch(s, a, c, what) && b <= c
    ensures NoMatch(s, a, b, what)
  {
    hide MatchAt;
  }

  lemma {:induction false} MatchFits(s: seq<Byte>, q: int, what: seq<Byte>)
    requires MatchAt(s, q, what)
    ensures q + |what| <= |s|
  {
  }

  /** The memchr step: the next place in the chain where a match could start, or else the chain's end. */
  method NextCandidate(buf: Evbuffer, p: Ptr, what: seq<Byte>) returns (hit: bool, r: Ptr)
    requires buf.Valid() && PtrOk(buf.chains, p) && what != []
    ensures PtrOk(buf.chains, r) && r.chain == p.chain && p.pos <= r.pos
    ensures if hit then r.inChain < buf.chains[r.chain].off && r.pos < buf.totalLen
            else r.inChain == buf.chains[r.chain].off
    ensures NoMatch(buf.Contents(), p.pos, r.pos, what)
  {
    hide Flat, Data, MatchAt;
    ghost var all := buf.Contents();
    var c := buf.chains[p.chain];
    ChainSlice(buf.chains, p.chain, p.inChain, c.off);
    ghost var rest := c.off - p.inChain;
    var bytes := Data(c)[p.inChain..];
    assert bytes == Data(c)[p.inChain..c.off] == all[p.pos..p.pos + rest];
    var i := IndexOf(bytes, what[0]);
    hit := i >= 0;
    var skip := if hit then i else c.off - p.inChain;
    SliceOfSlice(all, p.pos, p.pos + rest, 0, skip);
    NoMatchIn(all, p.pos, p.pos + skip, what);
    r := p.(pos := p.pos + skip, inChain := p.inChain + skip);
  }

  /** From the end of a chain to the start of the next one. */
  method NextChain(buf: Evbuffer, p: Ptr) returns (r: Ptr)
    requires buf.Valid() && PtrOk(buf.chains, p) && p.inChain == buf.chains[p.chain].off
    ensures r == Ptr(p.pos, p.chain + 1, 0)
    ensures r.chain < |buf.chains| ==> PtrOk(buf.chains, r)
    ensures r.chain == |buf.chains| ==> r.pos == buf.totalLen
  {
    hide Flat, Data;
    ChainBytes(buf.chains, p.chain);
    ChainsEnd(buf.chains);
    r := Ptr(p.pos, p.chain + 1, 0);
  }
}
