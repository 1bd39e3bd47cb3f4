/** Line ends: finding them across chains, and evbuffer_readln. */
module EvbufferLines {
  import opened Wrappers
  import opened Bytes
  import opened Chains
  import opened Evbuffers
  import opened EvbufferSearch

  datatype EolStyle = EolAny | EolCrlf | EolCrlfStrict | EolLf

  predicate IsEol(b: Byte) {
    b == CR || b == LF
  }

  /** A byte the scan stops at: a line feed, and a carriage return if both count. */
  predicate IsStop(b: Byte, either: bool) {
    b == LF || (either && b == CR)
  }

  ghost predicate NoStop(s: seq<Byte>, a: int, b: int, either: bool) {
    forall k :: a <= k < b && 0 <= k < |s| ==> !IsStop(s[k], either)
  }

  /** The number of CR and LF bytes at the start. */
  function EolRun(s: seq<Byte>): nat {
    if s == [] || !IsEol(s[0]) then 0 else 1 + EolRun(s[1..])
  }

  /** What a naive reader calls a line end of the style at position p, and its length. */
  ghost predicate EolAt(style: EolStyle, s: seq<Byte>, p: int) {
    0 <= p < |s| &&
    match style
    case EolAny => IsEol(s[p])
    case EolCrlf => s[p] == LF || (s[p] == CR && p + 1 < |s| && s[p + 1] == LF)
    case EolCrlfStrict => s[p] == CR && p + 1 < |s| && s[p + 1] == LF
    case EolLf => s[p] == LF
  }

  ghost function EolLength(style: EolStyle, s: seq<Byte>, p: nat): nat
    requires p < |s|
  {
    match style
    case EolAny => EolRun(s[p..])
    case EolCrlf => if s[p] == LF then 1 else 2
    case EolCrlfStrict => 2
    case EolLf => 1
  }

  ghost predicate NoEol(style: EolStyle, s: seq<Byte>, a: int, b: int) {
    forall k :: a <= k < b ==> !EolAt(style, s, k)
  }

  /** find_eol_char: two memchrs per 128-byte chunk find the leftmost CR or LF. */
  method FindEolChar(s: seq<Byte>) returns (i: int)
    ensures -1 <= i < |s|
    ensures i == -1 ==> NoStop(s, 0, |s|, true)
    ensures i >= 0 ==> IsEol(s[i]) && NoStop(s, 0, i, true)
  {
    hide IndexOf;
    var at := 0;
    while at < |s|
      invariant 0 <= at && NoStop(s, 0, at, true)
    {
      var chunk := if at + CHUNK_SZ < |s| then CHUNK_SZ else |s| - at;
      var part := s[at..at + chunk];
      assert forall k :: at <= k < at + chunk ==> s[k] == part[k - at];
      var cr := IndexOf(part, CR);
      var lf := IndexOf(part, LF);
      if cr >= 0 {
        assert forall k :: 0 <= k < cr ==> part[k] == part[..cr][k];
        if lf >= 0 && lf < cr {
          assert forall k :: 0 <= k < lf ==> part[k] == part[..lf][k];
          return at + lf;
        }
        assert forall k :: 0 <= k < cr && lf >= 0 ==> part[k] == part[..lf][k];
        return at + cr;
      } else if lf >= 0 {
        assert forall k :: 0 <= k < lf ==> part[k] == part[..lf][k];
        return at + lf;
      }
      at := at + CHUNK_SZ;
    }
    i := -1;
  }

  /** The scan of one chain: memchr for a line feed, find_eol_char for either. */
  method FirstStop(s: seq<Byte>, either: bool) returns (i: int)
    ensures -1 <= i < |s|
    ensures i == -1 ==> NoStop(s, 0, |s|, either)
    ensures i >= 0 ==> IsStop(s[i], either) && NoStop(s, 0, i, either)
  {
    hide IndexOf;
    if either {
      i := FindEolChar(s);
    } else {
      i := IndexOf(s, LF);
      assert i >= 0 ==> forall k :: 0 <= k < i ==> s[k] == s[..i][k];
    }
  }

  /** A pointer, or the NULL one at the very end. */
  ghost predicate FromOk(chains: seq<Cell>, p: Ptr) {
    PtrOk(chains, p) || (p.chain == |chains| && p.pos == |Flat(chains)|)
  }

  /** A run of chain bytes without a stop is one without a stop in the whole. */
  lemma {:induction false} NoStopShift(all: seq<Byte>, base: nat, part: seq<Byte>, n: nat, either: bool)
    requires base + |part| <= |all| && n <= |part| && part == all[base..base + |part|]
    requires NoStop(part, 0, n, either)
    ensures NoStop(all, base, base + n, either)
  {
    assert forall k :: base <= k < base + n ==> all[k] == part[k - base];
  }

  /** evbuffer_strchr for '\n', and evbuffer_find_eol_char: the next stop at or after p. */
  method FindStop(buf: Evbuffer, p: Ptr, either: bool) returns (r: Ptr)
    requires buf.Valid() && FromOk(buf.chains, p)
    ensures r.pos == -1 ==> NoStop(buf.Contents(), p.pos, buf.totalLen, either)
    ensures r.pos != -1 ==>
            && PtrOk(buf.chains, r) && p.pos <= r.pos < buf.totalLen && r.inChain < buf.chains[r.chain].off
            && IsStop(buf.Contents()[r.pos], either) && NoStop(buf.Contents(), p.pos, r.pos, either)
  {
    hide Flat, Data, IndexOf;
    ghost var all := buf.Contents();
    r := p;
    while r.chain < |buf.chains|
      invariant buf.Valid() && all == buf.Contents() && r.chain <= |buf.chains|
      invariant p.pos <= r.pos && NoStop(all, p.pos, r.pos, either)
      invariant r.chain < |buf.chains| ==> PtrOk(buf.chains, r)
      invariant r.chain == |buf.chains| ==> r.pos == |all|
      decreases |buf.chains| - r.chain
    {
      var c := buf.chains[r.chain];
      ChainSlice(buf.chains, r.chain, r.inChain, c.off);
      var bytes := Data(c)[r.inChain..c.off];
      var i := FirstStop(bytes, either);
      if i >= 0 {
        NoStopShift(all, r.pos, bytes, i, either);
        assert bytes[i] == all[r.pos + i];
        r := r.(pos := r.pos + i, inChain := r.inChain + i);
        return;
      }
      NoStopShift(all, r.pos, bytes, |bytes|, either);
      r := NextChain(buf, r.(pos := r.pos + |bytes|, inChain := c.off));
    }
    r := Ptr(-1, |buf.chains|, 0);
  }

  /** evbuffer_ptr_set: to position n, or n bytes further than a pointer. */
  method PtrSet(buf: Evbuffer, from: Option<Ptr>, n: nat) returns (ok: bool, r: Ptr)
    requires buf.Valid() && StartOk(buf.chains, from)
    ensures ok <==> StartOf(from).pos + n < buf.totalLen
    ensures ok ==> PtrOk(buf.chains, r) && r.pos == StartOf(from).pos + n && r.inChain < buf.chains[r.chain].off
    ensures !ok ==> r == Ptr(-1, |buf.chains|, 0)
  {
    hide Flat, Data;
    FlatNil();
    assert buf.chains[..0] == [];
    var p := StartOf(from);
    var left, chain, position := n, p.chain, p.inChain;
    ChainsEnd(buf.chains);
    while chain < |buf.chains| && position + left >= buf.chains[chain].off
      invariant chain <= |buf.chains| && 0 <= left && 0 <= position
      invariant |Flat(buf.chains[..chain])| + position + left == p.pos + n
      invariant chain < |buf.chains| ==> position <= buf.chains[chain].off
      decreases |buf.chains| - chain
    {
      ChainBytes(buf.chains, chain);
      left := left - (buf.chains[chain].off - position);
      chain := chain + 1;
      position := 0;
    }
    ok := chain < |buf.chains|;
    if ok {
      ChainBytes(buf.chains, chain);
      r := Ptr(p.pos + n, chain, position + left);
    } else {
      r := Ptr(-1, |buf.chains|, 0);
    }
  }

  lemma {:induction false} EolRunStep(s: seq<Byte>, i: nat)
    requires i < |s|
    ensures EolRun(s[i..]) == if IsEol(s[i]) then 1 + EolRun(s[i + 1..]) else 0
  {
    assert s[i..][1..] == s[i + 1..];
  }

  /** evbuffer_strspn with "\r\n": the length of the run of CR and LF bytes at p. */
  method Strspn(buf: Evbuffer, p: Ptr) returns (count: nat)
    requires buf.Valid() && PtrOk(buf.chains, p)
    ensures p.pos <= buf.totalLen && count == EolRun(buf.Contents()[p.pos..])
  {
    hide Flat, Data, EolRun;
    ghost var all := buf.Contents();
    count := 0;
    var chain, i := p.chain, p.inChain;
    ChainBytes(buf.chains, chain);
    while true
      invariant chain < |buf.chains| && 0 <= i <= buf.chains[chain].off
      invariant |Flat(buf.chains[..chain])| + i == p.pos + count
      invariant p.pos + count <= |all| && EolRun(all[p.pos..]) == count + EolRun(all[p.pos + count..])
      decreases |buf.chains| - chain
    {
      var c := buf.chains[chain];
      ghost var chain0 := chain;
      ChainBytes(buf.chains, chain);
      while i < c.off
        invariant 0 <= i <= c.off && |Flat(buf.chains[..chain])| + i == p.pos + count
        invariant p.pos + count <= |all| && EolRun(all[p.pos..]) == count + EolRun(all[p.pos + count..])
      {
        ChainSlice(buf.chains, chain, i, i + 1);
        assert Data(c)[i] == Data(c)[i..i + 1][0] == all[p.pos + count];
        EolRunStep(all, p.pos + count);
        if !IsEol(Data(c)[i]) {
          return;
        }
        count := count + 1;
        i := i + 1;
      }
      i := 0;
      if chain + 1 == |buf.chains| {
        ChainsEnd(buf.chains);
        EolRunFits(all[p.pos + count..]);
        return;
      }
      chain := chain + 1;
    }
  }

  /** evbuffer_search_eol: the leftmost line end of the style at or after start, and its length. */
  method SearchEol(buf: Evbuffer, start: Option<Ptr>, style: EolStyle) returns (it: Ptr, eolLen: nat)
    requires buf.Valid() && StartOk(buf.chains, start)
    ensures it.pos == -1 ==> eolLen == 0 && NoEol(style, buf.Contents(), StartOf(start).pos, buf.totalLen)
    ensures it.pos != -1 ==>
            && StartOf(start).pos <= it.pos < buf.totalLen && EolAt(style, buf.Contents(), it.pos)
            && NoEol(style, buf.Contents(), StartOf(start).pos, it.pos)
            && eolLen == EolLength(style, buf.Contents(), it.pos)
  {
    hide Flat, Data, EolRun;
    it, eolLen := StartOf(start), 0;
    ghost var from, all := it.pos, buf.Contents();
    FlatNil();
    assert buf.chains[..0] == [];
    match style {
      case EolAny =>
        it := FindStop(buf, it, true);
        if it.pos >= 0 {
          eolLen := Strspn(buf, it);
        }
      case EolCrlfStrict =>
        it := SearchRange(buf, [CR, LF], start, None);
        forall k ensures EolAt(style, all, k) <==> MatchAt(all, k, [CR, LF]) { CrlfMatch(all, k); }
        if it.pos >= 0 {
          eolLen := 2;
        }
      case EolCrlf =>
        it, eolLen := SearchCrlf(buf, it);
      case EolLf =>
        it := FindStop(buf, it, false);
        if it.pos >= 0 {
          eolLen := 1;
        }
    }
  }

  lemma {:induction false} CrlfMatch(s: seq<Byte>, k: int)
    ensures MatchAt(s, k, [CR, LF]) <==> 0 <= k && k + 1 < |s| && s[k] == CR && s[k + 1] == LF
  {
    if 0 <= k && k + 1 < |s| {
      assert s[k..k + 2] == [s[k], s[k + 1]];
    }
  }

  /** evbuffer_getchr */
  method Getchr(buf: Evbuffer, p: Ptr) returns (b: Byte)
    requires buf.Valid() && PtrOk(buf.chains, p) && p.inChain < buf.chains[p.chain].off
    ensures p.pos < buf.totalLen && b == buf.Contents()[p.pos]
  {
    hide Flat, Data;
    b := Data(buf.chains[p.chain])[p.inChain];
    ChainSlice(buf.chains, p.chain, p.inChain, p.inChain + 1);
    assert b == Data(buf.chains[p.chain])[p.inChain..p.inChain + 1][0];
  }

  /** The EVBUFFER_EOL_CRLF loop: a lone CR is stepped over. */
  method SearchCrlf(buf: Evbuffer, p: Ptr) returns (it: Ptr, eolLen: nat)
    requires buf.Valid() && FromOk(buf.chains, p)
    ensures it.pos == -1 ==> eolLen == 0 && NoEol(EolCrlf, buf.Contents(), p.pos, buf.totalLen)
    ensures it.pos != -1 ==>
            && p.pos <= it.pos < buf.totalLen && EolAt(EolCrlf, buf.Contents(), it.pos)
            && NoEol(EolCrlf, buf.Contents(), p.pos, it.pos)
            && eolLen == EolLength(EolCrlf, buf.Contents(), it.pos)
  {
    hide Flat, Data, EolRun;
    it, eolLen := p, 0;
    ghost var all := buf.Contents();
    while true
      invariant buf.Valid() && all == buf.Contents() && FromOk(buf.chains, it)
      invariant p.pos <= it.pos && NoEol(EolCrlf, all, p.pos, it.pos)
      decreases buf.totalLen - it.pos
    {
      ghost var at := it.pos;
      it := FindStop(buf, it, true);
      if it.pos < 0 {
        assert NoEol(EolCrlf, all, at, |all|);
        return;
      }
      assert NoEol(EolCrlf, all, at, it.pos);
      CrlfMatch(all, it.pos);
      var order := PtrMemcmp(buf, it, [CR, LF]);
      var c := Getchr(buf, it);
      if c == LF {
        eolLen := 1;
        return;
      } else if order == 0 {
        eolLen := 2;
        return;
      }
      var ok, next := PtrSet(buf, Some(it), 1);
      ghost var here := it.pos;
      it := next;
      if !ok {
        assert NoEol(EolCrlf, all, p.pos, here + 1);
        return;
      }
    }
  }

  lemma {:induction false} ThreeParts(all: seq<Byte>, text: seq<Byte>, rest: seq<Byte>, extra: nat)
    requires all == text + rest && extra <= |rest|
    ensures all == text + all[|text|..|text| + extra] + rest[extra..]
  {
    assert all[|text|..|text| + extra] == rest[..extra];
    assert rest == rest[..extra] + rest[extra..];
  }

  /** evbuffer_readln: the line without its end, or nothing; the rest stays in the buffer. */
  method Readln(buf: Evbuffer, style: EolStyle) returns (line: Option<seq<Byte>>)
    requires buf.Valid()
    modifies buf
    ensures buf.Valid() && (old(buf.Snug()) ==> buf.Snug()) && (old(buf.Dense()) ==> buf.Dense())
    ensures line.None? ==> buf.Contents() == old(buf.Contents())
    ensures line.None? <==> old(buf.freezeStart) || NoEol(style, old(buf.Contents()), 0, |old(buf.Contents())|)
    ensures line.Some? ==>
            var all := old(buf.Contents());
            var p := |line.value|;
            && p < |all| && EolAt(style, all, p) && NoEol(style, all, 0, p)
            && p + EolLength(style, all, p) <= |all|
            && all == line.value + all[p..p + EolLength(style, all, p)] + buf.Contents()
  {
    hide Flat, Data, EolRun, EolAt, EolLength, NoEol;
    if buf.freezeStart {
      return None;
    }
    var it, extra := SearchEol(buf, None, style);
    if it.pos < 0 {
      return None;
    }
    ghost var all := buf.Contents();
    EolFits(style, all, it.pos);
    SomeEol(style, all, it.pos);
    var n, text := buf.Remove(it.pos);
    ThreeParts(all, text, buf.Contents(), extra);
    ghost var rest := buf.Contents();
    assert |rest| == extra ==> rest[extra..] == [];
    var ok := buf.Drain(extra);
    line := Some(text);
  }

  lemma {:induction false} SomeEol(style: EolStyle, s: seq<Byte>, p: nat)
    requires p < |s| && EolAt(style, s, p)
    ensures !NoEol(style, s, 0, |s|)
  {
    hide EolAt;
  }

  lemma {:induction false} EolRunFits(s: seq<Byte>)
    ensures EolRun(s) <= |s|
  {
    if s != [] { EolRunFits(s[1..]); }
  }

  lemma {:induction false} EolFits(style: EolStyle, s: seq<Byte>, p: nat)
    requires EolAt(style, s, p)
    ensures 1 <= EolLength(style, s, p) && p + EolLength(style, s, p) <= |s|
  {
    EolRunFits(s[p..]);
  }
}
