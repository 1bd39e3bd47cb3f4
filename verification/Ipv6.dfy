/** evutil_inet_ntop and evutil_inet_pton for AF_INET6. */
module Ipv6 {
  import opened Wrappers
  import opened Bytes
  import opened Ipv6Text

  // ----- printing -----

  /** The words of w[..i] are looked at: the longest run of zeros there, and the first of that length. */
  ghost predicate BestSoFar(w: seq<nat>, i: nat, pos: int, len: int) {
    && (len == 0 <==> pos == -1) && 0 <= len && -1 <= pos
    && (pos >= 0 ==> ZeroRun(w, pos, len) && pos + len <= i && (pos + len < |w| ==> w[pos + len] != 0))
    && forall p: nat, n: nat :: ZeroRun(w, p, n) && p + n <= i && n > 0 ==> n <= len && (n == len ==> pos <= p)
  }

  /** No run of zeros goes on at i. */
  ghost predicate Boundary(w: seq<nat>, i: nat) {
    i <= |w| && (0 < i < |w| ==> w[i - 1] != 0 || w[i] != 0)
  }

  /** A run of zeros from c up to i, and no further, is compared with the best before it. */
  lemma {:induction false} NextBest(w: seq<nat>, c: nat, i: nat, pos: int, len: int)
    requires c < i <= |w| && Boundary(w, c) && ZeroRun(w, c, i - c) && (i < |w| ==> w[i] != 0)
    requires BestSoFar(w, c, pos, len)
    ensures if i - c > len then BestSoFar(w, i, c, i - c) else BestSoFar(w, i, pos, len)
  {
    var best := if i - c > len then i - c else len;
    var at: int := if i - c > len then c else pos;
    forall p: nat, n: nat | ZeroRun(w, p, n) && p + n <= i && n > 0
      ensures n <= best && (n == best ==> at <= p)
    {
      assert p + n > c && p < c ==> !Boundary(w, c);
    }
  }

  lemma {:induction false} SkipWord(w: seq<nat>, i: nat, pos: int, len: int)
    requires i < |w| && w[i] != 0 && BestSoFar(w, i, pos, len)
    ensures BestSoFar(w, i + 1, pos, len) && Boundary(w, i + 1)
  {
    forall p: nat, n: nat | ZeroRun(w, p, n) && p + n <= i + 1 && n > 0
      ensures p + n <= i
    {
      assert w[p + n - 1] == 0;
    }
  }

  /** The first longest gap of zero words. */
  method FindGap(w: seq<nat>) returns (pos: int, len: int)
    requires |w| == 8
    ensures IsGap(w, pos, len)
  {
    hide BestSoFar;
    pos, len := -1, 0;
    BestOfNone(w);
    var i := 0;
    while i < 8
      invariant 0 <= i <= 8 && Boundary(w, i) && BestSoFar(w, i, pos, len)
    {
      if w[i] == 0 {
        var cur := i;
        i := i + 1;
        while i < 8 && w[i] == 0
          invariant cur < i <= 8 && ZeroRun(w, cur, i - cur)
        {
          i := i + 1;
        }
        NextBest(w, cur, i, pos, len);
        if i - cur > len {
          pos, len := cur, i - cur;
        }
      } else {
        SkipWord(w, i, pos, len);
        i := i + 1;
      }
    }
    GapFound(w, pos, len);
    if len <= 1 {
      pos := -1;
    }
  }

  lemma {:induction false} BestOfNone(w: seq<nat>)
    ensures BestSoFar(w, 0, -1, 0)
  {
  }

  lemma {:induction false} GapFound(w: seq<nat>, pos: int, len: int)
    requires BestSoFar(w, |w|, pos, len)
    ensures IsGap(w, if len <= 1 then -1 else pos, len)
  {
    forall p: nat, n: nat | ZeroRun(w, p, n)
      ensures n <= len || n <= 1
      ensures len >= 2 ==> n <= len && (n == len ==> pos <= p)
    {
    }
  }

  /** The words from one on, up to i; behind the last of all there is no colon. */
  ghost function Piece(w: seq<nat>, from: nat, i: nat): string
    requires from <= i <= |w|
  {
    if i == |w| then Join(w[from..]) else Each(w[from..i])
  }

  /** The text once the words before i are done; i is not inside the gap. */
  ghost function Partial(w: seq<nat>, pos: int, len: int, i: nat): string
    requires |w| == 8 && i <= 8 && (pos >= 0 ==> 0 < len && pos + len <= 8 && (i <= pos || pos + len <= i))
  {
    if pos < 0 || i <= pos then Piece(w, 0, i)
    else (if pos == 0 then "::" else Each(w[..pos]) + ":") + Piece(w, pos + len, i)
  }

  lemma {:induction false} EachAppend(ws: seq<nat>, x: nat)
    ensures Each(ws + [x]) == Each(ws) + Print(x, 16) + ":"
    decreases |ws|
  {
    hide Each, Print;
    var all := ws + [x];
    EachStep(all);
    EachNil();
    var p := Print(x, 16);
    if ws == [] {
      assert all[1..] == [];
      EachEnd(p);
    } else {
      EachStep(ws);
      var t := ws[1..];
      EachAppend(t, x);
      assert all[1..] == t + [x];
      EachRegroup(Print(ws[0], 16), Each(t), p);
    }
  }

  lemma {:induction false} EachNil()
    ensures Each([]) == []
  {
  }

  lemma {:induction false} EachStep(ws: seq<nat>)
    requires ws != []
    ensures Each(ws) == Print(ws[0], 16) + (":" + Each(ws[1..]))
  {
    hide Print;
  }

  lemma {:induction false} EachEnd(p: string)
    ensures p + (":" + []) == [] + p + ":"
  {
  }

  lemma {:induction false} EachRegroup(a: string, b: string, p: string)
    ensures a + (":" + (b + p + ":")) == a + (":" + b) + p + ":"
  {
  }

  lemma {:induction false} PieceStep(w: seq<nat>, from: nat, i: nat)
    requires from <= i < |w|
    ensures Piece(w, from, i + 1) == Piece(w, from, i) + Print(w[i], 16) + if i + 1 != |w| then ":" else ""
  {
    hide Print, Each;
    var ws := w[from..i];
    EachAppend(ws, w[i]);
    assert w[from..i + 1] == ws + [w[i]];
    if i + 1 == |w| {
      var all := w[from..];
      assert all[..|all| - 1] == ws && all[|all| - 1] == w[i];
    }
  }

  lemma {:induction false} PrintOne(w: seq<nat>, pos: int, len: int, i: nat)
    requires |w| == 8 && i < 8 && i != pos && (pos >= 0 ==> 0 < len && pos + len <= 8 && (i < pos || pos + len <= i))
    ensures Partial(w, pos, len, i + 1) == Partial(w, pos, len, i) + Print(w[i], 16) + if i != 7 then ":" else ""
  {
    hide Print, Each, Piece;
    PieceStep(w, if pos < 0 || i < pos then 0 else pos + len, i);
  }

  lemma {:induction false} PrintGap(w: seq<nat>, pos: nat, len: int)
    requires |w| == 8 && 0 < len && pos + len <= 8
    ensures Partial(w, pos, len, pos + len) == Partial(w, pos, len, pos) + if pos == 0 then "::" else ":"
  {
    hide Print;
    assert w[pos + len..pos + len] == [] && w[0..pos] == w[..pos];
    if pos + len == 8 { assert w[8..] == []; }
    assert w[..0] == [];
    hide Each, Join;
  }

  lemma {:induction false} EachLength(ws: seq<nat>)
    requires forall i :: 0 <= i < |ws| ==> ws[i] < 65536
    ensures |Each(ws)| <= 5 * |ws|
    decreases |ws|
  {
    if ws != [] {
      PrintShort(ws[0]);
      hide Print;
      EachLength(ws[1..]);
    }
  }

  lemma {:induction false} JoinLength(ws: seq<nat>)
    requires forall i :: 0 <= i < |ws| ==> ws[i] < 65536
    ensures |Join(ws)| <= 5 * |ws|
  {
    if ws != [] {
      EachLength(ws[..|ws| - 1]);
      PrintShort(ws[|ws| - 1]);
      hide Print, Each;
    }
  }

  lemma {:induction false} TextLength(w: Words, pos: int, len: int)
    requires pos < 0 || (0 < len && pos + len <= 8)
    ensures |Text(w, pos, len)| < 64
  {
    hide Join, Each;
    if pos < 0 {
      JoinLength(w);
    } else {
      EachLength(w[..pos]);
      JoinLength(w[pos + len..]);
    }
  }

  lemma {:induction false} ByteLength(b: Byte)
    ensures |Print(b, 10)| <= 3
  {
    assert b / 10 < 26 && b / 10 / 10 < 3;
    assert |Print(b / 10 / 10, 10)| == 1;
    assert |Print(b / 10, 10)| <= 2;
  }

  lemma {:induction false} V4Length(a: Address)
    ensures |V4Text(a)| < 64
  {
    hide Print;
    ByteLength(a[12]);
    ByteLength(a[13]);
    ByteLength(a[14]);
    ByteLength(a[15]);
    EachLength([WordsOf(a)[5]]);
    hide Each;
  }

  /** The text of an address, as it stands in the 64-byte buffer of evutil_inet_ntop: reading it gives the address
      back, and the gap it leaves out is the first longest. */
  method Format(a: Address) returns (buf: string, pos: int, len: int)
    ensures |buf| < 64 && Parse(buf) == Some(WordsOf(a))
    ensures IsV4(WordsOf(a)) ==> buf == V4Text(a)
    ensures !IsV4(WordsOf(a)) ==>
            IsGap(WordsOf(a), pos, len) && (pos >= 0 ==> pos + len <= 8) && buf == Text(WordsOf(a), pos, len)
  {
    hide Parse, Text, V4Text, IsGap;
    var w := WordsOf(a);
    if IsV4(w) {
      V4RoundTrip(a);
      V4Length(a);
      return V4Text(a), -1, 0;
    }
    pos, len := FindGap(w);
    GapFacts(w, pos, len);
    buf := PrintWords(w, pos, len);
    TextRoundTrip(w, pos, len);
    TextLength(w, pos, len);
  }

  lemma {:induction false} GapFacts(w: seq<nat>, pos: int, len: int)
    requires IsGap(w, pos, len)
    ensures -1 <= pos
    ensures pos >= 0 ==>
            2 <= len && ZeroRun(w, pos, len) && pos + len <= |w| && (pos + len < |w| ==> w[pos + len] != 0)
  {
  }

  /** The loop that prints the words and skips the gap. */
  method PrintWords(w: seq<nat>, pos: int, len: int) returns (buf: string)
    requires |w| == 8 && -1 <= pos
    requires (pos >= 0 ==> 2 <= len && ZeroRun(w, pos, len) && pos + len <= 8 && (pos + len < 8 ==> w[pos + len] != 0))
    ensures buf == Text(w, pos, len)
  {
    hide Print, Each, Join;
    buf := "";
    var i := 0;
    StartEmpty(w, pos, len);
    hide Partial;
    while i < 8
      invariant 0 <= i <= 8 && (pos >= 0 ==> i <= pos || pos + len <= i) && buf == Partial(w, pos, len, i)
    {
      if w[i] == 0 && pos == i {
        PrintGap(w, pos, len);
        if i == 0 { buf := buf + ":"; }
        buf := buf + ":";
        i := i + 1;
        while i < 8 && w[i] == 0
          invariant pos < i <= pos + len
        {
          i := i + 1;
        }
      } else {
        PrintOne(w, pos, len, i);
        buf := buf + Print(w[i], 16);
        if i != 7 { buf := buf + ":"; }
        i := i + 1;
      }
    }
    AllDone(w, pos, len);
  }

  lemma {:induction false} StartEmpty(w: seq<nat>, pos: int, len: int)
    requires |w| == 8 && (pos >= 0 ==> 0 < len && pos + len <= 8)
    ensures Partial(w, pos, len, 0) == ""
  {
    assert w[0..0] == [];
  }

  lemma {:induction false} AllDone(w: seq<nat>, pos: int, len: int)
    requires |w| == 8 && (pos >= 0 ==> 0 < len && pos + len <= 8)
    ensures Partial(w, pos, len, 8) == Text(w, pos, len)
  {
    assert w[0..] == w;
  }

  /** evutil_inet_ntop(AF_INET6): with more room than the text is long, the text. When the room is exactly the length
      of the text, the copy loses the last character, but no error is reported. */
  method Ntop(a: Address, room: nat) returns (dst: Option<string>, buf: string)
    ensures |buf| < 64 && Parse(buf) == Some(WordsOf(a))
    ensures dst.None? <==> room < |buf|
    ensures dst.Some? ==> (dst.value == buf <==> room > |buf|)
    ensures dst.Some? && room == |buf| ==> dst.value + [buf[|buf| - 1]] == buf
  {
    hide Parse;
    var pos, len;
    buf, pos, len := Format(a);
    NotEmpty(buf);
    if |buf| > room {
      return None, buf;
    }
    dst := Some(if |buf| < room then buf else buf[..room - 1]);
  }

  lemma {:induction false} NotEmpty(s: string)
    requires Parse(s).Some?
    ensures s != []
  {
    ParseEnd([], 0, 0, [], -1);
    assert Parse([]) == ParseTail([], 0, []);
  }

  // ----- reading -----

  method FindDot(s: string) returns (dot: nat)
    ensures dot == FirstDot(s)
  {
    dot := 0;
    while dot < |s| && s[dot] != '.'
      invariant dot <= |s| && forall i :: 0 <= i < dot ==> s[i] != '.'
    {
      dot := dot + 1;
    }
    if dot < |s| { DotAt(s, dot); }
  }

  method EndOfWords(s: string, dot: nat) returns (eow: nat)
    requires dot <= |s|
    ensures eow == BackDigits(s, dot)
  {
    var i: int := dot - 1;
    while i >= 0 && IsDigit(s[i])
      invariant -1 <= i < dot && forall k :: i < k < dot ==> IsDigit(s[k])
    {
      i := i - 1;
    }
    eow := i + 1;
    BackAt(s, dot, eow);
  }

  /** The loop of evutil_inet_pton over the words, into its array. */
  method ReadWords(s: string, eow: nat, words: array<nat>) returns (ok: bool, n: nat, gap: int)
    requires eow <= |s| && words.Length == 8
    modifies words
    ensures ok == ParseLoop(s, 0, eow, [], -1).Some?
    ensures ok ==> n <= 8 && (words[..n], gap) == ParseLoop(s, 0, eow, [], -1).value
    ensures forall k :: 0 <= k < 8 && (!ok || k >= n) ==> !ok || words[k] == old(words[k])
  {
    var src := 0;
    n, gap, ok := 0, -1, false;
    hide ParseLoop;
    ghost var goal, seen: seq<nat> := ParseLoop(s, 0, eow, [], -1), [];
    while src < eow
      invariant n <= 8 && -1 <= gap <= n && seen == words[..n] && goal == ParseLoop(s, src, eow, seen, gap)
      invariant forall k :: n <= k < 8 ==> words[k] == old(words[k])
      decreases eow - src
    {
      hide Strtol, ParseLoop;
      ParseStep(s, src, eow, seen, gap);
      if n > 7 {
        return;
      }
      if IsXDigit(s[src]) {
        var (r, next) := Strtol(s, src);
        if next > src + 4 || r > 65536 {
          return;
        }
        words[n] := r;
        n, seen := n + 1, seen + [r];
        if (next == |s| || s[next] != ':') && next != eow {
          return;
        }
        src := next + 1;
      } else if s[src] == ':' && n > 0 && gap == -1 {
        gap := n;
        src := src + 1;
      } else if s[src] == ':' && n == 0 && src + 1 < |s| && s[src + 1] == ':' && gap == -1 {
        gap := n;
        src := src + 2;
      } else {
        return;
      }
    }
    ParseEnd(s, src, eow, seen, gap);
    ok := true;
  }

  /** One turn of the loop. */
  lemma {:induction false} ParseStep(s: string, src: nat, eow: nat, words: seq<nat>, gap: int)
    requires src < eow <= |s| && -1 <= gap <= |words|
    ensures ParseLoop(s, src, eow, words, gap)
            == if |words| > 7 then None
               else if IsXDigit(s[src]) then
                 var (r, next) := Strtol(s, src);
                 if next > src + 4 || r > 65536 then None
                 else if (next == |s| || s[next] != ':') && next != eow then None
                 else ParseLoop(s, next + 1, eow, words + [r], gap)
               else if s[src] == ':' && |words| > 0 && gap == -1 then
                 ParseLoop(s, src + 1, eow, words, |words|)
               else if s[src] == ':' && |words| == 0 && src + 1 < |s| && s[src + 1] == ':' && gap == -1 then
                 ParseLoop(s, src + 2, eow, words, 0)
               else None
  {
    hide Strtol;
  }

  /** memmove(&words[to], &words[from], n), upwards */
  method Move(words: array<nat>, to: nat, from: nat, n: nat)
    requires from <= to && to + n <= words.Length
    modifies words
    ensures forall j :: 0 <= j < words.Length ==>
              words[j] == if to <= j < to + n then old(words[j - (to - from)]) else old(words[j])
  {
    var k := n;
    while k > 0
      invariant 0 <= k <= n
      invariant forall j :: 0 <= j < words.Length ==>
                  words[j] == if to + k <= j < to + n then old(words[j - (to - from)]) else old(words[j])
    {
      k := k - 1;
      words[to + k] := words[from + k];
    }
  }

  /** memset(&words[at], 0, n) */
  method Clear(words: array<nat>, at: nat, n: nat)
    requires at + n <= words.Length
    modifies words
    ensures forall j :: 0 <= j < words.Length ==> words[j] == if at <= j < at + n then 0 else old(words[j])
  {
    for k := 0 to n
      invariant forall j :: 0 <= j < words.Length ==> words[j] == if at <= j < at + k then 0 else old(words[j])
    {
      words[at + k] := 0;
    }
  }

  /** The words behind the gap move up, and the gap is cleared. */
  method MoveGap(words: array<nat>, n: nat, gap: nat, tail: nat)
    requires words.Length == 8 && gap <= n && n + tail < 8
    modifies words
    ensures var was := old(words[..]);
            words[..] == was[..gap] + seq(8 - n - tail, _ => 0) + was[gap..n] + was[8 - tail..]
  {
    var gapLen := 8 - n - tail;
    ghost var was := words[..];
    Move(words, gap + gapLen, gap, n - gap);
    assert forall j :: 0 <= j < 8 ==> words[j] == if gap + gapLen <= j < gapLen + n then was[j - gapLen] else was[j];
    Clear(words, gap, gapLen);
    Moved(was, words[..], n, gap, tail);
  }

  lemma {:induction false} Moved(was: seq<nat>, s: seq<nat>, n: nat, gap: nat, tail: nat)
    requires |was| == |s| == 8 && gap <= n && n + tail < 8
    requires forall j :: 0 <= j < gap ==> s[j] == was[j]
    requires forall j :: gap <= j < gap + (8 - n - tail) ==> s[j] == 0
    requires forall j :: gap + (8 - n - tail) <= j < 8 - tail ==> s[j] == was[j - (8 - n - tail)]
    requires forall j :: 8 - tail <= j < 8 ==> s[j] == was[j]
    ensures s == was[..gap] + seq(8 - n - tail, _ => 0) + was[gap..n] + was[8 - tail..]
  {
    var g := 8 - n - tail;
    var zeros: seq<nat> := seq(g, _ => 0);
    assert s[..gap] == was[..gap];
    assert s[gap..gap + g] == zeros;
    assert s[gap + g..8 - tail] == was[gap..n];
    assert s[8 - tail..] == was[8 - tail..];
    assert s == s[..gap] + s[gap..gap + g] + s[gap + g..8 - tail] + s[8 - tail..];
  }

  /** evutil_inet_pton(AF_INET6): 1 and the address, or 0. */
  method Pton(s: string) returns (r: int, out: seq<nat>)
    ensures Parse(s).None? ==> r == 0
    ensures Parse(s).Some? ==> r == 1 && out == Parse(s).value
  {
    hide ParseLoop, ScanQuad, FirstDot, BackDigits;
    out := [];
    var words := new nat[8](_ => 0);
    var dot := FindDot(s);
    var eow, tail := |s|, 0;
    if dot < |s| {
      if dot == 0 {
        return 0, [];
      }
      eow := EndOfWords(s, dot);
      var quad := ScanQuad(s[eow..]);
      if quad.None? {
        return 0, [];
      }
      var (a, b, c, d) := quad.value;
      if !(IsByte(a) && IsByte(b) && IsByte(c) && IsByte(d)) {
        return 0, [];
      }
      words[6], words[7] := a * 256 + b, c * 256 + d;
      assert words[6..] == [a * 256 + b, c * 256 + d];
      tail := 2;
    }
    ghost var end := words[8 - tail..];
    assert Parse(s) == ParseTail(s, eow, end);
    r, out := Finish(s, eow, tail, words);
  }

  method Finish(s: string, eow: nat, tail: nat, words: array<nat>) returns (r: int, out: seq<nat>)
    requires eow <= |s| && words.Length == 8 && (tail == 0 || tail == 2)
    modifies words
    ensures ParseTail(s, eow, old(words[8 - tail..])).None? ==> r == 0
    ensures ParseTail(s, eow, old(words[8 - tail..])).Some? ==>
            r == 1 && out == ParseTail(s, eow, old(words[8 - tail..])).value
  {
    hide ParseLoop;
    out := [];
    var ok, n, gap := ReadWords(s, eow, words);
    if !ok {
      return 0, [];
    }
    var count := n + tail;
    if count > 8 || (count == 8 && gap != -1) || (count < 8 && gap == -1) {
      return 0, [];
    }
    ghost var end := old(words[8 - tail..]);
    assert words[8 - tail..] == end;
    ghost var parsed := words[..n];
    if gap >= 0 {
      assert words[..][..gap] == parsed[..gap] && words[..][gap..n] == parsed[gap..] && words[..][8 - tail..] == end;
      MoveGap(words, n, gap, tail);
    } else {
      assert words[..] == parsed + end;
    }
    r, out := 1, words[..];
  }

  /** For every address: what evutil_inet_ntop prints, evutil_inet_pton reads back. */
  method ThereAndBack(a: Address) returns (r: int, back: seq<Byte>)
    ensures r == 1 && back == a
  {
    hide Parse;
    var dst, buf := Ntop(a, 64);
    var w;
    r, w := Pton(dst.value);
    BytesOfWords(a);
    back := BytesOf(w);
  }
}
