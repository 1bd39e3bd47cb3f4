/** IPv6 addresses as text (section 2.2 of RFC 4291): what evutil_inet_ntop prints and evutil_inet_pton reads, on
    strings. */
module Ipv6Text {
  import opened Wrappers
  import opened Bytes

  // ----- numbers as text -----

  predicate IsDigit(c: char) {
    '0' <= c <= '9'
  }

  predicate IsXDigit(c: char) {
    IsDigit(c) || 'a' <= c <= 'f' || 'A' <= c <= 'F'
  }

  function DigitValue(c: char): (r: nat)
    requires IsXDigit(c)
    ensures r < 16
  {
    if IsDigit(c) then (c - '0') as nat
    else if 'a' <= c <= 'f' then (c - 'a') as nat + 10
    else (c - 'A') as nat + 10
  }

  function DigitChar(d: nat): (c: char)
    requires d < 16
    ensures IsXDigit(c) && DigitValue(c) == d && (d < 10 <==> IsDigit(c))
  {
    if d < 10 then '0' + d as char else 'a' + (d - 10) as char
  }

  /** "%x" (base 16) and "%d" (base 10) of a number */
  function Print(n: nat, base: nat): (r: string)
    requires 2 <= base <= 16
    ensures r != []
  {
    if n < base then [DigitChar(n)] else Print(n / base, base) + [DigitChar(n % base)]
  }

  predicate AllDigits(s: string, base: nat) {
    forall i :: 0 <= i < |s| ==> IsXDigit(s[i]) && DigitValue(s[i]) < base
  }

  function Value(s: string, base: nat): nat
    requires AllDigits(s, base)
  {
    if s == [] then 0 else Value(s[..|s| - 1], base) * base + DigitValue(s[|s| - 1])
  }

  lemma {:induction false} ValueAppend(s: string, d: nat, base: nat)
    requires AllDigits(s, base) && d < base <= 16
    ensures AllDigits(s + [DigitChar(d)], base) && Value(s + [DigitChar(d)], base) == Value(s, base) * base + d
  {
    var t := s + [DigitChar(d)];
    assert t[..|t| - 1] == s;
  }

  lemma {:induction false} DivMod(n: nat, base: nat)
    requires base > 0
    ensures n / base * base + n % base == n && n % base < base
  {
  }

  lemma {:induction false} PrintUnfold(n: nat, base: nat)
    requires 2 <= base <= 16
    ensures n < base ==> Print(n, base) == [DigitChar(n)]
    ensures n >= base ==>
            n / base < n && n % base < 16 && Print(n, base) == Print(n / base, base) + [DigitChar(n % base)]
  {
  }

  lemma {:induction false} PrintValue(n: nat, base: nat)
    requires 2 <= base <= 16
    ensures AllDigits(Print(n, base), base) && Value(Print(n, base), base) == n
    decreases n
  {
    hide AllDigits, Value, Print;
    PrintUnfold(n, base);
    if n >= base {
      DivMod(n, base);
      PrintValue(n / base, base);
      ValueAppend(Print(n / base, base), n % base, base);
    } else {
      NoDigits(base);
      ValueAppend([], n, base);
      assert [] + [DigitChar(n)] == Print(n, base);
    }
  }

  lemma {:induction false} NoDigits(base: nat)
    ensures AllDigits([], base) && Value([], base) == 0
  {
  }

  lemma {:induction false} PrintShort(n: nat)
    requires n < 65536
    ensures |Print(n, 16)| <= 4
  {
    assert n / 16 < 4096 && n / 16 / 16 < 256 && n / 16 / 16 / 16 < 16;
    assert |Print(n / 16 / 16 / 16, 16)| == 1;
    assert |Print(n / 16 / 16, 16)| <= 2;
    assert |Print(n / 16, 16)| <= 3;
  }

  // ----- strtol and sscanf -----

  /** The end of the run of digits of the base that starts at i. */
  function DigitsEnd(s: string, i: nat, base: nat): (r: nat)
    requires i <= |s|
    ensures i <= r <= |s| && AllDigits(s[i..r], base)
    ensures r < |s| ==> !(IsXDigit(s[r]) && DigitValue(s[r]) < base)
    decreases |s| - i
  {
    if i < |s| && IsXDigit(s[i]) && DigitValue(s[i]) < base then
      var r := DigitsEnd(s, i + 1, base);
      assert s[i..r] == [s[i]] + s[i + 1..r];
      r
    else i
  }

  /** strtol(s + i, &next, 16) where s[i] is a hexadecimal digit: the value and next. It skips a "0x" prefix. */
  function Strtol(s: string, i: nat): (r: (nat, nat))
    requires i < |s| && IsXDigit(s[i])
    ensures i < r.1 <= |s|
  {
    var from := if s[i] == '0' && i + 2 < |s| && (s[i + 1] == 'x' || s[i + 1] == 'X') && IsXDigit(s[i + 2])
                then i + 2 else i;
    var end := DigitsEnd(s, from, 16);
    (Value(s[from..end], 16), end)
  }

  predicate IsSpace(c: char) {
    c == ' ' || '\t' <= c <= '\r'
  }

  function SkipSpace(s: string): (r: string)
    decreases |s|
  {
    if s != [] && IsSpace(s[0]) then SkipSpace(s[1..]) else s
  }

  /** "%d": white space, a sign, digits. */
  function ScanInt(s: string): (r: Option<(int, string)>) {
    var t := SkipSpace(s);
    var signed := t != [] && (t[0] == '-' || t[0] == '+');
    var u := if signed then t[1..] else t;
    var end := DigitsEnd(u, 0, 10);
    if end == 0 then None
    else
      var v: int := Value(u[0..end], 10);
      Some((if signed && t[0] == '-' then -v else v, u[end..]))
  }

  function ScanDot(s: string): (r: Option<string>) {
    if s != [] && s[0] == '.' then Some(s[1..]) else None
  }

  /** sscanf("%d.%d.%d.%d%c") == 4: four numbers, and nothing after them. */
  function ScanQuad(s: string): (r: Option<(int, int, int, int)>) {
    match ScanNumberDot(s)
    case None => None
    case Some((a, s1)) =>
      match ScanNumberDot(s1)
      case None => None
      case Some((b, s2)) =>
        match ScanNumberDot(s2)
        case None => None
        case Some((c, s3)) =>
          match ScanInt(s3)
          case None => None
          case Some((d, s4)) => if s4 == [] then Some((a, b, c, d)) else None
  }

  function ScanNumberDot(s: string): (r: Option<(int, string)>) {
    match ScanInt(s)
    case None => None
    case Some((n, t)) =>
      match ScanDot(t)
      case None => None
      case Some(u) => Some((n, u))
  }

  lemma {:induction false} DigitsEndAt(s: string, i: nat, end: nat, base: nat)
    requires i <= end <= |s| && AllDigits(s[i..end], base)
    requires end < |s| ==> !(IsXDigit(s[end]) && DigitValue(s[end]) < base)
    ensures DigitsEnd(s, i, base) == end
    decreases end - i
  {
    if i < end {
      assert s[i] == s[i..end][0];
      assert s[i + 1..end] == s[i..end][1..];
      DigitsEndAt(s, i + 1, end, base);
    }
  }

  /** A printed word is read back, if no digit follows. */
  lemma {:induction false} StrtolWord(s: string, i: nat, w: nat)
    requires i + |Print(w, 16)| <= |s| && s[i..i + |Print(w, 16)|] == Print(w, 16)
    requires i + |Print(w, 16)| < |s| ==> s[i + |Print(w, 16)|] == ':'
    ensures IsXDigit(s[i]) && Strtol(s, i) == (w, i + |Print(w, 16)|)
  {
    var p := Print(w, 16);
    PrintValue(w, 16);
    assert forall k :: 0 <= k < |p| ==> s[i + k] == p[k];
    DigitsEndAt(s, i, i + |p|, 16);
  }

  lemma {:induction false} ScanPrinted(n: nat, rest: string)
    requires rest != [] ==> rest[0] == '.'
    ensures ScanInt(Print(n, 10) + rest) == Some((n, rest))
  {
    var p := Print(n, 10);
    var s := p + rest;
    PrintValue(n, 10);
    assert s[0] == p[0] && IsDigit(p[0]);
    assert s[0..|p|] == p && s[|p|..] == rest;
    hide Print, Value;
    DigitsEndAt(s, 0, |p|, 10);
  }

  function PrintQuad(a: nat, b: nat, c: nat, d: nat): string {
    Print(a, 10) + ("." + (Print(b, 10) + ("." + (Print(c, 10) + ("." + Print(d, 10))))))
  }

  lemma {:induction false} ScanNumberDotPrinted(n: nat, rest: string)
    ensures ScanNumberDot(Print(n, 10) + ("." + rest)) == Some((n, rest))
  {
    ScanPrinted(n, "." + rest);
    hide Print, ScanInt;
    assert ("." + rest)[1..] == rest;
  }

  lemma {:induction false} ScanQuadPrinted(a: nat, b: nat, c: nat, d: nat)
    ensures ScanQuad(PrintQuad(a, b, c, d)) == Some((a as int, b as int, c as int, d as int))
  {
    hide Print, ScanNumberDot, ScanInt;
    var s3 := Print(d, 10);
    var s2 := Print(c, 10) + ("." + s3);
    var s1 := Print(b, 10) + ("." + s2);
    ScanNumberDotPrinted(a, s1);
    ScanNumberDotPrinted(b, s2);
    ScanNumberDotPrinted(c, s3);
    assert s3 + [] == s3;
    ScanPrinted(d, []);
  }

  // ----- the printer -----

  type Words = w: seq<nat> | |w| == 8 && forall i :: 0 <= i < 8 ==> w[i] < 65536
    witness [0, 0, 0, 0, 0, 0, 0, 0]

  type Address = a: seq<Byte> | |a| == 16
    witness [0, 0, 0, 0, 0, 0, 0, 0, 0, 0, 0, 0, 0, 0, 0, 0]

  function WordsOf(a: Address): Words {
    seq(8, i requires 0 <= i < 8 => (a[2 * i] as int) * 256 + a[2 * i + 1])
  }

  function BytesOf(w: Words): Address {
    seq(16, i requires 0 <= i < 16 => if i % 2 == 0 then w[i / 2] / 256 else w[i / 2] % 256)
  }

  lemma {:induction false} BytesOfWords(a: Address)
    ensures BytesOf(WordsOf(a)) == a
  {
    forall i | 0 <= i < 16
      ensures BytesOf(WordsOf(a))[i] == a[i]
    {
      var k := i / 2;
      assert WordsOf(a)[k] == (a[2 * k] as int) * 256 + a[2 * k + 1];
    }
  }

  /** Each word with a colon behind it. */
  function Each(ws: seq<nat>): string {
    if ws == [] then [] else Print(ws[0], 16) + (":" + Each(ws[1..]))
  }

  /** The words with colons between them. */
  function Join(ws: seq<nat>): string {
    if ws == [] then [] else Each(ws[..|ws| - 1]) + Print(ws[|ws| - 1], 16)
  }

  /** All words, or the words before and after a gap. A gap at the start is "::", one further on a second colon. */
  function Text(w: seq<nat>, pos: int, len: int): string
    requires pos < 0 || (0 <= len && pos + len <= |w|)
  {
    if pos < 0 then Join(w)
    else (if pos == 0 then "::" else Each(w[..pos]) + ":") + Join(w[pos + len..])
  }

  predicate IsV4(w: Words) {
    && w[0] == 0 && w[1] == 0 && w[2] == 0 && w[3] == 0 && w[4] == 0
    && ((w[5] == 0 && w[6] != 0 && w[7] != 0) || w[5] == 0xffff)
  }

  function V4Text(a: Address): string {
    (if WordsOf(a)[5] == 0 then "::" else "::" + Each([WordsOf(a)[5]])) + PrintQuad(a[12], a[13], a[14], a[15])
  }

  // ----- the gap -----

  ghost predicate ZeroRun(w: seq<nat>, pos: nat, len: nat) {
    pos + len <= |w| && forall i :: pos <= i < pos + len ==> w[i] == 0
  }

  /** The first of the longest runs of zero words, of two or more; pos == -1 if there is none. */
  ghost predicate IsGap(w: seq<nat>, pos: int, len: int) {
    if pos == -1 then forall p: nat, n: nat :: ZeroRun(w, p, n) ==> n <= 1
    else
      && 0 <= pos && 2 <= len && ZeroRun(w, pos, len)
      && (pos + len < |w| ==> w[pos + len] != 0)
      && forall p: nat, n: nat :: ZeroRun(w, p, n) ==> n <= len && (n == len ==> pos <= p)
  }

  // ----- the parser -----

  /** The loop over the words: those read so far and the position of the gap. */
  function ParseLoop(s: string, src: nat, eow: nat, words: seq<nat>, gap: int): (r: Option<(seq<nat>, int)>)
    requires eow <= |s| && -1 <= gap <= |words|
    ensures r.Some? ==> -1 <= r.value.1 <= |r.value.0|
    decreases eow - src
  {
    if src >= eow then Some((words, gap))
    else if |words| > 7 then None
    else if IsXDigit(s[src]) then
      var (r, next) := Strtol(s, src);
      if next > src + 4 || r > 65536 then None
      else if (next == |s| || s[next] != ':') && next != eow then None
      else ParseLoop(s, next + 1, eow, words + [r], gap)
    else if s[src] == ':' && |words| > 0 && gap == -1 then
      ParseLoop(s, src + 1, eow, words, |words|)
    else if s[src] == ':' && |words| == 0 && src + 1 < |s| && s[src + 1] == ':' && gap == -1 then
      ParseLoop(s, src + 2, eow, words, 0)
    else None
  }

  /** strchr(s, '.') */
  function FirstDot(s: string): (r: nat)
    ensures r <= |s| && (r < |s| ==> s[r] == '.') && forall i :: 0 <= i < r ==> s[i] != '.'
  {
    if s == [] then 0 else if s[0] == '.' then 0 else
      var r := FirstDot(s[1..]) + 1;
      assert forall i :: 0 < i < r ==> s[i] == s[1..][i - 1];
      r
  }

  /** Where the digits that end at i begin. */
  function BackDigits(s: string, i: nat): (r: nat)
    requires i <= |s|
    ensures r <= i && (forall k :: r <= k < i ==> IsDigit(s[k])) && (r > 0 ==> !IsDigit(s[r - 1]))
  {
    if i > 0 && IsDigit(s[i - 1]) then BackDigits(s, i - 1) else i
  }

  /** The words before the gap, zeros, the words after it, and the words of the dotted part. */
  function Assemble(words: seq<nat>, gap: int, tail: seq<nat>): (r: Option<seq<nat>>)
    requires -1 <= gap <= |words|
    ensures r.Some? ==> |r.value| == 8
  {
    var n := |words| + |tail|;
    if n > 8 || (n == 8 && gap != -1) || (n < 8 && gap == -1) then None
    else if gap == -1 then Some(words + tail)
    else Some(words[..gap] + seq(8 - n, _ => 0) + words[gap..] + tail)
  }

  function IsByte(x: int): bool {
    0 <= x <= 255
  }

  /** evutil_inet_pton(AF_INET6): the eight words, or nothing. */
  function Parse(s: string): (r: Option<seq<nat>>)
    ensures r.Some? ==> |r.value| == 8
  {
    var dot := FirstDot(s);
    if dot == |s| then ParseTail(s, |s|, [])
    else if dot == 0 then None
    else
      var eow := BackDigits(s, dot);
      match ScanQuad(s[eow..])
      case None => None
      case Some((a, b, c, d)) =>
        if !(IsByte(a) && IsByte(b) && IsByte(c) && IsByte(d)) then None
        else ParseTail(s, eow, [a * 256 + b, c * 256 + d])
  }

  function ParseTail(s: string, eow: nat, tail: seq<nat>): (r: Option<seq<nat>>)
    requires eow <= |s|
    ensures r.Some? ==> |r.value| == 8
  {
    match ParseLoop(s, 0, eow, [], -1)
    case None => None
    case Some((words, gap)) => Assemble(words, gap, tail)
  }

  // ----- reading back what was printed -----

  ghost predicate At(s: string, i: nat, t: string) {
    i + |t| <= |s| && s[i..i + |t|] == t
  }

  lemma {:induction false} AtParts(s: string, i: nat, t: string, u: string)
    requires At(s, i, t + u)
    ensures At(s, i, t) && At(s, i + |t|, u)
  {
    assert s[i..i + |t|] == (t + u)[..|t|];
    assert s[i + |t|..i + |t| + |u|] == (t + u)[|t|..];
  }

  lemma {:induction false} ParseWord(s: string, src: nat, eow: nat, words: seq<nat>, gap: int, w: nat)
    requires eow <= |s| && -1 <= gap <= |words| && |words| <= 7 && w < 65536 && src < eow
    requires At(s, src, Print(w, 16))
    requires var next := src + |Print(w, 16)|; (next == |s| && next == eow) || At(s, next, ":")
    ensures ParseLoop(s, src, eow, words, gap) == ParseLoop(s, src + |Print(w, 16)| + 1, eow, words + [w], gap)
  {
    PrintShort(w);
    var next := src + |Print(w, 16)|;
    assert next < |s| ==> s[next] == s[next..next + 1][0];
    StrtolWord(s, src, w);
    hide Print, Strtol;
  }

  lemma {:induction false} ParseEach(s: string, src: nat, eow: nat, words: seq<nat>, gap: int, ws: seq<nat>)
    requires eow <= |s| && -1 <= gap <= |words| && |words| + |ws| <= 8 && forall i :: 0 <= i < |ws| ==> ws[i] < 65536
    requires At(s, src, Each(ws)) && src + |Each(ws)| <= eow
    ensures ParseLoop(s, src, eow, words, gap) == ParseLoop(s, src + |Each(ws)|, eow, words + ws, gap)
    decreases |ws|
  {
    hide ParseLoop, Print;
    if ws == [] {
      assert words + ws == words;
    } else {
      var p := Print(ws[0], 16);
      AtParts(s, src, p, ":" + Each(ws[1..]));
      AtParts(s, src + |p|, ":", Each(ws[1..]));
      ParseWord(s, src, eow, words, gap, ws[0]);
      ParseEach(s, src + |p| + 1, eow, words + [ws[0]], gap, ws[1..]);
      assert words + [ws[0]] + ws[1..] == words + ws;
    }
  }

  /** The rest of the text is words with colons between them. */
  lemma {:induction false} ParseJoin(s: string, src: nat, words: seq<nat>, gap: int, ws: seq<nat>)
    requires -1 <= gap <= |words| && |words| + |ws| <= 8 && forall i :: 0 <= i < |ws| ==> ws[i] < 65536
    requires At(s, src, Join(ws)) && src + |Join(ws)| == |s|
    ensures ParseLoop(s, src, |s|, words, gap) == Some((words + ws, gap))
  {
    hide Print, ParseLoop, Each;
    if ws == [] {
      assert words + ws == words;
      ParseEnd(s, src, |s|, words, gap);
    } else {
      var n := |ws| - 1;
      var t, w := ws[..n], ws[n];
      assert words + t + [w] == words + ws;
      assert forall i :: 0 <= i < |t| ==> t[i] == ws[i];
      assert Join(ws) == Each(t) + Print(w, 16);
      hide Join;
      AtParts(s, src, Each(t), Print(w, 16));
      ParseEach(s, src, |s|, words, gap, t);
      ParseFinal(s, src + |Each(t)|, words + t, gap, w);
    }
  }

  lemma {:induction false} ParseFinal(s: string, src: nat, words: seq<nat>, gap: int, w: nat)
    requires -1 <= gap <= |words| <= 7 && w < 65536
    requires At(s, src, Print(w, 16)) && src + |Print(w, 16)| == |s|
    ensures ParseLoop(s, src, |s|, words, gap) == Some((words + [w], gap))
  {
    PrintShort(w);
    hide Print, ParseLoop;
    ParseWord(s, src, |s|, words, gap, w);
    ParseEnd(s, |s| + 1, |s|, words + [w], gap);
  }

  lemma {:induction false} ParseEnd(s: string, src: nat, eow: nat, words: seq<nat>, gap: int)
    requires eow <= |s| && -1 <= gap <= |words| && src >= eow
    ensures ParseLoop(s, src, eow, words, gap) == Some((words, gap))
  {
  }

  /** No character that ends the words or begins a dotted part. */
  ghost predicate Plain(s: string) {
    forall i :: 0 <= i < |s| ==> IsXDigit(s[i]) || s[i] == ':'
  }

  lemma {:induction false} PlainEach(ws: seq<nat>)
    ensures Plain(Each(ws))
    decreases |ws|
  {
    if ws != [] {
      PrintValue(ws[0], 16);
      hide Print;
      PlainEach(ws[1..]);
    }
  }

  lemma {:induction false} PlainText(w: seq<nat>, pos: int, len: int)
    requires pos < 0 || (0 <= len && pos + len <= |w|)
    ensures Plain(Text(w, pos, len))
  {
    if pos >= 0 {
      PlainEach(w[..pos]);
      PlainJoin(w[pos + len..]);
    } else {
      PlainJoin(w);
    }
    hide Each, Join;
  }

  lemma {:induction false} PlainJoin(ws: seq<nat>)
    ensures Plain(Join(ws))
  {
    if ws != [] {
      PlainEach(ws[..|ws| - 1]);
      PrintValue(ws[|ws| - 1], 16);
      hide Print, Each;
    }
  }

  lemma {:induction false} TwoColons(s: string, eow: nat)
    requires 2 <= eow <= |s| && s[0] == ':' && s[1] == ':'
    ensures ParseLoop(s, 0, eow, [], -1) == ParseLoop(s, 2, eow, [], 0)
  {
  }

  lemma {:induction false} SecondColon(s: string, src: nat, eow: nat, words: seq<nat>)
    requires src < eow <= |s| && s[src] == ':' && 0 < |words| <= 7
    ensures ParseLoop(s, src, eow, words, -1) == ParseLoop(s, src + 1, eow, words, |words|)
  {
  }

  lemma {:induction false} LoopReadsText(w: Words, pos: int, len: int)
    requires pos < 0 || (0 < len && pos + len <= 8)
    ensures var s := Text(w, pos, len);
            ParseLoop(s, 0, |s|, [], -1) == Some(if pos < 0 then (w, -1) else (w[..pos] + w[pos + len..], pos))
  {
    hide ParseLoop, Join, Each, Print;
    var s := Text(w, pos, len);
    if pos < 0 {
      assert s[0..0 + |s|] == s;
      ParseJoin(s, 0, [], -1, w);
      assert [] + w == w;
    } else if pos == 0 {
      var rest := w[len..];
      assert s[2..] == Join(rest);
      TwoColons(s, |s|);
      ParseJoin(s, 2, [], 0, rest);
      assert w[..0] + rest == [] + rest;
    } else {
      var before, rest := w[..pos], w[pos + len..];
      var k := |Each(before)|;
      assert s[0..0 + k] == Each(before) && s[k] == ':' && s[k + 1..] == Join(rest);
      ParseEach(s, 0, |s|, [], -1, before);
      assert [] + before == before;
      SecondColon(s, k, |s|, before);
      ParseJoin(s, k + 1, before, pos, rest);
    }
  }

  lemma {:induction false} NoDot(s: string)
    requires Plain(s)
    ensures FirstDot(s) == |s|
  {
  }

  /** Whatever run of zeros is left out of the text, reading the text puts it back. */
  lemma {:induction false} TextRoundTrip(w: Words, pos: int, len: int)
    requires pos < 0 || (0 < len && ZeroRun(w, pos, len))
    ensures Parse(Text(w, pos, len)) == Some(w)
  {
    hide Text, ParseLoop;
    var s := Text(w, pos, len);
    PlainText(w, pos, len);
    NoDot(s);
    LoopReadsText(w, pos, len);
    if pos < 0 {
      assert w + [] == w;
    } else {
      var words := w[..pos] + w[pos + len..];
      assert words[..pos] == w[..pos] && words[pos..] == w[pos + len..];
      assert w[..pos] + seq(8 - |words|, _ => 0) + w[pos + len..] + [] == w;
    }
  }

  lemma {:induction false} DotAt(s: string, k: nat)
    requires k < |s| && s[k] == '.' && forall i :: 0 <= i < k ==> s[i] != '.'
    ensures FirstDot(s) == k
  {
  }

  lemma {:induction false} BackAt(s: string, i: nat, r: nat)
    requires r <= i <= |s| && (forall k :: r <= k < i ==> IsDigit(s[k])) && (r > 0 ==> !IsDigit(s[r - 1]))
    ensures BackDigits(s, i) == r
    decreases i
  {
    if i > r { BackAt(s, i - 1, r); }
  }

  lemma {:induction false} DecimalDigits(n: nat)
    ensures forall i :: 0 <= i < |Print(n, 10)| ==> IsDigit(Print(n, 10)[i])
  {
    PrintValue(n, 10);
  }

  /** A text that ends in a dotted part, behind a colon. */
  lemma {:induction false} DottedParts(p: string, a: nat, b: nat, c: nat, d: nat)
    requires p != [] && Plain(p) && p[|p| - 1] == ':'
    ensures var s := p + PrintQuad(a, b, c, d);
            && |p| + |Print(a, 10)| < |s| && FirstDot(s) == |p| + |Print(a, 10)|
            && BackDigits(s, |p| + |Print(a, 10)|) == |p|
            && s[|p|..] == PrintQuad(a, b, c, d)
  {
    hide FirstDot, BackDigits, Print;
    var s := p + PrintQuad(a, b, c, d);
    var q := Print(a, 10);
    DecimalDigits(a);
    assert forall i :: 0 <= i < |q| ==> s[|p| + i] == q[i];
    var k := |p| + |q|;
    assert s[k] == '.';
    forall i | 0 <= i < k
      ensures s[i] != '.' && (i >= |p| ==> IsDigit(s[i]))
    {
      if i < |p| { assert s[i] == p[i]; } else { assert s[i] == q[i - |p|]; }
    }
    DotAt(s, k);
    assert s[|p| - 1] == ':';
    BackAt(s, k, |p|);
  }

  /** The part of the text before the dotted part. */
  function V4Prefix(w: Words): string {
    if w[5] == 0 then "::" else "::" + Each([w[5]])
  }

  lemma {:induction false} PrefixReads(w: Words, rest: string)
    ensures var p := V4Prefix(w);
            && Plain(p) && p[|p| - 1] == ':'
            && ParseLoop(p + rest, 0, |p|, [], -1) == Some((if w[5] == 0 then [] else [w[5]], 0))
  {
    hide ParseLoop, Print;
    var p := V4Prefix(w);
    var s := p + rest;
    TwoColons(s, |p|);
    if w[5] == 0 {
      ParseEnd(s, 2, |p|, [], 0);
    } else {
      PlainEach([w[5]]);
      assert Each([w[5]]) == Print(w[5], 16) + ":" by {
        assert [w[5]][1..] == [];
        assert ":" + [] == ":";
      }
      hide Each;
      assert s[2..2 + |Each([w[5]])|] == Each([w[5]]);
      ParseEach(s, 2, |p|, [], 0, [w[5]]);
      assert [] + [w[5]] == [w[5]];
      ParseEnd(s, |p|, |p|, [w[5]], 0);
    }
  }

  lemma {:induction false} V4RoundTrip(a: Address)
    requires IsV4(WordsOf(a))
    ensures Parse(V4Text(a)) == Some(WordsOf(a))
  {
    hide ParseLoop, PrintQuad, ScanQuad, FirstDot, BackDigits, Each;
    var w := WordsOf(a);
    var p, q := V4Prefix(w), PrintQuad(a[12], a[13], a[14], a[15]);
    assert V4Text(a) == p + q;
    PrefixReads(w, q);
    DottedParts(p, a[12], a[13], a[14], a[15]);
    ScanQuadPrinted(a[12], a[13], a[14], a[15]);
    V4Assemble(w);
    assert w[6] == (a[12] as int) * 256 + a[13] && w[7] == (a[14] as int) * 256 + a[15];
    assert ParseTail(p + q, |p|, [w[6], w[7]]) == Some(w);
  }

  lemma {:induction false} V4Assemble(w: Words)
    requires IsV4(w)
    ensures Assemble(if w[5] == 0 then [] else [w[5]], 0, [w[6], w[7]]) == Some(w)
  {
    var words := if w[5] == 0 then [] else [w[5]];
    assert words[..0] == [] && words[0..] == words;
    assert [] + seq(6 - |words|, _ => 0) + words + [w[6], w[7]] == w;
  }
}
