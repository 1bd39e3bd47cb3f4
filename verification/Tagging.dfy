/** The wire format of event_tagging.c: nibble-coded integers, base-128 tags, and streams of tagged data. */
module Tagging {
  import opened Wrappers
  import opened Bytes

  function Pow16(n: nat): nat {
    if n == 0 then 1 else 16 * Pow16(n - 1)
  }

  // ----- integers -----

  /** The significant nibbles of a number, lowest first. */
  function Digits(n: nat): (r: seq<nat>)
    ensures forall i :: 0 <= i < |r| ==> r[i] < 16
  {
    if n == 0 then [] else [n % 16] + Digits(n / 16)
  }

  /** At most k nibbles are needed exactly for the numbers below 16^k. */
  lemma {:induction false} DigitsFit(n: nat, k: nat)
    ensures |Digits(n)| <= k <==> n < Pow16(k)
    decreases n
  {
    if n > 0 && k > 0 {
      DigitsFit(n / 16, k - 1);
      assert n == 16 * (n / 16) + n % 16;
    } else {
      PowPositive(k);
    }
  }

  lemma {:induction false} PowPositive(k: nat)
    ensures Pow16(k) >= 1
  {
    if k > 0 { PowPositive(k - 1); }
  }

  /** Nibble k of a byte string, the high one of each byte first. */
  function NibbleAt(s: seq<Byte>, k: nat): (r: nat)
    requires k / 2 < |s|
    ensures r < 16
  {
    if k % 2 == 0 then s[k / 2] / 16 else s[k / 2] % 16
  }

  /** Two nibbles to a byte, padded with a zero nibble. */
  function Pack(ns: seq<nat>): (r: seq<Byte>)
    requires forall i :: 0 <= i < |ns| ==> ns[i] < 16
    ensures |r| == (|ns| + 1) / 2
    decreases |ns|
  {
    if ns == [] then []
    else if |ns| == 1 then [16 * ns[0]]
    else [16 * ns[0] + ns[1]] + Pack(ns[2..])
  }

  lemma {:induction false} PackNibble(ns: seq<nat>, k: nat)
    requires (forall i :: 0 <= i < |ns| ==> ns[i] < 16) && k / 2 < |Pack(ns)|
    ensures NibbleAt(Pack(ns), k) == if k < |ns| then ns[k] else 0
    decreases |ns|
  {
    if k >= 2 {
      PackNibble(ns[2..], k - 2);
      assert Pack(ns)[k / 2] == Pack(ns[2..])[(k - 2) / 2];
    }
  }

  /** A byte string is given by its nibbles. */
  lemma {:induction false} SameNibbles(s: seq<Byte>, t: seq<Byte>)
    requires |s| == |t| && forall k: nat :: k / 2 < |s| ==> NibbleAt(s, k) == NibbleAt(t, k)
    ensures s == t
  {
    forall i | 0 <= i < |s|
      ensures s[i] == t[i]
    {
      assert NibbleAt(s, 2 * i) == NibbleAt(t, 2 * i);
      assert NibbleAt(s, 2 * i + 1) == NibbleAt(t, 2 * i + 1);
    }
  }

  /** The header nibble: the number of nibbles less one, zero for the number 0. */
  function Header(n: nat): int {
    var d := |Digits(n)|;
    if d > 1 then d - 1 else 0
  }

  /** The encoding of an integer below 16^16. */
  function IntBytes(n: nat): (r: seq<Byte>)
    requires |Digits(n)| <= 16
  {
    Pack([Header(n)] + Digits(n))
  }

  /** The number in nibbles k to n, lowest first. */
  function ValueFrom(s: seq<Byte>, k: nat, n: nat): nat
    requires n / 2 < |s|
    decreases n + 1 - k
  {
    if k > n then 0 else NibbleAt(s, k) + 16 * ValueFrom(s, k + 1, n)
  }

  /** Decoding: the number and how many bytes it took. */
  function DecodeInt(s: seq<Byte>, maxNibbles: nat): (r: Option<(nat, nat)>)
    ensures r.Some? ==> 0 < r.value.1 <= |s|
  {
    if s == [] then None else
      var nibbles := s[0] / 16 + 1;
      if nibbles > maxNibbles || nibbles / 2 + 1 > |s| then None
      else Some((ValueFrom(s, 1, nibbles), nibbles / 2 + 1))
  }

  function DigitOr0(d: seq<nat>, i: int): nat {
    if 0 <= i < |d| then d[i] else 0
  }

  lemma {:induction false} ValueOfDigits(s: seq<Byte>, k: nat, n: nat, v: nat)
    requires n / 2 < |s| && k + |Digits(v)| <= n + 1
    requires forall j: nat :: k <= j <= n ==> NibbleAt(s, j) == DigitOr0(Digits(v), j - k)
    ensures ValueFrom(s, k, n) == v
    decreases n + 1 - k
  {
    if k <= n {
      var d := Digits(v / 16);
      assert v > 0 ==> Digits(v) == [v % 16] + d;
      forall j: nat | k + 1 <= j <= n
        ensures NibbleAt(s, j) == DigitOr0(d, j - (k + 1))
      {
        assert NibbleAt(s, j) == DigitOr0(Digits(v), j - k);
      }
      hide NibbleAt;
      ValueOfDigits(s, k + 1, n, v / 16);
    }
  }

  lemma {:induction false} PrefixNibble(s: seq<Byte>, rest: seq<Byte>, k: nat)
    requires k / 2 < |s|
    ensures NibbleAt(s + rest, k) == NibbleAt(s, k)
  {
  }

  /** Both integer codecs are self-delimiting inverses: whatever follows, decoding gives the number back and takes
      just its own bytes. (32-bit numbers: maxNibbles 8; 64-bit numbers: maxNibbles 16.) */
  lemma {:induction false} IntRoundTrip(n: nat, rest: seq<Byte>, maxNibbles: nat)
    requires 1 <= maxNibbles <= 16 && n < Pow16(maxNibbles)
    ensures |Digits(n)| <= 16
    ensures DecodeInt(IntBytes(n) + rest, maxNibbles) == Some((n, |IntBytes(n)|))
  {
    DigitsFit(n, maxNibbles);
    var nibbles := Header(n) + 1;
    var s := IntBytes(n) + rest;
    forall k: nat | k <= nibbles
      ensures k / 2 < |IntBytes(n)| && NibbleAt(s, k) == if k == 0 then Header(n) else DigitOr0(Digits(n), k - 1)
    {
      IntNibble(n, k);
      hide NibbleAt;
      PrefixNibble(IntBytes(n), rest, k);
    }
    assert NibbleAt(s, 0) == Header(n);
    assert nibbles / 2 + 1 == |IntBytes(n)| <= |s|;
    assert s[0] / 16 == Header(n);
    hide NibbleAt, IntBytes;
    ValueOfDigits(s, 1, nibbles, n);
  }

  lemma {:induction false} IntNibble(n: nat, k: nat)
    requires |Digits(n)| <= 16 && k / 2 < |IntBytes(n)|
    ensures NibbleAt(IntBytes(n), k) == if k == 0 then Header(n) else DigitOr0(Digits(n), k - 1)
  {
    PackNibble([Header(n)] + Digits(n), k);
  }

  // ----- tags -----

  /** Base 128, lowest digit first, the high bit on all bytes but the last. */
  function TagBytes(tag: nat): (r: seq<Byte>)
    ensures r != []
  {
    if tag < 128 then [tag] else [tag % 128 + 128] + TagBytes(tag / 128)
  }

  function DecodeTag(s: seq<Byte>): (r: Option<(nat, nat)>)
    ensures r.Some? ==> 0 < r.value.1 <= |s|
    decreases |s|
  {
    if s == [] then None
    else if s[0] < 128 then Some((s[0] as nat, 1))
    else
      match DecodeTag(s[1..])
      case None => None
      case Some((n, c)) => Some((s[0] - 128 + 128 * n, c + 1))
  }

  lemma {:induction false} TagRoundTrip(tag: nat, rest: seq<Byte>)
    ensures DecodeTag(TagBytes(tag) + rest) == Some((tag, |TagBytes(tag)|))
    decreases tag
  {
    var s := TagBytes(tag) + rest;
    if tag >= 128 {
      TagRoundTrip(tag / 128, rest);
      assert s[1..] == TagBytes(tag / 128) + rest;
    }
  }

  // ----- tagged data -----

  const UINT32: nat := 0x1_0000_0000
  const INT31: nat := 0x8000_0000

  lemma {:induction false} IsPow()
    ensures Pow16(8) == UINT32 && Pow16(16) == UINT32 * UINT32
  {
    PowStep(4);
    PowStep(8);
    PowStep(12);
  }

  lemma {:induction false} PowStep(n: nat)
    ensures Pow16(n + 4) == 65536 * Pow16(n)
  {
    assert Pow16(n + 4) == 16 * Pow16(n + 3);
    assert Pow16(n + 3) == 16 * Pow16(n + 2);
    assert Pow16(n + 2) == 16 * Pow16(n + 1);
  }

  /** A tag and a payload that evtag_marshal and evtag_unmarshal are good for. */
  datatype Item = Item(tag: nat, payload: seq<Byte>)

  predicate ItemOk(i: Item) {
    i.tag < UINT32 && |i.payload| < INT31
  }

  lemma {:induction false} ShortDigits(n: nat)
    requires n < UINT32
    ensures |Digits(n)| <= 8
  {
    IsPow();
    DigitsFit(n, 8);
  }

  function Marshal(i: Item): (r: seq<Byte>)
    requires ItemOk(i)
  {
    ShortDigits(|i.payload|);
    TagBytes(i.tag) + IntBytes(|i.payload|) + i.payload
  }

  function AsInt(n: nat): int {
    var u := n % UINT32;
    if u < INT31 then u else u - UINT32
  }

  /** evbuffer_drain, which does nothing on a buffer whose start is frozen. */
  function Drained(s: seq<Byte>, n: nat, frozen: bool): seq<Byte> {
    if frozen then s else if n <= |s| then s[n..] else []
  }

  /** evtag_unmarshal_header: the int it returns (-1 for an error), the tag, and what it leaves in the buffer, also
      when it fails. */
  function UnmarshalHeader(s: seq<Byte>, frozen: bool): (r: (int, nat, seq<Byte>)) {
    match DecodeTag(s)
    case None => (-1, 0, s)
    case Some((tag, c)) =>
      var s1 := Drained(s, c, frozen);
      match DecodeInt(s1, 8)
      case None => (-1, tag % UINT32, s1)
      case Some((len, k)) =>
        var s2 := Drained(s1, k, frozen);
        if |s2| < len then (-1, tag % UINT32, s2) else (AsInt(len), tag % UINT32, s2)
  }

  /** evtag_unmarshal: the item, and the rest of the buffer. `refused` says that the other buffer takes nothing. */
  function Unmarshal(s: seq<Byte>, frozen: bool, refused: bool): (r: (Option<Item>, seq<Byte>)) {
    var (len, tag, rest) := UnmarshalHeader(s, frozen);
    if 0 <= len <= |rest| && !refused then (Some(Item(tag, rest[..len])), Drained(rest, len, frozen)) else (None, rest)
  }

  lemma {:induction false} HeaderFits(s: seq<Byte>, frozen: bool)
    ensures var (len, _, rest) := UnmarshalHeader(s, frozen); len <= |rest|
  {
    hide DecodeTag, DecodeInt;
  }

  /** The length is one that turns negative as an int, but is not taken for an error. */
  predicate Negative(s: seq<Byte>, frozen: bool) {
    UnmarshalHeader(s, frozen).0 < -1
  }

  /** That is so exactly if the buffer holds a payload of 2^31 bytes or more, but not of 2^32 - 1. */
  lemma {:induction false} NegativeExactly(s: seq<Byte>)
    ensures Negative(s, false) <==>
            && DecodeTag(s).Some? && DecodeInt(s[DecodeTag(s).value.1..], 8).Some?
            && var (len, k) := DecodeInt(s[DecodeTag(s).value.1..], 8).value;
               INT31 <= len % UINT32 < UINT32 - 1 && DecodeTag(s).value.1 + k + len <= |s|
  {
    hide DecodeTag, DecodeInt;
  }

  lemma {:induction false} HeaderOf(s: seq<Byte>, tag: nat, c: nat, len: nat, k: nat)
    requires DecodeTag(s) == Some((tag, c)) && DecodeInt(s[c..], 8) == Some((len, k))
    requires tag < UINT32 && len < INT31 && len <= |s[c..][k..]|
    ensures UnmarshalHeader(s, false) == (len, tag, s[c..][k..])
  {
    hide DecodeTag, DecodeInt;
    assert AsInt(len) == len && tag % UINT32 == tag;
  }

  lemma {:induction false} ShortRoundTrip(n: nat, rest: seq<Byte>)
    requires n < UINT32
    ensures |Digits(n)| <= 16 && DecodeInt(IntBytes(n) + rest, 8) == Some((n, |IntBytes(n)|))
  {
    IsPow();
    hide DecodeInt, IntBytes, Digits, Pow16;
    IntRoundTrip(n, rest, 8);
  }

  lemma {:induction false} HeaderBack(i: Item, rest: seq<Byte>)
    requires ItemOk(i)
    ensures UnmarshalHeader(Marshal(i) + rest, false) == (|i.payload|, i.tag, i.payload + rest)
  {
    hide TagBytes, IntBytes, DecodeInt, DecodeTag, Digits, UnmarshalHeader;
    var n := |i.payload|;
    var p := i.payload + rest;
    ShortRoundTrip(n, p);
    var t, l := TagBytes(i.tag), IntBytes(n);
    TagRoundTrip(i.tag, l + p);
    var s := t + (l + p);
    assert Marshal(i) + rest == s;
    assert s[|t|..] == l + p && (l + p)[|l|..] == p;
    HeaderOf(s, i.tag, |t|, n, |l|);
  }

  /** What was marshalled comes back, and nothing of what follows is touched. */
  lemma {:induction false} UnmarshalMarshal(i: Item, rest: seq<Byte>)
    requires ItemOk(i)
    ensures Unmarshal(Marshal(i) + rest, false, false) == (Some(i), rest)
  {
    HeaderBack(i, rest);
    hide UnmarshalHeader, Marshal;
    assert (i.payload + rest)[..|i.payload|] == i.payload && (i.payload + rest)[|i.payload|..] == rest;
  }

  function MarshalAll(items: seq<Item>): seq<Byte>
    requires forall k :: 0 <= k < |items| ==> ItemOk(items[k])
  {
    if items == [] then [] else Marshal(items[0]) + MarshalAll(items[1..])
  }

  /** Unmarshal n times. */
  function UnmarshalAll(s: seq<Byte>, n: nat): (r: (seq<Option<Item>>, seq<Byte>)) {
    if n == 0 then ([], s) else
      var (i, rest) := Unmarshal(s, false, false);
      var (more, end) := UnmarshalAll(rest, n - 1);
      ([i] + more, end)
  }

  function Found(items: seq<Item>): seq<Option<Item>> {
    seq(|items|, k requires 0 <= k < |items| => Some(items[k]))
  }

  /** Marshalling any sequence of tagged data and unmarshalling as often gives the sequence back and empties the
      buffer. */
  lemma {:induction false} StreamRoundTrip(items: seq<Item>)
    requires forall k :: 0 <= k < |items| ==> ItemOk(items[k])
    ensures UnmarshalAll(MarshalAll(items), |items|) == (Found(items), [])
    decreases |items|
  {
    hide Unmarshal, Marshal, ItemOk;
    if items != [] {
      UnmarshalMarshal(items[0], MarshalAll(items[1..]));
      StreamRoundTrip(items[1..]);
      assert Found(items) == [Some(items[0])] + Found(items[1..]);
    }
  }

  // ----- looking ahead -----

  /** evtag_peek_length: header and payload together, as a 32-bit sum. */
  function PeekLength(s: seq<Byte>): (r: Option<nat>) {
    match DecodeTag(s)
    case None => None
    case Some((_, c)) =>
      match DecodeInt(s[c..], 8)
      case None => None
      case Some((len, k)) => Some((len + k + c) % UINT32)
  }

  /** evtag_payload_length */
  function PayloadLength(s: seq<Byte>): (r: Option<nat>) {
    match DecodeTag(s)
    case None => None
    case Some((_, c)) =>
      match DecodeInt(s[c..], 8)
      case None => None
      case Some((len, _)) => Some(len)
  }

  /** evtag_consume: success, and what is left. A negative int becomes a size_t beyond any buffer. */
  function Consume(s: seq<Byte>, frozen: bool): (r: (bool, seq<Byte>)) {
    var (len, _, rest) := UnmarshalHeader(s, frozen);
    if len == -1 then (false, rest)
    else if len >= 0 then (true, Drained(rest, len, frozen))
    else (true, Drained(rest, |rest|, frozen))
  }

  /** evtag_consume against evtag_peek_length and evtag_payload_length, for a tag of at most five bytes. It succeeds if
      and only if the buffer holds header and payload, and the payload is not of 2^32 - 1 bytes. For a payload of
      less than 2^31 bytes it then removes just what evtag_peek_length says; for a longer one, everything. */
  lemma {:induction false} PeekIsConsume(s: seq<Byte>)
    requires DecodeTag(s).Some? ==> DecodeTag(s).value.1 <= 5
    ensures PeekLength(s).None? ==> !Consume(s, false).0
    ensures PeekLength(s).Some? ==>
            var n, h := PayloadLength(s).value, HeaderLength(s);
            && (Consume(s, false).0 <==> h + n <= |s| && n % UINT32 != UINT32 - 1)
            && (Consume(s, false).0 && n < INT31 ==>
                PeekLength(s).value == h + n && Consume(s, false).1 == s[PeekLength(s).value..])
            && (Consume(s, false).0 && INT31 <= n < UINT32 ==> Consume(s, false).1 == [])
  {
    hide DecodeTag, DecodeInt;
    if DecodeTag(s).Some? {
      var c := DecodeTag(s).value.1;
      if DecodeInt(s[c..], 8).Some? {
        AtMostNine(s[c..]);
        var (len, k) := DecodeInt(s[c..], 8).value;
        if len < INT31 { PeekSum(len, k, c); }
        assert s[c..][k..] == s[c + k..];
        if len <= |s| - c - k {
          assert s[c + k..][len..] == s[c + k + len..];
        }
      }
    }
  }

  /** The bytes of tag and length. */
  function HeaderLength(s: seq<Byte>): (r: nat)
    requires PeekLength(s).Some?
    ensures r <= |s|
  {
    var c := DecodeTag(s).value.1;
    c + DecodeInt(s[c..], 8).value.1
  }

  lemma {:induction false} AtMostNine(s: seq<Byte>)
    ensures DecodeInt(s, 8).Some? ==> DecodeInt(s, 8).value.1 <= 9
  {
    hide ValueFrom;
  }

  lemma {:induction false} PeekSum(len: nat, k: nat, c: nat)
    requires len < INT31 && k <= 9 && c <= 5
    ensures (len + k + c) % UINT32 == len + k + c && AsInt(len) == len
  {
  }
}
