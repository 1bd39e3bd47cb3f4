/** event_tagging.c on evbuffers. */
module TaggingBuffers {
  import opened Wrappers
  import opened Bytes
  import opened Chains
  import opened Evbuffers
  import T = Tagging

  /** The buffer was only worked on by operations that keep what they promise to keep. */
  twostate predicate Kept(buf: Evbuffer)
    reads buf
  {
    && buf.Valid() && (old(buf.Snug()) ==> buf.Snug()) && (old(buf.Dense()) ==> buf.Dense())
    && buf.freezeStart == old(buf.freezeStart) && buf.freezeEnd == old(buf.freezeEnd)
  }

  /** evbuffer_add of the bytes, which does nothing on a buffer whose end is frozen. */
  function Added(s: seq<Byte>, data: seq<Byte>, frozen: bool): seq<Byte> {
    if frozen then s else s + data
  }

  const SIZE_T: int := 0x1_0000_0000_0000_0000

  // ----- integers -----

  /** What ENCODE_INT_INTERNAL has written when the nibbles below off are done. */
  ghost predicate Written(s: seq<Byte>, off: nat, d: seq<nat>, header: nat) {
    forall k: nat :: k / 2 < |s| ==>
      T.NibbleAt(s, k) == if k == 0 then header else if k < off then T.DigitOr0(d, k - 1) else 0
  }

  lemma {:induction false} WriteNibble(s: seq<Byte>, off: nat, d: seq<nat>, b: Byte)
    requires 1 <= off && off / 2 < |s| && Written(s, off, d, 0) && off - 1 < |d| && d[off - 1] < 16
    requires b == if off % 2 == 1 then s[off / 2] / 16 * 16 + d[off - 1] else s[off / 2] % 16 + d[off - 1] * 16
    ensures Written(s[off / 2 := b], off + 1, d, 0)
  {
    var t := s[off / 2 := b];
    forall k: nat | k / 2 < |t|
      ensures T.NibbleAt(t, k) == if k == 0 then 0 else if k < off + 1 then T.DigitOr0(d, k - 1) else 0
    {
      assert T.NibbleAt(s, k) == if k == 0 then 0 else if k < off then T.DigitOr0(d, k - 1) else 0;
      if k != off && k / 2 == off / 2 {
        assert k % 2 != off % 2;
      }
    }
  }

  lemma {:induction false} WrittenIsEncoding(s: seq<Byte>, n: nat, header: nat, len: nat)
    requires |T.Digits(n)| <= 16 && header == T.Header(n) && len == |T.IntBytes(n)| <= |s|
    requires Written(s, |T.Digits(n)| + 1, T.Digits(n), header)
    ensures s[..len] == T.IntBytes(n)
  {
    var t := s[..len];
    forall k: nat | k / 2 < |t|
      ensures T.NibbleAt(t, k) == T.NibbleAt(T.IntBytes(n), k)
    {
      assert T.NibbleAt(t, k) == T.NibbleAt(s, k);
      T.IntNibble(n, k);
    }
    T.SameNibbles(t, T.IntBytes(n));
  }

  lemma {:induction false} WrittenZero(s: seq<Byte>, d: seq<nat>)
    requires forall i :: 0 <= i < |s| ==> s[i] == 0
    ensures Written(s, 1, d, 0)
  {
  }

  lemma {:induction false} NextDigit(d: seq<nat>, i: nat, number: nat)
    requires i <= |d| && number > 0 && T.Digits(number) == d[i..]
    ensures i < |d| && d[i] == number % 16 && T.Digits(number / 16) == d[i + 1..]
  {
    assert d[i..][1..] == d[i + 1..];
  }

  lemma {:induction false} NoDigit(d: seq<nat>, i: nat)
    requires i <= |d| && T.Digits(0) == d[i..]
    ensures i == |d|
  {
  }

  lemma {:induction false} EncodingLength(n: nat)
    requires |T.Digits(n)| <= 16
    ensures |T.IntBytes(n)| == (|T.Digits(n)| + 2) / 2
    ensures T.Header(n) == if |T.Digits(n)| > 1 then |T.Digits(n)| - 1 else 0
  {
  }

  method SetNibble(data: array<Byte>, off: nat, ghost d: seq<nat>, digit: nat)
    requires 1 <= off && off / 2 < data.Length && off - 1 < |d| && d[off - 1] == digit < 16
    requires Written(data[..], off, d, 0)
    modifies data
    ensures Written(data[..], off + 1, d, 0)
  {
    var b: Byte;
    if off % 2 == 1 {
      b := data[off / 2] / 16 * 16 + digit;
    } else {
      b := data[off / 2] % 16 + digit * 16;
    }
    WriteNibble(data[..], off, d, b);
    hide Written;
    ghost var was := data[..];
    data[off / 2] := b;
    assert data[..] == was[off / 2 := b];
  }

  method SetFirst(data: array<Byte>, ghost off: nat, ghost d: seq<nat>, nibbles: nat)
    requires data.Length > 0 && nibbles < 16 && Written(data[..], off, d, 0)
    modifies data
    ensures Written(data[..], off, d, nibbles)
  {
    SetHeader(data[..], off, d, nibbles);
    hide Written;
    ghost var was := data[..];
    data[0] := data[0] % 16 + nibbles * 16;
    assert data[..] == was[0 := data[0]];
  }

  /** ENCODE_INT_INTERNAL, into a buffer of one byte more than the number has. */
  method EncodeInt(number0: nat, size: nat) returns (data: array<Byte>, len: nat)
    requires size <= 8 && |T.Digits(number0)| <= 2 * size
    ensures fresh(data) && len <= data.Length && data[..len] == T.IntBytes(number0)
  {
    hide Written, T.Digits, T.IntBytes;
    ghost var d := T.Digits(number0);
    EncodingLength(number0);
    data := new Byte[size + 1](_ => 0);
    WrittenZero(data[..], d);
    var off, nibbles, number := 1, 0, number0;
    assert d[0..] == d;
    while number != 0
      invariant 1 <= off <= |d| + 1 && T.Digits(number) == d[off - 1..]
      invariant Written(data[..], off, d, 0)
    {
      NextDigit(d, off - 1, number);
      SetNibble(data, off, d, number % 16);
      number := number / 16;
      off := off + 1;
    }
    NoDigit(d, off - 1);
    if off > 2 {
      nibbles := off - 2;
    }
    SetFirst(data, off, d, nibbles);
    len := (off + 1) / 2;
    WrittenIsEncoding(data[..], number0, nibbles, len);
  }

  lemma {:induction false} SetHeader(s: seq<Byte>, off: nat, d: seq<nat>, header: nat)
    requires s != [] && Written(s, off, d, 0) && header < 16
    ensures Written(s[0 := s[0] % 16 + header * 16], off, d, header)
  {
    var t := s[0 := s[0] % 16 + header * 16];
    forall k: nat | k / 2 < |t|
      ensures T.NibbleAt(t, k) == if k == 0 then header else if k < off then T.DigitOr0(d, k - 1) else 0
    {
      assert T.NibbleAt(s, k) == if k == 0 then 0 else if k < off then T.DigitOr0(d, k - 1) else 0;
    }
  }

  /** The first bytes of a buffer, made contiguous by evbuffer_pullup. */
  method Peek(buf: Evbuffer, n: nat) returns (data: seq<Byte>)
    requires buf.Valid() && n <= |buf.Contents()|
    modifies buf
    ensures Kept(buf) && buf.Contents() == old(buf.Contents()) && data == buf.Contents()[..n]
  {
    hide Flat, Data;
    var ok := buf.Pullup(n);
    if ok {
      FlatUnfold(buf.chains);
      data := Data(buf.chains[0])[..n];
    } else {
      data := [];
    }
  }

  /** DECODE_INT_INTERNAL at an offset, without draining. */
  method DecodeInt(buf: Evbuffer, offset: nat, maxNibbles: nat) returns (r: Option<(nat, nat)>)
    requires buf.Valid()
    modifies buf
    ensures Kept(buf) && buf.Contents() == old(buf.Contents())
    ensures if offset <= |buf.Contents()| then r == T.DecodeInt(buf.Contents()[offset..], maxNibbles) else r == None
  {
    hide Flat, T.ValueFrom;
    var len := buf.totalLen - offset;
    if len <= 0 {
      return None;
    }
    ghost var s := buf.Contents()[offset..];
    var data := Peek(buf, offset + 1);
    assert data[offset] == s[0];
    var nibbles := data[offset] / 16 + 1;
    if nibbles > maxNibbles || nibbles / 2 + 1 > len {
      return None;
    }
    len := nibbles / 2 + 1;
    data := Peek(buf, offset + len);
    assert data[offset..] == s[..len];
    var number := Collect(data[offset..], nibbles);
    SameValue(s, len, nibbles, 1);
    r := Some((number, len));
  }

  /** The loop of DECODE_INT_INTERNAL. */
  method Collect(data: seq<Byte>, nibbles0: nat) returns (number: nat)
    requires nibbles0 / 2 < |data|
    ensures number == T.ValueFrom(data, 1, nibbles0)
  {
    number := 0;
    var nibbles := nibbles0;
    while nibbles > 0
      invariant 0 <= nibbles <= nibbles0 && number == T.ValueFrom(data, nibbles + 1, nibbles0)
    {
      number := number * 16;
      if nibbles % 2 == 1 {
        number := number + data[nibbles / 2] % 16;
      } else {
        number := number + data[nibbles / 2] / 16;
      }
      nibbles := nibbles - 1;
    }
  }

  lemma {:induction false} SameValue(s: seq<Byte>, len: nat, n: nat, k: nat)
    requires n / 2 < len <= |s|
    ensures T.ValueFrom(s[..len], k, n) == T.ValueFrom(s, k, n)
    decreases n + 1 - k
  {
    if k <= n { SameValue(s, len, n, k + 1); }
  }

  // ----- tags -----

  function Pow128(n: nat): nat {
    if n == 0 then 1 else 128 * Pow128(n - 1)
  }

  lemma {:induction false} FiveSeptets()
    ensures T.UINT32 <= Pow128(5)
  {
    assert Pow128(1) == 128 && Pow128(2) == 16384 && Pow128(3) == 2097152;
    assert Pow128(4) == 268435456;
  }

  lemma {:induction false} TagShorter(tag: nat, n: nat)
    requires n > 0 && tag < Pow128(n)
    ensures tag / 128 < Pow128(n - 1) && (tag >= 128 ==> n >= 2)
  {
    assert Pow128(n) == 128 * Pow128(n - 1);
  }

  lemma {:induction false} TagUnfold(tag: nat)
    ensures T.TagBytes(tag) ==
            if tag / 128 != 0 then [tag % 128 + 128] + T.TagBytes(tag / 128) else [tag % 128]
  {
  }

  /** evtag_encode_tag: the five bytes of its buffer are enough. */
  method EncodeTag(buf: Evbuffer, tag0: nat) returns (bytes: nat)
    requires buf.Valid() && tag0 < T.UINT32
    modifies buf
    ensures (buf.Valid() <==> old(buf.freezeEnd || buf.AddSafe(|T.TagBytes(tag0)|))) && (old(buf.Snug()) ==> Kept(buf))
    ensures buf.Valid() ==> buf.Contents() == Added(old(buf.Contents()), T.TagBytes(tag0), buf.freezeEnd)
    ensures bytes == |T.TagBytes(tag0)| <= 5
  {
    hide Flat;
    var data := new Byte[5](_ => 0);
    bytes := FillTag(data, tag0);
    var _ := buf.Add(data[..bytes]);
  }

  /** The next byte of a tag, and what is left of it. */
  method Septet(tag: nat, ghost n: nat) returns (lower: Byte, rest: nat)
    requires n > 0 && tag < Pow128(n)
    ensures rest < Pow128(n - 1) && (rest != 0 ==> n >= 2)
    ensures T.TagBytes(tag) == [lower] + if rest != 0 then T.TagBytes(rest) else []
  {
    TagShorter(tag, n);
    TagUnfold(tag);
    lower, rest := tag % 128, tag / 128;
    if rest != 0 {
      lower := lower + 128;
    }
  }

  method FillTag(data: array<Byte>, tag0: nat) returns (bytes: nat)
    requires data.Length == 5 && tag0 < T.UINT32
    modifies data
    ensures bytes <= 5 && data[..bytes] == T.TagBytes(tag0)
  {
    FiveSeptets();
    hide Pow128, T.TagBytes;
    bytes := 0;
    var tag := tag0;
    var more := true;
    ghost var left := T.TagBytes(tag0);
    while more
      invariant bytes <= 5 && 0 <= tag && (more ==> bytes < 5 && tag < Pow128(5 - bytes))
      invariant left == if more then T.TagBytes(tag) else []
      invariant data[..bytes] + left == T.TagBytes(tag0)
      decreases 5 - bytes, more
    {
      var lower;
      lower, tag := Septet(tag, 5 - bytes);
      more := tag != 0;
      ghost var next := if more then T.TagBytes(tag) else [];
      ghost var before := data[..bytes];
      Regroup(before, lower, next);
      data[bytes] := lower;
      assert data[..bytes + 1] == before + [lower];
      left := next;
      bytes := bytes + 1;
    }
  }

  lemma {:induction false} Regroup(s: seq<Byte>, b: Byte, t: seq<Byte>)
    ensures s + ([b] + t) == (s + [b]) + t
  {
  }

  /** The tag ends within the bytes that evbuffer_pullup was asked for. */
  ghost predicate TagInReach(s: seq<Byte>) {
    |s| <= 5 || T.DecodeTag(s[..5]).Some?
  }

  lemma {:induction false} DecodePrefix(s: seq<Byte>, n: nat)
    requires n <= |s| && T.DecodeTag(s[..n]).Some?
    ensures T.DecodeTag(s) == T.DecodeTag(s[..n])
    decreases n
  {
    if s[0] >= 128 {
      assert s[..n][1..] == s[1..][..n - 1];
      DecodePrefix(s[1..], n - 1);
    }
  }

  /** decode_tag_internal: count is -1 if the buffer ends first. The loop goes on to the end of the buffer, although at
      most five bytes are contiguous; `past` says that it read behind those, and then nothing is known of the rest. */
  method DecodeTag(buf: Evbuffer, drain: bool) returns (tag: nat, count: int, past: bool)
    requires buf.Valid()
    modifies buf
    ensures Kept(buf) && (past <==> !TagInReach(old(buf.Contents())))
    ensures past ==> buf.Contents() == old(buf.Contents())
    ensures !past ==>
            var s := old(buf.Contents());
            match T.DecodeTag(s)
            case None => count == -1 && buf.Contents() == s
            case Some((n, c)) =>
              tag == n % T.UINT32 && count == c && buf.Contents() == T.Drained(s, c, !drain || buf.freezeStart)
  {
    hide Flat;
    ghost var s := buf.Contents();
    var len := buf.totalLen;
    var data := Peek(buf, if len < 5 then len else 5);
    assert len <= 5 ==> data == s;
    if len > 5 && T.DecodeTag(data).Some? { DecodePrefix(s, 5); }
    hide T.DecodeTag;
    var number;
    number, count, past := ReadTag(data, len);
    if past || count == -1 {
      return 0, count, past;
    }
    if drain {
      var _ := buf.Drain(count);
    }
    tag := number;
  }

  /** The loop of decode_tag_internal over a buffer of len bytes, of which only `data` are contiguous, with the 32-bit
      number it gathers. */
  method ReadTag(data: seq<Byte>, len: nat) returns (number: nat, count: int, past: bool)
    requires |data| <= len
    ensures past <==> |data| < len && T.DecodeTag(data).None?
    ensures !past ==>
            match T.DecodeTag(data)
            case None => count == -1
            case Some((n, c)) => number == n % T.UINT32 && count == c
  {
    number, count, past := 0, 0, false;
    var weight := 1;
    assert data[0..] == data;
    while count < len
      invariant 0 <= count <= |data| && weight >= 1 && number < T.UINT32 && !past
      invariant match T.DecodeTag(data[count..])
                case None => T.DecodeTag(data).None?
                case Some((n, c)) => T.DecodeTag(data).Some? && T.DecodeTag(data).value.1 == count + c
                                     && T.DecodeTag(data).value.0 % T.UINT32 == (number + weight * n) % T.UINT32
    {
      if count == |data| {
        return number, count, true;
      }
      assert data[count..][1..] == data[count + 1..];
      var lower := data[count];
      TagStep(number, weight, lower, data[count..]);
      number := (number + lower % 128 * weight) % T.UINT32;
      weight := weight * 128;
      count := count + 1;
      if lower < 128 {
        return;
      }
    }
    count := -1;
  }

  /** Six bytes that all ask for more. */
  lemma {:induction false} SixBytesOutOfReach()
    ensures !TagInReach([128, 128, 128, 128, 128, 128])
  {
    var s: seq<Byte> := [128, 128, 128, 128, 128, 128];
    EndlessTag(s[..5]);
  }

  lemma {:induction false} EndlessTag(s: seq<Byte>)
    requires forall i :: 0 <= i < |s| ==> s[i] >= 128
    ensures T.DecodeTag(s).None?
    decreases |s|
  {
    if s != [] { EndlessTag(s[1..]); }
  }

  /** One byte more: the digit and the rest of the tag weigh as much as the whole. */
  lemma {:induction false} TagStep(number: nat, weight: nat, lower: Byte, s: seq<Byte>)
    requires s != [] && s[0] == lower
    ensures lower < 128 ==> T.DecodeTag(s) == Some((lower as nat, 1)) && lower % 128 == lower
    ensures lower < 128 ==> (number + lower % 128 * weight) % T.UINT32 == (number + weight * lower) % T.UINT32
    ensures lower >= 128 && T.DecodeTag(s[1..]).Some? ==>
            var n := T.DecodeTag(s[1..]).value.0;
            && T.DecodeTag(s) == Some((lower - 128 + 128 * n, T.DecodeTag(s[1..]).value.1 + 1))
            && ((number + lower % 128 * weight) % T.UINT32 + weight * 128 * n) % T.UINT32
               == (number + weight * (lower - 128 + 128 * n)) % T.UINT32
    ensures lower >= 128 && T.DecodeTag(s[1..]).None? ==> T.DecodeTag(s).None?
  {
    if lower >= 128 && T.DecodeTag(s[1..]).Some? {
      WeighStep(number, weight, lower - 128, T.DecodeTag(s[1..]).value.0);
    } else if lower < 128 {
      assert lower % 128 * weight == weight * lower;
    }
  }

  lemma {:induction false} WeighStep(number: nat, weight: nat, digit: nat, n: nat)
    ensures ((number + digit * weight) % T.UINT32 + weight * 128 * n) % T.UINT32
         == (number + weight * (digit + 128 * n)) % T.UINT32
  {
    var y := weight * 128 * n;
    assert weight * (digit + 128 * n) == digit * weight + y;
    ModAdd(number + digit * weight, y);
  }

  lemma {:induction false} ModAdd(x: nat, y: nat)
    ensures (x % T.UINT32 + y) % T.UINT32 == (x + y) % T.UINT32
  {
  }

  // ----- tagged data -----

  /** evtag_encode_int */
  method EncodeIntTo(buf: Evbuffer, number: nat)
    requires buf.Valid() && number < T.UINT32
    modifies buf
    ensures |T.Digits(number)| <= 8 && (old(buf.Snug()) ==> Kept(buf))
    ensures buf.Valid() <==> old(buf.freezeEnd || buf.AddSafe(|T.IntBytes(number)|))
    ensures buf.Valid() ==> buf.Contents() == Added(old(buf.Contents()), T.IntBytes(number), buf.freezeEnd)
  {
    hide Flat, T.IntBytes, T.Digits;
    T.ShortDigits(number);
    var data, len := EncodeInt(number, 4);
    var _ := buf.Add(data[..len]);
  }

  /** evtag_marshal */
  method Marshal(buf: Evbuffer, i: T.Item)
    requires buf.Valid() && buf.Snug() && T.ItemOk(i)
    modifies buf
    ensures Kept(buf) && buf.Contents() == Added(old(buf.Contents()), T.Marshal(i), buf.freezeEnd)
  {
    hide Flat, T.IntBytes, T.TagBytes, T.Digits;
    var _ := EncodeTag(buf, i.tag);
    EncodeIntTo(buf, |i.payload|);
    var _ := buf.Add(i.payload);
    assert old(buf.Contents()) + T.TagBytes(i.tag) + T.IntBytes(|i.payload|) + i.payload
        == old(buf.Contents()) + (T.TagBytes(i.tag) + T.IntBytes(|i.payload|) + i.payload);
  }

  /** evtag_unmarshal_header: also when it fails, what it has read of the header is gone. */
  method UnmarshalHeader(buf: Evbuffer) returns (len: int, tag: nat, past: bool)
    requires buf.Valid()
    modifies buf
    ensures Kept(buf) && (past <==> !TagInReach(old(buf.Contents())))
    ensures !past ==>
            var (l, t, rest) := T.UnmarshalHeader(old(buf.Contents()), buf.freezeStart);
            len == l && buf.Contents() == rest && (len != -1 ==> tag == t)
  {
    hide Flat, T.DecodeTag, T.DecodeInt, TagInReach;
    var count;
    tag, count, past := DecodeTag(buf, true);
    if past || count == -1 {
      return -1, tag, past;
    }
    ghost var s := buf.Contents();
    assert s[0..] == s;
    var r := DecodeInt(buf, 0, 8);
    if r.None? {
      return -1, tag, false;
    }
    var _ := buf.Drain(r.value.1);
    assert buf.Contents() == T.Drained(s, r.value.1, buf.freezeStart);
    if buf.totalLen < r.value.0 {
      return -1, tag, false;
    }
    len := T.AsInt(r.value.0);
  }

  /** evtag_unmarshal. A payload length that turns negative as an int is passed on as the length of the copy, which goes
      far behind the payload; `past` says that this happens, or that the tag could not be read. */
  method Unmarshal(src: Evbuffer, dst: Evbuffer) returns (len: int, tag: nat, past: bool)
    requires src != dst && src.Valid() && dst.Valid()
    modifies src, dst
    ensures Kept(src) && (old(dst.Snug()) ==> Kept(dst)) && unchanged(dst`freezeEnd)
    ensures past <==>
            !TagInReach(old(src.Contents())) || (T.Negative(old(src.Contents()), src.freezeStart) && !dst.freezeEnd)
    ensures !past ==>
            var (i, rest) := T.Unmarshal(old(src.Contents()), src.freezeStart, dst.freezeEnd);
            && src.Contents() == rest
            && match i
               case None => len == -1 && dst.Valid() && dst.Contents() == old(dst.Contents())
               case Some(item) =>
                 && len == |item.payload| && tag == item.tag && (dst.Valid() <==> old(dst.AddSafe(|item.payload|)))
                 && (dst.Valid() ==> dst.Contents() == old(dst.Contents()) + item.payload)
  {
    hide Flat, TagInReach;
    T.HeaderFits(src.Contents(), src.freezeStart);
    hide T.UnmarshalHeader;
    len, tag, past := UnmarshalHeader(src);
    if past || len == -1 {
      return len, tag, past;
    }
    if len < 0 {
      return -1, tag, !dst.freezeEnd;
    }
    var ok := MovePayload(src, dst, len);
    if !ok {
      return -1, tag, false;
    }
  }

  /** evbuffer_add of the pulled up payload, and evbuffer_drain. */
  method MovePayload(src: Evbuffer, dst: Evbuffer, len: nat) returns (ok: bool)
    requires src != dst && src.Valid() && dst.Valid() && len <= |src.Contents()|
    modifies src, dst
    ensures Kept(src) && (old(dst.Snug()) ==> Kept(dst)) && unchanged(dst`freezeEnd) && ok == !dst.freezeEnd
    ensures !ok ==> dst.Valid() && src.Contents() == old(src.Contents()) && dst.Contents() == old(dst.Contents())
    ensures ok ==> src.Contents() == T.Drained(old(src.Contents()), len, src.freezeStart)
    ensures ok ==> (dst.Valid() <==> old(dst.AddSafe(len)))
    ensures ok && dst.Valid() ==> dst.Contents() == old(dst.Contents()) + old(src.Contents())[..len]
  {
    hide Flat;
    var data := Peek(src, len);
    ok := dst.Add(data);
    if ok {
      var _ := src.Drain(len);
    }
  }

  /** evtag_consume */
  method Consume(buf: Evbuffer) returns (ok: bool, past: bool)
    requires buf.Valid()
    modifies buf
    ensures Kept(buf) && (past <==> !TagInReach(old(buf.Contents())))
    ensures !past ==> (ok, buf.Contents()) == T.Consume(old(buf.Contents()), buf.freezeStart)
  {
    hide Flat, TagInReach;
    T.HeaderFits(buf.Contents(), buf.freezeStart);
    hide T.UnmarshalHeader;
    var len, tag;
    len, tag, past := UnmarshalHeader(buf);
    if past || len == -1 {
      return false, past;
    }
    ok := true;
    ghost var rest := buf.Contents();
    assert rest[|rest|..] == [];
    var n := if len >= 0 then len else if buf.totalLen > len + SIZE_T then buf.totalLen else len + SIZE_T;
    var _ := buf.Drain(n);
  }

  /** evtag_peek_length */
  method PeekLength(buf: Evbuffer) returns (r: Option<nat>, past: bool)
    requires buf.Valid()
    modifies buf
    ensures Kept(buf) && buf.Contents() == old(buf.Contents()) && (past <==> !TagInReach(buf.Contents()))
    ensures !past ==> r == T.PeekLength(buf.Contents())
  {
    hide Flat, T.DecodeTag, T.DecodeInt, TagInReach;
    var _, len, out := DecodeTag(buf, false);
    past := out;
    if past || len == -1 {
      return None, past;
    }
    var d := DecodeInt(buf, len, 8);
    if d.None? {
      return None, false;
    }
    r := Some((d.value.0 + d.value.1 + len) % T.UINT32);
  }

  /** What evtag_marshal wrote, evtag_unmarshal can read. */
  lemma {:induction false} MarshalInReach(i: T.Item, rest: seq<Byte>)
    requires T.ItemOk(i)
    ensures TagInReach(T.Marshal(i) + rest) && !T.Negative(T.Marshal(i) + rest, false)
  {
    T.HeaderBack(i, rest);
    hide T.Marshal, T.UnmarshalHeader;
    TagOfMarshal(i, rest);
  }

  lemma {:induction false} TagOfMarshal(i: T.Item, rest: seq<Byte>)
    requires T.ItemOk(i)
    ensures TagInReach(T.Marshal(i) + rest)
  {
    hide T.TagBytes, T.IntBytes, T.DecodeTag, T.Digits;
    var n := |i.payload|;
    T.ShortDigits(n);
    var t, p := T.TagBytes(i.tag), T.IntBytes(n) + i.payload + rest;
    var s := T.Marshal(i) + rest;
    assert s == t + p;
    TagLength(i.tag, 5);
    if |s| > 5 {
      assert s[..5] == t + p[..5 - |t|];
      T.TagRoundTrip(i.tag, p[..5 - |t|]);
    }
  }

  lemma {:induction false} TagLength(tag: nat, n: nat)
    requires n >= 1 && (tag < Pow128(n) || (n == 5 && tag < T.UINT32))
    ensures |T.TagBytes(tag)| <= n
    decreases n
  {
    FiveSeptets();
    TagShorter(tag, n);
    if tag >= 128 { TagLength(tag / 128, n - 1); }
  }

  ghost predicate Usable(buf: Evbuffer)
    reads buf
  {
    buf.Valid() && buf.Snug() && !buf.freezeStart && !buf.freezeEnd
  }

  /** Items marshalled into one buffer, one after the other, and unmarshalled again come back as they were, and the
      buffer is empty at the end. */
  method ThereAndBack(buf: Evbuffer, dst: Evbuffer, items: seq<T.Item>) returns (back: seq<T.Item>)
    requires buf != dst && Usable(buf) && Usable(dst) && buf.Contents() == [] && dst.Contents() == []
    requires forall k :: 0 <= k < |items| ==> T.ItemOk(items[k])
    modifies buf, dst
    ensures Usable(buf) && buf.Contents() == [] && back == items
  {
    hide Flat, T.Marshal, T.ItemOk, TagInReach, T.Negative, T.Unmarshal;
    assert items[..0] == [];
    for k := 0 to |items|
      invariant Usable(buf) && buf.Contents() == T.MarshalAll(items[..k])
      invariant Usable(dst) && dst.Contents() == []
    {
      AllButLast(items[..k + 1]);
      assert items[..k + 1][..k] == items[..k];
      Marshal(buf, items[k]);
    }
    back := [];
    assert items[0..] == items && items[..|items|] == items;
    for k := 0 to |items|
      invariant Usable(buf) && Usable(dst) && dst.Contents() == [] && buf.Contents() == T.MarshalAll(items[k..])
      invariant back == items[..k]
    {
      assert items[k..][1..] == items[k + 1..];
      var item := ReceiveOne(buf, dst, items[k], T.MarshalAll(items[k + 1..]));
      assert items[..k + 1] == items[..k] + [items[k]];
      back := back + [item];
    }
  }

  method ReceiveOne(buf: Evbuffer, dst: Evbuffer, ghost item: T.Item, ghost rest: seq<Byte>) returns (i: T.Item)
    requires buf != dst && Usable(buf) && Usable(dst) && T.ItemOk(item)
    requires buf.Contents() == T.Marshal(item) + rest && dst.Contents() == []
    modifies buf, dst
    ensures Usable(buf) && Usable(dst) && buf.Contents() == rest && dst.Contents() == [] && i == item
  {
    hide Flat, T.Marshal, TagInReach, T.Negative, T.Unmarshal;
    MarshalInReach(item, rest);
    T.UnmarshalMarshal(item, rest);
    var len, tag, _ := Unmarshal(buf, dst);
    assert [] + item.payload == item.payload;
    var n, payload := dst.Remove(len);
    assert payload == item.payload;
    i := T.Item(tag, payload);
  }

  lemma {:induction false} AllButLast(items: seq<T.Item>)
    requires items != [] && forall k :: 0 <= k < |items| ==> T.ItemOk(items[k])
    ensures T.MarshalAll(items) == T.MarshalAll(items[..|items| - 1]) + T.Marshal(items[|items| - 1])
    decreases |items|
  {
    hide T.Marshal, T.ItemOk;
    var n := |items| - 1;
    if n > 0 {
      AllButLast(items[1..]);
      assert items[1..][..n - 1] == items[..n][1..];
    }
  }
}
