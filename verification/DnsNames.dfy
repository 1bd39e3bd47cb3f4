/** DNS names on the wire: labels, compression pointers, and parsing them back (section 4.1.4 of RFC 1035). */
module DnsNames {
  import opened Wrappers
  import opened Bytes

  const DOT: Byte := 46
  const MAX_LABELS: nat := 128
  /** Compression pointers have 14 bits. */
  const POINTER_RANGE: nat := 0x4000

  type Label = seq<Byte>

  /** The labels of a dotted name. */
  function Labels(name: seq<Byte>): (r: seq<Label>)
    ensures r != []
    decreases |name|
  {
    var d := IndexOf(name, DOT);
    if d < 0 then [name] else [name[..d]] + Labels(name[d + 1..])
  }

  /** Text with further labels appended, dots in between. */
  function JoinOnto(text: seq<Byte>, labels: seq<Label>): (r: seq<Byte>)
    ensures |r| >= |text|
    decreases |labels|
  {
    if labels == [] then text
    else JoinOnto((if text == [] then [] else text + [DOT]) + labels[0], labels[1..])
  }

  /** A name as the codec promises to carry it: nonempty labels of at most 63 nonzero bytes. */
  ghost predicate GoodName(name: seq<Byte>) {
    && |name| <= 255
    && (forall i :: 0 <= i < |name| ==> name[i] != 0)
    && (forall i :: 0 <= i < |Labels(name)| ==> 1 <= |Labels(name)[i]| <= 63)
  }

  // ----- the pointer word -----

  /** The two bytes of htons(ref | 0xc000), as an unsigned 16-bit value. */
  function PointerBytes(ref: nat): (r: seq<Byte>)
    ensures |r| == 2 && r[0] >= 192
  {
    [192 + ref % POINTER_RANGE / 256, ref % 256]
  }

  /** Where a two-byte pointer leads. */
  function Target(hi: Byte, lo: Byte): nat {
    hi % 64 * 256 + lo
  }

  /** The 14-bit pointer carries an offset exactly if the offset has 14 bits. */
  lemma {:induction false} PointerRoundTrip(ref: nat)
    ensures var b := PointerBytes(ref); Target(b[0], b[1]) == ref % POINTER_RANGE
    ensures var b := PointerBytes(ref); Target(b[0], b[1]) == ref <==> ref < POINTER_RANGE
  {
    var k, r := ref / POINTER_RANGE, ref % POINTER_RANGE;
    var hi, lo := r / 256, r % 256;
    LastByte(ref, k * 64 + hi, lo);
    assert (192 + hi) % 64 == hi;
  }

  lemma {:induction false} LastByte(n: nat, rest: nat, lo: nat)
    requires n == 256 * rest + lo && lo < 256
    ensures n % 256 == lo
  {
  }

  // ----- parsing -----

  /** name_parse from position j, after `jumps` pointers, with the text so far. nameEnd is -1 until the
      first pointer. Gives the name and the index behind it. */
  function Parse(pkt: seq<Byte>, j: nat, jumps: nat, nameEnd: int, text: seq<Byte>, limit: int)
      : (r: Option<(seq<Byte>, int)>)
    requires jumps <= |pkt|
    decreases |pkt| - jumps, |pkt| - j
  {
    if j >= |pkt| then None
    else if pkt[j] == 0 then
      if |text| >= limit then None else Some((text, if nameEnd < 0 then j + 1 else nameEnd))
    else if pkt[j] >= 64 then
      if j + 1 >= |pkt| then None
      else
        var t := Target(pkt[j], pkt[j + 1]);
        if t >= |pkt| || jumps + 1 > |pkt| then None
        else Parse(pkt, t, jumps + 1, if nameEnd < 0 then j + 2 else nameEnd, text, limit)
    else
      var len := pkt[j];
      var dotted := if text == [] then [] else text + [DOT];
      if text != [] && |text| + 1 >= limit then None
      else if |dotted| + len >= limit then None
      else if j + 1 + len > |pkt| then None
      else Parse(pkt, j + 1 + len, jumps, nameEnd, dotted + pkt[j + 1..j + 1 + len], limit)
  }

  /** The position of the label that name_parse copies although it does not end inside the packet, if it comes to one:
      labels before it fit the packet and the output. */
  function Overrun(pkt: seq<Byte>, j: nat, jumps: nat, text: seq<Byte>, limit: int): (r: Option<nat>)
    requires jumps <= |pkt|
    ensures r.Some? ==> OverrunAt(pkt, r.value)
    decreases |pkt| - jumps, |pkt| - j
  {
    if j >= |pkt| || pkt[j] == 0 then None
    else if pkt[j] >= 64 then
      if j + 1 >= |pkt| then None
      else
        var t := Target(pkt[j], pkt[j + 1]);
        if t >= |pkt| || jumps + 1 > |pkt| then None else Overrun(pkt, t, jumps + 1, text, limit)
    else
      var len := pkt[j];
      var dotted := if text == [] then [] else text + [DOT];
      if text != [] && |text| + 1 >= limit then None
      else if |dotted| + len >= limit then None
      else if j + 1 + len > |pkt| then Some(j)
      else Overrun(pkt, j + 1 + len, jumps, dotted + pkt[j + 1..j + 1 + len], limit)
  }

  /** A label begins at p and ends behind the packet. */
  predicate OverrunAt(pkt: seq<Byte>, p: nat) {
    p < |pkt| && 1 <= pkt[p] <= 63 && p + 1 + pkt[p] > |pkt|
  }

  // One step of Parse and of Overrun, case by case.

  lemma {:induction false} ParsePast(pkt: seq<Byte>, j: nat, jumps: nat, nameEnd: int, text: seq<Byte>, limit: int)
    requires jumps <= |pkt| && j >= |pkt|
    ensures Parse(pkt, j, jumps, nameEnd, text, limit) == None && Overrun(pkt, j, jumps, text, limit) == None
  {
  }

  lemma {:induction false} ParseZero(pkt: seq<Byte>, j: nat, jumps: nat, nameEnd: int, text: seq<Byte>, limit: int)
    requires jumps <= |pkt| && j < |pkt| && pkt[j] == 0
    ensures Overrun(pkt, j, jumps, text, limit) == None
    ensures Parse(pkt, j, jumps, nameEnd, text, limit)
            == if |text| >= limit then None else Some((text, if nameEnd < 0 then j + 1 else nameEnd))
  {
  }

  lemma {:induction false} ParseBadJump(pkt: seq<Byte>, j: nat, jumps: nat, nameEnd: int, text: seq<Byte>, limit: int)
    requires jumps <= |pkt| && j < |pkt| && pkt[j] >= 64
    requires j + 1 >= |pkt| || Target(pkt[j], pkt[j + 1]) >= |pkt| || jumps + 1 > |pkt|
    ensures Parse(pkt, j, jumps, nameEnd, text, limit) == None && Overrun(pkt, j, jumps, text, limit) == None
  {
  }

  lemma {:induction false} ParseJump(pkt: seq<Byte>, j: nat, jumps: nat, nameEnd: int, text: seq<Byte>, limit: int,
                                     t: nat)
    requires j + 1 < |pkt| && pkt[j] >= 64 && t == Target(pkt[j], pkt[j + 1]) < |pkt| && jumps + 1 <= |pkt|
    ensures Overrun(pkt, j, jumps, text, limit) == Overrun(pkt, t, jumps + 1, text, limit)
    ensures Parse(pkt, j, jumps, nameEnd, text, limit)
            == Parse(pkt, t, jumps + 1, if nameEnd < 0 then j + 2 else nameEnd, text, limit)
  {
  }

  /** The text with a dot behind it, if there is any. */
  function Dotted(text: seq<Byte>): seq<Byte> {
    if text == [] then [] else text + [DOT]
  }

  /** Is there room in the output for a label of this length? */
  predicate HasRoom(text: seq<Byte>, len: nat, limit: int) {
    !(text != [] && |text| + 1 >= limit) && |Dotted(text)| + len < limit
  }

  lemma {:induction false} ParseNoRoom(pkt: seq<Byte>, j: nat, jumps: nat, nameEnd: int, text: seq<Byte>, limit: int)
    requires jumps <= |pkt| && j < |pkt| && 1 <= pkt[j] <= 63 && !HasRoom(text, pkt[j], limit)
    ensures Parse(pkt, j, jumps, nameEnd, text, limit) == None && Overrun(pkt, j, jumps, text, limit) == None
  {
  }

  lemma {:induction false} ParseOver(pkt: seq<Byte>, j: nat, jumps: nat, nameEnd: int, text: seq<Byte>, limit: int)
    requires jumps <= |pkt| && OverrunAt(pkt, j) && HasRoom(text, pkt[j], limit)
    ensures Parse(pkt, j, jumps, nameEnd, text, limit) == None && Overrun(pkt, j, jumps, text, limit) == Some(j)
  {
  }

  lemma {:induction false} ParseLabel(pkt: seq<Byte>, j: nat, jumps: nat, nameEnd: int, text: seq<Byte>, limit: int,
                                      more: seq<Byte>)
    requires jumps <= |pkt| && j < |pkt| && 1 <= pkt[j] <= 63 && HasRoom(text, pkt[j], limit)
    requires j + 1 + pkt[j] <= |pkt| && more == Dotted(text) + pkt[j + 1..j + 1 + pkt[j]]
    ensures Overrun(pkt, j, jumps, text, limit) == Overrun(pkt, j + 1 + pkt[j], jumps, more, limit)
    ensures Parse(pkt, j, jumps, nameEnd, text, limit) == Parse(pkt, j + 1 + pkt[j], jumps, nameEnd, more, limit)
  {
  }

  /** Such a name is not parsed. */
  lemma {:induction false} OverrunFails(pkt: seq<Byte>, j: nat, jumps: nat, nameEnd: int, text: seq<Byte>, limit: int)
    requires jumps <= |pkt|
    ensures Overrun(pkt, j, jumps, text, limit).Some? ==> Parse(pkt, j, jumps, nameEnd, text, limit).None?
    decreases |pkt| - jumps, |pkt| - j
  {
    if j >= |pkt| || pkt[j] == 0 {
    } else if pkt[j] >= 64 {
      if j + 1 < |pkt| {
        var t := Target(pkt[j], pkt[j + 1]);
        if t < |pkt| && jumps + 1 <= |pkt| {
          OverrunFails(pkt, t, jumps + 1, if nameEnd < 0 then j + 2 else nameEnd, text, limit);
        }
      }
    } else {
      var len := pkt[j];
      if j + 1 + len <= |pkt| {
        var dotted := if text == [] then [] else text + [DOT];
        OverrunFails(pkt, j + 1 + len, jumps, nameEnd, dotted + pkt[j + 1..j + 1 + len], limit);
      }
    }
  }

  /** What a caller can look for: some name in the packet makes name_parse read behind it if and only if some byte of
      the packet, taken as the length of a label, reaches behind it. */
  lemma {:induction false} CanOverrun(pkt: seq<Byte>)
    ensures (exists idx: nat, limit: int :: Overruns(pkt, idx, limit)) <==> exists p: nat :: OverrunAt(pkt, p)
  {
    hide Overrun, OverrunAt;
    if p: nat :| OverrunAt(pkt, p) {
      OverrunHere(pkt, p);
      assert Overruns(pkt, p, 255);
    }
    if idx: nat, limit: int :| Overruns(pkt, idx, limit) {
      var p: nat := Overrun(pkt, idx, 0, [], limit).value;
      assert OverrunAt(pkt, p);
    }
  }

  /** The copy of some label of the name at idx reads behind the packet. */
  ghost predicate Overruns(pkt: seq<Byte>, idx: nat, limit: int) {
    Overrun(pkt, idx, 0, [], limit).Some?
  }

  lemma {:induction false} OverrunHere(pkt: seq<Byte>, p: nat)
    requires OverrunAt(pkt, p)
    ensures Overrun(pkt, p, 0, [], 255) == Some(p)
  {
  }

  /** The shortest such packet. */
  lemma {:induction false} OneByteOverruns()
    ensures Overrun([63], 0, 0, [], 255) == Some(0)
  {
  }

  /** A whole label stands at p, its length byte first. */
  ghost predicate LabelAt(pkt: seq<Byte>, p: nat) {
    p < |pkt| && 1 <= pkt[p] <= 63 && p + 1 + pkt[p] <= |pkt|
  }

  ghost predicate InPacket(pkt: seq<Byte>, places: seq<nat>) {
    forall i :: 0 <= i < |places| ==> LabelAt(pkt, places[i])
  }

  /** Text with the labels at the given places appended. */
  ghost function JoinPlaces(text: seq<Byte>, pkt: seq<Byte>, places: seq<nat>): seq<Byte>
    requires InPacket(pkt, places)
    decreases |places|
  {
    if places == [] then text
    else
      var p := places[0];
      assert LabelAt(pkt, p);
      var dotted := if text == [] then [] else text + [DOT];
      JoinPlaces(dotted + pkt[p + 1..p + 1 + pkt[p]], pkt, places[1..])
  }

  /** What a successful parse has done, on any packet: the text and its NUL fit, every label was copied
      from inside the packet, and the index moved forward within the packet. */
  lemma {:induction false} ParseSound(pkt: seq<Byte>, j: nat, jumps: nat, nameEnd: int, text: seq<Byte>, limit: int)
      returns (places: seq<nat>)
    requires jumps <= |pkt| && nameEnd <= |pkt|
    ensures InPacket(pkt, places)
    ensures var r := Parse(pkt, j, jumps, nameEnd, text, limit);
            r.Some? ==>
            && r.value.0 == JoinPlaces(text, pkt, places) && |r.value.0| + 1 <= limit
            && (if nameEnd < 0 then j < r.value.1 <= |pkt| else r.value.1 == nameEnd)
    decreases |pkt| - jumps, |pkt| - j
  {
    hide Parse, Target, Dotted, HasRoom;
    places := [];
    if j >= |pkt| {
      ParsePast(pkt, j, jumps, nameEnd, text, limit);
    } else if pkt[j] == 0 {
      ParseZero(pkt, j, jumps, nameEnd, text, limit);
    } else if pkt[j] >= 64 {
      if j + 1 < |pkt| && Target(pkt[j], pkt[j + 1]) < |pkt| && jumps + 1 <= |pkt| {
        var t := Target(pkt[j], pkt[j + 1]);
        ParseJump(pkt, j, jumps, nameEnd, text, limit, t);
        places := ParseSound(pkt, t, jumps + 1, if nameEnd < 0 then j + 2 else nameEnd, text, limit);
      } else {
        ParseBadJump(pkt, j, jumps, nameEnd, text, limit);
      }
    } else if !HasRoom(text, pkt[j], limit) {
      ParseNoRoom(pkt, j, jumps, nameEnd, text, limit);
    } else if j + 1 + pkt[j] > |pkt| {
      ParseOver(pkt, j, jumps, nameEnd, text, limit);
    } else {
      var more := Dotted(text) + pkt[j + 1..j + 1 + pkt[j]];
      ParseLabel(pkt, j, jumps, nameEnd, text, limit, more);
      var rest := ParseSound(pkt, j + 1 + pkt[j], jumps, nameEnd, more, limit);
      places := [j] + rest;
      OnePlaceMore(pkt, text, j, rest);
    }
  }

  lemma {:induction false} OnePlaceMore(pkt: seq<Byte>, text: seq<Byte>, p: nat, rest: seq<nat>)
    requires LabelAt(pkt, p) && InPacket(pkt, rest)
    ensures InPacket(pkt, [p] + rest)
    ensures JoinPlaces(text, pkt, [p] + rest) == JoinPlaces(Dotted(text) + pkt[p + 1..p + 1 + pkt[p]], pkt, rest)
  {
    assert ([p] + rest)[1..] == rest;
  }

  // ----- what the bytes of an encoded name mean -----

  /** The bytes [p, q) encode the labels: length-prefixed labels, then a zero byte or a pointer. A
      pointer leads strictly backwards, to labels whose own bytes end at or before the pointer. */
  ghost predicate Encodes(pkt: seq<Byte>, p: nat, q: nat, labels: seq<Label>)
    decreases |labels|, p
  {
    p < q <= |pkt| &&
    if pkt[p] == 0 then labels == [] && q == p + 1
    else if pkt[p] >= 64 then
      && q == p + 2
      && var t := Target(pkt[p], pkt[p + 1]);
         t < p && exists e :: t < e <= p && Encodes(pkt, t, e, labels)
    else
      && labels != [] && |labels[0]| == pkt[p] && p + 1 + |labels[0]| <= |pkt|
      && pkt[p + 1..p + 1 + |labels[0]|] == labels[0]
      && Encodes(pkt, p + 1 + |labels[0]|, q, labels[1..])
  }

  /** Bytes added behind the packet do not change what is encoded in it. */
  lemma {:induction false} EncodesExtend(pkt: seq<Byte>, more: seq<Byte>, p: nat, q: nat, labels: seq<Label>)
    requires Encodes(pkt, p, q, labels)
    ensures Encodes(pkt + more, p, q, labels)
    decreases |labels|, p
  {
    var now := pkt + more;
    assert now[p] == pkt[p];
    if pkt[p] == 0 {
    } else if pkt[p] >= 64 {
      assert now[p + 1] == pkt[p + 1];
      var t := Target(pkt[p], pkt[p + 1]);
      var e :| t < e <= p && Encodes(pkt, t, e, labels);
      EncodesExtend(pkt, more, t, e, labels);
    } else {
      var n := p + 1 + |labels[0]|;
      assert now[p + 1..n] == pkt[p + 1..n];
      EncodesExtend(pkt, more, n, q, labels[1..]);
    }
  }

  /** Parsing what is encoded gives the labels back and stops behind it. The loop guard never fires:
      every jump leads to bytes that end at least two bytes earlier. */
  lemma {:induction false} ParseEncoded(pkt: seq<Byte>, p: nat, q: nat, labels: seq<Label>,
                                        jumps: nat, nameEnd: int, text: seq<Byte>, limit: int)
    requires Encodes(pkt, p, q, labels)
    requires forall i :: 0 <= i < |labels| ==> 1 <= |labels[i]|
    requires 2 * jumps + q <= 2 * |pkt|
    requires |JoinOnto(text, labels)| < limit
    ensures Parse(pkt, p, jumps, nameEnd, text, limit)
         == Some((JoinOnto(text, labels), if nameEnd < 0 then q else nameEnd))
    decreases |labels|, p
  {
    if pkt[p] == 0 {
    } else if pkt[p] >= 64 {
      var t := Target(pkt[p], pkt[p + 1]);
      var e :| t < e <= p && Encodes(pkt, t, e, labels);
      ParseEncoded(pkt, t, e, labels, jumps + 1, if nameEnd < 0 then q else nameEnd, text, limit);
    } else {
      var dotted := if text == [] then [] else text + [DOT];
      ParseEncoded(pkt, p + 1 + |labels[0]|, q, labels[1..], jumps, nameEnd, dotted + labels[0], limit);
    }
  }

  // ----- printing -----

  datatype Entry = Entry(name: seq<Byte>, pos: nat)

  /** dnslabel_table_get_pos: the position of the first entry with that text, or -1. */
  function Lookup(table: seq<Entry>, name: seq<Byte>): (r: int)
    ensures r >= 0 ==> exists i :: 0 <= i < |table| && table[i] == Entry(name, r)
  {
    if table == [] then -1
    else if table[0].name == name then
      assert table[0] == Entry(name, table[0].pos);
      table[0].pos
    else
      var r := Lookup(table[1..], name);
      if r >= 0 then
        var i :| 0 <= i < |table[1..]| && table[1..][i] == Entry(name, r);
        assert table[i + 1] == Entry(name, r);
        r
      else r
  }

  /** dnslabel_table_add: a full table silently takes no more. */
  function Remember(table: seq<Entry>, name: seq<Byte>, pos: nat): seq<Entry> {
    if |table| == MAX_LABELS then table else table + [Entry(name, pos)]
  }

  datatype Printed = Printed(bytes: seq<Byte>, table: seq<Entry>) | Refused

  /** The bytes dnsname_to_labels writes at position `at` for the rest of a name, and the table it leaves;
      Refused if a label has more than 63 bytes. */
  function Print(name: seq<Byte>, at: nat, table: seq<Entry>): (r: Printed)
    decreases |name|
  {
    var ref := Lookup(table, name);
    if ref >= 0 then Printed(PointerBytes(ref), table)
    else
      var d := IndexOf(name, DOT);
      var first := if d < 0 then name else name[..d];
      if |first| > 63 then Refused
      else
        var head := [|first|] + first;
        var table1 := Remember(table, name, at);
        if d < 0 then Printed(Ended(head), table1)
        else Behind(head, Print(name[d + 1..], at + |head|, table1))
  }

  /** A zero byte ends the name, unless one stands there already. */
  function Ended(bytes: seq<Byte>): seq<Byte> {
    if NeedsZero(bytes) then bytes + [0] else bytes
  }

  predicate NeedsZero(bytes: seq<Byte>) {
    bytes == [] || bytes[|bytes| - 1] != 0
  }

  /** Does the encoding end in a label, and a zero byte that is added to it? */
  predicate AddsZero(name: seq<Byte>, at: nat, table: seq<Entry>)
    decreases |name|
  {
    var d := IndexOf(name, DOT);
    var first := if d < 0 then name else name[..d];
    && Lookup(table, name) < 0 && |first| <= 63
    && if d < 0 then NeedsZero([|first|] + first)
       else AddsZero(name[d + 1..], at + 1 + |first|, Remember(table, name, at))
  }

  lemma {:induction false} AddsZeroStep(name: seq<Byte>, at: nat, table: seq<Entry>)
    ensures var ref, d := Lookup(table, name), IndexOf(name, DOT);
            var first := if d < 0 then name else name[..d];
            AddsZero(name, at, table)
            <==> && ref < 0 && |first| <= 63
                 && if d < 0 then NeedsZero([|first|] + first)
                    else AddsZero(name[d + 1..], at + 1 + |first|, Remember(table, name, at))
  {
    hide Lookup, IndexOf, Remember;
  }

  function Behind(head: seq<Byte>, rest: Printed): Printed {
    match rest
    case Refused => Refused
    case Printed(bytes, table) => Printed(head + bytes, table)
  }

  /** One step of Print. */
  lemma {:induction false} PrintStep(name: seq<Byte>, at: nat, table: seq<Entry>)
    ensures var ref, d := Lookup(table, name), IndexOf(name, DOT);
            var first := if d < 0 then name else name[..d];
            Print(name, at, table)
            == if ref >= 0 then Printed(PointerBytes(ref), table)
               else if |first| > 63 then Refused
               else if d < 0 then Printed(Ended([|first|] + first), Remember(table, name, at))
               else Behind([|first|] + first, Print(name[d + 1..], at + 1 + |first|, Remember(table, name, at)))
  {
    hide Lookup, IndexOf, PointerBytes, Ended, Behind, Remember;
  }

  /** The table entry tells the truth about the packet. */
  ghost predicate EntryOk(pkt: seq<Byte>, e: Entry) {
    exists q :: e.pos < q <= |pkt| && Encodes(pkt, e.pos, q, Labels(e.name))
  }

  /** All entries do, but for those of names with more than n bytes, which may still be unfinished. */
  ghost predicate TableOk(pkt: seq<Byte>, table: seq<Entry>, n: int) {
    forall i :: 0 <= i < |table| ==> EntryOk(pkt, table[i]) || |table[i].name| > n
  }

  lemma {:induction false} EntryExtend(pkt: seq<Byte>, more: seq<Byte>, e: Entry)
    requires EntryOk(pkt, e)
    ensures EntryOk(pkt + more, e)
  {
    var q :| e.pos < q <= |pkt| && Encodes(pkt, e.pos, q, Labels(e.name));
    EncodesExtend(pkt, more, e.pos, q, Labels(e.name));
  }

  lemma {:induction false} LabelsAtDot(name: seq<Byte>, d: nat)
    requires d == IndexOf(name, DOT)
    ensures Labels(name) == [name[..d]] + Labels(name[d + 1..])
  {
    hide IndexOf;
  }

  lemma {:induction false} BehindFirst(first: Label, more: seq<Label>, i: nat)
    requires i < |more|
    ensures ([first] + more)[i + 1] == more[i]
  {
  }

  /** The rest of a good name, behind its first dot. */
  lemma {:induction false} RestIsGood(name: seq<Byte>, d: nat)
    requires GoodName(name) && d == IndexOf(name, DOT)
    ensures GoodName(name[d + 1..]) && Labels(name) == [name[..d]] + Labels(name[d + 1..])
  {
    hide IndexOf, Labels;
    LabelsAtDot(name, d);
    var more := Labels(name[d + 1..]);
    forall i | 0 <= i < |more|
      ensures 1 <= |more[i]| <= 63
    {
      BehindFirst(name[..d], more, i);
      assert Labels(name)[i + 1] == more[i];
    }
  }

  lemma {:induction false} PrintPointer(pkt: seq<Byte>, name: seq<Byte>, table: seq<Entry>, ref: nat)
    requires |pkt| <= POINTER_RANGE && ref == Lookup(table, name)
    requires TableOk(pkt, table, |name|)
    ensures PrintedOk(pkt, name, table, Print(name, |pkt|, table))
  {
    PrintIsPointer(pkt, name, table);
    hide Lookup, Labels, PointerBytes, Print;
    var i :| 0 <= i < |table| && table[i] == Entry(name, ref);
    var e :| ref < e <= |pkt| && Encodes(pkt, ref, e, Labels(name));
    PointerRoundTrip(ref);
    EncodesExtend(pkt, PointerBytes(ref), ref, e, Labels(name));
  }

  lemma {:induction false} OneMoreLabel(pkt: seq<Byte>, first: Label, rest: seq<Label>, now: seq<Byte>, end: nat)
    requires 1 <= |first| <= 63 && pkt + ([|first|] + first) <= now
    requires Encodes(now, |pkt| + 1 + |first|, end, rest)
    ensures Encodes(now, |pkt|, end, [first] + rest)
  {
    var labels := [first] + rest;
    var n := |pkt| + 1 + |first|;
    assert (pkt + ([|first|] + first))[|pkt|] == |first|;
    assert now[|pkt|] == |first|;
    assert now[|pkt| + 1..n] == now[..n][|pkt| + 1..] == first by {
      assert now[..n] == pkt + ([|first|] + first);
    }
    assert labels[1..] == rest;
  }

  lemma {:induction false} EndEncodes(pkt: seq<Byte>, p: nat)
    requires p < |pkt| && pkt[p] == 0
    ensures Encodes(pkt, p, p + 1, [])
  {
  }

  lemma {:induction false} LastLabel(pkt: seq<Byte>, name: Label)
    requires 1 <= |name| <= 63
    ensures Encodes(pkt + ([|name|] + name + [0]), |pkt|, |pkt| + |name| + 2, [name])
  {
    hide Encodes;
    var now := pkt + ([|name|] + name + [0]);
    EndEncodes(now, |pkt| + 1 + |name|);
    assert now == pkt + ([|name|] + name) + [0];
    OneMoreLabel(pkt, name, [], now, |pkt| + |name| + 2);
    assert [name] + [] == [name];
  }

  lemma {:induction false} EntryIntro(pkt: seq<Byte>, e: Entry, q: nat)
    requires Encodes(pkt, e.pos, q, Labels(e.name))
    ensures EntryOk(pkt, e)
  {
    assert e.pos < q <= |pkt|;
  }

  /** The outcome PrintEncodes promises. */
  ghost predicate PrintedOk(pkt: seq<Byte>, name: seq<Byte>, table: seq<Entry>, r: Printed) {
    && r.Printed? && table <= r.table
    && Encodes(pkt + r.bytes, |pkt|, |pkt| + |r.bytes|, Labels(name))
    && (forall i :: |table| <= i < |r.table| ==> EntryOk(pkt + r.bytes, r.table[i]))
    && |r.bytes| <= |name| + 2
  }

  lemma {:induction false} PrintOfLast(name: seq<Byte>, at: nat, table: seq<Entry>)
    requires GoodName(name) && Lookup(table, name) < 0 && IndexOf(name, DOT) < 0
    ensures 1 <= |name| <= 63 && Labels(name) == [name]
    ensures Print(name, at, table) == Printed([|name|] + name + [0], Remember(table, name, at))
  {
    hide Lookup, IndexOf, Print;
    PrintStep(name, at, table);
    assert |Labels(name)[0]| == |name|;
    var head: seq<Byte> := [|name|] + name;
    assert head[|head| - 1] == name[|name| - 1];
  }

  lemma {:induction false} PrintLast(pkt: seq<Byte>, name: seq<Byte>, table: seq<Entry>)
    requires GoodName(name) && Lookup(table, name) < 0 && IndexOf(name, DOT) < 0
    ensures PrintedOk(pkt, name, table, Print(name, |pkt|, table))
  {
    hide IndexOf, Lookup, Encodes, EntryOk, Print, Labels;
    PrintOfLast(name, |pkt|, table);
    LastLabel(pkt, name);
    var bytes: seq<Byte> := [|name|] + name + [0];
    EntryIntro(pkt + bytes, Entry(name, |pkt|), |pkt| + |bytes|);
  }

  lemma {:induction false} PrintOfMore(name: seq<Byte>, d: nat, at: nat, table: seq<Entry>)
    requires Lookup(table, name) < 0 && IndexOf(name, DOT) == d && d <= 63
    ensures var rest := Print(name[d + 1..], at + 1 + d, Remember(table, name, at));
            rest.Printed? ==> Print(name, at, table) == Printed(LengthAnd(name[..d]) + rest.bytes, rest.table)
  {
    hide Lookup, IndexOf, Print;
    PrintStep(name, at, table);
  }

  lemma {:induction false} PrintMore(pkt: seq<Byte>, name: seq<Byte>, d: nat, table: seq<Entry>)
    requires GoodName(name) && Lookup(table, name) < 0 && IndexOf(name, DOT) == d
    requires 1 <= d <= 63
    requires var head := LengthAnd(name[..d]);
             var table1 := Remember(table, name, |pkt|);
             PrintedOk(pkt + head, name[d + 1..], table1, Print(name[d + 1..], |pkt| + |head|, table1))
    ensures PrintedOk(pkt, name, table, Print(name, |pkt|, table))
  {
    hide IndexOf, Lookup, Encodes, EntryOk, Print, Labels, GoodName;
    var rest := name[d + 1..];
    RestIsGood(name, d);
    PrintOfMore(name, d, |pkt|, table);
    var head := LengthAnd(name[..d]);
    var table1 := Remember(table, name, |pkt|);
    var r, r1 := Print(name, |pkt|, table), Print(rest, |pkt| + |head|, table1);
    var now := pkt + r.bytes;
    assert now == pkt + head + r1.bytes;
    OneMoreLabel(pkt, name[..d], Labels(rest), now, |now|);
    EntryIntro(now, Entry(name, |pkt|), |now|);
  }

  /** What PrintEncodes needs of the table for the rest of the name: the entry just added is longer. */
  lemma {:induction false} TableForRest(pkt: seq<Byte>, head: seq<Byte>, name: seq<Byte>, n: nat, table: seq<Entry>,
                                        at: nat)
    requires n < |name|
    requires TableOk(pkt, table, |name|)
    ensures var table1 := Remember(table, name, at);
            TableOk(pkt + head, table1, n)
  {
    hide EntryOk;
    var table1 := Remember(table, name, at);
    forall i | 0 <= i < |table1|
      ensures EntryOk(pkt + head, table1[i]) || |table1[i].name| > n
    {
      if i < |table| && EntryOk(pkt, table[i]) { EntryExtend(pkt, head, table[i]); }
    }
  }

  /** Printing a good name encodes its labels, and every entry it adds to the table tells the truth.
      Entries for longer names may still be unfinished: a name never matches one of those. */
  lemma {:induction false} PrintEncodes(pkt: seq<Byte>, name: seq<Byte>, table: seq<Entry>)
    requires GoodName(name) && |pkt| + |name| + 2 <= POINTER_RANGE
    requires TableOk(pkt, table, |name|)
    ensures PrintedOk(pkt, name, table, Print(name, |pkt|, table))
    decreases |name|
  {
    hide Encodes, EntryOk, Lookup, IndexOf, Print, Labels, GoodName, PrintedOk, TableOk, Remember;
    var ref := Lookup(table, name);
    var d := IndexOf(name, DOT);
    if ref >= 0 {
      PrintPointer(pkt, name, table, ref);
    } else if d < 0 {
      PrintLast(pkt, name, table);
    } else {
      RestIsGood(name, d);
      FirstIsShort(name, d);
      var rest := name[d + 1..];
      var head := LengthAnd(name[..d]);
      var table1 := Remember(table, name, |pkt|);
      assert |rest| == |name| - d - 1 && |pkt + head| == |pkt| + |head|;
      TableForRest(pkt, head, name, |rest|, table, |pkt|);
      PrintEncodes(pkt + head, rest, table1);
      PrintMore(pkt, name, d, table);
    }
  }

  /** The bytes of a label that is not a pointer. */
  function LengthAnd(part: Label): (r: seq<Byte>)
    requires |part| <= 63
    ensures |r| == |part| + 1
  {
    [|part|] + part
  }

  lemma {:induction false} FirstIsShort(name: seq<Byte>, d: nat)
    requires GoodName(name) && IndexOf(name, DOT) == d
    ensures 1 <= d <= 63
  {
    assert |Labels(name)[0]| == d;
  }

  lemma {:induction false} PrintIsPointer(pkt: seq<Byte>, name: seq<Byte>, table: seq<Entry>)
    requires Lookup(table, name) >= 0
    ensures Print(name, |pkt|, table) == Printed(PointerBytes(Lookup(table, name)), table)
  {
    hide Lookup, IndexOf, Print, PointerBytes;
    PrintStep(name, |pkt|, table);
  }

  // ----- the round trip -----

  /** Joining the labels of a name gives the name back. */
  lemma {:induction false} JoinLabels(text: seq<Byte>, name: seq<Byte>)
    requires GoodName(name)
    ensures JoinOnto(text, Labels(name)) == (if text == [] then [] else text + [DOT]) + name
    decreases |name|
  {
    hide IndexOf, Labels, JoinOnto, GoodName;
    var d := IndexOf(name, DOT);
    var dotted := if text == [] then [] else text + [DOT];
    if d < 0 {
      OneLabel(name);
      JoinStep(text, name, []);
      JoinNothing(dotted + name);
    } else {
      FirstIsShort(name, d);
      RestIsGood(name, d);
      var first, rest := name[..d], name[d + 1..];
      JoinStep(text, first, Labels(rest));
      JoinLabels(dotted + first, rest);
      assert name == first + ([DOT] + rest);
      Regroup(dotted, first, [DOT], rest);
    }
  }

  lemma {:induction false} OneLabel(name: seq<Byte>)
    requires IndexOf(name, DOT) < 0
    ensures Labels(name) == [name] + []
  {
    hide IndexOf;
  }

  lemma {:induction false} JoinNothing(text: seq<Byte>)
    ensures JoinOnto(text, []) == text
  {
  }

  lemma {:induction false} JoinStep(text: seq<Byte>, first: Label, rest: seq<Label>)
    ensures JoinOnto(text, [first] + rest) == JoinOnto((if text == [] then [] else text + [DOT]) + first, rest)
  {
    assert ([first] + rest)[0] == first && ([first] + rest)[1..] == rest;
  }

  lemma {:induction false} Regroup(a: seq<Byte>, b: seq<Byte>, c: seq<Byte>, d: seq<Byte>)
    ensures a + b + c + d == a + (b + (c + d))
  {
  }

  /** A message being written: its bytes, the shared table, and where the names so far start and end. */
  datatype Message = Message(pkt: seq<Byte>, table: seq<Entry>, starts: seq<nat>, ends: seq<nat>)

  /** Write one name, then some bytes that are not a name. */
  function WriteName(m: Message, name: seq<Byte>, gap: seq<Byte>): Message {
    match Print(name, |m.pkt|, m.table)
    case Refused => m
    case Printed(bytes, table) =>
      Message(m.pkt + bytes + gap, table, m.starts + [|m.pkt|], m.ends + [|m.pkt| + |bytes|])
  }

  /** A message with the names written in turn, each followed by its gap. */
  function WriteAll(header: seq<Byte>, names: seq<seq<Byte>>, gaps: seq<seq<Byte>>): Message
    requires |names| == |gaps|
  {
    if names == [] then Message(header, [], [], [])
    else
      var n := |names| - 1;
      WriteName(WriteAll(header, names[..n], gaps[..n]), names[n], gaps[n])
  }

  /** An upper bound on the room the names and gaps take without compression. */
  ghost function Room(names: seq<seq<Byte>>, gaps: seq<seq<Byte>>): nat
    requires |names| == |gaps|
  {
    if names == [] then 0
    else var n := |names| - 1; Room(names[..n], gaps[..n]) + |names[n]| + 2 + |gaps[n]|
  }

  /** Every name is encoded where it was written, and the table tells the truth. */
  ghost predicate MessageOk(m: Message, names: seq<seq<Byte>>) {
    && |m.starts| == |m.ends| == |names|
    && (forall i :: 0 <= i < |names| ==> Encodes(m.pkt, m.starts[i], m.ends[i], Labels(names[i])))
    && (forall i :: 0 <= i < |m.table| ==> EntryOk(m.pkt, m.table[i]))
  }

  lemma {:induction false} WriteNameOk(m: Message, names: seq<seq<Byte>>, name: seq<Byte>, gap: seq<Byte>)
    requires MessageOk(m, names) && GoodName(name) && |m.pkt| + |name| + 2 <= POINTER_RANGE
    ensures MessageOk(WriteName(m, name, gap), names + [name])
    ensures |WriteName(m, name, gap).pkt| <= |m.pkt| + |name| + 2 + |gap|
  {
    hide Encodes, EntryOk, Labels, GoodName, Print;
    PrintEncodes(m.pkt, name, m.table);
    var r := Print(name, |m.pkt|, m.table);
    var now := WriteName(m, name, gap);
    assert now.pkt == m.pkt + (r.bytes + gap);
    forall i | 0 <= i < |names| + 1
      ensures Encodes(now.pkt, now.starts[i], now.ends[i], Labels((names + [name])[i]))
    {
      if i < |names| {
        EncodesExtend(m.pkt, r.bytes + gap, m.starts[i], m.ends[i], Labels(names[i]));
      } else {
        EncodesExtend(m.pkt + r.bytes, gap, |m.pkt|, |m.pkt| + |r.bytes|, Labels(name));
      }
    }
    forall i | 0 <= i < |now.table|
      ensures EntryOk(now.pkt, now.table[i])
    {
      if i < |m.table| {
        EntryExtend(m.pkt, r.bytes + gap, m.table[i]);
      } else {
        EntryExtend(m.pkt + r.bytes, gap, now.table[i]);
      }
    }
  }

  lemma {:induction false} WriteAllOk(header: seq<Byte>, names: seq<seq<Byte>>, gaps: seq<seq<Byte>>)
    requires |names| == |gaps| && forall i :: 0 <= i < |names| ==> GoodName(names[i])
    requires |header| + Room(names, gaps) <= POINTER_RANGE
    ensures MessageOk(WriteAll(header, names, gaps), names)
    ensures |WriteAll(header, names, gaps).pkt| <= |header| + Room(names, gaps)
    decreases |names|
  {
    hide GoodName, MessageOk, WriteName;
    if names != [] {
      var n := |names| - 1;
      WriteAllOk(header, names[..n], gaps[..n]);
      WriteNameOk(WriteAll(header, names[..n], gaps[..n]), names[..n], names[n], gaps[n]);
      assert names == names[..n] + [names[n]];
    } else {
      NothingWrittenOk(header);
    }
  }

  lemma {:induction false} NothingWrittenOk(header: seq<Byte>)
    ensures MessageOk(Message(header, [], [], []), [])
  {
  }

  /** Compression round trip: parsing at each start gives that name back, and its end. */
  lemma {:induction false} RoundTrip(header: seq<Byte>, names: seq<seq<Byte>>, gaps: seq<seq<Byte>>, i: nat, limit: int)
    requires |names| == |gaps| && i < |names| && forall k :: 0 <= k < |names| ==> GoodName(names[k])
    requires |header| + Room(names, gaps) <= POINTER_RANGE
    requires limit > |names[i]|
    ensures var m := WriteAll(header, names, gaps);
            && |m.starts| == |m.ends| == |names|
            && Encodes(m.pkt, m.starts[i], m.ends[i], Labels(names[i]))
            && Parse(m.pkt, m.starts[i], 0, -1, [], limit) == Some((names[i], m.ends[i]))
  {
    hide Encodes, Parse, IndexOf, Labels;
    WriteAllOk(header, names, gaps);
    var m := WriteAll(header, names, gaps);
    JoinLabels([], names[i]);
    assert [] + names[i] == names[i];
    EncodedInside(m.pkt, m.starts[i], m.ends[i], Labels(names[i]));
    ParseEncoded(m.pkt, m.starts[i], m.ends[i], Labels(names[i]), 0, -1, [], limit);
  }

  lemma {:induction false} EncodedInside(pkt: seq<Byte>, p: nat, q: nat, labels: seq<Label>)
    requires Encodes(pkt, p, q, labels)
    ensures p < q <= |pkt|
  {
  }
}
