/** name_parse and dnsname_to_labels as the loops over a packet buffer that they are. */
module DnsCodec {
  import opened Wrappers
  import opened Bytes
  import opened DnsNames

  /** name_parse. A label is copied before anything checks that it ends inside the packet; `outside` says that bytes
      behind the packet were read (`behind` is what stands there). They do not matter for the result. */
  method NameParse(packet: seq<Byte>, behind: seq<Byte>, idx: nat, nameOutLen: int)
      returns (r: Option<(seq<Byte>, int)>, outside: bool)
    requires |behind| >= 63
    ensures r == Parse(packet, idx, 0, -1, [], nameOutLen)
    ensures r.Some? ==> |r.value.0| + 1 <= nameOutLen && idx < r.value.1 <= |packet|
    ensures outside <==> Overrun(packet, idx, 0, [], nameOutLen).Some?
    ensures outside ==> r.None?
  {
    hide Parse, Overrun, Target, Dotted, HasRoom;
    var nameEnd, j, ptrCount := -1, idx, 0;
    var cp: seq<Byte> := [];
    outside := false;
    ParseBounds(packet, idx, nameOutLen);
    OverrunFails(packet, idx, 0, -1, [], nameOutLen);
    while true
      invariant 0 <= ptrCount <= |packet| && 0 <= j && (outside ==> j >= |packet|)
      invariant Overrun(packet, idx, 0, [], nameOutLen).Some? <==>
                outside || Overrun(packet, j, ptrCount, cp, nameOutLen).Some?
      invariant Parse(packet, idx, 0, -1, [], nameOutLen) == Parse(packet, j, ptrCount, nameEnd, cp, nameOutLen)
      decreases |packet| - ptrCount, |packet| - j
    {
      if j >= |packet| {
        ParsePast(packet, j, ptrCount, nameEnd, cp, nameOutLen);
        return None, outside;
      }
      var labelLen := packet[j];
      if labelLen == 0 {
        ParseZero(packet, j, ptrCount, nameEnd, cp, nameOutLen);
        j := j + 1;
        break;
      }
      if labelLen >= 64 {
        var ok, t := Jump(packet, j, ptrCount);
        if !ok {
          ParseBadJump(packet, j, ptrCount, nameEnd, cp, nameOutLen);
          return None, outside;
        }
        ParseJump(packet, j, ptrCount, nameEnd, cp, nameOutLen, t);
        if nameEnd < 0 {
          nameEnd := j + 2;
        }
        j, ptrCount := t, ptrCount + 1;
      } else {
        var ok, more, past := CopyLabel(packet, behind, j, cp, nameOutLen);
        if !ok {
          ParseNoRoom(packet, j, ptrCount, nameEnd, cp, nameOutLen);
          return None, outside;
        }
        if past {
          ParseOver(packet, j, ptrCount, nameEnd, cp, nameOutLen);
          ParsePast(packet, j + 1 + labelLen, ptrCount, nameEnd, more, nameOutLen);
          outside := true;
        } else {
          ParseLabel(packet, j, ptrCount, nameEnd, cp, nameOutLen, more);
        }
        cp := more;
        j := j + 1 + labelLen;
      }
    }
    if |cp| >= nameOutLen {
      return None, outside;
    }
    r := Some((cp, if nameEnd < 0 then j else nameEnd));
  }

  /** The target of a pointer, if it is in the packet and there were not too many. */
  method Jump(packet: seq<Byte>, j: nat, ptrCount: nat) returns (ok: bool, t: nat)
    requires j < |packet| && packet[j] >= 64
    ensures ok <==> j + 1 < |packet| && Target(packet[j], packet[j + 1]) < |packet| && ptrCount + 1 <= |packet|
    ensures ok ==> t == Target(packet[j], packet[j + 1])
  {
    ok, t := false, 0;
    if j + 1 >= |packet| {
      return;
    }
    t := Target(packet[j], packet[j + 1]);
    if t >= |packet| {
      return;
    }
    ok := ptrCount + 1 <= |packet|;
  }

  lemma {:induction false} ParseBounds(pkt: seq<Byte>, idx: nat, limit: int)
    ensures var r := Parse(pkt, idx, 0, -1, [], limit);
            r.Some? ==> |r.value.0| + 1 <= limit && idx < r.value.1 <= |pkt|
  {
    hide Parse, JoinPlaces, InPacket;
    var places := ParseSound(pkt, idx, 0, -1, [], limit);
  }

  /** A dot, if there is text already, and the label at j, if they fit the output; `past` says that the label ends
      behind the packet. */
  method CopyLabel(packet: seq<Byte>, behind: seq<Byte>, j: nat, cp0: seq<Byte>, nameOutLen: int)
      returns (ok: bool, cp: seq<Byte>, past: bool)
    requires j < |packet| && 1 <= packet[j] <= 63 && |behind| >= 63
    ensures ok <==> HasRoom(cp0, packet[j], nameOutLen)
    ensures past <==> ok && j + 1 + packet[j] > |packet|
    ensures ok && !past ==> cp == Dotted(cp0) + packet[j + 1..j + 1 + packet[j]]
  {
    cp, past := cp0, false;
    var labelLen := packet[j];
    if cp != [] {
      if |cp| + 1 >= nameOutLen {
        return false, cp, false;
      }
      cp := cp + [DOT];
    }
    if |cp| + labelLen >= nameOutLen {
      return false, cp, false;
    }
    cp := cp + (packet + behind)[j + 1..j + 1 + labelLen];
    past := j + 1 + labelLen > |packet|;
    assert !past ==> (packet + behind)[j + 1..j + 1 + labelLen] == packet[j + 1..j + 1 + labelLen];
    ok := true;
  }

  /** struct dnslabel_table */
  class LabelTable {
    var labels: seq<Entry>

    constructor ()
      ensures labels == []
    {
      labels := [];
    }

    /** dnslabel_table_get_pos */
    method GetPos(name: seq<Byte>) returns (pos: int)
      ensures pos == Lookup(labels, name)
    {
      var i := 0;
      while i < |labels|
        invariant 0 <= i <= |labels| && Lookup(labels, name) == Lookup(labels[i..], name)
      {
        if labels[i].name == name {
          return labels[i].pos;
        }
        assert labels[i..][1..] == labels[i + 1..];
        i := i + 1;
      }
      pos := -1;
    }

    /** dnslabel_table_add; the caller ignores whether the table was full. */
    method Add(name: seq<Byte>, pos: nat)
      modifies this
      ensures labels == Remember(old(labels), name, pos)
    {
      if |labels| == MAX_LABELS {
        return;
      }
      labels := labels + [Entry(name, pos)];
    }
  }

  /** memcpy into the packet buffer. */
  method Put(buf: array<Byte>, j: nat, data: seq<Byte>)
    requires j + |data| <= buf.Length
    modifies buf
    ensures buf[..j] == old(buf[..j]) && buf[j..j + |data|] == data
  {
    for k := 0 to |data|
      invariant forall i :: 0 <= i < j ==> buf[i] == old(buf[i])
      invariant forall i :: 0 <= i < k ==> buf[j + i] == data[i]
    {
      buf[j + k] := data[k];
    }
  }

  /** What one turn of the loop means: the turn ends the name with its bytes, refuses it, or leaves a shorter rest. The
      bytes are those inside the buffer. */
  ghost predicate Turned(name: seq<Byte>, j: nat, table: seq<Entry>, bufLen: nat,
                         more: bool, n: int, rest: seq<Byte>, stray: bool, bytes: seq<Byte>, now: seq<Entry>) {
    var goal := Print(name, j, table);
    && (n == -1 ==> goal == Refused)
    && (n == -2 ==> j + |name| + 2 > bufLen && TooLong(goal, bufLen - j)
                    && (AddsZero(name, j, table) ==> TooLong(goal, bufLen - j + 1)))
    && (n >= 0 && !more ==> goal == Printed(Wrote(bytes, stray), now))
    && (stray ==> AddsZero(name, j, table) && j + |name| + 2 == bufLen + 1)
    && (more ==>
        && n >= 0 && |rest| < |name| && n + |rest| == j + |name|
        && goal == Behind(bytes, Print(rest, n, now)) && AddsZero(name, j, table) == AddsZero(rest, n, now))
  }

  lemma {:induction false} TurnPointer(name: seq<Byte>, j: nat, table: seq<Entry>, bufLen: nat, ref: int)
    requires ref == Lookup(table, name) >= 0
    ensures j + 2 > bufLen ==> Turned(name, j, table, bufLen, false, -2, [], false, [], table)
    ensures Turned(name, j, table, bufLen, false, j + 2, [], false, PointerBytes(ref), table)
  {
    hide Print, Lookup, IndexOf, PointerBytes, Remember, Ended, Behind, AddsZero;
    PrintStep(name, j, table);
    AddsZeroStep(name, j, table);
  }

  lemma {:induction false} TurnRefused(name: seq<Byte>, j: nat, table: seq<Entry>, bufLen: nat, n: nat)
    requires Lookup(table, name) < 0
    requires var d := IndexOf(name, DOT); n == if d < 0 then |name| else d
    ensures n > 63 ==> Turned(name, j, table, bufLen, false, -1, [], false, [], table)
    ensures n <= 63 && j + n + 1 > bufLen ==> Turned(name, j, table, bufLen, false, -2, [], false, [], table)
  {
    hide Print, Lookup, IndexOf, PointerBytes, Remember, Ended, Behind, AddsZero;
    if n > 63 {
      PrintStep(name, j, table);
    } else {
      AtLeastLabel(name, j, table);
    }
  }

  lemma {:induction false} TurnLast(name: seq<Byte>, j: nat, table: seq<Entry>, bufLen: nat, n: nat, stray: bool,
                                    bytes: seq<Byte>)
    requires Lookup(table, name) < 0 && IndexOf(name, DOT) < 0 && |name| <= 63
    requires Wrote(bytes, stray) == Ended(LengthAnd(name))
    requires stray ==> j + |name| + 2 == bufLen + 1 && NeedsZero(LengthAnd(name))
    ensures Turned(name, j, table, bufLen, false, n, [], stray, bytes, Remember(table, name, j))
  {
    hide Print, Lookup, IndexOf, PointerBytes, Remember, Ended, Behind, AddsZero;
    PrintStep(name, j, table);
    AddsZeroStep(name, j, table);
  }

  lemma {:induction false} TurnMore(name: seq<Byte>, j: nat, table: seq<Entry>, bufLen: nat, d: nat)
    requires Lookup(table, name) < 0 && IndexOf(name, DOT) == d <= 63
    ensures Turned(name, j, table, bufLen, true, j + 1 + d, name[d + 1..], false, LengthAnd(name[..d]),
                   Remember(table, name, j))
  {
    hide Print, Lookup, IndexOf, PointerBytes, Remember, Ended, Behind, AddsZero;
    PrintStep(name, j, table);
    AddsZeroStep(name, j, table);
  }

  /** One turn of the loop in dnsname_to_labels: a pointer, a refusal, the last label, or one label with
      more to come. The bytes go to [j, n), but for a zero at bufLen, which `stray` reports. */
  method LabelStep(buf: array<Byte>, bufLen: nat, j: nat, name: seq<Byte>, table: LabelTable)
      returns (more: bool, n: int, rest: seq<Byte>, stray: bool)
    requires j <= bufLen <= buf.Length
    modifies buf, table
    ensures n >= -2 && (n < 0 ==> !more && !stray) && (more ==> !stray)
    ensures n >= 0 ==> j <= n && (if stray then n == bufLen + 1 else n <= bufLen) && buf[..j] == old(buf[..j])
    ensures n < 0 ==> Turned(name, j, old(table.labels), bufLen, more, n, rest, stray, [], old(table.labels))
    ensures n >= 0 ==>
            var bytes := buf[j..if stray then bufLen else n];
            Turned(name, j, old(table.labels), bufLen, more, n, rest, stray, bytes, table.labels)
  {
    hide Turned, Lookup, IndexOf, PointerBytes, Remember, Ended;
    more, rest, stray := false, [], false;
    var ref := table.GetPos(name);
    if ref >= 0 {
      TurnPointer(name, j, table.labels, bufLen, ref);
      if j + 2 > bufLen {
        return false, -2, [], false;
      }
      Put(buf, j, PointerBytes(ref));
      n := j + 2;
    } else {
      var d := IndexOf(name, DOT);
      var first := if d < 0 then name else name[..d];
      TurnRefused(name, j, table.labels, bufLen, |first|);
      if |first| > 63 {
        return false, -1, [], false;
      }
      if j + |first| + 1 > bufLen {
        return false, -2, [], false;
      }
      ghost var was := table.labels;
      table.Add(name, j);
      if d < 0 {
        n, stray := PutLast(buf, bufLen, j, first);
        TurnLast(name, j, was, bufLen, n, stray, buf[j..if stray then bufLen else n]);
      } else {
        TurnMore(name, j, was, bufLen, d);
        Put(buf, j, LengthAnd(first));
        more, n, rest := true, j + 1 + |first|, name[d + 1..];
      }
    }
  }

  /** What was written: the bytes of the buffer, and the stray zero behind it. */
  function Wrote(bytes: seq<Byte>, stray: bool): seq<Byte> {
    if stray then bytes + [0] else bytes
  }

  /** An encoding, if there is one, has more bytes than the room. */
  ghost predicate TooLong(r: Printed, room: int) {
    r.Printed? ==> |r.bytes| > room
  }

  lemma {:induction false} AtLeastLabel(name: seq<Byte>, at: nat, table: seq<Entry>)
    requires Lookup(table, name) < 0
    ensures var d := IndexOf(name, DOT);
            var n := if d < 0 then |name| else |name[..d]|;
            TooLong(Print(name, at, table), n) && (AddsZero(name, at, table) ==> TooLong(Print(name, at, table), n + 1))
  {
    hide Lookup, IndexOf, PointerBytes, Remember, Print, AddsZero;
    PrintStep(name, at, table);
    AddsZeroStep(name, at, table);
    var d := IndexOf(name, DOT);
    if 0 <= d <= 63 {
      var first, later := name[..d], Remember(table, name, at);
      var more := Print(name[d + 1..], at + 1 + d, later);
      SomeBytes(name[d + 1..], at + 1 + d, later);
      BehindLength([|first|] + first, more);
      hide Behind, Ended;
    }
  }

  lemma {:induction false} BehindLength(a: seq<Byte>, r: Printed)
    ensures Behind(a, r).Printed? <==> r.Printed?
    ensures r.Printed? ==> |Behind(a, r).bytes| == |a| + |r.bytes|
  {
  }

  lemma {:induction false} SomeBytes(name: seq<Byte>, at: nat, table: seq<Entry>)
    ensures TooLong(Print(name, at, table), 0)
  {
    hide Lookup, IndexOf, Remember;
    PrintStep(name, at, table);
    hide Print;
  }

  /** dnsname_to_labels: the index behind the encoded name; -1 if a label has more than 63 bytes, -2 if the name has
      more than 255 or the buffer too little room. The zero byte at the end is written without a look at the room;
      `stray` says that it goes to buf_len, one byte behind the buffer. */
  method ToLabels(buf: array<Byte>, bufLen: nat, j0: nat, name0: seq<Byte>, table: LabelTable)
      returns (r: int, stray: bool)
    requires j0 <= bufLen <= buf.Length
    modifies buf, table
    ensures r >= -2
    ensures |name0| > 255 ==> r == -2 && buf[..] == old(buf[..]) && table.labels == old(table.labels)
    ensures r == -2 && |name0| <= 255 ==>
            j0 + |name0| + 2 > bufLen && TooLong(Print(name0, j0, old(table.labels)), bufLen - j0)
    ensures r == -1 ==> Print(name0, j0, old(table.labels)) == Refused
    ensures r >= 0 ==>
            && j0 <= r && (if stray then r == bufLen + 1 else r <= bufLen) && buf[..j0] == old(buf[..j0])
            && Print(name0, j0, old(table.labels))
               == Printed(Wrote(buf[j0..if stray then bufLen else r], stray), table.labels)
    ensures stray <==> |name0| <= 255 && Strays(name0, j0, old(table.labels), bufLen)
    ensures stray ==> r == bufLen + 1
    ensures j0 + |name0| + 2 <= bufLen && |name0| <= 255 ==> !stray && r != -2
  {
    hide Print, AddsZero;
    if |name0| > 255 {
      return -2, false;
    }
    var j, name := j0, name0;
    ghost var goal, zero := Print(name0, j0, table.labels), AddsZero(name0, j0, table.labels);
    BehindNothing(goal);
    assert buf[j0..j0] == [];
    hide Behind, TooLong, Wrote;
    while true
      invariant j0 <= j <= bufLen && j + |name| == j0 + |name0| && buf[..j0] == old(buf[..j0])
      invariant goal == Behind(buf[j0..j], Print(name, j, table.labels)) && zero == AddsZero(name, j, table.labels)
      decreases |name|
    {
      ghost var now, done := Print(name, j, table.labels), buf[j0..j];
      BehindCases(done, now);
      var more, n, rest;
      more, n, rest, stray := LabelStep(buf, bufLen, j, name, table);
      if n < 0 {
        NotWritten(goal, now, done, bufLen - j);
        return n, false;
      }
      assert buf[j0..j] == buf[..j][j0..] == done && buf[..j0] == buf[..j][..j0];
      if !more {
        ghost var m := if stray then bufLen else n;
        assert buf[j0..m] == done + buf[j..m];
        Written(goal, now, done, buf[j..m], stray, table.labels);
        return n, stray;
      }
      assert buf[j0..n] == done + buf[j..n];
      BehindTwice(done, buf[j..n], Print(rest, n, table.labels));
      j, name := n, rest;
    }
  }

  lemma {:induction false} NotWritten(goal: Printed, now: Printed, done: seq<Byte>, room: int)
    requires goal == if now.Refused? then Refused else Printed(done + now.bytes, now.table)
    ensures TooLong(now, room) <==> TooLong(goal, |done| + room)
    ensures TooLong(now, room + 1) <==> TooLong(goal, |done| + room + 1)
    ensures TooLong(goal, |done| + room + 1) && goal.Printed? ==> |goal.bytes| != |done| + room + 1
  {
  }

  lemma {:induction false} Written(goal: Printed, now: Printed, done: seq<Byte>, last: seq<Byte>, stray: bool,
                                   table: seq<Entry>)
    requires goal == if now.Refused? then Refused else Printed(done + now.bytes, now.table)
    requires now == Printed(Wrote(last, stray), table)
    ensures goal == Printed(Wrote(done + last, stray), table)
    ensures |goal.bytes| == |done| + |last| + if stray then 1 else 0
  {
  }

  /** The encoding ends in a label and an added zero and is one byte longer than the room. */
  ghost predicate Strays(name: seq<Byte>, at: nat, table: seq<Entry>, bufLen: nat) {
    var p := Print(name, at, table);
    p.Printed? && AddsZero(name, at, table) && at + |p.bytes| == bufLen + 1
  }

  /** The shortest case: "a" into two bytes. */
  lemma {:induction false} OneLetterStrays()
    ensures Print([97], 0, []) == Printed([1, 97, 0], [Entry([97], 0)]) && Strays([97], 0, [], 2)
  {
    PrintStep([97], 0, []);
    AddsZeroStep([97], 0, []);
    assert IndexOf([97], DOT) == -1;
  }

  /** What evdns does with a buffer of its own size. */
  method OneLetter() returns (r: int, stray: bool)
    ensures r == 3 && stray
  {
    var buf := new Byte[2](_ => 0);
    var table := new LabelTable();
    OneLetterStrays();
    hide Print, AddsZero;
    r, stray := ToLabels(buf, 2, 0, [97], table);
  }

  lemma {:induction false} BehindNothing(r: Printed)
    ensures Behind([], r) == r
  {
    if r.Printed? {
      assert [] + r.bytes == r.bytes;
    }
  }

  lemma {:induction false} BehindCases(a: seq<Byte>, r: Printed)
    ensures Behind(a, r) == if r.Refused? then Refused else Printed(a + r.bytes, r.table)
  {
  }

  lemma {:induction false} BehindTwice(a: seq<Byte>, b: seq<Byte>, r: Printed)
    ensures Behind(a, Behind(b, r)) == Behind(a + b, r)
  {
    if r.Printed? {
      assert a + (b + r.bytes) == a + b + r.bytes;
    }
  }

  /** The last label of a name, and the zero byte if it is not there yet. */
  method PutLast(buf: array<Byte>, bufLen: nat, j: nat, first: seq<Byte>) returns (r: nat, stray: bool)
    requires |first| <= 63 && j + |first| + 1 <= bufLen <= buf.Length
    modifies buf
    ensures r == j + |Ended(LengthAnd(first))| && j <= r && buf[..j] == old(buf[..j])
    ensures stray <==> r > bufLen
    ensures stray ==> r == bufLen + 1 == j + |first| + 2 && NeedsZero(LengthAnd(first))
    ensures Wrote(buf[j..if stray then bufLen else r], stray) == Ended(LengthAnd(first))
  {
    var head := LengthAnd(first);
    Put(buf, j, head);
    r, stray := j + |head|, false;
    ghost var was := buf[..];
    assert was[j..r] == head && was[..j] == buf[..j];
    LastOf(was, j, r);
    if buf[r - 1] != 0 {
      if r < bufLen {
        buf[r] := 0;
        OneMore(was, j, r, buf[..]);
        assert buf[..][..j] == buf[..j] && buf[..][j..r + 1] == buf[j..r + 1];
      } else {
        stray := true;
      }
      r := r + 1;
    }
  }

  lemma {:induction false} LastOf(s: seq<Byte>, j: nat, r: nat)
    requires j < r <= |s|
    ensures s[j..r][r - j - 1] == s[r - 1]
  {
  }

  lemma {:induction false} OneMore(s: seq<Byte>, j: nat, r: nat, t: seq<Byte>)
    requires j <= r < |s| && t == s[r := 0]
    ensures t[..j] == s[..j] && t[j..r + 1] == s[j..r] + [0]
  {
  }
}
