/** The epoll backend's view of one change, and the kernel's interest set. */
module Epoll {

  /** EV_READ and EV_WRITE, or EPOLLIN and EPOLLOUT. */
  datatype Interest = Interest(read: bool, write: bool)

  const NOTHING := Interest(false, false)

  /** read_change and write_change: 0, EV_CHANGE_ADD or EV_CHANGE_DEL. */
  datatype Delta = Same | Plus | Minus

  /** struct event_change */
  datatype Change = Change(fd: nat, oldEvents: Interest, read: Delta, write: Delta)

  datatype Op = CtlAdd | CtlMod | CtlDel

  /** What the kernel watches. An fd that is registered is watched for something. */
  type Kernel = map<nat, Interest>

  function InterestOf(k: Kernel, fd: nat): Interest {
    if fd in k then k[fd] else NOTHING
  }

  ghost predicate KernelOk(k: Kernel) {
    forall fd :: fd in k ==> k[fd] != NOTHING
  }

  /** epoll_ctl succeeds: ADD on an unregistered fd, MOD and DEL on a registered one. */
  predicate Legal(k: Kernel, op: Op, fd: nat) {
    if op.CtlAdd? then fd !in k else fd in k
  }

  function EpollCtl(k: Kernel, op: Op, fd: nat, events: Interest): (k': Kernel)
    requires Legal(k, op, fd)
    ensures forall f :: f != fd ==> InterestOf(k', f) == InterestOf(k, f)
  {
    if op.CtlDel? then k - {fd} else k[fd := events]
  }

  /** The event mask and operation that epoll_apply_one_change computes. */
  function Choose(ch: Change): (r: (Op, Interest)) {
    if ch.read.Plus? || ch.write.Plus? then
      var in_ := if ch.read.Plus? then true else if ch.read.Minus? then false else ch.oldEvents.read;
      var out := if ch.write.Plus? then true else if ch.write.Minus? then false else ch.oldEvents.write;
      (if ch.oldEvents != NOTHING then CtlMod else CtlAdd, Interest(in_, out))
    else if ch.read.Minus? then
      if ch.write.Minus? then (CtlDel, Interest(true, true))
      else if ch.oldEvents.write then (CtlMod, Interest(false, true))
      else (CtlDel, Interest(true, false))
    else if ch.write.Minus? then
      if ch.oldEvents.read then (CtlMod, Interest(true, false))
      else (CtlDel, Interest(false, true))
    else (CtlAdd, NOTHING)
  }

  function Applied(d: Delta, was: bool): bool {
    match d
    case Same => was
    case Plus => true
    case Minus => false
  }

  /** What a change asks for. */
  function Wanted(ch: Change): Interest {
    Interest(Applied(ch.read, ch.oldEvents.read), Applied(ch.write, ch.oldEvents.write))
  }

  /** Only what was there is deleted. */
  ghost predicate Sound(ch: Change) {
    (ch.read.Minus? ==> ch.oldEvents.read) && (ch.write.Minus? ==> ch.oldEvents.write)
  }

  /** epoll_apply_one_change on the kernel. A change with no events to set does nothing. */
  function ApplyOne(k: Kernel, ch: Change): (k': Kernel)
    requires KernelOk(k) && Sound(ch) && InterestOf(k, ch.fd) == ch.oldEvents
    ensures KernelOk(k')
    ensures InterestOf(k', ch.fd) == Wanted(ch)
    ensures forall f :: f != ch.fd ==> InterestOf(k', f) == InterestOf(k, f)
  {
    var (op, events) := Choose(ch);
    if events == NOTHING then k
    else EpollCtl(k, op, ch.fd, events)
  }

  /** Two kernels that agree on every fd are the same. */
  lemma {:induction false} SameKernel(a: Kernel, b: Kernel)
    requires KernelOk(a) && KernelOk(b) && forall fd :: InterestOf(a, fd) == InterestOf(b, fd)
    ensures a == b
  {
    assert forall fd :: fd in a <==> InterestOf(a, fd) != NOTHING;
    assert forall fd :: fd in b <==> InterestOf(b, fd) != NOTHING;
    assert a.Keys == b.Keys;
    assert forall fd :: fd in a ==> a[fd] == InterestOf(a, fd) == InterestOf(b, fd) == b[fd];
  }

  // ----- coalescing on one fd -----

  /** One call of the backend: bits to add or to delete. */
  datatype Call = Call(add: bool, bits: Interest)

  /** The calls evmap makes: adding only what is not there, deleting only what is, and never nothing. */
  ghost predicate Sensible(now: Interest, c: Call) {
    && c.bits != NOTHING
    && (c.bits.read ==> now.read != c.add) && (c.bits.write ==> now.write != c.add)
  }

  function After(now: Interest, c: Call): Interest {
    Interest(if c.bits.read then c.add else now.read, if c.bits.write then c.add else now.write)
  }

  /** event_changelist_add and event_changelist_del on the fd's entry. */
  function Coalesce(ch: Change, c: Call): Change {
    if c.add then
      ch.(read := if c.bits.read then Plus else ch.read, write := if c.bits.write then Plus else ch.write)
    else
      ch.(read := if !c.bits.read then ch.read else if !ch.oldEvents.read && ch.read.Plus? then Same else Minus,
          write := if !c.bits.write then ch.write else if !ch.oldEvents.write && ch.write.Plus? then Same else Minus)
  }

  /** epoll_nochangelist_add and epoll_nochangelist_del: a fresh change, applied at once. */
  function Immediate(fd: nat, now: Interest, c: Call): Change {
    var d := if c.add then Plus else Minus;
    Change(fd, now, if c.bits.read then d else Same, if c.bits.write then d else Same)
  }

  /** A pending change that asks for `now` asks, after another sensible call, for what the call makes of it. */
  lemma {:induction false} CoalesceStep(ch: Change, now: Interest, c: Call)
    requires Sound(ch) && Wanted(ch) == now && Sensible(now, c)
    ensures Sound(Coalesce(ch, c)) && Wanted(Coalesce(ch, c)) == After(now, c)
  {
  }

  ghost predicate SensibleRun(now: Interest, calls: seq<Call>)
    decreases |calls|
  {
    calls == [] || (Sensible(now, calls[0]) && SensibleRun(After(now, calls[0]), calls[1..]))
  }

  function CoalesceAll(ch: Change, calls: seq<Call>): Change
    decreases |calls|
  {
    if calls == [] then ch else CoalesceAll(Coalesce(ch, calls[0]), calls[1..])
  }

  ghost function ImmediateAll(k: Kernel, fd: nat, calls: seq<Call>): Kernel
    requires KernelOk(k) && SensibleRun(InterestOf(k, fd), calls)
    decreases |calls|
  {
    if calls == [] then k
    else ImmediateAll(ApplyOne(k, Immediate(fd, InterestOf(k, fd), calls[0])), fd, calls[1..])
  }

  /** Any sensible sequence of calls, coalesced into one change and applied once, leaves the kernel as
      applying each call at once does. */
  lemma {:induction false} CoalescingKeepsMeaning(k: Kernel, fd: nat, calls: seq<Call>)
    requires KernelOk(k) && SensibleRun(InterestOf(k, fd), calls)
    ensures var ch := CoalesceAll(Change(fd, InterestOf(k, fd), Same, Same), calls);
            && ch.fd == fd && ch.oldEvents == InterestOf(k, fd) && Sound(ch)
            && ApplyOne(k, ch) == ImmediateAll(k, fd, calls)
  {
    var ch := Change(fd, InterestOf(k, fd), Same, Same);
    CoalesceRun(ch, calls, InterestOf(k, fd));
    ImmediateRun(k, fd, calls);
    SameKernel(ApplyOne(k, CoalesceAll(ch, calls)), ImmediateAll(k, fd, calls));
  }

  function AfterAll(now: Interest, calls: seq<Call>): Interest
    decreases |calls|
  {
    if calls == [] then now else AfterAll(After(now, calls[0]), calls[1..])
  }

  lemma {:induction false} CoalesceRun(ch: Change, calls: seq<Call>, now: Interest)
    requires Sound(ch) && Wanted(ch) == now && SensibleRun(now, calls)
    ensures var r := CoalesceAll(ch, calls);
            r.fd == ch.fd && r.oldEvents == ch.oldEvents && Sound(r) && Wanted(r) == AfterAll(now, calls)
    decreases |calls|
  {
    if calls != [] {
      CoalesceStep(ch, now, calls[0]);
      CoalesceRun(Coalesce(ch, calls[0]), calls[1..], After(now, calls[0]));
    }
  }

  lemma {:induction false} ImmediateRun(k: Kernel, fd: nat, calls: seq<Call>)
    requires KernelOk(k) && SensibleRun(InterestOf(k, fd), calls)
    ensures var r := ImmediateAll(k, fd, calls);
            && KernelOk(r) && InterestOf(r, fd) == AfterAll(InterestOf(k, fd), calls)
            && forall f :: f != fd ==> InterestOf(r, f) == InterestOf(k, f)
    decreases |calls|
  {
    if calls != [] {
      ImmediateRun(ApplyOne(k, Immediate(fd, InterestOf(k, fd), calls[0])), fd, calls[1..]);
    }
  }
}
