/** The fd map and the changelist of an event base, over the epoll kernel. */
module Evmap {
  import opened Wrappers
  import opened Epoll

  /** An event's interest in an fd. */
  datatype Watch = Watch(id: nat, read: bool, write: bool)

  /** struct evmap_io, with the changelist's per-fd index behind it. */
  datatype IoCtx = IoCtx(events: seq<Watch>, nread: nat, nwrite: nat, idxplus1: nat)

  const MAX_PER_FD: nat := 0xffff

  ghost function Readers(events: seq<Watch>): nat {
    if events == [] then 0 else Readers(events[1..]) + if events[0].read then 1 else 0
  }

  ghost function Writers(events: seq<Watch>): nat {
    if events == [] then 0 else Writers(events[1..]) + if events[0].write then 1 else 0
  }

  lemma {:induction false} CountAppend(a: seq<Watch>, b: seq<Watch>)
    ensures Readers(a + b) == Readers(a) + Readers(b) && Writers(a + b) == Writers(a) + Writers(b)
    decreases |a|
  {
    if a == [] {
      assert a + b == b;
    } else {
      CountAppend(a[1..], b);
      assert (a + b)[1..] == a[1..] + b;
    }
  }

  /** Taking one event out takes its share out of the counts. */
  lemma {:induction false} CountAt(events: seq<Watch>, i: nat)
    requires i < |events|
    ensures Readers(events) == Readers(events[..i] + events[i + 1..]) + if events[i].read then 1 else 0
    ensures Writers(events) == Writers(events[..i] + events[i + 1..]) + if events[i].write then 1 else 0
  {
    var a, e, b := events[..i], [events[i]], events[i + 1..];
    assert events == a + e + b;
    CountAppend(a + e, b);
    CountAppend(a, e);
    CountAppend(a, b);
    assert e[1..] == [];
  }

  lemma {:induction false} CountOne(ev: Watch)
    ensures Readers([ev]) == (if ev.read then 1 else 0) && Writers([ev]) == if ev.write then 1 else 0
  {
    assert [ev][1..] == [];
  }

  /** The event is the first reader or the first writer beside the others. */
  ghost predicate FirstOf(others: seq<Watch>, ev: Watch) {
    (ev.read && Readers(others) == 0) || (ev.write && Writers(others) == 0)
  }

  ghost predicate TooMany(others: seq<Watch>, ev: Watch) {
    (ev.read && Readers(others) == MAX_PER_FD) || (ev.write && Writers(others) == MAX_PER_FD)
  }

  /** The counters are right and fit 16 bits. */
  ghost predicate CtxOk(c: IoCtx) {
    c.nread == Readers(c.events) <= MAX_PER_FD && c.nwrite == Writers(c.events) <= MAX_PER_FD
  }

  type Entries = seq<Option<IoCtx>>

  /** The events on an fd. */
  ghost function EventsOn(entries: Entries, fd: nat): seq<Watch> {
    if fd < |entries| && entries[fd].Some? then entries[fd].value.events else []
  }

  /** What the events on an fd want. */
  ghost function WantedOn(entries: Entries, fd: nat): Interest {
    if fd < |entries| && entries[fd].Some? then Interest(entries[fd].value.nread > 0, entries[fd].value.nwrite > 0)
    else NOTHING
  }

  ghost function IndexPlus1(entries: Entries, fd: nat): nat {
    if fd < |entries| && entries[fd].Some? then entries[fd].value.idxplus1 else 0
  }

  /** The index is a bijection: change i is for the fd that points back at i, and there is one change per fd. */
  ghost predicate IndexOk(entries: Entries, changes: seq<Change>, n: nat) {
    && n <= |changes|
    && (forall i :: 0 <= i < n ==> IndexPlus1(entries, changes[i].fd) == i + 1)
    && (forall fd: nat {:trigger IndexPlus1(entries, fd)} :: IndexPlus1(entries, fd) > 0 ==>
          IndexPlus1(entries, fd) <= n && changes[IndexPlus1(entries, fd) - 1].fd == fd)
  }

  /** The pending change of an fd. */
  ghost function Pending(entries: Entries, changes: seq<Change>, fd: nat): Option<Change> {
    var i := IndexPlus1(entries, fd);
    if 0 < i <= |changes| then Some(changes[i - 1]) else None
  }

  /** The kernel has what the fd's events want, or a pending change remembers what the kernel has and
      asks for what they want. */
  ghost predicate FdOk(entries: Entries, changes: seq<Change>, k: Kernel, fd: nat) {
    match Pending(entries, changes, fd)
    case None => InterestOf(k, fd) == WantedOn(entries, fd)
    case Some(ch) => Sound(ch) && InterestOf(k, fd) == ch.oldEvents && Wanted(ch) == WantedOn(entries, fd)
  }

  /** The whole invariant of an fd map, a changelist with n changes, and a kernel. */
  ghost predicate MapOk(entries: Entries, changes: seq<Change>, n: nat, k: Kernel) {
    && (forall fd :: 0 <= fd < |entries| && entries[fd].Some? ==> CtxOk(entries[fd].value))
    && KernelOk(k) && IndexOk(entries, changes, n)
    && (forall fd: nat :: FdOk(entries, changes, k, fd))
  }

  /** An invariant that depends only on what each fd wants and where its change is. */
  lemma {:induction false} MapOkSame(entries: Entries, now: Entries, changes: seq<Change>, n: nat, k: Kernel)
    requires MapOk(entries, changes, n, k)
    requires forall fd: nat ::
               WantedOn(now, fd) == WantedOn(entries, fd) && IndexPlus1(now, fd) == IndexPlus1(entries, fd)
    requires forall fd :: 0 <= fd < |now| && now[fd].Some? ==> CtxOk(now[fd].value)
    ensures MapOk(now, changes, n, k)
  {
    hide WantedOn, IndexPlus1;
    forall fd: nat
      ensures FdOk(now, changes, k, fd)
    {
      assert FdOk(entries, changes, k, fd);
      assert WantedOn(now, fd) == WantedOn(entries, fd);
    }
  }

  lemma {:induction false} SlotElsewhere(entries: Entries, entries': Entries, fd: nat, f: nat)
    requires fd < |entries| == |entries'| && entries' == entries[fd := entries'[fd]] && f != fd
    ensures WantedOn(entries', f) == WantedOn(entries, f) && IndexPlus1(entries', f) == IndexPlus1(entries, f)
  {
  }

  /** Changing one fd's counters, change and kernel interest together keeps the rest of the invariant. */
  lemma {:induction false} UpdateOne(entries: Entries, changes: seq<Change>, n: nat, k: Kernel, fd: nat,
                                     entries': Entries, changes': seq<Change>, n': nat, k': Kernel)
    requires MapOk(entries, changes, n, k)
    requires fd < |entries| == |entries'| && entries' == entries[fd := entries'[fd]]
    requires entries'[fd].Some? ==> CtxOk(entries'[fd].value)
    requires KernelOk(k') && forall f: nat :: f != fd ==> InterestOf(k', f) == InterestOf(k, f)
    requires forall i :: 0 <= i < n && changes[i].fd != fd ==> i < |changes'| && changes'[i] == changes[i]
    requires IndexOk(entries', changes', n') && FdOk(entries', changes', k', fd)
    ensures MapOk(entries', changes', n', k')
  {
    hide WantedOn, IndexPlus1, InterestOf, KernelOk, Sound, Wanted, CtxOk;
    forall f: nat
      ensures FdOk(entries', changes', k', f)
    {
      if f != fd {
        SlotElsewhere(entries, entries', fd, f);
        assert FdOk(entries, changes, k, f);
        assert InterestOf(k', f) == InterestOf(k, f);
        assert Pending(entries', changes', f) == Pending(entries, changes, f);
      }
    }
  }

  class IoBase {
    const useChangelist: bool
    var entries: Entries
    var changes: seq<Change>
    var nChanges: nat
    var kernel: Kernel

    ghost predicate Valid()
      reads this
    {
      MapOk(entries, changes, nChanges, kernel) && (!useChangelist ==> nChanges == 0)
    }

    constructor (useChangelist: bool)
      ensures Valid() && this.useChangelist == useChangelist
      ensures entries == [] && nChanges == 0 && kernel == map[]
    {
      this.useChangelist := useChangelist;
      entries, changes, nChanges, kernel := [], [], 0, map[];
    }

    /** evmap_make_space: double the table until it has the slot; the new slots are empty. */
    method MakeSpace(slot: nat)
      requires Valid()
      modifies this`entries
      ensures Valid() && slot < |entries| && old(entries) <= entries
      ensures forall fd: nat :: WantedOn(entries, fd) == WantedOn(old(entries), fd)
      ensures forall fd :: |old(entries)| <= fd < |entries| ==> entries[fd].None?
    {
      if |entries| <= slot {
        var n := if |entries| > 0 then |entries| else 32;
        while n <= slot
          invariant n >= |entries| && n > 0
          modifies {}
        {
          n := n * 2;
        }
        ghost var was := entries;
        entries := entries + seq(n - |entries|, _ => None);
        MapOkSame(was, entries, changes, nChanges, kernel);
      }
    }

    /** event_changelist_grow */
    method Grow()
      requires Valid()
      modifies this`changes
      ensures Valid() && |changes| > old(|changes|) && old(changes) <= changes
    {
      var newSize := if |changes| < 64 then 64 else |changes| * 2;
      ghost var was := changes;
      changes := changes + seq(newSize - |changes|, _ => Change(0, NOTHING, Same, Same));
      GrowOk(entries, was, changes, nChanges, kernel);
    }

    /** event_changelist_get_or_construct: the index of the fd's change, which is made if there is none. */
    method GetOrConstruct(fd: nat) returns (idx: nat)
      requires Valid() && useChangelist && fd < |entries| && entries[fd].Some?
      modifies this`entries, this`changes, this`nChanges
      ensures Valid() && |entries| == old(|entries|)
      ensures entries == old(entries)[fd := entries[fd]] && entries[fd].Some?
      ensures entries[fd].value == old(entries)[fd].value.(idxplus1 := idx + 1)
      ensures idx < nChanges && changes[idx].fd == fd
    {
      var ctx := entries[fd].value;
      if ctx.idxplus1 == 0 {
        if nChanges == |changes| {
          Grow();
        }
        idx := nChanges;
        ghost var was, wasE := changes, entries;
        var now := Interest(ctx.nread > 0, ctx.nwrite > 0);
        changes := changes[idx := Change(fd, now, Same, Same)];
        entries := entries[fd := Some(ctx.(idxplus1 := idx + 1))];
        nChanges := nChanges + 1;
        ConstructOk(wasE, was, idx, kernel, fd, entries, changes);
      } else {
        assert IndexPlus1(entries, fd) == ctx.idxplus1;
        idx := ctx.idxplus1 - 1;
        assert entries == entries[fd := entries[fd]];
      }
    }

    /** The invariant will hold once the fd's counters say `want`. */
    ghost predicate ReadyFor(fd: nat, want: Interest)
      reads this
    {
      && fd < |entries| && entries[fd].Some?
      && forall c: IoCtx :: CtxOk(c) && c.idxplus1 == entries[fd].value.idxplus1
           && (c.nread > 0) == want.read && (c.nwrite > 0) == want.write
           ==> MapOk(entries[fd := Some(c)], changes, nChanges, kernel)
    }

    /** evsel->add or evsel->del: record the call in the changelist, or tell the kernel at once. */
    method BackendCall(fd: nat, call: Call)
      requires Valid() && fd < |entries| && entries[fd].Some? && Sensible(WantedOn(entries, fd), call)
      modifies this`entries, this`changes, this`nChanges, this`kernel
      ensures ReadyFor(fd, After(WantedOn(old(entries), fd), call))
      ensures |entries| == old(|entries|) && entries == old(entries)[fd := entries[fd]]
      ensures entries[fd].value.(idxplus1 := 0) == old(entries)[fd].value.(idxplus1 := 0)
      ensures !useChangelist ==> nChanges == 0
    {
      ghost var now := WantedOn(entries, fd);
      if useChangelist {
        var idx := GetOrConstruct(fd);
        ghost var was := changes;
        changes := changes[idx := Coalesce(changes[idx], call)];
        assert WantedOn(entries, fd) == now;
        forall c: IoCtx | CtxOk(c) && c.idxplus1 == entries[fd].value.idxplus1
          && (c.nread > 0) == After(now, call).read && (c.nwrite > 0) == After(now, call).write
          ensures MapOk(entries[fd := Some(c)], changes, nChanges, kernel)
        {
          CoalescedOk(entries, was, nChanges, kernel, fd, idx, call, c);
        }
      } else {
        ghost var was := kernel;
        assert IndexPlus1(entries, fd) == 0;
        assert FdOk(entries, changes, kernel, fd);
        var ctx := entries[fd].value;
        kernel := ApplyOne(kernel, Immediate(fd, Interest(ctx.nread > 0, ctx.nwrite > 0), call));
        forall c: IoCtx | CtxOk(c) && c.idxplus1 == entries[fd].value.idxplus1
          && (c.nread > 0) == After(now, call).read && (c.nwrite > 0) == After(now, call).write
          ensures MapOk(entries[fd := Some(c)], changes, nChanges, kernel)
        {
          ImmediateOk(entries, changes, was, fd, kernel, c, After(now, call));
        }
      }
    }

    /** The slot for an fd: space is made and a zeroed entry constructed if needed. */
    method Slot(fd: nat)
      requires Valid()
      modifies this`entries
      ensures Valid() && fd < |entries| && entries[fd].Some?
      ensures forall f: nat :: EventsOn(entries, f) == EventsOn(old(entries), f)
    {
      MakeSpace(fd);
      if entries[fd].None? {
        ghost var was := entries;
        entries := entries[fd := Some(IoCtx([], 0, 0, 0))];
        MapOkSame(was, entries, changes, nChanges, kernel);
      }
    }

    /** With nothing to tell the backend, the invariant is ready for counters that mean the same. */
    lemma {:induction false} Untold(fd: nat)
      requires Valid() && fd < |entries| && entries[fd].Some?
      ensures ReadyFor(fd, WantedOn(entries, fd))
    {
      forall c: IoCtx | CtxOk(c) && c.idxplus1 == entries[fd].value.idxplus1
        && (c.nread > 0) == WantedOn(entries, fd).read && (c.nwrite > 0) == WantedOn(entries, fd).write
        ensures MapOk(entries[fd := Some(c)], changes, nChanges, kernel)
      {
        MapOkSame(entries, entries[fd := Some(c)], changes, nChanges, kernel);
      }
    }

    method Store(fd: nat, ctx: IoCtx, ghost want: Interest)
      requires ReadyFor(fd, want) && CtxOk(ctx) && ctx.idxplus1 == entries[fd].value.idxplus1
      requires want == Interest(ctx.nread > 0, ctx.nwrite > 0)
      requires !useChangelist ==> nChanges == 0
      modifies this`entries
      ensures Valid() && EventsOn(entries, fd) == ctx.events
      ensures forall f: nat :: f != fd ==> EventsOn(entries, f) == EventsOn(old(entries), f)
    {
      entries := entries[fd := Some(ctx)];
    }

    /** The end of evmap_io_add and evmap_io_del: the backend is told of the first or last reader or writer, and then
        the counters and the list are stored. */
    method Tell(fd: nat, call: Call, events: seq<Watch>, nread: nat, nwrite: nat) returns (r: int)
      requires Valid() && fd < |entries| && entries[fd].Some?
      requires nread == Readers(events) <= MAX_PER_FD && nwrite == Writers(events) <= MAX_PER_FD
      requires Interest(nread > 0, nwrite > 0) == After(WantedOn(entries, fd), call)
      requires call.bits != NOTHING ==> Sensible(WantedOn(entries, fd), call)
      modifies this`entries, this`changes, this`nChanges, this`kernel
      ensures Valid() && r == (if call.bits != NOTHING then 1 else 0)
      ensures EventsOn(entries, fd) == events
      ensures forall f: nat :: f != fd ==> EventsOn(entries, f) == EventsOn(old(entries), f)
    {
      r := 0;
      if call.bits != NOTHING {
        BackendCall(fd, call);
        r := 1;
      } else {
        Untold(fd);
      }
      Store(fd, IoCtx(events, nread, nwrite, entries[fd].value.idxplus1), Interest(nread > 0, nwrite > 0));
    }

    /** evmap_io_add: a negative fd is let through; -1 if there are too many events on the fd, 1 if the backend was told
        something, else 0. */
    method IoAdd(fd: int, ev: Watch) returns (r: int)
      requires Valid()
      modifies this`entries, this`changes, this`nChanges, this`kernel
      ensures Valid() && -1 <= r <= 1
      ensures fd < 0 ==> r == 0 && unchanged(this)
      ensures fd >= 0 ==> (r == -1 <==> TooMany(EventsOn(old(entries), fd), ev))
      ensures r == 1 <==> fd >= 0 && r != -1 && FirstOf(EventsOn(old(entries), fd), ev)
      ensures fd >= 0 && r != -1 ==> EventsOn(entries, fd) == EventsOn(old(entries), fd) + [ev]
      ensures r == -1 ==> forall f: nat :: EventsOn(entries, f) == EventsOn(old(entries), f)
      ensures forall f: nat :: f != fd ==> EventsOn(entries, f) == EventsOn(old(entries), f)
    {
      if fd < 0 {
        return 0;
      }
      Slot(fd);
      var ctx := entries[fd].value;
      assert EventsOn(entries, fd) == ctx.events && CtxOk(ctx);
      var nread := ctx.nread + if ev.read then 1 else 0;
      var nwrite := ctx.nwrite + if ev.write then 1 else 0;
      var res := Interest(ev.read && nread == 1, ev.write && nwrite == 1);
      if nread > MAX_PER_FD || nwrite > MAX_PER_FD {
        return -1;
      }
      CountAppend(ctx.events, [ev]);
      CountOne(ev);
      hide MapOk, CtxOk;
      r := Tell(fd, Call(true, res), ctx.events + [ev], nread, nwrite);
    }

    /** evmap_io_del. The event is on its fd; a negative fd is let through, and one the table does not reach refused. */
    method IoDel(fd: int, i: nat) returns (r: int)
      requires Valid() && (0 <= fd < |entries| ==> i < |EventsOn(entries, fd)|)
      modifies this`entries, this`changes, this`nChanges, this`kernel
      ensures Valid() && (r == -1 <==> fd >= |old(entries)|) && (fd < 0 ==> r == 0)
      ensures !(0 <= fd < |old(entries)|) ==> unchanged(this)
      ensures 0 <= fd < |old(entries)| ==>
                var was := EventsOn(old(entries), fd); r == 1 <==> FirstOf(was[..i] + was[i + 1..], was[i])
      ensures 0 <= fd < |old(entries)| ==>
                var was := EventsOn(old(entries), fd); EventsOn(entries, fd) == was[..i] + was[i + 1..]
      ensures forall f: nat :: f != fd ==> EventsOn(entries, f) == EventsOn(old(entries), f)
    {
      if fd < 0 {
        return 0;
      }
      if fd >= |entries| {
        return -1;
      }
      var ctx := entries[fd].value;
      var ev := ctx.events[i];
      assert EventsOn(entries, fd) == ctx.events && CtxOk(ctx);
      var nread := ctx.nread - if ev.read then 1 else 0;
      var nwrite := ctx.nwrite - if ev.write then 1 else 0;
      var res := Interest(ev.read && nread == 0, ev.write && nwrite == 0);
      CountAt(ctx.events, i);
      hide MapOk, CtxOk;
      r := Tell(fd, Call(false, res), ctx.events[..i] + ctx.events[i + 1..], nread, nwrite);
    }

    /** epoll_apply_changes */
    method ApplyChanges()
      requires Valid()
      modifies this`kernel
      ensures KernelOk(kernel)
      ensures forall fd: nat :: InterestOf(kernel, fd) == WantedOn(entries, fd)
    {
      hide Sound, Wanted, KernelOk, WantedOn, IndexPlus1, InterestOf;
      ghost var was := kernel;
      assert forall fd: nat :: FdOk(entries, changes, was, fd);
      for i := 0 to nChanges
        invariant KernelOk(kernel)
        invariant forall fd: nat :: InterestOf(kernel, fd)
                    == if 0 < IndexPlus1(entries, fd) <= i then WantedOn(entries, fd) else InterestOf(was, fd)
      {
        var ch := changes[i];
        assert IndexPlus1(entries, ch.fd) == i + 1;
        assert FdOk(entries, changes, was, ch.fd);
        kernel := ApplyOne(kernel, ch);
        assert forall fd: nat :: IndexPlus1(entries, fd) == i + 1 ==> fd == ch.fd;
      }
      forall fd: nat
        ensures InterestOf(kernel, fd) == WantedOn(entries, fd)
      {
        assert FdOk(entries, changes, was, fd);
      }
    }

    /** event_changelist_remove_all */
    method RemoveAll()
      requires KernelOk(kernel) && IndexOk(entries, changes, nChanges)
      requires forall fd :: 0 <= fd < |entries| && entries[fd].Some? ==> CtxOk(entries[fd].value)
      requires forall fd: nat :: InterestOf(kernel, fd) == WantedOn(entries, fd)
      modifies this`entries, this`nChanges
      ensures Valid() && nChanges == 0
      ensures forall fd: nat :: EventsOn(entries, fd) == EventsOn(old(entries), fd)
      ensures forall fd: nat :: InterestOf(kernel, fd) == WantedOn(entries, fd)
    {
      ghost var was := entries;
      for i := 0 to nChanges
        invariant |entries| == |was| && nChanges == old(nChanges)
        invariant forall fd :: 0 <= fd < |was| ==>
          entries[fd] == if was[fd].Some? && was[fd].value.idxplus1 <= i
                         then Some(was[fd].value.(idxplus1 := 0)) else was[fd]
      {
        var fd := changes[i].fd;
        assert IndexPlus1(was, fd) == i + 1;
        entries := entries[fd := Some(entries[fd].value.(idxplus1 := 0))];
        forall f | 0 <= f < |was| && was[f].Some? && was[f].value.idxplus1 == i + 1
          ensures f == fd
        {
          assert IndexPlus1(was, f) == i + 1;
        }
      }
      Forgotten(was, changes, nChanges, entries);
      nChanges := 0;
    }

    /** The part of epoll_dispatch that brings the kernel up to date. */
    method Dispatch()
      requires Valid()
      modifies this`entries, this`nChanges, this`kernel
      ensures Valid() && nChanges == 0
      ensures forall fd: nat :: EventsOn(entries, fd) == EventsOn(old(entries), fd)
      ensures forall fd: nat :: InterestOf(kernel, fd) == WantedOn(entries, fd)
    {
      ApplyChanges();
      RemoveAll();
    }
  }

  lemma {:induction false} GrowOk(entries: Entries, changes: seq<Change>, now: seq<Change>, n: nat, k: Kernel)
    requires MapOk(entries, changes, n, k) && changes <= now
    ensures MapOk(entries, now, n, k)
  {
    hide WantedOn, IndexPlus1;
    forall fd: nat
      ensures FdOk(entries, now, k, fd)
    {
      assert FdOk(entries, changes, k, fd);
      assert IndexPlus1(entries, fd) > 0 ==> IndexPlus1(entries, fd) <= n;
    }
  }

  lemma {:induction false} IndexGrows(entries: Entries, changes: seq<Change>, n: nat, fd: nat,
                                      entries': Entries, changes': seq<Change>)
    requires IndexOk(entries, changes, n) && n < |changes| == |changes'|
    requires IndexPlus1(entries, fd) == 0 && IndexPlus1(entries', fd) == n + 1 && changes'[n].fd == fd
    requires forall f: nat :: f != fd ==> IndexPlus1(entries', f) == IndexPlus1(entries, f)
    requires forall i :: 0 <= i < n ==> changes'[i] == changes[i]
    ensures IndexOk(entries', changes', n + 1)
  {
    hide IndexPlus1;
    forall i | 0 <= i < n + 1
      ensures IndexPlus1(entries', changes'[i].fd) == i + 1
    {
      if i < n {
        assert IndexPlus1(entries, changes[i].fd) == i + 1;
      }
    }
  }

  /** A fresh change that remembers what the kernel has and changes nothing. */
  lemma {:induction false} ConstructOk(entries: Entries, changes: seq<Change>, n: nat, k: Kernel, fd: nat,
                                       entries': Entries, changes': seq<Change>)
    requires MapOk(entries, changes, n, k) && n < |changes| && fd < |entries| && entries[fd].Some?
    requires entries[fd].value.idxplus1 == 0
    requires entries' == entries[fd := Some(entries[fd].value.(idxplus1 := n + 1))]
    requires changes' == changes[n := Change(fd, WantedOn(entries, fd), Same, Same)]
    ensures MapOk(entries', changes', n + 1, k)
  {
    assert IndexPlus1(entries', fd) == n + 1 && IndexPlus1(entries, fd) == 0;
    assert forall f: nat :: f != fd ==> IndexPlus1(entries', f) == IndexPlus1(entries, f);
    assert WantedOn(entries', fd) == WantedOn(entries, fd);
    assert CtxOk(entries'[fd].value);
    hide WantedOn, IndexPlus1, CtxOk;
    assert FdOk(entries, changes, k, fd);
    assert FdOk(entries', changes', k, fd);
    hide FdOk;
    IndexGrows(entries, changes, n, fd, entries', changes');
    hide IndexOk;
    UpdateOne(entries, changes, n, k, fd, entries', changes', n + 1, k);
  }

  lemma {:induction false} CoalescedOk(entries: Entries, changes: seq<Change>, n: nat, k: Kernel, fd: nat,
                                       idx: nat, call: Call, c: IoCtx)
    requires MapOk(entries, changes, n, k) && fd < |entries| && entries[fd].Some?
    requires idx < n && changes[idx].fd == fd && entries[fd].value.idxplus1 == idx + 1
    requires Sensible(WantedOn(entries, fd), call)
    requires CtxOk(c) && c.idxplus1 == idx + 1
    requires Interest(c.nread > 0, c.nwrite > 0) == After(WantedOn(entries, fd), call)
    ensures MapOk(entries[fd := Some(c)], changes[idx := Coalesce(changes[idx], call)], n, k)
  {
    var entries' := entries[fd := Some(c)];
    var changes' := changes[idx := Coalesce(changes[idx], call)];
    FdCoalesced(entries, changes, k, fd, idx, call, c);
    SameIndex(entries, fd, c);
    hide WantedOn, IndexPlus1, FdOk, Coalesce, CtxOk;
    IndexOkSame(entries, changes, n, entries', changes');
    hide IndexOk;
    UpdateOne(entries, changes, n, k, fd, entries', changes', n, k);
  }

  lemma {:induction false} IndexOkSame(entries: Entries, changes: seq<Change>, n: nat, entries': Entries,
                                       changes': seq<Change>)
    requires IndexOk(entries, changes, n) && |changes'| == |changes|
    requires forall i :: 0 <= i < n ==> changes'[i].fd == changes[i].fd
    requires forall f: nat :: IndexPlus1(entries', f) == IndexPlus1(entries, f)
    ensures IndexOk(entries', changes', n)
  {
    hide IndexPlus1;
    forall i | 0 <= i < n
      ensures IndexPlus1(entries', changes'[i].fd) == i + 1
    {
      assert IndexPlus1(entries, changes[i].fd) == i + 1;
    }
    forall f: nat | IndexPlus1(entries', f) > 0
      ensures IndexPlus1(entries', f) <= n && changes'[IndexPlus1(entries', f) - 1].fd == f
    {
      assert IndexPlus1(entries, f) > 0;
    }
  }

  lemma {:induction false} SameIndex(entries: Entries, fd: nat, c: IoCtx)
    requires fd < |entries| && entries[fd].Some? && c.idxplus1 == entries[fd].value.idxplus1
    ensures forall f: nat :: IndexPlus1(entries[fd := Some(c)], f) == IndexPlus1(entries, f)
  {
  }

  lemma {:induction false} FdCoalesced(entries: Entries, changes: seq<Change>, k: Kernel, fd: nat,
                                       idx: nat, call: Call, c: IoCtx)
    requires fd < |entries| && entries[fd].Some? && FdOk(entries, changes, k, fd)
    requires idx < |changes| && entries[fd].value.idxplus1 == c.idxplus1 == idx + 1
    requires Sensible(WantedOn(entries, fd), call)
    requires Interest(c.nread > 0, c.nwrite > 0) == After(WantedOn(entries, fd), call)
    ensures FdOk(entries[fd := Some(c)], changes[idx := Coalesce(changes[idx], call)], k, fd)
    ensures Coalesce(changes[idx], call).fd == changes[idx].fd
  {
    CoalesceStep(changes[idx], WantedOn(entries, fd), call);
    hide Coalesce, Sensible, After;
  }

  lemma {:induction false} ImmediateOk(entries: Entries, changes: seq<Change>, k: Kernel, fd: nat,
                                       k': Kernel, c: IoCtx, want: Interest)
    requires MapOk(entries, changes, 0, k) && fd < |entries| && entries[fd].Some?
    requires CtxOk(c) && c.idxplus1 == entries[fd].value.idxplus1
    requires KernelOk(k') && InterestOf(k', fd) == want == Interest(c.nread > 0, c.nwrite > 0)
    requires forall f: nat :: f != fd ==> InterestOf(k', f) == InterestOf(k, f)
    ensures MapOk(entries[fd := Some(c)], changes, 0, k')
  {
    var entries' := entries[fd := Some(c)];
    assert forall f: nat :: IndexPlus1(entries', f) == IndexPlus1(entries, f);
    assert IndexPlus1(entries, fd) == 0;
    assert FdOk(entries', changes, k', fd);
    hide WantedOn, IndexPlus1, FdOk;
    UpdateOne(entries, changes, 0, k, fd, entries', changes, 0, k');
  }

  /** After all indices are reset, every fd wants what it wanted and has no pending change. */
  lemma {:induction false} Forgotten(was: Entries, changes: seq<Change>, n: nat, entries: Entries)
    requires IndexOk(was, changes, n) && |entries| == |was|
    requires forall fd :: 0 <= fd < |was| ==>
      entries[fd] == if was[fd].Some? && was[fd].value.idxplus1 <= n then Some(was[fd].value.(idxplus1 := 0))
                     else was[fd]
    ensures forall fd: nat :: IndexPlus1(entries, fd) == 0 && WantedOn(entries, fd) == WantedOn(was, fd)
    ensures forall fd: nat :: EventsOn(entries, fd) == EventsOn(was, fd)
  {
    forall fd: nat
      ensures IndexPlus1(entries, fd) == 0
    {
      assert IndexPlus1(was, fd) <= n;
    }
  }

  // ----- whole runs -----

  datatype Command = DoAdd(fd: nat, ev: Watch) | DoDel(fd: nat, i: nat) | DoDispatch

  ghost predicate SameEvents(a: IoBase, b: IoBase)
    reads a, b
  {
    forall fd: nat :: EventsOn(a.entries, fd) == EventsOn(b.entries, fd)
  }

  /** The changelist backend after a dispatch, and the immediate one at any time, have the kernel that the
      events call for. */
  lemma {:induction false} KernelsAgree(a: IoBase, b: IoBase)
    requires a.Valid() && b.Valid() && a.nChanges == 0 && b.nChanges == 0 && SameEvents(a, b)
    ensures a.kernel == b.kernel
  {
    forall fd: nat
      ensures InterestOf(a.kernel, fd) == InterestOf(b.kernel, fd)
    {
      assert IndexPlus1(a.entries, fd) == 0 && IndexPlus1(b.entries, fd) == 0;
      assert FdOk(a.entries, a.changes, a.kernel, fd) && FdOk(b.entries, b.changes, b.kernel, fd);
      assert EventsOn(a.entries, fd) == EventsOn(b.entries, fd);
      WantedFromEvents(a.entries, fd);
      WantedFromEvents(b.entries, fd);
    }
    SameKernel(a.kernel, b.kernel);
  }

  lemma {:induction false} WantedFromEvents(entries: Entries, fd: nat)
    requires fd < |entries| && entries[fd].Some? ==> CtxOk(entries[fd].value)
    ensures var e := EventsOn(entries, fd); WantedOn(entries, fd) == Interest(Readers(e) > 0, Writers(e) > 0)
  {
  }

  /** Any run of adds, deletes and dispatches: a base that coalesces changes and one that tells the kernel at
      once see the same events throughout; the immediate kernel is right after every step, and at every
      dispatch the other kernel is the same one. */
  method RunBoth(commands: seq<Command>) returns (a: IoBase, b: IoBase)
    ensures a.Valid() && b.Valid() && SameEvents(a, b)
    ensures forall fd: nat :: InterestOf(b.kernel, fd) == WantedOn(b.entries, fd)
    ensures commands != [] && commands[|commands| - 1].DoDispatch? ==> a.kernel == b.kernel
  {
    a := new IoBase(true);
    b := new IoBase(false);
    for n := 0 to |commands|
      invariant a.Valid() && b.Valid() && SameEvents(a, b) && a.useChangelist && !b.useChangelist && a != b
      invariant fresh(a) && fresh(b)
      invariant n > 0 && commands[n - 1].DoDispatch? ==> a.kernel == b.kernel
    {
      match commands[n] {
        case DoAdd(fd, ev) =>
          ghost var e := EventsOn(a.entries, fd);
          assert e == EventsOn(b.entries, fd);
          var ra := a.IoAdd(fd, ev);
          var rb := b.IoAdd(fd, ev);
          assert (ra == -1) == (rb == -1);
          forall f: nat ensures EventsOn(a.entries, f) == EventsOn(b.entries, f) { }
        case DoDel(fd, i) =>
          assert EventsOn(a.entries, fd) == EventsOn(b.entries, fd);
          if fd < |a.entries| && a.entries[fd].Some? && i < |a.entries[fd].value.events| {
            var ra := a.IoDel(fd, i);
            var rb := b.IoDel(fd, i);
            forall f: nat ensures EventsOn(a.entries, f) == EventsOn(b.entries, f) { }
          }
        case DoDispatch =>
          a.Dispatch();
          b.Dispatch();
          KernelsAgree(a, b);
      }
    }
    forall fd: nat
      ensures InterestOf(b.kernel, fd) == WantedOn(b.entries, fd)
    {
      assert FdOk(b.entries, b.changes, b.kernel, fd);
      assert IndexPlus1(b.entries, fd) == 0;
    }
  }
}
