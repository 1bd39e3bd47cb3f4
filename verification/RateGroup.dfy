/** The rate-limit group: members are suspended and unsuspended by try-lock while others join, leave and spend. One
    direction (reading or writing) is modelled; each step below is what happens between two points where another
    thread may come in. */
module RateGroups {
  import opened Wrappers
  import opened TokenBuckets

  type Bev = nat

  /** The loop that the holder of the group lock is in. */
  datatype Loop =
    | Idle
    | Suspending(todo: seq<Bev>)
    | Unsuspending(todo: seq<Bev>, again: bool)

  /** A thread that holds a member's lock in the middle of joining or leaving, past its use of the group lock. */
  datatype Phase = Joining(suspend: bool) | Leaving

  datatype Group = Group(
    limit: int, rate: nat, maximum: nat, otherRate: nat,
    configuredMinShare: nat, minShare: int,
    suspended: bool, pending: bool,
    members: seq<Bev>, nMembers: int,
    flagged: set<Bev>,          // have BEV_SUSPEND_BW_GROUP
    phase: map<Bev, Phase>,
    loop: Loop)

  /** bufferevent_rate_limit_group_set_min_share */
  function MinShare(share: nat, rate: nat, otherRate: nat): (r: nat)
    ensures r <= share && r <= rate && r <= otherRate
    ensures 1 <= rate && 1 <= otherRate ==> (r >= 1 <==> share >= 1)
  {
    var s := if share > rate then rate else share;
    if s > otherRate then otherRate else s
  }

  /** bufferevent_rate_limit_group_new */
  function NewGroup(rate: nat, maximum: nat, otherRate: nat): Group {
    Group(rate, rate, maximum, otherRate, 64, MinShare(64, rate, otherRate), false, false, [], 0, {}, map[], Idle)
  }

  // ----- the loops -----

  /** FOREACH_RANDOM_ORDER from element k: the rest of the list, then its beginning. */
  function Rotated(members: seq<Bev>, k: nat): (r: seq<Bev>)
    requires k <= |members|
    ensures multiset(r) == multiset(members)
  {
    assert members == members[..k] + members[k..];
    members[k..] + members[..k]
  }

  function StartSuspend(g: Group): Group {
    g.(suspended := true, pending := false, loop := Suspending(g.members))
  }

  function StartUnsuspend(g: Group, k: nat): Group {
    g.(suspended := false, loop := Unsuspending(if k <= |g.members| then Rotated(g.members, k) else g.members, false))
  }

  // ----- the steps -----

  datatype Step =
    | Charge(bytes: nat, k: nat)          // _bufferevent_decrement_*_buckets, the group part
    | GroupDecrement(bytes: nat, k: nat)  // bufferevent_rate_limit_group_decrement_*
    | Refill(tick: nat, k: nat)           // _bev_group_refill_callback; tick: ticks since the last accepted one
    | Try(ok: bool)                       // the loop's next EVLOCK_TRY_LOCK
    | EndLoop                             // the loop is over; the group lock is released
    | Look(b: Bev)                        // _bufferevent_get_rlim_max of a member
    | JoinEnter(b: Bev) | JoinLeave(b: Bev)
    | LeaveEnter(b: Bev) | LeaveLeave(b: Bev)
    | SetCfg(rate: nat, maximum: nat, otherRate: nat)
    | SetMinShare(share: nat)

  function Filled(g: Group, ticks: nat): int {
    if Accepted(ticks) then Min(g.maximum, g.limit + ticks * g.rate) else g.limit
  }

  function Remove(s: seq<Bev>, b: Bev): (r: seq<Bev>)
    requires b in s
    ensures |r| == |s| - 1
    ensures forall x :: x in r ==> x in s
    ensures forall x :: x in s && x != b ==> x in r
  {
    assert s == [s[0]] + s[1..];
    if s[0] == b then s[1..] else [s[0]] + Remove(s[1..], b)
  }

  /** May the step happen? The steps that take the group lock need it free; a member's lock is held by one thread. */
  predicate Enabled(g: Group, s: Step) {
    match s
    case Charge(_, k) => g.loop.Idle? && k <= |g.members|
    case GroupDecrement(_, k) => g.loop.Idle? && k <= |g.members|
    case Refill(_, k) => g.loop.Idle? && k <= |g.members|
    case Try(ok) => !g.loop.Idle? && g.loop.todo != [] && (ok ==> g.loop.todo[0] !in g.phase)
    case EndLoop => !g.loop.Idle? && g.loop.todo == []
    case Look(b) => g.loop.Idle? && b in g.members && b !in g.phase
    case JoinEnter(b) => g.loop.Idle? && b !in g.members && b !in g.phase
    case JoinLeave(b) => b in g.phase && g.phase[b].Joining?
    case LeaveEnter(b) => g.loop.Idle? && b in g.members && b !in g.phase
    case LeaveLeave(b) => b in g.phase && g.phase[b].Leaving?
    case SetCfg(rate, maximum, otherRate) => g.loop.Idle? && RatesOk(rate, maximum) && 1 <= otherRate
    case SetMinShare(share) => true
  }

  function Next(g: Group, s: Step): Group
    requires Enabled(g, s)
  {
    match s
    case Charge(bytes, k) =>
      var h := g.(limit := g.limit - bytes);
      if h.limit <= 0 then StartSuspend(h) else if h.suspended then StartUnsuspend(h, k) else h
    case GroupDecrement(bytes, k) =>
      var h := g.(limit := g.limit - bytes);
      if g.limit > 0 && h.limit <= 0 then StartSuspend(h)
      else if g.limit <= 0 && h.limit > 0 then StartUnsuspend(h, k) else h
    case Refill(ticks, k) =>
      var h := g.(limit := Filled(g, ticks));
      if h.pending || (h.suspended && h.limit >= h.minShare) then StartUnsuspend(h, k) else h
    case Try(ok) =>
      var b := g.loop.todo[0];
      (match g.loop
       case Suspending(todo) => g.(flagged := if ok then g.flagged + {b} else g.flagged, loop := Suspending(todo[1..]))
       case Unsuspending(todo, again) =>
         g.(flagged := if ok then g.flagged - {b} else g.flagged, loop := Unsuspending(todo[1..], again || !ok)))
    case EndLoop =>
      g.(pending := if g.loop.Unsuspending? then g.loop.again else g.pending, loop := Idle)
    case Look(b) =>
      if g.suspended then g.(flagged := g.flagged + {b}) else g
    case JoinEnter(b) =>
      g.(members := g.members + [b], nMembers := g.nMembers + 1, phase := g.phase[b := Joining(g.suspended)])
    case JoinLeave(b) =>
      g.(flagged := if g.phase[b].suspend then g.flagged + {b} else g.flagged, phase := g.phase - {b})
    case LeaveEnter(b) =>
      g.(members := Remove(g.members, b), nMembers := g.nMembers - 1, phase := g.phase[b := Leaving])
    case LeaveLeave(b) =>
      g.(flagged := g.flagged - {b}, phase := g.phase - {b})
    case SetCfg(rate, maximum, otherRate) =>
      g.(rate := rate, maximum := maximum, otherRate := otherRate, limit := Min(g.limit, maximum),
         minShare := MinShare(g.configuredMinShare, rate, otherRate))
    case SetMinShare(share) =>
      g.(configuredMinShare := share, minShare := MinShare(share, g.rate, g.otherRate))
  }

  // ----- what a member may transfer -----

  const MAX_EVER: int := 16384

  /** Division as C does it, towards zero. */
  function CDiv(a: int, b: nat): int
    requires b > 0
  {
    if a >= 0 then a / b else -(-a / b)
  }

  /** _bufferevent_get_rlim_max for a member: its own bucket's limit, if it has one, and its share of the group's. */
  function MemberMax(g: Group, own: int, hasOwn: bool): (r: nat)
    requires g.nMembers > 0
    ensures r > 0 ==> !g.suspended && (hasOwn ==> r <= own)
    ensures g.limit > 0 && g.minShare >= 1 && (hasOwn ==> own > 0) ==> (r > 0 <==> !g.suspended)
    ensures r > g.minShare && r > 0 ==> r * g.nMembers <= g.limit
  {
    var max := if hasOwn then own else MAX_EVER;
    var part := CDiv(g.limit, g.nMembers);
    var share := if g.suspended then 0 else if part < g.minShare then g.minShare else part;
    var m := if max > share then share else max;
    if m < 0 then 0 else
      ShareOfAll(g.limit, g.nMembers, m);
      m
  }

  lemma {:induction false} ShareOfAll(limit: int, n: nat, m: nat)
    requires n > 0
    ensures 0 < m <= CDiv(limit, n) ==> m * n <= limit
  {
    if limit >= 0 && m <= limit / n {
      assert limit / n * n <= limit;
      assert m * n <= limit / n * n;
    }
  }

  // ----- the invariant -----

  ghost predicate Shape(g: Group) {
    TodoIn(g) && Limits(g) && Members(g.members, g.nMembers, g.phase, g.flagged)
  }

  ghost predicate TodoIn(g: Group) {
    !g.loop.Idle? ==> forall b :: b in g.loop.todo ==> b in g.members
  }

  ghost predicate Limits(g: Group) {
    && RatesOk(g.rate, g.maximum) && 1 <= g.otherRate && g.limit <= g.maximum
    && g.minShare == MinShare(g.configuredMinShare, g.rate, g.otherRate)
  }

  /** Who joins is a member already, who leaves is not one any more; only members and those who leave are suspended. */
  ghost predicate Members(members: seq<Bev>, n: int, phase: map<Bev, Phase>, flagged: set<Bev>) {
    && NoDup(members) && n == |members|
    && (forall b :: b in phase && phase[b].Joining? ==> b in members)
    && (forall b :: b in phase && phase[b].Leaving? ==> b !in members)
    && (forall b :: b in flagged ==> b in members || (b in phase && phase[b].Leaving?))
  }

  /** A member that is suspended, or that is about to suspend itself because it saw the group suspended. */
  ghost predicate Stopped(g: Group, b: Bev) {
    b in g.members && (b in g.flagged || (b in g.phase && g.phase[b] == Joining(true)))
  }

  /** No stopped member is forgotten: someone will come back for it. */
  ghost predicate NobodyForgotten(g: Group) {
    match g.loop
    case Idle => (g.pending ==> !g.suspended) && forall b :: Stopped(g, b) ==> g.suspended || g.pending
    case Suspending(todo) => g.suspended && !g.pending
    case Unsuspending(todo, again) => !g.suspended && forall b :: Stopped(g, b) ==> b in todo || again
  }

  /** A group that is not suspended has something to spend. */
  ghost predicate Positive(g: Group) {
    !g.suspended ==> g.limit > 0
  }

  lemma {:induction false} RemoveNoDup(s: seq<Bev>, b: Bev)
    requires b in s && NoDup(s)
    ensures NoDup(Remove(s, b)) && b !in Remove(s, b)
    decreases |s|
  {
    assert s == [s[0]] + s[1..];
    if s[0] != b {
      RemoveNoDup(s[1..], b);
      var r := Remove(s[1..], b);
      forall k | 0 <= k < |r|
        ensures r[k] != s[0]
      {
        assert r[k] in s[1..];
      }
    }
  }

  lemma {:induction false} NewShape(rate: nat, maximum: nat, otherRate: nat)
    requires RatesOk(rate, maximum) && 1 <= otherRate
    ensures var g := NewGroup(rate, maximum, otherRate);
            Shape(g) && NobodyForgotten(g) && Positive(g) && g.minShare >= 1
  {
  }

  lemma {:induction false} FilledAtMost(g: Group, ticks: nat)
    requires RatesOk(g.rate, g.maximum) && g.limit <= g.maximum
    ensures g.limit <= Filled(g, ticks) <= g.maximum
  {
    assert ticks * g.rate >= 0;
  }

  lemma {:induction false} NextTodo(g: Group, s: Step)
    requires TodoIn(g) && Enabled(g, s)
    ensures TodoIn(Next(g, s))
  {
    hide Filled;
    match s
    case Charge(_, k) => RotatedMembers(g.members, k);
    case GroupDecrement(_, k) => RotatedMembers(g.members, k);
    case Refill(_, k) => RotatedMembers(g.members, k);
    case Try(_) => assert forall b :: b in g.loop.todo[1..] ==> b in g.loop.todo;
    case _ =>
  }

  lemma {:induction false} NextLimits(g: Group, s: Step)
    requires Limits(g) && Enabled(g, s)
    ensures Limits(Next(g, s))
  {
    hide Rotated, Remove;
    match s
    case Refill(ticks, k) => FilledAtMost(g, ticks); hide Filled;
    case _ =>
  }

  lemma {:induction false} NextMembers(g: Group, s: Step)
    requires TodoIn(g) && Members(g.members, g.nMembers, g.phase, g.flagged) && Enabled(g, s)
    ensures var h := Next(g, s); Members(h.members, h.nMembers, h.phase, h.flagged)
  {
    hide NoDup, Rotated, Filled, MinShare;
    match s
    case JoinEnter(b) => JoinNoDup(g.members, b);
    case LeaveEnter(b) => RemoveNoDup(g.members, b); hide Remove;
    case Try(_) => assert g.loop.todo[0] in g.loop.todo;
    case _ =>
  }

  lemma {:induction false} NextShape(g: Group, s: Step)
    requires Shape(g) && Enabled(g, s)
    ensures Shape(Next(g, s))
  {
    NextTodo(g, s);
    NextLimits(g, s);
    NextMembers(g, s);
  }

  lemma {:induction false} JoinNoDup(s: seq<Bev>, b: Bev)
    requires NoDup(s) && b !in s
    ensures NoDup(s + [b])
  {
  }

  lemma {:induction false} RotatedMembers(s: seq<Bev>, k: nat)
    requires k <= |s|
    ensures forall b :: b in Rotated(s, k) <==> b in s
  {
    assert s == s[..k] + s[k..];
  }

  /** Only in a suspended group does a member become stopped. */
  lemma {:induction false} StopsWhenSuspended(g: Group, s: Step, b: Bev)
    requires Shape(g) && Enabled(g, s) && Stopped(Next(g, s), b)
    requires g.loop.Suspending? ==> g.suspended
    ensures Stopped(g, b) || (g.suspended && Next(g, s).suspended && (s.Look? || s.JoinEnter? || g.loop.Suspending?))
  {
    hide NoDup, Rotated, Filled, MinShare;
    match s
    case LeaveEnter(c) => RemoveNoDup(g.members, c); hide Remove;
    case _ =>
  }

  lemma {:induction false} TriedOrTodo(g: Group, ok: bool, b: Bev)
    requires Shape(g) && Enabled(g, Try(ok)) && g.loop.Unsuspending? && Stopped(Next(g, Try(ok)), b) && b in g.loop.todo
    ensures b in g.loop.todo[1..] || !ok
  {
    assert g.loop.todo == [g.loop.todo[0]] + g.loop.todo[1..];
  }

  /** Every step of every thread keeps watch over the stopped members. */
  lemma {:induction false} NextForgetsNobody(g: Group, s: Step)
    requires Shape(g) && NobodyForgotten(g) && Enabled(g, s)
    ensures NobodyForgotten(Next(g, s))
  {
    var h := Next(g, s);
    if s.Charge? || s.GroupDecrement? || s.Refill? {
      RotatedMembers(g.members, s.k);
    }
    forall b | Stopped(h, b)
      ensures h.loop.Idle? ==> h.suspended || h.pending
      ensures h.loop.Unsuspending? ==> b in h.loop.todo || h.loop.again
    {
      StopsWhenSuspended(g, s, b);
      hide Shape, Rotated, Filled, MinShare, Remove;
      if s.Try? && g.loop.Unsuspending? && b in g.loop.todo {
        TriedOrTodo(g, s.ok, b);
      }
    }
    hide Shape, Rotated, Filled, MinShare, Remove;
  }

  /** The refill lets a suspended group go with nothing to spend if and only if the minimum share is zero and the
      refilled limit is zero too. */
  ghost predicate LetsGoEmpty(g: Group, s: Step) {
    s.Refill? && g.suspended && g.configuredMinShare == 0 && Filled(g, s.tick) == 0
  }

  lemma {:induction false} RefillLetsGoEmpty(g: Group, ticks: nat, k: nat)
    requires Shape(g) && NobodyForgotten(g) && Positive(g) && Enabled(g, Refill(ticks, k))
    ensures !Positive(Next(g, Refill(ticks, k))) <==> LetsGoEmpty(g, Refill(ticks, k))
  {
    FilledAtMost(g, ticks);
    hide Filled, Rotated, NoDup;
  }

  /** Among all the steps of all the threads, exactly that one takes the positive limit away from a group that is not
      suspended. */
  lemma {:induction false} NextPositive(g: Group, s: Step)
    requires Shape(g) && NobodyForgotten(g) && Positive(g) && Enabled(g, s)
    ensures Positive(Next(g, s)) <==> !LetsGoEmpty(g, s)
  {
    if s.Refill? {
      RefillLetsGoEmpty(g, s.tick, s.k);
    } else {
      hide NoDup, Rotated, Remove, Filled;
    }
  }

  // ----- runs -----

  ghost predicate CanRun(g: Group, steps: seq<Step>)
    decreases |steps|
  {
    steps == [] || (Enabled(g, steps[0]) && CanRun(Next(g, steps[0]), steps[1..]))
  }

  function Run(g: Group, steps: seq<Step>): Group
    requires CanRun(g, steps)
    decreases |steps|
  {
    if steps == [] then g else Run(Next(g, steps[0]), steps[1..])
  }

  /** The minimum share was never configured to zero. */
  ghost predicate SharesPositive(steps: seq<Step>) {
    forall i :: 0 <= i < |steps| && steps[i].SetMinShare? ==> steps[i].share >= 1
  }

  lemma {:induction false} NextMinShare(g: Group, s: Step)
    requires Shape(g) && Enabled(g, s) && g.minShare >= 1 && (s.SetMinShare? ==> s.share >= 1)
    ensures Next(g, s).minShare >= 1
  {
  }

  /** No member of a group is ever stuck, whatever the interleaving and whichever try-locks fail: at every moment a
      stopped member is accounted for, and a group that is not suspended has a positive limit. */
  lemma {:induction false} NoStuckMember(g: Group, steps: seq<Step>)
    requires Shape(g) && NobodyForgotten(g) && CanRun(g, steps)
    ensures var h := Run(g, steps);
            && Shape(h) && NobodyForgotten(h)
            && (h.loop.Idle? ==> forall b :: b in h.members && b in h.flagged ==> h.suspended || h.pending)
            && (Positive(g) && g.minShare >= 1 && SharesPositive(steps) ==> Positive(h))
    decreases |steps|
  {
    if steps == [] {
      assert g.loop.Idle? ==> forall b :: b in g.members && b in g.flagged ==> Stopped(g, b);
    } else {
      var s := steps[0];
      NextShape(g, s);
      NextForgetsNobody(g, s);
      if Positive(g) && g.minShare >= 1 && SharesPositive(steps) {
        NextPositive(g, s);
        NextMinShare(g, s);
        assert SharesPositive(steps[1..]);
      }
      NoStuckMember(Next(g, s), steps[1..]);
    }
  }

  /** With a zero minimum share it can happen: a group spends all it has, and the next refill, in the same tick, lets
      it go with a limit of zero. */
  lemma {:induction false} ZeroShareGoesEmpty()
    ensures exists steps :: CanRun(NewGroup(1, 1, 1), steps) && !Positive(Run(NewGroup(1, 1, 1), steps))
  {
    var g := NewGroup(1, 1, 1);
    var g1 := Next(g, SetMinShare(0));
    var g2 := Next(g1, Charge(1, 0));
    var g3 := Next(g2, EndLoop);
    var g4 := Next(g3, Refill(0, 0));
    var s4 := [Refill(0, 0)];
    var s3 := [EndLoop] + s4;
    var s2 := [Charge(1, 0)] + s3;
    var s1 := [SetMinShare(0)] + s2;
    assert CanRun(g4, []) && Run(g4, []) == g4;
    assert s4[1..] == [];
    assert CanRun(g3, s4) && Run(g3, s4) == g4;
    assert s3[1..] == s4;
    assert CanRun(g2, s3) && Run(g2, s3) == g4;
    assert s2[1..] == s3;
    assert CanRun(g1, s2) && Run(g1, s2) == g4;
    assert s1[1..] == s2;
    assert CanRun(g, s1) && Run(g, s1) == g4;
  }

  // ----- the loop gets everyone -----

  /** The try-locks of one loop, in order. */
  function Tries(g: Group, oks: seq<bool>): Group
    requires !g.loop.Idle? && |oks| <= |g.loop.todo|
    requires forall i :: 0 <= i < |oks| && oks[i] ==> g.loop.todo[i] !in g.phase
    decreases |oks|
  {
    if oks == [] then g else Tries(Next(g, Try(oks[0])), oks[1..])
  }

  /** A loop visits each member exactly once. After it, the members that could not be locked are as they were, and the
      others are suspended (or not, if it unsuspends); the unsuspending loop remembers whether it missed any. */
  lemma {:induction false} LoopReaches(g: Group, oks: seq<bool>)
    requires !g.loop.Idle? && |oks| == |g.loop.todo|
    requires forall i :: 0 <= i < |oks| && oks[i] ==> g.loop.todo[i] !in g.phase
    requires NoDup(g.loop.todo)
    ensures var h := Tries(g, oks);
            && !h.loop.Idle? && h.loop.todo == [] && h.loop.Suspending? == g.loop.Suspending?
            && (forall i :: 0 <= i < |oks| ==> (g.loop.todo[i] in h.flagged <==>
                  if oks[i] then g.loop.Suspending? else g.loop.todo[i] in g.flagged))
            && (forall b :: b !in g.loop.todo ==> (b in h.flagged <==> b in g.flagged))
            && (g.loop.Unsuspending? ==> (h.loop.again <==> g.loop.again || false in oks))
    decreases |oks|
  {
    if oks != [] {
      var todo := g.loop.todo;
      var n := Next(g, Try(oks[0]));
      assert todo == [todo[0]] + todo[1..] && oks == [oks[0]] + oks[1..];
      assert n.loop.todo == todo[1..];
      LoopReaches(n, oks[1..]);
      var h := Tries(n, oks[1..]);
      forall i | 0 <= i < |oks|
        ensures todo[i] in h.flagged <==> if oks[i] then g.loop.Suspending? else todo[i] in g.flagged
      {
        if i > 0 {
          assert todo[i] == n.loop.todo[i - 1] && oks[i] == oks[1..][i - 1];
        } else {
          assert todo[0] !in todo[1..];
        }
      }
    }
  }

  lemma {:induction false} RotatedNoDup(s: seq<Bev>, k: nat)
    requires NoDup(s) && k <= |s|
    ensures NoDup(Rotated(s, k))
  {
  }

  /** A refill that wakes the group, when nobody is in the middle of joining or leaving and every lock is free, leaves
      no member suspended and nothing to do again. */
  lemma {:induction false} RefillFreesAll(g: Group, ticks: nat, k: nat)
    requires Shape(g) && Enabled(g, Refill(ticks, k)) && g.phase == map[]
    requires g.pending || (g.suspended && Filled(g, ticks) >= g.minShare)
    ensures var n := Next(g, Refill(ticks, k));
            var oks := seq(|g.members|, _ => true);
            && !n.loop.Idle? && |n.loop.todo| == |oks|
            && var h := Tries(n, oks);
               && Enabled(h, EndLoop)
               && var e := Next(h, EndLoop);
                  !e.suspended && !e.pending && forall b :: b in g.members ==> b !in e.flagged
  {
    var n := Next(g, Refill(ticks, k));
    var oks := seq(|g.members|, _ => true);
    RotatedMembers(g.members, k);
    RotatedNoDup(g.members, k);
    hide NoDup;
    assert n.loop.Unsuspending? && n.loop.todo == Rotated(g.members, k);
    assert |n.loop.todo| == |g.members|;
    LoopReaches(n, oks);
    TriesKeepGroup(n, oks);
    forall b | b in g.members
      ensures b !in Tries(n, oks).flagged
    {
      assert b in n.loop.todo;
      var i :| 0 <= i < |n.loop.todo| && n.loop.todo[i] == b;
      assert oks[i];
    }
  }

  lemma {:induction false} TriesKeepGroup(g: Group, oks: seq<bool>)
    requires !g.loop.Idle? && |oks| <= |g.loop.todo|
    requires forall i :: 0 <= i < |oks| && oks[i] ==> g.loop.todo[i] !in g.phase
    ensures var h := Tries(g, oks);
            h.suspended == g.suspended && h.pending == g.pending && h.members == g.members && h.phase == g.phase
    decreases |oks|
  {
    if oks != [] {
      TriesKeepGroup(Next(g, Try(oks[0])), oks[1..]);
    }
  }

  /** _bev_group_random_element, by position: nobody in an empty group, else the walk of that many steps down the
      list */
  method RandomElement(members: seq<Bev>, random: nat) returns (k: Option<nat>)
    ensures k.None? <==> members == []
    ensures k.Some? ==> k.value < |members| && k.value == random % |members|
  {
    if members == [] {
      return None;
    }
    ghost var r := random % |members|;
    var which, i: nat := random % |members|, 0;
    while which > 0
      invariant which >= 0 && i + which == r
    {
      which, i := which - 1, i + 1;
    }
    k := Some(i);
  }

  /** FOREACH_RANDOM_ORDER: the walk from a member to the end of the list, and then from its start until it meets that
      member again, visits each member exactly once. */
  method Visit(members: seq<Bev>, k: nat) returns (visited: seq<Bev>)
    requires NoDup(members) && (members != [] ==> k < |members|) && (members == [] ==> k == 0)
    ensures visited == Rotated(members, k) && NoDup(visited) && multiset(visited) == multiset(members)
  {
    visited := [];
    RotatedNoDup(members, k);
    var i := k;
    while i < |members|
      invariant k <= i <= |members| && visited == members[k..i]
    {
      visited := visited + [members[i]];
      i := i + 1;
    }
    i := 0;
    while i < |members| && members[i] != members[k]
      invariant 0 <= i <= k && visited == members[k..] + members[..i]
    {
      visited := visited + [members[i]];
      i := i + 1;
    }
    assert i == k;
  }
}
