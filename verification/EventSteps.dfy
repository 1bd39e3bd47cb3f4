/** What single steps do to the queues and timers of an event base, and the data that its calls pass. */
module EventSteps {
  import opened Wrappers
  import opened EventQueues
  import opened EventTimers

  /** ev_events: does the event watch an fd, a signal, and does it persist? */
  datatype Kind = Kind(io: bool, signal: bool, persist: bool)

  /** A struct timeval: microseconds, and the index of the common timeout that its magic bits name, or -1. */
  datatype Tv = Tv(us: int, ctl: int)

  /** Unless the loop was told to start over, which never happens in queue 0, no queue before the running one has
      events. */
  ghost predicate PrioOk(active: seq<seq<EvId>>, runningPriority: int, eventContinue: bool) {
    && (eventContinue ==> runningPriority != 0)
    && (eventContinue || forall p :: 0 <= p < runningPriority && p < |active| ==> active[p] == [])
  }

  /** A persistent event's repeat interval is of the same common timeout as the event's timeout. */
  ghost predicate PersistOk(evs: map<EvId, Ev>, kinds: map<EvId, Kind>, ioTimeout: map<EvId, Tv>) {
    forall e :: e in ioTimeout ==>
      && e in evs && e in kinds && !evs[e].internal && Persists(kinds[e]) && ioTimeout[e].ctl == evs[e].ctl
  }

  /** Is the event's closure EV_CLOSURE_PERSIST? */
  predicate Persists(k: Kind) {
    k.persist && !k.signal
  }

  /** An event whose timeout has run: off its queues, and active. */
  function Fired(v: Ev): Ev {
    v.(timeout := false, inserted := false, active := true)
  }

  function Dropped(v: Ev): Ev {
    v.(timeout := false, inserted := false, active := false)
  }

  /** What a user's callback may do. `now` is the time that the library reads in the call. */
  datatype Command =
    | Assign(e: EvId, kind: Kind)
    | InitCommonTimeout(duration: int, t: EvId)
    | Add(e: EvId, tv: Option<Tv>, now: int, backendOk: bool)
    | Del(e: EvId)
    | Active(e: EvId, byTimeout: bool, calls: nat)
    | PrioritySet(e: EvId, pri: int)
    | LoopBreak

  /** Does the command activate an event that is not active yet? */
  ghost predicate Activates(c: Command, q: Queues) {
    c.Active? && c.e in q.evs && !q.evs[c.e].internal && !q.evs[c.e].active && q.evs[c.e].pri < |q.active|
  }

  ghost function OneMore(c: Command, q: Queues): seq<seq<EvId>>
    requires Activates(c, q)
  {
    var p := q.evs[c.e].pri;
    q.active[p := q.active[p] + [c.e]]
  }

  /** What comes from outside when the loop takes an event: the time, the backend's answer, and the user's function. */
  datatype Input = Input(now: int, backendOk: bool, script: seq<Command>)

  /** One turn of the loop: the clock at its four readings, the calls made during dispatch, what the callbacks do. */
  datatype Turned = Turned(correct: int, tv: int, dispatched: seq<Command>, now: int, inputs: seq<Input>)

  /** The start of a callback: its queue, whether it is a further call of the same signal event, event_continue, and
      the active queues. */
  datatype Start = Start(e: EvId, pri: int, again: bool, eventContinue: bool, active: seq<seq<EvId>>)

  /** The first callback to start since the log was `was` is that of e, from queue pri. */
  ghost predicate Started(was: seq<Start>, log: seq<Start>, e: EvId, pri: int) {
    |was| < |log| && log[|was|].e == e && log[|was|].pri == pri && !log[|was|].again
  }

  function Calls(ncalls: map<EvId, nat>, e: EvId): nat {
    if e in ncalls then ncalls[e] else 0
  }

  /** No signal event is to be called more than once. */
  ghost predicate FewCalls(ncalls: map<EvId, nat>) {
    forall e :: e in ncalls ==> ncalls[e] <= 1
  }

  /** No command asks for more than one call. */
  ghost predicate Modest(cs: seq<Command>) {
    forall i :: 0 <= i < |cs| && cs[i].Active? ==> cs[i].calls <= 1
  }

  ghost predicate ModestInputs(inputs: seq<Input>) {
    forall i :: 0 <= i < |inputs| ==> Modest(inputs[i].script)
  }

  ghost predicate ModestTurn(t: Turned) {
    Modest(t.dispatched) && ModestInputs(t.inputs)
  }

  /** The first queue with events, or the number of queues. */
  ghost function Lead(active: seq<seq<EvId>>): (p: nat)
    ensures p <= |active| && (p < |active| ==> active[p] != []) && forall i :: 0 <= i < p ==> active[i] == []
  {
    if active == [] || active[0] != [] then 0 else
      var p := Lead(active[1..]) + 1;
      assert forall i :: 0 < i < p ==> active[i] == active[1..][i - 1];
      p
  }

  /** A turn in which the active queues are worked on as they are: nothing is dispatched and nothing is due. */
  ghost predicate Direct(q: Queues, t: Turned) {
    t.dispatched == [] && t.inputs != [] && HeapLater(q, t.now)
  }

  lemma {:induction false} IsDirect(q: Queues, t: Turned)
    ensures Direct(q, t) <==> t.dispatched == [] && t.inputs != [] && HeapLater(q, t.now)
  {
  }

  /** Since the log was `was`, no callback was called a further time. */
  ghost predicate NoAgain(was: seq<Start>, log: seq<Start>) {
    forall k :: |was| <= k < |log| ==> !log[k].again
  }

  /** Since the log was `was`, no callback started while a queue before its own had events. */
  ghost predicate NoInversion(was: seq<Start>, log: seq<Start>) {
    forall k :: |was| <= k < |log| ==> NoneBefore(log[k])
  }

  ghost predicate OnlyOf(was: seq<Start>, log: seq<Start>, e: EvId) {
    forall k :: |was| <= k < |log| ==> log[k].e == e
  }

  /** The first callback does nothing but activate an event of a queue before p. */
  ghost predicate Rouses(q: Queues, p: int, inputs: seq<Input>, from: nat) {
    && from + 2 <= |inputs| && |inputs[from].script| == 1
    && Activates(inputs[from].script[0], q) && q.evs[inputs[from].script[0].e].pri < p
  }

  /** A signal event that is to be called at least twice, and whose first call activates an event before it. */
  ghost predicate Overtakable(q: Queues, kinds: map<EvId, Kind>, ncalls: map<EvId, nat>, e: EvId,
                              inputs: seq<Input>, from: nat) {
    && e in q.evs && e in kinds && kinds[e].signal && Calls(ncalls, e) >= 2
    && Rouses(q, q.evs[e].pri, inputs, from)
  }

  /** The second start since `was` is a further call of e, while a queue before its own has events. */
  ghost predicate Overtook(was: seq<Start>, log: seq<Start>, e: EvId) {
    |was| + 1 < |log| && log[|was| + 1].e == e && log[|was| + 1].again && !NoneBefore(log[|was| + 1])
  }

  /** With no more than single calls asked for, there were none but single calls. */
  ghost predicate Calm(n0: map<EvId, nat>, inputs: seq<Input>, ncalls: map<EvId, nat>, was: seq<Start>,
                       log: seq<Start>) {
    FewCalls(n0) && ModestInputs(inputs) ==> FewCalls(ncalls) && NoAgain(was, log)
  }

  /** What the log holds once the queues are worked on in a state where e heads queue p, the first with events: e is
      the first to start, and if it can be overtaken, it is. */
  ghost predicate Promise(q: Queues, kinds: map<EvId, Kind>, ncalls: map<EvId, nat>, eventBreak: bool,
                          was: seq<Start>, log: seq<Start>, e: EvId, p: int, inputs: seq<Input>, from: nat) {
    && (WillStart(q.evs, kinds, ncalls, e) ==> Started(was, log, e, p))
    && (!eventBreak && Overtakable(q, kinds, ncalls, e, inputs, from) ==> Overtook(was, log, e))
  }

  /** Does taking the event run a callback? A signal event needs a call to make. */
  ghost predicate WillStart(evs: map<EvId, Ev>, kinds: map<EvId, Kind>, ncalls: map<EvId, nat>, e: EvId) {
    e in evs && e in kinds && (evs[e].internal || !kinds[e].signal || Calls(ncalls, e) > 0)
  }

  /** Has the event an interval to repeat after? The magic bits of a common timeout make even zero microseconds one. */
  predicate HasInterval(io: map<EvId, Tv>, e: EvId) {
    e in io && (io[e].us != 0 || io[e].ctl != -1)
  }

  /** Callbacks that do nothing. */
  ghost predicate Silent(inputs: seq<Input>) {
    forall i :: 0 <= i < |inputs| ==> inputs[i].script == []
  }

  ghost predicate NoneBefore(s: Start) {
    forall p :: 0 <= p < s.pri && p < |s.active| ==> s.active[p] == []
  }

  /** No priority inversion: no callback starts while a queue before its own has events, but for a further call
      of a signal event after event_continue was set. */
  ghost predicate LogOk(log: seq<Start>) {
    forall k :: 0 <= k < |log| ==> NoneBefore(log[k]) || (log[k].again && log[k].eventContinue)
  }

  function RunAt(deadline: int, delay: int, byTimeout: bool, now: int): (r: int)
    ensures byTimeout && deadline + delay >= now ==> r == deadline + delay
    ensures delay >= 0 ==> now <= r
  {
    var t := (if byTimeout then deadline else now) + delay;
    if t < now then now + delay else t
  }

  method ShiftHeap(evs: map<EvId, Ev>, heap: set<EvId>, off: int) returns (r: map<EvId, Ev>)
    requires heap <= evs.Keys
    ensures r == ShiftSome(evs, heap, off)
  {
    r := evs;
    var rest := heap;
    while rest != {}
      invariant rest <= heap && r == ShiftSome(evs, heap - rest, off)
    {
      var e :| e in rest;
      r := r[e := r[e].(deadline := r[e].deadline - off)];
      rest := rest - {e};
    }
    assert heap - rest == heap;
  }

  method ShiftEvents(evs: map<EvId, Ev>, s: seq<EvId>, off: int) returns (r: map<EvId, Ev>)
    requires NoDup(s) && forall x :: x in s ==> x in evs
    ensures r == ShiftSome(evs, Members(s), off)
  {
    r := evs;
    for j := 0 to |s|
      invariant r == ShiftSome(evs, Members(s[..j]), off)
    {
      assert s[..j + 1] == s[..j] + [s[j]];
      r := r[s[j] := r[s[j]].(deadline := r[s[j]].deadline - off)];
    }
    assert s[..|s|] == s;
  }

  ghost function Members(s: seq<EvId>): set<EvId> {
    set x | x in s
  }

  function ShiftSome(evs: map<EvId, Ev>, who: set<EvId>, off: int): map<EvId, Ev> {
    map e | e in evs :: if e in who then evs[e].(deadline := evs[e].deadline - off) else evs[e]
  }

  /** The events that wait on the heap or on one of the first n lists. */
  ghost function WaitingBelow(evs: map<EvId, Ev>, n: nat): set<EvId> {
    set e | e in evs && evs[e].timeout && evs[e].ctl < n
  }

  lemma {:induction false} MembersKnown(q: Queues)
    requires QOk(q)
    ensures q.heap <= q.evs.Keys
  {
  }

  lemma {:induction false} HeapIsBelow(q: Queues)
    requires QOk(q)
    ensures q.heap == WaitingBelow(q.evs, 0)
  {
    hide NoDup, CountsOk;
    forall e | e in q.evs
      ensures e in q.heap <==> e in WaitingBelow(q.evs, 0)
    {
      assert EvOk(q, e);
    }
  }

  lemma {:induction false} ShiftList(q: Queues, timers: seq<EvId>, i: nat, off: int)
    requires QOk(q) && TimersOk(q, timers) && i < |q.lists|
    ensures var evs := ShiftSome(q.evs, WaitingBelow(q.evs, i), off);
            && NoDup(q.lists[i]) && (forall x :: x in q.lists[i] ==> x in evs)
            && ShiftSome(evs, Members(q.lists[i]), off) == ShiftSome(q.evs, WaitingBelow(q.evs, i + 1), off)
  {
    hide NoDup, CountsOk, TimersExcept;
    assert forall x :: x in q.lists[i] ==> x in q.evs;
    forall e | e in q.evs
      ensures e in q.lists[i] <==> q.evs[e].timeout && q.evs[e].ctl == i
    {
      assert EvOk(q, e);
    }
  }

  lemma {:induction false} ShiftPlaces(evs: map<EvId, Ev>, who: set<EvId>, off: int)
    ensures Places(ShiftSome(evs, who, off)) == Places(evs)
  {
    var r := ShiftSome(evs, who, off);
    assert InsertedUsers(r) == InsertedUsers(evs) && ActiveUsers(r) == ActiveUsers(evs);
    assert TimeoutUsers(r) == TimeoutUsers(evs);
  }

  lemma {:induction false} ShiftQueues(q: Queues, who: set<EvId>, off: int)
    requires QOk(q)
    ensures QOk(q.(evs := ShiftSome(q.evs, who, off)))
  {
    ShiftPlaces(q.evs, who, off);
    hide Places, TotalLen, NoDup;
    var r := q.(evs := ShiftSome(q.evs, who, off));
    forall e | e in r.evs
      ensures EvOk(r, e)
    {
      assert EvOk(q, e);
    }
  }

  lemma {:induction false} ShiftKeeps(q: Queues, timers: seq<EvId>, off: int)
    requires QOk(q) && TimersOk(q, timers)
    ensures var r := q.(evs := ShiftSome(q.evs, WaitingBelow(q.evs, |q.lists|), off));
            QOk(r) && TimersOk(r, timers)
  {
    var who := WaitingBelow(q.evs, |q.lists|);
    var r := q.(evs := ShiftSome(q.evs, who, off));
    hide QOk, TimersExcept, WaitingBelow;
    ShiftQueues(q, who, off);
    AllWait(q);
    ShiftTimers(q, timers, who, off);
  }

  lemma {:induction false} ShiftTimers(q: Queues, timers: seq<EvId>, who: set<EvId>, off: int)
    requires TimersOk(q, timers) && forall e :: e in q.heap ==> e in who
    requires forall e, i :: 0 <= i < |q.lists| && e in q.lists[i] ==> e in who
    ensures TimersOk(q.(evs := ShiftSome(q.evs, who, off)), timers)
  {
    var r := q.(evs := ShiftSome(q.evs, who, off));
    hide NoDup, ListOk, Covered;
    forall i | 0 <= i < |q.lists|
      ensures ListOk(r, i) && Covered(r, timers[i], i)
    {
      ShiftOneList(q, timers[i], i, who, off);
    }
  }

  lemma {:induction false} ShiftOneList(q: Queues, t: EvId, i: nat, who: set<EvId>, off: int)
    requires i < |q.lists| && ListOk(q, i) && Covered(q, t, i) && t in q.evs
    requires (forall e :: e in q.heap ==> e in who) && (forall e :: e in q.lists[i] ==> e in who)
    ensures var r := q.(evs := ShiftSome(q.evs, who, off)); ListOk(r, i) && Covered(r, t, i)
  {
  }

  /** The events of the heap and of the lists all wait. */
  lemma {:induction false} AllWait(q: Queues)
    requires QOk(q)
    ensures forall e :: e in q.heap ==> e in WaitingBelow(q.evs, |q.lists|)
    ensures forall e, i :: 0 <= i < |q.lists| && e in q.lists[i] ==> e in WaitingBelow(q.evs, |q.lists|)
  {
    hide NoDup, CountsOk;
    forall e | e in q.evs
      ensures EvOk(q, e)
    {
    }
  }

  lemma {:induction false} ShiftKeepsPersist(q: Queues, kinds: map<EvId, Kind>, io: map<EvId, Tv>, off: int)
    requires PersistOk(q.evs, kinds, io)
    ensures PersistOk(ShiftSome(q.evs, WaitingBelow(q.evs, |q.lists|), off), kinds, io)
    ensures ShiftSome(q.evs, WaitingBelow(q.evs, |q.lists|), off).Keys == q.evs.Keys
  {
  }

  lemma {:induction false} TimerFacts(q: Queues, timers: seq<EvId>, e: EvId, but: int)
    requires TimersExcept(q, timers, but) && MayChange(q, timers, e, but)
    ensures q.evs[e].internal ==> q.evs[e].pri == 0 && q.evs[e].ctl == -1
  {
  }

  function AllWithout(qs: seq<seq<EvId>>, e: EvId): seq<seq<EvId>> {
    seq(|qs|, i requires 0 <= i < |qs| => Without(qs[i], e))
  }

  lemma {:induction false} RemovedFromLists(q: Queues, e: EvId)
    requires QOk(q) && e in q.evs && q.evs[e].timeout
    ensures q.evs[e].ctl < |q.lists|
    ensures var r := RemoveTimeout(q, e);
            r.heap == q.heap - {e} && r.lists == AllWithout(q.lists, e)
  {
    hide Without, CountsOk, NoDup;
    assert EvOk(q, e);
    var r := RemoveTimeout(q, e);
    assert forall i :: 0 <= i < |q.lists| ==> r.lists[i] == Without(q.lists[i], e);
  }

  lemma {:induction false} RemovedFromActive(q: Queues, e: EvId)
    requires QOk(q) && e in q.evs && q.evs[e].active
    ensures q.evs[e].pri < |q.active| && RemoveActive(q, e).active == AllWithout(q.active, e)
  {
    hide Without, CountsOk, NoDup;
    assert EvOk(q, e);
    var r := RemoveActive(q, e);
    assert forall p :: 0 <= p < |q.active| ==> r.active[p] == Without(q.active[p], e);
  }

  /** An event is on no queue whose flag it does not have. */
  lemma {:induction false} AbsentWithoutFlag(q: Queues, e: EvId)
    requires QOk(q) && e in q.evs
    ensures !q.evs[e].timeout ==> q.heap == q.heap - {e} && q.lists == AllWithout(q.lists, e)
    ensures !q.evs[e].active ==> q.active == AllWithout(q.active, e)
  {
    hide CountsOk, NoDup;
    assert EvOk(q, e);
  }

  lemma {:induction false} StillPrio(active: seq<seq<EvId>>, e: EvId, p: int, c: bool)
    requires PrioOk(active, p, c)
    ensures PrioOk(AllWithout(active, e), p, c)
  {
  }

  lemma {:induction false} PrioAfterActive(q: Queues, e: EvId, p: int, c: bool)
    requires PrioOk(q.active, p, c) && e in q.evs && q.evs[e].pri < |q.active|
    ensures PrioOk(InsertActive(q, e).active, p, c || q.evs[e].pri < p)
  {
  }

  lemma {:induction false} SameCount(qs: seq<seq<EvId>>, e: EvId)
    ensures |AllWithout(qs, e)| == |qs|
  {
  }

  lemma {:induction false} HeapMember(q: Queues, e: EvId)
    requires QOk(q) && e in q.heap
    ensures e in q.evs && q.evs[e].timeout && q.evs[e].ctl == -1 && AllWithout(q.lists, e) == q.lists
  {
    hide NoDup, CountsOk;
    assert EvOk(q, e);
  }

  ghost function TimerIndex(q: Queues, timers: seq<EvId>, e: EvId): (i: int)
    requires TimersOk(q, timers) && e in q.evs
    ensures -1 <= i < |timers| && MayChange(q, timers, e, i) && TimersExcept(q, timers, i)
  {
    if q.evs[e].internal then
      var i :| 0 <= i < |timers| && timers[i] == e; i
    else -1
  }

  lemma {:induction false} HasFirst(evs: map<EvId, Ev>, h: set<EvId>)
    requires h != {} && h <= evs.Keys
    ensures exists e :: e in h && IsFirst(evs, h, e)
  {
    var e :| e in h;
    if h == {e} {
      assert IsFirst(evs, h, e);
    } else {
      var rest := h - {e};
      HasFirst(evs, rest);
      var f :| f in rest && IsFirst(evs, rest, f);
      FirstOfMore(evs, h, e, f);
    }
  }

  predicate IsFirst(evs: map<EvId, Ev>, h: set<EvId>, e: EvId)
    requires h <= evs.Keys && e in evs
  {
    forall x :: x in h ==> evs[e].deadline <= evs[x].deadline
  }

  lemma {:induction false} FirstOfMore(evs: map<EvId, Ev>, h: set<EvId>, e: EvId, f: EvId)
    requires h <= evs.Keys && e in h && f in h && IsFirst(evs, h - {e}, f)
    ensures IsFirst(evs, h, e) || IsFirst(evs, h, f)
  {
    forall x | x in h && x != e
      ensures evs[f].deadline <= evs[x].deadline
    {
      assert x in h - {e};
    }
  }

  /** Is the event due at `now`, on the heap (c == -1) or on list c? */
  predicate Due(v: Ev, c: int, now: int) {
    v.timeout && v.ctl == c && v.deadline <= now
  }

  /** The events once those of one timeout queue that are due have fired. */
  function AfterQueue(evs: map<EvId, Ev>, c: int, now: int): map<EvId, Ev> {
    map e | e in evs :: if Due(evs[e], c, now) then Fired(evs[e]) else evs[e]
  }

  lemma {:induction false} FireStep(evs: map<EvId, Ev>, e: EvId, now: int)
    requires e in evs && evs[e].timeout && evs[e].deadline <= now
    ensures AfterQueue(evs[e := Fired(evs[e])], evs[e].ctl, now) == AfterQueue(evs, evs[e].ctl, now)
  {
  }

  lemma {:induction false} HeapPlace(q: Queues, e: EvId)
    requires QOk(q) && e in q.heap
    ensures e in q.evs && q.evs[e].timeout && q.evs[e].ctl == -1
  {
    assert EvOk(q, e);
  }

  lemma {:induction false} NoneDue(q: Queues, now: int)
    requires QOk(q) && forall x :: x in q.heap ==> x in q.evs && q.evs[x].deadline > now
    ensures AfterQueue(q.evs, -1, now) == q.evs
  {
    hide NoDup, CountsOk;
    forall e | e in q.evs
      ensures !Due(q.evs[e], -1, now)
    {
      assert EvOk(q, e);
    }
  }

  /** The event once it waits for a new deadline; one that a timeout made active no longer is. */
  function Waiting(v: Ev, byTimeout: bool, deadline: int, ctl: int): Ev {
    v.(timeout := true, active := v.active && !byTimeout, deadline := deadline, ctl := ctl)
  }

  lemma {:induction false} WaitsAgain(was: map<EvId, Ev>, evs: map<EvId, Ev>, e: EvId, byTimeout: bool, deadline: int,
                                      ctl: int)
    requires e in was && e in evs && evs == was[e := evs[e]]
    requires evs[e] == was[e].(active := was[e].active && !byTimeout, timeout := true, deadline := deadline, ctl := ctl)
    ensures evs == was[e := Waiting(was[e], byTimeout, deadline, ctl)]
  {
  }

  lemma {:induction false} OnNoList(q: Queues, e: EvId)
    requires QOk(q) && e in q.evs && !q.evs[e].timeout
    ensures forall i :: 0 <= i < |q.lists| ==> e !in q.lists[i]
  {
    hide NoDup, CountsOk;
    assert EvOk(q, e);
  }

  lemma {:induction false} WaitingKeepsTimers(q: Queues, timers: seq<EvId>, e: EvId, but: int)
    requires QOk(q) && TimersExcept(q, timers, but) && MayChange(q, timers, e, but) && !q.evs[e].timeout
    requires q.evs[e].ctl != -1 ==> but == -1
    ensures InsertTimeout.requires(q, e) && -1 <= q.evs[e].ctl < |q.lists|
    ensures var r := InsertTimeout(q, e);
            var c := q.evs[e].ctl;
            && |r.lists| == |q.lists|
            && (c == -1 ==> TimersExcept(r, timers, but) && r.lists == q.lists)
            && (c != -1 ==> r.lists[c] != [] && TimersExcept(r, timers, if r.lists[c][0] == e then c else -1))
  {
    hide NoDup, CountsOk;
    InsertTimeoutReady(q, e);
    assert EvOk(q, e);
    if q.evs[e].ctl != -1 {
      TimerFacts(q, timers, e, but);
      hide EvOk, MembersOk;
      InsertKeepsTimers(q, timers, e);
    } else {
      OnNoList(q, e);
      TimerFacts(q, timers, e, but);
      hide EvOk, MembersOk;
      ChangeKeepsTimers(q, InsertTimeout(q, e), timers, e, but);
    }
  }

  lemma {:induction false} TimerAt(q: Queues, timers: seq<EvId>, i: nat)
    requires QOk(q) && TimersExcept(q, timers, i) && i < |q.lists|
    ensures i < |timers| && MayChange(q, timers, timers[i], i)
    ensures timers[i] in q.evs && q.evs[timers[i]].internal && q.evs[timers[i]].ctl == -1
    ensures AllWithout(q.lists, timers[i]) == q.lists
    ensures q.lists[i] != [] ==> q.lists[i][0] in q.evs
  {
    hide NoDup, CountsOk;
    assert ListOk(q, i);
    assert EvOk(q, timers[i]);
    assert q.lists[i] != [] ==> q.lists[i][0] in q.lists[i];
  }

  /** Who is on the heap is known from the events' flags. */
  lemma {:induction false} HeapFromEvs(q: Queues, r: Queues, e: EvId)
    requires QOk(q) && QOk(r) && e in q.evs && e in r.evs && r.evs == q.evs[e := r.evs[e]] && e in r.heap
    ensures q.heap <= r.heap <= q.heap + {e}
  {
    hide NoDup, CountsOk;
    forall x | x in q.evs && x != e
      ensures x in q.heap <==> x in r.heap
    {
      assert EvOk(q, x) && EvOk(r, x);
    }
  }

  ghost predicate AllBut(a: map<EvId, Ev>, b: map<EvId, Ev>, t: EvId) {
    a.Keys == b.Keys && forall x :: x in a && x != t ==> a[x] == b[x]
  }

  ghost predicate HeapLater(q: Queues, now: int) {
    forall x :: x in q.heap ==> x in q.evs && q.evs[x].deadline > now
  }

  lemma {:induction false} HeapLaterStep(q: Queues, r: Queues, e: EvId, now: int)
    requires e in q.evs && e !in q.heap && r.evs == q.evs[e := Fired(q.evs[e])] && r.heap == q.heap - {e}
    ensures HeapLater(q, now) ==> HeapLater(r, now)
  {
  }

  lemma {:induction false} HeapLaterTimer(q: Queues, r: Queues, t: EvId, now: int)
    requires t in q.evs && t in r.evs && r.evs == q.evs[t := r.evs[t]] && r.heap <= q.heap + {t}
    requires r.evs[t].deadline > now
    ensures HeapLater(q, now) ==> HeapLater(r, now)
  {
  }

  lemma {:induction false} SameEvents(evs: map<EvId, Ev>, c: int, now: int)
    ensures AfterQueue(evs, c, now).Keys == evs.Keys
  {
  }

  lemma {:induction false} HeadIn(q: Queues, timers: seq<EvId>, i: nat)
    requires TimersExcept(q, timers, i) && i < |q.lists|
    ensures q.lists[i] != [] ==> q.lists[i][0] in q.evs
  {
    assert ListOk(q, i);
  }

  lemma {:induction false} PopStep(q: Queues, timers: seq<EvId>, i: nat, now: int)
    requires QOk(q) && TimersExcept(q, timers, i) && i < |q.lists| && q.lists[i] != []
    requires q.lists[i][0] in q.evs && q.evs[q.lists[i][0]].deadline <= now
    ensures var e := q.lists[i][0];
            && MayChange(q, timers, e, i) && e !in q.heap
            && AfterQueue(q.evs[e := Fired(q.evs[e])], i, now) == AfterQueue(q.evs, i, now)
            && |AllWithout(q.lists, e)| == |q.lists| && |AllWithout(q.lists, e)[i]| == |q.lists[i]| - 1
  {
    hide NoDup, CountsOk;
    var e := q.lists[i][0];
    assert e in q.lists[i];
    assert EvOk(q, e) && ListOk(q, i);
    FireStep(q.evs, e, now);
    WithoutNoDup(q.lists[i], e);
  }

  lemma {:induction false} ListNotDue(q: Queues, timers: seq<EvId>, i: nat, now: int)
    requires QOk(q) && TimersExcept(q, timers, i) && i < |q.lists|
    requires q.lists[i] != [] ==> q.lists[i][0] in q.evs && q.evs[q.lists[i][0]].deadline > now
    ensures AfterQueue(q.evs, i, now) == q.evs
  {
    hide NoDup, CountsOk;
    assert ListOk(q, i);
    forall e | e in q.evs
      ensures !Due(q.evs[e], i, now)
    {
      assert EvOk(q, e);
      if e in q.lists[i] {
        var k :| 0 <= k < |q.lists[i]| && q.lists[i][k] == e;
        assert q.evs[q.lists[i][0]].deadline <= q.evs[q.lists[i][k]].deadline;
      }
    }
  }

  lemma {:induction false} TimerDropped(q: Queues, r: Queues, t: EvId, i: nat, now: int)
    requires t in q.evs && q.evs[t].ctl == -1 && r.evs == q.evs[t := Dropped(q.evs[t])] && r.heap == q.heap - {t}
    ensures AllBut(AfterQueue(r.evs, i, now), AfterQueue(q.evs, i, now), t)
    ensures HeapLater(q, now) ==> HeapLater(r, now)
  {
  }

  /** Of the user's events, those due at `now` on the heap or on one of the first n lists have fired; no other
      changed. */
  ghost predicate UsersAfter(was: map<EvId, Ev>, evs: map<EvId, Ev>, now: int, n: nat) {
    && evs.Keys == was.Keys
    && (forall e :: e in was ==> evs[e].internal == was[e].internal)
    && (forall e :: e in was && !was[e].internal ==>
          evs[e] == if was[e].timeout && was[e].ctl < n && was[e].deadline <= now then Fired(was[e]) else was[e])
  }

  /** What a base that kept every timeout in the heap would do: a user's event fires exactly when it is due. */
  ghost predicate ExactlyDue(was: map<EvId, Ev>, evs: map<EvId, Ev>, now: int) {
    && evs.Keys == was.Keys
    && (forall e :: e in was && !was[e].internal ==>
          evs[e] == if was[e].timeout && was[e].deadline <= now then Fired(was[e]) else was[e])
  }

  lemma {:induction false} RoundDone(was: map<EvId, Ev>, evs: map<EvId, Ev>, now: int, n: nat)
    requires UsersAfter(was, evs, now, n) && forall e :: e in was ==> was[e].ctl < n
    ensures ExactlyDue(was, evs, now)
  {
  }

  lemma {:induction false} CtlBounds(q: Queues)
    requires QOk(q)
    ensures forall e :: e in q.evs ==> -1 <= q.evs[e].ctl < |q.lists|
  {
    forall e | e in q.evs
      ensures -1 <= q.evs[e].ctl < |q.lists|
    {
      assert EvOk(q, e);
    }
  }

  lemma {:induction false} HeapRound(was: map<EvId, Ev>, evs: map<EvId, Ev>, now: int)
    requires evs == AfterQueue(was, -1, now)
    requires forall e :: e in was ==> was[e].ctl >= -1
    ensures UsersAfter(was, evs, now, 0)
  {
  }

  lemma {:induction false} IsHeapLater(q: Queues, now: int)
    requires forall x :: x in q.heap ==> x in q.evs && q.evs[x].deadline > now
    ensures HeapLater(q, now)
  {
  }

  lemma {:induction false} TimersFit(q: Queues, timers: seq<EvId>)
    requires TimersOk(q, timers)
    ensures |timers| == |q.lists| && forall i :: 0 <= i < |timers| ==> timers[i] in q.evs && q.evs[timers[i]].internal
  {
  }

  /** The timer waits beyond `now`, so the whole list does. */
  lemma {:induction false} WaitsLater(q: Queues, timers: seq<EvId>, i: nat, now: int)
    requires QOk(q) && TimersOk(q, timers) && HeapLater(q, now) && i < |q.lists| && i < |timers| && timers[i] in q.evs
    requires !q.evs[timers[i]].active
    ensures AfterQueue(q.evs, i, now) == q.evs
  {
    hide QOk, AfterQueue;
    assert Covered(q, timers[i], i) && ListOk(q, i);
    ListNotDue(q, timers, i, now);
  }

  lemma {:induction false} RoundStep(was: map<EvId, Ev>, prev: map<EvId, Ev>, evs: map<EvId, Ev>, t: EvId, i: nat,
                                     now: int)
    requires UsersAfter(was, prev, now, i) && t in prev && prev[t].internal
    requires AllBut(evs, AfterQueue(prev, i, now), t) && evs[t].internal
    ensures UsersAfter(was, evs, now, i + 1)
  {
  }

  /** Must event_add_internal ask the backend to watch the event? */
  predicate NeedsBackend(k: Kind, v: Ev) {
    (k.io || k.signal) && !v.inserted && !v.active
  }

  function Inserted(v: Ev, k: Kind): Ev {
    if NeedsBackend(k, v) then v.(inserted := true) else v
  }

  /** No user's event but e changed, and the internal timers are the same. */
  ghost predicate OthersSame(was: map<EvId, Ev>, evs: map<EvId, Ev>, e: EvId) {
    && e in was && evs.Keys == was.Keys
    && (forall x :: x in was ==> evs[x].internal == was[x].internal)
    && (forall x :: x in was && x != e && !was[x].internal ==> evs[x] == was[x])
  }

  lemma {:induction false} OthersAfter(was: map<EvId, Ev>, evs: map<EvId, Ev>, e: EvId, v: Ev, t: EvId, w: Ev)
    requires e in was && t in was && evs == was[e := v][t := w] && v.internal == was[e].internal
    requires t == e || was[t].internal
    requires w.internal == was[t].internal
    ensures OthersSame(was, evs, e)
  {
  }

  lemma {:induction false} OthersTwice(a: map<EvId, Ev>, b: map<EvId, Ev>, c: map<EvId, Ev>, e: EvId)
    requires OthersSame(a, b, e) && OthersSame(b, c, e)
    ensures OthersSame(a, c, e)
  {
  }

  lemma {:induction false} PersistAfterAdd(was: map<EvId, Ev>, evs: map<EvId, Ev>, kinds: map<EvId, Kind>,
                                           wasIo: map<EvId, Tv>, io: map<EvId, Tv>, e: EvId, tv: Tv, absolute: bool)
    requires PersistOk(was, kinds, wasIo) && OthersSame(was, evs, e) && e in kinds && !was[e].internal
    requires evs[e].ctl == tv.ctl && (absolute ==> tv.ctl == was[e].ctl)
    requires io == if Persists(kinds[e]) && !absolute then wasIo[e := tv] else wasIo
    ensures PersistOk(evs, kinds, io)
  {
  }

  lemma {:induction false} PriorityOk(q: Queues, e: EvId, pri: nat)
    requires QOk(q) && e in q.evs && !q.evs[e].active && pri < |q.active|
    ensures QOk(q.(evs := q.evs[e := q.evs[e].(pri := pri)]))
  {
    var r := q.(evs := q.evs[e := q.evs[e].(pri := pri)]);
    PlacesAfter(q.evs, e, r.evs[e]);
    hide Places, TotalLen, NoDup;
    assert EvOk(q, e);
    MembersAfter(q, r, e);
  }

  lemma {:induction false} PriorityKeepsTimers(q: Queues, timers: seq<EvId>, e: EvId, pri: nat)
    requires TimersOk(q, timers) && e in q.evs && !q.evs[e].internal
    ensures TimersOk(q.(evs := q.evs[e := q.evs[e].(pri := pri)]), timers)
  {
    hide TimersExcept;
    ChangeKeepsTimers(q, q.(evs := q.evs[e := q.evs[e].(pri := pri)]), timers, e, -1);
  }

  function NewEvent(q: Queues, e: EvId): Queues {
    q.(evs := q.evs[e := Ev(false, false, false, false, |q.active| / 2, 0, -1)])
  }

  lemma {:induction false} FreshIsNowhere(q: Queues, e: EvId)
    requires MembersOk(q) && e !in q.evs
    ensures e !in q.inserted && e !in q.heap
    ensures forall p :: 0 <= p < |q.active| ==> e !in q.active[p]
    ensures forall i :: 0 <= i < |q.lists| ==> e !in q.lists[i]
  {
    hide NoDup, EvOk;
  }

  lemma {:induction false} FreshPlaces(evs: map<EvId, Ev>, e: EvId, v: Ev)
    requires e !in evs && !v.inserted && !v.active && !v.timeout
    ensures Places(evs[e := v]) == Places(evs)
  {
    var r := evs[e := v];
    assert InsertedUsers(r) == InsertedUsers(evs) && ActiveUsers(r) == ActiveUsers(evs);
    assert TimeoutUsers(r) == TimeoutUsers(evs);
  }

  lemma {:induction false} SameEvent(q: Queues, r: Queues, x: EvId)
    requires x in q.evs && EvOk(q, x) && x in r.evs && r.evs[x] == q.evs[x] && r == q.(evs := r.evs)
    ensures EvOk(r, x)
  {
  }

  lemma {:induction false} FreshOk(q: Queues, e: EvId, v: Ev)
    requires QOk(q) && e !in q.evs && !v.inserted && !v.active && !v.timeout && v.pri < |q.active| && v.ctl == -1
    ensures QOk(q.(evs := q.evs[e := v]))
  {
    FreshIsNowhere(q, e);
    FreshPlaces(q.evs, e, v);
    hide Places, TotalLen, NoDup;
    var r := q.(evs := q.evs[e := v]);
    forall x | x in r.evs
      ensures EvOk(r, x)
    {
      if x != e {
        assert EvOk(q, x);
        SameEvent(q, r, x);
      }
    }
    hide EvOk;
  }

  lemma {:induction false} PersistWithNew(evs: map<EvId, Ev>, kinds: map<EvId, Kind>, io: map<EvId, Tv>, e: EvId,
                                          v: Ev, k: Kind)
    requires PersistOk(evs, kinds, io) && e !in evs
    ensures PersistOk(evs[e := v], kinds[e := k], io)
  {
  }

  lemma {:induction false} ListKept(q: Queues, r: Queues, i: nat, t: EvId)
    requires i < |q.lists| && i < |r.lists| && ListOk(q, i) && Covered(q, t, i)
    requires r.lists[i] == q.lists[i] && r.heap == q.heap
    requires forall x :: x in q.evs ==> x in r.evs && r.evs[x] == q.evs[x]
    ensures ListOk(r, i) && Covered(r, t, i)
  {
  }

  lemma {:induction false} NewEventOk(q: Queues, timers: seq<EvId>, e: EvId)
    requires QOk(q) && TimersOk(q, timers) && e !in q.evs && |q.active| > 0
    ensures QOk(NewEvent(q, e)) && TimersOk(NewEvent(q, e), timers)
  {
    hide QOk, TimersExcept;
    FreshOk(q, e, NewEvent(q, e).evs[e]);
    NewEventTimers(q, timers, e);
  }

  lemma {:induction false} NewEventTimers(q: Queues, timers: seq<EvId>, e: EvId)
    requires TimersOk(q, timers) && e !in q.evs
    ensures TimersOk(NewEvent(q, e), timers)
  {
    hide NoDup, ListOk, Covered;
    var r := NewEvent(q, e);
    forall i | 0 <= i < |q.lists|
      ensures ListOk(r, i) && Covered(r, timers[i], i)
    {
      ListKept(q, r, i, timers[i]);
    }
  }

  /** A new common-timeout list and its timer, at priority 0. */
  function NewList(q: Queues, t: EvId): Queues {
    q.(evs := q.evs[t := Ev(false, false, false, true, 0, 0, -1)], lists := q.lists + [[]])
  }

  lemma {:induction false} NewListQueues(q: Queues, t: EvId)
    requires QOk(q) && t !in q.evs && |q.active| > 0
    ensures QOk(NewList(q, t))
  {
    var v := Ev(false, false, false, true, 0, 0, -1);
    FreshOk(q, t, v);
    var m := q.(evs := q.evs[t := v]);
    hide Places, TotalLen, NoDup;
    var r := NewList(q, t);
    assert r.lists == m.lists + [[]];
    forall x | x in r.evs
      ensures EvOk(r, x)
    {
      assert EvOk(m, x);
      EmptyListMore(m, r, x);
    }
    hide EvOk;
  }

  lemma {:induction false} EmptyListMore(m: Queues, r: Queues, x: EvId)
    requires x in m.evs && EvOk(m, x) && r == m.(lists := m.lists + [[]])
    ensures EvOk(r, x)
  {
  }

  lemma {:induction false} NewListOk(q: Queues, timers: seq<EvId>, t: EvId)
    requires QOk(q) && TimersOk(q, timers) && t !in q.evs && |q.active| > 0
    ensures QOk(NewList(q, t)) && TimersOk(NewList(q, t), timers + [t])
  {
    hide QOk, TimersExcept;
    NewListQueues(q, t);
    NewListTimers(q, timers, t);
  }

  lemma {:induction false} NewListTimers(q: Queues, timers: seq<EvId>, t: EvId)
    requires TimersOk(q, timers) && t !in q.evs
    ensures TimersOk(NewList(q, t), timers + [t])
  {
    var r := NewList(q, t);
    var ts := timers + [t];
    AppendNoDup(timers, t);
    assert ListOk(r, |q.lists|) && Covered(r, t, |q.lists|);
    hide NoDup, ListOk, Covered;
    forall i | 0 <= i < |q.lists|
      ensures ListOk(r, i) && Covered(r, ts[i], i)
    {
      ListKept(q, r, i, timers[i]);
    }
  }

  lemma {:induction false} ActiveEvent(q: Queues, timers: seq<EvId>, p: nat)
    requires QOk(q) && TimersOk(q, timers) && p < |q.active| && q.active[p] != []
    ensures var e := q.active[p][0];
            e in q.evs && q.evs[e].pri == p && q.evs[e].active && (q.evs[e].internal ==> p == 0)
  {
    hide NoDup, CountsOk;
    var e := q.active[p][0];
    assert e in q.active[p];
    assert EvOk(q, e);
  }

  lemma {:induction false} PersistAfterTimer(was: map<EvId, Ev>, evs: map<EvId, Ev>, kinds: map<EvId, Kind>,
                                             io: map<EvId, Tv>, t: EvId, i: nat, now: int)
    requires PersistOk(was, kinds, io) && t in was && was[t].internal && AllBut(evs, AfterQueue(was, i, now), t)
    ensures PersistOk(evs, kinds, io)
  {
  }

  /** What event_persist_closure asserts. */
  lemma {:induction false} SameCommonTimeout(evs: map<EvId, Ev>, kinds: map<EvId, Kind>, io: map<EvId, Tv>, e: EvId)
    requires PersistOk(evs, kinds, io) && e in io
    ensures e in evs && evs[e].ctl == io[e].ctl
  {
  }

  lemma {:induction false} PersistAfterHeap(was: map<EvId, Ev>, evs: map<EvId, Ev>, kinds: map<EvId, Kind>,
                                            io: map<EvId, Tv>, now: int)
    requires PersistOk(was, kinds, io) && evs == AfterQueue(was, -1, now)
    ensures PersistOk(evs, kinds, io)
  {
  }

  lemma {:induction false} EmptyLen(n: nat)
    ensures TotalLen(seq(n, _ => [])) == 0
  {
    NoneLen(seq(n, _ => []));
  }

  lemma {:induction false} NoneLen(s: seq<seq<EvId>>)
    requires forall p :: 0 <= p < |s| ==> s[p] == []
    ensures TotalLen(s) == 0
    decreases |s|
  {
    if s != [] { NoneLen(s[..|s| - 1]); }
  }

  lemma {:induction false} EmptyOk(n: nat)
    ensures QOk(Queues(map[], {}, seq(n, _ => []), {}, [], 0, 0))
    ensures TimersOk(Queues(map[], {}, seq(n, _ => []), {}, [], 0, 0), [])
  {
    EmptyLen(n);
    hide TotalLen;
    assert InsertedUsers(map[]) == {} && ActiveUsers(map[]) == {} && TimeoutUsers(map[]) == {};
  }

  lemma {:induction false} SomeActive(q: Queues)
    requires QOk(q)
    ensures q.countActive == 0 ==> forall p :: 0 <= p < |q.active| ==> q.active[p] == []
  {
    if q.countActive == 0 { LenNone(q.active); }
  }

  lemma {:induction false} LenNone(s: seq<seq<EvId>>)
    requires TotalLen(s) == 0
    ensures forall p :: 0 <= p < |s| ==> s[p] == []
    decreases |s|
  {
    if s != [] {
      var n := |s| - 1;
      LenNone(s[..n]);
      assert forall p :: 0 <= p < n ==> s[p] == s[..n][p];
    }
  }

  lemma {:induction false} NoInversionNow(log: seq<Start>)
    ensures NoInversion(log, log)
  {
  }

  lemma {:induction false} NoneAgainNoInversion(was: seq<Start>, log: seq<Start>)
    requires LogOk(log) && NoAgain(was, log)
    ensures NoInversion(was, log)
  {
  }

  lemma {:induction false} FewStart(ncalls: map<EvId, nat>, e: EvId)
    ensures FewCalls(ncalls) ==> Calls(ncalls, e) <= 1
  {
  }

  lemma {:induction false} FewLess(ncalls: map<EvId, nat>, e: EvId, n: nat)
    ensures FewCalls(ncalls) && n <= 1 ==> FewCalls(ncalls[e := n])
  {
  }

  /** The queues after a first call that did what Rouses says. */
  ghost predicate IsRoused(was: Queues, q: Queues, inputs: seq<Input>, from: nat) {
    && from < |inputs| && |inputs[from].script| == 1 && Activates(inputs[from].script[0], was)
    && q.active == OneMore(inputs[from].script[0], was)
  }

  lemma {:induction false} RousedFirst(was: Queues, q: Queues, p: int, inputs: seq<Input>, from: nat)
    requires Rouses(was, p, inputs, from)
    ensures |inputs[from].script| == 1 && Activates(inputs[from].script[0], was)
    ensures q.active == OneMore(inputs[from].script[0], was) ==> IsRoused(was, q, inputs, from)
  {
  }

  lemma {:induction false} RousedSecond(was: Queues, mid: Queues, p: int, inputs: seq<Input>, from: nat,
                                        log0: seq<Start>, before: seq<Start>, log: seq<Start>, e: EvId)
    requires Rouses(was, p, inputs, from) && IsRoused(was, mid, inputs, from) && |before| == |log0| + 1
    requires |log| == |before| + 1 && before <= log && log[|before|].e == e && log[|before|].again
    requires log[|before|].pri == p && log[|before|].active == mid.active
    ensures Overtook(log0, log, e)
  {
    var a := inputs[from].script[0].e;
    assert mid.active[was.evs[a].pri] != [];
  }

  lemma {:induction false} OvertookMore(was: seq<Start>, before: seq<Start>, log: seq<Start>, e: EvId)
    requires before <= log
    ensures Overtook(was, before, e) ==> Overtook(was, log, e)
  {
    hide NoneBefore;
  }

  lemma {:induction false} RousesTwo(q: Queues, p: int, inputs: seq<Input>, from: nat)
    ensures Rouses(q, p, inputs, from) ==> from + 2 <= |inputs|
  {
  }

  lemma {:induction false} PromiseMore(q: Queues, kinds: map<EvId, Kind>, ncalls: map<EvId, nat>, eventBreak: bool,
                                       was: seq<Start>, before: seq<Start>, log: seq<Start>,
                                       e: EvId, p: int, inputs: seq<Input>, from: nat)
    requires before <= log
    ensures Promise(q, kinds, ncalls, eventBreak, was, before, e, p, inputs, from) ==>
            Promise(q, kinds, ncalls, eventBreak, was, log, e, p, inputs, from)
  {
    hide Overtakable, WillStart;
    OvertookMore(was, before, log, e);
    hide Overtook;
  }

  lemma {:induction false} PromiseInternal(q: Queues, kinds: map<EvId, Kind>, ncalls: map<EvId, nat>, eventBreak: bool,
                                           was: seq<Start>, log: seq<Start>, e: EvId, inputs: seq<Input>, from: nat)
    requires e in q.evs && q.evs[e].pri == 0 && Started(was, log, e, 0)
    ensures Promise(q, kinds, ncalls, eventBreak, was, log, e, 0, inputs, from)
  {
  }

  lemma {:induction false} CalmStart(ncalls: map<EvId, nat>, inputs: seq<Input>, log: seq<Start>)
    ensures Calm(ncalls, inputs, ncalls, log, log)
  {
  }

  lemma {:induction false} CalmStep(n0: map<EvId, nat>, inputs: seq<Input>, n1: map<EvId, nat>, was: seq<Start>,
                                    mid: seq<Start>, n2: map<EvId, nat>, log: seq<Start>)
    requires Calm(n0, inputs, n1, was, mid) && Calm(n1, inputs, n2, mid, log) && was <= mid <= log
    ensures Calm(n0, inputs, n2, was, log)
  {
    hide FewCalls, ModestInputs;
  }

  lemma {:induction false} CalmMeans(n0: map<EvId, nat>, inputs: seq<Input>, ncalls: map<EvId, nat>,
                                     was: seq<Start>, log: seq<Start>)
    requires Calm(n0, inputs, ncalls, was, log) && LogOk(log)
    ensures FewCalls(n0) && ModestInputs(inputs) ==> FewCalls(ncalls) && NoInversion(was, log)
  {
    if NoAgain(was, log) { NoneAgainNoInversion(was, log); }
  }

  lemma {:induction false} StillRouses(was: Queues, q: Queues, kinds: map<EvId, Kind>, ncalls: map<EvId, nat>, e: EvId,
                                       inputs: seq<Input>, from: nat)
    requires e in was.evs && e in q.evs && q.evs == was.evs[e := q.evs[e]] && |q.active| == |was.active|
    ensures Overtakable(was, kinds, ncalls, e, inputs, from) ==>
            kinds[e].signal && Calls(ncalls, e) >= 2 && Rouses(q, was.evs[e].pri, inputs, from)
  {
  }

  lemma {:induction false} LeadIs(active: seq<seq<EvId>>, p: nat)
    requires p < |active| && active[p] != [] && forall i :: 0 <= i < p ==> active[i] == []
    ensures Lead(active) == p
  {
    hide Lead;
    var l := Lead(active);
    assert l < |active| ==> active[l] != [];
  }

  lemma {:induction false} CanOvertake(q: Queues, kinds: map<EvId, Kind>, ncalls: map<EvId, nat>, s: EvId, a: EvId,
                                       now: int)
    requires s in q.evs && s in kinds && kinds[s].signal && Calls(ncalls, s) >= 2
    requires a in q.evs && !q.evs[a].internal && !q.evs[a].active && q.evs[a].pri < q.evs[s].pri < |q.active|
    requires HeapLater(q, now)
    ensures var inputs := [Input(now, true, [Command.Active(a, false, 1)]), Input(now, true, [])];
            && Overtakable(q, kinds, ncalls, s, inputs, 0)
            && Direct(q, Turned(now, now, [], now, inputs))
  {
  }

  /** A user's event that is on no queue. */
  predicate Idle(v: Ev) {
    !v.inserted && !v.active && !v.timeout && !v.internal
  }

  function Assigned(q: Queues, e: EvId): Queues {
    if e in q.evs then q.(evs := q.evs[e := q.evs[e].(pri := |q.active| / 2)]) else NewEvent(q, e)
  }

  lemma {:induction false} AssignedOk(q: Queues, timers: seq<EvId>, e: EvId)
    requires QOk(q) && TimersOk(q, timers) && |q.active| > 0 && (e in q.evs ==> Idle(q.evs[e]))
    ensures QOk(Assigned(q, e)) && TimersOk(Assigned(q, e), timers)
    ensures Assigned(q, e).active == q.active && Assigned(q, e).evs.Keys == q.evs.Keys + {e}
  {
    hide QOk, TimersExcept;
    if e in q.evs {
      PriorityOk(q, e, |q.active| / 2);
      PriorityKeepsTimers(q, timers, e, |q.active| / 2);
    } else {
      NewEventOk(q, timers, e);
    }
  }

  lemma {:induction false} PersistAfterAssign(q: Queues, kinds: map<EvId, Kind>, io: map<EvId, Tv>, e: EvId, k: Kind)
    requires PersistOk(q.evs, kinds, io)
    ensures PersistOk(Assigned(q, e).evs, kinds[e := k], io - {e})
  {
  }

  /** No call count but that of e differs. */
  ghost predicate CallsElsewhere(n0: map<EvId, nat>, n1: map<EvId, nat>, e: EvId) {
    forall x :: x != e ==> Calls(n1, x) == Calls(n0, x)
  }

  lemma {:induction false} CalmTimer(n0: map<EvId, nat>, n1: map<EvId, nat>, was: seq<Start>, log: seq<Start>)
    requires (FewCalls(n0) ==> FewCalls(n1)) && |log| == |was| + 1 && !log[|was|].again
    ensures forall inputs :: Calm(n0, inputs, n1, was, log)
  {
    hide FewCalls;
  }

  lemma {:induction false} TimerOf(q: Queues, timers: seq<EvId>, e: EvId)
    requires TimersOk(q, timers) && e in q.evs && q.evs[e].internal
    ensures |timers| == |q.lists| && exists i :: 0 <= i < |timers| && timers[i] == e
  {
  }

  lemma {:induction false} AllButTwice(was: map<EvId, Ev>, mid: map<EvId, Ev>, evs: map<EvId, Ev>, t: EvId, i: nat,
                                       now: int)
    requires AllBut(AfterQueue(mid, i, now), AfterQueue(was, i, now), t) && AllBut(evs, AfterQueue(mid, i, now), t)
    ensures AllBut(evs, AfterQueue(was, i, now), t)
  {
    hide AfterQueue;
  }
}
