/** The queues of an event base: inserted events, active queues by priority, the timer heap and the
    common-timeout lists. event_queue_insert and event_queue_remove keep flags, membership and counts together. */
module EventQueues {
  import opened Wrappers

  type EvId = nat

  /** The parts of struct event that the queues are about. ctl is the index of the common-timeout list that
      the event's timeout belongs to, or -1 for a timeout that goes to the heap. */
  datatype Ev = Ev(
    inserted: bool, active: bool, timeout: bool, internal: bool,
    pri: nat, deadline: int, ctl: int)

  datatype Queues = Queues(
    evs: map<EvId, Ev>,
    inserted: set<EvId>,
    active: seq<seq<EvId>>,
    heap: set<EvId>,
    lists: seq<seq<EvId>>,
    count: int, countActive: int)

  /** TAILQ_REMOVE */
  function Without(s: seq<EvId>, e: EvId): (r: seq<EvId>)
    ensures forall x :: x in r ==> x in s
    ensures forall x :: x in s && x != e ==> x in r
    ensures e !in s ==> r == s
  {
    if s == [] then []
    else if s[0] == e then
      assert s == [s[0]] + s[1..];
      s[1..]
    else
      assert s == [s[0]] + s[1..];
      [s[0]] + Without(s[1..], e)
  }

  lemma {:induction false} WithoutNoDup(s: seq<EvId>, e: EvId)
    requires NoDup(s)
    ensures NoDup(Without(s, e)) && e !in Without(s, e)
    ensures |Without(s, e)| == |s| - if e in s then 1 else 0
    decreases |s|
  {
    if s != [] {
      assert s == [s[0]] + s[1..];
      WithoutNoDup(s[1..], e);
      if s[0] != e {
        var r := Without(s[1..], e);
        forall k | 0 <= k < |r|
          ensures r[k] != s[0]
        {
          assert r[k] in s[1..];
        }
      }
    }
  }

  lemma {:induction false} AppendNoDup(s: seq<EvId>, e: EvId)
    requires NoDup(s) && e !in s
    ensures NoDup(s + [e]) && forall x :: x in s + [e] <==> x in s || x == e
  {
  }

  /** Each flag of the event says on which queue it is. */
  ghost predicate EvOk(q: Queues, e: EvId)
    requires e in q.evs
  {
    var v := q.evs[e];
    && (v.inserted <==> e in q.inserted)
    && v.pri < |q.active| && -1 <= v.ctl < |q.lists|
    && (forall p :: 0 <= p < |q.active| ==> (e in q.active[p] <==> v.active && p == v.pri))
    && (e in q.heap <==> v.timeout && v.ctl == -1)
    && (forall i :: 0 <= i < |q.lists| ==> (e in q.lists[i] <==> v.timeout && v.ctl == i))
  }

  ghost predicate MembersOk(q: Queues) {
    && q.inserted <= q.evs.Keys && q.heap <= q.evs.Keys
    && (forall p :: 0 <= p < |q.active| ==> NoDup(q.active[p]) && forall x :: x in q.active[p] ==> x in q.evs)
    && (forall i :: 0 <= i < |q.lists| ==> NoDup(q.lists[i]) && forall x :: x in q.lists[i] ==> x in q.evs)
    && (forall e :: e in q.evs ==> EvOk(q, e))
  }

  // ----- the counts -----

  ghost function InsertedUsers(evs: map<EvId, Ev>): set<EvId> {
    set e | e in evs && !evs[e].internal && evs[e].inserted
  }

  ghost function ActiveUsers(evs: map<EvId, Ev>): set<EvId> {
    set e | e in evs && !evs[e].internal && evs[e].active
  }

  ghost function TimeoutUsers(evs: map<EvId, Ev>): set<EvId> {
    set e | e in evs && !evs[e].internal && evs[e].timeout
  }

  ghost function TotalLen(qs: seq<seq<EvId>>): nat {
    if qs == [] then 0 else TotalLen(qs[..|qs| - 1]) + |qs[|qs| - 1]|
  }

  lemma {:induction false} TotalLenUpdate(qs: seq<seq<EvId>>, p: nat, s: seq<EvId>)
    requires p < |qs|
    ensures TotalLen(qs[p := s]) == TotalLen(qs) - |qs[p]| + |s|
    decreases |qs|
  {
    var n := |qs| - 1;
    if p == n {
      assert qs[p := s][..n] == qs[..n];
    } else {
      TotalLenUpdate(qs[..n], p, s);
      assert qs[p := s][..n] == qs[..n][p := s];
    }
  }

  /** The number of queue places that user events take. */
  ghost function Places(evs: map<EvId, Ev>): nat {
    |InsertedUsers(evs)| + |ActiveUsers(evs)| + |TimeoutUsers(evs)|
  }

  function PlacesOf(v: Ev): int {
    if v.internal then 0
    else (if v.inserted then 1 else 0) + (if v.active then 1 else 0) + (if v.timeout then 1 else 0)
  }

  lemma {:induction false} SetUpdate(a: set<EvId>, b: set<EvId>, e: EvId, on: bool)
    requires forall x :: x != e ==> (x in a <==> x in b)
    requires e in b <==> on
    ensures |b| == |a| - (if e in a then 1 else 0) + if on then 1 else 0
  {
    assert a - {e} == b - {e};
    assert e in a ==> a == (a - {e}) + {e};
    assert e in b ==> b == (b - {e}) + {e};
    assert e !in a ==> a - {e} == a;
    assert e !in b ==> b - {e} == b;
  }

  lemma {:induction false} PlacesAfter(evs: map<EvId, Ev>, e: EvId, v: Ev)
    requires e in evs && v.internal == evs[e].internal
    ensures Places(evs[e := v]) == Places(evs) - PlacesOf(evs[e]) + PlacesOf(v)
  {
    var r := evs[e := v];
    SetUpdate(InsertedUsers(evs), InsertedUsers(r), e, !v.internal && v.inserted);
    SetUpdate(ActiveUsers(evs), ActiveUsers(r), e, !v.internal && v.active);
    SetUpdate(TimeoutUsers(evs), TimeoutUsers(r), e, !v.internal && v.timeout);
  }

  /** event_count is the number of queue places of user events; event_count_active the length of all active queues. */
  ghost predicate CountsOk(q: Queues) {
    q.count == Places(q.evs) && q.countActive == TotalLen(q.active)
  }

  ghost predicate QOk(q: Queues) {
    MembersOk(q) && CountsOk(q)
  }

  ghost predicate OnSomeQueue(q: Queues, e: EvId) {
    || e in q.inserted || e in q.heap
    || (exists p :: 0 <= p < |q.active| && e in q.active[p])
    || (exists i :: 0 <= i < |q.lists| && e in q.lists[i])
  }

  /** event_haveevents, without virtual events, is exact. */
  lemma {:induction false} HaveEventsExact(q: Queues)
    requires QOk(q)
    ensures q.count > 0 <==> exists e :: e in q.evs && !q.evs[e].internal && OnSomeQueue(q, e)
  {
    if q.count > 0 {
      var e :| e in InsertedUsers(q.evs) + ActiveUsers(q.evs) + TimeoutUsers(q.evs);
      assert EvOk(q, e);
      if e in ActiveUsers(q.evs) { assert e in q.active[q.evs[e].pri]; }
      if e in TimeoutUsers(q.evs) && q.evs[e].ctl >= 0 { assert e in q.lists[q.evs[e].ctl]; }
      assert OnSomeQueue(q, e);
    } else {
      assert InsertedUsers(q.evs) == {} && ActiveUsers(q.evs) == {} && TimeoutUsers(q.evs) == {};
      forall e | e in q.evs && !q.evs[e].internal
        ensures e !in q.inserted && e !in q.heap
        ensures forall p :: 0 <= p < |q.active| ==> e !in q.active[p]
        ensures forall i :: 0 <= i < |q.lists| ==> e !in q.lists[i]
      {
        assert EvOk(q, e);
        assert e !in InsertedUsers(q.evs) && e !in ActiveUsers(q.evs) && e !in TimeoutUsers(q.evs);
      }
    }
  }

  function Share(v: Ev): int {
    if v.internal then 0 else 1
  }

  /** Queues that differ only in where e is. */
  ghost predicate SameElsewhere(q: Queues, r: Queues, e: EvId) {
    && e in q.evs && e in r.evs && r.evs == q.evs[e := r.evs[e]]
    && |r.active| == |q.active| && |r.lists| == |q.lists|
    && (forall x :: x != e ==> (x in r.inserted <==> x in q.inserted) && (x in r.heap <==> x in q.heap))
    && (forall x, p :: x != e && 0 <= p < |q.active| ==> (x in r.active[p] <==> x in q.active[p]))
    && (forall x, i :: x != e && 0 <= i < |q.lists| ==> (x in r.lists[i] <==> x in q.lists[i]))
  }

  lemma {:induction false} MembersAfter(q: Queues, r: Queues, e: EvId)
    requires MembersOk(q) && SameElsewhere(q, r, e) && EvOk(r, e)
    requires forall p :: 0 <= p < |r.active| ==> NoDup(r.active[p])
    requires forall i :: 0 <= i < |r.lists| ==> NoDup(r.lists[i])
    ensures MembersOk(r)
  {
    hide NoDup;
    assert r.evs.Keys == q.evs.Keys;
    forall x | x in r.evs
      ensures EvOk(r, x)
    {
      if x != e { assert EvOk(q, x) && r.evs[x] == q.evs[x]; }
    }
  }

  /** event_queue_insert(EVLIST_INSERTED) */
  function InsertInserted(q: Queues, e: EvId): Queues
    requires e in q.evs
  {
    var v := q.evs[e];
    q.(evs := q.evs[e := v.(inserted := true)], inserted := q.inserted + {e}, count := q.count + Share(v))
  }

  lemma {:induction false} InsertInsertedCounts(q: Queues, e: EvId)
    requires QOk(q) && e in q.evs && !q.evs[e].inserted
    ensures CountsOk(InsertInserted(q, e))
  {
    var r := InsertInserted(q, e);
    PlacesAfter(q.evs, e, r.evs[e]);
    hide Places, TotalLen, MembersOk;
  }

  lemma {:induction false} InsertInsertedOk(q: Queues, e: EvId)
    requires QOk(q) && e in q.evs && !q.evs[e].inserted
    ensures QOk(InsertInserted(q, e))
  {
    InsertInsertedCounts(q, e);
    hide CountsOk, NoDup;
    var r := InsertInserted(q, e);
    assert EvOk(q, e);
    MembersAfter(q, r, e);
  }

  /** event_queue_remove(EVLIST_INSERTED) */
  function RemoveInserted(q: Queues, e: EvId): Queues
    requires e in q.evs
  {
    var v := q.evs[e];
    q.(evs := q.evs[e := v.(inserted := false)], inserted := q.inserted - {e}, count := q.count - Share(v))
  }

  lemma {:induction false} RemoveInsertedCounts(q: Queues, e: EvId)
    requires QOk(q) && e in q.evs && q.evs[e].inserted
    ensures CountsOk(RemoveInserted(q, e))
  {
    var r := RemoveInserted(q, e);
    PlacesAfter(q.evs, e, r.evs[e]);
    hide Places, TotalLen, MembersOk;
  }

  lemma {:induction false} RemoveInsertedOk(q: Queues, e: EvId)
    requires QOk(q) && e in q.evs && q.evs[e].inserted
    ensures QOk(RemoveInserted(q, e))
  {
    RemoveInsertedCounts(q, e);
    hide CountsOk, NoDup;
    var r := RemoveInserted(q, e);
    assert EvOk(q, e);
    MembersAfter(q, r, e);
  }

  /** event_queue_insert(EVLIST_ACTIVE) */
  function InsertActive(q: Queues, e: EvId): Queues
    requires e in q.evs && q.evs[e].pri < |q.active|
  {
    var v := q.evs[e];
    q.(evs := q.evs[e := v.(active := true)], active := q.active[v.pri := q.active[v.pri] + [e]],
       count := q.count + Share(v), countActive := q.countActive + 1)
  }

  lemma {:induction false} InsertActiveCounts(q: Queues, e: EvId)
    requires QOk(q) && e in q.evs && !q.evs[e].active
    ensures q.evs[e].pri < |q.active| && CountsOk(InsertActive(q, e))
  {
    assert EvOk(q, e);
    var r := InsertActive(q, e);
    var p := q.evs[e].pri;
    TotalLenUpdate(q.active, p, q.active[p] + [e]);
    PlacesAfter(q.evs, e, r.evs[e]);
    hide Places, TotalLen, MembersOk;
  }

  lemma {:induction false} InsertActiveOk(q: Queues, e: EvId)
    requires QOk(q) && e in q.evs && !q.evs[e].active
    ensures q.evs[e].pri < |q.active| && QOk(InsertActive(q, e))
  {
    InsertActiveCounts(q, e);
    hide CountsOk, NoDup;
    var r := InsertActive(q, e);
    assert EvOk(q, e);
    AppendNoDup(q.active[q.evs[e].pri], e);
    MembersAfter(q, r, e);
  }

  /** event_queue_remove(EVLIST_ACTIVE) */
  function RemoveActive(q: Queues, e: EvId): Queues
    requires e in q.evs && q.evs[e].pri < |q.active|
  {
    var v := q.evs[e];
    q.(evs := q.evs[e := v.(active := false)], active := q.active[v.pri := Without(q.active[v.pri], e)],
       count := q.count - Share(v), countActive := q.countActive - 1)
  }

  lemma {:induction false} RemoveActiveCounts(q: Queues, e: EvId)
    requires QOk(q) && e in q.evs && q.evs[e].active
    ensures q.evs[e].pri < |q.active| && CountsOk(RemoveActive(q, e))
  {
    assert EvOk(q, e);
    var r := RemoveActive(q, e);
    var p := q.evs[e].pri;
    WithoutNoDup(q.active[p], e);
    TotalLenUpdate(q.active, p, Without(q.active[p], e));
    PlacesAfter(q.evs, e, r.evs[e]);
    hide Places, TotalLen, MembersOk;
  }

  lemma {:induction false} RemoveActiveOk(q: Queues, e: EvId)
    requires QOk(q) && e in q.evs && q.evs[e].active
    ensures q.evs[e].pri < |q.active| && QOk(RemoveActive(q, e))
  {
    RemoveActiveCounts(q, e);
    hide CountsOk, NoDup;
    var r := RemoveActive(q, e);
    assert EvOk(q, e);
    WithoutNoDup(q.active[q.evs[e].pri], e);
    hide Without;
    MembersAfter(q, r, e);
  }


  /** insert_common_timeout_inorder: behind the last event that is not later. */
  function InOrder(evs: map<EvId, Ev>, s: seq<EvId>, e: EvId): (r: seq<EvId>)
    requires e in evs && forall x :: x in s ==> x in evs
    ensures forall x :: x in r <==> x in s || x == e
    ensures r != [] && |r| == |s| + 1
  {
    if s == [] then [e]
    else
      var n := |s| - 1;
      if evs[e].deadline >= evs[s[n]].deadline then s + [e]
      else
        assert s == s[..n] + [s[n]];
        InOrder(evs, s[..n], e) + [s[n]]
  }

  lemma {:induction false} InOrderStep(evs: map<EvId, Ev>, s: seq<EvId>, e: EvId, k: nat)
    requires e in evs && (forall x :: x in s ==> x in evs) && 0 < k <= |s|
    requires evs[e].deadline < evs[s[k - 1]].deadline
    ensures InOrder(evs, s[..k], e) + s[k..] == InOrder(evs, s[..k - 1], e) + s[k - 1..]
  {
    var t, x := s[..k], s[k - 1];
    assert t[..k - 1] == s[..k - 1] && s[k - 1..] == [x] + s[k..];
    var r := InOrder(evs, s[..k - 1], e);
    assert InOrder(evs, t, e) == r + [x];
    hide InOrder;
    assert r + [x] + s[k..] == r + ([x] + s[k..]);
  }

  lemma {:induction false} InOrderStop(evs: map<EvId, Ev>, s: seq<EvId>, e: EvId)
    requires e in evs && forall x :: x in s ==> x in evs
    requires s != [] ==> evs[e].deadline >= evs[s[|s| - 1]].deadline
    ensures InOrder(evs, s, e) == s + [e]
  {
  }

  /** The walk from the back of the list that finds the place. */
  method InsertInOrder(evs: map<EvId, Ev>, s: seq<EvId>, e: EvId) returns (r: seq<EvId>)
    requires e in evs && forall x :: x in s ==> x in evs
    ensures r == InOrder(evs, s, e)
  {
    var k := |s|;
    assert s[..k] == s && s[k..] == [];
    hide InOrder;
    while k > 0 && evs[e].deadline < evs[s[k - 1]].deadline
      invariant 0 <= k <= |s| && InOrder(evs, s[..k], e) + s[k..] == InOrder(evs, s, e)
    {
      InOrderStep(evs, s, e, k);
      k := k - 1;
    }
    InOrderStop(evs, s[..k], e);
    r := s[..k] + [e] + s[k..];
  }

  ghost predicate Sorted(evs: map<EvId, Ev>, s: seq<EvId>)
    requires forall x :: x in s ==> x in evs
  {
    forall i, j :: 0 <= i < j < |s| ==> evs[s[i]].deadline <= evs[s[j]].deadline
  }

  lemma {:induction false} InOrderNoDup(evs: map<EvId, Ev>, s: seq<EvId>, e: EvId)
    requires e in evs && (forall x :: x in s ==> x in evs) && NoDup(s) && e !in s
    ensures NoDup(InOrder(evs, s, e))
    decreases |s|
  {
    if s != [] {
      var n := |s| - 1;
      if evs[e].deadline < evs[s[n]].deadline {
        assert s == s[..n] + [s[n]];
        InOrderNoDup(evs, s[..n], e);
        assert s[n] !in s[..n];
        AppendNoDup(InOrder(evs, s[..n], e), s[n]);
      }
    }
  }

  lemma {:induction false} InOrderSorted(evs: map<EvId, Ev>, s: seq<EvId>, e: EvId)
    requires e in evs && (forall x :: x in s ==> x in evs) && Sorted(evs, s)
    ensures Sorted(evs, InOrder(evs, s, e))
    decreases |s|
  {
    if s != [] {
      var n := |s| - 1;
      if evs[e].deadline < evs[s[n]].deadline {
        var t := s[..n];
        assert forall i :: 0 <= i < n ==> t[i] == s[i];
        InOrderSorted(evs, t, e);
        var r := InOrder(evs, t, e);
        assert InOrder(evs, s, e) == r + [s[n]];
        hide InOrder;
        forall i | 0 <= i < |r|
          ensures evs[r[i]].deadline <= evs[s[n]].deadline
        {
          assert r[i] in r;
          assert r[i] == e || r[i] in t;
        }
        SortedSnoc(evs, r, s[n]);
      } else {
        assert InOrder(evs, s, e) == s + [e];
        hide InOrder;
        SortedSnoc(evs, s, e);
      }
    }
  }

  lemma {:induction false} SortedSnoc(evs: map<EvId, Ev>, s: seq<EvId>, e: EvId)
    requires e in evs && (forall x :: x in s ==> x in evs) && Sorted(evs, s)
    requires s != [] ==> evs[s[|s| - 1]].deadline <= evs[e].deadline
    ensures Sorted(evs, s + [e])
  {
  }

  /** The new head is the event itself, or the old head. */
  lemma {:induction false} InOrderHead(evs: map<EvId, Ev>, s: seq<EvId>, e: EvId)
    requires e in evs && (forall x :: x in s ==> x in evs)
    ensures InOrder(evs, s, e)[0] == e || (s != [] && InOrder(evs, s, e)[0] == s[0])
    decreases |s|
  {
    if s != [] {
      var n := |s| - 1;
      if evs[e].deadline < evs[s[n]].deadline {
        InOrderHead(evs, s[..n], e);
      }
    }
  }

  /** event_queue_insert(EVLIST_TIMEOUT) */
  function InsertTimeout(q: Queues, e: EvId): Queues
    requires e in q.evs && q.evs[e].ctl < |q.lists|
    requires q.evs[e].ctl >= 0 ==> forall x :: x in q.lists[q.evs[e].ctl] ==> x in q.evs
  {
    var v := q.evs[e];
    var r := q.(evs := q.evs[e := v.(timeout := true)], count := q.count + Share(v));
    if v.ctl >= 0 then r.(lists := q.lists[v.ctl := InOrder(q.evs, q.lists[v.ctl], e)])
    else r.(heap := q.heap + {e})
  }

  lemma {:induction false} InsertTimeoutCounts(q: Queues, e: EvId)
    requires QOk(q) && e in q.evs && !q.evs[e].timeout
    ensures InsertTimeout.requires(q, e) && CountsOk(InsertTimeout(q, e))
  {
    assert EvOk(q, e);
    var r := InsertTimeout(q, e);
    PlacesAfter(q.evs, e, r.evs[e]);
    hide Places, TotalLen, MembersOk;
  }

  lemma {:induction false} InsertTimeoutPlaces(q: Queues, e: EvId)
    requires MembersOk(q) && e in q.evs && !q.evs[e].timeout
    ensures InsertTimeout.requires(q, e) && SameElsewhere(q, InsertTimeout(q, e), e) && EvOk(InsertTimeout(q, e), e)
    ensures |InsertTimeout(q, e).lists| == |q.lists|
    ensures forall i :: 0 <= i < |q.lists| ==> NoDup(InsertTimeout(q, e).lists[i])
  {
    hide NoDup;
    assert EvOk(q, e);
    var r := InsertTimeout(q, e);
    if q.evs[e].ctl >= 0 { InOrderNoDup(q.evs, q.lists[q.evs[e].ctl], e); }
    hide InOrder;
  }

  lemma {:induction false} InsertTimeoutOk(q: Queues, e: EvId)
    requires QOk(q) && e in q.evs && !q.evs[e].timeout
    ensures InsertTimeout.requires(q, e) && QOk(InsertTimeout(q, e))
  {
    InsertTimeoutCounts(q, e);
    InsertTimeoutPlaces(q, e);
    hide CountsOk, NoDup, InOrder, EvOk, SameElsewhere;
    MembersAfter(q, InsertTimeout(q, e), e);
  }

  /** event_queue_remove(EVLIST_TIMEOUT) */
  function RemoveTimeout(q: Queues, e: EvId): Queues
    requires e in q.evs && q.evs[e].ctl < |q.lists|
  {
    var v := q.evs[e];
    var r := q.(evs := q.evs[e := v.(timeout := false)], count := q.count - Share(v));
    if v.ctl >= 0 then r.(lists := q.lists[v.ctl := Without(q.lists[v.ctl], e)])
    else r.(heap := q.heap - {e})
  }

  lemma {:induction false} RemoveTimeoutCounts(q: Queues, e: EvId)
    requires QOk(q) && e in q.evs && q.evs[e].timeout
    ensures q.evs[e].ctl < |q.lists| && CountsOk(RemoveTimeout(q, e))
  {
    assert EvOk(q, e);
    var r := RemoveTimeout(q, e);
    PlacesAfter(q.evs, e, r.evs[e]);
    hide Places, TotalLen, MembersOk;
  }

  lemma {:induction false} RemoveTimeoutPlaces(q: Queues, e: EvId)
    requires MembersOk(q) && e in q.evs && q.evs[e].timeout
    ensures q.evs[e].ctl < |q.lists| && SameElsewhere(q, RemoveTimeout(q, e), e) && EvOk(RemoveTimeout(q, e), e)
    ensures forall i :: 0 <= i < |q.lists| ==> NoDup(RemoveTimeout(q, e).lists[i])
  {
    hide NoDup;
    assert EvOk(q, e);
    var r := RemoveTimeout(q, e);
    if q.evs[e].ctl >= 0 { WithoutNoDup(q.lists[q.evs[e].ctl], e); }
    hide Without;
  }

  lemma {:induction false} RemoveTimeoutOk(q: Queues, e: EvId)
    requires QOk(q) && e in q.evs && q.evs[e].timeout
    ensures q.evs[e].ctl < |q.lists| && QOk(RemoveTimeout(q, e))
  {
    RemoveTimeoutCounts(q, e);
    RemoveTimeoutPlaces(q, e);
    hide CountsOk, NoDup, Without, EvOk, SameElsewhere;
    MembersAfter(q, RemoveTimeout(q, e), e);
  }

  /** Give an event that is on no timeout queue its next timeout. */
  function SetTimeout(q: Queues, e: EvId, deadline: int, ctl: int): Queues
    requires e in q.evs
  {
    q.(evs := q.evs[e := q.evs[e].(deadline := deadline, ctl := ctl)])
  }

  lemma {:induction false} SetTimeoutOk(q: Queues, e: EvId, deadline: int, ctl: int)
    requires QOk(q) && e in q.evs && !q.evs[e].timeout && -1 <= ctl < |q.lists|
    ensures QOk(SetTimeout(q, e, deadline, ctl))
  {
    var r := SetTimeout(q, e, deadline, ctl);
    PlacesAfter(q.evs, e, r.evs[e]);
    hide Places, TotalLen, NoDup;
    assert EvOk(q, e);
    MembersAfter(q, r, e);
  }
}
