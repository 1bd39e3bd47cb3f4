# libevent 2.0.21: a verified model

This project models the hard parts of libevent 2.0.21 in Dafny and proves what they are for.

* **evbuffer** (`Chain`, `EvbufferLinks`, `Evbuffer`, `EvbufferRead`, `EvbufferRuns`, `EvbufferSearch`,
  `EvbufferLines`): a list of chunks with a cursor, against one byte sequence. Chains have addresses; `last_with_datap`
  points at `&first` or at the next pointer of a chain, `last` at a chain, and the source's branches on them are there.
  Two invariants are used. *Loose* (`Valid`): the cursor is a pointer of the list, `last` its final chain, the total
  length the sum of the chunks, and every chain behind the cursor is empty. *Tight*: also, there is no empty chain,
  unless the buffer has no data. Two operations do not always keep the Loose invariant. `Add` and `RemoveBuffer` give
  the exact conditions on the lists before the call, for all Loose buffers, and four methods run into the failures: a
  read that brings less than its room leaves an empty chain behind the cursor; `evbuffer_add` then writes there without
  moving the cursor, and `evbuffer_remove_buffer` of chains that such an empty one separates leaves the receiving
  buffer's cursor in front of it.
* **The event base** (`EventQueues`, `EventTimers`, `EventSteps`, `EventTurns`, `EventBase`): flags, queues and counts;
  the timer heap and the common-timeout lists with their internal timers; the loop that runs callbacks by priority.
  Callbacks are arbitrary scripts of public calls, and a run ends when the scripts supplied for it are used up, so that
  a statement about all scripts is one about all finite runs. No priority inversion happens in any run in which no event
  is activated for more than one call (`Loop`). That condition is needed: `event_signal_closure` calls a signal event
  again without looking at `event_continue`, and every signal event of a later priority that is activated for two calls
  or more can be made to overtake every event of an earlier one (`Overtakes`).
* **fd map, changelist, epoll** (`Evmap`, `Epoll`): coalesced changes against applying each change at once.
* **DNS names** (`DnsNames`, `DnsCodec`): the compressing printer and the parser of section 4.1.4 of RFC 1035. The
  printer can write one byte behind its buffer and the parser read behind the packet before it fails; `ToLabels`,
  `NameParse` and `CanOverrun` say exactly when.
* **Rate limits** (`TokenBucket`, `RateGroup`): the bucket in C arithmetic and over whole runs, with a clock that may
  wrap and go back; the group protocol as a state machine whose steps are single try-locks and critical sections. A
  group that is not suspended keeps a positive limit in every step but one; `NextPositive` says exactly which.
* **The condition variable of `evthread_win32.c`** (`CondVar`): a state machine over unboundedly many threads. No wakeup
  is lost; a signal that finds nobody waiting is kept, so that a later signal can release two threads
  (`SignalReleases`, `SignalReleasesAtMost`).
* **Codecs** (`Tagging`, `TaggingBuffer`, `Ipv6Text`, `Ipv6`, `Arc4`): the tagged wire format on the evbuffers above,
  with the exact condition under which a tag is read behind the bytes that were pulled up; IPv6 text (section 2.2 of
  RFC 4291), and the RC4 generator with its unbiased modulo.

`Wrappers` and `Bytes` hold what the others share. Where the source mutates, the model does: classes and arrays with
methods, each proved against a function of the old state or against the property itself. Times are integers
(microseconds), C integers are unbounded except where a width is written out. The comment at event_tagging.c:78-83
describes tags as concatenated in reading order; the code writes the lowest seven bits first, and the model follows the
code.

Check everything with `dafny verify dfyconfig.toml`.

## Model

| member | source | states |
|---|---|---|
| `Chains.Align` | codes/libevent-2.0.21-stable/buffer.c:1694-1701 | moving the data of a chain to the front of its block keeps the data and the block size |
| `Chains.Append` | codes/libevent-2.0.21-stable/buffer.c:1558-1568 | bytes copied behind the data of a chain are appended to its data; the room before it stays |
| `Chains.Prepend` | codes/libevent-2.0.21-stable/buffer.c:1646-1655 | bytes copied into the misalignment space come before the data; nothing else moves |
| `Chains.DropFront` | codes/libevent-2.0.21-stable/buffer.c:1003-1007 | moving misalign up and off down drops exactly the first bytes of the data |
| `Chains.AllocationSize` | codes/libevent-2.0.21-stable/buffer.c:159-166 | the doubled size holds the header and the request, is at least the minimum, and is less than twice what was asked |
| `Chains.NewChain` | codes/libevent-2.0.21-stable/buffer.c:154-181 | a fresh chain is empty, aligned, and has at least the room asked for |
| `Evbuffers.InsertVerdict` | codes/libevent-2.0.21-stable/buffer.c:282-311 | a chain with data put in by evbuffer_chain_insert leaves the list well kept if and only if there was no empty victim, or the victim was the cursor's own chain and nothing behind it had data |
| `Evbuffers.AddVerdict` | codes/libevent-2.0.21-stable/buffer.c:1533-1617 | exactly when evbuffer_add leaves the cursor right, in terms of the chain list before the call |
| `Evbuffers.Evbuffer.TightMeansNoEmptyChain` | codes/libevent-2.0.21-stable/evbuffer-internal.h:84-96 | the Tight invariant says: no empty chain, except that a buffer without data may have one |
| `Evbuffers.Evbuffer.ChainInsert` | codes/libevent-2.0.21-stable/buffer.c:282-311 | the new chain list, cursor, `last` and total length, for any list, stuck ones included: trailing empty chains from the first victim on, and everything behind, are replaced |
| `Evbuffers.Evbuffer.Add` | codes/libevent-2.0.21-stable/buffer.c:1533-1617 | appends the bytes; the buffer is still well kept if and only if it was and AddSafe held before the call, so a cursor that is stuck before an empty chain is never put right; Tight is kept |
| `Evbuffers.Evbuffer.Prepend` | codes/libevent-2.0.21-stable/buffer.c:1619-1691 | the bytes come before the contents, through all three paths (room in front, empty first chain, new chain); last_with_datap == &first becomes the new chain's next pointer; both invariants kept; refused if the start is frozen |
| `Evbuffers.Evbuffer.AddBuffer` | codes/libevent-2.0.21-stable/buffer.c:858-902 | all contents move behind the other buffer's, which is left empty; the same chain and the frozen cases included; Valid and Tight kept on both, so both cursors and both `last` are right |
| `Evbuffers.Evbuffer.PrependBuffer` | codes/libevent-2.0.21-stable/buffer.c:904-948 | all contents move in front of the other buffer's; the same for the rest |
| `Evbuffers.Evbuffer.CopyChain` | codes/libevent-2.0.21-stable/buffer.c:812-824 | the buffer takes over list, cursor, last and length, by the source's test on &src->first |
| `Evbuffers.Evbuffer.AppendChain` | codes/libevent-2.0.21-stable/buffer.c:826-838 | the list behind the other; the cursor designates the chain that src's did, &dst->last->next if that was src's first; last is src's last |
| `Evbuffers.Evbuffer.PrependChain` | codes/libevent-2.0.21-stable/buffer.c:840-855 | the list in front of the other; the three cursor branches leave it on the chain it designated; last is the final chain exactly if dst had chains |
| `Evbuffers.Evbuffer.ZeroChain` | codes/libevent-2.0.21-stable/buffer.c:737-745 | an empty, tight buffer |
| `EvbufferLinks.LinksPush` | codes/libevent-2.0.21-stable/buffer.c:1669-1676 | a cursor at &buf->first must become the new first chain's next pointer, and any other may stay |
| `EvbufferLinks.LinksAfter` | codes/libevent-2.0.21-stable/buffer.c:826-838 | with the branch of APPEND_CHAIN the cursor points at the pointer to the same chain of the joined list, and `last` at its end |
| `EvbufferLinks.LinksBefore` | codes/libevent-2.0.21-stable/buffer.c:840-855 | the same for PREPEND_CHAIN |
| `EvbufferLinks.LinksDrop` | codes/libevent-2.0.21-stable/buffer.c:976-1008 | freeing the first chains: a cursor in one of them, or at the pointer to the new first, must be &buf->first |
| `EvbufferLinks.LinksGather` | codes/libevent-2.0.21-stable/buffer.c:1240-1275 | where the cursor must point once the first chains are gathered into one, as the removed-chain flags decide |
| `Evbuffers.Evbuffer.Drain` | codes/libevent-2.0.21-stable/buffer.c:950-1017 | drops exactly the first len bytes, or all; cursor, total length and both invariants kept, also with empty chains in the list |
| `Evbuffers.Evbuffer.DrainSome` | codes/libevent-2.0.21-stable/buffer.c:976-1008 | the loop that frees whole chains and cuts the next |
| `Evbuffers.Evbuffer.Copyout` | codes/libevent-2.0.21-stable/buffer.c:1034-1078 | the first bytes, across chains, as many as asked for or there are; -1 exactly if frozen and any were wanted |
| `Evbuffers.Evbuffer.Remove` | codes/libevent-2.0.21-stable/buffer.c:1020-1032 | the bytes handed out and the contents left are together the contents before |
| `Evbuffers.Evbuffer.AdvanceLastWithData` | codes/libevent-2.0.21-stable/buffer.c:645-659 | the cursor moves over chains with data and stops before the first empty one, at RunEnd |
| `Evbuffers.Evbuffer.TakeChains` | codes/libevent-2.0.21-stable/buffer.c:1130-1147 | whole chains, with or without data, spliced on behind the last data append their bytes; the cursor is then right if no data is left behind where it stops, and stuck otherwise |
| `Evbuffers.Evbuffer.WholeChains` | codes/libevent-2.0.21-stable/buffer.c:1116-1128 | for any list: the chain where byte datlen stands, how many bytes the chains before it hold, what remains to be copied, and the pointer the loop leaves in last_with_datap |
| `Evbuffers.Evbuffer.RemoveBuffer` | codes/libevent-2.0.21-stable/buffer.c:1083-1171 | the first bytes move from one buffer to the end of the other, whole chains by splicing and the rest by copying; for all well kept buffers, the receiving cursor is right afterwards if and only if MoveSafe, and the giving one if and only if KeepsOwnCursor; then nothing is lost or doubled |
| `Evbuffers.Evbuffer.DenseMoves` | codes/libevent-2.0.21-stable/buffer.c:1115-1128 | with no empty chain before the giving cursor that cursor stays right, and the receiving one exactly if the first chain moves whole or AddSafe holds |
| `Evbuffers.Evbuffer.CutFront` | codes/libevent-2.0.21-stable/buffer.c:1130-1159 | the rest of the giving buffer, whether or not src->first moves; its cursor is wrong exactly if empty chains came first and all data was in the cursor's chain |
| `Evbuffers.EmptyStops` | codes/libevent-2.0.21-stable/buffer.c:645-659 | an empty chain with data behind it among the moved ones, other than the first, always stops the receiving cursor |
| `Evbuffers.Evbuffer.Pullup` | codes/libevent-2.0.21-stable/buffer.c:1173-1283 | the contents do not change, and afterwards the first `size` bytes stand in the first chain; fails exactly if size is 0 or more than there is |
| `Evbuffers.Evbuffer.GatherFront` | codes/libevent-2.0.21-stable/buffer.c:1200-1276 | the general case of pullup: chains gathered into one, the cursor repaired by the two removed-chain flags |
| `EvbufferRead.ExpandFast` | codes/libevent-2.0.21-stable/buffer.c:1830-1935 | the contents do not change, and from the first chain with room on, at most n chains have room for datlen bytes |
| `EvbufferRead.CountRoom` | codes/libevent-2.0.21-stable/buffer.c:1851-1877 | the scan for room: what the chains from the cursor on hold, and that a short scan ended at the end of the list |
| `EvbufferRead.ReadSetupVecs` | codes/libevent-2.0.21-stable/buffer.c:2001-2035 | never leaves the chain list; at most the given number of vectors, inside the chains' free room, with sum exactly howmuch (or at least that, if not exact) |
| `EvbufferRead.Readv` | codes/libevent-2.0.21-stable/buffer.c:2091-2123 | what a scattered read of any bytes does: the contents do not change, the vectors hold the bytes |
| `EvbufferRead.CommitRead` | codes/libevent-2.0.21-stable/buffer.c:2153-2172 | committing any 0 < k <= howmuch bytes appends exactly the first k bytes of the vectors and restores the Loose invariant |
| `EvbufferRead.Read` | codes/libevent-2.0.21-stable/buffer.c:2057-2180 | clip by FIONREAD, expand, set up, read and commit together: exactly the bytes that arrived are appended, from every Loose buffer; nothing changes if the read fails or the end is frozen; what a short read leaves behind |
| `EvbufferRead.ExpandChains` | codes/libevent-2.0.21-stable/buffer.c:1851-1935 | the case of a list with chains: room behind the data, one more chain, or all empty chains replaced by one |
| `EvbufferRead.CommitVecs` | codes/libevent-2.0.21-stable/buffer.c:2153-2172 | the commit loop on the vectors: what each chain gets, and the chain where the cursor ends |
| `EvbufferRuns.ShortReadBreaksAdd` | codes/libevent-2.0.21-stable/buffer.c:1547-1568 | for every buffer whose last chain has data: a read that asks for more than that chain has room for and brings nothing, and then evbuffer_add of one byte, leave the cursor wrong |
| `EvbufferRuns.AddAfterShortReadMissesCursor` | codes/libevent-2.0.21-stable/buffer.c:1547-1568 | it happens to a new buffer, by two reads and one evbuffer_add |
| `EvbufferRuns.TrailingChainSpoilsMove` | codes/libevent-2.0.21-stable/buffer.c:1115-1147 | for every buffer with an empty chain behind its data: once two others are appended to it, moving the bytes of the first two to any fourth buffer leaves that one's cursor wrong |
| `EvbufferRuns.ShortReadSpoilsMove` | codes/libevent-2.0.21-stable/buffer.c:1115-1147 | it happens to new buffers, after a short read |
| `EvbufferRuns.Step` | codes/libevent-2.0.21-stable/buffer.c:858-1283 | each operation on Tight buffers does to the contents what the same operation does to plain byte sequences |
| `EvbufferRuns.StepLoose` | codes/libevent-2.0.21-stable/buffer.c:950-1283 | the same on Loose buffers, for all operations but add and remove_buffer, with evbuffer_read |
| `EvbufferRuns.Run` | codes/libevent-2.0.21-stable/buffer.c:858-1701 | every run of add, prepend, add_buffer, prepend_buffer, drain, copyout, remove, remove_buffer, pullup and freeze on two Tight buffers refines the run on two byte sequences and stays Tight |
| `EvbufferRuns.RunLoose` | codes/libevent-2.0.21-stable/buffer.c:2057-2180 | every run with evbuffer_read and without add and remove_buffer refines the run on byte sequences and stays Loose |
| `EvbufferSearch.PtrMemcmp` | codes/libevent-2.0.21-stable/buffer.c:2456-2488 | -1 if the buffer ends before the text does, else the sign with which the flattened contents at the pointer compare with the text, across chains; zero exactly for a match |
| `EvbufferSearch.SearchRange` | codes/libevent-2.0.21-stable/buffer.c:2496-2559 | the leftmost match at or after start, ending by `end` if given, in the flattened contents, across chains and empty chains; -1 exactly if there is none |
| `EvbufferLines.PtrSet` | codes/libevent-2.0.21-stable/buffer.c:2410-2450 | the pointer to absolute position n, or n further on, exactly if there is a byte there |
| `EvbufferLines.FindEolChar` | codes/libevent-2.0.21-stable/buffer.c:1317-1342 | the scan in chunks of 128 bytes finds the first CR or LF, as a naive scan does |
| `EvbufferLines.FindStop` | codes/libevent-2.0.21-stable/buffer.c:1295-1364 | evbuffer_strchr and evbuffer_find_eol_char: the first such byte from the pointer on, across chains |
| `EvbufferLines.Strspn` | codes/libevent-2.0.21-stable/buffer.c:1366-1403 | the length of the run of CR and LF from the pointer on, across chains |
| `EvbufferLines.Getchr` | codes/libevent-2.0.21-stable/buffer.c:1406-1413 | the byte of the contents at the pointer |
| `EvbufferLines.SearchEol` | codes/libevent-2.0.21-stable/buffer.c:1415-1488 | the leftmost line end of the style, and its length, as a naive reader of the contents defines them |
| `EvbufferLines.SearchCrlf` | codes/libevent-2.0.21-stable/buffer.c:1450-1467 | the loop for CRLF with optional CR: the leftmost LF, taken with a CR before it |
| `EvbufferLines.Readln` | codes/libevent-2.0.21-stable/buffer.c:1490-1527 | contents == line ++ line end ++ rest at the leftmost line end of the style; nothing happens exactly if there is none or the start is frozen |
| `EventQueues.HaveEventsExact` | codes/libevent-2.0.21-stable/event.c:1040-1045 | event_count is positive exactly if some user's event is on some queue |
| `EventQueues.InsertInsertedOk` | codes/libevent-2.0.21-stable/event.c:2572-2612 | inserting keeps flags equal to membership and both counts right |
| `EventQueues.RemoveInsertedOk` | codes/libevent-2.0.21-stable/event.c:2502-2539 | so does removing |
| `EventQueues.InsertActiveOk` | codes/libevent-2.0.21-stable/event.c:2572-2612 | the same for the active queues, with event_count_active the length of all of them |
| `EventQueues.RemoveActiveOk` | codes/libevent-2.0.21-stable/event.c:2502-2539 | so does removing from them |
| `EventQueues.InsertTimeoutOk` | codes/libevent-2.0.21-stable/event.c:2572-2612 | the same for the heap and the common-timeout lists: each event with the timeout flag is on exactly the one that its timeout names |
| `EventQueues.RemoveTimeoutOk` | codes/libevent-2.0.21-stable/event.c:2502-2539 | so does removing from them |
| `EventQueues.InsertInOrder` | codes/libevent-2.0.21-stable/event.c:2542-2570 | the walk from the back puts the event where the specification InOrder does |
| `EventQueues.InOrderSorted` | codes/libevent-2.0.21-stable/event.c:2542-2570 | the list stays in order of deadlines |
| `EventQueues.InOrderHead` | codes/libevent-2.0.21-stable/event.c:2542-2570 | the new head is the event itself or the old head |
| `EventTimers.RemoveKeepsTimers` | codes/libevent-2.0.21-stable/event.c:2502-2539 | taking an event off its timeout queue leaves every list sorted and its timer active or early enough |
| `EventTimers.InsertKeepsTimers` | codes/libevent-2.0.21-stable/event.c:2572-2612 | putting one on leaves them so too, except possibly for its own list's timer, and that only if the event came first |
| `EventBases.EventBase.constructor` | codes/libevent-2.0.21-stable/event.c:1006-1034 | a new base satisfies every invariant |
| `EventBases.EventBase.DelInternal` | codes/libevent-2.0.21-stable/event.c:2196-2268 | the event is off all its queues, a running loop of its signal calls is aborted, nothing else changes, and all invariants hold |
| `EventBases.EventBase.ActiveNolock` | codes/libevent-2.0.21-stable/event.c:2288-2327 | the event joins the end of the queue of its priority unless it is active; a signal event gets its number of calls; event_continue is set exactly for a priority before the running one |
| `EventBases.EventBase.Reschedule` | codes/libevent-2.0.21-stable/event.c:2089-2165 | the timeout part of adding: old timeout and timeout-caused activity gone, new deadline waited for; only the list's own timer may then be late |
| `EventBases.EventBase.Schedule` | codes/libevent-2.0.21-stable/event.c:1144-1151 | the timer waits for the first event of its list; with that every list is covered again |
| `EventBases.EventBase.TimeoutProcess` | codes/libevent-2.0.21-stable/event.c:2475-2499 | exactly the events on the heap that are due become active, signal events with one call; all others are as before |
| `EventBases.EventBase.PopDue` | codes/libevent-2.0.21-stable/event.c:1163-1172 | exactly the events of one list that are due become active, signal events with one call |
| `EventBases.EventBase.CommonCallback` | codes/libevent-2.0.21-stable/event.c:1156-1177 | the same, and the timer is set for the first of the others, so that every list is covered |
| `EventBases.EventBase.Round` | codes/libevent-2.0.21-stable/event.c:2475-2499 | timeout_process and then the callbacks of the active list timers at one time activate exactly the user's events with deadline <= now, on whatever queue they wait, and change no other user's event: what a base with all timeouts in the heap would do |
| `EventBases.EventBase.AddInternal` | codes/libevent-2.0.21-stable/event.c:2026-2174 | the event's new flags, deadline and repeat interval; nothing changes exactly if the backend refuses; no other user's event changes; all invariants hold, so the list's timer is early enough |
| `EventBases.EventBase.Del` | codes/libevent-2.0.21-stable/event.c:2176-2193 | event_del keeps all invariants and touches no other event |
| `EventBases.EventBase.Active` | codes/libevent-2.0.21-stable/event.c:2270-2285 | event_active: the queue, event_continue and the number of calls afterwards |
| `EventBases.EventBase.PrioritySet` | codes/libevent-2.0.21-stable/event.c:1829-1842 | refused exactly for an active event or a priority out of range, so no event is ever on a queue of another priority than its own |
| `EventBases.EventBase.Assign` | codes/libevent-2.0.21-stable/event.c:1717-1762 | a new event, or one that is on no queue set up again, is on no queue and has the middle priority and no interval |
| `EventBases.EventBase.InitCommonTimeout` | codes/libevent-2.0.21-stable/event.c:1181-1253 | one list per duration, at most 256; a new list is empty and has its own internal timer at priority 0 |
| `EventBases.EventBase.TimeoutCorrect` | codes/libevent-2.0.21-stable/event.c:2422-2472 | when the clock went back, every pending deadline goes back just as far, list timers included, and all lists stay sorted and covered |
| `EventBases.EventBase.Repeat` | codes/libevent-2.0.21-stable/event.c:1256-1299 | a persistent event waits again for RunAt; its interval is of the same common timeout, as the source asserts |
| `EventSteps.RunAt` | codes/libevent-2.0.21-stable/event.c:1269-1295 | an interval after the last deadline if a timeout fired and that is not past, and never before now |
| `EventBases.EventBase.PersistClosure` | codes/libevent-2.0.21-stable/event.c:1256-1302 | the callback runs after that, while no queue before its own has events |
| `EventBases.EventBase.SignalClosure` | codes/libevent-2.0.21-stable/event.c:1048-1076 | the callback runs at most ncalls times, and just that often if it does nothing itself; its first call is no priority inversion; with two calls or more and a first call that activates an earlier event, the second one is |
| `EventBases.EventBase.ProcessQueue` | codes/libevent-2.0.21-stable/event.c:1311-1370 | the first callback to start is that of the queue's head; none starts while a queue before p has events; if only internal events ran, it was queue 0 and it is empty |
| `EventBases.EventBase.ProcessActive` | codes/libevent-2.0.21-stable/event.c:1409-1435 | the first callback to start is that of the head of the first queue with events; if no stored or requested call count is over one, none ever starts while a queue before its own has events, whatever the callbacks do |
| `EventBases.EventBase.OneQueue` | codes/libevent-2.0.21-stable/event.c:1418-1432 | the same for one queue, from any point of the pass over the queues |
| `EventSteps.NoneAgainNoInversion` | codes/libevent-2.0.21-stable/event.c:1048-1076 | starts of which none is a repeated call are all without inversion |
| `EventBases.EventBase.RunInternal` | codes/libevent-2.0.21-stable/event.c:1313-1352 | a list timer taken off its queue runs its callback: exactly the due events of its list become active |
| `EventBases.EventBase.RunUser` | codes/libevent-2.0.21-stable/event.c:1313-1352 | a user's event taken off its queue is the next to have its callback started |
| `EventBases.EventBase.Turn` | codes/libevent-2.0.21-stable/event.c:1599-1628 | dispatch, timeout_process and event_process_active in one turn: the head of the first queue with events starts; no inversion with single calls; and for any base whose callbacks do nothing, a turn at one time that works queue 0 off has activated exactly the user's events that were due, on the heap or on any common-timeout list, and no other (TurnExact) |
| `EventBases.EventBase.WaitAndFire` | codes/libevent-2.0.21-stable/event.c:1599-1615 | the part of the turn before the callbacks: exactly the due events of the heap are active, and the turn's invariant holds |
| `EventTurns.UserStep` | codes/libevent-2.0.21-stable/event.c:1313-1352 | running a user's event keeps the turn's invariant: of the events not yet started, only due ones changed |
| `EventTurns.TimerStep` | codes/libevent-2.0.21-stable/event.c:1156-1177 | so does running a list's timer |
| `EventTurns.TurnEnds` | codes/libevent-2.0.21-stable/event.c:2475-2499 | when queue 0 is empty no list timer is left to run, so no event is due any more and exactly the due ones fired |
| `EventBases.EventBase.Loop` | codes/libevent-2.0.21-stable/event.c:1536-1638 | over whole runs of the loop, for arbitrary callbacks, dispatches and clock readings: if no stored or requested call count is over one, no start of a callback is a priority inversion; the first callback of the first turn is that of the head of the first queue with events; it reports that there is nothing to wait for only if no user's event is on any queue, and does so at once if none is |
| `EventBases.EventBase.Do` | codes/libevent-2.0.21-stable/event.c:2026-2327 | every public call, from any callback, keeps every invariant |
| `EventBases.Overtakes` | codes/libevent-2.0.21-stable/event.c:1048-1076 | the converse: any signal event that does not have the first priority, activated for two calls or more, and any inactive user's event of an earlier priority: some run of event_base_loop starts the second call while the other event waits on an earlier queue |
| `EventBases.SecondCallOvertakes` | codes/libevent-2.0.21-stable/event.c:1048-1076 | such a run from a new base |
| `Epoll.ApplyOne` | codes/libevent-2.0.21-stable/epoll.c:173-330 | every epoll_ctl chosen is legal (ADD only when unregistered, MOD and DEL only when registered), gives the fd exactly the wanted interest and changes no other |
| `Epoll.CoalesceStep` | codes/libevent-2.0.21-stable/evmap.c:646-726 | recording one more add or delete in a pending change makes it ask for what the call asks for |
| `Epoll.CoalescingKeepsMeaning` | codes/libevent-2.0.21-stable/evmap.c:646-726 | for any sensible sequence of calls on an fd, applying the coalesced change leaves the kernel as applying each call at once does |
| `Epoll.ImmediateRun` | codes/libevent-2.0.21-stable/epoll.c:351-383 | the backend without changelist gives the fd the interest that the calls add up to |
| `Evmap.IoBase.MakeSpace` | codes/libevent-2.0.21-stable/evmap.c:201-223 | the table grows without losing an entry |
| `Evmap.IoBase.Grow` | codes/libevent-2.0.21-stable/evmap.c:589-609 | the changelist grows without losing a change |
| `Evmap.IoBase.GetOrConstruct` | codes/libevent-2.0.21-stable/evmap.c:615-644 | the fd's own entry in the changelist, a new one at the end if it has none; entries and back-indices stay a bijection |
| `Evmap.IoBase.BackendCall` | codes/libevent-2.0.21-stable/evmap.c:646-726 | the pending change (or the kernel) now asks for what the call makes of the fd's interest |
| `Evmap.IoBase.IoAdd` | codes/libevent-2.0.21-stable/evmap.c:262-331 | the event joins the fd's list; refused exactly at the limit of readers or writers; 1 exactly if it is the first reader or the first writer; a negative fd changes nothing; counts equal the events, and the kernel plus the pending change equal (nread > 0, nwrite > 0) |
| `Evmap.IoBase.IoDel` | codes/libevent-2.0.21-stable/evmap.c:335-387 | the event leaves the fd's list; 1 exactly if it was the last reader or writer; -1 exactly for an fd behind the table, and then and for a negative fd nothing changes; the same invariants |
| `Evmap.IoBase.ApplyChanges` | codes/libevent-2.0.21-stable/epoll.c:332-349 | afterwards the kernel's interest in every fd is (nread > 0, nwrite > 0) |
| `Evmap.IoBase.RemoveAll` | codes/libevent-2.0.21-stable/evmap.c:559-578 | no back-index is left, and nothing else changed |
| `Evmap.IoBase.Dispatch` | codes/libevent-2.0.21-stable/epoll.c:385-404 | apply, then clear: kernel exact, no changes pending |
| `Evmap.KernelsAgree` | codes/libevent-2.0.21-stable/evmap.c:262-387 | two bases with the same events and nothing pending have the same kernel set |
| `Evmap.RunBoth` | codes/libevent-2.0.21-stable/epoll.c:332-383 | for every sequence of adds, deletes and dispatches on every fd: the immediate backend's kernel is right after every step, and the changelist's kernel is the same after every dispatch |
| `DnsNames.PointerRoundTrip` | codes/libevent-2.0.21-stable/evdns.c:1604-1607 | a compression pointer carries the offset if and only if it has at most 14 bits |
| `DnsNames.ParseSound` | codes/libevent-2.0.21-stable/evdns.c:935-989 | on any packet: the name with its NUL fits the output, it consists of labels that lie inside the packet, and the index strictly advances and stays within the packet |
| `DnsNames.ParseEncoded` | codes/libevent-2.0.21-stable/evdns.c:935-989 | whatever encodes a name, through any number of backward pointers, is parsed to that name and its end |
| `DnsNames.PrintEncodes` | codes/libevent-2.0.21-stable/evdns.c:1577-1641 | what the printer writes encodes the name, every pointer in it points strictly backwards, and the table tells the truth about the longer packet |
| `DnsNames.RoundTrip` | codes/libevent-2.0.21-stable/evdns.c:1577-1641 | for any list of names encoded in turn with one table, any bytes before and between them: parsing at each start gives the name and its end index |
| `DnsCodec.NameParse` | codes/libevent-2.0.21-stable/evdns.c:935-989 | the loop terminates on every packet (jumps left, bytes left) and computes the specification; the copy of a label reads outside the packet if and only if Overrun says so, and then the parse fails; bounds of name and index |
| `DnsCodec.CopyLabel` | codes/libevent-2.0.21-stable/evdns.c:970-979 | the copy itself: which bytes, and that it goes past the packet exactly if the label does |
| `DnsNames.CanOverrun` | codes/libevent-2.0.21-stable/evdns.c:962-979 | what a caller can look for: some name in a packet makes the parser read behind the packet if and only if some byte of it, taken as a label length, reaches behind it |
| `DnsNames.OverrunFails` | codes/libevent-2.0.21-stable/evdns.c:944-979 | a parse that read outside the packet returns an error |
| `DnsNames.OneByteOverruns` | codes/libevent-2.0.21-stable/evdns.c:962-979 | the packet with the one byte 63 makes it happen |
| `DnsCodec.LabelTable.GetPos` | codes/libevent-2.0.21-stable/evdns.c:1537-1546 | the position of the first entry with that text, or -1 |
| `DnsCodec.LabelTable.Add` | codes/libevent-2.0.21-stable/evdns.c:1549-1564 | appends an entry unless there are 128 |
| `DnsCodec.LabelStep` | codes/libevent-2.0.21-stable/evdns.c:1604-1630 | one turn of the loop writes what one step of the specification prints, or finds too little room, or writes its final zero at buf_len and says so |
| `DnsCodec.ToLabels` | codes/libevent-2.0.21-stable/evdns.c:1577-1641 | writes exactly the specified bytes and table, for every buffer of exactly buf_len bytes; -1 only for a label over 63 bytes, -2 only for a name over 255 bytes or too little room; a zero byte lands at buf_len, one behind the buffer, if and only if the encoding ends in a label and an added zero and is one byte longer than the room; never if j + |name| + 2 <= buf_len |
| `DnsCodec.OneLetterStrays` | codes/libevent-2.0.21-stable/evdns.c:1631-1639 | the name "a" and two bytes of room: the encoding is 1, 97, 0 |
| `DnsCodec.OneLetter` | codes/libevent-2.0.21-stable/evdns.c:1577-1641 | running the encoder on them returns 3, with the stray byte |
| `CondVar.NextInv` | codes/libevent-2.0.21-stable/evthread_win32.c:215-295 | every step of every thread keeps the invariant (n_waiting is the number of threads in the loop; wakeups owed imply the event is set) |
| `CondVar.RunInv` | codes/libevent-2.0.21-stable/evthread_win32.c:215-295 | so it holds in every state of every interleaving of unboundedly many threads |
| `CondVar.NoLostWakeup` | codes/libevent-2.0.21-stable/evthread_win32.c:230-295 | in every run: while wakeups are owed, a waiter from before the signal is not blocked for good, and when it checks it leaves with success |
| `CondVar.BroadcastReachesAll` | codes/libevent-2.0.21-stable/evthread_win32.c:215-228 | from a broadcast to the next signal, n_to_wake covers all waiters from before it that still wait, and each of them that checks leaves |
| `CondVar.WakeupsConserved` | codes/libevent-2.0.21-stable/evthread_win32.c:215-295 | in every run without broadcasts, wakeups taken plus wakeups left are wakeups there before plus signals: none is lost or made up |
| `CondVar.SignalReleasesAtMost` | codes/libevent-2.0.21-stable/evthread_win32.c:215-295 | no run up to the next signal wakes more threads than Releases: for a broadcast all that wait, for a single signal its own wakeup and all left over, as far as somebody waits |
| `CondVar.SignalReleases` | codes/libevent-2.0.21-stable/evthread_win32.c:215-295 | and some run wakes just as many, from every state that satisfies the invariant |
| `CondVar.SignalToNobody` | codes/libevent-2.0.21-stable/evthread_win32.c:215-228 | a signal that finds nobody waiting is kept: until the next signal it wakes nobody, and then two threads may go |
| `CondVar.OneSignalReleasesTwo` | codes/libevent-2.0.21-stable/evthread_win32.c:215-295 | from a new condition variable: two waiters that one signal can release |
| `CondVar.EventStaysSet` | codes/libevent-2.0.21-stable/evthread_win32.c:272-292 | between signals the event is reset exactly by a waiter that saw it, must wait on and finds no wakeup left, or by a leaving thread that finds nobody waiting |
| `CondVar.LateWaiterSpins` | codes/libevent-2.0.21-stable/evthread_win32.c:246-280 | while a wakeup is left over and the event set, a later waiter does not block: each look takes it back to exactly the state before |
| `TokenBuckets.RefillExact` | codes/libevent-2.0.21-stable/bufferevent_ratelim.c:95-104 | the division test gives min(maximum, limit + ticks * rate) in 64-bit arithmetic if and only if the limit is at most the maximum, or the tokens reach round to it |
| `TokenBuckets.CfgNew` | codes/libevent-2.0.21-stable/bufferevent_ratelim.c:142-157 | which configurations are refused |
| `TokenBuckets.TokenBucket.constructor` | codes/libevent-2.0.21-stable/bufferevent_ratelim.c:64-67 | a fresh bucket holds one tick's worth |
| `TokenBuckets.TokenBucket.Reinit` | codes/libevent-2.0.21-stable/bufferevent_ratelim.c:48-63 | a new configuration only clips the limits, and the clipped bucket meets what the update needs |
| `TokenBuckets.TokenBucket.Update` | codes/libevent-2.0.21-stable/bufferevent_ratelim.c:72-110 | both limits are min(maximum, limit + ticks * rate) without overflow; no change exactly if no tick passed or time went back |
| `TokenBuckets.TokenBucket.ReadMax` | codes/libevent-2.0.21-stable/bufferevent_ratelim.c:226-229 | the amount granted to a connection with a bucket of its own |
| `TokenBuckets.TokenBucket.Run` | codes/libevent-2.0.21-stable/bufferevent_ratelim.c:72-110 | over every run of reads within what was granted, whatever the clock does: bytes used are at most the maximum plus the rate for each accepted tick |
| `TokenBuckets.AcceptedIsProgress` | codes/libevent-2.0.21-stable/bufferevent_ratelim.c:77-84 | seen through 32 bits, a clock that wraps and rolls back makes a bucket accept just the ticks by which it got ahead |
| `RateGroups.MinShare` | codes/libevent-2.0.21-stable/bufferevent_ratelim.c:699-718 | the minimum share is at most both rates, and positive exactly if the configured one is |
| `RateGroups.MemberMax` | codes/libevent-2.0.21-stable/bufferevent_ratelim.c:199-260 | a member of a group with a positive limit and minimum share may transfer something exactly if the group is not suspended (and its own bucket allows it), never more than its own bucket; above the minimum share, all members together stay within the group's limit |
| `RateGroups.NewShape` | codes/libevent-2.0.21-stable/bufferevent_ratelim.c:637-666 | a new group satisfies the invariants |
| `RateGroups.NextShape` | codes/libevent-2.0.21-stable/bufferevent_ratelim.c:731-806 | members, counts and phases stay consistent through joins and leaves in two critical sections |
| `RateGroups.NextForgetsNobody` | codes/libevent-2.0.21-stable/bufferevent_ratelim.c:350-373 | no step, with any try-lock failing, leaves a suspended member that neither the suspended group, nor the pending bit, nor the running loop accounts for |
| `RateGroups.NextPositive` | codes/libevent-2.0.21-stable/bufferevent_ratelim.c:297-556 | among all the steps of all the threads, exactly a refill that LetsGoEmpty takes the positive limit away from a group that is not suspended |
| `RateGroups.RefillLetsGoEmpty` | codes/libevent-2.0.21-stable/bufferevent_ratelim.c:527-556 | the refill does that if and only if the group was suspended, the minimum share is configured to zero and the refilled limit is zero |
| `RateGroups.ZeroShareGoesEmpty` | codes/libevent-2.0.21-stable/bufferevent_ratelim.c:527-556 | a run in which it does |
| `RateGroups.NoStuckMember` | codes/libevent-2.0.21-stable/bufferevent_ratelim.c:297-556 | both in every run: a member with BEV_SUSPEND_BW_GROUP implies that the group is suspended or has its pending bit set |
| `RateGroups.LoopReaches` | codes/libevent-2.0.21-stable/bufferevent_ratelim.c:486-503 | a loop does its work on exactly the members it could lock and remembers if it missed any |
| `RateGroups.RefillFreesAll` | codes/libevent-2.0.21-stable/bufferevent_ratelim.c:527-556 | with no lock held, a refill that wakes the group leaves no member suspended and nothing pending |
| `RateGroups.RandomElement` | codes/libevent-2.0.21-stable/bufferevent_ratelim.c:444-464 | the member at position random % n_members, none exactly in an empty group |
| `RateGroups.Visit` | codes/libevent-2.0.21-stable/bufferevent_ratelim.c:466-484 | the rotated walk visits each member exactly once |
| `Tagging.DigitsFit` | codes/libevent-2.0.21-stable/event_tagging.c:106-113 | a number needs at most k nibbles exactly if it is below 16^k |
| `Tagging.IntRoundTrip` | codes/libevent-2.0.21-stable/event_tagging.c:115-148 | the nibble code is a self-delimiting inverse on all 32-bit and all 64-bit numbers, whatever follows |
| `Tagging.TagRoundTrip` | codes/libevent-2.0.21-stable/event_tagging.c:171-231 | so is the base-128 code of tags, lowest digit first |
| `Tagging.UnmarshalMarshal` | codes/libevent-2.0.21-stable/event_tagging.c:245-252 | what was marshalled comes back and nothing that follows is touched |
| `Tagging.StreamRoundTrip` | codes/libevent-2.0.21-stable/event_tagging.c:245-252 | any sequence of tags and payloads below 2^31 bytes comes back, and the buffer is empty |
| `Tagging.PeekIsConsume` | codes/libevent-2.0.21-stable/event_tagging.c:386-447 | evtag_consume succeeds exactly if the buffer holds what evtag_peek_length says, and removes just that, for payloads of any length |
| `Tagging.NegativeExactly` | codes/libevent-2.0.21-stable/event_tagging.c:422-436 | the length that evtag_unmarshal_header returns is negative without being its error value exactly if the buffer holds a payload of 2^31 bytes or more, but not of 2^32 - 1 |
| `TaggingBuffers.EncodeInt` | codes/libevent-2.0.21-stable/event_tagging.c:115-136 | the loop over nibbles writes the specified bytes and stays inside its 5- or 9-byte buffer |
| `TaggingBuffers.DecodeInt` | codes/libevent-2.0.21-stable/event_tagging.c:304-334 | the specified number and length at an offset, the contents unchanged, on any well kept buffer |
| `TaggingBuffers.Collect` | codes/libevent-2.0.21-stable/event_tagging.c:323-330 | the loop from the highest nibble down |
| `TaggingBuffers.EncodeTag` | codes/libevent-2.0.21-stable/event_tagging.c:171-192 | appends the specified bytes, at most five, unless the end is frozen; the cursor stays right if and only if AddSafe |
| `TaggingBuffers.DecodeTag` | codes/libevent-2.0.21-stable/event_tagging.c:194-231 | the specified tag modulo 2^32, and the drain, frozen buffers included; the loop reads behind the bytes it pulled up if and only if the tag does not end within five bytes and the buffer goes on |
| `TaggingBuffers.ReadTag` | codes/libevent-2.0.21-stable/event_tagging.c:210-224 | the loop with its own bound: it reads behind the contiguous bytes exactly if the tag does not end in them |
| `TaggingBuffers.SixBytesOutOfReach` | codes/libevent-2.0.21-stable/event_tagging.c:194-231 | six bytes of 128 are such a buffer |
| `TaggingBuffers.EncodeIntTo` | codes/libevent-2.0.21-stable/event_tagging.c:150-156 | appends the specified bytes unless the end is frozen; the cursor stays right if and only if AddSafe |
| `TaggingBuffers.Marshal` | codes/libevent-2.0.21-stable/event_tagging.c:245-252 | appends tag, length and payload |
| `TaggingBuffers.UnmarshalHeader` | codes/libevent-2.0.21-stable/event_tagging.c:422-436 | result, tag and what is left of the buffer, also after each kind of failure and of a frozen buffer; reads out of reach exactly as DecodeTag does |
| `TaggingBuffers.Unmarshal` | codes/libevent-2.0.21-stable/event_tagging.c:451-465 | the payload moves to the other buffer, also when either is frozen; the copy goes wrong exactly if the tag is out of reach or the length negative; dst's cursor stays right if and only if AddSafe |
| `TaggingBuffers.Consume` | codes/libevent-2.0.21-stable/event_tagging.c:438-447 | header and payload are gone, or only what was read of a bad header, and nothing of a frozen buffer; reads out of reach exactly as DecodeTag does |
| `TaggingBuffers.PeekLength` | codes/libevent-2.0.21-stable/event_tagging.c:386-402 | the specified length, the contents unchanged; reads out of reach exactly as DecodeTag does |
| `TaggingBuffers.ThereAndBack` | codes/libevent-2.0.21-stable/event_tagging.c:245-465 | the stream round trip on evbuffers |
| `Ipv6Text.TextRoundTrip` | codes/libevent-2.0.21-stable/evutil.c:1701-1786 | whichever run of zero words the text leaves out, parsing puts it back, at the start, in the middle or at the end |
| `Ipv6Text.V4RoundTrip` | codes/libevent-2.0.21-stable/evutil.c:1616-1633 | so for the two embedded IPv4 forms |
| `Ipv6Text.ScanQuadPrinted` | codes/libevent-2.0.21-stable/evutil.c:1719-1733 | the dotted part is read back |
| `Ipv6.FindGap` | codes/libevent-2.0.21-stable/evutil.c:1634-1651 | the gap is the first longest run of at least two zero words |
| `Ipv6.PrintWords` | codes/libevent-2.0.21-stable/evutil.c:1653-1669 | the loop prints the words and skips the gap |
| `Ipv6.Format` | codes/libevent-2.0.21-stable/evutil.c:1606-1670 | for every address, the text fits the 64-byte buffer and parses to that address |
| `Ipv6.Ntop` | codes/libevent-2.0.21-stable/evutil.c:1606-1674 | NULL exactly if the text is longer than the room, and the whole text exactly if there is more room than that; with just as much room as text, the last character is lost without an error |
| `Ipv6.ReadWords` | codes/libevent-2.0.21-stable/evutil.c:1735-1764 | the loop over words and gap computes the specification, and its writes stay inside words[8] |
| `Ipv6.MoveGap` | codes/libevent-2.0.21-stable/evutil.c:1771-1780 | words before the gap, zeros, words behind it, and the dotted part |
| `Ipv6.Pton` | codes/libevent-2.0.21-stable/evutil.c:1701-1786 | computes the specification; the branch that should be impossible is |
| `Ipv6.ThereAndBack` | codes/libevent-2.0.21-stable/evutil.c:1606-1786 | for every 128-bit address, printing and parsing gives it back |
| `Arc4.StepBijection` | codes/libevent-2.0.21-stable/arc4random.c:408-420 | a round is a bijection on all states (i, j, s), for any key byte |
| `Arc4.RoundsBijection` | codes/libevent-2.0.21-stable/arc4random.c:106-121 | so is any number of rounds with any data, and they keep s a permutation |
| `Arc4.Stream.constructor` | codes/libevent-2.0.21-stable/arc4random.c:95-104 | s starts as the identity, a permutation |
| `Arc4.Stream.AddRandom` | codes/libevent-2.0.21-stable/arc4random.c:106-121 | 256 rounds with the data, i back where it was less one, j equal to it, s a permutation |
| `Arc4.Stream.GetByte` | codes/libevent-2.0.21-stable/arc4random.c:408-420 | one round, and the byte that its state puts out |
| `Arc4.Stream.GetWord` | codes/libevent-2.0.21-stable/arc4random.c:422-433 | four rounds, the first byte the highest |
| `Arc4.MinIsRemainder` | codes/libevent-2.0.21-stable/arc4random.c:513-523 | the 32-bit computation of min equals 2^32 modulo the bound |
| `Arc4.NoModuloBias` | codes/libevent-2.0.21-stable/arc4random.c:505-538 | every residue is given by exactly 2^32 / bound accepted words |
| `Arc4.Uniform` | codes/libevent-2.0.21-stable/arc4random.c:505-538 | the first accepted word decides; the words before it were all below min |

## Left out

- evbuffer chains: a chain's address and its place in the list are separate from its memory, which is a sequence of bytes; the next pointers are the order of the list.
- evbuffer: pinned, reference, mmap and sendfile chains, callbacks and their counters, locks, evbuffer_write, evbuffer_expand and reserve/commit of space, allocation failure, and lengths near the top of size_t. Assertions of the source are not modelled as aborts; where a list would fail one, the model says what the code then does.
- evbuffer_ptr_set with a negative or overflowing position, which the signed type of the source's argument rules out.
- TaggingBuffers.DecodeTag: says nothing of the tag once the loop has read behind the bytes it pulled up, because that memory is not the buffer's.
- TaggingBuffers.Unmarshal: says nothing of the contents of the two buffers once the tag was out of reach or the length negative.
- TaggingBuffers.Marshal: requires that no empty chain trails the buffer's data, because of what `Add` does otherwise; EncodeTag and EncodeIntTo give the condition for one addition.
- EventBases.EventBase.Turn: the exact set of activated events is stated for callbacks that do nothing, in a turn where no interval ends just then; with other callbacks the invariants and the priorities are what holds.
- EventBases.EventBase.Loop: timeout_next (how long to wait), a failing dispatch, deferred callbacks, event_base_loopexit, virtual events, reentrant calls and notification of other threads are not modelled.
- EventBases.EventBase.Do: event_base_priority_init on a base with events, event_free and event_base_once are not among the calls; setting up again an event that is on a queue, which the source forbids, is not either.
- EventBases.EventBase.SignalClosure: ev_pncalls is modelled as naming the event whose counter it points at; a pointer left behind by an aborted loop is not.
- The event base is modelled as entered by one thread at a time between callbacks; calls of other threads count as part of the callback during which they come. The inserted queue and the heap are sets (the heap's top is any event with the least deadline); a timeval's magic bits are the index of a list.
- Evmap.IoBase.IoDel: names the event by its position on the fd's list, as it must be on it; EV_ET, fds closed behind the library, failures of epoll_ctl, signals and fork are left out.
- DnsNames.RoundTrip: names with empty labels or a trailing dot, and messages over 16384 bytes (the range of the pointers), are not covered.
- DnsCodec.NameParse: the bytes behind the packet are a parameter; reply parsing, requests and name servers are left out.
- CondVar.RunInv: wrap-around of the generation counter and real clocks are left out; a timeout may happen whenever a thread waits with one.
- TokenBuckets.TokenBucket.Run: reading only (writing is the same code), and no refunds, which can lift a limit above its maximum.
- RateGroups.NoStuckMember: one direction and one group; finalising a bufferevent that is still a member is left out.
- Ipv6.Pton: numbers in the dotted part that overflow an int; the AF_INET branches.
- Arc4.Stream: seeding from the platform, the discarded first bytes and reseeding.
- bufferevents, HTTP, RPC, the other backends, IOCP, OpenSSL, logging and memory hooks: not part of this model.
