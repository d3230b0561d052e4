# A verified model of eloop

eloop is a single-threaded reactor. Each loop thread waits for file descriptors, fires
due timers, runs queued jobs, and starts over, while callbacks and other threads add and
remove timers, jobs and channels. This project models the four layers of that loop in
Dafny and proves what they promise:

* **The linked list** (`Sequences`, `HeapList`). Nodes with real `prev`/`next` pointers;
  every operation on the pointers is an operation on a sequence.
* **The timer queue** (`Timespec`, `TimerModel`, `TimerPass`, `TimerQueue`, `Alarm`,
  `TimerRuns`, `TimerOrder`). `TimerQueue.TimerQueue` is the deadline-ordered heap list with
  its firing pass, which walks the list with a saved successor while callbacks and re-armed
  timers insert on either side of the cursor. It is proved equal to `TimerPass.Walk`, a walk
  over a pair of sequences (behind and ahead of the cursor), about which the laws are proved:
  termination, firing order, completeness, and, over whole runs, timing.
* **The loop and its jobs** (`Sweep`, `Jobs`, `Reactor`, `EventLoop`). The job queue, the
  whole thread loop as a step system in which only polling takes time, and the thread
  function on the heap queues, which is proved to run that step system.
* **The interest index** (`InterestIndex`, `Channels`, `ChannelLoop`, `DispatchModel`,
  `Dispatch`). The channel map, the three descriptor sets, the cached highest descriptor,
  and the dispatch loop that survives handlers which register and unregister channels. The
  loop over the changing list is proved equal to `DispatchModel.Roam`, a walk over the
  descriptors registered at its start.
* **Pipes and connections** (`BufferPipe`, `Pump`, `Connection`). The growable byte queue
  with its overlapping moves in place, and the send and receive loops under any answers of
  the socket.

## How the code is represented

* Callbacks are parameters: `Env` gives, for each iteration of a timer pass, the clock
  reading and the timers the callback adds and removes; a function from visits to jobs gives
  what each running job adds; scripts give the acts of the handlers a dispatch calls and the
  answers of `send`, `recv` and `select`. All results are for every value of these
  parameters. A timer pass is proved to end for every clock that stays below some bound,
  whatever callbacks do; a job pass is described for exactly the additions for which it
  ends; a dispatch or receive loop that ends is covered by a finite script.
* Sections under a mutex are atomic steps. Allocation of list nodes succeeds; growing a pipe
  may fail.
* A deadline is a normalised `timespec` with `0 <= tv_sec <= 9223372035`, and clock readings
  leave room for the longest interval. `Timespec.Compare` wraps at 64 bits; on deadlines it
  is proved not to.
* An interest mask (`int`) is the set of its bit positions, so `|`, `& ~`, `(m & b) == b` and
  `== 0` are union, difference, inclusion and emptiness.
* The position of a node, the sequence of nodes and the logs of what happened are ghost or
  returned values that the C structures do not hold.

## What turned out not to hold everywhere

* `tcp_connect_write` keeps every byte in order exactly when no `send` asks to try again;
  that arm goes on without the chunk it has taken from the pipe (`Pump.SendConserves`,
  `Pump.SendConservesUnlessAsked`, `Pump.AgainLosesBytes`).
* `event_loop_remove_channel` keeps map and sets in agreement exactly when the channel it
  takes out of the map waits for nothing that is not cleared. For a registered channel that
  is so; for an unknown descriptor the channel registered last is taken out instead, and for
  a second channel on a registered descriptor the first one
  (`InterestIndex.RemoveChannelKeepsSync`). `event_loop_update_channel` does exactly when the
  channel waits for what the map says about its descriptor (`InterestIndex.UpdateKeepsSync`).
  Inputs for each failure are in `InterestIndex.UnregisteredChannelsBreakSync`.
* A job pass need not end. It ends exactly when at some point it has run as many jobs as there
  were and were added by then (`Sweep.EndsIffCaughtUp`); with two jobs that each add another,
  and so on, it goes on for ever (`Sweep.AnotherEnds`).
* A timer pass ends on a bounded clock, but two periodic timers with interval zero keep it
  firing at every reading for as long as the clock moves on between readings
  (`TimerPass.PassLastsWhileMoving`).
* A dispatch visits the channels there at its start and no others exactly when their handlers
  register nothing before the last of them is visited, and calls no others exactly when,
  besides, nothing that their handlers register has a ready descriptor
  (`DispatchModel.RoamCallsFirst`). A handler that gives a descriptor up and registers a new
  channel under the same number makes the walk call that one on the readiness of the first
  (`DispatchModel.ReusedDescriptorIsCalled`).
* `list_append_before` and `list_append_after` with no position count a node they do not link
  in, exactly when the list is not empty (`HeapList.List.AppendBefore`).
* The deadline comparison is right against every deadline in the 64-bit range exactly for
  deadlines in that range (`Timespec.CompareIsExactInRange`); above 9223372035 seconds it can
  wrap (`Timespec.CompareWrapsBeyondRange`).

## Model

| member | source | states |
|---|---|---|
| HeapList.List.AppendBefore | src/common/list.c:95-116 | the node sequence is the old one with the new node inserted just before `pos`, and both chains of pointers, head, tail and length follow, if and only if there is a position or the list was empty; otherwise only the length changes |
| HeapList.List.AppendAfter | src/common/list.c:118-139 | the same just after `pos` |
| HeapList.List.Append | src/common/list.c:89-93 | insertion at the end |
| HeapList.List.RemoveNode | src/common/list.c:202-224 | exactly that node leaves the sequence, wherever it is; a null node is refused with 0 |
| HeapList.List.FindBegin | src/common/list.c:147-166 | the first match at or after the start, or null when there is none |
| HeapList.List.RemoveNext | src/common/list.c:188-197 | one round: nothing matching is skipped although the walk resumes from a successor saved before the unlinking |
| HeapList.List.RemoveData | src/common/list.c:181-200 | the contents become the order-preserving filter of the old ones, and the result is the number removed modulo 2^32 |
| HeapList.KeepFromIsKeep | src/common/list.c:188-197 | the resume-and-delete loop computes the filter, from any position |
| HeapList.KeepIsFilter | src/common/list.c:147-166 | what is kept are the elements whose comparison with the data is not 0, or that are not the data, as often as they were there |
| HeapList.KeepAppend | src/common/list.c:181-200 | and they keep their order |
| HeapList.List.RemoveAll | src/common/list.c:226-238 | the list ends empty and the result is the old length modulo 2^32 |
| Timespec.Plus | src/event_loop.c:138-149 | for a normalised timespec the field updates add exactly interval * 10^6 ns and keep it normalised |
| Timespec.NanosFitLong | src/event_loop.c:141-148 | the intermediate `tv_nsec` is at most 1998999999, so it fits 32 bits, and exactly when that is reached |
| Timespec.WrapIsExactInRange | src/event_loop.c:155-156 | the 64-bit product is exact if and only if the count is in range |
| Timespec.CompareIsLexicographic | src/event_loop.c:151-161 | on supported deadlines the comparison is the order by seconds, then nanoseconds, and the order of the nanosecond counts |
| Timespec.CompareIsExactInRange | src/event_loop.c:151-161 | a normalised deadline compares correctly with every one in the 64-bit range if and only if it is in that range |
| Timespec.CompareWrapsBeyondRange | src/event_loop.c:155-159 | one second further a later deadline compares as earlier |
| TimerModel.InsertPos | src/event_loop.c:186-196 | everything before the position is due earlier, what stands there is not |
| TimerModel.InsertKeepsWellFormed | src/event_loop.c:163-203 | insertion keeps deadlines ordered and ids distinct and within 1..tid |
| TimerModel.WithoutIsDelete | src/event_loop.c:218-226 | deleting the first node with an id removes all timers with that id and no others |
| TimerModel.PlaceIsInsert | src/event_loop.c:262-272 | putting a timer behind or ahead of the saved cursor is inserting it into the whole list |
| TimerModel.DismissKeepsGood | src/event_loop.c:210-230 | removing a timer during a pass takes it out of the whole queue, on whichever side of the cursor it stands, unless it is the saved successor |
| TimerPass.FireShrinks | src/event_loop.c:261-285 | a firing leaves ahead of the cursor fewer timers due before the reading, or as many and fewer due by it, though callbacks and re-arming insert and remove |
| TimerPass.Walk | src/event_loop.c:249-289 | a pass ends for every nondecreasing bounded clock and any re-entrant additions and removals, with the queue well formed |
| TimerPass.FireMembers | src/event_loop.c:266-282 | one firing takes away only the fired timer and what the callback removes, adds only timers due at or after the reading, and leaves the re-armed one ahead of the cursor only with a later deadline |
| TimerPass.PassFiresOnTime | src/event_loop.c:261-285 | nothing fires before its deadline, nor with a deadline before those ahead of the cursor |
| TimerPass.PassFiresInOrder | src/event_loop.c:261-285 | deadlines fired in one pass never go back, nor do the readings |
| TimerPass.PassIsComplete | src/event_loop.c:249-289 | each timer queued at the start and due by the first reading fires that deadline exactly once, unless a firing before its own removes it while it is not the saved successor, and not at all then |
| TimerPass.UnnamedIsNotRemoved | src/event_loop.c:249-289 | a timer no callback of the pass names fires |
| TimerPass.PassLeavesNoneOverdue | src/event_loop.c:261-285 | what a pass leaves was not due before its first reading |
| TimerPass.FrozenPassIsExact | src/event_loop.c:261-285 | at a standing clock with positive intervals, and callbacks that only add, the fired list is exactly the due prefix of the queue, and nothing due is left |
| TimerPass.PassLastsWhileMoving | src/event_loop.c:261-285 | with two timers of interval zero a pass fires more often than the clock moves on between its readings |
| TimerQueue.TimerQueue.Position | src/event_loop.c:185-193 | the search on the heap list ends at the insertion position |
| TimerQueue.TimerQueue.Add | src/event_loop.c:163-203 | a timer without an id gets the next one, one with an id keeps it; the list becomes the ordered insertion |
| TimerQueue.TimerQueue.AddTimer | src/event_loop.c:419-442 | the timer is queued with the next id, its interval and type, due one interval after the reading; without a handler -1 and nothing changes |
| TimerQueue.TimerQueue.Remove | src/event_loop.c:210-230 | exactly the timer of that id goes, and 0 is returned if and only if it was queued |
| TimerQueue.TimerQueue.Min | src/event_loop.c:232-247 | the interval of the first timer, or 0xffffffff |
| TimerQueue.StillWalking | src/event_loop.c:261-270 | an insertion by the callback keeps both the firing node and the saved successor in the list, and equals insertion after the firing timer was removed |
| TimerQueue.StillWalkingWithout | src/event_loop.c:210-230 | a removal by the callback, of any other timer, keeps both the firing node and the saved successor in the list, and equals removal after the firing timer was removed |
| TimerQueue.TimerQueue.RemoveWhileFiring | src/event_loop.c:210-230 | on the heap list, with the firing timer and the saved successor excepted |
| TimerQueue.TimerQueue.FireAndUnlink | src/event_loop.c:266-272 | after callback and unlinking the saved successor is a live node at the cursor, or null at the end |
| TimerQueue.TimerQueue.Rearm | src/event_loop.c:277-281 | a periodic timer is re-inserted with its id, due one interval after the reading at which it fired |
| TimerQueue.TimerQueue.Proc | src/event_loop.c:249-289 | the heap pass ends and leaves exactly the queue, counter and firings of `TimerPass.Walk`; at shutdown the list ends empty |
| Alarm.PassRings | src/event_loop.c:261-285 | seen through any one id, a pass is a run of that timer alone, from when a callback adds it if it was not there, until a callback removes it; if none names it, it is afterwards what that run makes of it |
| Alarm.ServeAllViews | src/event_loop.c:163-203 | a callback gives every new id to one timer, the one its call asked for |
| Alarm.ServeAllAdds | src/event_loop.c:163-203 | every timer a callback adds is queued afterwards, as asked for, unless the callback removes it again |
| Alarm.RingsSpacing | src/event_loop.c:277-280 | each deadline of a periodic timer is one interval after its previous firing |
| Alarm.RingsNeverEarly | src/event_loop.c:277-280 | n further firings after one at T come no earlier than T + n * interval |
| Alarm.RingsBounded | src/event_loop.c:277-280 | with the clock bounded by H, the intervals between the first ring and the last fit between the first deadline and H |
| Alarm.OneShotRingsOnce | src/event_loop.c:274-276 | a one-shot timer fires at most once and is gone exactly when it has |
| TimerRuns.StepKeepsInv | src/event_loop.c:249-289 | in every reachable state nothing queued was due before the last pass began, and a pass fires nothing that was due before the previous pass began |
| TimerRuns.RunRings | src/event_loop.c:210-289 | over any run each timer that is ever in it, queued at the start or added from outside or by a callback, behaves as its own automaton until it is removed, and is still what that automaton says if nothing removes it |
| TimerRuns.AddedIsMet | src/event_loop.c:419-442 | every call that adds a timer, at any moment of a run, gives some new id to the timer it asks for |
| TimerRuns.RemovedIsSilent | src/event_loop.c:210-230 | a removed timer neither fires nor comes back |
| TimerRuns.FiredIsMet | src/event_loop.c:249-289 | only such timers fire |
| TimerRuns.PeriodicCount | src/event_loop.c:266-281 | in a run whose clock never exceeds H, n firings of a periodic timer with interval i and first deadline d, queued at the start or added at any moment, have (n - 1) * i <= H - d |
| TimerRuns.PeriodicLimit | src/event_loop.c:266-281 | for an interval of at least a millisecond that is n <= (H - d) / i + 1 |
| Alarm.RingLimitIsQuotient | src/event_loop.c:266-281 | the limit of `PeriodicLimit` is that quotient plus one |
| TimerRuns.PeriodicSpacing | src/event_loop.c:266-281 | in every run n firings after one at T any such periodic timer is no earlier than T + n * i |
| TimerRuns.OneShotFirings | src/event_loop.c:274-276 | in every run any one-shot timer fires at most once, not early, and is not queued afterwards |
| TimerOrder.InsertKeepsNewest | src/event_loop.c:186-193 | among equal deadlines the timer inserted last comes first, and the others keep their order |
| TimerOrder.WalkKeepsNewest | src/event_loop.c:261-285 | a pass with all its insertions keeps that order |
| TimerOrder.RunsKeepOrder | src/event_loop.c:163-230 | in every run the queue is ordered by deadline, then by most recent insertion |
| Sweep.SweepConserves | src/event_loop.c:109-119 | visited then left over equals there at the start then appended, in order |
| Sweep.SweepLeavesLast | src/event_loop.c:109-119 | everything there at the start is visited, and left over is exactly what the last visited element appended |
| Sweep.EndsIffCaughtUp | src/event_loop.c:109-119 | the walk ends if and only if at some point it has made as many visits as there were elements at the start and appended before the last of them |
| Sweep.LengthIsFirstCaughtUp | src/event_loop.c:109-119 | it ends at the first such point |
| Sweep.AnotherEnds | src/event_loop.c:109-119 | when every visited element appends one, the walk ends if and only if there is at most one at the start |
| Jobs.JobQueue.Add | src/event_loop.c:450-467 | the job is appended; without a handler -1 and nothing changes |
| Jobs.JobQueue.RunHead | src/event_loop.c:110-118 | the job at the head is run and unlinked while it adds others, and the walk ends exactly when it was the last one |
| Jobs.JobQueue.Proc | src/event_loop.c:97-124 | for all additions for which the pass ends, it runs the jobs of the sweep in order and leaves what the sweep leaves; at shutdown the list ends empty |
| Reactor.StepKeepsInv | src/event_loop.c:291-309 | every step of the loop keeps the clock within 10 ms of the last pass, and fires promptly |
| Reactor.StepKeepsJobs | src/event_loop.c:81-124 | every step adds to executed ++ discarded ++ pending exactly the jobs it asks for, at the end |
| Reactor.RunIsPrompt | src/event_loop.c:291-309 | in every run each timer fires at most 10 ms after its deadline, and no queued timer is ever overdue by more |
| Reactor.RunKeepsJobs | src/event_loop.c:81-124 | in every run executed ++ discarded ++ pending is what it was at the start and then the jobs the steps ask for, in order |
| Reactor.AddedJobIsKept | src/event_loop.c:450-467 | a job that was added is executed, discarded or pending at any later moment |
| Reactor.AddedTimerIsMet | src/event_loop.c:419-442 | every timer added in a run of the loop is one of its timers, as asked for |
| Reactor.RemovedTimerIsSilent | src/event_loop.c:444-448 | a removed timer does not fire any more |
| Reactor.PollLasts | src/event_loop.c:297-300 | a poll can last any time up to the shorter of 10 ms and the interval of the first timer, and no longer, and moves the clock and nothing else |
| Reactor.RunIsTimerRun | src/event_loop.c:297-304 | the loop refines the timer queue, so the laws of its runs carry over |
| Reactor.PeriodsStayInWindow | src/event_loop.c:232-304 | n successive periods of any timer of a run, queued at its start or added at any moment, take between n * i and n * (i + 10 ms) |
| Reactor.TimerPhaseIsExact | src/event_loop.c:301-302 | with positive intervals a timer phase fires exactly the timers due when the poll ended, in queue order, and leaves none due |
| Reactor.JobPhaseLeavesLast | src/event_loop.c:303-303 | after a job phase exactly the jobs added by the last one that ran are pending |
| Reactor.CreatedKeepsInv | src/event_loop.c:311-385 | a new loop satisfies the invariant, so its laws hold in every run from there |
| EventLoop.EventLoop.AddTimer | src/event_loop.c:419-442 | on the heap queues it is the reactor's step |
| EventLoop.EventLoop.FireTimers | src/event_loop.c:249-289 | the heap pass is the reactor's timer phase and leaves the jobs alone |
| EventLoop.EventLoop.RunJobs | src/event_loop.c:97-124 | the heap pass is the reactor's job phase |
| EventLoop.EventLoop.Iterate | src/event_loop.c:297-304 | one iteration polls with the reactor's timeout and takes the queues through its steps in order, with calls during the poll and after each pass |
| EventLoop.RoundFollows | src/event_loop.c:297-304 | one iteration of a run takes its steps off the front of what is still to come, and keeps what was fired before it |
| EventLoop.RoundCanRun | src/event_loop.c:297-304 | a round can always follow, whatever the callbacks do, as long as the job pass ends |
| EventLoop.ThreadTakesCalls | src/event_loop.c:297-304 | whatever happens around the passes of a round is a step of the thread's run |
| EventLoop.ThreadKeepsJobs | src/event_loop.c:291-309 | a job added in any round is executed or discarded by the end of the thread |
| EventLoop.EventLoop.ThreadFunc | src/event_loop.c:291-309 | for any rounds the thread fires and executes exactly what the reactor does and ends with empty queues, so every timer fires within 10 ms, and executed ++ discarded is what was there at the start and then what was asked for, in order |
| InterestIndex.SetBits | src/event_io_select.c:83-92 | exactly the sets of the mask's kinds gain the descriptor |
| InterestIndex.ClearBits | src/event_io_select.c:94-103 | exactly the sets of the mask's kinds lose the descriptor |
| InterestIndex.SearchPos | src/event_channel_map.c:44-59 | the search ends at the first channel with the descriptor, or at the last channel when there is none |
| InterestIndex.MaxFdBounds | src/event_channel_map.c:88-103 | the scan returns the highest registered descriptor, or -1 |
| InterestIndex.AddKeepsSync | src/event_loop.c:469-481 | registering keeps sets and map in agreement if and only if the descriptor is valid and new |
| InterestIndex.RemoveChannelKeepsSync | src/event_loop.c:516-531 | for any channel, unregistering keeps them in agreement if and only if what it takes out of the map waits for nothing that is not cleared |
| InterestIndex.RegisteredClearsGone | src/event_loop.c:516-531 | for a registered channel that is so |
| InterestIndex.RemoveFdKeepsSync | src/event_loop.c:483-514 | removing some interests always keeps them in agreement |
| InterestIndex.DropTakesEffect | src/event_loop.c:483-514 | exactly the dropped interests of that descriptor are gone, and the descriptor if none is left |
| InterestIndex.RemoveFdUnregisters | src/event_loop.c:505-509 | the channel is unregistered if and only if no interest is left |
| InterestIndex.UpdateKeepsSync | src/event_loop.c:533-549 | for any channel, re-registering brings them in agreement if and only if the channel waits for what the map says about its descriptor, even if they disagreed there |
| InterestIndex.RemaskKeepsSync | src/event_loop.c:533-549 | changing the mask of a channel first, it does if and only if the channel is registered or waits for nothing |
| InterestIndex.UnregisteredChannelsBreakSync | src/event_loop.c:516-549 | a concrete registered channel that a stray one, and a second one on its descriptor, displace by either call |
| InterestIndex.RefreshBounds | src/event_io_select.c:124-134 | the bound given to `select` is one above the highest registered descriptor and above every descriptor in the sets, and nothing is left to refresh |
| InterestIndex.OpKeepsSync | src/event_loop.c:469-549 | one operation keeps agreement if and only if it meets its condition |
| InterestIndex.OpTakesEffect | src/event_loop.c:469-549 | every operation changes the interests it is about in map and sets, and no others |
| InterestIndex.RunsStayInSync | src/event_loop.c:469-549 | over a run of operations and polls a descriptor is in a set exactly when its channel has that bit, at every moment, if and only if every operation meets its condition; and then every bound is high enough |
| Channels.EventIo.AddFd | src/event_io_select.c:83-92 | the backend's sets change by the channel's mask and the cache is marked stale |
| Channels.EventIo.RemoveFd | src/event_io_select.c:94-103 | the same for removal |
| Channels.ChannelMap.Search | src/event_channel_map.c:44-59 | the channel found, if any, and the node the search ends at even on a miss |
| Channels.ChannelMap.Remove | src/event_channel_map.c:67-74 | the node at which the search ends is deleted, found or not |
| Channels.ChannelMap.GetMaxFd | src/event_channel_map.c:88-103 | the scan of the heap list computes the maximum |
| ChannelLoop.ChannelLoop.AddChannel | src/event_loop.c:469-481 | map and sets change together as `InterestIndex.AddChannel`, for any channel |
| ChannelLoop.ChannelLoop.RemoveFd | src/event_loop.c:483-514 | with the temporary mask swap: result, deletion flag, map, nodes, sets and the remaining mask, whether or not channels share descriptors |
| ChannelLoop.ChannelLoop.RemoveChannel | src/event_loop.c:516-531 | which channel leaves the map, and the sets |
| ChannelLoop.ChannelLoop.UpdateChannel | src/event_loop.c:533-549 | the sets follow the mask, which is restored |
| ChannelLoop.ChannelLoop.RefreshMaxFd | src/event_io_select.c:124-131 | a full scan exactly when something changed, after which the bound covers all sets |
| DispatchModel.CallsInOrder | src/event_io_select.c:166-168 | a visited channel is called once for every kind it is ready for, in the order read, write, error, and for nothing else |
| DispatchModel.ActTakesEffect | src/event_loop.c:469-549 | every act of a handler changes the interests it is about in map and sets, and no others |
| DispatchModel.LastChangeStands | src/event_io_select.c:166-168 | the handlers of a channel run in the order read, write, error: of several changes of a mask the last one of the last handler stands |
| DispatchModel.RoamVisits | src/event_io_select.c:154-173 | a walk visits the channels it began with, then those registered during it, in order, as far as it gets |
| DispatchModel.RoamFolds | src/event_io_select.c:154-173 | the index after a walk is the one after its visits, one after the other |
| DispatchModel.RoamThrough | src/event_io_select.c:154-173 | a walk is the visits of the channels there at its start, and then a walk over what their handlers registered, unless it ends on the last of them |
| DispatchModel.RoamCallsFirst | src/event_io_select.c:150-176 | the number of visits is the number of channels at the start if and only if their handlers register nothing before the last of them is visited; only those are called if and only if, besides, nothing their handlers register is ready |
| DispatchModel.ReusedDescriptorIsCalled | src/event_io_select.c:154-173 | a descriptor given up and registered anew that is called twice |
| DispatchModel.DoLists | src/event_loop.c:469-549 | after any act of a handler map and sets agree and the map lists the same channels in the same order, without the visited one if it left, and with new ones at its end |
| DispatchModel.RoamLists | src/event_io_select.c:154-173 | after a dispatch map and sets agree, and the map lists exactly the visited channels that did not leave and those registered but not visited, in order |
| DispatchModel.VisitLeaves | src/event_io_select.c:166-168 | a visited channel leaves when the handler of its last ready kind unregisters it, and only when that handler unregisters it or drops its interests |
| DispatchModel.NoneLate | src/event_io_select.c:170-176 | when no handler registers a channel, exactly the channels at the start are visited |
| Dispatch.VisitChannel | src/event_io_select.c:166-168 | exactly the ready handlers of one channel are called, in the order read, write, error, and the index changes by their acts in that order |
| Dispatch.VisitNext | src/event_io_select.c:154-173 | although handlers register, change and unregister channels, the saved successor is the next live channel |
| Dispatch.DispatchReady | src/event_io_select.c:150-174 | on the list as it changes, the calls, the final index and the returned count are those of the walk over the descriptors registered at its start |
| Dispatch.Poll | src/event_io_select.c:105-177 | the whole poll, with its empty, failed and interrupted cases: result, calls and final index, with map and sets in agreement |
| BufferPipe.MemMove | src/buffer_pipe.c:88-90 | overlapping stretches are moved as if copied first |
| BufferPipe.Pipe.Expand | src/buffer_pipe.c:46-60 | growth keeps the contents; failure changes nothing |
| BufferPipe.Pipe.Write | src/buffer_pipe.c:62-76 | the bytes are appended and 0 returned if they fit or the buffer can grow; otherwise nothing changes |
| BufferPipe.Pipe.WriteHead | src/buffer_pipe.c:78-95 | the bytes are put in front and 0 returned if they fit or the buffer can grow; otherwise nothing changes |
| BufferPipe.Pipe.Read | src/buffer_pipe.c:97-109 | as many of the first bytes as are asked for, or all, are handed out, and the rest moves up |
| BufferPipe.Pipe.FindChr | src/buffer_pipe.c:111-125 | the first position of a byte, or -1 exactly when there is none |
| BufferPipe.RunsAreFifo | src/buffer_pipe.c:46-109 | over any run, bytes taken then bytes queued are the bytes accepted in order, and capacity exceeds the peak by at most 4096 |
| BufferPipe.WritesAreAccepted | src/buffer_pipe.c:62-76 | with memory for every write, what is accepted is everything written, in order |
| BufferPipe.NewPipesAreFifo | src/buffer_pipe.c:46-109 | the same for a new pipe: bytes taken ++ bytes queued equals bytes accepted |
| BufferPipe.PutBackUndoesRead | src/net/tcp_connect.c:156-165 | putting back the unused end of a chunk undoes that part of the read and never has to grow the buffer |
| Pump.SendConserves | src/net/tcp_connect.c:155-181 | sent ++ chunk at hand ++ still queued is the original queue if and only if no send asked to try again |
| Pump.SendConservesUnlessAsked | src/net/tcp_connect.c:155-181 | the same on the queue and the answers alone: if and only if no send asks to try again that comes after sends which each take their whole chunk |
| Pump.SentIsAccepted | src/net/tcp_connect.c:155-181 | what counts as sent is as long as what the socket accepted of the chunks it was offered |
| Pump.DrainStops | src/net/tcp_connect.c:155-190 | the loop goes on as long as something is queued and sends take their chunks or ask to try again, and closes if and only if the last one accepted nothing or failed |
| Pump.AgainLosesBytes | src/net/tcp_connect.c:170-176 | two bytes lost to one retry |
| Pump.DrainEnds | src/net/tcp_connect.c:155-190 | -1 is returned exactly on a failure, and only then is a chunk at hand |
| Pump.FillAppends | src/net/tcp_connect.c:57-78 | what the answers of the socket brought is appended in order, except the last chunk when the pipe could not grow for it |
| Pump.FillEnds | src/net/tcp_connect.c:57-78 | the loop ends with the first answer that brings nothing or does not fit, and asks to close if and only if the peer is done, the socket failed or a chunk was lost |
| Connection.Connection.Create | src/net/tcp_connect.c:93-126 | a registered channel that waits for reading and errors, with empty pipes, and the loop in step if and only if the descriptor is valid and new |
| Connection.Connection.MarkWrite | src/net/tcp_connect.c:201-207 | the write bit is in the mask and in the descriptor set |
| Connection.Connection.UnmarkWrite | src/net/tcp_connect.c:209-215 | the write bit is in neither |
| Connection.Connection.Send | pingpong.c:161-162 | append then mark: what is queued is waited for, even when the append failed |
| Connection.Connection.SendChunk | src/net/tcp_connect.c:156-180 | one round of the loop; the put-back after a short send always fits although its result is ignored |
| Connection.Connection.SendLoop | src/net/tcp_connect.c:155-181 | the loop ends, with the pipe's length as measure, and does what `Pump.Drain` says |
| Connection.Connection.Write | src/net/tcp_connect.c:145-191 | without a close, the connection waits for writing exactly when the pipe is not drained; with one, nothing about the interest changes |
| Connection.Connection.RecvLoop | src/net/tcp_connect.c:57-78 | the receive loop does what `Pump.Fill` says |
| Connection.Connection.OnRead | src/net/tcp_connect.c:44-91 | the connection is deleted, at most once, exactly when a handler that saw data and returned 1 did it or, without such a handler, when the loop asks to close; the receive pipe is what the handler left of it, and what it answered is in the send pipe |
| Connection.Connection.Delete | src/net/tcp_connect.c:128-143 | nothing of the connection is left in the map or the sets |
| Connection.Connection.OnWrite | pingpong.c:129-137 | a failed send call, and nothing else, deletes the connection |
| Connection.Drive | src/net/tcp_connect.c:44-215 | over any run of appends, send calls and receive calls with their handlers, something queued implies waiting for writing, until the connection is deleted and nothing of it is left in the loop |

## Left out

- TimerQueue.TimerQueue.Add: does not model the wrap-around of the 64-bit id counter, which takes 2^63 timers; ids after it can repeat.
- TimerPass.Walk: a callback does not remove the firing timer or the saved successor, which would leave the walk on a freed node; such a call is left out.
- TimerPass.FrozenPassIsExact: callbacks that remove timers at a standing clock are covered by `TimerPass.PassIsComplete`, not by the exact list.
- Dispatch.DispatchReady: a handler unregisters its own channel at most once and from its last ready kind, on which the code relies, and registers only descriptors that are not registered. It does not unregister other channels, although the code would survive that for every channel but the saved successor. Other acts are left out. A missing handler is one that does nothing.
- ChannelLoop.ChannelLoop.RemoveFd: one channel object registered twice is not modelled.
- Connection.Connection.OnRead: a handler that deletes the connection and does not return 1, after which the code would use it again.
- Reactor.RunIsPrompt: callbacks take no time and reading the clock in `event_loop_add_timer` is one step with the insertion; `TimerRuns.StepKeepsInv` has the form without the first assumption.
- BufferPipe.RunsAreFifo: sizes are unbounded; the wrap-around of `size_t` needs 2^64 bytes. The capacity bound is for pipes that are not expanded on their own.
- Channels.EventIo.AddFd: descriptors at or above `FD_SETSIZE` are not excluded.
- EventLoop.EventLoop.ThreadFunc: the descriptors of the poll are not joined to it; `Dispatch.Poll` changes channels only, and the timers and jobs its handlers add are among the calls of a round.
- Failing allocation of list nodes, timers, jobs and channels.
- Mutexes, condition variables, thread creation and `_wakeup_thread`.
- `src/event_io_kqueue.c`, the socket calls of `src/net/net.c` and `src/net/tcp_server.c`, `src/event_loop_pool.c`, and the console of `pingpong.c`.
- Creation and deletion of objects, copying and cloning of channels, and the close handler that `tcp_connect_mark_read` installs.
