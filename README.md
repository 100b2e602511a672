# Operating-systems lab simulators, modelled and verified in Dafny

This project models four small simulators from an operating-systems course and
proves properties of them:

- **The virtual-memory pager** (`main.cpp`). Processes own 64-entry page
  tables and lists of virtual memory areas (VMAs). A trace of context
  switches (`c`), reads (`r`) and writes (`w`) drives the pager. A page
  fault selects a frame:
  - the lowest free frame while one is free;
  - otherwise one of six replacement policies: FIFO, second chance, random,
    NRU, clock or aging.

  The fault then unmaps the victim page, writing it out:
  - to its file (`FOUT`) when the page is file mapped;
  - to swap (`OUT`) otherwise.

  The new page comes in from swap (`IN`), from its file (`FIN`) or zero filled
  (`ZERO`), and is mapped. Every operation is charged its fixed cost.
- **The CPU-scheduler simulation** (`sched.cpp`). It is a discrete-event
  simulation with a time-ordered event list and four transitions (to READY, to
  RUN, to BLOCK, to PREEMPT). There are five run-queue disciplines: FCFS, LCFS,
  SJF, RR and PRIO, the last with active and expired queues over four levels.
  CPU and I/O bursts are drawn from a table of random numbers.
- **The disk-arm scheduling simulation** (`iosched.cpp`). Each request
  arrives at its own arrival time, and the clock adds at most one request per
  time unit. One request is served at a time, with seek time equal to the
  track distance. There are five schedulers: FIFO, SSTF, LOOK, C-LOOK and
  F-LOOK.
- **The two-pass linker** (`linker.cpp`). Pass one reads the modules'
  definition lists, use lists and instruction counts. It builds the symbol
  table, where the first definition wins and repeats are counted, and lays the
  modules out in a 512-word memory. Pass two relocates every instruction:
  - immediate (I) and absolute (A) words are kept;
  - an external (E) word takes the address of the symbol its use-list entry
    names;
  - a relative (R) word is offset by the module base.

  It also reports unused use-list entries and unused definitions.

The model follows the programs' own structure:

- **Objects whose fields the programs update become classes.** These are the
  frame table, the random-number table, each replacement policy, the pager,
  the event list, the run queues, the disk schedulers, the disk simulator and
  the parser. Each method names what it `modifies`. The LOOK and F-LOOK
  schedulers, the disk simulator, the event simulation, the priority run
  queues and the pager also carry a `Valid()` invariant that their methods
  keep; the other classes state their constraints in each method's contract.
- **Value-level functions define what each policy or pass computes.** The
  methods are proved against them, and lemmas prove what the programs promise
  about those functions.
- **Loops stay loops.** Examples are the frame scans of the replacement
  policies, the aging pass, stable insertion into the event list, the disk
  schedulers' nearest-request scans and the linker's symbol-table lookups.
  Each carries its invariants.

The processes of the pager are values in a sequence, `seq<Process>`. The
program changes page table entries in place through pointers. The model's
policies instead take the process list and return the updated one, so each
update is an explicit function of the old list.

Here the code and its evident intent disagree:

- **The current process.** In the pager's main loop (`main.cpp:536`) it is
  declared inside the loop body, so strictly its value does not survive from
  one trace line to the next. The model keeps the current process across
  lines, as the program evidently intends.
- **The linker's E operand check.** See "Findings".

## Model

| member | source | states |
|---|---|---|
| Common.CRem | main.cpp:184 | C's truncating `%`: the remainder has the sign of the dividend and lies strictly within the divisor's magnitude; for a non-negative dividend and a positive divisor, the only case used, it is the ordinary remainder |
| Common.Dist | iosched.cpp:356 | the seek distance between two tracks is their absolute difference |
| VmmTypes.NewProcess | main.cpp:135-146 | a new process has its pid and VMAs, 64 page table entries that are all clear, and zero statistics |
| VmmTypes.MappedInjective | main.cpp:646-649 | under the mapping invariant, two distinct owned frames never hold the same (process, page) pair |
| VmmTypes.ClearRowAt | main.cpp:316-321 | clearing the REFERENCED bits of the pages held by a set of frames changes each entry of a page table on its own, by the single-entry rule |
| VmmTypes.ClearRefsAt | main.cpp:316-321 | the same per-entry rule holds for every entry of every process in the list |
| VmmTypes.SetEntry | main.cpp:552 | writing one page table entry sets that entry and leaves every other entry of every process and everything outside the page tables unchanged |
| VmmTypes.ClearRefsStep | main.cpp:347-348 | resetting the REFERENCED bit of one more owned frame's page is the same as clearing the enlarged set of frames |
| VmmTypes.ClearRefsNone | main.cpp:316-321 | clearing the reference bits of no frame changes nothing |
| VmmTypes.ClearRefsMapped | main.cpp:316-321 | clearing reference bits keeps the mapping invariant between page tables and frames |
| VmmTypes.RefBitCleared | main.cpp:316-321 | after clearing a set of frames, a frame's reference bit is set exactly when it was set before and the frame is not in the set |
| VmmTypes.ClearRefsOnly | main.cpp:316-321 | clearing touches nothing but REFERENCED bits and only turns them off |
| VmmTypes.FrameTable.constructor | main.cpp:90-93 | the frame table has the requested number of frames, all free |
| VmmTypes.FrameTable.GetFrame | main.cpp:95-102 | returns the lowest-numbered free frame, and -1 exactly when no frame is free |
| VmmTypes.FirstFreeIsUsed | main.cpp:95-102 | frames are taken in index order, so with frames 0..used-1 owned the free frame found is frame `used`, or -1 once all are owned |
| VmmTypes.DrawInRange | main.cpp:183-187 | with a non-empty table of non-negative numbers a random draw for size n lies in [0, n) |
| VmmTypes.RandomSource.constructor | main.cpp:171-181 | the table holds the given numbers and the cursor starts at 0 |
| VmmTypes.RandomSource.GetRandomNumber | main.cpp:183-187 | returns the cursor's table entry, taken cyclically, reduced by C's `%` modulo size; the cursor advances by one |
| VmmPolicies.RotateStep | main.cpp:235-237 | moving the head of a rotated queue to its back is the rotation by one more place |
| VmmPolicies.RotateDistinct | main.cpp:235-237 | rotation keeps the queue's elements distinct |
| VmmPolicies.RotateQueueOf | main.cpp:235-237 | a rotated queue still holds each owned frame exactly once |
| VmmPolicies.FirstClear | main.cpp:233-239 | the number of queue entries from the head whose pages are referenced, up to the first unreferenced one |
| VmmPolicies.Fifo.constructor | main.cpp:199-201 | the FIFO queue starts empty |
| VmmPolicies.Fifo.SelectFrame | main.cpp:203-213 | takes a free frame while there is one and appends it to the queue; otherwise evicts the head of the queue and moves it to the back; the queue keeps holding each owned frame once |
| VmmPolicies.FifoQueueKept | main.cpp:203-213 | appending the new frame, or moving the head to the back, keeps the queue a permutation of the owned frames, with the victim last |
| VmmPolicies.ScannedStart | main.cpp:231-233 | the second-chance scan starts with no reference bit cleared |
| VmmPolicies.ScannedBit | main.cpp:233 | during the scan, the frame under inspection is referenced exactly while the scan is before the first unreferenced frame |
| VmmPolicies.ScannedStep | main.cpp:233-238 | each pass over a referenced frame clears exactly that frame's bit |
| VmmPolicies.ScanRotate | main.cpp:235-237 | moving the inspected frame to the back leaves the queue rotated one place further |
| VmmPolicies.QueueScanStart | main.cpp:231-232 | the scan's invariant holds at the head of the queue before the loop |
| VmmPolicies.QueueScanStep | main.cpp:233-238 | one loop iteration on a referenced frame keeps the scan's invariant |
| VmmPolicies.QueueScanEnd | main.cpp:239-241 | when the loop stops at an unreferenced frame, that frame, moved to the back, is the victim, with the queue and tables the specification gives |
| VmmPolicies.ScanQueue | main.cpp:231-241 | the second-chance loop computes exactly the victim, the new queue and the cleared tables of the specification |
| VmmPolicies.SecondChance.constructor | main.cpp:224-226 | the queue starts empty |
| VmmPolicies.SecondChance.SelectFrame | main.cpp:228-246 | takes a free frame while there is one; otherwise gives referenced frames at the head a second chance (clearing the bit and rotating) and evicts the first unreferenced one |
| VmmPolicies.ScEvictSound | main.cpp:228-246 | the victim is in the queue; the new queue is a permutation of the frames with the victim last; only REFERENCED bits change; the victim is unreferenced; every frame passed over was referenced and is now cleared |
| VmmPolicies.ScIsFifoWhenHeadClear | main.cpp:228-246 | when the head's page is unreferenced, second chance makes exactly FIFO's choice and changes no bit |
| VmmPolicies.RandomPolicy.constructor | main.cpp:257-259 | the policy draws from the shared random table |
| VmmPolicies.RandomPolicy.SelectFrame | main.cpp:261-269 | takes a free frame while there is one, without drawing; otherwise evicts the frame the next draw names modulo the number of frames, and the cursor advances by one |
| VmmPolicies.NruClass | main.cpp:299 | a frame's class is 2·REFERENCED + MODIFIED: below 4, at least 2 exactly when referenced, odd exactly when modified |
| VmmPolicies.ClassMembers | main.cpp:294-302 | a class holds exactly the owned frames of that class, in increasing frame order |
| VmmPolicies.ClassifyFrames | main.cpp:290-302 | the classification loop builds the four classes of the specification |
| VmmPolicies.ClassesUpToStep | main.cpp:294-302 | examining one more frame appends it to the end of its own class when it is owned and changes no class when it is free |
| VmmPolicies.ClassifyAt | main.cpp:290-302 | class k of the classification holds exactly the owned frames of class k |
| VmmPolicies.LowestClass | main.cpp:305-311 | every class below the result is empty, and the result is a non-empty class unless all four are empty |
| VmmPolicies.FirstNonEmpty | main.cpp:305-311 | the search stops at the lowest non-empty class |
| VmmPolicies.LowestClassExists | main.cpp:305-311 | with every frame owned, some class is non-empty |
| VmmPolicies.ClassesBelow | main.cpp:316-321 | the set of owned frames whose class is below c |
| VmmPolicies.ClearOneMore | main.cpp:317-320 | clearing one more class member's page extends the cleared set by that frame |
| VmmPolicies.ClearClass | main.cpp:317-320 | the inner reset loop clears the REFERENCED bits of exactly one more class of frames |
| VmmPolicies.ClassesBelowNext | main.cpp:316-321 | the frames below class k, together with class k, are the frames below class k+1 |
| VmmPolicies.ClassesBelowAll | main.cpp:316-321 | with every frame owned, the four classes together hold every frame |
| VmmPolicies.ResetReferenced | main.cpp:316-321 | the reset loop clears the REFERENCED bit of every frame's page and nothing else |
| VmmPolicies.Nru.constructor | main.cpp:282-284 | NRU starts with its counter at 0, no classes, and the shared random table |
| VmmPolicies.Nru.SelectFrame | main.cpp:286-325 | takes a free frame while there is one, without drawing or counting; otherwise it evicts, and its classes, counter and tables are those of the NRU specification, with one draw consumed |
| VmmPolicies.Nru.Evict | main.cpp:289-323 | the eviction branch equals the NRU specification and consumes one draw |
| VmmPolicies.NruEvictSound | main.cpp:286-325 | the victim is owned and of the lowest non-empty class, no frame's class is lower, the counter wraps on every 10th eviction, and that eviction clears every reference bit while the others change no table |
| VmmPolicies.HandScanStart | main.cpp:345-346 | the clock scan's invariant holds at the hand before the loop |
| VmmPolicies.HandScanStep | main.cpp:347-351 | one loop iteration on a referenced frame clears its bit and advances the hand modulo the circle size, keeping the invariant |
| VmmPolicies.HandScanEnd | main.cpp:352-353 | when the loop stops at an unreferenced frame, it and the hand one past it are the clock specification's result |
| VmmPolicies.ClockScan | main.cpp:345-353 | the clock loop computes exactly the victim, the new hand and the cleared tables of the specification |
| VmmPolicies.Clock.constructor | main.cpp:337-339 | the hand starts at 0 and the circle is empty |
| VmmPolicies.Clock.SelectFrame | main.cpp:341-358 | takes a free frame while there is one and adds it to the circle; otherwise sweeps from the hand, evicts the first unreferenced frame, and leaves the circle as it was |
| VmmPolicies.ClockIsSecondChance | main.cpp:341-358 | clock with hand h evicts the same frame and clears the same bits as second chance on the circle rotated to start at h, and the new hand's rotation is second chance's new queue |
| VmmPolicies.AgeStep | main.cpp:383 | the new 32-bit counter has the reference bit as its top bit and the old counter halved as its low 31 bits |
| VmmPolicies.AgedAt | main.cpp:378-386 | after the aging pass over the first n frames, each owned frame among them has its counter aged with its reference bit, and every other counter is unchanged |
| VmmPolicies.AgeOne | main.cpp:381-384 | resetting the inspected frame's reference bit extends the cleared set by that frame, and the bit read is the original one |
| VmmPolicies.AgeStepNext | main.cpp:378-386 | one iteration of the aging loop extends both the aged counters and the cleared bits by one frame |
| VmmPolicies.AgeFrame | main.cpp:379-385 | the loop body ages frame i and resets its bit as the specification says |
| VmmPolicies.AgeFrames | main.cpp:378-386 | the aging loop ages every owned frame's counter and clears every reference bit |
| VmmPolicies.OldestFrame | main.cpp:388-397 | the first owned frame with the least counter; -1 exactly when no frame is owned |
| VmmPolicies.Aging.constructor | main.cpp:369-372 | one zero counter per frame |
| VmmPolicies.Aging.SelectFrame | main.cpp:374-401 | takes a free frame while there is one; otherwise ages every counter, clears every reference bit, evicts the first frame with the least aged counter and zeroes its counter |
| VmmPolicies.ForgetsAfter | main.cpp:383 | a counter below 2^b that goes unreferenced for b or more selections reaches zero |
| VmmPolicies.AgingForgets | main.cpp:383 | a page left unreferenced for 32 selections has counter 0, whatever it was |
| VmmPolicies.UnreferencedDecays | main.cpp:383 | a counter left unreferenced never grows, and while it is not 0 each further unreferenced selection makes it strictly smaller |
| VmmEngine.FirstCoverSound | main.cpp:560-568 | the first VMA containing the page, and -1 exactly when none contains it |
| VmmEngine.FindVma | main.cpp:559-568 | the VMA search returns that first VMA |
| VmmEngine.TotalCostUpdate | main.cpp:12-22 | replacing one process changes the total cost of all counters by the change in that process's counters |
| VmmEngine.TotalCostSame | main.cpp:12-22 | process lists with the same counters have the same total cost |
| VmmEngine.SegvCost | main.cpp:570-577 | a segmentation fault adds exactly SEGV to the cost of the counters |
| VmmEngine.ProtectCost | main.cpp:563-564 | copying the VMA's protection bits costs nothing |
| VmmEngine.UnmapCost | main.cpp:586-615 | unmapping adds exactly the UNMAP cost, plus FILE_OUT or PAGE_OUT for a modified page |
| VmmEngine.LoadCost | main.cpp:619-643 | loading adds exactly the IN, FIN or ZERO cost plus MAP |
| VmmEngine.TouchCost | main.cpp:657-669 | the access adds SEGPROT for a write to a protected page and nothing otherwise |
| VmmEngine.UnmapKeeps | main.cpp:586-615 | after the unmap the victim page is not present, the frame can be freed with the mapping invariant kept, maps still balance unmaps plus resident pages, and no other entry changes |
| VmmEngine.LoadKeeps | main.cpp:619-649 | after the load the page is present in the chosen frame, that frame names it, the invariants hold, and no other entry changes |
| VmmEngine.TouchKeeps | main.cpp:657-669 | the access keeps residence and frame index, the invariants, and every other entry |
| VmmEngine.ProtectKeeps | main.cpp:563-564 | the faulting entry takes its VMA's write protection and file mapping, nothing else changes, and the invariants hold |
| VmmEngine.VacateKeeps | main.cpp:586-616 | freeing the chosen frame unmaps its old page if it had one, keeps the invariants and the faulting entry, and the cost returned is exactly the counters' increase |
| VmmEngine.ServeKeeps | main.cpp:619-669 | loading and accessing the page leaves it present, referenced, in the chosen frame, with the invariants kept and the cost accounted |
| VmmEngine.FaultKeeps | main.cpp:581-669 | a whole fault leaves the page present and referenced in the chosen frame, the victim page out, the invariants kept and the cost accounted |
| VmmEngine.RefsClearedKeeps | main.cpp:581 | a policy that only clears reference bits keeps the mapping invariant, the balance of maps and the cost |
| VmmEngine.SegvKeeps | main.cpp:570-577 | a segmentation fault changes no page table, keeps the invariants and is accounted |
| VmmEngine.OwnedPrefixOwner | main.cpp:646-649 | mapping the selected frame keeps the owned frames a prefix of the frame table, one longer when the frame was free |
| VmmEngine.NewProcesses | main.cpp:499-511 | process i is a new process with pid i and the i-th VMA list |
| VmmEngine.NewProcessesMapped | main.cpp:499-527 | the new processes and a free frame table satisfy the mapping invariant, with no frame owned |
| VmmEngine.NewProcessesZero | main.cpp:499-511 | the new processes balance maps and unmaps and their counters cost nothing |
| VmmEngine.NewPager | main.cpp:512-525 | the letters f, s, r, n, c, a create FIFO, second chance, random, NRU, clock and aging, each fresh with no frame owned |
| VmmEngine.ChargeStep | main.cpp:554 | charging one access keeps the cost account, which is 121 per switch, 1 per access and the counters' cost |
| VmmEngine.TouchStep | main.cpp:657-669 | the access keeps the engine invariant with its cost added |
| VmmEngine.SegvStep | main.cpp:570-577 | the segmentation fault keeps the engine invariant with its cost added |
| VmmEngine.ProtectStep | main.cpp:563-564 | copying the VMA's bits keeps the engine invariant and the page's residence |
| VmmEngine.SelectStep | main.cpp:581 | a policy's clearing of reference bits keeps the engine invariant |
| VmmEngine.ServeStep | main.cpp:582-669 | serving the fault with the selected frame keeps the engine invariant, with the frame now naming the page and the cost added |
| VmmEngine.Vmm.constructor | main.cpp:495-527 | builds the processes from their VMA lists, a table of free frames, and the policy the letter names; the counters start at zero and there is no current process |
| VmmEngine.Vmm.ContextSwitch | main.cpp:543-549 | a switch makes the process current, counts one instruction and one switch, and costs 121 |
| VmmEngine.Vmm.SelectFrame | main.cpp:581 | dispatches to the chosen policy: a free frame while there is one (no table changes), otherwise an owned victim; policies only clear reference bits and keep their own invariants |
| VmmEngine.Vmm.Access | main.cpp:552-669 | a present page is simply accessed; a page outside every VMA is a segmentation fault; otherwise the fault is served by the selected frame, with that frame now naming the page and the cost exactly accounted |
| VmmEngine.Vmm.Hit | main.cpp:657-669 | an access to a present page marks it referenced, and on a write modified or a SEGPROT, with nothing else changed |
| VmmEngine.Vmm.Segfault | main.cpp:570-577 | counts a SEGV for the current process and adds its cost, with the frame table unchanged |
| VmmEngine.Vmm.Charge | main.cpp:554 | counts the instruction and adds the read/write cost of 1 |
| VmmEngine.Vmm.Prepare | main.cpp:559-581 | after the VMA bits are copied and a frame is selected, the state satisfies the engine invariant and the frame is free exactly while free frames remain |
| VmmEngine.Vmm.Install | main.cpp:582-649 | the selected frame's old page is unmapped, the faulting page loaded, mapped and accessed, the frame table updated to name it, and the cost accounted |
| VmmEngine.Vmm.FaultIn | main.cpp:556-654 | a page fault inside a VMA: the frame table now maps the selected frame to the page, and processes and cost are those of the fault specification |
| VmmEngine.Vmm.Step | main.cpp:532-670 | one trace line counts one instruction. A switch counts a switch, costs 121, makes the given process current and leaves the processes, the frame table and the used count as they were. A read or write keeps the current process, costs 1 more than the access, and leaves the processes, the frame table and the cost exactly as Access states for each of its three cases |
| VmmEngine.Vmm.Run | main.cpp:530-671 | over a well-formed trace, the total cost is 121 per switch, 1 per other instruction and the cost of every counted event, and over all processes the unmaps are the maps less the pages still resident |
| VmmEngine.AllBalanced | main.cpp:586-649 | over all processes, the pages mapped equal the pages unmapped plus the pages resident, when each process balances |
| SchedQueues.FirstAbove | sched.cpp:315-316 | the first position whose key is strictly above k: every earlier key is at most k |
| SchedQueues.InsertByKeyAt | sched.cpp:312-325 | insertion by key puts the new element at the first position whose key is strictly greater, or at the end |
| SchedQueues.InsertStable | sched.cpp:312-325 | the insertion loop computes exactly that insertion |
| SchedQueues.InsertByKeyElements | sched.cpp:312-325 | insertion adds exactly the new element: the result is a permutation of the old list plus it |
| SchedQueues.InsertByKeySorted | sched.cpp:312-325 | insertion keeps a list sorted by key and is stable: the new element follows every element with an equal or smaller key and precedes every larger one |
| SchedQueues.EventQueue.constructor | sched.cpp:289-303 | the event list starts empty |
| SchedQueues.EventQueue.GetEvent | sched.cpp:305-310 | the front event, or none on an empty list, without removing it |
| SchedQueues.EventQueue.PutEvent | sched.cpp:312-325 | the event is inserted by time stamp behind every event with the same or an earlier time stamp |
| SchedQueues.EventQueue.DeleteEvent | sched.cpp:327-330 | removes the front event; an empty list stays empty |
| SchedQueues.EventQueue.GetNextEventTime | sched.cpp:332-340 | the front event's time; for non-negative times, -1 exactly when the list is empty |
| SchedQueues.FrontEarliest | sched.cpp:305-310 | in a list sorted by time the front event is the earliest |
| SchedQueues.RunQueue.constructor | sched.cpp:384-400 | a FCFS, LCFS, SJF or RR run queue starts empty |
| SchedQueues.RunQueue.AddProcess | sched.cpp:158-171 | SJF inserts by remaining CPU time, behind equal ones; FCFS, LCFS and RR append |
| SchedQueues.RunQueue.GetNextProcess | sched.cpp:134-142 | LCFS takes the most recently added process and the others take the oldest; none from an empty queue |
| SchedQueues.Highest | sched.cpp:254-260 | the highest non-empty level, and -1 exactly when all levels are empty |
| SchedQueues.PrioQueues.constructor | sched.cpp:225-227 | the active and expired queues start empty |
| SchedQueues.PrioQueues.AddProcess | sched.cpp:229-237 | a process whose dynamic priority reached -1 goes to the expired queue of its static level; any other goes to the active queue of its dynamic level |
| SchedQueues.PrioQueues.GetNextProcess | sched.cpp:239-262 | when every active level is empty, the active and expired queues swap; then the front of the highest non-empty active level is taken, or none |
| SchedDes.MyRandRange | sched.cpp:374-378 | with a non-negative table a draw for bound b lies in [1, b] |
| SchedDes.NewProcPrio | sched.cpp:351 | a process created with a priority drawn for 4 levels has static priority 1..4 and dynamic priority one below it |
| SchedDes.FreshBurstBounds | sched.cpp:509-514 | a fresh CPU burst is at most the burst bound and at most the remaining CPU time, and at least 1 unless it is the remaining time |
| SchedDes.DecayedOk | sched.cpp:486-490 | a quantum expiry lowers the dynamic priority by one, resetting to static priority minus one after 0, keeps it well formed, and changes nothing else |
| SchedDes.PutEventOk | sched.cpp:312-325 | posting an event for an existing process keeps the event list sorted and naming existing processes |
| SchedDes.DropEventOk | sched.cpp:327-330 | deleting the front event keeps that invariant |
| SchedDes.PostBehindFront | sched.cpp:316 | an event posted at the current time goes behind the front event being handled, which stays first |
| SchedDes.PostKeeps | sched.cpp:312-325 | posting keeps every pending event |
| SchedDes.Des.constructor | sched.cpp:289-303 | no process, no event, no running process, zero cursor and I/O totals, and the scheduler the discipline names |
| SchedDes.Des.MyRandom | sched.cpp:374-378 | returns 1 plus the cursor's table entry modulo the bound, in [1, bound]; the cursor advances by one |
| SchedDes.Des.AddInput | sched.cpp:347-357 | an input line adds process n with a drawn priority and posts its arrival as a to-READY event at its arrival time |
| SchedDes.Des.AddProcess | sched.cpp:424 | hands the process to the discipline's add rule, as the run queue and priority queue contracts state |
| SchedDes.Des.GetNextProcess | sched.cpp:504-507 | none exactly when the scheduler holds no process; otherwise an existing pid |
| SchedDes.Des.ReadyEvent | sched.cpp:418-426 | the process becomes READY and goes to the scheduler |
| SchedDes.Des.PreemptEvent | sched.cpp:483-492 | the process re-enters the scheduler with its priority decayed |
| SchedDes.Des.BlockEvent | sched.cpp:468-481 | at I/O completion the priority resets, a to-READY event is posted now, one less process does I/O, and the I/O time is added when the last one finishes |
| SchedDes.Des.RunEvent | sched.cpp:428-466 | at a burst's end the process either finishes (finishing and turnaround times), is preempted with burst time left (to-PREEMPT now), or blocks for a drawn I/O burst (to-BLOCK then, I/O accounting opened) |
| SchedDes.Des.StartBurst | sched.cpp:509-534 | the dispatched process gets a fresh burst when its last one ended, runs for its burst or one quantum, has its waiting time added, and a to-RUN event is posted |
| SchedDes.Des.Dispatch | sched.cpp:503-535 | with no process running, the scheduler's choice starts running and one to-RUN event is posted; with none available nothing changes |
| SchedDes.Des.Handle | sched.cpp:413-493 | the front event's transition is applied after its time in the previous state is set; a to-RUN event leaves no process running |
| SchedDes.Des.Step | sched.cpp:412-537 | one pass of the loop keeps every other pending event and adds at most one; it reports completion exactly when no event was pending |
| SchedDes.Des.Consume | sched.cpp:413-496 | the front event is handled and deleted and the rest stay pending |
| SchedDes.Des.Run | sched.cpp:412-537 | the simulation loop stops early only when no event is left |
| SchedDes.Des.Requeue | sched.cpp:435-440 | a preempted burst posts a to-PREEMPT event now |
| SchedDes.Des.StartIo | sched.cpp:444-454 | an I/O burst is drawn in [1, IO], added to the I/O time, and a to-BLOCK event is posted at its end, opening the I/O interval when none was open |
| IoQueues.Remove | iosched.cpp:98 | erasing the i-th request keeps the others in order |
| IoQueues.RemoveElements | iosched.cpp:98 | erasing takes away exactly that one request |
| IoQueues.ScanNearest | iosched.cpp:89-97 | the SSTF scan finds the first request at the least seek distance |
| IoQueues.ScanAhead | iosched.cpp:127-146 | the LOOK scan finds the first request nearest ahead in the direction (a track at the head counts), or reports that none lies ahead |
| IoQueues.FlipFinds | iosched.cpp:147-149 | when no request lies ahead, one lies ahead after the direction flips, so the recursive call finds one |
| IoQueues.FromZeroFinds | iosched.cpp:192-194 | with non-negative tracks, a scan from track 0 always finds a request |
| IoQueues.Fifo.constructor | iosched.cpp:50-52 | the queue starts empty |
| IoQueues.Fifo.AddRequest | iosched.cpp:54-56 | appends the request |
| IoQueues.Fifo.GetRequest | iosched.cpp:58-66 | removes and returns the oldest request; none from an empty queue |
| IoQueues.Sstf.constructor | iosched.cpp:78-80 | the queue starts empty |
| IoQueues.Sstf.AddRequest | iosched.cpp:82-84 | appends the request |
| IoQueues.Sstf.GetRequest | iosched.cpp:86-103 | removes and returns the earliest request at the least seek distance from the head; none from an empty queue |
| IoQueues.Look.constructor | iosched.cpp:116-118 | the head moves upwards and the queue is empty |
| IoQueues.Look.AddRequest | iosched.cpp:120-122 | appends the request |
| IoQueues.Look.GetRequest | iosched.cpp:124-158 | the direction is kept exactly when a request lies ahead, otherwise it flips; the request nearest ahead in the resulting direction is removed and returned |
| IoQueues.CLook.constructor | iosched.cpp:170-172 | the queue starts empty |
| IoQueues.CLook.AddRequest | iosched.cpp:174-176 | appends the request |
| IoQueues.CLook.GetRequest | iosched.cpp:178-203 | the nearest request at or above the head, or when there is none the nearest at or above track 0, is removed and returned |
| IoQueues.FLook.constructor | iosched.cpp:218-220 | the head moves upwards and both queues are empty |
| IoQueues.FLook.AddRequest | iosched.cpp:222-224 | new requests go to the waiting queue only |
| IoQueues.FLook.GetRequest | iosched.cpp:226-267 | an empty active queue takes over the waiting queue, which empties; then LOOK's rule picks from the active queue alone |
| IoSim.MaxOfBounds | iosched.cpp:362-363 | the maximum wait is at least 0, at least every wait, and is one of them unless it is 0 |
| IoSim.Disk.constructor | iosched.cpp:281-320 | the requests of the input, all totals zero, the head at track 0, nothing served, and the scheduler the algorithm names |
| IoSim.Disk.AddRequest | iosched.cpp:330-331 | the next input request, with its id and track, joins the back of the scheduler's queue (F-LOOK's waiting queue, its active queue unchanged) and the arrival count grows by one |
| IoSim.Disk.GetRequest | iosched.cpp:351 | the scheduler's choice is an arrived request with its own track |
| IoSim.Disk.StartRequest | iosched.cpp:355-363 | the request starts now and ends after the seek; the movement, turnaround and wait totals grow by its seek, turnaround and wait, and the maximum wait is updated |
| IoSim.Disk.Account | iosched.cpp:358-363 | the totals grow by exactly the request's figures and the maximum wait is the larger of old and new |
| IoSim.Disk.Tick | iosched.cpp:325-368 | the clock advances (or stays, in the no-seek case); at most the next input request arrives, exactly when its time has come; the total movement and the longest wait only grow |
| IoSim.Disk.Arrive | iosched.cpp:327-333 | the next input request joins the back of the scheduler's queue exactly when it arrives now; otherwise the scheduler is unchanged |
| IoSim.Disk.Complete | iosched.cpp:337-341 | a request ending now completes: the head rests on its track and the total time is now; otherwise nothing changes |
| IoSim.Disk.Serve | iosched.cpp:344-368 | a seek in progress keeps the head busy; with none, the scheduler's choice starts; the clock goes back one only when the served request needs no seek |
| IoSim.Disk.Run | iosched.cpp:324-369 | the loop stops early only when every request has arrived and none is being served |
| LinkerTables.IsInt | linker.cpp:145-150 | true exactly when every character is a digit, so also for the empty token |
| LinkerTables.IsSym | linker.cpp:152-159 | true exactly when the token starts with a letter and continues with letters and digits |
| LinkerTables.IsIaer | linker.cpp:161-166 | true exactly when the token starts with I, A, E or R |
| LinkerTables.SymbolOf | linker.cpp:175-182 | a symbol-shaped token of at most 16 characters is accepted as is; otherwise SYM_EXPECTED, or SYM_TOO_LONG when only the length is wrong |
| LinkerTables.IndexOf | linker.cpp:206-215 | the first table position holding the symbol, and -1 exactly when none does |
| LinkerTables.FindSymbol | linker.cpp:325-334 | the lookup loop returns that first position |
| LinkerTables.FirstOfSpec | linker.cpp:202-220 | the first definition of a symbol is one of its definitions, and there is none exactly when it is never defined |
| LinkerTables.DefsStep | linker.cpp:202-220 | one more definition keeps earlier first definitions, adds one to its symbol's count, and updates the table by the define rule |
| LinkerTables.AppendOk | linker.cpp:216-217 | a new symbol appended to the table keeps the table faithful to the definitions |
| LinkerTables.RecountOk | linker.cpp:218-219 | a repeated definition only counts up its symbol and keeps the table faithful |
| LinkerTables.TableSpec | linker.cpp:202-220 | the symbol table has one entry per defined symbol, holding the first definition's value and module and the number of definitions |
| LinkerTables.TableOrdered | linker.cpp:205-217 | the table lists its symbols in the order of their first definitions, the order the symbol table is printed and the rule-4 warnings are given in |
| LinkerTables.TableAppend | linker.cpp:202-220 | the table of one more definition is the old table with that definition applied |
| LinkerTables.ModnumsOfTable | linker.cpp:205 | every symbol's module number names a module read so far |
| LinkerTables.DefsOfAppend | linker.cpp:205 | the definitions of a module among more definitions are its old ones, followed by the new ones when they are its own |
| LinkerTables.DefsOfNone | linker.cpp:205 | before a module is read none of the definitions is its |
| LinkerTables.DefsOfNew | linker.cpp:197-220 | the definitions of the module read after modules 1 to modnum - 1 are exactly the ones it adds |
| LinkerTables.MultiplyDefined | linker.cpp:416-417 | a symbol is reported as multiply defined exactly when it has more than one definition |
| LinkerTables.BasesAppend | linker.cpp:240-243 | each module's base is the total size of the modules before it |
| LinkerTables.ModulesAppend | linker.cpp:223-241 | a module with a non-negative size and at most 16 valid use-list symbols keeps the module list well formed |
| LinkerTables.ModuleInMemory | linker.cpp:232-243 | with at most 512 instructions in all, every module lies inside the machine |
| LinkerTables.PrefixSize | linker.cpp:233-234 | the modules before any point take no more words than all modules |
| LinkerTables.PrefixNonNegative | linker.cpp:233 | total sizes are never negative |
| LinkerTables.Located | linker.cpp:251-256 | a relative address beyond the module's last word becomes 0, and the absolute address is the module base plus the relative one; nothing else changes |
| LinkerTables.LocatedInModule | linker.cpp:251-256 | a symbol's absolute address lies inside its module, or is the base of an empty module |
| LinkerTables.TooBigStep | linker.cpp:251-252 | each symbol adds a too-big warning exactly when its relative address exceeds its module's last word |
| LinkerTables.LocatedStep | linker.cpp:248-257 | each iteration of rule 5 locates one more symbol and leaves the rest |
| LinkerTables.Relocate | linker.cpp:287-361 | an E instruction with a legal opcode is reported as exceeding the use list exactly when its operand is at or beyond the use list's length, so the use list is only indexed inside its bounds; with an empty use list every such instruction is reported and kept as immediate |
| LinkerTables.RelocatedInMemory | linker.cpp:287-361 | a relocated word keeps its opcode and addresses a word inside the 512-word machine, barring reported errors |
| LinkerTables.EmptyUseListPasses | linker.cpp:319 | with an empty use list, the bound as written lets operand 0 through, though the list has no entry 0 |
| LinkerTables.AsWrittenAgrees | linker.cpp:319 | for a non-empty use list the bound as written is exactly "operand at least the use-list length" |
| LinkerTables.SameNamesIndex | linker.cpp:325-334 | tables with the same names in the same order find a symbol at the same position |
| LinkerTables.RelocateLayout | linker.cpp:314-346 | relocation depends only on the table's names and addresses, not on the used flags pass two sets |
| LinkerTables.UnusedDefsExact | linker.cpp:389-393 | an unused-definition warning is issued exactly for each table symbol never marked used |
| LinkerTables.UnusedUsesExact | linker.cpp:369-385 | an unused-use warning is issued exactly for each use-list entry never marked |
| LinkerTables.ReferencedAppend | linker.cpp:342 | one more instruction marks a symbol used exactly when it was used or the instruction refers to it |
| LinkerTables.NamedAppend | linker.cpp:324 | one more instruction marks a use-list entry exactly when it was marked or the instruction names it |
| LinkerTables.ReferencedLayout | linker.cpp:339-342 | which symbols are referenced does not depend on the used flags |
| LinkerTables.LinkedAppend | linker.cpp:284-364 | linking one more instruction appends its relocated word and marks the symbols it refers to |
| LinkerTables.CodeOfAppend | linker.cpp:283-288 | the instructions of a module among more instructions are its old ones, followed by the new ones when they are its own |
| LinkerTables.CodeOfNone | linker.cpp:283-288 | before a module is linked none of the instructions is its |
| LinkerTables.FlagsAppend | linker.cpp:323-324 | an E instruction inside its use list marks exactly that entry |
| LinkerTables.UsedEntries | linker.cpp:323-324 | one flag per use-list entry of the module |
| LinkerTables.UseWarningsExact | linker.cpp:369-385 | an unused-use warning names module mi+1 and entry j exactly when no instruction of that module named that entry |
| LinkerTables.NamedFrame | linker.cpp:268 | instructions of other modules never mark a module's use-list entries |
| LinkerTables.NamedFrom | linker.cpp:268 | instructions before a module's own never mark its entries |
| LinkerTables.UseWarningsFrame | linker.cpp:369-385 | later modules' instructions do not change earlier modules' warnings |
| LinkerTables.UseWarningsStep | linker.cpp:369-385 | the warnings after module mi are the earlier ones followed by that module's unused entries |
| LinkerTables.TableUnused | linker.cpp:29 | every symbol enters the table unused |
| LinkerTables.LinkedFinal | linker.cpp:263-386 | after pass two, each symbol is used exactly when an instruction refers to it, and each map word is the relocation of its instruction |
| LinkerTables.LaidOutIntro | linker.cpp:192-260 | the table built in pass one, located by rule 5, with its warnings, is the layout specification |
| LinkerTables.LaidOutUnused | linker.cpp:192-260 | no symbol is used after pass one |
| LinkerTables.LaidOutInMemory | linker.cpp:248-257 | each located symbol lies inside its module inside the machine |
| LinkerTables.LinkResult | linker.cpp:83-92 | pass one's layout followed by pass two's relocation is the link specification |
| LinkerTables.ResolvedUnusedDefs | linker.cpp:389-393 | after linking, a definition is reported unused exactly when no instruction references it |
| Linker.Parser.constructor | linker.cpp:75-81 | the parser starts at the first token with empty tables and outputs |
| Linker.Parser.GetToken | linker.cpp:94-143 | returns the next token and moves past it; at the end of input it returns the empty token |
| Linker.Parser.ReadInt | linker.cpp:168-173 | an all-digit token yields its decimal value; any other is NUM_EXPECTED |
| Linker.Parser.ReadSym | linker.cpp:175-182 | the token's symbol check, as stated for SymbolOf |
| Linker.Parser.ReadIaer | linker.cpp:184-189 | a token starting with I, A, E or R yields that mode; any other is ADDR_EXPECTED |
| Linker.Parser.DefineSymbol | linker.cpp:205-219 | records the definition, and the table stays the table of all definitions read |
| Linker.Parser.ReadDefs | linker.cpp:199-220 | reads a count and that many symbol/value pairs, each recorded with this module's number; a non-numeric count is NUM_EXPECTED, a count above 16 is TOO_MANY_DEF_IN_MODULE, otherwise the error is that of the first malformed pair; on success it stops where the use list begins, and the pairs are exactly the tokens after the count |
| Linker.Parser.PairsErrorNone | linker.cpp:202-220 | the pairs from k to n give no error exactly when each of them is a symbol and a number |
| Linker.Parser.ReadPairs | linker.cpp:202-220 | reads the given number of symbol/value pairs, each recorded with this module's number, keeping the symbol table the table of every definition read so far; the error is that of the first pair that fails, and none exactly when all pairs are well formed; on success it stops two tokens per pair after the count, and pair k is the two tokens at its place |
| Linker.Parser.DefsReadStep | linker.cpp:202-220 | one more pair read extends the read pairs by that definition |
| Linker.Parser.ReadDef | linker.cpp:203-219 | reads one symbol and value and records the definition; on an error nothing is recorded, and the error is the symbol's check on the first token or, if that passes, NUM_EXPECTED when the second is not a number |
| Linker.Parser.ModnumsAppend | linker.cpp:205 | definitions of module n added to those of earlier modules name modules up to n |
| Linker.Parser.ReadUses | linker.cpp:223-229 | reads a count and that many symbols; a non-numeric count is NUM_EXPECTED, a count above 16 is TOO_MANY_USE_IN_MODULE, otherwise the error is that of the first invalid symbol; on success the symbols are exactly the tokens after the count, in order, and reading stops after the last |
| Linker.Parser.SymsErrorNone | linker.cpp:225-228 | the use-list symbols from k to n give no error exactly when each is a valid symbol |
| Linker.Parser.ReadCode | linker.cpp:232-239 | reads a count and that many mode/number pairs; a non-numeric count is NUM_EXPECTED, a count taking the total beyond 512 is TOO_MANY_INSTR, otherwise a word that is not a mode is ADDR_EXPECTED and a non-numeric one NUM_EXPECTED, at the first malformed pair; on success every pair is a well-formed instruction and reading stops after the last |
| Linker.Parser.InstrsErrorNone | linker.cpp:234-238 | the instructions from k to n give no error exactly when each is a mode letter and a number |
| Linker.Parser.InstrsReadStep | linker.cpp:236-239 | one more instruction read extends the instructions read |
| Linker.Parser.ReadModule | linker.cpp:197-244 | the error is the first of the definition list's, the use list's and the program text's, so none exactly when the module text is well formed with at most 16 definitions and 16 uses and fits the machine; a module read without error is the text from where it starts to where it ends: its definitions, use list and size are those tokens, it starts at the given base, and its definitions carry its module number |
| Linker.Parser.ModuleErrorNone | linker.cpp:197-244 | a module gives no error exactly when its lists and program text have their form, it has at most 16 definitions and 16 uses, and its code fits the machine after the base |
| Linker.Parser.ReadForm | linker.cpp:268-283 | a module text pass one read has the form pass two checks |
| Linker.Parser.DefListForm | linker.cpp:270-274 | a definition list pass one read is a count and that many pairs, the form pass two skips |
| Linker.Parser.UseListForm | linker.cpp:277-280 | a use list pass one read is a count and that many symbols, the form pass two skips |
| Linker.Parser.ParsedForm | linker.cpp:192-283 | every module pass one read starts before the end of the input and its text has the form pass two checks, so pass two cannot fail on it |
| Linker.Parser.ParsedAppend | linker.cpp:192-245 | one more module read where the earlier ones end extends the modules whose text the input holds |
| Linker.Parser.OldModuleParsed | linker.cpp:205 | the definitions of a later module leave an earlier module's definitions as they were |
| Linker.Parser.NewModuleParsed | linker.cpp:197-244 | a module read with definitions none of which came before has exactly those definitions |
| Linker.Parser.NextModule | linker.cpp:197-244 | one iteration of pass one's loop reads one more module where the earlier ones end, with the error ReadModule states, and keeps the loop invariant: the modules are the input text up to the position, laid out one after another inside the machine, with the table of their definitions; on success it stops where that module ends and returns its size |
| Linker.Parser.ReadModules | linker.cpp:195-245 | pass one's loop stops with the error of the first malformed module of the input, laid out from address 0; without error it reads to the end of the input and the input is exactly the text of the modules built |
| Linker.Parser.InputErrorNone | linker.cpp:195-245 | the input from a module boundary gives no error exactly when it is a sequence of modules each of which fits after the ones before |
| Linker.Parser.Rule5 | linker.cpp:248-257 | every symbol is located by rule 5 and the too-big warnings are appended in table order |
| Linker.Parser.PassOne | linker.cpp:192-260 | the error is that of the first malformed module, and none exactly when the whole input is a sequence of well-formed modules that fit the machine; without a parse error, all tokens are read, the input is exactly the text of the modules built, one after another, and the table, modules and warnings are the layout specification |
| Linker.Parser.SkipDefs | linker.cpp:270-274 | pass two skips the definition list: it succeeds exactly when the count is a number followed by that many symbol/number pairs, a non-numeric count is NUM_EXPECTED, and on success it stops where the use list begins |
| Linker.Parser.SkipUses | linker.cpp:277-280 | pass two skips the use list: it succeeds exactly when the count is a number followed by that many symbols, a non-numeric count is NUM_EXPECTED, and on success it stops after the last symbol |
| Linker.Parser.SkipLists | linker.cpp:268-280 | both lists of a module are skipped exactly when both have the form pass two checks, and reading stops where the program text begins |
| Linker.Parser.PassTwoModule | linker.cpp:268-385 | one module of pass two succeeds exactly when its text has the form pass two checks; on success it stops where the module ends, the instructions appended are those of its program text, the linked-state invariant holds, and the unused-use warnings grow by exactly this module's unused entries |
| Linker.Parser.Resolve | linker.cpp:289-361 | the map word is the relocation of the instruction, and the symbol it refers to is marked used |
| Linker.Parser.LinkCode | linker.cpp:283-365 | succeeds exactly when the program text is a count and that many well-formed instructions; the instructions appended, each relocated into the map, are those tokens, in order, of module mi; the use-list flags mark exactly the entries they named |
| Linker.Parser.LinkInstrs | linker.cpp:284-365 | the instruction loop: every instruction it appends is the two tokens at its place, of module mi, relocated into the map with the linked-state invariant kept and the use-list flags tracking the entries named; on success it has read all count and stops after them, and an error means the program text is not a count and that many well-formed instructions |
| Linker.Parser.InstrsAtStep | linker.cpp:283-285 | one more instruction read after i of them keeps the earlier ones at their token positions |
| Linker.Parser.InstrsAtModule | linker.cpp:283-285 | the instructions read from one module's program text all belong to that module |
| Linker.Parser.InstrsAtCode | linker.cpp:283-285 | the instructions read, as many as the count, are that program text |
| Linker.Parser.CodeReadAppend | linker.cpp:265-283 | the instructions of module n, read from its program text, extend the instructions pass two read module by module |
| Linker.Parser.ModuleCodeAppend | linker.cpp:283-288 | appending module n's instructions read from its program text leaves every earlier module's instructions as they were and makes module n's those of its text |
| Linker.Parser.LinkInstr | linker.cpp:285-364 | succeeds exactly when the next two tokens are a mode and a number; then it appends the instruction of that mode and number, with its relocated word, and moves past both tokens; on an error nothing is appended |
| Linker.Parser.ReportUnusedUses | linker.cpp:369-385 | appends the module's unused use-list warnings |
| Linker.Parser.ReportUnusedDefs | linker.cpp:389-393 | appends the unused-definition warnings in table order |
| Linker.Parser.PassTwo | linker.cpp:263-395 | pass two reads the modules one after another from the first token; when it stops on an error, module n's text is malformed and all before it are well formed; otherwise it has read every module or the whole input, the instructions are those of the program texts, the map is their relocation, symbols are used exactly when referenced, and both warning lists are exact |
| Linker.Parser.LinkModules | linker.cpp:267-386 | the module loop of pass two: the modules before n are linked and well formed; an error means module n is malformed; otherwise it has read every module or the whole input, with the map, the instructions read and the unused-use warnings those of modules 0 to n - 1 |
| Linker.Parser.LinkNextModule | linker.cpp:268-385 | one turn of that loop moves past at least one token and keeps the map linked; an error means module mi is malformed, otherwise modules 0 to mi are linked and well formed with their instructions and warnings exact |
| Linker.Parser.LinkLaidOut | linker.cpp:263-395 | after a successful pass one, pass two reads every module pass one built without error, and its outputs are the link specification |
| Linker.Parser.PassTwoComplete | linker.cpp:263-395 | over an input that ends after the modules pass one built, each well formed, pass two cannot fail and reads them all: the map is linked, the instructions are those of the program texts and both warning lists are exact |
| Linker.Parser.Link | linker.cpp:83-92 | an error is that of pass one, none exactly when the whole input is a sequence of well-formed modules that fit the machine, and leaves the map empty; without a parse error, the input is exactly the text of the modules pass one laid out, pass two reads all of them, every instruction of their program texts is relocated against the located table, and the warnings are exact |
| Linker.Parser.OneModule | linker.cpp:192-245 | the input "0 0 1 I 5" is the text of exactly one module, whose program text starts at token 2 |
| Linker.Parser.OneFits | linker.cpp:192-245 | the input "0 0 1 I 5" gives pass one no error |
| Linker.Parser.OneInstruction | linker.cpp:283-285 | the program text "1 I 5" is the single instruction I 5 |
| Linker.Parser.OneCode | linker.cpp:265-285 | on "0 0 1 I 5" pass two reads exactly the instruction I 5 |
| Linker.LinkOneImmediate | linker.cpp:289-297 | linking "0 0 1 I 5" succeeds and gives the memory map of the one word 5 |
| Linker.LocateSymbols | linker.cpp:248-257 | the rule 5 loop locates every symbol and computes its warnings |
| Linker.UnusedUseWarnings | linker.cpp:369-385 | the rule 7 loop computes the unused-use warnings of a module |
| Linker.UnusedDefWarnings | linker.cpp:389-393 | the rule 4 loop computes the unused-definition warnings |

## Left out

General:

- Reading input files, parsing numbers with `atoi`/streams, command-line options, and all printing are not modelled. The model takes the parsed values (VMA lists, traces, process lines, requests, tokens) as parameters and produces warnings and the memory map as sequences. Outputs not modelled: the pager's `-o` output and its page table, frame table and summary, the scheduler's summary, the disk summary, and the linker's symbol table and memory map text.
- Floating-point results (the scheduler's utilisation, turnaround and waiting averages and throughput; the disk's averages) are not modelled.
- The model's integers are unbounded, so counter overflow of the programs' `int`/`unsigned long` fields is not modelled. The aging counters are the exception: they are 32-bit and are modelled as such.
- Lines starting with `#` in the pager's and the disk simulator's input are not modelled, because reading input is not.

Pager (`main.cpp`):

- The 7-bit FRAMEINDEX and VMA page fields: the simulator requires at most 128 frames and VMA pages below 128, and the 19-bit OWNUSAGE field is not modelled.
- VmmEngine.Vmm.Run: requires a well-formed trace (a switch before the first access, pids and pages in range). Otherwise the program uses an uninitialised process pointer or indexes outside the 64-entry table.
- VmmEngine.Vmm.constructor: requires an algorithm letter among f, s, r, n, c, a. Any other letter leaves the program's pager pointer uninitialised.
- VmmEngine.Vmm.constructor: requires, for random and NRU, a non-empty table of non-negative random numbers, because an empty table divides by zero in the program.
- The base `Pager::select_frame` returns nothing; it is never called, and is not modelled.
- VmmEngine.Vmm.Access: it does not state that the policy object and random cursor are unchanged on the hit and SEGV paths; Vmm.Hit and Vmm.Segfault, which those paths call, do not modify them.

CPU scheduler (`sched.cpp`):

- The `CALL_SCHEDULER` flag is not modelled: every transition sets it, so the scheduler is consulted after every event, unless another event is due at the same time.
- The quantum is a parameter of the simulation; `main`'s choice of the largest `int` for FCFS, LCFS and SJF is left to the caller.
- Common.CRem: pins the value of the remainder only for a non-negative dividend and a positive divisor; for other operands it states the sign and the bound, because every call divides a non-negative value by a positive one.
- SchedDes.Des.constructor: takes the discipline as a datatype; an unknown letter leaves the program's scheduler pointer uninitialised.
- SchedDes.Des.constructor: requires a positive quantum and a non-empty table of non-negative random numbers, which the program assumes without checking. A quantum of 0 (`-sR0`) would preempt a process at every dispatch without progress, an empty table divides by zero in `myrandom`, and a negative entry would draw a burst below 1.
- SchedDes.Des.AddInput: requires a positive IO burst bound for every process; the program draws an IO burst with `myrandom(IO)` only when a process blocks, so a process with IO 0 that never blocks would be accepted there.
- SchedDes.Des.AddProcess: requires PRIO priorities in the four levels, which priorities drawn for 4 levels always are (SchedDes.NewProcPrio).
- SchedDes.Des.Run: runs at most `limit` events; termination of the event loop is not proved.
- SchedDes.Des.Step: states the preserved invariant and the event list's multiset change, not the full new process table; the event methods (ReadyEvent, RunEvent, BlockEvent, PreemptEvent, StartBurst) state that.
- SchedDes.Des.Handle: states the invariant, the running process and the front-preserving insertions, not the full new state; the four event methods it calls state that.
- SchedDes.Des.GetNextProcess: states only emptiness and range of the result; the queue contracts (RunQueue.GetNextProcess, PrioQueues.GetNextProcess) state which process is taken.
- Events and run queues hold process ids rather than pointers to process objects.

Disk scheduler (`iosched.cpp`):

- IoQueues.ScanNearest: the programs start their minimum at `INT_MAX`, so a seek distance of `INT_MAX` or more is never chosen and is then undefined. The model compares unbounded distances instead.
- IoQueues.ScanAhead: the LOOK, C-LOOK and F-LOOK scans (`iosched.cpp:127`, `181`, `234`) also start their minimum at `INT_MAX`. The model instead starts with no candidate and compares unbounded distances, so a request `INT_MAX` or more tracks ahead, which the programs never choose, is chosen here.
- IoQueues.CLook.GetRequest: requires every track non-negative. Otherwise, with no request at or above the head, the program recurses from track 0 forever.
- IoSim.Disk.Tick: states arrivals, the clock and that the total movement and the longest wait only grow, not the complete new state (nor that the wait and turnaround totals grow); Disk.Arrive, Disk.Complete and Disk.Serve state their parts.
- IoSim.Disk.Serve: states the busy case, the clock adjustment and monotone totals, not which request starts; Disk.GetRequest and Disk.StartRequest state that.
- IoSim.Disk.GetRequest: states only that the request returned is an arrived one with its own track; which one is the chosen scheduler's contract in IoQueues.
- IoSim.Disk.Run: runs at most `limit` iterations; termination of the loop is not proved.

Linker (`linker.cpp`):

- The input is a given list of tokens. `getToken`'s character reading and the line and offset bookkeeping of parse errors are not modelled.
- Linker.Parser.GetToken: a read past the end yields the empty token. The program's `getToken` falls off its end at end of input without returning a value.
- The pass loops run while tokens remain. The program tests `eof()`, which can add a trailing empty module after trailing whitespace.
- `parseError`'s exit(1) becomes an error result that ends the pass.
- `atoi` overflow of long digit strings is not modelled.
- Pass two's `mod_list[modnum]` is not bounds-checked in the program. The model's pass two stops after the modules pass one built; after a successful pass one it reads exactly those (Linker.Parser.LinkLaidOut), so the two agree.
- The unused symbol lookup inside the rule 7 loop (`linker.cpp:372-381`) has no effect and is not modelled.
- Pass two's copy of each module, with its per-entry used flags, is modelled by a flag sequence per module.

## Findings

| source | as written | input that shows it | evidently intended | confidence | as-written member | corrected member |
|---|---|---|---|---|---|---|
| linker.cpp:319 | `oprand > module.use_list.size() - 1` computes the bound in unsigned `size_t`, so with an empty use list it wraps to 2^64-1; every operand passes, and `use_list[oprand]` is read out of bounds | a module with an empty use list and the instruction `E 1000` (operand 0) | an E operand at or beyond the use-list length, including every operand of an empty list, is reported as "External address exceeds length of uselist" and treated as immediate | not executed | LinkerTables.EmptyUseListPasses | LinkerTables.Relocate |
