/** The discrete-event simulation of the CPU scheduler: the process table,
    the deterministic random numbers, the four state transitions and the call
    into the scheduler that starts the next CPU burst. */
module SchedDes {
  import opened Common
  import opened SchedQueues

  /** A process: arrival time, total CPU time, CPU and I/O burst bounds, the
      finishing, turnaround, I/O and CPU-waiting times, static and dynamic
      priority, the remaining total and burst CPU time, and the time spent in
      the previous state and the time the current state began. */
  datatype Proc = Proc(
    pid: nat,
    state: State,
    at: int,
    tc: int,
    cb: int,
    io: int,
    ft: int,
    tt: int,
    it: int,
    cw: int,
    sprio: int,
    dprio: int,
    tcRemain: int,
    cbRemain: int,
    timeInPrevState: int,
    stateTs: int)

  /** A process as created from an input line, in state CREATED since its arrival. */
  function NewProc(pid: nat, at: int, tc: int, cb: int, io: int, prio: int): Proc
  {
    Proc(pid, Created, at, tc, cb, io, 0, 0, 0, 0, prio, prio - 1, tc, 0, 0, at)
  }

  /** The static priority is a level number 1..4 and the dynamic priority lies
      below it. */
  ghost predicate PrioOk(p: Proc)
  {
    1 <= p.sprio <= LEVELS && 0 <= p.dprio < p.sprio
  }

  /** Every process sits at its own pid, has a well-formed priority and
      positive burst bounds (the random draws divide by them). */
  ghost predicate ProcsOk(procs: seq<Proc>)
  {
    forall i :: 0 <= i < |procs| ==> procs[i].pid == i && PrioOk(procs[i]) && procs[i].cb > 0 && procs[i].io > 0
  }

  // ---------------------------------------------------------------------------
  // Random numbers and burst arithmetic

  /** The random table is not empty and holds no negative number. */
  predicate RandOk(values: seq<int>)
  {
    |values| > 0 && forall i :: 0 <= i < |values| ==> values[i] >= 0
  }

  /** The draw at position ofs for a burst bound: 1 plus the table value modulo the bound. */
  function MyRand(values: seq<int>, ofs: nat, burst: int): int
    requires |values| > 0 && burst != 0
  {
    1 + CRem(values[ofs % |values|], burst)
  }

  /** A draw lies in [1, burst]. */
  lemma MyRandRange(values: seq<int>, ofs: nat, burst: int)
    requires RandOk(values) && burst > 0
    ensures 1 <= MyRand(values, ofs, burst) <= burst
  {
    assert values[ofs % |values|] >= 0;
  }

  /** A priority drawn for a new process makes a well-formed priority. */
  lemma NewProcPrio(values: seq<int>, ofs: nat, pid: nat, at: int, tc: int, cb: int, io: int)
    requires RandOk(values)
    ensures PrioOk(NewProc(pid, at, tc, cb, io, MyRand(values, ofs, LEVELS)))
  {
    MyRandRange(values, ofs, LEVELS);
  }

  function Min(a: int, b: int): (r: int)
    ensures r <= a && r <= b && (r == a || r == b)
  {
    if a > b then b else a
  }

  /** A fresh CPU burst: the draw, capped by the remaining total CPU time. */
  function FreshBurst(draw: int, tcRemain: int): int
  {
    Min(draw, tcRemain)
  }

  /** A fresh burst never exceeds the draw's bound or the remaining CPU time. */
  lemma FreshBurstBounds(values: seq<int>, ofs: nat, cb: int, tcRemain: int)
    requires RandOk(values) && cb > 0
    ensures var b := FreshBurst(MyRand(values, ofs, cb), tcRemain);
      b <= cb && b <= tcRemain && (b == tcRemain || 1 <= b)
  {
    MyRandRange(values, ofs, cb);
  }

  /** The time the process runs once dispatched: its remaining burst, at most
      one quantum. */
  function RunLength(cbRemain: int, quantum: int): int
  {
    Min(cbRemain, quantum)
  }

  /** The dynamic priority after a quantum expires: one lower, and back to
      static priority minus one once it fell to -1. */
  function Decayed(p: Proc): Proc
  {
    if p.dprio - 1 == -1 then p.(dprio := p.sprio - 1) else p.(dprio := p.dprio - 1)
  }

  /** Decay keeps the priority well formed: it either drops by one or restarts
      at the top of the process's range. */
  lemma DecayedOk(p: Proc)
    requires PrioOk(p)
    ensures PrioOk(Decayed(p))
    ensures Decayed(p).dprio == p.dprio - 1 || (p.dprio == 0 && Decayed(p).dprio == p.sprio - 1)
    ensures Decayed(p).(dprio := p.dprio) == p
  {
  }

  // ---------------------------------------------------------------------------
  // The simulation state

  datatype Scheduler = Queue(rq: RunQueue) | Levels(pq: PrioQueues)

  function SchedObject(s: Scheduler): object
  {
    match s
    case Queue(q) => q
    case Levels(p) => p
  }

  ghost predicate PidsBelow(q: seq<nat>, n: nat)
  {
    forall i :: 0 <= i < |q| ==> q[i] < n
  }

  ghost predicate LevelsBelow(qs: seq<seq<nat>>, n: nat)
  {
    forall l :: 0 <= l < |qs| ==> PidsBelow(qs[l], n)
  }

  /** The scheduler's queues name processes of the table. */
  ghost predicate SchedOk(s: Scheduler, n: nat)
    reads SchedObject(s)
  {
    match s
    case Queue(q) => q.discipline != PRIO && PidsBelow(q.runqueue, n)
    case Levels(p) => p.Valid() && LevelsBelow(p.active, n) && LevelsBelow(p.expired, n)
  }

  /** The scheduler holds no process. */
  ghost predicate SchedEmpty(s: Scheduler)
    reads SchedObject(s)
  {
    match s
    case Queue(q) => q.runqueue == []
    case Levels(p) => AllEmpty(p.active) && AllEmpty(p.expired)
  }

  /** The events are ordered by time stamp and name processes of the table. */
  ghost predicate EventsOk(events: seq<Event>, n: nat)
  {
    SortedBy(events, Stamp) && forall i :: 0 <= i < |events| ==> events[i].pid < n
  }

  /** The remaining CPU time of each process, by pid: SJF's ordering key. */
  function RemainOf(procs: seq<Proc>): nat -> int
  {
    (q: nat) => if q < |procs| then procs[q].tcRemain else 0
  }

  /** Posting an event keeps the event list ordered and well formed. */
  lemma PutEventOk(events: seq<Event>, e: Event, n: nat)
    requires EventsOk(events, n) && e.pid < n
    ensures EventsOk(InsertByKey(events, e, Stamp), n)
  {
    InsertByKeySorted(events, e, Stamp);
    InsertByKeyElements(events, e, Stamp);
    var r := InsertByKey(events, e, Stamp);
    forall k | 0 <= k < |r|
      ensures r[k].pid < n
    {
      assert r[k] in multiset(r);
    }
  }

  /** Dropping the front event keeps the list ordered and well formed. */
  lemma DropEventOk(events: seq<Event>, n: nat)
    requires EventsOk(events, n)
    ensures EventsOk(if events == [] then [] else events[1..], n)
  {
  }

  /** The process table can grow under queues that name its processes. */
  lemma PidsGrow(q: seq<nat>, n: nat)
    requires PidsBelow(q, n)
    ensures PidsBelow(q, n + 1)
  {
  }

  /** Appending a process of the table keeps a queue naming table processes. */
  lemma PidsAppend(q: seq<nat>, pid: nat, n: nat)
    requires PidsBelow(q, n) && pid < n
    ensures PidsBelow(q + [pid], n)
  {
  }

  /** Inserting a process of the table keeps a queue naming table processes. */
  lemma PidsInsert(q: seq<nat>, pid: nat, key: nat -> int, n: nat)
    requires PidsBelow(q, n) && pid < n
    ensures PidsBelow(InsertByKey(q, pid, key), n)
  {
    InsertByKeyElements(q, pid, key);
    var r := InsertByKey(q, pid, key);
    forall k | 0 <= k < |r|
      ensures r[k] < n
    {
      assert r[k] in multiset(r);
    }
  }

  /** Taking one process off a queue keeps the rest naming table processes. */
  lemma PidsTake(q: seq<nat>, n: nat)
    requires PidsBelow(q, n) && q != []
    ensures PidsBelow(q[1..], n) && PidsBelow(q[..|q| - 1], n) && q[0] < n && q[|q| - 1] < n
  {
  }

  /** Appending a process of the table to one level keeps every level naming table processes. */
  lemma LevelsAppend(qs: seq<seq<nat>>, l: nat, pid: nat, n: nat)
    requires LevelsBelow(qs, n) && l < |qs| && pid < n
    ensures LevelsBelow(qs[l := qs[l] + [pid]], n)
  {
    PidsAppend(qs[l], pid, n);
  }

  /** Taking the front of one level keeps every level naming table processes. */
  lemma LevelsTake(qs: seq<seq<nat>>, l: nat, n: nat)
    requires LevelsBelow(qs, n) && l < |qs| && qs[l] != []
    ensures LevelsBelow(qs[l := qs[l][1..]], n) && qs[l][0] < n
  {
    PidsTake(qs[l], n);
  }

  /** Every level of the table grows with it. */
  lemma LevelsGrow(qs: seq<seq<nat>>, n: nat)
    requires LevelsBelow(qs, n)
    ensures LevelsBelow(qs, n + 1)
  {
  }

  /** An event posted no earlier than the front event goes behind it, so the
      front is still the event being processed when it is deleted. */
  lemma PostBehindFront(events: seq<Event>, e: Event)
    requires Due(events, e.timeStamp)
    ensures Posted(events, InsertByKey(events, e, Stamp))
  {
    if events != [] {
      InsertByKeyElements(events[1..], e, Stamp);
    }
  }

  /** No pending event is later than t at the front: an event due at t may be posted behind it. */
  ghost predicate Due(events: seq<Event>, t: int)
  {
    events != [] ==> events[0].timeStamp <= t
  }

  /** after is before with at most one event posted behind the front one. */
  ghost predicate Posted(before: seq<Event>, after: seq<Event>)
  {
    && |after| <= |before| + 1
    && (before != [] ==> after != [] && after[0] == before[0] && multiset(before[1..]) <= multiset(after[1..]))
  }

  /** Posting an event keeps every pending one. */
  lemma PostKeeps(events: seq<Event>, e: Event)
    ensures multiset(events) <= multiset(InsertByKey(events, e, Stamp))
  {
    InsertByKeyElements(events, e, Stamp);
    var m := multiset(events);
    assert m <= m + multiset{e};
  }

  lemma MultisetTrans(a: multiset<Event>, b: multiset<Event>, c: multiset<Event>)
    requires a <= b && b <= c
    ensures a <= c
  {
  }

  class Des {
    var procs: seq<Proc>
    const eventQueue: EventQueue
    const sched: Scheduler
    /** The quantum; the largest int for FCFS, LCFS and SJF. */
    const quantum: int
    const randvals: seq<int>
    var rofs: nat
    /** The pid of the running process, or -1 when none runs. */
    var running: int
    /** The number of processes doing I/O, since when one has, and the total
        time at least one has. */
    var ioNum: int
    var ioStart: int
    var totalIT: int

    ghost predicate Valid()
      reads this, eventQueue, SchedObject(sched)
    {
      && ProcsOk(procs)
      && EventsOk(eventQueue.events, |procs|)
      && SchedOk(sched, |procs|)
      && -1 <= running < |procs|
      && RandOk(randvals) && quantum > 0
      && SchedObject(sched) != eventQueue && SchedObject(sched) != this && eventQueue as object != this
    }

    /** A simulation with no process yet under the discipline named, with the
        given quantum and random table. */
    constructor (d: Discipline, tq: int, values: seq<int>)
      requires tq > 0 && RandOk(values)
      ensures Valid() && fresh(eventQueue) && fresh(SchedObject(sched)) && SchedEmpty(sched)
      ensures procs == [] && eventQueue.events == [] && running == -1 && rofs == 0
      ensures ioNum == 0 && ioStart == 0 && totalIT == 0
      ensures d == PRIO <==> sched.Levels?
      ensures sched.Queue? ==> sched.rq.discipline == d
    {
      procs := [];
      eventQueue := new EventQueue();
      if d == PRIO {
        var p := new PrioQueues();
        sched := Levels(p);
      } else {
        var q := new RunQueue(d);
        sched := Queue(q);
      }
      quantum := tq;
      randvals := values;
      rofs := 0;
      running := -1;
      ioNum, ioStart, totalIT := 0, 0, 0;
    }

    /** A random number in [1, burst]; the cursor advances by one. */
    method MyRandom(burst: int) returns (r: int)
      requires RandOk(randvals) && burst > 0
      modifies this`rofs
      ensures r == MyRand(randvals, old(rofs), burst) && 1 <= r <= burst
      ensures rofs == old(rofs) + 1
    {
      MyRandRange(randvals, rofs, burst);
      r := 1 + CRem(randvals[rofs % |randvals|], burst);
      rofs := rofs + 1;
    }

    /** One input line: a process with the next pid and a drawn priority in
        1..4, and its arrival event. */
    method AddInput(at: int, tc: int, cb: int, io: int)
      requires Valid() && cb > 0 && io > 0
      modifies this`procs, this`rofs, eventQueue
      ensures Valid()
      ensures procs == old(procs) + [NewProc(|old(procs)|, at, tc, cb, io, MyRand(randvals, old(rofs), LEVELS))]
      ensures eventQueue.events == InsertByKey(old(eventQueue.events), Event(at, ToReady, |old(procs)|), Stamp)
      ensures rofs == old(rofs) + 1
    {
      var prio := MyRandom(LEVELS);
      NewProcPrio(randvals, old(rofs), |procs|, at, tc, cb, io);
      var n := |procs|;
      PutEventOk(eventQueue.events, Event(at, ToReady, n), n + 1);
      GrowOk(n);
      procs := procs + [NewProc(n, at, tc, cb, io, prio)];
      eventQueue.PutEvent(Event(at, ToReady, n));
    }

    /** The scheduler's queues keep naming table processes when the table grows. */
    lemma GrowOk(n: nat)
      requires SchedOk(sched, n)
      ensures SchedOk(sched, n + 1)
      ensures EventsOk(eventQueue.events, n) ==> EventsOk(eventQueue.events, n + 1)
    {
      match sched
      case Queue(q) => PidsGrow(q.runqueue, n);
      case Levels(p) =>
        LevelsGrow(p.active, n);
        LevelsGrow(p.expired, n);
    }

    /** Hands a process to the scheduler, with its priorities as they are in
        the table. */
    method AddProcess(pid: nat)
      requires pid < |procs| && SchedOk(sched, |procs|)
      requires sched.Levels? ==> (procs[pid].dprio == -1 ==> 1 <= procs[pid].sprio <= LEVELS)
      requires sched.Levels? ==> (procs[pid].dprio != -1 ==> 0 <= procs[pid].dprio < LEVELS)
      modifies SchedObject(sched)
      ensures SchedOk(sched, |procs|)
      ensures sched.Queue? && sched.rq.discipline != SJF ==> sched.rq.runqueue == old(sched.rq.runqueue) + [pid]
      ensures sched.Queue? && sched.rq.discipline == SJF ==>
        sched.rq.runqueue == InsertByKey(old(sched.rq.runqueue), pid, RemainOf(procs))
      ensures sched.Levels? && procs[pid].dprio == -1 ==>
        var l := procs[pid].sprio - 1;
        sched.pq.expired == old(sched.pq.expired)[l := old(sched.pq.expired)[l] + [pid]]
        && sched.pq.active == old(sched.pq.active)
      ensures sched.Levels? && procs[pid].dprio != -1 ==>
        var l := procs[pid].dprio;
        sched.pq.active == old(sched.pq.active)[l := old(sched.pq.active)[l] + [pid]]
        && sched.pq.expired == old(sched.pq.expired)
    {
      match sched
      case Queue(q) =>
        if q.discipline == SJF {
          PidsInsert(q.runqueue, pid, RemainOf(procs), |procs|);
        } else {
          PidsAppend(q.runqueue, pid, |procs|);
        }
        q.AddProcess(pid, RemainOf(procs));
      case Levels(p) =>
        var l := if procs[pid].dprio == -1 then procs[pid].sprio - 1 else procs[pid].dprio;
        LevelsAppend(p.expired, l, pid, |procs|);
        LevelsAppend(p.active, l, pid, |procs|);
        p.AddProcess(pid, procs[pid].sprio, procs[pid].dprio);
    }

    /** Takes the next process from the scheduler: None exactly when it held none. */
    method GetNextProcess() returns (r: Option<nat>)
      requires SchedOk(sched, |procs|)
      modifies SchedObject(sched)
      ensures SchedOk(sched, |procs|)
      ensures r == None <==> old(SchedEmpty(sched))
      ensures r != None ==> r.value < |procs|
    {
      match sched
      case Queue(q) =>
        if q.runqueue != [] {
          PidsTake(q.runqueue, |procs|);
        }
        r := q.GetNextProcess();
      case Levels(p) =>
        ghost var a := if AllEmpty(p.active) then p.expired else p.active;
        ghost var l := Highest(a, LEVELS);
        if l >= 0 {
          LevelsTake(a, l, |procs|);
        }
        r := p.GetNextProcess();
    }

    /** TRANS_TO_READY: the process becomes READY and joins the run queue. */
    method ReadyEvent(pid: nat)
      requires Valid() && pid < |procs|
      modifies this`procs, SchedObject(sched)
      ensures Valid()
      ensures procs == old(procs)[pid := old(procs)[pid].(state := Ready)]
    {
      procs := procs[pid := procs[pid].(state := Ready)];
      AddProcess(pid);
    }

    /** TRANS_TO_PREEMPT: the dynamic priority drops by one, the process joins
        the run queue (PRIO files it as expired when the priority fell to -1),
        and the priority is then reset from -1 to static priority minus one. */
    method PreemptEvent(pid: nat)
      requires Valid() && pid < |procs|
      modifies this`procs, SchedObject(sched)
      ensures Valid()
      ensures procs == old(procs)[pid := Decayed(old(procs)[pid])]
    {
      DecayedOk(procs[pid]);
      procs := procs[pid := procs[pid].(dprio := procs[pid].dprio - 1)];
      AddProcess(pid);
      if procs[pid].dprio == -1 {
        procs := procs[pid := procs[pid].(dprio := procs[pid].sprio - 1)];
      }
    }

    /** TRANS_TO_BLOCK: back from I/O the dynamic priority is reset to static
        priority minus one, a READY event is posted for now, and the total I/O
        time grows when the last process doing I/O finishes it. */
    method BlockEvent(pid: nat, now: int)
      requires Valid() && pid < |procs|
      modifies this`procs, this`ioNum, this`totalIT, eventQueue
      ensures Valid()
      ensures procs == old(procs)[pid := old(procs)[pid].(dprio := old(procs)[pid].sprio - 1, stateTs := now, state := Ready)]
      ensures eventQueue.events == InsertByKey(old(eventQueue.events), Event(now, ToReady, pid), Stamp)
      ensures ioNum == old(ioNum) - 1
      ensures totalIT == old(totalIT) + (if ioNum == 0 then now - ioStart else 0)
      requires Due(eventQueue.events, now)
      ensures Posted(old(eventQueue.events), eventQueue.events)
    {
      PutEventOk(eventQueue.events, Event(now, ToReady, pid), |procs|);
      PostBehindFront(eventQueue.events, Event(now, ToReady, pid));
      procs := procs[pid := procs[pid].(dprio := procs[pid].sprio - 1, stateTs := now, state := Ready)];
      eventQueue.PutEvent(Event(now, ToReady, pid));
      ioNum := ioNum - 1;
      if ioNum == 0 {
        totalIT := totalIT + (now - ioStart);
      }
    }

    /** TRANS_TO_RUN: the time run is taken off the remaining CPU time. A
        process with none left finishes now; otherwise the time is taken off
        the burst, and a process with burst left is preempted now, while one
        whose burst is over starts an I/O burst drawn in [1, IO]. No process
        runs afterwards. */
    method RunEvent(pid: nat, now: int)
      requires Valid() && pid < |procs|
      modifies this`procs, this`rofs, this`running, this`ioNum, this`ioStart, eventQueue
      ensures Valid() && running == -1 && |procs| == |old(procs)|
      ensures forall q :: 0 <= q < |procs| && q != pid ==> procs[q] == old(procs)[q]
      ensures var p := old(procs)[pid]; var tc := p.tcRemain - p.timeInPrevState;
        tc <= 0 ==>
          && procs[pid] == p.(tcRemain := tc, stateTs := now, ft := now, tt := now - p.at, state := Finished)
          && eventQueue.events == old(eventQueue.events)
          && rofs == old(rofs) && ioNum == old(ioNum) && ioStart == old(ioStart)
      ensures var p := old(procs)[pid]; var tc := p.tcRemain - p.timeInPrevState;
        var cb := p.cbRemain - p.timeInPrevState;
        tc > 0 && cb > 0 ==>
          && procs[pid] == p.(tcRemain := tc, cbRemain := cb, stateTs := now, state := Ready)
          && eventQueue.events == InsertByKey(old(eventQueue.events), Event(now, ToPreempt, pid), Stamp)
          && rofs == old(rofs) && ioNum == old(ioNum) && ioStart == old(ioStart)
      ensures var p := old(procs)[pid]; var tc := p.tcRemain - p.timeInPrevState;
        var cb := p.cbRemain - p.timeInPrevState; var b := MyRand(randvals, old(rofs), p.io);
        tc > 0 && cb <= 0 ==>
          && 1 <= b <= p.io
          && procs[pid] == p.(tcRemain := tc, cbRemain := cb, it := p.it + b, stateTs := now, state := Blocked)
          && eventQueue.events == InsertByKey(old(eventQueue.events), Event(now + b, ToBlock, pid), Stamp)
          && rofs == old(rofs) + 1 && ioNum == old(ioNum) + 1
          && ioStart == (if old(ioNum) == 0 then now else old(ioStart))
      requires Due(eventQueue.events, now)
      ensures Posted(old(eventQueue.events), eventQueue.events)
    {
      var p := procs[pid];
      var tc := p.tcRemain - p.timeInPrevState;
      var cb := p.cbRemain - p.timeInPrevState;
      if tc > 0 {
        if cb > 0 {
          Requeue(pid, p.(tcRemain := tc, cbRemain := cb, stateTs := now, state := Ready), now);
        } else {
          var b := StartIo(pid, p.(tcRemain := tc, cbRemain := cb, stateTs := now, state := Blocked), now);
        }
      } else {
        Replace(pid, p.(tcRemain := tc, stateTs := now, ft := now, tt := now - p.at, state := Finished));
      }
      running := -1;
    }

    /** The burst of a dispatched process: a fresh one, drawn in [1, CB] and
        capped by the remaining CPU time, when the last one is used up, else
        what is left of it. The process runs for that burst but at most one
        quantum: a TRANS_TO_RUN event is posted for then. Its time in READY is
        added to its CPU waiting time. */
    method StartBurst(pid: nat, now: int)
      requires Valid() && pid < |procs|
      modifies this`procs, this`rofs, this`running, eventQueue
      ensures Valid() && running == pid
      ensures var p := old(procs)[pid];
        var cb := if p.cbRemain == 0 then FreshBurst(MyRand(randvals, old(rofs), p.cb), p.tcRemain) else p.cbRemain;
        var w := now - p.stateTs;
        && procs == old(procs)[pid := p.(cbRemain := cb, timeInPrevState := w, stateTs := now, state := Running, cw := p.cw + w)]
        && eventQueue.events == InsertByKey(old(eventQueue.events), Event(now + RunLength(cb, quantum), ToRun, pid), Stamp)
        && rofs == old(rofs) + (if p.cbRemain == 0 then 1 else 0)
    {
      var p := procs[pid];
      if p.cbRemain == 0 {
        var draw := MyRandom(p.cb);
        p := p.(cbRemain := FreshBurst(draw, p.tcRemain));
      }
      var burst := RunLength(p.cbRemain, quantum);
      PutEventOk(eventQueue.events, Event(now + burst, ToRun, pid), |procs|);
      eventQueue.PutEvent(Event(now + burst, ToRun, pid));
      var w := now - p.stateTs;
      Replace(pid, p.(timeInPrevState := w, stateTs := now, state := Running, cw := p.cw + w));
      running := pid;
    }

    /** With no process running, the scheduler picks the next one and its burst
        starts; when the scheduler holds none nothing else changes. */
    method Dispatch(now: int)
      requires Valid() && running == -1
      modifies this`procs, this`rofs, this`running, eventQueue, SchedObject(sched)
      ensures Valid() && |procs| == |old(procs)|
      ensures running == -1 <==> old(SchedEmpty(sched))
      ensures running == -1 ==> procs == old(procs) && eventQueue.events == old(eventQueue.events) && rofs == old(rofs)
      ensures running != -1 ==> eventQueue.events == InsertByKey(old(eventQueue.events), Event(now + RunLength(procs[running].cbRemain, quantum), ToRun, running), Stamp)
      ensures multiset(old(eventQueue.events)) <= multiset(eventQueue.events) && |eventQueue.events| <= |old(eventQueue.events)| + 1
    {
      ghost var before := eventQueue.events;
      var next := GetNextProcess();
      assert eventQueue.events == before && Valid();
      if next.Some? {
        ghost var p := procs[next.value];
        ghost var cb := if p.cbRemain == 0 then FreshBurst(MyRand(randvals, rofs, p.cb), p.tcRemain) else p.cbRemain;
        ghost var e := Event(now + RunLength(cb, quantum), ToRun, next.value);
        StartBurst(next.value, now);
        assert procs[running].cbRemain == cb && eventQueue.events == InsertByKey(before, e, Stamp);
        PostKeeps(before, e);
      }
    }

    /** The transition the event names, for its process at its time, whose
        time in the previous state is set first. Events it posts go behind
        the front, so the front is still the event handled. */
    method Handle(e: Event)
      requires Valid() && e.pid < |procs|
      requires eventQueue.events != [] && e == eventQueue.events[0]
      modifies this`procs, this`rofs, this`running, this`ioNum, this`ioStart, this`totalIT, eventQueue, SchedObject(sched)
      ensures Valid() && |procs| == |old(procs)|
      ensures e.transition != ToRun ==> running == old(running)
      ensures e.transition == ToRun ==> running == -1
      ensures Posted(old(eventQueue.events), eventQueue.events)
    {
      var p := procs[e.pid];
      Replace(e.pid, p.(timeInPrevState := e.timeStamp - p.stateTs));
      match e.transition
      case ToReady => ReadyEvent(e.pid);
      case ToRun => RunEvent(e.pid, e.timeStamp);
      case ToBlock => BlockEvent(e.pid, e.timeStamp);
      case ToPreempt => PreemptEvent(e.pid);
    }

    /** One pass of the simulation loop: the front event is handled and
        deleted; then, unless another event is due at the same time, a process
        is dispatched if none runs. done when no event was pending. Every
        other pending event stays, and at most one event more is pending. */
    method Step() returns (done: bool)
      requires Valid()
      modifies this`procs, this`rofs, this`running, this`ioNum, this`ioStart, this`totalIT, eventQueue, SchedObject(sched)
      ensures Valid() && |procs| == |old(procs)|
      ensures done <==> old(eventQueue.events) == []
      ensures done ==> procs == old(procs) && eventQueue.events == [] && running == old(running)
      ensures multiset(if done then [] else old(eventQueue.events)[1..]) <= multiset(eventQueue.events)
      ensures |eventQueue.events| <= |old(eventQueue.events)| + 1
    {
      var front := eventQueue.GetEvent();
      if front == None {
        return true;
      }
      done := false;
      var e := front.value;
      Consume(e);
      var t := eventQueue.GetNextEventTime();
      if t == e.timeStamp {
        return;
      }
      if running == -1 {
        ghost var before := eventQueue.events;
        Dispatch(e.timeStamp);
        MultisetTrans(multiset(old(eventQueue.events)[1..]), multiset(before), multiset(eventQueue.events));
      }
    }

    /** The front event is handled and deleted; the other pending events stay. */
    method Consume(e: Event)
      requires Valid() && eventQueue.events != [] && e == eventQueue.events[0]
      modifies this`procs, this`rofs, this`running, this`ioNum, this`ioStart, this`totalIT, eventQueue, SchedObject(sched)
      ensures Valid() && |procs| == |old(procs)|
      ensures multiset(old(eventQueue.events)[1..]) <= multiset(eventQueue.events)
      ensures |eventQueue.events| <= |old(eventQueue.events)|
    {
      Handle(e);
      eventQueue.DeleteEvent();
    }

    /** The simulation loop, for at most limit events: it stops early only
        when no event is left. */
    method Run(limit: nat) returns (steps: nat)
      requires Valid()
      modifies this`procs, this`rofs, this`running, this`ioNum, this`ioStart, this`totalIT, eventQueue, SchedObject(sched)
      ensures Valid() && |procs| == |old(procs)| && steps <= limit
      ensures steps < limit ==> eventQueue.events == []
    {
      steps := 0;
      while steps < limit
        invariant Valid() && |procs| == |old(procs)| && steps <= limit
        decreases limit - steps
      {
        var done := Step();
        if done {
          return;
        }
        steps := steps + 1;
      }
    }

    /** The process q replaces process pid. */
    method Replace(pid: nat, q: Proc)
      requires Valid() && pid < |procs| && q.pid == pid && PrioOk(q) && q.cb > 0 && q.io > 0
      modifies this`procs
      ensures Valid() && procs == old(procs)[pid := q]
    {
      procs := procs[pid := q];
    }

    /** The process q replaces process pid, and a TRANS_TO_PREEMPT event is posted for now. */
    method Requeue(pid: nat, q: Proc, now: int)
      requires Valid() && pid < |procs| && q.pid == pid && PrioOk(q) && q.cb > 0 && q.io > 0
      modifies this`procs, eventQueue
      ensures Valid() && procs == old(procs)[pid := q]
      ensures eventQueue.events == InsertByKey(old(eventQueue.events), Event(now, ToPreempt, pid), Stamp)
      requires Due(eventQueue.events, now)
      ensures Posted(old(eventQueue.events), eventQueue.events)
    {
      PutEventOk(eventQueue.events, Event(now, ToPreempt, pid), |procs|);
      PostBehindFront(eventQueue.events, Event(now, ToPreempt, pid));
      eventQueue.PutEvent(Event(now, ToPreempt, pid));
      procs := procs[pid := q];
    }

    /** The process q replaces process pid with an I/O burst drawn in [1, IO]
        added to its I/O time, and a TRANS_TO_BLOCK event is posted for the
        burst's end; the I/O counter and the start of the I/O period are kept. */
    method StartIo(pid: nat, q: Proc, now: int) returns (b: int)
      requires Valid() && pid < |procs| && q.pid == pid && PrioOk(q) && q.cb > 0 && q.io > 0
      requires Due(eventQueue.events, now)
      modifies this`procs, this`rofs, this`ioNum, this`ioStart, eventQueue
      ensures Valid()
      ensures b == MyRand(randvals, old(rofs), q.io) && 1 <= b <= q.io
      ensures procs == old(procs)[pid := q.(it := q.it + b)]
      ensures eventQueue.events == InsertByKey(old(eventQueue.events), Event(now + b, ToBlock, pid), Stamp)
      ensures rofs == old(rofs) + 1 && ioNum == old(ioNum) + 1
      ensures ioStart == (if old(ioNum) == 0 then now else old(ioStart))
      ensures Posted(old(eventQueue.events), eventQueue.events)
    {
      b := MyRandom(q.io);
      PutEventOk(eventQueue.events, Event(now + b, ToBlock, pid), |procs|);
      PostBehindFront(eventQueue.events, Event(now + b, ToBlock, pid));
      eventQueue.PutEvent(Event(now + b, ToBlock, pid));
      assert SchedOk(sched, |procs|);
      procs := procs[pid := q.(it := q.it + b)];
      if ioNum == 0 {
        ioStart := now;
      }
      ioNum := ioNum + 1;
    }
  }
}
