/** The disk simulator: a clock ticking once per unit of time, requests
    arriving in input order, one request served at a time, and the seek,
    wait and turnaround totals. */
module IoSim {
  import opened Common
  import opened IoQueues

  /** One request: arrival time and track from the input, start and end times
      once it is served. */
  datatype Request = Request(arrival: int, track: int, start: int, end: int)

  datatype Algorithm = FifoAlg | SstfAlg | LookAlg | CLookAlg | FLookAlg

  datatype Scheduler = SFifo(fifo: Fifo) | SSstf(sstf: Sstf) | SLook(look: Look) | SCLook(clook: CLook) | SFLook(flook: FLook)

  function SchedObject(s: Scheduler): object
  {
    match s
    case SFifo(x) => x
    case SSstf(x) => x
    case SLook(x) => x
    case SCLook(x) => x
    case SFLook(x) => x
  }

  /** Every queued request is one of the first n, with its own track. */
  ghost predicate Holds(q: seq<IoReq>, reqs: seq<Request>, n: nat)
  {
    forall k :: 0 <= k < |q| ==> q[k].id < n <= |reqs| && q[k].track == reqs[q[k].id].track
  }

  /** The scheduler's queues hold arrived requests, and LOOK and F-LOOK move in a direction. */
  ghost predicate SchedOk(s: Scheduler, reqs: seq<Request>, n: nat)
    reads SchedObject(s)
  {
    match s
    case SFifo(x) => Holds(x.queue, reqs, n)
    case SSstf(x) => Holds(x.queue, reqs, n)
    case SLook(x) => x.Valid() && Holds(x.queue, reqs, n)
    case SCLook(x) => Holds(x.queue, reqs, n)
    case SFLook(x) => x.Valid() && Holds(x.procQueue, reqs, n) && Holds(x.waitQueue, reqs, n)
  }

  /** Request r has joined the back of the scheduler's queue since the old
      state: F-LOOK's waiting queue, with its active queue as it was. */
  twostate predicate Enqueued(s: Scheduler, r: IoReq)
    reads SchedObject(s)
  {
    match s
    case SFifo(x) => x.queue == old(x.queue) + [r]
    case SSstf(x) => x.queue == old(x.queue) + [r]
    case SLook(x) => x.queue == old(x.queue) + [r]
    case SCLook(x) => x.queue == old(x.queue) + [r]
    case SFLook(x) => x.waitQueue == old(x.waitQueue) + [r] && x.procQueue == old(x.procQueue)
  }

  /** Every request lies on a non-negative track; C-LOOK's jump back to track
      0 needs it. */
  ghost predicate TracksNonNegative(reqs: seq<Request>)
  {
    forall k :: 0 <= k < |reqs| ==> reqs[k].track >= 0
  }

  /** A queue of arrived requests lies on non-negative tracks when all requests do. */
  lemma HoldsTracks(q: seq<IoReq>, reqs: seq<Request>, n: nat)
    requires Holds(q, reqs, n) && TracksNonNegative(reqs)
    ensures TracksOk(q)
  {
    forall k | 0 <= k < |q|
      ensures q[k].track >= 0
    {
      assert reqs[q[k].id].track == q[k].track;
    }
  }

  /** A queue keeps holding arrived requests after one more arrives. */
  lemma HoldsAppend(q: seq<IoReq>, reqs: seq<Request>, n: nat)
    requires Holds(q, reqs, n) && n < |reqs|
    ensures Holds(q + [IoReq(n, reqs[n].track)], reqs, n + 1)
  {
  }

  /** A queue keeps holding arrived requests when a request's times change. */
  lemma HoldsRetime(q: seq<IoReq>, reqs: seq<Request>, n: nat, id: nat, start: int, end: int)
    requires Holds(q, reqs, n) && id < |reqs|
    ensures Holds(q, reqs[id := reqs[id].(start := start, end := end)], n)
  {
    var t := reqs[id := reqs[id].(start := start, end := end)];
    forall k | 0 <= k < |q|
      ensures q[k].track == t[q[k].id].track
    {
      assert t[q[k].id].track == reqs[q[k].id].track;
    }
  }

  /** A queue keeps holding arrived requests after one is removed. */
  lemma HoldsRemove(q: seq<IoReq>, reqs: seq<Request>, n: nat, i: nat)
    requires Holds(q, reqs, n) && i < |q|
    ensures Holds(Remove(q, i), reqs, n) && q[i].id < n && q[i].track == reqs[q[i].id].track
  {
  }

  /** The sum of a sequence of numbers. */
  function Sum(s: seq<int>): int
  {
    if s == [] then 0 else Sum(s[..|s| - 1]) + s[|s| - 1]
  }

  /** The running maximum of a sequence, starting from 0. */
  function MaxOf(s: seq<int>): int
  {
    if s == [] then 0 else var m := MaxOf(s[..|s| - 1]); if s[|s| - 1] > m then s[|s| - 1] else m
  }

  /** The running maximum is at least 0 and every element, and is 0 or one of them. */
  lemma {:induction false} MaxOfBounds(s: seq<int>)
    ensures MaxOf(s) >= 0
    ensures forall k :: 0 <= k < |s| ==> s[k] <= MaxOf(s)
    ensures MaxOf(s) == 0 || exists k :: 0 <= k < |s| && s[k] == MaxOf(s)
  {
    if s != [] {
      var p := s[..|s| - 1];
      MaxOfBounds(p);
      assert forall k :: 0 <= k < |p| ==> s[k] == p[k];
      if MaxOf(p) != 0 && MaxOf(s) == MaxOf(p) {
        var k :| 0 <= k < |p| && p[k] == MaxOf(p);
        assert s[k] == MaxOf(s);
      }
    }
  }

  /** A sum of non-negative numbers is non-negative. */
  lemma {:induction false} SumNonNegative(s: seq<int>)
    requires forall k :: 0 <= k < |s| ==> s[k] >= 0
    ensures Sum(s) >= 0
  {
    if s != [] {
      SumNonNegative(s[..|s| - 1]);
    }
  }

  lemma SumAppend(s: seq<int>, x: int)
    ensures Sum(s + [x]) == Sum(s) + x
  {
    assert (s + [x])[..|s|] == s;
  }

  lemma MaxOfAppend(s: seq<int>, x: int)
    ensures MaxOf(s + [x]) == Max(MaxOf(s), x)
  {
    assert (s + [x])[..|s|] == s;
  }

  lemma NonNegativeAppend(s: seq<int>, x: int)
    requires x >= 0 && forall k :: 0 <= k < |s| ==> s[k] >= 0
    ensures forall k :: 0 <= k < |s + [x]| ==> (s + [x])[k] >= 0
  {
  }

  function Max(a: int, b: int): int
  {
    if a > b then a else b
  }

  class Disk {
    var reqs: seq<Request>
    const sched: Scheduler
    var simTime: int
    /** The track the head is at. */
    var trackAt: int
    /** How many requests have arrived. */
    var arrived: nat
    /** The index of the request being served, or -1 when none is. */
    var cur: int
    var totalTime: int
    var totMovement: int
    var maxWait: int
    var totalTurnaround: int
    var totalWait: int
    /** The seek distance, wait and turnaround of every request started, in order. */
    ghost var seeks: seq<int>
    ghost var waits: seq<int>
    ghost var turnarounds: seq<int>

    ghost predicate Valid()
      reads this, SchedObject(sched)
    {
      QueuesOk() && StatsOk()
    }

    /** The queues hold arrived requests, and the served one is a request. */
    ghost predicate QueuesOk()
      reads this`reqs, this`arrived, this`cur, SchedObject(sched)
    {
      && arrived <= |reqs|
      && -1 <= cur < |reqs|
      && SchedOk(sched, reqs, arrived)
      && (sched.SCLook? ==> TracksNonNegative(reqs))
      && SchedObject(sched) != this
    }

    /** The totals are the sums of the seeks, waits and turnarounds of the
        requests started, and the longest wait their running maximum. */
    ghost predicate StatsOk()
      reads this`totMovement, this`seeks, this`totalWait, this`waits, this`maxWait, this`totalTurnaround, this`turnarounds
    {
      && totMovement == Sum(seeks) && (forall k :: 0 <= k < |seeks| ==> seeks[k] >= 0)
      && totalWait == Sum(waits) && maxWait == MaxOf(waits)
      && totalTurnaround == Sum(turnarounds)
    }

    /** The simulation of the given requests, at time 0 with the head at track
        0 and every total 0. */
    constructor (alg: Algorithm, input: seq<Request>)
      requires alg == CLookAlg ==> TracksNonNegative(input)
      ensures Valid() && fresh(SchedObject(sched))
      ensures reqs == input && simTime == 0 && trackAt == 0 && arrived == 0 && cur == -1
      ensures totalTime == 0 && totMovement == 0 && maxWait == 0 && totalTurnaround == 0 && totalWait == 0
      ensures sched.SFifo? <==> alg == FifoAlg
      ensures sched.SSstf? <==> alg == SstfAlg
      ensures sched.SLook? <==> alg == LookAlg
      ensures sched.SCLook? <==> alg == CLookAlg
      ensures sched.SFLook? <==> alg == FLookAlg
    {
      reqs := input;
      match alg {
        case FifoAlg => var x := new Fifo(); sched := SFifo(x);
        case SstfAlg => var x := new Sstf(); sched := SSstf(x);
        case LookAlg => var x := new Look(); sched := SLook(x);
        case CLookAlg => var x := new CLook(); sched := SCLook(x);
        case FLookAlg => var x := new FLook(); sched := SFLook(x);
      }
      simTime, trackAt, arrived, cur := 0, 0, 0, -1;
      totalTime, totMovement, maxWait, totalTurnaround, totalWait := 0, 0, 0, 0, 0;
      seeks, waits, turnarounds := [], [], [];
    }

    /** Hands the next request of the input to the scheduler. */
    method AddRequest()
      requires Valid() && arrived < |reqs|
      modifies this`arrived, SchedObject(sched)
      ensures Valid() && arrived == old(arrived) + 1
      ensures Enqueued(sched, IoReq(old(arrived), reqs[old(arrived)].track))
    {
      var r := IoReq(arrived, reqs[arrived].track);
      match sched {
        case SFifo(x) => HoldsAppend(x.queue, reqs, arrived); x.AddRequest(r);
        case SSstf(x) => HoldsAppend(x.queue, reqs, arrived); x.AddRequest(r);
        case SLook(x) => HoldsAppend(x.queue, reqs, arrived); x.AddRequest(r);
        case SCLook(x) => HoldsAppend(x.queue, reqs, arrived); x.AddRequest(r);
        case SFLook(x) =>
          HoldsAppend(x.waitQueue, reqs, arrived);
          HoldsAppend(x.procQueue, reqs, arrived);
          x.AddRequest(r);
      }
      arrived := arrived + 1;
    }

    /** The scheduler's choice for the head's track: an arrived request with
        its own track, or None. */
    method GetRequest() returns (r: Option<IoReq>)
      requires Valid()
      modifies SchedObject(sched)
      ensures Valid()
      ensures r.Some? ==> r.value.id < arrived && r.value.track == reqs[r.value.id].track
    {
      match sched
      case SFifo(x) =>
        if x.queue != [] {
          HoldsRemove(x.queue, reqs, arrived, 0);
        }
        r := x.GetRequest(trackAt);
      case SSstf(x) =>
        ghost var q := x.queue;
        r := x.GetRequest(trackAt);
        if q != [] {
          var i: nat :| Nearest(q, trackAt, i) && r == Some(q[i]) && x.queue == Remove(q, i);
          HoldsRemove(q, reqs, arrived, i);
        }
      case SLook(x) =>
        ghost var q := x.queue;
        r := x.GetRequest(trackAt);
        if q != [] {
          var i: nat :| Closest(q, trackAt, x.dir, i) && r == Some(q[i]) && x.queue == Remove(q, i);
          HoldsRemove(q, reqs, arrived, i);
        }
      case SCLook(x) =>
        ghost var q := x.queue;
        HoldsTracks(q, reqs, arrived);
        r := x.GetRequest(trackAt);
        if q != [] {
          ghost var from := if NoneAhead(q, trackAt, 1) then 0 else trackAt;
          var i: nat :| Closest(q, from, 1, i) && r == Some(q[i]) && x.queue == Remove(q, i);
          HoldsRemove(q, reqs, arrived, i);
        }
      case SFLook(x) =>
        ghost var q := if x.procQueue == [] then x.waitQueue else x.procQueue;
        r := x.GetRequest(trackAt);
        if q != [] {
          var i: nat :| Closest(q, trackAt, x.dir, i) && r == Some(q[i]) && x.procQueue == Remove(q, i);
          HoldsRemove(q, reqs, arrived, i);
        }
    }

    /** Starts serving request id now: it ends after the seek from the head's
        track to its own, one unit per track; the seek joins the total
        movement, its wait and turnaround the totals, and the longest wait is
        kept. */
    method StartRequest(id: nat)
      requires Valid() && id < |reqs|
      modifies this`reqs, this`cur, this`totMovement, this`totalTurnaround, this`totalWait, this`maxWait,
        this`seeks, this`waits, this`turnarounds
      ensures Valid() && cur == id
      ensures var r := old(reqs)[id]; var seek := Dist(trackAt, r.track);
        && reqs == old(reqs)[id := r.(start := simTime, end := simTime + seek)]
        && totMovement == old(totMovement) + seek
        && totalTurnaround == old(totalTurnaround) + (simTime + seek - r.arrival)
        && totalWait == old(totalWait) + (simTime - r.arrival)
        && maxWait == Max(old(maxWait), simTime - r.arrival)
        && maxWait >= simTime - r.arrival && maxWait >= 0
    {
      var r := reqs[id];
      var move := Dist(trackAt, r.track);
      Retime(id, simTime, simTime + move);
      Account(move, simTime - r.arrival, simTime + move - r.arrival);
    }

    /** Request id is being served, from start to end. */
    method Retime(id: nat, start: int, end: int)
      requires QueuesOk() && id < |reqs|
      modifies this`reqs, this`cur
      ensures QueuesOk() && cur == id
      ensures reqs == old(reqs)[id := old(reqs)[id].(start := start, end := end)]
    {
      match sched {
        case SFifo(x) => HoldsRetime(x.queue, reqs, arrived, id, start, end);
        case SSstf(x) => HoldsRetime(x.queue, reqs, arrived, id, start, end);
        case SLook(x) => HoldsRetime(x.queue, reqs, arrived, id, start, end);
        case SCLook(x) => HoldsRetime(x.queue, reqs, arrived, id, start, end);
        case SFLook(x) =>
          HoldsRetime(x.procQueue, reqs, arrived, id, start, end);
          HoldsRetime(x.waitQueue, reqs, arrived, id, start, end);
      }
      reqs := reqs[id := reqs[id].(start := start, end := end)];
      cur := id;
    }

    /** A started request's seek, wait and turnaround join the totals; the
        longest wait is kept. */
    method Account(seek: nat, wait: int, turnaround: int)
      requires StatsOk()
      modifies this`totMovement, this`totalTurnaround, this`totalWait, this`maxWait, this`seeks, this`waits, this`turnarounds
      ensures StatsOk()
      ensures totMovement == old(totMovement) + seek
      ensures totalTurnaround == old(totalTurnaround) + turnaround
      ensures totalWait == old(totalWait) + wait
      ensures maxWait == Max(old(maxWait), wait) && maxWait >= wait && maxWait >= 0
    {
      SumAppend(seeks, seek);
      SumAppend(turnarounds, turnaround);
      SumAppend(waits, wait);
      MaxOfAppend(waits, wait);
      MaxOfBounds(waits + [wait]);
      NonNegativeAppend(seeks, seek);
      totMovement, seeks := totMovement + seek, seeks + [seek];
      totalTurnaround, turnarounds := totalTurnaround + turnaround, turnarounds + [turnaround];
      totalWait, waits := totalWait + wait, waits + [wait];
      if wait > maxWait {
        maxWait := wait;
      }
    }

    /** One iteration of the simulation loop: the clock advances, then a
        request arrives, one completes and one is served, as the three
        methods below say. */
    method Tick()
      requires Valid()
      modifies this`reqs, this`cur, this`totMovement, this`totalTurnaround, this`totalWait, this`maxWait,
        this`seeks, this`waits, this`turnarounds, this`simTime, this`arrived, this`trackAt, this`totalTime,
        SchedObject(sched)
      ensures Valid()
      ensures arrived == old(arrived) + (if old(arrived) < |old(reqs)| && old(reqs)[old(arrived)].arrival == old(simTime) + 1 then 1 else 0)
      ensures simTime == old(simTime) + 1 || simTime == old(simTime)
      ensures |reqs| == |old(reqs)| && totMovement >= old(totMovement) && maxWait >= old(maxWait)
    {
      simTime := simTime + 1;
      Arrive();
      Complete();
      Serve();
    }

    /** The next request of the input is handed to the scheduler when it
        arrives now; at most one arrives per iteration. */
    method Arrive()
      requires Valid()
      modifies this`arrived, SchedObject(sched)
      ensures Valid()
      ensures arrived == old(arrived) + (if old(arrived) < |reqs| && reqs[old(arrived)].arrival == simTime then 1 else 0)
      ensures old(arrived) < |reqs| && reqs[old(arrived)].arrival == simTime ==>
        Enqueued(sched, IoReq(old(arrived), reqs[old(arrived)].track))
      ensures !(old(arrived) < |reqs| && reqs[old(arrived)].arrival == simTime) ==> unchanged(SchedObject(sched))
    {
      if arrived < |reqs| && reqs[arrived].arrival == simTime {
        AddRequest();
      }
    }

    /** A request that ends now completes: the head is left on its track and
        the total time is now. */
    method Complete()
      requires Valid()
      modifies this`totalTime, this`trackAt, this`cur
      ensures Valid()
      ensures old(cur) != -1 && reqs[old(cur)].end == simTime ==>
        cur == -1 && trackAt == reqs[old(cur)].track && totalTime == simTime
      ensures !(old(cur) != -1 && reqs[old(cur)].end == simTime) ==>
        cur == old(cur) && trackAt == old(trackAt) && totalTime == old(totalTime)
    {
      if cur != -1 && reqs[cur].end == simTime {
        totalTime := simTime;
        trackAt := reqs[cur].track;
        cur := -1;
      }
    }

    /** A request still seeking keeps the head busy; with none being served
        the scheduler's choice starts, if there is one. When the request being
        served needs no seek, the clock is set back by one so that the next
        iteration runs at the same time. */
    method Serve()
      requires Valid()
      modifies this`reqs, this`cur, this`totMovement, this`totalTurnaround, this`totalWait, this`maxWait,
        this`seeks, this`waits, this`turnarounds, this`simTime, SchedObject(sched)
      ensures Valid() && |reqs| == |old(reqs)|
      ensures old(cur) != -1 ==> cur == old(cur) && reqs == old(reqs) && totMovement == old(totMovement)
      ensures old(cur) != -1 && old(reqs)[old(cur)].end > old(simTime) ==> simTime == old(simTime)
      ensures simTime == old(simTime) || (simTime == old(simTime) - 1 && cur != -1 && reqs[cur].track == trackAt)
      ensures totMovement >= old(totMovement) && maxWait >= old(maxWait)
    {
      if cur != -1 && reqs[cur].end > simTime {
        return;
      }
      if cur == -1 {
        var r := GetRequest();
        if r == None {
          return;
        }
        StartRequest(r.value.id);
      }
      if reqs[cur].track == trackAt {
        simTime := simTime - 1;
      }
    }

    /** The simulation loop, for at most limit iterations: it runs while
        requests are still to arrive or one is being served. */
    method Run(limit: nat) returns (steps: nat)
      requires Valid()
      modifies this`reqs, this`cur, this`totMovement, this`totalTurnaround, this`totalWait, this`maxWait,
        this`seeks, this`waits, this`turnarounds, this`simTime, this`arrived, this`trackAt, this`totalTime,
        SchedObject(sched)
      ensures Valid() && steps <= limit
      ensures steps < limit ==> arrived == |reqs| && cur == -1
      ensures totMovement >= 0 && maxWait >= 0
    {
      steps := 0;
      while steps < limit && (arrived < |reqs| || cur != -1)
        invariant Valid() && steps <= limit
        decreases limit - steps
      {
        Tick();
        steps := steps + 1;
      }
      SumNonNegative(seeks);
      MaxOfBounds(waits);
    }
  }
}
