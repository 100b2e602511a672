/** The queues of the CPU scheduler simulator: the time-ordered event list of
    the discrete-event simulation and the run queues of the five scheduling
    disciplines (FCFS, LCFS, SJF, RR and PRIO). Queues hold process ids; the
    simulation keeps the processes themselves in a table indexed by pid. */
module SchedQueues {
  import opened Common

  datatype State = Created | Ready | Running | Blocked | Finished

  datatype Transition = ToReady | ToRun | ToBlock | ToPreempt

  /** An event: at time timeStamp, process pid takes the transition. */
  datatype Event = Event(timeStamp: int, transition: Transition, pid: nat)

  function Stamp(e: Event): int
  {
    e.timeStamp
  }

  // ---------------------------------------------------------------------------
  // Stable insertion by key

  /** The index of the first element whose key is strictly above k, or |s| if none is. */
  function FirstAbove<T>(s: seq<T>, k: int, key: T -> int): (i: nat)
    ensures i <= |s|
    ensures forall j :: 0 <= j < i ==> key(s[j]) <= k
    ensures i < |s| ==> key(s[i]) > k
  {
    if s == [] then 0
    else if key(s[0]) > k then 0
    else 1 + FirstAbove(s[1..], k, key)
  }

  /** The first position with everything before it at most k and the element
      at it above k is FirstAbove. */
  lemma FirstAboveUnique<T>(s: seq<T>, k: int, key: T -> int, i: nat)
    requires i <= |s| && forall j :: 0 <= j < i ==> key(s[j]) <= k
    requires i < |s| ==> key(s[i]) > k
    ensures i == FirstAbove(s, k, key)
  {
  }

  function InsertAt<T>(s: seq<T>, i: nat, x: T): seq<T>
    requires i <= |s|
  {
    s[..i] + [x] + s[i..]
  }

  /** x inserted before the first element whose key is strictly greater. */
  function InsertByKey<T>(s: seq<T>, x: T, key: T -> int): (r: seq<T>)
    ensures |r| == |s| + 1
  {
    if s == [] then [x]
    else if key(s[0]) > key(x) then [x] + s
    else [s[0]] + InsertByKey(s[1..], x, key)
  }

  /** The insertion is at FirstAbove. */
  lemma {:induction false} InsertByKeyAt<T>(s: seq<T>, x: T, key: T -> int)
    ensures InsertByKey(s, x, key) == InsertAt(s, FirstAbove(s, key(x), key), x)
  {
    if s == [] {
    } else if key(s[0]) > key(x) {
      assert s[..0] + [x] + s[0..] == [x] + s;
    } else {
      var i := FirstAbove(s[1..], key(x), key);
      InsertByKeyAt(s[1..], x, key);
      calc {
        InsertByKey(s, x, key);
        [s[0]] + InsertByKey(s[1..], x, key);
        [s[0]] + (s[1..][..i] + [x] + s[1..][i..]);
        { assert [s[0]] + s[1..][..i] == s[..i + 1]; assert s[1..][i..] == s[i + 1..]; }
        s[..i + 1] + [x] + s[i + 1..];
      }
    }
  }

  ghost predicate SortedBy<T>(s: seq<T>, key: T -> int)
  {
    forall i, j :: 0 <= i < j < |s| ==> key(s[i]) <= key(s[j])
  }

  /** The scan of the source: walk while the key is at most x's, then insert. */
  method InsertStable<T>(s: seq<T>, x: T, key: T -> int) returns (r: seq<T>)
    ensures r == InsertByKey(s, x, key)
  {
    var i := 0;
    while i < |s| && key(s[i]) <= key(x)
      invariant 0 <= i <= |s|
      invariant forall j :: 0 <= j < i ==> key(s[j]) <= key(x)
    {
      i := i + 1;
    }
    FirstAboveUnique(s, key(x), key, i);
    InsertByKeyAt(s, x, key);
    r := s[..i] + [x] + s[i..];
  }

  /** The insertion adds exactly x. */
  lemma {:induction false} InsertByKeyElements<T>(s: seq<T>, x: T, key: T -> int)
    ensures multiset(InsertByKey(s, x, key)) == multiset(s) + multiset{x}
  {
    if s != [] {
      assert s == [s[0]] + s[1..];
      if key(s[0]) <= key(x) {
        InsertByKeyElements(s[1..], x, key);
      }
    }
  }

  /** Inserting x at a position i where everything before has a key at most
      x's and everything from i on a greater key keeps a list sorted. */
  lemma InsertAtSorted<T>(s: seq<T>, x: T, key: T -> int, i: nat)
    requires SortedBy(s, key) && i <= |s|
    requires forall j :: 0 <= j < i ==> key(s[j]) <= key(x)
    requires i < |s| ==> key(s[i]) > key(x)
    ensures var t := InsertAt(s, i, x);
      && SortedBy(t, key) && t[i] == x
      && (forall j :: 0 <= j < i ==> key(t[j]) <= key(x))
      && (forall j :: i < j < |t| ==> key(t[j]) > key(x))
  {
    var t := InsertAt(s, i, x);
    assert forall j :: 0 <= j < i ==> t[j] == s[j];
    assert forall j :: i < j < |t| ==> t[j] == s[j - 1];
    forall j | i < j < |t|
      ensures key(t[j]) > key(x)
    {
      assert key(s[i]) <= key(s[j - 1]);
    }
  }

  /** Insertion keeps a list sorted by key; x lands after every element with a
      key equal to its own and before every element with a greater key. */
  lemma InsertByKeySorted<T>(s: seq<T>, x: T, key: T -> int)
    requires SortedBy(s, key)
    ensures var r := InsertByKey(s, x, key); var i := FirstAbove(s, key(x), key);
      && SortedBy(r, key) && r[i] == x
      && (forall j :: 0 <= j < i ==> key(r[j]) <= key(x))
      && (forall j :: i < j < |r| ==> key(r[j]) > key(x))
  {
    InsertByKeyAt(s, x, key);
    InsertAtSorted(s, x, key, FirstAbove(s, key(x), key));
  }

  // ---------------------------------------------------------------------------
  // The event list

  /** The pending events, ordered by time stamp. */
  class EventQueue {
    var events: seq<Event>

    constructor ()
      ensures events == []
    {
      events := [];
    }

    /** The front event, or None on an empty list; nothing changes. */
    method GetEvent() returns (r: Option<Event>)
      ensures events == [] ==> r == None
      ensures events != [] ==> r == Some(events[0])
    {
      if events != [] {
        r := Some(events[0]);
      } else {
        r := None;
      }
    }

    /** The event goes before the first event with a strictly later time
        stamp, so after every event with an equal one. */
    method PutEvent(e: Event)
      modifies this
      ensures events == InsertByKey(old(events), e, Stamp)
    {
      events := InsertStable(events, e, Stamp);
    }

    /** Removes the front event, if any. */
    method DeleteEvent()
      modifies this
      ensures events == if old(events) == [] then [] else old(events)[1..]
    {
      if events != [] {
        events := events[1..];
      }
    }

    /** The time of the front event; -1 on an empty list, which with
        non-negative time stamps is exactly when the list is empty. */
    method GetNextEventTime() returns (r: int)
      ensures events != [] ==> r == events[0].timeStamp
      ensures (forall k :: 0 <= k < |events| ==> events[k].timeStamp >= 0) ==> (r == -1 <==> events == [])
    {
      if events != [] {
        r := events[0].timeStamp;
      } else {
        r := -1;
      }
    }
  }

  /** The front of a list ordered by time stamp carries the earliest stamp. */
  lemma FrontEarliest(events: seq<Event>)
    requires SortedBy(events, Stamp) && events != []
    ensures forall k :: 0 <= k < |events| ==> events[0].timeStamp <= events[k].timeStamp
  {
    forall k | 0 <= k < |events|
      ensures events[0].timeStamp <= events[k].timeStamp
    {
      if k > 0 {
        assert Stamp(events[0]) <= Stamp(events[k]);
      }
    }
  }

  // ---------------------------------------------------------------------------
  // Scheduling disciplines

  datatype Discipline = FCFS | LCFS | SJF | RR | PRIO

  /** The single run queue of FCFS, LCFS, SJF and RR. */
  class RunQueue {
    const discipline: Discipline
    var runqueue: seq<nat>

    constructor (d: Discipline)
      requires d != PRIO
      ensures discipline == d && runqueue == []
    {
      discipline := d;
      runqueue := [];
    }

    /** FCFS, LCFS and RR append; SJF inserts by remaining CPU time, before
        the first process with strictly more (remain gives it by pid). */
    method AddProcess(pid: nat, remain: nat -> int)
      modifies this
      ensures discipline != SJF ==> runqueue == old(runqueue) + [pid]
      ensures discipline == SJF ==> runqueue == InsertByKey(old(runqueue), pid, remain)
    {
      if discipline == SJF {
        runqueue := InsertStable(runqueue, pid, remain);
      } else {
        runqueue := runqueue + [pid];
      }
    }

    /** LCFS takes the newest process, the others the oldest (SJF's front is
        the shortest); None on an empty queue. */
    method GetNextProcess() returns (r: Option<nat>)
      modifies this
      ensures old(runqueue) == [] ==> r == None && runqueue == []
      ensures old(runqueue) != [] && discipline == LCFS ==>
        r == Some(old(runqueue)[|old(runqueue)| - 1]) && runqueue == old(runqueue)[..|old(runqueue)| - 1]
      ensures old(runqueue) != [] && discipline != LCFS ==>
        r == Some(old(runqueue)[0]) && runqueue == old(runqueue)[1..]
    {
      if runqueue == [] {
        r := None;
      } else if discipline == LCFS {
        r := Some(runqueue[|runqueue| - 1]);
        runqueue := runqueue[..|runqueue| - 1];
      } else {
        r := Some(runqueue[0]);
        runqueue := runqueue[1..];
      }
    }
  }

  /** Every process the queue returns was in it; the rest stay, in order. */
  lemma TakeFrontElements(q: seq<nat>)
    requires q != []
    ensures multiset(q) == multiset{q[0]} + multiset(q[1..])
    ensures multiset(q) == multiset(q[..|q| - 1]) + multiset{q[|q| - 1]}
  {
    assert q == [q[0]] + q[1..];
    assert q == q[..|q| - 1] + [q[|q| - 1]];
  }

  /** The number of priority levels of PRIO. */
  const LEVELS: nat := 4

  /** The highest level below n whose queue is not empty, or -1 if all are empty. */
  function Highest(qs: seq<seq<nat>>, n: nat): (r: int)
    requires n <= |qs|
    ensures -1 <= r < n
    ensures r == -1 <==> forall i :: 0 <= i < n ==> qs[i] == []
    ensures r >= 0 ==> qs[r] != [] && forall i :: r < i < n ==> qs[i] == []
  {
    if n == 0 then -1
    else if qs[n - 1] != [] then n - 1
    else Highest(qs, n - 1)
  }

  predicate AllEmpty(qs: seq<seq<nat>>)
  {
    forall i :: 0 <= i < |qs| ==> qs[i] == []
  }

  /** PRIO: an active and an expired queue per priority level. */
  class PrioQueues {
    var active: seq<seq<nat>>
    var expired: seq<seq<nat>>

    ghost predicate Valid()
      reads this
    {
      |active| == LEVELS && |expired| == LEVELS
    }

    constructor ()
      ensures Valid() && AllEmpty(active) && AllEmpty(expired)
    {
      active := [[], [], [], []];
      expired := [[], [], [], []];
    }

    /** A process whose dynamic priority reached -1 goes to the expired queue
        of its static priority's level; any other to the active queue of its
        dynamic priority. */
    method AddProcess(pid: nat, sprio: int, dprio: int)
      requires Valid()
      requires dprio == -1 ==> 1 <= sprio <= LEVELS
      requires dprio != -1 ==> 0 <= dprio < LEVELS
      modifies this
      ensures Valid()
      ensures dprio == -1 ==>
        expired == old(expired)[sprio - 1 := old(expired)[sprio - 1] + [pid]] && active == old(active)
      ensures dprio != -1 ==>
        active == old(active)[dprio := old(active)[dprio] + [pid]] && expired == old(expired)
    {
      if dprio == -1 {
        expired := expired[sprio - 1 := expired[sprio - 1] + [pid]];
      } else {
        active := active[dprio := active[dprio] + [pid]];
      }
    }

    /** When every active queue is empty the two sets are swapped; then the
        front of the highest non-empty active level is taken, or None when
        both sets were empty. */
    method GetNextProcess() returns (r: Option<nat>)
      requires Valid()
      modifies this
      ensures Valid()
      ensures AllEmpty(old(active)) ==> expired == old(active)
      ensures !AllEmpty(old(active)) ==> expired == old(expired)
      ensures var a := if AllEmpty(old(active)) then old(expired) else old(active);
        && (r == None <==> AllEmpty(a))
        && (r == None ==> active == a)
        && (r != None ==> var l := Highest(a, LEVELS);
             r == Some(a[l][0]) && active == a[l := a[l][1..]])
    {
      var empty := true;
      var i := 0;
      while i < LEVELS
        invariant 0 <= i <= LEVELS
        invariant empty <==> forall k :: 0 <= k < i ==> active[k] == []
      {
        if active[i] != [] {
          empty := false;
          break;
        }
        i := i + 1;
      }
      if empty {
        active, expired := expired, active;
      }
      ghost var a := active;
      var l := LEVELS;
      while l > 0
        invariant 0 <= l <= LEVELS && active == a
        invariant forall k :: l <= k < LEVELS ==> active[k] == []
      {
        if active[l - 1] != [] {
          assert Highest(a, LEVELS) == l - 1;
          r := Some(active[l - 1][0]);
          active := active[l - 1 := active[l - 1][1..]];
          return;
        }
        l := l - 1;
      }
      r := None;
    }
  }
}
