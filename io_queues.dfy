/** The disk-arm schedulers of the I/O scheduling simulator: FIFO, SSTF,
    LOOK, C-LOOK and F-LOOK, each holding pending requests and choosing the
    next one for the current head position. */
module IoQueues {
  import opened Common

  /** A pending request as a scheduler holds it: its index in the input and its track. */
  datatype IoReq = IoReq(id: nat, track: int)

  /** q without its i-th element. */
  function Remove<T>(q: seq<T>, i: nat): (r: seq<T>)
    requires i < |q|
    ensures |r| == |q| - 1
    ensures forall k :: 0 <= k < i ==> r[k] == q[k]
    ensures forall k :: i <= k < |r| ==> r[k] == q[k + 1]
  {
    q[..i] + q[i + 1..]
  }

  /** Removing an element takes exactly that one away. */
  lemma RemoveElements<T>(q: seq<T>, i: nat)
    requires i < |q|
    ensures multiset(q) == multiset(Remove(q, i)) + multiset{q[i]}
  {
    assert q == q[..i] + [q[i]] + q[i + 1..];
  }

  // ---------------------------------------------------------------------------
  // Selection rules

  /** i is a request at the least seek distance from cur, the earliest in the
      queue among equally near ones. */
  ghost predicate Nearest(q: seq<IoReq>, cur: int, i: nat)
  {
    && i < |q|
    && (forall j :: 0 <= j < |q| ==> Dist(q[i].track, cur) <= Dist(q[j].track, cur))
    && (forall j :: 0 <= j < i ==> Dist(q[j].track, cur) > Dist(q[i].track, cur))
  }

  /** How far ahead of the head at cur a track lies when moving in direction
      dir (1: towards higher tracks, -1: towards lower ones); negative when
      behind. */
  function Ahead(dir: int, track: int, cur: int): int
  {
    if dir == 1 then track - cur else cur - track
  }

  /** i is the request nearest ahead of cur in direction dir (a track at the
      head counts), the earliest in the queue among equally near ones. */
  ghost predicate Closest(q: seq<IoReq>, cur: int, dir: int, i: nat)
  {
    && i < |q|
    && Ahead(dir, q[i].track, cur) >= 0
    && (forall j :: 0 <= j < |q| && Ahead(dir, q[j].track, cur) >= 0 ==>
          Ahead(dir, q[i].track, cur) <= Ahead(dir, q[j].track, cur))
    && (forall j :: 0 <= j < i && Ahead(dir, q[j].track, cur) >= 0 ==>
          Ahead(dir, q[j].track, cur) > Ahead(dir, q[i].track, cur))
  }

  /** Every request lies behind the head in direction dir. */
  ghost predicate NoneAhead(q: seq<IoReq>, cur: int, dir: int)
  {
    forall j :: 0 <= j < |q| ==> Ahead(dir, q[j].track, cur) < 0
  }

  /** The SSTF scan: the first request at the least distance. */
  method ScanNearest(q: seq<IoReq>, cur: int) returns (id: nat)
    requires q != []
    ensures Nearest(q, cur, id)
  {
    var min := Dist(q[0].track, cur);
    id := 0;
    var i := 1;
    while i < |q|
      invariant 1 <= i <= |q| && id < i
      invariant min == Dist(q[id].track, cur)
      invariant forall j :: 0 <= j < i ==> min <= Dist(q[j].track, cur)
      invariant forall j :: 0 <= j < id ==> Dist(q[j].track, cur) > min
    {
      if Dist(q[i].track, cur) < min {
        min := Dist(q[i].track, cur);
        id := i;
      }
      i := i + 1;
    }
  }

  /** The LOOK scan in direction dir: the first request nearest ahead of the
      head, if there is one. */
  method ScanAhead(q: seq<IoReq>, cur: int, dir: int) returns (found: bool, id: nat)
    ensures found ==> Closest(q, cur, dir, id)
    ensures !found ==> NoneAhead(q, cur, dir)
  {
    found, id := false, 0;
    var min := 0;
    var i := 0;
    while i < |q|
      invariant 0 <= i <= |q|
      invariant found ==> id < i && min == Ahead(dir, q[id].track, cur) && min >= 0
      invariant found ==> forall j :: 0 <= j < i && Ahead(dir, q[j].track, cur) >= 0 ==> min <= Ahead(dir, q[j].track, cur)
      invariant found ==> forall j :: 0 <= j < id && Ahead(dir, q[j].track, cur) >= 0 ==> Ahead(dir, q[j].track, cur) > min
      invariant !found ==> forall j :: 0 <= j < i ==> Ahead(dir, q[j].track, cur) < 0
    {
      var dis := Ahead(dir, q[i].track, cur);
      if dis >= 0 && (!found || dis < min) {
        found, min, id := true, dis, i;
      }
      i := i + 1;
    }
  }

  /** Behind the head in one direction means ahead in the other: a non-empty
      queue always has a request ahead after the direction flips. */
  lemma FlipFinds(q: seq<IoReq>, cur: int, dir: int)
    requires q != [] && (dir == 1 || dir == -1) && NoneAhead(q, cur, dir)
    ensures !NoneAhead(q, cur, -dir)
  {
    assert Ahead(dir, q[0].track, cur) < 0;
  }

  /** No request lies at or above track 0 only if some track is negative. */
  lemma FromZeroFinds(q: seq<IoReq>)
    requires q != [] && forall j :: 0 <= j < |q| ==> q[j].track >= 0
    ensures !NoneAhead(q, 0, 1)
  {
    assert Ahead(1, q[0].track, 0) >= 0;
  }

  /** The requests all lie on non-negative tracks. */
  ghost predicate TracksOk(q: seq<IoReq>)
  {
    forall j :: 0 <= j < |q| ==> q[j].track >= 0
  }

  // ---------------------------------------------------------------------------
  // The schedulers

  /** FIFO: requests in arrival order. */
  class Fifo {
    var queue: seq<IoReq>

    constructor ()
      ensures queue == []
    {
      queue := [];
    }

    method AddRequest(r: IoReq)
      modifies this
      ensures queue == old(queue) + [r]
    {
      queue := queue + [r];
    }

    /** The oldest request, removed; None on an empty queue. */
    method GetRequest(cur: int) returns (r: Option<IoReq>)
      modifies this
      ensures old(queue) == [] ==> r == None && queue == []
      ensures old(queue) != [] ==> r == Some(old(queue)[0]) && queue == old(queue)[1..]
    {
      if queue != [] {
        r := Some(queue[0]);
        queue := queue[1..];
      } else {
        r := None;
      }
    }
  }

  /** SSTF: the request nearest the head. */
  class Sstf {
    var queue: seq<IoReq>

    constructor ()
      ensures queue == []
    {
      queue := [];
    }

    method AddRequest(r: IoReq)
      modifies this
      ensures queue == old(queue) + [r]
    {
      queue := queue + [r];
    }

    /** The first request at the least seek distance from cur, removed; None on
        an empty queue. */
    method GetRequest(cur: int) returns (r: Option<IoReq>)
      modifies this
      ensures old(queue) == [] ==> r == None && queue == []
      ensures old(queue) != [] ==> exists i: nat :: Nearest(old(queue), cur, i) && r == Some(old(queue)[i]) && queue == Remove(old(queue), i)
    {
      if queue != [] {
        var id := ScanNearest(queue, cur);
        r := Some(queue[id]);
        queue := Remove(queue, id);
      } else {
        r := None;
      }
    }
  }

  /** LOOK: the head keeps its direction while a request lies ahead, and turns
      round when none does. */
  class Look {
    var dir: int
    var queue: seq<IoReq>

    ghost predicate Valid()
      reads this
    {
      dir == 1 || dir == -1
    }

    /** The head starts out moving towards higher tracks. */
    constructor ()
      ensures Valid() && dir == 1 && queue == []
    {
      dir := 1;
      queue := [];
    }

    method AddRequest(r: IoReq)
      modifies this`queue
      ensures queue == old(queue) + [r]
    {
      queue := queue + [r];
    }

    /** The request nearest ahead in the current direction; when none lies
        ahead the direction flips and the nearest one ahead in the new
        direction is taken (one always is). The request is removed; None on an
        empty queue. */
    method GetRequest(cur: int) returns (r: Option<IoReq>)
      requires Valid()
      modifies this
      ensures Valid()
      ensures old(queue) == [] ==> r == None && queue == [] && dir == old(dir)
      ensures old(queue) != [] ==>
        && (dir == old(dir) <==> !NoneAhead(old(queue), cur, old(dir)))
        && (dir != old(dir) ==> dir == -old(dir))
        && exists i: nat :: Closest(old(queue), cur, dir, i) && r == Some(old(queue)[i]) && queue == Remove(old(queue), i)
    {
      if queue == [] {
        return None;
      }
      var found, id := ScanAhead(queue, cur, dir);
      if !found {
        FlipFinds(queue, cur, dir);
        dir := -dir;
        found, id := ScanAhead(queue, cur, dir);
      }
      r := Some(queue[id]);
      queue := Remove(queue, id);
    }
  }

  /** C-LOOK: the head only serves requests moving upwards and jumps back to
      track 0 when none lies ahead. */
  class CLook {
    var queue: seq<IoReq>

    constructor ()
      ensures queue == []
    {
      queue := [];
    }

    method AddRequest(r: IoReq)
      modifies this
      ensures queue == old(queue) + [r]
    {
      queue := queue + [r];
    }

    /** The request nearest at or above cur; when none is, the nearest at or
        above track 0, that is the lowest track. The request is removed; None
        on an empty queue. */
    method GetRequest(cur: int) returns (r: Option<IoReq>)
      requires TracksOk(queue)
      modifies this
      ensures old(queue) == [] ==> r == None && queue == []
      ensures old(queue) != [] ==>
        var from := if NoneAhead(old(queue), cur, 1) then 0 else cur;
        exists i: nat :: Closest(old(queue), from, 1, i) && r == Some(old(queue)[i]) && queue == Remove(old(queue), i)
    {
      if queue == [] {
        return None;
      }
      var found, id := ScanAhead(queue, cur, 1);
      if !found {
        FromZeroFinds(queue);
        found, id := ScanAhead(queue, 0, 1);
      }
      r := Some(queue[id]);
      queue := Remove(queue, id);
    }
  }

  /** F-LOOK: new requests wait in a second queue; LOOK serves the first
      queue, which is refilled from the waiting one whenever it runs empty. */
  class FLook {
    var dir: int
    var procQueue: seq<IoReq>
    var waitQueue: seq<IoReq>

    ghost predicate Valid()
      reads this
    {
      dir == 1 || dir == -1
    }

    constructor ()
      ensures Valid() && dir == 1 && procQueue == [] && waitQueue == []
    {
      dir := 1;
      procQueue := [];
      waitQueue := [];
    }

    /** New requests always go to the waiting queue. */
    method AddRequest(r: IoReq)
      modifies this`waitQueue
      ensures waitQueue == old(waitQueue) + [r]
    {
      waitQueue := waitQueue + [r];
    }

    /** When the queue being served is empty it takes over the waiting queue,
        which is emptied; then LOOK's rule picks from the served queue alone.
        None when both queues were empty. */
    method GetRequest(cur: int) returns (r: Option<IoReq>)
      requires Valid()
      modifies this
      ensures Valid()
      ensures var q := if old(procQueue) == [] then old(waitQueue) else old(procQueue);
        && waitQueue == (if old(procQueue) == [] then [] else old(waitQueue))
        && (q == [] ==> r == None && procQueue == [] && dir == old(dir))
        && (q != [] ==>
              && (dir == old(dir) <==> !NoneAhead(q, cur, old(dir)))
              && (dir != old(dir) ==> dir == -old(dir))
              && exists i: nat :: Closest(q, cur, dir, i) && r == Some(q[i]) && procQueue == Remove(q, i))
    {
      if procQueue == [] {
        procQueue := waitQueue;
        waitQueue := [];
      }
      if procQueue == [] {
        return None;
      }
      var found, id := ScanAhead(procQueue, cur, dir);
      if !found {
        FlipFinds(procQueue, cur, dir);
        dir := -dir;
        found, id := ScanAhead(procQueue, cur, dir);
      }
      r := Some(procQueue[id]);
      procQueue := Remove(procQueue, id);
    }
  }
}
