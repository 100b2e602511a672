/** The six page-replacement policies. Each one first takes the lowest free frame
    of the frame table; only when every frame is owned does it run its eviction
    rule. Each eviction rule is a ghost function of the policy state and the
    processes on entry, and each SelectFrame method is proved to compute it. */
module VmmPolicies {
  import opened VmmTypes

  /** The elements of a sequence, as a set. */
  function Elems(q: seq<nat>): (s: set<nat>)
    ensures forall x :: x in s <==> x in q
  {
    set x | x in q
  }

  /** Extending a prefix by one element adds that element. */
  lemma ElemsSnoc(q: seq<nat>, i: nat)
    requires i < |q|
    ensures Elems(q[..i + 1]) == Elems(q[..i]) + {q[i]}
  {
    assert q[..i + 1] == q[..i] + [q[i]];
  }

  /** The frame indices 0..n-1. */
  function Indices(n: nat): (s: set<nat>)
    ensures forall x: nat :: x in s <==> x < n
  {
    if n == 0 then {} else Indices(n - 1) + {n - 1}
  }

  /** q rotated left by k places: q[k..] followed by q[..k]. */
  function Rotate(q: seq<nat>, k: nat): (r: seq<nat>)
    requires k <= |q|
    ensures |r| == |q|
  {
    q[k..] + q[..k]
  }

  /** Moving the head of Rotate(q, k) to its tail gives Rotate(q, k + 1). */
  lemma RotateStep(q: seq<nat>, k: nat)
    requires k < |q|
    ensures Rotate(q, k)[0] == q[k]
    ensures Rotate(q, k)[1..] + [Rotate(q, k)[0]] == Rotate(q, k + 1)
  {
    assert q[k..][1..] == q[k + 1..];
    assert q[..k] + [q[k]] == q[..k + 1];
  }

  /** A full rotation is the identity. */
  lemma RotateFull(q: seq<nat>)
    ensures Rotate(q, |q|) == q && Rotate(q, 0) == q
  {
    assert q[|q|..] == [] && q[..|q|] == q;
    assert q[0..] == q && q[..0] == [];
  }

  /** Element j of Rotate(q, h) is the one j places after h around the circle. */
  lemma RotateAt(q: seq<nat>, h: nat, j: nat)
    requires h < |q| && j < |q|
    ensures Rotate(q, h)[j] == q[if h + j < |q| then h + j else h + j - |q|]
  {
  }

  /** A rotation of a sequence of distinct elements has distinct elements. */
  lemma RotateDistinct(q: seq<nat>, k: nat)
    requires Distinct(q) && k <= |q|
    ensures Distinct(Rotate(q, k))
  {
    var r := Rotate(q, k);
    forall i, j | 0 <= i < j < |r|
      ensures r[i] != r[j]
    {
      var a := if i < |q| - k then k + i else i - (|q| - k);
      var b := if j < |q| - k then k + j else j - (|q| - k);
      assert r[i] == q[a] && r[j] == q[b] && a != b;
    }
  }

  /** A rotation of a queue holds the same frames. */
  lemma RotateQueueOf(q: seq<nat>, k: nat, used: nat)
    requires QueueOf(q, used) && k <= |q|
    ensures QueueOf(Rotate(q, k), used)
  {
    RotateDistinct(q, k);
    var r := Rotate(q, k);
    forall i | 0 <= i < |r|
      ensures r[i] < used
    {
      assert r[i] in q;
    }
  }

  /** A number below 2n taken modulo n. */
  lemma ModSmall(x: nat, n: nat)
    requires 0 < n && x < 2 * n
    ensures x % n == if x < n then x else x - n
  {
    if x >= n {
      assert x == 1 * n + (x - n);
    }
  }

  /** Every frame of the table is owned by some page. */
  ghost predicate AllOwned(frames: seq<Frame>)
  {
    forall f :: 0 <= f < |frames| ==> frames[f].pid != FREE
  }

  /** Every element of q is a frame index of the table. */
  ghost predicate FramesIn(q: seq<nat>, frames: seq<Frame>)
  {
    forall i :: 0 <= i < |q| ==> q[i] < |frames|
  }

  /** The number of leading frames of q whose page has REFERENCED set: the index
      of the first frame whose bit is clear, or |q| when every bit is set. */
  ghost function FirstClear(q: seq<nat>, procs: seq<Process>, frames: seq<Frame>): (k: nat)
    requires OwnersInRange(procs, frames) && FramesIn(q, frames)
    ensures k <= |q|
    ensures forall j {:trigger RefBit(procs, frames, q[j])} :: 0 <= j < k ==> RefBit(procs, frames, q[j])
    ensures k < |q| ==> !RefBit(procs, frames, q[k])
  {
    if q == [] then 0
    else if !RefBit(procs, frames, q[0]) then 0
    else 1 + FirstClear(q[1..], procs, frames)
  }

  /** Clearing the index of a free frame changes nothing: no present page sits there. */
  lemma ClearRefsFree(procs: seq<Process>, frames: seq<Frame>, s: set<nat>, f: nat)
    requires Mapped(procs, frames) && f < |frames| && frames[f].pid == FREE
    ensures ClearRefs(procs, s + {f}) == ClearRefs(procs, s)
  {
    var a := ClearRefs(procs, s + {f});
    var b := ClearRefs(procs, s);
    forall q | 0 <= q < |procs|
      ensures a[q] == b[q]
    {
      forall w | 0 <= w < |procs[q].pageTable|
        ensures a[q].pageTable[w] == b[q].pageTable[w]
      {
        ClearRefsAt(procs, s + {f}, q, w);
        ClearRefsAt(procs, s, q, w);
      }
      assert a[q].pageTable == b[q].pageTable;
    }
  }

  // ---------------------------------------------------------------------------
  // First in, first out

  /** First in, first out: the frame queue in allocation order. */
  class Fifo {
    var frameQueue: seq<nat>

    constructor ()
      ensures frameQueue == []
    {
      frameQueue := [];
    }

    method SelectFrame(procs: seq<Process>, ft: FrameTable, ghost used: nat) returns (f: nat, procs': seq<Process>)
      requires 0 < |ft.inverseMap| && OwnedPrefix(ft.inverseMap, used) && QueueOf(frameQueue, used)
      modifies this
      ensures f < |ft.inverseMap| && procs' == procs
      ensures ft.inverseMap[f].pid == FREE <==> used < |ft.inverseMap|
      ensures used < |ft.inverseMap| ==> f == used && frameQueue == old(frameQueue) + [f]
      ensures used == |ft.inverseMap| ==>
        f == old(frameQueue)[0] && frameQueue == old(frameQueue)[1..] + [f]
      ensures QueueOf(frameQueue, if used < |ft.inverseMap| then used + 1 else used)
    {
      procs' := procs;
      var free := ft.GetFrame();
      FirstFreeIsUsed(ft.inverseMap, used, free);
      FifoQueueKept(frameQueue, used, |ft.inverseMap|);
      if free == -1 {
        f := frameQueue[0];
        frameQueue := frameQueue[1..] + [f];
      } else {
        f := free;
        frameQueue := frameQueue + [f];
      }
    }
  }

  /** After an allocation or an eviction the FIFO queue still holds each owned
      frame once, and the frame just returned is at its tail. */
  lemma FifoQueueKept(q: seq<nat>, used: nat, n: nat)
    requires QueueOf(q, used) && used <= n && 0 < n
    ensures used < n ==> QueueOf(q + [used], used + 1)
    ensures used == n ==> QueueOf(q[1..] + [q[0]], used) && (q[1..] + [q[0]])[used - 1] == q[0]
  {
    if used == n {
      RotateQueueOf(q, 1, used);
      assert Rotate(q, 1) == q[1..] + [q[0]];
    }
  }

  // ---------------------------------------------------------------------------
  // The scan shared by second chance and clock

  /** The place the scan looks at after i steps round a circle of n frames: i,
      or the start again once a full lap has cleared every bit. */
  function Pos(i: nat, n: nat): (r: nat)
    requires 0 < n
    ensures r < n && (i < n ==> r == i)
  {
    if i < n then i else 0
  }

  /** After i steps of the scan round q, the first i frames' pages had REFERENCED
      set, and t is the processes with those bits cleared. */
  ghost predicate Scanned(q: seq<nat>, procs: seq<Process>, frames: seq<Frame>, i: nat, t: seq<Process>)
    requires Mapped(procs, frames) && FramesIn(q, frames)
  {
    && i <= FirstClear(q, procs, frames)
    && t == ClearRefs(procs, Elems(q[..i]))
    && OwnersInRange(t, frames)
  }

  lemma ScannedStart(q: seq<nat>, procs: seq<Process>, frames: seq<Frame>)
    requires Mapped(procs, frames) && FramesIn(q, frames)
    ensures Scanned(q, procs, frames, 0, procs)
  {
    ClearRefsNone(procs);
    assert Elems(q[..0]) == {};
  }

  /** The bit the scan reads at step i is set exactly when the first clear bit
      is further on. */
  lemma ScannedBit(q: seq<nat>, procs: seq<Process>, frames: seq<Frame>, i: nat, t: seq<Process>)
    requires Mapped(procs, frames) && FramesIn(q, frames) && Distinct(q) && 0 < |q| && AllOwned(frames)
    requires Scanned(q, procs, frames, i, t)
    ensures q[Pos(i, |q|)] < |frames| && frames[q[Pos(i, |q|)]].pid != FREE
    ensures PteOf(t, frames[q[Pos(i, |q|)]]).referenced <==> i < FirstClear(q, procs, frames)
  {
    var f := q[Pos(i, |q|)];
    RefBitCleared(procs, frames, Elems(q[..i]), f);
    if i < |q| {
      assert forall j :: 0 <= j < i ==> q[j] != q[i];
    } else {
      assert q[..i][0] == f;
    }
  }

  /** One step of the scan: clearing the bit of frame q[i]. */
  lemma ScannedStep(q: seq<nat>, procs: seq<Process>, frames: seq<Frame>, i: nat, t: seq<Process>)
    requires Mapped(procs, frames) && FramesIn(q, frames) && AllOwned(frames)
    requires Scanned(q, procs, frames, i, t) && i < FirstClear(q, procs, frames)
    ensures i < |q| && frames[q[i]].pid != FREE
    ensures Scanned(q, procs, frames, i + 1, Unreference(t, frames[q[i]].pid, frames[q[i]].vpage))
  {
    ClearRefsStep(procs, frames, Elems(q[..i]), q[i]);
    ElemsSnoc(q, i);
    ClearRefsMapped(procs, frames, Elems(q[..i + 1]));
  }

  // ---------------------------------------------------------------------------
  // Second chance

  /** The second-chance eviction of queue q: the referenced heads are cleared and
      moved to the tail; the first unreferenced one (or, when all were referenced,
      the original head) is the victim and goes to the tail too. The result is
      (victim, new queue, new processes). */
  ghost function ScEvict(q: seq<nat>, procs: seq<Process>, frames: seq<Frame>): (nat, seq<nat>, seq<Process>)
    requires Mapped(procs, frames) && FramesIn(q, frames) && 0 < |q|
  {
    var k := FirstClear(q, procs, frames);
    var pos := Pos(k, |q|);
    (q[pos], Rotate(q, pos + 1), ClearRefs(procs, Elems(q[..k])))
  }

  /** Moving the head of the queue to its tail after step i. */
  lemma ScanRotate(q: seq<nat>, i: nat)
    requires i < |q|
    ensures Rotate(q, i)[1..] + [q[i]] == Rotate(q, Pos(i + 1, |q|))
    ensures Rotate(q, Pos(i + 1, |q|))[0] == q[Pos(i + 1, |q|)]
  {
    RotateStep(q, i);
    RotateFull(q);
    if i + 1 < |q| {
      RotateStep(q, i + 1);
    }
  }

  /** The page of frame f has an entry in t. */
  ghost predicate Readable(t: seq<Process>, frames: seq<Frame>, f: nat)
  {
    f < |frames| && frames[f].pid != FREE && 0 <= frames[f].pid < |t| && frames[f].vpage < |t[frames[f].pid].pageTable|
  }

  /** The second-chance scan after i steps: the queue has been rotated i places
      and f is its head. */
  ghost predicate QueueScan(q: seq<nat>, procs: seq<Process>, frames: seq<Frame>, i: nat,
                            queue: seq<nat>, f: nat, t: seq<Process>)
    requires Mapped(procs, frames) && FramesIn(q, frames) && 0 < |q|
  {
    && Scanned(q, procs, frames, i, t)
    && queue == Rotate(q, Pos(i, |q|)) && f == q[Pos(i, |q|)] && Readable(t, frames, f)
  }

  lemma QueueScanStart(q: seq<nat>, procs: seq<Process>, frames: seq<Frame>)
    requires Mapped(procs, frames) && QueueOf(q, |frames|) && 0 < |q| && AllOwned(frames)
    ensures QueueScan(q, procs, frames, 0, q, q[0], procs)
  {
    ScannedStart(q, procs, frames);
    RotateFull(q);
  }

  lemma QueueScanStep(q: seq<nat>, procs: seq<Process>, frames: seq<Frame>, i: nat,
                      queue: seq<nat>, f: nat, t: seq<Process>)
    requires Mapped(procs, frames) && QueueOf(q, |frames|) && 0 < |q| && AllOwned(frames)
    requires QueueScan(q, procs, frames, i, queue, f, t) && PteOf(t, frames[f]).referenced
    ensures i < |q|
    ensures QueueScan(q, procs, frames, i + 1, queue[1..] + [f], (queue[1..] + [f])[0],
                      Unreference(t, frames[f].pid, frames[f].vpage))
  {
    ScannedBit(q, procs, frames, i, t);
    ScannedStep(q, procs, frames, i, t);
    ScanRotate(q, i);
    ScannedBit(q, procs, frames, i + 1, Unreference(t, frames[f].pid, frames[f].vpage));
  }

  lemma QueueScanEnd(q: seq<nat>, procs: seq<Process>, frames: seq<Frame>, i: nat,
                     queue: seq<nat>, f: nat, t: seq<Process>)
    requires Mapped(procs, frames) && QueueOf(q, |frames|) && 0 < |q| && AllOwned(frames)
    requires QueueScan(q, procs, frames, i, queue, f, t) && !PteOf(t, frames[f]).referenced
    ensures (f, queue[1..] + [f], t) == ScEvict(q, procs, frames)
  {
    ScannedBit(q, procs, frames, i, t);
    assert i == FirstClear(q, procs, frames);
    RotateStep(q, Pos(i, |q|));
  }

  /** The second-chance scan when every frame is owned. */
  method ScanQueue(q: seq<nat>, procs: seq<Process>, frames: seq<Frame>) returns (f: nat, queue: seq<nat>, procs': seq<Process>)
    requires Mapped(procs, frames) && QueueOf(q, |frames|) && 0 < |q| && AllOwned(frames)
    ensures (f, queue, procs') == ScEvict(q, procs, frames)
  {
    procs' := procs;
    queue := q;
    ghost var i: nat := 0;
    QueueScanStart(q, procs, frames);
    f := queue[0];
    var frame := frames[f];
    while procs'[frame.pid].pageTable[frame.vpage].referenced
      invariant QueueScan(q, procs, frames, i, queue, f, procs') && frame == frames[f]
      decreases |q| - i
    {
      QueueScanStep(q, procs, frames, i, queue, f, procs');
      procs' := Unreference(procs', frame.pid, frame.vpage);
      queue := queue[1..] + [f];
      i := i + 1;
      f := queue[0];
      frame := frames[f];
    }
    QueueScanEnd(q, procs, frames, i, queue, f, procs');
    queue := queue[1..] + [f];
  }

  /** Second chance: FIFO order, but a head whose page was referenced has the bit
      cleared and goes to the tail instead of being evicted. */
  class SecondChance {
    var frameQueue: seq<nat>

    constructor ()
      ensures frameQueue == []
    {
      frameQueue := [];
    }

    method SelectFrame(procs: seq<Process>, ft: FrameTable, ghost used: nat) returns (f: nat, procs': seq<Process>)
      requires 0 < |ft.inverseMap| && Mapped(procs, ft.inverseMap)
      requires OwnedPrefix(ft.inverseMap, used) && QueueOf(frameQueue, used)
      modifies this
      ensures f < |ft.inverseMap|
      ensures ft.inverseMap[f].pid == FREE <==> used < |ft.inverseMap|
      ensures used < |ft.inverseMap| ==> f == used && frameQueue == old(frameQueue) + [f] && procs' == procs
      ensures used == |ft.inverseMap| ==> (f, frameQueue, procs') == ScEvict(old(frameQueue), procs, ft.inverseMap)
      ensures QueueOf(frameQueue, if used < |ft.inverseMap| then used + 1 else used)
      ensures RefsCleared(procs, procs')
    {
      procs' := procs;
      var free := ft.GetFrame();
      FirstFreeIsUsed(ft.inverseMap, used, free);
      if free != -1 {
        FifoQueueKept(frameQueue, used, |ft.inverseMap|);
        f := free;
        frameQueue := frameQueue + [f];
        return;
      }
      ScEvictSound(frameQueue, procs, ft.inverseMap);
      ClearRefsOnly(procs, Elems(frameQueue[..FirstClear(frameQueue, procs, ft.inverseMap)]));
      f, frameQueue, procs' := ScanQueue(frameQueue, procs, ft.inverseMap);
    }
  }

  /** The second-chance victim is a queued frame whose page is unreferenced
      afterwards; every frame ahead of it had its bit set and has it cleared;
      the new queue holds the same frames with the victim at its tail. */
  lemma ScEvictSound(q: seq<nat>, procs: seq<Process>, frames: seq<Frame>)
    requires Mapped(procs, frames) && QueueOf(q, |frames|) && 0 < |q| && AllOwned(frames)
    ensures FramesIn(q, frames)
    ensures var (f, q', t) := ScEvict(q, procs, frames);
      && f in q
      && QueueOf(q', |q|) && q'[|q| - 1] == f
      && Mapped(t, frames) && SameButTables(t, procs)
      && !RefBit(t, frames, f)
      && (forall j :: 0 <= j < FirstClear(q, procs, frames) ==>
            RefBit(procs, frames, q[j]) && !RefBit(t, frames, q[j]))
  {
    var k := FirstClear(q, procs, frames);
    var pos := Pos(k, |q|);
    RotateQueueOf(q, pos + 1, |q|);
    RotateStep(q, pos);
    ClearRefsMapped(procs, frames, Elems(q[..k]));
    RefBitCleared(procs, frames, Elems(q[..k]), q[pos]);
    assert k < |q| ==> q[k] !in q[..k];
    forall j | 0 <= j < k
      ensures !RefBit(ClearRefs(procs, Elems(q[..k])), frames, q[j])
    {
      RefBitCleared(procs, frames, Elems(q[..k]), q[j]);
      assert q[j] in q[..k];
    }
  }

  /** When the head's page is unreferenced, second chance evicts exactly what
      FIFO evicts and touches no page table. */
  lemma ScIsFifoWhenHeadClear(q: seq<nat>, procs: seq<Process>, frames: seq<Frame>)
    requires Mapped(procs, frames) && FramesIn(q, frames) && 0 < |q|
    requires !RefBit(procs, frames, q[0])
    ensures ScEvict(q, procs, frames) == (q[0], q[1..] + [q[0]], procs)
  {
    ClearRefsNone(procs);
    assert Elems(q[..0]) == {};
    RotateStep(q, 0);
    RotateFull(q);
  }

  // ---------------------------------------------------------------------------
  // Random

  /** Random: one draw over the whole pool picks the victim. */
  class RandomPolicy {
    const randNum: RandomSource

    constructor (rng: RandomSource)
      ensures randNum == rng
    {
      randNum := rng;
    }

    method SelectFrame(procs: seq<Process>, ft: FrameTable, ghost used: nat) returns (f: nat, procs': seq<Process>)
      requires RandomOk(randNum) && 0 < |ft.inverseMap| && OwnedPrefix(ft.inverseMap, used)
      modifies randNum
      ensures f < |ft.inverseMap| && procs' == procs
      ensures ft.inverseMap[f].pid == FREE <==> used < |ft.inverseMap|
      ensures used < |ft.inverseMap| ==> f == used && randNum.rofs == old(randNum.rofs)
      ensures used == |ft.inverseMap| ==>
        f == Draw(randNum.randomValue, old(randNum.rofs), |ft.inverseMap|)
        && randNum.rofs == old(randNum.rofs) + 1
    {
      procs' := procs;
      var free := ft.GetFrame();
      FirstFreeIsUsed(ft.inverseMap, used, free);
      if free == -1 {
        var size := |ft.inverseMap|;
        DrawInRange(randNum.randomValue, randNum.rofs, size);
        var index := randNum.GetRandomNumber(size);
        f := index;
      } else {
        f := free;
      }
    }
  }

  // ---------------------------------------------------------------------------
  // Not recently used

  /** The NRU class of an owned frame's page: 2 * REFERENCED + MODIFIED. */
  ghost function NruClass(procs: seq<Process>, frames: seq<Frame>, f: nat): (c: nat)
    requires OwnersInRange(procs, frames) && f < |frames| && frames[f].pid != FREE
    ensures c < 4
    ensures c >= 2 <==> PteOf(procs, frames[f]).referenced
    ensures c % 2 == 1 <==> PteOf(procs, frames[f]).modified
  {
    var pte := PteOf(procs, frames[f]);
    2 * (if pte.referenced then 1 else 0) + (if pte.modified then 1 else 0)
  }

  /** The owned frames among 0..n-1 in class c, in index order. */
  ghost function ClassMembers(procs: seq<Process>, frames: seq<Frame>, c: nat, n: nat): (s: seq<nat>)
    requires OwnersInRange(procs, frames) && n <= |frames|
    ensures forall i :: 0 <= i < |s| ==> s[i] < n && frames[s[i]].pid != FREE && NruClass(procs, frames, s[i]) == c
    ensures forall f :: 0 <= f < n && frames[f].pid != FREE && NruClass(procs, frames, f) == c ==> f in s
    ensures forall i, j :: 0 <= i < j < |s| ==> s[i] < s[j]
  {
    if n == 0 then []
    else
      var s := ClassMembers(procs, frames, c, n - 1);
      if frames[n - 1].pid != FREE && NruClass(procs, frames, n - 1) == c then s + [n - 1] else s
  }

  /** The four NRU classes of the owned frames among 0..n-1. */
  ghost function ClassesUpTo(procs: seq<Process>, frames: seq<Frame>, n: nat): (cs: seq<seq<nat>>)
    requires OwnersInRange(procs, frames) && n <= |frames|
    ensures |cs| == 4
  {
    [ClassMembers(procs, frames, 0, n), ClassMembers(procs, frames, 1, n),
     ClassMembers(procs, frames, 2, n), ClassMembers(procs, frames, 3, n)]
  }

  /** The four NRU classes of the frame table. */
  ghost function Classify(procs: seq<Process>, frames: seq<Frame>): (cs: seq<seq<nat>>)
    requires OwnersInRange(procs, frames)
    ensures |cs| == 4
  {
    ClassesUpTo(procs, frames, |frames|)
  }

  /** Class k of the table holds the owned frames of class k. */
  lemma ClassifyAt(procs: seq<Process>, frames: seq<Frame>, k: nat)
    requires OwnersInRange(procs, frames) && k < 4
    ensures Classify(procs, frames)[k] == ClassMembers(procs, frames, k, |frames|)
  {
    if k == 0 {
    } else if k == 1 {
    } else if k == 2 {
    } else {
    }
  }

  /** The lowest class that holds an owned frame (4 when none is owned). */
  ghost function LowestClass(procs: seq<Process>, frames: seq<Frame>): (c: nat)
    requires OwnersInRange(procs, frames)
    ensures c <= 4
    ensures forall d: nat :: d < c ==> ClassMembers(procs, frames, d, |frames|) == []
    ensures c < 4 ==> ClassMembers(procs, frames, c, |frames|) != []
  {
    if ClassMembers(procs, frames, 0, |frames|) != [] then 0
    else if ClassMembers(procs, frames, 1, |frames|) != [] then 1
    else if ClassMembers(procs, frames, 2, |frames|) != [] then 2
    else if ClassMembers(procs, frames, 3, |frames|) != [] then 3
    else 4
  }

  /** Sort the owned frames into their four classes, each in index order. */
  method ClassifyFrames(procs: seq<Process>, frames: seq<Frame>) returns (classes: seq<seq<nat>>)
    requires OwnersInRange(procs, frames)
    ensures classes == Classify(procs, frames)
  {
    classes := [[], [], [], []];
    var i := 0;
    while i < |frames|
      invariant 0 <= i <= |frames| && classes == ClassesUpTo(procs, frames, i)
    {
      var tag := frames[i];
      ClassesUpToStep(procs, frames, i);
      if tag.pid != FREE {
        var pte := procs[tag.pid].pageTable[tag.vpage];
        var prior := 2 * (if pte.referenced then 1 else 0) + (if pte.modified then 1 else 0);
        assert prior == NruClass(procs, frames, i);
        classes := classes[prior := classes[prior] + [i]];
      }
      i := i + 1;
    }
  }

  /** One classification step: an owned frame joins the end of its own class,
      a free frame changes no class. */
  lemma ClassesUpToStep(procs: seq<Process>, frames: seq<Frame>, i: nat)
    requires OwnersInRange(procs, frames) && i < |frames|
    ensures frames[i].pid == FREE ==> ClassesUpTo(procs, frames, i + 1) == ClassesUpTo(procs, frames, i)
    ensures frames[i].pid != FREE ==>
      var c := NruClass(procs, frames, i);
      ClassesUpTo(procs, frames, i + 1) == ClassesUpTo(procs, frames, i)[c := ClassesUpTo(procs, frames, i)[c] + [i]]
  {
  }

  /** The owned frames among 0..n-1 whose class is below c. */
  ghost function ClassesBelow(procs: seq<Process>, frames: seq<Frame>, c: nat, n: nat): (s: set<nat>)
    requires OwnersInRange(procs, frames) && n <= |frames|
    ensures forall f: nat :: f in s <==> f < n && frames[f].pid != FREE && NruClass(procs, frames, f) < c
  {
    if n == 0 then {}
    else
      var s := ClassesBelow(procs, frames, c, n - 1);
      if frames[n - 1].pid != FREE && NruClass(procs, frames, n - 1) < c then s + {n - 1} else s
  }

  /** One step of ResetReferenced: clearing frame s[j] extends the cleared set. */
  lemma ClearOneMore(procs: seq<Process>, frames: seq<Frame>, below: set<nat>, s: seq<nat>, j: nat)
    requires Mapped(procs, frames) && j < |s| && s[j] < |frames| && frames[s[j]].pid != FREE
    ensures OwnersInRange(ClearRefs(procs, below + Elems(s[..j])), frames)
    ensures Unreference(ClearRefs(procs, below + Elems(s[..j])), frames[s[j]].pid, frames[s[j]].vpage)
      == ClearRefs(procs, below + Elems(s[..j + 1]))
  {
    ClearRefsMapped(procs, frames, below + Elems(s[..j]));
    ClearRefsStep(procs, frames, below + Elems(s[..j]), s[j]);
    ElemsSnoc(s, j);
    assert below + Elems(s[..j + 1]) == (below + Elems(s[..j])) + {s[j]};
  }

  /** Clear the REFERENCED bits of the pages of the frames in s, on top of
      those of the frames in below. */
  method ClearClass(procs: seq<Process>, frames: seq<Frame>, ghost below: set<nat>, s: seq<nat>, cur: seq<Process>)
    returns (procs': seq<Process>)
    requires Mapped(procs, frames) && cur == ClearRefs(procs, below)
    requires forall i :: 0 <= i < |s| ==> s[i] < |frames| && frames[s[i]].pid != FREE
    ensures procs' == ClearRefs(procs, below + Elems(s))
  {
    procs' := cur;
    var j := 0;
    assert below + Elems(s[..0]) == below;
    while j < |s|
      invariant 0 <= j <= |s|
      invariant procs' == ClearRefs(procs, below + Elems(s[..j]))
    {
      var tag := frames[s[j]];
      ClearOneMore(procs, frames, below, s, j);
      procs' := Unreference(procs', tag.pid, tag.vpage);
      j := j + 1;
    }
    assert s[..j] == s;
  }

  /** Clear the REFERENCED bit of the page of every classified frame. */
  method ResetReferenced(procs: seq<Process>, frames: seq<Frame>, classes: seq<seq<nat>>) returns (procs': seq<Process>)
    requires Mapped(procs, frames) && classes == Classify(procs, frames) && AllOwned(frames)
    ensures procs' == ClearRefs(procs, Indices(|frames|))
  {
    procs' := procs;
    ClearRefsNone(procs);
    assert ClassesBelow(procs, frames, 0, |frames|) == {};
    var k := 0;
    while k < 4
      invariant 0 <= k <= 4
      invariant procs' == ClearRefs(procs, ClassesBelow(procs, frames, k, |frames|))
    {
      ClassifyAt(procs, frames, k);
      procs' := ClearClass(procs, frames, ClassesBelow(procs, frames, k, |frames|), classes[k], procs');
      ClassesBelowNext(procs, frames, k);
      k := k + 1;
    }
    ClassesBelowAll(procs, frames);
  }

  /** The frames below class k + 1 are those below class k and those in class k. */
  lemma ClassesBelowNext(procs: seq<Process>, frames: seq<Frame>, k: nat)
    requires OwnersInRange(procs, frames)
    ensures ClassesBelow(procs, frames, k, |frames|) + Elems(ClassMembers(procs, frames, k, |frames|))
      == ClassesBelow(procs, frames, k + 1, |frames|)
  {
  }

  /** When every frame is owned, every frame is below class 4. */
  lemma ClassesBelowAll(procs: seq<Process>, frames: seq<Frame>)
    requires OwnersInRange(procs, frames) && AllOwned(frames)
    ensures ClassesBelow(procs, frames, 4, |frames|) == Indices(|frames|)
  {
  }

  /** Not recently used: pick at random from the lowest non-empty class, and clear
      every REFERENCED bit on every tenth eviction. */
  class Nru {
    var clock: nat
    var classes: seq<seq<nat>>
    const randNum: RandomSource

    constructor (rng: RandomSource)
      ensures randNum == rng && clock == 0 && classes == [[], [], [], []]
    {
      randNum := rng;
      clock := 0;
      classes := [[], [], [], []];
    }

    method SelectFrame(procs: seq<Process>, ft: FrameTable, ghost used: nat) returns (f: nat, procs': seq<Process>)
      requires 0 < |ft.inverseMap| && Mapped(procs, ft.inverseMap)
      requires OwnedPrefix(ft.inverseMap, used) && RandomOk(randNum) && clock < 10
      modifies this, randNum
      ensures clock < 10 && f < |ft.inverseMap|
      ensures ft.inverseMap[f].pid == FREE <==> used < |ft.inverseMap|
      ensures used < |ft.inverseMap| ==>
        && f == used && clock == old(clock) && classes == old(classes)
        && randNum.rofs == old(randNum.rofs) && procs' == procs
      ensures used == |ft.inverseMap| ==>
        && (f, classes, clock, procs') == NruEvict(procs, ft.inverseMap, old(clock), randNum.randomValue, old(randNum.rofs))
        && randNum.rofs == old(randNum.rofs) + 1
      ensures RefsCleared(procs, procs')
    {
      ClearRefsOnly(procs, Indices(|ft.inverseMap|));
      procs' := procs;
      var free := ft.GetFrame();
      FirstFreeIsUsed(ft.inverseMap, used, free);
      if free != -1 {
        f := free;
        return;
      }
      f, procs' := Evict(procs, ft.inverseMap);
    }

    /** The eviction when every frame is owned. */
    method Evict(procs: seq<Process>, frames: seq<Frame>) returns (f: nat, procs': seq<Process>)
      requires Mapped(procs, frames) && 0 < |frames| && AllOwned(frames) && RandomOk(randNum) && clock < 10
      modifies this, randNum
      ensures (f, classes, clock, procs') == NruEvict(procs, frames, old(clock), randNum.randomValue, old(randNum.rofs))
      ensures randNum.rofs == old(randNum.rofs) + 1
      ensures f < |frames| && frames[f].pid != FREE && clock < 10
    {
      NruEvictSound(procs, frames, clock, randNum.randomValue, randNum.rofs);
      var cls := ClassifyFrames(procs, frames);
      LowestClassExists(procs, frames);
      var i := FirstNonEmpty(procs, frames, cls);
      DrawInRange(randNum.randomValue, randNum.rofs, |cls[i]|);
      var r := randNum.GetRandomNumber(|cls[i]|);
      f := cls[i][r];
      procs' := procs;
      var tick := clock + 1;
      if tick == 10 {
        tick := 0;
        procs' := ResetReferenced(procs, frames, cls);
      }
      classes := cls;
      clock := tick;
    }
  }

  /** The first non-empty class: the class NRU draws its victim from. */
  method FirstNonEmpty(procs: seq<Process>, frames: seq<Frame>, classes: seq<seq<nat>>) returns (i: nat)
    requires OwnersInRange(procs, frames) && classes == Classify(procs, frames)
    requires LowestClass(procs, frames) < 4
    ensures i == LowestClass(procs, frames) && i < 4 && |classes[i]| > 0
  {
    ghost var c := LowestClass(procs, frames);
    i := 0;
    while |classes[i]| == 0
      invariant 0 <= i <= c
      decreases 4 - i
    {
      i := i + 1;
    }
  }

  /** Frame 0 is owned once every frame is, so some class is non-empty. */
  lemma LowestClassExists(procs: seq<Process>, frames: seq<Frame>)
    requires OwnersInRange(procs, frames) && 0 < |frames| && AllOwned(frames)
    ensures LowestClass(procs, frames) < 4
  {
    assert 0 in ClassMembers(procs, frames, NruClass(procs, frames, 0), |frames|);
  }

  /** The NRU eviction with every frame owned: the victim is drawn at cursor
      rofs from the lowest non-empty class; the result is (victim, classes, next
      clock, new processes), where every tenth eviction clears every REFERENCED bit. */
  ghost function NruEvict(procs: seq<Process>, frames: seq<Frame>, clock: nat, values: seq<int>, rofs: nat)
    : (nat, seq<seq<nat>>, nat, seq<Process>)
    requires Mapped(procs, frames) && 0 < |frames| && AllOwned(frames)
    requires |values| > 0 && forall i :: 0 <= i < |values| ==> values[i] >= 0
  {
    LowestClassExists(procs, frames);
    var cs := Classify(procs, frames);
    var c := LowestClass(procs, frames);
    DrawInRange(values, rofs, |cs[c]|);
    (cs[c][Draw(values, rofs, |cs[c]|)], cs,
     if clock == 9 then 0 else clock + 1,
     if clock == 9 then ClearRefs(procs, Indices(|frames|)) else procs)
  }

  /** The NRU victim is an owned frame of the lowest class present (no owned
      frame is in a lower class); the clock counts evictions modulo 10, and the
      tenth clears the REFERENCED bit of every page in a frame. */
  lemma NruEvictSound(procs: seq<Process>, frames: seq<Frame>, clock: nat, values: seq<int>, rofs: nat)
    requires Mapped(procs, frames) && 0 < |frames| && AllOwned(frames) && clock < 10
    requires |values| > 0 && forall i :: 0 <= i < |values| ==> values[i] >= 0
    ensures var (f, cs, clock', t) := NruEvict(procs, frames, clock, values, rofs);
      && f < |frames| && frames[f].pid != FREE
      && NruClass(procs, frames, f) == LowestClass(procs, frames)
      && (forall g :: 0 <= g < |frames| ==> NruClass(procs, frames, f) <= NruClass(procs, frames, g))
      && cs == Classify(procs, frames)
      && clock' < 10 && (clock' == 0 <==> clock == 9)
      && Mapped(t, frames)
      && (clock == 9 ==> forall g :: 0 <= g < |frames| ==> !RefBit(t, frames, g))
      && (clock != 9 ==> t == procs)
  {
    LowestClassExists(procs, frames);
    var c := LowestClass(procs, frames);
    var cs := Classify(procs, frames);
    DrawInRange(values, rofs, |cs[c]|);
    assert cs[c] == ClassMembers(procs, frames, c, |frames|);
    forall g | 0 <= g < |frames|
      ensures c <= NruClass(procs, frames, g)
    {
      assert g in ClassMembers(procs, frames, NruClass(procs, frames, g), |frames|);
    }
    ClearRefsMapped(procs, frames, Indices(|frames|));
    forall g | 0 <= g < |frames|
      ensures !RefBit(ClearRefs(procs, Indices(|frames|)), frames, g)
    {
      RefBitCleared(procs, frames, Indices(|frames|), g);
    }
  }

  // ---------------------------------------------------------------------------
  // Clock

  /** x modulo n for x below 2n: one step of the clock hand. */
  function Wrap(x: nat, n: nat): (r: nat)
    requires 0 < n && x < 2 * n
    ensures r < n && r == x % n
  {
    ModSmall(x, n);
    if x < n then x else x - n
  }

  lemma RotateFramesIn(c: seq<nat>, h: nat, frames: seq<Frame>)
    requires FramesIn(c, frames) && h <= |c|
    ensures FramesIn(Rotate(c, h), frames)
  {
    forall j | 0 <= j < |c|
      ensures Rotate(c, h)[j] < |frames|
    {
      if h < |c| {
        RotateAt(c, h, j);
      } else {
        RotateFull(c);
      }
    }
  }

  /** Rotating by a and then by b is rotating by a + b around the circle. */
  lemma RotateRotate(c: seq<nat>, a: nat, b: nat)
    requires a < |c| && b < |c|
    ensures Rotate(Rotate(c, a), b) == Rotate(c, Wrap(a + b, |c|))
  {
    var n := |c|;
    forall j | 0 <= j < n
      ensures Rotate(Rotate(c, a), b)[j] == Rotate(c, Wrap(a + b, n))[j]
    {
      RotateAt(Rotate(c, a), b, j);
      RotateAt(c, a, Wrap(b + j, n));
      RotateAt(c, Wrap(a + b, n), j);
    }
  }

  /** The clock eviction with circle c and hand h: the hand passes over referenced
      frames clearing their bit, and stops at the first unreferenced one (or, after
      a full lap, at h again); the result is (victim, new hand, new processes). */
  ghost function ClockEvict(c: seq<nat>, h: nat, procs: seq<Process>, frames: seq<Frame>): (nat, nat, seq<Process>)
    requires Mapped(procs, frames) && FramesIn(c, frames) && h < |c|
  {
    var q := Rotate(c, h);
    RotateFramesIn(c, h, frames);
    var k := FirstClear(q, procs, frames);
    var pos := Pos(k, |c|);
    (c[Wrap(h + pos, |c|)], Wrap(h + pos + 1, |c|), ClearRefs(procs, Elems(q[..k])))
  }

  /** One more step of the hand is one more place round the circle. */
  lemma WrapNext(x: nat, n: nat)
    requires 0 < n && x + 1 < 2 * n
    ensures Wrap(Wrap(x, n) + 1, n) == Wrap(x + 1, n)
  {
  }

  /** Advancing the hand after step i of the scan: the hand reads the frame at
      the next scan position. */
  lemma ClockAdvance(c: seq<nat>, h: nat, i: nat)
    requires h < |c| && i < |c|
    ensures Wrap(Wrap(h + i, |c|) + 1, |c|) == Wrap(h + Pos(i + 1, |c|), |c|)
    ensures Rotate(c, h)[Pos(i + 1, |c|)] == c[Wrap(h + Pos(i + 1, |c|), |c|)]
  {
    WrapNext(h + i, |c|);
    RotateAt(c, h, Pos(i + 1, |c|));
  }

  /** The clock scan after i steps: the hand is i places past h and f is the
      frame under it. */
  ghost predicate HandScan(c: seq<nat>, h: nat, procs: seq<Process>, frames: seq<Frame>, i: nat,
                           hand: nat, f: nat, t: seq<Process>)
    requires Mapped(procs, frames) && FramesIn(c, frames) && h < |c|
  {
    RotateFramesIn(c, h, frames);
    && Scanned(Rotate(c, h), procs, frames, i, t)
    && hand == Wrap(h + Pos(i, |c|), |c|) && f == c[hand] && f == Rotate(c, h)[Pos(i, |c|)]
    && Readable(t, frames, f)
  }

  lemma HandScanStart(c: seq<nat>, h: nat, procs: seq<Process>, frames: seq<Frame>)
    requires Mapped(procs, frames) && QueueOf(c, |frames|) && h < |c| && AllOwned(frames)
    ensures HandScan(c, h, procs, frames, 0, h, c[h], procs)
  {
    RotateFramesIn(c, h, frames);
    ScannedStart(Rotate(c, h), procs, frames);
    RotateAt(c, h, 0);
  }

  lemma HandScanStep(c: seq<nat>, h: nat, procs: seq<Process>, frames: seq<Frame>, i: nat,
                     hand: nat, f: nat, t: seq<Process>)
    requires Mapped(procs, frames) && QueueOf(c, |frames|) && h < |c| && AllOwned(frames)
    requires HandScan(c, h, procs, frames, i, hand, f, t) && PteOf(t, frames[f]).referenced
    ensures i < |c|
    ensures HandScan(c, h, procs, frames, i + 1, (hand + 1) % |c|, c[(hand + 1) % |c|],
                     Unreference(t, frames[f].pid, frames[f].vpage))
  {
    var q := Rotate(c, h);
    RotateFramesIn(c, h, frames);
    RotateDistinct(c, h);
    ScannedBit(q, procs, frames, i, t);
    ScannedStep(q, procs, frames, i, t);
    ClockAdvance(c, h, i);
    assert (hand + 1) % |c| == Wrap(hand + 1, |c|);
    ScannedBit(q, procs, frames, i + 1, Unreference(t, frames[f].pid, frames[f].vpage));
  }

  lemma HandScanEnd(c: seq<nat>, h: nat, procs: seq<Process>, frames: seq<Frame>, i: nat,
                    hand: nat, f: nat, t: seq<Process>)
    requires Mapped(procs, frames) && QueueOf(c, |frames|) && h < |c| && AllOwned(frames)
    requires HandScan(c, h, procs, frames, i, hand, f, t) && !PteOf(t, frames[f]).referenced
    ensures (f, (hand + 1) % |c|, t) == ClockEvict(c, h, procs, frames)
  {
    var q := Rotate(c, h);
    RotateFramesIn(c, h, frames);
    RotateDistinct(c, h);
    ScannedBit(q, procs, frames, i, t);
    assert i == FirstClear(q, procs, frames);
    WrapNext(h + Pos(i, |c|), |c|);
    assert (hand + 1) % |c| == Wrap(hand + 1, |c|);
  }

  /** The clock scan when every frame is owned: from the hand, clear and pass
      over referenced frames; the victim is the first unreferenced one. */
  method ClockScan(c: seq<nat>, h: nat, procs: seq<Process>, frames: seq<Frame>) returns (f: nat, hand: nat, procs': seq<Process>)
    requires Mapped(procs, frames) && QueueOf(c, |frames|) && h < |c| && AllOwned(frames)
    ensures (f, hand, procs') == ClockEvict(c, h, procs, frames)
  {
    HandScanStart(c, h, procs, frames);
    procs' := procs;
    hand := h;
    ghost var i: nat := 0;
    f := c[hand];
    var frame := frames[f];
    while procs'[frame.pid].pageTable[frame.vpage].referenced
      invariant HandScan(c, h, procs, frames, i, hand, f, procs') && frame == frames[f]
      decreases |c| - i
    {
      HandScanStep(c, h, procs, frames, i, hand, f, procs');
      procs' := Unreference(procs', frame.pid, frame.vpage);
      hand := (hand + 1) % |c|;
      i := i + 1;
      f := c[hand];
      frame := frames[f];
    }
    HandScanEnd(c, h, procs, frames, i, hand, f, procs');
    hand := (hand + 1) % |c|;
  }

  /** The hand of the clock passes over referenced frames, clearing their bit. */
  class Clock {
    var hand: nat
    var circle: seq<nat>

    constructor ()
      ensures hand == 0 && circle == []
    {
      hand := 0;
      circle := [];
    }

    method SelectFrame(procs: seq<Process>, ft: FrameTable, ghost used: nat) returns (f: nat, procs': seq<Process>)
      requires 0 < |ft.inverseMap| && Mapped(procs, ft.inverseMap)
      requires OwnedPrefix(ft.inverseMap, used) && QueueOf(circle, used)
      requires hand == 0 || hand < |circle|
      modifies this
      ensures f < |ft.inverseMap|
      ensures ft.inverseMap[f].pid == FREE <==> used < |ft.inverseMap|
      ensures used < |ft.inverseMap| ==>
        f == used && circle == old(circle) + [f] && hand == old(hand) && procs' == procs
      ensures used == |ft.inverseMap| ==>
        circle == old(circle) && (f, hand, procs') == ClockEvict(circle, old(hand), procs, ft.inverseMap)
      ensures QueueOf(circle, if used < |ft.inverseMap| then used + 1 else used) && (hand == 0 || hand < |circle|)
      ensures RefsCleared(procs, procs')
    {
      procs' := procs;
      var free := ft.GetFrame();
      FirstFreeIsUsed(ft.inverseMap, used, free);
      if free != -1 {
        FifoQueueKept(circle, used, |ft.inverseMap|);
        f := free;
        circle := circle + [f];
        return;
      }
      RotateFramesIn(circle, hand, ft.inverseMap);
      ClearRefsOnly(procs, Elems(Rotate(circle, hand)[..FirstClear(Rotate(circle, hand), procs, ft.inverseMap)]));
      f, hand, procs' := ClockScan(circle, hand, procs, ft.inverseMap);
    }
  }

  /** Clock is second chance on the circle read from the hand: the same victim,
      the same cleared bits, and the circle read from the new hand is the queue
      second chance would leave. */
  lemma ClockIsSecondChance(c: seq<nat>, h: nat, procs: seq<Process>, frames: seq<Frame>)
    requires Mapped(procs, frames) && FramesIn(c, frames) && h < |c|
    ensures FramesIn(Rotate(c, h), frames)
    ensures var (f, h', t) := ClockEvict(c, h, procs, frames);
      var (g, q', u) := ScEvict(Rotate(c, h), procs, frames);
      f == g && t == u && h' < |c| && Rotate(c, h') == q'
  {
    RotateFramesIn(c, h, frames);
    var q := Rotate(c, h);
    var k := FirstClear(q, procs, frames);
    var pos := Pos(k, |c|);
    RotateAt(c, h, pos);
    if pos + 1 < |c| {
      RotateRotate(c, h, pos + 1);
    } else {
      RotateFull(q);
    }
  }

  // ---------------------------------------------------------------------------
  // Aging

  /** One aging step of a 32-bit counter: shift right by one and put the
      REFERENCED bit in the most significant place. */
  function AgeStep(age: nat, referenced: bool): (r: nat)
    requires age < 0x1_0000_0000
    ensures r < 0x1_0000_0000
    ensures r / 0x8000_0000 == (if referenced then 1 else 0)
    ensures r % 0x8000_0000 == age / 2
  {
    (if referenced then 0x8000_0000 else 0) + age / 2
  }

  /** Every counter is a 32-bit value, one per frame. */
  ghost predicate AgesOk(age: seq<nat>, n: nat)
  {
    |age| == n && forall i :: 0 <= i < |age| ==> age[i] < 0x1_0000_0000
  }

  /** The counters of frames 0..n-1 after their aging step; the rest as they were. */
  ghost function AgedUpTo(age: seq<nat>, procs: seq<Process>, frames: seq<Frame>, n: nat): (r: seq<nat>)
    requires OwnersInRange(procs, frames) && AgesOk(age, |frames|) && n <= |frames|
    ensures AgesOk(r, |frames|)
  {
    if n == 0 then age
    else
      var a := AgedUpTo(age, procs, frames, n - 1);
      if frames[n - 1].pid != FREE then a[n - 1 := AgeStep(a[n - 1], RefBit(procs, frames, n - 1))] else a
  }

  /** Counter j after aging frames 0..n-1: aged once if j < n and frame j is owned. */
  lemma {:induction false} AgedAt(age: seq<nat>, procs: seq<Process>, frames: seq<Frame>, n: nat, j: nat)
    requires OwnersInRange(procs, frames) && AgesOk(age, |frames|) && n <= |frames| && j < |frames|
    ensures AgedUpTo(age, procs, frames, n)[j]
      == if j < n && frames[j].pid != FREE then AgeStep(age[j], RefBit(procs, frames, j)) else age[j]
  {
    if n > 0 {
      AgedAt(age, procs, frames, n - 1, j);
    }
  }

  /** One step of AgeFrames. */
  lemma AgeOne(procs: seq<Process>, frames: seq<Frame>, i: nat)
    requires Mapped(procs, frames) && i < |frames|
    ensures OwnersInRange(ClearRefs(procs, Indices(i)), frames)
    ensures frames[i].pid != FREE ==>
      && PteOf(ClearRefs(procs, Indices(i)), frames[i]).referenced == RefBit(procs, frames, i)
      && Unreference(ClearRefs(procs, Indices(i)), frames[i].pid, frames[i].vpage) == ClearRefs(procs, Indices(i + 1))
    ensures frames[i].pid == FREE ==> ClearRefs(procs, Indices(i)) == ClearRefs(procs, Indices(i + 1))
  {
    RefBitCleared(procs, frames, Indices(i), i);
    assert Indices(i) + {i} == Indices(i + 1);
    if frames[i].pid != FREE {
      ClearRefsStep(procs, frames, Indices(i), i);
    } else {
      ClearRefsFree(procs, frames, Indices(i), i);
    }
  }

  /** One step of AgeFrames: aging frame i and clearing its page's bit extends
      both results by that frame. */
  lemma AgeStepNext(age: seq<nat>, procs: seq<Process>, frames: seq<Frame>, i: nat, a: seq<nat>, t: seq<Process>)
    requires Mapped(procs, frames) && AgesOk(age, |frames|) && i < |frames|
    requires a == AgedUpTo(age, procs, frames, i) && t == ClearRefs(procs, Indices(i))
    ensures AgesOk(a, |frames|) && OwnersInRange(t, frames)
    ensures frames[i].pid != FREE ==>
      && AgedUpTo(age, procs, frames, i + 1) == a[i := AgeStep(a[i], PteOf(t, frames[i]).referenced)]
      && ClearRefs(procs, Indices(i + 1)) == Unreference(t, frames[i].pid, frames[i].vpage)
    ensures frames[i].pid == FREE ==>
      AgedUpTo(age, procs, frames, i + 1) == a && ClearRefs(procs, Indices(i + 1)) == t
  {
    AgeOne(procs, frames, i);
  }

  /** Age frame i's counter and clear the REFERENCED bit of its page, when the frame is owned. */
  method AgeFrame(ghost age: seq<nat>, ghost procs: seq<Process>, frames: seq<Frame>, i: nat, a: seq<nat>, t: seq<Process>)
    returns (a': seq<nat>, t': seq<Process>)
    requires Mapped(procs, frames) && AgesOk(age, |frames|) && i < |frames|
    requires a == AgedUpTo(age, procs, frames, i) && t == ClearRefs(procs, Indices(i))
    ensures a' == AgedUpTo(age, procs, frames, i + 1) && t' == ClearRefs(procs, Indices(i + 1))
  {
    AgeStepNext(age, procs, frames, i, a, t);
    var tag := frames[i];
    if tag.pid != FREE {
      var pte := t[tag.pid].pageTable[tag.vpage];
      a' := a[i := AgeStep(a[i], pte.referenced)];
      t' := Unreference(t, tag.pid, tag.vpage);
    } else {
      a', t' := a, t;
    }
  }

  /** Age every owned frame's counter and clear the REFERENCED bit of its page. */
  method AgeFrames(procs: seq<Process>, frames: seq<Frame>, age: seq<nat>) returns (age': seq<nat>, procs': seq<Process>)
    requires Mapped(procs, frames) && AgesOk(age, |frames|)
    ensures age' == AgedUpTo(age, procs, frames, |frames|)
    ensures procs' == ClearRefs(procs, Indices(|frames|))
  {
    age' := age;
    procs' := procs;
    ClearRefsNone(procs);
    assert Indices(0) == {};
    var i := 0;
    while i < |frames|
      invariant 0 <= i <= |frames|
      invariant age' == AgedUpTo(age, procs, frames, i)
      invariant procs' == ClearRefs(procs, Indices(i))
    {
      age', procs' := AgeFrame(age, procs, frames, i, age', procs');
      i := i + 1;
    }
  }

  /** The first owned frame with the least counter, or -1 when no frame is owned. */
  method OldestFrame(age: seq<nat>, frames: seq<Frame>) returns (f: int)
    requires AgesOk(age, |frames|)
    ensures -1 <= f < |frames|
    ensures f == -1 <==> forall j :: 0 <= j < |frames| ==> frames[j].pid == FREE
    ensures f >= 0 ==> frames[f].pid != FREE
    ensures f >= 0 ==> forall j :: 0 <= j < |frames| && frames[j].pid != FREE ==> age[f] <= age[j]
    ensures f >= 0 ==> forall j :: 0 <= j < f && frames[j].pid != FREE ==> age[j] > age[f]
  {
    var min := 0x1_0000_0000_0000_0000 - 1;
    f := -1;
    var i := 0;
    while i < |frames|
      invariant 0 <= i <= |frames| && -1 <= f < i
      invariant f == -1 <==> forall j :: 0 <= j < i ==> frames[j].pid == FREE
      invariant f >= 0 ==> frames[f].pid != FREE && min == age[f]
      invariant f == -1 ==> min == 0x1_0000_0000_0000_0000 - 1
      invariant forall j :: 0 <= j < i && frames[j].pid != FREE ==> min <= age[j]
      invariant f >= 0 ==> forall j :: 0 <= j < f && frames[j].pid != FREE ==> age[j] > min
    {
      if frames[i].pid != FREE {
        if age[i] < min {
          min := age[i];
          f := i;
        }
      }
      i := i + 1;
    }
  }

  /** Aging: one 32-bit counter per frame; evict the first frame with the least counter. */
  class Aging {
    var age: seq<nat>

    constructor (size: nat)
      ensures age == seq(size, _ => 0)
    {
      age := seq(size, _ => 0);
    }

    method SelectFrame(procs: seq<Process>, ft: FrameTable, ghost used: nat) returns (f: nat, procs': seq<Process>)
      requires 0 < |ft.inverseMap| && Mapped(procs, ft.inverseMap)
      requires OwnedPrefix(ft.inverseMap, used) && AgesOk(age, |ft.inverseMap|)
      modifies this
      ensures AgesOk(age, |ft.inverseMap|) && f < |ft.inverseMap|
      ensures ft.inverseMap[f].pid == FREE <==> used < |ft.inverseMap|
      ensures used < |ft.inverseMap| ==> f == used && age == old(age) && procs' == procs
      ensures used == |ft.inverseMap| ==>
        var a := AgedUpTo(old(age), procs, ft.inverseMap, |ft.inverseMap|);
        && (forall j :: 0 <= j < |a| ==> a[f] <= a[j])
        && (forall j :: 0 <= j < f ==> a[j] > a[f])
        && age == a[f := 0]
        && procs' == ClearRefs(procs, Indices(|ft.inverseMap|))
      ensures RefsCleared(procs, procs')
    {
      ClearRefsOnly(procs, Indices(|ft.inverseMap|));
      procs' := procs;
      var free := ft.GetFrame();
      FirstFreeIsUsed(ft.inverseMap, used, free);
      if free != -1 {
        f := free;
        return;
      }
      age, procs' := AgeFrames(procs, ft.inverseMap, age);
      var oldest := OldestFrame(age, ft.inverseMap);
      assert ft.inverseMap[0].pid != FREE;
      f := oldest;
      age := age[f := 0];
    }
  }

  /** 2 to the power n. */
  function Pow2(n: nat): (r: nat)
    ensures r > 0
  {
    if n == 0 then 1 else 2 * Pow2(n - 1)
  }

  lemma {:induction false} Pow2Add(a: nat, b: nat)
    ensures Pow2(a + b) == Pow2(a) * Pow2(b)
  {
    if a > 0 {
      Pow2Add(a - 1, b);
      assert Pow2(a + b) == 2 * Pow2(a - 1 + b);
    }
  }

  /** The counter of a frame after `steps` aging steps without a reference. */
  function Unreferenced(age: nat, steps: nat): (r: nat)
    requires age < 0x1_0000_0000
    ensures r < 0x1_0000_0000
  {
    if steps == 0 then age else Unreferenced(AgeStep(age, false), steps - 1)
  }

  /** A counter below 2^b is zero after b steps without a reference. */
  lemma {:induction false} ForgetsAfter(age: nat, b: nat, steps: nat)
    requires age < 0x1_0000_0000 && age < Pow2(b) && steps >= b
    ensures Unreferenced(age, steps) == 0
  {
    if steps > 0 {
      if b == 0 {
        ForgetsAfter(age / 2, 0, steps - 1);
      } else {
        ForgetsAfter(age / 2, b - 1, steps - 1);
      }
    }
  }

  /** Without a reference the counter never grows, and while it is not zero
      every aging step makes it strictly smaller. */
  lemma {:induction false} UnreferencedDecays(age: nat, steps: nat)
    requires age < 0x1_0000_0000
    ensures Unreferenced(age, steps + 1) <= Unreferenced(age, steps)
    ensures Unreferenced(age, steps) > 0 ==> Unreferenced(age, steps + 1) < Unreferenced(age, steps)
  {
    if steps > 0 {
      UnreferencedDecays(AgeStep(age, false), steps - 1);
    }
  }

  /** A frame left unreferenced for 32 evictions has aging counter zero, so its
      history no longer counts. */
  lemma AgingForgets(age: nat, steps: nat)
    requires age < 0x1_0000_0000 && steps >= 32
    ensures Unreferenced(age, steps) == 0
  {
    Pow2Add(1, 1);
    Pow2Add(2, 2);
    Pow2Add(4, 4);
    Pow2Add(8, 8);
    Pow2Add(16, 16);
    ForgetsAfter(age, 32, steps);
  }
}
