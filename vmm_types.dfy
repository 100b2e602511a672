/** Data model of the virtual-memory pager: page table entries, virtual memory
    areas, frames, per-process statistics, processes, the frame table and the
    deterministic random-number table. Frames and page table entries point at
    each other by index (process id, virtual page, frame index). */
module VmmTypes {
  import opened Common

  // Cost weights of one operation.
  const MAP: int := 400
  const UNMAP: int := 400
  const PAGE_IN: int := 3000
  const PAGE_OUT: int := 3000
  const FILE_IN: int := 2500
  const FILE_OUT: int := 2500
  const ZERO: int := 150
  const SEGV: int := 240
  const SEGPROT: int := 300
  const READ_WRITE: int := 1
  const CONTEXT_SWITCH: int := 121

  /** Every process owns a page table of this many entries. */
  const NUM_PAGES: nat := 64
  /** FRAMEINDEX and the VMA page numbers are 7-bit fields. */
  const MAX_FRAMES: nat := 128
  /** The owner pid of a frame that no page occupies. */
  const FREE: int := -1

  /** A page table entry: the status bits of one virtual page. */
  datatype PTE = PTE(
    present: bool,
    writeProtect: bool,
    modified: bool,
    referenced: bool,
    pagedOut: bool,
    frameIndex: nat,
    fileMapped: bool)

  /** The zeroed entry every page table starts with. */
  const CLEAR_PTE: PTE := PTE(false, false, false, false, false, 0, false)

  /** A range [startPage, endPage] of legal virtual pages. */
  datatype VMA = VMA(startPage: nat, endPage: nat, writeProtected: bool, fileMapped: bool)

  /** The page numbers fit the 7-bit fields they are stored in. */
  predicate VmaOk(vma: VMA)
  {
    vma.startPage < MAX_FRAMES && vma.endPage < MAX_FRAMES
  }

  /** The inverse mapping kept in a frame: the (process, virtual page) it holds,
      or pid == FREE. The frame's index is its position in the frame table. */
  datatype Frame = Frame(pid: int, vpage: nat)

  const FREE_FRAME: Frame := Frame(FREE, 0)

  /** Per-process counters of the fault-handling events. */
  datatype Pstats = Pstats(
    unmaps: nat, maps: nat, ins: nat, outs: nat, fins: nat, fouts: nat,
    zeros: nat, segv: nat, segprot: nat)

  const NO_STATS: Pstats := Pstats(0, 0, 0, 0, 0, 0, 0, 0, 0)

  /** A process: its VMAs, its page table and its statistics. */
  datatype Process = Process(pid: nat, vmaList: seq<VMA>, pageTable: seq<PTE>, stats: Pstats)

  /** A fresh process: every page table entry zero, every counter zero. */
  function NewProcess(index: nat, vmas: seq<VMA>): (p: Process)
    ensures p.pid == index && p.vmaList == vmas && p.stats == NO_STATS
    ensures |p.pageTable| == NUM_PAGES && forall v :: 0 <= v < NUM_PAGES ==> p.pageTable[v] == CLEAR_PTE
  {
    Process(index, vmas, seq(NUM_PAGES, _ => CLEAR_PTE), NO_STATS)
  }

  /** The process list: process i has pid i, a full page table, and VMAs within
      the 7-bit page range. */
  ghost predicate ProcsOk(procs: seq<Process>)
  {
    && (forall i :: 0 <= i < |procs| ==> procs[i].pid == i && |procs[i].pageTable| == NUM_PAGES)
    && (forall i, k :: 0 <= i < |procs| && 0 <= k < |procs[i].vmaList| ==> VmaOk(procs[i].vmaList[k]))
  }

  /** Two process lists that differ at most in their page tables. */
  ghost predicate SameButTables(a: seq<Process>, b: seq<Process>)
  {
    |a| == |b| &&
    forall i :: 0 <= i < |a| ==> a[i] == b[i].(pageTable := a[i].pageTable) && |a[i].pageTable| == |b[i].pageTable|
  }

  /** Every owned frame names an existing process and page. */
  ghost predicate OwnersInRange(procs: seq<Process>, frames: seq<Frame>)
  {
    forall f :: 0 <= f < |frames| && frames[f].pid != FREE ==>
      0 <= frames[f].pid < |procs| && frames[f].vpage < |procs[frames[f].pid].pageTable|
  }

  /** The mapping invariant: an owned frame's page is present in that frame, and
      a present page sits in a frame that names it as its owner. */
  ghost predicate Mapped(procs: seq<Process>, frames: seq<Frame>)
  {
    && OwnersInRange(procs, frames)
    && (forall f :: 0 <= f < |frames| && frames[f].pid != FREE ==>
          PteOf(procs, frames[f]).present && PteOf(procs, frames[f]).frameIndex == f)
    && (forall p, v :: 0 <= p < |procs| && 0 <= v < |procs[p].pageTable| && procs[p].pageTable[v].present ==>
          procs[p].pageTable[v].frameIndex < |frames| && frames[procs[p].pageTable[v].frameIndex] == Frame(p, v))
  }

  /** The page table entry named by an inverse mapping. */
  function PteOf(procs: seq<Process>, fr: Frame): PTE
    requires 0 <= fr.pid < |procs| && fr.vpage < |procs[fr.pid].pageTable|
  {
    procs[fr.pid].pageTable[fr.vpage]
  }

  /** Distinct owned frames hold distinct pages. */
  lemma MappedInjective(procs: seq<Process>, frames: seq<Frame>, f: nat, g: nat)
    requires Mapped(procs, frames)
    requires f < |frames| && g < |frames| && frames[f].pid != FREE && f != g
    ensures frames[f] != frames[g]
  {
    assert PteOf(procs, frames[f]).frameIndex == f;
  }

  /** The REFERENCED bit of the page that occupies frame f (false for a free frame). */
  ghost function RefBit(procs: seq<Process>, frames: seq<Frame>, f: nat): bool
    requires OwnersInRange(procs, frames) && f < |frames|
  {
    frames[f].pid != FREE && PteOf(procs, frames[f]).referenced
  }

  /** An entry with REFERENCED cleared when it is present in a frame of s. */
  function ClearEntry(e: PTE, s: set<nat>): PTE
  {
    if e.present && e.frameIndex in s then e.(referenced := false) else e
  }

  /** A page table with ClearEntry applied to every entry. */
  function ClearRow(row: seq<PTE>, s: set<nat>): (r: seq<PTE>)
    ensures |r| == |row|
  {
    if row == [] then [] else ClearRow(row[..|row| - 1], s) + [ClearEntry(row[|row| - 1], s)]
  }

  /** The processes with REFERENCED cleared on every present page whose frame is
      in the set s; everything else as it was. */
  function ClearRefs(procs: seq<Process>, s: set<nat>): (r: seq<Process>)
    ensures SameButTables(r, procs)
  {
    if procs == [] then []
    else
      var last := procs[|procs| - 1];
      ClearRefs(procs[..|procs| - 1], s) + [last.(pageTable := ClearRow(last.pageTable, s))]
  }

  lemma {:induction false} ClearRowAt(row: seq<PTE>, s: set<nat>, v: nat)
    requires v < |row|
    ensures ClearRow(row, s)[v] == ClearEntry(row[v], s)
    decreases |row|
  {
    if v < |row| - 1 {
      ClearRowAt(row[..|row| - 1], s, v);
    }
  }

  /** Entry v of process p after clearing the set s. */
  lemma {:induction false} ClearRefsAt(procs: seq<Process>, s: set<nat>, p: nat, v: nat)
    requires p < |procs| && v < |procs[p].pageTable|
    ensures ClearRefs(procs, s)[p].pageTable[v] == ClearEntry(procs[p].pageTable[v], s)
    decreases |procs|
  {
    if p < |procs| - 1 {
      ClearRefsAt(procs[..|procs| - 1], s, p, v);
    } else {
      ClearRowAt(procs[p].pageTable, s, v);
    }
  }

  /** The processes with entry v of process p replaced by e. */
  function SetEntry(procs: seq<Process>, p: nat, v: nat, e: PTE): (r: seq<Process>)
    requires p < |procs| && v < |procs[p].pageTable|
    ensures SameButTables(r, procs) && r[p].pageTable[v] == e
    ensures forall q, w :: 0 <= q < |procs| && 0 <= w < |procs[q].pageTable| && (q != p || w != v) ==>
      r[q].pageTable[w] == procs[q].pageTable[w]
  {
    procs[p := procs[p].(pageTable := procs[p].pageTable[v := e])]
  }

  /** The processes with the REFERENCED bit of page v of process p cleared. */
  function Unreference(procs: seq<Process>, p: nat, v: nat): (r: seq<Process>)
    requires p < |procs| && v < |procs[p].pageTable|
  {
    SetEntry(procs, p, v, procs[p].pageTable[v].(referenced := false))
  }

  /** Clearing the bit of one more frame's page extends the cleared set by that frame. */
  lemma ClearRefsStep(procs: seq<Process>, frames: seq<Frame>, s: set<nat>, f: nat)
    requires Mapped(procs, frames) && f < |frames| && frames[f].pid != FREE
    ensures Unreference(ClearRefs(procs, s), frames[f].pid, frames[f].vpage) == ClearRefs(procs, s + {f})
  {
    var lhs := Unreference(ClearRefs(procs, s), frames[f].pid, frames[f].vpage);
    var rhs := ClearRefs(procs, s + {f});
    forall q | 0 <= q < |lhs|
      ensures lhs[q] == rhs[q]
    {
      forall w | 0 <= w < |lhs[q].pageTable|
        ensures lhs[q].pageTable[w] == rhs[q].pageTable[w]
      {
        ClearRefsAt(procs, s, q, w);
        ClearRefsAt(procs, s + {f}, q, w);
        assert procs[q].pageTable[w].present && procs[q].pageTable[w].frameIndex == f ==> frames[f] == Frame(q, w);
      }
      assert lhs[q].pageTable == rhs[q].pageTable;
    }
  }

  /** Clearing nothing changes nothing. */
  lemma ClearRefsNone(procs: seq<Process>)
    ensures ClearRefs(procs, {}) == procs
  {
    var r := ClearRefs(procs, {});
    forall q | 0 <= q < |procs|
      ensures r[q] == procs[q]
    {
      forall w | 0 <= w < |procs[q].pageTable|
        ensures r[q].pageTable[w] == procs[q].pageTable[w]
      {
        ClearRefsAt(procs, {}, q, w);
      }
      assert r[q].pageTable == procs[q].pageTable;
    }
  }

  /** Clearing REFERENCED bits keeps the mapping invariant. */
  lemma ClearRefsMapped(procs: seq<Process>, frames: seq<Frame>, s: set<nat>)
    requires Mapped(procs, frames)
    ensures Mapped(ClearRefs(procs, s), frames)
  {
    var r := ClearRefs(procs, s);
    forall p, v | 0 <= p < |r| && 0 <= v < |r[p].pageTable|
      ensures r[p].pageTable[v] == ClearEntry(procs[p].pageTable[v], s)
    {
      ClearRefsAt(procs, s, p, v);
    }
  }

  /** The referenced bit of a frame's page after clearing the set s. */
  lemma RefBitCleared(procs: seq<Process>, frames: seq<Frame>, s: set<nat>, f: nat)
    requires Mapped(procs, frames) && f < |frames|
    ensures OwnersInRange(ClearRefs(procs, s), frames)
    ensures RefBit(ClearRefs(procs, s), frames, f) == (RefBit(procs, frames, f) && f !in s)
  {
    if frames[f].pid != FREE {
      ClearRefsAt(procs, s, frames[f].pid, frames[f].vpage);
    }
  }

  /** The effect a policy may have on the processes: some REFERENCED bits of
      present pages cleared, nothing else. */
  ghost predicate RefsCleared(a: seq<Process>, b: seq<Process>)
  {
    SameButTables(b, a) &&
    forall q, w :: 0 <= q < |a| && 0 <= w < |a[q].pageTable| ==>
      b[q].pageTable[w] == a[q].pageTable[w]
      || (a[q].pageTable[w].present && b[q].pageTable[w] == a[q].pageTable[w].(referenced := false))
  }

  /** Clearing the bits of a set of frames is such an effect. */
  lemma ClearRefsOnly(procs: seq<Process>, s: set<nat>)
    ensures RefsCleared(procs, ClearRefs(procs, s))
  {
    var r := ClearRefs(procs, s);
    forall q, w | 0 <= q < |procs| && 0 <= w < |procs[q].pageTable|
      ensures r[q].pageTable[w] == ClearEntry(procs[q].pageTable[w], s)
    {
      ClearRefsAt(procs, s, q, w);
    }
  }

  /** Frames 0..used-1 are owned and the rest are free. */
  ghost predicate OwnedPrefix(frames: seq<Frame>, used: nat)
  {
    used <= |frames| && forall i :: 0 <= i < |frames| ==> (frames[i].pid != FREE <==> i < used)
  }

  /** The elements of a sequence are distinct. */
  predicate Distinct(q: seq<nat>)
  {
    forall i, j :: 0 <= i < j < |q| ==> q[i] != q[j]
  }

  /** A policy queue that holds each of the frames 0..used-1 exactly once. */
  ghost predicate QueueOf(q: seq<nat>, used: nat)
  {
    |q| == used && Distinct(q) && forall i :: 0 <= i < |q| ==> q[i] < used
  }

  /** The frame table: the pool of physical frames with their inverse mapping. */
  class FrameTable {
    var inverseMap: seq<Frame>

    constructor (numFrames: nat)
      ensures |inverseMap| == numFrames && forall i :: 0 <= i < numFrames ==> inverseMap[i] == FREE_FRAME
    {
      inverseMap := seq(numFrames, _ => FREE_FRAME);
    }

    /** The lowest-index free frame, or -1 when every frame is owned; changes nothing. */
    method GetFrame() returns (r: int)
      ensures -1 <= r < |inverseMap|
      ensures r == -1 <==> forall i :: 0 <= i < |inverseMap| ==> inverseMap[i].pid != FREE
      ensures r >= 0 ==> inverseMap[r].pid == FREE && forall i :: 0 <= i < r ==> inverseMap[i].pid != FREE
    {
      var i := 0;
      while i < |inverseMap|
        invariant 0 <= i <= |inverseMap|
        invariant forall j :: 0 <= j < i ==> inverseMap[j].pid != FREE
      {
        if inverseMap[i].pid == FREE {
          return i;
        }
        i := i + 1;
      }
      return -1;
    }
  }

  /** When frames 0..used-1 are owned, the lowest free frame is `used`. */
  lemma FirstFreeIsUsed(frames: seq<Frame>, used: nat, r: int)
    requires OwnedPrefix(frames, used)
    requires -1 <= r < |frames|
    requires r == -1 <==> forall i :: 0 <= i < |frames| ==> frames[i].pid != FREE
    requires r >= 0 ==> frames[r].pid == FREE && forall i :: 0 <= i < r ==> frames[i].pid != FREE
    ensures r == (if used < |frames| then used else -1)
  {
    if used < |frames| {
      assert frames[used].pid == FREE;
    } else {
      assert forall i :: 0 <= i < |frames| ==> frames[i].pid != FREE;
    }
  }

  /** The number drawn from the random table at position ofs, reduced modulo size. */
  function Draw(values: seq<int>, ofs: nat, size: int): int
    requires |values| > 0 && size != 0
  {
    CRem(values[ofs % |values|], size)
  }

  /** With a table of non-negative numbers a draw lies in [0, size). */
  lemma DrawInRange(values: seq<int>, ofs: nat, size: int)
    requires |values| > 0 && size > 0
    requires forall i :: 0 <= i < |values| ==> values[i] >= 0
    ensures 0 <= Draw(values, ofs, size) < size
  {
  }

  /** The random-number table, consumed cyclically with one shared cursor. */
  class RandomSource {
    const randomValue: seq<int>
    var rofs: nat

    constructor (values: seq<int>)
      ensures randomValue == values && rofs == 0
    {
      randomValue := values;
      rofs := 0;
    }

    /** The next draw reduced modulo size; the cursor advances by one whatever size is. */
    method GetRandomNumber(size: int) returns (r: int)
      requires |randomValue| > 0 && size != 0
      modifies this`rofs
      ensures r == Draw(randomValue, old(rofs), size)
      ensures rofs == old(rofs) + 1
    {
      r := CRem(randomValue[rofs % |randomValue|], size);
      rofs := rofs + 1;
    }
  }

  /** The table holds at least one number and none is negative. */
  ghost predicate RandomOk(rng: RandomSource)
    reads rng
  {
    |rng.randomValue| > 0 && forall i :: 0 <= i < |rng.randomValue| ==> rng.randomValue[i] >= 0
  }
}
