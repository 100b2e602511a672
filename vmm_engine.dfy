/** The per-instruction engine of the pager: context switches, VMA lookup,
    segmentation faults, page faults (victim unmap and flush, IN/FIN/ZERO load,
    map), the REFERENCED/MODIFIED bits and write protection, with the cost
    account. The fault-handling steps are functions of the process list; the
    Vmm class holds the simulator state and runs the instruction trace. */
module VmmEngine {
  import opened VmmTypes
  import opened VmmPolicies

  /** One instruction of the trace: 'c' switches to process `arg`; any other
      letter accesses virtual page `arg`, and 'w' makes it a write. */
  datatype Instr = Instr(op: char, arg: int)

  // ---------------------------------------------------------------------------
  // VMA lookup

  /** The VMA covers the virtual page. */
  predicate Covers(vma: VMA, vpage: nat)
  {
    vma.startPage <= vpage <= vma.endPage
  }

  /** The index of the first VMA covering the page, or -1 when none does. */
  ghost function FirstCover(vmas: seq<VMA>, vpage: nat): (r: int)
    ensures -1 <= r < |vmas|
  {
    if vmas == [] then -1
    else if Covers(vmas[0], vpage) then 0
    else
      var r := FirstCover(vmas[1..], vpage);
      if r == -1 then -1 else r + 1
  }

  /** FirstCover is -1 exactly when no VMA covers the page, and otherwise the
      lowest index of one that does. */
  lemma {:induction false} FirstCoverSound(vmas: seq<VMA>, vpage: nat)
    ensures var r := FirstCover(vmas, vpage);
      && (r == -1 <==> forall k :: 0 <= k < |vmas| ==> !Covers(vmas[k], vpage))
      && (r >= 0 ==> Covers(vmas[r], vpage) && forall k :: 0 <= k < r ==> !Covers(vmas[k], vpage))
    decreases |vmas|
  {
    if vmas != [] && !Covers(vmas[0], vpage) {
      FirstCoverSound(vmas[1..], vpage);
      forall k | 1 <= k < |vmas|
        ensures vmas[k] == vmas[1..][k - 1]
      {
      }
    }
  }

  /** The VMA search of a page fault: the first VMA covering the page, or -1. */
  method FindVma(vmas: seq<VMA>, vpage: nat) returns (r: int)
    ensures r == FirstCover(vmas, vpage)
  {
    FirstCoverSound(vmas, vpage);
    var i := 0;
    while i < |vmas|
      invariant 0 <= i <= |vmas|
      invariant forall k :: 0 <= k < i ==> !Covers(vmas[k], vpage)
    {
      if vmas[i].startPage <= vpage && vpage <= vmas[i].endPage {
        return i;
      }
      i := i + 1;
    }
    return -1;
  }

  // ---------------------------------------------------------------------------
  // The cost account

  /** The cost the counters of one process stand for. */
  function EventCost(s: Pstats): int
  {
    UNMAP * s.unmaps + MAP * s.maps + PAGE_IN * s.ins + PAGE_OUT * s.outs
      + FILE_IN * s.fins + FILE_OUT * s.fouts + ZERO * s.zeros
      + SEGV * s.segv + SEGPROT * s.segprot
  }

  /** The cost the counters of all processes stand for. */
  function TotalCost(procs: seq<Process>): int
  {
    if procs == [] then 0 else TotalCost(procs[..|procs| - 1]) + EventCost(procs[|procs| - 1].stats)
  }

  /** Replacing one process changes the total by the change of its counters' cost. */
  lemma {:induction false} TotalCostUpdate(procs: seq<Process>, p: nat, pr: Process)
    requires p < |procs|
    ensures TotalCost(procs[p := pr]) == TotalCost(procs) - EventCost(procs[p].stats) + EventCost(pr.stats)
    decreases |procs|
  {
    var r := procs[p := pr];
    if p < |procs| - 1 {
      assert r[..|r| - 1] == procs[..|procs| - 1][p := pr];
      TotalCostUpdate(procs[..|procs| - 1], p, pr);
    } else {
      assert r[..|r| - 1] == procs[..|procs| - 1];
    }
  }

  /** Process lists whose counters agree stand for the same cost. */
  lemma {:induction false} TotalCostSame(a: seq<Process>, b: seq<Process>)
    requires |a| == |b| && forall q :: 0 <= q < |a| ==> a[q].stats == b[q].stats
    ensures TotalCost(a) == TotalCost(b)
    decreases |a|
  {
    if a != [] {
      TotalCostSame(a[..|a| - 1], b[..|b| - 1]);
    }
  }

  // ---------------------------------------------------------------------------
  // Resident pages

  /** The number of present entries of a page table. */
  function Resident(row: seq<PTE>): nat
  {
    if row == [] then 0 else Resident(row[..|row| - 1]) + (if row[|row| - 1].present then 1 else 0)
  }

  /** Replacing one entry changes the count by the change of its PRESENT bit. */
  lemma {:induction false} ResidentUpdate(row: seq<PTE>, v: nat, e: PTE)
    requires v < |row|
    ensures Resident(row[v := e]) + (if row[v].present then 1 else 0)
      == Resident(row) + (if e.present then 1 else 0)
    decreases |row|
  {
    var r := row[v := e];
    if v < |row| - 1 {
      assert r[..|r| - 1] == row[..|row| - 1][v := e];
      ResidentUpdate(row[..|row| - 1], v, e);
    } else {
      assert r[..|r| - 1] == row[..|row| - 1];
    }
  }

  /** Page tables with the same PRESENT bits have the same number of resident pages. */
  lemma {:induction false} ResidentSame(a: seq<PTE>, b: seq<PTE>)
    requires |a| == |b| && forall w :: 0 <= w < |a| ==> a[w].present == b[w].present
    ensures Resident(a) == Resident(b)
    decreases |a|
  {
    if a != [] {
      ResidentSame(a[..|a| - 1], b[..|b| - 1]);
    }
  }

  /** Every map of a process is matched by an unmap or by a page still resident. */
  ghost predicate Balanced(procs: seq<Process>)
  {
    forall q :: 0 <= q < |procs| ==> procs[q].stats.maps == procs[q].stats.unmaps + Resident(procs[q].pageTable)
  }

  /** The maps of all processes together. */
  function AllMaps(procs: seq<Process>): nat
  {
    if procs == [] then 0 else AllMaps(procs[..|procs| - 1]) + procs[|procs| - 1].stats.maps
  }

  /** The unmaps of all processes together. */
  function AllUnmaps(procs: seq<Process>): nat
  {
    if procs == [] then 0 else AllUnmaps(procs[..|procs| - 1]) + procs[|procs| - 1].stats.unmaps
  }

  /** The resident pages of all processes together. */
  function AllResident(procs: seq<Process>): nat
  {
    if procs == [] then 0 else AllResident(procs[..|procs| - 1]) + Resident(procs[|procs| - 1].pageTable)
  }

  /** Balanced summed over the processes: every map of the run is matched by
      an unmap or by a page still resident. */
  lemma {:induction false} AllBalanced(procs: seq<Process>)
    requires Balanced(procs)
    ensures AllMaps(procs) == AllUnmaps(procs) + AllResident(procs)
    decreases |procs|
  {
    if procs != [] {
      var p := procs[..|procs| - 1];
      assert forall q :: 0 <= q < |p| ==> p[q] == procs[q];
      AllBalanced(p);
    }
  }

  // ---------------------------------------------------------------------------
  // The steps of an access

  /** The same processes with the same VMAs and page-table sizes. */
  ghost predicate SameShape(a: seq<Process>, b: seq<Process>)
  {
    |a| == |b| &&
    forall q :: 0 <= q < |a| ==>
      a[q].pid == b[q].pid && a[q].vmaList == b[q].vmaList && |a[q].pageTable| == |b[q].pageTable|
  }

  /** Process p with entry v set to e and its counters set to st. */
  function Put(procs: seq<Process>, p: nat, v: nat, e: PTE, st: Pstats): (r: seq<Process>)
    requires p < |procs| && v < |procs[p].pageTable|
    ensures SameShape(r, procs) && r[p].pageTable[v] == e && r[p].stats == st
    ensures forall q :: 0 <= q < |procs| && q != p ==> r[q] == procs[q]
    ensures forall w :: 0 <= w < |procs[p].pageTable| && w != v ==> r[p].pageTable[w] == procs[p].pageTable[w]
  {
    procs[p := procs[p].(pageTable := procs[p].pageTable[v := e], stats := st)]
  }

  /** The segmentation fault of an access outside every VMA: one more SEGV for
      the process and its cost; nothing else changes. */
  function Segv(procs: seq<Process>, p: nat): (r: (seq<Process>, int))
    requires p < |procs|
  {
    var st := procs[p].stats;
    (procs[p := procs[p].(stats := st.(segv := st.segv + 1))], SEGV)
  }

  /** The faulting entry takes the write protection and file mapping of its VMA. */
  function Protect(procs: seq<Process>, p: nat, v: nat, vma: VMA): (r: seq<Process>)
    requires p < |procs| && v < |procs[p].pageTable|
  {
    var pte := procs[p].pageTable[v];
    Put(procs, p, v, pte.(writeProtect := vma.writeProtected, fileMapped := vma.fileMapped), procs[p].stats)
  }

  /** Unmapping the page of a victim frame: it is no longer present; a modified
      page is flushed, to its file (FOUT) when file mapped and otherwise to swap
      (OUT, and it becomes PAGEDOUT); MODIFIED is then clear. The result is the
      new process list and the cost charged. */
  function Unmap(procs: seq<Process>, fr: Frame): (r: (seq<Process>, int))
    requires 0 <= fr.pid < |procs| && fr.vpage < |procs[fr.pid].pageTable|
  {
    var pte := procs[fr.pid].pageTable[fr.vpage];
    var st := procs[fr.pid].stats.(unmaps := procs[fr.pid].stats.unmaps + 1);
    if !pte.modified then
      (Put(procs, fr.pid, fr.vpage, pte.(present := false), st), UNMAP)
    else if pte.fileMapped then
      (Put(procs, fr.pid, fr.vpage, pte.(present := false, modified := false), st.(fouts := st.fouts + 1)),
       UNMAP + FILE_OUT)
    else
      (Put(procs, fr.pid, fr.vpage, pte.(present := false, modified := false, pagedOut := true), st.(outs := st.outs + 1)),
       UNMAP + PAGE_OUT)
  }

  /** Loading page v of process p into frame f and mapping it: from swap (IN)
      when it was paged out, else from its file (FIN) when file mapped, else a
      zero-filled page (ZERO); then the map. The entry becomes present in f. */
  function Load(procs: seq<Process>, p: nat, v: nat, f: nat): (r: (seq<Process>, int))
    requires p < |procs| && v < |procs[p].pageTable|
  {
    var pte := procs[p].pageTable[v];
    var st := procs[p].stats.(maps := procs[p].stats.maps + 1);
    var e := pte.(present := true, frameIndex := f);
    if pte.pagedOut then (Put(procs, p, v, e, st.(ins := st.ins + 1)), PAGE_IN + MAP)
    else if pte.fileMapped then (Put(procs, p, v, e, st.(fins := st.fins + 1)), FILE_IN + MAP)
    else (Put(procs, p, v, e, st.(zeros := st.zeros + 1)), ZERO + MAP)
  }

  /** The access itself: REFERENCED is set; a write sets MODIFIED, or raises a
      write-protection fault (SEGPROT) on a protected page. */
  function Touch(procs: seq<Process>, p: nat, v: nat, write: bool): (r: (seq<Process>, int))
    requires p < |procs| && v < |procs[p].pageTable|
  {
    var pte := procs[p].pageTable[v].(referenced := true);
    var st := procs[p].stats;
    if write && pte.writeProtect then (Put(procs, p, v, pte, st.(segprot := st.segprot + 1)), SEGPROT)
    else if write then (Put(procs, p, v, pte.(modified := true), st), 0)
    else (Put(procs, p, v, pte, st), 0)
  }

  /** Frame f made ready for a new page: its old page is unmapped when it has one. */
  function Vacate(procs: seq<Process>, frames: seq<Frame>, f: nat): (r: (seq<Process>, int))
    requires OwnersInRange(procs, frames) && f < |frames|
  {
    if frames[f].pid != FREE then Unmap(procs, frames[f]) else (procs, 0)
  }

  /** Page v of process p loaded into frame f, mapped and accessed. */
  function Serve(procs: seq<Process>, p: nat, v: nat, f: nat, write: bool): (r: (seq<Process>, int))
    requires p < |procs| && v < |procs[p].pageTable|
  {
    var (t, c) := Load(procs, p, v, f);
    var (t', c') := Touch(t, p, v, write);
    (t', c + c')
  }

  /** A page fault of page v of process p served by frame f: the frame's old
      page is unmapped when it had one, then v is loaded into f and accessed. */
  function Fault(procs: seq<Process>, frames: seq<Frame>, p: nat, v: nat, f: nat, write: bool): (r: (seq<Process>, int))
    requires OwnersInRange(procs, frames) && f < |frames| && p < |procs| && v < |procs[p].pageTable|
  {
    var (t, c) := Vacate(procs, frames, f);
    var (t', c') := Serve(t, p, v, f, write);
    (t', c + c')
  }

  // ---------------------------------------------------------------------------
  // What the steps keep

  /** A step that replaces process p alone and charges c: the total grows by c
      exactly when c is the change of p's counters' cost. */
  lemma ChargeOne(procs: seq<Process>, p: nat, r: seq<Process>, c: int)
    requires p < |procs| && |r| == |procs| && forall q :: 0 <= q < |procs| && q != p ==> r[q] == procs[q]
    requires c == EventCost(r[p].stats) - EventCost(procs[p].stats)
    ensures TotalCost(r) == TotalCost(procs) + c
  {
    assert r == procs[p := r[p]];
    TotalCostUpdate(procs, p, r[p]);
  }

  /** A segmentation fault charges its counter's cost. */
  lemma SegvCost(procs: seq<Process>, p: nat)
    requires p < |procs|
    ensures TotalCost(Segv(procs, p).0) == TotalCost(procs) + Segv(procs, p).1
  {
    ChargeOne(procs, p, Segv(procs, p).0, Segv(procs, p).1);
  }

  /** Copying the VMA bits charges nothing. */
  lemma ProtectCost(procs: seq<Process>, p: nat, v: nat, vma: VMA)
    requires p < |procs| && v < |procs[p].pageTable|
    ensures TotalCost(Protect(procs, p, v, vma)) == TotalCost(procs)
  {
    ChargeOne(procs, p, Protect(procs, p, v, vma), 0);
  }

  /** An unmap charges the cost of its counters. */
  lemma UnmapCost(procs: seq<Process>, fr: Frame)
    requires 0 <= fr.pid < |procs| && fr.vpage < |procs[fr.pid].pageTable|
    ensures TotalCost(Unmap(procs, fr).0) == TotalCost(procs) + Unmap(procs, fr).1
  {
    ChargeOne(procs, fr.pid, Unmap(procs, fr).0, Unmap(procs, fr).1);
  }

  /** A load charges the cost of its counters. */
  lemma LoadCost(procs: seq<Process>, p: nat, v: nat, f: nat)
    requires p < |procs| && v < |procs[p].pageTable|
    ensures TotalCost(Load(procs, p, v, f).0) == TotalCost(procs) + Load(procs, p, v, f).1
  {
    ChargeOne(procs, p, Load(procs, p, v, f).0, Load(procs, p, v, f).1);
  }

  /** An access charges the cost of its counters. */
  lemma TouchCost(procs: seq<Process>, p: nat, v: nat, write: bool)
    requires p < |procs| && v < |procs[p].pageTable|
    ensures TotalCost(Touch(procs, p, v, write).0) == TotalCost(procs) + Touch(procs, p, v, write).1
  {
    ChargeOne(procs, p, Touch(procs, p, v, write).0, Touch(procs, p, v, write).1);
  }

  /** Entries other than (p, v) agree. */
  ghost predicate SameElsewhere(a: seq<Process>, b: seq<Process>, p: nat, v: nat)
    requires SameShape(a, b)
  {
    forall q, w :: 0 <= q < |a| && 0 <= w < |a[q].pageTable| && (q != p || w != v) ==>
      a[q].pageTable[w] == b[q].pageTable[w]
  }

  /** Replacing an entry keeps every map matched when the counters' balance
      moves with the entry's PRESENT bit. */
  lemma PutBalanced(procs: seq<Process>, p: nat, v: nat, e: PTE, st: Pstats)
    requires Balanced(procs) && p < |procs| && v < |procs[p].pageTable|
    requires st.maps + (if procs[p].pageTable[v].present then 1 else 0)
      == st.unmaps + procs[p].stats.maps - procs[p].stats.unmaps + (if e.present then 1 else 0)
    ensures Balanced(Put(procs, p, v, e, st))
  {
    var t := Put(procs, p, v, e, st);
    ResidentUpdate(procs[p].pageTable, v, e);
    assert t[p].pageTable == procs[p].pageTable[v := e];
  }

  /** Replacing an entry by one with the same PRESENT bit and frame keeps the
      mapping invariant. */
  lemma PutInPlace(procs: seq<Process>, frames: seq<Frame>, p: nat, v: nat, e: PTE, st: Pstats)
    requires Mapped(procs, frames) && p < |procs| && v < |procs[p].pageTable|
    requires e.present == procs[p].pageTable[v].present && e.frameIndex == procs[p].pageTable[v].frameIndex
    ensures Mapped(Put(procs, p, v, e, st), frames)
  {
  }

  /** Making the page of owned frame f not present frees f in the mapping invariant. */
  lemma PutEvicted(procs: seq<Process>, frames: seq<Frame>, f: nat, e: PTE, st: Pstats)
    requires Mapped(procs, frames) && f < |frames| && frames[f].pid != FREE && !e.present
    ensures Mapped(Put(procs, frames[f].pid, frames[f].vpage, e, st), frames[f := FREE_FRAME])
  {
    forall h | 0 <= h < |frames| && h != f && frames[h].pid != FREE
      ensures frames[h] != frames[f]
    {
      MappedInjective(procs, frames, h, f);
    }
  }

  /** Making a page present in free frame f makes f its owner in the mapping invariant. */
  lemma PutMappedIn(procs: seq<Process>, frames: seq<Frame>, f: nat, p: nat, v: nat, e: PTE, st: Pstats)
    requires Mapped(procs, frames) && f < |frames| && frames[f].pid == FREE
    requires p < |procs| && v < |procs[p].pageTable| && !procs[p].pageTable[v].present
    requires e.present && e.frameIndex == f
    ensures Mapped(Put(procs, p, v, e, st), frames[f := Frame(p, v)])
  {
  }

  /** Unmapping the page of an owned frame frees that frame in the mapping
      invariant, keeps every map matched, and leaves every other entry alone. */
  lemma UnmapKeeps(procs: seq<Process>, frames: seq<Frame>, f: nat)
    requires Mapped(procs, frames) && Balanced(procs) && f < |frames| && frames[f].pid != FREE
    ensures var t := Unmap(procs, frames[f]).0;
      && SameShape(t, procs) && SameElsewhere(t, procs, frames[f].pid, frames[f].vpage)
      && !PteOf(t, frames[f]).present
      && Mapped(t, frames[f := FREE_FRAME]) && Balanced(t)
  {
    var fr := frames[f];
    var t := Unmap(procs, fr).0;
    var e, st := t[fr.pid].pageTable[fr.vpage], t[fr.pid].stats;
    assert t == Put(procs, fr.pid, fr.vpage, e, st);
    PutEvicted(procs, frames, f, e, st);
    PutBalanced(procs, fr.pid, fr.vpage, e, st);
  }

  /** Loading a page that is not present into a free frame makes the frame its
      owner in the mapping invariant and keeps every map matched. */
  lemma LoadKeeps(procs: seq<Process>, frames: seq<Frame>, p: nat, v: nat, f: nat)
    requires Mapped(procs, frames) && Balanced(procs) && f < |frames| && frames[f].pid == FREE
    requires p < |procs| && v < |procs[p].pageTable| && !procs[p].pageTable[v].present
    ensures var t := Load(procs, p, v, f).0;
      && SameShape(t, procs) && SameElsewhere(t, procs, p, v)
      && t[p].pageTable[v].present && t[p].pageTable[v].frameIndex == f
      && Mapped(t, frames[f := Frame(p, v)]) && Balanced(t)
  {
    var t := Load(procs, p, v, f).0;
    var e, st := t[p].pageTable[v], t[p].stats;
    assert t == Put(procs, p, v, e, st);
    PutMappedIn(procs, frames, f, p, v, e, st);
    PutBalanced(procs, p, v, e, st);
  }

  /** The access keeps each entry's PRESENT bit and frame, so it keeps the
      mapping invariant and the match of maps. */
  lemma TouchKeeps(procs: seq<Process>, frames: seq<Frame>, p: nat, v: nat, write: bool)
    requires Mapped(procs, frames) && Balanced(procs) && p < |procs| && v < |procs[p].pageTable|
    ensures var t := Touch(procs, p, v, write).0;
      && SameShape(t, procs) && SameElsewhere(t, procs, p, v)
      && t[p].pageTable[v].present == procs[p].pageTable[v].present
      && t[p].pageTable[v].frameIndex == procs[p].pageTable[v].frameIndex
      && Mapped(t, frames) && Balanced(t)
  {
    var t := Touch(procs, p, v, write).0;
    var e, st := t[p].pageTable[v], t[p].stats;
    assert t == Put(procs, p, v, e, st);
    PutInPlace(procs, frames, p, v, e, st);
    PutBalanced(procs, p, v, e, st);
  }

  /** Copying the VMA bits into an entry that is not present keeps the mapping
      invariant and the match of maps. */
  lemma ProtectKeeps(procs: seq<Process>, frames: seq<Frame>, p: nat, v: nat, vma: VMA)
    requires Mapped(procs, frames) && Balanced(procs) && p < |procs| && v < |procs[p].pageTable|
    ensures var t := Protect(procs, p, v, vma);
      && SameShape(t, procs) && SameElsewhere(t, procs, p, v)
      && t[p].pageTable[v] == procs[p].pageTable[v].(writeProtect := vma.writeProtected, fileMapped := vma.fileMapped)
      && Mapped(t, frames) && Balanced(t)
  {
    var e := procs[p].pageTable[v].(writeProtect := vma.writeProtected, fileMapped := vma.fileMapped);
    PutInPlace(procs, frames, p, v, e, procs[p].stats);
    PutBalanced(procs, p, v, e, procs[p].stats);
  }

  /** Vacating frame f frees it in the mapping invariant, keeps every map
      matched, leaves alone the entry (p, v) that is not present, and charges the
      cost of the counters added. */
  lemma VacateKeeps(procs: seq<Process>, frames: seq<Frame>, f: nat, p: nat, v: nat)
    requires Mapped(procs, frames) && Balanced(procs) && f < |frames|
    requires p < |procs| && v < |procs[p].pageTable| && !procs[p].pageTable[v].present
    ensures var t := Vacate(procs, frames, f).0;
      && SameShape(t, procs) && t[p].pageTable[v] == procs[p].pageTable[v]
      && (frames[f].pid != FREE ==> !PteOf(t, frames[f]).present)
      && Mapped(t, frames[f := FREE_FRAME]) && Balanced(t)
      && TotalCost(t) == TotalCost(procs) + Vacate(procs, frames, f).1
  {
    if frames[f].pid != FREE {
      UnmapKeeps(procs, frames, f);
      UnmapCost(procs, frames[f]);
    }
  }

  /** Serving page v of process p from free frame f: the frame becomes its owner,
      the page is present in f and referenced, every other entry is left alone,
      every map stays matched, and the cost charged is the cost of the counters added. */
  lemma ServeKeeps(procs: seq<Process>, frames: seq<Frame>, p: nat, v: nat, f: nat, write: bool)
    requires Mapped(procs, frames) && Balanced(procs) && f < |frames| && frames[f].pid == FREE
    requires p < |procs| && v < |procs[p].pageTable| && !procs[p].pageTable[v].present
    ensures var t := Serve(procs, p, v, f, write).0;
      && SameShape(t, procs) && SameElsewhere(t, procs, p, v)
      && t[p].pageTable[v].present && t[p].pageTable[v].frameIndex == f && t[p].pageTable[v].referenced
      && Mapped(t, frames[f := Frame(p, v)]) && Balanced(t)
      && TotalCost(t) == TotalCost(procs) + Serve(procs, p, v, f, write).1
  {
    LoadKeeps(procs, frames, p, v, f);
    LoadCost(procs, p, v, f);
    var t := Load(procs, p, v, f).0;
    TouchKeeps(t, frames[f := Frame(p, v)], p, v, write);
    TouchCost(t, p, v, write);
    SameShapeTrans(procs, t, Touch(t, p, v, write).0);
  }

  /** Serving a fault on a page that is not present through frame f: the frame
      becomes the page's owner, the page is present in f and referenced, the
      frame's old page is no longer present, every map stays matched, and the
      cost charged is the cost of the counters added. */
  lemma FaultKeeps(procs: seq<Process>, frames: seq<Frame>, p: nat, v: nat, f: nat, write: bool)
    requires Mapped(procs, frames) && Balanced(procs) && f < |frames|
    requires p < |procs| && v < |procs[p].pageTable| && !procs[p].pageTable[v].present
    ensures var t := Fault(procs, frames, p, v, f, write).0;
      && SameShape(t, procs)
      && t[p].pageTable[v].present && t[p].pageTable[v].frameIndex == f && t[p].pageTable[v].referenced
      && (frames[f].pid != FREE ==> !PteOf(t, frames[f]).present)
      && Mapped(t, frames[f := Frame(p, v)]) && Balanced(t)
      && TotalCost(t) == TotalCost(procs) + Fault(procs, frames, p, v, f, write).1
  {
    VacateKeeps(procs, frames, f, p, v);
    var t := Vacate(procs, frames, f).0;
    ServeKeeps(t, frames[f := FREE_FRAME], p, v, f, write);
    UpdateTwice(frames, f, FREE_FRAME, Frame(p, v));
    SameShapeTrans(procs, t, Serve(t, p, v, f, write).0);
    if frames[f].pid != FREE {
      assert frames[f] != Frame(p, v);
    }
  }

  lemma UpdateTwice(frames: seq<Frame>, f: nat, a: Frame, b: Frame)
    requires f < |frames|
    ensures frames[f := a][f := b] == frames[f := b]
  {
    var x, y := frames[f := a][f := b], frames[f := b];
    assert forall h | 0 <= h < |frames| :: x[h] == y[h];
  }

  lemma SameShapeTrans(a: seq<Process>, b: seq<Process>, c: seq<Process>)
    requires SameShape(b, a) && SameShape(c, b)
    ensures SameShape(c, a)
  {
  }

  /** Such an effect keeps the mapping invariant, the match of maps and the cost
      the counters stand for. */
  lemma RefsClearedKeeps(a: seq<Process>, b: seq<Process>, frames: seq<Frame>)
    requires RefsCleared(a, b) && Mapped(a, frames) && Balanced(a)
    ensures Mapped(b, frames) && Balanced(b) && TotalCost(b) == TotalCost(a)
    ensures SameShape(b, a)
  {
    forall q | 0 <= q < |a|
      ensures Resident(b[q].pageTable) == Resident(a[q].pageTable)
    {
      ResidentSame(b[q].pageTable, a[q].pageTable);
    }
    TotalCostSame(b, a);
  }

  /** A segmentation fault changes only a counter other than maps and unmaps. */
  lemma SegvKeeps(procs: seq<Process>, frames: seq<Frame>, p: nat)
    requires Mapped(procs, frames) && Balanced(procs) && p < |procs|
    ensures var t := Segv(procs, p).0;
      SameShape(t, procs) && Mapped(t, frames) && Balanced(t)
      && (forall q :: 0 <= q < |t| ==> t[q].pageTable == procs[q].pageTable)
      && TotalCost(t) == TotalCost(procs) + Segv(procs, p).1
  {
    SegvCost(procs, p);
    var t := Segv(procs, p).0;
    assert forall q :: 0 <= q < |t| ==> t[q].pageTable == procs[q].pageTable;
  }

  /** Frames 0..used-1 stay the owned ones when frame f gets an owner that is
      either the lowest free frame or an owned one. */
  lemma OwnedPrefixOwner(frames: seq<Frame>, used: nat, f: nat, fr: Frame)
    requires OwnedPrefix(frames, used) && f < |frames| && fr.pid != FREE
    requires frames[f].pid == FREE <==> used < |frames|
    requires used < |frames| ==> f == used
    ensures OwnedPrefix(frames[f := fr], if used < |frames| then used + 1 else used)
  {
  }

  // ---------------------------------------------------------------------------
  // The simulator

  /** The page-replacement policy chosen by the algorithm letter. */
  datatype Pager =
    | FifoPager(fifo: Fifo)
    | ScPager(sc: SecondChance)
    | RandomPager(random: RandomPolicy)
    | NruPager(nru: Nru)
    | ClockPager(clock: Clock)
    | AgingPager(aging: Aging)

  /** The policy object. */
  function PagerObject(pager: Pager): object
  {
    match pager
    case FifoPager(x) => x
    case ScPager(x) => x
    case RandomPager(x) => x
    case NruPager(x) => x
    case ClockPager(x) => x
    case AgingPager(x) => x
  }

  /** What each policy keeps between calls, with `used` frames owned out of n:
      the queues and the circle hold each owned frame once, the random policies
      share the simulator's random table, NRU's clock is below 10, the hand is a
      place on the circle, and there is one 32-bit counter per frame. */
  ghost predicate PagerOk(pager: Pager, rng: RandomSource, used: nat, n: nat)
    reads PagerObject(pager), rng
  {
    match pager
    case FifoPager(x) => QueueOf(x.frameQueue, used)
    case ScPager(x) => QueueOf(x.frameQueue, used)
    case RandomPager(x) => x.randNum == rng && RandomOk(rng)
    case NruPager(x) => x.randNum == rng && RandomOk(rng) && x.clock < 10
    case ClockPager(x) => QueueOf(x.circle, used) && (x.hand == 0 || x.hand < |x.circle|)
    case AgingPager(x) => AgesOk(x.age, n)
  }

  /** The processes described by their VMA lists: process i has pid i, its
      VMAs, a clear page table and zero counters. */
  function NewProcesses(vmas: seq<seq<VMA>>): (r: seq<Process>)
    ensures |r| == |vmas| && forall i :: 0 <= i < |vmas| ==> r[i] == NewProcess(i, vmas[i])
  {
    if vmas == [] then [] else NewProcesses(vmas[..|vmas| - 1]) + [NewProcess(|vmas| - 1, vmas[|vmas| - 1])]
  }

  /** A page table with no present entry has no resident page. */
  lemma {:induction false} ResidentNone(row: seq<PTE>)
    requires forall w :: 0 <= w < |row| ==> !row[w].present
    ensures Resident(row) == 0
    decreases |row|
  {
    if row != [] {
      ResidentNone(row[..|row| - 1]);
    }
  }

  /** Processes with zero counters stand for no cost. */
  lemma {:induction false} TotalCostNone(procs: seq<Process>)
    requires forall q :: 0 <= q < |procs| ==> procs[q].stats == NO_STATS
    ensures TotalCost(procs) == 0
    decreases |procs|
  {
    if procs != [] {
      TotalCostNone(procs[..|procs| - 1]);
    }
  }

  /** Fresh processes over a table of free frames: the process list is well
      formed and the mapping invariant holds. */
  lemma NewProcessesMapped(vmas: seq<seq<VMA>>, frames: seq<Frame>)
    requires forall i, k :: 0 <= i < |vmas| && 0 <= k < |vmas[i]| ==> VmaOk(vmas[i][k])
    requires forall h :: 0 <= h < |frames| ==> frames[h].pid == FREE
    ensures ProcsOk(NewProcesses(vmas)) && Mapped(NewProcesses(vmas), frames) && OwnedPrefix(frames, 0)
  {
    var ps := NewProcesses(vmas);
    forall q, w | 0 <= q < |ps| && 0 <= w < |ps[q].pageTable|
      ensures !ps[q].pageTable[w].present
    {
      assert ps[q] == NewProcess(q, vmas[q]);
    }
  }

  /** Fresh processes: no map is unmatched and no cost is accounted. */
  lemma NewProcessesZero(vmas: seq<seq<VMA>>)
    ensures Balanced(NewProcesses(vmas)) && TotalCost(NewProcesses(vmas)) == 0
  {
    var ps := NewProcesses(vmas);
    forall q | 0 <= q < |ps|
      ensures Resident(ps[q].pageTable) == 0
    {
      assert ps[q] == NewProcess(q, vmas[q]);
      ResidentNone(ps[q].pageTable);
    }
    TotalCostNone(ps);
  }

  /** The number of context switches in a trace. */
  function Switches(trace: seq<Instr>): nat
  {
    if trace == [] then 0 else Switches(trace[..|trace| - 1]) + (if trace[|trace| - 1].op == 'c' then 1 else 0)
  }

  /** A trace the simulator can run over n processes: every switch names a
      process, every access names one of the 64 pages and comes after a switch
      (`started` says whether one has happened). */
  ghost predicate TraceOk(trace: seq<Instr>, n: nat, started: bool)
  {
    if trace == [] then true
    else if trace[0].op == 'c' then 0 <= trace[0].arg < n && TraceOk(trace[1..], n, true)
    else started && 0 <= trace[0].arg < NUM_PAGES && TraceOk(trace[1..], n, started)
  }

  /** A fresh policy named by its letter, with no frame owned yet. */
  method NewPager(alg: char, numFrames: nat, r: RandomSource) returns (pager: Pager)
    requires alg in "fsrnca"
    requires alg == 'r' || alg == 'n' ==> RandomOk(r)
    ensures fresh(PagerObject(pager)) && PagerOk(pager, r, 0, numFrames)
    ensures (alg == 'f' <==> pager.FifoPager?) && (alg == 's' <==> pager.ScPager?)
    ensures (alg == 'r' <==> pager.RandomPager?) && (alg == 'n' <==> pager.NruPager?)
    ensures (alg == 'c' <==> pager.ClockPager?) && (alg == 'a' <==> pager.AgingPager?)
  {
    if alg == 'f' {
      var x := new Fifo();
      pager := FifoPager(x);
    } else if alg == 's' {
      var x := new SecondChance();
      pager := ScPager(x);
    } else if alg == 'r' {
      var x := new RandomPolicy(r);
      pager := RandomPager(x);
    } else if alg == 'n' {
      var x := new Nru(r);
      pager := NruPager(x);
    } else if alg == 'c' {
      var x := new Clock();
      pager := ClockPager(x);
    } else {
      var x := new Aging(numFrames);
      pager := AgingPager(x);
    }
  }

  /** The engine's invariant: well-formed processes, the mapping invariant
      with frames 0..used-1 owned, a current process or -1, the match of maps
      and unmaps, and the cost account: 121 per switch, 1 per access and the
      cost of every counted event. */
  ghost predicate EngineOk(procs: seq<Process>, frames: seq<Frame>, used: nat, cur: int,
                           ctxSwitches: nat, instCount: nat, cost: int)
  {
    && ProcsOk(procs)
    && 0 < |frames| <= MAX_FRAMES
    && Mapped(procs, frames) && OwnedPrefix(frames, used)
    && -1 <= cur < |procs|
    && Balanced(procs)
    && ctxSwitches <= instCount
    && cost == CONTEXT_SWITCH * ctxSwitches + READ_WRITE * (instCount - ctxSwitches) + TotalCost(procs)
  }

  /** Same shape keeps the process list well formed. */
  lemma SameShapeProcsOk(a: seq<Process>, b: seq<Process>)
    requires ProcsOk(a) && SameShape(b, a)
    ensures ProcsOk(b)
  {
  }

  /** The charge of 1 for the access keeps the engine's invariant, counted as an instruction. */
  lemma ChargeStep(procs: seq<Process>, frames: seq<Frame>, used: nat, cur: int, ctx: nat, inst: nat, cost: int)
    requires EngineOk(procs, frames, used, cur, ctx, inst, cost)
    ensures EngineOk(procs, frames, used, cur, ctx, inst + 1, cost + READ_WRITE)
  {
  }

  /** An access to a present page keeps the engine's invariant. */
  lemma TouchStep(procs: seq<Process>, frames: seq<Frame>, used: nat, cur: nat, ctx: nat, inst: nat, cost: int,
                  vpage: nat, write: bool)
    requires EngineOk(procs, frames, used, cur, ctx, inst, cost) && vpage < NUM_PAGES
    ensures var (t, c) := Touch(procs, cur, vpage, write);
      EngineOk(t, frames, used, cur, ctx, inst, cost + c) && |t| == |procs|
  {
    TouchKeeps(procs, frames, cur, vpage, write);
    TouchCost(procs, cur, vpage, write);
    SameShapeProcsOk(procs, Touch(procs, cur, vpage, write).0);
  }

  /** A segmentation fault keeps the engine's invariant. */
  lemma SegvStep(procs: seq<Process>, frames: seq<Frame>, used: nat, cur: nat, ctx: nat, inst: nat, cost: int)
    requires EngineOk(procs, frames, used, cur, ctx, inst, cost)
    ensures var (t, c) := Segv(procs, cur);
      EngineOk(t, frames, used, cur, ctx, inst, cost + c) && |t| == |procs|
  {
    SegvKeeps(procs, frames, cur);
    SameShapeProcsOk(procs, Segv(procs, cur).0);
  }

  /** Copying the VMA bits keeps the engine's invariant. */
  lemma ProtectStep(procs: seq<Process>, frames: seq<Frame>, used: nat, cur: nat, ctx: nat, inst: nat, cost: int,
                    vpage: nat, vma: VMA)
    requires EngineOk(procs, frames, used, cur, ctx, inst, cost) && vpage < NUM_PAGES
    ensures var t := Protect(procs, cur, vpage, vma);
      && EngineOk(t, frames, used, cur, ctx, inst, cost) && SameShape(t, procs)
      && t[cur].pageTable[vpage].present == procs[cur].pageTable[vpage].present
  {
    ProtectKeeps(procs, frames, cur, vpage, vma);
    ProtectCost(procs, cur, vpage, vma);
    SameShapeProcsOk(procs, Protect(procs, cur, vpage, vma));
  }

  /** Clearing REFERENCED bits keeps the engine's invariant. */
  lemma SelectStep(procs: seq<Process>, selected: seq<Process>, frames: seq<Frame>, used: nat, cur: int,
                   ctx: nat, inst: nat, cost: int)
    requires EngineOk(procs, frames, used, cur, ctx, inst, cost) && RefsCleared(procs, selected)
    ensures EngineOk(selected, frames, used, cur, ctx, inst, cost) && SameShape(selected, procs)
  {
    RefsClearedKeeps(procs, selected, frames);
    SameShapeProcsOk(procs, selected);
  }

  /** Serving a fault through the frame the policy gave keeps the engine's
      invariant, with the frame now owned by the faulting page. */
  lemma ServeStep(procs: seq<Process>, frames: seq<Frame>, used: nat, cur: nat,
                  ctx: nat, inst: nat, cost: int, vpage: nat, f: nat, write: bool)
    requires EngineOk(procs, frames, used, cur, ctx, inst, cost) && vpage < NUM_PAGES
    requires !procs[cur].pageTable[vpage].present
    requires f < |frames| && (frames[f].pid == FREE <==> used < |frames|) && (used < |frames| ==> f == used)
    ensures var (t, c) := Fault(procs, frames, cur, vpage, f, write);
      && EngineOk(t, frames[f := Frame(cur, vpage)], if used < |frames| then used + 1 else used, cur, ctx, inst, cost + c)
      && |t| == |procs|
  {
    FaultKeeps(procs, frames, cur, vpage, f, write);
    SameShapeProcsOk(procs, Fault(procs, frames, cur, vpage, f, write).0);
    OwnedPrefixOwner(frames, used, f, Frame(cur, vpage));
  }

  /** The pager: the processes, the frame table, the policy, the random table
      and the counters of the cost account. */
  class Vmm {
    var procs: seq<Process>
    const frameTable: FrameTable
    const rng: RandomSource
    const pager: Pager
    var ctxSwitches: nat
    var instCount: nat
    var cost: int
    /** The current process; -1 before the first context switch. */
    var cur: int
    /** The number of owned frames, which are frames 0..used-1. */
    ghost var used: nat

    /** The engine's invariant and the policy's. */
    ghost predicate Valid()
      reads this, frameTable, rng, PagerObject(pager)
    {
      && EngineOk(procs, frameTable.inverseMap, used, cur, ctxSwitches, instCount, cost)
      && PagerObject(pager) != frameTable && PagerObject(pager) != this && rng as object != this
      && PagerOk(pager, rng, used, |frameTable.inverseMap|)
    }

    /** A simulator over the given processes with numFrames free frames and the
        policy named by its letter: f FIFO, s second chance, r random, n NRU,
        c clock, a aging. */
    constructor (vmas: seq<seq<VMA>>, alg: char, numFrames: nat, values: seq<int>)
      requires alg in "fsrnca" && 0 < numFrames <= MAX_FRAMES
      requires forall i, k :: 0 <= i < |vmas| && 0 <= k < |vmas[i]| ==> VmaOk(vmas[i][k])
      requires alg == 'r' || alg == 'n' ==> |values| > 0 && forall i :: 0 <= i < |values| ==> values[i] >= 0
      ensures Valid() && fresh(frameTable) && fresh(rng) && fresh(PagerObject(pager))
      ensures procs == NewProcesses(vmas) && |frameTable.inverseMap| == numFrames
      ensures forall h :: 0 <= h < numFrames ==> frameTable.inverseMap[h] == FREE_FRAME
      ensures cur == -1 && cost == 0 && instCount == 0 && ctxSwitches == 0
      ensures (alg == 'f' <==> pager.FifoPager?) && (alg == 's' <==> pager.ScPager?)
      ensures (alg == 'r' <==> pager.RandomPager?) && (alg == 'n' <==> pager.NruPager?)
      ensures (alg == 'c' <==> pager.ClockPager?) && (alg == 'a' <==> pager.AgingPager?)
    {
      var r := new RandomSource(values);
      rng := r;
      frameTable := new FrameTable(numFrames);
      var pg := NewPager(alg, numFrames, r);
      pager := pg;
      procs := NewProcesses(vmas);
      ctxSwitches, instCount, cost, cur := 0, 0, 0, -1;
      used := 0;
      new;
      NewProcessesMapped(vmas, frameTable.inverseMap);
      NewProcessesZero(vmas);
      assert EngineOk(procs, frameTable.inverseMap, used, cur, ctxSwitches, instCount, cost);
    }

    /** A context switch: the process named becomes the current one, at a cost of 121. */
    method ContextSwitch(pid: int)
      requires Valid() && 0 <= pid < |procs|
      modifies this`cur, this`ctxSwitches, this`instCount, this`cost
      ensures Valid() && cur == pid && procs == old(procs) && used == old(used)
      ensures ctxSwitches == old(ctxSwitches) + 1 && instCount == old(instCount) + 1
      ensures cost == old(cost) + CONTEXT_SWITCH
    {
      instCount := instCount + 1;
      cur := pid;
      ctxSwitches := ctxSwitches + 1;
      cost := cost + CONTEXT_SWITCH;
    }

    /** The frame the policy gives for a fault on the process list ps: the
        lowest free frame while one exists, otherwise the victim of its
        eviction rule (each policy's SelectFrame states which); the policy may
        clear REFERENCED bits in ps and nothing else, and keeps its own invariant. */
    method SelectFrame(ps: seq<Process>) returns (f: nat, ps': seq<Process>)
      requires 0 < |frameTable.inverseMap| && Mapped(ps, frameTable.inverseMap)
      requires OwnedPrefix(frameTable.inverseMap, used) && PagerOk(pager, rng, used, |frameTable.inverseMap|)
      modifies rng, PagerObject(pager)
      ensures f < |frameTable.inverseMap|
      ensures frameTable.inverseMap[f].pid == FREE <==> used < |frameTable.inverseMap|
      ensures used < |frameTable.inverseMap| ==> f == used && ps' == ps
      ensures RefsCleared(ps, ps')
      ensures PagerOk(pager, rng, if used < |frameTable.inverseMap| then used + 1 else used, |frameTable.inverseMap|)
    {
      match pager
      case FifoPager(x) =>
        f, ps' := x.SelectFrame(ps, frameTable, used);
      case ScPager(x) =>
        f, ps' := x.SelectFrame(ps, frameTable, used);
      case RandomPager(x) =>
        f, ps' := x.SelectFrame(ps, frameTable, used);
      case NruPager(x) =>
        f, ps' := x.SelectFrame(ps, frameTable, used);
      case ClockPager(x) =>
        f, ps' := x.SelectFrame(ps, frameTable, used);
      case AgingPager(x) =>
        f, ps' := x.SelectFrame(ps, frameTable, used);
    }

    /** A read or write of page vpage by the current process, after its charge
        of 1 (Charge): a page that is present is accessed; a page outside every VMA is a segmentation
        fault that changes nothing but its counter and cost; otherwise the page
        takes its VMA's bits, the policy gives a frame, and the fault is served
        through it. The victim frame is returned, or -1 when there was no fault;
        `selected` is the process list as the policy left it. */
    method Access(write: bool, vpage: nat) returns (victim: int, selected: seq<Process>)
      requires Valid() && 0 <= cur && vpage < NUM_PAGES
      modifies this`procs, this`cost, this`used, frameTable, rng, PagerObject(pager)
      ensures Valid() && cur == old(cur) && ctxSwitches == old(ctxSwitches) && instCount == old(instCount)
      ensures |procs| == |old(procs)|
      ensures old(procs[cur].pageTable[vpage].present) ==>
        && victim == -1 && frameTable.inverseMap == old(frameTable.inverseMap)
        && procs == Touch(old(procs), cur, vpage, write).0
        && cost == old(cost) + Touch(old(procs), cur, vpage, write).1
      ensures !old(procs[cur].pageTable[vpage].present) && FirstCover(old(procs[cur].vmaList), vpage) == -1 ==>
        && victim == -1 && frameTable.inverseMap == old(frameTable.inverseMap)
        && procs == Segv(old(procs), cur).0 && cost == old(cost) + SEGV
      ensures !old(procs[cur].pageTable[vpage].present) && FirstCover(old(procs[cur].vmaList), vpage) >= 0 ==>
        var vma := old(procs[cur].vmaList)[FirstCover(old(procs[cur].vmaList), vpage)];
        && 0 <= victim < |old(frameTable.inverseMap)| == |frameTable.inverseMap|
        && (old(used) < |frameTable.inverseMap| ==> victim == old(used))
        && frameTable.inverseMap == old(frameTable.inverseMap)[victim := Frame(cur, vpage)]
        && RefsCleared(Protect(old(procs), cur, vpage, vma), selected)
        && procs == Fault(selected, old(frameTable.inverseMap), cur, vpage, victim, write).0
        && cost == old(cost) + Fault(selected, old(frameTable.inverseMap), cur, vpage, victim, write).1
    {
      victim, selected := -1, procs;
      if procs[cur].pageTable[vpage].present {
        Hit(write, vpage);
        return;
      }
      var k := FindVma(procs[cur].vmaList, vpage);
      if k == -1 {
        Segfault();
        return;
      }
      victim, selected := FaultIn(write, vpage, procs[cur].vmaList[k]);
    }

    /** An access to a present page. */
    method Hit(write: bool, vpage: nat)
      requires Valid() && 0 <= cur && vpage < NUM_PAGES
      modifies this`procs, this`cost, this`used, frameTable
      ensures Valid() && used == old(used) && frameTable.inverseMap == old(frameTable.inverseMap)
      ensures procs == Touch(old(procs), cur, vpage, write).0
      ensures cost == old(cost) + Touch(old(procs), cur, vpage, write).1
    {
      TouchStep(procs, frameTable.inverseMap, used, cur, ctxSwitches, instCount, cost, vpage, write);
      var (t, c) := Touch(procs, cur, vpage, write);
      Commit(t, cost + c, used, frameTable.inverseMap);
    }

    /** An access outside every VMA of the current process. */
    method Segfault()
      requires Valid() && 0 <= cur
      modifies this`procs, this`cost, this`used, frameTable
      ensures Valid() && used == old(used) && frameTable.inverseMap == old(frameTable.inverseMap)
      ensures procs == Segv(old(procs), cur).0 && cost == old(cost) + SEGV
    {
      SegvStep(procs, frameTable.inverseMap, used, cur, ctxSwitches, instCount, cost);
      var (t, c) := Segv(procs, cur);
      Commit(t, cost + c, used, frameTable.inverseMap);
    }

    /** The charge of 1 for a read or write, counted as an instruction. */
    method Charge()
      requires Valid()
      modifies this`instCount, this`cost
      ensures Valid() && instCount == old(instCount) + 1 && cost == old(cost) + READ_WRITE
    {
      ChargeStep(procs, frameTable.inverseMap, used, cur, ctxSwitches, instCount, cost);
      instCount, cost := instCount + 1, cost + READ_WRITE;
    }

    /** The first half of a page fault: the page takes its VMA's bits and the
        policy gives a frame; the simulator's own fields do not change. */
    method Prepare(vpage: nat, vma: VMA) returns (victim: nat, selected: seq<Process>)
      requires Valid() && 0 <= cur && vpage < NUM_PAGES && !procs[cur].pageTable[vpage].present
      modifies rng, PagerObject(pager)
      ensures EngineOk(selected, frameTable.inverseMap, used, cur, ctxSwitches, instCount, cost)
      ensures PagerObject(pager) != frameTable
      ensures PagerOk(pager, rng, if used < |frameTable.inverseMap| then used + 1 else used, |frameTable.inverseMap|)
      ensures victim < |frameTable.inverseMap|
      ensures frameTable.inverseMap[victim].pid == FREE <==> used < |frameTable.inverseMap|
      ensures used < |frameTable.inverseMap| ==> victim == used
      ensures RefsCleared(Protect(procs, cur, vpage, vma), selected) && !selected[cur].pageTable[vpage].present
    {
      ProtectStep(procs, frameTable.inverseMap, used, cur, ctxSwitches, instCount, cost, vpage, vma);
      var t := Protect(procs, cur, vpage, vma);
      victim, selected := SelectFrame(t);
      SelectStep(t, selected, frameTable.inverseMap, used, cur, ctxSwitches, instCount, cost);
    }

    /** Stores a new state of the simulation that keeps both invariants. */
    method Commit(t: seq<Process>, c: int, ghost u: nat, m: seq<Frame>)
      requires EngineOk(t, m, u, cur, ctxSwitches, instCount, c)
      requires PagerObject(pager) != frameTable && |m| == |frameTable.inverseMap|
      requires PagerOk(pager, rng, u, |frameTable.inverseMap|)
      modifies this`procs, this`cost, this`used, frameTable
      ensures Valid() && procs == t && cost == c && used == u && frameTable.inverseMap == m
    {
      procs, cost, used := t, c, u;
      frameTable.inverseMap := m;
    }

    /** The second half of a page fault on the process list ps the policy
        left: the victim's page is unmapped and the faulting page is mapped
        into the frame. */
    method Install(ps: seq<Process>, write: bool, vpage: nat, victim: nat)
      requires EngineOk(ps, frameTable.inverseMap, used, cur, ctxSwitches, instCount, cost)
      requires PagerObject(pager) != frameTable
      requires PagerOk(pager, rng, if used < |frameTable.inverseMap| then used + 1 else used, |frameTable.inverseMap|)
      requires 0 <= cur && vpage < NUM_PAGES && !ps[cur].pageTable[vpage].present
      requires victim < |frameTable.inverseMap|
      requires frameTable.inverseMap[victim].pid == FREE <==> used < |frameTable.inverseMap|
      requires used < |frameTable.inverseMap| ==> victim == used
      modifies this`procs, this`cost, this`used, frameTable
      ensures Valid() && |procs| == |ps|
      ensures frameTable.inverseMap == old(frameTable.inverseMap)[victim := Frame(cur, vpage)]
      ensures procs == Fault(ps, old(frameTable.inverseMap), cur, vpage, victim, write).0
      ensures cost == old(cost) + Fault(ps, old(frameTable.inverseMap), cur, vpage, victim, write).1
    {
      ServeStep(ps, frameTable.inverseMap, used, cur, ctxSwitches, instCount, cost, vpage, victim, write);
      var (t, c) := Fault(ps, frameTable.inverseMap, cur, vpage, victim, write);
      Commit(t, cost + c, if used < |frameTable.inverseMap| then used + 1 else used,
             frameTable.inverseMap[victim := Frame(cur, vpage)]);
    }

    /** The page fault path of Access, once the VMA covering the page is known. */
    method FaultIn(write: bool, vpage: nat, vma: VMA) returns (victim: nat, selected: seq<Process>)
      requires Valid() && 0 <= cur && vpage < NUM_PAGES && !procs[cur].pageTable[vpage].present
      modifies this`procs, this`cost, this`used, frameTable, rng, PagerObject(pager)
      ensures Valid() && cur == old(cur) && ctxSwitches == old(ctxSwitches) && instCount == old(instCount)
      ensures |procs| == |old(procs)|
      ensures victim < |old(frameTable.inverseMap)| == |frameTable.inverseMap|
      ensures old(used) < |frameTable.inverseMap| ==> victim == old(used)
      ensures frameTable.inverseMap == old(frameTable.inverseMap)[victim := Frame(cur, vpage)]
      ensures RefsCleared(Protect(old(procs), cur, vpage, vma), selected)
      ensures procs == Fault(selected, old(frameTable.inverseMap), cur, vpage, victim, write).0
      ensures cost == old(cost) + Fault(selected, old(frameTable.inverseMap), cur, vpage, victim, write).1
    {
      victim, selected := Prepare(vpage, vma);
      Install(selected, write, vpage, victim);
    }

    /** One line of the instruction trace: a context switch, or a read or write
        (any other operation letter reads) charged 1 and then performed; the
        victim frame and the processes after the policy's selection are those
        of Access. */
    method Step(ins: Instr) returns (victim: int, selected: seq<Process>)
      requires Valid()
      requires ins.op == 'c' ==> 0 <= ins.arg < |procs|
      requires ins.op != 'c' ==> 0 <= cur && 0 <= ins.arg < NUM_PAGES
      modifies this`procs, this`cost, this`used, this`cur, this`ctxSwitches, this`instCount
      modifies frameTable, rng, PagerObject(pager)
      ensures Valid() && |procs| == |old(procs)| && instCount == old(instCount) + 1
      ensures ctxSwitches == old(ctxSwitches) + (if ins.op == 'c' then 1 else 0)
      ensures ins.op == 'c' ==> cur == ins.arg
      ensures ins.op != 'c' ==> cur == old(cur)
      ensures ins.op == 'c' ==>
        && procs == old(procs) && used == old(used) && cost == old(cost) + CONTEXT_SWITCH
        && frameTable.inverseMap == old(frameTable.inverseMap)
      ensures ins.op != 'c' && old(procs[cur].pageTable[ins.arg].present) ==>
        && victim == -1 && frameTable.inverseMap == old(frameTable.inverseMap)
        && procs == Touch(old(procs), cur, ins.arg, ins.op == 'w').0
        && cost == old(cost) + READ_WRITE + Touch(old(procs), cur, ins.arg, ins.op == 'w').1
      ensures (ins.op != 'c' && !old(procs[cur].pageTable[ins.arg].present)
               && FirstCover(old(procs[cur].vmaList), ins.arg) == -1) ==>
        && victim == -1 && frameTable.inverseMap == old(frameTable.inverseMap)
        && procs == Segv(old(procs), cur).0 && cost == old(cost) + READ_WRITE + SEGV
      ensures (ins.op != 'c' && !old(procs[cur].pageTable[ins.arg].present)
               && FirstCover(old(procs[cur].vmaList), ins.arg) >= 0) ==>
        var vma := old(procs[cur].vmaList)[FirstCover(old(procs[cur].vmaList), ins.arg)];
        && 0 <= victim < |old(frameTable.inverseMap)| == |frameTable.inverseMap|
        && (old(used) < |frameTable.inverseMap| ==> victim == old(used))
        && frameTable.inverseMap == old(frameTable.inverseMap)[victim := Frame(cur, ins.arg)]
        && RefsCleared(Protect(old(procs), cur, ins.arg, vma), selected)
        && procs == Fault(selected, old(frameTable.inverseMap), cur, ins.arg, victim, ins.op == 'w').0
        && cost == old(cost) + READ_WRITE + Fault(selected, old(frameTable.inverseMap), cur, ins.arg, victim, ins.op == 'w').1
    {
      if ins.op == 'c' {
        ContextSwitch(ins.arg);
        victim, selected := -1, procs;
      } else {
        Charge();
        victim, selected := Access(ins.op == 'w', ins.arg);
      }
    }

    /** Runs the instruction trace. Every instruction is counted, every switch
        is counted, and the cost is 121 per switch, 1 per read or write and
        the weighted sum of every process's event counters. */
    method Run(trace: seq<Instr>)
      requires Valid() && TraceOk(trace, |procs|, cur >= 0)
      modifies this`procs, this`cost, this`used, this`cur, this`ctxSwitches, this`instCount
      modifies frameTable, rng, PagerObject(pager)
      ensures Valid() && |procs| == |old(procs)|
      ensures instCount == old(instCount) + |trace|
      ensures ctxSwitches == old(ctxSwitches) + Switches(trace)
      ensures cost == CONTEXT_SWITCH * ctxSwitches + READ_WRITE * (instCount - ctxSwitches) + TotalCost(procs)
      ensures AllUnmaps(procs) == AllMaps(procs) - AllResident(procs)
    {
      var i := 0;
      while i < |trace|
        invariant 0 <= i <= |trace|
        invariant Valid() && |procs| == |old(procs)|
        invariant TraceOk(trace[i..], |procs|, cur >= 0)
        invariant instCount == old(instCount) + i
        invariant ctxSwitches == old(ctxSwitches) + Switches(trace[..i])
      {
        assert trace[i..][1..] == trace[i + 1..];
        assert trace[..i + 1][..i] == trace[..i];
        var _, _ := Step(trace[i]);
        i := i + 1;
      }
      assert trace[..i] == trace;
      AllBalanced(procs);
    }
  }
}
