/** Two-level page tables that allocate their own second level (memory.c:70-110),
    and the loops of kmalloc.c and exec.c on top of them. */
module Paging {
  import opened Bytes
  import opened Frames

  const WORDS: nat := 1024
  const PAGES: nat := 0x10_0000

  const PRES: nat := 1
  const WRT: nat := 2
  const USER: nat := 4
  const OWNER: nat := 512

  /** The slot through which the directory maps itself. */
  const RECURSIVE: nat := 1023

  // ---- bitwise or

  function Or(a: nat, b: nat): nat
    decreases a + b
  {
    if a == 0 && b == 0 then 0 else 2 * Or(a / 2, b / 2) + if a % 2 == 1 || b % 2 == 1 then 1 else 0
  }

  lemma {:induction false} OrBit(a: nat, b: nat, i: nat)
    ensures Bit(Or(a, b), i) == if Bit(a, i) == 1 || Bit(b, i) == 1 then 1 else 0
  {
    if i > 0 {
      OrBit(a / 2, b / 2, i - 1);
      assert Or(a, b) / 2 == Or(a / 2, b / 2);
    }
  }

  lemma {:induction false} OrZero(a: nat)
    ensures Or(a, 0) == a
  {
    if a > 0 {
      OrZero(a / 2);
    }
  }

  lemma {:induction false} OrBelow(a: nat, b: nat, n: nat)
    requires a < Pow2(n) && b < Pow2(n)
    ensures Or(a, b) < Pow2(n)
  {
    if n > 0 {
      OrBelow(a / 2, b / 2, n - 1);
    }
  }

  /** Every bit of b is a bit of a. */
  ghost predicate Covers(a: nat, b: nat) { forall i: nat :: Bit(b, i) == 1 ==> Bit(a, i) == 1 }

  lemma CoversHalf(a: nat, b: nat)
    ensures Covers(a, b) <==> (b % 2 == 1 ==> a % 2 == 1) && Covers(a / 2, b / 2)
  {
    assert Bit(a, 0) == a % 2 && Bit(b, 0) == b % 2;
    if Covers(a, b) {
      forall i: nat | Bit(b / 2, i) == 1
        ensures Bit(a / 2, i) == 1
      {
        assert Bit(b, i + 1) == 1;
      }
    }
    if (b % 2 == 1 ==> a % 2 == 1) && Covers(a / 2, b / 2) {
      forall i: nat | Bit(b, i) == 1
        ensures Bit(a, i) == 1
      {
        assert i > 0 ==> Bit(b / 2, i - 1) == 1;
      }
    }
  }

  /** Or adds nothing exactly if there is nothing to add. */
  lemma {:induction false} OrCovers(a: nat, b: nat)
    ensures Or(a, b) == a <==> Covers(a, b)
    decreases a + b
  {
    CoversHalf(a, b);
    if a != 0 || b != 0 {
      OrCovers(a / 2, b / 2);
    } else {
      forall i: nat
        ensures Bit(0, i) == 0
      {
        ZeroBit(i);
      }
    }
  }

  // ---- physical memory

  type FrameNo = f: nat | f < PAGES

  /** A 32-bit word, as page number and low twelve bits. */
  datatype Entry = Entry(frame: FrameNo, flags: nat)

  function Blank(): (w: seq<Entry>)
    ensures |w| == WORDS && forall k | 0 <= k < WORDS :: w[k] == Entry(0, 0)
  {
    seq(WORDS, _ => Entry(0, 0))
  }

  type Words = w: seq<Entry> | |w| == WORDS witness Blank()

  /** The words of every physical frame, the frame of the page directory, the
      frame allocator and mem_num_vpages. */
  datatype Vm = Vm(mem: map<FrameNo, Words>, dir: FrameNo, pmm: Pmm, pages: nat)

  ghost predicate VmOk(v: Vm) { PmmOk(v.pmm) && forall f: FrameNo :: f in v.mem }

  predicate Present(e: Entry) { Bit(e.flags, 0) == 1 }

  /** A directory entry that maps four megabytes by itself, as those of the
      boot directory do. */
  predicate Large(e: Entry) { Bit(e.flags, 7) == 1 }

  function DirEntry(v: Vm, d: nat): Entry
    requires v.dir in v.mem && d < WORDS
  {
    v.mem[v.dir][d]
  }

  /** The second-level word for a page, if there is a table for it. */
  function PageWord(v: Vm, page: nat): Option<Entry>
    requires VmOk(v) && page < PAGES
  {
    var e := DirEntry(v, page / WORDS);
    if Present(e) && !Large(e) then Some(v.mem[e.frame][page % WORDS]) else None
  }

  function Translate(v: Vm, page: nat): Option<FrameNo>
    requires VmOk(v) && page < PAGES
  {
    var e := DirEntry(v, page / WORDS);
    if Present(e) && Large(e) then Some(e.frame / WORDS * WORDS + page % WORDS)
    else match PageWord(v, page)
      case None => None
      case Some(w) => if Present(w) then Some(w.frame) else None
  }

  /** The frame bits already stored for a page, mapped or not. */
  function OldFrame(v: Vm, page: nat): FrameNo
    requires VmOk(v) && page < PAGES
  {
    match PageWord(v, page)
    case None => 0
    case Some(e) => e.frame
  }

  // ---- memMapPage

  function OrFrame(a: FrameNo, b: FrameNo): (r: FrameNo)
    ensures r == Or(a, b)
  {
    assert Pow2(10) == 1024;
    assert Pow2(20) == PAGES;
    OrBelow(a, b, 20);
    Or(a, b)
  }

  function NextFrame(v: Vm): FrameNo
    requires PmmOk(v.pmm)
  {
    Frame(v.pmm)
  }

  /** The first half: a new, zeroed table, or the user bit for an old one. */
  function WithTable(v: Vm, d: nat, flags: nat, keep: bool): (u: Vm)
    requires VmOk(v) && d < WORDS
    ensures VmOk(u) && u.dir == v.dir
  {
    var e := DirEntry(v, d);
    if !Present(e) then
      var f := NextFrame(v);
      var made := Entry(f, Or(Or(Or(PRES, WRT), OWNER), flags));
      v.(mem := v.mem[v.dir := v.mem[v.dir][d := made]][f := Blank()], pmm := Alloc(v.pmm, keep))
    else if flags / USER % 2 == 1 then
      v.(mem := v.mem[v.dir := v.mem[v.dir][d := e.(flags := Or(e.flags, USER))]])
    else v
  }

  function MapPage(v: Vm, page: nat, phys: Entry, flags: nat, keep: bool): (u: Vm)
    requires VmOk(v) && page < PAGES
    ensures VmOk(u) && u.dir == v.dir
  {
    var u := WithTable(v, page / WORDS, flags, keep);
    var t := DirEntry(u, page / WORDS).frame;
    var was := u.mem[t][page % WORDS];
    var e := Entry(OrFrame(phys.frame, was.frame), Or(Or(Or(phys.flags, PRES), was.flags), flags));
    u.(mem := u.mem[t := u.mem[t][page % WORDS := e]], pages := u.pages + 1)
  }

  predicate IsTable(v: Vm, d: nat)
    requires v.dir in v.mem
  {
    d < RECURSIVE && Present(DirEntry(v, d)) && !Large(DirEntry(v, d))
  }

  /** The directory maps itself, and no two of its tables share a frame. */
  ghost predicate PagingOk(v: Vm) {
    && VmOk(v)
    && DirEntry(v, RECURSIVE).frame == v.dir && Present(DirEntry(v, RECURSIVE))
    && (forall d | IsTable(v, d) :: DirEntry(v, d).frame != v.dir)
    && forall d, e | IsTable(v, d) && IsTable(v, e) && d != e :: DirEntry(v, d).frame != DirEntry(v, e).frame
  }

  /** Nothing of the paging structures is in the frame. */
  ghost predicate Fresh(v: Vm, f: FrameNo)
    requires VmOk(v)
  {
    f != v.dir && forall d | IsTable(v, d) :: DirEntry(v, d).frame != f
  }

  /** The directory slot has a table or is empty. */
  predicate CanHold(v: Vm, d: nat)
    requires v.dir in v.mem
  {
    d < RECURSIVE && (Present(DirEntry(v, d)) ==> !Large(DirEntry(v, d)))
  }

  /** Flags that memMapPage is called with do not ask for a four-megabyte page. */
  predicate Plain(flags: nat) { Bit(flags, 7) == 0 }

  /** A new table, if one is needed, gets a fresh frame. */
  ghost predicate Ready(v: Vm, page: nat)
    requires VmOk(v)
  {
    CanHold(v, page / WORDS) && (IsTable(v, page / WORDS) || Fresh(v, NextFrame(v)))
  }

  lemma TableMade(v: Vm, d: nat, flags: nat, keep: bool)
    requires PagingOk(v) && CanHold(v, d) && (IsTable(v, d) || Fresh(v, NextFrame(v))) && Plain(flags)
    ensures var u := WithTable(v, d, flags, keep);
      && PagingOk(u) && IsTable(u, d)
      && (forall e | 0 <= e < WORDS && e != d :: DirEntry(u, e) == DirEntry(v, e))
      && (forall f: FrameNo | f != v.dir && (IsTable(v, d) || f != NextFrame(v)) :: u.mem[f] == v.mem[f])
      && DirEntry(u, d).frame == (if IsTable(v, d) then DirEntry(v, d).frame else NextFrame(v))
      && (!IsTable(v, d) ==> u.mem[NextFrame(v)] == Blank())
  {
    var u := WithTable(v, d, flags, keep);
    NewTableFlags(flags);
    UserFlag(DirEntry(v, d).flags);
    hide Or, NextFrame, Alloc, Bit;
    assert forall e | 0 <= e < WORDS && e != d :: DirEntry(u, e) == DirEntry(v, e);
  }

  lemma NewTableFlags(flags: nat)
    ensures var w := Or(Or(Or(PRES, WRT), OWNER), flags); Bit(w, 0) == 1 && (Plain(flags) ==> Bit(w, 7) == 0)
  {
    OrBit(PRES, WRT, 0);
    OrBit(PRES, WRT, 7);
    OrBit(Or(PRES, WRT), OWNER, 0);
    OrBit(Or(PRES, WRT), OWNER, 7);
    OrBit(Or(Or(PRES, WRT), OWNER), flags, 0);
    OrBit(Or(Or(PRES, WRT), OWNER), flags, 7);
    FlagBits();
    hide Or, Bit;
  }

  lemma FlagBits()
    ensures Bit(PRES, 0) == 1 && Bit(PRES, 7) == 0 && Bit(WRT, 7) == 0 && Bit(USER, 7) == 0 && Bit(OWNER, 7) == 0
  {
    PowerBit(0, 7);
    PowerBit(1, 7);
    PowerBit(2, 7);
    PowerBit(9, 7);
    assert Pow2(1) == WRT && Pow2(2) == USER;
    assert Pow2(4) == 16 && Pow2(9) == OWNER;
  }

  lemma UserFlag(flags: nat)
    ensures Bit(Or(flags, USER), 7) == Bit(flags, 7)
    ensures Bit(flags, 0) == 1 ==> Bit(Or(flags, USER), 0) == 1
  {
    OrBit(flags, USER, 0);
    OrBit(flags, USER, 7);
    FlagBits();
  }

  lemma TableSlots(v: Vm, d: nat, flags: nat, keep: bool, q: nat)
    requires PagingOk(v) && CanHold(v, d) && (IsTable(v, d) || Fresh(v, NextFrame(v))) && Plain(flags)
    requires q < PAGES && q / WORDS != RECURSIVE
    ensures var u := WithTable(v, d, flags, keep);
      PageWord(u, q) == if q / WORDS == d && !IsTable(v, d) then Some(Entry(0, 0)) else PageWord(v, q)
  {
    TableMade(v, d, flags, keep);
    hide WithTable, NextFrame, Bit;
  }

  lemma MapPageDirectory(v: Vm, page: nat, phys: Entry, flags: nat, keep: bool)
    requires PagingOk(v) && page < PAGES && Ready(v, page) && Plain(flags)
    ensures var u := MapPage(v, page, phys, flags, keep);
      && PagingOk(u)
      && forall e | 0 <= e < WORDS :: DirEntry(u, e) == DirEntry(WithTable(v, page / WORDS, flags, keep), e)
  {
    var d := page / WORDS;
    TableMade(v, d, flags, keep);
    hide WithTable, Or, OrFrame, NextFrame, Bit;
    assert forall e | 0 <= e < WORDS ::
      DirEntry(MapPage(v, page, phys, flags, keep), e) == DirEntry(WithTable(v, d, flags, keep), e);
  }

  /** memMapPage refines a map from pages to frames: the page gets the given
      frame, or-ed into what was stored for it, no other page changes, and the
      tables stay apart. */
  lemma MapPageRefines(v: Vm, page: nat, phys: Entry, flags: nat, keep: bool)
    requires PagingOk(v) && page < PAGES && Ready(v, page) && Plain(flags)
    ensures var u := MapPage(v, page, phys, flags, keep);
      && PagingOk(u)
      && Translate(u, page) == Some(OrFrame(phys.frame, OldFrame(v, page)))
      && forall q: nat | q < PAGES && q / WORDS != RECURSIVE && q != page ::
        Translate(u, q) == Translate(v, q) && OldFrame(u, q) == OldFrame(v, q)
  {
    var d := page / WORDS;
    var m := WithTable(v, d, flags, keep);
    var u := MapPage(v, page, phys, flags, keep);
    MapPageDirectory(v, page, phys, flags, keep);
    TableMade(v, d, flags, keep);
    TableSlots(v, d, flags, keep, page);
    EntryPresent(phys, if PageWord(v, page).Some? then PageWord(v, page).value.flags else 0, flags);
    hide WithTable, Or, OrFrame, NextFrame, Bit, Ready, Plain, PagingOk;
    forall q: nat | q < PAGES && q / WORDS != RECURSIVE && q != page
      ensures Translate(u, q) == Translate(v, q) && OldFrame(u, q) == OldFrame(v, q)
    {
      TableSlots(v, d, flags, keep, q);
      assert q / WORDS == d ==> q % WORDS != page % WORDS;
      assert PageWord(u, q) == PageWord(m, q);
    }
  }

  lemma EntryPresent(phys: Entry, was: nat, flags: nat)
    ensures Bit(Or(Or(Or(phys.flags, PRES), was), flags), 0) == 1
  {
    OrBit(phys.flags, PRES, 0);
    OrBit(Or(phys.flags, PRES), was, 0);
    OrBit(Or(Or(phys.flags, PRES), was), flags, 0);
    FlagBits();
    hide Or, Bit;
  }

  /** The page translates to exactly the given frame if and only if the bits
      stored for it before are bits of that frame: an empty word, say, or the
      same frame. */
  lemma MapPageExact(v: Vm, page: nat, phys: Entry, flags: nat, keep: bool)
    requires PagingOk(v) && page < PAGES && Ready(v, page) && Plain(flags)
    ensures Translate(MapPage(v, page, phys, flags, keep), page) == Some(phys.frame) <==>
      Covers(phys.frame, OldFrame(v, page))
  {
    MapPageRefines(v, page, phys, flags, keep);
    OrCovers(phys.frame, OldFrame(v, page));
    hide MapPage, OldFrame, Covers, Or;
  }

  /** If the frame for a new table is already the table of another directory
      slot, all pages of that slot are lost, and one of them is mapped to the
      new page's frame. */
  lemma SharedTable(v: Vm, page: nat, phys: Entry, flags: nat, keep: bool, d: nat, q: nat)
    requires PagingOk(v) && page < PAGES && CanHold(v, page / WORDS) && !IsTable(v, page / WORDS) && Plain(flags)
    requires IsTable(v, d) && DirEntry(v, d).frame == NextFrame(v) && q < PAGES && q / WORDS == d
    ensures Translate(MapPage(v, page, phys, flags, keep), q) ==
      if q % WORDS == page % WORDS then Some(phys.frame) else None
  {
    OrZero(phys.frame);
    EntryPresent(phys, 0, flags);
    NewTableFlags(flags);
    hide Or, NextFrame, Alloc, Bit;
  }

  // ---- freshness

  /** The paging structures lie in frames that the allocator will not choose. */
  ghost predicate Guarded(v: Vm)
    requires VmOk(v)
  {
    forall f: FrameNo | Scanned(v.pmm, f) && FrameBit(v.pmm, f) == 0 :: Fresh(v, f)
  }

  lemma GuardedReady(v: Vm, page: nat)
    requires PagingOk(v) && Guarded(v) && CanHold(v, page / WORDS) && (IsTable(v, page / WORDS) || !Exhausted(v.pmm))
    ensures Ready(v, page)
  {
    FrameIsLowestFree(v.pmm);
    hide FrameBit, Fresh, Exhausted, Frame;
  }

  lemma GuardedAlloc(v: Vm)
    requires VmOk(v) && Guarded(v)
    ensures Guarded(Grabbed(v, true))
    ensures PagingOk(v) ==> PagingOk(Grabbed(v, true))
  {
    var p, u := v.pmm, Grabbed(v, true);
    hide FrameBit, Exhausted, Frame, Alloc;
    assert forall d | 0 <= d < WORDS :: DirEntry(u, d) == DirEntry(v, d);
    assert forall f: FrameNo :: Scanned(u.pmm, f) == Scanned(p, f);
    if Exhausted(p) {
      ExhaustedStays(p, true);
    } else {
      KeptBits(p);
    }
    assert forall f: FrameNo | Scanned(p, f) && FrameBit(u.pmm, f) == 0 :: FrameBit(p, f) == 0 && Fresh(v, f);
  }

  /** As designed, every call keeps the structures out of the allocator's reach. */
  lemma GuardedMap(v: Vm, page: nat, phys: Entry, flags: nat)
    requires PagingOk(v) && Guarded(v) && page < PAGES && CanHold(v, page / WORDS) && Plain(flags)
    requires IsTable(v, page / WORDS) || !Exhausted(v.pmm)
    ensures Guarded(MapPage(v, page, phys, flags, true))
  {
    var d := page / WORDS;
    var u := MapPage(v, page, phys, flags, true);
    GuardedReady(v, page);
    TableMade(v, d, flags, true);
    assert forall e | 0 <= e < WORDS :: DirEntry(u, e) == DirEntry(WithTable(v, d, flags, true), e);
    if !IsTable(v, d) {
      KeptBits(v.pmm);
    }
    hide FrameBit, Exhausted, Frame, Or, OrFrame, Bit;
  }

  // ---- the heap of kmalloc.c

  /** The page of KERNEL_MALLOC, and how many pages there are from it to the
      part of the address space in which the tables show. */
  const HEAP: nat := 0xD0000
  const HEAP_PAGES: nat := 0x2FC00

  function Grabbed(v: Vm, keep: bool): (u: Vm)
    requires VmOk(v)
    ensures VmOk(u) && u.dir == v.dir
  {
    v.(pmm := Alloc(v.pmm, keep))
  }

  /** The state after the first n pages of the heap were allocated and mapped. */
  function HeapRun(v: Vm, n: nat, keep: bool): (u: Vm)
    requires VmOk(v) && n <= HEAP_PAGES
    ensures VmOk(u) && u.dir == v.dir
  {
    if n == 0 then v
    else
      var u := HeapRun(v, n - 1, keep);
      MapPage(Grabbed(u, keep), HEAP + n - 1, Entry(NextFrame(u), 0), WRT, keep)
  }

  /** The frame that page i of the heap is given. */
  function HeapFrame(v: Vm, i: nat, keep: bool): FrameNo
    requires VmOk(v) && i <= HEAP_PAGES
  {
    NextFrame(HeapRun(v, i, keep))
  }

  ghost predicate HeapReady(v: Vm, n: nat, keep: bool)
    requires VmOk(v) && n <= HEAP_PAGES
  {
    forall i | 0 <= i < n :: Ready(Grabbed(HeapRun(v, i, keep), keep), HEAP + i)
  }

  /** Pages [first, first + n) translate as given, every other page as before. */
  ghost predicate Remapped(v: Vm, u: Vm, first: nat, n: nat) {
    && VmOk(v) && VmOk(u)
    && forall q: nat | q < PAGES && q / WORDS != RECURSIVE && !(first <= q < first + n) ::
      Translate(u, q) == Translate(v, q) && OldFrame(u, q) == OldFrame(v, q)
  }

  lemma GrabbedSame(v: Vm, keep: bool)
    requires VmOk(v)
    ensures PagingOk(v) ==> PagingOk(Grabbed(v, keep))
    ensures forall q: nat | q < PAGES ::
      Translate(Grabbed(v, keep), q) == Translate(v, q) && OldFrame(Grabbed(v, keep), q) == OldFrame(v, q)
  {
    var u := Grabbed(v, keep);
    hide Alloc;
    assert forall d | 0 <= d < WORDS :: DirEntry(u, d) == DirEntry(v, d);
  }

  /** Every heap page is mapped to the frame it was given, nothing else changes. */
  lemma {:induction false} HeapMaps(v: Vm, n: nat, keep: bool)
    requires VmOk(v) && PagingOk(v) && n <= HEAP_PAGES && HeapReady(v, n, keep)
    ensures var u := HeapRun(v, n, keep);
      && PagingOk(u) && Remapped(v, u, HEAP, n)
      && forall i | 0 <= i < n :: Translate(u, HEAP + i) == Some(OrFrame(HeapFrame(v, i, keep), OldFrame(v, HEAP + i)))
  {
    hide Translate, OldFrame, MapPage, Ready, Grabbed, NextFrame, OrFrame, PagingOk;
    if n > 0 {
      assert HeapReady(v, n - 1, keep);
      HeapMaps(v, n - 1, keep);
      var u := HeapRun(v, n - 1, keep);
      GrabbedSame(u, keep);
      LoadFlags();
      MapPageRefines(Grabbed(u, keep), HEAP + n - 1, Entry(NextFrame(u), 0), WRT, keep);
    }
  }

  /** How often the allocator was called for the first n pages. */
  function Calls(v: Vm, n: nat, keep: bool): nat
    requires VmOk(v) && n <= HEAP_PAGES
  {
    if n == 0 then 0
    else Calls(v, n - 1, keep) + if Present(DirEntry(HeapRun(v, n - 1, keep), (HEAP + n - 1) / WORDS)) then 1 else 2
  }

  lemma MapPagePmm(v: Vm, page: nat, phys: Entry, flags: nat, keep: bool)
    requires VmOk(v) && page < PAGES
    ensures MapPage(v, page, phys, flags, keep).pmm ==
      if Present(DirEntry(v, page / WORDS)) then v.pmm else Alloc(v.pmm, keep)
  {
    hide Or, OrFrame, Alloc;
  }

  lemma {:induction false} HeapPmm(v: Vm, n: nat, keep: bool)
    requires VmOk(v) && n <= HEAP_PAGES
    ensures HeapRun(v, n, keep).pmm == Frames.After(v.pmm, Calls(v, n, keep), keep)
  {
    hide Alloc, MapPage, Present, PmmOk, NextFrame;
    if n > 0 {
      HeapPmm(v, n - 1, keep);
      var u := HeapRun(v, n - 1, keep);
      MapPagePmm(Grabbed(u, keep), HEAP + n - 1, Entry(NextFrame(u), 0), WRT, keep);
      assert DirEntry(Grabbed(u, keep), (HEAP + n - 1) / WORDS) == DirEntry(u, (HEAP + n - 1) / WORDS);
      assert Frames.After(v.pmm, Calls(v, n - 1, keep) + 1, keep) == Grabbed(u, keep).pmm;
    }
  }

  lemma HeapFrameIs(v: Vm, i: nat, keep: bool)
    requires VmOk(v) && i <= HEAP_PAGES
    ensures HeapFrame(v, i, keep) == Frames.Call(v.pmm, Calls(v, i, keep), keep)
  {
    HeapPmm(v, i, keep);
    hide HeapRun, Calls, Frame;
  }

  lemma {:induction false} CallsGrow(v: Vm, i: nat, j: nat, keep: bool)
    requires VmOk(v) && i < j <= HEAP_PAGES
    ensures Calls(v, i, keep) < Calls(v, j, keep)
    decreases j
  {
    hide HeapRun, Present;
    if i < j - 1 {
      CallsGrow(v, i, j - 1, keep);
    }
  }

  ghost predicate HeapApart(v: Vm, n: nat, keep: bool)
    requires VmOk(v) && n <= HEAP_PAGES
  {
    forall i, j | 0 <= i < j < n :: HeapFrame(v, i, keep) != HeapFrame(v, j, keep)
  }

  /** As designed, the pages of the heap get different frames while there are any. */
  lemma KeptHeapApart(v: Vm, n: nat)
    requires VmOk(v) && n <= HEAP_PAGES
    requires forall i | 0 <= i < n :: !Exhausted(HeapRun(v, i, true).pmm)
    ensures HeapApart(v, n, true)
  {
    hide HeapRun, Calls, Exhausted, NextFrame, HeapFrame, Frames.Call;
    forall i, j | 0 <= i < j < n
      ensures HeapFrame(v, i, true) != HeapFrame(v, j, true)
    {
      HeapPmm(v, i, true);
      HeapPmm(v, j, true);
      CallsGrow(v, i, j, true);
      HeapFrameIs(v, i, true);
      HeapFrameIs(v, j, true);
      KeptNeverTwice(v.pmm, Calls(v, i, true), Calls(v, j, true));
    }
  }

  /** The code: after initMemory they get different frames exactly for a heap
      of one page, or of two if the table was there before. */
  lemma CodeHeapApart(v: Vm, n: nat)
    requires VmOk(v) && n <= HEAP_PAGES && Clear(v.pmm) && StartByte(v.pmm) < EndByte(v.pmm)
    ensures HeapApart(v, n, false) <==> n <= if Present(DirEntry(v, HEAP / WORDS)) then 2 else 1
  {
    hide HeapRun, Calls, NextFrame, HeapFrame, Frames.Call, Clear, PmmOk, Present, StartByte, EndByte;
    FirstCalls(v);
    forall i | 0 <= i <= HEAP_PAGES
      ensures HeapFrame(v, i, false) == 8 * StartByte(v.pmm) + Calls(v, i, false) % 2
    {
      HeapFrameIs(v, i, false);
      CodeRun(v.pmm, Calls(v, i, false));
    }
    if n > 2 {
      assert HeapFrame(v, 0, false) == HeapFrame(v, 1, false) || HeapFrame(v, 0, false) == HeapFrame(v, 2, false)
        || HeapFrame(v, 1, false) == HeapFrame(v, 2, false);
    } else if n == 2 {
      assert HeapApart(v, n, false) <==> HeapFrame(v, 0, false) != HeapFrame(v, 1, false);
    }
  }

  lemma FirstCalls(v: Vm)
    requires VmOk(v)
    ensures Calls(v, 0, false) == 0
    ensures Calls(v, 1, false) == if Present(DirEntry(v, HEAP / WORDS)) then 1 else 2
  {
    assert Calls(v, 0, false) == 0;
    hide Present, MapPage;
  }

  lemma GrabbedEntry(v: Vm, d: nat, keep: bool)
    requires VmOk(v) && d < WORDS
    ensures DirEntry(Grabbed(v, keep), d) == DirEntry(v, d)
  {
    hide Alloc;
  }

  lemma HeapRoom(v: Vm, n: nat)
    requires VmOk(v) && 0 < n <= HEAP_PAGES && Calls(v, n, true) <= |Free(v.pmm)|
    ensures var u := HeapRun(v, n - 1, true); var w := Grabbed(u, true);
      !Exhausted(u.pmm) && (Present(DirEntry(w, (HEAP + n - 1) / WORDS)) || !Exhausted(w.pmm))
  {
    hide Alloc, MapPage, NextFrame, Exhausted, Free, HeapRun, Present, PmmOk;
    var c := Calls(v, n - 1, true);
    GrabbedEntry(HeapRun(v, n - 1, true), (HEAP + n - 1) / WORDS, true);
    HeapPmm(v, n - 1, true);
    KeptExhausted(v.pmm, c);
    KeptExhausted(v.pmm, c + 1);
    assert Grabbed(HeapRun(v, n - 1, true), true).pmm == Frames.After(v.pmm, c + 1, true);
  }

  /** No four-megabyte page lies where the heap is to grow. */
  ghost predicate HoldsHeap(v: Vm)
    requires VmOk(v)
  {
    forall d | HEAP / WORDS <= d < RECURSIVE :: CanHold(v, d)
  }

  lemma HoldsHeapKept(v: Vm, page: nat, phys: Entry, keep: bool)
    requires VmOk(v) && PagingOk(v) && HoldsHeap(v) && HEAP <= page < PAGES
    requires Ready(Grabbed(v, keep), page)
    ensures HoldsHeap(MapPage(Grabbed(v, keep), page, phys, WRT, keep))
  {
    hide MapPage, Bit, NextFrame, Fresh;
    var w := Grabbed(v, keep);
    GrabbedSame(v, keep);
    LoadFlags();
    MapPageTable(w, page, phys, WRT, keep);
    hide Grabbed;
    forall d | HEAP / WORDS <= d < RECURSIVE
      ensures CanHold(MapPage(w, page, phys, WRT, keep), d)
    {
      GrabbedEntry(v, d, keep);
      assert CanHold(v, d);
    }
  }

  lemma LoadFlags()
    ensures Plain(WRT) && Plain(Or(PRES, WRT))
  {
    FlagBits();
    OrBit(PRES, WRT, 7);
  }

  lemma HeapUnfold(v: Vm, n: nat)
    requires VmOk(v) && 0 < n <= HEAP_PAGES
    ensures (HEAP + n - 1) / WORDS < RECURSIVE
    ensures var u := HeapRun(v, n - 1, true);
      HeapRun(v, n, true) == MapPage(Grabbed(u, true), HEAP + n - 1, Entry(NextFrame(u), 0), WRT, true)
  {
  }

  lemma HeapNext(v: Vm, n: nat)
    requires VmOk(v) && 0 < n <= HEAP_PAGES && Calls(v, n, true) <= |Free(v.pmm)|
    requires var u := HeapRun(v, n - 1, true); PagingOk(u) && Guarded(u) && HoldsHeap(u)
    ensures !Exhausted(HeapRun(v, n - 1, true).pmm)
    ensures Ready(Grabbed(HeapRun(v, n - 1, true), true), HEAP + n - 1)
    ensures Guarded(HeapRun(v, n, true)) && HoldsHeap(HeapRun(v, n, true))
  {
    hide Alloc, MapPage, NextFrame, Exhausted, Free, PagingOk, Guarded, Ready, Grabbed, Calls, Present, HeapRun, PmmOk;
    var u := HeapRun(v, n - 1, true);
    HeapRoom(v, n);
    HeapUnfold(v, n);
    GuardedAlloc(u);
    LoadFlags();
    GrabbedEntry(u, (HEAP + n - 1) / WORDS, true);
    assert CanHold(u, (HEAP + n - 1) / WORDS);
    GuardedNext(Grabbed(u, true), HEAP + n - 1, Entry(NextFrame(u), 0), WRT);
    HoldsHeapKept(u, HEAP + n - 1, Entry(NextFrame(u), 0), true);
  }

  lemma GuardedNext(v: Vm, page: nat, phys: Entry, flags: nat)
    requires PagingOk(v) && Guarded(v) && page < PAGES && CanHold(v, page / WORDS) && Plain(flags)
    requires Present(DirEntry(v, page / WORDS)) || !Exhausted(v.pmm)
    ensures Ready(v, page) && Guarded(MapPage(v, page, phys, flags, true))
  {
    hide MapPage, NextFrame, Exhausted, PagingOk, Guarded, Fresh;
    GuardedReady(v, page);
    GuardedMap(v, page, phys, flags);
  }

  /** As designed, if there are frames for the pages and their tables, every
      step finds a frame for its page and a fresh one for its table, and the
      allocator will never touch the tables. */
  lemma {:induction false} KeptHeap(v: Vm, n: nat)
    requires VmOk(v) && PagingOk(v) && Guarded(v) && HoldsHeap(v) && n <= HEAP_PAGES
      && Calls(v, n, true) <= |Free(v.pmm)|
    ensures HeapReady(v, n, true) && PagingOk(HeapRun(v, n, true))
    ensures Guarded(HeapRun(v, n, true)) && HoldsHeap(HeapRun(v, n, true))
    ensures forall i | 0 <= i < n :: !Exhausted(HeapRun(v, i, true).pmm)
    decreases n
  {
    hide PagingOk, Guarded, HoldsHeap, Exhausted, Ready, MapPage, Grabbed, Free, NextFrame, Present;
    if n > 0 {
      CallsGrow(v, n - 1, n, true);
      KeptHeap(v, n - 1);
      HeapNext(v, n);
      assert HeapReady(v, n, true);
      HeapMaps(v, n, true);
    }
  }

  /** The first n pages of the heap are mapped, no two to the same frame. */
  ghost predicate MappedApart(v: Vm, n: nat)
    requires VmOk(v) && n <= HEAP_PAGES
  {
    && (forall p: nat | HEAP <= p < HEAP + n :: Translate(v, p).Some?)
    && forall p: nat, q: nat | HEAP <= p < q < HEAP + n :: Translate(v, p) != Translate(v, q)
  }

  ghost predicate NoOldFrames(v: Vm, n: nat)
    requires VmOk(v) && n <= HEAP_PAGES
  {
    forall p: nat | HEAP <= p < HEAP + n :: OldFrame(v, p) == 0
  }

  lemma HeapPage(v: Vm, n: nat, p: nat, keep: bool)
    requires VmOk(v) && PagingOk(v) && n <= HEAP_PAGES && HeapReady(v, n, keep) && HEAP <= p < HEAP + n
      && OldFrame(v, p) == 0
    ensures Translate(HeapRun(v, n, keep), p) == Some(HeapFrame(v, p - HEAP, keep))
  {
    hide Translate, OldFrame, HeapRun, HeapFrame, PagingOk, Or, HeapReady;
    HeapMaps(v, n, keep);
    assert p == HEAP + (p - HEAP);
    OrZero(HeapFrame(v, p - HEAP, keep));
  }

  /** As designed, all pages of a heap that was not mapped before are mapped,
      each to the frame it was given, and no two to the same frame. */
  lemma KeptHeapMapped(v: Vm, n: nat)
    requires VmOk(v) && PagingOk(v) && Guarded(v) && HoldsHeap(v) && n <= HEAP_PAGES
      && Calls(v, n, true) <= |Free(v.pmm)|
    requires NoOldFrames(v, n)
    ensures MappedApart(HeapRun(v, n, true), n)
    ensures forall p: nat | HEAP <= p < HEAP + n ::
      Translate(HeapRun(v, n, true), p) == Some(HeapFrame(v, p - HEAP, true))
  {
    hide Translate, OldFrame, HeapRun, HeapFrame, PagingOk, Exhausted, HeapReady, Guarded, HoldsHeap, Calls, Free;
    KeptHeap(v, n);
    KeptHeapApart(v, n);
    forall p: nat | HEAP <= p < HEAP + n
      ensures Translate(HeapRun(v, n, true), p) == Some(HeapFrame(v, p - HEAP, true))
    {
      HeapPage(v, n, p, true);
    }
  }

  /** No part of the heap has a table yet. */
  ghost predicate NoHeap(v: Vm)
    requires VmOk(v)
  {
    forall d | HEAP / WORDS <= d < RECURSIVE :: EmptyAt(v, d)
  }

  lemma NoHeapHolds(v: Vm)
    requires VmOk(v) && NoHeap(v)
    ensures HoldsHeap(v)
  {
    forall d | HEAP / WORDS <= d < RECURSIVE
      ensures CanHold(v, d)
    {
      assert EmptyAt(v, d);
    }
  }

  /** The heap has a table for every four megabytes begun. */
  lemma {:induction false} HeapTables(v: Vm, n: nat)
    requires VmOk(v) && PagingOk(v) && NoHeap(v) && n <= HEAP_PAGES && HeapReady(v, n, true)
    ensures forall d | HEAP / WORDS <= d < RECURSIVE ::
      Present(DirEntry(HeapRun(v, n, true), d)) <==> d * WORDS < HEAP + n
  {
    hide MapPage, NextFrame, Grabbed, PagingOk, Bit, Present, Fresh;
    if n == 0 {
      forall d | HEAP / WORDS <= d < RECURSIVE
        ensures !Present(DirEntry(v, d)) && d * WORDS >= HEAP
      {
        assert EmptyAt(v, d);
      }
    } else {
      assert HeapReady(v, n - 1, true);
      HeapTables(v, n - 1);
      HeapMaps(v, n - 1, true);
      HeapUnfold(v, n);
      LoadFlags();
      var u := HeapRun(v, n - 1, true);
      GrabbedSame(u, true);
      MapPageTable(Grabbed(u, true), HEAP + n - 1, Entry(NextFrame(u), 0), WRT, true);
      hide HeapRun;
      forall d | HEAP / WORDS <= d < RECURSIVE
        ensures Present(DirEntry(HeapRun(v, n, true), d)) <==> d * WORDS < HEAP + n
      {
        GrabbedEntry(u, d, true);
      }
    }
  }

  /** A new heap of n pages takes a frame for every page and for every table. */
  lemma {:induction false} HeapCalls(v: Vm, n: nat)
    requires VmOk(v) && PagingOk(v) && Guarded(v) && NoHeap(v) && n <= HEAP_PAGES
    requires n + (n + WORDS - 1) / WORDS <= |Free(v.pmm)|
    ensures HoldsHeap(v) && Calls(v, n, true) == n + (n + WORDS - 1) / WORDS
  {
    hide HeapRun, PagingOk, Guarded, Free, Present, HeapReady, Exhausted, HoldsHeap;
    NoHeapHolds(v);
    if n > 0 {
      HeapCalls(v, n - 1);
      KeptHeap(v, n - 1);
      HeapTables(v, n - 1);
      LastTable(n);
    }
  }

  /** The table of the last page was there if the page does not begin a table. */
  lemma LastTable(n: nat)
    requires 0 < n <= HEAP_PAGES
    ensures var d := (HEAP + n - 1) / WORDS;
      && HEAP / WORDS <= d < RECURSIVE
      && (n + WORDS - 1) / WORDS == (n - 1 + WORDS - 1) / WORDS + if d * WORDS < HEAP + (n - 1) then 0 else 1
  {
    assert HEAP == 832 * WORDS;
  }

  // ---- the program of exec.c

  /** The page of LOAD_ADDRESS. */
  const LOAD: nat := 0x300
  const LOAD_PAGES: nat := 0xFF900

  /** The state after the first n pages of the program were mapped. */
  function ExecRun(v: Vm, n: nat, keep: bool): (u: Vm)
    requires VmOk(v) && n <= LOAD_PAGES
    ensures VmOk(u) && u.dir == v.dir
  {
    if n == 0 then v
    else MapPage(ExecRun(v, n - 1, keep), LOAD + n - 1, Entry(LOAD + n - 1, 0), Or(PRES, WRT), keep)
  }

  ghost predicate ExecReady(v: Vm, n: nat, keep: bool)
    requires VmOk(v) && n <= LOAD_PAGES
  {
    forall i | 0 <= i < n :: Ready(ExecRun(v, i, keep), LOAD + i)
  }

  lemma {:induction false} ExecMaps(v: Vm, n: nat, keep: bool)
    requires VmOk(v) && PagingOk(v) && n <= LOAD_PAGES && ExecReady(v, n, keep)
    ensures var u := ExecRun(v, n, keep);
      && PagingOk(u) && Remapped(v, u, LOAD, n)
      && forall q: nat | LOAD <= q < LOAD + n :: Translate(u, q) == Some(OrFrame(q, OldFrame(v, q)))
  {
    hide Translate, OldFrame, MapPage, Ready, OrFrame, PagingOk, Or;
    if n > 0 {
      assert ExecReady(v, n - 1, keep);
      ExecMaps(v, n - 1, keep);
      LoadFlags();
      MapPageRefines(ExecRun(v, n - 1, keep), LOAD + n - 1, Entry(LOAD + n - 1, 0), Or(PRES, WRT), keep);
    }
  }

  /** Every page of the program translates to itself, also across table
      boundaries, exactly if no page had a foreign bit stored before. */
  lemma ExecIdentity(v: Vm, n: nat, keep: bool)
    requires VmOk(v) && PagingOk(v) && n <= LOAD_PAGES && ExecReady(v, n, keep)
    ensures (forall q: nat | LOAD <= q < LOAD + n :: Translate(ExecRun(v, n, keep), q) == Some(q)) <==>
      forall q: nat | LOAD <= q < LOAD + n :: Covers(q, OldFrame(v, q))
  {
    hide Translate, OldFrame, ExecRun, ExecReady, PagingOk, Or, Covers;
    ExecMaps(v, n, keep);
    forall q: nat | LOAD <= q < LOAD + n
      ensures Translate(ExecRun(v, n, keep), q) == Some(q) <==> Covers(q, OldFrame(v, q))
    {
      OrCovers(q, OldFrame(v, q));
    }
  }

  /** How many tables the first n pages of the program need that are not there. */
  function NewTables(v: Vm, n: nat): nat
    requires v.dir in v.mem && n <= LOAD_PAGES
  {
    if n == 0 then 0
    else NewTables(v, n - 1) + if BeginsTable(n) && !Present(DirEntry(v, (LOAD + n - 1) / WORDS)) then 1 else 0
  }

  /** The last of n pages of the program is the first one under its table. */
  predicate BeginsTable(n: nat) { n == 1 || (n > 1 && (LOAD + n - 1) % WORDS == 0) }

  /** Directory slot d is for one of the first n pages of the program. */
  predicate UnderProgram(d: nat, n: nat) { n > 0 && LOAD / WORDS <= d && d * WORDS < LOAD + n }

  /** No four-megabyte page lies where the program goes. */
  ghost predicate HoldsProgram(v: Vm, n: nat)
    requires VmOk(v)
  {
    forall d: nat | UnderProgram(d, n) :: CanHold(v, d)
  }

  /** Exactly the slots of the program have got a table. */
  ghost predicate ProgramTables(v: Vm, e: Vm, n: nat)
    requires VmOk(v) && VmOk(e)
  {
    forall d: nat | d < WORDS :: if UnderProgram(d, n) then IsTable(e, d) else DirEntry(e, d) == DirEntry(v, d)
  }

  lemma LastUnder(n: nat, d: nat)
    requires 0 < n <= LOAD_PAGES
    ensures var last := (LOAD + n - 1) / WORDS;
      && last < RECURSIVE && UnderProgram(last, n) && (UnderProgram(last, n - 1) <==> !BeginsTable(n))
      && (UnderProgram(d, n) <==> UnderProgram(d, n - 1) || d == last)
  {
    var page := LOAD + n - 1;
    var last := page / WORDS;
    assert last * WORDS <= page < last * WORDS + WORDS && page % WORDS == page - last * WORDS;
    assert d < last ==> d * WORDS + WORDS <= last * WORDS;
    assert d > last ==> d * WORDS >= last * WORDS + WORDS;
  }

  /** As designed, if there are frames for the tables, every step of a program of
      any size finds a fresh one, and the allocator will never touch the tables. */
  lemma {:induction false} KeptExec(v: Vm, n: nat)
    requires VmOk(v) && PagingOk(v) && Guarded(v) && n <= LOAD_PAGES && HoldsProgram(v, n)
    requires NewTables(v, n) <= |Free(v.pmm)|
    ensures ExecReady(v, n, true)
    ensures var e := ExecRun(v, n, true);
      PagingOk(e) && Guarded(e) && ProgramTables(v, e, n) && e.pmm == Frames.After(v.pmm, NewTables(v, n), true)
    decreases n
  {
    hide PagingOk, Guarded, Present, MapPage, Free, Exhausted, Fresh, Large;
    if n > 0 {
      ExecFewer(v, n);
      KeptExec(v, n - 1);
      KeptExecStep(v, n);
    }
  }

  lemma ExecFewer(v: Vm, n: nat)
    requires VmOk(v) && 0 < n <= LOAD_PAGES && HoldsProgram(v, n)
    ensures HoldsProgram(v, n - 1) && NewTables(v, n - 1) <= NewTables(v, n)
    ensures CanHold(v, (LOAD + n - 1) / WORDS)
  {
    hide CanHold;
    LastUnder(n, 0);
  }

  lemma KeptExecStep(v: Vm, n: nat)
    requires VmOk(v) && 0 < n <= LOAD_PAGES && HoldsProgram(v, n) && NewTables(v, n) <= |Free(v.pmm)|
    requires ExecReady(v, n - 1, true)
    requires var u := ExecRun(v, n - 1, true);
      PagingOk(u) && Guarded(u) && ProgramTables(v, u, n - 1) && u.pmm == Frames.After(v.pmm, NewTables(v, n - 1), true)
    ensures ExecReady(v, n, true)
    ensures var e := ExecRun(v, n, true);
      PagingOk(e) && Guarded(e) && ProgramTables(v, e, n) && e.pmm == Frames.After(v.pmm, NewTables(v, n), true)
  {
    hide PagingOk, Guarded, Bit, Large, MapPage, Free, Exhausted, Fresh, ExecRun, Alloc, NewTables, UnderProgram,
      BeginsTable, Or;
    var u, page := ExecRun(v, n - 1, true), LOAD + n - 1;
    var d := page / WORDS;
    ExecFewer(v, n);
    LastUnder(n, 0);
    ExecNext(v, n, true);
    NewTablesNext(v, n);
    assert CanHold(u, d) && (Present(DirEntry(u, d)) <==> Present(DirEntry(v, d)) || !BeginsTable(n));
    KeptExhausted(v.pmm, NewTables(v, n - 1));
    LoadFlags();
    GuardedNext(u, page, Entry(page, 0), Or(PRES, WRT));
    KeptExecMapped(v, u, n);
  }

  lemma NewTablesNext(v: Vm, n: nat)
    requires v.dir in v.mem && 0 < n <= LOAD_PAGES
    ensures NewTables(v, n) ==
      NewTables(v, n - 1) + if BeginsTable(n) && !Present(DirEntry(v, (LOAD + n - 1) / WORDS)) then 1 else 0
  {
  }

  lemma KeptExecMapped(v: Vm, u: Vm, n: nat)
    requires VmOk(v) && VmOk(u) && 0 < n <= LOAD_PAGES && PagingOk(u) && ProgramTables(v, u, n - 1)
    requires Ready(u, LOAD + n - 1)
    ensures var e := MapPage(u, LOAD + n - 1, Entry(LOAD + n - 1, 0), Or(PRES, WRT), true);
      && PagingOk(e) && ProgramTables(v, e, n)
      && e.pmm == if Present(DirEntry(u, (LOAD + n - 1) / WORDS)) then u.pmm else Alloc(u.pmm, true)
  {
    hide PagingOk, Bit, Large, Present, MapPage, Fresh, Alloc, UnderProgram, Or, Ready;
    var page := LOAD + n - 1;
    LoadFlags();
    MapPageRefines(u, page, Entry(page, 0), Or(PRES, WRT), true);
    MapPageTable(u, page, Entry(page, 0), Or(PRES, WRT), true);
    MapPagePmm(u, page, Entry(page, 0), Or(PRES, WRT), true);
    forall d: nat | d < WORDS
      ensures UnderProgram(d, n) <==> UnderProgram(d, n - 1) || d == page / WORDS
    {
      LastUnder(n, d);
    }
  }

  /** As designed, with frames for the tables, a program of any size, across any
      number of tables, is mapped to itself exactly if no foreign bit was stored
      for a page of it. */
  lemma KeptExecIdentity(v: Vm, n: nat)
    requires VmOk(v) && PagingOk(v) && Guarded(v) && n <= LOAD_PAGES && HoldsProgram(v, n)
    requires NewTables(v, n) <= |Free(v.pmm)|
    ensures (forall q: nat | LOAD <= q < LOAD + n :: Translate(ExecRun(v, n, true), q) == Some(q)) <==>
      forall q: nat | LOAD <= q < LOAD + n :: Covers(q, OldFrame(v, q))
  {
    hide PagingOk, Guarded, HoldsProgram, ExecRun, Translate, OldFrame, Covers, Free, ExecReady;
    KeptExec(v, n);
    ExecIdentity(v, n, true);
  }

  /** The largest program has 16 pages; up to 256 lie under one table, and then
      the state before the call decides. */
  lemma {:induction false} ExecOneTable(v: Vm, n: nat, keep: bool)
    requires VmOk(v) && PagingOk(v) && n <= 256 && (n > 0 ==> Ready(v, LOAD))
    ensures ExecReady(v, n, keep) && (n > 0 ==> IsTable(ExecRun(v, n, keep), 0))
  {
    hide Or, OrFrame, NextFrame, PagingOk, Fresh, ExecRun, MapPage, Bit, Plain;
    LoadFlags();
    ExecNone(v, keep);
    if n > 0 {
      ExecOneTable(v, n - 1, keep);
      var u := ExecRun(v, n - 1, keep);
      ExecMaps(v, n - 1, keep);
      assert Ready(u, LOAD + n - 1);
      MapPageTable(u, LOAD + n - 1, Entry(LOAD + n - 1, 0), Or(PRES, WRT), keep);
      ExecNext(v, n, keep);
    }
  }

  lemma ExecNone(v: Vm, keep: bool)
    requires VmOk(v)
    ensures ExecRun(v, 0, keep) == v
  {
  }

  lemma ExecNext(v: Vm, n: nat, keep: bool)
    requires VmOk(v) && 0 < n <= LOAD_PAGES
    ensures ExecRun(v, n, keep) == MapPage(ExecRun(v, n - 1, keep), LOAD + n - 1, Entry(LOAD + n - 1, 0), Or(PRES, WRT),
      keep)
  {
  }

  lemma MapPageTable(v: Vm, page: nat, phys: Entry, flags: nat, keep: bool)
    requires PagingOk(v) && page < PAGES && Ready(v, page) && Plain(flags)
    ensures var u := MapPage(v, page, phys, flags, keep);
      && IsTable(u, page / WORDS)
      && DirEntry(u, page / WORDS).frame ==
        (if IsTable(v, page / WORDS) then DirEntry(v, page / WORDS).frame else NextFrame(v))
      && forall d | 0 <= d < WORDS && d != page / WORDS :: DirEntry(u, d) == DirEntry(v, d)
  {
    TableMade(v, page / WORDS, flags, keep);
    hide Or, OrFrame, NextFrame, WithTable;
  }

  predicate EmptyAt(v: Vm, d: nat)
    requires v.dir in v.mem
  {
    d < RECURSIVE && !Present(DirEntry(v, d))
  }

  lemma CodeTableFresh(v: Vm, page: nat)
    requires PagingOk(v) && Guarded(v) && Clear(v.pmm) && StartByte(v.pmm) < EndByte(v.pmm)
    requires CanHold(v, page / WORDS)
    ensures Fresh(v, 8 * StartByte(v.pmm)) && Fresh(v, 8 * StartByte(v.pmm) + 1)
    ensures Ready(Grabbed(v, false), page)
    ensures NextFrame(v) == 8 * StartByte(v.pmm) && NextFrame(Grabbed(v, false)) == 8 * StartByte(v.pmm) + 1
  {
    var p, w := v.pmm, Grabbed(v, false);
    var f := 8 * StartByte(p);
    CodeRun(p, 0);
    CodeRun(p, 1);
    assert Frames.After(p, 1, false) == w.pmm by {
      assert Frames.After(p, 0, false) == p;
    }
    ZeroBit(f % 8);
    ZeroBit((f + 1) % 8);
    hide Alloc, Frame;
    assert forall d | 0 <= d < WORDS :: DirEntry(w, d) == DirEntry(v, d);
  }

  // ---- what the start of the kernel does, as coded

  /** The page of the console at 0xB8000, under the same table as programs. */
  const CONSOLE: nat := 0xB8

  /** The call of memMapPage in kmain. */
  function ConsoleMapped(v: Vm, keep: bool): (u: Vm)
    requires VmOk(v)
    ensures VmOk(u) && u.dir == v.dir
  {
    MapPage(v, CONSOLE, Entry(CONSOLE, 0), Or(PRES, WRT), keep)
  }

  /** The table for pages below four megabytes is in frame f, to which the heap
      page is mapped at the same time. */
  ghost predicate TableInHeap(v: Vm, f: FrameNo)
    requires VmOk(v)
  {
    Translate(v, HEAP) == Some(f) && IsTable(v, 0) && DirEntry(v, 0).frame == f
  }

  /** After kmallocInit for one page, mapping the console takes the frame of the
      heap page for its table, and that table stays there in every program that
      is run. No program takes a frame; console and program are mapped to
      themselves. */
  lemma ProgramTableInHeap(v: Vm, n: nat)
    requires PagingOk(v) && Guarded(v) && Clear(v.pmm) && StartByte(v.pmm) < EndByte(v.pmm)
    requires EmptyAt(v, HEAP / WORDS) && EmptyAt(v, LOAD / WORDS) && n <= 256
    ensures var f := 8 * StartByte(v.pmm);
      var s := ConsoleMapped(HeapRun(v, 1, false), false); var e := ExecRun(s, n, false);
      && TableInHeap(s, f) && TableInHeap(e, f) && e.pmm == s.pmm
      && Translate(e, CONSOLE) == Some(CONSOLE)
      && forall q: nat | LOAD <= q < LOAD + n :: Translate(e, q) == Some(q)
  {
    CodeHeapPage(v);
    CodeHeapTables(v);
    hide Alloc, MapPage, NextFrame, Or, OrFrame, ExecRun, Translate, OldFrame, Guarded, PagingOk, HeapRun, Fresh,
      IsTable, EmptyAt;
    var h := HeapRun(v, 1, false);
    ConsoleTable(h, 8 * StartByte(v.pmm));
    ExecUnderTable(h, n, 8 * StartByte(v.pmm));
  }

  lemma ConsoleTable(h: Vm, f: FrameNo)
    requires PagingOk(h) && EmptyAt(h, 0) && NextFrame(h) == f && Fresh(h, f) && Translate(h, HEAP) == Some(f)
    ensures Ready(h, CONSOLE)
    ensures var s := ConsoleMapped(h, false);
      && PagingOk(s) && TableInHeap(s, f) && Translate(s, CONSOLE) == Some(CONSOLE)
      && (forall q: nat | LOAD <= q < LOAD + 256 :: OldFrame(s, q) == 0)
      && s.pmm == Alloc(h.pmm, false)
      && forall d | 0 < d < WORDS :: DirEntry(s, d) == DirEntry(h, d)
  {
    LoadFlags();
    MapPagePmm(h, CONSOLE, Entry(CONSOLE, 0), Or(PRES, WRT), false);
    OrZero(CONSOLE);
    AbsentOld(h, CONSOLE);
    assert Ready(h, CONSOLE);
    hide Or, NextFrame, Fresh, MapPage, Translate, OldFrame, PagingOk, Bit, Plain, Ready;
    MapPageRefines(h, CONSOLE, Entry(CONSOLE, 0), Or(PRES, WRT), false);
    MapPageTable(h, CONSOLE, Entry(CONSOLE, 0), Or(PRES, WRT), false);
    forall q: nat | LOAD <= q < LOAD + 256
      ensures OldFrame(h, q) == 0
    {
      AbsentOld(h, q);
    }
  }

  lemma ExecUnderTable(h: Vm, n: nat, f: FrameNo)
    requires PagingOk(h) && EmptyAt(h, 0) && NextFrame(h) == f && Fresh(h, f) && Translate(h, HEAP) == Some(f)
      && n <= 256
    ensures var s := ConsoleMapped(h, false); var e := ExecRun(s, n, false);
      && TableInHeap(e, f) && e.pmm == s.pmm && Translate(e, CONSOLE) == Some(CONSOLE)
      && forall q: nat | LOAD <= q < LOAD + n :: Translate(e, q) == Some(q)
  {
    ConsoleTable(h, f);
    var s := ConsoleMapped(h, false);
    hide Or, NextFrame, Fresh, MapPage, Translate, OldFrame, PagingOk, Bit, Plain, ConsoleMapped, ExecRun, EmptyAt;
    ExecTable(s, n);
    ExecMaps(s, n, false);
    forall q: nat | LOAD <= q < LOAD + n
      ensures OrFrame(q, OldFrame(s, q)) == q
    {
      OrZero(q);
    }
  }

  /** Where there is a table, a program changes neither it nor the allocator. */
  lemma {:induction false} ExecTable(s: Vm, n: nat)
    requires VmOk(s) && PagingOk(s) && IsTable(s, 0) && n <= 256
    ensures ExecReady(s, n, false)
    ensures var e := ExecRun(s, n, false);
      && PagingOk(e) && e.pmm == s.pmm && IsTable(e, 0) && DirEntry(e, 0).frame == DirEntry(s, 0).frame
      && forall d | 0 < d < WORDS :: DirEntry(e, d) == DirEntry(s, d)
  {
    hide Or, OrFrame, NextFrame, Fresh, MapPage, ExecRun, Translate, OldFrame, PagingOk, Bit, Plain;
    LoadFlags();
    ExecNone(s, false);
    ExecOneTable(s, n, false);
    ExecMaps(s, n, false);
    if n > 0 {
      ExecTable(s, n - 1);
      ExecNext(s, n, false);
      var u := ExecRun(s, n - 1, false);
      MapPageTable(u, LOAD + n - 1, Entry(LOAD + n - 1, 0), Or(PRES, WRT), false);
      MapPagePmm(u, LOAD + n - 1, Entry(LOAD + n - 1, 0), Or(PRES, WRT), false);
    }
  }

  /** The state after the start of the kernel, as coded. */
  ghost predicate CodeStarted(v: Vm, s: Vm) {
    && VmOk(v) && PagingOk(v) && Guarded(v) && Clear(v.pmm) && StartByte(v.pmm) < EndByte(v.pmm)
    && EmptyAt(v, HEAP / WORDS) && EmptyAt(v, 0) && EmptyAt(v, 1)
    && s == ConsoleMapped(HeapRun(v, 1, false), false)
  }

  lemma CodeStartedFacts(v: Vm, s: Vm)
    requires CodeStarted(v, s)
    ensures VmOk(s) && PagingOk(s) && IsTable(s, 0) && EmptyAt(s, 1)
    ensures HeapReady(v, 1, false) && Ready(HeapRun(v, 1, false), CONSOLE)
    ensures IsTable(s, HEAP / WORDS) && DirEntry(s, HEAP / WORDS).frame == NextFrame(s)
  {
    CodeHeapPage(v);
    CodeHeapTables(v);
    hide Alloc, MapPage, NextFrame, Or, OrFrame, Translate, OldFrame, Guarded, PagingOk, HeapRun, Fresh, Bit, Clear;
    var h, f := HeapRun(v, 1, false), 8 * StartByte(v.pmm);
    ConsoleTable(h, f);
    ThirdCall(v.pmm, s.pmm);
    NextFrameIs(s);
  }

  lemma NextFrameIs(v: Vm)
    requires VmOk(v)
    ensures NextFrame(v) == Frame(v.pmm)
  {
  }

  lemma ThirdCall(p: Pmm, q: Pmm)
    requires PmmOk(p) && Clear(p) && StartByte(p) < EndByte(p) && q == Alloc(Frames.After(p, 2, false), false)
    ensures Frame(q) == 8 * StartByte(p) + 1
  {
    CodeRun(p, 3);
    assert q == Frames.After(p, 3, false);
    hide Alloc, Frame;
  }

  /** As coded, after the start of the kernel every step of a program finds a
      fresh frame for its table exactly if the program has at most 256 pages. */
  lemma CodeExecReady(v: Vm, s: Vm, n: nat)
    requires CodeStarted(v, s) && n <= LOAD_PAGES
    ensures ExecReady(s, n, false) <==> n <= 256
  {
    hide Alloc, MapPage, NextFrame, Or, OrFrame, Translate, OldFrame, Guarded, PagingOk, HeapRun, ExecRun, CodeStarted,
      Bit, Large;
    CodeStartedFacts(v, s);
    if n <= 256 {
      ExecTable(s, n);
    } else {
      ExecTable(s, 256);
      var e := ExecRun(s, 256, false);
      NextFrameSame(s, e);
      assert LOAD + 256 == WORDS;
      assert IsTable(e, HEAP / WORDS) && !Fresh(e, NextFrame(e));
      assert !Ready(e, LOAD + 256);
    }
  }

  lemma NextFrameSame(v: Vm, u: Vm)
    requires VmOk(v) && VmOk(u) && v.pmm == u.pmm
    ensures NextFrame(v) == NextFrame(u)
  {
  }

  /** One page more, and the table of the heap is overwritten: the heap page is
      mapped to the program's last page. */
  lemma CodeExecOverHeap(v: Vm, s: Vm)
    requires CodeStarted(v, s)
    ensures Translate(ExecRun(s, 257, false), HEAP) == Some(LOAD + 256)
  {
    hide Alloc, MapPage, NextFrame, Or, OrFrame, Translate, OldFrame, Guarded, PagingOk, HeapRun, ExecRun, CodeStarted,
      Bit, Large, Plain;
    CodeStartedFacts(v, s);
    ExecTable(s, 256);
    var e := ExecRun(s, 256, false);
    NextFrameSame(s, e);
    LoadFlags();
    ExecNext(s, 257, false);
    assert LOAD + 256 == WORDS && HEAP % WORDS == 0;
    SharedTable(e, LOAD + 256, Entry(LOAD + 256, 0), Or(PRES, WRT), false, HEAP / WORDS, HEAP);
  }

  /** The heap of one page after initMemory. */
  lemma CodeHeapPage(v: Vm)
    requires PagingOk(v) && Guarded(v) && Clear(v.pmm) && StartByte(v.pmm) < EndByte(v.pmm)
    requires EmptyAt(v, HEAP / WORDS)
    ensures HeapReady(v, 1, false)
    ensures var h := HeapRun(v, 1, false); PagingOk(h) && Translate(h, HEAP) == Some(8 * StartByte(v.pmm))
  {
    CodeTableFresh(v, HEAP);
    HeapFirst(v, false);
    AbsentOld(v, HEAP);
    hide Alloc, MapPage, NextFrame, Or, OrFrame, Translate, OldFrame, Guarded, PagingOk, HeapRun, Ready;
    assert HeapReady(v, 1, false);
    HeapMaps(v, 1, false);
    OrZero(8 * StartByte(v.pmm));
    assert Translate(HeapRun(v, 1, false), HEAP + 0) == Some(OrFrame(HeapFrame(v, 0, false), OldFrame(v, HEAP + 0)));
  }

  lemma CodeHeapTables(v: Vm)
    requires PagingOk(v) && Guarded(v) && Clear(v.pmm) && StartByte(v.pmm) < EndByte(v.pmm)
    requires EmptyAt(v, HEAP / WORDS) && EmptyAt(v, LOAD / WORDS)
    ensures var h := HeapRun(v, 1, false); var f := 8 * StartByte(v.pmm);
      && NextFrame(h) == f && Fresh(h, f) && h.pmm == Frames.After(v.pmm, 2, false)
      && IsTable(h, HEAP / WORDS) && DirEntry(h, HEAP / WORDS).frame == f + 1
      && forall d | 0 <= d < WORDS && d != HEAP / WORDS :: DirEntry(h, d) == DirEntry(v, d)
  {
    var w := Grabbed(v, false);
    CodeTableFresh(v, HEAP);
    HeapFirst(v, false);
    GrabbedSame(v, false);
    GrabbedEntry(v, LOAD / WORDS, false);
    GrabbedEntry(v, HEAP / WORDS, false);
    LoadFlags();
    hide Bit, Plain, Alloc, MapPage, Or, OrFrame, Translate, OldFrame, Guarded, PagingOk, HeapRun, Frame, Exhausted,
      Grabbed;
    HeapPmm(v, 1, false);
    CodeRun(v.pmm, 2);
    MapPageTable(w, HEAP, Entry(NextFrame(v), 0), WRT, false);
    forall d | 0 <= d < WORDS
      ensures DirEntry(w, d) == DirEntry(v, d)
    {
      GrabbedEntry(v, d, false);
    }
  }

  lemma AbsentOld(v: Vm, page: nat)
    requires VmOk(v) && page < PAGES && page / WORDS < RECURSIVE && EmptyAt(v, page / WORDS)
    ensures OldFrame(v, page) == 0
  {
  }

  lemma HeapFirst(v: Vm, keep: bool)
    requires VmOk(v)
    ensures HeapRun(v, 0, keep) == v && HeapFrame(v, 0, keep) == NextFrame(v)
    ensures HeapRun(v, 1, keep) == MapPage(Grabbed(v, keep), HEAP, Entry(NextFrame(v), 0), WRT, keep)
    ensures Calls(v, 1, keep) == if Present(DirEntry(v, HEAP / WORDS)) then 1 else 2
  {
    assert HeapRun(v, 0, keep) == v;
    hide MapPage, NextFrame;
  }

  // ---- the start of the kernel

  /** What initMemory does to the boot directory. */
  function InitVm(v: Vm, memHigh: nat, physicalAllocStart: nat): Vm
    requires v.dir in v.mem
  {
    var w := v.mem[v.dir][0 := Entry(0, 0)][RECURSIVE := Entry(v.dir, Or(PRES, WRT))];
    v.(mem := v.mem[v.dir := w], pmm := Init(physicalAllocStart, memHigh), pages := 0)
  }

  /** The directory of boot.s: four-megabyte pages at 0 and from KERNEL_START on. */
  predicate BootDirectory(w: Words) {
    forall d | 0 <= d < RECURSIVE :: if d == 0 || 768 <= d < 772 then w[d].flags == 0x83 else w[d] == Entry(0, 0)
  }

  /** There is nothing but the four-megabyte pages of the kernel. */
  ghost predicate NoTables(v: Vm)
    requires VmOk(v)
  {
    forall d: nat | d < 768 || 772 <= d < RECURSIVE :: EmptyAt(v, d)
  }

  lemma BootFlags()
    ensures Bit(0x83, 7) == 1 && Bit(0, 0) == 0 && Bit(Or(PRES, WRT), 0) == 1
  {
    assert ShiftRight(0x83, 7) == ShiftRight(0x41, 6) == ShiftRight(0x20, 5) == ShiftRight(0x10, 4);
    assert ShiftRight(0x10, 4) == ShiftRight(8, 3) == ShiftRight(4, 2) == ShiftRight(2, 1) == ShiftRight(1, 0);
    OrBit(PRES, WRT, 0);
    FlagBits();
  }

  /** After initMemory with a directory below the allocated range, everything
      that the results about the heap and the program ask for holds. */
  lemma KernelStart(v: Vm, memHigh: nat, physicalAllocStart: nat)
    requires VmOk(v) && BootDirectory(v.mem[v.dir]) && PmmOk(Init(physicalAllocStart, memHigh))
    requires v.dir < 8 * StartByte(Init(physicalAllocStart, memHigh))
    ensures var u := InitVm(v, memHigh, physicalAllocStart);
      && VmOk(u) && PagingOk(u) && Guarded(u) && HoldsHeap(u) && NoHeap(u) && Clear(u.pmm) && NoTables(u)
      && forall d | 0 <= d < WORDS :: !IsTable(u, d)
  {
    var u := InitVm(v, memHigh, physicalAllocStart);
    BootFlags();
    hide Bit, Or, FrameBit;
    forall d | 0 <= d < RECURSIVE
      ensures !IsTable(u, d) && (d < 768 || d >= 772 ==> EmptyAt(u, d))
    {
      assert DirEntry(u, d) == if d == 0 then Entry(0, 0) else v.mem[v.dir][d];
    }
  }

  /** As designed, kmallocInit for n pages after initMemory maps them all, to
      different frames, if there are frames for them and their tables. */
  lemma KernelHeap(v: Vm, memHigh: nat, physicalAllocStart: nat, n: nat)
    requires VmOk(v) && BootDirectory(v.mem[v.dir]) && PmmOk(Init(physicalAllocStart, memHigh))
    requires v.dir < 8 * StartByte(Init(physicalAllocStart, memHigh)) && n <= HEAP_PAGES
    requires n + (n + WORDS - 1) / WORDS <= |Free(Init(physicalAllocStart, memHigh))|
    ensures MappedApart(HeapRun(InitVm(v, memHigh, physicalAllocStart), n, true), n)
  {
    KernelStart(v, memHigh, physicalAllocStart);
    var w := InitVm(v, memHigh, physicalAllocStart);
    assert w.pmm == Init(physicalAllocStart, memHigh);
    hide InitVm, Init, PagingOk, Guarded, HoldsHeap, Clear, Calls, HeapRun, Translate, OldFrame, Free, HeapFrame;
    HeapCalls(w, n);
    forall p: nat | HEAP <= p < HEAP + n
      ensures OldFrame(w, p) == 0
    {
      assert EmptyAt(w, p / WORDS);
      AbsentOld(w, p);
    }
    KeptHeapMapped(w, n);
  }

  /** The heap of one page, as designed. */
  lemma KeptHeapPage(w: Vm)
    requires VmOk(w) && PagingOk(w) && Guarded(w) && NoTables(w) && 2 <= |Free(w.pmm)|
    ensures HeapReady(w, 1, true)
    ensures var h := HeapRun(w, 1, true);
      && PagingOk(h) && Guarded(h) && Translate(h, HEAP) == Some(NextFrame(w))
      && h.pmm == Frames.After(w.pmm, 2, true) && forall d: nat | d < 768 :: EmptyAt(h, d)
  {
    hide PagingOk, Guarded, MapPage, Free, NextFrame, Alloc, Translate, OldFrame, Fresh, Bit, Or, OrFrame;
    assert NoHeap(w) && EmptyAt(w, HEAP / WORDS);
    HeapFirst(w, true);
    HeapCalls(w, 1);
    KeptHeap(w, 1);
    HeapPmm(w, 1, true);
    AbsentOld(w, HEAP);
    HeapPage(w, 1, HEAP, true);
    GrabbedSame(w, true);
    LoadFlags();
    MapPageTable(Grabbed(w, true), HEAP, Entry(NextFrame(w), 0), WRT, true);
    forall d: nat | d < 768
      ensures EmptyAt(HeapRun(w, 1, true), d)
    {
      assert EmptyAt(w, d);
      GrabbedEntry(w, d, true);
    }
  }

  /** The heap page is mapped, and there is a frame for one more table. */
  ghost predicate KeptHeapDone(h: Vm, p: Pmm) {
    && VmOk(h) && PagingOk(h) && Guarded(h) && (forall d: nat | d < 768 :: EmptyAt(h, d))
    && PmmOk(p) && h.pmm == Frames.After(p, 2, true) && 3 <= |Free(p)|
  }

  lemma ConsoleReady(h: Vm, p: Pmm)
    requires KeptHeapDone(h, p)
    ensures VmOk(h) && Ready(h, CONSOLE) && Guarded(ConsoleMapped(h, true))
  {
    hide PagingOk, Guarded, MapPage, Free, Exhausted, Alloc, Large, Or, Ready, Plain, Frames.After, NextFrame, PmmOk;
    assert EmptyAt(h, 0);
    KeptExhausted(p, 2);
    LoadFlags();
    GuardedNext(h, CONSOLE, Entry(CONSOLE, 0), Or(PRES, WRT));
  }

  lemma ConsolePmm(h: Vm, p: Pmm)
    requires KeptHeapDone(h, p)
    ensures VmOk(h) && ConsoleMapped(h, true).pmm == Frames.After(p, 3, true)
  {
    hide PagingOk, Guarded, MapPage, Free, Alloc, Bit, Or, PmmOk;
    assert EmptyAt(h, 0);
    MapPagePmm(h, CONSOLE, Entry(CONSOLE, 0), Or(PRES, WRT), true);
  }

  lemma NoFrameBelow(h: Vm, q: nat)
    requires VmOk(h) && (forall d: nat | d < 768 :: EmptyAt(h, d)) && q < 768 * WORDS
    ensures OldFrame(h, q) == 0
  {
    assert EmptyAt(h, q / WORDS);
    AbsentOld(h, q);
  }

  /** Console and heap page as designed. */
  lemma KeptConsole(h: Vm, p: Pmm)
    requires KeptHeapDone(h, p)
    ensures VmOk(h)
    ensures var s := ConsoleMapped(h, true);
      && PagingOk(s) && Guarded(s) && Translate(s, CONSOLE) == Some(CONSOLE) && Translate(s, HEAP) == Translate(h, HEAP)
      && s.pmm == Frames.After(p, 3, true)
      && forall q: nat | LOAD <= q < 768 * WORDS :: OldFrame(s, q) == 0
  {
    hide PagingOk, Guarded, MapPage, Free, Frames.After, Translate, OldFrame, EmptyAt, Or, Ready, Plain, PmmOk, OrFrame;
    ConsoleReady(h, p);
    ConsolePmm(h, p);
    LoadFlags();
    NoFrameBelow(h, CONSOLE);
    OrZero(CONSOLE);
    MapPageRefines(h, CONSOLE, Entry(CONSOLE, 0), Or(PRES, WRT), true);
    forall q: nat | LOAD <= q < 768 * WORDS
      ensures OldFrame(h, q) == 0
    {
      NoFrameBelow(h, q);
    }
  }

  lemma KeptConsoleTables(h: Vm, p: Pmm)
    requires KeptHeapDone(h, p)
    ensures VmOk(h)
    ensures var s := ConsoleMapped(h, true); IsTable(s, 0) && forall d: nat | 0 < d < 768 :: EmptyAt(s, d)
  {
    hide PagingOk, Guarded, MapPage, Free, Frames.After, Present, Large, Or, Ready, Plain, PmmOk;
    ConsoleReady(h, p);
    LoadFlags();
    MapPageTable(h, CONSOLE, Entry(CONSOLE, 0), Or(PRES, WRT), true);
    forall d: nat | 0 < d < 768
      ensures EmptyAt(ConsoleMapped(h, true), d)
    {
      assert EmptyAt(h, d);
    }
  }

  /** With a table in slot 0 and none behind it, a program needs one for every
      further four megabytes begun. */
  lemma {:induction false} NewTablesIs(s: Vm, n: nat)
    requires VmOk(s) && n <= 768 * WORDS - LOAD && IsTable(s, 0) && forall d: nat | 0 < d < 768 :: EmptyAt(s, d)
    ensures NewTables(s, n) == if n == 0 then 0 else (LOAD + n - 1) / WORDS
    ensures HoldsProgram(s, n)
  {
    if n > 0 {
      NewTablesIs(s, n - 1);
      LastUnder(n, 0);
      hide Present;
      assert (LOAD + n - 1) / WORDS > 0 ==> EmptyAt(s, (LOAD + n - 1) / WORDS);
    }
  }

  /** As designed, after initMemory, kmallocInit for one page and the mapping of
      the console, a program of any size below the kernel is mapped to itself,
      if there are frames for the tables; console and heap stay where they were. */
  lemma KernelProgram(v: Vm, memHigh: nat, physicalAllocStart: nat, n: nat)
    requires VmOk(v) && BootDirectory(v.mem[v.dir]) && PmmOk(Init(physicalAllocStart, memHigh))
    requires v.dir < 8 * StartByte(Init(physicalAllocStart, memHigh)) && n <= 768 * WORDS - LOAD
    requires 3 + (LOAD + n) / WORDS <= |Free(Init(physicalAllocStart, memHigh))|
    ensures var w := InitVm(v, memHigh, physicalAllocStart);
      var s := ConsoleMapped(HeapRun(w, 1, true), true); var e := ExecRun(s, n, true);
      && ExecReady(s, n, true) && PagingOk(e) && Guarded(e)
      && Translate(e, HEAP) == Some(NextFrame(w)) && Translate(e, CONSOLE) == Some(CONSOLE)
      && forall q: nat | LOAD <= q < LOAD + n :: Translate(e, q) == Some(q)
  {
    hide InitVm, Init, PagingOk, Guarded, HoldsHeap, Clear, HeapRun, Translate, OldFrame, Free, NextFrame,
      ConsoleMapped, ExecRun, NewTables, HoldsProgram, NoTables, IsTable, EmptyAt, OrFrame, BootDirectory, Alloc;
    KernelStart(v, memHigh, physicalAllocStart);
    InitVmPmm(v, memHigh, physicalAllocStart);
    var w := InitVm(v, memHigh, physicalAllocStart);
    KeptHeapPage(w);
    var h := HeapRun(w, 1, true);
    KeptConsole(h, w.pmm);
    KeptConsoleTables(h, w.pmm);
    var s := ConsoleMapped(h, true);
    NewTablesIs(s, n);
    KeptExhausted(w.pmm, 3);
    KeptExec(s, n);
    ExecMaps(s, n, true);
    forall q: nat | LOAD <= q < LOAD + n
      ensures OrFrame(q, OldFrame(s, q)) == q
    {
      OrZero(q);
    }
  }

  lemma InitVmPmm(v: Vm, memHigh: nat, physicalAllocStart: nat)
    requires v.dir in v.mem
    ensures InitVm(v, memHigh, physicalAllocStart).pmm == Init(physicalAllocStart, memHigh)
  {
  }

  /** A page that is mapped to frame 1 and then to frame 2 ends in frame 3. */
  lemma MappedTwice(v: Vm, page: nat, keep: bool)
    requires PagingOk(v) && page < PAGES && Ready(v, page) && OldFrame(v, page) == 0
    ensures var u := MapPage(v, page, Entry(1, 0), WRT, keep);
      && PagingOk(u) && Ready(u, page) && !Covers(2, OldFrame(u, page))
      && Translate(MapPage(u, page, Entry(2, 0), WRT, keep), page) == Some(3)
  {
    var u := MapPage(v, page, Entry(1, 0), WRT, keep);
    LoadFlags();
    OrZero(1);
    MapPageRefines(v, page, Entry(1, 0), WRT, keep);
    MapPageTable(v, page, Entry(1, 0), WRT, keep);
    assert OldFrame(u, page) == 1;
    assert Or(2, 1) == 3 by {
      assert Or(1, 0) == 1 && Or(0, 0) == 0;
    }
    assert Bit(1, 0) == 1 && Bit(2, 0) == 0;
    hide MapPage, OldFrame, Covers;
    MapPageRefines(u, page, Entry(2, 0), WRT, keep);
    MapPageExact(u, page, Entry(2, 0), WRT, keep);
  }

  // ---- the code

  class Mmu {
    const allocator: FrameAllocator
    /** The frame of initial_page_dir. */
    const dir: FrameNo
    /** Physical memory; the tables are reached through the recursive slot. */
    var mem: map<FrameNo, Words>
    var memNumVpages: nat
    /** The static of kmalloc.c, which nothing ever sets to another value than 0. */
    var heapSize: nat

    constructor (a: FrameAllocator, boot: map<FrameNo, Words>, d: FrameNo)
      ensures allocator == a && mem == boot && dir == d && memNumVpages == 0 && heapSize == 0
    {
      allocator := a;
      mem := boot;
      dir := d;
      memNumVpages := 0;
      heapSize := 0;
    }

    function Abs(): Vm
      reads this, allocator, allocator.PMB
    {
      Vm(mem, dir, allocator.Abs(), memNumVpages)
    }

    /** The allocator never chooses the directory's own frame. */
    ghost predicate Safe()
      reads this, allocator, allocator.PMB
    {
      allocator.InBitmap() && VmOk(Abs()) && dir != 0 && !Scanned(Abs().pmm, dir)
    }

    method InitMemory(memHigh: nat, physicalAllocStart: nat)
      requires dir in mem && allocator.PMB.Length == BITMAP_BYTES
      modifies this`mem, this`memNumVpages, allocator, allocator.PMB
      ensures Abs() == InitVm(old(Abs()), memHigh, physicalAllocStart)
      ensures VmOk(Abs()) && 0 < dir < 8 * StartByte(Abs().pmm) < 8 * BITMAP_BYTES ==> Safe()
    {
      memNumVpages := 0;
      mem := mem[dir := mem[dir][0 := Entry(0, 0)]];
      mem := mem[dir := mem[dir][RECURSIVE := Entry(dir, Or(PRES, WRT))]];
      allocator.PmmInit(physicalAllocStart, memHigh);
    }

    /** The zeroing loop on a new table. */
    method ClearTable(f: FrameNo)
      requires f in mem
      modifies this`mem
      ensures mem == old(mem)[f := Blank()]
    {
      var i := 0;
      while i < WORDS
        invariant 0 <= i <= WORDS && f in mem && mem == old(mem)[f := mem[f]]
        invariant forall k | 0 <= k < i :: mem[f][k] == Entry(0, 0)
      {
        mem := mem[f := mem[f][i := Entry(0, 0)]];
        i := i + 1;
      }
      assert mem[f] == Blank();
    }

    lemma NotTheDirectory()
      requires Safe()
      ensures NextFrame(Abs()) != dir
    {
      FrameIsLowestFree(Abs().pmm);
      hide FrameBit, Exhausted, Choice;
    }

    /** memMapPage */
    method MemMapPage(virtualAddr: nat, physicalAddr: nat, flags: nat)
      requires Safe() && virtualAddr < 0x1_0000_0000 && physicalAddr < 0x1_0000_0000 && flags < PAGE_SIZE
      modifies this`mem, this`memNumVpages, allocator, allocator.PMB
      ensures Safe()
      ensures Abs() == MapPage(old(Abs()), virtualAddr / PAGE_SIZE,
        Entry(physicalAddr / PAGE_SIZE, physicalAddr % PAGE_SIZE), flags, false)
    {
      hide Or, OrFrame, Bit, Alloc, Frame, Exhausted;
      NotTheDirectory();
      ghost var v := Abs();
      var pdIndex := virtualAddr / 0x40_0000;
      var ptIndex := virtualAddr / PAGE_SIZE % WORDS;
      assert pdIndex == virtualAddr / PAGE_SIZE / WORDS;
      var e := mem[dir][pdIndex];
      if Bit(e.flags, 0) != 1 {
        var ptPAddr := allocator.PmmAllocPageFrame();
        var f: FrameNo := ptPAddr / PAGE_SIZE;
        assert f == NextFrame(v);
        mem := mem[dir := mem[dir][pdIndex := Entry(f, Or(Or(Or(PRES, WRT), OWNER), flags))]];
        ClearTable(f);
      } else if flags / USER % 2 == 1 {
        mem := mem[dir := mem[dir][pdIndex := e.(flags := Or(e.flags, USER))]];
      }
      assert Abs() == WithTable(v, pdIndex, flags, false);
      var t := mem[dir][pdIndex].frame;
      var was := mem[t][ptIndex];
      var word := Entry(OrFrame(physicalAddr / PAGE_SIZE, was.frame),
        Or(Or(Or(physicalAddr % PAGE_SIZE, PRES), was.flags), flags));
      mem := mem[t := mem[t][ptIndex := word]];
      memNumVpages := memNumVpages + 1;
    }

    /** changeHeapSize, which never records the new size. */
    method ChangeHeapSize(newSize: nat)
      requires Safe() && heapSize == 0 && (newSize + PAGE_SIZE - 1) / PAGE_SIZE <= HEAP_PAGES
      modifies this`mem, this`memNumVpages, allocator, allocator.PMB
      ensures Safe() && Abs() == HeapRun(old(Abs()), (newSize + PAGE_SIZE - 1) / PAGE_SIZE, false)
    {
      hide MapPage, Alloc, Exhausted, Choice;
      ghost var v := Abs();
      var oldPageTop := (heapSize + PAGE_SIZE - 1) / PAGE_SIZE;
      var newPageTop := (newSize + PAGE_SIZE - 1) / PAGE_SIZE;
      var diff := newPageTop - oldPageTop;
      var i := 0;
      while i < diff
        invariant 0 <= i <= newPageTop && Safe() && Abs() == HeapRun(v, i, false)
      {
        ghost var u := Abs();
        var phys := allocator.PmmAllocPageFrame();
        assert Abs() == Grabbed(u, false) && phys == NextFrame(u) * PAGE_SIZE;
        MemMapPage(0xD000_0000 + oldPageTop * PAGE_SIZE + i * PAGE_SIZE, phys, WRT);
        HeapAddress(i, NextFrame(u));
        i := i + 1;
      }
    }

    static lemma HeapAddress(i: nat, f: FrameNo)
      ensures (0xD000_0000 + i * PAGE_SIZE) / PAGE_SIZE == HEAP + i
      ensures f * PAGE_SIZE / PAGE_SIZE == f && f * PAGE_SIZE % PAGE_SIZE == 0
    {
    }

    /** kmallocInit */
    method KmallocInit(initialHeapSize: nat)
      requires Safe() && (initialHeapSize + PAGE_SIZE - 1) / PAGE_SIZE <= HEAP_PAGES
      modifies this`mem, this`memNumVpages, this`heapSize, allocator, allocator.PMB
      ensures Safe() && Abs() == HeapRun(old(Abs()), (initialHeapSize + PAGE_SIZE - 1) / PAGE_SIZE, false)
    {
      heapSize := 0;
      assert Abs() == old(Abs());
      ChangeHeapSize(initialHeapSize);
    }

    /** The mapping loop of exec_run. */
    method MapProgram(size: nat)
      requires Safe() && (size + PAGE_SIZE - 1) / PAGE_SIZE <= LOAD_PAGES
      modifies this`mem, this`memNumVpages, allocator, allocator.PMB
      ensures Safe() && Abs() == ExecRun(old(Abs()), (size + PAGE_SIZE - 1) / PAGE_SIZE, false)
    {
      hide MapPage, Or, Exhausted, Choice, StartByte, EndByte;
      ghost var v := Abs();
      var numPages := (size + PAGE_SIZE - 1) / PAGE_SIZE;
      FlagsSmall();
      var p := 0;
      while p < numPages
        invariant 0 <= p <= numPages && Safe() && Abs() == ExecRun(v, p, false)
      {
        var vaddr := 0x30_0000 + p * PAGE_SIZE;
        assert vaddr / PAGE_SIZE == LOAD + p && vaddr % PAGE_SIZE == 0;
        MemMapPage(vaddr, vaddr, Or(PRES, WRT));
        p := p + 1;
      }
    }

    static lemma FlagsSmall()
      ensures Or(PRES, WRT) == 3
    {
      assert Or(0, 1) == 1;
    }
  }
}
