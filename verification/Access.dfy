/** The flags of the words that memMapPage stores, and what they make of the
    heap, the console and the programs; and addresses byte by byte. */
module Access {
  import opened Bytes
  import opened Frames
  import opened Paging

  // ---- memMapPage

  /** The low bits of the word stored for a page. */
  function FlagsAt(v: Vm, page: nat): nat
    requires VmOk(v) && page < PAGES
  {
    match PageWord(v, page)
    case None => 0
    case Some(e) => e.flags
  }

  lemma OrFour(a: nat, b: nat, c: nat, d: nat, i: nat)
    ensures Bit(Or(Or(Or(a, b), c), d), i) == 1 <==>
      Bit(a, i) == 1 || Bit(b, i) == 1 || Bit(c, i) == 1 || Bit(d, i) == 1
  {
    OrBit(a, b, i);
    OrBit(Or(a, b), c, i);
    OrBit(Or(Or(a, b), c), d, i);
    hide Or, Bit;
  }

  lemma FlagAt(i: nat)
    ensures Bit(1, i) == 1 <==> i == 0
    ensures Bit(2, i) == 1 <==> i == 1
    ensures Bit(4, i) == 1 <==> i == 2
    ensures Bit(512, i) == 1 <==> i == 9
  {
    PowerBit(0, i);
    PowerBit(1, i);
    PowerBit(2, i);
    PowerBit(9, i);
    assert Pow2(1) == 2 && Pow2(2) == 4;
    assert Pow2(4) == 16 && Pow2(9) == 512;
    hide Bit;
  }

  lemma MapPageSlot(v: Vm, page: nat, phys: Entry, flags: nat, keep: bool)
    requires PagingOk(v) && page < PAGES && Ready(v, page) && Plain(flags)
    ensures var u := MapPage(v, page, phys, flags, keep);
      && PageWord(u, page).Some?
      && FlagsAt(u, page) == Or(Or(Or(phys.flags, PRES), FlagsAt(v, page)), flags)
  {
    var d := page / WORDS;
    MapPageDirectory(v, page, phys, flags, keep);
    TableMade(v, d, flags, keep);
    TableSlots(v, d, flags, keep, page);
    hide WithTable, Or, OrFrame, NextFrame, Bit, Ready, Plain, PagingOk;
  }

  /** Every bit of the stored word: the present bit, and whatever is set in the
      physical address, in the flags or in the word before. */
  lemma MapPageWord(v: Vm, page: nat, phys: Entry, flags: nat, keep: bool)
    requires PagingOk(v) && page < PAGES && Ready(v, page) && Plain(flags)
    ensures var u := MapPage(v, page, phys, flags, keep);
      forall i: nat ::
        Bit(FlagsAt(u, page), i) == 1 <==>
          i == 0 || Bit(phys.flags, i) == 1 || Bit(flags, i) == 1 || Bit(FlagsAt(v, page), i) == 1
  {
    MapPageSlot(v, page, phys, flags, keep);
    var u := MapPage(v, page, phys, flags, keep);
    hide MapPage, Or, Bit, Ready, Plain, PagingOk, FlagsAt;
    forall i: nat
      ensures Bit(FlagsAt(u, page), i) == 1 <==>
        i == 0 || Bit(phys.flags, i) == 1 || Bit(flags, i) == 1 || Bit(FlagsAt(v, page), i) == 1
    {
      OrFour(phys.flags, PRES, FlagsAt(v, page), flags, i);
      FlagAt(i);
    }
  }

  /** Every other page keeps its flags. */
  lemma MapPageOthers(v: Vm, page: nat, phys: Entry, flags: nat, keep: bool, q: nat)
    requires PagingOk(v) && page < PAGES && Ready(v, page) && Plain(flags)
    requires q < PAGES && q / WORDS != RECURSIVE && q != page
    ensures var u := MapPage(v, page, phys, flags, keep);
      && FlagsAt(u, q) == FlagsAt(v, q) && (PageWord(v, q).Some? ==> PageWord(u, q) == PageWord(v, q))
  {
    var d := page / WORDS;
    var m, u := WithTable(v, d, flags, keep), MapPage(v, page, phys, flags, keep);
    MapPageDirectory(v, page, phys, flags, keep);
    TableMade(v, d, flags, keep);
    TableSlots(v, d, flags, keep, page);
    TableSlots(v, d, flags, keep, q);
    hide WithTable, Or, OrFrame, NextFrame, Bit, Ready, Plain, PagingOk;
    assert q / WORDS == d ==> q % WORDS != page % WORDS;
    assert PageWord(u, q) == PageWord(m, q);
  }

  lemma BitTwo(flags: nat)
    ensures flags / 4 % 2 == Bit(flags, 2)
  {
    assert ShiftRight(flags, 2) == ShiftRight(flags / 2, 1) == ShiftRight(flags / 4, 0);
  }

  /** Every bit of the directory word: a new table is present, writable and
      the owner's, with the flags asked for; an old one gets at most the user bit. */
  lemma DirectoryWord(v: Vm, page: nat, phys: Entry, flags: nat, keep: bool)
    requires PagingOk(v) && page < PAGES && Ready(v, page) && Plain(flags)
    ensures var u, d := MapPage(v, page, phys, flags, keep), page / WORDS;
      && (forall i: nat :: Bit(DirEntry(u, d).flags, i) == 1 <==>
        if IsTable(v, d) then Bit(DirEntry(v, d).flags, i) == 1 || (i == 2 && Bit(flags, 2) == 1)
        else i == 0 || i == 1 || i == 9 || Bit(flags, i) == 1)
      && forall e | 0 <= e < WORDS && e != d :: DirEntry(u, e) == DirEntry(v, e)
  {
    var u, d := MapPage(v, page, phys, flags, keep), page / WORDS;
    MapPageTable(v, page, phys, flags, keep);
    MapPageDirectory(v, page, phys, flags, keep);
    TableWord(v, d, flags, keep);
    hide MapPage, WithTable, Bit, Or, Plain, PagingOk;
    forall i: nat
      ensures Bit(DirEntry(u, d).flags, i) == 1 <==>
        if IsTable(v, d) then Bit(DirEntry(v, d).flags, i) == 1 || (i == 2 && Bit(flags, 2) == 1)
        else i == 0 || i == 1 || i == 9 || Bit(flags, i) == 1
    {
      OrFour(PRES, WRT, OWNER, flags, i);
      OrBit(DirEntry(v, d).flags, USER, i);
      BitTwo(flags);
      FlagAt(i);
    }
  }

  lemma TableWord(v: Vm, d: nat, flags: nat, keep: bool)
    requires VmOk(v) && CanHold(v, d) && (IsTable(v, d) || Fresh(v, NextFrame(v)))
    ensures DirEntry(WithTable(v, d, flags, keep), d).flags ==
      if !IsTable(v, d) then Or(Or(Or(PRES, WRT), OWNER), flags)
      else if flags / 4 % 2 == 1 then Or(DirEntry(v, d).flags, USER)
      else DirEntry(v, d).flags
  {
    hide Or, Alloc, Bit;
  }

  // ---- pages that can be read and written

  ghost predicate Accessible(v: Vm, q: nat)
    requires VmOk(v) && q < PAGES
  {
    && PageWord(v, q).Some? && Bit(FlagsAt(v, q), 0) == 1 && Bit(FlagsAt(v, q), 1) == 1
    && Bit(DirEntry(v, q / WORDS).flags, 1) == 1
  }

  ghost predicate WritableTables(v: Vm)
    requires VmOk(v)
  {
    forall d | IsTable(v, d) :: Bit(DirEntry(v, d).flags, 1) == 1
  }

  ghost predicate StayAccessible(v: Vm, u: Vm)
    requires VmOk(v) && VmOk(u)
  {
    forall q: nat | q < PAGES && q / WORDS != RECURSIVE && Accessible(v, q) :: Accessible(u, q)
  }

  /** A page that is mapped writable can be read and written, and so can all
      that could before. */
  lemma MapPageAccess(v: Vm, page: nat, phys: Entry, flags: nat, keep: bool)
    requires PagingOk(v) && page < PAGES && Ready(v, page) && Plain(flags) && WritableTables(v) && Bit(flags, 1) == 1
    ensures var u := MapPage(v, page, phys, flags, keep);
      PagingOk(u) && WritableTables(u) && Accessible(u, page) && StayAccessible(v, u)
  {
    var u, d := MapPage(v, page, phys, flags, keep), page / WORDS;
    MapPageRefines(v, page, phys, flags, keep);
    MapPageTable(v, page, phys, flags, keep);
    MapPageSlot(v, page, phys, flags, keep);
    MapPageWord(v, page, phys, flags, keep);
    DirectoryWord(v, page, phys, flags, keep);
    hide MapPage, Bit, Or, Plain, PagingOk, FlagsAt, Translate, OldFrame, OrFrame, Large, Fresh;
    assert Bit(DirEntry(u, d).flags, 1) == 1;
    forall q: nat | q < PAGES && q / WORDS != RECURSIVE && Accessible(v, q) && q != page
      ensures Accessible(u, q)
    {
      MapPageOthers(v, page, phys, flags, keep, q);
    }
  }

  lemma WritableFlags()
    ensures Bit(WRT, 1) == 1 && Bit(Or(PRES, WRT), 1) == 1
  {
    FlagAt(1);
    OrBit(PRES, WRT, 1);
  }

  lemma GrabbedAccess(v: Vm, keep: bool)
    requires VmOk(v)
    ensures var w := Grabbed(v, keep);
      StayAccessible(v, w) && (WritableTables(v) ==> WritableTables(w))
  {
    hide Alloc, Bit;
    var w := Grabbed(v, keep);
    assert forall d | 0 <= d < WORDS :: DirEntry(w, d) == DirEntry(v, d);
    assert forall q: nat | q < PAGES :: PageWord(w, q) == PageWord(v, q);
  }

  /** Every page of the heap can be read and written. */
  lemma {:induction false} HeapAccess(v: Vm, n: nat, keep: bool)
    requires VmOk(v) && PagingOk(v) && n <= HEAP_PAGES && HeapReady(v, n, keep) && WritableTables(v)
    ensures var u := HeapRun(v, n, keep);
      && PagingOk(u) && WritableTables(u) && StayAccessible(v, u)
      && forall q: nat | HEAP <= q < HEAP + n :: Accessible(u, q)
  {
    hide MapPage, Ready, Grabbed, NextFrame, PagingOk, WritableTables, Accessible;
    if n > 0 {
      assert HeapReady(v, n - 1, keep);
      HeapAccess(v, n - 1, keep);
      var u := HeapRun(v, n - 1, keep);
      GrabbedSame(u, keep);
      GrabbedAccess(u, keep);
      LoadFlags();
      WritableFlags();
      MapPageAccess(Grabbed(u, keep), HEAP + n - 1, Entry(NextFrame(u), 0), WRT, keep);
    }
  }

  /** ... and every page of a program. */
  lemma {:induction false} ExecAccess(v: Vm, n: nat, keep: bool)
    requires VmOk(v) && PagingOk(v) && n <= LOAD_PAGES && ExecReady(v, n, keep) && WritableTables(v)
    ensures var u := ExecRun(v, n, keep);
      && PagingOk(u) && WritableTables(u) && StayAccessible(v, u)
      && forall q: nat | LOAD <= q < LOAD + n :: Accessible(u, q)
  {
    hide MapPage, Ready, PagingOk, WritableTables, Accessible, Or;
    if n > 0 {
      assert ExecReady(v, n - 1, keep);
      ExecAccess(v, n - 1, keep);
      LoadFlags();
      WritableFlags();
      MapPageAccess(ExecRun(v, n - 1, keep), LOAD + n - 1, Entry(LOAD + n - 1, 0), Or(PRES, WRT), keep);
    }
  }

  // ---- the start of the kernel

  /** The two words that initMemory stores; everything else in the directory
      stays. */
  lemma InitVmWords(v: Vm, memHigh: nat, physicalAllocStart: nat)
    requires v.dir in v.mem
    ensures var u := InitVm(v, memHigh, physicalAllocStart);
      && DirEntry(u, 0) == Entry(0, 0) && DirEntry(u, 1023) == Entry(v.dir, 3) && u.pages == 0
      && forall d | 0 < d < 1023 :: DirEntry(u, d) == DirEntry(v, d)
  {
    assert Or(1, 2) == 3 by {
      assert Or(0, 1) == 1;
    }
  }

  lemma MapPageCounted(v: Vm, page: nat, phys: Entry, flags: nat, keep: bool)
    requires VmOk(v) && page < PAGES
    ensures MapPage(v, page, phys, flags, keep).pages == v.pages + 1
  {
    hide Or, OrFrame, NextFrame, Alloc;
  }

  /** mem_num_vpages counts the pages that are mapped. */
  lemma {:induction false} PagesCounted(v: Vm, n: nat, keep: bool)
    requires VmOk(v)
    ensures n <= HEAP_PAGES ==> HeapRun(v, n, keep).pages == v.pages + n
    ensures n <= LOAD_PAGES ==> ExecRun(v, n, keep).pages == v.pages + n
  {
    hide MapPage, Or, NextFrame, Alloc;
    if n > 0 {
      PagesCounted(v, n - 1, keep);
      if n <= HEAP_PAGES {
        var u := HeapRun(v, n - 1, keep);
        MapPageCounted(Grabbed(u, keep), HEAP + n - 1, Entry(NextFrame(u), 0), WRT, keep);
      }
      if n <= LOAD_PAGES {
        MapPageCounted(ExecRun(v, n - 1, keep), LOAD + n - 1, Entry(LOAD + n - 1, 0), Or(PRES, WRT), keep);
      }
    }
  }

  /** What the start of the kernel and a program of n pages leave accessible:
      the heap page, the console and the program. */
  ghost predicate AllAccessible(e: Vm, n: nat)
    requires VmOk(e) && n <= LOAD_PAGES
  {
    Accessible(e, 0xD0000) && Accessible(e, 0xB8) && forall q: nat | 0x300 <= q < 0x300 + n :: Accessible(e, q)
  }

  lemma StartAccess(v: Vm, n: nat, keep: bool)
    requires VmOk(v) && PagingOk(v) && WritableTables(v) && HeapReady(v, 1, keep)
    requires Ready(HeapRun(v, 1, keep), CONSOLE) && n <= LOAD_PAGES
    requires ExecReady(ConsoleMapped(HeapRun(v, 1, keep), keep), n, keep)
    ensures AllAccessible(ExecRun(ConsoleMapped(HeapRun(v, 1, keep), keep), n, keep), n)
  {
    hide MapPage, HeapRun, ExecRun, Ready, PagingOk, WritableTables, Accessible, Or, Plain, HeapReady, ExecReady;
    HeapAccess(v, 1, keep);
    var h := HeapRun(v, 1, keep);
    LoadFlags();
    WritableFlags();
    MapPageAccess(h, CONSOLE, Entry(CONSOLE, 0), Or(PRES, WRT), keep);
    var s := ConsoleMapped(h, keep);
    ExecAccess(s, n, keep);
  }

  lemma NoTablesWritable(v: Vm)
    requires VmOk(v) && forall d | 0 <= d < WORDS :: !IsTable(v, d)
    ensures WritableTables(v)
  {
  }

  /** The physical address of a virtual one. */
  function Physical(v: Vm, address: nat): Option<nat>
    requires VmOk(v) && address < 0x1_0000_0000
  {
    match Translate(v, address / 0x1000)
    case None => None
    case Some(f) => Some(f * 0x1000 + address % 0x1000)
  }

  /** Where the console and a program of n pages are, byte by byte. */
  ghost predicate AtHome(e: Vm, n: nat)
    requires VmOk(e) && n <= LOAD_PAGES
  {
    && (forall a: nat | 0xB8000 <= a < 0xB9000 :: Physical(e, a) == Some(a))
    && forall a: nat | 0x30_0000 <= a < 0x30_0000 + n * 0x1000 :: Physical(e, a) == Some(a)
  }

  lemma HomeByPages(e: Vm, n: nat)
    requires VmOk(e) && n <= LOAD_PAGES && Translate(e, CONSOLE) == Some(CONSOLE)
    requires forall q: nat | LOAD <= q < LOAD + n :: Translate(e, q) == Some(q)
    ensures AtHome(e, n)
  {
    hide Translate;
    forall a: nat | 0xB8000 <= a < 0xB9000
      ensures Physical(e, a) == Some(a)
    {
      assert a / 0x1000 == CONSOLE;
    }
    forall a: nat | 0x30_0000 <= a < 0x30_0000 + n * 0x1000
      ensures Physical(e, a) == Some(a)
    {
      assert LOAD <= a / 0x1000 < LOAD + n;
    }
  }

  /** The boot directory, and memory with at least one whole byte of the bitmap. */
  ghost predicate Booted(v: Vm, memHigh: nat, physicalAllocStart: nat) {
    && VmOk(v) && BootDirectory(v.mem[v.dir]) && PmmOk(Init(physicalAllocStart, memHigh))
    && v.dir < 8 * StartByte(Init(physicalAllocStart, memHigh))
    && StartByte(Init(physicalAllocStart, memHigh)) < EndByte(Init(physicalAllocStart, memHigh))
  }

  /** initMemory, kmallocInit for one page, the mapping of the console, and a
      program of n pages. */
  ghost function Kernel(v: Vm, memHigh: nat, physicalAllocStart: nat, n: nat, keep: bool): (e: Vm)
    requires Booted(v, memHigh, physicalAllocStart) && n <= LOAD_PAGES
    ensures VmOk(e)
  {
    ExecRun(ConsoleMapped(HeapRun(InitVm(v, memHigh, physicalAllocStart), 1, keep), keep), n, keep)
  }

  // ---- the words themselves

  lemma OrNothing(b: nat)
    ensures Or(0, b) == b && Or(b, 0) == b
    decreases b
  {
    OrZero(b);
    if b > 0 {
      OrNothing(b / 2);
    }
  }

  lemma PlainWords()
    ensures Or(Or(Or(0, 1), 0), 2) == 3 && Or(Or(Or(0, 1), 0), Or(1, 2)) == 3
    ensures Or(Or(Or(1, 2), 512), 2) == 515 && Or(Or(Or(1, 2), 512), Or(1, 2)) == 515
  {
    OrNothing(1);
    OrNothing(2);
    assert Or(1, 2) == 2 * Or(0, 1) + 1;
    assert Or(1, 3) == 2 * Or(0, 1) + 1;
    OrNothing(128);
    assert Or(1, 256) == 2 * Or(0, 128) + 1;
    assert Or(3, 512) == 2 * Or(1, 256) + 1;
    OrNothing(257);
    OrNothing(128);
    assert Or(257, 1) == 2 * Or(128, 0) + 1;
    assert Or(515, 2) == 2 * Or(257, 1) + 1;
    assert Or(515, 3) == 2 * Or(257, 1) + 1;
  }

  /** The word of the page has the low bits 3, present and writable, and no other. */
  ghost predicate PlainWord(v: Vm, q: nat)
    requires VmOk(v) && q < PAGES
  {
    PageWord(v, q).Some? && FlagsAt(v, q) == 3
  }

  lemma FreshWord(v: Vm, page: nat, phys: Entry, flags: nat, keep: bool)
    requires PagingOk(v) && page < PAGES && Ready(v, page) && FlagsAt(v, page) == 0 && phys.flags == 0
    requires flags == WRT || flags == Or(PRES, WRT)
    ensures PlainWord(MapPage(v, page, phys, flags, keep), page)
    ensures !IsTable(v, page / WORDS) ==> DirEntry(MapPage(v, page, phys, flags, keep), page / WORDS).flags == 515
    ensures IsTable(v, page / WORDS) ==>
      DirEntry(MapPage(v, page, phys, flags, keep), page / WORDS).flags == DirEntry(v, page / WORDS).flags
  {
    hide MapPage, WithTable, Or, FlagsAt, PagingOk, Bit, Fresh, NextFrame, PageWord, DirEntry;
    LoadFlags();
    PlainWords();
    MapPageSlot(v, page, phys, flags, keep);
    FreshTableWord(v, page, phys, flags, keep);
  }

  lemma FreshTableWord(v: Vm, page: nat, phys: Entry, flags: nat, keep: bool)
    requires PagingOk(v) && page < PAGES && Ready(v, page) && (flags == WRT || flags == Or(PRES, WRT))
    ensures var e := DirEntry(MapPage(v, page, phys, flags, keep), page / WORDS);
      e.flags == if IsTable(v, page / WORDS) then DirEntry(v, page / WORDS).flags else 515
  {
    hide MapPage, WithTable, Or, Bit, NextFrame, Present, Large;
    LoadFlags();
    PlainWords();
    BothFlags();
    MapPageDirectory(v, page, phys, flags, keep);
    TableWord(v, page / WORDS, flags, keep);
  }

  lemma BothFlags()
    ensures Or(PRES, WRT) == 3
  {
    OrNothing(1);
    assert Or(1, 2) == 2 * Or(0, 1) + 1;
  }

  lemma OthersPlain(v: Vm, page: nat, phys: Entry, flags: nat, keep: bool, q: nat)
    requires PagingOk(v) && page < PAGES && Ready(v, page) && Plain(flags)
    requires q < PAGES && q / WORDS != RECURSIVE && q != page
    ensures var u := MapPage(v, page, phys, flags, keep);
      (PlainWord(v, q) ==> PlainWord(u, q)) && FlagsAt(u, q) == FlagsAt(v, q)
  {
    MapPageOthers(v, page, phys, flags, keep, q);
    hide MapPage, Ready, PagingOk, Plain, FlagsAt, PageWord;
  }

  ghost predicate StayPlain(v: Vm, u: Vm, first: nat, n: nat)
    requires VmOk(v) && VmOk(u)
  {
    forall q: nat | q < PAGES && q / WORDS != RECURSIVE && !(first <= q < first + n) ::
      (PlainWord(v, q) ==> PlainWord(u, q)) && FlagsAt(u, q) == FlagsAt(v, q)
  }

  lemma {:induction false} ExecWords(v: Vm, n: nat, keep: bool)
    requires VmOk(v) && PagingOk(v) && n <= LOAD_PAGES && ExecReady(v, n, keep)
    requires forall q: nat | LOAD <= q < LOAD + n :: FlagsAt(v, q) == 0
    ensures var u := ExecRun(v, n, keep);
      PagingOk(u) && StayPlain(v, u, LOAD, n) && forall q: nat | LOAD <= q < LOAD + n :: PlainWord(u, q)
  {
    hide MapPage, Ready, PagingOk, Or, PlainWord, FlagsAt, Plain;
    if n > 0 {
      assert ExecReady(v, n - 1, keep);
      ExecWords(v, n - 1, keep);
      var u, page := ExecRun(v, n - 1, keep), LOAD + n - 1;
      LoadFlags();
      MapPageRefines(u, page, Entry(page, 0), Or(PRES, WRT), keep);
      assert FlagsAt(u, page) == FlagsAt(v, page);
      FreshWord(u, page, Entry(page, 0), Or(PRES, WRT), keep);
      forall q: nat | q < PAGES && q / WORDS != RECURSIVE && q != page
        ensures var e := MapPage(u, page, Entry(page, 0), Or(PRES, WRT), keep);
          (PlainWord(u, q) ==> PlainWord(e, q)) && FlagsAt(e, q) == FlagsAt(u, q)
      {
        OthersPlain(u, page, Entry(page, 0), Or(PRES, WRT), keep, q);
      }
    }
  }

  lemma {:induction false} HeapWords(v: Vm, n: nat, keep: bool)
    requires VmOk(v) && PagingOk(v) && n <= HEAP_PAGES && HeapReady(v, n, keep)
    requires forall q: nat | HEAP <= q < HEAP + n :: FlagsAt(v, q) == 0
    ensures var u := HeapRun(v, n, keep);
      PagingOk(u) && StayPlain(v, u, HEAP, n) && forall q: nat | HEAP <= q < HEAP + n :: PlainWord(u, q)
  {
    hide MapPage, Ready, PagingOk, Or, PlainWord, FlagsAt, Plain, Grabbed, NextFrame;
    if n > 0 {
      assert HeapReady(v, n - 1, keep);
      HeapWords(v, n - 1, keep);
      var u, page := HeapRun(v, n - 1, keep), HEAP + n - 1;
      var w, phys := Grabbed(u, keep), Entry(NextFrame(u), 0);
      LoadFlags();
      GrabbedSame(u, keep);
      GrabbedWords(u, keep);
      MapPageRefines(w, page, phys, WRT, keep);
      assert FlagsAt(w, page) == FlagsAt(v, page);
      FreshWord(w, page, phys, WRT, keep);
      forall q: nat | q < PAGES && q / WORDS != RECURSIVE && q != page
        ensures var e := MapPage(w, page, phys, WRT, keep);
          (PlainWord(w, q) ==> PlainWord(e, q)) && FlagsAt(e, q) == FlagsAt(w, q)
      {
        OthersPlain(w, page, phys, WRT, keep, q);
      }
    }
  }

  lemma GrabbedWords(v: Vm, keep: bool)
    requires VmOk(v)
    ensures forall q: nat | q < PAGES ::
      FlagsAt(Grabbed(v, keep), q) == FlagsAt(v, q) && (PlainWord(v, q) ==> PlainWord(Grabbed(v, keep), q))
  {
    hide Alloc;
    assert forall q: nat | q < PAGES :: PageWord(Grabbed(v, keep), q) == PageWord(v, q);
  }

  /** The words of the heap page, the console and a program of n pages. */
  ghost predicate AllPlain(e: Vm, n: nat)
    requires VmOk(e) && n <= LOAD_PAGES
  {
    PlainWord(e, 0xD0000) && PlainWord(e, 0xB8) && forall q: nat | 0x300 <= q < 0x300 + n :: PlainWord(e, q)
  }

  lemma StartWords(v: Vm, n: nat, keep: bool)
    requires VmOk(v) && PagingOk(v) && HeapReady(v, 1, keep) && Ready(HeapRun(v, 1, keep), CONSOLE)
    requires n <= 768 * WORDS - LOAD && ExecReady(ConsoleMapped(HeapRun(v, 1, keep), keep), n, keep)
    requires forall d | 0 <= d < WORDS :: !IsTable(v, d)
    ensures AllPlain(ExecRun(ConsoleMapped(HeapRun(v, 1, keep), keep), n, keep), n)
  {
    hide MapPage, HeapRun, ExecRun, Ready, PagingOk, PlainWord, FlagsAt, Or, Plain, HeapReady, ExecReady;
    forall q: nat | q < PAGES && q / WORDS != RECURSIVE
      ensures FlagsAt(v, q) == 0
    {
      NoTableNoFlags(v, q);
    }
    HeapWords(v, 1, keep);
    var h := HeapRun(v, 1, keep);
    LoadFlags();
    FreshWord(h, CONSOLE, Entry(CONSOLE, 0), Or(PRES, WRT), keep);
    MapPageRefines(h, CONSOLE, Entry(CONSOLE, 0), Or(PRES, WRT), keep);
    var s := ConsoleMapped(h, keep);
    forall q: nat | q < PAGES && q / WORDS != RECURSIVE && q != CONSOLE
      ensures (PlainWord(h, q) ==> PlainWord(s, q)) && FlagsAt(s, q) == FlagsAt(h, q)
    {
      OthersPlain(h, CONSOLE, Entry(CONSOLE, 0), Or(PRES, WRT), keep, q);
    }
    ExecWords(s, n, keep);
  }

  lemma NoTableNoFlags(v: Vm, q: nat)
    requires VmOk(v) && q < PAGES && q / WORDS != RECURSIVE && !IsTable(v, q / WORDS)
    ensures FlagsAt(v, q) == 0
  {
  }

  /** As coded, from initMemory on: the heap page, the console and a program of
      up to 256 pages can be read and written, console and program at their own
      addresses, with the page table of both in the frame of the heap page. */
  lemma CodeKernel(v: Vm, memHigh: nat, physicalAllocStart: nat, n: nat)
    requires Booted(v, memHigh, physicalAllocStart) && n <= 256
    ensures var e := Kernel(v, memHigh, physicalAllocStart, n, false);
      var f := 8 * StartByte(Init(physicalAllocStart, memHigh));
      AllAccessible(e, n) && AllPlain(e, n) && AtHome(e, n) && TableInHeap(e, f)
  {
    hide InitVm, PagingOk, Guarded, Clear, HeapRun, Translate, OldFrame, Free, NextFrame, ConsoleMapped, ExecRun,
      EmptyAt, IsTable, BootDirectory, Alloc, Ready, HeapReady, ExecReady, Accessible, WritableTables;
    KernelStart(v, memHigh, physicalAllocStart);
    InitVmPmm(v, memHigh, physicalAllocStart);
    var w := InitVm(v, memHigh, physicalAllocStart);
    var s := ConsoleMapped(HeapRun(w, 1, false), false);
    assert EmptyAt(w, HEAP / WORDS) && EmptyAt(w, 0) && EmptyAt(w, 1);
    assert CodeStarted(w, s);
    CodeStartedFacts(w, s);
    CodeExecReady(w, s, n);
    ProgramTableInHeap(w, n);
    NoTablesWritable(w);
    StartAccess(w, n, false);
    StartWords(w, n, false);
    HomeByPages(ExecRun(s, n, false), n);
  }

  /** As designed, the same for a program of any size below the kernel, if there
      are frames for its tables, with the heap page in a frame of its own. */
  lemma KeptKernel(v: Vm, memHigh: nat, physicalAllocStart: nat, n: nat)
    requires Booted(v, memHigh, physicalAllocStart) && n <= 768 * WORDS - LOAD
    requires 3 + (LOAD + n) / WORDS <= |Free(Init(physicalAllocStart, memHigh))|
    ensures var e := Kernel(v, memHigh, physicalAllocStart, n, true);
      && AllAccessible(e, n) && AllPlain(e, n) && AtHome(e, n) && Guarded(e)
      && Translate(e, HEAP) == Some(NextFrame(InitVm(v, memHigh, physicalAllocStart)))
  {
    hide PagingOk, Guarded, Clear, HeapRun, Translate, OldFrame, Free, NextFrame, ConsoleMapped, ExecRun, InitVm,
      EmptyAt, IsTable, BootDirectory, Alloc, Ready, HeapReady, ExecReady, Accessible, WritableTables, PmmOk;
    KernelStart(v, memHigh, physicalAllocStart);
    InitVmPmm(v, memHigh, physicalAllocStart);
    var w := InitVm(v, memHigh, physicalAllocStart);
    KernelProgram(v, memHigh, physicalAllocStart, n);
    KeptHeapPage(w);
    ConsoleReady(HeapRun(w, 1, true), w.pmm);
    NoTablesWritable(w);
    StartAccess(w, n, true);
    StartWords(w, n, true);
    HomeByPages(Kernel(v, memHigh, physicalAllocStart, n, true), n);
  }
}
