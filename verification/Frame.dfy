/** No operation on one name disturbs another file or directory. */
module Frame {
  import opened Bytes
  import opened Names
  import opened FatTable
  import opened Layout
  import opened Directory
  import opened FatSpec
  import opened Volume
  import opened Removal
  import opened Addition
  import opened Operations
  import opened Runs
  import opened Reading

  /** Slot k of the current directory became sl; every other slot of every
      directory of sh1 and the data of every file of sh1 are as before. */
  ghost predicate OneSlotChanged(g: Geo, st: State, sh: Shape, st1: State, sh1: Shape, k: nat, sl: Slot) {
    && DirsOnDevice(g, st.disk, sh) && DirsOnDevice(g, st1.disk, sh1)
    && st.cur in sh.depth && st.cur in sh1.depth && st1.cur == st.cur && k < |DirSlots(g, st.disk, sh, st.cur)|
    && DirSlots(g, st1.disk, sh1, st.cur) == DirSlots(g, st.disk, sh, st.cur)[k := sl]
    && (forall x | x in sh.depth && x in sh1.depth && x != st.cur ::
      DirSlots(g, st1.disk, sh1, x) == DirSlots(g, st.disk, sh, x))
    && SameFiles(g, st.disk, sh, st1.disk, sh1)
  }

  lemma SlotWrittenChanged(g: Geo, st: State, sh: Shape, k: nat, sl: Slot)
    requires Live(g, st, sh) && k < |DirSlots(g, st.disk, sh, st.cur)|
    ensures OneSlotChanged(g, st, sh, st.(disk := WithSlot(g, st.disk, sh, st.cur, k, sl)), sh, k, sl)
    ensures TableBytes(g, WithSlot(g, st.disk, sh, st.cur, k, sl)) == TableBytes(g, st.disk)
  {
    hide DirSlots, Slots;
    SlotWritten(g, st.disk, st.tail, sh, st.cur, k, sl);
  }

  lemma SavedChanged(g: Geo, st: State, sh: Shape, e: Disk, k: nat, sl: Slot, st1: State, c: nat)
    requires OneSlotChanged(g, st, sh, st.(disk := e), sh, k, sl) && st.cur in RemovedShape(sh, c).depth
    requires SameSlots(g, e, sh, st1.disk, sh) && Untouched(g, e, st1.disk, sh) && st1.cur == st.cur
    ensures OneSlotChanged(g, st, sh, st1, RemovedShape(sh, c), k, sl)
  {
    hide Slots, ChainLbas, RootLbas;
    var sh1 := RemovedShape(sh, c);
    assert forall x | x in sh1.depth :: LbasOf(g, sh1, x) == LbasOf(g, sh, x);
  }

  /** What fat_delete and fat_rmdir change. */
  lemma RemoveChanges(g: Geo, st: State, sh: Shape, w: Want, k: nat)
    requires Removable(g, st, sh, k) && Find(DirSlots(g, st.disk, sh, st.cur), w, 0) == Some(k)
    ensures StateOk(g, st)
    ensures var sl := DirSlots(g, st.disk, sh, st.cur)[k];
      OneSlotChanged(g, st, sh, After(st, Remove(g, st, w)), RemovedShape(sh, FirstCluster(sl)), k, Marked(sl))
  {
    RemoveDisk(g, st, sh, w, k);
    FreedKeepsDir(g, st.disk, st.tail, sh, st.cur, k);
    MarkedTable(g, st, sh, k);
    var sl := DirSlots(g, st.disk, sh, st.cur)[k];
    SlotWrittenChanged(g, st, sh, k, Marked(sl));
    var u := Freed(TableOf(g, st), FirstCluster(sl));
    hide Remove, DirSlots, Find, OneSlotChanged, ShapeOk, Mounted;
    TableSaved(g, MarkedDisk(g, st, sh, k), st.tail, sh, u);
    SavedChanged(g, st, sh, MarkedDisk(g, st, sh, k), k, Marked(sl), After(st, Remove(g, st, w)), FirstCluster(sl));
  }

  lemma FilesThroughChain(g: Geo, d: Disk, e: Disk, sh: Shape, ch: seq<nat>)
    requires Untouched(g, d, e, sh) && ch != [] && ch[0] !in sh.chains
    ensures SameFiles(g, d, sh, e, WithChain(sh, ch))
  {
    hide ChainLbas, RootLbas;
  }

  /** What the second half of fat_write changes. */
  lemma StoreChanges(g: Geo, st: State, sh: Shape, name: Name, data: seq<Byte>, k: nat)
    requires Live(g, st, sh) && StateOk(g, st) && AllocOf(g, st, data).ok && |data| < 0x1_0000_0000
    requires forall i | 0 <= i < |AllocOf(g, st, data).chain| :: AllocOf(g, st, data).chain[i] < 0x1_0000
    requires Find(DirSlots(g, st.disk, sh, st.cur), Vacant, 0) == Some(k)
    ensures OneSlotChanged(g, st, sh, After(st, Store(g, st, name, data)), StoreShape(g, st, sh, data), k,
      FileSlot(name, AllocOf(g, st, data).chain, |data|))
  {
    StoreDone(g, st, sh, name, data, k);
    StoreMidKeeps(g, st, sh, data);
    FileSlotFits(g, st, sh, name, data, k);
    var r, m, sh1 := AllocOf(g, st, data), StoreMid(g, st, data), StoreShape(g, st, sh, data);
    var sl := FileSlot(name, r.chain, |data|);
    assert SameFiles(g, st.disk, sh, m.disk, sh1) by {
      if r.chain != [] {
        FilesThroughChain(g, st.disk, m.disk, sh, r.chain);
      }
    }
    assert forall h | h in sh.chains :: h in sh1.chains;
    hide Store, AllocOf, StoreMid, StoreShape, FileSlot, DirSlots, Find, SlotOk;
    SlotWritten(g, m.disk, m.tail, sh1, st.cur, k, sl);
    StoreChangesJoin(g, st, sh, m, sh1, After(st, Store(g, st, name, data)), k, sl);
  }

  lemma StoreChangesJoin(g: Geo, st: State, sh: Shape, m: State, sh1: Shape, e: State, k: nat, sl: Slot)
    requires SameSlots(g, st.disk, sh, m.disk, sh1) && SameFiles(g, st.disk, sh, m.disk, sh1)
    requires st.cur in sh.depth && sh1.depth == sh.depth && (forall h | h in sh.chains :: h in sh1.chains)
    requires k < |DirSlots(g, m.disk, sh1, st.cur)| && e.cur == st.cur && DirsOnDevice(g, e.disk, sh1)
    requires DirSlots(g, e.disk, sh1, st.cur) == DirSlots(g, m.disk, sh1, st.cur)[k := sl]
    requires forall y | y in sh1.depth && y != st.cur :: DirSlots(g, e.disk, sh1, y) == DirSlots(g, m.disk, sh1, y)
    requires forall h | h in sh1.chains && h != st.cur :: SameAt(m.disk, e.disk, ChainLbas(g, sh1.chains[h]))
    ensures OneSlotChanged(g, st, sh, e, sh1, k, sl)
  {
    hide Slots, ChainLbas, RootLbas;
  }

  // ---- other names

  /** Neither the name given to fat_write nor the name it stores. */
  predicate OtherName(name: Name, other: Name) {
    !EqNoCase(name, other) && !EqNoCase(MakeName(Split83(name)), other)
  }

  lemma OtherNotNamed(sl: Slot, name: Name, other: Name)
    requires Named(sl, name) && !EqNoCase(name, other)
    ensures !Named(sl, other)
  {
    CStringOfName(name);
    CStringOfName(other);
    hide UpperAll, MakeName;
  }

  /** A search that wants neither the old nor the new content of the changed
      slot gives the same result. */
  lemma FindElsewhere(g: Geo, st: State, sh: Shape, st1: State, sh1: Shape, k: nat, sl: Slot, w: Want, x: nat)
    requires OneSlotChanged(g, st, sh, st1, sh1, k, sl) && x in sh.depth && x in sh1.depth && !w.Vacant?
    requires ZeroTail(DirSlots(g, st.disk, sh, st.cur))
    requires x == st.cur ==> Judge(DirSlots(g, st.disk, sh, x)[k], w) != Hit && Judge(sl, w) == Skip
    ensures Find(DirSlots(g, st1.disk, sh1, x), w, 0) == Find(DirSlots(g, st.disk, sh, x), w, 0)
  {
    if x == st.cur {
      hide Judge, DirSlots, ZeroTail, SameFiles;
      FindUnaffected(DirSlots(g, st.disk, sh, x), k, sl, w, 0);
    }
  }

  /** The files that slots other than the changed one refer to are in sh1. */
  ghost predicate OthersKept(g: Geo, st: State, sh: Shape, sh1: Shape, k: nat)
    requires DirsOnDevice(g, st.disk, sh)
  {
    forall x, j | x in sh.depth && x in sh1.depth && 0 <= j < |DirSlots(g, st.disk, sh, x)| && (x, j) != (st.cur, k) ::
      ChainKnown(sh1, DirSlots(g, st.disk, sh, x)[j])
  }

  predicate ChainKnown(sh: Shape, sl: Slot) {
    IsFile(sl) && FirstCluster(sl) != 0 ==> FirstCluster(sl) in sh.chains
  }

  lemma ReadElsewhere(g: Geo, st: State, sh: Shape, st1: State, sh1: Shape, k: nat, sl: Slot, x: nat, other: Name,
      cap: nat)
    requires Live(g, In(st, x), sh) && Live(g, In(st1, x), sh1)
    requires OneSlotChanged(g, st, sh, st1, sh1, k, sl) && OthersKept(g, st, sh, sh1, k)
    requires Find(DirSlots(g, st1.disk, sh1, x), File(other), 0) == Find(DirSlots(g, st.disk, sh, x), File(other), 0)
    requires x == st.cur ==> Judge(sl, File(other)) == Skip
    ensures StateOk(g, In(st, x)) && StateOk(g, In(st1, x))
    ensures ReadFile(g, In(st1, x), other, cap) == ReadFile(g, In(st, x), other, cap)
  {
    hide Word, Dword, Slots, Joined, Get, Named, ReadFile, IsChain;
    var a, b := DirSlots(g, st.disk, sh, x), DirSlots(g, st1.disk, sh1, x);
    var r := Find(a, File(other), 0);
    if r.Some? {
      assert Judge(b[r.value], File(other)) == Hit;
      assert (x, r.value) != (st.cur, k);
      assert ChainKnown(sh1, a[r.value]);
    }
    hide ReadFile, Live, DirSlots, SameFiles, Named;
    ReadSame(g, In(st, x), sh, In(st1, x), sh1, other, cap);
  }

  /** The slot at k, before and after, is wanted by no search for this name in x. */
  predicate Unwanted(before: Slot, after: Slot, other: Name) {
    && Judge(before, File(other)) != Hit && Judge(before, Subdir(other)) != Hit
    && Judge(after, File(other)) == Skip && Judge(after, Subdir(other)) == Skip
  }

  lemma ViewElsewhere(g: Geo, st: State, sh: Shape, st1: State, sh1: Shape, k: nat, sl: Slot, x: nat, other: Name,
      cap: nat)
    requires Live(g, st, sh) && Live(g, In(st, x), sh) && Live(g, In(st1, x), sh1)
    requires OneSlotChanged(g, st, sh, st1, sh1, k, sl) && OthersKept(g, st, sh, sh1, k)
    requires x == st.cur ==> Unwanted(DirSlots(g, st.disk, sh, st.cur)[k], sl, other)
    ensures SameView(g, st, st1, x, other, cap)
  {
    var a, b := DirSlots(g, st.disk, sh, x), DirSlots(g, st1.disk, sh1, x);
    assert ZeroTail(DirSlots(g, st.disk, sh, st.cur)) by {
      assert DirOk(g, sh, st.cur, DirSlots(g, st.disk, sh, st.cur));
    }
    FindElsewhere(g, st, sh, st1, sh1, k, sl, File(other), x);
    FindElsewhere(g, st, sh, st1, sh1, k, sl, Subdir(other), x);
    assert x == st.cur ==> b == a[k := sl];
    hide Mounted, ReadFile, Cd, Judge, ZeroTail, DirSlots;
    ReadElsewhere(g, st, sh, st1, sh1, k, sl, x, other, cap);
    CdAgrees(g, In(st, x), sh, other);
    CdAgrees(g, In(st1, x), sh1, other);
    CdElsewhere(a, b, k, sl, Subdir(other), x == st.cur);
    hide SameFiles, OneSlotChanged, OthersKept, Unwanted;
  }

  lemma CdElsewhere(a: seq<Slot>, b: seq<Slot>, k: nat, sl: Slot, w: Want, here: bool)
    requires Find(b, w, 0) == Find(a, w, 0)
    requires if here then k < |a| && b == a[k := sl] && Judge(sl, w) == Skip else b == a
    ensures Find(a, w, 0).Some? ==> Find(a, w, 0).value < |b| && b[Find(a, w, 0).value] == a[Find(a, w, 0).value]
  {
    hide Judge;
  }

  ghost function CurrentSlots(g: Geo, st: State, sh: Shape): seq<Slot>
    requires Live(g, st, sh)
  {
    DirSlots(g, st.disk, sh, st.cur)
  }

  // ---- fat_delete and fat_rmdir

  lemma RemovedOthersKept(g: Geo, st: State, sh: Shape, k: nat)
    requires Removable(g, st, sh, k)
    ensures OthersKept(g, st, sh, RemovedShape(sh, FirstCluster(DirSlots(g, st.disk, sh, st.cur)[k])), k)
  {
    var c := FirstCluster(DirSlots(g, st.disk, sh, st.cur)[k]);
    SlotIsOk(g, st.disk, st.tail, sh, st.cur, k);
    forall x, j | x in sh.depth && 0 <= j < |DirSlots(g, st.disk, sh, x)| && (x, j) != (st.cur, k)
      ensures ChainKnown(RemovedShape(sh, c), DirSlots(g, st.disk, sh, x)[j])
    {
      SlotIsOk(g, st.disk, st.tail, sh, x, j);
    }
  }

  lemma MarkedUnwanted(sl: Slot, w: Want, other: Name)
    requires Judge(sl, w) == Hit && !w.Vacant? && !EqNoCase(w.name, other)
    ensures Unwanted(sl, Marked(sl), other)
  {
    OtherNotNamed(sl, w.name, other);
    hide EqNoCase, MakeName, Named;
  }

  /** Removing one name leaves every other name, and every other directory, alone. */
  lemma RemoveFrame(g: Geo, st: State, sh: Shape, w: Want, k: nat, x: nat, other: Name, cap: nat)
    requires Removable(g, st, sh, k) && Find(DirSlots(g, st.disk, sh, st.cur), w, 0) == Some(k)
    requires x in RemovedShape(sh, FirstCluster(DirSlots(g, st.disk, sh, st.cur)[k])).depth
    requires x == st.cur ==> !w.Vacant? && !EqNoCase(w.name, other)
    ensures StateOk(g, st) && SameView(g, st, After(st, Remove(g, st, w)), x, other, cap)
  {
    RemoveKeeps(g, st, sh, w, k);
    RemoveChanges(g, st, sh, w, k);
    RemovedOthersKept(g, st, sh, k);
    var sl := DirSlots(g, st.disk, sh, st.cur)[k];
    var sh1, st1 := RemovedShape(sh, FirstCluster(sl)), After(st, Remove(g, st, w));
    if x == st.cur {
      MarkedUnwanted(sl, w, other);
    }
    assert x in sh.depth;
    hide Remove, Mounted, DirSlots, Find, Removable, OneSlotChanged, OthersKept, Unwanted, SameView, RemovedShape,
      EqNoCase;
    ViewElsewhere(g, st, sh, st1, sh1, k, Marked(sl), x, other, cap);
  }

  // ---- fat_write

  lemma StoredUnwanted(name: Name, ch: seq<nat>, size: nat, before: Slot, other: Name)
    requires size < 0x1_0000_0000 && forall i | 0 <= i < |ch| :: ch[i] < 0x1_0000
    requires Judge(before, Vacant) == Hit && !EqNoCase(MakeName(Split83(name)), other)
    ensures Unwanted(before, FileSlot(name, ch, size), other)
  {
    FileSlotCluster(name, ch, size);
    SplitFirst(name);
    hide FileSlot, Split83, MakeName;
  }

  lemma StoredOthersKept(g: Geo, st: State, sh: Shape, sh1: Shape, k: nat)
    requires Live(g, st, sh) && forall h | h in sh.chains :: h in sh1.chains
    ensures OthersKept(g, st, sh, sh1, k)
  {
    forall x, j | x in sh.depth && 0 <= j < |DirSlots(g, st.disk, sh, x)|
      ensures ChainKnown(sh1, DirSlots(g, st.disk, sh, x)[j])
    {
      SlotIsOk(g, st.disk, st.tail, sh, x, j);
    }
  }

  lemma FailedStoreFrame(g: Geo, st: State, sh: Shape, data: seq<Byte>, x: nat, other: Name, cap: nat)
    requires Live(g, st, sh) && StateOk(g, st) && x in sh.depth
    ensures var r := AllocOf(g, st, data);
      SameView(g, st, State(Apply(st.disk, r.writes), st.cur, TailOf(g, r.table)), x, other, cap)
  {
    FailedAllocKeeps(g, st, sh, data);
    var r := AllocOf(g, st, data);
    var e := State(Apply(st.disk, r.writes), st.cur, TailOf(g, r.table));
    DirsKept(g, st.disk, e.disk, sh);
    hide AllocOf, Mounted, Untouched, SameSlots, SameView;
    UnnoticedReads(g, st, e, sh, x, other, cap);
  }

  lemma FullDirectoryFrame(g: Geo, st: State, sh: Shape, data: seq<Byte>, x: nat, other: Name, cap: nat)
    requires Live(g, st, sh) && StateOk(g, st) && AllocOf(g, st, data).ok && x in sh.depth
    ensures SameView(g, st, StoreMid(g, st, data), x, other, cap)
  {
    DataAndTable0(g, st, sh, data);
    StoreMidKeeps(g, st, sh, data);
    hide AllocOf, StoreMid, Mounted, Untouched, SameSlots, SameView;
    UnnoticedReads(g, st, StoreMid(g, st, data), sh, x, other, cap);
  }

  lemma DoneStoreFrame(g: Geo, st: State, sh: Shape, name: Name, data: seq<Byte>, k: nat, x: nat, other: Name, cap: nat)
    requires Live(g, st, sh) && StateOk(g, st) && AllocOf(g, st, data).ok && |data| < 0x1_0000_0000 && x in sh.depth
    requires Find(DirSlots(g, st.disk, sh, st.cur), Vacant, 0) == Some(k)
    requires x == st.cur ==> !EqNoCase(MakeName(Split83(name)), other)
    ensures SameView(g, st, After(st, Store(g, st, name, data)), x, other, cap)
  {
    FileSlotFits(g, st, sh, name, data, k);
    StoreChanges(g, st, sh, name, data, k);
    StoreDoneKeeps(g, st, sh, name, data, k);
    var ch := AllocOf(g, st, data).chain;
    var sh1 := StoredShape(g, st, sh, data, k);
    var sl := FileSlot(name, ch, |data|);
    var st1 := After(st, Store(g, st, name, data));
    if x == st.cur {
      StoredUnwanted(name, ch, |data|, DirSlots(g, st.disk, sh, st.cur)[k], other);
    }
    SameButOwner(g, st, sh, st1, StoreShape(g, st, sh, data), sh1.owner, k, sl);
    StoreMidKeeps(g, st, sh, data);
    StoredOthersKept(g, st, sh, sh1, k);
    hide Store, AllocOf, AllocChain, Mounted, DirSlots, Find, OneSlotChanged, OthersKept, Unwanted, SameView, FileSlot,
      StoreMid;
    ViewElsewhere(g, st, sh, st1, sh1, k, sl, x, other, cap);
  }

  lemma SameButOwner(g: Geo, st: State, sh: Shape, st1: State, sh1: Shape, owner: map<nat, (nat, nat)>, k: nat,
      sl: Slot)
    requires OneSlotChanged(g, st, sh, st1, sh1, k, sl)
    ensures OneSlotChanged(g, st, sh, st1, sh1.(owner := owner), k, sl)
  {
    hide ChainLbas, RootLbas;
    assert forall x | x in sh1.depth :: LbasOf(g, sh1.(owner := owner), x) == LbasOf(g, sh1, x);
  }

  lemma StoreUnfinished(g: Geo, st: State, sh: Shape, name: Name, data: seq<Byte>)
    requires Live(g, st, sh) && StateOk(g, st) && |data| < 0x1_0000_0000
    requires AllocOf(g, st, data).ok ==> Find(DirSlots(g, st.disk, sh, st.cur), Vacant, 0).None?
    ensures var r := AllocOf(g, st, data); var st1 := After(st, Store(g, st, name, data));
      Store(g, st, name, data).rc == -1 &&
      st1 == if r.ok then StoreMid(g, st, data) else State(Apply(st.disk, r.writes), st.cur, TailOf(g, r.table))
  {
    if AllocOf(g, st, data).ok {
      FileSlotFits(g, st, sh, name, data, 0);
      StoreOutcome(g, st, sh, name, data);
      StoreMidKeeps(g, st, sh, data);
      hide AllocChain, AllocOf, StoreMid, StoreShape, FileSlot, SlotOk, Mounted, Untouched, DirSlots, Find, Store;
    }
  }

  lemma StoreFrame(g: Geo, st: State, sh: Shape, name: Name, data: seq<Byte>, x: nat, other: Name, cap: nat)
    requires Live(g, st, sh) && StateOk(g, st) && |data| < 0x1_0000_0000 && x in sh.depth
    requires x == st.cur ==> !EqNoCase(MakeName(Split83(name)), other)
    ensures SameView(g, st, After(st, Store(g, st, name, data)), x, other, cap)
  {
    hide SameView, Live, AllocOf, DirSlots, Find, Store, StoreMid;
    if !AllocOf(g, st, data).ok {
      StoreUnfinished(g, st, sh, name, data);
      FailedStoreFrame(g, st, sh, data, x, other, cap);
    } else {
      match Find(CurrentSlots(g, st, sh), Vacant, 0) {
        case None =>
          StoreUnfinished(g, st, sh, name, data);
          FullDirectoryFrame(g, st, sh, data, x, other, cap);
        case Some(k) =>
          DoneStoreFrame(g, st, sh, name, data, k, x, other, cap);
      }
    }
  }

  /** Whether it succeeds, runs out of clusters or finds the directory full,
      fat_write leaves every file with another name, and every directory, as
      they were, in every directory. */
  lemma WriteFrame(g: Geo, st: State, sh: Shape, name: Name, data: seq<Byte>, x: nat, other: Name, cap: nat)
    requires Live(g, st, sh) && |data| < 0x1_0000_0000 && x in sh.depth
    requires x == st.cur ==> OtherName(name, other)
    ensures StateOk(g, st) && SameView(g, st, After(st, WriteFile(g, st, name, data)), x, other, cap)
  {
    FindAgrees(g, st, sh, File(name));
    WriteAfter(g, st, name, data);
    var st1 := After(st, Delete(g, st, name));
    hide WriteFile, Store, Mounted, SameView;
    match Find(DirSlots(g, st.disk, sh, st.cur), File(name), 0) {
      case None =>
        WriteOfNewNameState(g, st, sh, name);
        StoreFrame(g, st, sh, name, data, x, other, cap);
      case Some(k) =>
        DeletedFrame(g, st, sh, name, k, x, other, cap);
        var sh1 := RemovedShape(sh, FirstCluster(DirSlots(g, st.disk, sh, st.cur)[k]));
        StoreFrame(g, st1, sh1, name, data, x, other, cap);
        SameViewTwice(g, st, st1, After(st1, Store(g, st1, name, data)), x, other, cap);
    }
  }

  lemma WriteOfNewNameState(g: Geo, st: State, sh: Shape, name: Name)
    requires Live(g, st, sh) && Find(DirSlots(g, st.disk, sh, st.cur), File(name), 0).None?
    ensures StateOk(g, st) && After(st, Delete(g, st, name)) == st
  {
    FindAgrees(g, st, sh, File(name));
    hide Mounted;
  }

  lemma DeletedFrame(g: Geo, st: State, sh: Shape, name: Name, k: nat, x: nat, other: Name, cap: nat)
    requires Live(g, st, sh) && Find(DirSlots(g, st.disk, sh, st.cur), File(name), 0) == Some(k) && x in sh.depth
    requires x == st.cur ==> !EqNoCase(name, other)
    ensures StateOk(g, st)
    ensures var sh1 := RemovedShape(sh, FirstCluster(DirSlots(g, st.disk, sh, st.cur)[k]));
      var st1 := After(st, Delete(g, st, name));
      Live(g, st1, sh1) && sh1.depth == sh.depth && st1.cur == st.cur && StateOk(g, st1)
        && SameView(g, st, st1, x, other, cap)
  {
    SlotIsOk(g, st.disk, st.tail, sh, st.cur, k);
    FileChainIsNoDir(g, sh, st.cur, k, DirSlots(g, st.disk, sh, st.cur)[k]);
    hide Mounted, SameView, SlotOk, Remove;
    RemoveKeeps(g, st, sh, File(name), k);
    RemoveCur(g, st, sh, File(name), k);
    LiveStateOk(g, After(st, Delete(g, st, name)), RemovedShape(sh, FirstCluster(DirSlots(g, st.disk, sh, st.cur)[k])));
    RemoveFrame(g, st, sh, File(name), k, x, other, cap);
  }

  lemma RemoveCur(g: Geo, st: State, sh: Shape, w: Want, k: nat)
    requires Removable(g, st, sh, k) && Find(DirSlots(g, st.disk, sh, st.cur), w, 0) == Some(k)
    ensures StateOk(g, st) && Remove(g, st, w).cur == st.cur && Remove(g, st, w).rc == 0
  {
    RemoveOutcome(g, st, sh, w, k);
  }

  lemma FileChainIsNoDir(g: Geo, sh: Shape, x: nat, k: nat, sl: Slot)
    requires x in sh.depth && SlotOk(g, sh, x, k, sl) && IsFile(sl)
    ensures RemovedShape(sh, FirstCluster(sl)).depth == sh.depth
  {
  }

  lemma SameViewTwice(g: Geo, st: State, st1: State, st2: State, x: nat, other: Name, cap: nat)
    requires SameView(g, st, st1, x, other, cap) && SameView(g, st1, st2, x, other, cap)
    ensures SameView(g, st, st2, x, other, cap)
  {
    hide ReadFile, Cd, StateOk;
  }
}
