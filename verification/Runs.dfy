/** The volume invariant over every run of the operations. */
module Runs {
  import opened Bytes
  import opened Names
  import opened FatTable
  import opened Layout
  import opened Directory
  import opened FatSpec
  import opened Volume
  import opened Removal
  import opened Allocation
  import opened Addition
  import opened Subdirectories
  import opened Operations

  // ---- fat_mkdir

  /** The state in which fat_mkdir, having taken cluster c, has written the
      table u and the new directory's sector. */
  function MkdirMid(g: Geo, st: State, c: nat, u: Table): State
    requires StateOk(g, st) && c < ENTRIES
  {
    State(Apply(st.disk, MkdirWrites(g, st, c, u)), st.cur, TailOf(g, u))
  }

  function MkdirWrites(g: Geo, st: State, c: nat, u: Table): seq<Write>
    requires StateOk(g, st) && c < ENTRIES
  {
    FatWrites(g, u, 0) + [Write(ClusterStart(g, c), DotSector(c, st.cur))]
  }

  /** fat_mkdir took cluster c and got as far as writing its first sector. */
  predicate Takes(g: Geo, st: State, c: nat, u: Table) {
    && StateOk(g, st) && 2 <= c < Limit(g) && c == FirstFree(g, TableOf(g, st)) && ClusterStart(g, c) < |st.disk|
    && u == Set(TableOf(g, st), c, END_MARK)
  }

  lemma TakesStateOk(g: Geo, st: State, c: nat, u: Table)
    requires Takes(g, st, c, u)
    ensures StateOk(g, st) && c < ENTRIES
  {
  }

  lemma MkdirDisk(g: Geo, st: State, c: nat, u: Table)
    requires Takes(g, st, c, u)
    ensures MkdirMid(g, st, c, u).disk == Apply(Apply(st.disk, [Write(ClusterStart(g, c), DotSector(c, st.cur))]),
      FatWrites(g, u, 0))
  {
    hide Set, FirstFree, DotSector, TableOf;
    var fw := FatWrites(g, u, 0);
    var w := Write(ClusterStart(g, c), DotSector(c, st.cur));
    ApplyAppend(st.disk, fw, [w]);
    ApplyOne(Apply(st.disk, fw), w);
    ApplyOne(st.disk, w);
    ClusterAfterRoot(g, c);
    FatWritesMiss(g, u, w.lba);
    PutCommutes(st.disk, fw, w);
  }

  lemma TakenTable(g: Geo, t: Table, c: nat)
    requires GeoOk(g) && c < ENTRIES && Get(t, c) == 0
    ensures KeepsUsed(g, t, Set(t, c, END_MARK)) && Get(Set(t, c, END_MARK), c) == END_MARK
  {
    hide Get, Set;
  }

  lemma TakenSector(g: Geo, st: State, c: nat, u: Table, w: Write)
    requires Takes(g, st, c, u) && w.lba == ClusterStart(g, c)
    ensures AllFree(g, TableOf(g, st), [w]) && KeepsUsed(g, TableOf(g, st), u)
  {
    TakenTable(g, TableOf(g, st), c);
    assert InFree(g, TableOf(g, st), w.lba);
  }

  /** Even a fat_mkdir that stops here leaves a well-formed volume. */
  lemma MkdirMidKeeps(g: Geo, st: State, sh: Shape, c: nat, u: Table)
    requires Live(g, st, sh) && Takes(g, st, c, u)
    ensures var m := MkdirMid(g, st, c, u);
      && Live(g, m, sh) && Buffer(g, m.disk, m.tail) == u
      && Untouched(g, st.disk, m.disk, sh) && SameSlots(g, st.disk, sh, m.disk, sh)
  {
    var w := Write(ClusterStart(g, c), DotSector(c, st.cur));
    TakenSector(g, st, c, u, w);
    MkdirDisk(g, st, c, u);
    hide AllFree, KeepsUsed, DotSector, ClusterStart, Takes, Untouched, SameSlots;
    DataAndTable(g, st.disk, st.tail, sh, [w], u);
  }

  lemma MkdirSectors(g: Geo, st: State, c: nat, u: Table, i: nat)
    requires Takes(g, st, c, u) && DataStart(g) <= i < |st.disk|
    ensures MkdirMid(g, st, c, u).disk[i] == if i == ClusterStart(g, c) then DotSector(c, st.cur) else st.disk[i]
  {
    hide Set, FirstFree, DotSector, TableOf;
    var w := Write(ClusterStart(g, c), DotSector(c, st.cur));
    MkdirDisk(g, st, c, u);
    ApplyOne(st.disk, w);
    FatWritesMiss(g, u, i);
    ApplyMissing(Put(st.disk, w), FatWrites(g, u, 0), i);
  }

  lemma ClearStaysClear(g: Geo, d: Disk, e: Disk, c: nat)
    requires RestClear(g, d, c) && |e| == |d|
    requires forall o | 1 <= o < g.spc :: e[ClusterLbas(g, c)[o]] == d[ClusterLbas(g, c)[o]]
    ensures RestClear(g, e, c)
  {
    forall k | SLOTS <= k < SLOTS * g.spc
      ensures Slots(e, ClusterLbas(g, c))[k] == Slots(d, ClusterLbas(g, c))[k]
    {
      assert 1 <= k / SLOTS < g.spc;
      SlotIndex(d, ClusterLbas(g, c), k);
      SlotIndex(e, ClusterLbas(g, c), k);
    }
  }

  lemma MkdirCluster(g: Geo, st: State, c: nat, u: Table, o: nat)
    requires Takes(g, st, c, u) && RestClear(g, st.disk, c) && o < g.spc
    ensures var lba := ClusterLbas(g, c)[o];
      lba < |st.disk| && MkdirMid(g, st, c, u).disk[lba] == if o == 0 then DotSector(c, st.cur) else st.disk[lba]
  {
    ClusterAfterRoot(g, c);
    MkdirSectors(g, st, c, u, ClusterLbas(g, c)[o]);
  }

  lemma MkdirReady(g: Geo, st: State, c: nat, u: Table)
    requires Takes(g, st, c, u) && RestClear(g, st.disk, c)
    ensures DirReady(g, MkdirMid(g, st, c, u).disk, c)
  {
    forall o | 0 <= o < g.spc
      ensures MkdirMid(g, st, c, u).disk[ClusterLbas(g, c)[o]] ==
        if o == 0 then DotSector(c, st.cur) else st.disk[ClusterLbas(g, c)[o]]
    {
      MkdirCluster(g, st, c, u, o);
    }
    MadeSector(c, st.cur);
    hide DotSector, DotsOnly;
    ClearStaysClear(g, st.disk, MkdirMid(g, st, c, u).disk, c);
  }

  function MadeShape(sh: Shape, x: nat, c: nat): Shape
    requires x in sh.depth
  {
    WithDir(sh, c, sh.depth[x] + 1)
  }

  ghost predicate NewDirFacts(g: Geo, t: Table, sh: Shape, c: nat, d: Disk, tail: seq<Byte>) {
    && Mounted(g, d, tail, sh) && ShapeOk(g, t, sh) && KeepsUsed(g, t, Buffer(g, d, tail))
    && 2 <= c < Limit(g) && Get(t, c) == 0 && Get(Buffer(g, d, tail), c) == END_MARK
    && DirReady(g, d, c)
  }

  lemma TakesUnused(g: Geo, st: State, c: nat, u: Table)
    requires Takes(g, st, c, u)
    ensures Get(TableOf(g, st), c) == 0 && Get(u, c) == END_MARK && KeepsUsed(g, TableOf(g, st), u)
  {
    TakenTable(g, TableOf(g, st), c);
  }

  lemma MkdirFacts(g: Geo, st: State, sh: Shape, c: nat, u: Table, m: State)
    requires Live(g, st, sh) && Takes(g, st, c, u) && RestClear(g, st.disk, c) && m == MkdirMid(g, st, c, u)
    ensures NewDirFacts(g, TableOf(g, st), sh, c, m.disk, m.tail)
  {
    MkdirMidKeeps(g, st, sh, c, u);
    TakesUnused(g, st, c, u);
    MkdirReady(g, st, c, u);
    hide DirReady, Get, Set, MkdirMid, FirstFree, Untouched, SameSlots, KeepsUsed, DirSlots, DirOk, DirsOnDevice,
      RestClear;
  }

  lemma MkdirDirMounted(g: Geo, t: Table, sh: Shape, c: nat, parent: nat, d: Disk, tail: seq<Byte>)
    requires NewDirFacts(g, t, sh, c, d, tail) && parent in sh.depth
    ensures Mounted(g, d, tail, MadeShape(sh, parent, c)) && c !in sh.chains
    ensures NobodyRefers(g, d, MadeShape(sh, parent, c), c)
    ensures SameSlots(g, d, sh, d, MadeShape(sh, parent, c))
  {
    hide DirReady, Get, SameSlots, KeepsUsed, Mounted, ShapeOk;
    NewDirMounted(g, d, tail, sh, t, c, sh.depth[parent] + 1);
  }

  lemma MkdirDirKeeps(g: Geo, st: State, sh: Shape, c: nat, u: Table, m: State)
    requires Live(g, st, sh) && Takes(g, st, c, u) && RestClear(g, st.disk, c) && m == MkdirMid(g, st, c, u)
    ensures Live(g, m, MadeShape(sh, st.cur, c)) && c !in sh.chains
    ensures NobodyRefers(g, m.disk, MadeShape(sh, st.cur, c), c)
    ensures SameSlots(g, st.disk, sh, m.disk, MadeShape(sh, st.cur, c))
  {
    MkdirMidKeeps(g, st, sh, c, u);
    MkdirFacts(g, st, sh, c, u, m);
    MkdirDirMounted(g, TableOf(g, st), sh, c, st.cur, m.disk, m.tail);
    hide Mounted, NobodyRefers, MkdirWrites, Takes, RestClear, DirSlots;
  }

  lemma DirSlotOk(g: Geo, sh: Shape, c: nat, x: nat, k: nat, name: Name)
    requires x in sh.depth && c !in sh.chains && 0 < c < 0x1_0000 && x != c
    ensures var sl := NewSlot(Split83(name), 0x10, c, 0); var sh1 := WithDir(sh, c, sh.depth[x] + 1);
      sl[0] != 0 && FirstCluster(sl) == c && SlotOk(g, WithOwner(sh1, c, x, k), x, k, sl)
  {
    hide NewSlot, Split83, RawNameOf, FirstCluster, FileSize, ChainLbas;
    SplitFirst(name);
    assert !IsFile(NewSlot(Split83(name), 0x10, c, 0));
  }

  lemma MkdirIs(g: Geo, st: State, name: Name)
    requires StateOk(g, st)
    ensures var t := TableOf(g, st); var c := FirstFree(g, t);
      Mkdir(g, st, name) ==
        if c == 0 then Outcome(-1, [], st.cur, st.tail)
        else if ClusterStart(g, c) >= |st.disk| then
          Outcome(-1, FatWrites(g, Set(t, c, END_MARK), 0), st.cur, TailOf(g, Set(t, c, END_MARK)))
        else AddSlot(g, st, Set(t, c, END_MARK), MkdirWrites(g, st, c, Set(t, c, END_MARK)),
          NewSlot(Split83(name), 0x10, c, 0))
  {
    hide AddSlot, NewSlot, Split83, FatWrites, Set, TableOf;
  }

  lemma MkdirOutcome(g: Geo, st: State, sh: Shape, c: nat, u: Table, name: Name)
    requires Takes(g, st, c, u) && Live(g, MkdirMid(g, st, c, u), sh)
      && Buffer(g, MkdirMid(g, st, c, u).disk, TailOf(g, u)) == u
    ensures var m := MkdirMid(g, st, c, u); var ws := MkdirWrites(g, st, c, u);
      var sl := NewSlot(Split83(name), 0x10, c, 0);
      Mkdir(g, st, name) ==
        match Find(DirSlots(g, m.disk, sh, st.cur), Vacant, 0)
        case None => Outcome(-1, ws, m.cur, m.tail)
        case Some(k) => Outcome(0, ws + [SlotWrite(m.disk, LbasOf(g, sh, st.cur), k, sl)], m.cur, m.tail)
  {
    MkdirIs(g, st, name);
    hide Mkdir, NewSlot, Split83, Set, TableOf, AddSlot, MkdirWrites, FirstFree;
    AddSlotOutcome(g, st, u, MkdirWrites(g, st, c, u), NewSlot(Split83(name), 0x10, c, 0), sh);
  }

  lemma MkdirDone(g: Geo, st: State, sh: Shape, c: nat, u: Table, name: Name, k: nat)
    requires Takes(g, st, c, u) && Live(g, MkdirMid(g, st, c, u), sh)
      && Buffer(g, MkdirMid(g, st, c, u).disk, TailOf(g, u)) == u
    requires Find(DirSlots(g, MkdirMid(g, st, c, u).disk, sh, st.cur), Vacant, 0) == Some(k)
    ensures var m := MkdirMid(g, st, c, u);
      Mkdir(g, st, name).rc == 0 &&
      After(st, Mkdir(g, st, name)) == State(WithSlot(g, m.disk, sh, st.cur, k, NewSlot(Split83(name), 0x10, c, 0)),
        m.cur, m.tail)
  {
    var m := MkdirMid(g, st, c, u);
    MkdirOutcome(g, st, sh, c, u, name);
    hide Mkdir, NewSlot, Split83, FirstFree, Takes, MkdirWrites, Find;
    var w := SlotWrite(m.disk, LbasOf(g, sh, st.cur), k, NewSlot(Split83(name), 0x10, c, 0));
    ApplyAppend(st.disk, MkdirWrites(g, st, c, u), [w]);
    ApplyOne(m.disk, w);
  }

  lemma MkdirSlotFits(g: Geo, st: State, sh: Shape, c: nat, name: Name, k: nat)
    requires Live(g, st, sh) && c !in sh.chains && 0 < c < ENTRIES
    ensures var sl := NewSlot(Split83(name), 0x10, c, 0);
      sl[0] != 0 && FirstCluster(sl) == c && SlotOk(g, WithOwner(MadeShape(sh, st.cur, c), c, st.cur, k), st.cur, k, sl)
  {
    hide Mounted, SlotOk, NewSlot, Split83, FirstCluster, Times;
    CurrentKnown(g, st, sh, c);
    DirSlotOk(g, sh, c, st.cur, k, name);
  }

  lemma MkdirDoneKeeps(g: Geo, st: State, sh: Shape, c: nat, u: Table, name: Name, k: nat)
    requires Live(g, st, sh) && Takes(g, st, c, u) && RestClear(g, st.disk, c)
    requires Find(DirSlots(g, st.disk, sh, st.cur), Vacant, 0) == Some(k)
    ensures Live(g, After(st, Mkdir(g, st, name)), WithOwner(MadeShape(sh, st.cur, c), c, st.cur, k))
  {
    var m, sh1 := MkdirMid(g, st, c, u), MadeShape(sh, st.cur, c);
    var sl := NewSlot(Split83(name), 0x10, c, 0);
    MkdirMidKeeps(g, st, sh, c, u);
    MkdirDirKeeps(g, st, sh, c, u, m);
    hide Mkdir, FirstFree, Mounted, Find, SlotOk, TableOf, MkdirWrites, NewSlot, DirSlots, Untouched, RestClear;
    MkdirDone(g, st, sh1, c, u, name, k);
    MkdirSlotFits(g, st, sh, c, name, k);
    AddSlotKeeps(g, m, sh1, k, sl);
  }

  lemma CurrentKnown(g: Geo, st: State, sh: Shape, c: nat)
    requires Live(g, st, sh) && c !in sh.chains && c != 0
    ensures st.cur != c
  {
  }

  lemma TableOnlyKeeps(g: Geo, st: State, sh: Shape, u: Table)
    requires Live(g, st, sh) && StateOk(g, st) && KeepsUsed(g, TableOf(g, st), u)
    ensures Live(g, State(Apply(st.disk, FatWrites(g, u, 0)), st.cur, TailOf(g, u)), sh)
  {
    DataAndTable(g, st.disk, st.tail, sh, [], u);
  }

  /** fat_mkdir with no free cluster, or with one that is not on the device. */
  lemma MkdirRefused(g: Geo, st: State, sh: Shape, name: Name)
    requires Live(g, st, sh) && StateOk(g, st)
    requires var c := FirstFree(g, TableOf(g, st)); c == 0 || ClusterStart(g, c) >= |st.disk|
    ensures Mkdir(g, st, name).rc == -1 && Live(g, After(st, Mkdir(g, st, name)), sh)
  {
    MkdirIs(g, st, name);
    var t, c := TableOf(g, st), FirstFree(g, TableOf(g, st));
    if c == 0 {
      assert After(st, Mkdir(g, st, name)) == st;
    } else {
      TakenTable(g, t, c);
      hide Mkdir, Mounted, KeepsUsed, FirstFree, Get, Set, FatWrites, TableOf, ClusterStart;
      TableOnlyKeeps(g, st, sh, Set(t, c, END_MARK));
    }
  }

  lemma MkdirKeeps(g: Geo, st: State, sh: Shape, name: Name)
    requires Live(g, st, sh) && StateOk(g, st) && MkdirClear(g, st)
    ensures WellFormed(g, After(st, Mkdir(g, st, name)))
  {
    hide Mkdir, Mounted, RestClear, Set;
    var c := FirstFree(g, TableOf(g, st));
    if c == 0 || ClusterStart(g, c) >= |st.disk| {
      MkdirRefused(g, st, sh, name);
    } else {
      OnDeviceBelowLimit(g, |st.disk|, c);
      MkdirStartedKeeps(g, st, sh, c, Set(TableOf(g, st), c, END_MARK), name);
    }
  }

  lemma MkdirStartedKeeps(g: Geo, st: State, sh: Shape, c: nat, u: Table, name: Name)
    requires Live(g, st, sh) && Takes(g, st, c, u) && RestClear(g, st.disk, c)
    ensures WellFormed(g, After(st, Mkdir(g, st, name)))
  {
    MkdirMidKeeps(g, st, sh, c, u);
    MkdirOutcome(g, st, sh, c, u, name);
    hide Mkdir, FirstFree, NewSlot, Split83, FatWrites, Set, Get, MkdirWrites, Mounted, Find, DotSector, TableOf, Takes,
      RestClear;
    match Find(DirSlots(g, MkdirMid(g, st, c, u).disk, sh, st.cur), Vacant, 0) {
      case None =>
      case Some(k) => MkdirDoneKeeps(g, st, sh, c, u, name, k);
    }
  }

  // ---- fat_rename

  lemma RenamedOk(g: Geo, sh: Shape, x: nat, k: nat, sl: Slot, name: Name)
    requires x in sh.depth && SlotOk(g, sh, x, k, sl) && IsFile(sl)
    ensures Renamed(sl, name)[0] != 0 && SlotOk(g, sh, x, k, Renamed(sl, name))
  {
    hide Times;
    SplitFirst(name);
    hide Split83, ChainLbas;
    var r := Renamed(sl, name);
    assert r[11] == sl[11] && FirstCluster(r) == FirstCluster(sl) && FileSize(r) == FileSize(sl);
  }

  lemma RenameFound(g: Geo, st: State, sh: Shape, oldName: Name, newName: Name, k: nat)
    requires Live(g, st, sh) && Find(DirSlots(g, st.disk, sh, st.cur), File(oldName), 0) == Some(k)
    ensures StateOk(g, st)
    ensures var sl := Renamed(DirSlots(g, st.disk, sh, st.cur)[k], newName);
      var w := SlotWrite(st.disk, LbasOf(g, sh, st.cur), k, sl);
      Rename(g, st, oldName, newName) == Outcome(0, [w], st.cur, st.tail)
  {
    hide Renamed, Find, WriteBackLba, DirLbas, FindIn, LbasOf, ChainsOk, ChainsApart, DirOk;
    FindAgrees(g, st, sh, File(oldName));
    WriteBackAgrees(g, TableOf(g, st), sh, st.cur, k / SLOTS);
    assert TailOf(g, TableOf(g, st)) == st.tail;
    hide Live, Mounted, Buffer;
    var w := SlotWrite(st.disk, LbasOf(g, sh, st.cur), k, Renamed(DirSlots(g, st.disk, sh, st.cur)[k], newName));
    assert [] + [w] == [w];
  }

  lemma RenameOutcome(g: Geo, st: State, sh: Shape, oldName: Name, newName: Name, k: nat)
    requires Live(g, st, sh) && Find(DirSlots(g, st.disk, sh, st.cur), File(oldName), 0) == Some(k)
    ensures StateOk(g, st)
    ensures var sl := DirSlots(g, st.disk, sh, st.cur)[k];
      var o := Rename(g, st, oldName, newName);
      o.rc == 0 && After(st, o) == State(WithSlot(g, st.disk, sh, st.cur, k, Renamed(sl, newName)), st.cur, st.tail)
  {
    RenameFound(g, st, sh, oldName, newName, k);
    hide Rename, Mounted, Find;
    ApplyOne(st.disk, SlotWrite(st.disk, LbasOf(g, sh, st.cur), k,
      Renamed(DirSlots(g, st.disk, sh, st.cur)[k], newName)));
  }

  lemma RenameKeeps(g: Geo, st: State, sh: Shape, oldName: Name, newName: Name, k: nat)
    requires Live(g, st, sh) && Find(DirSlots(g, st.disk, sh, st.cur), File(oldName), 0) == Some(k)
    ensures StateOk(g, st) && Live(g, After(st, Rename(g, st, oldName, newName)), sh)
  {
    RenameOutcome(g, st, sh, oldName, newName, k);
    var slots := DirSlots(g, st.disk, sh, st.cur);
    var r := Renamed(slots[k], newName);
    SlotIsOk(g, st.disk, st.tail, sh, st.cur, k);
    RenamedOk(g, sh, st.cur, k, slots[k], newName);
    hide Rename, Renamed;
    RenameSlotKeeps(g, st, sh, k, r);
  }

  lemma RenameSlotKeeps(g: Geo, st: State, sh: Shape, k: nat, r: Slot)
    requires Live(g, st, sh) && k < |DirSlots(g, st.disk, sh, st.cur)| && IsLive(DirSlots(g, st.disk, sh, st.cur)[k])
    requires r[0] != 0 && SlotOk(g, sh, st.cur, k, r)
    ensures Live(g, State(WithSlot(g, st.disk, sh, st.cur, k, r), st.cur, st.tail), sh)
  {
    hide SlotOk;
    var slots := DirSlots(g, st.disk, sh, st.cur);
    assert DirOk(g, sh, st.cur, slots);
    ZeroTailFilled(slots, k, r);
    assert sh.(owner := sh.owner) == sh;
    assert forall y | y in sh.depth :: DirOk(g, sh, y, DirSlots(g, st.disk, sh, y));
    SlotWriteKeeps(g, st.disk, st.tail, sh, st.cur, k, r, sh.owner);
  }

  // ---- fat_cd

  lemma SubdirKnown(g: Geo, st: State, sh: Shape, name: Name, k: nat)
    requires Live(g, st, sh) && Find(DirSlots(g, st.disk, sh, st.cur), Subdir(name), 0) == Some(k)
    ensures FirstCluster(DirSlots(g, st.disk, sh, st.cur)[k]) in sh.depth
  {
    SlotIsOk(g, st.disk, st.tail, sh, st.cur, k);
    hide Mounted, Find, Named, DirSlots, IsFile, FirstCluster;
  }

  lemma CdTarget(g: Geo, st: State, sh: Shape, name: Name)
    requires Live(g, st, sh)
    ensures StateOk(g, st)
    ensures var o := Cd(g, st, name); o.writes == [] && o.tail == st.tail && o.cur in sh.depth
  {
    hide ChainsOk, ChainsApart, DirOk, DirLbas, FindIn, Buffer, Find, LbasOf, FirstCluster;
    FindAgrees(g, st, sh, Subdir(name));
    match Find(DirSlots(g, st.disk, sh, st.cur), Subdir(name), 0) {
      case None =>
      case Some(k) => SubdirKnown(g, st, sh, name, k);
    }
  }

  lemma CdKeeps(g: Geo, st: State, sh: Shape, name: Name)
    requires Live(g, st, sh)
    ensures StateOk(g, st) && Live(g, After(st, Cd(g, st, name)), sh)
  {
    CdTarget(g, st, sh, name);
    hide Cd, Mounted;
  }

  // ---- all operations

  lemma RemoveWellFormed(g: Geo, st: State, w: Want)
    requires WellFormed(g, st) && !w.Vacant?
    ensures StateOk(g, st) && WellFormed(g, After(st, Remove(g, st, w)))
  {
    hide Find, DirLbas, LbasOf, ChainsOk, ChainsApart, DirOk, Finish, Freed, FatWrites;
    var sh :| Live(g, st, sh);
    FindAgrees(g, st, sh, w);
    match Find(DirSlots(g, st.disk, sh, st.cur), w, 0) {
      case None =>
        assert After(st, Remove(g, st, w)) == st;
      case Some(k) =>
        RemoveKeeps(g, st, sh, w, k);
    }
  }

  lemma WriteAfter(g: Geo, st: State, name: Name, data: seq<Byte>)
    requires StateOk(g, st) && |data| < 0x1_0000_0000
    ensures var st1 := After(st, Delete(g, st, name));
      After(st, WriteFile(g, st, name, data)) == After(st1, Store(g, st1, name, data))
  {
    var del := Delete(g, st, name);
    ApplyAppend(st.disk, del.writes, Store(g, After(st, del), name, data).writes);
  }

  lemma WriteKeeps(g: Geo, st: State, name: Name, data: seq<Byte>)
    requires WellFormed(g, st) && |data| < 0x1_0000_0000
    ensures StateOk(g, st) && WellFormed(g, After(st, WriteFile(g, st, name, data)))
  {
    RemoveWellFormed(g, st, File(name));
    WriteAfter(g, st, name, data);
    var st1 := After(st, Delete(g, st, name));
    hide WriteFile, Store;
    var sh1 :| Live(g, st1, sh1);
    StoreKeeps(g, st1, sh1, name, data);
  }

  lemma RenameWellFormed(g: Geo, st: State, oldName: Name, newName: Name)
    requires WellFormed(g, st)
    ensures StateOk(g, st) && WellFormed(g, After(st, Rename(g, st, oldName, newName)))
  {
    var sh :| Live(g, st, sh);
    FindAgrees(g, st, sh, File(oldName));
    match Find(DirSlots(g, st.disk, sh, st.cur), File(oldName), 0) {
      case None =>
        assert After(st, Rename(g, st, oldName, newName)) == st;
      case Some(k) =>
        RenameKeeps(g, st, sh, oldName, newName, k);
    }
  }

  datatype Op =
    | WriteOp(name: Name, data: seq<Byte>)
    | DeleteOp(name: Name)
    | RenameOp(name: Name, newName: Name)
    | MkdirOp(name: Name)
    | RmdirOp(name: Name)
    | CdOp(name: Name)

  predicate Callable(op: Op) { op.WriteOp? ==> |op.data| < 0x1_0000_0000 }

  function Perform(g: Geo, st: State, op: Op): Outcome
    requires StateOk(g, st) && Callable(op)
  {
    match op
    case WriteOp(name, data) => WriteFile(g, st, name, data)
    case DeleteOp(name) => Delete(g, st, name)
    case RenameOp(name, newName) => Rename(g, st, name, newName)
    case MkdirOp(name) => Mkdir(g, st, name)
    case RmdirOp(name) => Rmdir(g, st, name)
    case CdOp(name) => Cd(g, st, name)
  }

  lemma PerformKeeps(g: Geo, st: State, op: Op)
    requires WellFormed(g, st) && Callable(op)
    requires StateOk(g, st) && (op.MkdirOp? ==> MkdirClear(g, st))
    ensures WellFormed(g, After(st, Perform(g, st, op)))
  {
    hide WriteFile, Remove, Rename, Mkdir, Cd, Mounted, StateOk, MkdirClear;
    match op {
      case WriteOp(name, data) => WriteKeeps(g, st, name, data);
      case DeleteOp(name) => RemoveWellFormed(g, st, File(name));
      case RenameOp(name, newName) => RenameWellFormed(g, st, name, newName);
      case MkdirOp(name) =>
        var sh :| Live(g, st, sh);
        MkdirKeeps(g, st, sh, name);
      case RmdirOp(name) => RemoveWellFormed(g, st, Subdir(name));
      case CdOp(name) =>
        var sh :| Live(g, st, sh);
        CdKeeps(g, st, sh, name);
    }
  }

  /** Runs can begin on every freshly formatted volume, whatever its geometry,
      its free clusters and its table hold. */
  lemma FreshVolume(g: Geo, d: Disk, tail: seq<Byte>)
    requires GeoOk(g) && DiskOk(g, d) && TailOk(g, tail)
    requires OnDevice(d, RootLbas(g)) && forall k | 0 <= k < SLOTS * g.rootSectors :: Slots(d, RootLbas(g))[k][0] == 0
    ensures Live(g, State(d, 0, tail), Shape(map[0 := 0], map[], map[]))
  {
    var sh := Shape(map[0 := 0], map[], map[]);
    var slots := DirSlots(g, d, sh, 0);
    forall k | 0 <= k < |slots|
      ensures slots[k][0] == 0 && SlotOk(g, sh, 0, k, slots[k])
    {
    }
  }

  /** st leads to end by performing ops one after the other. */
  ghost predicate Run(g: Geo, st: State, ops: seq<Op>, end: State)
    decreases |ops|
  {
    if ops == [] then st == end
    else
      && StateOk(g, st) && Callable(ops[0])
      && (ops[0].MkdirOp? ==> MkdirClear(g, st))
      && Run(g, After(st, Perform(g, st, ops[0])), ops[1..], end)
  }

  /** Every state of every run is a well-formed volume, whatever the calls
      return. */
  lemma {:induction false} RunKeeps(g: Geo, st: State, ops: seq<Op>, end: State)
    requires WellFormed(g, st) && Run(g, st, ops, end)
    ensures WellFormed(g, end)
    decreases |ops|
  {
    if ops != [] {
      PerformKeeps(g, st, ops[0]);
      RunKeeps(g, After(st, Perform(g, st, ops[0])), ops[1..], end);
    }
  }

  /** With one sector per cluster nothing is asked of fat_mkdir, so every
      sequence of calls is a run. */
  lemma {:induction false} RunExists(g: Geo, st: State, ops: seq<Op>)
    requires WellFormed(g, st) && g.spc == 1 && forall i | 0 <= i < |ops| :: Callable(ops[i])
    ensures exists end :: Run(g, st, ops, end)
    decreases |ops|
  {
    if ops == [] {
      assert Run(g, st, ops, st);
    } else {
      WellFormedOk(g, st);
      OneSectorClear(g, st);
      PerformKeeps(g, st, ops[0]);
      var next := After(st, Perform(g, st, ops[0]));
      RunExists(g, next, ops[1..]);
      var end :| Run(g, next, ops[1..], end);
      assert Run(g, st, ops, end);
    }
  }
}
