/** The entries that fat_write, fat_mkdir and fat_rename leave in the current
    directory, byte by byte. */
module Entries {
  import opened Bytes
  import opened Names
  import opened FatTable
  import opened Layout
  import opened Directory
  import opened FatSpec
  import opened Formats
  import opened Volume
  import opened Removal
  import opened Allocation
  import opened Subdirectories
  import opened Operations
  import opened Runs
  import opened Reading
  import opened Frame
  import opened RoundTrip
  import opened Renaming
  import opened NewDirectories

  /** A new entry: the stored name, the attribute, zeros, the first cluster and
      the size. */
  predicate EntryIs(sl: Slot, name: Name, attribute: Byte, cluster: nat, size: nat) {
    && sl[..11] == Split83(name) && sl[11] == attribute && (forall j | 12 <= j < 26 :: sl[j] == 0)
    && Number16(sl, 26) == cluster && Number32(sl, 28) == size
  }

  /** The current directory shows entry sl at k, and for the rest what it showed. */
  ghost predicate NewEntry(g: Geo, st: State, sh: Shape, st1: State, k: nat, sl: Slot)
    requires Live(g, st, sh)
  {
    && DirsOnDevice(g, st1.disk, sh) && st1.cur == st.cur && k < |DirSlots(g, st.disk, sh, st.cur)|
    && DirSlots(g, st1.disk, sh, st.cur) == DirSlots(g, st.disk, sh, st.cur)[k := sl]
  }

  /** After the second half of fat_write returned 0: the first vacant slot holds
      the entry of a file without attributes, with the lowest free cluster, or 0
      without data, and the size; and the last cluster has the mark 0xFFF. */
  lemma WrittenEntry(g: Geo, st: State, sh: Shape, name: Name, data: seq<Byte>) returns (k: nat, sl: Slot)
    requires Live(g, st, sh) && StateOk(g, st) && |data| < 0x1_0000_0000 && Store(g, st, name, data).rc == 0
    ensures var st1 := After(st, Store(g, st, name, data)); var ch := AllocOf(g, st, data).chain;
      && Find(DirSlots(g, st.disk, sh, st.cur), Vacant, 0) == Some(k) && StateOk(g, st1)
      && NewEntry(g, st, sh, st1, k, sl)
      && EntryIs(sl, name, 0, if data == [] then 0 else FirstFree(g, TableOf(g, st)), |data|)
      && (data != [] ==> ch != [] && ch[|ch| - 1] < ENTRIES && Get(TableOf(g, st1), ch[|ch| - 1]) == 0xFFF)
  {
    StoreSucceeds(g, st, sh, name, data);
    k := Find(CurrentSlots(g, st, sh), Vacant, 0).value;
    StoredState(g, st, sh, name, data, k);
    var ch := AllocOf(g, st, data).chain;
    sl := FileSlot(name, ch, |data|);
    FirstTaken(g, st, data);
    FileSlotEntry(name, ch, |data|);
    hide Store, AllocChain, Mounted, Find, DirSlots, FileSlot, EntryIs, TableOf, FirstFree, OneSlotChanged, Get;
    var st1, sh1 := After(st, Store(g, st, name, data)), StoredShape(g, st, sh, data, k);
    StoredShapeFacts(g, st, sh, data, k, ch);
    ShownByOld(g, st, sh, st1, sh1, k, sl);
  }

  lemma FileSlotEntry(name: Name, ch: seq<nat>, size: nat)
    requires size < 0x1_0000_0000 && forall i | 0 <= i < |ch| :: ch[i] < 0x1_0000
    ensures EntryIs(FileSlot(name, ch, size), name, 0, if ch == [] then 0 else ch[0], size)
  {
    NewSlotFields(Split83(name), 0, if ch == [] then 0 else ch[0], size);
    hide NewSlot, Split83;
  }

  lemma FirstTaken(g: Geo, st: State, data: seq<Byte>)
    requires StateOk(g, st) && AllocOf(g, st, data).ok
    ensures var ch := AllocOf(g, st, data).chain;
      && (ch == [] <==> data == [])
      && (data != [] ==> ch[0] == FirstFree(g, TableOf(g, st)))
      && (data != [] ==> ch[|ch| - 1] < ENTRIES && Get(AllocOf(g, st, data).table, ch[|ch| - 1]) == 0xFFF)
  {
    hide Get, Linked, SectorWrites, AfterSectors, ClusterStart;
    if data != [] {
      AllocEndMark(g, |st.disk|, TableOf(g, st), 0, data);
    }
  }

  /** The old shape sees the change that a wider one sees. */
  lemma ShownByOld(g: Geo, st: State, sh: Shape, st1: State, sh1: Shape, k: nat, sl: Slot)
    requires Live(g, st, sh) && Live(g, st1, sh1) && OneSlotChanged(g, st, sh, st1, sh1, k, sl) && sh1.depth == sh.depth
    requires forall h | h in sh.chains :: h in sh1.chains && (h in sh.depth ==> sh1.chains[h] == sh.chains[h])
    ensures NewEntry(g, st, sh, st1, k, sl)
  {
    hide ChainLbas, RootLbas, Slots, ShapeOk, DirOk, SameFiles;
    assert forall x | x in sh.depth :: x == 0 || x in sh.chains;
    assert forall x | x in sh.depth :: LbasOf(g, sh1, x) == LbasOf(g, sh, x);
  }

  /** After fat_mkdir returned 0: the first vacant slot holds the entry of a
      directory with the lowest free cluster and size 0, the cluster has the mark
      0xFFF, and its first sector the entries of itself and its parent. */
  lemma MadeEntry(g: Geo, st: State, sh: Shape, name: Name) returns (k: nat, sl: Slot)
    requires Live(g, st, sh) && StateOk(g, st) && Mkdir(g, st, name).rc == 0
    ensures var st1 := After(st, Mkdir(g, st, name)); var c := FirstFree(g, TableOf(g, st));
      && Find(DirSlots(g, st.disk, sh, st.cur), Vacant, 0) == Some(k) && StateOk(g, st1)
      && NewEntry(g, st, sh, st1, k, sl) && EntryIs(sl, name, 0x10, c, 0)
      && 2 <= c < ENTRIES && Get(TableOf(g, st1), c) == 0xFFF
      && ClusterStart(g, c) < |st1.disk| && DotEntries(st1.disk[ClusterStart(g, c)], c, st.cur)
  {
    var c: nat, u: Table;
    c, u, k := MkdirMade(g, st, sh, name);
    sl := DirSlot(name, c);
    MadeDirSlots(g, st, sh, name, c, u, k);
    MadeCur(g, st, sh, name, c, u, k);
    MadeFirst(g, st, sh, name, c, u, k);
    NewSlotFields(Split83(name), 0x10, c, 0);
    TakesFirst(g, st, sh, name, c, u, k);
    hide Mkdir, Find, MadeState, Made, NewSlot, Split83, ShapeOk, DirOk, DirSlots, DotEntries, Get,
      ClusterStart, FirstFree;
  }

  ghost predicate DotEntries(sec: Sector, c: nat, parent: nat) {
    && MakeName(sec[..11]) == [0x2E] && MakeName(sec[32..43]) == [0x2E, 0x2E] && sec[11] == 0x10 && sec[43] == 0x10
    && Number16(sec, 26) == c && Number16(sec, 58) == parent && Number32(sec, 28) == 0 && Number32(sec, 60) == 0
    && (forall j | 12 <= j < 26 || 44 <= j < 58 || 64 <= j < 512 :: sec[j] == 0)
  }

  lemma MadeFirst(g: Geo, st: State, sh: Shape, name: Name, c: nat, u: Table, k: nat)
    requires Made(g, st, sh, name, c, u, k)
    ensures var e := MadeState(g, st, sh, name, c, u, k);
      && StateOk(g, st) && StateOk(g, e) && 2 <= c < ENTRIES && Get(u, c) == 0xFFF && Buffer(g, e.disk, e.tail) == u
      && ClusterStart(g, c) < |e.disk| && DotEntries(e.disk[ClusterStart(g, c)], c, st.cur)
  {
    MadeOnDevice(g, st, sh, name, c, u, k);
    hide MadeState, Find, MkdirMid, DotSector, DirSlots, ShapeOk, DirOk, DotEntries, Get, Set, FirstFree, Joined;
    MadeLength(g, st, sh, name, c, u, k);
    TakesUnused(g, st, c, u);
    MadeDots(c, st.cur);
    MadeSectors(g, st, sh, name, c, u, k, 0);
  }

  lemma MadeOnDevice(g: Geo, st: State, sh: Shape, name: Name, c: nat, u: Table, k: nat)
    requires Made(g, st, sh, name, c, u, k)
    ensures var e := MadeState(g, st, sh, name, c, u, k);
      && StateOk(g, st) && StateOk(g, e) && 2 <= c < ENTRIES && Buffer(g, e.disk, e.tail) == u
      && ClusterLbas(g, c)[0] == ClusterStart(g, c) < |st.disk|
  {
    hide Find, DotSector, DirSlots, ShapeOk, DirOk, Get, Set, FirstFree, Joined, MkdirMid, WithSlot;
    MadeDirSlots(g, st, sh, name, c, u, k);
    MadeLength(g, st, sh, name, c, u, k);
    MidLength(g, st, c, u);
    LiveTailOk(g, MkdirMid(g, st, c, u), sh);
  }

  lemma LiveTailOk(g: Geo, st: State, sh: Shape)
    requires Live(g, st, sh)
    ensures TailOk(g, st.tail)
  {
  }

  lemma MadeDots(c: nat, parent: nat)
    requires c < ENTRIES && parent < ENTRIES
    ensures DotEntries(DotSector(c, parent), c, parent)
  {
    MadeSectorBytes(c, parent);
    hide DotSector, MakeName;
  }

  // ---- fat_rename

  /** fat_rename returns 0 exactly if the old name is found, and then changes
      nothing in the directory but the eleven bytes of its name. */
  lemma RenamedEntry(g: Geo, st: State, sh: Shape, oldName: Name, newName: Name)
    requires Live(g, st, sh) && StateOk(g, st)
    ensures var o := Rename(g, st, oldName, newName); var slots := CurrentSlots(g, st, sh);
      match Find(slots, File(oldName), 0)
      case None => o.rc == -1 && After(st, o) == st
      case Some(k) => o.rc == 0 && NewEntry(g, st, sh, After(st, o), k, Renamed(slots[k], newName))
  {
    hide Mounted, Find, DirSlots, Renamed, FindIn, DirLbas, TableOf, SameFiles;
    FindAgrees(g, st, sh, File(oldName));
    match Find(CurrentSlots(g, st, sh), File(oldName), 0) {
      case None =>
      case Some(k) =>
        RenameOutcome(g, st, sh, oldName, newName, k);
        RenameChanges(g, st, sh, oldName, newName, k);
    }
  }
}
