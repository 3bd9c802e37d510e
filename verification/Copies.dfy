/** The FAT copies: no operation needs them to agree, none makes them differ,
    and every one that saves the table makes them agree again. */
module Copies {
  import opened Bytes
  import opened Names
  import opened FatTable
  import opened Layout
  import opened Directory
  import opened FatSpec
  import opened Volume
  import opened Removal
  import opened Allocation
  import opened Addition
  import opened Operations
  import opened Runs

  predicate BehindFat(g: Geo, ws: seq<Write>) { forall w | w in ws :: w.lba >= RootStart(g) }

  predicate SavesAs(g: Geo, ws: seq<Write>, pre: seq<Write>, u: Table, post: seq<Write>)
    requires GeoOk(g)
  {
    ws == pre + FatWrites(g, u, 0) + post && BehindFat(g, post)
  }

  /** The writes contain a complete save with nothing in the FATs after it. */
  ghost predicate Saves(g: Geo, ws: seq<Write>)
    requires GeoOk(g)
  {
    exists pre, u, post :: SavesAs(g, ws, pre, u, post)
  }

  lemma SavesAgree(g: Geo, d: Disk, ws: seq<Write>)
    requires GeoOk(g) && RootStart(g) <= |d| && Saves(g, ws)
    ensures CopiesAgree(g, Apply(d, ws))
  {
    var pre, u, post :| SavesAs(g, ws, pre, u, post);
    hide FatWrites, CopiesAgree, Apply;
    ApplyAppend(d, pre + FatWrites(g, u, 0), post);
    ApplyAppend(d, pre, FatWrites(g, u, 0));
    SaveTable(g, Apply(d, pre), u);
    HighWritesTable(g, Apply(d, pre + FatWrites(g, u, 0)), post);
  }

  /** What the writes of an operation that returned rc do to the copies. */
  ghost predicate CopiesSafe(g: Geo, rc: int, ws: seq<Write>)
    requires GeoOk(g)
  {
    Saves(g, ws) || (rc != 0 && BehindFat(g, ws))
  }

  lemma SafeAgree(g: Geo, d: Disk, rc: int, ws: seq<Write>)
    requires GeoOk(g) && RootStart(g) <= |d| && CopiesSafe(g, rc, ws)
    ensures CopiesAgree(g, d) || rc == 0 ==> CopiesAgree(g, Apply(d, ws))
  {
    hide CopiesAgree, Saves;
    if Saves(g, ws) {
      SavesAgree(g, d, ws);
    } else {
      HighWritesTable(g, d, ws);
    }
  }

  lemma SlotWriteBehind(g: Geo, d: Disk, t: Table, sh: Shape, x: nat, k: nat, sl: Slot)
    requires GeoOk(g) && ShapeOk(g, t, sh) && DirsOnDevice(g, d, sh) && x in sh.depth && k < |DirSlots(g, d, sh, x)|
    ensures BehindFat(g, [SlotWrite(d, LbasOf(g, sh, x), k, sl)])
  {
    LbasAfterFat(g, t, sh, x, k / SLOTS);
    hide LbasOf, PutSlot, DirSlots, Slots;
  }

  lemma CurrentWriteBehind(g: Geo, st: State, sh: Shape, k: nat, sl: Slot)
    requires Live(g, st, sh) && k < |DirSlots(g, st.disk, sh, st.cur)|
    ensures k < SLOTS * |LbasOf(g, sh, st.cur)| && OnDevice(st.disk, LbasOf(g, sh, st.cur))
    ensures BehindFat(g, [SlotWrite(st.disk, LbasOf(g, sh, st.cur), k, sl)])
  {
    hide ChainsApart, DirOk, IsChain, BehindFat, Joined, SlotWrite;
    SlotWriteBehind(g, st.disk, Buffer(g, st.disk, st.tail), sh, st.cur, k, sl);
  }

  lemma SavedThen(g: Geo, pre: seq<Write>, u: Table, post: seq<Write>)
    requires GeoOk(g) && BehindFat(g, post)
    ensures Saves(g, pre + FatWrites(g, u, 0) + post)
  {
    assert SavesAs(g, pre + FatWrites(g, u, 0) + post, pre, u, post);
  }

  lemma SavedFirst(g: Geo, u: Table, post: seq<Write>)
    requires GeoOk(g) && BehindFat(g, post)
    ensures Saves(g, FatWrites(g, u, 0) + post) && Saves(g, FatWrites(g, u, 0))
  {
    hide Saves, FatWrites;
    var ws := FatWrites(g, u, 0);
    SavedThen(g, [], u, post);
    SavedThen(g, [], u, []);
    assert [] + ws + post == ws + post && [] + ws + [] == ws;
  }

  // ---- the operations

  lemma RemoveSafe(g: Geo, st: State, sh: Shape, w: Want)
    requires Live(g, st, sh) && StateOk(g, st) && !w.Vacant?
    ensures CopiesSafe(g, Remove(g, st, w).rc, Remove(g, st, w).writes)
  {
    hide Word, FileSize, Slots, Joined, Get, ChainsApart, DirOk, IsChain, Find, Saves, FatWrites, Freed, FirstCluster,
      SlotWrite, LbasOf, DirLbas, Named;
    FindAgrees(g, st, sh, w);
    match Find(DirSlots(g, st.disk, sh, st.cur), w, 0) {
      case None =>
      case Some(k) =>
        var sl := DirSlots(g, st.disk, sh, st.cur)[k];
        RemoveOutcome(g, st, sh, w, k);
        SlotWriteBehind(g, st.disk, TableOf(g, st), sh, st.cur, k, Marked(sl));
        SavedFirst(g, Freed(TableOf(g, st), FirstCluster(sl)),
          [SlotWrite(st.disk, LbasOf(g, sh, st.cur), k, Marked(sl))]);
    }
  }

  lemma AllocBehind(g: Geo, st: State, data: seq<Byte>)
    requires StateOk(g, st)
    ensures BehindFat(g, AllocOf(g, st, data).writes)
  {
    var r := AllocOf(g, st, data);
    AllocWritesFree(g, |st.disk|, TableOf(g, st), 0, data);
    hide AllocOf, InFree;
    forall w | w in r.writes
      ensures w.lba >= RootStart(g)
    {
      FreeSectorInData(g, TableOf(g, st), w.lba);
    }
  }

  lemma FailedStoreIs(g: Geo, st: State, name: Name, data: seq<Byte>)
    requires StateOk(g, st) && |data| < 0x1_0000_0000 && !AllocOf(g, st, data).ok
    ensures Store(g, st, name, data).rc == -1 && Store(g, st, name, data).writes == AllocOf(g, st, data).writes
  {
  }

  lemma StoreSafe(g: Geo, st: State, sh: Shape, name: Name, data: seq<Byte>)
    requires Live(g, st, sh) && StateOk(g, st) && |data| < 0x1_0000_0000
    ensures CopiesSafe(g, Store(g, st, name, data).rc, Store(g, st, name, data).writes)
  {
    hide AllocChain, AllocOf, StoreMid, StoreShape, FileSlot, SlotOk, DirSlots, Find, Mounted, Store, FatWrites, Saves,
      LbasOf;
    var r := AllocOf(g, st, data);
    if !r.ok {
      FailedStoreIs(g, st, name, data);
      AllocBehind(g, st, data);
    } else {
      FileSlotFits(g, st, sh, name, data, 0);
      StoreOutcome(g, st, sh, name, data);
      StoredSafe(g, st, sh, name, data, FileSlot(name, r.chain, |data|));
    }
  }

  lemma StoredSafe(g: Geo, st: State, sh: Shape, name: Name, data: seq<Byte>, sl: Slot)
    requires Live(g, st, sh) && StateOk(g, st) && AllocOf(g, st, data).ok
    ensures var r := AllocOf(g, st, data); var m := StoreMid(g, st, data); var sh1 := StoreShape(g, st, sh, data);
      && Live(g, m, sh1) && Saves(g, r.writes + FatWrites(g, r.table, 0))
      && forall k | 0 <= k < |DirSlots(g, m.disk, sh1, st.cur)| ::
        Saves(g, r.writes + FatWrites(g, r.table, 0) + [SlotWrite(m.disk, LbasOf(g, sh1, st.cur), k, sl)])
  {
    StoreMidKeeps(g, st, sh, data);
    hide AllocOf, StoreMid, StoreShape, FatWrites, Saves, LbasOf, SlotWrite, DirSlots;
    var r, m, sh1 := AllocOf(g, st, data), StoreMid(g, st, data), StoreShape(g, st, sh, data);
    SavedThen(g, r.writes, r.table, []);
    assert r.writes + FatWrites(g, r.table, 0) + [] == r.writes + FatWrites(g, r.table, 0);
    forall k | 0 <= k < |DirSlots(g, m.disk, sh1, st.cur)|
      ensures Saves(g, r.writes + FatWrites(g, r.table, 0) + [SlotWrite(m.disk, LbasOf(g, sh1, st.cur), k, sl)])
    {
      SlotWriteBehind(g, m.disk, TableOf(g, m), sh1, st.cur, k, sl);
      SavedThen(g, r.writes, r.table, [SlotWrite(m.disk, LbasOf(g, sh1, st.cur), k, sl)]);
    }
  }

  lemma MkdirSafe(g: Geo, st: State, sh: Shape, name: Name)
    requires Live(g, st, sh) && StateOk(g, st)
    ensures CopiesSafe(g, Mkdir(g, st, name).rc, Mkdir(g, st, name).writes)
  {
    hide Mkdir, Mounted, Set, FatWrites, Saves, AddSlot, MkdirWrites, NewSlot, Split83;
    var t, c := TableOf(g, st), FirstFree(g, TableOf(g, st));
    MkdirIs(g, st, name);
    if c != 0 {
      var u := Set(t, c, END_MARK);
      SavedFirst(g, u, []);
      if ClusterStart(g, c) < |st.disk| {
        OnDeviceBelowLimit(g, |st.disk|, c);
        TakenSafe(g, st, sh, c, u, name);
      }
    }
  }

  lemma MkdirWritesSaved(g: Geo, st: State, c: nat, u: Table, post: seq<Write>)
    requires StateOk(g, st) && c < ENTRIES && BehindFat(g, post)
    ensures Saves(g, MkdirWrites(g, st, c, u) + post) && Saves(g, MkdirWrites(g, st, c, u))
  {
    hide Saves, FatWrites, DotSector;
    var fw, w := FatWrites(g, u, 0), Write(ClusterStart(g, c), DotSector(c, st.cur));
    ClusterAfterRoot(g, c);
    SavedFirst(g, u, [w] + post);
    SavedFirst(g, u, [w]);
    assert fw + [w] + post == fw + ([w] + post);
  }

  lemma TakenSafe(g: Geo, st: State, sh: Shape, c: nat, u: Table, name: Name)
    requires Live(g, st, sh) && Takes(g, st, c, u)
    ensures Saves(g, Mkdir(g, st, name).writes)
  {
    hide Mkdir, ChainsApart, DirOk, IsChain, Joined, FatWrites, Saves, MkdirWrites, NewSlot, Split83, Takes, Untouched,
      SameSlots, LbasOf, PutSlot, Slots;
    MkdirMidKeeps(g, st, sh, c, u);
    MkdirOutcome(g, st, sh, c, u, name);
    TakesStateOk(g, st, c, u);
    MkdirWritesSaved(g, st, c, u, []);
    var m := MkdirMid(g, st, c, u);
    match Find(DirSlots(g, m.disk, sh, st.cur), Vacant, 0) {
      case None =>
      case Some(k) =>
        CurrentWriteBehind(g, m, sh, k, NewSlot(Split83(name), 0x10, c, 0));
        var w := SlotWrite(m.disk, LbasOf(g, sh, st.cur), k, NewSlot(Split83(name), 0x10, c, 0));
        MkdirWritesSaved(g, st, c, u, [w]);
    }
  }

  lemma RenameBehind(g: Geo, st: State, sh: Shape, oldName: Name, newName: Name)
    requires Live(g, st, sh) && StateOk(g, st)
    ensures BehindFat(g, Rename(g, st, oldName, newName).writes)
  {
    hide Word, FileSize, Slots, Joined, Get, ChainsApart, DirOk, IsChain, Find, LbasOf, PutSlot;
    FindAgrees(g, st, sh, File(oldName));
    match Find(DirSlots(g, st.disk, sh, st.cur), File(oldName), 0) {
      case None =>
      case Some(k) =>
        RenameFound(g, st, sh, oldName, newName, k);
        SlotWriteBehind(g, st.disk, TableOf(g, st), sh, st.cur, k,
          Renamed(DirSlots(g, st.disk, sh, st.cur)[k], newName));
    }
  }

  lemma WriteAgrees(g: Geo, st: State, sh: Shape, name: Name, data: seq<Byte>)
    requires Live(g, st, sh) && StateOk(g, st) && |data| < 0x1_0000_0000
    ensures var o := WriteFile(g, st, name, data);
      CopiesAgree(g, st.disk) || o.rc == 0 ==> CopiesAgree(g, After(st, o).disk)
  {
    hide WriteFile, Store, Remove, CopiesAgree, Mounted, CopiesSafe;
    var st1 := After(st, Delete(g, st, name));
    assert WellFormed(g, st);
    RemoveWellFormed(g, st, File(name));
    var sh1 :| Live(g, st1, sh1);
    LiveStateOk(g, st1, sh1);
    RemoveSafe(g, st, sh, File(name));
    StoreSafe(g, st1, sh1, name, data);
    SafeAgree(g, st.disk, Delete(g, st, name).rc, Delete(g, st, name).writes);
    SafeAgree(g, st1.disk, Store(g, st1, name, data).rc, Store(g, st1, name, data).writes);
    WriteAfter(g, st, name, data);
    WriteResult(g, st, name, data);
  }

  lemma WriteResult(g: Geo, st: State, name: Name, data: seq<Byte>)
    requires StateOk(g, st) && |data| < 0x1_0000_0000
    ensures var st1 := After(st, Delete(g, st, name)); WriteFile(g, st, name, data).rc == Store(g, st1, name, data).rc
  {
    hide Store, Remove;
  }

  /** The operations that save the table. */
  predicate SavesTable(op: Op) { !op.RenameOp? && !op.CdOp? }

  /** Copies that agree go on agreeing, whatever a call returns; after a call
      that saves the table and returns 0 they agree whatever they were before. */
  lemma PerformCopies(g: Geo, st: State, op: Op)
    requires WellFormed(g, st) && StateOk(g, st) && Callable(op)
    ensures var o := Perform(g, st, op);
      CopiesAgree(g, st.disk) || (SavesTable(op) && o.rc == 0) ==> CopiesAgree(g, After(st, o).disk)
  {
    hide WriteFile, Remove, Rename, Mkdir, Cd, CopiesAgree, CopiesSafe, Live, Apply;
    var sh :| Live(g, st, sh);
    var o := Perform(g, st, op);
    match op {
      case WriteOp(name, data) => WriteAgrees(g, st, sh, name, data);
      case DeleteOp(name) =>
        RemoveSafe(g, st, sh, File(name));
        SafeAgree(g, st.disk, o.rc, o.writes);
      case RenameOp(name, newName) =>
        RenameBehind(g, st, sh, name, newName);
        HighWritesTable(g, st.disk, o.writes);
      case MkdirOp(name) =>
        MkdirSafe(g, st, sh, name);
        SafeAgree(g, st.disk, o.rc, o.writes);
      case RmdirOp(name) =>
        RemoveSafe(g, st, sh, Subdir(name));
        SafeAgree(g, st.disk, o.rc, o.writes);
      case CdOp(name) =>
        CdTarget(g, st, sh, name);
        HighWritesTable(g, st.disk, []);
    }
  }

  /** In every run the copies agree at the end if they agreed at the beginning. */
  lemma {:induction false} RunCopies(g: Geo, st: State, ops: seq<Op>, end: State)
    requires WellFormed(g, st) && Run(g, st, ops, end) && CopiesAgree(g, st.disk)
    ensures CopiesAgree(g, end.disk)
    decreases |ops|
  {
    hide CopiesAgree, Perform, WellFormed, After, StateOk;
    if ops != [] {
      PerformCopies(g, st, ops[0]);
      PerformKeeps(g, st, ops[0]);
      RunCopies(g, After(st, Perform(g, st, ops[0])), ops[1..], end);
    }
  }
}
