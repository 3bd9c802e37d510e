/** fat_write then fat_read, fat_write then fat_delete, fat_rename. */
module RoundTrip {
  import opened Bytes
  import opened Names
  import opened FatTable
  import opened Layout
  import opened Directory
  import opened FatSpec
  import opened Volume
  import opened Removal
  import opened Allocation
  import opened Addition
  import opened Operations
  import opened Runs
  import opened Reading
  import opened WriteRead
  import opened Frame

  /** A name that is found again: it fits 8.3 and its first byte does not read
      as a deleted slot. */
  predicate Findable(name: Name) { Fits83(name) && Split83(name)[0] != DELETED }

  lemma PlainJudged(sl: Slot, name: Name)
    requires sl[0] != 0 && sl[11] == 0
    ensures Judge(sl, File(name)) == (if sl[0] != DELETED && Named(sl, name) then Hit else Skip)
    ensures Judge(sl, Subdir(name)) == Skip
  {
    hide Named;
  }

  lemma NewSlotJudged(name: Name, ch: seq<nat>, size: nat)
    requires size < 0x1_0000_0000 && forall i | 0 <= i < |ch| :: ch[i] < 0x1_0000
    ensures Judge(FileSlot(name, ch, size), File(name)) == if Findable(name) then Hit else Skip
    ensures Judge(FileSlot(name, ch, size), Subdir(name)) == Skip
  {
    FileSlotCluster(name, ch, size);
    SplitFirst(name);
    StoredMatches(name);
    PlainJudged(FileSlot(name, ch, size), name);
    hide FileSlot, Split83, MakeName, Fits83, EqNoCase, Judge;
  }

  lemma StoreSucceeds(g: Geo, st: State, sh: Shape, name: Name, data: seq<Byte>)
    requires Live(g, st, sh) && StateOk(g, st) && |data| < 0x1_0000_0000
    ensures Store(g, st, name, data).rc == 0 <==>
      AllocOf(g, st, data).ok && Find(DirSlots(g, st.disk, sh, st.cur), Vacant, 0).Some?
  {
    hide Store, Live, AllocOf, DirSlots, Find;
    if AllocOf(g, st, data).ok && Find(CurrentSlots(g, st, sh), Vacant, 0).Some? {
      FileSlotFits(g, st, sh, name, data, 0);
      StoreDone(g, st, sh, name, data, Find(CurrentSlots(g, st, sh), Vacant, 0).value);
    } else {
      StoreUnfinished(g, st, sh, name, data);
    }
  }

  /** The state of the volume after a successful store. */
  lemma StoredState(g: Geo, st: State, sh: Shape, name: Name, data: seq<Byte>, k: nat)
    requires Live(g, st, sh) && StateOk(g, st) && AllocOf(g, st, data).ok && |data| < 0x1_0000_0000
    requires Find(DirSlots(g, st.disk, sh, st.cur), Vacant, 0) == Some(k)
    ensures var ch := AllocOf(g, st, data).chain;
      && (forall i | 0 <= i < |ch| :: ch[i] < 0x1_0000)
      && var st1 := After(st, Store(g, st, name, data)); var sh1 := StoredShape(g, st, sh, data, k);
      && Live(g, st1, sh1) && StateOk(g, st1) && TableOf(g, st1) == AllocOf(g, st, data).table && st1.cur == st.cur
      && OneSlotChanged(g, st, sh, st1, sh1, k, FileSlot(name, ch, |data|))
  {
    FileSlotFits(g, st, sh, name, data, k);
    StoreDoneKeeps(g, st, sh, name, data, k);
    StoreDone(g, st, sh, name, data, k);
    StoredSlots(g, st, sh, name, data, k);
    StoreMidKeeps(g, st, sh, data);
    StoreChanges(g, st, sh, name, data, k);
    var st1 := After(st, Store(g, st, name, data));
    LiveStateOk(g, st1, StoredShape(g, st, sh, data, k));
    SameButOwner(g, st, sh, st1, StoreShape(g, st, sh, data), StoredShape(g, st, sh, data, k).owner, k,
      FileSlot(name, AllocOf(g, st, data).chain, |data|));
    hide Store, AllocOf, Mounted, DirSlots, Find, OneSlotChanged, SlotOk, FileSlot, Untouched, SameSlots;
  }

  lemma StoredRead(g: Geo, st: State, sh: Shape, name: Name, data: seq<Byte>, k: nat, cap: nat)
    requires Live(g, st, sh) && StateOk(g, st) && AllocOf(g, st, data).ok && |data| < 0x1_0000_0000
    requires Find(DirSlots(g, st.disk, sh, st.cur), Vacant, 0) == Some(k)
    requires forall i | 0 <= i < |AllocOf(g, st, data).chain| :: AllocOf(g, st, data).chain[i] < 0x1_0000
    ensures var sl := FileSlot(name, AllocOf(g, st, data).chain, |data|);
      ReadSlot(g, After(st, Store(g, st, name, data)).disk, AllocOf(g, st, data).table, sl, cap) ==
        Read(Take(data, cap))
  {
    hide Store, FileSlot, DirSlots, Find, Live, AllFree, KeepsUsed, AllUnused, AllocChain, IsChain, FirstCluster,
      FileSize;
    var r := AllocOf(g, st, data);
    var e := After(st, Store(g, st, name, data)).disk;
    FileSlotCluster(name, r.chain, |data|);
    AllocFacts(g, st, data);
    hide AllocOf;
    if data != [] {
      StoredHolds(g, st, sh, name, data, k);
      StoredChain(g, st, data);
      ReadHeld(g, e, r.table, r, |st.disk|, data, cap);
    }
  }

  /** No slot before the one that will be filled is wanted by a search for name. */
  predicate Fresh(slots: seq<Slot>, name: Name) {
    var r := Find(slots, Vacant, 0);
    forall x | 0 <= x < |slots| && (r.Some? ==> x < r.value) :: Judge(slots[x], File(name)) != Hit
  }

  lemma FreshSkips(slots: seq<Slot>, name: Name, k: nat)
    requires Fresh(slots, name) && Find(slots, Vacant, 0) == Some(k)
    ensures forall x | 0 <= x < k :: Judge(slots[x], File(name)) == Skip
  {
    forall x | 0 <= x < k
      ensures Judge(slots[x], File(name)) == Skip
    {
      assert Judge(slots[x], Vacant) == Skip;
    }
  }

  /** After a successful store, reading the name gives the data cut to the
      buffer if the name is findable, and what it gave before if it is not. */
  lemma StoreThenRead(g: Geo, st: State, sh: Shape, name: Name, data: seq<Byte>, cap: nat)
    requires Live(g, st, sh) && StateOk(g, st) && |data| < 0x1_0000_0000 && Store(g, st, name, data).rc == 0
    requires Fresh(DirSlots(g, st.disk, sh, st.cur), name)
    ensures var st1 := After(st, Store(g, st, name, data));
      StateOk(g, st1) &&
      ReadFile(g, st1, name, cap) == if Findable(name) then Read(Take(data, cap)) else ReadFile(g, st, name, cap)
  {
    StoreSucceeds(g, st, sh, name, data);
    var k := Find(DirSlots(g, st.disk, sh, st.cur), Vacant, 0).value;
    StoredState(g, st, sh, name, data, k);
    NewSlotJudged(name, AllocOf(g, st, data).chain, |data|);
    hide Store, AllocOf, AllocChain, Mounted, ReadFile, FileSlot, Findable, StoredShape;
    if Findable(name) {
      FoundStored(g, st, sh, name, data, k, cap);
    } else {
      StoreFrameSelf(g, st, sh, name, data, k, cap);
    }
  }

  lemma FoundStored(g: Geo, st: State, sh: Shape, name: Name, data: seq<Byte>, k: nat, cap: nat)
    requires Live(g, st, sh) && StateOk(g, st) && AllocOf(g, st, data).ok && |data| < 0x1_0000_0000 && Findable(name)
    requires Find(DirSlots(g, st.disk, sh, st.cur), Vacant, 0) == Some(k)
      && Fresh(DirSlots(g, st.disk, sh, st.cur), name)
    ensures var st1 := After(st, Store(g, st, name, data));
      StateOk(g, st1) && ReadFile(g, st1, name, cap) == Read(Take(data, cap))
  {
    StoredState(g, st, sh, name, data, k);
    StoredRead(g, st, sh, name, data, k, cap);
    var st1, sh1 := After(st, Store(g, st, name, data)), StoredShape(g, st, sh, data, k);
    NewSlotJudged(name, AllocOf(g, st, data).chain, |data|);
    FreshSkips(DirSlots(g, st.disk, sh, st.cur), name, k);
    FindShifted(DirSlots(g, st.disk, sh, st.cur), k, FileSlot(name, AllocOf(g, st, data).chain, |data|), File(name), 0);
    hide Store, AllocOf, AllocChain, Mounted, ReadFile, ReadSlot, FileSlot, Findable, Fresh, Find, Judge, DirSlots,
      SameFiles, StoredShape;
    ReadAgrees(g, st1, sh1, name, cap);
  }

  lemma UnfindableUnwanted(name: Name, ch: seq<nat>, size: nat, before: Slot)
    requires size < 0x1_0000_0000 && forall i | 0 <= i < |ch| :: ch[i] < 0x1_0000
    requires Judge(before, Vacant) == Hit && !Findable(name)
    ensures Unwanted(before, FileSlot(name, ch, size), name)
  {
    NewSlotJudged(name, ch, size);
    hide FileSlot, Split83, MakeName, Findable, Named;
  }

  lemma StoreFrameSelf(g: Geo, st: State, sh: Shape, name: Name, data: seq<Byte>, k: nat, cap: nat)
    requires Live(g, st, sh) && StateOk(g, st) && AllocOf(g, st, data).ok && |data| < 0x1_0000_0000 && !Findable(name)
    requires Find(DirSlots(g, st.disk, sh, st.cur), Vacant, 0) == Some(k)
    ensures var st1 := After(st, Store(g, st, name, data));
      StateOk(g, st1) && ReadFile(g, st1, name, cap) == ReadFile(g, st, name, cap)
  {
    StoredState(g, st, sh, name, data, k);
    StoreMidKeeps(g, st, sh, data);
    FileSlotFits(g, st, sh, name, data, k);
    var ch := AllocOf(g, st, data).chain;
    var st1, sh1 := After(st, Store(g, st, name, data)), StoredShape(g, st, sh, data, k);
    UnfindableUnwanted(name, ch, |data|, DirSlots(g, st.disk, sh, st.cur)[k]);
    StoredOthersKept(g, st, sh, sh1, k);
    assert In(st, st.cur) == st && In(st1, st.cur) == st1;
    hide Store, AllocOf, AllocChain, Mounted, ReadFile, FileSlot, Findable, Find, DirSlots, OneSlotChanged, OthersKept,
      Unwanted, SlotOk, StoreMid, StoredShape, Untouched, SameSlots;
    ViewElsewhere(g, st, sh, st1, sh1, k, FileSlot(name, ch, |data|), st.cur, name, cap);
  }

  // ---- the whole of fat_write

  lemma NewNameFresh(slots: seq<Slot>, name: Name)
    requires ZeroTail(slots) && Find(slots, File(name), 0).None?
    ensures Fresh(slots, name)
  {
    forall x | 0 <= x < |slots|
      ensures Judge(slots[x], File(name)) != Hit
    {
      FindNone(slots, File(name), 0, x);
    }
  }

  lemma {:induction false} FindAtMost(slots: seq<Slot>, w: Want, from: nat, k: nat)
    requires from <= k < |slots| && Judge(slots[k], w) == Hit
    requires forall x | from <= x < k :: Judge(slots[x], w) != Stop
    ensures Find(slots, w, from).Some? && Find(slots, w, from).value <= k
    decreases k - from
  {
    if from < k && Judge(slots[from], w) != Hit {
      FindAtMost(slots, w, from + 1, k);
    }
  }

  /** The freed slot is vacant, so the new slot comes no later and before any
      duplicate of the name. */
  lemma MarkedFresh(slots: seq<Slot>, name: Name, k: nat)
    requires Find(slots, File(name), 0) == Some(k)
    ensures Fresh(slots[k := Marked(slots[k])], name)
  {
    var upd := slots[k := Marked(slots[k])];
    FindAtMost(upd, Vacant, 0, k);
    var r := Find(upd, Vacant, 0).value;
    forall x | 0 <= x < |upd| && x < r
      ensures Judge(upd[x], File(name)) != Hit
    {
      assert upd[x] == slots[x] && Judge(slots[x], File(name)) == Skip;
    }
  }

  lemma DeletedFresh(g: Geo, st: State, sh: Shape, name: Name, k: nat)
    requires Live(g, st, sh) && Find(DirSlots(g, st.disk, sh, st.cur), File(name), 0) == Some(k)
    ensures StateOk(g, st)
    ensures var sh1 := RemovedShape(sh, FirstCluster(DirSlots(g, st.disk, sh, st.cur)[k]));
      var st1 := After(st, Delete(g, st, name));
      Live(g, st1, sh1) && StateOk(g, st1) && Fresh(DirSlots(g, st1.disk, sh1, st1.cur), name)
  {
    assert IsFile(DirSlots(g, st.disk, sh, st.cur)[k]);
    hide Mounted, Remove, Find, DirSlots, SameFiles, Fresh, Judge;
    RemoveKeeps(g, st, sh, File(name), k);
    RemoveChanges(g, st, sh, File(name), k);
    MarkedFresh(DirSlots(g, st.disk, sh, st.cur), name, k);
    LiveStateOk(g, After(st, Delete(g, st, name)), RemovedShape(sh, FirstCluster(DirSlots(g, st.disk, sh, st.cur)[k])));
  }

  lemma CurrentZeroTail(g: Geo, st: State, sh: Shape)
    requires Live(g, st, sh)
    ensures ZeroTail(DirSlots(g, st.disk, sh, st.cur))
  {
    assert DirOk(g, sh, st.cur, DirSlots(g, st.disk, sh, st.cur));
  }

  /** After fat_write returned 0, for a new name or an existing one, for every
      size and every buffer, fat_read of the same name gives the data, cut to
      the buffer, if the name is findable. If it is not, the name gives what it
      gave once its old file was deleted. */
  lemma WriteThenRead(g: Geo, st: State, sh: Shape, name: Name, data: seq<Byte>, cap: nat)
    requires Live(g, st, sh) && StateOk(g, st) && |data| < 0x1_0000_0000 && WriteFile(g, st, name, data).rc == 0
    ensures var st1 := After(st, WriteFile(g, st, name, data)); var del := After(st, Delete(g, st, name));
      && StateOk(g, st1) && StateOk(g, del)
      && ReadFile(g, st1, name, cap) == (if Findable(name) then Read(Take(data, cap)) else ReadFile(g, del, name, cap))
      && (ReadFile(g, del, name, cap).NotRead? ==>
        (ReadFile(g, st1, name, cap) == Read(Take(data, cap)) <==> Findable(name)))
  {
    WriteAfter(g, st, name, data);
    var del := After(st, Delete(g, st, name));
    hide Store, Mounted, ReadFile, Findable, Fresh, Find, Remove, DirSlots;
    match Find(CurrentSlots(g, st, sh), File(name), 0) {
      case None =>
        CurrentZeroTail(g, st, sh);
        NewNameFresh(CurrentSlots(g, st, sh), name);
        WriteOfNewNameState(g, st, sh, name);
        StoreThenRead(g, st, sh, name, data, cap);
      case Some(k) =>
        DeletedFresh(g, st, sh, name, k);
        StoreThenRead(g, del, RemovedShape(sh, FirstCluster(CurrentSlots(g, st, sh)[k])), name, data, cap);
    }
  }

  // ---- deleting what was written

  /** Clearing the entries of a chain that was allocated from free ones gives
      back the table, byte for byte. */
  lemma UndoneTable(g: Geo, st: State, data: seq<Byte>)
    requires StateOk(g, st) && AllocOf(g, st, data).ok
    ensures var r := AllocOf(g, st, data);
      Freed(r.table, if r.chain == [] then 0 else r.chain[0]) == TableOf(g, st)
  {
    var r, t := AllocOf(g, st, data), TableOf(g, st);
    AllocTable(g, |st.disk|, t, 0, data);
    if data != [] {
      FreedChain(r.table, r.chain, Limit(g));
      var u := Freed(r.table, r.chain[0]);
      hide Get, Freed, AllocChain, TableOf, IsChain, Link;
      forall c | 0 <= c < ENTRIES
        ensures Get(u, c) == Get(t, c)
      {
        if c in r.chain {
          var i :| 0 <= i < |r.chain| && r.chain[i] == c;
        }
      }
      SameEntries(u, t);
    }
  }

  lemma FoundAfterStore(g: Geo, st: State, sh: Shape, name: Name, data: seq<Byte>, k: nat)
    requires Live(g, st, sh) && StateOk(g, st) && AllocOf(g, st, data).ok && |data| < 0x1_0000_0000 && Findable(name)
    requires Find(DirSlots(g, st.disk, sh, st.cur), Vacant, 0) == Some(k)
      && Fresh(DirSlots(g, st.disk, sh, st.cur), name)
    ensures var st1 := After(st, Store(g, st, name, data)); var sh1 := StoredShape(g, st, sh, data, k);
      Removable(g, st1, sh1, k) && Find(DirSlots(g, st1.disk, sh1, st1.cur), File(name), 0) == Some(k)
  {
    StoredState(g, st, sh, name, data, k);
    NewSlotJudged(name, AllocOf(g, st, data).chain, |data|);
    var sl := FileSlot(name, AllocOf(g, st, data).chain, |data|);
    assert IsFile(sl);
    FreshSkips(DirSlots(g, st.disk, sh, st.cur), name, k);
    hide Store, AllocOf, AllocChain, Mounted, FileSlot, Findable, Fresh, Find, Judge, DirSlots, SameFiles, StoredShape,
      IsFile;
    FindShifted(DirSlots(g, st.disk, sh, st.cur), k, sl, File(name), 0);
  }

  lemma SlotChangedTwice(g: Geo, st: State, sh: Shape, st1: State, sh1: Shape, st2: State, sh2: Shape, k: nat, sl: Slot,
      sl2: Slot)
    requires OneSlotChanged(g, st, sh, st1, sh1, k, sl) && OneSlotChanged(g, st1, sh1, st2, sh2, k, sl2)
    requires sh1.depth == sh.depth && sh2.depth == sh.depth && sh2.chains == sh.chains
    requires forall h | h in sh.chains :: h in sh1.chains
    ensures OneSlotChanged(g, st, sh, st2, sh2, k, sl2)
  {
    hide Slots, ChainLbas, RootLbas;
    var a := DirSlots(g, st.disk, sh, st.cur);
    var b: seq<Slot> := a[k := sl];
    assert b[k := sl2] == a[k := sl2];
  }

  ghost predicate VacantSlotChanged(g: Geo, st: State, sh: Shape, st1: State) {
    exists k: nat, sl: Slot ::
      && OneSlotChanged(g, st, sh, st1, sh, k, sl)
      && !IsLive(sl) && Judge(DirSlots(g, st.disk, sh, st.cur)[k], Vacant) == Hit
  }

  /** The table is back byte for byte, in every copy, and only a vacant slot
      has changed, into a vacant one. */
  ghost predicate Undone(g: Geo, st: State, sh: Shape, st1: State) {
    && StateOk(g, st) && StateOk(g, st1) && TableOf(g, st1) == TableOf(g, st) && CopiesAgree(g, st1.disk)
    && VacantSlotChanged(g, st, sh, st1)
  }

  lemma RemoveTable(g: Geo, st: State, sh: Shape, w: Want, k: nat)
    requires Removable(g, st, sh, k) && Find(DirSlots(g, st.disk, sh, st.cur), w, 0) == Some(k)
    ensures var st1 := After(st, Remove(g, st, w));
      StateOk(g, st) && StateOk(g, st1) && CopiesAgree(g, st1.disk) && Remove(g, st, w).rc == 0
      && TableOf(g, st1) == Freed(TableOf(g, st), FirstCluster(DirSlots(g, st.disk, sh, st.cur)[k]))
  {
    RemoveDisk(g, st, sh, w, k);
    RemoveCur(g, st, sh, w, k);
    MarkedTable(g, st, sh, k);
    hide Remove, DirSlots, Find, Mounted;
    TableSaved(g, MarkedDisk(g, st, sh, k), st.tail, sh,
      Freed(TableOf(g, st), FirstCluster(DirSlots(g, st.disk, sh, st.cur)[k])));
  }

  ghost predicate SameButOneChain(sh: Shape, sh1: Shape, c: nat) {
    && sh1.depth == sh.depth && RemovedShape(sh1, c).depth == sh.depth && RemovedShape(sh1, c).chains == sh.chains
    && forall h | h in sh.chains :: h in sh1.chains
  }

  lemma ChainAddedAndRemoved(sh: Shape, ch: seq<nat>, x: nat, k: nat)
    requires ch != [] && ch[0] != 0 && ch[0] !in sh.chains && forall y | y in sh.depth && y != 0 :: y in sh.chains
    ensures SameButOneChain(sh, WithOwner(WithChain(sh, ch), ch[0], x, k), ch[0])
  {
    var c := ch[0];
    assert c !in sh.depth;
    assert sh.chains[c := ch] - {c} == sh.chains;
    assert sh.depth - {c} == sh.depth;
  }

  lemma StoredShapeIs(g: Geo, st: State, sh: Shape, data: seq<Byte>, k: nat, ch: seq<nat>)
    requires StateOk(g, st) && ch == AllocOf(g, st, data).chain
    ensures StoredShape(g, st, sh, data, k) ==
      if ch == [] then WithOwner(sh, 0, st.cur, k) else WithOwner(WithChain(sh, ch), ch[0], st.cur, k)
  {
    hide AllocOf;
  }

  lemma StoredShapeFacts(g: Geo, st: State, sh: Shape, data: seq<Byte>, k: nat, ch: seq<nat>)
    requires Live(g, st, sh) && StateOk(g, st) && AllocOf(g, st, data).ok && |data| < 0x1_0000_0000
    requires ch == AllocOf(g, st, data).chain
    ensures SameButOneChain(sh, StoredShape(g, st, sh, data, k), if ch == [] then 0 else ch[0])
  {
    FileSlotFits(g, st, sh, [], data, k);
    LiveDepth(g, st, sh);
    StoredShapeIs(g, st, sh, data, k, ch);
    hide *;
    if ch != [] {
      ChainAddedAndRemoved(sh, ch, st.cur, k);
    } else {
      OwnerOnly(sh, 0, st.cur, k);
    }
  }

  lemma OwnerOnly(sh: Shape, c: nat, x: nat, k: nat)
    requires c == 0
    ensures SameButOneChain(sh, WithOwner(sh, c, x, k), c)
  {
  }

  lemma LiveDepth(g: Geo, st: State, sh: Shape)
    requires Live(g, st, sh)
    ensures forall x | x in sh.depth && x != 0 :: x in sh.chains
  {
  }

  lemma UndoneStore(g: Geo, st: State, sh: Shape, name: Name, data: seq<Byte>, k: nat, st1: State)
    requires Live(g, st, sh) && StateOk(g, st) && AllocOf(g, st, data).ok && |data| < 0x1_0000_0000 && Findable(name)
    requires Find(DirSlots(g, st.disk, sh, st.cur), Vacant, 0) == Some(k)
      && Fresh(DirSlots(g, st.disk, sh, st.cur), name)
    requires st1 == After(st, Store(g, st, name, data))
    ensures StateOk(g, st1) && Delete(g, st1, name).rc == 0
    ensures Undone(g, st, sh, After(st1, Delete(g, st1, name)))
  {
    var ch, sh1 := AllocOf(g, st, data).chain, StoredShape(g, st, sh, data, k);
    StoredState(g, st, sh, name, data, k);
    FoundAfterStore(g, st, sh, name, data, k);
    StoredShapeFacts(g, st, sh, data, k, ch);
    UndoneTable(g, st, data);
    FileSlotCluster(name, ch, |data|);
    RemoveTable(g, st1, sh1, File(name), k);
    RemoveChanges(g, st1, sh1, File(name), k);
    var sl := FileSlot(name, ch, |data|);
    assert DirSlots(g, st1.disk, sh1, st1.cur)[k] == sl;
    assert Judge(DirSlots(g, st.disk, sh, st.cur)[k], Vacant) == Hit;
    hide Store, Remove, AllocOf, AllocChain, Mounted, FileSlot, Findable, Fresh, Find, Judge, DirSlots, SameFiles,
      StoredShape, Freed, FirstCluster, OneSlotChanged, Removable;
    var st2, sh2 := After(st1, Delete(g, st1, name)), RemovedShape(sh1, FirstCluster(sl));
    SlotChangedTwice(g, st, sh, st1, sh1, st2, sh2, k, sl, Marked(sl));
    SameButOwner(g, st, sh, st2, sh2, sh.owner, k, Marked(sl));
    assert sh2.(owner := sh.owner) == sh;
  }

  /** fat_write of a new name and then fat_delete of it succeed together, give
      back every FAT copy byte for byte, and change no slot but the one used. */
  lemma DeleteUndoesWrite(g: Geo, st: State, sh: Shape, name: Name, data: seq<Byte>, st1: State)
    requires Live(g, st, sh) && StateOk(g, st) && |data| < 0x1_0000_0000 && Findable(name)
    requires Find(DirSlots(g, st.disk, sh, st.cur), File(name), 0).None?
    requires WriteFile(g, st, name, data).rc == 0 && st1 == After(st, WriteFile(g, st, name, data))
    ensures StateOk(g, st1) && Delete(g, st1, name).rc == 0
    ensures Undone(g, st, sh, After(st1, Delete(g, st1, name)))
  {
    WriteAfter(g, st, name, data);
    CurrentZeroTail(g, st, sh);
    NewNameFresh(CurrentSlots(g, st, sh), name);
    WriteOfNewNameState(g, st, sh, name);
    hide Store, Remove, Mounted, Findable, Fresh, Find, DirSlots, Undone, AllocOf;
    StoreSucceeds(g, st, sh, name, data);
    UndoneStore(g, st, sh, name, data, Find(CurrentSlots(g, st, sh), Vacant, 0).value, st1);
  }
}
