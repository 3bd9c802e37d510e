/** fat_mkdir as a whole: exactly when it keeps the volume well-formed, what it
    leaves alone, and that fat_cd finds the new directory. */
module NewDirectories {
  import opened Bytes
  import opened Names
  import opened FatTable
  import opened Layout
  import opened Directory
  import opened FatSpec
  import opened Volume
  import opened Removal
  import opened Allocation
  import opened Addition
  import opened Subdirectories
  import opened Operations
  import opened Runs
  import opened Reading
  import opened Interruption
  import opened Frame
  import opened RoundTrip

  function DirSlot(name: Name, c: nat): Slot
    requires c < 0x1_0000
  {
    NewSlot(Split83(name), 0x10, c, 0)
  }

  /** What a successful fat_mkdir did: it took cluster c and filled slot k. */
  ghost predicate Made(g: Geo, st: State, sh: Shape, name: Name, c: nat, u: Table, k: nat) {
    && Live(g, st, sh) && Takes(g, st, c, u) && c < ENTRIES
    && Live(g, MkdirMid(g, st, c, u), sh) && Buffer(g, MkdirMid(g, st, c, u).disk, MkdirMid(g, st, c, u).tail) == u
    && DirSlots(g, MkdirMid(g, st, c, u).disk, sh, st.cur) == DirSlots(g, st.disk, sh, st.cur)
    && Find(DirSlots(g, st.disk, sh, st.cur), Vacant, 0) == Some(k)
  }

  function MadeState(g: Geo, st: State, sh: Shape, name: Name, c: nat, u: Table, k: nat): State
    requires Made(g, st, sh, name, c, u, k)
  {
    var m := MkdirMid(g, st, c, u);
    State(WithSlot(g, m.disk, sh, st.cur, k, DirSlot(name, c)), m.cur, m.tail)
  }

  lemma MidSlots(g: Geo, st: State, sh: Shape, m: State)
    requires Live(g, st, sh) && SameSlots(g, st.disk, sh, m.disk, sh) && m.cur == st.cur
    ensures DirSlots(g, m.disk, sh, st.cur) == DirSlots(g, st.disk, sh, st.cur)
  {
  }

  lemma MkdirMade(g: Geo, st: State, sh: Shape, name: Name) returns (c: nat, u: Table, k: nat)
    requires Live(g, st, sh) && StateOk(g, st) && Mkdir(g, st, name).rc == 0
    ensures Made(g, st, sh, name, c, u, k) && After(st, Mkdir(g, st, name)) == MadeState(g, st, sh, name, c, u, k)
  {
    hide Mkdir, Set, MkdirWrites, SameSlots, Untouched, NewSlot, Split83, LbasOf, ChainsApart, DirOk, IsChain, Joined,
      Slots;
    c := FirstFree(g, TableOf(g, st));
    u := if c != 0 then Set(TableOf(g, st), c, END_MARK) else TableOf(g, st);
    k := 0;
    if c == 0 || ClusterStart(g, c) >= |st.disk| {
      MkdirRefused(g, st, sh, name);
    } else {
      OnDeviceBelowLimit(g, |st.disk|, c);
      MkdirMidKeeps(g, st, sh, c, u);
      MkdirOutcome(g, st, sh, c, u, name);
      MidSlots(g, st, sh, MkdirMid(g, st, c, u));
      var r := Find(DirSlots(g, st.disk, sh, st.cur), Vacant, 0);
      if r.Some? {
        k := r.value;
        MkdirDone(g, st, sh, c, u, name, k);
      }
    }
  }

  /** The slot that is filled is not in the new cluster. */
  lemma SlotElsewhere(g: Geo, st: State, sh: Shape, c: nat, u: Table, k: nat, lba: nat)
    requires Live(g, st, sh) && Takes(g, st, c, u) && k < |DirSlots(g, st.disk, sh, st.cur)|
    requires ClusterStart(g, c) <= lba < ClusterStart(g, c) + g.spc
    ensures k / SLOTS < |LbasOf(g, sh, st.cur)| && LbasOf(g, sh, st.cur)[k / SLOTS] != lba
  {
    hide ChainsApart, DirOk, Joined, Set, FindFree;
    var t := TableOf(g, st);
    assert InFree(g, t, lba);
    FreeSectorInData(g, t, lba);
    if st.cur != 0 {
      FreeSectorElsewhere(g, t, sh.chains[st.cur], lba);
    }
  }

  lemma MadeSectors(g: Geo, st: State, sh: Shape, name: Name, c: nat, u: Table, k: nat, o: nat)
    requires Made(g, st, sh, name, c, u, k) && o < g.spc && ClusterLbas(g, c)[o] < |st.disk|
    ensures var lba := ClusterLbas(g, c)[o]; var e := MadeState(g, st, sh, name, c, u, k).disk;
      |e| == |st.disk| && e[lba] == if o == 0 then DotSector(c, st.cur) else st.disk[lba]
  {
    hide MkdirMid, Find, Mounted, Takes, DotSector, ClusterStart, DirSlot;
    SlotElsewhere(g, st, sh, c, u, k, ClusterLbas(g, c)[o]);
    ClusterAfterRoot(g, c);
    MkdirSectors(g, st, c, u, ClusterLbas(g, c)[o]);
    MidLength(g, st, c, u);
  }

  lemma MidLength(g: Geo, st: State, c: nat, u: Table)
    requires Takes(g, st, c, u)
    ensures c < ENTRIES && StateOk(g, st) && |MkdirMid(g, st, c, u).disk| == |st.disk|
      && MkdirMid(g, st, c, u).cur == st.cur
  {
  }

  // ---- when the volume stays well-formed

  lemma OneClusterChain(g: Geo, t: Table, ch: seq<nat>, c: nat)
    requires GeoOk(g) && IsChain(t, ch, Limit(g)) && ch[0] == c && Get(t, c) >= 0xFF8
    ensures ch == [c]
  {
    if |ch| > 1 {
      ChainTail(t, ch, Limit(g));
    }
  }

  /** A slot for a subdirectory in a well-formed volume, whose cluster is
      end-marked: the cluster is the whole directory. */
  lemma SubdirCluster(g: Geo, st: State, sh: Shape, k: nat, c: nat)
    requires Live(g, st, sh) && k < |DirSlots(g, st.disk, sh, st.cur)|
    requires var sl := DirSlots(g, st.disk, sh, st.cur)[k]; IsSubdir(sl) && FirstCluster(sl) == c
    requires c < ENTRIES && Get(Buffer(g, st.disk, st.tail), c) >= 0xFF8
    ensures OnDevice(st.disk, ClusterLbas(g, c)) && ZeroTail(Slots(st.disk, ClusterLbas(g, c)))
  {
    SlotIsOk(g, st.disk, st.tail, sh, st.cur, k);
    hide ChainsApart, Joined, Slots, IsSubdir, IsFile, Get, ZeroTail, SlotOk;
    SubdirOwned(g, sh, st.cur, k, DirSlots(g, st.disk, sh, st.cur)[k]);
    OneClusterChain(g, Buffer(g, st.disk, st.tail), sh.chains[c], c);
    SingleChainLbas(g, c);
    assert DirOk(g, sh, c, DirSlots(g, st.disk, sh, c));
  }

  lemma SubdirOwned(g: Geo, sh: Shape, x: nat, k: nat, sl: Slot)
    requires x in sh.depth && SlotOk(g, sh, x, k, sl) && IsSubdir(sl)
    ensures FirstCluster(sl) != 0 && FirstCluster(sl) in sh.depth
  {
  }

  lemma DirSlotIs(name: Name, c: nat)
    requires c < 0x1_0000 && Split83(name)[0] != DELETED
    ensures IsSubdir(DirSlot(name, c)) && FirstCluster(DirSlot(name, c)) == c
  {
    SplitFirst(name);
    hide NewSlot, Split83, Times;
  }

  /** The table and the slots after the new slot was written, as the old shape
      sees them. */
  lemma MadeDirSlots(g: Geo, st: State, sh: Shape, name: Name, c: nat, u: Table, k: nat)
    requires Made(g, st, sh, name, c, u, k)
    ensures var e := MadeState(g, st, sh, name, c, u, k);
      && e.cur == st.cur && Buffer(g, e.disk, e.tail) == u && ShapeOk(g, u, sh) && DirsOnDevice(g, e.disk, sh)
      && DirSlots(g, e.disk, sh, st.cur) == DirSlots(g, st.disk, sh, st.cur)[k := DirSlot(name, c)]
  {
    hide Find, Takes, DirSlot, ChainsApart, DirOk, IsChain, Joined, Slots, MkdirMid, WithSlot;
    MidLength(g, st, c, u);
    var m := MkdirMid(g, st, c, u);
    SlotWritten(g, m.disk, m.tail, sh, st.cur, k, DirSlot(name, c));
  }

  lemma SameLbas(g: Geo, t: Table, d: Disk, sh: Shape, sh1: Shape, x: nat)
    requires GeoOk(g) && ShapeOk(g, t, sh) && DirsOnDevice(g, d, sh) && x in sh.depth
    requires ShapeOk(g, t, sh1) && DirsOnDevice(g, d, sh1) && x in sh1.depth
    ensures DirSlots(g, d, sh, x) == DirSlots(g, d, sh1, x)
  {
    DirLbasAre(g, t, d, sh, x);
    DirLbasAre(g, t, d, sh1, x);
    hide ShapeOk, DirLbas, Slots, LbasOf;
  }

  /** The new slot, as any shape of the volume afterwards sees it. */
  lemma MadeSlot(g: Geo, st: State, sh: Shape, name: Name, c: nat, u: Table, k: nat, sh1: Shape)
    requires Made(g, st, sh, name, c, u, k) && Live(g, MadeState(g, st, sh, name, c, u, k), sh1)
    ensures var e := MadeState(g, st, sh, name, c, u, k);
      && Buffer(g, e.disk, e.tail) == u && k < |DirSlots(g, e.disk, sh1, e.cur)|
      && DirSlots(g, e.disk, sh1, e.cur)[k] == DirSlot(name, c)
  {
    MadeDirSlots(g, st, sh, name, c, u, k);
    MadeCur(g, st, sh, name, c, u, k);
    hide MadeState, Made, Find, DirSlot, ChainsOk, ChainsApart, DirOk, DirSlots, LbasOf, Joined;
    SameLbas(g, u, MadeState(g, st, sh, name, c, u, k).disk, sh, sh1, st.cur);
  }

  lemma MadeCur(g: Geo, st: State, sh: Shape, name: Name, c: nat, u: Table, k: nat)
    requires Made(g, st, sh, name, c, u, k)
    ensures GeoOk(g) && st.cur in sh.depth && DirsOnDevice(g, st.disk, sh) && k < |DirSlots(g, st.disk, sh, st.cur)|
  {
    hide MkdirMid, Takes, ShapeOk, DirOk;
  }

  lemma MadeNeedsClear(g: Geo, st: State, sh: Shape, name: Name, c: nat, u: Table, k: nat, sh1: Shape)
    requires Made(g, st, sh, name, c, u, k) && Live(g, MadeState(g, st, sh, name, c, u, k), sh1)
    requires Split83(name)[0] != DELETED
    ensures RestClear(g, st.disk, c)
  {
    hide MkdirMid, Find, Mounted, DirSlot, DotSector, DirSlots, ClusterStart, RestClear, Slots;
    var e := MadeState(g, st, sh, name, c, u, k);
    MadeSlot(g, st, sh, name, c, u, k, sh1);
    DirSlotIs(name, c);
    TakesUnused(g, st, c, u);
    SubdirCluster(g, e, sh1, k, c);
    MidLength(g, st, c, u);
    MadeSector(c, st.cur);
    MadeLength(g, st, sh, name, c, u, k);
    hide MadeState, Made, Takes, Live, DotsOnly;
    assert forall o | 0 <= o < g.spc :: ClusterLbas(g, c)[o] < |st.disk|;
    forall o | 0 <= o < g.spc
      ensures e.disk[ClusterLbas(g, c)[o]] == if o == 0 then DotSector(c, st.cur) else st.disk[ClusterLbas(g, c)[o]]
    {
      MadeSectors(g, st, sh, name, c, u, k, o);
    }
    MadeDirectory(g, e.disk, c);
    ClearStaysClear(g, e.disk, st.disk, c);
  }

  lemma MadeLength(g: Geo, st: State, sh: Shape, name: Name, c: nat, u: Table, k: nat)
    requires Made(g, st, sh, name, c, u, k)
    ensures GeoOk(g) && |ClusterLbas(g, c)| == g.spc && |MadeState(g, st, sh, name, c, u, k).disk| == |st.disk|
  {
    MidLength(g, st, c, u);
    hide MkdirMid, Find, DirSlot;
  }

  /** A successful fat_mkdir, of a name whose slot does not read as deleted,
      leaves a well-formed volume exactly if the sectors of the cluster that it
      does not clear were clear before. */
  lemma MkdirExact(g: Geo, st: State, sh: Shape, name: Name)
    requires Live(g, st, sh) && StateOk(g, st)
    requires Mkdir(g, st, name).rc == 0 && Split83(name)[0] != DELETED
    ensures WellFormed(g, After(st, Mkdir(g, st, name))) <==> MkdirClear(g, st)
  {
    hide Mkdir, Mounted, RestClear, Split83;
    if MkdirClear(g, st) {
      MkdirKeeps(g, st, sh, name);
    }
    if WellFormed(g, After(st, Mkdir(g, st, name))) {
      var c, u, k := MkdirMade(g, st, sh, name);
      var sh1 :| Live(g, After(st, Mkdir(g, st, name)), sh1);
      hide MadeState, Made, After;
      MadeNeedsClear(g, st, sh, name, c, u, k, sh1);
      TakesFirst(g, st, sh, name, c, u, k);
    }
  }

  lemma TakesFirst(g: Geo, st: State, sh: Shape, name: Name, c: nat, u: Table, k: nat)
    requires Made(g, st, sh, name, c, u, k)
    ensures StateOk(g, st) && c == FirstFree(g, TableOf(g, st))
  {
  }

  /** fat_mkdir succeeds exactly if there is a free cluster on the device and a
      vacant slot in the directory. */
  lemma MkdirSucceeds(g: Geo, st: State, sh: Shape, name: Name)
    requires Live(g, st, sh) && StateOk(g, st)
    ensures var c := FirstFree(g, TableOf(g, st));
      Mkdir(g, st, name).rc == 0 <==>
        c != 0 && ClusterStart(g, c) < |st.disk| && Find(DirSlots(g, st.disk, sh, st.cur), Vacant, 0).Some?
  {
    hide Mkdir, Set, MkdirWrites, SameSlots, Untouched, NewSlot, Split83, LbasOf, ChainsApart, DirOk, IsChain, Joined,
      Slots;
    var c := FirstFree(g, TableOf(g, st));
    if c == 0 || ClusterStart(g, c) >= |st.disk| {
      MkdirRefused(g, st, sh, name);
    } else {
      var u := Set(TableOf(g, st), c, END_MARK);
      OnDeviceBelowLimit(g, |st.disk|, c);
      MkdirMidKeeps(g, st, sh, c, u);
      MkdirOutcome(g, st, sh, c, u, name);
      MidSlots(g, st, sh, MkdirMid(g, st, c, u));
    }
  }

  // ---- what fat_mkdir leaves alone

  ghost predicate MadeKept(g: Geo, st: State, sh: Shape, name: Name, c: nat, u: Table, k: nat, e: State, sh1: Shape) {
    && Made(g, st, sh, name, c, u, k) && e == MadeState(g, st, sh, name, c, u, k)
    && sh1 == WithOwner(MadeShape(sh, st.cur, c), c, st.cur, k)
    && Live(g, e, sh1) && StateOk(g, e) && c !in sh.chains && RestClear(g, st.disk, c)
  }

  lemma MkdirMadeKept(g: Geo, st: State, sh: Shape, name: Name)
    returns (c: nat, u: Table, k: nat, e: State, sh1: Shape)
    requires Live(g, st, sh) && StateOk(g, st) && Mkdir(g, st, name).rc == 0 && MkdirClear(g, st)
    ensures MadeKept(g, st, sh, name, c, u, k, e, sh1) && e == After(st, Mkdir(g, st, name))
  {
    c, u, k := MkdirMade(g, st, sh, name);
    e := After(st, Mkdir(g, st, name));
    MadeCur(g, st, sh, name, c, u, k);
    sh1 := WithOwner(MadeShape(sh, st.cur, c), c, st.cur, k);
    hide Mkdir, Mounted, RestClear, Set, Find, MadeState, DirSlots;
    assert Takes(g, st, c, u);
    MkdirDoneKeeps(g, st, sh, c, u, name, k);
    MkdirDirKeeps(g, st, sh, c, u, MkdirMid(g, st, c, u));
    LiveStateOk(g, e, sh1);
  }

  lemma MadeShapeIs(sh: Shape, x: nat, c: nat, k: nat)
    requires x in sh.depth && c !in sh.chains
    ensures var sh1 := WithOwner(MadeShape(sh, x, c), c, x, k);
      && c in sh1.chains && sh1.chains[c] == [c] && c in sh1.depth
      && (forall y | y in sh.depth :: y in sh1.depth)
      && forall h | h in sh.chains :: h in sh1.chains && sh1.chains[h] == sh.chains[h]
  {
  }

  lemma WiderShape(g: Geo, st: State, sh: Shape, e: State, k: nat, sl: Slot, sh1: Shape)
    requires OneSlotChanged(g, st, sh, e, sh, k, sl) && DirsOnDevice(g, e.disk, sh1)
    requires forall x | x in sh.depth :: x in sh1.depth
    requires forall h | h in sh.chains :: h in sh1.chains && sh1.chains[h] == sh.chains[h]
    ensures OneSlotChanged(g, st, sh, e, sh1, k, sl)
  {
    hide ChainLbas, RootLbas, Slots;
    assert forall x | x in sh.depth :: LbasOf(g, sh1, x) == LbasOf(g, sh, x);
  }

  lemma UntouchedFiles(g: Geo, d: Disk, e: Disk, sh: Shape)
    requires Untouched(g, d, e, sh)
    ensures SameFiles(g, d, sh, e, sh)
  {
    hide ChainLbas, RootLbas;
  }

  lemma MadeOnlySlot(g: Geo, st: State, sh: Shape, name: Name, c: nat, u: Table, k: nat)
    requires Made(g, st, sh, name, c, u, k)
    ensures OneSlotChanged(g, st, sh, MadeState(g, st, sh, name, c, u, k), sh, k, DirSlot(name, c))
  {
    MidLength(g, st, c, u);
    MkdirMidKeeps(g, st, sh, c, u);
    var m := MkdirMid(g, st, c, u);
    UntouchedFiles(g, st.disk, m.disk, sh);
    hide Find, Takes, DirSlot, ChainsApart, DirOk, IsChain, Joined, Slots, MkdirMid, Untouched, SameFiles, LbasOf;
    SlotWritten(g, m.disk, m.tail, sh, st.cur, k, DirSlot(name, c));
    StoreChangesJoin(g, st, sh, m, sh, MadeState(g, st, sh, name, c, u, k), k, DirSlot(name, c));
  }

  /** One slot changed, and every file and directory is where it was. */
  lemma MadeChanges(g: Geo, st: State, sh: Shape, name: Name, c: nat, u: Table, k: nat, e: State, sh1: Shape)
    requires MadeKept(g, st, sh, name, c, u, k, e, sh1)
    ensures OneSlotChanged(g, st, sh, e, sh1, k, DirSlot(name, c)) && OthersKept(g, st, sh, sh1, k)
    ensures forall x | x in sh.depth :: x in sh1.depth
  {
    MadeOnlySlot(g, st, sh, name, c, u, k);
    MadeCur(g, st, sh, name, c, u, k);
    MadeShapeIs(sh, st.cur, c, k);
    hide MadeShape, WithOwner, RestClear, MadeState, ShapeOk, DirOk, Find, OneSlotChanged, DirSlot, DirSlots, MkdirMid,
      Takes;
    WiderShape(g, st, sh, e, k, DirSlot(name, c), sh1);
    StoredOthersKept(g, st, sh, sh1, k);
  }

  lemma DirSlotJudged(name: Name, c: nat, other: Name)
    requires c < 0x1_0000
    ensures Judge(DirSlot(name, c), File(other)) == Skip
    ensures Judge(DirSlot(name, c), Subdir(name)) == if Findable(name) then Hit else Skip
    ensures !EqNoCase(MakeName(Split83(name)), other) ==> Judge(DirSlot(name, c), Subdir(other)) == Skip
    ensures FirstCluster(DirSlot(name, c)) == c
  {
    SplitFirst(name);
    StoredMatches(name);
    hide NewSlot, Split83, MakeName, Fits83, EqNoCase, FirstCluster, FileSize;
  }

  lemma DirSlotUnwanted(name: Name, c: nat, before: Slot, other: Name)
    requires c < 0x1_0000 && Judge(before, Vacant) == Hit && !EqNoCase(MakeName(Split83(name)), other)
    ensures Unwanted(before, DirSlot(name, c), other)
  {
    DirSlotJudged(name, c, other);
    hide DirSlot, Split83, MakeName, EqNoCase, Named;
  }

  /** Whether it succeeds or not, fat_mkdir leaves every other name, in every
      directory, as it was. */
  lemma MkdirFrame(g: Geo, st: State, sh: Shape, name: Name, x: nat, other: Name, cap: nat)
    requires Live(g, st, sh) && StateOk(g, st) && x in sh.depth && (Mkdir(g, st, name).rc == 0 ==> MkdirClear(g, st))
    requires x == st.cur ==> !EqNoCase(MakeName(Split83(name)), other)
    ensures SameView(g, st, After(st, Mkdir(g, st, name)), x, other, cap)
  {
    hide Mkdir, Mounted, RestClear, SameView, EqNoCase, MakeName, Split83, MadeState, Find, DirSlots, Unwanted,
      MkdirClear;
    if Mkdir(g, st, name).rc != 0 {
      FailedMkdir(g, st, sh, name);
    } else {
      var c, u, k, e, sh1 := MkdirMadeKept(g, st, sh, name);
      MadeChanges(g, st, sh, name, c, u, k, e, sh1);
      MadeView(g, st, sh, name, c, u, k, e, sh1, x, other, cap);
    }
  }

  lemma MadeView(g: Geo, st: State, sh: Shape, name: Name, c: nat, u: Table, k: nat, e: State, sh1: Shape, x: nat,
      other: Name, cap: nat)
    requires MadeKept(g, st, sh, name, c, u, k, e, sh1) && x in sh.depth && x in sh1.depth
    requires OneSlotChanged(g, st, sh, e, sh1, k, DirSlot(name, c)) && OthersKept(g, st, sh, sh1, k)
    requires x == st.cur ==> !EqNoCase(MakeName(Split83(name)), other)
    ensures SameView(g, st, e, x, other, cap)
  {
    hide Mounted, MkdirMid, MadeState, SameView, OneSlotChanged, OthersKept, EqNoCase, MakeName, Split83, Unwanted,
      RestClear, MadeShape, WithOwner, DirSlot;
    MadeCur(g, st, sh, name, c, u, k);
    if x == st.cur {
      DirSlotUnwanted(name, c, DirSlots(g, st.disk, sh, st.cur)[k], other);
    }
    ViewElsewhere(g, st, sh, e, sh1, k, DirSlot(name, c), x, other, cap);
  }

  // ---- fat_mkdir, then fat_cd

  lemma SkipsBefore(slots: seq<Slot>, w: Want, k: nat)
    requires ZeroTail(slots) && Find(slots, Vacant, 0) == Some(k) && Find(slots, w, 0).None? && !w.Vacant?
    ensures forall j | 0 <= j < k :: Judge(slots[j], w) == Skip
  {
    forall j | 0 <= j < k
      ensures Judge(slots[j], w) == Skip
    {
      FindNone(slots, w, 0, j);
      assert Judge(slots[j], Vacant) == Skip;
    }
    hide Named;
  }

  lemma NewNameFound(slots: seq<Slot>, k: nat, name: Name, c: nat)
    requires ZeroTail(slots) && Find(slots, Vacant, 0) == Some(k) && Find(slots, Subdir(name), 0).None? && c < 0x1_0000
    ensures Find(slots[k := DirSlot(name, c)], Subdir(name), 0) == if Findable(name) then Some(k) else None
  {
    SkipsBefore(slots, Subdir(name), k);
    DirSlotJudged(name, c, name);
    hide DirSlot, ZeroTail, Findable;
    if Findable(name) {
      FindShifted(slots, k, DirSlot(name, c), Subdir(name), 0);
    } else {
      FindUnaffected(slots, k, DirSlot(name, c), Subdir(name), 0);
    }
  }

  /** The new directory can be entered, and has the cluster that was taken,
      exactly if its name can be found. */
  lemma MkdirThenCd(g: Geo, st: State, sh: Shape, name: Name)
    requires Live(g, st, sh) && StateOk(g, st) && Mkdir(g, st, name).rc == 0 && MkdirClear(g, st)
    requires Find(DirSlots(g, st.disk, sh, st.cur), Subdir(name), 0).None? && name != [DOT, DOT]
    ensures var st1 := After(st, Mkdir(g, st, name));
      && StateOk(g, st1)
      && Cd(g, st1, name).rc == (if Findable(name) then 0 else -1)
      && Cd(g, st1, name).cur == if Findable(name) then FirstFree(g, TableOf(g, st)) else st.cur
  {
    hide Mkdir, Mounted, RestClear, MadeState, Cd, ZeroTail, Find, Findable, MkdirMid, MadeShape, WithOwner, DirSlot,
      MkdirClear;
    var c, u, k, e, sh1 := MkdirMadeKept(g, st, sh, name);
    MadeChanges(g, st, sh, name, c, u, k, e, sh1);
    CurrentZeroTail(g, st, sh);
    CdAgrees(g, e, sh1, name);
    DirSlotJudged(name, c, name);
    NewNameFound(DirSlots(g, st.disk, sh, st.cur), k, name, c);
  }

  lemma MadeReady(g: Geo, st: State, sh: Shape, name: Name, c: nat, u: Table, k: nat)
    requires Made(g, st, sh, name, c, u, k) && RestClear(g, st.disk, c)
    ensures DirReady(g, MadeState(g, st, sh, name, c, u, k).disk, c)
  {
    MadeLength(g, st, sh, name, c, u, k);
    var e := MadeState(g, st, sh, name, c, u, k);
    hide MadeState, Takes, Live, DotsOnly, DotSector, Find, DirSlots, MkdirMid;
    forall o | 0 <= o < g.spc
      ensures e.disk[ClusterLbas(g, c)[o]] == if o == 0 then DotSector(c, st.cur) else st.disk[ClusterLbas(g, c)[o]]
    {
      MadeSectors(g, st, sh, name, c, u, k, o);
    }
    MadeSector(c, st.cur);
    ClearStaysClear(g, st.disk, e.disk, c);
  }

  lemma NothingFound(slots: seq<Slot>, w: Want)
    requires !w.Vacant? && forall j | 0 <= j < |slots| :: !IsFile(slots[j]) && !IsSubdir(slots[j])
    ensures Find(slots, w, 0).None?
  {
    hide IsFile, IsSubdir, Named;
  }

  lemma EmptyView(g: Geo, st: State, sh: Shape, c: nat, other: Name, cap: nat)
    requires Live(g, st, sh) && st.cur == c != 0 && c in sh.chains && sh.chains[c] == [c] && DirReady(g, st.disk, c)
    ensures StateOk(g, st) && ReadFile(g, st, other, cap) == NotRead
      && (Cd(g, st, other).rc == 0 ==> other == [DOT, DOT])
  {
    hide ShapeOk, DirOk, ReadFile, Cd, DirReady, IsFile, IsSubdir, Find, Slots, ClusterLbas;
    ReadAgrees(g, st, sh, other, cap);
    CdAgrees(g, st, sh, other);
    SingleChainLbas(g, c);
    EmptyDirSlots(g, st.disk, c);
    var slots := DirSlots(g, st.disk, sh, c);
    assert slots == Slots(st.disk, ClusterLbas(g, c)) && |slots| == SLOTS * g.spc by {
      ReadyLength(g, st.disk, c);
    }
    NothingFound(slots, File(other));
    NothingFound(slots, Subdir(other));
  }

  lemma ReadyLength(g: Geo, d: Disk, c: nat)
    requires DirReady(g, d, c)
    ensures OnDevice(d, ClusterLbas(g, c)) && |Slots(d, ClusterLbas(g, c))| == SLOTS * g.spc
  {
  }

  /** Nothing is in the new directory. */
  lemma MkdirEmpty(g: Geo, st: State, sh: Shape, name: Name, other: Name, cap: nat)
    requires Live(g, st, sh) && StateOk(g, st) && Mkdir(g, st, name).rc == 0 && MkdirClear(g, st)
    ensures var inside := In(After(st, Mkdir(g, st, name)), FirstFree(g, TableOf(g, st)));
      && StateOk(g, inside) && ReadFile(g, inside, other, cap) == NotRead
      && (Cd(g, inside, other).rc == 0 ==> other == [DOT, DOT])
  {
    hide Mkdir, Mounted, RestClear, MadeState, Cd, ReadFile, DirReady, DirSlots, Find, MkdirMid, MkdirClear;
    var c, u, k, e, sh1 := MkdirMadeKept(g, st, sh, name);
    MadeReady(g, st, sh, name, c, u, k);
    MadeCur(g, st, sh, name, c, u, k);
    MadeShapeIs(sh, st.cur, c, k);
    hide MadeShape, WithOwner;
    EmptyView(g, In(e, c), sh1, c, other, cap);
  }
}
