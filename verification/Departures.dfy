/** A volume on which the code departs from its intent. */
module Departures {
  import opened Bytes
  import opened Names
  import opened FatTable
  import opened Layout
  import opened Directory
  import opened FatSpec
  import opened Volume
  import opened Allocation
  import opened Subdirectories
  import opened Operations
  import opened Runs
  import opened Reading
  import opened Frame
  import opened RoundTrip
  import opened NewDirectories
  import opened Tree
  import opened Leaks
  import opened Copies

  /** One FAT sector, a root directory of one sector, and one cluster of two
      sectors, the second of which holds an old letter. */
  const STALE_GEO: Geo := Geo(1, 1, 1, 1, 2)

  function StaleState(): State {
    State([Zeros(512), Zeros(512), Zeros(512), Zeros(512), [0x41] + Zeros(511)], 0, Zeros(BUFFER_SIZE - 512))
  }

  const ROOT_ONLY: Shape := Shape(map[0 := 0], map[], map[])

  lemma StaleAddresses()
    ensures RootStart(STALE_GEO) == 2 && DataStart(STALE_GEO) == 3 && Limit(STALE_GEO) == 341
    ensures RootLbas(STALE_GEO) == [2] && ClusterLbas(STALE_GEO, 2) == [3, 4] && ClusterStart(STALE_GEO, 341) >= 5
  {
    assert CopyStart(STALE_GEO, 1) == CopyStart(STALE_GEO, 0) + 1 == 2;
    ClustersApart(STALE_GEO, 2, 341);
  }

  lemma StaleLive()
    ensures Live(STALE_GEO, StaleState(), ROOT_ONLY)
    ensures var slots := DirSlots(STALE_GEO, StaleState().disk, ROOT_ONLY, 0); |slots| > 0 && slots[0][0] == 0
  {
    StaleAddresses();
    var st := StaleState();
    hide CopyStart, ClusterStart, Joined;
    forall k | 0 <= k < SLOTS
      ensures Slots(st.disk, [2])[k][0] == 0
    {
      SlotIndex(st.disk, [2], k);
    }
    FreshVolume(STALE_GEO, st.disk, st.tail);
  }

  lemma StaleFree()
    ensures StateOk(STALE_GEO, StaleState()) && FirstFree(STALE_GEO, TableOf(STALE_GEO, StaleState())) == 2
  {
    StaleAddresses();
    var st := StaleState();
    var t := TableOf(STALE_GEO, st);
    TableByte(STALE_GEO, st.disk, 0, 3);
    TableByte(STALE_GEO, st.disk, 0, 4);
    assert Offset(2) == 3 && t[3] == 0 && t[4] == 0;
    GetIs(t, 2);
    EntryBytes(0, 0);
    assert Get(t, 2) == 0;
  }

  /** With more than one sector per cluster a well-formed volume can be left
      with a directory that shows old bytes as a slot. */
  lemma StaleSlotShows(name: Name)
    requires Split83(name)[0] != DELETED
    ensures var st := StaleState();
      && Live(STALE_GEO, st, ROOT_ONLY) && StateOk(STALE_GEO, st) && !MkdirClear(STALE_GEO, st)
      && Mkdir(STALE_GEO, st, name).rc == 0 && !WellFormed(STALE_GEO, After(st, Mkdir(STALE_GEO, st, name)))
  {
    var st := StaleState();
    StaleLive();
    StaleFree();
    StaleAddresses();
    hide Mkdir, Split83, TableOf, FirstFree, Mounted, CopyStart, ClusterStart;
    assert !MkdirClear(STALE_GEO, st) by {
      SlotIndex(st.disk, [3, 4], 16);
      assert Slots(st.disk, ClusterLbas(STALE_GEO, 2))[16][0] == 0x41;
    }
    assert ClusterStart(STALE_GEO, 2) == ClusterLbas(STALE_GEO, 2)[0] == 3;
    assert Judge(DirSlots(STALE_GEO, st.disk, ROOT_ONLY, 0)[0], Vacant) == Hit;
    MkdirSucceeds(STALE_GEO, st, ROOT_ONLY, name);
    MkdirExact(STALE_GEO, st, ROOT_ONLY, name);
  }

  // ---- names that are not found again

  const NINE_LETTERS: Name := seq(9, _ => 0x41)

  lemma FindableIs(name: Name)
    ensures Findable(name) <==> Fits83(name) && (name == [] || name[0] != DELETED)
  {
    SplitFirst(name);
    hide Fits83, Split83;
  }

  /** A base of nine letters, and a first byte that marks a deleted slot. */
  lemma LostNames()
    ensures !Findable(NINE_LETTERS) && Fits83([DELETED]) && !Findable([DELETED])
  {
    BaseIs(NINE_LETTERS, 9);
    BaseIs([DELETED], 1);
    FindableIs(NINE_LETTERS);
    FindableIs([DELETED]);
    hide Findable;
  }

  /** On that volume an empty file is written under such a name with return code
      0, and cannot be read. */
  lemma LostFile(name: Name, cap: nat)
    requires !Findable(name)
    ensures var st := StaleState();
      && Live(STALE_GEO, st, ROOT_ONLY) && StateOk(STALE_GEO, st)
      && WriteFile(STALE_GEO, st, name, []).rc == 0
      && var st1 := After(st, WriteFile(STALE_GEO, st, name, []));
        StateOk(STALE_GEO, st1) && ReadFile(STALE_GEO, st1, name, cap) == NotRead
  {
    StaleLive();
    LiveStateOk(STALE_GEO, StaleState(), ROOT_ONLY);
    hide STALE_GEO, StaleState, Mounted, Findable, ReadFile, Store, Named;
    var g, st := STALE_GEO, StaleState();
    var slots := DirSlots(g, st.disk, ROOT_ONLY, 0);
    assert Judge(slots[0], Vacant) == Hit && Judge(slots[0], File(name)) == Stop;
    WriteOfNewNameState(g, st, ROOT_ONLY, name);
    WriteSameResult(g, st, name);
    StoreSucceeds(g, st, ROOT_ONLY, name, []);
    ReadAgrees(g, st, ROOT_ONLY, name, cap);
    WriteThenRead(g, st, ROOT_ONLY, name, [], cap);
  }

  lemma WriteSameResult(g: Geo, st: State, name: Name)
    requires StateOk(g, st) && After(st, Delete(g, st, name)) == st
    ensures WriteFile(g, st, name, []).rc == Store(g, st, name, []).rc && AllocOf(g, st, []).ok
  {
    hide Store, Remove;
  }

  // ---- a cluster that is lost

  lemma StaleEntries(c: nat)
    requires 2 <= c < Limit(STALE_GEO)
    ensures StateOk(STALE_GEO, StaleState()) && Get(TableOf(STALE_GEO, StaleState()), c) == 0
  {
    StaleFree();
    StaleAddresses();
    var st := StaleState();
    var t := TableOf(STALE_GEO, st);
    TableByte(STALE_GEO, st.disk, 0, Offset(c));
    TableByte(STALE_GEO, st.disk, 0, Offset(c) + 1);
    GetIs(t, c);
    EntryBytes(0, 0);
  }

  lemma StaleAlloc()
    ensures StateOk(STALE_GEO, StaleState()) && AllocOf(STALE_GEO, StaleState(), [0x41]).ok
  {
    StaleFree();
    StaleAddresses();
    var g, st, data := STALE_GEO, StaleState(), [0x41];
    var t := TableOf(g, st);
    hide StaleState, TableOf, Linked, FindFree, ClusterStart, Padded;
    assert ClusterStart(g, 2) == ClusterLbas(g, 2)[0] == 3 && |st.disk| == 5;
    assert AfterSectors(Rest(data), 1) == [];
    assert |SectorWrites(3, 2, data)| <= 2;
    assert AllocChain(g, 5, Linked(t, 0, 2), 2, []).ok;
    assert FindFree(t, 2, TotalClusters(g) + 2) == 2;
  }

  lemma StaleWrite(name: Name)
    ensures var st := StaleState();
      && Live(STALE_GEO, st, ROOT_ONLY) && StateOk(STALE_GEO, st) && After(st, Delete(STALE_GEO, st, name)) == st
      && WriteFile(STALE_GEO, st, name, [0x41]).rc == 0
  {
    StaleLive();
    StaleAlloc();
    hide STALE_GEO, StaleState, Mounted, Store, Named, AllocOf, Remove, WriteFile;
    var g, st := STALE_GEO, StaleState();
    var slots := DirSlots(g, st.disk, ROOT_ONLY, 0);
    assert Judge(slots[0], Vacant) == Hit && Judge(slots[0], File(name)) == Stop;
    WriteOfNewNameState(g, st, ROOT_ONLY, name);
    WriteResult(g, st, name, [0x41]);
    StoreSucceeds(g, st, ROOT_ONLY, name, [0x41]);
  }

  lemma StaleNoLoss()
    ensures StateOk(STALE_GEO, StaleState()) && NoLoss(STALE_GEO, StaleState())
  {
    StaleFree();
    hide StaleState, TableOf, NoLoss, Get;
    forall c | 2 <= c < Limit(STALE_GEO)
      ensures Get(TableOf(STALE_GEO, StaleState()), c) == 0
    {
      StaleEntries(c);
    }
    FreshNoLoss(STALE_GEO, StaleState());
  }

  /** A volume without lost clusters, and a fat_write that returns 0 and loses
      one: any name that reads as deleted will do. */
  lemma LeakingWrite(name: Name)
    requires Split83(name)[0] == DELETED
    ensures var st := StaleState();
      && Live(STALE_GEO, st, ROOT_ONLY) && StateOk(STALE_GEO, st) && NoLoss(STALE_GEO, st)
      && WriteFile(STALE_GEO, st, name, [0x41]).rc == 0
      && var st1 := After(st, WriteFile(STALE_GEO, st, name, [0x41]));
        StateOk(STALE_GEO, st1) && !NoLoss(STALE_GEO, st1)
  {
    hide STALE_GEO, StaleState, Mounted, Reachable, WriteFile, Remove, Lost, Split83, AllocChain;
    StaleWrite(name);
    StaleAlloc();
    StaleNoLoss();
    RootReachable(STALE_GEO, StaleState());
    StaleAtRoot();
    WriteLostAs(STALE_GEO, StaleState(), ROOT_ONLY, name, [0x41]);
  }

  lemma StaleAtRoot()
    ensures StaleState().cur == 0
  {
  }
}
