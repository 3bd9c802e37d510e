/** The directory tree: the current directory can always be reached from the
    root, and everything that can be reached is covered by the invariant. */
module Tree {
  import opened Bytes
  import opened Names
  import opened FatTable
  import opened Layout
  import opened Directory
  import opened FatSpec
  import opened Volume
  import opened Removal
  import opened Allocation
  import opened Addition
  import opened Subdirectories
  import opened Operations
  import opened Runs
  import opened Reading
  import opened Frame
  import opened RoundTrip
  import opened Renaming

  function SlotsOf(g: Geo, st: State, x: nat): seq<Slot>
    requires StateOk(g, st)
  {
    Slots(st.disk, DirLbas(g, TableOf(g, st), x, |st.disk|))
  }

  predicate HasChild(slots: seq<Slot>, y: nat) {
    exists k | 0 <= k < |slots| :: IsSubdir(slots[k]) && FirstCluster(slots[k]) == y
  }

  predicate ChildOf(g: Geo, st: State, x: nat, y: nat)
    requires StateOk(g, st)
  {
    HasChild(SlotsOf(g, st, x), y)
  }

  predicate Path(g: Geo, st: State, p: seq<nat>)
    requires StateOk(g, st)
  {
    && p != [] && p[0] == 0
    && forall i, j | 0 <= i < |p| - 1 && j == i + 1 :: ChildOf(g, st, p[i], p[j])
  }

  ghost predicate Reachable(g: Geo, st: State, x: nat)
    requires StateOk(g, st)
  {
    exists p: seq<nat> :: Path(g, st, p) && p[|p| - 1] == x
  }

  lemma SlotsOfAre(g: Geo, st: State, sh: Shape, x: nat)
    requires Mounted(g, st.disk, st.tail, sh) && x in sh.depth && StateOk(g, st)
    ensures SlotsOf(g, st, x) == DirSlots(g, st.disk, sh, x)
  {
    DirLbasAre(g, TableOf(g, st), st.disk, sh, x);
  }

  lemma ChildDeeper(g: Geo, st: State, sh: Shape, x: nat, y: nat)
    requires Mounted(g, st.disk, st.tail, sh) && x in sh.depth && StateOk(g, st) && ChildOf(g, st, x, y)
    ensures y in sh.depth && sh.depth[y] > sh.depth[x]
  {
    SlotsOfAre(g, st, sh, x);
    var slots := SlotsOf(g, st, x);
    var k :| 0 <= k < |slots| && IsSubdir(slots[k]) && FirstCluster(slots[k]) == y;
    SlotIsOk(g, st.disk, st.tail, sh, x, k);
  }

  /** Along a path the depth grows, so no path comes back. */
  lemma {:induction false} PathDeeper(g: Geo, st: State, sh: Shape, p: seq<nat>, i: nat, j: nat)
    requires Mounted(g, st.disk, st.tail, sh) && StateOk(g, st) && Path(g, st, p) && i <= j < |p|
    ensures p[i] in sh.depth && p[j] in sh.depth && sh.depth[p[i]] + (j - i) <= sh.depth[p[j]]
    decreases j
  {
    hide Mounted, ChildOf;
    if j == 0 {
      ZeroInDepth(g, st, sh);
    } else {
      PathDeeper(g, st, sh, p, if i < j then i else j - 1, j - 1);
      ChildDeeper(g, st, sh, p[j - 1], p[j]);
    }
  }

  lemma ZeroInDepth(g: Geo, st: State, sh: Shape)
    requires Mounted(g, st.disk, st.tail, sh)
    ensures 0 in sh.depth
  {
  }

  /** Every reachable directory is one the invariant speaks about. */
  lemma ReachableLive(g: Geo, st: State, sh: Shape, x: nat)
    requires Mounted(g, st.disk, st.tail, sh) && StateOk(g, st) && Reachable(g, st, x)
    ensures x in sh.depth
  {
    var p: seq<nat> :| Path(g, st, p) && p[|p| - 1] == x;
    PathDeeper(g, st, sh, p, 0, |p| - 1);
  }

  predicate ChainOf(g: Geo, t: Table, a: seq<nat>, c: nat)
    requires GeoOk(g)
  {
    IsChain(t, a, Limit(g)) && a[0] == c
  }

  ghost predicate SeparateChains(g: Geo, t: Table, c: nat, e: nat)
    requires GeoOk(g)
  {
    exists a, b :: ChainOf(g, t, a, c) && ChainOf(g, t, b, e) && Apart(a, b)
  }

  /** For a reader who does not care for shapes: in a well-formed volume, every
      file and subdirectory of every reachable directory that has a cluster has
      a complete chain, which repeats no cluster. A file fits in it, and a
      directory is all on the device. */
  lemma ReachableChain(g: Geo, st: State, x: nat, k: nat)
    requires WellFormed(g, st) && StateOk(g, st) && Reachable(g, st, x) && k < |SlotsOf(g, st, x)|
    requires Refers(SlotsOf(g, st, x)[k], FirstCluster(SlotsOf(g, st, x)[k])) && FirstCluster(SlotsOf(g, st, x)[k]) != 0
    ensures HasChain(g, st, SlotsOf(g, st, x)[k])
  {
    hide Reachable, SlotsOf, IsLabel, HasDirBit, Slots, Find, Get;
    var sh :| Live(g, st, sh);
    ReachableLive(g, st, sh, x);
    SlotsOfAre(g, st, sh, x);
    SlotIsOk(g, st.disk, st.tail, sh, x, k);
    var c := FirstCluster(SlotsOf(g, st, x)[k]);
    assert ChainOf(g, TableOf(g, st), sh.chains[c], c);
  }

  ghost predicate HasChain(g: Geo, st: State, sl: Slot)
    requires StateOk(g, st)
  {
    exists a :: ChainOf(g, TableOf(g, st), a, FirstCluster(sl))
      && (IsFile(sl) ==> FileSize(sl) <= SECTOR_SIZE * |ChainLbas(g, a)|)
      && (IsSubdir(sl) ==> OnDevice(st.disk, ChainLbas(g, a)))
  }

  /** ... and a file without a cluster is empty. */
  lemma ReachableEmpty(g: Geo, st: State, x: nat, k: nat)
    requires WellFormed(g, st) && StateOk(g, st) && Reachable(g, st, x) && k < |SlotsOf(g, st, x)|
    requires FirstCluster(SlotsOf(g, st, x)[k]) == 0
    ensures !IsSubdir(SlotsOf(g, st, x)[k]) && (IsFile(SlotsOf(g, st, x)[k]) ==> FileSize(SlotsOf(g, st, x)[k]) == 0)
  {
    hide Reachable, SlotsOf, IsLabel, HasDirBit, Slots, Find, Get;
    var sh :| Live(g, st, sh);
    ReachableLive(g, st, sh, x);
    SlotsOfAre(g, st, sh, x);
    SlotIsOk(g, st.disk, st.tail, sh, x, k);
  }

  /** The chains of two different entries share no cluster. */
  lemma ReachableChains(g: Geo, st: State, x: nat, k: nat, y: nat, j: nat)
    requires WellFormed(g, st) && StateOk(g, st) && Reachable(g, st, x) && Reachable(g, st, y)
    requires k < |SlotsOf(g, st, x)| && j < |SlotsOf(g, st, y)| && (x, k) != (y, j)
    requires Refers(SlotsOf(g, st, x)[k], FirstCluster(SlotsOf(g, st, x)[k])) && FirstCluster(SlotsOf(g, st, x)[k]) != 0
    requires Refers(SlotsOf(g, st, y)[j], FirstCluster(SlotsOf(g, st, y)[j])) && FirstCluster(SlotsOf(g, st, y)[j]) != 0
    ensures SeparateChains(g, TableOf(g, st), FirstCluster(SlotsOf(g, st, x)[k]), FirstCluster(SlotsOf(g, st, y)[j]))
  {
    var sh :| Live(g, st, sh);
    ReachableLive(g, st, sh, x);
    ReachableLive(g, st, sh, y);
    SlotsOfAre(g, st, sh, x);
    SlotsOfAre(g, st, sh, y);
    SlotIsOk(g, st.disk, st.tail, sh, x, k);
    SlotIsOk(g, st.disk, st.tail, sh, y, j);
    var c, e := FirstCluster(SlotsOf(g, st, x)[k]), FirstCluster(SlotsOf(g, st, y)[j]);
    hide SlotsOf, DirSlots, Reachable, DirsOnDevice;
    OwnedChains(g, st, sh, c, e);
  }

  lemma OwnedChains(g: Geo, st: State, sh: Shape, c: nat, e: nat)
    requires Live(g, st, sh) && StateOk(g, st) && c in sh.chains && e in sh.chains && c != e
    ensures SeparateChains(g, TableOf(g, st), c, e)
  {
    var a, b := sh.chains[c], sh.chains[e];
    assert Apart(a, b) && ChainOf(g, TableOf(g, st), a, c) && ChainOf(g, TableOf(g, st), b, e);
  }

  // ---- the current directory stays reachable

  /** Everything above the current directory has the slots it had. */
  ghost predicate AncestorsKept(g: Geo, st: State, sh: Shape, st1: State, sh1: Shape) {
    && Live(g, st, sh) && Live(g, st1, sh1) && st1.cur == st.cur
    && forall x | x in sh.depth && sh.depth[x] < sh.depth[st.cur] ::
      x in sh1.depth && DirSlots(g, st1.disk, sh1, x) == DirSlots(g, st.disk, sh, x)
  }

  lemma ChildKept(g: Geo, st: State, sh: Shape, st1: State, sh1: Shape, x: nat, y: nat)
    requires AncestorsKept(g, st, sh, st1, sh1) && StateOk(g, st) && StateOk(g, st1)
    requires x in sh.depth && sh.depth[x] < sh.depth[st.cur] && ChildOf(g, st, x, y)
    ensures ChildOf(g, st1, x, y)
  {
    hide DirSlots, HasChild, SlotsOf;
    SlotsOfAre(g, st, sh, x);
    SlotsOfAre(g, st1, sh1, x);
  }

  lemma PathKept(g: Geo, st: State, sh: Shape, st1: State, sh1: Shape, p: seq<nat>)
    requires AncestorsKept(g, st, sh, st1, sh1) && StateOk(g, st) && StateOk(g, st1)
    requires Path(g, st, p) && p[|p| - 1] == st.cur
    ensures Path(g, st1, p)
  {
    hide ChildOf, AncestorsKept;
    assert Mounted(g, st.disk, st.tail, sh) by { AncestorsMounted(g, st, sh, st1, sh1); }
    hide Mounted;
    forall i, j | 0 <= i < |p| - 1 && j == i + 1
      ensures ChildOf(g, st1, p[i], p[j])
    {
      PathDeeper(g, st, sh, p, i, |p| - 1);
      ChildKept(g, st, sh, st1, sh1, p[i], p[j]);
    }
  }

  lemma AncestorsMounted(g: Geo, st: State, sh: Shape, st1: State, sh1: Shape)
    requires AncestorsKept(g, st, sh, st1, sh1)
    ensures Mounted(g, st.disk, st.tail, sh)
  {
  }

  lemma CurrentReachable(g: Geo, st: State, sh: Shape, st1: State, sh1: Shape)
    requires AncestorsKept(g, st, sh, st1, sh1) && StateOk(g, st) && StateOk(g, st1) && Reachable(g, st, st.cur)
    ensures Reachable(g, st1, st1.cur)
  {
    var p: seq<nat> :| Path(g, st, p) && p[|p| - 1] == st.cur;
    PathKept(g, st, sh, st1, sh1, p);
  }

  lemma ChangedAncestors(g: Geo, st: State, sh: Shape, st1: State, sh1: Shape, k: nat, sl: Slot)
    requires Live(g, st, sh) && Live(g, st1, sh1) && OneSlotChanged(g, st, sh, st1, sh1, k, sl)
    requires forall x | x in sh.depth && sh.depth[x] < sh.depth[st.cur] :: x in sh1.depth
    ensures AncestorsKept(g, st, sh, st1, sh1)
  {
    hide DirSlots, Mounted, SameFiles;
  }

  lemma SameAncestors(g: Geo, st: State, sh: Shape, st1: State, sh1: Shape)
    requires Live(g, st, sh) && Live(g, st1, sh1) && SameSlots(g, st.disk, sh, st1.disk, sh1) && st1.cur == st.cur
    ensures AncestorsKept(g, st, sh, st1, sh1)
  {
    hide DirSlots, Mounted;
  }

  lemma RemovedIsBelow(g: Geo, sh: Shape, x: nat, k: nat, sl: Slot)
    requires x in sh.depth && SlotOk(g, sh, x, k, sl) && (IsFile(sl) || IsSubdir(sl))
    ensures forall y | y in sh.depth && sh.depth[y] < sh.depth[x] :: y in RemovedShape(sh, FirstCluster(sl)).depth
  {
    hide ChainLbas, FirstCluster, IsFile, IsSubdir, FileSize;
  }

  lemma RemoveAncestors(g: Geo, st: State, sh: Shape, w: Want, k: nat)
    requires Removable(g, st, sh, k) && Find(DirSlots(g, st.disk, sh, st.cur), w, 0) == Some(k)
    ensures StateOk(g, st)
    ensures AncestorsKept(g, st, sh, After(st, Remove(g, st, w)),
      RemovedShape(sh, FirstCluster(DirSlots(g, st.disk, sh, st.cur)[k])))
  {
    RemoveKeeps(g, st, sh, w, k);
    RemoveChanges(g, st, sh, w, k);
    SlotIsOk(g, st.disk, st.tail, sh, st.cur, k);
    var sl := DirSlots(g, st.disk, sh, st.cur)[k];
    RemovedIsBelow(g, sh, st.cur, k, sl);
    hide Remove, DirSlots, Mounted, OneSlotChanged, SlotOk, FirstCluster, RemovedShape, AncestorsKept, Find;
    ChangedAncestors(g, st, sh, After(st, Remove(g, st, w)), RemovedShape(sh, FirstCluster(sl)), k, Marked(sl));
  }

  lemma FailedStoreSlots(g: Geo, st: State, sh: Shape, data: seq<Byte>)
    requires Live(g, st, sh) && StateOk(g, st)
    ensures var r := AllocOf(g, st, data); var st1 := State(Apply(st.disk, r.writes), st.cur, TailOf(g, r.table));
      AncestorsKept(g, st, sh, st1, sh)
  {
    FailedAllocKeeps(g, st, sh, data);
    var r := AllocOf(g, st, data);
    hide AllocOf, Mounted, Untouched, SameSlots, AncestorsKept;
    assert DirsOnDevice(g, st.disk, sh) by { MountedDirs(g, st.disk, st.tail, sh); }
    DirsKept(g, st.disk, Apply(st.disk, r.writes), sh);
    SameAncestors(g, st, sh, State(Apply(st.disk, r.writes), st.cur, TailOf(g, r.table)), sh);
  }

  lemma MountedDirs(g: Geo, d: Disk, tail: seq<Byte>, sh: Shape)
    requires Mounted(g, d, tail, sh)
    ensures DirsOnDevice(g, d, sh)
  {
  }

  lemma StoreAncestors(g: Geo, st: State, sh: Shape, name: Name, data: seq<Byte>) returns (sh1: Shape)
    requires Live(g, st, sh) && StateOk(g, st) && |data| < 0x1_0000_0000
    ensures AncestorsKept(g, st, sh, After(st, Store(g, st, name, data)), sh1)
  {
    hide AllocOf, Store, Mounted, SameSlots, AncestorsKept, StoreMid, OneSlotChanged, DirSlots, Find, StoreShape;
    if !AllocOf(g, st, data).ok {
      StoreUnfinished(g, st, sh, name, data);
      FailedStoreSlots(g, st, sh, data);
      sh1 := sh;
    } else {
      StoreMidKeeps(g, st, sh, data);
      match Find(CurrentSlots(g, st, sh), Vacant, 0) {
        case None =>
          StoreUnfinished(g, st, sh, name, data);
          sh1 := StoreShape(g, st, sh, data);
          StoreMidCur(g, st, data);
          SameAncestors(g, st, sh, StoreMid(g, st, data), sh1);
        case Some(k) =>
          StoredState(g, st, sh, name, data, k);
          sh1 := StoredShape(g, st, sh, data, k);
          ChangedAncestors(g, st, sh, After(st, Store(g, st, name, data)), sh1, k,
            FileSlot(name, AllocOf(g, st, data).chain, |data|));
      }
    }
  }

  lemma StoreMidCur(g: Geo, st: State, data: seq<Byte>)
    requires StateOk(g, st)
    ensures StoreMid(g, st, data).cur == st.cur
  {
  }

  // ---- fat_mkdir and fat_cd

  lemma MkdirRefusedIs(g: Geo, st: State, sh: Shape, name: Name)
    requires Live(g, st, sh) && StateOk(g, st)
    requires var c := FirstFree(g, TableOf(g, st)); c == 0 || ClusterStart(g, c) >= |st.disk|
    ensures AncestorsKept(g, st, sh, After(st, Mkdir(g, st, name)), sh)
  {
    MkdirIs(g, st, name);
    var t, c := TableOf(g, st), FirstFree(g, TableOf(g, st));
    if c == 0 {
      assert After(st, Mkdir(g, st, name)) == st;
    } else {
      TakenTable(g, t, c);
      hide Mkdir, Mounted, KeepsUsed, FirstFree, Get, Set, FatWrites, TableOf, ClusterStart, SameSlots, AncestorsKept,
        Untouched;
      DataAndTable(g, st.disk, st.tail, sh, [], Set(t, c, END_MARK));
      SameAncestors(g, st, sh, After(st, Mkdir(g, st, name)), sh);
    }
  }

  lemma MkdirDoneAncestors(g: Geo, st: State, sh: Shape, c: nat, u: Table, name: Name, k: nat) returns (sh1: Shape)
    requires Live(g, st, sh) && Takes(g, st, c, u) && RestClear(g, st.disk, c)
    requires Find(DirSlots(g, st.disk, sh, st.cur), Vacant, 0) == Some(k)
    ensures AncestorsKept(g, st, sh, After(st, Mkdir(g, st, name)), sh1)
  {
    var m, mid := MkdirMid(g, st, c, u), MadeShape(sh, st.cur, c);
    sh1 := WithOwner(mid, c, st.cur, k);
    MkdirMidKeeps(g, st, sh, c, u);
    MkdirDirKeeps(g, st, sh, c, u, m);
    MkdirDoneKeeps(g, st, sh, c, u, name, k);
    CurrentKnown(g, st, sh, c);
    hide Mkdir, Mounted, Find, TableOf, MkdirWrites, DirSlots, RestClear, NobodyRefers, SameSlots, OneSlotChanged,
      AncestorsKept, FirstFree;
    var sl := NewSlot(Split83(name), 0x10, c, 0);
    assert k < |CurrentSlots(g, m, mid)| by { SlotsLength(g, st, sh, m, mid, k); }
    MkdirDone(g, st, mid, c, u, name, k) by { SlotsEqual(g, st, sh, m, mid); }
    SlotWrittenChanged(g, m, mid, k, sl);
    SameButOwner(g, m, mid, After(st, Mkdir(g, st, name)), mid, sh1.owner, k, sl);
    MkdirAncestorsJoin(g, st, sh, m, mid, After(st, Mkdir(g, st, name)), sh1, k, sl);
  }

  lemma SlotsEqual(g: Geo, st: State, sh: Shape, m: State, mid: Shape)
    requires SameSlots(g, st.disk, sh, m.disk, mid) && st.cur in sh.depth
    ensures st.cur in mid.depth && DirsOnDevice(g, m.disk, mid) && DirsOnDevice(g, st.disk, sh)
    ensures DirSlots(g, m.disk, mid, st.cur) == DirSlots(g, st.disk, sh, st.cur)
  {
  }

  lemma SlotsLength(g: Geo, st: State, sh: Shape, m: State, mid: Shape, k: nat)
    requires SameSlots(g, st.disk, sh, m.disk, mid) && st.cur in sh.depth && k < |DirSlots(g, st.disk, sh, st.cur)|
    ensures st.cur in mid.depth && k < |DirSlots(g, m.disk, mid, st.cur)|
  {
  }

  lemma MkdirAncestorsJoin(g: Geo, st: State, sh: Shape, m: State, mid: Shape, e: State, sh1: Shape, k: nat, sl: Slot)
    requires Live(g, st, sh) && Live(g, e, sh1) && SameSlots(g, st.disk, sh, m.disk, mid) && m.cur == st.cur
    requires OneSlotChanged(g, m, mid, e, sh1, k, sl) && forall x | x in sh.depth :: x in sh1.depth
    ensures AncestorsKept(g, st, sh, e, sh1)
  {
    hide Mounted, DirSlots, SameFiles;
  }

  lemma MkdirAncestors(g: Geo, st: State, sh: Shape, name: Name) returns (sh1: Shape)
    requires Live(g, st, sh) && StateOk(g, st) && MkdirClear(g, st)
    ensures AncestorsKept(g, st, sh, After(st, Mkdir(g, st, name)), sh1)
  {
    var c := FirstFree(g, TableOf(g, st));
    sh1 := sh;
    hide Mkdir, Mounted, RestClear, Set, DirSlots, Find, AncestorsKept, SameSlots, MkdirMid;
    if c == 0 || ClusterStart(g, c) >= |st.disk| {
      MkdirRefusedIs(g, st, sh, name);
    } else {
      OnDeviceBelowLimit(g, |st.disk|, c);
      var u := Set(TableOf(g, st), c, END_MARK);
      match Find(CurrentSlots(g, st, sh), Vacant, 0) {
        case None => MkdirFullAncestors(g, st, sh, c, u, name);
        case Some(k) => sh1 := MkdirDoneAncestors(g, st, sh, c, u, name, k);
      }
    }
  }

  lemma MkdirFullAncestors(g: Geo, st: State, sh: Shape, c: nat, u: Table, name: Name)
    requires Live(g, st, sh) && Takes(g, st, c, u) && Find(DirSlots(g, st.disk, sh, st.cur), Vacant, 0).None?
    ensures AncestorsKept(g, st, sh, After(st, Mkdir(g, st, name)), sh)
  {
    MkdirMidKeeps(g, st, sh, c, u);
    MkdirOutcome(g, st, sh, c, u, name);
    SlotsEqual(g, st, sh, MkdirMid(g, st, c, u), sh);
    hide Mkdir, Mounted, Find, DirSlots, SameSlots, AncestorsKept, Untouched, MkdirWrites, Takes;
    SameAncestors(g, st, sh, MkdirMid(g, st, c, u), sh);
  }

  /** fat_cd goes to the root, to a child of the current directory, or nowhere. */
  lemma CdGoes(g: Geo, st: State, sh: Shape, name: Name)
    requires Live(g, st, sh) && StateOk(g, st)
    ensures var y := Cd(g, st, name).cur; y == 0 || y == st.cur || ChildOf(g, st, st.cur, y)
  {
    CdAgrees(g, st, sh, name);
    SlotsOfAre(g, st, sh, st.cur);
    var r := Find(DirSlots(g, st.disk, sh, st.cur), Subdir(name), 0);
    hide Cd, Mounted, DirSlots, SlotsOf;
    if r.Some? {
      assert IsSubdir(SlotsOf(g, st, st.cur)[r.value]);
    }
  }

  lemma CdState(g: Geo, st: State, sh: Shape, name: Name)
    requires Live(g, st, sh)
    ensures StateOk(g, st)
    ensures var st1 := After(st, Cd(g, st, name));
      StateOk(g, st1) && st1.disk == st.disk && st1.tail == st.tail && st1.cur == Cd(g, st, name).cur
  {
    CdKeeps(g, st, sh, name);
    CdTarget(g, st, sh, name);
    LiveStateOk(g, After(st, Cd(g, st, name)), sh);
    hide Cd, Mounted;
  }

  lemma ReachableBy(g: Geo, st: State, p: seq<nat>, y: nat)
    requires StateOk(g, st) && Path(g, st, p) && p[|p| - 1] == y
    ensures Reachable(g, st, y)
  {
  }

  /** cur and the return code are the only things fat_cd changes. */
  lemma SameTree(g: Geo, st: State, st1: State, x: nat, y: nat)
    requires StateOk(g, st) && StateOk(g, st1) && st1.disk == st.disk && st1.tail == st.tail && ChildOf(g, st, x, y)
    ensures ChildOf(g, st1, x, y)
  {
  }

  lemma CdPath(g: Geo, st: State, st1: State, p: seq<nat>)
    requires StateOk(g, st) && StateOk(g, st1) && st1.disk == st.disk && st1.tail == st.tail && Path(g, st, p)
    ensures Path(g, st1, p)
  {
    hide ChildOf, StateOk;
    forall i, j | 0 <= i < |p| - 1 && j == i + 1
      ensures ChildOf(g, st1, p[i], p[j])
    {
      SameTree(g, st, st1, p[i], p[j]);
    }
  }

  lemma PathExtended(g: Geo, st: State, p: seq<nat>, y: nat)
    requires StateOk(g, st) && Path(g, st, p) && ChildOf(g, st, p[|p| - 1], y)
    ensures Reachable(g, st, y)
  {
    hide ChildOf, StateOk;
    var q := p + [y];
    forall i, j | 0 <= i < |q| - 1 && j == i + 1
      ensures ChildOf(g, st, q[i], q[j])
    {
      assert i < |p| - 1 ==> q[i] == p[i] && q[j] == p[j];
    }
    ReachableBy(g, st, q, y);
  }

  lemma CdReachable(g: Geo, st: State, sh: Shape, name: Name)
    requires Live(g, st, sh) && StateOk(g, st) && Reachable(g, st, st.cur)
    ensures var st1 := After(st, Cd(g, st, name)); StateOk(g, st1) && Reachable(g, st1, st1.cur)
  {
    CdGoes(g, st, sh, name);
    CdState(g, st, sh, name);
    var st1 := After(st, Cd(g, st, name));
    var p: seq<nat> :| Path(g, st, p) && p[|p| - 1] == st.cur;
    hide Cd, Live, ChildOf, StateOk, Reachable;
    CdPath(g, st, st1, p);
    if st1.cur == 0 {
      RootReachable(g, st1);
    } else if st1.cur == st.cur {
      ReachableBy(g, st1, p, st.cur);
    } else {
      SameTree(g, st, st1, st.cur, st1.cur);
      PathExtended(g, st1, p, st1.cur);
    }
  }

  lemma RootReachable(g: Geo, st: State)
    requires StateOk(g, st)
    ensures Reachable(g, st, 0)
  {
    ReachableBy(g, st, [0], 0);
  }

  // ---- runs

  lemma PerformReachable(g: Geo, st: State, op: Op)
    requires WellFormed(g, st) && StateOk(g, st) && Callable(op) && (op.MkdirOp? ==> MkdirClear(g, st))
    requires Reachable(g, st, st.cur)
    ensures var st1 := After(st, Perform(g, st, op)); StateOk(g, st1) && Reachable(g, st1, st1.cur)
  {
    hide WriteFile, Remove, Rename, Mkdir, Cd, Mounted, Reachable, StateOk, MkdirClear, AncestorsKept;
    PerformKeeps(g, st, op);
    WellFormedOk(g, After(st, Perform(g, st, op)));
    var sh :| Live(g, st, sh);
    match op {
      case WriteOp(name, data) => WriteReachable(g, st, sh, name, data);
      case DeleteOp(name) => RemoveReachable(g, st, sh, File(name));
      case RenameOp(name, newName) => RenameReachable(g, st, sh, name, newName);
      case MkdirOp(name) =>
        var sh1 := MkdirAncestors(g, st, sh, name);
        CurrentReachable(g, st, sh, After(st, Mkdir(g, st, name)), sh1);
      case RmdirOp(name) => RemoveReachable(g, st, sh, Subdir(name));
      case CdOp(name) => CdReachable(g, st, sh, name);
    }
  }

  lemma RemoveReachable(g: Geo, st: State, sh: Shape, w: Want)
    requires Live(g, st, sh) && StateOk(g, st) && Reachable(g, st, st.cur) && !w.Vacant?
    ensures var st1 := After(st, Remove(g, st, w)); StateOk(g, st1) && Reachable(g, st1, st1.cur)
  {
    hide Word, FileSize, Slots, Joined, Get, Reachable, ChainsApart, DirOk, IsChain, Find, Freed, FatWrites,
      FirstCluster, LbasOf, DirLbas;
    FindAgrees(g, st, sh, w);
    match Find(DirSlots(g, st.disk, sh, st.cur), w, 0) {
      case None =>
        assert After(st, Remove(g, st, w)) == st;
      case Some(k) =>
        RemoveAncestors(g, st, sh, w, k);
        hide Remove, Mounted, Reachable, DirSlots, Find;
        var sh1 := RemovedShape(sh, FirstCluster(CurrentSlots(g, st, sh)[k]));
        AncestorsLive(g, st, sh, After(st, Remove(g, st, w)), sh1);
        CurrentReachable(g, st, sh, After(st, Remove(g, st, w)), sh1);
    }
  }

  lemma AncestorsLive(g: Geo, st: State, sh: Shape, st1: State, sh1: Shape)
    requires AncestorsKept(g, st, sh, st1, sh1)
    ensures StateOk(g, st1)
  {
    LiveStateOk(g, st1, sh1);
  }

  lemma RenameReachable(g: Geo, st: State, sh: Shape, oldName: Name, newName: Name)
    requires Live(g, st, sh) && StateOk(g, st) && Reachable(g, st, st.cur)
    ensures var st1 := After(st, Rename(g, st, oldName, newName)); StateOk(g, st1) && Reachable(g, st1, st1.cur)
  {
    FindAgrees(g, st, sh, File(oldName));
    match Find(DirSlots(g, st.disk, sh, st.cur), File(oldName), 0) {
      case None =>
        assert After(st, Rename(g, st, oldName, newName)) == st;
      case Some(k) =>
        RenameChanges(g, st, sh, oldName, newName, k);
        hide Rename, Mounted, Reachable, DirSlots, Find, OneSlotChanged, AncestorsKept;
        var st1 := After(st, Rename(g, st, oldName, newName));
        ChangedAncestors(g, st, sh, st1, sh, k, Renamed(CurrentSlots(g, st, sh)[k], newName));
        CurrentReachable(g, st, sh, st1, sh);
    }
  }

  lemma WriteReachable(g: Geo, st: State, sh: Shape, name: Name, data: seq<Byte>)
    requires Live(g, st, sh) && StateOk(g, st) && |data| < 0x1_0000_0000 && Reachable(g, st, st.cur)
    ensures var st1 := After(st, WriteFile(g, st, name, data)); StateOk(g, st1) && Reachable(g, st1, st1.cur)
  {
    WriteAfter(g, st, name, data);
    RemoveReachable(g, st, sh, File(name));
    WellFormedDelete(g, st, sh, name);
    var del := After(st, Delete(g, st, name));
    var sh1 :| Live(g, del, sh1);
    hide WriteFile, Store, Remove, Mounted, Reachable, AncestorsKept;
    var sh2 := StoreAncestors(g, del, sh1, name, data);
    AncestorsLive(g, del, sh1, After(del, Store(g, del, name, data)), sh2);
    CurrentReachable(g, del, sh1, After(del, Store(g, del, name, data)), sh2);
  }

  lemma WellFormedDelete(g: Geo, st: State, sh: Shape, name: Name)
    requires Live(g, st, sh)
    ensures StateOk(g, st) && WellFormed(g, After(st, Delete(g, st, name)))
  {
    RemoveWellFormed(g, st, File(name));
  }

  /** In every state of every run, the current directory is the root or a live
      directory that can be reached from it. */
  lemma {:induction false} RunReachable(g: Geo, st: State, ops: seq<Op>, end: State)
    requires WellFormed(g, st) && StateOk(g, st) && Reachable(g, st, st.cur) && Run(g, st, ops, end)
    ensures WellFormed(g, end) && StateOk(g, end) && Reachable(g, end, end.cur)
    decreases |ops|
  {
    if ops != [] {
      PerformKeeps(g, st, ops[0]);
      PerformReachable(g, st, ops[0]);
      hide Perform, WellFormed, Reachable;
      RunReachable(g, After(st, Perform(g, st, ops[0])), ops[1..], end);
    }
  }
}
