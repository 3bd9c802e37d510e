/** fat_mkdir: when the directory it makes is a well-formed one. */
module Subdirectories {
  import opened Bytes
  import opened Names
  import opened FatTable
  import opened Layout
  import opened Directory
  import opened FatSpec
  import opened Formats
  import opened Volume
  import opened Removal
  import opened Allocation
  import opened Addition

  /** The sectors of cluster c behind the first one, which fat_mkdir does not
      clear, start no slot, and all of the cluster is on the device. */
  ghost predicate RestClear(g: Geo, d: Disk, c: nat) {
    && OnDevice(d, ClusterLbas(g, c))
    && forall k | SLOTS <= k < SLOTS * g.spc :: Slots(d, ClusterLbas(g, c))[k][0] == 0
  }

  /** fat_mkdir meets no stale sector: always so with one sector per cluster. */
  ghost predicate MkdirClear(g: Geo, st: State)
    requires StateOk(g, st)
  {
    var c := FirstFree(g, TableOf(g, st));
    c != 0 && ClusterStart(g, c) < |st.disk| ==> RestClear(g, st.disk, c)
  }

  lemma OneSectorClear(g: Geo, st: State)
    requires StateOk(g, st) && g.spc == 1
    ensures MkdirClear(g, st)
  {
    var c := FirstFree(g, TableOf(g, st));
    assert forall i | 0 <= i < |ClusterLbas(g, c)| :: ClusterLbas(g, c)[i] == ClusterStart(g, c);
  }

  lemma DotNames()
    ensures DOT_NAME[0] == DOT && DOTDOT_NAME[0] == DOT
  {
    assert DOT_NAME[0] == Pad([DOT], 8)[..1][0];
    assert DOTDOT_NAME[0] == Pad([DOT, DOT], 8)[..2][0];
  }

  predicate DotSlot(sl: Slot) { sl[0] == DOT && sl[11] == 0x10 }

  lemma DotSlots(c: nat, parent: nat, i: nat)
    requires c < ENTRIES && parent < ENTRIES && i < SLOTS
    ensures var sl := SlotAt(DotSector(c, parent), i); if i < 2 then DotSlot(sl) else sl[0] == 0
  {
    hide Times;
    DotNames();
    var a := PutSlot(Zeros(SECTOR_SIZE), 0, NewSlot(DOT_NAME, 0x10, c, 0));
    assert DotSector(c, parent) == PutSlot(a, 1, NewSlot(DOTDOT_NAME, 0x10, parent, 0));
    hide NewSlot, DotSector, PutSlot;
    if i >= 2 {
      assert SlotAt(DotSector(c, parent), i) == SlotAt(Zeros(SECTOR_SIZE), i);
    }
  }

  /** Two dot entries and nothing else. */
  predicate DotsOnly(sec: Sector) {
    forall i | 0 <= i < SLOTS :: if i < 2 then DotSlot(SlotAt(sec, i)) else SlotAt(sec, i)[0] == 0
  }

  lemma DotSectorSlots(c: nat, parent: nat)
    requires c < ENTRIES && parent < ENTRIES
    ensures SlotAt(DotSector(c, parent), 0) == NewSlot(DOT_NAME, 0x10, c, 0)
    ensures SlotAt(DotSector(c, parent), 1) == NewSlot(DOTDOT_NAME, 0x10, parent, 0)
    ensures forall i | 2 <= i < SLOTS :: SlotAt(DotSector(c, parent), i) == SlotAt(Zeros(SECTOR_SIZE), i)
  {
    hide NewSlot, SlotAt;
  }

  lemma DotReads(raw: RawName, n: nat)
    requires n <= 2 && forall i | 0 <= i < 11 :: raw[i] == if i < n then DOT else SPACE
    ensures MakeName(raw) == raw[..n]
  {
    ReadableName(raw, n, 0);
  }

  lemma DotNameBytes()
    ensures forall i | 0 <= i < 11 :: DOT_NAME[i] == if i < 1 then DOT else SPACE
    ensures forall i | 0 <= i < 11 :: DOTDOT_NAME[i] == if i < 2 then DOT else SPACE
  {
    PadBytes([DOT], 8);
    PadBytes([DOT, DOT], 8);
    PadBytes([], 3);
    hide Pad;
  }

  lemma PadBytes(s: seq<Byte>, n: nat)
    requires |s| <= n
    ensures |Pad(s, n)| == n && forall i | 0 <= i < n :: Pad(s, n)[i] == if i < |s| then s[i] else SPACE
  {
  }

  /** All of the sector in bytes: the names . and .. as fat_list shows them, the
      attribute 0x10, the two clusters, and zeros. */
  lemma MadeSectorBytes(c: nat, parent: nat)
    requires c < ENTRIES && parent < ENTRIES
    ensures var sec := DotSector(c, parent);
      && MakeName(sec[..11]) == [0x2E] && MakeName(sec[32..43]) == [0x2E, 0x2E]
      && sec[11] == 0x10 && sec[43] == 0x10
      && Number16(sec, 26) == c && Number16(sec, 58) == parent && Number32(sec, 28) == 0 && Number32(sec, 60) == 0
      && (forall j | 12 <= j < 26 || 44 <= j < 58 || 64 <= j < 512 :: sec[j] == 0)
  {
    var sec := DotSector(c, parent);
    DotSectorSlots(c, parent);
    NewSlotFields(DOT_NAME, 0x10, c, 0);
    NewSlotFields(DOTDOT_NAME, 0x10, parent, 0);
    hide DotSector, NewSlot, PutSlot, MakeName, DOT_NAME, DOTDOT_NAME;
    DotNamesRead();
    SlotIsBytes(sec, 0);
    SlotIsBytes(sec, 1);
    forall j | 64 <= j < 512
      ensures sec[j] == 0
    {
      SlotIsBytes(sec, j / 32);
      SlotIsBytes(Zeros(SECTOR_SIZE), j / 32);
      assert sec[j] == SlotAt(sec, j / 32)[j % 32] == Zeros(SECTOR_SIZE)[j];
    }
    hide SlotAt, Zeros;
    assert sec[..11] == SlotAt(sec, 0)[..11] && sec[32..43] == SlotAt(sec, 1)[..11];
  }

  lemma DotNamesRead()
    ensures MakeName(DOT_NAME) == [0x2E] && MakeName(DOTDOT_NAME) == [0x2E, 0x2E]
  {
    DotNameBytes();
    hide DOT_NAME, DOTDOT_NAME, MakeName, Pad;
    DotReads(DOT_NAME, 1);
    DotReads(DOTDOT_NAME, 2);
  }

  lemma SlotIsBytes(sec: Sector, i: nat)
    requires i < SLOTS
    ensures |SlotAt(sec, i)| == 32 && forall j | 0 <= j < 32 :: SlotAt(sec, i)[j] == sec[32 * i + j]
  {
    SlotFields(sec, i);
  }

  /** The first sector that fat_mkdir writes. */
  lemma MadeSector(c: nat, parent: nat)
    requires c < ENTRIES && parent < ENTRIES
    ensures DotsOnly(DotSector(c, parent))
    ensures FirstCluster(SlotAt(DotSector(c, parent), 0)) == c
      && FirstCluster(SlotAt(DotSector(c, parent), 1)) == parent
  {
    hide DotSlot, Times;
    forall i | 0 <= i < SLOTS
      ensures if i < 2 then DotSlot(SlotAt(DotSector(c, parent), i)) else SlotAt(DotSector(c, parent), i)[0] == 0
    {
      DotSlots(c, parent, i);
    }
    hide NewSlot, PutSlot, SlotAt;
  }

  lemma NewDirSlot(g: Geo, d: Disk, c: nat, k: nat)
    requires GeoOk(g) && OnDevice(d, ClusterLbas(g, c))
    requires DotsOnly(d[ClusterLbas(g, c)[0]]) && k < SLOTS
    ensures var slots := Slots(d, ClusterLbas(g, c));
      k < |slots| && if k < 2 then DotSlot(slots[k]) else slots[k][0] == 0
  {
    assert k / SLOTS == 0 && k % SLOTS == k;
    hide SlotAt, ClusterLbas, DotSlot;
    assert Slots(d, ClusterLbas(g, c))[k] == SlotAt(d[ClusterLbas(g, c)[0]], k);
  }

  /** The directory that fat_mkdir makes is well-formed exactly if the sectors
      it did not clear start no slot. */
  lemma {:induction false} MadeDirectory(g: Geo, d: Disk, c: nat)
    requires GeoOk(g) && OnDevice(d, ClusterLbas(g, c))
    requires DotsOnly(d[ClusterLbas(g, c)[0]])
    ensures ZeroTail(Slots(d, ClusterLbas(g, c))) <==> RestClear(g, d, c)
  {
    var slots := Slots(d, ClusterLbas(g, c));
    NewDirSlot(g, d, c, 2);
    forall k | 0 <= k < SLOTS
      ensures slots[k][0] == 0 <==> k >= 2
    {
      NewDirSlot(g, d, c, k);
    }
    hide Slots, SlotAt, ClusterLbas;
    assert ZeroTail(slots) ==> forall k | SLOTS <= k < SLOTS * g.spc :: slots[k][0] == 0;
  }

  /** Cluster c is ready to be an empty directory. */
  ghost predicate DirReady(g: Geo, d: Disk, c: nat) {
    && GeoOk(g) && RestClear(g, d, c)
    && DotsOnly(d[ClusterLbas(g, c)[0]])
  }

  function WithDir(sh: Shape, c: nat, level: nat): Shape {
    sh.(depth := sh.depth[c := level], chains := sh.chains[c := [c]])
  }

  lemma SlotOkWithDir(g: Geo, sh: Shape, c: nat, level: nat, x: nat, k: nat, sl: Slot)
    requires x in sh.depth && SlotOk(g, sh, x, k, sl) && c !in sh.chains && c != 0
    requires forall y | y in sh.depth && y != 0 :: y in sh.chains
    ensures SlotOk(g, WithDir(sh, c, level), x, k, sl)
  {
  }

  lemma DirOkWithDir(g: Geo, sh: Shape, c: nat, level: nat, x: nat, slots: seq<Slot>)
    requires x in sh.depth && DirOk(g, sh, x, slots) && c !in sh.chains && c != 0
    requires forall y | y in sh.depth && y != 0 :: y in sh.chains
    ensures DirOk(g, WithDir(sh, c, level), x, slots)
  {
    forall k | 0 <= k < |slots|
      ensures SlotOk(g, WithDir(sh, c, level), x, k, slots[k])
    {
      SlotOkWithDir(g, sh, c, level, x, k, slots[k]);
    }
  }

  lemma EmptyDirOk(g: Geo, sh: Shape, d: Disk, c: nat)
    requires c in sh.depth && DirReady(g, d, c)
    ensures DirOk(g, sh, c, Slots(d, ClusterLbas(g, c)))
  {
    MadeDirectory(g, d, c);
    EmptyDirSlots(g, d, c);
    hide Slots;
  }

  predicate NotReferring(slots: seq<Slot>, c: nat) { forall k | 0 <= k < |slots| :: !Refers(slots[k], c) }

  lemma DotOrFree(sl: Slot)
    requires DotSlot(sl) || sl[0] == 0
    ensures !IsFile(sl) && !IsSubdir(sl)
  {
  }

  lemma EmptyDirSlot(g: Geo, d: Disk, c: nat, k: nat)
    requires DirReady(g, d, c) && k < SLOTS * g.spc
    ensures var sl := Slots(d, ClusterLbas(g, c))[k]; !IsFile(sl) && !IsSubdir(sl)
  {
    if k < SLOTS {
      NewDirSlot(g, d, c, k);
    }
    hide DotSlot, IsFile, IsSubdir;
    DotOrFree(Slots(d, ClusterLbas(g, c))[k]);
  }

  lemma EmptyDirSlots(g: Geo, d: Disk, c: nat)
    requires DirReady(g, d, c)
    ensures forall k | 0 <= k < SLOTS * g.spc :: var sl := Slots(d, ClusterLbas(g, c))[k]; !IsFile(sl) && !IsSubdir(sl)
    ensures NotReferring(Slots(d, ClusterLbas(g, c)), c)
  {
    forall k | 0 <= k < SLOTS * g.spc
      ensures var sl := Slots(d, ClusterLbas(g, c))[k]; !IsFile(sl) && !IsSubdir(sl)
    {
      EmptyDirSlot(g, d, c, k);
    }
    hide IsFile, IsSubdir, DotSector;
  }

  lemma SingleChainLbas(g: Geo, c: nat)
    ensures ChainLbas(g, [c]) == ClusterLbas(g, c)
  {
    assert [c][1..] == [];
  }

  /** Adding a directory with an allocated, so far unused cluster. */
  lemma NewDirMounted(g: Geo, d: Disk, tail: seq<Byte>, sh: Shape, t: Table, c: nat, level: nat)
    requires Mounted(g, d, tail, sh) && ShapeOk(g, t, sh) && KeepsUsed(g, t, Buffer(g, d, tail))
    requires 2 <= c < Limit(g) && Get(t, c) == 0 && Get(Buffer(g, d, tail), c) == END_MARK
    requires DirReady(g, d, c)
    ensures Mounted(g, d, tail, WithDir(sh, c, level)) && c !in sh.chains
    ensures SameSlots(g, d, sh, d, WithDir(sh, c, level))
    ensures NobodyRefers(g, d, WithDir(sh, c, level), c)
  {
    var sh' := WithDir(sh, c, level);
    assert IsChain(Buffer(g, d, tail), [c], Limit(g));
    NewChainShape(g, t, Buffer(g, d, tail), sh, [c]);
    SingleChainLbas(g, c);
    UnknownNobodyRefers(g, d, tail, sh, c);
    NewDirParts(g, d, tail, sh, c, level);
    NewDirUnreferenced(g, d, sh, c, level);
  }

  lemma DirsWithDir(g: Geo, d: Disk, sh: Shape, c: nat, level: nat)
    requires DirsOnDevice(g, d, sh) && c !in sh.chains && c != 0 && OnDevice(d, ChainLbas(g, [c]))
    ensures SameSlots(g, d, sh, d, WithDir(sh, c, level)) && LbasOf(g, WithDir(sh, c, level), c) == ChainLbas(g, [c])
  {
    hide Slots, ChainLbas, RootLbas;
    var sh' := WithDir(sh, c, level);
    assert forall x | x in sh.depth :: LbasOf(g, sh', x) == LbasOf(g, sh, x);
  }

  ghost predicate AllDirsOk(g: Geo, d: Disk, sh: Shape) {
    DirsOnDevice(g, d, sh) && forall x | x in sh.depth :: DirOk(g, sh, x, DirSlots(g, d, sh, x))
  }

  lemma AllDirsOkWithDir(g: Geo, d: Disk, sh: Shape, c: nat, level: nat)
    requires AllDirsOk(g, d, sh) && c !in sh.chains && c != 0
    requires DirReady(g, d, c) && ChainLbas(g, [c]) == ClusterLbas(g, c)
    ensures AllDirsOk(g, d, WithDir(sh, c, level)) && SameSlots(g, d, sh, d, WithDir(sh, c, level))
  {
    var sh' := WithDir(sh, c, level);
    DirsWithDir(g, d, sh, c, level);
    EmptyDirOk(g, sh', d, c);
    hide Slots, ChainLbas, ClusterLbas, LbasOf, DirOk, DirReady;
    forall x | x in sh.depth
      ensures DirOk(g, sh', x, DirSlots(g, d, sh', x))
    {
      DirOkWithDir(g, sh, c, level, x, DirSlots(g, d, sh, x));
    }
    assert DirOk(g, sh', c, DirSlots(g, d, sh', c)) by {
      assert DirSlots(g, d, sh', c) == Slots(d, ChainLbas(g, [c]));
    }
  }

  lemma NewDirParts(g: Geo, d: Disk, tail: seq<Byte>, sh: Shape, c: nat, level: nat)
    requires Mounted(g, d, tail, sh) && ShapeOk(g, Buffer(g, d, tail), WithChain(sh, [c])) && c !in sh.chains && c != 0
    requires DirReady(g, d, c) && ChainLbas(g, [c]) == ClusterLbas(g, c)
    ensures Mounted(g, d, tail, WithDir(sh, c, level))
    ensures SameSlots(g, d, sh, d, WithDir(sh, c, level))
  {
    AllDirsOkWithDir(g, d, sh, c, level);
    hide DirReady, DirSlots, LbasOf, DirOk, ChainLbas, ClusterLbas, Buffer, IsChain;
  }

  lemma NewDirUnreferenced(g: Geo, d: Disk, sh: Shape, c: nat, level: nat)
    requires c !in sh.depth && SameSlots(g, d, sh, d, WithDir(sh, c, level)) && NobodyRefers(g, d, sh, c)
    requires DirReady(g, d, c) && ChainLbas(g, [c]) == ClusterLbas(g, c) && c != 0
    ensures NobodyRefers(g, d, WithDir(sh, c, level), c)
  {
    var sh' := WithDir(sh, c, level);
    EmptyDirSlots(g, d, c);
    assert LbasOf(g, sh', c) == ClusterLbas(g, c);
    NobodyRefersByDir(g, d, sh', c);
  }

  lemma NobodyRefersByDir(g: Geo, d: Disk, sh: Shape, c: nat)
    requires DirsOnDevice(g, d, sh) && forall x | x in sh.depth :: NotReferring(DirSlots(g, d, sh, x), c)
    ensures NobodyRefers(g, d, sh, c)
  {
    hide Refers, DirSlots, LbasOf;
    forall x, j | x in sh.depth && 0 <= j < |DirSlots(g, d, sh, x)|
      ensures !Refers(DirSlots(g, d, sh, x)[j], c)
    {
      assert NotReferring(DirSlots(g, d, sh, x), c);
    }
  }
}
