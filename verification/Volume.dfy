/** The volume invariant, and what a table save, a slot write, an allocation
    and a freed chain do to it. */
module Volume {
  import opened Bytes
  import opened FatTable
  import opened Layout
  import opened Directory
  import opened FatSpec

  /** depth: every directory there is or was made (0 is the root), with a
      number that grows from parent to child.  chains: the cluster chain of
      every directory but the root and of every non-empty file, by first
      cluster.  owner: the directory and the slot that refer to a chain. */
  datatype Shape = Shape(depth: map<nat, nat>, chains: map<nat, seq<nat>>, owner: map<nat, (nat, nat)>)

  predicate ChainsOk(g: Geo, t: Table, chains: map<nat, seq<nat>>)
    requires GeoOk(g)
  {
    && 0 !in chains
    && (forall h | h in chains :: IsChain(t, chains[h], Limit(g)) && chains[h][0] == h)
  }

  ghost predicate ChainsApart(chains: map<nat, seq<nat>>) {
    forall h, i {:trigger Apart(chains[h], chains[i])} | h in chains && i in chains && h != i ::
      Apart(chains[h], chains[i])
  }

  ghost predicate ShapeOk(g: Geo, t: Table, sh: Shape)
    requires GeoOk(g)
  {
    && ChainsOk(g, t, sh.chains)
    && ChainsApart(sh.chains)
    && 0 in sh.depth
    && forall x | x in sh.depth && x != 0 :: x in sh.chains
  }

  function LbasOf(g: Geo, sh: Shape, x: nat): seq<nat>
    requires x == 0 || x in sh.chains
  {
    if x == 0 then RootLbas(g) else ChainLbas(g, sh.chains[x])
  }

  predicate SlotOk(g: Geo, sh: Shape, x: nat, k: nat, sl: Slot)
    requires x in sh.depth
  {
    var c := FirstCluster(sl);
    && (IsSubdir(sl) ==> c != 0 && c in sh.depth && sh.depth[c] > sh.depth[x] && c in sh.owner && sh.owner[c] == (x, k))
    && (IsFile(sl) && c == 0 ==> FileSize(sl) == 0)
    && (IsFile(sl) && c != 0 ==> c in sh.chains && c !in sh.depth && c in sh.owner && sh.owner[c] == (x, k))
    && (IsFile(sl) && c != 0 ==> FileSize(sl) <= SECTOR_SIZE * |ChainLbas(g, sh.chains[c])|)
  }

  predicate DirOk(g: Geo, sh: Shape, x: nat, slots: seq<Slot>)
    requires x in sh.depth
  {
    ZeroTail(slots) && forall k | 0 <= k < |slots| :: SlotOk(g, sh, x, k, slots[k])
  }

  ghost predicate DirsOnDevice(g: Geo, d: Disk, sh: Shape)
  {
    && 0 in sh.depth
    && forall x | x in sh.depth :: (x == 0 || x in sh.chains) && OnDevice(d, LbasOf(g, sh, x))
  }

  function DirSlots(g: Geo, d: Disk, sh: Shape, x: nat): seq<Slot>
    requires DirsOnDevice(g, d, sh) && x in sh.depth
  {
    Slots(d, LbasOf(g, sh, x))
  }

  /** Every directory of sh is there in sh1 too, with the same slots. */
  ghost predicate SameSlots(g: Geo, d: Disk, sh: Shape, e: Disk, sh1: Shape) {
    && DirsOnDevice(g, d, sh) && DirsOnDevice(g, e, sh1)
    && forall x | x in sh.depth :: x in sh1.depth && DirSlots(g, e, sh1, x) == DirSlots(g, d, sh, x)
  }

  /** The directories and the chains of sh are there, whatever their slots hold. */
  ghost predicate Seen(g: Geo, d: Disk, tail: seq<Byte>, sh: Shape) {
    GeoOk(g) && DiskOk(g, d) && TailOk(g, tail) && ShapeOk(g, Buffer(g, d, tail), sh) && DirsOnDevice(g, d, sh)
  }

  /** A well-formed volume. */
  ghost predicate Mounted(g: Geo, d: Disk, tail: seq<Byte>, sh: Shape) {
    && GeoOk(g) && DiskOk(g, d) && TailOk(g, tail)
    && ShapeOk(g, Buffer(g, d, tail), sh)
    && DirsOnDevice(g, d, sh)
    && forall x | x in sh.depth :: DirOk(g, sh, x, DirSlots(g, d, sh, x))
  }

  ghost predicate Live(g: Geo, st: State, sh: Shape) {
    Mounted(g, st.disk, st.tail, sh) && st.cur in sh.depth
  }

  lemma LiveStateOk(g: Geo, st: State, sh: Shape)
    requires Live(g, st, sh)
    ensures StateOk(g, st)
  {
    if st.cur != 0 {
      assert sh.chains[st.cur][0] == st.cur;
    }
  }

  // ---- agreement between the walks of the code and the chains

  lemma {:induction false} InRangeAll(lbas: seq<nat>, n: nat)
    requires forall i | 0 <= i < |lbas| :: lbas[i] < n
    ensures InRange(lbas, n) == lbas
  {
    if lbas != [] {
      InRangeAll(lbas[1..], n);
    }
  }

  /** read_dir_sector delivers exactly the sectors of the directory's chain,
      whatever table is in memory as long as it has the chain. */
  lemma DirLbasAre(g: Geo, t: Table, d: Disk, sh: Shape, x: nat)
    requires GeoOk(g) && ShapeOk(g, t, sh) && DirsOnDevice(g, d, sh) && x in sh.depth
    ensures DirLbas(g, t, x, |d|) == LbasOf(g, sh, x)
  {
    if x != 0 {
      var ch := sh.chains[x];
      DistinctBounded(ch, Limit(g));
      WalkIsChain(t, ch, Limit(g), 0xFF7, ENTRIES);
    }
    InRangeAll(LbasOf(g, sh, x), |d|);
  }

  lemma FollowedSector(g: Geo, t: Table, ch: seq<nat>, q: nat, r: nat)
    requires GeoOk(g) && IsChain(t, ch, Limit(g)) && q < |ch|
    ensures 2 <= ch[0] < ENTRIES && LbaAt(g, Follow(t, ch[0], q), r) == ClusterStart(g, ch[q]) + r
  {
    FollowChain(t, ch, Limit(g), q);
    assert ch[0] >= 2 && ch[q] >= 2;
  }

  lemma WriteBackChain(g: Geo, t: Table, ch: seq<nat>, s: nat)
    requires GeoOk(g) && IsChain(t, ch, Limit(g)) && s < |ChainLbas(g, ch)|
    ensures WriteBackLba(g, t, ch[0], s) == ChainLbas(g, ch)[s]
  {
    var q, r := ChainLbasAt(g, ch, s);
    FollowedSector(g, t, ch, q, r);
  }

  /** The sector written back is the one that was scanned, for every table in
      memory that has the directory's chain. */
  lemma WriteBackAgrees(g: Geo, t: Table, sh: Shape, x: nat, s: nat)
    requires GeoOk(g) && ShapeOk(g, t, sh) && x in sh.depth && x < ENTRIES && s < |LbasOf(g, sh, x)|
    ensures WriteBackLba(g, t, x, s) == LbasOf(g, sh, x)[s]
  {
    if x != 0 {
      WriteBackChain(g, t, sh.chains[x], s);
    }
  }

  // ---- regions

  lemma LbasAfterFat(g: Geo, t: Table, sh: Shape, x: nat, i: nat)
    requires GeoOk(g) && ShapeOk(g, t, sh) && x in sh.depth && i < |LbasOf(g, sh, x)|
    ensures LbasOf(g, sh, x)[i] >= RootStart(g)
  {
    if x != 0 {
      ChainLbasAfterRoot(g, sh.chains[x], LbasOf(g, sh, x)[i]);
    }
  }

  lemma ChainAtLeastTwo(g: Geo, t: Table, sh: Shape, h: nat)
    requires GeoOk(g) && ShapeOk(g, t, sh) && h in sh.chains
    ensures AtLeastTwo(sh.chains[h]) && Distinct(sh.chains[h])
  {
  }

  /** A sector of one directory is a sector of no other directory or file. */
  lemma DirApart(g: Geo, t: Table, sh: Shape, x: nat, h: nat)
    requires GeoOk(g) && ShapeOk(g, t, sh) && x in sh.depth && h in sh.chains && h != x
    ensures Apart(LbasOf(g, sh, x), ChainLbas(g, sh.chains[h]))
  {
    ChainAtLeastTwo(g, t, sh, h);
    if x == 0 {
      forall lba | lba in ChainLbas(g, sh.chains[h])
        ensures lba !in RootLbas(g)
      {
        ChainLbasAfterRoot(g, sh.chains[h], lba);
      }
    } else {
      ChainAtLeastTwo(g, t, sh, x);
      LbasApart(g, sh.chains[x], sh.chains[h]);
    }
  }

  lemma DirDistinct(g: Geo, t: Table, sh: Shape, x: nat)
    requires GeoOk(g) && ShapeOk(g, t, sh) && x in sh.depth
    ensures Distinct(LbasOf(g, sh, x))
  {
    if x != 0 {
      ChainAtLeastTwo(g, t, sh, x);
      ChainLbasDistinct(g, sh.chains[x]);
    }
  }

  lemma TableUnaffected(g: Geo, d: Disk, w: Write)
    requires GeoOk(g) && RootStart(g) <= |d| && w.lba >= RootStart(g)
    ensures TableBytes(g, Put(d, w)) == TableBytes(g, d)
  {
    CopyInFat(g, 0);
    JoinedSame(d, Put(d, w), g.fatStart, g.spf);
  }

  lemma CopiesUnaffected(g: Geo, d: Disk, w: Write)
    requires GeoOk(g) && w.lba >= RootStart(g) && CopiesAgree(g, d)
    ensures CopiesAgree(g, Put(d, w))
  {
    forall f, s | 0 <= f < g.fatCount && 0 <= s < g.spf
      ensures FatSector(g, Put(d, w), f, s) == FatSector(g, d, f, s)
    {
      CopyInFat(g, f);
    }
  }

  // ---- changes that the volume does not notice

  predicate KeepsUsed(g: Geo, t: Table, u: Table)
    requires GeoOk(g)
  {
    forall c | 0 <= c < Limit(g) && Get(t, c) != 0 :: Get(u, c) == Get(t, c)
  }

  ghost predicate Untouched(g: Geo, d: Disk, e: Disk, sh: Shape) {
    && SameAt(d, e, RootLbas(g))
    && forall h | h in sh.chains :: SameAt(d, e, ChainLbas(g, sh.chains[h]))
  }

  lemma ShapeKept(g: Geo, t: Table, u: Table, sh: Shape)
    requires GeoOk(g) && ShapeOk(g, t, sh) && KeepsUsed(g, t, u)
    ensures ShapeOk(g, u, sh)
  {
    forall h | h in sh.chains
      ensures IsChain(u, sh.chains[h], Limit(g))
    {
      var ch := sh.chains[h];
      forall i | 0 <= i < |ch|
        ensures Get(u, ch[i]) == Get(t, ch[i])
      {
        ChainInUse(t, ch, Limit(g), i);
      }
      ChainKept(t, u, ch, Limit(g));
    }
  }

  lemma DirsKept(g: Geo, d: Disk, e: Disk, sh: Shape)
    requires DirsOnDevice(g, d, sh) && Untouched(g, d, e, sh)
    ensures SameSlots(g, d, sh, e, sh)
  {
    forall x | x in sh.depth
      ensures OnDevice(e, LbasOf(g, sh, x)) && Slots(e, LbasOf(g, sh, x)) == Slots(d, LbasOf(g, sh, x))
    {
      SlotsSame(d, e, LbasOf(g, sh, x));
    }
  }

  /** Entries that were free and sectors that no chain has may change freely. */
  lemma Unnoticed(g: Geo, d: Disk, tail: seq<Byte>, e: Disk, tail': seq<Byte>, sh: Shape)
    requires Mounted(g, d, tail, sh) && Untouched(g, d, e, sh) && TailOk(g, tail')
    requires KeepsUsed(g, Buffer(g, d, tail), Buffer(g, e, tail'))
    ensures Mounted(g, e, tail', sh) && SameSlots(g, d, sh, e, sh)
  {
    ShapeKept(g, Buffer(g, d, tail), Buffer(g, e, tail'), sh);
    DirsKept(g, d, e, sh);
  }

  lemma OutsideFatUntouched(g: Geo, d: Disk, t: Table, e: Disk, sh: Shape)
    requires GeoOk(g) && ShapeOk(g, t, sh) && SameOutsideFat(g, d, e)
    ensures Untouched(g, d, e, sh)
  {
    forall h, i | h in sh.chains && 0 <= i < |ChainLbas(g, sh.chains[h])|
      ensures ChainLbas(g, sh.chains[h])[i] >= RootStart(g)
    {
      ChainLbasAfterRoot(g, sh.chains[h], ChainLbas(g, sh.chains[h])[i]);
    }
  }

  // ---- writing a slot

  function WithSlot(g: Geo, d: Disk, sh: Shape, x: nat, k: nat, sl: Slot): Disk
    requires DirsOnDevice(g, d, sh) && x in sh.depth && k < |DirSlots(g, d, sh, x)|
  {
    Put(d, SlotWrite(d, LbasOf(g, sh, x), k, sl))
  }

  lemma WriteElsewhere(d: Disk, w: Write, lbas: seq<nat>)
    requires w.lba !in lbas
    ensures SameAt(d, Put(d, w), lbas)
  {
  }

  lemma SlotWriteApart(g: Geo, d: Disk, t: Table, sh: Shape, x: nat, w: Write)
    requires GeoOk(g) && ShapeOk(g, t, sh) && x in sh.depth && w.lba in LbasOf(g, sh, x)
    ensures forall h | h in sh.chains && h != x :: SameAt(d, Put(d, w), ChainLbas(g, sh.chains[h]))
    ensures x != 0 ==> SameAt(d, Put(d, w), RootLbas(g))
  {
    forall h | h in sh.chains && h != x
      ensures SameAt(d, Put(d, w), ChainLbas(g, sh.chains[h]))
    {
      DirApart(g, t, sh, x, h);
      WriteElsewhere(d, w, ChainLbas(g, sh.chains[h]));
    }
    if x != 0 {
      DirApart(g, t, sh, 0, x);
      WriteElsewhere(d, w, RootLbas(g));
    }
  }

  /** One slot changes; the table, the other slots and the contents of every
      chain but the directory's own do not. */
  lemma SlotWritten(g: Geo, d: Disk, tail: seq<Byte>, sh: Shape, x: nat, k: nat, sl: Slot)
    requires Mounted(g, d, tail, sh) && x in sh.depth && k < |DirSlots(g, d, sh, x)|
    ensures var e := WithSlot(g, d, sh, x, k, sl);
      && TableBytes(g, e) == TableBytes(g, d)
      && DirsOnDevice(g, e, sh)
      && DirSlots(g, e, sh, x) == DirSlots(g, d, sh, x)[k := sl]
      && (forall y | y in sh.depth && y != x :: DirSlots(g, e, sh, y) == DirSlots(g, d, sh, y))
      && (forall h | h in sh.chains && h != x :: SameAt(d, e, ChainLbas(g, sh.chains[h])))
  {
    var t := Buffer(g, d, tail);
    var lbas := LbasOf(g, sh, x);
    var w := SlotWrite(d, lbas, k, sl);
    LbasAfterFat(g, t, sh, x, k / SLOTS);
    TableUnaffected(g, d, w);
    DirDistinct(g, t, sh, x);
    SlotsUpdated(d, lbas, k, sl);
    assert w.lba in lbas;
    SlotWriteApart(g, d, t, sh, x, w);
    forall y | y in sh.depth && y != x
      ensures Slots(Put(d, w), LbasOf(g, sh, y)) == Slots(d, LbasOf(g, sh, y))
    {
      SlotsSame(d, Put(d, w), LbasOf(g, sh, y));
    }
  }

  /** All slots but one fit the new owners. */
  ghost predicate OthersFit(g: Geo, d: Disk, sh: Shape, x: nat, k: nat, owner: map<nat, (nat, nat)>)
    requires DirsOnDevice(g, d, sh)
  {
    forall y, j | y in sh.depth && 0 <= j < |DirSlots(g, d, sh, y)| && (y, j) != (x, k) ::
      SlotOk(g, sh.(owner := owner), y, j, DirSlots(g, d, sh, y)[j])
  }

  lemma SlotWriteDir(g: Geo, d: Disk, sh: Shape, x: nat, k: nat, sl: Slot, owner: map<nat, (nat, nat)>, y: nat,
      slots: seq<Slot>)
    requires DirsOnDevice(g, d, sh) && x in sh.depth && k < |DirSlots(g, d, sh, x)| && y in sh.depth
    requires ZeroTail(DirSlots(g, d, sh, x)[k := sl]) && ZeroTail(DirSlots(g, d, sh, y))
    requires SlotOk(g, sh.(owner := owner), x, k, sl) && OthersFit(g, d, sh, x, k, owner)
    requires slots == if y == x then DirSlots(g, d, sh, x)[k := sl] else DirSlots(g, d, sh, y)
    ensures DirOk(g, sh.(owner := owner), y, slots)
  {
    hide SlotOk, DirSlots, ZeroTail;
    forall j | 0 <= j < |slots|
      ensures SlotOk(g, sh.(owner := owner), y, j, slots[j])
    {
      assert (y, j) != (x, k) ==> slots[j] == DirSlots(g, d, sh, y)[j];
    }
  }

  /** The new slot must fit the shape; every other slot must fit the new owners. */
  lemma SlotWriteKeeps(g: Geo, d: Disk, tail: seq<Byte>, sh: Shape, x: nat, k: nat, sl: Slot,
      owner: map<nat, (nat, nat)>)
    requires Mounted(g, d, tail, sh) && x in sh.depth && k < |DirSlots(g, d, sh, x)|
    requires ZeroTail(DirSlots(g, d, sh, x)[k := sl])
    requires SlotOk(g, sh.(owner := owner), x, k, sl) && OthersFit(g, d, sh, x, k, owner)
    ensures Mounted(g, WithSlot(g, d, sh, x, k, sl), tail, sh.(owner := owner))
  {
    hide SlotOk, OthersFit, Slots, Joined, IsChain, ZeroTail;
    var e, sh' := WithSlot(g, d, sh, x, k, sl), sh.(owner := owner);
    SlotWritten(g, d, tail, sh, x, k, sl);
    assert forall y | y in sh.depth :: LbasOf(g, sh', y) == LbasOf(g, sh, y);
    forall y | y in sh.depth
      ensures DirOk(g, sh', y, DirSlots(g, e, sh', y))
    {
      assert DirOk(g, sh, y, DirSlots(g, d, sh, y));
      assert DirSlots(g, e, sh', y) == DirSlots(g, e, sh, y);
      SlotWriteDir(g, d, sh, x, k, sl, owner, y, DirSlots(g, e, sh', y));
    }
  }
}
