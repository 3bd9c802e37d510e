/** What fat_write writes is what fat_read reads. */
module WriteRead {
  import opened Bytes
  import opened Names
  import opened FatTable
  import opened Layout
  import opened Directory
  import opened FatSpec
  import opened Volume
  import opened Allocation
  import opened Operations
  import opened Reading

  // ---- the data reach the chain and stay there

  lemma HoldsKept(d: Disk, e: Disk, ws: seq<Write>)
    requires Holds(d, ws) && SameAt(d, e, WriteLbas(ws))
    ensures Holds(e, ws)
  {
    forall i | 0 <= i < |ws|
      ensures ws[i].lba < |e| && e[ws[i].lba] == ws[i].data
    {
      assert WriteLbas(ws)[i] == ws[i].lba;
    }
  }

  lemma SameAtPrefix(d: Disk, e: Disk, a: seq<nat>, b: seq<nat>)
    requires a <= b && SameAt(d, e, b)
    ensures SameAt(d, e, a)
  {
    assert forall i | 0 <= i < |a| :: a[i] == b[i];
  }

  lemma DistinctPrefix(a: seq<nat>, b: seq<nat>)
    requires a <= b && Distinct(b)
    ensures Distinct(a)
  {
    assert forall i | 0 <= i < |a| :: a[i] == b[i];
  }

  lemma DataWritten(g: Geo, d: Disk, ws: seq<Write>, ch: seq<nat>)
    requires AtLeastTwo(ch) && Distinct(ch) && WriteLbas(ws) <= ChainLbas(g, ch) && forall w | w in ws :: w.lba < |d|
    ensures Holds(Apply(d, ws), ws)
  {
    ChainLbasDistinct(g, ch);
    DistinctPrefix(WriteLbas(ws), ChainLbas(g, ch));
    AppliedHolds(d, ws);
  }

  lemma OutsideFatKept(g: Geo, d: Disk, e: Disk, ws: seq<Write>, ch: seq<nat>)
    requires SameOutsideFat(g, d, e) && WriteLbas(ws) <= ChainLbas(g, ch)
    ensures SameAt(d, e, WriteLbas(ws))
  {
    var lbas := WriteLbas(ws);
    forall i | 0 <= i < |lbas|
      ensures lbas[i] >= RootStart(g)
    {
      assert lbas[i] == ChainLbas(g, ch)[i];
      ChainLbasAfterRoot(g, ch, lbas[i]);
    }
  }

  lemma StoredChain(g: Geo, st: State, data: seq<Byte>)
    requires StateOk(g, st) && AllocOf(g, st, data).ok
    ensures var r := AllocOf(g, st, data);
      AllocCarriesData(g, |st.disk|, data, r) && AtLeastTwo(r.chain) && Distinct(r.chain)
  {
    AllocCarries(g, |st.disk|, TableOf(g, st), 0, data);
    AllocTable(g, |st.disk|, TableOf(g, st), 0, data);
  }

  /** The middle state holds the data, in the sectors of the new chain. */
  lemma MidHolds(g: Geo, st: State, data: seq<Byte>)
    requires StateOk(g, st) && AllocOf(g, st, data).ok
    ensures Holds(StoreMid(g, st, data).disk, AllocOf(g, st, data).writes)
  {
    var r := AllocOf(g, st, data);
    var d := Apply(st.disk, r.writes);
    StoredChain(g, st, data);
    DataWritten(g, st.disk, r.writes, r.chain);
    PrefixOutsideFat(g, d, r.table, FatWrites(g, r.table, 0));
    hide AllocOf, FatWrites, Apply, AllocCarriesData, Holds;
    OutsideFatKept(g, d, StoreMid(g, st, data).disk, r.writes, r.chain);
    HoldsKept(d, StoreMid(g, st, data).disk, r.writes);
  }

  lemma NeededSectors(n: nat, size: nat, sectors: nat)
    requires n <= size && 0 < size && SECTOR_SIZE * (sectors - 1) < size <= SECTOR_SIZE * sectors
    ensures SectorsFor(n) <= sectors
  {
  }

  lemma FlatPart(d: Disk, ws: seq<Write>, need: nat)
    requires Holds(d, ws) && need <= |ws|
    ensures OnDevice(d, WriteLbas(ws)[..need]) && Contents(d, WriteLbas(ws)[..need]) == Flat(ws)[..SECTOR_SIZE * need]
  {
    HoldsContents(d, ws);
    var a, b := WriteLbas(ws)[..need], WriteLbas(ws)[need..];
    assert WriteLbas(ws) == a + b;
    ContentsAppend(d, a, b);
  }

  /** Reading a chain whose sectors hold the data gives the data, cut to the buffer. */
  lemma ReadHeld(g: Geo, d: Disk, t: Table, r: Alloc, n: nat, data: seq<Byte>, cap: nat)
    requires GeoOk(g) && IsChain(t, r.chain, Limit(g)) && data != []
    requires Holds(d, r.writes) && AllocCarriesData(g, n, data, r)
    ensures ReadChain(g, d, t, r.chain[0], |data|, cap) == Read(Take(data, cap))
  {
    var m := Min(|data|, cap);
    var need := SectorsFor(m);
    NeededSectors(m, |data|, |r.writes|);
    FileLbasAre(g, t, r.chain, need);
    FlatPart(d, r.writes, need);
    assert r.chain[0] >= 2;
    hide ChainLbas, IsChain, Limit, FileLbas, Holds, Flat, Contents, WriteLbas;
    assert First(ChainLbas(g, r.chain), need) == WriteLbas(r.writes)[..need];
    assert Take(Flat(r.writes)[..SECTOR_SIZE * need], m) == data[..m] == Take(data, cap);
  }

  // ---- the state after a successful store

  lemma StoredSlots(g: Geo, st: State, sh: Shape, name: Name, data: seq<Byte>, k: nat)
    requires Live(g, st, sh) && StateOk(g, st) && AllocOf(g, st, data).ok && |data| < 0x1_0000_0000
    requires forall i | 0 <= i < |AllocOf(g, st, data).chain| :: AllocOf(g, st, data).chain[i] < 0x1_0000
    requires Find(DirSlots(g, st.disk, sh, st.cur), Vacant, 0) == Some(k)
    ensures var st1 := After(st, Store(g, st, name, data)); var sh1 := StoreShape(g, st, sh, data);
      var sl := FileSlot(name, AllocOf(g, st, data).chain, |data|);
      && st1.cur == st.cur && DirsOnDevice(g, st1.disk, sh1) && st.cur in sh1.depth
      && DirSlots(g, st1.disk, sh1, st.cur) == DirSlots(g, st.disk, sh, st.cur)[k := sl]
      && TableBytes(g, st1.disk) == TableBytes(g, StoreMid(g, st, data).disk)
  {
    StoreDone(g, st, sh, name, data, k);
    var m, sh1 := StoreMid(g, st, data), StoreShape(g, st, sh, data);
    hide Store, AllocOf, StoreMid, StoreShape, FileSlot, DirSlots, Find;
    SlotWritten(g, m.disk, m.tail, sh1, st.cur, k, FileSlot(name, AllocOf(g, st, data).chain, |data|));
  }

  lemma StoredHolds(g: Geo, st: State, sh: Shape, name: Name, data: seq<Byte>, k: nat)
    requires Live(g, st, sh) && StateOk(g, st) && AllocOf(g, st, data).ok && 0 < |data| < 0x1_0000_0000
    requires forall i | 0 <= i < |AllocOf(g, st, data).chain| :: AllocOf(g, st, data).chain[i] < 0x1_0000
    requires Find(DirSlots(g, st.disk, sh, st.cur), Vacant, 0) == Some(k)
    ensures Holds(After(st, Store(g, st, name, data)).disk, AllocOf(g, st, data).writes)
  {
    StoreDone(g, st, sh, name, data, k);
    MidHolds(g, st, data);
    StoredChain(g, st, data);
    FileSlotFits(g, st, sh, name, data, k);
    var r, m, sh1 := AllocOf(g, st, data), StoreMid(g, st, data), StoreShape(g, st, sh, data);
    var e := After(st, Store(g, st, name, data)).disk;
    assert r.chain != [] && sh1.chains[r.chain[0]] == r.chain && st.cur != r.chain[0];
    hide Store, AllocOf, StoreMid, StoreShape, FileSlot, DirSlots, Find, Holds, Flat, Carries, SlotOk;
    SlotWritten(g, m.disk, m.tail, sh1, st.cur, k, FileSlot(name, r.chain, |data|));
    SameAtPrefix(m.disk, e, WriteLbas(r.writes), ChainLbas(g, r.chain));
    HoldsKept(m.disk, e, r.writes);
  }
}
