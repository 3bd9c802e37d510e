/** How many clusters fat_write takes, and which. */
module Accounting {
  import opened Bytes
  import opened Names
  import opened FatTable
  import opened Layout
  import opened Directory
  import opened FatSpec
  import opened Volume
  import opened Removal
  import opened Allocation
  import opened Operations
  import opened Runs
  import opened Frame
  import opened RoundTrip

  lemma {:induction false} ChainSectors(g: Geo, ch: seq<nat>)
    ensures |ChainLbas(g, ch)| == |ch| * g.spc
    decreases |ch|
  {
    if ch != [] {
      ChainSectors(g, ch[1..]);
      assert |ch| * g.spc == (|ch| - 1) * g.spc + g.spc;
    }
  }

  /** Bytes per cluster. */
  function ClusterSize(g: Geo): nat { SECTOR_SIZE * g.spc }

  lemma CeilIs(n: nat, size: nat, k: nat)
    requires size > 0 && n <= k * size && (k > 0 ==> (k - 1) * size < n)
    ensures k == (n + size - 1) / size
  {
    if k == 0 {
      assert n == 0;
      QuotientOf(size - 1, size, 0, size - 1);
    } else {
      assert k * size == (k - 1) * size + size;
      QuotientOf(n + size - 1, size, k, n - 1 - (k - 1) * size);
    }
  }

  lemma ChainBytes(g: Geo, ch: seq<nat>)
    ensures SECTOR_SIZE * |ChainLbas(g, ch)| == |ch| * ClusterSize(g)
  {
    ChainSectors(g, ch);
    hide ChainLbas;
    Regroup(|ch|, g.spc);
  }

  lemma Regroup(a: nat, b: nat)
    ensures SECTOR_SIZE * (a * b) == a * (SECTOR_SIZE * b)
  {
  }

  lemma ClustersNeeded(g: Geo, n: nat, data: seq<Byte>, r: Alloc)
    requires GeoOk(g) && AllocCarriesData(g, n, data, r)
    ensures |r.chain| == (|data| + ClusterSize(g) - 1) / ClusterSize(g)
  {
    ChainBytes(g, r.chain);
    if r.chain != [] {
      ChainBytes(g, r.chain[..|r.chain| - 1]);
    }
    hide ChainLbas, Flat, WriteLbas, ClusterSize;
    assert |data| <= |r.chain| * ClusterSize(g);
    CeilIs(|data|, ClusterSize(g), |r.chain|);
  }

  /** The clusters a successful fat_write took: the k lowest free ones. */
  ghost predicate LowestFree(g: Geo, t: Table, ch: seq<nat>)
    requires GeoOk(g)
  {
    && Ascending(ch) && (forall i | 0 <= i < |ch| :: ch[i] in FreeSet(t, Limit(g)))
    && forall x, i | x in FreeSet(t, Limit(g)) && 0 <= i < |ch| && x < ch[i] :: x in ch
  }

  lemma TakenFromFree(g: Geo, t: Table, data: seq<Byte>, r: Alloc)
    requires GeoOk(g) && Allocated(g, t, 0, data, r)
    ensures LowestFree(g, t, r.chain)
    ensures FreeSet(r.table, Limit(g)) == FreeSet(t, Limit(g)) - Elements(r.chain)
    ensures |FreeSet(r.table, Limit(g))| == |FreeSet(t, Limit(g))| - |r.chain|
  {
    hide Get, Link;
    forall x | x in r.chain
      ensures x in FreeSet(t, Limit(g)) && x !in FreeSet(r.table, Limit(g))
    {
      ChainElementInUse(r.table, r.chain, Limit(g), x);
      var i :| 0 <= i < |r.chain| && r.chain[i] == x;
    }
    assert FreeSet(r.table, Limit(g)) == FreeSet(t, Limit(g)) - Elements(r.chain);
    assert Elements(r.chain) <= FreeSet(t, Limit(g));
    DistinctCard(r.chain);
  }

  /** A successful fat_write of a new name takes exactly as many clusters as
      the data need, the lowest free ones in increasing order, and free space
      falls by that number. */
  lemma WriteTakesLowest(g: Geo, st: State, sh: Shape, name: Name, data: seq<Byte>, st1: State)
    requires Live(g, st, sh) && StateOk(g, st) && |data| < 0x1_0000_0000
    requires Find(DirSlots(g, st.disk, sh, st.cur), File(name), 0).None?
    requires WriteFile(g, st, name, data).rc == 0 && st1 == After(st, WriteFile(g, st, name, data))
    ensures StateOk(g, st1)
    ensures var ch := AllocOf(g, st, data).chain; var need := (|data| + ClusterSize(g) - 1) / ClusterSize(g);
      && |ch| == need && LowestFree(g, TableOf(g, st), ch)
      && FreeSet(TableOf(g, st1), Limit(g)) == FreeSet(TableOf(g, st), Limit(g)) - Elements(ch)
      && |FreeSet(TableOf(g, st1), Limit(g))| == |FreeSet(TableOf(g, st), Limit(g))| - need
      && (data != [] ==> IsChain(TableOf(g, st1), ch, Limit(g)))
  {
    WriteAfter(g, st, name, data);
    WriteOfNewNameState(g, st, sh, name);
    StoreSucceeds(g, st, sh, name, data);
    var k := Find(CurrentSlots(g, st, sh), Vacant, 0).value;
    StoredState(g, st, sh, name, data, k);
    var r := AllocOf(g, st, data);
    AllocCarries(g, |st.disk|, TableOf(g, st), 0, data);
    AllocTable(g, |st.disk|, TableOf(g, st), 0, data);
    hide Store, AllocChain, Live, Find, DirSlots, OneSlotChanged, TableOf, FreeSet;
    ClustersNeeded(g, |st.disk|, data, r);
    TakenFromFree(g, TableOf(g, st), data, r);
    hide LowestFree, IsChain, Allocated, AllocCarriesData;
  }

  /** fat_delete and fat_rmdir free exactly the clusters of the chain that the
      name refers to; without a cluster they change no entry. */
  lemma RemoveFrees(g: Geo, st: State, sh: Shape, w: Want, k: nat)
    requires Removable(g, st, sh, k) && Find(DirSlots(g, st.disk, sh, st.cur), w, 0) == Some(k)
    ensures StateOk(g, st) && StateOk(g, After(st, Remove(g, st, w)))
    ensures var t, u := TableOf(g, st), TableOf(g, After(st, Remove(g, st, w)));
      var c := FirstCluster(DirSlots(g, st.disk, sh, st.cur)[k]);
      if c == 0 then u == t
      else
        && c in sh.chains && IsChain(t, sh.chains[c], Limit(g)) && sh.chains[c][0] == c
        && FreeSet(u, Limit(g)) == FreeSet(t, Limit(g)) + Elements(sh.chains[c])
        && |FreeSet(u, Limit(g))| == |FreeSet(t, Limit(g))| + |sh.chains[c]|
  {
    RemoveTable(g, st, sh, w, k);
    FreedKeepsDir(g, st.disk, st.tail, sh, st.cur, k);
    hide Remove, Find, FreeSet, DirOk, DirSlots, IsChain, Get, ChainsApart;
    var c := FirstCluster(DirSlots(g, st.disk, sh, st.cur)[k]);
    if c != 0 {
      FreedCount(TableOf(g, st), sh.chains[c], Limit(g));
    }
  }
}
