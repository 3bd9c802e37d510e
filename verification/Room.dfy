/** When fat_write has enough room: exactly if there are as many free clusters on
    the device as the data need. */
module Room {
  import opened Bytes
  import opened Names
  import opened FatTable
  import opened Layout
  import opened Directory
  import opened FatSpec
  import opened Volume
  import opened Removal
  import opened Allocation
  import opened Operations
  import opened Runs
  import opened RoundTrip
  import opened Copies

  /** How many sectors, and how many clusters of spc sectors, hold n bytes or
      sectors. */
  function Ceiling(n: nat, size: nat): (k: nat)
    requires size > 0
  {
    if n == 0 then 0 else if n <= size then 1 else 1 + Ceiling(n - size, size)
  }

  lemma {:induction false} CeilingIs(n: nat, size: nat)
    requires size > 0
    ensures Ceiling(n, size) * size >= n && (n > 0 ==> (Ceiling(n, size) - 1) * size < n)
  {
    if n > size {
      CeilingIs(n - size, size);
      var k := Ceiling(n - size, size);
      assert (k + 1) * size == k * size + size && (k + 1 - 1) * size == (k - 1) * size + size;
    } else if n > 0 {
      assert 1 * size == size && (1 - 1) * size == 0;
    }
  }

  /** What the last of these clusters has of them. */
  function LastPart(n: nat, size: nat): (k: nat)
    requires size > 0
    ensures k <= size && k <= n && (n > 0 ==> k > 0)
  {
    if n <= size then n else LastPart(n - size, size)
  }

  lemma {:induction false} LastPartIs(n: nat, size: nat)
    requires size > 0 && n > 0
    ensures LastPart(n, size) == n - (Ceiling(n, size) - 1) * size
  {
    if n > size {
      LastPartIs(n - size, size);
      assert (Ceiling(n, size) - 1) * size == (Ceiling(n - size, size) - 1) * size + size;
    } else {
      assert (1 - 1) * size == 0;
    }
  }

  function SectorsOf(data: seq<Byte>): nat { Ceiling(|data|, 512) }

  lemma {:induction false} ClusterTakes(start: nat, count: nat, data: seq<Byte>)
    ensures |SectorWrites(start, count, data)| == if SectorsOf(data) <= count then SectorsOf(data) else count
    ensures SectorsOf(AfterSectors(data, count)) == if SectorsOf(data) <= count then 0 else SectorsOf(data) - count
    ensures SectorsOf(data) == 0 <==> data == []
    decreases count
  {
    hide Padded, Take;
    if count > 0 && data != [] {
      ClusterTakes(start + 1, count - 1, Rest(data));
    }
  }

  /** The free clusters whose first m sectors are on a device of n sectors. */
  ghost function Roomy(g: Geo, t: Table, n: nat, m: nat): (r: set<nat>)
    requires GeoOk(g)
  {
    set c: nat | 2 <= c < TotalClusters(g) + 2 && Get(t, c) == 0 && ClusterStart(g, c) + m <= n
  }

  lemma NoneFree(g: Geo, t: Table, n: nat, m: nat)
    requires GeoOk(g) && FirstFree(g, t) == 0
    ensures Roomy(g, t, n, m) == {}
  {
    hide Get, ClusterStart;
  }

  lemma FirstRoomy(g: Geo, t: Table, n: nat, m: nat, c: nat)
    requires GeoOk(g) && c == FirstFree(g, t) && c != 0
    ensures c < TotalClusters(g) + 2
    ensures ClusterStart(g, c) + m <= n <==> Roomy(g, t, n, m) != {}
    ensures ClusterStart(g, c) + m <= n <==> c in Roomy(g, t, n, m)
    ensures ClusterStart(g, c) + g.spc > n && m > 0 ==> forall x | x in Roomy(g, t, n, m) :: x == c
  {
    hide Get, ClusterStart;
    forall x | x in Roomy(g, t, n, m) && x != c
      ensures ClusterStart(g, c) + g.spc <= ClusterStart(g, x)
    {
      ClustersApart(g, c, x);
    }
    assert ClusterStart(g, c) + m <= n <==> c in Roomy(g, t, n, m);
    if Roomy(g, t, n, m) != {} {
      var x :| x in Roomy(g, t, n, m);
      assert x != c ==> ClusterStart(g, c) <= ClusterStart(g, x);
    }
  }

  lemma RoomyLinked(g: Geo, t: Table, n: nat, m: nat, prev: nat, c: nat)
    requires GeoOk(g) && PrevOk(t, prev) && c == FirstFree(g, t) && 2 <= c < 4096 && c in Roomy(g, t, n, m)
    ensures prev < ENTRIES && Roomy(g, Linked(t, prev, c), n, m) == Roomy(g, t, n, m) - {c}
  {
    LinkedEntries(t, prev, c);
    hide Get, ClusterStart, Linked, FirstFree;
  }

  lemma Single(s: set<nat>, c: nat)
    requires forall x | x in s :: x == c
    ensures |s| <= 1
  {
    if s != {} {
      assert s == {c};
    }
  }

  /** The allocation loop succeeds exactly if enough free clusters are on the
      device, counted with the sectors that the last one must have. */
  lemma {:induction false} AllocSucceeds(g: Geo, n: nat, t: Table, prev: nat, data: seq<Byte>)
    requires GeoOk(g) && DeviceEnds(g, n) && PrevOk(t, prev) && data != []
    ensures AllocChain(g, n, t, prev, data).ok <==>
      |Roomy(g, t, n, LastPart(SectorsOf(data), g.spc))| >= Ceiling(SectorsOf(data), g.spc)
    decreases |data|
  {
    hide Get, Linked, SectorWrites, AfterSectors, ClusterStart, SectorsOf, Roomy;
    var c := FirstFree(g, t);
    var k := SectorsOf(data);
    var m := LastPart(k, g.spc);
    ClusterTakes(0, g.spc, data);
    if c == 0 {
      NoneFree(g, t, n, m);
    } else {
      ClusterTakes(ClusterStart(g, c), g.spc, data);
      ClusterTakes(0, 0, AfterSectors(data, g.spc));
      FirstRoomy(g, t, n, m, c);
      if ClusterStart(g, c) + g.spc > n && k > g.spc {
        Single(Roomy(g, t, n, m), c);
      } else if k > g.spc {
        OnDeviceBelowLimit(g, n, c);
        RoomyLinked(g, t, n, m, prev, c);
        LinkedPrevOk(t, prev, c);
        AllocSucceeds(g, n, Linked(t, prev, c), c, AfterSectors(data, g.spc));
      } else if c in Roomy(g, t, n, m) {
        NotEmpty(Roomy(g, t, n, m), c);
      }
    }
  }

  lemma NotEmpty(s: set<nat>, c: nat)
    requires c in s
    ensures |s| >= 1
  {
    assert s == (s - {c}) + {c};
  }

  /** fat_write of a name returns 0 exactly if, after the delete with which it
      begins, the data are empty or there is room for them, and the directory has
      a vacant slot. */
  lemma WriteSucceeds(g: Geo, st: State, name: Name, data: seq<Byte>)
    requires WellFormed(g, st) && |data| < 0x1_0000_0000
    ensures StateOk(g, st) && StateOk(g, After(st, Delete(g, st, name)))
    ensures var del := After(st, Delete(g, st, name)); var k := SectorsOf(data);
      WriteFile(g, st, name, data).rc == 0 <==>
        && (data == [] || |Roomy(g, TableOf(g, del), |del.disk|, LastPart(k, g.spc))| >= Ceiling(k, g.spc))
        && FindIn(g, del.disk, TableOf(g, del), del.cur, Vacant).Some?
  {
    hide Mounted, Remove, Store, WriteFile, Find, DirSlots, Roomy, AllocChain, FindIn;
    RemoveWellFormed(g, st, File(name));
    var del := After(st, Delete(g, st, name));
    WellFormedOk(g, del);
    var sh :| Live(g, del, sh);
    FindAgrees(g, del, sh, Vacant);
    WriteResult(g, st, name, data);
    StoreSucceeds(g, del, sh, name, data);
    if data != [] {
      StateEnds(g, del);
      AllocSucceeds(g, |del.disk|, TableOf(g, del), 0, data);
    } else {
      NothingToAllocate(g, del);
    }
  }

  lemma StateEnds(g: Geo, st: State)
    requires StateOk(g, st)
    ensures DeviceEnds(g, |st.disk|)
  {
  }

  lemma NothingToAllocate(g: Geo, st: State)
    requires StateOk(g, st)
    ensures AllocOf(g, st, []).ok
  {
  }
}
