/** The allocation loop of fat_write (fat.c:336-356): which clusters it takes,
    how it links them and what it writes into them. */
module Allocation {
  import opened Bytes
  import opened FatTable
  import opened Layout
  import opened Directory
  import opened FatSpec

  predicate PrevOk(t: Table, prev: nat) { prev == 0 || (prev < ENTRIES && Get(t, prev) != 0) }

  predicate DeviceEnds(g: Geo, n: nat)
    requires GeoOk(g)
  {
    n <= ClusterStart(g, Limit(g))
  }

  /** A sector of a cluster that is free in t. */
  ghost predicate InFree(g: Geo, t: Table, lba: nat)
    requires GeoOk(g)
  {
    exists c | 2 <= c < Limit(g) :: Get(t, c) == 0 && ClusterStart(g, c) <= lba < ClusterStart(g, c) + g.spc
  }

  predicate Ascending(s: seq<nat>) { forall i, j | 0 <= i < j < |s| :: s[i] < s[j] }

  function FirstFree(g: Geo, t: Table): (c: nat)
    requires GeoOk(g)
    ensures c != 0 ==> 2 <= c < ENTRIES && Get(t, c) == 0
    ensures c != 0 ==> forall x | 2 <= x < c :: Get(t, x) != 0
    ensures c == 0 ==> forall x | 2 <= x < Limit(g) :: Get(t, x) != 0
  {
    FindFree(t, 2, TotalClusters(g) + 2)
  }

  lemma OnDeviceBelowLimit(g: Geo, n: nat, c: nat)
    requires GeoOk(g) && DeviceEnds(g, n) && c >= 2 && ClusterStart(g, c) < n
    ensures c < Limit(g)
  {
    if c > Limit(g) {
      ClustersApart(g, Limit(g), c);
    }
  }

  lemma LinkedEntries(t: Table, prev: nat, c: nat)
    requires PrevOk(t, prev) && 2 <= c < 4096 && Get(t, c) == 0
    ensures prev < ENTRIES && PrevOk(Linked(t, prev, c), c)
    ensures forall x | 0 <= x < ENTRIES ::
      Get(Linked(t, prev, c), x) == if x == c then END_MARK else if x == prev && prev != 0 then c else Get(t, x)
  {
    hide Get, Set;
  }

  /** Everything the loop writes goes to clusters that were free, whether or
      not it succeeds. */
  lemma {:induction false} AllocWritesFree(g: Geo, n: nat, t: Table, prev: nat, data: seq<Byte>)
    requires GeoOk(g) && DeviceEnds(g, n) && PrevOk(t, prev)
    ensures forall w | w in AllocChain(g, n, t, prev, data).writes :: w.lba < n && InFree(g, t, w.lba)
    decreases |data|
  {
    hide Get, Linked, ClusterStart, SectorWrites, AfterSectors, InFree;
    var c := FirstFree(g, t);
    if data != [] && c != 0 {
      AllocUnfold(g, n, t, prev, data, c);
      var ws := SectorWrites(ClusterStart(g, c), g.spc, data);
      if ClusterStart(g, c) < n {
        OnDeviceBelowLimit(g, n, c);
        ClusterWritesFree(g, t, c, ws);
        if ClusterStart(g, c) + |ws| <= n {
          LinkedPrevOk(t, prev, c);
          AllocWritesFree(g, n, Linked(t, prev, c), c, AfterSectors(data, g.spc));
          LinkedFree(g, t, prev, c);
        }
      }
    }
  }

  lemma AllocUnfold(g: Geo, n: nat, t: Table, prev: nat, data: seq<Byte>, c: nat)
    requires GeoOk(g) && prev < ENTRIES && data != [] && c == FirstFree(g, t) && c != 0
    ensures var ws := SectorWrites(ClusterStart(g, c), g.spc, data); var all := AllocChain(g, n, t, prev, data).writes;
      if ClusterStart(g, c) >= n then all == []
      else if ClusterStart(g, c) + |ws| > n then all == ws[..n - ClusterStart(g, c)]
      else all == ws + AllocChain(g, n, Linked(t, prev, c), c, AfterSectors(data, g.spc)).writes
  {
    hide Get, Linked, ClusterStart, SectorWrites, AfterSectors;
    var ws := SectorWrites(ClusterStart(g, c), g.spc, data);
    assert ws[..0] == [] && ClusterStart(g, c) >= n ==> |ws| > 0;
  }

  lemma ClusterWritesFree(g: Geo, t: Table, c: nat, ws: seq<Write>)
    requires GeoOk(g) && 2 <= c < Limit(g) && Get(t, c) == 0 && |ws| <= g.spc
    requires forall i | 0 <= i < |ws| :: ws[i].lba == ClusterStart(g, c) + i
    ensures forall i | 0 <= i < |ws| :: InFree(g, t, ws[i].lba)
  {
    hide Get, ClusterStart;
  }

  lemma LinkedPrevOk(t: Table, prev: nat, c: nat)
    requires PrevOk(t, prev) && 2 <= c < 4096 && Get(t, c) == 0
    ensures prev < ENTRIES && PrevOk(Linked(t, prev, c), c)
  {
    LinkedEntries(t, prev, c);
    hide Get, Linked;
  }

  /** What is free after the step was free before. */
  lemma LinkedFree(g: Geo, t: Table, prev: nat, c: nat)
    requires GeoOk(g) && PrevOk(t, prev) && 2 <= c < 4096 && Get(t, c) == 0
    ensures prev < ENTRIES && forall lba | InFree(g, Linked(t, prev, c), lba) :: InFree(g, t, lba)
  {
    LinkedEntries(t, prev, c);
    hide Get, Linked, ClusterStart;
  }

  ghost predicate Allocated(g: Geo, t: Table, prev: nat, data: seq<Byte>, r: Alloc)
    requires GeoOk(g)
  {
    && (data == [] ==> r.table == t && r.chain == [])
    && (data != [] ==> IsChain(r.table, r.chain, Limit(g)) && (prev != 0 ==> Link(r.table, prev, r.chain[0])))
    && Ascending(r.chain)
    && (forall i | 0 <= i < |r.chain| :: 2 <= r.chain[i] < Limit(g) && Get(t, r.chain[i]) == 0)
    && (forall x | 0 <= x < ENTRIES && x !in r.chain && (x != prev || prev == 0) :: Get(r.table, x) == Get(t, x))
    && (r.chain != [] ==> forall x | 2 <= x < r.chain[|r.chain| - 1] && Get(t, x) == 0 :: x in r.chain)
  }

  lemma LinkedIsChain(t: Table, c: nat, tl: seq<nat>, limit: nat)
    requires limit <= 0xFF0 && IsChain(t, tl, limit) && 2 <= c < limit && c !in tl && Link(t, c, tl[0])
    ensures IsChain(t, [c] + tl, limit)
  {
    hide Get;
    var ch := [c] + tl;
    forall i | 0 <= i < |ch| - 1
      ensures Link(t, ch[i], ch[i + 1])
    {
      assert i > 0 ==> Link(t, tl[i - 1], tl[i - 1 + 1]);
    }
    assert ch[|ch| - 1] == tl[|tl| - 1];
  }

  lemma AllocatedChain(g: Geo, t: Table, prev: nat, c: nat, rest: seq<Byte>, r: Alloc)
    requires GeoOk(g) && PrevOk(t, prev) && 2 <= c < Limit(g) && Get(t, c) == 0
    requires Allocated(g, Linked(t, prev, c), c, rest, r)
    ensures IsChain(r.table, [c] + r.chain, Limit(g)) && (prev != 0 ==> Link(r.table, prev, c))
  {
    hide Get, Set, Linked;
    var u := Linked(t, prev, c);
    LinkedEntries(t, prev, c);
    assert c !in r.chain && (prev != 0 ==> prev !in r.chain);
    if rest == [] {
      assert r.table == u;
    } else {
      LinkedIsChain(r.table, c, r.chain, Limit(g));
    }
  }

  lemma AllocatedLowest(g: Geo, t: Table, prev: nat, c: nat, rest: seq<Byte>, r: Alloc)
    requires GeoOk(g) && PrevOk(t, prev) && c == FirstFree(g, t) && 2 <= c < Limit(g)
    requires Allocated(g, Linked(t, prev, c), c, rest, r)
    ensures var ch := [c] + r.chain;
      && Ascending(ch) && (forall i | 0 <= i < |ch| :: 2 <= ch[i] < Limit(g) && Get(t, ch[i]) == 0)
      && forall x | 2 <= x < ch[|ch| - 1] && Get(t, x) == 0 :: x in ch
  {
    hide Get, Set, Linked;
    var u := Linked(t, prev, c);
    LinkedEntries(t, prev, c);
    forall i | 0 <= i < |r.chain|
      ensures Get(t, r.chain[i]) == 0 && r.chain[i] > c
    {
      assert Get(u, r.chain[i]) == 0;
    }
    forall x | 2 <= x < ([c] + r.chain)[|r.chain|] && Get(t, x) == 0
      ensures x == c || x in r.chain
    {
      assert x != c ==> Get(u, x) == 0;
    }
  }

  lemma AllocatedCons(g: Geo, t: Table, prev: nat, c: nat, data: seq<Byte>, rest: seq<Byte>, r: Alloc, s: Alloc)
    requires GeoOk(g) && PrevOk(t, prev) && c == FirstFree(g, t) && 2 <= c < Limit(g) && data != []
    requires Allocated(g, Linked(t, prev, c), c, rest, r)
    requires s.table == r.table && s.chain == [c] + r.chain
    ensures Allocated(g, t, prev, data, s)
  {
    AllocatedChain(g, t, prev, c, rest, r);
    AllocatedLowest(g, t, prev, c, rest, r);
    LinkedEntries(t, prev, c);
    hide *;
    assert Allocated(g, t, prev, data, s) by {
      AllocatedFrame(g, t, prev, c, rest, r);
      AllocatedJoin(g, t, prev, data, s);
    }
  }

  lemma AllocatedFrame(g: Geo, t: Table, prev: nat, c: nat, rest: seq<Byte>, r: Alloc)
    requires GeoOk(g) && PrevOk(t, prev) && 2 <= c < Limit(g) && Get(t, c) == 0
    requires Allocated(g, Linked(t, prev, c), c, rest, r)
    ensures forall x | 0 <= x < ENTRIES && x !in [c] + r.chain && (x != prev || prev == 0) ::
      Get(r.table, x) == Get(t, x)
  {
    hide Get, Set, Linked;
    LinkedEntries(t, prev, c);
  }

  lemma AllocatedJoin(g: Geo, t: Table, prev: nat, data: seq<Byte>, r: Alloc)
    requires GeoOk(g) && data != [] && r.chain != []
    requires IsChain(r.table, r.chain, Limit(g)) && (prev != 0 ==> Link(r.table, prev, r.chain[0]))
    requires Ascending(r.chain)
    requires forall i | 0 <= i < |r.chain| :: 2 <= r.chain[i] < Limit(g) && Get(t, r.chain[i]) == 0
    requires forall x | 0 <= x < ENTRIES && x !in r.chain && (x != prev || prev == 0) :: Get(r.table, x) == Get(t, x)
    requires forall x | 2 <= x < r.chain[|r.chain| - 1] && Get(t, x) == 0 :: x in r.chain
    ensures Allocated(g, t, prev, data, r)
  {
    hide Get, Link, IsChain;
  }

  /** A successful allocation takes the lowest free clusters, in increasing
      order, links them into one chain and changes no other entry. */
  lemma {:induction false} AllocTable(g: Geo, n: nat, t: Table, prev: nat, data: seq<Byte>)
    requires GeoOk(g) && DeviceEnds(g, n) && PrevOk(t, prev) && AllocChain(g, n, t, prev, data).ok
    ensures Allocated(g, t, prev, data, AllocChain(g, n, t, prev, data))
    decreases |data|
  {
    if data != [] {
      var c := FirstFree(g, t);
      var rest := AfterSectors(data, g.spc);
      var u := Linked(t, prev, c);
      OnDeviceBelowLimit(g, n, c);
      LinkedEntries(t, prev, c);
      AllocTable(g, n, u, c, rest);
      AllocatedCons(g, t, prev, c, data, rest, AllocChain(g, n, u, c, rest), AllocChain(g, n, t, prev, data));
    }
  }

  // ---- the bytes

  function WriteLbas(ws: seq<Write>): (r: seq<nat>)
    ensures |r| == |ws| && forall i | 0 <= i < |ws| :: r[i] == ws[i].lba
  {
    if ws == [] then [] else [ws[0].lba] + WriteLbas(ws[1..])
  }

  function Flat(ws: seq<Write>): (r: seq<Byte>)
    ensures |r| == SECTOR_SIZE * |ws|
  {
    if ws == [] then [] else ws[0].data + Flat(ws[1..])
  }

  lemma {:induction false} FlatAppend(a: seq<Write>, b: seq<Write>)
    ensures Flat(a + b) == Flat(a) + Flat(b)
  {
    if a == [] {
      assert a + b == b;
    } else {
      assert (a + b)[1..] == a[1..] + b;
      FlatAppend(a[1..], b);
    }
  }

  /** The sectors hold data, zero-padded at the end, in as few sectors as possible. */
  predicate Carries(bytes: seq<Byte>, sectors: nat, data: seq<Byte>) {
    && |bytes| == SECTOR_SIZE * sectors && |data| <= |bytes| && bytes[..|data|] == data
    && (forall j | |data| <= j < |bytes| :: bytes[j] == 0)
    && (sectors > 0 ==> SECTOR_SIZE * (sectors - 1) < |data|)
  }

  lemma CarriesOne(data: seq<Byte>)
    requires 0 < |data| <= SECTOR_SIZE
    ensures Carries(Padded(data), 1, data)
  {
  }

  lemma CarriesMore(a: seq<Byte>, k: nat, bytes: seq<Byte>, m: nat, rest: seq<Byte>)
    requires |a| == SECTOR_SIZE * k && Carries(bytes, m, rest) && rest != []
    ensures Carries(a + bytes, k + m, a + rest)
  {
  }

  /** The writes of one cluster carry the data, or are all used and carry its
      beginning. */
  lemma {:induction false} SectorWritesCarry(start: nat, count: nat, data: seq<Byte>)
    ensures var ws, rest := SectorWrites(start, count, data), AfterSectors(data, count);
      if rest == [] then Carries(Flat(ws), |ws|, data) else |ws| == count && data == Flat(ws) + rest
    decreases count
  {
    hide Carries, Padded;
    if count == 0 || data == [] {
      assert Carries([], 0, []) by { NothingCarried(); }
      assert data == [] + data;
    } else {
      var more := SectorWrites(start + 1, count - 1, Rest(data));
      var w := Write(start, Padded(Take(data, SECTOR_SIZE)));
      var ws := SectorWrites(start, count, data);
      assert ws == [w] + more && ws[1..] == more;
      SectorWritesCarry(start + 1, count - 1, Rest(data));
      if |data| <= SECTOR_SIZE {
        assert Take(data, SECTOR_SIZE) == data && Rest(data) == [] && more == [];
        CarriesOne(data);
        assert AfterSectors([], count - 1) == [];
        assert Flat(ws) == w.data + [] == w.data;
      } else {
        PaddedFull(Take(data, SECTOR_SIZE));
        assert data == w.data + Rest(data);
        assert Flat(ws) == w.data + Flat(more);
        if AfterSectors(data, count) == [] {
          CarriesMore(w.data, 1, Flat(more), |more|, Rest(data));
        } else {
          assert data == w.data + (Flat(more) + AfterSectors(data, count));
        }
      }
    }
  }

  lemma NothingCarried()
    ensures Carries([], 0, [])
  {
  }

  lemma PaddedFull(s: seq<Byte>)
    requires |s| == SECTOR_SIZE
    ensures Padded(s) == s
  {
  }

  /** The last cluster that is taken gets the end mark. */
  lemma {:induction false} AllocEndMark(g: Geo, n: nat, t: Table, prev: nat, data: seq<Byte>)
    requires GeoOk(g) && DeviceEnds(g, n) && PrevOk(t, prev) && AllocChain(g, n, t, prev, data).ok && data != []
    ensures var r := AllocChain(g, n, t, prev, data);
      r.chain != [] && r.chain[|r.chain| - 1] < ENTRIES && Get(r.table, r.chain[|r.chain| - 1]) == 0xFFF
    decreases |data|
  {
    hide SectorWrites, AfterSectors, Get, Linked, ClusterStart;
    var c := FirstFree(g, t);
    var rest := AfterSectors(data, g.spc);
    OnDeviceBelowLimit(g, n, c);
    LinkedEntries(t, prev, c);
    if rest != [] {
      AllocEndMark(g, n, Linked(t, prev, c), c, rest);
    }
  }

  ghost predicate AllocCarriesData(g: Geo, n: nat, data: seq<Byte>, r: Alloc) {
    && Carries(Flat(r.writes), |r.writes|, data)
    && WriteLbas(r.writes) <= ChainLbas(g, r.chain)
    && (forall w | w in r.writes :: w.lba < n)
    && (r.chain != [] ==> |ChainLbas(g, r.chain[..|r.chain| - 1])| < |r.writes|)
    && (r.chain == [] <==> data == [])
  }

  lemma LastClusterStarts(g: Geo, c: nat, tl: seq<nat>, k: nat)
    requires tl != [] ==> |ChainLbas(g, tl[..|tl| - 1])| < k
    ensures ChainLbas(g, [c] + tl) == ClusterLbas(g, c) + ChainLbas(g, tl)
    ensures var ch := [c] + tl; |ChainLbas(g, ch[..|ch| - 1])| <= (if tl == [] then 0 else g.spc + k - 1)
  {
    var ch := [c] + tl;
    assert ch[1..] == tl;
    if tl == [] {
      assert ch[..0] == [];
    } else {
      var front := ch[..|ch| - 1];
      assert front[0] == c && front[1..] == tl[..|tl| - 1];
    }
  }

  lemma WriteLbasOfCluster(g: Geo, c: nat, data: seq<Byte>)
    ensures WriteLbas(SectorWrites(ClusterStart(g, c), g.spc, data)) <= ClusterLbas(g, c)
  {
    var ws := SectorWrites(ClusterStart(g, c), g.spc, data);
    hide SectorWrites, ClusterStart;
    assert forall i | 0 <= i < |ws| :: WriteLbas(ws)[i] == ClusterLbas(g, c)[i];
    assert WriteLbas(ws) == ClusterLbas(g, c)[..|ws|];
  }

  lemma {:induction false} WriteLbasAppend(a: seq<Write>, b: seq<Write>)
    ensures WriteLbas(a + b) == WriteLbas(a) + WriteLbas(b)
  {
    assert forall i | 0 <= i < |a| + |b| :: WriteLbas(a + b)[i] == (WriteLbas(a) + WriteLbas(b))[i];
  }

  /** The sectors written are the first ones of the chain, they carry the data
      and nothing but zeros after it, and the last cluster is needed. */
  lemma {:induction false} AllocCarries(g: Geo, n: nat, t: Table, prev: nat, data: seq<Byte>)
    requires GeoOk(g) && prev < ENTRIES && AllocChain(g, n, t, prev, data).ok
    ensures AllocCarriesData(g, n, data, AllocChain(g, n, t, prev, data))
    decreases |data|
  {
    hide Carries, Linked, FirstFree;
    if data == [] {
      NothingCarried();
    } else {
      var c := FindFree(t, 2, TotalClusters(g) + 2);
      var rest := AfterSectors(data, g.spc);
      var s := AllocChain(g, n, Linked(t, prev, c), c, rest);
      AllocCarries(g, n, Linked(t, prev, c), c, rest);
      AllocCarriesCons(g, n, data, c, s);
    }
  }

  lemma CarriesJoined(ws: seq<Write>, more: seq<Write>, data: seq<Byte>, rest: seq<Byte>)
    requires if rest == [] then Carries(Flat(ws), |ws|, data) else data == Flat(ws) + rest
    requires Carries(Flat(more), |more|, rest)
    ensures Carries(Flat(ws + more), |ws + more|, data)
  {
    FlatAppend(ws, more);
    if rest == [] {
      assert more == [] && ws + more == ws;
    } else {
      CarriesMore(Flat(ws), |ws|, Flat(more), |more|, rest);
    }
  }

  lemma PrefixJoined(g: Geo, c: nat, ws: seq<Write>, more: seq<Write>, tl: seq<nat>)
    requires WriteLbas(ws) <= ClusterLbas(g, c) && WriteLbas(more) <= ChainLbas(g, tl)
    requires more != [] ==> |ws| == g.spc
    ensures WriteLbas(ws + more) <= ClusterLbas(g, c) + ChainLbas(g, tl)
  {
    WriteLbasAppend(ws, more);
    if more != [] {
      assert WriteLbas(ws) == ClusterLbas(g, c);
    }
  }

  lemma AllWritesBelow(start: nat, count: nat, data: seq<Byte>, more: seq<Write>, n: nat)
    requires start + |SectorWrites(start, count, data)| <= n && forall w | w in more :: w.lba < n
    ensures forall w | w in SectorWrites(start, count, data) + more :: w.lba < n
  {
    hide SectorWrites;
  }

  lemma AllocCarriesCons(g: Geo, n: nat, data: seq<Byte>, c: nat, s: Alloc)
    requires GeoOk(g) && data != [] && AllocCarriesData(g, n, AfterSectors(data, g.spc), s)
    requires ClusterStart(g, c) + |SectorWrites(ClusterStart(g, c), g.spc, data)| <= n
    ensures AllocCarriesData(g, n, data, Alloc(s.ok, s.table, [c] + s.chain,
      SectorWrites(ClusterStart(g, c), g.spc, data) + s.writes))
  {
    hide Carries, SectorWrites, AfterSectors, ClusterStart, ChainLbas, WriteLbas, Flat, ClusterLbas;
    var rest := AfterSectors(data, g.spc);
    var ws := SectorWrites(ClusterStart(g, c), g.spc, data);
    SectorWritesCarry(ClusterStart(g, c), g.spc, data);
    CarriesJoined(ws, s.writes, data, rest);
    LastClusterStarts(g, c, s.chain, |s.writes|);
    WriteLbasOfCluster(g, c, data);
    if rest == [] {
      WrittenNothing(s, rest);
    }
    PrefixJoined(g, c, ws, s.writes, s.chain);
    AllWritesBelow(ClusterStart(g, c), g.spc, data, s.writes, n);
  }

  lemma WrittenNothing(s: Alloc, rest: seq<Byte>)
    requires rest == [] && Carries(Flat(s.writes), |s.writes|, rest)
    ensures s.writes == []
  {
  }

  predicate Holds(d: Disk, ws: seq<Write>) {
    forall i | 0 <= i < |ws| :: ws[i].lba < |d| && d[ws[i].lba] == ws[i].data
  }

  lemma {:induction false} HoldsContents(d: Disk, ws: seq<Write>)
    requires Holds(d, ws)
    ensures OnDevice(d, WriteLbas(ws)) && Contents(d, WriteLbas(ws)) == Flat(ws)
  {
    if ws != [] {
      assert Holds(d, ws[1..]);
      HoldsContents(d, ws[1..]);
      assert WriteLbas(ws)[1..] == WriteLbas(ws[1..]);
      assert d[WriteLbas(ws)[0]] == ws[0].data;
    }
  }

  lemma AppliedHolds(d: Disk, ws: seq<Write>)
    requires Distinct(WriteLbas(ws)) && forall w | w in ws :: w.lba < |d|
    ensures Holds(Apply(d, ws), ws)
  {
    hide Apply;
    forall i | 0 <= i < |ws|
      ensures ws[i].lba < |d| && Apply(d, ws)[ws[i].lba] == ws[i].data
    {
      assert ws[i] in ws;
      var lba := ws[i].lba;
      ApplyOrigin(d, ws, lba);
      var j :| 0 <= j < |ws| && ws[j] == Write(lba, Apply(d, ws)[lba]);
      assert WriteLbas(ws)[i] == WriteLbas(ws)[j] == lba;
    }
  }
}
