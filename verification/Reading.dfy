/** fat_read on a well-formed volume, and what its result depends on. */
module Reading {
  import opened Bytes
  import opened Names
  import opened FatTable
  import opened Layout
  import opened Directory
  import opened FatSpec
  import opened Volume
  import opened Removal

  function First(s: seq<nat>, n: nat): seq<nat> { if n <= |s| then s[..n] else s }

  lemma {:induction false} ChainLbasLength(g: Geo, ch: seq<nat>)
    requires GeoOk(g)
    ensures |ChainLbas(g, ch)| >= |ch|
    decreases |ch|
  {
    if ch != [] {
      ChainLbasLength(g, ch[1..]);
    }
  }

  lemma ChainLbasPrefix(g: Geo, ch: seq<nat>, n: nat)
    requires GeoOk(g) && n <= |ch|
    ensures First(ChainLbas(g, ch[..n]), n) == First(ChainLbas(g, ch), n)
  {
    assert ch == ch[..n] + ch[n..];
    ChainLbasAppend(g, ch[..n], ch[n..]);
    ChainLbasLength(g, ch[..n]);
    hide ChainLbas;
  }

  /** The sectors that fat_read visits are the first ones of the chain. */
  lemma FileLbasAre(g: Geo, t: Table, ch: seq<nat>, need: nat)
    requires GeoOk(g) && IsChain(t, ch, Limit(g))
    ensures FileLbas(g, t, ch[0], need) == First(ChainLbas(g, ch), need)
  {
    WalkIsChain(t, ch, Limit(g), 0xFEF, need);
    if need <= |ch| {
      ChainLbasPrefix(g, ch, need);
    }
    hide ChainLbas, Walk;
  }

  lemma {:induction false} WalkPrefix(t: Table, c: nat, last: nat, fuel: nat, more: nat)
    requires last < 0xFF8 && fuel <= more
    ensures Walk(t, c, last, fuel) == First(Walk(t, c, last, more), fuel)
    decreases fuel
  {
    hide Get;
    if fuel > 0 && 2 <= c <= last {
      WalkPrefix(t, Get(t, c), last, fuel - 1, more - 1);
      var a, b := Walk(t, Get(t, c), last, fuel - 1), Walk(t, Get(t, c), last, more - 1);
      assert Walk(t, c, last, fuel) == [c] + a && Walk(t, c, last, more) == [c] + b;
    }
  }

  lemma ClusterSize(g: Geo, c: nat)
    ensures |ClusterLbas(g, c)| == g.spc && (GeoOk(g) ==> g.spc >= 1)
  {
  }

  /** One round of the loop of fat_read over the clusters. */
  lemma FileLbasStep(g: Geo, t: Table, c: nat, need: nat)
    requires GeoOk(g) && need >= 1 && 2 <= c <= 0xFEF
    ensures FileLbas(g, t, c, need) ==
      First(ClusterLbas(g, c), need) + if need > g.spc then FileLbas(g, t, Get(t, c), need - g.spc) else []
  {
    hide Get, ClusterLbas, GeoOk;
    var tl := Walk(t, Get(t, c), 0xFEF, need - 1);
    var w := Walk(t, c, 0xFEF, need);
    assert w == [c] + tl && w[1..] == tl;
    assert ChainLbas(g, w) == ClusterLbas(g, c) + ChainLbas(g, tl);
    ClusterSize(g, c);
    if need > g.spc {
      var k := need - g.spc;
      WalkPrefix(t, Get(t, c), 0xFEF, k, need - 1);
      if k <= |tl| {
        ChainLbasPrefix(g, tl, k);
      }
      hide Walk, ChainLbas;
      assert FileLbas(g, t, Get(t, c), k) == First(ChainLbas(g, tl), k);
    }
  }

  lemma FileLbasEnd(g: Geo, t: Table, c: nat, need: nat)
    requires c < 2 || c > 0xFEF
    ensures FileLbas(g, t, c, need) == []
  {
  }

  lemma OnDevicePart(d: Disk, a: seq<nat>, b: seq<nat>)
    requires OnDevice(d, a + b)
    ensures OnDevice(d, a)
  {
    assert forall i | 0 <= i < |a| :: a[i] == (a + b)[i];
  }

  /** Whatever size the slot says, fat_read gives the data of the chain, cut to
      the size and the buffer: a chain that is too short ends the file early. */
  lemma ReadUpToChain(g: Geo, d: Disk, t: Table, ch: seq<nat>, size: nat, cap: nat)
    requires GeoOk(g) && IsChain(t, ch, Limit(g)) && OnDevice(d, ChainLbas(g, ch)) && size > 0
    ensures ReadChain(g, d, t, ch[0], size, cap) == Read(Take(Contents(d, ChainLbas(g, ch)), Min(size, cap)))
  {
    var n := Min(size, cap);
    var need := SectorsFor(n);
    var all := ChainLbas(g, ch);
    FileLbasAre(g, t, ch, need);
    assert ch[0] >= 2;
    hide ChainLbas, IsChain, FileLbas, Limit;
    if need <= |all| {
      var lbas := First(all, need);
      assert all == lbas + all[need..];
      OnDevicePart(d, lbas, all[need..]);
      ContentsAppend(d, lbas, all[need..]);
      assert Take(Contents(d, lbas), n) == Take(Contents(d, all), n);
    }
  }

  /** fat_read returns min(file size, buffer size) bytes, and they are that
      prefix of the data of the chain. */
  lemma ReadWhole(g: Geo, d: Disk, t: Table, ch: seq<nat>, size: nat, cap: nat)
    requires GeoOk(g) && IsChain(t, ch, Limit(g)) && OnDevice(d, ChainLbas(g, ch))
    requires 0 < size <= SECTOR_SIZE * |ChainLbas(g, ch)|
    ensures ReadChain(g, d, t, ch[0], size, cap) == Read(Contents(d, ChainLbas(g, ch))[..Min(size, cap)])
  {
    ReadUpToChain(g, d, t, ch, size, cap);
    hide ReadChain, ChainLbas, IsChain;
  }

  lemma SameAtFirst(d: Disk, e: Disk, lbas: seq<nat>, n: nat)
    requires SameAt(d, e, lbas)
    ensures SameAt(d, e, First(lbas, n)) && (OnDevice(d, First(lbas, n)) <==> OnDevice(e, First(lbas, n)))
  {
  }

  lemma ReadChainSame(g: Geo, d: Disk, t: Table, e: Disk, u: Table, ch: seq<nat>, size: nat, cap: nat)
    requires GeoOk(g) && IsChain(t, ch, Limit(g)) && IsChain(u, ch, Limit(g))
    requires SameAt(d, e, ChainLbas(g, ch))
    ensures ReadChain(g, e, u, ch[0], size, cap) == ReadChain(g, d, t, ch[0], size, cap)
  {
    var need := SectorsFor(Min(size, cap));
    FileLbasAre(g, t, ch, need);
    FileLbasAre(g, u, ch, need);
    hide ChainLbas, IsChain, FileLbas, Limit;
    var lbas := First(ChainLbas(g, ch), need);
    SameAtFirst(d, e, ChainLbas(g, ch), need);
    if OnDevice(d, lbas) {
      ContentsSame(d, e, lbas);
    }
  }

  // ---- reading by name

  function ReadSlot(g: Geo, d: Disk, t: Table, sl: Slot, cap: nat): ReadResult {
    ReadChain(g, d, t, FirstCluster(sl), FileSize(sl), cap)
  }

  lemma SeenRead(g: Geo, st: State, sh: Shape, name: Name, cap: nat)
    requires Seen(g, st.disk, st.tail, sh) && st.cur in sh.depth
    ensures StateOk(g, st)
    ensures var slots := DirSlots(g, st.disk, sh, st.cur);
      ReadFile(g, st, name, cap) ==
        match Find(slots, File(name), 0)
        case None => NotRead
        case Some(k) => ReadSlot(g, st.disk, TableOf(g, st), slots[k], cap)
  {
    SeenFind(g, st, sh, File(name));
    hide Seen, ReadChain, DirLbas, Buffer, Find;
  }

  lemma ReadAgrees(g: Geo, st: State, sh: Shape, name: Name, cap: nat)
    requires Live(g, st, sh)
    ensures StateOk(g, st)
    ensures var slots := DirSlots(g, st.disk, sh, st.cur);
      ReadFile(g, st, name, cap) ==
        match Find(slots, File(name), 0)
        case None => NotRead
        case Some(k) => ReadSlot(g, st.disk, TableOf(g, st), slots[k], cap)
  {
    hide ReadFile, ShapeOk, DirOk, Find, ReadSlot, Slots, LbasOf;
    SeenRead(g, st, sh, name, cap);
  }

  /** The files of sh that sh1 still has are where they were, with the same data. */
  ghost predicate SameFiles(g: Geo, d: Disk, sh: Shape, e: Disk, sh1: Shape) {
    forall h | h in sh.chains && h !in sh.depth && h in sh1.chains ::
      sh1.chains[h] == sh.chains[h] && SameAt(d, e, ChainLbas(g, sh.chains[h]))
  }

  lemma ReadSlotSame(g: Geo, st: State, sh: Shape, st1: State, sh1: Shape, k: nat, cap: nat)
    requires Live(g, st, sh) && Live(g, st1, sh1) && SameFiles(g, st.disk, sh, st1.disk, sh1)
    requires StateOk(g, st) && StateOk(g, st1) && k < |DirSlots(g, st.disk, sh, st.cur)|
    requires var sl := DirSlots(g, st.disk, sh, st.cur)[k];
      IsFile(sl) && (FirstCluster(sl) != 0 ==> FirstCluster(sl) in sh1.chains)
    ensures var sl := DirSlots(g, st.disk, sh, st.cur)[k];
      ReadSlot(g, st1.disk, TableOf(g, st1), sl, cap) == ReadSlot(g, st.disk, TableOf(g, st), sl, cap)
  {
    SlotIsOk(g, st.disk, st.tail, sh, st.cur, k);
    var sl := DirSlots(g, st.disk, sh, st.cur)[k];
    var c := FirstCluster(sl);
    if c != 0 {
      hide ReadChain, DirSlots, DirOk, DirsOnDevice;
      ReadChainSame(g, st.disk, TableOf(g, st), st1.disk, TableOf(g, st1), sh.chains[c], FileSize(sl), cap);
    }
  }

  /** Enough for reading a name to give the same result in two states. */
  lemma ReadSame(g: Geo, st: State, sh: Shape, st1: State, sh1: Shape, name: Name, cap: nat)
    requires Live(g, st, sh) && Live(g, st1, sh1) && st1.cur == st.cur
    requires SameFiles(g, st.disk, sh, st1.disk, sh1)
    requires var a, b := DirSlots(g, st.disk, sh, st.cur), DirSlots(g, st1.disk, sh1, st.cur);
      var r := Find(a, File(name), 0);
      && Find(b, File(name), 0) == r
      && (r.Some? ==> r.value < |b| && b[r.value] == a[r.value])
      && (r.Some? && FirstCluster(a[r.value]) != 0 ==> FirstCluster(a[r.value]) in sh1.chains)
    ensures StateOk(g, st) && StateOk(g, st1)
    ensures ReadFile(g, st1, name, cap) == ReadFile(g, st, name, cap)
  {
    ReadAgrees(g, st, sh, name, cap);
    ReadAgrees(g, st1, sh1, name, cap);
    hide ReadFile, Live, SameFiles, ReadSlot;
    var r := Find(DirSlots(g, st.disk, sh, st.cur), File(name), 0);
    if r.Some? {
      ReadSlotSame(g, st, sh, st1, sh1, r.value, cap);
    }
  }

  function In(st: State, x: nat): State { st.(cur := x) }

  /** In directory x, reading the name and changing to it give what they gave. */
  predicate SameView(g: Geo, st: State, st1: State, x: nat, name: Name, cap: nat) {
    && StateOk(g, In(st, x)) && StateOk(g, In(st1, x))
    && ReadFile(g, In(st1, x), name, cap) == ReadFile(g, In(st, x), name, cap)
    && Cd(g, In(st1, x), name).rc == Cd(g, In(st, x), name).rc
    && Cd(g, In(st1, x), name).cur == Cd(g, In(st, x), name).cur
  }

  /** ... for every name in every directory. */
  ghost predicate Indistinguishable(g: Geo, st: State, st1: State, sh: Shape) {
    forall x, name: Name, cap: nat | x in sh.depth :: SameView(g, st, st1, x, name, cap)
  }

  lemma SeenCd(g: Geo, st: State, sh: Shape, name: Name)
    requires Seen(g, st.disk, st.tail, sh) && st.cur in sh.depth
    ensures StateOk(g, st)
    ensures var slots := DirSlots(g, st.disk, sh, st.cur); var r := Find(slots, Subdir(name), 0);
      var o := Cd(g, st, name);
      && o.rc == (if name == [DOT, DOT] || r.Some? then 0 else -1)
      && o.cur == if name == [DOT, DOT] then 0 else if r.Some? then FirstCluster(slots[r.value]) else st.cur
  {
    SeenFind(g, st, sh, Subdir(name));
    hide Seen, DirLbas, Buffer, Find;
  }

  lemma CdAgrees(g: Geo, st: State, sh: Shape, name: Name)
    requires Live(g, st, sh)
    ensures StateOk(g, st)
    ensures var slots := DirSlots(g, st.disk, sh, st.cur); var r := Find(slots, Subdir(name), 0);
      var o := Cd(g, st, name);
      && o.rc == (if name == [DOT, DOT] || r.Some? then 0 else -1)
      && o.cur == if name == [DOT, DOT] then 0 else if r.Some? then FirstCluster(slots[r.value]) else st.cur
  {
    hide Cd, ShapeOk, DirOk, Find, FirstCluster, Slots, LbasOf;
    SeenCd(g, st, sh, name);
  }

  lemma UnnoticedReads(g: Geo, st: State, st1: State, sh: Shape, x: nat, name: Name, cap: nat)
    requires Live(g, In(st, x), sh) && Live(g, In(st1, x), sh)
    requires SameSlots(g, st.disk, sh, st1.disk, sh) && Untouched(g, st.disk, st1.disk, sh)
    ensures SameView(g, st, st1, x, name, cap)
  {
    hide Word, Dword, Slots, Joined, Get, IsChain, ZeroTail, ReadFile, Cd;
    CdAgrees(g, In(st, x), sh, name);
    CdAgrees(g, In(st1, x), sh, name);
    var slots := DirSlots(g, st.disk, sh, x);
    var r := Find(slots, File(name), 0);
    if r.Some? {
      SlotIsOk(g, st.disk, st.tail, sh, x, r.value);
    }
    assert SameFiles(g, st.disk, sh, st1.disk, sh);
    hide ReadFile, Cd, Mounted;
    ReadSame(g, In(st, x), sh, In(st1, x), sh, name, cap);
  }

  lemma UnnoticedIndistinguishable(g: Geo, st: State, st1: State, sh: Shape)
    requires Mounted(g, st.disk, st.tail, sh) && Mounted(g, st1.disk, st1.tail, sh)
    requires SameSlots(g, st.disk, sh, st1.disk, sh) && Untouched(g, st.disk, st1.disk, sh)
    ensures Indistinguishable(g, st, st1, sh)
  {
    hide SameView, Mounted, StateOk, SameSlots, Untouched;
    forall x, name: Name, cap: nat | x in sh.depth
      ensures SameView(g, st, st1, x, name, cap)
    {
      UnnoticedReads(g, st, st1, sh, x, name, cap);
    }
  }
}
