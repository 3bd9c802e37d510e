/** Every operation, whatever it returns, keeps the volume well-formed. */
module Operations {
  import opened Bytes
  import opened Names
  import opened FatTable
  import opened Layout
  import opened Directory
  import opened FatSpec
  import opened Volume
  import opened Removal
  import opened Allocation
  import opened Addition

  ghost predicate WellFormed(g: Geo, st: State) {
    exists sh :: Live(g, st, sh)
  }

  lemma WellFormedOk(g: Geo, st: State)
    requires WellFormed(g, st)
    ensures StateOk(g, st)
  {
    var sh :| Live(g, st, sh);
    LiveStateOk(g, st, sh);
  }

  // ---- fat_write

  function AllocOf(g: Geo, st: State, data: seq<Byte>): Alloc
    requires StateOk(g, st)
  {
    AllocChain(g, |st.disk|, TableOf(g, st), 0, data)
  }

  /** The state after the data and the table were written, before the slot is. */
  function StoreMid(g: Geo, st: State, data: seq<Byte>): State
    requires StateOk(g, st)
  {
    var r := AllocOf(g, st, data);
    State(Apply(Apply(st.disk, r.writes), FatWrites(g, r.table, 0)), st.cur, TailOf(g, r.table))
  }

  function StoreShape(g: Geo, st: State, sh: Shape, data: seq<Byte>): Shape
    requires StateOk(g, st)
  {
    var r := AllocOf(g, st, data);
    if r.chain == [] then sh else WithChain(sh, r.chain)
  }

  lemma AllocFacts(g: Geo, st: State, data: seq<Byte>)
    requires StateOk(g, st) && AllocOf(g, st, data).ok
    ensures var r := AllocOf(g, st, data); var t := TableOf(g, st);
      && AllFree(g, t, r.writes) && KeepsUsed(g, t, r.table) && AllUnused(t, r.chain)
      && (data == [] ==> r.chain == [] && r.table == t)
      && (data != [] ==> r.chain != [] && IsChain(r.table, r.chain, Limit(g)))
      && |data| <= SECTOR_SIZE * |ChainLbas(g, r.chain)|
  {
    var t, n := TableOf(g, st), |st.disk|;
    AllocWritesFree(g, n, t, 0, data);
    AllocTable(g, n, t, 0, data);
    AllocCarries(g, n, t, 0, data);
  }

  lemma StoreMidKeeps(g: Geo, st: State, sh: Shape, data: seq<Byte>)
    requires Live(g, st, sh) && StateOk(g, st) && AllocOf(g, st, data).ok
    ensures var m := StoreMid(g, st, data); var sh1 := StoreShape(g, st, sh, data);
      && Live(g, m, sh1) && TableOf(g, m) == AllocOf(g, st, data).table
      && sh1.depth == sh.depth
      && Untouched(g, st.disk, m.disk, sh) && SameSlots(g, st.disk, sh, m.disk, sh1)
  {
    var r, t := AllocOf(g, st, data), TableOf(g, st);
    AllocFacts(g, st, data);
    DataAndTable(g, st.disk, st.tail, sh, r.writes, r.table);
    if r.chain != [] {
      var m := StoreMid(g, st, data);
      NewChainMounted(g, m.disk, m.tail, sh, t, r.chain);
    }
  }

  lemma FileSlotOk(g: Geo, sh: Shape, ch: seq<nat>, x: nat, k: nat, name: Name, size: nat)
    requires x in sh.depth && (forall y | y in sh.depth && y != 0 :: y in sh.chains)
    requires size < 0x1_0000_0000 && forall i | 0 <= i < |ch| :: 2 <= ch[i] < 0x1_0000
    requires if ch == [] then size == 0 else ch[0] !in sh.chains && size <= SECTOR_SIZE * |ChainLbas(g, ch)|
    ensures var sl := FileSlot(name, ch, size); var sh1 := if ch == [] then sh else WithChain(sh, ch);
      sl[0] != 0 && SlotOk(g, WithOwner(sh1, FirstCluster(sl), x, k), x, k, sl)
  {
    hide ChainLbas, NewSlot, Split83, RawNameOf, FirstCluster, FileSize;
    SplitFirst(name);
    var sl := FileSlot(name, ch, size);
    assert !IsSubdir(sl);
    if ch != [] {
      assert ch[0] !in sh.depth;
    }
  }

  lemma FileSlotFits(g: Geo, st: State, sh: Shape, name: Name, data: seq<Byte>, k: nat)
    requires Live(g, st, sh) && StateOk(g, st) && AllocOf(g, st, data).ok && |data| < 0x1_0000_0000
    ensures var ch := AllocOf(g, st, data).chain; var sh1 := StoreShape(g, st, sh, data);
      && (forall i | 0 <= i < |ch| :: ch[i] < 0x1_0000) && st.cur in sh1.depth
      && (ch != [] ==> ch[0] !in sh.chains && ch[0] != 0)
      && FileSlot(name, ch, |data|)[0] != 0
      && SlotOk(g, WithOwner(sh1, FirstCluster(FileSlot(name, ch, |data|)), st.cur, k), st.cur, k,
        FileSlot(name, ch, |data|))
  {
    AllocFacts(g, st, data);
    var r := AllocOf(g, st, data);
    assert forall i | 0 <= i < |r.chain| :: 2 <= r.chain[i] < 0x1_0000;
    if r.chain != [] {
      NewChainShape(g, TableOf(g, st), r.table, sh, r.chain);
    }
    FileSlotOk(g, sh, r.chain, st.cur, k, name, |data|);
  }

  lemma FileSlotCluster(name: Name, ch: seq<nat>, size: nat)
    requires size < 0x1_0000_0000 && forall i | 0 <= i < |ch| :: ch[i] < 0x1_0000
    ensures var sl := FileSlot(name, ch, size);
      && FirstCluster(sl) == (if ch == [] then 0 else ch[0]) && FileSize(sl) == size
      && RawNameOf(sl) == Split83(name) && sl[0] == Split83(name)[0] && sl[11] == 0
  {
  }

  /** What the second half of fat_write returns and leaves behind. */
  lemma StoreOutcome(g: Geo, st: State, sh: Shape, name: Name, data: seq<Byte>)
    requires Live(g, st, sh) && StateOk(g, st) && AllocOf(g, st, data).ok && |data| < 0x1_0000_0000
    requires forall i | 0 <= i < |AllocOf(g, st, data).chain| :: AllocOf(g, st, data).chain[i] < 0x1_0000
    ensures var r := AllocOf(g, st, data); var m := StoreMid(g, st, data); var sh1 := StoreShape(g, st, sh, data);
      var sl := FileSlot(name, r.chain, |data|);
      var ws := r.writes + FatWrites(g, r.table, 0);
      && Apply(st.disk, ws) == m.disk && Live(g, m, sh1)
      && Store(g, st, name, data) ==
        match Find(DirSlots(g, m.disk, sh1, st.cur), Vacant, 0)
        case None => Outcome(-1, ws, m.cur, m.tail)
        case Some(k) => Outcome(0, ws + [SlotWrite(m.disk, LbasOf(g, sh1, st.cur), k, sl)], m.cur, m.tail)
  {
    var r, m := AllocOf(g, st, data), StoreMid(g, st, data);
    var ws := r.writes + FatWrites(g, r.table, 0);
    ApplyAppend(st.disk, r.writes, FatWrites(g, r.table, 0));
    StoreMidKeeps(g, st, sh, data);
    AddSlotOutcome(g, st, r.table, ws, FileSlot(name, r.chain, |data|), StoreShape(g, st, sh, data));
  }

  /** The state after a successful store: the middle state with slot k filled. */
  lemma StoreDone(g: Geo, st: State, sh: Shape, name: Name, data: seq<Byte>, k: nat)
    requires Live(g, st, sh) && StateOk(g, st) && AllocOf(g, st, data).ok && |data| < 0x1_0000_0000
    requires forall i | 0 <= i < |AllocOf(g, st, data).chain| :: AllocOf(g, st, data).chain[i] < 0x1_0000
    requires Find(DirSlots(g, st.disk, sh, st.cur), Vacant, 0) == Some(k)
    ensures var m := StoreMid(g, st, data); var sh1 := StoreShape(g, st, sh, data);
      var sl := FileSlot(name, AllocOf(g, st, data).chain, |data|);
      && Live(g, m, sh1) && m.cur == st.cur && k < |DirSlots(g, m.disk, sh1, st.cur)|
      && DirSlots(g, m.disk, sh1, st.cur) == DirSlots(g, st.disk, sh, st.cur)
      && After(st, Store(g, st, name, data)) == State(WithSlot(g, m.disk, sh1, st.cur, k, sl), m.cur, m.tail)
      && Store(g, st, name, data).rc == 0
  {
    var r, m := AllocOf(g, st, data), StoreMid(g, st, data);
    var sh1 := StoreShape(g, st, sh, data);
    var ws := r.writes + FatWrites(g, r.table, 0);
    StoreMidKeeps(g, st, sh, data);
    StoreOutcome(g, st, sh, name, data);
    var w := SlotWrite(m.disk, LbasOf(g, sh1, st.cur), k, FileSlot(name, r.chain, |data|));
    ApplyAppend(st.disk, ws, [w]);
    ApplyOne(m.disk, w);
  }

  function StoredShape(g: Geo, st: State, sh: Shape, data: seq<Byte>, k: nat): Shape
    requires StateOk(g, st)
  {
    var r := AllocOf(g, st, data);
    WithOwner(StoreShape(g, st, sh, data), if r.chain == [] then 0 else r.chain[0], st.cur, k)
  }

  lemma NewChainUnreferenced(g: Geo, st: State, sh: Shape, data: seq<Byte>)
    requires Live(g, st, sh) && StateOk(g, st) && AllocOf(g, st, data).ok
    requires var ch := AllocOf(g, st, data).chain; ch != [] && ch[0] !in sh.chains && ch[0] != 0
    ensures var m := StoreMid(g, st, data); var sh1 := StoreShape(g, st, sh, data);
      Live(g, m, sh1) && NobodyRefers(g, m.disk, sh1, AllocOf(g, st, data).chain[0])
  {
    var m, sh1, c := StoreMid(g, st, data), StoreShape(g, st, sh, data), AllocOf(g, st, data).chain[0];
    StoreMidKeeps(g, st, sh, data);
    DataAndTable0(g, st, sh, data);
    assert SameSlots(g, m.disk, sh, m.disk, sh1);
    hide AllocOf, StoreMid, StoreShape, AllocChain;
    UnknownNobodyRefers(g, m.disk, m.tail, sh, c);
    assert DirsOnDevice(g, m.disk, sh);
    SameReferences(g, m.disk, sh, sh1, c);
  }

  lemma StoreDoneKeeps(g: Geo, st: State, sh: Shape, name: Name, data: seq<Byte>, k: nat)
    requires Live(g, st, sh) && StateOk(g, st) && AllocOf(g, st, data).ok && |data| < 0x1_0000_0000
    requires Find(DirSlots(g, st.disk, sh, st.cur), Vacant, 0) == Some(k)
    ensures Live(g, After(st, Store(g, st, name, data)), StoredShape(g, st, sh, data, k))
  {
    hide AllocChain, AllocOf, StoreMid, StoreShape, Store, AddSlot, FileSlot, SlotOk, DirSlots, Find, WithSlot, Mounted,
      IsChain;
    var ch, m, sh1 := AllocOf(g, st, data).chain, StoreMid(g, st, data), StoreShape(g, st, sh, data);
    FileSlotFits(g, st, sh, name, data, k);
    StoreDone(g, st, sh, name, data, k);
    FileSlotCluster(name, ch, |data|);
    if ch != [] {
      NewChainUnreferenced(g, st, sh, data);
    }
    AddSlotKeeps(g, m, sh1, k, FileSlot(name, ch, |data|));
  }

  lemma DataAndTable0(g: Geo, st: State, sh: Shape, data: seq<Byte>)
    requires Live(g, st, sh) && StateOk(g, st) && AllocOf(g, st, data).ok
    ensures var m := StoreMid(g, st, data); Mounted(g, m.disk, m.tail, sh) && SameSlots(g, st.disk, sh, m.disk, sh)
  {
    var r := AllocOf(g, st, data);
    AllocFacts(g, st, data);
    DataAndTable(g, st.disk, st.tail, sh, r.writes, r.table);
  }

  lemma SameReferences(g: Geo, d: Disk, sh: Shape, sh1: Shape, c: nat)
    requires sh.depth == sh1.depth && SameSlots(g, d, sh, d, sh1)
    requires NobodyRefers(g, d, sh, c)
    ensures NobodyRefers(g, d, sh1, c)
  {
  }

  lemma StoreKeeps(g: Geo, st: State, sh: Shape, name: Name, data: seq<Byte>)
    requires Live(g, st, sh) && StateOk(g, st) && |data| < 0x1_0000_0000
    ensures WellFormed(g, After(st, Store(g, st, name, data)))
  {
    if !AllocOf(g, st, data).ok {
      FailedAllocKeeps(g, st, sh, data);
    } else {
      FileSlotFits(g, st, sh, name, data, 0);
      StoreOutcome(g, st, sh, name, data);
      StoreMidKeeps(g, st, sh, data);
      hide AllocChain, AllocOf, StoreMid, StoreShape, FileSlot, SlotOk, DirSlots, Find, Mounted, IsChain;
      match Find(DirSlots(g, st.disk, sh, st.cur), Vacant, 0) {
        case None =>
        case Some(k) => StoreDoneKeeps(g, st, sh, name, data, k);
      }
    }
  }

  /** Running out of clusters or off the device: only free clusters were written. */
  lemma FailedAllocKeeps(g: Geo, st: State, sh: Shape, data: seq<Byte>)
    requires Live(g, st, sh) && StateOk(g, st)
    ensures var r := AllocOf(g, st, data);
      && Live(g, State(Apply(st.disk, r.writes), st.cur, TailOf(g, r.table)), sh)
      && Untouched(g, st.disk, Apply(st.disk, r.writes), sh)
  {
    var r, t := AllocOf(g, st, data), TableOf(g, st);
    var e := Apply(st.disk, r.writes);
    AllocWritesFree(g, |st.disk|, t, 0, data);
    AllFreeUntouched(g, st.disk, t, sh, r.writes);
    AllFreeTable(g, st.disk, t, r.writes);
    TailIrrelevant(g, st.disk, e, st.tail, TailOf(g, r.table));
    Unnoticed(g, st.disk, st.tail, e, TailOf(g, r.table), sh);
  }
}
