/** Writing a file under a new name and stopping after any number of its
    single-sector writes. */
module Interruption {
  import opened Bytes
  import opened Names
  import opened FatTable
  import opened Layout
  import opened Directory
  import opened FatSpec
  import opened Volume
  import opened Removal
  import opened Allocation
  import opened Addition
  import opened Operations
  import opened Runs
  import opened Reading

  /** Nothing of the old volume shows a difference on disk e. */
  ghost predicate Intact(g: Geo, st: State, sh: Shape, e: Disk) {
    && Mounted(g, e, st.tail, sh)
    && SameSlots(g, st.disk, sh, e, sh) && Untouched(g, st.disk, e, sh)
  }

  lemma IntactIndistinguishable(g: Geo, st: State, sh: Shape, e: Disk)
    requires Mounted(g, st.disk, st.tail, sh) && Intact(g, st, sh, e)
    ensures Indistinguishable(g, st, st.(disk := e), sh)
  {
    hide Mounted, SameSlots, Untouched, Indistinguishable;
    UnnoticedIndistinguishable(g, st, st.(disk := e), sh);
  }

  lemma PartialData(g: Geo, st: State, sh: Shape, ws: seq<Write>)
    requires Live(g, st, sh) && AllFree(g, Buffer(g, st.disk, st.tail), ws)
    ensures Intact(g, st, sh, Apply(st.disk, ws)) && TableBytes(g, Apply(st.disk, ws)) == TableBytes(g, st.disk)
  {
    var t := Buffer(g, st.disk, st.tail);
    var e := Apply(st.disk, ws);
    AllFreeUntouched(g, st.disk, t, sh, ws);
    AllFreeTable(g, st.disk, t, ws);
    TailIrrelevant(g, st.disk, e, st.tail, st.tail);
    hide AllFree, DirOk, DirSlots, InFree;
    Unnoticed(g, st.disk, st.tail, e, st.tail, sh);
  }

  /** While the table is being saved, the first copy is a mixture of the old
      and the new table, sector by sector; an entry that straddles two sectors
      may be half old and half new. Entries in use are the same in both. */
  lemma MixtureKeepsUsed(g: Geo, d: Disk, tail: seq<Byte>, u: Table, pre: seq<Write>)
    requires GeoOk(g) && RootStart(g) <= |d| && TailOk(g, tail) && KeepsUsed(g, Buffer(g, d, tail), u)
    requires forall w | w in pre :: w in FatWrites(g, u, 0)
    ensures KeepsUsed(g, Buffer(g, d, tail), Buffer(g, Apply(d, pre), tail))
  {
    var t, m := Buffer(g, d, tail), Buffer(g, Apply(d, pre), tail);
    PartialSave(g, d, u, pre);
    assert forall j | 0 <= j < BUFFER_SIZE :: m[j] == t[j] || m[j] == u[j] by {
      hide FatWrites, Apply, TableBytes;
    }
    hide Buffer, Get, FatWrites, Apply;
    forall c | 0 <= c < Limit(g) && Get(t, c) != 0
      ensures Get(m, c) == Get(t, c)
    {
      MixedEntry(t, u, m, c);
    }
  }

  lemma PartialTable(g: Geo, st: State, sh: Shape, u: Table, pre: seq<Write>)
    requires Live(g, st, sh) && KeepsUsed(g, Buffer(g, st.disk, st.tail), u)
    requires forall w | w in pre :: w in FatWrites(g, u, 0)
    ensures Intact(g, st, sh, Apply(st.disk, pre))
  {
    var e := Apply(st.disk, pre);
    PrefixOutsideFat(g, st.disk, u, pre);
    OutsideFatUntouched(g, st.disk, Buffer(g, st.disk, st.tail), e, sh);
    MixtureKeepsUsed(g, st.disk, st.tail, u, pre);
    hide KeepsUsed, DirOk, DirSlots, FatWrites, SameOutsideFat;
    Unnoticed(g, st.disk, st.tail, e, st.tail, sh);
  }

  lemma IntactTwice(g: Geo, st: State, sh: Shape, e: Disk, f: Disk)
    requires Intact(g, st, sh, e) && Intact(g, st.(disk := e), sh, f)
    ensures Intact(g, st, sh, f)
  {
    hide Mounted, DirSlots, ChainLbas;
    UntouchedTwice(g, st.disk, e, f, sh);
  }

  /** Any prefix of the data writes followed by any prefix of the table save. */
  lemma PartialStore(g: Geo, st: State, sh: Shape, ws: seq<Write>, u: Table, k: nat)
    requires Live(g, st, sh) && AllFree(g, Buffer(g, st.disk, st.tail), ws)
      && KeepsUsed(g, Buffer(g, st.disk, st.tail), u)
    requires k <= |ws + FatWrites(g, u, 0)|
    ensures Intact(g, st, sh, Apply(st.disk, (ws + FatWrites(g, u, 0))[..k]))
  {
    var fw := FatWrites(g, u, 0);
    hide FatWrites, Mounted, Intact, KeepsUsed, InFree, Apply;
    if k <= |ws| {
      assert (ws + fw)[..k] == ws[..k];
      PartialData(g, st, sh, ws[..k]);
    } else {
      var pre := fw[..k - |ws|];
      assert (ws + fw)[..k] == ws + pre;
      ApplyAppend(st.disk, ws, pre);
      PartialData(g, st, sh, ws);
      PartialSecond(g, st, sh, Apply(st.disk, ws), u, pre);
    }
  }

  lemma PartialSecond(g: Geo, st: State, sh: Shape, e: Disk, u: Table, pre: seq<Write>)
    requires Live(g, st, sh) && Intact(g, st, sh, e) && TableBytes(g, e) == TableBytes(g, st.disk)
    requires KeepsUsed(g, Buffer(g, st.disk, st.tail), u) && forall w | w in pre :: w in FatWrites(g, u, 0)
    ensures Intact(g, st, sh, Apply(e, pre))
  {
    hide FatWrites, SameSlots, Untouched, Apply, KeepsUsed;
    PartialTable(g, st.(disk := e), sh, u, pre);
    IntactTwice(g, st, sh, e, Apply(e, pre));
  }

  /** The data and table writes of a store, without the slot. */
  function EarlyWrites(g: Geo, st: State, data: seq<Byte>): seq<Write>
    requires StateOk(g, st)
  {
    var r := AllocOf(g, st, data);
    if r.ok then r.writes + FatWrites(g, r.table, 0) else r.writes
  }

  lemma StoreWrites(g: Geo, st: State, sh: Shape, name: Name, data: seq<Byte>)
    requires Live(g, st, sh) && StateOk(g, st) && |data| < 0x1_0000_0000
    ensures var o := Store(g, st, name, data); var all := EarlyWrites(g, st, data);
      all <= o.writes && |o.writes| == |all| + if o.rc == 0 then 1 else 0
  {
    if AllocOf(g, st, data).ok {
      FileSlotFits(g, st, sh, name, data, 0);
      StoreOutcome(g, st, sh, name, data);
      hide Store, Live, FatWrites, AllocOf, StoreMid, DirSlots, Find, FileSlot, StoreShape, LbasOf;
      var all := EarlyWrites(g, st, data);
      match Find(DirSlots(g, StoreMid(g, st, data).disk, StoreShape(g, st, sh, data), st.cur), Vacant, 0) {
        case None =>
        case Some(k) => assert Store(g, st, name, data).writes[..|all|] == all;
      }
    }
  }

  /** k of the writes, and not the last one of a successful operation. */
  predicate StopsEarly(o: Outcome, k: nat) { k <= |o.writes| && (o.rc == 0 ==> k < |o.writes|) }

  lemma StorePrefix(g: Geo, st: State, sh: Shape, name: Name, data: seq<Byte>, k: nat)
    requires Live(g, st, sh) && StateOk(g, st) && |data| < 0x1_0000_0000
    requires StopsEarly(Store(g, st, name, data), k)
    ensures k <= |EarlyWrites(g, st, data)| && Store(g, st, name, data).writes[..k] == EarlyWrites(g, st, data)[..k]
  {
    hide Word, Dword, Slots, Joined, Get, Live, Store;
    StoreWrites(g, st, sh, name, data);
    hide Store, EarlyWrites, Live;
  }

  /** fat_write of a new name was stopped after k of its writes, before the one
      that fills the slot. */
  ghost predicate Stopped(g: Geo, st: State, sh: Shape, name: Name, data: seq<Byte>, k: nat) {
    && Live(g, st, sh) && StateOk(g, st) && |data| < 0x1_0000_0000
    && Find(DirSlots(g, st.disk, sh, st.cur), File(name), 0).None?
    && StopsEarly(WriteFile(g, st, name, data), k)
  }

  function StoppedDisk(g: Geo, st: State, name: Name, data: seq<Byte>, k: nat): (e: Disk)
    requires StateOk(g, st) && |data| < 0x1_0000_0000 && k <= |WriteFile(g, st, name, data).writes|
    ensures |e| == |st.disk|
  {
    Apply(st.disk, WriteFile(g, st, name, data).writes[..k])
  }

  lemma StoppedWrites(g: Geo, st: State, sh: Shape, name: Name, data: seq<Byte>, k: nat)
    requires Stopped(g, st, sh, name, data, k)
    ensures k <= |EarlyWrites(g, st, data)|
    ensures StoppedDisk(g, st, name, data, k) == Apply(st.disk, EarlyWrites(g, st, data)[..k])
  {
    WriteOfNewName(g, st, sh, name, data);
    StorePrefix(g, st, sh, name, data, k);
    hide WriteFile, Store, EarlyWrites, Live;
  }

  lemma StoreIntact(g: Geo, st: State, sh: Shape, name: Name, data: seq<Byte>, k: nat)
    requires Live(g, st, sh) && StateOk(g, st) && |data| < 0x1_0000_0000
    requires StopsEarly(Store(g, st, name, data), k)
    ensures Intact(g, st, sh, Apply(st.disk, Store(g, st, name, data).writes[..k]))
  {
    StorePrefix(g, st, sh, name, data, k);
    var r := AllocOf(g, st, data);
    AllocWritesFree(g, |st.disk|, TableOf(g, st), 0, data);
    hide Store, AllocChain, Mounted, Intact;
    if r.ok {
      AllocFacts(g, st, data);
      PartialStore(g, st, sh, r.writes, r.table, k);
    } else {
      PartialData(g, st, sh, r.writes[..k]);
    }
  }

  lemma StoppedIntact(g: Geo, st: State, sh: Shape, name: Name, data: seq<Byte>, k: nat)
    requires Stopped(g, st, sh, name, data, k)
    ensures Intact(g, st, sh, StoppedDisk(g, st, name, data, k))
  {
    WriteOfNewName(g, st, sh, name, data);
    hide WriteFile, Store, Live, Intact;
    StoreIntact(g, st, sh, name, data, k);
  }

  /** If the name is new, every proper prefix of the writes of fat_write leaves
      a volume in which every existing file and directory is found and read as
      before. The last write, which fills one slot, is atomic. */
  lemma InterruptedWrite(g: Geo, st: State, sh: Shape, name: Name, data: seq<Byte>, k: nat)
    requires Live(g, st, sh) && StateOk(g, st) && |data| < 0x1_0000_0000
    requires Find(DirSlots(g, st.disk, sh, st.cur), File(name), 0).None?
    requires StopsEarly(WriteFile(g, st, name, data), k)
    ensures var e := Apply(st.disk, WriteFile(g, st, name, data).writes[..k]);
      Live(g, st.(disk := e), sh) && Indistinguishable(g, st, st.(disk := e), sh)
  {
    StoppedIntact(g, st, sh, name, data, k);
    hide WriteFile, Mounted, Indistinguishable, SameSlots, Untouched;
    IntactIndistinguishable(g, st, sh, StoppedDisk(g, st, name, data, k));
  }

  // ---- starting again

  lemma TailFree(g: Geo, d: Disk, tail: seq<Byte>, tail': seq<Byte>, sh: Shape)
    requires Mounted(g, d, tail, sh) && TailOk(g, tail')
    ensures Mounted(g, d, tail', sh)
  {
    hide ChainsApart, DirOk, IsChain, Joined, KeepsUsed;
    TailIrrelevant(g, d, d, tail, tail');
    Unnoticed(g, d, tail, d, tail', sh);
  }

  lemma EarlyWritesBehindBoot(g: Geo, st: State, data: seq<Byte>, w: Write)
    requires StateOk(g, st) && w in EarlyWrites(g, st, data)
    ensures w.lba != 0
  {
    var r := AllocOf(g, st, data);
    AllocWritesFree(g, |st.disk|, TableOf(g, st), 0, data);
    CopyInFat(g, 0);
    hide AllocOf, InFree, FatWrites;
    if w in r.writes {
      FreeSectorInData(g, TableOf(g, st), w.lba);
    } else {
      var x, s := FatWriteFrom(g, r.table, 0, w);
    }
  }

  lemma StoppedBoot(g: Geo, st: State, sh: Shape, name: Name, data: seq<Byte>, k: nat)
    requires Stopped(g, st, sh, name, data, k)
    ensures 0 < |st.disk| && StoppedDisk(g, st, name, data, k)[0] == st.disk[0]
  {
    StoppedWrites(g, st, sh, name, data, k);
    CopyInFat(g, 0);
    hide WriteFile, EarlyWrites, Mounted, StoppedDisk, Apply;
    forall w | w in EarlyWrites(g, st, data)[..k]
      ensures w.lba != 0
    {
      assert w in EarlyWrites(g, st, data);
      EarlyWritesBehindBoot(g, st, data, w);
    }
    ApplyMissing(st.disk, EarlyWrites(g, st, data)[..k], 0);
  }

  /** After the interruption the machine starts again: whatever its table buffer
      holds, the volume is well-formed from its root directory on, so every run
      can go on from there, and shows what it showed before. */
  lemma InterruptedRestart(g: Geo, st: State, sh: Shape, name: Name, data: seq<Byte>, k: nat, tail: seq<Byte>)
    requires Stopped(g, st, sh, name, data, k) && TailOk(g, tail)
    ensures var st1 := State(StoppedDisk(g, st, name, data, k), 0, tail);
      && 0 < |st.disk| == |st1.disk| && st1.disk[0] == st.disk[0]
      && Live(g, st1, sh) && WellFormed(g, st1) && Indistinguishable(g, st, st1, sh)
  {
    hide WriteFile, Indistinguishable, SameSlots, Untouched, StoppedDisk, ShapeOk, DirOk;
    StoppedIntact(g, st, sh, name, data, k);
    StoppedBoot(g, st, sh, name, data, k);
    var e := StoppedDisk(g, st, name, data, k);
    TailFree(g, e, st.tail, tail, sh);
    UnnoticedIndistinguishable(g, st, State(e, 0, tail), sh);
  }

  lemma WriteOfNewName(g: Geo, st: State, sh: Shape, name: Name, data: seq<Byte>)
    requires Live(g, st, sh) && |data| < 0x1_0000_0000
    requires Find(DirSlots(g, st.disk, sh, st.cur), File(name), 0).None?
    ensures StateOk(g, st) && Delete(g, st, name) == Outcome(-1, [], st.cur, st.tail)
    ensures After(st, Delete(g, st, name)) == st && WriteFile(g, st, name, data) == Store(g, st, name, data)
  {
    hide Mounted, Store, Slots, LbasOf, DirLbas, Find, Freed, FatWrites, Buffer, WriteBackLba, PutSlot, FirstCluster;
    FindAgrees(g, st, sh, File(name));
    assert [] + Store(g, st, name, data).writes == Store(g, st, name, data).writes;
  }

  // ---- fat_mkdir

  lemma PartialSaveIntact(g: Geo, st: State, sh: Shape, c: nat, k: nat)
    requires Live(g, st, sh) && StateOk(g, st) && c == FirstFree(g, TableOf(g, st)) && c != 0
    requires k <= |FatWrites(g, Set(TableOf(g, st), c, END_MARK), 0)|
    ensures Intact(g, st, sh, Apply(st.disk, FatWrites(g, Set(TableOf(g, st), c, END_MARK), 0)[..k]))
  {
    hide Set, Get, FatWrites, Intact, Mounted, Apply;
    TakenTable(g, TableOf(g, st), c);
    PartialTable(g, st, sh, Set(TableOf(g, st), c, END_MARK), FatWrites(g, Set(TableOf(g, st), c, END_MARK), 0)[..k]);
  }

  lemma MidIntact(g: Geo, st: State, sh: Shape, c: nat, u: Table)
    requires Live(g, st, sh) && Takes(g, st, c, u)
    ensures Intact(g, st, sh, MkdirMid(g, st, c, u).disk)
  {
    hide Mounted, Set, Takes, MkdirWrites, SameSlots, Untouched;
    MkdirMidKeeps(g, st, sh, c, u);
    TakesStateOk(g, st, c, u);
    var m := MkdirMid(g, st, c, u);
    LiveTail(g, st, sh);
    TailFree(g, m.disk, m.tail, st.tail, sh);
  }

  lemma LiveTail(g: Geo, st: State, sh: Shape)
    requires Live(g, st, sh)
    ensures GeoOk(g) && TailOk(g, st.tail)
  {
  }

  /** The writes of fat_mkdir before the one that fills the slot. */
  lemma MkdirEarly(g: Geo, st: State, sh: Shape, name: Name, k: nat)
    requires Live(g, st, sh) && StateOk(g, st) && StopsEarly(Mkdir(g, st, name), k)
    ensures var c := FirstFree(g, TableOf(g, st)); var pre := Mkdir(g, st, name).writes[..k];
      if c == 0 then pre == []
      else
        var u := Set(TableOf(g, st), c, END_MARK); var fw := FatWrites(g, u, 0);
        if k <= |fw| then pre == fw[..k]
        else Takes(g, st, c, u) && pre == MkdirWrites(g, st, c, u)
  {
    hide Mkdir, Mounted, Set, FatWrites, AddSlot, NewSlot, Split83, DotSector, DirSlots, LbasOf;
    var c := FirstFree(g, TableOf(g, st));
    MkdirIs(g, st, name);
    if c != 0 && ClusterStart(g, c) < |st.disk| {
      var u := Set(TableOf(g, st), c, END_MARK);
      OnDeviceBelowLimit(g, |st.disk|, c);
      MkdirMidKeeps(g, st, sh, c, u);
      MkdirOutcome(g, st, sh, c, u, name);
      MkdirPrefix(FatWrites(g, u, 0), Write(ClusterStart(g, c), DotSector(c, st.cur)), Mkdir(g, st, name), k);
    }
  }

  lemma MkdirPrefix(fw: seq<Write>, w: Write, o: Outcome, k: nat)
    requires StopsEarly(o, k)
    requires if o.rc == 0 then exists x :: o.writes == fw + [w] + [x] else o.writes == fw + [w]
    ensures o.writes[..k] == if k <= |fw| then fw[..k] else fw + [w]
  {
  }

  lemma MkdirIntact(g: Geo, st: State, sh: Shape, name: Name, k: nat)
    requires Live(g, st, sh) && StateOk(g, st) && StopsEarly(Mkdir(g, st, name), k)
    ensures Intact(g, st, sh, Apply(st.disk, Mkdir(g, st, name).writes[..k]))
  {
    hide Mkdir, Mounted, Set, FatWrites, Takes, MkdirWrites, Intact;
    MkdirEarly(g, st, sh, name, k);
    var c := FirstFree(g, TableOf(g, st));
    if c == 0 {
      NothingIntact(g, st, sh);
    } else {
      var u := Set(TableOf(g, st), c, END_MARK);
      if k <= |FatWrites(g, u, 0)| {
        PartialSaveIntact(g, st, sh, c, k);
      } else {
        MidIntact(g, st, sh, c, u);
      }
    }
  }

  /** Every proper prefix of the writes of fat_mkdir leaves all there was as it
      was. */
  lemma InterruptedMkdir(g: Geo, st: State, sh: Shape, name: Name, k: nat)
    requires Live(g, st, sh) && StateOk(g, st) && StopsEarly(Mkdir(g, st, name), k)
    ensures var e := Apply(st.disk, Mkdir(g, st, name).writes[..k]);
      Live(g, st.(disk := e), sh) && Indistinguishable(g, st, st.(disk := e), sh)
  {
    hide Mkdir, Mounted, Indistinguishable, SameSlots, Untouched;
    MkdirIntact(g, st, sh, name, k);
    IntactIndistinguishable(g, st, sh, Apply(st.disk, Mkdir(g, st, name).writes[..k]));
  }

  /** ... and the machine can start again from there. */
  lemma InterruptedMkdirRestart(g: Geo, st: State, sh: Shape, name: Name, k: nat, tail: seq<Byte>)
    requires Live(g, st, sh) && StateOk(g, st) && StopsEarly(Mkdir(g, st, name), k) && TailOk(g, tail)
    ensures var st1 := State(Apply(st.disk, Mkdir(g, st, name).writes[..k]), 0, tail);
      Live(g, st1, sh) && WellFormed(g, st1) && Indistinguishable(g, st, st1, sh)
  {
    hide Mkdir, Indistinguishable, SameSlots, Untouched, ShapeOk, DirOk, Apply;
    MkdirIntact(g, st, sh, name, k);
    var e := Apply(st.disk, Mkdir(g, st, name).writes[..k]);
    TailFree(g, e, st.tail, tail, sh);
    UnnoticedIndistinguishable(g, st, State(e, 0, tail), sh);
  }

  lemma MkdirTail(g: Geo, st: State, name: Name)
    requires StateOk(g, st)
    ensures TailOk(g, Mkdir(g, st, name).tail) && Mkdir(g, st, name).cur == st.cur
  {
    MkdirIs(g, st, name);
    hide MkdirWrites, NewSlot, Split83, FatWrites, Set, FindIn, DirLbas, SlotWrite, WriteBackLba, TableOf;
  }

  /** A fat_mkdir that fails leaves all there was as it was. */
  lemma FailedMkdir(g: Geo, st: State, sh: Shape, name: Name)
    requires Live(g, st, sh) && StateOk(g, st) && Mkdir(g, st, name).rc != 0
    ensures var st1 := After(st, Mkdir(g, st, name)); Live(g, st1, sh) && Indistinguishable(g, st, st1, sh)
  {
    hide Mkdir, Mounted, Indistinguishable, SameSlots, Untouched;
    var o := Mkdir(g, st, name);
    assert o.writes[..|o.writes|] == o.writes;
    MkdirIntact(g, st, sh, name, |o.writes|);
    MkdirTail(g, st, name);
    TailFree(g, After(st, o).disk, st.tail, o.tail, sh);
    UnnoticedIndistinguishable(g, st, After(st, o), sh);
  }

  lemma NothingIntact(g: Geo, st: State, sh: Shape)
    requires Live(g, st, sh)
    ensures Intact(g, st, sh, Apply(st.disk, []))
  {
  }
}
