/** fat_delete and fat_rmdir: that the name is gone, and what is left if they, or
    the overwriting of a file, are stopped after any number of their
    single-sector writes. */
module Deletion {
  import opened Bytes
  import opened Names
  import opened FatTable
  import opened Layout
  import opened Directory
  import opened FatSpec
  import opened Volume
  import opened Removal
  import opened Addition
  import opened Operations
  import opened Reading
  import opened Frame
  import opened Interruption
  import opened RoundTrip
  import opened NewDirectories

  // ---- volumes on which not every slot need be in order

  /** The directories of sh1 show the slots that they show in sh. */
  ghost predicate ShowsSlots(g: Geo, d: Disk, sh: Shape, e: Disk, sh1: Shape) {
    && DirsOnDevice(g, d, sh) && DirsOnDevice(g, e, sh1)
    && forall x | x in sh1.depth :: x in sh.depth && DirSlots(g, e, sh1, x) == DirSlots(g, d, sh, x)
  }

  lemma SeenSlotRead(g: Geo, st: State, sh: Shape, st1: State, sh1: Shape, sl: Slot, cap: nat)
    requires Live(g, st, sh) && Seen(g, st1.disk, st1.tail, sh1) && StateOk(g, st) && StateOk(g, st1)
    requires SameFiles(g, st.disk, sh, st1.disk, sh1)
    requires var c := FirstCluster(sl);
      if c == 0 then FileSize(sl) == 0 else c in sh1.chains && c in sh.chains && c !in sh.depth
    ensures ReadSlot(g, st1.disk, TableOf(g, st1), sl, cap) == ReadSlot(g, st.disk, TableOf(g, st), sl, cap)
  {
    var c := FirstCluster(sl);
    if c != 0 {
      hide ReadChain, DirSlots, DirOk, DirsOnDevice, ChainsApart;
      ReadChainSame(g, st.disk, TableOf(g, st), st1.disk, TableOf(g, st1), sh.chains[c], FileSize(sl), cap);
    }
  }

  /** Names whose slots refer to chains that are still there look the same. */
  lemma SeenView(g: Geo, st: State, sh: Shape, st1: State, sh1: Shape, k: nat, x: nat, other: Name, cap: nat)
    requires Live(g, st, sh) && Seen(g, st1.disk, st1.tail, sh1) && x in sh1.depth
    requires ShowsSlots(g, st.disk, sh, st1.disk, sh1) && SameFiles(g, st.disk, sh, st1.disk, sh1)
      && OthersKept(g, st, sh, sh1, k)
    requires x == st.cur ==> Find(DirSlots(g, st.disk, sh, x), File(other), 0) != Some(k)
    ensures SameView(g, st, st1, x, other, cap)
  {
    hide Slots, Joined, Get, Named, ReadFile, Cd, ReadSlot, SameFiles, ShapeOk, DirOk, LbasOf, FirstCluster, FileSize,
      IsLabel, HasDirBit;
    var a := DirSlots(g, st.disk, sh, x);
    CdAgrees(g, In(st, x), sh, other);
    SeenCd(g, In(st1, x), sh1, other);
    ReadAgrees(g, In(st, x), sh, other, cap);
    SeenRead(g, In(st1, x), sh1, other, cap);
    var r := Find(a, File(other), 0);
    if r.Some? {
      SlotIsOk(g, st.disk, st.tail, sh, x, r.value);
      assert ChainKnown(sh1, a[r.value]);
      hide Live, Find, DirSlots, SlotOk;
      SeenSlotRead(g, In(st, x), sh, In(st1, x), sh1, a[r.value], cap);
    }
  }

  // ---- while the table without the chain is being saved

  /** A chain of the new table is one of every mixture with the old one. */
  lemma MixedChain(t: Table, u: Table, m: Table, ch: seq<nat>, limit: nat)
    requires limit <= 0xFF0 && IsChain(u, ch, limit)
    requires forall c | 0 <= c < ENTRIES :: Get(u, c) == Get(t, c) || Get(u, c) == 0
    requires forall j | 0 <= j < BUFFER_SIZE :: m[j] == t[j] || m[j] == u[j]
    ensures IsChain(m, ch, limit)
  {
    forall i | 0 <= i < |ch|
      ensures Get(m, ch[i]) == Get(u, ch[i])
    {
      ChainInUse(u, ch, limit, i);
      MixedEntry(t, u, m, ch[i]);
    }
    ChainKept(u, m, ch, limit);
  }

  lemma MixedShape(g: Geo, t: Table, u: Table, m: Table, sh: Shape)
    requires GeoOk(g) && ShapeOk(g, u, sh)
    requires forall c | 0 <= c < ENTRIES :: Get(u, c) == Get(t, c) || Get(u, c) == 0
    requires forall j | 0 <= j < BUFFER_SIZE :: m[j] == t[j] || m[j] == u[j]
    ensures ShapeOk(g, m, sh)
  {
    hide ChainsApart, IsChain, Get;
    forall h | h in sh.chains
      ensures IsChain(m, sh.chains[h], Limit(g))
    {
      MixedChain(t, u, m, sh.chains[h], Limit(g));
    }
  }

  lemma Mixture(g: Geo, d: Disk, tail: seq<Byte>, u: Table, pre: seq<Write>)
    requires GeoOk(g) && RootStart(g) <= |d| && TailOk(g, tail)
    requires forall w | w in pre :: w in FatWrites(g, u, 0)
    ensures forall j | 0 <= j < BUFFER_SIZE ::
      Buffer(g, Apply(d, pre), tail)[j] == Buffer(g, d, tail)[j] || Buffer(g, Apply(d, pre), tail)[j] == u[j]
  {
    PartialSave(g, d, u, pre);
    hide FatWrites, Apply, TableBytes;
  }

  lemma NarrowerShape(g: Geo, d: Disk, e: Disk, sh: Shape, c: nat)
    requires DirsOnDevice(g, d, sh) && SameSlots(g, d, sh, e, sh) && Untouched(g, d, e, sh)
    requires 0 in RemovedShape(sh, c).depth
    ensures ShowsSlots(g, d, sh, e, RemovedShape(sh, c)) && SameFiles(g, d, sh, e, RemovedShape(sh, c))
  {
    hide ChainLbas, RootLbas, Slots;
    var sh1 := RemovedShape(sh, c);
    assert forall x | x in sh1.depth :: LbasOf(g, sh1, x) == LbasOf(g, sh, x);
  }

  lemma SeenAnyTail(g: Geo, d: Disk, tail: seq<Byte>, tail': seq<Byte>, sh: Shape)
    requires Seen(g, d, tail, sh) && TailOk(g, tail')
    ensures Seen(g, d, tail', sh)
  {
    hide Joined, IsChain, ChainsApart, LbasOf, KeepsUsed, ChainsOk;
    TailIrrelevant(g, d, d, tail, tail');
    ShapeKept(g, Buffer(g, d, tail), Buffer(g, d, tail'), sh);
  }

  /** fat_delete or fat_rmdir found slot k. */
  ghost predicate Removes(g: Geo, st: State, sh: Shape, w: Want, k: nat) {
    Removable(g, st, sh, k) && StateOk(g, st) && !w.Vacant? && Find(DirSlots(g, st.disk, sh, st.cur), w, 0) == Some(k)
  }

  ghost function RemovedCluster(g: Geo, st: State, sh: Shape, w: Want, k: nat): nat
    requires Removes(g, st, sh, w, k)
  {
    FirstCluster(DirSlots(g, st.disk, sh, st.cur)[k])
  }

  lemma RemoveEarly(g: Geo, st: State, sh: Shape, w: Want, k: nat, n: nat)
    requires Removes(g, st, sh, w, k) && n < |Remove(g, st, w).writes|
    ensures var fw := FatWrites(g, Freed(TableOf(g, st), RemovedCluster(g, st, sh, w, k)), 0);
      && |Remove(g, st, w).writes| == |fw| + 1 && Remove(g, st, w).writes[..n] == fw[..n]
  {
    hide Remove, Freed, FatWrites, Mounted, Find, LbasOf, SlotWrite;
    RemoveOutcome(g, st, sh, w, k);
  }

  /** Every chain but the one that is being freed is still there. */
  lemma RemovingSeen(g: Geo, st: State, sh: Shape, w: Want, k: nat, pre: seq<Write>)
    requires Removes(g, st, sh, w, k)
    requires forall x | x in pre :: x in FatWrites(g, Freed(TableOf(g, st), RemovedCluster(g, st, sh, w, k)), 0)
    ensures var sh1 := RemovedShape(sh, RemovedCluster(g, st, sh, w, k)); var e := Apply(st.disk, pre);
      && Seen(g, e, st.tail, sh1) && st.cur in sh1.depth
      && ShowsSlots(g, st.disk, sh, e, sh1) && SameFiles(g, st.disk, sh, e, sh1) && OthersKept(g, st, sh, sh1, k)
  {
    var c := RemovedCluster(g, st, sh, w, k);
    var t, u, e := TableOf(g, st), Freed(TableOf(g, st), c), Apply(st.disk, pre);
    FreedKeepsDir(g, st.disk, st.tail, sh, st.cur, k);
    RemovedOthersKept(g, st, sh, k);
    hide Freed, FatWrites, Find, DirOk, IsChain, ChainsApart, ChainsOk, Joined, OthersKept, Slots, IsFile, IsSubdir,
      Get, DirSlots, LbasOf;
    Mixture(g, st.disk, st.tail, u, pre);
    MixedShape(g, t, u, Buffer(g, e, st.tail), RemovedShape(sh, c));
    PrefixOutsideFat(g, st.disk, u, pre);
    OutsideFatUntouched(g, st.disk, t, e, sh);
    DirsKept(g, st.disk, e, sh);
    NarrowerShape(g, st.disk, e, sh, c);
  }

  /** fat_delete or fat_rmdir stopped before its last write leaves every other
      name, in every directory, as it was, whatever the table buffer holds
      when the machine starts again. */
  lemma InterruptedRemove(g: Geo, st: State, sh: Shape, w: Want, k: nat, n: nat, tail: seq<Byte>, x: nat, other: Name,
      cap: nat)
    requires Removes(g, st, sh, w, k) && n < |Remove(g, st, w).writes| && TailOk(g, tail)
    requires x in RemovedShape(sh, RemovedCluster(g, st, sh, w, k)).depth && (x == st.cur ==> !EqNoCase(w.name, other))
    ensures SameView(g, st, State(Apply(st.disk, Remove(g, st, w).writes[..n]), st.cur, tail), x, other, cap)
  {
    RemoveEarly(g, st, sh, w, k, n);
    OtherNotFound(g, st, sh, w, k, other);
    hide Remove, Freed, FatWrites, Seen, Mounted, SameView, ShowsSlots, SameFiles, OthersKept, Find, DirSlots,
      Removable, EqNoCase;
    var c := RemovedCluster(g, st, sh, w, k);
    var pre := FatWrites(g, Freed(TableOf(g, st), c), 0)[..n];
    RemovingSeen(g, st, sh, w, k, pre);
    SeenAnyTail(g, Apply(st.disk, pre), st.tail, tail, RemovedShape(sh, c));
    RemovesLive(g, st, sh, w, k);
    SeenView(g, st, sh, State(Apply(st.disk, pre), st.cur, tail), RemovedShape(sh, c), k, x, other, cap);
  }

  lemma RemovesLive(g: Geo, st: State, sh: Shape, w: Want, k: nat)
    requires Removes(g, st, sh, w, k)
    ensures Live(g, st, sh) && DirsOnDevice(g, st.disk, sh) && st.cur in sh.depth
      && k < |DirSlots(g, st.disk, sh, st.cur)|
  {
  }

  lemma OtherNotFound(g: Geo, st: State, sh: Shape, w: Want, k: nat, other: Name)
    requires Removes(g, st, sh, w, k)
    ensures !EqNoCase(w.name, other) ==> Find(DirSlots(g, st.disk, sh, st.cur), File(other), 0) != Some(k)
  {
    RemovesLive(g, st, sh, w, k);
    hide Mounted, EqNoCase, Named, DirSlots, StateOk;
    if !EqNoCase(w.name, other) {
      OtherNotNamed(DirSlots(g, st.disk, sh, st.cur)[k], w.name, other);
    }
  }

  // ---- between the table and the slot

  /** A slot with a cluster in a well-formed volume: the cluster is in use. */
  lemma ReferredInUse(g: Geo, st: State, sh: Shape, k: nat)
    requires Live(g, st, sh) && k < |DirSlots(g, st.disk, sh, st.cur)|
    requires var sl := DirSlots(g, st.disk, sh, st.cur)[k]; (IsFile(sl) || IsSubdir(sl)) && FirstCluster(sl) != 0
    ensures var c := FirstCluster(DirSlots(g, st.disk, sh, st.cur)[k]);
      2 <= c < Limit(g) && Get(Buffer(g, st.disk, st.tail), c) != 0
  {
    FreedKeepsDir(g, st.disk, st.tail, sh, st.cur, k);
    hide DirOk, Joined, Slots, IsFile, IsSubdir, Get, ChainsApart;
    var c := FirstCluster(DirSlots(g, st.disk, sh, st.cur)[k]);
    ChainInUse(Buffer(g, st.disk, st.tail), sh.chains[c], Limit(g), 0);
  }

  lemma SameEntry(g: Geo, d: Disk, tail: seq<Byte>, tail': seq<Byte>, c: nat)
    requires GeoOk(g) && DiskOk(g, d) && TailOk(g, tail) && TailOk(g, tail') && c < Limit(g)
    ensures Get(Buffer(g, d, tail'), c) == Get(Buffer(g, d, tail), c)
  {
    TailIrrelevant(g, d, d, tail, tail');
    TailIrrelevant(g, d, d, tail', tail);
    hide Get, Joined;
  }

  /** Some of the writes that save the table without the removed chain. */
  ghost predicate SavesPart(g: Geo, st: State, sh: Shape, w: Want, k: nat, pre: seq<Write>)
    requires Removes(g, st, sh, w, k)
  {
    forall x | x in pre :: x in FatWrites(g, Freed(TableOf(g, st), RemovedCluster(g, st, sh, w, k)), 0)
  }

  /** A shape of the disk afterwards shows slot k as it was. */
  lemma SlotStays(g: Geo, st: State, sh: Shape, w: Want, k: nat, pre: seq<Write>, tail: seq<Byte>, sh2: Shape)
    requires Removes(g, st, sh, w, k) && SavesPart(g, st, sh, w, k, pre)
    requires Live(g, State(Apply(st.disk, pre), st.cur, tail), sh2)
    ensures DirSlots(g, Apply(st.disk, pre), sh2, st.cur) == DirSlots(g, st.disk, sh, st.cur)
  {
    RemovesLive(g, st, sh, w, k);
    hide Freed, FatWrites, Find, DirOk, Joined, Slots, IsFile, IsSubdir, Removable, LbasOf, IsChain, ChainsApart,
      ChainsOk;
    RemovingSeen(g, st, sh, w, k, pre);
    SeenAnyTail(g, Apply(st.disk, pre), st.tail, tail, RemovedShape(sh, RemovedCluster(g, st, sh, w, k)));
    SameLbas(g, Buffer(g, Apply(st.disk, pre), tail), Apply(st.disk, pre),
      RemovedShape(sh, RemovedCluster(g, st, sh, w, k)), sh2, st.cur);
  }

  /** With the first entry of its chain cleared, the slot refers to a free
      cluster. */
  lemma ClearedHead(g: Geo, st: State, sh: Shape, w: Want, k: nat, pre: seq<Write>, tail: seq<Byte>)
    requires Removes(g, st, sh, w, k) && SavesPart(g, st, sh, w, k, pre) && RemovedCluster(g, st, sh, w, k) != 0
    requires TailOk(g, tail) && RootStart(g) <= |st.disk|
    requires var c := RemovedCluster(g, st, sh, w, k); c < ENTRIES ==> Get(Buffer(g, Apply(st.disk, pre), tail), c) == 0
    ensures !WellFormed(g, State(Apply(st.disk, pre), st.cur, tail))
  {
    RemovesLive(g, st, sh, w, k);
    hide Freed, FatWrites, Mounted, Find, Get, SavesPart, Apply;
    if WellFormed(g, State(Apply(st.disk, pre), st.cur, tail)) {
      var sh2 :| Live(g, State(Apply(st.disk, pre), st.cur, tail), sh2);
      SlotStays(g, st, sh, w, k, pre, tail, sh2);
      ReferredInUse(g, State(Apply(st.disk, pre), st.cur, tail), sh2, k);
      assert false;
    }
  }

  lemma HalfTable(g: Geo, st: State, sh: Shape, w: Want, k: nat, pre: seq<Write>, tail: seq<Byte>)
    requires Removes(g, st, sh, w, k) && TailOk(g, tail) && RemovedCluster(g, st, sh, w, k) != 0
    requires SavesPart(g, st, sh, w, k, pre)
    requires CopyWrites(g, Freed(TableOf(g, st), RemovedCluster(g, st, sh, w, k)), 0) <= pre
    ensures var c := RemovedCluster(g, st, sh, w, k);
      RootStart(g) <= |st.disk| && 2 <= c < Limit(g) && Get(Buffer(g, Apply(st.disk, pre), tail), c) == 0
  {
    var c := RemovedCluster(g, st, sh, w, k);
    var t, u := TableOf(g, st), Freed(TableOf(g, st), c);
    FreedKeepsDir(g, st.disk, st.tail, sh, st.cur, k);
    FirstCopySaved(g, st.disk, u, pre);
    FreedChain(t, sh.chains[c], Limit(g));
    hide Freed, FatWrites, Find, DirOk, Joined, Slots, IsFile, IsSubdir, Get, ChainsApart, Removable, CopyWrites;
    var e := Apply(st.disk, pre);
    assert c in sh.chains[c] by {
      assert sh.chains[c][0] == c;
    }
    SameEntry(g, e, TailOf(g, u), tail, c);
  }

  /** While the entries of the removed chain read as before, and always if there
      is no such chain, nothing shows. */
  lemma EarlyIntact(g: Geo, st: State, sh: Shape, w: Want, k: nat, pre: seq<Write>)
    requires Removes(g, st, sh, w, k) && SavesPart(g, st, sh, w, k, pre) && RootStart(g) <= |st.disk|
    requires var c := RemovedCluster(g, st, sh, w, k); c in sh.chains ==>
      forall x | x in sh.chains[c] && x < ENTRIES ::
        Get(Buffer(g, Apply(st.disk, pre), st.tail), x) == Get(TableOf(g, st), x)
    ensures Intact(g, st, sh, Apply(st.disk, pre))
  {
    var c := RemovedCluster(g, st, sh, w, k);
    var t, e := TableOf(g, st), Apply(st.disk, pre);
    var u, m := Freed(t, c), Buffer(g, e, st.tail);
    FreedKeepsDir(g, st.disk, st.tail, sh, st.cur, k);
    if c != 0 {
      FreedChain(t, sh.chains[c], Limit(g));
    }
    assert c == 0 ==> u == t;
    hide Freed, FatWrites, Find, DirOk, Joined, Slots, IsFile, IsSubdir, Get, ChainsApart, DirSlots, Link, Apply;
    Mixture(g, st.disk, st.tail, u, pre);
    assert KeepsUsed(g, t, m) by {
      forall x | 0 <= x < Limit(g)
        ensures Get(m, x) == Get(t, x)
      {
        if c == 0 || x !in sh.chains[c] {
          MixedEntry(t, u, m, x);
        }
      }
    }
    PrefixOutsideFat(g, st.disk, u, pre);
    OutsideFatUntouched(g, st.disk, t, e, sh);
    Unnoticed(g, st.disk, st.tail, e, st.tail, sh);
  }

  function RemoveStopped(g: Geo, st: State, w: Want, n: nat, tail: seq<Byte>): State
    requires StateOk(g, st) && n <= |Remove(g, st, w).writes|
  {
    State(Apply(st.disk, Remove(g, st, w).writes[..n]), st.cur, tail)
  }

  /** Stopped before its last write, fat_delete or fat_rmdir leaves everything as
      it was as long as the table on the disk still has the entries of what is
      removed, and always if that has no cluster. */
  lemma EarlyRemoved(g: Geo, st: State, sh: Shape, w: Want, k: nat, n: nat, tail: seq<Byte>)
    requires Removes(g, st, sh, w, k) && TailOk(g, tail) && n < |Remove(g, st, w).writes|
    requires RootStart(g) <= |st.disk|
    requires var c := RemovedCluster(g, st, sh, w, k); c in sh.chains ==>
      forall x | x in sh.chains[c] && x < ENTRIES ::
        Get(Buffer(g, RemoveStopped(g, st, w, n, tail).disk, st.tail), x) == Get(TableOf(g, st), x)
    ensures Live(g, RemoveStopped(g, st, w, n, tail), sh)
    ensures Indistinguishable(g, st, RemoveStopped(g, st, w, n, tail), sh)
  {
    RemoveEarly(g, st, sh, w, k, n);
    RemovesLive(g, st, sh, w, k);
    hide Remove, Freed, FatWrites, Mounted, Find, Get, SameSlots, Untouched, Indistinguishable, Apply;
    var pre := FatWrites(g, Freed(TableOf(g, st), RemovedCluster(g, st, sh, w, k)), 0)[..n];
    EarlyIntact(g, st, sh, w, k, pre);
    TailFree(g, Apply(st.disk, pre), st.tail, tail, sh);
    UnnoticedIndistinguishable(g, st, RemoveStopped(g, st, w, n, tail), sh);
  }

  /** From the moment the first FAT copy is written until the slot is, what
      fat_delete or fat_rmdir leaves is a well-formed volume exactly if what it
      removes had no cluster: otherwise the slot is still there, on a chain that
      is free. */
  lemma HalfRemoved(g: Geo, st: State, sh: Shape, w: Want, k: nat, n: nat, tail: seq<Byte>)
    requires Removes(g, st, sh, w, k) && TailOk(g, tail) && g.spf <= n < |Remove(g, st, w).writes|
    ensures WellFormed(g, RemoveStopped(g, st, w, n, tail)) <==> RemovedCluster(g, st, sh, w, k) == 0
  {
    RemoveEarly(g, st, sh, w, k, n);
    RemovesLive(g, st, sh, w, k);
    var c := RemovedCluster(g, st, sh, w, k);
    var u := Freed(TableOf(g, st), c);
    FirstCopyFirst(g, u, n);
    hide Remove, Freed, FatWrites, Mounted, Find, Get, CopyWrites, Apply;
    var pre := FatWrites(g, u, 0)[..n];
    if c == 0 {
      NotAChain(g, st, sh);
      EarlyRemoved(g, st, sh, w, k, n, tail);
    } else {
      HalfTable(g, st, sh, w, k, pre, tail);
      ClearedHead(g, st, sh, w, k, pre, tail);
    }
  }

  lemma NotAChain(g: Geo, st: State, sh: Shape)
    requires Live(g, st, sh)
    ensures 0 !in sh.chains && RootStart(g) <= |st.disk|
  {
  }

  lemma FirstCopyFirst(g: Geo, u: Table, n: nat)
    requires GeoOk(g) && g.spf <= n <= |FatWrites(g, u, 0)|
    ensures CopyWrites(g, u, 0) <= FatWrites(g, u, 0)[..n]
  {
    assert FatWrites(g, u, 0) == CopyWrites(g, u, 0) + FatWrites(g, u, 1);
    hide FatWrites, CopyWrites;
  }

  // ---- overwriting

  lemma StoreStoppedView(g: Geo, st: State, sh: Shape, name: Name, data: seq<Byte>, n: nat, tail: seq<Byte>, x: nat,
      other: Name, cap: nat)
    requires Live(g, st, sh) && StateOk(g, st) && |data| < 0x1_0000_0000 && StopsEarly(Store(g, st, name, data), n)
    requires TailOk(g, tail) && x in sh.depth
    ensures SameView(g, st, State(Apply(st.disk, Store(g, st, name, data).writes[..n]), st.cur, tail), x, other, cap)
  {
    hide Store, Mounted, SameSlots, Untouched, SameView;
    StoreIntact(g, st, sh, name, data, n);
    var e := Apply(st.disk, Store(g, st, name, data).writes[..n]);
    TailFree(g, e, st.tail, tail, sh);
    UnnoticedReads(g, st, State(e, st.cur, tail), sh, x, other, cap);
  }

  lemma OverwriteWrites(g: Geo, st: State, name: Name, data: seq<Byte>, n: nat)
    requires StateOk(g, st) && |data| < 0x1_0000_0000 && StopsEarly(WriteFile(g, st, name, data), n)
    ensures StateOk(g, After(st, Delete(g, st, name)))
    ensures var del := Delete(g, st, name); var st1 := After(st, del); var o := Store(g, st1, name, data);
      var e := Apply(st.disk, WriteFile(g, st, name, data).writes[..n]);
      if n < |del.writes| then e == Apply(st.disk, del.writes[..n])
      else StopsEarly(o, n - |del.writes|) && e == Apply(st1.disk, o.writes[..n - |del.writes|])
  {
    hide Store, Apply, Find, FindIn, DirLbas, Freed, FatWrites, Slots, WriteBackLba, PutSlot, FirstCluster;
    var del := Delete(g, st, name);
    var o := Store(g, After(st, del), name, data);
    var all := del.writes + o.writes;
    if n < |del.writes| {
      assert all[..n] == del.writes[..n];
    } else {
      assert all[..n] == del.writes + o.writes[..n - |del.writes|];
      ApplyAppend(st.disk, del.writes, o.writes[..n - |del.writes|]);
    }
  }

  /** fat_write of an existing name, stopped before its last write, leaves every
      other name, in every directory, as it was. The old content is gone as
      soon as the table is saved: fat_write deletes first. */
  lemma InterruptedOverwrite(g: Geo, st: State, sh: Shape, name: Name, data: seq<Byte>, k: nat, n: nat, tail: seq<Byte>,
      x: nat, other: Name, cap: nat)
    requires Live(g, st, sh) && StateOk(g, st) && |data| < 0x1_0000_0000 && TailOk(g, tail)
    requires Find(DirSlots(g, st.disk, sh, st.cur), File(name), 0) == Some(k)
    requires StopsEarly(WriteFile(g, st, name, data), n) && x in sh.depth && (x == st.cur ==> !EqNoCase(name, other))
    ensures SameView(g, st, State(Apply(st.disk, WriteFile(g, st, name, data).writes[..n]), st.cur, tail), x, other,
      cap)
  {
    hide Remove, Store, WriteFile, Mounted, Find, SameView, DirSlots, EqNoCase, RemovedShape, Removable;
    OverwriteWrites(g, st, name, data, n);
    OverwriteRemoves(g, st, sh, name, k);
    if n < |Delete(g, st, name).writes| {
      DeletedDepth(g, st, sh, name, k);
      InterruptedRemove(g, st, sh, File(name), k, n, tail, x, other, cap);
    } else {
      StoppedInStore(g, st, sh, name, data, k, n - |Delete(g, st, name).writes|, tail, x, other, cap);
    }
  }

  lemma DeletedDepth(g: Geo, st: State, sh: Shape, name: Name, k: nat)
    requires Removes(g, st, sh, File(name), k)
    ensures RemovedShape(sh, RemovedCluster(g, st, sh, File(name), k)).depth == sh.depth
  {
    RemovesLive(g, st, sh, File(name), k);
    hide Mounted, SlotOk, RemovedShape, DirSlots, Named;
    SlotIsOk(g, st.disk, st.tail, sh, st.cur, k);
    FileChainIsNoDir(g, sh, st.cur, k, DirSlots(g, st.disk, sh, st.cur)[k]);
  }

  lemma StoppedInStore(g: Geo, st: State, sh: Shape, name: Name, data: seq<Byte>, k: nat, n: nat, tail: seq<Byte>,
      x: nat, other: Name, cap: nat)
    requires Removes(g, st, sh, File(name), k) && |data| < 0x1_0000_0000 && TailOk(g, tail)
    requires StateOk(g, After(st, Delete(g, st, name)))
    requires StopsEarly(Store(g, After(st, Delete(g, st, name)), name, data), n)
    requires x in sh.depth && (x == st.cur ==> !EqNoCase(name, other))
    ensures var st1 := After(st, Delete(g, st, name));
      SameView(g, st, State(Apply(st1.disk, Store(g, st1, name, data).writes[..n]), st.cur, tail), x, other, cap)
  {
    hide Remove, Store, Mounted, Find, SameView, DirSlots, EqNoCase, RemovedShape;
    DeletedFrame(g, st, sh, name, k, x, other, cap);
    var st1 := After(st, Delete(g, st, name));
    StoreStoppedView(g, st1, RemovedShape(sh, RemovedCluster(g, st, sh, File(name), k)), name, data, n, tail, x, other,
      cap);
    SameViewTwice(g, st, st1, State(Apply(st1.disk, Store(g, st1, name, data).writes[..n]), st.cur, tail), x, other,
      cap);
  }

  lemma OverwriteRemoves(g: Geo, st: State, sh: Shape, name: Name, k: nat)
    requires Live(g, st, sh) && StateOk(g, st) && Find(DirSlots(g, st.disk, sh, st.cur), File(name), 0) == Some(k)
    ensures Removes(g, st, sh, File(name), k)
  {
    hide Mounted, DirSlots, Named;
  }

  // ---- names that were removed

  /** Slot k is the only one that a search for w wants. */
  predicate OnlyHit(slots: seq<Slot>, w: Want, k: nat) {
    forall j | 0 <= j < |slots| && j != k :: Judge(slots[j], w) != Hit
  }

  lemma MarkedFind(slots: seq<Slot>, w: Want, k: nat)
    requires ZeroTail(slots) && Find(slots, w, 0) == Some(k) && !w.Vacant?
    ensures Find(slots[k := Marked(slots[k])], w, 0).None? <==> OnlyHit(slots, w, k)
  {
    hide Named;
    var upd := slots[k := Marked(slots[k])];
    assert Judge(upd[k], w) == Skip;
    MarkedZeroTail(slots, w, k);
    hide Judge, Marked, ZeroTail;
    if Find(upd, w, 0).None? {
      forall j | 0 <= j < |slots| && j != k
        ensures Judge(slots[j], w) != Hit
      {
        FindNone(upd, w, 0, j);
      }
    }
  }

  lemma MarkedZeroTail(slots: seq<Slot>, w: Want, k: nat)
    requires ZeroTail(slots) && Find(slots, w, 0) == Some(k) && !w.Vacant?
    ensures ZeroTail(slots[k := Marked(slots[k])])
  {
    hide Named;
    assert Judge(slots[k], w) == Hit;
  }

  lemma RemovedFind(g: Geo, st: State, sh: Shape, w: Want, k: nat) returns (st1: State, sh1: Shape)
    requires Removable(g, st, sh, k) && Find(DirSlots(g, st.disk, sh, st.cur), w, 0) == Some(k) && !w.Vacant?
    ensures StateOk(g, st) && st1 == After(st, Remove(g, st, w)) && StateOk(g, st1)
    ensures Live(g, st1, sh1)
    ensures Find(DirSlots(g, st1.disk, sh1, st1.cur), w, 0).None? <==> OnlyHit(DirSlots(g, st.disk, sh, st.cur), w, k)
  {
    hide Remove, Mounted, Find, DirSlots, SameFiles, OnlyHit, ZeroTail, IsFile, IsSubdir, FirstCluster;
    RemoveKeeps(g, st, sh, w, k);
    RemoveChanges(g, st, sh, w, k);
    CurrentZeroTail(g, st, sh);
    st1 := After(st, Remove(g, st, w));
    sh1 := RemovedShape(sh, FirstCluster(DirSlots(g, st.disk, sh, st.cur)[k]));
    LiveStateOk(g, st1, sh1);
    MarkedFind(DirSlots(g, st.disk, sh, st.cur), w, k);
  }

  /** A deleted name cannot be deleted again, if and only if no other slot of
      the directory had it; then it cannot be read either. */
  lemma DeleteForgets(g: Geo, st: State, sh: Shape, name: Name, k: nat, cap: nat)
    requires Live(g, st, sh) && Find(DirSlots(g, st.disk, sh, st.cur), File(name), 0) == Some(k)
    ensures StateOk(g, st)
    ensures var st1 := After(st, Delete(g, st, name));
      var only := OnlyHit(DirSlots(g, st.disk, sh, st.cur), File(name), k);
      && StateOk(g, st1) && (Delete(g, st1, name).rc == -1 <==> only)
      && (only ==> ReadFile(g, st1, name, cap) == NotRead)
  {
    FoundRemovable(g, st, sh, File(name), k);
    hide Remove, Mounted, Find, DirSlots, OnlyHit, ReadFile, Removable;
    var st1, sh1 := RemovedFind(g, st, sh, File(name), k);
    RemoveReturns(g, st1, sh1, File(name));
    ReadAgrees(g, st1, sh1, name, cap);
  }

  /** The same for fat_rmdir, and then fat_cd goes nowhere. */
  lemma RmdirForgets(g: Geo, st: State, sh: Shape, name: Name, k: nat)
    requires Live(g, st, sh) && Find(DirSlots(g, st.disk, sh, st.cur), Subdir(name), 0) == Some(k)
    requires name != [DOT, DOT]
    ensures StateOk(g, st)
    ensures var st1 := After(st, Rmdir(g, st, name));
      var only := OnlyHit(DirSlots(g, st.disk, sh, st.cur), Subdir(name), k);
      && StateOk(g, st1) && (Rmdir(g, st1, name).rc == -1 <==> only) && (Cd(g, st1, name).rc == -1 <==> only)
  {
    FoundRemovable(g, st, sh, Subdir(name), k);
    hide Remove, Mounted, Find, DirSlots, OnlyHit, Cd, Removable;
    var st1, sh1 := RemovedFind(g, st, sh, Subdir(name), k);
    RemoveReturns(g, st1, sh1, Subdir(name));
    CdAgrees(g, st1, sh1, name);
  }

  lemma FoundRemovable(g: Geo, st: State, sh: Shape, w: Want, k: nat)
    requires Live(g, st, sh) && Find(DirSlots(g, st.disk, sh, st.cur), w, 0) == Some(k) && !w.Vacant?
    ensures Removable(g, st, sh, k)
  {
    hide Mounted, DirSlots, Named, IsFile, IsSubdir;
  }

  lemma RemoveReturns(g: Geo, st: State, sh: Shape, w: Want)
    requires Live(g, st, sh) && !w.Vacant?
    ensures StateOk(g, st)
    ensures Remove(g, st, w).rc == if Find(DirSlots(g, st.disk, sh, st.cur), w, 0).Some? then 0 else -1
  {
    hide Slots, LbasOf, DirLbas, Find, Freed, FatWrites, FirstCluster, Named, PutSlot, DirOk, ShapeOk, SlotWrite;
    FindAgrees(g, st, sh, w);
    match Find(DirSlots(g, st.disk, sh, st.cur), w, 0) {
      case None =>
      case Some(k) =>
        FoundRemovable(g, st, sh, w, k);
        RemoveOutcome(g, st, sh, w, k);
    }
  }
}
