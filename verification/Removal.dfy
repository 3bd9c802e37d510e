/** fat_delete and fat_rmdir keep the volume well-formed. */
module Removal {
  import opened Bytes
  import opened FatTable
  import opened Layout
  import opened Directory
  import opened FatSpec
  import opened Volume

  /** The shape without the chain that starts at c. What a removed directory
      contained keeps its chains; nothing refers to them any more. */
  function Without(sh: Shape, c: nat): Shape {
    Shape(sh.depth - {c}, sh.chains - {c}, sh.owner)
  }

  predicate Refers(sl: Slot, c: nat) { (IsFile(sl) || IsSubdir(sl)) && FirstCluster(sl) == c }

  ghost predicate NobodyRefers(g: Geo, d: Disk, sh: Shape, c: nat)
    requires DirsOnDevice(g, d, sh)
  {
    forall x, j | x in sh.depth && 0 <= j < |DirSlots(g, d, sh, x)| :: !Refers(DirSlots(g, d, sh, x)[j], c)
  }

  lemma ApartElement(a: seq<nat>, b: seq<nat>, i: nat)
    requires Apart(a, b) && i < |a|
    ensures a[i] !in b
  {
    assert a[i] in a;
  }

  lemma FreedOther(t: Table, ch: seq<nat>, other: seq<nat>, limit: nat)
    requires limit <= 0xFF0 && IsChain(t, ch, limit) && IsChain(t, other, limit) && Apart(other, ch)
    ensures IsChain(Freed(t, ch[0]), other, limit)
  {
    var u := Freed(t, ch[0]);
    FreedChain(t, ch, limit);
    forall i | 0 <= i < |other|
      ensures Get(u, other[i]) == Get(t, other[i])
    {
      ApartElement(other, ch, i);
    }
    ChainKept(t, u, other, limit);
  }

  lemma FreedShape(g: Geo, t: Table, sh: Shape, c: nat)
    requires GeoOk(g) && ShapeOk(g, t, sh) && c in sh.chains
    ensures ShapeOk(g, Freed(t, c), Without(sh, c))
  {
    forall h | h in sh.chains && h != c
      ensures IsChain(Freed(t, c), sh.chains[h], Limit(g))
    {
      FreedOther(t, sh.chains[c], sh.chains[h], Limit(g));
    }
  }

  /** Saving any table leaves the slots and the contents of all chains alone. */
  lemma TableSaved(g: Geo, d: Disk, tail: seq<Byte>, sh: Shape, u: Table)
    requires Mounted(g, d, tail, sh)
    ensures var e := Apply(d, FatWrites(g, u, 0));
      && Buffer(g, e, TailOf(g, u)) == u && CopiesAgree(g, e)
      && Untouched(g, d, e, sh) && SameSlots(g, d, sh, e, sh)
  {
    var e := Apply(d, FatWrites(g, u, 0));
    SaveTable(g, d, u);
    OutsideFatUntouched(g, d, Buffer(g, d, tail), e, sh);
    DirsKept(g, d, e, sh);
  }

  lemma DirOkWithout(g: Geo, sh: Shape, c: nat, x: nat, slots: seq<Slot>)
    requires x in sh.depth && x != c && DirOk(g, sh, x, slots)
    requires forall j | 0 <= j < |slots| :: !Refers(slots[j], c)
    ensures DirOk(g, Without(sh, c), x, slots)
  {
    forall j | 0 <= j < |slots|
      ensures SlotOk(g, Without(sh, c), x, j, slots[j])
    {
      assert SlotOk(g, sh, x, j, slots[j]) && !Refers(slots[j], c);
    }
  }

  lemma DropChain(g: Geo, d: Disk, tail: seq<Byte>, sh: Shape, c: nat)
    requires Mounted(g, d, tail, sh) && c in sh.chains && NobodyRefers(g, d, sh, c)
    ensures var u := Freed(Buffer(g, d, tail), c);
      Mounted(g, Apply(d, FatWrites(g, u, 0)), TailOf(g, u), Without(sh, c))
  {
    var t := Buffer(g, d, tail);
    var u, sh' := Freed(t, c), Without(sh, c);
    var e := Apply(d, FatWrites(g, u, 0));
    FreedShape(g, t, sh, c);
    TableSaved(g, d, tail, sh, u);
    forall x | x in sh'.depth
      ensures LbasOf(g, sh', x) == LbasOf(g, sh, x)
      ensures DirOk(g, sh', x, Slots(e, LbasOf(g, sh, x)))
    {
      assert DirSlots(g, e, sh, x) == DirSlots(g, d, sh, x);
      DirOkWithout(g, sh, c, x, DirSlots(g, d, sh, x));
    }
  }

  lemma {:induction false} PutCommutes(d: Disk, ws: seq<Write>, w: Write)
    requires Missing(ws, w.lba)
    ensures Apply(Put(d, w), ws) == Put(Apply(d, ws), w)
    decreases |ws|
  {
    if ws != [] {
      assert ws[0] in ws;
      assert Put(Put(d, w), ws[0]) == Put(Put(d, ws[0]), w);
      PutCommutes(Put(d, ws[0]), ws[1..], w);
    }
  }

  lemma FatWritesMiss(g: Geo, t: Table, lba: nat)
    requires GeoOk(g) && lba >= RootStart(g)
    ensures Missing(FatWrites(g, t, 0), lba)
  {
    forall w | w in FatWrites(g, t, 0)
      ensures w.lba != lba
    {
      var x, s := FatWriteFrom(g, t, 0, w);
    }
  }

  lemma MarkKeeps(g: Geo, d: Disk, tail: seq<Byte>, sh: Shape, x: nat, k: nat)
    requires Mounted(g, d, tail, sh) && x in sh.depth && k < |DirSlots(g, d, sh, x)|
    requires IsLive(DirSlots(g, d, sh, x)[k])
    ensures Mounted(g, WithSlot(g, d, sh, x, k, Marked(DirSlots(g, d, sh, x)[k])), tail, sh)
  {
    var slots := DirSlots(g, d, sh, x);
    assert DirOk(g, sh, x, slots);
    ZeroTailFilled(slots, k, Marked(slots[k]));
    assert forall y | y in sh.depth :: DirOk(g, sh, y, DirSlots(g, d, sh, y));
    SlotWriteKeeps(g, d, tail, sh, x, k, Marked(slots[k]), sh.owner);
    assert sh.(owner := sh.owner) == sh;
  }

  /** A chain has one owner, so nothing refers to it once that slot is marked. */
  lemma MarkedNobodyRefers(g: Geo, d: Disk, tail: seq<Byte>, sh: Shape, x: nat, k: nat)
    requires Mounted(g, d, tail, sh) && x in sh.depth && k < |DirSlots(g, d, sh, x)|
    requires var sl := DirSlots(g, d, sh, x)[k]; Refers(sl, FirstCluster(sl)) && FirstCluster(sl) != 0
    ensures var sl := DirSlots(g, d, sh, x)[k];
      var e := WithSlot(g, d, sh, x, k, Marked(sl));
      DirsOnDevice(g, e, sh) && NobodyRefers(g, e, sh, FirstCluster(sl))
  {
    hide Word, FileSize, Slots, Joined, Get, IsChain, ZeroTail, ShapeOk;
    var sl := DirSlots(g, d, sh, x)[k];
    var c := FirstCluster(sl);
    var e := WithSlot(g, d, sh, x, k, Marked(sl));
    SlotWritten(g, d, tail, sh, x, k, Marked(sl));
    assert DirOk(g, sh, x, DirSlots(g, d, sh, x));
    assert SlotOk(g, sh, x, k, sl) && sh.owner[c] == (x, k);
    forall y, j | y in sh.depth && 0 <= j < |DirSlots(g, e, sh, y)|
      ensures !Refers(DirSlots(g, e, sh, y)[j], c)
    {
      assert DirOk(g, sh, y, DirSlots(g, d, sh, y));
      if (y, j) != (x, k) {
        assert SlotOk(g, sh, y, j, DirSlots(g, d, sh, y)[j]);
      }
    }
  }

  // ---- the whole operation

  /** Every search sees the slots of the current directory. */
  lemma SeenFind(g: Geo, st: State, sh: Shape, w: Want)
    requires Seen(g, st.disk, st.tail, sh) && st.cur in sh.depth
    ensures StateOk(g, st) && DirLbas(g, TableOf(g, st), st.cur, |st.disk|) == LbasOf(g, sh, st.cur)
    ensures FindIn(g, st.disk, TableOf(g, st), st.cur, w) == Find(DirSlots(g, st.disk, sh, st.cur), w, 0)
  {
    hide Slots, Joined, Link, ChainsApart, Find, DirLbas, LbasOf;
    assert st.cur != 0 ==> sh.chains[st.cur][0] == st.cur;
    DirLbasAre(g, TableOf(g, st), st.disk, sh, st.cur);
  }

  /** ... so in a well-formed volume, too. */
  lemma FindAgrees(g: Geo, st: State, sh: Shape, w: Want)
    requires Live(g, st, sh)
    ensures StateOk(g, st)
    ensures DirLbas(g, TableOf(g, st), st.cur, |st.disk|) == LbasOf(g, sh, st.cur)
    ensures FindIn(g, st.disk, TableOf(g, st), st.cur, w) == Find(DirSlots(g, st.disk, sh, st.cur), w, 0)
  {
    hide Slots, Joined, ShapeOk, DirOk, Find, DirLbas, LbasOf;
    SeenFind(g, st, sh, w);
  }

  lemma SlotIsOk(g: Geo, d: Disk, tail: seq<Byte>, sh: Shape, x: nat, k: nat)
    requires Mounted(g, d, tail, sh) && x in sh.depth && k < |DirSlots(g, d, sh, x)|
    ensures SlotOk(g, sh, x, k, DirSlots(g, d, sh, x)[k])
  {
    assert DirOk(g, sh, x, DirSlots(g, d, sh, x));
  }

  function RemovedShape(sh: Shape, c: nat): Shape {
    if c == 0 then sh else Without(sh, c)
  }

  /** Freeing what slot k refers to leaves the chain of the directory it is in. */
  lemma FreedKeepsDir(g: Geo, d: Disk, tail: seq<Byte>, sh: Shape, x: nat, k: nat)
    requires Mounted(g, d, tail, sh) && x in sh.depth && k < |DirSlots(g, d, sh, x)|
    requires var sl := DirSlots(g, d, sh, x)[k]; IsFile(sl) || IsSubdir(sl)
    ensures var c := FirstCluster(DirSlots(g, d, sh, x)[k]);
      && (c != 0 ==> c in sh.chains) && x in RemovedShape(sh, c).depth
      && ShapeOk(g, Freed(Buffer(g, d, tail), c), RemovedShape(sh, c))
  {
    hide Word, FileSize, Slots, Joined, Get, ZeroTail, IsChain;
    SlotIsOk(g, d, tail, sh, x, k);
    var c := FirstCluster(DirSlots(g, d, sh, x)[k]);
    if c != 0 {
      FreedShape(g, Buffer(g, d, tail), sh, c);
    }
  }

  ghost predicate Removable(g: Geo, st: State, sh: Shape, k: nat) {
    && Live(g, st, sh) && k < |DirSlots(g, st.disk, sh, st.cur)|
    && var sl := DirSlots(g, st.disk, sh, st.cur)[k]; IsFile(sl) || IsSubdir(sl)
  }

  function MarkedDisk(g: Geo, st: State, sh: Shape, k: nat): Disk
    requires Live(g, st, sh) && k < |DirSlots(g, st.disk, sh, st.cur)|
  {
    WithSlot(g, st.disk, sh, st.cur, k, Marked(DirSlots(g, st.disk, sh, st.cur)[k]))
  }

  /** What a removal writes, although the table in memory was changed between
      the scan and the write-back. */
  lemma RemoveOutcome(g: Geo, st: State, sh: Shape, w: Want, k: nat)
    requires Removable(g, st, sh, k) && Find(DirSlots(g, st.disk, sh, st.cur), w, 0) == Some(k)
    ensures StateOk(g, st)
    ensures var sl := DirSlots(g, st.disk, sh, st.cur)[k];
      var u := Freed(TableOf(g, st), FirstCluster(sl));
      Remove(g, st, w) == Outcome(0, FatWrites(g, u, 0) + [SlotWrite(st.disk, LbasOf(g, sh, st.cur), k, Marked(sl))],
        st.cur, TailOf(g, u))
  {
    hide Word, FileSize, Slots, Joined, Get, ZeroTail, IsChain, Freed, FatWrites, PutSlot;
    FindAgrees(g, st, sh, w);
    var sl := DirSlots(g, st.disk, sh, st.cur)[k];
    var c := FirstCluster(sl);
    FreedKeepsDir(g, st.disk, st.tail, sh, st.cur, k);
    assert LbasOf(g, RemovedShape(sh, c), st.cur) == LbasOf(g, sh, st.cur);
    WriteBackAgrees(g, Freed(TableOf(g, st), c), RemovedShape(sh, c), st.cur, k / SLOTS);
  }

  lemma RemoveDisk(g: Geo, st: State, sh: Shape, w: Want, k: nat)
    requires Removable(g, st, sh, k) && Find(DirSlots(g, st.disk, sh, st.cur), w, 0) == Some(k)
    ensures StateOk(g, st)
    ensures var u := Freed(TableOf(g, st), FirstCluster(DirSlots(g, st.disk, sh, st.cur)[k]));
      After(st, Remove(g, st, w)) == State(Apply(MarkedDisk(g, st, sh, k), FatWrites(g, u, 0)), st.cur, TailOf(g, u))
  {
    RemoveOutcome(g, st, sh, w, k);
    var sl := DirSlots(g, st.disk, sh, st.cur)[k];
    var fw := FatWrites(g, Freed(TableOf(g, st), FirstCluster(sl)), 0);
    var x := SlotWrite(st.disk, LbasOf(g, sh, st.cur), k, Marked(sl));
    ApplyAppend(st.disk, fw, [x]);
    ApplyOne(Apply(st.disk, fw), x);
    LbasAfterFat(g, TableOf(g, st), sh, st.cur, k / SLOTS);
    FatWritesMiss(g, Freed(TableOf(g, st), FirstCluster(sl)), x.lba);
    PutCommutes(st.disk, fw, x);
  }

  lemma MarkedTable(g: Geo, st: State, sh: Shape, k: nat)
    requires Removable(g, st, sh, k)
    ensures Mounted(g, MarkedDisk(g, st, sh, k), st.tail, sh)
    ensures Buffer(g, MarkedDisk(g, st, sh, k), st.tail) == Buffer(g, st.disk, st.tail)
  {
    MarkKeeps(g, st.disk, st.tail, sh, st.cur, k);
    SlotWritten(g, st.disk, st.tail, sh, st.cur, k, Marked(DirSlots(g, st.disk, sh, st.cur)[k]));
  }

  /** fat_delete and fat_rmdir keep the invariant, whether or not they find the
      name, and even if the removed directory was not empty. */
  lemma RemoveKeeps(g: Geo, st: State, sh: Shape, w: Want, k: nat)
    requires Removable(g, st, sh, k) && Find(DirSlots(g, st.disk, sh, st.cur), w, 0) == Some(k)
    ensures StateOk(g, st)
    ensures Live(g, After(st, Remove(g, st, w)), RemovedShape(sh, FirstCluster(DirSlots(g, st.disk, sh, st.cur)[k])))
  {
    RemoveDisk(g, st, sh, w, k);
    var c := FirstCluster(DirSlots(g, st.disk, sh, st.cur)[k]);
    var d := MarkedDisk(g, st, sh, k);
    var u := Freed(TableOf(g, st), c);
    MarkedTable(g, st, sh, k);
    FreedKeepsDir(g, st.disk, st.tail, sh, st.cur, k);
    TableSaved(g, d, st.tail, sh, u);
    if c == 0 {
      Unnoticed(g, d, st.tail, Apply(d, FatWrites(g, u, 0)), TailOf(g, u), sh);
    } else {
      MarkedNobodyRefers(g, st.disk, st.tail, sh, st.cur, k);
      DropChain(g, d, st.tail, sh, c);
    }
  }
}
