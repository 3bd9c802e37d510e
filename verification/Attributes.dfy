/** Of the attributes of a slot only the label bit and the directory bit matter. */
module Attributes {
  import opened Bytes
  import opened Names
  import opened Layout
  import opened Directory
  import opened FatSpec
  import opened Formats
  import opened Volume
  import opened Removal
  import opened Reading
  import opened Frame

  /** The bits 0x08 and 0x10 are the same. */
  predicate SameKind(a: Byte, b: Byte) { a / 8 % 2 == b / 8 % 2 && a / 16 % 2 == b / 16 % 2 }

  lemma KindKept(sl: Slot, a: Byte)
    requires SameKind(sl[11], a)
    ensures var r := sl[11 := a];
      && IsLive(r) == IsLive(sl) && IsFile(r) == IsFile(sl) && IsSubdir(r) == IsSubdir(sl)
      && r[0] == sl[0] && RawNameOf(r) == RawNameOf(sl)
      && FirstCluster(r) == FirstCluster(sl) && FileSize(r) == FileSize(sl)
  {
    BitThree(sl[11]);
    BitThree(a);
    hide Bit, Word, Dword;
  }

  lemma KindJudged(sl: Slot, a: Byte, w: Want)
    requires SameKind(sl[11], a)
    ensures Judge(sl[11 := a], w) == Judge(sl, w)
  {
    KindKept(sl, a);
    hide IsFile, IsSubdir, IsLive, FirstCluster, FileSize, EqNoCase, MakeName;
  }

  lemma {:induction false} SameJudgedFind(a: seq<Slot>, b: seq<Slot>, w: Want, from: nat)
    requires |a| == |b| && from <= |a| && forall i | from <= i < |a| :: Judge(a[i], w) == Judge(b[i], w)
    ensures Find(a, w, from) == Find(b, w, from)
    decreases |a| - from
  {
    hide Judge;
    if from < |a| {
      SameJudgedFind(a, b, w, from + 1);
    }
  }

  lemma KindFind(slots: seq<Slot>, k: nat, a: Byte, w: Want)
    requires k < |slots| && SameKind(slots[k][11], a)
    ensures Find(slots[k := slots[k][11 := a]], w, 0) == Find(slots, w, 0)
  {
    KindJudged(slots[k], a, w);
    hide Judge;
    SameJudgedFind(slots[k := slots[k][11 := a]], slots, w, 0);
  }

  lemma KindSlotOk(g: Geo, sh: Shape, x: nat, k: nat, sl: Slot, a: Byte)
    requires x in sh.depth && SlotOk(g, sh, x, k, sl) && SameKind(sl[11], a)
    ensures SlotOk(g, sh, x, k, sl[11 := a])
  {
    KindKept(sl, a);
    hide IsFile, IsSubdir, FirstCluster, FileSize, ChainLbas;
  }

  function WithAttribute(g: Geo, st: State, sh: Shape, k: nat, a: Byte): State
    requires Live(g, st, sh) && k < |DirSlots(g, st.disk, sh, st.cur)|
  {
    st.(disk := WithSlot(g, st.disk, sh, st.cur, k, DirSlots(g, st.disk, sh, st.cur)[k][11 := a]))
  }

  lemma SameFirstZeroTail(slots: seq<Slot>, k: nat, r: Slot)
    requires ZeroTail(slots) && k < |slots| && r[0] == slots[k][0]
    ensures ZeroTail(slots[k := r])
  {
  }

  lemma AttributeLive(g: Geo, st: State, sh: Shape, k: nat, a: Byte)
    requires Live(g, st, sh) && k < |DirSlots(g, st.disk, sh, st.cur)|
    requires SameKind(DirSlots(g, st.disk, sh, st.cur)[k][11], a)
    ensures Live(g, WithAttribute(g, st, sh, k, a), sh)
  {
    hide SlotOk, Slots, LbasOf, ShapeOk, Joined;
    var slots := DirSlots(g, st.disk, sh, st.cur);
    assert DirOk(g, sh, st.cur, slots);
    KindSlotOk(g, sh, st.cur, k, slots[k], a);
    SameFirstZeroTail(slots, k, slots[k][11 := a]);
    assert sh.(owner := sh.owner) == sh;
    assert forall y | y in sh.depth :: DirOk(g, sh, y, DirSlots(g, st.disk, sh, y));
    SlotWriteKeeps(g, st.disk, st.tail, sh, st.cur, k, slots[k][11 := a], sh.owner);
  }

  /** Whatever the other six bits of the attributes of a slot are, every name in
      every directory reads and leads where it did. */
  lemma OtherAttributes(g: Geo, st: State, sh: Shape, k: nat, a: Byte, x: nat, name: Name, cap: nat)
    requires Live(g, st, sh) && k < |DirSlots(g, st.disk, sh, st.cur)| && x in sh.depth
    requires SameKind(DirSlots(g, st.disk, sh, st.cur)[k][11], a)
    ensures var st1 := WithAttribute(g, st, sh, k, a); Live(g, st1, sh) && SameView(g, st, st1, x, name, cap)
  {
    var st1, r := WithAttribute(g, st, sh, k, a), DirSlots(g, st.disk, sh, st.cur)[k][11 := a];
    hide Mounted, DirSlots, Find, ReadFile, Cd, SameFiles, FirstCluster, FileSize, WithAttribute, SameKind, IsFile,
      IsSubdir, OneSlotChanged, StateOk;
    AttributeLive(g, st, sh, k, a);
    AttributeChanged(g, st, sh, k, a);
    AttributeFinds(g, st, sh, k, a, x, File(name));
    AttributeFinds(g, st, sh, k, a, x, Subdir(name));
    AttributeReads(g, st, sh, st1, k, r, x, name, cap);
    AttributeCd(g, st, sh, st1, k, r, x, name);
  }

  lemma AttributeChanged(g: Geo, st: State, sh: Shape, k: nat, a: Byte)
    requires Live(g, st, sh) && k < |DirSlots(g, st.disk, sh, st.cur)|
    requires SameKind(DirSlots(g, st.disk, sh, st.cur)[k][11], a)
    ensures var sl := DirSlots(g, st.disk, sh, st.cur)[k]; var st1 := WithAttribute(g, st, sh, k, a);
      && OneSlotChanged(g, st, sh, st1, sh, k, sl[11 := a]) && st1.cur == st.cur
      && FirstCluster(sl[11 := a]) == FirstCluster(sl) && FileSize(sl[11 := a]) == FileSize(sl)
  {
    SlotWrittenChanged(g, st, sh, k, DirSlots(g, st.disk, sh, st.cur)[k][11 := a]);
    KindKept(DirSlots(g, st.disk, sh, st.cur)[k], a);
    hide Mounted, DirSlots, OneSlotChanged, FirstCluster, FileSize;
  }

  lemma AttributeCd(g: Geo, st: State, sh: Shape, st1: State, k: nat, r: Slot, x: nat, name: Name)
    requires Live(g, st, sh) && Live(g, In(st, x), sh) && Live(g, In(st1, x), sh)
    requires OneSlotChanged(g, st, sh, st1, sh, k, r)
    requires FirstCluster(r) == FirstCluster(DirSlots(g, st.disk, sh, st.cur)[k])
    requires Find(DirSlots(g, st1.disk, sh, x), Subdir(name), 0) == Find(DirSlots(g, st.disk, sh, x), Subdir(name), 0)
    ensures StateOk(g, In(st, x)) && StateOk(g, In(st1, x))
    ensures Cd(g, In(st1, x), name).rc == Cd(g, In(st, x), name).rc
    ensures Cd(g, In(st1, x), name).cur == Cd(g, In(st, x), name).cur
  {
    hide Slots, LbasOf, ShapeOk, DirOk, Cd, FirstCluster, FileSize, Named, SameFiles, Judge;
    CdAgrees(g, In(st, x), sh, name);
    CdAgrees(g, In(st1, x), sh, name);
  }

  lemma AttributeFinds(g: Geo, st: State, sh: Shape, k: nat, a: Byte, x: nat, w: Want)
    requires Live(g, st, sh) && k < |DirSlots(g, st.disk, sh, st.cur)| && x in sh.depth
    requires SameKind(DirSlots(g, st.disk, sh, st.cur)[k][11], a)
    ensures var e := WithAttribute(g, st, sh, k, a).disk;
      DirsOnDevice(g, e, sh) && Find(DirSlots(g, e, sh, x), w, 0) == Find(DirSlots(g, st.disk, sh, x), w, 0)
  {
    hide Slots, LbasOf, ShapeOk, DirOk, Find, SameKind;
    SlotWritten(g, st.disk, st.tail, sh, st.cur, k, DirSlots(g, st.disk, sh, st.cur)[k][11 := a]);
    KindFind(DirSlots(g, st.disk, sh, st.cur), k, a, w);
  }

  /** One slot changed, but not its cluster nor its size, and the search gives
      the same. */
  lemma AttributeReads(g: Geo, st: State, sh: Shape, st1: State, k: nat, r: Slot, x: nat, name: Name, cap: nat)
    requires Live(g, st, sh) && Live(g, In(st, x), sh) && Live(g, In(st1, x), sh)
    requires OneSlotChanged(g, st, sh, st1, sh, k, r)
    requires var sl := DirSlots(g, st.disk, sh, st.cur)[k];
      FirstCluster(r) == FirstCluster(sl) && FileSize(r) == FileSize(sl)
    requires Find(DirSlots(g, st1.disk, sh, x), File(name), 0) == Find(DirSlots(g, st.disk, sh, x), File(name), 0)
    ensures StateOk(g, In(st, x)) && StateOk(g, In(st1, x))
    ensures ReadFile(g, In(st1, x), name, cap) == ReadFile(g, In(st, x), name, cap)
  {
    hide Slots, LbasOf, ShapeOk, DirOk, ReadFile, ReadChain, FirstCluster, FileSize, Named, SameFiles;
    ReadAgrees(g, In(st, x), sh, name, cap);
    ReadAgrees(g, In(st1, x), sh, name, cap);
    var a, b := DirSlots(g, st.disk, sh, x), DirSlots(g, st1.disk, sh, x);
    var f := Find(a, File(name), 0);
    if f.Some? {
      SlotIsOk(g, st.disk, st.tail, sh, x, f.value);
      ReadSlotSame(g, In(st, x), sh, In(st1, x), sh, f.value, cap);
      assert FirstCluster(b[f.value]) == FirstCluster(a[f.value]) && FileSize(b[f.value]) == FileSize(a[f.value]);
    }
  }
}
