/** fat_rename moves a file to a new name and touches nothing else. */
module Renaming {
  import opened Bytes
  import opened Names
  import opened FatTable
  import opened Layout
  import opened Directory
  import opened FatSpec
  import opened Volume
  import opened Removal
  import opened Runs
  import opened Reading
  import opened Frame
  import opened RoundTrip

  lemma RenameChanges(g: Geo, st: State, sh: Shape, oldName: Name, newName: Name, k: nat)
    requires Live(g, st, sh) && Find(DirSlots(g, st.disk, sh, st.cur), File(oldName), 0) == Some(k)
    ensures StateOk(g, st)
    ensures var st1 := After(st, Rename(g, st, oldName, newName));
      && Live(g, st1, sh) && StateOk(g, st1) && TableOf(g, st1) == TableOf(g, st)
      && OneSlotChanged(g, st, sh, st1, sh, k, Renamed(DirSlots(g, st.disk, sh, st.cur)[k], newName))
  {
    RenameOutcome(g, st, sh, oldName, newName, k);
    RenameKeeps(g, st, sh, oldName, newName, k);
    LiveStateOk(g, After(st, Rename(g, st, oldName, newName)), sh);
    hide Rename, Renamed, DirSlots, Find, Mounted, OneSlotChanged;
    SlotWrittenChanged(g, st, sh, k, Renamed(CurrentSlots(g, st, sh)[k], newName));
  }

  lemma RenamedFields(sl: Slot, newName: Name)
    ensures var r := Renamed(sl, newName);
      && RawNameOf(r) == Split83(newName) && r[0] == Split83(newName)[0] && r[11] == sl[11]
      && FirstCluster(r) == FirstCluster(sl) && FileSize(r) == FileSize(sl)
  {
    hide Split83, Word, Dword;
  }

  lemma RenamedJudged(sl: Slot, newName: Name, other: Name)
    requires IsFile(sl)
    ensures Judge(Renamed(sl, newName), File(newName)) == if Findable(newName) then Hit else Skip
    ensures OtherName(newName, other) ==> Judge(Renamed(sl, newName), File(other)) == Skip
    ensures Judge(Renamed(sl, newName), Subdir(other)) == Skip
    ensures FirstCluster(Renamed(sl, newName)) == FirstCluster(sl) && FileSize(Renamed(sl, newName)) == FileSize(sl)
  {
    hide Renamed, Split83, MakeName, Fits83, EqNoCase, FirstCluster, FileSize, RawNameOf, Bit;
    SplitFirst(newName);
    StoredMatches(newName);
    RenamedFields(sl, newName);
  }

  lemma BeforeLiveSkips(slots: seq<Slot>, k: nat, name: Name)
    requires ZeroTail(slots) && k < |slots| && slots[k][0] != 0 && Find(slots, File(name), 0).None?
    ensures forall x | 0 <= x < k :: Judge(slots[x], File(name)) == Skip
  {
    forall x | 0 <= x < k
      ensures Judge(slots[x], File(name)) == Skip
    {
      FindNone(slots, File(name), 0, x);
      assert slots[x][0] != 0;
    }
  }

  /** Reading the new name gives what the old name gave. */
  lemma RenameThenRead(g: Geo, st: State, sh: Shape, oldName: Name, newName: Name, k: nat, cap: nat)
    requires Live(g, st, sh) && Find(DirSlots(g, st.disk, sh, st.cur), File(oldName), 0) == Some(k)
    requires Find(DirSlots(g, st.disk, sh, st.cur), File(newName), 0).None? && Findable(newName)
    ensures StateOk(g, st) && Rename(g, st, oldName, newName).rc == 0
    ensures var st1 := After(st, Rename(g, st, oldName, newName));
      && StateOk(g, st1) && TableOf(g, st1) == TableOf(g, st)
      && ReadFile(g, st1, newName, cap) == ReadFile(g, st, oldName, cap)
  {
    RenameOutcome(g, st, sh, oldName, newName, k);
    RenameChanges(g, st, sh, oldName, newName, k);
    CurrentZeroTail(g, st, sh);
    var slots := DirSlots(g, st.disk, sh, st.cur);
    var sl := slots[k];
    RenamedJudged(sl, newName, newName);
    BeforeLiveSkips(slots, k, newName);
    FindShifted(slots, k, Renamed(sl, newName), File(newName), 0);
    var st1 := After(st, Rename(g, st, oldName, newName));
    hide Rename, Renamed, Mounted, Find, Judge, ReadFile, DirSlots, SameFiles, Findable, ZeroTail;
    ReadAgrees(g, st, sh, oldName, cap);
    ReadAgrees(g, st1, sh, newName, cap);
    RenamedSlotReads(g, st, sh, st1, k, Renamed(sl, newName), cap);
  }

  /** A new name that cannot be found is not there afterwards. */
  lemma RenameThenLost(g: Geo, st: State, sh: Shape, oldName: Name, newName: Name, k: nat, cap: nat)
    requires Live(g, st, sh) && Find(DirSlots(g, st.disk, sh, st.cur), File(oldName), 0) == Some(k)
    requires Find(DirSlots(g, st.disk, sh, st.cur), File(newName), 0).None? && !Findable(newName)
    ensures StateOk(g, st)
    ensures var st1 := After(st, Rename(g, st, oldName, newName));
      StateOk(g, st1) && ReadFile(g, st1, newName, cap) == NotRead
  {
    hide Rename, Renamed, Mounted, Find, ReadFile, DirSlots, SameFiles, Findable, ZeroTail, IsFile, Named;
    RenameChanges(g, st, sh, oldName, newName, k);
    CurrentZeroTail(g, st, sh);
    var slots := DirSlots(g, st.disk, sh, st.cur);
    NotHit(slots, oldName, newName, k);
    ReadAgrees(g, After(st, Rename(g, st, oldName, newName)), sh, newName, cap);
  }

  lemma NotHit(slots: seq<Slot>, oldName: Name, newName: Name, k: nat)
    requires ZeroTail(slots) && Find(slots, File(oldName), 0) == Some(k) && Find(slots, File(newName), 0).None?
    ensures !Findable(newName) ==> Find(slots[k := Renamed(slots[k], newName)], File(newName), 0).None?
  {
    RenamedJudged(slots[k], newName, newName);
    FindNone(slots, File(newName), 0, k);
    hide Renamed, Findable, ZeroTail, Judge;
    if !Findable(newName) {
      FindUnaffected(slots, k, Renamed(slots[k], newName), File(newName), 0);
    }
  }

  lemma RenamedSlotReads(g: Geo, st: State, sh: Shape, st1: State, k: nat, r: Slot, cap: nat)
    requires Live(g, st, sh) && Live(g, st1, sh) && StateOk(g, st) && StateOk(g, st1)
      && OneSlotChanged(g, st, sh, st1, sh, k, r)
    requires var sl := DirSlots(g, st.disk, sh, st.cur)[k];
      IsFile(sl) && FirstCluster(r) == FirstCluster(sl) && FileSize(r) == FileSize(sl)
    ensures ReadSlot(g, st1.disk, TableOf(g, st1), r, cap) ==
      ReadSlot(g, st.disk, TableOf(g, st), DirSlots(g, st.disk, sh, st.cur)[k], cap)
  {
    SlotIsOk(g, st.disk, st.tail, sh, st.cur, k);
    hide Live, IsFile, FirstCluster, FileSize, ReadChain, DirSlots, SameFiles;
    ReadSlotSame(g, st, sh, st1, sh, k, cap);
  }

  /** The old name is gone, if no other slot had it and the new one differs. */
  lemma RenameForgetsOld(g: Geo, st: State, sh: Shape, oldName: Name, newName: Name, k: nat, cap: nat)
    requires Live(g, st, sh) && Find(DirSlots(g, st.disk, sh, st.cur), File(oldName), 0) == Some(k)
    requires forall j | 0 <= j < |DirSlots(g, st.disk, sh, st.cur)| && j != k ::
      Judge(DirSlots(g, st.disk, sh, st.cur)[j], File(oldName)) != Hit
    requires OtherName(newName, oldName)
    ensures StateOk(g, st)
    ensures var st1 := After(st, Rename(g, st, oldName, newName));
      StateOk(g, st1) && ReadFile(g, st1, oldName, cap) == NotRead
  {
    hide Word, Dword, Slots, Joined, Get, Named, ReadFile, Rename;
    RenameChanges(g, st, sh, oldName, newName, k);
    var slots := DirSlots(g, st.disk, sh, st.cur);
    RenamedJudged(slots[k], newName, oldName);
    var st1 := After(st, Rename(g, st, oldName, newName));
    NowhereFound(slots, k, Renamed(slots[k], newName), oldName);
    hide Rename, Renamed, Mounted, Judge, ReadFile, DirSlots, SameFiles, OtherName, Find;
    ReadAgrees(g, st1, sh, oldName, cap);
  }

  lemma NowhereFound(slots: seq<Slot>, k: nat, r: Slot, name: Name)
    requires k < |slots| && Judge(r, File(name)) == Skip
    requires forall j | 0 <= j < |slots| && j != k :: Judge(slots[j], File(name)) != Hit
    ensures Find(slots[k := r], File(name), 0).None?
  {
    hide Judge;
  }

  lemma RenamedUnwanted(sl: Slot, oldName: Name, newName: Name, other: Name)
    requires Judge(sl, File(oldName)) == Hit && !EqNoCase(oldName, other) && OtherName(newName, other)
    ensures Unwanted(sl, Renamed(sl, newName), other)
  {
    RenamedJudged(sl, newName, other);
    OtherNotNamed(sl, oldName, other);
    hide Renamed, EqNoCase, OtherName, Named;
  }

  /** After fat_rename to a name that was not there, the new name reads what the
      old one did if it can be found, and is not there if it cannot. */
  lemma RenameThenReadIs(g: Geo, st: State, sh: Shape, oldName: Name, newName: Name, k: nat, cap: nat)
    requires Live(g, st, sh) && Find(DirSlots(g, st.disk, sh, st.cur), File(oldName), 0) == Some(k)
    requires Find(DirSlots(g, st.disk, sh, st.cur), File(newName), 0).None?
    ensures StateOk(g, st)
    ensures var st1 := After(st, Rename(g, st, oldName, newName));
      && StateOk(g, st1)
      && ReadFile(g, st1, newName, cap) == if Findable(newName) then ReadFile(g, st, oldName, cap) else NotRead
  {
    hide Rename, Mounted, Find, ReadFile, DirSlots, Findable;
    if Findable(newName) {
      RenameThenRead(g, st, sh, oldName, newName, k, cap);
    } else {
      RenameThenLost(g, st, sh, oldName, newName, k, cap);
    }
  }

  /** Every third name, in every directory, is left alone. */
  lemma RenameFrame(g: Geo, st: State, sh: Shape, oldName: Name, newName: Name, k: nat, x: nat, other: Name, cap: nat)
    requires Live(g, st, sh) && Find(DirSlots(g, st.disk, sh, st.cur), File(oldName), 0) == Some(k) && x in sh.depth
    requires x == st.cur ==> !EqNoCase(oldName, other) && OtherName(newName, other)
    ensures StateOk(g, st) && SameView(g, st, After(st, Rename(g, st, oldName, newName)), x, other, cap)
  {
    RenameChanges(g, st, sh, oldName, newName, k);
    StoredOthersKept(g, st, sh, sh, k);
    var sl := DirSlots(g, st.disk, sh, st.cur)[k];
    if x == st.cur {
      RenamedUnwanted(sl, oldName, newName, other);
    }
    hide Rename, Renamed, Mounted, DirSlots, Find, OneSlotChanged, OthersKept, Unwanted, SameView, Judge, EqNoCase,
      OtherName;
    ViewElsewhere(g, st, sh, After(st, Rename(g, st, oldName, newName)), sh, k, Renamed(sl, newName), x, other, cap);
  }
}
